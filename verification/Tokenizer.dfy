/** The input stream and `nextToken` (lib/serialisation.cpp). */
module Tokenizer {
  import opened Results
  import opened Brackets

  /** What is left of a stream, and whether a read has hit its end. */
  datatype Cursor = Cursor(rest: string, eof: bool) {
    predicate Valid() {
      eof ==> rest == ""
    }

    /** Falls with every token taken before the end was seen. */
    function Budget(): nat {
      |rest| + if eof then 0 else 1
    }
  }

  const END := Cursor("", true)

  /** `if (in.peek() == ',') in.get();` with `r` still to be read. */
  function EatComma(r: string): Cursor {
    if r == "" then END else if r[0] == ',' then Cursor(r[1..], false) else Cursor(r, false)
  }

  /** Characters before the first quote that no backslash precedes. */
  function QuoteLength(s: string, hadBackSlash: bool): (n: nat)
    ensures n <= |s|
  {
    if s == "" || (s[0] == '"' && !hadBackSlash) then 0 else 1 + QuoteLength(s[1..], s[0] == '\\')
  }

  function PlainLength(s: string): (n: nat)
    ensures n <= |s|
  {
    if s == "" || s[0] == ',' then 0 else 1 + PlainLength(s[1..])
  }

  datatype Token = Token(text: string, next: Cursor)

  /** A bracketed token whose opening bracket has been read; the scan also takes one character beyond
      the closing bracket, and then a comma. */
  function ScopeToken(b: Bracket, s: string): Token {
    var k := ScopeLength(s, b, 1);
    Token([b.Open()] + s[..k], if k == |s| then END else EatComma(s[k + 1..]))
  }

  /** A quoted token whose opening quote has been read. */
  function QuoteToken(s: string): Token {
    var k := QuoteLength(s, false);
    Token(s[..k], if k == |s| then END else EatComma(s[k + 1..]))
  }

  function PlainToken(s: string): Token {
    var k := PlainLength(s);
    Token(s[..k], if k == |s| then END else Cursor(s[k + 1..], false))
  }

  function NextToken(c: Cursor): (t: Token)
    requires c.Valid()
    ensures t.next.Valid()
    ensures !c.eof ==> t.next.Budget() < c.Budget()
    ensures c.eof ==> t.next.eof
  {
    if c.rest == "" then Token("", END)
    else match c.rest[0]
      case '[' => ScopeToken(Square, c.rest[1..])
      case '{' => ScopeToken(Curly, c.rest[1..])
      case '"' => QuoteToken(c.rest[1..])
      case _ => PlainToken(c.rest)
  }

  /** `std::istringstream`, cut down to what the codec uses. */
  class InStream {
    const data: string
    var pos: nat
    var eof: bool

    ghost predicate Valid()
      reads this
    {
      pos <= |data| && (eof ==> pos == |data|)
    }

    ghost function View(): (c: Cursor)
      requires Valid()
      reads this
      ensures c.Valid()
    {
      Cursor(data[pos..], eof)
    }

    constructor (data: string)
      ensures Valid() && View() == Cursor(data, false)
    {
      this.data := data;
      pos, eof := 0, false;
      new;
      assert data[0..] == data;
    }

    method Peek() returns (c: Option<char>)
      requires Valid()
      modifies this
      ensures Valid() && pos == old(pos)
      ensures c == if pos < |data| then Some(data[pos]) else None
      ensures eof == (pos == |data|)
    {
      if pos == |data| {
        eof := true;
        c := None;
      } else {
        c := Some(data[pos]);
      }
    }

    method Get() returns (c: Option<char>)
      requires Valid()
      modifies this
      ensures Valid()
      ensures c == if old(pos) < |data| then Some(data[old(pos)]) else None
      ensures pos == if c.Some? then old(pos) + 1 else old(pos)
      ensures eof == c.None?
    {
      c := Peek();
      if c.Some? {
        pos := pos + 1;
      }
    }

    method SkipComma()
      requires Valid() && !eof
      modifies this
      ensures Valid() && View() == EatComma(old(data[pos..]))
    {
      var c := Peek();
      if c == Some(',') {
        var _ := Get();
      }
    }

    /** `nextToken`, branch by branch. */
    method ReadToken() returns (ret: string)
      requires Valid()
      modifies this
      ensures Valid() && Token(ret, View()) == NextToken(old(View()))
    {
      var c := Peek();
      if c.None? {
        return "";
      }
      if c.value == '[' || c.value == '{' {
        ret := ReadScope(if c.value == '[' then Square else Curly);
      } else if c.value == '"' {
        var _ := Get();
        ret := ReadQuoted();
      } else {
        ret := ReadPlain();
      }
    }

    method ReadScope(b: Bracket) returns (ret: string)
      requires Valid() && pos < |data| && data[pos] == b.Open()
      modifies this
      ensures Valid() && Token(ret, View()) == ScopeToken(b, old(data[pos + 1..]))
    {
      var startBrace := Get();
      ghost var s := data[pos..];
      var body, c := ScanScope(b, s);
      FinishToken(s, |body|, c);
      ret := [startBrace.value] + body;
    }

    /** The scan loop of a bracketed token. */
    method ScanScope(b: Bracket, ghost s: string) returns (body: string, c: Option<char>)
      requires Valid() && !eof && s == data[pos..]
      modifies this
      ensures body == s[..ScopeLength(s, b, 1)]
      ensures Ahead(s, |body|, c)
    {
      hide ScopeLength, EatComma;
      body := "";
      var scopeDepth := 1;
      c := Get();
      assert s[0..] == s;
      while c.Some? && scopeDepth > 0
        invariant Ahead(s, |body|, c)
        invariant body == s[..|body|]
        invariant ScopeLength(s, b, 1) == |body| + ScopeLength(s[|body|..], b, scopeDepth)
        decreases |s| - |body|
      {
        TakeOne(s, |body|);
        ScopeLengthAt(s, b, |body|, scopeDepth);
        body := body + [c.value];
        if c.value == b.Open() {
          scopeDepth := scopeDepth + 1;
        } else if c.value == b.Close() {
          scopeDepth := scopeDepth - 1;
        }
        c := Advance(s, |body| - 1);
      }
      ScopeLengthAt(s, b, |body|, scopeDepth);
    }

    method ReadQuoted() returns (ret: string)
      requires Valid() && !eof
      modifies this
      ensures Valid() && Token(ret, View()) == QuoteToken(old(data[pos..]))
    {
      hide QuoteLength, EatComma;
      ghost var s := data[pos..];
      ret := "";
      var c := Get();
      var hadBackSlash := false;
      assert s[0..] == s;
      while c.Some? && !(c.value == '"' && !hadBackSlash)
        invariant Ahead(s, |ret|, c)
        invariant ret == s[..|ret|]
        invariant QuoteLength(s, false) == |ret| + QuoteLength(s[|ret|..], hadBackSlash)
        decreases |s| - |ret|
      {
        TakeOne(s, |ret|);
        QuoteLengthAt(s, |ret|, hadBackSlash);
        ret := ret + [c.value];
        hadBackSlash := c.value == '\\';
        c := Advance(s, |ret| - 1);
      }
      QuoteLengthAt(s, |ret|, hadBackSlash);
      FinishToken(s, |ret|, c);
    }

    method ReadPlain() returns (ret: string)
      requires Valid() && !eof
      modifies this
      ensures Valid() && Token(ret, View()) == PlainToken(old(data[pos..]))
    {
      hide PlainLength;
      ghost var s := data[pos..];
      ret := "";
      var c := Get();
      assert s[0..] == s;
      while c.Some? && c.value != ','
        invariant Ahead(s, |ret|, c)
        invariant ret == s[..|ret|]
        invariant PlainLength(s) == |ret| + PlainLength(s[|ret|..])
        decreases |s| - |ret|
      {
        TakeOne(s, |ret|);
        PlainLengthAt(s, |ret|);
        ret := ret + [c.value];
        c := Advance(s, |ret| - 1);
      }
      PlainLengthAt(s, |ret|);
      if c.Some? {
        assert data[pos..] == s[|ret| + 1..];
      }
    }

    /** The loops keep one character in hand: `c` is the one after the `scanned` first of `s`. */
    ghost predicate Ahead(s: string, scanned: nat, c: Option<char>)
      reads this
    {
      && Valid()
      && scanned <= |s| <= |data|
      && s == data[|data| - |s|..]
      && eof == c.None? == (scanned == |s|)
      && (c.Some? ==> c.value == s[scanned] && pos == |data| - |s| + scanned + 1)
    }

    /** The next character of a scan. */
    method Advance(ghost s: string, ghost scanned: nat) returns (c: Option<char>)
      requires scanned < |s| && Ahead(s, scanned, Some(s[scanned]))
      modifies this
      ensures Ahead(s, scanned + 1, c)
    {
      c := Get();
    }

    /** After a bracketed or quoted token: a comma that follows the character in hand is skipped. */
    method FinishToken(ghost s: string, ghost scanned: nat, c: Option<char>)
      requires Ahead(s, scanned, c)
      modifies this
      ensures Valid()
      ensures View() == if scanned == |s| then END else EatComma(s[scanned + 1..])
    {
      if c.Some? {
        assert data[pos..] == s[scanned + 1..];
        SkipComma();
      } else {
        var _ := Peek();
      }
    }
  }

  lemma {:induction false} ScopeLengthAt(s: string, b: Bracket, k: nat, depth: int)
    requires k <= |s|
    ensures ScopeLength(s[k..], b, depth) ==
            if k == |s| || depth <= 0 then 0 else 1 + ScopeLength(s[k + 1..], b, b.Bump(s[k], depth))
  {
    assert k < |s| ==> s[k..][1..] == s[k + 1..];
  }

  lemma {:induction false} QuoteLengthAt(s: string, k: nat, hadBackSlash: bool)
    requires k <= |s|
    ensures QuoteLength(s[k..], hadBackSlash) ==
            if k == |s| || (s[k] == '"' && !hadBackSlash) then 0 else 1 + QuoteLength(s[k + 1..], s[k] == '\\')
  {
    assert k < |s| ==> s[k..][1..] == s[k + 1..];
  }

  lemma {:induction false} PlainLengthAt(s: string, k: nat)
    requires k <= |s|
    ensures PlainLength(s[k..]) == if k == |s| || s[k] == ',' then 0 else 1 + PlainLength(s[k + 1..])
  {
    assert k < |s| ==> s[k..][1..] == s[k + 1..];
  }

  lemma {:induction false} TakeOne(s: string, k: nat)
    requires k < |s|
    ensures s[..k + 1] == s[..k] + [s[k]]
  {
  }
}
