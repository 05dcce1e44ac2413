/** When `nextToken` returns exactly one printed field and stops at the next one. */
module Framing {
  import opened Brackets
  import opened Escaping
  import opened Tokenizer

  /** What may follow a field: the end of the text, or one comma and text that starts with no comma. */
  predicate IsTail(tail: string) {
    tail == "" || (tail[0] == ',' && (|tail| == 1 || tail[1] != ','))
  }

  /** Where the stream stands once the field in front of `tail` has been taken. A bracketed token reads
      ahead, so it sees the end of the text behind a last comma. */
  function AfterTail(bracketed: bool, tail: string): (c: Cursor)
    ensures c.Valid()
  {
    if tail == "" || (bracketed && |tail| == 1) then END else Cursor(tail[1..], false)
  }

  function InBrackets(b: Bracket, body: string): string {
    [b.Open()] + body + [b.Close()]
  }

  /** How far the scan of a bracketed body goes, against the place of its own closing bracket. */
  lemma {:induction false} ScopeLengthInBrackets(b: Bracket, body: string, tail: string)
    ensures var k := ScopeLength(body + ([b.Close()] + tail), b, 1);
            var depth := DepthAfter(body, b, 1);
            if !Stays(body, b, 1) then k <= |body|
            else if depth == 1 || tail == "" then k == |body| + 1
            else k > |body| + 1
  {
    if Stays(body, b, 1) {
      ScopeLengthOfOpen(body, [b.Close()] + tail, b, 1);
      assert ([b.Close()] + tail)[1..] == tail;
    } else {
      ScopeLengthOfClosed(body, [b.Close()] + tail, b, 1);
    }
  }

  /** Bracketed text is taken whole exactly when its body keeps the scope open, and closes all that it
      opened, unless nothing follows: at the end of the text brackets left open do no harm. */
  lemma {:induction false} ScopeFraming(b: Bracket, body: string, tail: string)
    requires IsTail(tail)
    ensures var t := NextToken(Cursor(InBrackets(b, body) + tail, false));
            && (t.text == InBrackets(b, body) <==> Stays(body, b, 1) && (tail == "" || DepthAfter(body, b, 1) == 1))
            && (t.text == InBrackets(b, body) ==> t.next == AfterTail(true, tail))
  {
    var s := body + ([b.Close()] + tail);
    assert (InBrackets(b, body) + tail)[1..] == s;
    ScopeLengthInBrackets(b, body, tail);
    var k := ScopeLength(s, b, 1);
    if k == |body| + 1 {
      assert [b.Open()] + s[..k] == InBrackets(b, body);
      assert tail != "" ==> s[k + 1..] == tail[1..];
    }
  }

  lemma {:induction false} EndsLikeRest(s: string)
    requires s != ""
    ensures EndsInBackslash(s) <==> if |s| == 1 then s[0] == '\\' else EndsInBackslash(s[1..])
  {
  }

  /** The quotes that escaping puts a backslash before do not end the token. */
  lemma {:induction false} QuoteLengthOfEscape(s: string, x: string, hadBackSlash: bool)
    ensures QuoteLength(Escape(s) + x, hadBackSlash) ==
            |Escape(s)| + QuoteLength(x, if s == "" then hadBackSlash else EndsInBackslash(s))
  {
    if s == "" {
      assert Escape(s) + x == x;
    } else {
      EscapeStep(s);
      hide Escape, EndsInBackslash;
      EndsLikeRest(s);
      var rest := Escape(s[1..]) + x;
      if s[0] == '"' {
        assert (Escape(s) + x)[1..][1..] == rest;
        QuoteLengthOfEscape(s[1..], x, false);
      } else {
        assert (Escape(s) + x)[1..] == rest;
        QuoteLengthOfEscape(s[1..], x, s[0] == '\\');
      }
    }
  }

  /** Where the scan ends decides about the token: at the quote behind the text, or later. */
  lemma {:induction false} QuoteTokenOf(text: string, tail: string)
    requires IsTail(tail) && QuoteLength(text + ("\"" + tail), false) >= |text|
    ensures var k := QuoteLength(text + ("\"" + tail), false);
            var t := QuoteToken(text + ("\"" + tail));
            if k == |text| then t == Token(text, AfterTail(false, tail)) else t.text != text && text + "\"" <= t.text
  {
    hide QuoteLength;
    var all := text + ("\"" + tail);
    var k := QuoteLength(all, false);
    assert all[..|text|] == text && all[|text| + 1..] == tail;
    if k > |text| {
      assert all[..k][..|text| + 1] == text + "\"";
    }
  }

  /** A printed string comes back as its escaped form exactly when it does not end in a backslash;
      otherwise the token runs over the closing quote. */
  lemma {:induction false} QuoteFraming(s: string, tail: string)
    requires IsTail(tail)
    ensures var t := NextToken(Cursor("\"" + Escape(s) + "\"" + tail, false));
            && (t.text == Escape(s) <==> !EndsInBackslash(s))
            && (EndsInBackslash(s) ==> Escape(s) + "\"" <= t.text)
            && (t.text == Escape(s) ==> t.next == AfterTail(false, tail))
  {
    var whole := "\"" + Escape(s) + "\"" + tail;
    var text := Escape(s) + ("\"" + tail);
    assert whole[1..] == text && NextToken(Cursor(whole, false)) == QuoteToken(text);
    QuoteLengthOfEscape(s, "\"" + tail, false);
    assert QuoteLength(text, false) > |Escape(s)| <==> EndsInBackslash(s);
    QuoteTokenOf(Escape(s), tail);
  }

  /** Without its closing quote, at the end of the text, every string comes back escaped. */
  lemma {:induction false} OpenQuoteFraming(s: string)
    ensures NextToken(Cursor("\"" + Escape(s), false)) == Token(Escape(s), END)
  {
    assert ("\"" + Escape(s))[1..] == Escape(s) + "";
    QuoteLengthOfEscape(s, "", false);
    assert (Escape(s) + "")[..|Escape(s)|] == Escape(s);
  }

  /** The top level codec law for strings, with its exact domain. */
  lemma {:induction false} StringComesBackExactly(s: string)
    ensures NextToken(Cursor("\"" + Escape(s) + "\"", false)).text == s <==> '"' !in s && !EndsInBackslash(s)
  {
    assert "\"" + Escape(s) + "\"" + "" == "\"" + Escape(s) + "\"";
    QuoteFraming(s, "");
    EscapeIsIdentity(s);
    EscapeLastChar(s);
  }

  lemma {:induction false} PlainLengthOf(s: string, tail: string)
    requires ',' !in s && IsTail(tail)
    ensures PlainLength(s + tail) == |s|
  {
    if s == "" {
      assert s + tail == tail;
    } else {
      assert (s + tail)[1..] == s[1..] + tail;
      PlainLengthOf(s[1..], tail);
    }
  }

  /** Text that is neither bracketed nor quoted is taken up to the comma. */
  lemma {:induction false} PlainFraming(s: string, tail: string)
    requires ',' !in s && IsTail(tail) && s != ""
    requires s[0] != '[' && s[0] != '{' && s[0] != '"'
    ensures NextToken(Cursor(s + tail, false)) == Token(s, AfterTail(false, tail))
  {
    PlainLengthOf(s, tail);
    assert (s + tail)[..|s|] == s;
    assert tail != "" ==> (s + tail)[|s| + 1..] == tail[1..];
  }

  /** A balanced bracketed token in front of any text: the character behind it is lost, whatever it is, and a
      comma after that is skipped. */
  lemma {:induction false} ScopeBeforeAnything(b: Bracket, body: string, tail: string)
    requires Neutral(body, b)
    ensures NextToken(Cursor(InBrackets(b, body) + tail, false)) ==
            Token(InBrackets(b, body),
                  if |tail| <= 1 then END
                  else Cursor(if tail[1] == ',' then tail[2..] else tail[1..], false))
  {
    var s := body + ([b.Close()] + tail);
    assert (InBrackets(b, body) + tail)[1..] == s;
    ScopeLengthInBrackets(b, body, tail);
    var k := |body| + 1;
    assert [b.Open()] + s[..k] == InBrackets(b, body);
    assert |tail| > 0 ==> s[k + 1..] == tail[1..];
    assert |tail| > 1 ==> tail[1..][1..] == tail[2..];
  }

  /** A printed string in front of any text: only a comma is skipped. */
  lemma {:induction false} QuoteBeforeAnything(s: string, tail: string)
    requires !EndsInBackslash(s)
    ensures NextToken(Cursor("\"" + Escape(s) + "\"" + tail, false)) ==
            Token(Escape(s), if tail == "" then END else Cursor(if tail[0] == ',' then tail[1..] else tail, false))
  {
    var whole := "\"" + Escape(s) + "\"" + tail;
    var text := Escape(s) + ("\"" + tail);
    assert whole[1..] == text && NextToken(Cursor(whole, false)) == QuoteToken(text);
    QuoteLengthOfEscape(s, "\"" + tail, false);
    assert QuoteLength(text, false) == |Escape(s)|;
    hide NextToken, QuoteLength, Escape, EndsInBackslash;
    assert text[..|Escape(s)|] == Escape(s) && text[|Escape(s)| + 1..] == tail;
  }

  /** Other text up to a comma, and one comma only. */
  lemma {:induction false} PlainBeforeComma(s: string, rest: string)
    requires ',' !in s && (s != "" ==> s[0] != '[' && s[0] != '{' && s[0] != '"')
    ensures NextToken(Cursor(s + ("," + rest), false)) == Token(s, Cursor(rest, false))
  {
    PlainLengthBefore(s, rest);
    var text := s + ("," + rest);
    assert text[..|s|] == s && text[|s| + 1..] == rest;
    assert text[0] == if s == "" then ',' else s[0];
  }

  lemma {:induction false} PlainLengthBefore(s: string, rest: string)
    requires ',' !in s
    ensures PlainLength(s + ("," + rest)) == |s|
  {
    if s == "" {
      assert s + ("," + rest) == "," + rest;
    } else {
      assert (s + ("," + rest))[1..] == s[1..] + ("," + rest);
      PlainLengthBefore(s[1..], rest);
    }
  }
}
