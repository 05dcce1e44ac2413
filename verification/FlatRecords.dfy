/** Objects whose fields are strings and ints, as RMI packets are: the exact set on which printing and
    reading back is the identity. */
module FlatRecords {
  import opened Results
  import opened Decimal
  import opened Brackets
  import opened Escaping
  import opened Tokenizer
  import opened Framing
  import opened Values
  import opened Printing
  import opened Reading

  /** A string that `nextToken` gives back as it was. */
  predicate Quotable(s: string) {
    '"' !in s && !EndsInBackslash(s)
  }

  predicate Flat(vs: seq<Value>) {
    vs == [] || ((vs[0].VInt? || vs[0].VStr?) && Flat(vs[1..]))
  }

  predicate AllQuotable(vs: seq<Value>) {
    vs == [] || ((vs[0].VStr? ==> Quotable(vs[0].s)) && AllQuotable(vs[1..]))
  }

  lemma {:induction false} QuoteLengthOfPrefix(s: string, j: nat, hadBackSlash: bool)
    requires j <= QuoteLength(s, hadBackSlash)
    ensures QuoteLength(s[..j], hadBackSlash) == j
  {
    if j > 0 {
      QuoteLengthOfPrefix(s[1..], j - 1, s[0] == '\\');
      assert s[..j][1..] == s[1..][..j - 1];
    }
  }

  /** Where escaping changes a string, the escaped form differs from it at once. */
  lemma {:induction false} EscapePrefix(s: string)
    ensures |Escape(s)| >= |s|
    ensures Escape(s)[..|s|] == s ==> '"' !in s
  {
    EscapeLastChar(s);
    if s != "" {
      EscapeStep(s);
      EscapePrefix(s[1..]);
      if Escape(s)[..|s|] == s {
        assert Escape(s)[0] == s[0];
        assert Escape(s)[1..] == Escape(s[1..]);
        assert Escape(s)[..|s|][1..] == Escape(s[1..])[..|s| - 1];
      }
    }
  }

  /** Text that is cut off either not at all or just before a closing brace. */
  predicate CutAt(full: string, m: nat) {
    m <= |full| && (m < |full| ==> full[m] == '}')
  }

  /** A string cut inside its quotes does not come back. */
  lemma {:induction false} CutString(s: string, m: nat)
    requires 0 < m <= |Escape(s)| + 1 && CutAt("\"" + Escape(s) + "\"", m)
    ensures NextToken(Cursor(("\"" + Escape(s) + "\"")[..m], false)).text != s
  {
    var full, part := "\"" + Escape(s) + "\"", Escape(s)[..m - 1];
    assert full[..m][1..] == part;
    QuoteLengthOfEscape(s, "", false);
    assert Escape(s) + "" == Escape(s);
    QuoteLengthOfPrefix(Escape(s), m - 1, false);
    assert part[..m - 1] == part;
    if part == s {
      EscapePrefix(s);
      EscapeIsIdentity(s);
    }
  }

  /** A string field, whole or cut: it comes back exactly when it is quotable and not cut. */
  lemma {:induction false} StringFieldExactly(s: string, tail: string, m: nat)
    requires IsTail(tail) && CutAt("\"" + Escape(s) + "\"" + tail, m)
    ensures var t := NextToken(Cursor(("\"" + Escape(s) + "\"" + tail)[..m], false));
            && (t.text == s <==> Quotable(s) && m >= |Escape(s)| + 2)
            && (t.text == s ==> t.next == AfterTail(false, tail[..m - |Escape(s)| - 2]))
  {
    var quoted := "\"" + Escape(s) + "\"";
    var full := quoted + tail;
    assert full[0] == '"';
    if m <= |Escape(s)| + 1 {
      assert full[..m] == quoted[..m];
      CutString(s, m);
    } else {
      var rest := tail[..m - |quoted|];
      assert full[..m] == quoted + rest;
      QuoteFraming(s, rest);
      EscapeIsIdentity(s);
      EscapeLastChar(s);
    }
  }

  /** One field in front of others: what is left for them after the cut. */
  lemma {:induction false} FlatFieldExactly(t: Schema, v: Value, tail: string, m: nat)
    requires (v.VInt? || v.VStr?) && HasType(t, v)
    requires IsTail(tail) && CutAt(Print(v) + tail, m) && (tail != "" ==> tail[0] != '}')
    ensures var token := NextToken(Cursor((Print(v) + tail)[..m], false));
            && (FromToken(t, Default(t), token.text) == Ok(v) <==>
                m >= |Print(v)| && (v.VStr? ==> Quotable(v.s)))
            && (FromToken(t, Default(t), token.text) == Ok(v) ==>
                token.next == AfterTail(false, tail[..m - |Print(v)|]))
  {
    var full := Print(v) + tail;
    match v
    case VInt(n) =>
      assert forall i :: 0 <= i < |Print(v)| ==> full[i] == Print(v)[i];
      assert m >= |Print(v)|;
      var rest := tail[..m - |Print(v)|];
      assert full[..m] == Print(v) + rest;
      PlainFraming(Print(v), rest);
      StoiOfToString(n);
    case VStr(s) =>
      StringFieldExactly(s, tail, m);
  }

  /** The cut, seen from the fields behind the first. */
  lemma {:induction false} CutBehindFirst(v: Value, more: seq<Value>, m: nat)
    requires more != [] && Flat(more) && |Print(v)| <= m
    requires CutAt(Print(v) + ("," + PrintFields(more)), m)
    ensures m > |Print(v)|
    ensures CutAt(PrintFields(more), m - |Print(v)| - 1)
    ensures AfterTail(false, ("," + PrintFields(more))[..m - |Print(v)|]) ==
            Cursor(PrintFields(more)[..m - |Print(v)| - 1], false)
  {
    var full, rest := Print(v) + ("," + PrintFields(more)), PrintFields(more);
    assert full[|Print(v)|] == ',' && full[|Print(v)| + 1..] == rest;
    var m' := m - |Print(v)| - 1;
    assert m' < |rest| ==> full[m] == rest[m'];
    assert ("," + rest)[..m' + 1][1..] == rest[..m'];
  }

  /** Fresh variables, read from here, end up with these values. */
  predicate ComesBack(ts: seq<Schema>, vs: seq<Value>, c: Cursor)
    requires c.Valid()
  {
    var r := ReadFields(ts, Defaults(ts), c);
    r.Ok? && r.value.0 == vs
  }

  /** A row comes back exactly when its first field does and then the others do. */
  lemma {:induction false} FlatFieldsFirst(ts: seq<Schema>, vs: seq<Value>, m: nat)
    requires vs != [] && HaveTypes(ts, vs) && Flat(vs) && CutAt(PrintFields(vs), m)
    ensures ComesBack(ts, vs, Cursor(PrintFields(vs)[..m], false)) <==>
            && m >= |Print(vs[0])| && (vs[0].VStr? ==> Quotable(vs[0].s))
            && ComesBack(ts[1..], vs[1..], AfterTail(false, RowTail(vs[1..])[..m - |Print(vs[0])|]))
  {
    hide *;
    FirstOfRow(ts, vs, m);
    var c := Cursor(PrintFields(vs)[..m], false);
    var v, tail := vs[0], RowTail(vs[1..]);
    FlatFieldExactly(ts[0], v, tail, m);
    var ok := m >= |Print(v)| && (v.VStr? ==> Quotable(v.s));
    if ok {
      ComesBackFirst(ts, vs, c, ok, AfterTail(false, tail[..m - |Print(v)|]));
    } else {
      ComesBackFirst(ts, vs, c, ok, END);
    }
  }

  /** The first of a flat row, and what follows it. */
  lemma {:induction false} FirstOfRow(ts: seq<Schema>, vs: seq<Value>, m: nat)
    requires vs != [] && HaveTypes(ts, vs) && Flat(vs) && CutAt(PrintFields(vs), m)
    ensures ts != [] && HasType(ts[0], vs[0]) && (vs[0].VInt? || vs[0].VStr?)
    ensures var tail := RowTail(vs[1..]);
            && PrintFields(vs) == Print(vs[0]) + tail && m <= |Print(vs[0])| + |tail|
            && IsTail(tail) && (tail != "" ==> tail[0] != '}')
    ensures Cursor(PrintFields(vs)[..m], false).Valid() && END.Valid()
  {
    PrintRow(vs);
  }

  /** One field, given when its token is read as it should be and where the stream is then. */
  lemma {:induction false} ComesBackFirst(ts: seq<Schema>, vs: seq<Value>, c: Cursor, ok: bool, next: Cursor)
    requires ts != [] && vs != [] && c.Valid() && next.Valid()
    requires FromToken(ts[0], Default(ts[0]), NextToken(c).text) == Ok(vs[0]) <==> ok
    requires ok ==> NextToken(c).next == next
    ensures ComesBack(ts, vs, c) <==> ok && ComesBack(ts[1..], vs[1..], next)
  {
    hide NextToken, FromToken, ReadFields, HaveTypes;
    assert Defaults(ts)[0] == Default(ts[0]) && Defaults(ts)[1..] == Defaults(ts[1..]);
    ReadFieldsGives(ts, Defaults(ts), c, vs);
  }

  lemma {:induction false} NothingComesBack(c: Cursor)
    requires c.Valid()
    ensures ComesBack([], [], c)
  {
  }

  /** A row of flat fields, whole or cut before a brace, is read back exactly when it is whole and every
      string in it is quotable. */
  lemma {:induction false} FlatFieldsExactly(ts: seq<Schema>, vs: seq<Value>, m: nat)
    requires vs != [] && HaveTypes(ts, vs) && Flat(vs) && CutAt(PrintFields(vs), m)
    ensures ComesBack(ts, vs, Cursor(PrintFields(vs)[..m], false)) <==>
            m == |PrintFields(vs)| && AllQuotable(vs)
    decreases vs
  {
    hide ComesBack, Print, Quotable, AfterTail, HasType;
    PrintRow(vs);
    FlatFieldsFirst(ts, vs, m);
    if |vs| == 1 {
      OneFlatField(ts, vs, m);
    } else if m >= |Print(vs[0])| {
      hide PrintFields;
      CutBehindFirst(vs[0], vs[1..], m);
      FlatFieldsExactly(ts[1..], vs[1..], m - |Print(vs[0])| - 1);
    }
  }

  lemma {:induction false} OneFlatField(ts: seq<Schema>, vs: seq<Value>, m: nat)
    requires |vs| == 1 && HaveTypes(ts, vs) && Flat(vs) && CutAt(PrintFields(vs), m)
    ensures ComesBack(ts, vs, Cursor(PrintFields(vs)[..m], false)) <==>
            m == |PrintFields(vs)| && AllQuotable(vs)
  {
    hide ComesBack, Print, Quotable, AfterTail, HasType;
    FlatFieldsFirst(ts, vs, m);
    assert ts[1..] == [] && vs[1..] == [] && PrintFields(vs) == Print(vs[0]);
    if m >= |Print(vs[0])| {
      NothingComesBack(AfterTail(false, RowTail(vs[1..])[..m - |Print(vs[0])|]));
    }
  }

  lemma {:induction false} PrintFieldsHead(vs: seq<Value>)
    requires vs != [] && Flat(vs)
    ensures PrintFields(vs)[0] != '}'
  {
    assert PrintFields(vs)[0] == Print(vs[0])[0];
  }

  /** The text of an object that is closed early by a brace at `k - 1` of its body. */
  lemma {:induction false} ClosedEarly(vs: seq<Value>)
    requires vs != [] && Flat(vs) && !Stays(PrintFields(vs), Curly, 1)
    ensures var body := PrintFields(vs);
            var text := NextToken(Cursor("{" + body + "}", false)).text;
            exists m: nat :: m < |body| && body[m] == '}' && Inside(text) == Cursor(body[..m], false)
  {
    var body := PrintFields(vs);
    ScopeLengthOfClosed(body, "}", Curly, 1);
    var k := ScopeLength(body + "}", Curly, 1);
    assert ("{" + body + "}")[1..] == body + "}";
    PrintFieldsHead(vs);
    var text := "{" + body[..k];
    assert text == "{" + (body + "}")[..k];
    assert text[1..|text| - 1] == body[..k - 1];
    assert k - 1 < |body| && body[k - 1] == '}' && Inside(text) == Cursor(body[..k - 1], false);
  }

  /** The round trip of flat objects, with its exact domain: every string is quotable, and the braces in
      the strings never close the object early. */
  lemma {:induction false} FlatRecordExactly(ts: seq<Schema>, vs: seq<Value>)
    requires vs != [] && HaveTypes(ts, vs) && Flat(vs)
    ensures var r := Read(TObj(ts), Default(TObj(ts)), Cursor(Print(VObj(vs)), false));
            r.Ok? && r.value.0 == VObj(vs) <==> AllQuotable(vs) && Stays(PrintFields(vs), Curly, 1)
  {
    var body, text := PrintFields(vs), Print(VObj(vs));
    ReadObject(ts, Defaults(ts), Cursor(text, false));
    hide NextToken, Read, FromToken, ReadFields, PrintFields, Flat, HaveTypes, HasType, AllQuotable, Stays, Defaults;
    if Stays(body, Curly, 1) {
      assert text == InBrackets(Curly, body) + "";
      ScopeFraming(Curly, body, "");
      assert text[1..|text| - 1] == body && body[..|body|] == body;
      FlatFieldsExactly(ts, vs, |body|);
    } else {
      ClosedEarly(vs);
      var m: nat :| m < |body| && body[m] == '}' &&
                    Inside(NextToken(Cursor(text, false)).text) == Cursor(body[..m], false);
      FlatFieldsExactly(ts, vs, m);
    }
  }

  /** The strings of a row of fields, one behind the other. */
  function StringsOf(vs: seq<Value>): string {
    if vs == [] then "" else (if vs[0].VStr? then vs[0].s else "") + StringsOf(vs[1..])
  }

  lemma {:induction false} FlatCons(v: Value, vs: seq<Value>)
    ensures Flat([v] + vs) <==> (v.VInt? || v.VStr?) && Flat(vs)
    ensures AllQuotable([v] + vs) <==> (v.VStr? ==> Quotable(v.s)) && AllQuotable(vs)
    ensures StringsOf([v] + vs) == (if v.VStr? then v.s else "") + StringsOf(vs)
  {
    assert ([v] + vs)[1..] == vs;
  }

  lemma {:induction false} EscapeKeepsDepth(s: string, b: Bracket, depth: int)
    ensures DepthAfter(Escape(s), b, depth) == DepthAfter(s, b, depth)
    ensures depth >= 1 ==> (Stays(Escape(s), b, depth) <==> Stays(s, b, depth))
  {
    if s != "" {
      EscapeStep(s);
      var depth' := b.Bump(s[0], depth);
      DepthOfConcat(if s[0] == '"' then "\\\"" else [s[0]], Escape(s[1..]), b, depth);
      EscapeKeepsDepth(s[1..], b, depth');
    }
  }

  lemma {:induction false} FlatFieldDepth(v: Value, depth: int)
    requires (v.VInt? || v.VStr?) && depth >= 1
    ensures var s := if v.VStr? then v.s else "";
            && DepthAfter(Print(v), Curly, depth) == DepthAfter(s, Curly, depth)
            && (Stays(Print(v), Curly, depth) <==> Stays(s, Curly, depth))
  {
    match v
    case VInt(n) =>
      BracketFreeIsNeutral(ToString(n), Curly);
      NeutralAt(ToString(n), Curly, depth);
    case VStr(s) =>
      EscapeKeepsDepth(s, Curly, depth);
      DepthOfConcat("\"", Escape(s), Curly, depth);
      DepthOfConcat("\"" + Escape(s), "\"", Curly, depth);
      if Stays(s, Curly, depth) {
        ScopeLengthOfOpen(s, "", Curly, depth);
      }
  }

  /** Only the braces inside the strings count towards closing a flat object early. */
  lemma {:induction false} FlatRowStays(vs: seq<Value>, depth: int)
    requires Flat(vs) && depth >= 1
    ensures Stays(PrintFields(vs), Curly, depth) <==> Stays(StringsOf(vs), Curly, depth)
  {
    if vs != [] {
      PrintRow(vs);
      var s := if vs[0].VStr? then vs[0].s else "";
      FlatFieldDepth(vs[0], depth);
      DepthOfConcat(Print(vs[0]), RowTail(vs[1..]), Curly, depth);
      DepthOfConcat(s, StringsOf(vs[1..]), Curly, depth);
      var depth' := DepthAfter(s, Curly, depth);
      if Stays(s, Curly, depth) {
        ScopeLengthOfOpen(s, "", Curly, depth);
        FlatRowStays(vs[1..], depth');
        if |vs| > 1 {
          DepthOfConcat(",", PrintFields(vs[1..]), Curly, depth');
        }
      }
    }
  }
}
