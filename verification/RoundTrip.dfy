/** Printing and reading back: values come back whole, at any nesting depth. */
module RoundTrip {
  import opened Results
  import opened Decimal
  import opened Brackets
  import opened Escaping
  import opened Tokenizer
  import opened Framing
  import opened Values
  import opened Printing
  import opened Reading

  /** Strings that survive as a field: no quote, no backslash at the end, brackets in balance. */
  predicate CleanText(s: string) {
    '"' !in s && !EndsInBackslash(s) && Neutral(s, Square) && Neutral(s, Curly)
  }

  /** A string that is a list element is tokenized a second time, without its quotes: it must have no comma,
      or start with a bracket that is closed by its last character. */
  predicate CleanElement(v: Value) {
    v.VStr? && v.s != "" ==>
      match v.s[0]
      case '[' => ScopeLength(v.s[1..], Square, 1) == |v.s| - 1
      case '{' => ScopeLength(v.s[1..], Curly, 1) == |v.s| - 1
      case _ => ',' !in v.s
  }

  predicate Clean(v: Value)
    decreases v
  {
    match v
    case VInt(n) => IsInt32(n)
    case VStr(s) => CleanText(s)
    case VList(vs) => AllClean(vs) && AllCleanElements(vs)
    case VObj(vs) => AllClean(vs)
  }

  predicate AllClean(vs: seq<Value>)
    decreases vs
  {
    vs == [] || (Clean(vs[0]) && AllClean(vs[1..]))
  }

  predicate AllCleanElements(vs: seq<Value>) {
    vs == [] || (CleanElement(vs[0]) && AllCleanElements(vs[1..]))
  }

  /** Strings without quotes, brackets and final backslash are clean. */
  lemma {:induction false} PlainStringIsClean(s: string)
    requires '"' !in s && !EndsInBackslash(s)
    requires '[' !in s && ']' !in s && '{' !in s && '}' !in s
    ensures CleanText(s)
  {
    BracketFreeIsNeutral(s, Square);
    BracketFreeIsNeutral(s, Curly);
  }

  /** The plain values: 32-bit numbers, and strings without quotes, brackets and final backslash; without commas
      too where they are list elements. */
  predicate Plain(v: Value, listed: bool) {
    match v
    case VInt(n) => -2147483648 <= n <= 2147483647
    case VStr(s) =>
      && (forall c :: c in s ==> c !in "\"[]{}")
      && (s != "" ==> s[|s| - 1] != '\\')
      && (listed ==> ',' !in s)
    case VList(vs) => AllPlain(vs, true)
    case VObj(vs) => AllPlain(vs, false)
  }

  predicate AllPlain(vs: seq<Value>, listed: bool) {
    vs == [] || (Plain(vs[0], listed) && AllPlain(vs[1..], listed))
  }

  /** All of them are clean, at any nesting depth. */
  lemma {:induction false} PlainValueIsClean(v: Value, listed: bool)
    requires Plain(v, listed)
    ensures Clean(v) && (listed ==> CleanElement(v))
    decreases v
  {
    match v
    case VInt(_) =>
    case VStr(s) =>
      PlainStringIsClean(s);
      assert s != "" ==> s[0] in s;
    case VList(vs) => AllPlainAreClean(vs, true);
    case VObj(vs) => AllPlainAreClean(vs, false);
  }

  lemma {:induction false} AllPlainAreClean(vs: seq<Value>, listed: bool)
    requires AllPlain(vs, listed)
    ensures AllClean(vs) && (listed ==> AllCleanElements(vs))
    decreases vs
  {
    if vs != [] {
      PlainValueIsClean(vs[0], listed);
      AllPlainAreClean(vs[1..], listed);
    }
  }

  /** The printed form of a clean value opens and closes brackets in balance, for both counts. */
  lemma {:induction false} PrintIsNeutral(v: Value, b: Bracket)
    requires Clean(v)
    ensures Neutral(Print(v), b)
    decreases v
  {
    match v
    case VInt(n) =>
      BracketFreeIsNeutral(ToString(n), b);
    case VStr(s) =>
      EscapeIsIdentity(s);
      NeutralConcat("\"", s, b);
      NeutralConcat("\"" + s, "\"", b);
    case VList(vs) =>
      PrintFieldsIsNeutral(vs, b);
      NeutralInBrackets(PrintFields(vs), Square, b);
    case VObj(vs) =>
      PrintFieldsIsNeutral(vs, b);
      NeutralInBrackets(PrintFields(vs), Curly, b);
  }

  lemma {:induction false} PrintFieldsIsNeutral(vs: seq<Value>, b: Bracket)
    requires AllClean(vs)
    ensures Neutral(PrintFields(vs), b)
    decreases vs
  {
    if vs == [] {
    } else {
      PrintIsNeutral(vs[0], b);
      if |vs| > 1 {
        PrintFieldsIsNeutral(vs[1..], b);
        NeutralConcat(Print(vs[0]), ",", b);
        NeutralConcat(Print(vs[0]) + ",", PrintFields(vs[1..]), b);
      }
    }
  }

  /** The token that `nextToken` makes of a printed value: strings lose their quotes. */
  function TokenText(v: Value): string {
    if v.VStr? then v.s else Print(v)
  }

  /** Framing: one call of `nextToken` takes one clean field and leaves the stream at the next. */
  lemma {:induction false} FieldFraming(v: Value, tail: string)
    requires Clean(v) && IsTail(tail)
    ensures NextToken(Cursor(Print(v) + tail, false)) == Token(TokenText(v), AfterTail(v.Bracketed(), tail))
  {
    match v
    case VInt(n) =>
      PlainFraming(ToString(n), tail);
    case VStr(s) =>
      EscapeIsIdentity(s);
      QuoteFraming(s, tail);
    case VList(vs) =>
      PrintFieldsIsNeutral(vs, Square);
      ScopeFraming(Square, PrintFields(vs), tail);
    case VObj(vs) =>
      PrintFieldsIsNeutral(vs, Curly);
      ScopeFraming(Curly, PrintFields(vs), tail);
  }

  lemma {:induction false} InsideOfPrinted(v: Value)
    requires v.Bracketed()
    ensures Inside(Print(v)).rest == PrintFields(if v.VList? then v.elems else v.fields)
  {
    var body := PrintFields(if v.VList? then v.elems else v.fields);
    assert Print(v)[1..|Print(v)| - 1] == body;
  }

  lemma {:induction false} PlainTokenStopsAtComma(s: string)
    ensures PlainLength(s) == |s| <==> ',' !in s
  {
    if s != "" {
      PlainTokenStopsAtComma(s[1..]);
      assert s == [s[0]] + s[1..];
    }
  }

  /** What the second tokenizing leaves of a string. */
  function Retokenized(s: string): string {
    NextToken(Cursor(s, false)).text
  }

  /** Quote-free text stays as it is when it is tokenized exactly when it is a clean element. */
  lemma {:induction false} RetokenizesExactly(s: string)
    requires '"' !in s
    ensures Retokenized(s) == s <==> CleanElement(VStr(s))
  {
    if s != "" {
      assert s[0] in s && s == [s[0]] + s[1..];
      if s[0] == '[' || s[0] == '{' {
        var k := ScopeLength(s[1..], if s[0] == '[' then Square else Curly, 1);
        assert Retokenized(s) == [s[0]] + s[1..][..k];
        assert |Retokenized(s)| == |s| ==> s[1..][..k] == s[1..];
      } else {
        PlainTokenStopsAtComma(s);
        assert Retokenized(s) == s[..PlainLength(s)];
      }
    }
  }

  lemma {:induction false} ElementFraming(v: Value)
    requires Clean(v) && CleanElement(v)
    ensures NextToken(Cursor(TokenText(v), false)).text == TokenText(v)
  {
    var text := TokenText(v);
    assert text + "" == text;
    if !v.VStr? {
      FieldFraming(v, "");
    } else {
      RetokenizesExactly(text);
    }
  }

  /** Codec round trip: a clean value of any type, read into a variable that holds `target`, whatever
      field follows it. */
  lemma {:induction false} ReadBack(t: Schema, v: Value, target: Value, tail: string)
    requires HasType(t, v) && HasType(t, target) && Clean(v) && IsTail(tail)
    ensures Read(t, target, Cursor(Print(v) + tail, false)) ==
            Ok((Merge(target, v), AfterTail(v.Bracketed(), tail)))
    decreases v, 1
  {
    FieldFraming(v, tail);
    TokenReadBack(t, v, target);
  }

  lemma {:induction false} TokenReadBack(t: Schema, v: Value, target: Value)
    requires HasType(t, v) && HasType(t, target) && Clean(v)
    ensures FromToken(t, target, TokenText(v)) == Ok(Merge(target, v))
    decreases v, 0
  {
    match v
    case VInt(n) =>
      StoiOfToString(n);
    case VStr(s) =>
    case VList(vs) =>
      if vs != [] {
        InsideOfPrinted(v);
        ElemsReadBack(t.elem, vs);
      }
    case VObj(vs) =>
      InsideOfPrinted(v);
      if vs != [] {
        FieldsReadBack(t.fields, vs, target.fields);
      }
  }

  /** The element loop runs once per element and gives exactly the elements. */
  lemma {:induction false} ElemsReadBack(e: Schema, vs: seq<Value>)
    requires vs != [] && AllHaveType(e, vs) && AllClean(vs) && AllCleanElements(vs)
    ensures ReadElems(e, Cursor(PrintFields(vs), false)) == Ok(vs)
    decreases vs
  {
    hide NextToken, FromToken, Read, ReadElems, Print, PrintFields, RowTail, AfterTail, Merge, TokenText, Default;
    hide Clean, CleanElement, HasType, AllClean, AllCleanElements, AllHaveType;
    FirstElement(e, vs);
    var v, more := vs[0], vs[1..];
    PrintRow(vs);
    TailOfRow(v.Bracketed(), more);
    FieldFraming(v, RowTail(more));
    ElementFraming(v);
    TokenReadBack(e, v, Default(e));
    MergeIntoDefault(e, v);
    ReadElemsCons(e, Cursor(PrintFields(vs), false), Token(TokenText(v), AfterTail(v.Bracketed(), RowTail(more))));
    if more == [] {
      ReadElemsAtEnd(e);
    } else {
      ElemsReadBack(e, more);
    }
  }

  lemma {:induction false} ReadElemsAtEnd(e: Schema)
    ensures ReadElems(e, END) == Ok([])
  {
  }

  /** The first element of a clean list, and the others. */
  lemma {:induction false} FirstElement(e: Schema, vs: seq<Value>)
    requires vs != [] && AllHaveType(e, vs) && AllClean(vs) && AllCleanElements(vs)
    ensures HasType(e, vs[0]) && Clean(vs[0]) && CleanElement(vs[0])
    ensures AllHaveType(e, vs[1..]) && AllClean(vs[1..]) && AllCleanElements(vs[1..])
    ensures vs == [vs[0]] + vs[1..]
  {
  }

  /** Where the stream is when the first of a row has been taken. */
  lemma {:induction false} TailOfRow(bracketed: bool, more: seq<Value>)
    ensures IsTail(RowTail(more))
    ensures AfterTail(bracketed, RowTail(more)) == if more == [] then END else Cursor(PrintFields(more), false)
  {
    assert more != [] ==> RowTail(more)[1..] == PrintFields(more);
  }

  lemma {:induction false} FieldsReadBack(ts: seq<Schema>, vs: seq<Value>, targets: seq<Value>)
    requires vs != [] && HaveTypes(ts, vs) && HaveTypes(ts, targets) && AllClean(vs)
    ensures ReadFields(ts, targets, Cursor(PrintFields(vs), false)) == Ok((MergeAll(targets, vs), END))
    decreases vs
  {
    var v, more := vs[0], vs[1..];
    var tail := RowTail(more);
    PrintRow(vs);
    ReadBack(ts[0], v, targets[0], tail);
    if more != [] {
      assert tail[1..] == PrintFields(more);
      FieldsReadBack(ts[1..], more, targets[1..]);
    }
  }

  /** The law on its own: print, read into a fresh variable, get the value. */
  lemma {:induction false} CodecRoundTrip(t: Schema, v: Value)
    requires HasType(t, v) && Clean(v)
    ensures Read(t, Default(t), Cursor(Print(v), false)) == Ok((v, END))
  {
    assert Print(v) + "" == Print(v);
    ReadBack(t, v, Default(t), "");
    MergeIntoDefault(t, v);
  }

  predicate AllStrings(vs: seq<Value>) {
    vs == [] || (vs[0].VStr? && AllStrings(vs[1..]))
  }

  function RetokenizedAll(vs: seq<Value>): seq<Value>
    requires AllStrings(vs)
  {
    if vs == [] then [] else [VStr(Retokenized(vs[0].s))] + RetokenizedAll(vs[1..])
  }

  /** What the element loop makes of a row of clean strings: each is tokenized once more. */
  lemma {:induction false} StringsAreRetokenized(vs: seq<Value>)
    requires vs != [] && AllStrings(vs) && AllClean(vs)
    ensures ReadElems(TStr, Cursor(PrintFields(vs), false)) == Ok(RetokenizedAll(vs))
    decreases vs
  {
    var v, more := vs[0], vs[1..];
    PrintRow(vs);
    FieldFraming(v, RowTail(more));
    hide NextToken, Print, PrintFields, Clean;
    var c := Cursor(PrintFields(vs), false);
    var next, first := AfterTail(false, RowTail(more)), [VStr(Retokenized(v.s))];
    ReadElemsStep(TStr, c, []);
    assert ReadElems(TStr, c).Ok? ==> [] + ReadElems(TStr, c).value == ReadElems(TStr, c).value;
    assert [] + first == first;
    if more == [] {
      assert first + [] == first && ReadElems(TStr, END) == Ok([]);
    } else {
      StringsAreRetokenized(more);
      assert RowTail(more)[1..] == PrintFields(more);
    }
  }

  lemma {:induction false} RetokenizedAllExactly(vs: seq<Value>)
    requires AllStrings(vs) && AllClean(vs)
    ensures RetokenizedAll(vs) == vs <==> AllCleanElements(vs)
  {
    if vs != [] {
      RetokenizesExactly(vs[0].s);
      RetokenizedAllExactly(vs[1..]);
      ConsCancels(VStr(Retokenized(vs[0].s)), RetokenizedAll(vs[1..]), vs[0], vs[1..]);
      assert vs == [vs[0]] + vs[1..];
    }
  }

  /** What the second tokenizing costs: a list of clean strings comes back exactly when each of them has no
      comma, or is one bracketed text. */
  lemma {:induction false} ListedStringsExactly(vs: seq<Value>)
    requires AllStrings(vs) && AllClean(vs)
    ensures Read(TList(TStr), VList([]), Cursor(Print(VList(vs)), false)) == Ok((VList(vs), END)) <==>
            AllCleanElements(vs)
  {
    var body := PrintFields(vs);
    PrintFieldsIsNeutral(vs, Square);
    ScopeFraming(Square, body, "");
    assert Print(VList(vs)) == InBrackets(Square, body) + "" == InBrackets(Square, body);
    InsideOfPrinted(VList(vs));
    RetokenizedAllExactly(vs);
    if vs != [] {
      StringsAreRetokenized(vs);
      hide NextToken, Print, PrintFields, ReadElems;
      assert [] + RetokenizedAll(vs) == RetokenizedAll(vs);
    }
  }
}
