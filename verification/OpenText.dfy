/** Object text without its closing brace. `make_call` and `serialiseAnswer` take the text of their
    stream while the `ObjectSer` is still alive, so the brace that its destructor prints is missing, and
    `ObjectDeser` cuts off the last character of the last field instead. */
module OpenText {
  import opened Results
  import opened Decimal
  import opened Brackets
  import opened Escaping
  import opened Tokenizer
  import opened Framing
  import opened Values
  import opened Printing
  import opened Reading
  import opened RoundTrip

  function Chop(s: string): string
    requires s != ""
  {
    s[..|s| - 1]
  }

  /** The rightmost leaf of the value is not an `int`: it is a string, an empty list or an empty object. */
  predicate TailSafe(v: Value) {
    match v
    case VInt(_) => false
    case VStr(_) => true
    case VList(vs) => vs == [] || TailSafe(vs[|vs| - 1])
    case VObj(vs) => vs == [] || TailSafe(vs[|vs| - 1])
  }

  /** The token of a printed value that has lost its last character. */
  function ChoppedToken(v: Value): string {
    if v.VStr? then v.s else Chop(Print(v))
  }

  lemma {:induction false} OpenScopeFraming(b: Bracket, body: string)
    requires Stays(body, b, 1)
    ensures NextToken(Cursor([b.Open()] + body, false)) == Token([b.Open()] + body, END)
  {
    assert ([b.Open()] + body)[1..] == body + "";
    ScopeLengthOfOpen(body, "", b, 1);
  }

  /** What is read of a text that lacks its closing bracket: the body without its last character. */
  lemma {:induction false} InsideOfOpen(vs: seq<Value>)
    requires vs != []
    ensures ChoppedToken(VList(vs)) == "[" + PrintFields(vs)
    ensures ChoppedToken(VObj(vs)) == "{" + PrintFields(vs)
    ensures Inside("[" + PrintFields(vs)) == Cursor(Chop(PrintFields(vs)), false)
    ensures Inside("{" + PrintFields(vs)) == Cursor(Chop(PrintFields(vs)), false)
    ensures |PrintFields(vs)| == 1 ==> |vs| == 1 && vs[0].VInt?
  {
    var body := PrintFields(vs);
    assert Print(VList(vs)) == "[" + body + "]" && Print(VObj(vs)) == "{" + body + "}";
    if |body| == 1 {
      ShortRow(vs);
    }
    hide Print, PrintFields;
    assert Chop("[" + body + "]") == "[" + body && Chop("{" + body + "}") == "{" + body;
    if |body| > 1 {
      assert ("[" + body)[1..|body|] == Chop(body) && ("{" + body)[1..|body|] == Chop(body);
    }
  }

  lemma {:induction false} ChoppedFraming(v: Value)
    requires Clean(v)
    ensures NextToken(Cursor(Chop(Print(v)), false)) == Token(ChoppedToken(v), END)
    ensures CleanElement(v) ==> NextToken(Cursor(ChoppedToken(v), false)).text == ChoppedToken(v)
  {
    match v
    case VInt(n) =>
      var digits := Chop(ToString(n));
      assert digits + "" == digits;
      if digits != "" {
        PlainFraming(digits, "");
      }
    case VStr(s) =>
      EscapeIsIdentity(s);
      OpenQuoteFraming(s);
      assert Chop(Print(v)) == "\"" + s;
      if CleanElement(v) {
        ElementFraming(v);
      }
    case VList(vs) =>
      PrintFieldsIsNeutral(vs, Square);
      assert Chop(Print(v)) == ['['] + PrintFields(vs);
      OpenScopeFraming(Square, PrintFields(vs));
    case VObj(vs) =>
      PrintFieldsIsNeutral(vs, Curly);
      assert Chop(Print(v)) == ['{'] + PrintFields(vs);
      OpenScopeFraming(Curly, PrintFields(vs));
  }

  /** From the elements to the list. A text of one digit is too short for the element loop to start. */
  lemma {:induction false} ChoppedListExactly(e: Schema, vs: seq<Value>)
    requires AllHaveType(e, vs) && AllClean(vs) && AllCleanElements(vs)
    ensures ReadList(e, ChoppedToken(VList(vs))) == Ok(vs) <==> TailSafe(VList(vs))
    decreases vs, 2
  {
    if vs != [] {
      assert TailSafe(VList(vs)) <==> TailSafe(vs[|vs| - 1]);
      assert vs[0].VInt? ==> !TailSafe(vs[0]);
      hide TailSafe, PrintFields, ReadElems, ChoppedToken, AllHaveType, AllClean, AllCleanElements, Inside;
      InsideOfOpen(vs);
      ChoppedElemsExactly(e, vs);
      assert |"[" + PrintFields(vs)| == 1 + |PrintFields(vs)|;
    }
  }

  lemma {:induction false} ChoppedRow(v: Value, more: seq<Value>)
    ensures PrintFields([v] + more) != ""
    ensures more == [] ==> Chop(PrintFields([v] + more)) == Chop(Print(v))
    ensures more != [] ==>
              var tail := "," + Chop(PrintFields(more));
              Chop(PrintFields([v] + more)) == Print(v) + tail && IsTail(tail) &&
              (|tail| == 1 ==> |more| == 1 && more[0].VInt?)
  {
    PrintRow([v] + more);
    assert ([v] + more)[1..] == more;
    hide Print, PrintFields;
    if more != [] {
      assert Print(v) + ("," + Chop(PrintFields(more))) == Chop(Print(v) + ("," + PrintFields(more)));
      if |PrintFields(more)| == 1 {
        ShortRow(more);
      }
    } else {
      assert Print(v) + "" == Print(v);
    }
  }

  /** A row of one character is one digit. */
  lemma {:induction false} ShortRow(vs: seq<Value>)
    requires |PrintFields(vs)| == 1
    ensures |vs| == 1 && vs[0].VInt?
  {
  }

  /** A stream that has nothing left gives the same fields whether or not it knows so. */
  lemma {:induction false} ReadFieldsFromNothing(ts: seq<Schema>, targets: seq<Value>)
    requires HaveTypes(ts, targets) && ts != []
    ensures ReadFields(ts, targets, END) == ReadFields(ts, targets, Cursor("", false))
  {
  }

  lemma {:induction false} ChoppedElemsExactly(e: Schema, vs: seq<Value>)
    requires vs != [] && AllHaveType(e, vs) && AllClean(vs) && AllCleanElements(vs)
    ensures ReadElems(e, Cursor(Chop(PrintFields(vs)), false)) == Ok(vs) <==> TailSafe(vs[|vs| - 1])
    decreases vs, 1
  {
    hide NextToken, FromToken, Read, ReadElems, Print, PrintFields, Merge, Default, TokenText, ChoppedToken;
    hide Clean, CleanElement, AllClean, AllCleanElements, AllHaveType, TailSafe, Chop;
    FirstElement(e, vs);
    ReadElemsAtEnd(e);
    var v, more := vs[0], vs[1..];
    ChoppedRow(v, more);
    var c := Cursor(Chop(PrintFields(vs)), false);
    if more == [] {
      ChoppedFraming(v);
      ChoppedReplacesFresh(e, v);
      ReadElemsCons(e, c, Token(ChoppedToken(v), END));
      var r := FromToken(e, Default(e), ChoppedToken(v));
      if r.Ok? {
        ConsCancels(r.value, [], v, []);
      }
    } else {
      var tail := "," + Chop(PrintFields(more));
      FieldFraming(v, tail);
      ElementFraming(v);
      TokenReadBack(e, v, Default(e));
      MergeIntoDefault(e, v);
      ReadElemsCons(e, c, Token(TokenText(v), AfterTail(v.Bracketed(), tail)));
      ChoppedElemsExactly(e, more);
      FirstElement(e, more);
      assert tail[1..] == Chop(PrintFields(more));
      var r := ReadElems(e, AfterTail(v.Bracketed(), tail));
      if r.Ok? {
        ConsCancels(v, r.value, v, more);
      }
    }
  }

  /** The one way in which a loss goes unseen: the value ends in a list of one digit, of which the cut text
      appends nothing, the variable already held that very list there, and nothing else in it was pending. */
  predicate LossHides(target: Value, v: Value)
    decreases v
  {
    match v
    case VList(vs) => |vs| == 1 && vs[0].VInt? && 0 <= vs[0].n < 10 && target == v
    case VObj(vs) => vs != [] && target.VObj? && RowLossHides(target.fields, vs)
    case _ => false
  }

  predicate RowLossHides(targets: seq<Value>, vs: seq<Value>)
    requires vs != []
    decreases vs
  {
    && targets != []
    && if |vs| == 1 then LossHides(targets[0], vs[0])
       else NoPendingLists(targets[0]) && RowLossHides(targets[1..], vs[1..])
  }

  /** The cut text makes a variable that held `target` hold `v`. */
  predicate CutReplaces(target: Value, v: Value) {
    (TailSafe(v) && NoPendingLists(target)) || LossHides(target, v)
  }

  predicate CutReplacesRow(targets: seq<Value>, vs: seq<Value>)
    requires vs != []
  {
    (TailSafe(vs[|vs| - 1]) && NonePending(targets)) || RowLossHides(targets, vs)
  }

  /** As many elements as were printed, or a fault. */
  lemma {:induction false} ChoppedElemsCount(e: Schema, vs: seq<Value>)
    requires vs != [] && AllHaveType(e, vs) && AllClean(vs) && AllCleanElements(vs)
    ensures var r := ReadElems(e, Cursor(Chop(PrintFields(vs)), false));
            r.Ok? ==> |r.value| == |vs|
    decreases vs
  {
    hide NextToken, FromToken, Print, PrintFields, CleanElement, Default, TokenText, ChoppedToken;
    var v, more := vs[0], vs[1..];
    assert vs == [v] + more;
    ChoppedRow(v, more);
    var c := Cursor(Chop(PrintFields(vs)), false);
    if more == [] {
      ChoppedFraming(v);
      ReadElemsCons(e, c, Token(ChoppedToken(v), END));
    } else {
      var tail := "," + Chop(PrintFields(more));
      FieldFraming(v, tail);
      ElementFraming(v);
      ReadElemsCons(e, c, Token(TokenText(v), AfterTail(v.Bracketed(), tail)));
      ChoppedElemsCount(e, more);
      assert tail[1..] == Chop(PrintFields(more));
    }
  }

  /** A text of one character between the brackets is one digit. */
  lemma {:induction false} ShortRowIsOneDigit(vs: seq<Value>)
    requires vs != []
    ensures |PrintFields(vs)| == 1 <==> |vs| == 1 && vs[0].VInt? && 0 <= vs[0].n < 10
  {
    PrintRow(vs);
    if |PrintFields(vs)| == 1 {
      ShortRow(vs);
    }
  }

  lemma {:induction false} AppendGives<T>(x: seq<T>, y: seq<T>, z: seq<T>)
    ensures |y| == |z| ==> (x + y == z <==> x == [] && y == z)
    ensures y == [] ==> (x + y == z <==> x == z)
  {
    assert [] + y == y && x + [] == x;
    assert |x + y| == |x| + |y|;
  }

  /** What the cut text of a list appends: as many elements, or for one digit nothing, or a fault. */
  lemma {:induction false} ChoppedListCount(e: Schema, vs: seq<Value>)
    requires vs != [] && AllHaveType(e, vs) && AllClean(vs) && AllCleanElements(vs)
    ensures var r := ReadList(e, ChoppedToken(VList(vs)));
            if |vs| == 1 && vs[0].VInt? && 0 <= vs[0].n < 10 then r == Ok([])
            else r.Ok? ==> |r.value| == |vs|
  {
    InsideOfOpen(vs);
    ShortRowIsOneDigit(vs);
    ChoppedElemsCount(e, vs);
    hide Print, PrintFields, ReadElems, NextToken, Clean, HasType;
  }

  lemma {:induction false} ChoppedListReplaces(e: Schema, vs: seq<Value>, target: seq<Value>)
    requires AllHaveType(e, vs) && AllClean(vs) && AllCleanElements(vs) && AllHaveType(e, target)
    ensures FromToken(TList(e), VList(target), ChoppedToken(VList(vs))) == Ok(VList(vs)) <==>
            CutReplaces(VList(target), VList(vs))
    decreases vs, 3
  {
    hide ReadList, ChoppedToken, AllHaveType, AllClean, AllCleanElements;
    ChoppedListExactly(e, vs);
    var more := ReadList(e, ChoppedToken(VList(vs)));
    if vs != [] {
      ChoppedListCount(e, vs);
    }
    if more.Ok? {
      AppendGives(target, more.value, vs);
    }
  }

  /** Exactly when a variable ends up with a clean value whose text was cut. */
  lemma {:induction false} ChoppedReplacesExactly(t: Schema, v: Value, target: Value)
    requires HasType(t, v) && HasType(t, target) && Clean(v)
    ensures FromToken(t, target, ChoppedToken(v)) == Ok(v) <==> CutReplaces(target, v)
    decreases v, 0
  {
    match v
    case VInt(n) =>
      StoiOfChopped(n);
    case VStr(_) =>
    case VList(vs) =>
      ChoppedListReplaces(t.elem, vs, target.elems);
    case VObj(vs) =>
      ChoppedObjectReplaces(t.fields, vs, target.fields);
  }

  lemma {:induction false} ChoppedObjectReplaces(ts: seq<Schema>, vs: seq<Value>, targets: seq<Value>)
    requires HaveTypes(ts, vs) && HaveTypes(ts, targets) && AllClean(vs)
    ensures FromToken(TObj(ts), VObj(targets), ChoppedToken(VObj(vs))) == Ok(VObj(vs)) <==>
            CutReplaces(VObj(targets), VObj(vs))
    decreases vs, 3
  {
    if vs != [] {
      hide CutReplaces, CutReplacesRow, ChoppedToken, ReadFields, Inside, HaveTypes, AllClean, Print, PrintFields;
      CutReplacesObject(targets, vs);
      InsideOfOpen(vs);
      ChoppedFieldsReplace(ts, vs, targets);
    }
  }

  lemma {:induction false} CutReplacesObject(targets: seq<Value>, vs: seq<Value>)
    requires vs != []
    ensures CutReplaces(VObj(targets), VObj(vs)) <==> CutReplacesRow(targets, vs)
  {
  }

  /** A fresh variable hides nothing. */
  lemma {:induction false} ChoppedReplacesFresh(t: Schema, v: Value)
    requires HasType(t, v) && Clean(v)
    ensures FromToken(t, Default(t), ChoppedToken(v)) == Ok(v) <==> TailSafe(v)
    decreases v, 1
  {
    ChoppedReplacesExactly(t, v, Default(t));
    DefaultIsNotPending(t);
    if LossHides(Default(t), v) {
      HiddenLossNeedsBoth(Default(t), v);
    }
  }

  lemma {:induction false} ChoppedFieldsReplace(ts: seq<Schema>, vs: seq<Value>, targets: seq<Value>)
    requires vs != [] && HaveTypes(ts, vs) && HaveTypes(ts, targets) && AllClean(vs)
    ensures var r := ReadFields(ts, targets, Cursor(Chop(PrintFields(vs)), false));
            r.Ok? && r.value.0 == vs <==> CutReplacesRow(targets, vs)
    decreases vs, 2
  {
    hide NextToken, FromToken, Print, PrintFields, Merge, TokenText, ChoppedToken;
    var v, more := vs[0], vs[1..];
    assert vs == [v] + more;
    ChoppedRow(v, more);
    ReadFieldsGives(ts, targets, Cursor(Chop(PrintFields(vs)), false), vs);
    if more == [] {
      ChoppedFraming(v);
      ChoppedReplacesExactly(ts[0], v, targets[0]);
      assert ts[1..] == [] && targets[1..] == [];
      assert NonePending(targets) <==> NoPendingLists(targets[0]);
    } else {
      var tail := "," + Chop(PrintFields(more));
      FieldFraming(v, tail);
      TokenReadBack(ts[0], v, targets[0]);
      MergeReplacesExactly(ts[0], targets[0], v);
      ChoppedFieldsReplace(ts[1..], more, targets[1..]);
      ReadFieldsFromNothing(ts[1..], targets[1..]);
      assert tail[1..] == Chop(PrintFields(more));
    }
  }

  /** A loss that goes unseen takes both: a cut number, and a variable with elements in a list. */
  lemma {:induction false} HiddenLossNeedsBoth(target: Value, v: Value)
    requires LossHides(target, v)
    ensures !TailSafe(v) && !NoPendingLists(target)
    decreases v
  {
    if v.VObj? {
      HiddenRowLossNeedsBoth(target.fields, v.fields);
    }
  }

  lemma {:induction false} HiddenRowLossNeedsBoth(targets: seq<Value>, vs: seq<Value>)
    requires vs != [] && RowLossHides(targets, vs)
    ensures !TailSafe(vs[|vs| - 1]) && !NonePending(targets)
    decreases vs
  {
    if |vs| == 1 {
      HiddenLossNeedsBoth(targets[0], vs[0]);
    } else {
      HiddenRowLossNeedsBoth(targets[1..], vs[1..]);
    }
  }
}
