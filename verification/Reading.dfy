/** The reader: `deserialize`, `deserializeSequence` and `ObjectDeser` (lib/serialisation.h,
    lib/serialisation.cpp). Reading goes into a variable that may already hold a value. */
module Reading {
  import opened Results
  import opened Decimal
  import opened Tokenizer
  import opened Values

  /** The text of an object or list without its first and last character, whatever they are. */
  function Inside(text: string): (c: Cursor)
    ensures c.Valid()
  {
    Cursor(if |text| > 2 then text[1..|text| - 1] else "", false)
  }

  /** `deserialize(in, target)`. */
  function Read(t: Schema, target: Value, c: Cursor): (r: Result<(Value, Cursor)>)
    requires HasType(t, target) && c.Valid()
    ensures r.Ok? ==> r.value.1 == NextToken(c).next
    decreases t, 1, 0
  {
    var token := NextToken(c);
    var v :- FromToken(t, target, token.text);
    Ok((v, token.next))
  }

  function FromToken(t: Schema, target: Value, text: string): Result<Value>
    requires HasType(t, target)
    decreases t, 0, 0
  {
    match t
    case TInt =>
      var n :- Stoi(text);
      Ok(VInt(n))
    case TStr =>
      Ok(VStr(text))
    case TList(e) =>
      var more :- ReadList(e, text);
      Ok(VList(target.elems + more))
    case TObj(ts) =>
      var (fields, _) :- ReadFields(ts, target.fields, Inside(text));
      Ok(VObj(fields))
  }

  /** The elements that `deserializeSequence` adds. */
  function ReadList(e: Schema, text: string): Result<seq<Value>>
    decreases e, 3, 0
  {
    if |text| > 2 then ReadElems(e, Inside(text)) else Ok([])
  }

  /** The loop of `deserializeSequence`: a token at a time, each read a second time as an element. */
  function ReadElems(e: Schema, c: Cursor): Result<seq<Value>>
    requires c.Valid()
    decreases e, 2, c.Budget()
  {
    if c.eof then Ok([])
    else
      var token := NextToken(c);
      var (v, _) :- Read(e, Default(e), Cursor(token.text, false));
      var more :- ReadElems(e, token.next);
      Ok([v] + more)
  }

  /** Successive `>>` on an `ObjectDeser`. */
  function ReadFields(ts: seq<Schema>, targets: seq<Value>, c: Cursor): (r: Result<(seq<Value>, Cursor)>)
    requires HaveTypes(ts, targets) && c.Valid()
    ensures r.Ok? ==> |r.value.0| == |ts|
    decreases ts, 2, 0
  {
    if ts == [] then Ok(([], c))
    else
      var (v, c') :- Read(ts[0], targets[0], c);
      var (more, c'') :- ReadFields(ts[1..], targets[1..], c');
      Ok(([v] + more, c''))
  }

  lemma {:induction false} AllHaveTypeConcat(t: Schema, xs: seq<Value>, ys: seq<Value>)
    requires AllHaveType(t, xs) && AllHaveType(t, ys)
    ensures AllHaveType(t, xs + ys)
  {
    if xs == [] {
      assert xs + ys == ys;
    } else {
      AllHaveTypeConcat(t, xs[1..], ys);
      assert (xs + ys)[1..] == xs[1..] + ys;
    }
  }

  /** Whatever the text, what is read has the type asked for. */
  lemma {:induction false} FromTokenIsTyped(t: Schema, target: Value, text: string)
    requires HasType(t, target)
    ensures var r := FromToken(t, target, text);
            r.Ok? ==> HasType(t, r.value)
    decreases t, 0, 0
  {
    match t
    case TList(e) =>
      var more := ReadList(e, text);
      if more.Ok? {
        if |text| > 2 {
          ReadElemsAreTyped(e, Inside(text));
        }
        AllHaveTypeConcat(e, target.elems, more.value);
      }
    case TObj(ts) =>
      ReadFieldsAreTyped(ts, target.fields, Inside(text));
    case _ =>
  }

  lemma {:induction false} ReadElemsAreTyped(e: Schema, c: Cursor)
    requires c.Valid()
    ensures var r := ReadElems(e, c);
            r.Ok? ==> AllHaveType(e, r.value)
    decreases e, 2, c.Budget()
  {
    if !c.eof {
      var token := NextToken(c);
      FromTokenIsTyped(e, Default(e), NextToken(Cursor(token.text, false)).text);
      ReadElemsAreTyped(e, token.next);
      var r := ReadElems(e, c);
      if r.Ok? {
        assert r.value[1..] == ReadElems(e, token.next).value;
      }
    }
  }

  lemma {:induction false} ReadFieldsAreTyped(ts: seq<Schema>, targets: seq<Value>, c: Cursor)
    requires HaveTypes(ts, targets) && c.Valid()
    ensures var r := ReadFields(ts, targets, c);
            r.Ok? ==> HaveTypes(ts, r.value.0)
    decreases ts, 2, 0
  {
    if ts != [] {
      var token := NextToken(c);
      FromTokenIsTyped(ts[0], targets[0], token.text);
      ReadFieldsAreTyped(ts[1..], targets[1..], token.next);
      var r := ReadFields(ts, targets, c);
      if r.Ok? {
        assert r.value.0[1..] == ReadFields(ts[1..], targets[1..], token.next).value.0;
      }
    }
  }

  /** Results with values already read put in front. */
  function After(vs: seq<Value>, r: Result<seq<Value>>): Result<seq<Value>> {
    if r.Ok? then Ok(vs + r.value) else r
  }

  /** The elements that the loop has pushed when it ends, with or without an exception. */
  function ElemsPushed(e: Schema, c: Cursor): seq<Value>
    requires c.Valid()
    decreases c.Budget()
  {
    if c.eof then []
    else
      var token := NextToken(c);
      var v := Read(e, Default(e), Cursor(token.text, false));
      if v.Err? then [] else [v.value.0] + ElemsPushed(e, token.next)
  }

  /** Without an exception they are the elements read. */
  lemma {:induction false} ElemsPushedAreRead(e: Schema, c: Cursor)
    requires c.Valid() && ReadElems(e, c).Ok?
    ensures ElemsPushed(e, c) == ReadElems(e, c).value
    decreases c.Budget()
  {
    if !c.eof {
      ElemsPushedAreRead(e, NextToken(c).next);
    }
  }

  /** One round of the element loop. */
  lemma {:induction false} ReadElemsStep(e: Schema, c: Cursor, vs: seq<Value>)
    requires c.Valid() && !c.eof
    ensures var token := NextToken(c);
            var v := Read(e, Default(e), Cursor(token.text, false));
            After(vs, ReadElems(e, c)) ==
            if v.Err? then Err(v.fault) else After(vs + [v.value.0], ReadElems(e, token.next))
  {
    var token := NextToken(c);
    var v := Read(e, Default(e), Cursor(token.text, false));
    var more := ReadElems(e, token.next);
    if v.Ok? && more.Ok? {
      assert vs + ([v.value.0] + more.value) == (vs + [v.value.0]) + more.value;
    }
  }

  lemma {:induction false} ElemsPushedStep(e: Schema, c: Cursor, vs: seq<Value>)
    requires c.Valid() && !c.eof
    ensures var token := NextToken(c);
            var v := Read(e, Default(e), Cursor(token.text, false));
            vs + ElemsPushed(e, c) == if v.Err? then vs else (vs + [v.value.0]) + ElemsPushed(e, token.next)
  {
    assert vs + [] == vs;
  }

  /** The same round for a token that stays as it is when it is tokenized again. */
  lemma {:induction false} ReadElemsCons(e: Schema, c: Cursor, token: Token)
    requires c.Valid() && !c.eof && NextToken(c) == token
    requires NextToken(Cursor(token.text, false)).text == token.text
    ensures var v := FromToken(e, Default(e), token.text);
            ReadElems(e, c) == if v.Err? then Err(v.fault) else After([v.value], ReadElems(e, token.next))
  {
  }

  /** One `>>`. */
  lemma {:induction false} ReadFieldsCons(ts: seq<Schema>, targets: seq<Value>, c: Cursor, token: Token)
    requires ts != [] && HaveTypes(ts, targets) && c.Valid() && NextToken(c) == token
    ensures var v := FromToken(ts[0], targets[0], token.text);
            var more := ReadFields(ts[1..], targets[1..], token.next);
            ReadFields(ts, targets, c) ==
            if v.Err? then Err(v.fault) else if more.Err? then more
            else Ok(([v.value] + more.value.0, more.value.1))
  {
  }

  /** A row of values is read exactly when its first value is and then the others are. */
  lemma {:induction false} ReadFieldsGives(ts: seq<Schema>, targets: seq<Value>, c: Cursor, vs: seq<Value>)
    requires ts != [] && HaveTypes(ts, targets) && c.Valid() && vs != []
    ensures var r := ReadFields(ts, targets, c);
            var token := NextToken(c);
            var rest := ReadFields(ts[1..], targets[1..], token.next);
            r.Ok? && r.value.0 == vs <==>
            FromToken(ts[0], targets[0], token.text) == Ok(vs[0]) && rest.Ok? && rest.value.0 == vs[1..]
  {
    var token := NextToken(c);
    ReadFieldsCons(ts, targets, c, token);
    var v := FromToken(ts[0], targets[0], token.text);
    var rest := ReadFields(ts[1..], targets[1..], token.next);
    assert vs == [vs[0]] + vs[1..];
    if v.Ok? && rest.Ok? {
      ConsCancels(v.value, rest.value.0, vs[0], vs[1..]);
    }
  }

  /** An object is read from the inside of its token. */
  lemma {:induction false} ReadObject(ts: seq<Schema>, targets: seq<Value>, c: Cursor)
    requires HaveTypes(ts, targets) && c.Valid()
    ensures var token := NextToken(c);
            var r := ReadFields(ts, targets, Inside(token.text));
            Read(TObj(ts), VObj(targets), c) == if r.Err? then Err(r.fault) else Ok((VObj(r.value.0), token.next))
  {
  }

  /** What a variable holds after a read, whether or not an exception ended it: an `int` is assigned last,
      a list keeps the elements pushed, an object the fields read, the failing one included. */
  function Left(t: Schema, target: Value, text: string): Value
    requires HasType(t, target)
    decreases t, 0, 0
  {
    match t
    case TInt =>
      var n := Stoi(text);
      if n.Ok? then VInt(n.value) else target
    case TStr =>
      VStr(text)
    case TList(e) =>
      VList(target.elems + if |text| > 2 then ElemsPushed(e, Inside(text)) else [])
    case TObj(ts) =>
      VObj(FieldsLeft(ts, target.fields, Inside(text)))
  }

  function FieldsLeft(ts: seq<Schema>, targets: seq<Value>, c: Cursor): seq<Value>
    requires HaveTypes(ts, targets) && c.Valid()
    decreases ts, 2, 0
  {
    if ts == [] then []
    else
      var token := NextToken(c);
      [Left(ts[0], targets[0], token.text)] +
      if FromToken(ts[0], targets[0], token.text).Err? then targets[1..]
      else FieldsLeft(ts[1..], targets[1..], token.next)
  }

  /** Without an exception it is the value read. */
  lemma {:induction false} LeftIsRead(t: Schema, target: Value, text: string)
    requires HasType(t, target) && FromToken(t, target, text).Ok?
    ensures Left(t, target, text) == FromToken(t, target, text).value
    decreases t, 0, 0
  {
    match t
    case TList(e) =>
      if |text| > 2 {
        ElemsPushedAreRead(e, Inside(text));
      }
    case TObj(ts) =>
      FieldsLeftAreRead(ts, target.fields, Inside(text));
    case _ =>
  }

  lemma {:induction false} FieldsLeftAreRead(ts: seq<Schema>, targets: seq<Value>, c: Cursor)
    requires HaveTypes(ts, targets) && c.Valid() && ReadFields(ts, targets, c).Ok?
    ensures FieldsLeft(ts, targets, c) == ReadFields(ts, targets, c).value.0
    decreases ts, 2, 0
  {
    if ts != [] {
      var token := NextToken(c);
      ReadFieldsCons(ts, targets, c, token);
      LeftIsRead(ts[0], targets[0], token.text);
      FieldsLeftAreRead(ts[1..], targets[1..], token.next);
    }
  }

  /** The texts that are read as `int`, in the order in which they are read. */
  function IntTexts(t: Schema, text: string): seq<string>
    decreases t, 0, 0
  {
    match t
    case TInt => [text]
    case TStr => []
    case TList(e) => if |text| > 2 then IntTextsOfElems(e, Inside(text)) else []
    case TObj(ts) => IntTextsOfFields(ts, Inside(text))
  }

  function IntTextsOfElems(e: Schema, c: Cursor): seq<string>
    requires c.Valid()
    decreases e, 2, c.Budget()
  {
    if c.eof then []
    else
      var token := NextToken(c);
      IntTexts(e, NextToken(Cursor(token.text, false)).text) + IntTextsOfElems(e, token.next)
  }

  function IntTextsOfFields(ts: seq<Schema>, c: Cursor): seq<string>
    requires c.Valid()
    decreases ts, 2, 0
  {
    if ts == [] then []
    else
      var token := NextToken(c);
      IntTexts(ts[0], token.text) + IntTextsOfFields(ts[1..], token.next)
  }

  /** The exception that the first bad one of these texts raises. */
  function FirstFault(texts: seq<string>): Option<Fault> {
    if texts == [] then None
    else
      match Stoi(texts[0])
      case Ok(_) => FirstFault(texts[1..])
      case Err(fault) => Some(fault)
  }

  function FaultOf<T>(r: Result<T>): Option<Fault> {
    if r.Ok? then None else Some(r.fault)
  }

  lemma {:induction false} FirstFaultConcat(x: seq<string>, y: seq<string>)
    ensures FirstFault(x + y) == if FirstFault(x).Some? then FirstFault(x) else FirstFault(y)
  {
    if x == [] {
      assert x + y == y;
    } else {
      assert (x + y)[1..] == x[1..] + y;
      FirstFaultConcat(x[1..], y);
    }
  }

  /** A read raises an exception exactly when some text that is read as an `int` is bad, and it is that of the
      first such text; nothing else raises one, and none is swallowed. */
  lemma {:induction false} FaultIsOfFirstBadInt(t: Schema, target: Value, text: string)
    requires HasType(t, target)
    ensures FaultOf(FromToken(t, target, text)) == FirstFault(IntTexts(t, text))
    decreases t, 0, 0
  {
    match t
    case TInt =>
      assert [text][1..] == [];
    case TStr =>
    case TList(e) =>
      if |text| > 2 {
        ElemsFaultOfFirstBadInt(e, Inside(text));
      }
    case TObj(ts) =>
      FieldsFaultOfFirstBadInt(ts, target.fields, Inside(text));
  }

  lemma {:induction false} ElemsFaultOfFirstBadInt(e: Schema, c: Cursor)
    requires c.Valid()
    ensures FaultOf(ReadElems(e, c)) == FirstFault(IntTextsOfElems(e, c))
    decreases e, 2, c.Budget()
  {
    if !c.eof {
      var token := NextToken(c);
      var elem := NextToken(Cursor(token.text, false)).text;
      FaultIsOfFirstBadInt(e, Default(e), elem);
      ElemsFaultOfFirstBadInt(e, token.next);
      FirstFaultConcat(IntTexts(e, elem), IntTextsOfElems(e, token.next));
      hide FromToken, IntTexts, FirstFault, NextToken, Default;
    }
  }

  lemma {:induction false} FieldsFaultOfFirstBadInt(ts: seq<Schema>, targets: seq<Value>, c: Cursor)
    requires HaveTypes(ts, targets) && c.Valid()
    ensures FaultOf(ReadFields(ts, targets, c)) == FirstFault(IntTextsOfFields(ts, c))
    decreases ts, 2, 0
  {
    if ts != [] {
      var token := NextToken(c);
      ReadFieldsCons(ts, targets, c, token);
      FaultIsOfFirstBadInt(ts[0], targets[0], token.text);
      FieldsFaultOfFirstBadInt(ts[1..], targets[1..], token.next);
      FirstFaultConcat(IntTexts(ts[0], token.text), IntTextsOfFields(ts[1..], token.next));
      hide FromToken, ReadFields, IntTexts, FirstFault, NextToken;
    }
  }

  /** The stream after `k` tokens. */
  function StreamAt(c: Cursor, k: nat): (c': Cursor)
    requires c.Valid()
    ensures c'.Valid()
    decreases k
  {
    if k == 0 then c else StreamAt(NextToken(c).next, k - 1)
  }

  function TokenAt(c: Cursor, k: nat): string
    requires c.Valid()
  {
    NextToken(StreamAt(c, k)).text
  }

  lemma {:induction false} HaveTypesAt(ts: seq<Schema>, targets: seq<Value>, i: nat)
    requires HaveTypes(ts, targets) && i < |ts|
    ensures |ts| == |targets| && HasType(ts[i], targets[i])
  {
    HaveTypesLength(ts, targets);
    if i > 0 {
      HaveTypesAt(ts[1..], targets[1..], i - 1);
    }
  }

  /** What the field `i` is read as. */
  function FieldAt(ts: seq<Schema>, targets: seq<Value>, c: Cursor, i: nat): Result<Value>
    requires HaveTypes(ts, targets) && c.Valid() && i < |ts|
  {
    HaveTypesAt(ts, targets, i);
    FromToken(ts[i], targets[i], TokenAt(c, i))
  }

  /** An exception in field `k` of an object: the fields in front hold what was read, those behind what they
      held before. */
  lemma {:induction false} FieldsLeftByFault(ts: seq<Schema>, targets: seq<Value>, c: Cursor, k: nat, i: nat)
    requires HaveTypes(ts, targets) && c.Valid() && k < |ts| && i < |ts|
    requires (forall j :: 0 <= j < k ==> FieldAt(ts, targets, c, j).Ok?) && FieldAt(ts, targets, c, k).Err?
    ensures |ts| == |targets| == |FieldsLeft(ts, targets, c)|
    ensures i < k ==> FieldsLeft(ts, targets, c)[i] == FieldAt(ts, targets, c, i).value
    ensures i > k ==> FieldsLeft(ts, targets, c)[i] == targets[i]
    ensures i == k && ts[k].TInt? ==> FieldsLeft(ts, targets, c)[i] == targets[i]
    decreases k
  {
    hide FieldAt, FromToken, Left, FieldsLeft, NextToken, HaveTypes, HasType;
    var next := NextToken(c).next;
    FirstField(ts, targets, c);
    if k > 0 {
      FieldAtStep(ts, targets, c, k);
      forall j | 0 <= j < k - 1 ensures FieldAt(ts[1..], targets[1..], next, j).Ok? {
        FieldAtStep(ts, targets, c, j + 1);
      }
      FieldsLeftByFault(ts[1..], targets[1..], next, k - 1, if i == 0 then 0 else i - 1);
      if i > 0 {
        FieldAtStep(ts, targets, c, i);
      }
    }
  }

  lemma {:induction false} FieldAtStep(ts: seq<Schema>, targets: seq<Value>, c: Cursor, j: nat)
    requires HaveTypes(ts, targets) && c.Valid() && 0 < j < |ts|
    ensures HaveTypes(ts[1..], targets[1..])
    ensures FieldAt(ts, targets, c, j) == FieldAt(ts[1..], targets[1..], NextToken(c).next, j - 1)
  {
    HaveTypesAt(ts, targets, j);
    hide FromToken, NextToken;
  }

  lemma {:induction false} FirstField(ts: seq<Schema>, targets: seq<Value>, c: Cursor)
    requires ts != [] && HaveTypes(ts, targets) && c.Valid()
    ensures |ts| == |targets| && HaveTypes(ts[1..], targets[1..])
    ensures var first, all := FieldAt(ts, targets, c, 0), FieldsLeft(ts, targets, c);
            && all != []
            && (first.Ok? ==> all[0] == first.value &&
                              all[1..] == FieldsLeft(ts[1..], targets[1..], NextToken(c).next))
            && (first.Err? ==> all[1..] == targets[1..] && (ts[0].TInt? ==> all[0] == targets[0]))
  {
    HaveTypesLength(ts, targets);
    FieldsLeftCons(ts, targets, c);
    var text := NextToken(c).text;
    assert FieldAt(ts, targets, c, 0) == FromToken(ts[0], targets[0], text);
    if FromToken(ts[0], targets[0], text).Ok? {
      LeftIsRead(ts[0], targets[0], text);
    }
  }

  /** An exception in element `k` of a list: those in front of it have been pushed. */
  lemma {:induction false} ElemsPushedByFault(e: Schema, c: Cursor, k: nat, i: nat)
    requires c.Valid() && !StreamAt(c, k).eof
    requires (forall j :: 0 <= j < k ==> ElemAt(e, c, j).Ok?) && ElemAt(e, c, k).Err?
    ensures |ElemsPushed(e, c)| == k
    ensures i < k ==> ElemsPushed(e, c)[i] == ElemAt(e, c, i).value
    decreases k
  {
    hide ElemAt, ElemsPushed, NextToken, StreamAt;
    EofStays(c, k);
    FirstElem(e, c);
    if k > 0 {
      var next := NextToken(c).next;
      ElemAtStep(e, c, k);
      forall j | 0 <= j < k - 1 ensures ElemAt(e, next, j).Ok? {
        ElemAtStep(e, c, j + 1);
      }
      ElemsPushedByFault(e, next, k - 1, if i == 0 then 0 else i - 1);
      if i > 0 {
        ElemAtStep(e, c, i);
      }
    }
  }

  lemma {:induction false} ElemAtStep(e: Schema, c: Cursor, j: nat)
    requires c.Valid() && 0 < j
    ensures ElemAt(e, c, j) == ElemAt(e, NextToken(c).next, j - 1)
    ensures StreamAt(c, j) == StreamAt(NextToken(c).next, j - 1)
  {
  }

  lemma {:induction false} FirstElem(e: Schema, c: Cursor)
    requires c.Valid() && !c.eof
    ensures var first := ElemAt(e, c, 0);
            ElemsPushed(e, c) == if first.Err? then [] else [first.value] + ElemsPushed(e, NextToken(c).next)
  {
    hide FromToken;
  }

  /** What the element `k` is read as. */
  function ElemAt(e: Schema, c: Cursor, k: nat): Result<Value>
    requires c.Valid()
  {
    FromToken(e, Default(e), NextToken(Cursor(TokenAt(c, k), false)).text)
  }

  lemma {:induction false} EofStays(c: Cursor, k: nat)
    requires c.Valid() && !StreamAt(c, k).eof
    ensures !c.eof
    decreases k
  {
    if k > 0 {
      EofStays(NextToken(c).next, k - 1);
    }
  }

  /** `deserialize` on a stream, into `target`; it ends for every text. `left` is what the variable holds then. */
  method Deserialize(input: InStream, t: Schema, target: Value) returns (r: Result<Value>, left: Value)
    requires input.Valid() && HasType(t, target)
    modifies input
    ensures input.Valid()
    ensures var spec := old(Read(t, target, input.View()));
            if spec.Ok? then r == Ok(spec.value.0) && input.View() == spec.value.1 else r == Err(spec.fault)
    ensures left == Left(t, target, NextToken(old(input.View())).text)
    ensures r.Ok? ==> left == r.value
    decreases t, 1, 0
  {
    var text := input.ReadToken();
    match t
    case TInt =>
      var n := Stoi(text);
      r := if n.Ok? then Ok(VInt(n.value)) else Err(n.fault);
      left := if n.Ok? then VInt(n.value) else target;
    case TStr =>
      r, left := Ok(VStr(text)), VStr(text);
    case TList(e) =>
      r, left := DeserializeSequence(text, e, target.elems);
      if r.Ok? {
        LeftIsRead(t, target, text);
      }
    case TObj(ts) =>
      r, left := DeserializeObject(text, ts, target.fields);
      if r.Ok? {
        LeftIsRead(t, target, text);
      }
  }

  method DeserializeSequence(seqData: string, e: Schema, target: seq<Value>) returns (r: Result<Value>, left: Value)
    requires AllHaveType(e, target)
    ensures r == FromToken(TList(e), VList(target), seqData)
    ensures left == Left(TList(e), VList(target), seqData)
    ensures left.VList? && target <= left.elems
    decreases e, 3, 0
  {
    var read, vec := Ok(target), target;
    assert target + [] == target;
    if |seqData| > 2 {
      var sq := new InStream(Inside(seqData).rest);
      read, vec := PushElements(sq, e, target);
    }
    r := if read.Ok? then Ok(VList(read.value)) else Err(read.fault);
    left := VList(vec);
  }

  /** The eof-driven loop: every round takes a character or sees the end. After an exception the vector holds
      the elements in front of the one that raised it. */
  method PushElements(sq: InStream, e: Schema, target: seq<Value>) returns (r: Result<seq<Value>>, vec: seq<Value>)
    requires sq.Valid()
    modifies sq
    ensures r == After(target, ReadElems(e, old(sq.View())))
    ensures vec == target + ElemsPushed(e, old(sq.View()))
    decreases e, 2, 0
  {
    vec := target;
    ghost var whole := After(target, ReadElems(e, sq.View()));
    ghost var pushed := target + ElemsPushed(e, sq.View());
    while !sq.eof
      invariant sq.Valid()
      invariant whole == After(vec, ReadElems(e, sq.View()))
      invariant pushed == vec + ElemsPushed(e, sq.View())
      decreases sq.View().Budget()
    {
      ReadElemsStep(e, sq.View(), vec);
      ElemsPushedStep(e, sq.View(), vec);
      var elem := sq.ReadToken();
      var elemData := new InStream(elem);
      var element, _ := Deserialize(elemData, e, Default(e));
      if element.Err? {
        return Err(element.fault), vec;
      }
      vec := vec + [element.value];
    }
    assert vec + [] == vec;
    r := Ok(vec);
  }

  /** Values already read, in front of what the others give: the whole, or the exception that ends it. */
  ghost predicate Towards(whole: Result<seq<Value>>, after: seq<Value>, read: seq<Value>,
                          ts: seq<Schema>, targets: seq<Value>, c: Cursor)
    requires HaveTypes(ts, targets) && c.Valid()
  {
    var rest := ReadFields(ts, targets, c);
    && whole == (if rest.Ok? then Ok(read + rest.value.0) else Err(rest.fault))
    && after == read + FieldsLeft(ts, targets, c)
  }

  lemma {:induction false} TowardsStep(whole: Result<seq<Value>>, after: seq<Value>, read: seq<Value>,
                                       ts: seq<Schema>, targets: seq<Value>, c: Cursor)
    requires ts != [] && HaveTypes(ts, targets) && c.Valid() && Towards(whole, after, read, ts, targets, c)
    ensures HaveTypes(ts[1..], targets[1..])
    ensures var token := NextToken(c);
            var v, left := FromToken(ts[0], targets[0], token.text), Left(ts[0], targets[0], token.text);
            if v.Err? then whole == Err(v.fault) && after == read + [left] + targets[1..]
            else Towards(whole, after, read + [left], ts[1..], targets[1..], token.next)
  {
    var token := NextToken(c);
    assert HaveTypes(ts[1..], targets[1..]);
    ReadFieldsCons(ts, targets, c, token);
    FieldsLeftCons(ts, targets, c);
    hide ReadFields, FieldsLeft, Left, FromToken, NextToken, HaveTypes;
    var v, left := FromToken(ts[0], targets[0], token.text), Left(ts[0], targets[0], token.text);
    if v.Err? {
      Associates(read, left, targets[1..]);
    } else {
      LeftIsRead(ts[0], targets[0], token.text);
      var rest := ReadFields(ts[1..], targets[1..], token.next);
      Associates(read, left, FieldsLeft(ts[1..], targets[1..], token.next));
      if rest.Ok? {
        Associates(read, left, rest.value.0);
      }
    }
  }

  lemma {:induction false} Associates<T>(x: seq<T>, a: T, y: seq<T>)
    ensures x + ([a] + y) == x + [a] + y
  {
  }

  lemma {:induction false} FieldsLeftCons(ts: seq<Schema>, targets: seq<Value>, c: Cursor)
    requires ts != [] && HaveTypes(ts, targets) && c.Valid()
    ensures var token := NextToken(c);
            FieldsLeft(ts, targets, c) ==
            [Left(ts[0], targets[0], token.text)] +
            if FromToken(ts[0], targets[0], token.text).Err? then targets[1..]
            else FieldsLeft(ts[1..], targets[1..], token.next)
  {
  }

  lemma {:induction false} TowardsEnd(whole: Result<seq<Value>>, after: seq<Value>, read: seq<Value>, c: Cursor)
    requires c.Valid() && Towards(whole, after, read, [], [], c)
    ensures whole == Ok(read) && after == read
  {
    assert read + [] == read;
  }

  method DeserializeObject(objData: string, ts: seq<Schema>, targets: seq<Value>)
    returns (r: Result<Value>, left: Value)
    requires HaveTypes(ts, targets)
    ensures r == FromToken(TObj(ts), VObj(targets), objData)
    ensures left == Left(TObj(ts), VObj(targets), objData)
    decreases ts, 2, 0
  {
    var input := new InStream(Inside(objData).rest);
    var fields, after := ReadInto(input, ts, targets);
    r := if fields.Ok? then Ok(VObj(fields.value)) else Err(fields.fault);
    left := VObj(after);
  }

  /** One `>>` after the other, until one raises an exception. */
  method ReadInto(input: InStream, ts: seq<Schema>, targets: seq<Value>)
    returns (r: Result<seq<Value>>, left: seq<Value>)
    requires input.Valid() && HaveTypes(ts, targets)
    modifies input
    ensures var spec := old(ReadFields(ts, targets, input.View()));
            r == if spec.Ok? then Ok(spec.value.0) else Err(spec.fault)
    ensures left == FieldsLeft(ts, targets, old(input.View()))
    decreases ts, 1, 0
  {
    ghost var spec := ReadFields(ts, targets, input.View());
    ghost var whole: Result<seq<Value>> := if spec.Ok? then Ok(spec.value.0) else Err(spec.fault);
    ghost var after := FieldsLeft(ts, targets, input.View());
    var read: seq<Value> := [];
    var todo, into := ts, targets;
    assert spec.Ok? ==> [] + spec.value.0 == spec.value.0;
    assert [] + after == after;
    while todo != []
      invariant input.Valid() && HaveTypes(todo, into) && |todo| <= |ts|
      invariant forall t :: t in todo ==> t in ts
      invariant Towards(whole, after, read, todo, into, input.View())
    {
      TowardsStep(whole, after, read, todo, into, input.View());
      hide Towards, Left, NextToken, FromToken;
      var v, field := Deserialize(input, todo[0], into[0]);
      read := read + [field];
      if v.Err? {
        return Err(v.fault), read + into[1..];
      }
      todo, into := todo[1..], into[1..];
    }
    assert into == [] by { HaveTypesLength(todo, into); }
    TowardsEnd(whole, after, read, input.View());
    r, left := Ok(read), read;
  }
}
