/** A remote call from end to end: `make_call` (lib/remotecall.h), `readData` and the lambdas that
    `REGISTER_RMI3` registers (lib/handlerbase.h), `serialiseAnswer` and `parseAnswer`
    (lib/retvalserialisation.h). The macros spell out one to three parameters; here there may be any
    number from one on. */
module RemoteCalls {
  import opened Results
  import opened Decimal
  import opened Tokenizer
  import opened Escaping
  import opened Framing
  import opened Values
  import opened Printing
  import opened Reading
  import opened RoundTrip
  import opened OpenText
  import opened StringLiterals

  /** A parameter: the text of its type in the macro, and what values it carries. */
  datatype Param = Param(typeText: string, schema: Schema) {
    predicate ByRef() {
      IsRetval(typeText)
    }
  }

  datatype Signature = Signature(ret: Schema, params: seq<Param>)

  /** What a function returns, and what its parameters hold afterwards. */
  datatype Reply = Reply(ret: Value, params: seq<Value>)

  type Function = seq<Value> -> Reply

  function Schemas(ps: seq<Param>): seq<Schema> {
    if ps == [] then [] else [ps[0].schema] + Schemas(ps[1..])
  }

  function RefSchemas(ps: seq<Param>): seq<Schema> {
    if ps == [] then []
    else (if ps[0].ByRef() then [ps[0].schema] else []) + RefSchemas(ps[1..])
  }

  /** The values of the by-reference parameters. */
  function RefOnly(ps: seq<Param>, vs: seq<Value>): seq<Value> {
    if ps == [] || vs == [] then []
    else (if ps[0].ByRef() then [vs[0]] else []) + RefOnly(ps[1..], vs[1..])
  }

  /** The variables passed to a call, once it is over: only by-reference parameters change. */
  function AfterCall(ps: seq<Param>, vars: seq<Value>, after: seq<Value>): seq<Value> {
    if ps == [] || vars == [] || after == [] then []
    else [if ps[0].ByRef() then after[0] else vars[0]] + AfterCall(ps[1..], vars[1..], after[1..])
  }

  /** Calling the function directly. */
  function LocalCall(sig: Signature, f: Function, args: seq<Value>): Reply {
    Reply(f(args).ret, AfterCall(sig.params, args, f(args).params))
  }

  /** Fields behind an opening brace. The text is taken before the `ObjectSer` is destroyed. */
  function FieldsText(vs: seq<Value>): string {
    "{" + PrintFields(vs)
  }

  /** What an `ObjectDeser` on this text reads its fields from. */
  function ObjectBody(text: string): (c: Cursor)
    ensures c.Valid()
  {
    Inside(NextToken(Cursor(text, false)).text)
  }

  /** `readData`: the arguments as the handler sees them. */
  function ReadCall(ps: seq<Param>, data: string): Result<seq<Value>> {
    var (args, _) :- ReadFields(Schemas(ps), Defaults(Schemas(ps)), ObjectBody(data));
    Ok(args)
  }

  function AnswerFields(ps: seq<Param>, reply: Reply): seq<Value> {
    [reply.ret] + RefOnly(ps, reply.params)
  }

  /** The registered lambda: read the arguments, call, answer with the result and the references. */
  function Serve(sig: Signature, f: Function, data: string): Result<string> {
    var args :- ReadCall(sig.params, data);
    Ok(FieldsText(AnswerFields(sig.params, f(args))))
  }

  /** The `OptionalDeserialiser` calls of `parseAnswer`, one per parameter. */
  function ReadParams(ps: seq<Param>, vars: seq<Value>, c: Cursor): Result<seq<Value>>
    requires HaveTypes(Schemas(ps), vars) && c.Valid()
  {
    if ps == [] then Ok([])
    else
      assert Schemas(ps)[1..] == Schemas(ps[1..]);
      if ps[0].ByRef() then
        var (v, c') :- Read(ps[0].schema, vars[0], c);
        var more :- ReadParams(ps[1..], vars[1..], c');
        Ok([v] + more)
      else
        var more :- ReadParams(ps[1..], vars[1..], c);
        Ok([vars[0]] + more)
  }

  /** `parseAnswer`: a fresh result variable, and references read into the caller's variables. */
  function ParseAnswer(sig: Signature, vars: seq<Value>, answer: string): Result<Reply>
    requires HaveTypes(Schemas(sig.params), vars)
  {
    var (ret, c) :- Read(sig.ret, Default(sig.ret), ObjectBody(answer));
    var params :- ReadParams(sig.params, vars, c);
    Ok(Reply(ret, params))
  }

  /** `make_call`, with the handler at the other end of `sendAndWait`. */
  function MakeCall(sig: Signature, f: Function, args: seq<Value>): Result<Reply>
    requires HaveTypes(Schemas(sig.params), args)
  {
    var answer :- Serve(sig, f, FieldsText(args));
    ParseAnswer(sig, args, answer)
  }

  function Last<T>(s: seq<T>): T
    requires s != []
  {
    s[|s| - 1]
  }

  lemma {:induction false} LastOfConcat<T>(x: seq<T>, y: seq<T>)
    requires y != []
    ensures Last(x + y) == Last(y) == y[|y| - 1]
  {
  }

  /** Text written without its closing brace, read into variables that held `targets`. */
  lemma {:induction false} FieldsTextExactly(ts: seq<Schema>, vs: seq<Value>, targets: seq<Value>)
    requires vs != [] && HaveTypes(ts, vs) && HaveTypes(ts, targets) && AllClean(vs)
    ensures var r := ReadFields(ts, targets, ObjectBody(FieldsText(vs)));
            r.Ok? && r.value.0 == vs <==> CutReplacesRow(targets, vs)
  {
    InsideOfOpen(vs);
    ChoppedFraming(VObj(vs));
    ChoppedFieldsReplace(ts, vs, targets);
  }

  /** The handler gets exactly the arguments that were passed if and only if the rightmost leaf of the
      last one is not an `int`. */
  lemma {:induction false} ArgumentsArriveExactly(ps: seq<Param>, args: seq<Value>)
    requires args != [] && HaveTypes(Schemas(ps), args) && AllClean(args)
    ensures ReadCall(ps, FieldsText(args)) == Ok(args) <==> TailSafe(Last(args))
  {
    var ts := Schemas(ps);
    FieldsTextExactly(ts, args, Defaults(ts));
    DefaultsAreNotPending(ts);
    if RowLossHides(Defaults(ts), args) {
      HiddenRowLossNeedsBoth(Defaults(ts), args);
    }
  }

  /** By-reference values written back into the variables. */
  function Scatter(ps: seq<Param>, vars: seq<Value>, refs: seq<Value>): seq<Value>
    requires |ps| == |vars| && |refs| == |RefSchemas(ps)|
  {
    if ps == [] then []
    else if ps[0].ByRef() then [refs[0]] + Scatter(ps[1..], vars[1..], refs[1..])
    else [vars[0]] + Scatter(ps[1..], vars[1..], refs)
  }

  lemma {:induction false} RefTypes(ps: seq<Param>, vs: seq<Value>)
    requires HaveTypes(Schemas(ps), vs)
    ensures |ps| == |vs| && HaveTypes(RefSchemas(ps), RefOnly(ps, vs))
    ensures |RefOnly(ps, vs)| == |RefSchemas(ps)|
  {
    if ps == [] {
    } else {
      assert Schemas(ps)[1..] == Schemas(ps[1..]);
      RefTypes(ps[1..], vs[1..]);
      if ps[0].ByRef() {
        assert RefSchemas(ps)[1..] == RefSchemas(ps[1..]);
        assert RefOnly(ps, vs)[1..] == RefOnly(ps[1..], vs[1..]);
      } else {
        assert RefSchemas(ps) == RefSchemas(ps[1..]);
        assert RefOnly(ps, vs) == RefOnly(ps[1..], vs[1..]);
      }
    }
  }

  /** Reading the parameters of an answer is reading the by-reference ones as fields. */
  lemma {:induction false} ParamsAsFields(ps: seq<Param>, vars: seq<Value>, c: Cursor)
    requires HaveTypes(Schemas(ps), vars) && c.Valid()
    ensures |ps| == |vars| && HaveTypes(RefSchemas(ps), RefOnly(ps, vars))
    ensures var r := ReadFields(RefSchemas(ps), RefOnly(ps, vars), c);
            ReadParams(ps, vars, c) == if r.Err? then Err(r.fault) else Ok(Scatter(ps, vars, r.value.0))
  {
    RefTypes(ps, vars);
    if ps == [] {
    } else {
      assert Schemas(ps)[1..] == Schemas(ps[1..]);
      if ps[0].ByRef() {
        assert RefSchemas(ps)[1..] == RefSchemas(ps[1..]);
        assert RefOnly(ps, vars)[1..] == RefOnly(ps[1..], vars[1..]);
        var first := Read(ps[0].schema, vars[0], c);
        if first.Ok? {
          ParamsAsFields(ps[1..], vars[1..], first.value.1);
          var rest := ReadFields(RefSchemas(ps[1..]), RefOnly(ps[1..], vars[1..]), first.value.1);
          if rest.Ok? {
            assert ([first.value.0] + rest.value.0)[1..] == rest.value.0;
          }
        }
      } else {
        assert RefSchemas(ps) == RefSchemas(ps[1..]);
        assert RefOnly(ps, vars) == RefOnly(ps[1..], vars[1..]);
        ParamsAsFields(ps[1..], vars[1..], c);
      }
    }
  }

  lemma {:induction false} ScatterOfRefs(ps: seq<Param>, vars: seq<Value>, after: seq<Value>)
    requires |ps| == |vars| == |after| && |RefOnly(ps, after)| == |RefSchemas(ps)|
    ensures Scatter(ps, vars, RefOnly(ps, after)) == AfterCall(ps, vars, after)
  {
    if ps == [] {
    } else if ps[0].ByRef() {
      assert RefOnly(ps, after)[1..] == RefOnly(ps[1..], after[1..]);
      assert RefSchemas(ps)[1..] == RefSchemas(ps[1..]);
      ScatterOfRefs(ps[1..], vars[1..], after[1..]);
    } else {
      assert RefOnly(ps, after) == RefOnly(ps[1..], after[1..]);
      assert RefSchemas(ps) == RefSchemas(ps[1..]);
      ScatterOfRefs(ps[1..], vars[1..], after[1..]);
    }
  }

  lemma {:induction false} ScatterIsInjective(ps: seq<Param>, vars: seq<Value>, xs: seq<Value>, ys: seq<Value>)
    requires |ps| == |vars| && |xs| == |ys| == |RefSchemas(ps)|
    ensures Scatter(ps, vars, xs) == Scatter(ps, vars, ys) <==> xs == ys
  {
    if ps == [] {
    } else if ps[0].ByRef() {
      assert RefSchemas(ps)[1..] == RefSchemas(ps[1..]);
      ScatterIsInjective(ps[1..], vars[1..], xs[1..], ys[1..]);
      ConsCancels(xs[0], Scatter(ps[1..], vars[1..], xs[1..]), ys[0], Scatter(ps[1..], vars[1..], ys[1..]));
      assert xs == [xs[0]] + xs[1..] && ys == [ys[0]] + ys[1..];
    } else {
      assert RefSchemas(ps) == RefSchemas(ps[1..]);
      ScatterIsInjective(ps[1..], vars[1..], xs, ys);
      ConsCancels(vars[0], Scatter(ps[1..], vars[1..], xs), vars[0], Scatter(ps[1..], vars[1..], ys));
    }
  }

  function AnswerSchemas(sig: Signature): seq<Schema> {
    [sig.ret] + RefSchemas(sig.params)
  }

  /** The variables that an answer is read into. */
  function AnswerTargets(sig: Signature, vars: seq<Value>): seq<Value> {
    [Default(sig.ret)] + RefOnly(sig.params, vars)
  }

  /** The caller ends up with what the answer was made from exactly when the fields come back. */
  lemma {:induction false} AnswerAsFields(sig: Signature, vars: seq<Value>, answer: string, reply: Reply)
    requires HaveTypes(Schemas(sig.params), vars) && HaveTypes(Schemas(sig.params), reply.params)
    ensures HaveTypes(AnswerSchemas(sig), AnswerTargets(sig, vars))
    ensures var r := ReadFields(AnswerSchemas(sig), AnswerTargets(sig, vars), ObjectBody(answer));
            ParseAnswer(sig, vars, answer) == Ok(Reply(reply.ret, AfterCall(sig.params, vars, reply.params))) <==>
            r.Ok? && r.value.0 == AnswerFields(sig.params, reply)
  {
    var ps, ts, targets := sig.params, AnswerSchemas(sig), AnswerTargets(sig, vars);
    RefTypes(ps, vars);
    RefTypes(ps, reply.params);
    assert ts[1..] == RefSchemas(ps) && targets[1..] == RefOnly(ps, vars);
    var first := Read(sig.ret, Default(sig.ret), ObjectBody(answer));
    if first.Ok? {
      ParamsAsFields(ps, vars, first.value.1);
      var rest := ReadFields(RefSchemas(ps), RefOnly(ps, vars), first.value.1);
      if rest.Ok? {
        ScatterOfRefs(ps, vars, reply.params);
        ScatterIsInjective(ps, vars, rest.value.0, RefOnly(ps, reply.params));
        ConsCancels(first.value.0, rest.value.0, reply.ret, RefOnly(ps, reply.params));
      }
    }
  }

  lemma {:induction false} RefsAreClean(ps: seq<Param>, vs: seq<Value>)
    requires AllClean(vs)
    ensures AllClean(RefOnly(ps, vs))
  {
    if ps == [] || vs == [] {
    } else {
      RefsAreClean(ps[1..], vs[1..]);
      var more := RefOnly(ps[1..], vs[1..]);
      assert ([vs[0]] + more)[1..] == more && [] + more == more;
    }
  }

  /** The answer makes up for the call: the rightmost leaf of its last field is no `int` and no by-reference
      variable held a non-empty list, or the loss of that `int` is hidden by what the variable held. */
  predicate AnswerReplaces(sig: Signature, vars: seq<Value>, reply: Reply) {
    CutReplacesRow(AnswerTargets(sig, vars), AnswerFields(sig.params, reply))
  }

  /** Answers: the caller gets the result and the references, and nothing else changes, exactly then. */
  lemma {:induction false} AnswerArrivesExactly(sig: Signature, vars: seq<Value>, reply: Reply)
    requires HaveTypes(Schemas(sig.params), vars)
    requires HasType(sig.ret, reply.ret) && HaveTypes(Schemas(sig.params), reply.params)
    requires Clean(reply.ret) && AllClean(reply.params)
    ensures ParseAnswer(sig, vars, FieldsText(AnswerFields(sig.params, reply))) ==
            Ok(Reply(reply.ret, AfterCall(sig.params, vars, reply.params))) <==>
            AnswerReplaces(sig, vars, reply)
  {
    var ps, ts, targets := sig.params, AnswerSchemas(sig), AnswerTargets(sig, vars);
    var fields := AnswerFields(ps, reply);
    AnswerAsFields(sig, vars, FieldsText(fields), reply);
    RefTypes(ps, reply.params);
    RefsAreClean(ps, reply.params);
    assert ts[1..] == RefSchemas(ps) && targets[1..] == RefOnly(ps, vars);
    assert fields[1..] == RefOnly(ps, reply.params);
    FieldsTextExactly(ts, fields, targets);
  }

  /** Both halves of the condition, when the other one is met. */
  lemma {:induction false} AnswerReplacesWhen(sig: Signature, vars: seq<Value>, reply: Reply)
    ensures var pending := !NonePending(RefOnly(sig.params, vars));
            var safe := TailSafe(Last(AnswerFields(sig.params, reply)));
            && (safe ==> (AnswerReplaces(sig, vars, reply) <==> !pending))
            && (!pending ==> (AnswerReplaces(sig, vars, reply) <==> safe))
  {
    var targets, fields := AnswerTargets(sig, vars), AnswerFields(sig.params, reply);
    DefaultIsNotPending(sig.ret);
    assert targets[1..] == RefOnly(sig.params, vars);
    if RowLossHides(targets, fields) {
      HiddenRowLossNeedsBoth(targets, fields);
    }
  }

  /** Remote call and local call. For clean values, the function is called on exactly the arguments
      passed and the caller sees exactly what a local call would have done, if and only if
      - the rightmost leaf of the last argument is not an `int`, and
      - nor is that of the last value in the answer, and no by-reference variable holds a non-empty list
        when the call is made; or these two fail together and one hides the other. */
  lemma {:induction false} RemoteCallRefinesLocalExactly(sig: Signature, f: Function, args: seq<Value>)
    requires args != [] && HaveTypes(Schemas(sig.params), args) && AllClean(args)
    requires HasType(sig.ret, f(args).ret) && HaveTypes(Schemas(sig.params), f(args).params)
    requires Clean(f(args).ret) && AllClean(f(args).params)
    ensures ReadCall(sig.params, FieldsText(args)) == Ok(args) &&
            MakeCall(sig, f, args) == Ok(LocalCall(sig, f, args)) <==>
            TailSafe(Last(args)) && AnswerReplaces(sig, args, f(args))
  {
    ArgumentsArriveExactly(sig.params, args);
    AnswerArrivesExactly(sig, args, f(args));
  }

  lemma {:induction false} LastHasType(ts: seq<Schema>, vs: seq<Value>)
    requires vs != [] && HaveTypes(ts, vs)
    ensures ts != [] && HasType(Last(ts), Last(vs))
  {
    if |vs| > 1 {
      LastHasType(ts[1..], vs[1..]);
    }
  }

  /** No call whose last parameter is an `int` reaches its function with the arguments passed. */
  lemma {:induction false} LastIntNeverArrives(ps: seq<Param>, args: seq<Value>)
    requires args != [] && HaveTypes(Schemas(ps), args) && AllClean(args)
    requires Last(Schemas(ps)) == TInt
    ensures ReadCall(ps, FieldsText(args)) != Ok(args)
  {
    LastHasType(Schemas(ps), args);
    ArgumentsArriveExactly(ps, args);
  }

  /** The text of a row that ends in `x`. */
  function RowEndingIn(vs: seq<Value>, x: string): string {
    if vs == [] then x else Print(vs[0]) + ("," + RowEndingIn(vs[1..], x))
  }

  lemma {:induction false} RowEndingInValue(vs: seq<Value>, v: Value)
    ensures RowEndingIn(vs, Print(v)) == PrintFields(vs + [v])
    ensures PrintFields(vs + [v]) != "" && Chop(PrintFields(vs + [v])) == RowEndingIn(vs, Chop(Print(v)))
  {
    var row := vs + [v];
    PrintRow(row);
    hide Print, PrintFields;
    if vs == [] {
      assert row[0] == v && row[1..] == [] && Print(v) + "" == Print(v);
    } else {
      assert row[0] == vs[0] && row[1..] == vs[1..] + [v];
      RowEndingInValue(vs[1..], v);
      var first, rest := Print(vs[0]), PrintFields(vs[1..] + [v]);
      assert Chop(first + ("," + rest)) == first + ("," + Chop(rest));
    }
  }

  /** A printed number without its last digit: a shorter number, or none at all. */
  lemma {:induction false} ChoppedNumber(n: int)
    ensures -10 < n < 10 ==> Chop(ToString(n)) == if n < 0 then "-" else ""
    ensures n >= 10 ==> Chop(ToString(n)) == ToString(n / 10)
    ensures n <= -10 ==> Chop(ToString(n)) == ToString(0 - (0 - n) / 10)
  {
    var m := if n < 0 then -n else n;
    if m >= 10 {
      assert Chop(Digits(m)) == Digits(m / 10);
    }
    assert n < 0 ==> Chop("-" + Digits(m)) == "-" + Chop(Digits(m));
  }

  lemma {:induction false} NoNumber(x: string)
    requires x == "" || x == "-"
    ensures Stoi(x) == Err(InvalidArgument)
    ensures NextToken(Cursor(x, false)).text == x
  {
    assert "-"[1..] == "";
  }

  /** A row whose last field has no digits raises an exception there. */
  lemma {:induction false} RowWithoutNumber(ts: seq<Schema>, vs: seq<Value>, targets: seq<Value>, x: string)
    requires |ts| == |vs| + 1 && HaveTypes(ts[..|vs|], vs) && ts[|vs|] == TInt
    requires HaveTypes(ts, targets) && AllClean(vs) && (x == "" || x == "-")
    ensures ReadFields(ts, targets, Cursor(RowEndingIn(vs, x), false)) == Err(InvalidArgument)
    decreases vs
  {
    var c := Cursor(RowEndingIn(vs, x), false);
    if vs == [] {
      hide ReadFields, NextToken;
      ReadFieldsCons(ts, targets, c, NextToken(c));
      NoNumber(x);
    } else {
      hide ReadFields, NextToken, FromToken, Print, Clean, AllClean, HasType, HaveTypes, Merge, TokenText;
      RowParts(ts, vs, targets);
      var v, tail := vs[0], "," + RowEndingIn(vs[1..], x);
      assert RowEndingIn(vs, x) == Print(v) + tail && tail[1..] == RowEndingIn(vs[1..], x);
      hide RowEndingIn;
      RowEndingInStarts(vs[1..], x);
      FieldFraming(v, tail);
      ReadFieldsCons(ts, targets, c, Token(TokenText(v), AfterTail(v.Bracketed(), tail)));
      TokenReadBack(ts[0], v, targets[0]);
      RowWithoutNumber(ts[1..], vs[1..], targets[1..], x);
      ReadFieldsFromNothing(ts[1..], targets[1..]);
    }
  }

  lemma {:induction false} RowParts(ts: seq<Schema>, vs: seq<Value>, targets: seq<Value>)
    requires vs != [] && |ts| == |vs| + 1 && HaveTypes(ts[..|vs|], vs) && HaveTypes(ts, targets) && AllClean(vs)
    ensures targets != [] && HasType(ts[0], vs[0]) && HasType(ts[0], targets[0]) && Clean(vs[0])
    ensures HaveTypes(ts[1..][..|vs| - 1], vs[1..]) && HaveTypes(ts[1..], targets[1..]) && AllClean(vs[1..])
  {
    assert ts[1..][..|vs| - 1] == ts[..|vs|][1..];
  }

  lemma {:induction false} RowEndingInStarts(vs: seq<Value>, x: string)
    requires x == "" || x == "-"
    ensures IsTail("," + RowEndingIn(vs, x))
  {
  }

  /** What becomes of the last argument if it is an `int`: its last digit is cut off, and if there is no other
      the call raises an exception. */
  lemma {:induction false} LastIntArrives(ps: seq<Param>, args: seq<Value>, n: int)
    requires HaveTypes(Schemas(ps), args + [VInt(n)]) && AllClean(args + [VInt(n)])
    ensures ReadCall(ps, FieldsText(args + [VInt(n)])) ==
            if -10 < n < 10 then Err(InvalidArgument)
            else Ok(args + [VInt(if n < 0 then 0 - (0 - n) / 10 else n / 10)])
  {
    var ts, sent := Schemas(ps), args + [VInt(n)];
    RowEndingInValue(args, VInt(n));
    OpenBody(sent);
    SplitRow(ts, args, VInt(n));
    ChoppedNumber(n);
    hide FieldsText, ObjectBody, ReadFields, PrintFields, HaveTypes, AllClean, RowEndingIn, Schemas, Chop, Defaults;
    if -10 < n < 10 {
      RowWithoutNumber(ts, args, Defaults(ts), Chop(ToString(n)));
    } else {
      ShorterNumberArrives(ts, args, if n < 0 then 0 - (0 - n) / 10 else n / 10);
    }
  }

  lemma {:induction false} OpenBody(vs: seq<Value>)
    requires vs != [] && AllClean(vs)
    ensures PrintFields(vs) != "" && ObjectBody(FieldsText(vs)) == Cursor(Chop(PrintFields(vs)), false)
  {
    InsideOfOpen(vs);
    ChoppedFraming(VObj(vs));
  }

  lemma {:induction false} ShorterNumberArrives(ts: seq<Schema>, args: seq<Value>, m: int)
    requires |ts| == |args| + 1 && HaveTypes(ts[..|args|], args) && ts[|args|] == TInt
    requires AllClean(args) && IsInt32(m)
    ensures var r := ReadFields(ts, Defaults(ts), Cursor(RowEndingIn(args, ToString(m)), false));
            r.Ok? && r.value.0 == args + [VInt(m)]
  {
    var seen := args + [VInt(m)];
    RowEndingInValue(args, VInt(m));
    JoinRow(ts, args, VInt(m));
    hide Clean, HaveTypes, AllClean, RowEndingIn, PrintFields, ReadFields;
    FieldsReadBack(ts, seen, Defaults(ts));
    DefaultsAreNotPending(ts);
    MergeAllReplacesExactly(ts, Defaults(ts), seen);
  }

  lemma {:induction false} SplitRow(ts: seq<Schema>, vs: seq<Value>, v: Value)
    requires HaveTypes(ts, vs + [v]) && AllClean(vs + [v])
    ensures |ts| == |vs| + 1 && HaveTypes(ts[..|vs|], vs) && HasType(ts[|vs|], v)
    ensures AllClean(vs) && Clean(v)
    decreases vs
  {
    var row := vs + [v];
    if vs == [] {
      assert row[0] == v && row[1..] == [] && ts[1..] == [];
    } else {
      assert row[0] == vs[0] && row[1..] == vs[1..] + [v];
      SplitRow(ts[1..], vs[1..], v);
      assert ts[..|vs|][1..] == ts[1..][..|vs| - 1];
    }
  }

  lemma {:induction false} JoinRow(ts: seq<Schema>, vs: seq<Value>, v: Value)
    requires |ts| == |vs| + 1 && HaveTypes(ts[..|vs|], vs) && HasType(ts[|vs|], v)
    requires AllClean(vs) && Clean(v)
    ensures HaveTypes(ts, vs + [v]) && AllClean(vs + [v])
    decreases vs
  {
    var row := vs + [v];
    if vs == [] {
      assert row[0] == v && row[1..] == [] && ts[1..] == [];
    } else {
      assert ts[..|vs|][1..] == ts[1..][..|vs| - 1];
      JoinRow(ts[1..], vs[1..], v);
      assert row[0] == vs[0] && row[1..] == vs[1..] + [v];
    }
  }

  /** The handler raises an exception exactly when some text that it reads as an `int` is bad, and it is that
      of the first. */
  lemma {:induction false} ServeFaultsExactly(sig: Signature, f: Function, data: string)
    ensures FaultOf(Serve(sig, f, data)) == FirstFault(IntTextsOfFields(Schemas(sig.params), ObjectBody(data)))
  {
    var ts := Schemas(sig.params);
    FieldsFaultOfFirstBadInt(ts, Defaults(ts), ObjectBody(data));
    hide ReadFields, ObjectBody, FirstFault, IntTextsOfFields, FieldsText, AnswerFields;
  }

  /** And the caller does exactly when the handler does, or when some such text of the answer is bad. */
  lemma {:induction false} CallFaultsExactly(sig: Signature, f: Function, args: seq<Value>)
    requires HaveTypes(Schemas(sig.params), args)
    ensures var served := Serve(sig, f, FieldsText(args));
            FaultOf(MakeCall(sig, f, args)) ==
            if served.Err? then Some(served.fault)
            else FirstFault(IntTextsOfFields(AnswerSchemas(sig), ObjectBody(served.value)))
  {
    var served := Serve(sig, f, FieldsText(args));
    if served.Ok? {
      hide Serve;
      AnswerFaults(sig, args, served.value);
    }
  }

  lemma {:induction false} AnswerFaults(sig: Signature, vars: seq<Value>, answer: string)
    requires HaveTypes(Schemas(sig.params), vars)
    ensures FaultOf(ParseAnswer(sig, vars, answer)) ==
            FirstFault(IntTextsOfFields(AnswerSchemas(sig), ObjectBody(answer)))
  {
    var ps, ts, targets, c := sig.params, AnswerSchemas(sig), AnswerTargets(sig, vars), ObjectBody(answer);
    RefTypes(ps, vars);
    assert ts[1..] == RefSchemas(ps) && targets[1..] == RefOnly(ps, vars);
    FieldsFaultOfFirstBadInt(ts, targets, c);
    ReadFieldsCons(ts, targets, c, NextToken(c));
    var first := Read(sig.ret, Default(sig.ret), c);
    if first.Ok? {
      ParamsAsFields(ps, vars, first.value.1);
    }
    hide ReadFields, FromToken, FirstFault, IntTextsOfFields;
  }

  /** A parameter whose type text has an ampersand and no `const`. */
  ghost predicate Returned(typeText: string) {
    '&' in typeText && forall i: nat :: !OccursAt(typeText, "const", i)
  }

  lemma {:induction false} ReturnedExactly(p: Param)
    ensures p.ByRef() <==> Returned(p.typeText)
  {
    IsRetvalExactly(p.typeText);
  }

  /** Variables of other types keep their value in every call, remote or local, whatever it comes to, and those
      of these types hold after a local call what the function left in them. */
  lemma {:induction false} OnlyReferencesChange(sig: Signature, f: Function, args: seq<Value>, i: nat)
    requires HaveTypes(Schemas(sig.params), args) && HaveTypes(Schemas(sig.params), f(args).params)
    requires i < |sig.params|
    ensures |args| == |f(args).params| == |VarsLeft(sig, f, args)| == |LocalCall(sig, f, args).params| == |sig.params|
    ensures !Returned(sig.params[i].typeText) ==> VarsLeft(sig, f, args)[i] == args[i]
    ensures Serve(sig, f, FieldsText(args)).Err? ==> VarsLeft(sig, f, args) == args
    ensures LocalCall(sig, f, args).params[i] ==
            if Returned(sig.params[i].typeText) then f(args).params[i] else args[i]
  {
    var ps := sig.params;
    RefTypes(ps, args);
    RefTypes(ps, f(args).params);
    ReturnedExactly(ps[i]);
    AfterCallAt(ps, args, f(args).params, i);
    hide Returned, Param.ByRef, AfterCall;
    var answer := Serve(sig, f, FieldsText(args));
    if answer.Ok? {
      var ret := Read(sig.ret, Default(sig.ret), ObjectBody(answer.value));
      if ret.Ok? {
        ParamsLeftAt(ps, args, ret.value.1, i);
      }
    }
  }

  lemma {:induction false} AfterCallAt(ps: seq<Param>, vars: seq<Value>, after: seq<Value>, i: nat)
    requires |ps| == |vars| == |after| && i < |ps|
    ensures |AfterCall(ps, vars, after)| == |ps|
    ensures AfterCall(ps, vars, after)[i] == if ps[i].ByRef() then after[i] else vars[i]
  {
    hide Param.ByRef;
    if i > 0 {
      AfterCallAt(ps[1..], vars[1..], after[1..], i - 1);
    } else if |ps| > 1 {
      AfterCallAt(ps[1..], vars[1..], after[1..], 0);
    }
  }

  lemma {:induction false} ParamsLeftAt(ps: seq<Param>, vars: seq<Value>, c: Cursor, i: nat)
    requires HaveTypes(Schemas(ps), vars) && c.Valid() && i < |ps|
    ensures |ps| == |vars| == |ParamsLeft(ps, vars, c)|
    ensures !ps[i].ByRef() ==> ParamsLeft(ps, vars, c)[i] == vars[i]
  {
    RefTypes(ps, vars);
    assert Schemas(ps)[1..] == Schemas(ps[1..]);
    hide Param.ByRef, Left, FromToken, NextToken;
    if |ps| > 1 {
      var next := if ps[0].ByRef() then NextToken(c).next else c;
      ParamsLeftAt(ps[1..], vars[1..], next, if i > 0 then i - 1 else 0);
    } else {
      assert ps[1..] == [] && vars[1..] == [];
    }
  }

  /** The caller's variables after a call that reaches the parameters of its answer: those that are returned hold
      what reading them as fields leaves, with or without an exception; before that they are as they were. */
  lemma {:induction false} VarsLeftExactly(sig: Signature, f: Function, args: seq<Value>)
    requires HaveTypes(Schemas(sig.params), args)
    ensures var served := Serve(sig, f, FieldsText(args));
            if served.Err? || Read(sig.ret, Default(sig.ret), ObjectBody(served.value)).Err? then
              VarsLeft(sig, f, args) == args
            else
              var c := NextToken(ObjectBody(served.value)).next;
              && HaveTypes(RefSchemas(sig.params), RefOnly(sig.params, args))
              && var left := FieldsLeft(RefSchemas(sig.params), RefOnly(sig.params, args), c);
                 && |args| == |sig.params| && |left| == |RefSchemas(sig.params)|
                 && VarsLeft(sig, f, args) == Scatter(sig.params, args, left)
  {
    RefTypes(sig.params, args);
    var served := Serve(sig, f, FieldsText(args));
    if served.Ok? {
      var ret := Read(sig.ret, Default(sig.ret), ObjectBody(served.value));
      if ret.Ok? {
        hide Serve, ParamsLeft, FieldsLeft, Scatter, NextToken, FromToken;
        ParamsLeftAsFields(sig.params, args, ret.value.1);
      }
    }
  }

  lemma {:induction false} ParamsLeftAsFields(ps: seq<Param>, vars: seq<Value>, c: Cursor)
    requires HaveTypes(Schemas(ps), vars) && c.Valid()
    ensures |ps| == |vars| && HaveTypes(RefSchemas(ps), RefOnly(ps, vars))
    ensures |FieldsLeft(RefSchemas(ps), RefOnly(ps, vars), c)| == |RefSchemas(ps)|
    ensures ParamsLeft(ps, vars, c) == Scatter(ps, vars, FieldsLeft(RefSchemas(ps), RefOnly(ps, vars), c))
  {
    RefTypes(ps, vars);
    if ps != [] {
      var ts, refs := RefSchemas(ps), RefOnly(ps, vars);
      assert Schemas(ps)[1..] == Schemas(ps[1..]);
      RefTypes(ps[1..], vars[1..]);
      if ps[0].ByRef() {
        assert ts[1..] == RefSchemas(ps[1..]) && refs[1..] == RefOnly(ps[1..], vars[1..]);
        FieldsLeftCons(ts, refs, c);
        var text, next := NextToken(c).text, NextToken(c).next;
        hide Param.ByRef, Left, FromToken, NextToken, FieldsLeft;
        var left := Left(ps[0].schema, vars[0], text);
        if FromToken(ps[0].schema, vars[0], text).Err? {
          ScatterOfOwn(ps[1..], vars[1..]);
          assert ([left] + refs[1..])[1..] == refs[1..];
        } else {
          ParamsLeftAsFields(ps[1..], vars[1..], next);
          var more := FieldsLeft(ts[1..], refs[1..], next);
          assert ([left] + more)[1..] == more;
        }
      } else {
        assert ts == RefSchemas(ps[1..]) && refs == RefOnly(ps[1..], vars[1..]);
        ParamsLeftAsFields(ps[1..], vars[1..], c);
      }
    }
  }

  lemma {:induction false} ScatterOfOwn(ps: seq<Param>, vars: seq<Value>)
    requires |ps| == |vars| && |RefOnly(ps, vars)| == |RefSchemas(ps)|
    ensures Scatter(ps, vars, RefOnly(ps, vars)) == vars
  {
    ScatterOfRefs(ps, vars, vars);
    AfterCallOfSame(ps, vars);
  }

  lemma {:induction false} AfterCallOfSame(ps: seq<Param>, vars: seq<Value>)
    requires |ps| == |vars|
    ensures AfterCall(ps, vars, vars) == vars
  {
    if ps != [] {
      AfterCallOfSame(ps[1..], vars[1..]);
    }
  }

  /** The answer on the wire: the result comes first, and then the references in the order of the parameters. */
  lemma {:induction false} AnswerText(sig: Signature, f: Function, data: string, args: seq<Value>)
    requires ReadCall(sig.params, data) == Ok(args)
    ensures var refs := RefOnly(sig.params, f(args).params);
            Serve(sig, f, data) ==
            Ok("{" + Print(f(args).ret) + if refs == [] then "" else "," + PrintFields(refs))
  {
    var refs := RefOnly(sig.params, f(args).params);
    var fields := [f(args).ret] + refs;
    PrintRow(fields);
    assert fields[0] == f(args).ret && fields[1..] == refs;
    hide Print, PrintFields;
    assert "{" + (Print(f(args).ret) + RowTail(refs)) == "{" + Print(f(args).ret) + RowTail(refs);
  }

  /** Fields written to a stream whose text is taken before the closing brace is there. */
  method WriteFields(vs: seq<Value>) returns (text: string)
    ensures text == FieldsText(vs)
  {
    var out := new OutStream();
    var ser := new ObjectSer(out);
    for i := 0 to |vs|
      invariant fresh(ser) && fresh(out) && ser.Valid() && ser.out == out && ser.before == ""
      invariant ser.written == vs[..i]
    {
      ser.Field(vs[i]);
    }
    assert vs[..|vs|] == vs;
    text := out.text;
    ser.Close();
  }

  /** The registered lambda, from call data to answer data. */
  method HandleRmi(sig: Signature, f: Function, data: string) returns (answer: Result<string>)
    ensures answer == Serve(sig, f, data)
  {
    var ts := Schemas(sig.params);
    var input := new InStream(data);
    var args, _ := Deserialize(input, TObj(ts), VObj(Defaults(ts)));
    if args.Err? {
      return Err(args.fault);
    }
    var reply := f(args.value.fields);
    var text := WriteFields(AnswerFields(sig.params, reply));
    answer := Ok(text);
  }

  /** What the caller's variables hold after `parseAnswer` has read the parameters, with or without an
      exception. */
  function ParamsLeft(ps: seq<Param>, vars: seq<Value>, c: Cursor): seq<Value>
    requires HaveTypes(Schemas(ps), vars) && c.Valid()
  {
    if ps == [] then []
    else
      assert Schemas(ps)[1..] == Schemas(ps[1..]);
      if ps[0].ByRef() then
        var token := NextToken(c);
        [Left(ps[0].schema, vars[0], token.text)] +
        if FromToken(ps[0].schema, vars[0], token.text).Err? then vars[1..]
        else ParamsLeft(ps[1..], vars[1..], token.next)
      else
        [vars[0]] + ParamsLeft(ps[1..], vars[1..], c)
  }

  /** And after the whole call. */
  function VarsLeft(sig: Signature, f: Function, args: seq<Value>): seq<Value>
    requires HaveTypes(Schemas(sig.params), args)
  {
    var answer := Serve(sig, f, FieldsText(args));
    if answer.Err? then args
    else
      var ret := Read(sig.ret, Default(sig.ret), ObjectBody(answer.value));
      if ret.Err? then args else ParamsLeft(sig.params, args, ret.value.1)
  }

  /** `make_call`: `retval` starts fresh, by-reference variables are overwritten or appended to. */
  method CallRemote(sig: Signature, f: Function, args: seq<Value>) returns (r: Result<Reply>, vars: seq<Value>)
    requires HaveTypes(Schemas(sig.params), args)
    ensures r == MakeCall(sig, f, args)
    ensures vars == VarsLeft(sig, f, args)
    ensures r.Ok? ==> vars == r.value.params
  {
    vars := args;
    var data := WriteFields(args);
    var answer := HandleRmi(sig, f, data);
    if answer.Err? {
      return Err(answer.fault), vars;
    }
    var input := new InStream(answer.value);
    var objData := input.ReadToken();
    var deser := new InStream(Inside(objData).rest);
    var retval, _ := Deserialize(deser, sig.ret, Default(sig.ret));
    if retval.Err? {
      return Err(retval.fault), vars;
    }
    var params;
    params, vars := OptionalDeserialise(deser, sig.params, args);
    r := if params.Err? then Err(params.fault) else Ok(Reply(retval.value, params.value));
  }

  /** The `OptionalDeserialiser` of each parameter in turn. */
  method OptionalDeserialise(deser: InStream, ps: seq<Param>, vars: seq<Value>)
    returns (r: Result<seq<Value>>, left: seq<Value>)
    requires deser.Valid() && HaveTypes(Schemas(ps), vars)
    modifies deser
    ensures r == ReadParams(ps, vars, old(deser.View()))
    ensures left == ParamsLeft(ps, vars, old(deser.View()))
    ensures r.Ok? ==> left == r.value
    decreases |ps|
  {
    if ps == [] {
      return Ok([]), [];
    }
    hide Left, NextToken, FromToken;
    assert Schemas(ps)[1..] == Schemas(ps[1..]);
    var t1 := vars[0];
    if ps[0].ByRef() {
      var read;
      read, t1 := Deserialize(deser, ps[0].schema, t1);
      if read.Err? {
        return Err(read.fault), [t1] + vars[1..];
      }
    }
    var more, others := OptionalDeserialise(deser, ps[1..], vars[1..]);
    r, left := if more.Err? then more else Ok([t1] + more.value), [t1] + others;
  }
}
