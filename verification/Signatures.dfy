/** Which signatures are safe to call remotely, told from the types in the macros alone. */
module Signatures {
  import opened Results
  import opened Values
  import opened RoundTrip
  import opened OpenText
  import opened RemoteCalls

  /** No value of the type ends in an `int`. An unfilled value has no elements in its lists. */
  predicate SafeType(t: Schema, unfilled: bool) {
    match t
    case TInt => false
    case TStr => true
    case TList(e) => unfilled || SafeType(e, unfilled)
    case TObj(ts) => ts == [] || SafeType(ts[|ts| - 1], unfilled)
  }

  /** A value of the type that does end in an `int`. */
  function Unsafe(t: Schema, unfilled: bool): Value
    requires !SafeType(t, unfilled)
  {
    match t
    case TInt => VInt(0)
    case TList(e) => VList([Unsafe(e, unfilled)])
    case TObj(ts) => VObj(Defaults(ts[..|ts| - 1]) + [Unsafe(ts[|ts| - 1], unfilled)])
  }

  lemma {:induction false} LastElement(e: Schema, vs: seq<Value>)
    requires vs != [] && AllHaveType(e, vs)
    ensures HasType(e, Last(vs))
  {
    if |vs| > 1 {
      LastElement(e, vs[1..]);
    }
  }

  lemma {:induction false} LastNotPending(vs: seq<Value>)
    requires vs != [] && NonePending(vs)
    ensures NoPendingLists(Last(vs))
  {
    if |vs| > 1 {
      LastNotPending(vs[1..]);
    }
  }

  lemma {:induction false} SafeTypesHaveSafeValues(t: Schema, unfilled: bool, v: Value)
    requires SafeType(t, unfilled) && HasType(t, v) && (unfilled ==> NoPendingLists(v))
    ensures TailSafe(v)
    decreases v
  {
    match v
    case VList(vs) =>
      if vs != [] {
        LastElement(t.elem, vs);
        SafeTypesHaveSafeValues(t.elem, unfilled, Last(vs));
      }
    case VObj(vs) =>
      if vs != [] {
        LastHasType(t.fields, vs);
        if unfilled {
          LastNotPending(vs);
        }
        SafeTypesHaveSafeValues(Last(t.fields), unfilled, Last(vs));
      }
    case _ =>
  }

  lemma {:induction false} DefaultIsClean(t: Schema)
    ensures Clean(Default(t))
  {
    match t
    case TStr => PlainStringIsClean("");
    case TObj(ts) => DefaultsAreClean(ts);
    case _ =>
  }

  lemma {:induction false} DefaultsAreClean(ts: seq<Schema>)
    ensures AllClean(Defaults(ts))
  {
    if ts != [] {
      DefaultIsClean(ts[0]);
      DefaultsAreClean(ts[1..]);
      assert Defaults(ts)[1..] == Defaults(ts[1..]);
    }
  }

  /** Default fields with one more value behind them. */
  lemma {:induction false} DefaultsAnd(ts: seq<Schema>, t: Schema, v: Value)
    requires HasType(t, v) && Clean(v)
    ensures var vs := Defaults(ts) + [v];
            HaveTypes(ts + [t], vs) && AllClean(vs) && (NoPendingLists(v) ==> NonePending(vs))
    decreases ts
  {
    var vs := Defaults(ts) + [v];
    if ts == [] {
      assert vs[1..] == [] && (ts + [t])[1..] == [];
    } else {
      DefaultsAnd(ts[1..], t, v);
      DefaultIsClean(ts[0]);
      DefaultIsNotPending(ts[0]);
      assert vs[1..] == Defaults(ts[1..]) + [v] && (ts + [t])[1..] == ts[1..] + [t];
    }
  }

  lemma {:induction false} UnsafeValue(t: Schema, unfilled: bool)
    requires !SafeType(t, unfilled)
    ensures var v := Unsafe(t, unfilled);
            HasType(t, v) && Clean(v) && !TailSafe(v) && (unfilled ==> NoPendingLists(v))
  {
    match t
    case TInt =>
    case TList(e) =>
      UnsafeValue(e, unfilled);
    case TObj(ts) =>
      var n := |ts| - 1;
      UnsafeValue(ts[n], unfilled);
      DefaultsAnd(ts[..n], ts[n], Unsafe(ts[n], unfilled));
      assert ts[..n] + [ts[n]] == ts;
  }

  /** The test on types decides about all values: every clean one, or every unfilled one, is safe. */
  lemma {:induction false} SafeTypeExactly(t: Schema, unfilled: bool)
    ensures SafeType(t, unfilled) <==>
            forall v :: HasType(t, v) && Clean(v) && (unfilled ==> NoPendingLists(v)) ==> TailSafe(v)
  {
    if SafeType(t, unfilled) {
      forall v | HasType(t, v) && (unfilled ==> NoPendingLists(v)) ensures TailSafe(v) {
        SafeTypesHaveSafeValues(t, unfilled, v);
      }
    } else {
      UnsafeValue(t, unfilled);
    }
  }

  /** The test on a signature: the type of the last parameter, and that of the last value in the answer. A
      by-reference parameter is unfilled when the call is made. */
  predicate SafeSignature(sig: Signature)
    requires sig.params != []
  {
    SafeType(Last(sig.params).schema, Last(sig.params).ByRef()) && SafeType(Last(AnswerSchemas(sig)), false)
  }

  /** A call that should work: clean values of the right types both ways, and no list in a by-reference
      variable that has elements to append to. */
  predicate GoodCall(sig: Signature, f: Function, args: seq<Value>) {
    && HaveTypes(Schemas(sig.params), args) && AllClean(args)
    && HasType(sig.ret, f(args).ret) && Clean(f(args).ret)
    && HaveTypes(Schemas(sig.params), f(args).params) && AllClean(f(args).params)
    && NonePending(RefOnly(sig.params, args))
  }

  /** The function sees the arguments, and the caller sees what a local call would have done. */
  predicate Refines(sig: Signature, f: Function, args: seq<Value>)
    requires HaveTypes(Schemas(sig.params), args)
  {
    && ReadCall(sig.params, FieldsText(args)) == Ok(args)
    && MakeCall(sig, f, args) == Ok(LocalCall(sig, f, args))
  }

  lemma {:induction false} LastSchema(ps: seq<Param>)
    requires ps != []
    ensures Schemas(ps) != [] && Last(Schemas(ps)) == Last(ps).schema
  {
    assert Schemas(ps)[1..] == Schemas(ps[1..]);
    if |ps| > 1 {
      LastSchema(ps[1..]);
    } else {
      assert ps[1..] == [];
    }
  }

  lemma {:induction false} LastReferenceIsUnfilled(ps: seq<Param>, args: seq<Value>)
    requires ps != [] && |ps| == |args| && Last(ps).ByRef() && NonePending(RefOnly(ps, args))
    ensures NoPendingLists(Last(args))
  {
    var more := RefOnly(ps[1..], args[1..]);
    if ps[0].ByRef() {
      assert RefOnly(ps, args)[1..] == more;
    } else {
      assert RefOnly(ps, args) == more;
    }
    if |ps| > 1 {
      LastReferenceIsUnfilled(ps[1..], args[1..]);
    }
  }

  lemma {:induction false} LastAnswerHasType(sig: Signature, reply: Reply)
    requires HasType(sig.ret, reply.ret) && HaveTypes(Schemas(sig.params), reply.params)
    ensures HasType(Last(AnswerSchemas(sig)), Last(AnswerFields(sig.params, reply)))
  {
    var ts, fields := AnswerSchemas(sig), AnswerFields(sig.params, reply);
    RefTypes(sig.params, reply.params);
    assert ts[1..] == RefSchemas(sig.params) && fields[1..] == RefOnly(sig.params, reply.params);
    LastHasType(ts, fields);
  }

  /** A good call comes out right exactly when neither last value ends in an `int`. */
  lemma {:induction false} GoodCallExactly(sig: Signature, f: Function, args: seq<Value>)
    requires sig.params != [] && GoodCall(sig, f, args)
    ensures args != []
    ensures Refines(sig, f, args) <==>
            TailSafe(Last(args)) && TailSafe(Last(AnswerFields(sig.params, f(args))))
  {
    RefTypes(sig.params, args);
    RemoteCallRefinesLocalExactly(sig, f, args);
    AnswerReplacesWhen(sig, args, f(args));
  }

  /** Every good call on a safe signature, whatever the function. */
  lemma {:induction false} SafeSignatureRefines(sig: Signature, f: Function, args: seq<Value>)
    requires sig.params != [] && SafeSignature(sig) && GoodCall(sig, f, args)
    ensures Refines(sig, f, args)
  {
    var ps := sig.params;
    GoodCallExactly(sig, f, args);
    RefTypes(ps, args);
    LastSchema(ps);
    LastHasType(Schemas(ps), args);
    if Last(ps).ByRef() {
      LastReferenceIsUnfilled(ps, args);
    }
    SafeTypesHaveSafeValues(Last(ps).schema, Last(ps).ByRef(), Last(args));
    LastAnswerHasType(sig, f(args));
    SafeTypesHaveSafeValues(Last(AnswerSchemas(sig)), false, Last(AnswerFields(ps, f(args))));
  }

  /** Arguments of which only the last is not a default. */
  function ArgsEndingIn(ps: seq<Param>, v: Value): (vs: seq<Value>)
    requires ps != []
    ensures vs != [] && Last(vs) == v
  {
    if |ps| == 1 then [v] else [Default(ps[0].schema)] + ArgsEndingIn(ps[1..], v)
  }

  lemma {:induction false} GoodCons(t: Schema, ts: seq<Schema>, v: Value, vs: seq<Value>)
    requires HasType(t, v) && Clean(v) && HaveTypes(ts, vs) && AllClean(vs)
    ensures HaveTypes([t] + ts, [v] + vs) && AllClean([v] + vs)
  {
    HaveTypesCons(t, ts, v, vs);
    assert ([v] + vs)[1..] == vs;
  }

  lemma {:induction false} ArgsEndingInAreGood(ps: seq<Param>, v: Value)
    requires ps != [] && HasType(Last(ps).schema, v) && Clean(v)
    ensures HaveTypes(Schemas(ps), ArgsEndingIn(ps, v)) && AllClean(ArgsEndingIn(ps, v))
  {
    if |ps| == 1 {
      assert ps[1..] == [] && Schemas(ps) == [ps[0].schema] + [] && ArgsEndingIn(ps, v) == [v] + [];
      GoodCons(ps[0].schema, [], v, []);
    } else {
      hide Clean, HasType, HaveTypes, AllClean;
      ArgsEndingInAreGood(ps[1..], v);
      DefaultIsClean(ps[0].schema);
      GoodCons(ps[0].schema, Schemas(ps[1..]), Default(ps[0].schema), ArgsEndingIn(ps[1..], v));
    }
  }

  lemma {:induction false} ArgsEndingInAreUnfilled(ps: seq<Param>, v: Value)
    requires ps != [] && (Last(ps).ByRef() ==> NoPendingLists(v))
    ensures NonePending(RefOnly(ps, ArgsEndingIn(ps, v)))
  {
    hide Param.ByRef, NoPendingLists;
    var vs := ArgsEndingIn(ps, v);
    var more := RefOnly(ps[1..], vs[1..]);
    assert RefOnly(ps, vs) == (if ps[0].ByRef() then [vs[0]] else []) + more;
    NonePendingCons(vs[0], more);
    if |ps| > 1 {
      ArgsEndingInAreUnfilled(ps[1..], v);
      assert vs[1..] == ArgsEndingIn(ps[1..], v);
      DefaultIsNotPending(ps[0].schema);
    }
  }

  lemma {:induction false} NonePendingCons(v: Value, vs: seq<Value>)
    ensures NonePending([v] + vs) <==> NoPendingLists(v) && NonePending(vs)
    ensures [] + vs == vs
  {
    assert ([v] + vs)[1..] == vs;
  }

  /** Parameters after a call, of which only the last reference is not a default. */
  function ParamsEndingIn(ps: seq<Param>, v: Value): seq<Value> {
    if ps == [] then []
    else if ps[0].ByRef() && RefSchemas(ps[1..]) == [] then [v] + Defaults(Schemas(ps[1..]))
    else [Default(ps[0].schema)] + ParamsEndingIn(ps[1..], v)
  }

  lemma {:induction false} NoReferences(ps: seq<Param>, vs: seq<Value>)
    requires RefSchemas(ps) == []
    ensures RefOnly(ps, vs) == []
  {
    if ps != [] && vs != [] {
      NoReferences(ps[1..], vs[1..]);
    }
  }

  lemma {:induction false} ParamsEndingInAreGood(ps: seq<Param>, v: Value)
    requires RefSchemas(ps) != [] && HasType(Last(RefSchemas(ps)), v) && Clean(v)
    ensures HaveTypes(Schemas(ps), ParamsEndingIn(ps, v)) && AllClean(ParamsEndingIn(ps, v))
  {
    hide Clean, HasType, HaveTypes, AllClean, Param.ByRef;
    RefSchemasCons(ps);
    var t, ts := ps[0].schema, Schemas(ps[1..]);
    if ps[0].ByRef() && RefSchemas(ps[1..]) == [] {
      DefaultsAreClean(ts);
      GoodCons(t, ts, v, Defaults(ts));
    } else {
      ParamsEndingInAreGood(ps[1..], v);
      DefaultIsClean(t);
      GoodCons(t, ts, Default(t), ParamsEndingIn(ps[1..], v));
    }
  }

  lemma {:induction false} RefSchemasCons(ps: seq<Param>)
    requires RefSchemas(ps) != []
    ensures ps != []
    ensures RefSchemas(ps[1..]) == [] ==> ps[0].ByRef() && RefSchemas(ps) == [ps[0].schema]
    ensures RefSchemas(ps[1..]) != [] ==> Last(RefSchemas(ps)) == Last(RefSchemas(ps[1..]))
  {
  }

  lemma {:induction false} RefOnlyCons(ps: seq<Param>, v: Value, vs: seq<Value>)
    requires ps != []
    ensures RefOnly(ps, [v] + vs) == (if ps[0].ByRef() then [v] else []) + RefOnly(ps[1..], vs)
  {
    assert ([v] + vs)[1..] == vs;
  }

  lemma {:induction false} ParamsEndingInEndIn(ps: seq<Param>, v: Value)
    requires RefSchemas(ps) != []
    ensures var refs := RefOnly(ps, ParamsEndingIn(ps, v));
            refs != [] && Last(refs) == v
  {
    RefSchemasCons(ps);
    hide Param.ByRef, RefSchemas, RefOnly, Schemas, Defaults, Default, Last;
    if RefSchemas(ps[1..]) == [] {
      var rest := Defaults(Schemas(ps[1..]));
      RefOnlyCons(ps, v, rest);
      NoReferences(ps[1..], rest);
      LastOfConcat([], [v]);
      assert [] + [v] == [v] + [];
    } else {
      var rest := ParamsEndingIn(ps[1..], v);
      ParamsEndingInEndIn(ps[1..], v);
      RefOnlyCons(ps, Default(ps[0].schema), rest);
      LastOfConcat(if ps[0].ByRef() then [Default(ps[0].schema)] else [], RefOnly(ps[1..], rest));
    }
  }

  lemma {:induction false} DefaultsAreUnfilled(ps: seq<Param>)
    ensures NonePending(RefOnly(ps, Defaults(Schemas(ps))))
  {
    if ps != [] {
      DefaultsAreUnfilled(ps[1..]);
      assert Schemas(ps)[1..] == Schemas(ps[1..]) && Defaults(Schemas(ps))[1..] == Defaults(Schemas(ps[1..]));
      DefaultIsNotPending(ps[0].schema);
      NonePendingCons(Default(ps[0].schema), RefOnly(ps[1..], Defaults(Schemas(ps[1..]))));
    }
  }

  /** An answer whose last value ends in an `int`, if the types allow it. */
  function UnsafeReply(sig: Signature): Reply
    requires !SafeType(Last(AnswerSchemas(sig)), false)
  {
    var v := Unsafe(Last(AnswerSchemas(sig)), false);
    if RefSchemas(sig.params) == [] then Reply(v, Defaults(Schemas(sig.params)))
    else Reply(Default(sig.ret), ParamsEndingIn(sig.params, v))
  }

  lemma {:induction false} UnsafeReplyIsGood(sig: Signature)
    requires !SafeType(Last(AnswerSchemas(sig)), false)
    ensures var reply := UnsafeReply(sig);
            && HasType(sig.ret, reply.ret) && Clean(reply.ret)
            && HaveTypes(Schemas(sig.params), reply.params) && AllClean(reply.params)
            && !TailSafe(Last(AnswerFields(sig.params, reply)))
  {
    var ps, v := sig.params, Unsafe(Last(AnswerSchemas(sig)), false);
    UnsafeValue(Last(AnswerSchemas(sig)), false);
    if RefSchemas(ps) == [] {
      DefaultsAreClean(Schemas(ps));
      NoReferences(ps, Defaults(Schemas(ps)));
      assert AnswerFields(ps, UnsafeReply(sig)) == [v];
    } else {
      assert Last(AnswerSchemas(sig)) == Last(RefSchemas(ps));
      ParamsEndingInAreGood(ps, v);
      ParamsEndingInEndIn(ps, v);
      DefaultIsClean(sig.ret);
    }
  }

  /** Whatever else the signature, a last parameter that may end in an `int` spoils some call. */
  lemma {:induction false} UnsafeParameterFails(sig: Signature)
    requires sig.params != [] && !SafeType(Last(sig.params).schema, Last(sig.params).ByRef())
    ensures exists f: Function, args :: GoodCall(sig, f, args) && !Refines(sig, f, args)
  {
    var ps, ts := sig.params, Schemas(sig.params);
    var v := Unsafe(Last(ps).schema, Last(ps).ByRef());
    UnsafeValue(Last(ps).schema, Last(ps).ByRef());
    ArgsEndingInAreGood(ps, v);
    ArgsEndingInAreUnfilled(ps, v);
    DefaultIsClean(sig.ret);
    DefaultsAreClean(ts);
    SpoiledCall(sig, Reply(Default(sig.ret), Defaults(ts)), ArgsEndingIn(ps, v));
  }

  /** A call of the function that always gives this reply. */
  lemma {:induction false} SpoiledCall(sig: Signature, reply: Reply, args: seq<Value>)
    requires sig.params != [] && args != []
    requires HaveTypes(Schemas(sig.params), args) && AllClean(args) && NonePending(RefOnly(sig.params, args))
    requires HasType(sig.ret, reply.ret) && Clean(reply.ret)
    requires HaveTypes(Schemas(sig.params), reply.params) && AllClean(reply.params)
    requires !TailSafe(Last(args)) || !TailSafe(Last(AnswerFields(sig.params, reply)))
    ensures exists f: Function, args :: GoodCall(sig, f, args) && !Refines(sig, f, args)
  {
    hide Refines, HaveTypes, HasType, AllClean, Clean, NonePending, RefOnly, Schemas, TailSafe, AnswerFields;
    var f: Function := (_: seq<Value>) => reply;
    assert f(args) == reply;
    assert GoodCall(sig, f, args);
    GoodCallExactly(sig, f, args);
  }

  /** And so does an answer that may. */
  lemma {:induction false} UnsafeAnswerFails(sig: Signature)
    requires sig.params != [] && !SafeType(Last(AnswerSchemas(sig)), false)
    ensures exists f: Function, args :: GoodCall(sig, f, args) && !Refines(sig, f, args)
  {
    var ts := Schemas(sig.params);
    UnsafeReplyIsGood(sig);
    DefaultsAreClean(ts);
    DefaultsAreUnfilled(sig.params);
    SpoiledCall(sig, UnsafeReply(sig), Defaults(ts));
  }

  /** Which remote functions can be relied on, told from their signature alone: every good call refines the
      local one, for every function, if and only if the signature is safe. */
  lemma {:induction false} SignatureRefinesExactly(sig: Signature)
    requires sig.params != []
    ensures (forall f: Function, args :: GoodCall(sig, f, args) ==> Refines(sig, f, args)) <==> SafeSignature(sig)
  {
    if SafeSignature(sig) {
      forall f: Function, args | GoodCall(sig, f, args) ensures Refines(sig, f, args) {
        SafeSignatureRefines(sig, f, args);
      }
    } else if !SafeType(Last(AnswerSchemas(sig)), false) {
      UnsafeAnswerFails(sig);
    } else {
      UnsafeParameterFails(sig);
    }
  }
}
