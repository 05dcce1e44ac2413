/** The values that the codec carries and the C++ types they have: `int`, `std::string`,
    `std::vector<T>`, and classes that list their fields in `serialize` and `deserialize`. */
module Values {
  import opened Decimal

  datatype Schema = TInt | TStr | TList(elem: Schema) | TObj(fields: seq<Schema>)

  datatype Value = VInt(n: int) | VStr(s: string) | VList(elems: seq<Value>) | VObj(fields: seq<Value>) {
    /** Printed between brackets. */
    predicate Bracketed() {
      VList? || VObj?
    }
  }

  predicate HasType(t: Schema, v: Value)
    decreases v
  {
    match v
    case VInt(n) => t.TInt? && IsInt32(n)
    case VStr(_) => t.TStr?
    case VList(vs) => t.TList? && AllHaveType(t.elem, vs)
    case VObj(vs) => t.TObj? && HaveTypes(t.fields, vs)
  }

  predicate AllHaveType(t: Schema, vs: seq<Value>)
    decreases vs
  {
    vs == [] || (HasType(t, vs[0]) && AllHaveType(t, vs[1..]))
  }

  predicate HaveTypes(ts: seq<Schema>, vs: seq<Value>)
    decreases vs
  {
    if ts == [] || vs == [] then ts == [] && vs == []
    else HasType(ts[0], vs[0]) && HaveTypes(ts[1..], vs[1..])
  }

  lemma {:induction false} HaveTypesLength(ts: seq<Schema>, vs: seq<Value>)
    requires HaveTypes(ts, vs)
    ensures |ts| == |vs|
  {
    if ts != [] && vs != [] {
      HaveTypesLength(ts[1..], vs[1..]);
    }
  }

  lemma {:induction false} HaveTypesCons(t: Schema, ts: seq<Schema>, v: Value, vs: seq<Value>)
    ensures HaveTypes([t] + ts, [v] + vs) <==> HasType(t, v) && HaveTypes(ts, vs)
  {
    assert ([t] + ts)[1..] == ts && ([v] + vs)[1..] == vs;
  }

  /** The value a variable starts with. An uninitialised `int` may hold anything; zero stands for it. */
  function Default(t: Schema): (v: Value)
    ensures HasType(t, v)
  {
    match t
    case TInt => VInt(0)
    case TStr => VStr("")
    case TList(_) => VList([])
    case TObj(ts) => VObj(Defaults(ts))
  }

  function Defaults(ts: seq<Schema>): (vs: seq<Value>)
    ensures HaveTypes(ts, vs)
  {
    if ts == [] then [] else [Default(ts[0])] + Defaults(ts[1..])
  }

  /** What a variable that held `before` holds once `v` has been read into it: list elements are
      appended, everything else is overwritten. */
  function Merge(before: Value, v: Value): Value
    decreases v
  {
    match v
    case VList(vs) => if before.VList? then VList(before.elems + vs) else v
    case VObj(vs) => if before.VObj? then VObj(MergeAll(before.fields, vs)) else v
    case _ => v
  }

  function MergeAll(before: seq<Value>, vs: seq<Value>): seq<Value>
    decreases vs
  {
    if before == [] || vs == [] then vs
    else [Merge(before[0], vs[0])] + MergeAll(before[1..], vs[1..])
  }

  /** No list in `v` has elements that a later read would append to. */
  predicate NoPendingLists(v: Value) {
    match v
    case VList(vs) => vs == []
    case VObj(vs) => NonePending(vs)
    case _ => true
  }

  predicate NonePending(vs: seq<Value>) {
    vs == [] || (NoPendingLists(vs[0]) && NonePending(vs[1..]))
  }

  lemma {:induction false} ConsCancels<T>(a: T, x: seq<T>, b: T, y: seq<T>)
    ensures [a] + x == [b] + y <==> a == b && x == y
  {
    assert ([a] + x)[0] == a && ([b] + y)[0] == b;
    assert ([a] + x)[1..] == x && ([b] + y)[1..] == y;
  }

  /** Reading into a variable replaces its value exactly when no list in it has elements. */
  lemma {:induction false} MergeReplacesExactly(t: Schema, before: Value, v: Value)
    requires HasType(t, before) && HasType(t, v)
    ensures Merge(before, v) == v <==> NoPendingLists(before)
    decreases v
  {
    match v
    case VList(vs) =>
      assert |before.elems + vs| == |vs| <==> before.elems == [];
    case VObj(vs) =>
      MergeAllReplacesExactly(t.fields, before.fields, vs);
    case _ =>
  }

  lemma {:induction false} MergeAllReplacesExactly(ts: seq<Schema>, before: seq<Value>, vs: seq<Value>)
    requires HaveTypes(ts, before) && HaveTypes(ts, vs)
    ensures MergeAll(before, vs) == vs <==> NonePending(before)
    decreases vs
  {
    if ts == [] {
    } else {
      MergeReplacesExactly(ts[0], before[0], vs[0]);
      MergeAllReplacesExactly(ts[1..], before[1..], vs[1..]);
      assert vs == [vs[0]] + vs[1..];
      var merged := MergeAll(before, vs);
      assert merged[0] == Merge(before[0], vs[0]) && merged[1..] == MergeAll(before[1..], vs[1..]);
    }
  }

  lemma {:induction false} DefaultIsNotPending(t: Schema)
    ensures NoPendingLists(Default(t))
  {
    match t
    case TObj(ts) => DefaultsAreNotPending(ts);
    case _ =>
  }

  lemma {:induction false} DefaultsAreNotPending(ts: seq<Schema>)
    ensures NonePending(Defaults(ts))
  {
    if ts == [] {
    } else {
      DefaultIsNotPending(ts[0]);
      DefaultsAreNotPending(ts[1..]);
      assert Defaults(ts)[1..] == Defaults(ts[1..]);
    }
  }

  lemma {:induction false} MergeIntoDefault(t: Schema, v: Value)
    requires HasType(t, v)
    ensures Merge(Default(t), v) == v
  {
    DefaultIsNotPending(t);
    MergeReplacesExactly(t, Default(t), v);
  }
}
