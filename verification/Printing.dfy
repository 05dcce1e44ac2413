/** The printer: `serialize`, `serializeSequence` and `ObjectSer` (lib/serialisation.h, lib/serialisation.cpp). */
module Printing {
  import opened Decimal
  import opened Escaping
  import opened Values

  function Print(v: Value): (s: string)
    ensures s != ""
    ensures s[0] != ','
    ensures !v.VInt? ==> |s| >= 2
    decreases v
  {
    match v
    case VInt(n) => ToString(n)
    case VStr(text) => "\"" + Escape(text) + "\""
    case VList(vs) => "[" + PrintFields(vs) + "]"
    case VObj(vs) => "{" + PrintFields(vs) + "}"
  }

  /** Values in a row, with commas between them. */
  function PrintFields(vs: seq<Value>): (s: string)
    ensures vs != [] ==> s != "" && s[0] != ','
    decreases vs
  {
    if vs == [] then ""
    else if |vs| == 1 then Print(vs[0])
    else Print(vs[0]) + "," + PrintFields(vs[1..])
  }

  /** What follows the first of a row. */
  function RowTail(more: seq<Value>): string {
    if more == [] then "" else "," + PrintFields(more)
  }

  lemma {:induction false} PrintRow(vs: seq<Value>)
    requires vs != []
    ensures PrintFields(vs) == Print(vs[0]) + RowTail(vs[1..])
  {
  }

  lemma {:induction false} Commas(a: string, b: string, c: string)
    ensures a + ("," + (b + "," + c)) == (a + ("," + b)) + "," + c
    ensures a + ("," + ("" + "" + c)) == (a + "") + "," + c
  {
  }

  /** Adding a value at the end, as the printing loops do. */
  lemma {:induction false} PrintFieldsSnoc(vs: seq<Value>, v: Value)
    ensures PrintFields(vs + [v]) == PrintFields(vs) + (if vs == [] then "" else ",") + Print(v)
  {
    hide Print;
    var row := vs + [v];
    if vs == [] {
      assert row == [v];
    } else {
      PrintFieldsSnoc(vs[1..], v);
      PrintRow(vs);
      PrintRow(row);
      assert row[0] == vs[0] && row[1..] == vs[1..] + [v];
      Commas(Print(vs[0]), PrintFields(vs[1..]), Print(v));
    }
  }

  /** The same, behind text that has been printed before. */
  lemma {:induction false} PrintFieldsGrow(before: string, vs: seq<Value>, v: Value)
    ensures before + PrintFields(vs) + (if vs == [] then "" else ",") + Print(v) == before + PrintFields(vs + [v])
  {
    hide Print, PrintFields;
    PrintFieldsSnoc(vs, v);
    FourTexts(before, PrintFields(vs), if vs == [] then "" else ",", Print(v));
  }

  lemma {:induction false} FourTexts(a: string, b: string, c: string, d: string)
    ensures a + b + c + d == a + (b + c + d)
  {
  }

  /** `std::ostringstream`. */
  class OutStream {
    var text: string

    constructor ()
      ensures text == ""
    {
      text := "";
    }

    method Put(s: string)
      modifies this
      ensures text == old(text) + s
    {
      text := text + s;
    }
  }

  /** `ObjectSer`: the constructor prints the opening brace, each field puts a comma before itself unless
      it is the first, and the destructor prints the closing brace. `written` are the fields so far. */
  class ObjectSer {
    var first: bool
    const out: OutStream
    ghost const before: string
    ghost var written: seq<Value>

    ghost predicate Valid()
      reads this, out
    {
      && first == (written == [])
      && out.text == before + "{" + PrintFields(written)
    }

    constructor (out: OutStream)
      modifies out
      ensures Valid() && this.out == out && before == old(out.text) && written == []
    {
      this.out := out;
      first := true;
      before := out.text;
      written := [];
      new;
      out.Put("{");
    }

    method Field(v: Value)
      requires Valid()
      modifies this, out
      ensures Valid() && written == old(written) + [v]
      decreases v, 1
    {
      PrintFieldsGrow(before + "{", written, v);
      if !first {
        out.Put(",");
      } else {
        first := false;
        assert out.text == before + "{" + PrintFields(written) + "";
      }
      Serialize(out, v);
      written := written + [v];
    }

    /** The destructor. */
    method Close()
      requires Valid()
      modifies out
      ensures out.text == before + "{" + PrintFields(written) + "}"
    {
      out.Put("}");
    }
  }

  /** `serialize` for a value of any type. */
  method Serialize(out: OutStream, v: Value)
    modifies out
    ensures out.text == old(out.text) + Print(v)
    decreases v, 0
  {
    match v
    case VInt(n) =>
      out.Put(ToString(n));
    case VStr(s) =>
      var escaped := ReplaceInString(s, "\"", "\\\"");
      out.Put("\"");
      out.Put(escaped);
      out.Put("\"");
      assert old(out.text) + "\"" + escaped + "\"" == old(out.text) + Print(v);
    case VList(vs) =>
      SerializeSequence(out, vs);
    case VObj(vs) =>
      var obj := new ObjectSer(out);
      for i := 0 to |vs|
        invariant obj.Valid() && obj.out == out && obj.before == old(out.text)
        invariant obj.written == vs[..i]
      {
        obj.Field(vs[i]);
      }
      obj.Close();
      assert vs[..|vs|] == vs;
  }

  method SerializeSequence(out: OutStream, vs: seq<Value>)
    modifies out
    ensures out.text == old(out.text) + Print(VList(vs))
    decreases vs, 0
  {
    out.Put("[");
    var first := true;
    for i := 0 to |vs|
      invariant first == (i == 0)
      invariant out.text == old(out.text) + "[" + PrintFields(vs[..i])
    {
      assert vs[..i + 1] == vs[..i] + [vs[i]];
      PrintFieldsGrow(old(out.text) + "[", vs[..i], vs[i]);
      if !first {
        out.Put(",");
      } else {
        first := false;
        assert out.text == old(out.text) + "[" + PrintFields(vs[..i]) + "";
      }
      Serialize(out, vs[i]);
    }
    assert vs[..|vs|] == vs;
    out.Put("]");
    assert old(out.text) + "[" + PrintFields(vs) + "]" == old(out.text) + Print(VList(vs));
  }
}
