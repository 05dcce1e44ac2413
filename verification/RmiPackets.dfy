/** `RMIPacket` (lib/rmipacket.h): four fields as one printed object, and what its data field may hold. */
module RmiPackets {
  import opened Results
  import opened Decimal
  import opened Brackets
  import opened Escaping
  import opened Tokenizer
  import opened Values
  import opened Printing
  import opened Reading
  import opened RoundTrip
  import opened OpenText
  import opened FlatRecords
  import opened RemoteCalls

  datatype Packet = Packet(handlerName: string, signature: string, requestId: int, data: string) {
    function Fields(): seq<Value> {
      [VStr(handlerName), VStr(signature), VInt(requestId), VStr(data)]
    }
  }

  const PACKET_FIELDS: seq<Schema> := [TStr, TStr, TInt, TStr]

  lemma {:induction false} PacketShape(fs: seq<Value>)
    ensures HaveTypes(PACKET_FIELDS, fs) <==>
            |fs| == 4 && fs[0].VStr? && fs[1].VStr? && fs[2].VInt? && IsInt32(fs[2].n) && fs[3].VStr?
  {
    if HaveTypes(PACKET_FIELDS, fs) {
      HaveTypesLength(PACKET_FIELDS, fs);
    }
    if |fs| == 4 {
      assert [fs[0]] + fs[1..] == fs && [fs[1]] + fs[2..] == fs[1..];
      assert [fs[2]] + fs[3..] == fs[2..] && [fs[3]] + [] == fs[3..];
      assert [TStr] + [TStr, TInt, TStr] == PACKET_FIELDS && [TStr] + [] == [TStr];
      HaveTypesCons(TStr, [TStr, TInt, TStr], fs[0], fs[1..]);
      HaveTypesCons(TStr, [TInt, TStr], fs[1], fs[2..]);
      HaveTypesCons(TInt, [TStr], fs[2], fs[3..]);
      HaveTypesCons(TStr, [], fs[3], []);
    }
  }

  function PacketOf(fs: seq<Value>): Packet
    requires HaveTypes(PACKET_FIELDS, fs)
  {
    PacketShape(fs);
    Packet(fs[0].s, fs[1].s, fs[2].n, fs[3].s)
  }

  function Encode(p: Packet): string {
    Print(VObj(p.Fields()))
  }

  /** `deserialize(in, pkg)`, on a fresh packet. */
  function DecodeFrom(c: Cursor): Result<Packet>
    requires c.Valid()
  {
    var targets := Defaults(PACKET_FIELDS);
    ReadFieldsAreTyped(PACKET_FIELDS, targets, Inside(NextToken(c).text));
    var (fs, _) :- ReadFields(PACKET_FIELDS, targets, Inside(NextToken(c).text));
    Ok(PacketOf(fs))
  }

  function Decode(text: string): Result<Packet> {
    DecodeFrom(Cursor(text, false))
  }

  /** Names and data of a packet that decodes: no quotes, no backslash at the end of any of them, and
      read one after the other they never close more braces than they opened. */
  predicate Decodable(p: Packet) {
    && Quotable(p.handlerName) && Quotable(p.signature) && Quotable(p.data)
    && Stays(p.handlerName + p.signature + p.data, Curly, 1)
  }

  lemma {:induction false} FieldsOfPacket(p: Packet)
    ensures Flat(p.Fields())
    ensures StringsOf(p.Fields()) == p.handlerName + p.signature + p.data
    ensures AllQuotable(p.Fields()) <==> Quotable(p.handlerName) && Quotable(p.signature) && Quotable(p.data)
    ensures IsInt32(p.requestId) ==> HaveTypes(PACKET_FIELDS, p.Fields())
  {
    var name, sig, id, data := VStr(p.handlerName), VStr(p.signature), VInt(p.requestId), VStr(p.data);
    PacketShape(p.Fields());
    FlatCons(data, []);
    FlatCons(id, [data]);
    FlatCons(sig, [id, data]);
    FlatCons(name, [sig, id, data]);
    assert [data] + [] == [data] && [id] + [data] == [id, data];
    assert [sig] + [id, data] == [sig, id, data] && [name] + [sig, id, data] == p.Fields();
    assert p.signature + ("" + (p.data + "")) == p.signature + p.data;
  }

  /** The packet on the wire: name, signature, number, data, in this order. */
  lemma {:induction false} PacketText(p: Packet)
    ensures var name, sig := "\"" + Escape(p.handlerName) + "\"", "\"" + Escape(p.signature) + "\"";
            var id, data := ToString(p.requestId), "\"" + Escape(p.data) + "\"";
            Encode(p) == "{" + (name + "," + sig + "," + id + "," + data) + "}"
  {
    var name, sig, id, data := VStr(p.handlerName), VStr(p.signature), VInt(p.requestId), VStr(p.data);
    FourFields(name, sig, id, data);
    assert p.Fields() == [name, sig, id, data];
  }

  lemma {:induction false} FourFields(a: Value, b: Value, c: Value, d: Value)
    ensures PrintFields([a, b, c, d]) == Print(a) + "," + Print(b) + "," + Print(c) + "," + Print(d)
  {
    assert PrintFields([a]) == Print(a);
    PrintFieldsSnoc([a], b);
    PrintFieldsSnoc([a, b], c);
    PrintFieldsSnoc([a, b, c], d);
    hide Print, PrintFields;
    assert [a] + [b] == [a, b] && [a, b] + [c] == [a, b, c] && [a, b, c] + [d] == [a, b, c, d];
  }

  /** Packets round trip exactly when they are decodable; braces left open do no harm, because nothing
      follows a packet in its stream. */
  lemma {:induction false} PacketRoundTripExactly(p: Packet)
    requires IsInt32(p.requestId)
    ensures Decode(Encode(p)) == Ok(p) <==> Decodable(p)
  {
    hide NextToken, ReadFields, Read, Print, PrintFields, Flat, AllQuotable, StringsOf, Stays, Quotable, HaveTypes;
    var ts, fs := PACKET_FIELDS, p.Fields();
    FieldsOfPacket(p);
    FlatRecordExactly(ts, fs);
    FlatRowStays(fs, 1);
    var c := Cursor(Encode(p), false);
    ReadObject(ts, Defaults(ts), c);
    ReadFieldsAreTyped(ts, Defaults(ts), Inside(NextToken(c).text));
    var r := ReadFields(ts, Defaults(ts), Inside(NextToken(c).text));
    if r.Ok? {
      PacketShape(r.value.0);
      assert r.value.0 == fs <==> PacketOf(r.value.0) == p;
    }
  }

  predicate StringFree(v: Value) {
    match v
    case VInt(_) => true
    case VStr(_) => false
    case VList(vs) => AllStringFree(vs)
    case VObj(vs) => AllStringFree(vs)
  }

  predicate AllStringFree(vs: seq<Value>) {
    vs == [] || (StringFree(vs[0]) && AllStringFree(vs[1..]))
  }

  /** The only quotes in printed text are those around strings. */
  lemma {:induction false} QuotesComeFromStrings(v: Value)
    ensures '"' in Print(v) <==> !StringFree(v)
    decreases v
  {
    match v
    case VInt(n) =>
    case VStr(s) =>
      assert Print(v)[0] == '"';
    case VList(vs) =>
      QuotesInRow(vs);
    case VObj(vs) =>
      QuotesInRow(vs);
  }

  lemma {:induction false} QuotesInRow(vs: seq<Value>)
    ensures '"' in PrintFields(vs) <==> !AllStringFree(vs)
    decreases vs
  {
    if vs != [] {
      QuotesComeFromStrings(vs[0]);
      QuotesInRow(vs[1..]);
      PrintRow(vs);
    }
  }

  /** Text that a clean argument row puts between the quotes of a data field. */
  lemma {:induction false} CallDataIsQuotable(args: seq<Value>)
    requires AllClean(args)
    ensures Quotable(FieldsText(args)) <==> AllStringFree(args)
    ensures Quotable(Print(VObj(args))) <==> AllStringFree(args)
    ensures Stays(FieldsText(args), Curly, 1) && Stays(Print(VObj(args)), Curly, 1)
  {
    QuotesInRow(args);
    PrintFieldsIsNeutral(args, Curly);
    NeutralAt(PrintFields(args), Curly, 2);
    DepthOfConcat("{", PrintFields(args), Curly, 1);
    PrintIsNeutral(VObj(args), Curly);
    if AllStringFree(args) {
      RowDoesNotEndInBackslash(args);
    }
  }

  lemma {:induction false} RowDoesNotEndInBackslash(vs: seq<Value>)
    requires AllStringFree(vs)
    ensures !EndsInBackslash(PrintFields(vs))
  {
    if vs != [] {
      PrintRow(vs);
      RowDoesNotEndInBackslash(vs[1..]);
      if |vs| == 1 {
        assert vs[0].VInt? || Print(vs[0])[|Print(vs[0])| - 1] in "]}";
      }
    }
  }

  /** A packet whose data field holds an argument object, closed or as `make_call` leaves it, decodes with
      all four fields equal if and only if there is no string among the arguments, at any depth. */
  lemma {:induction false} NestedCallDecodesExactly(p: Packet, args: seq<Value>)
    requires IsInt32(p.requestId) && AllClean(args)
    requires Quotable(p.handlerName) && Quotable(p.signature)
    requires Neutral(p.handlerName + p.signature, Curly)
    requires p.data == FieldsText(args) || p.data == Print(VObj(args))
    ensures Decode(Encode(p)) == Ok(p) <==> AllStringFree(args)
  {
    PacketRoundTripExactly(p);
    CallDataIsQuotable(args);
    DepthOfConcat(p.handlerName + p.signature, p.data, Curly, 1);
  }

  /** The arguments inside, as the handler's `readData` sees them: from a closed object always those that
      were sent, from `make_call` text exactly when the last one does not end in an `int`. */
  lemma {:induction false} NestedArgumentsExactly(ps: seq<Param>, args: seq<Value>)
    requires args != [] && HaveTypes(Schemas(ps), args) && AllClean(args)
    ensures ReadCall(ps, Print(VObj(args))) == Ok(args)
    ensures ReadCall(ps, FieldsText(args)) == Ok(args) <==> TailSafe(Last(args))
  {
    var ts := Schemas(ps);
    ArgumentsArriveExactly(ps, args);
    var text := Print(VObj(args));
    assert text + "" == text;
    FieldFraming(VObj(args), "");
    InsideOfPrinted(VObj(args));
    FieldsReadBack(ts, args, Defaults(ts));
    DefaultsAreNotPending(ts);
    MergeAllReplacesExactly(ts, Defaults(ts), args);
  }

  /** The packet as an object whose fields are overwritten by `deserialize`. */
  class RmiPacket {
    var handlerName: string
    var signature: string
    var requestId: int
    var data: string

    ghost function Contents(): Packet
      reads this
    {
      Packet(handlerName, signature, requestId, data)
    }

    constructor ()
      ensures Contents() == Packet("", "", -1, "")
    {
      handlerName, signature, requestId, data := "", "", -1, "";
    }

    method SerializeTo(out: OutStream)
      modifies out
      ensures out.text == old(out.text) + Encode(Contents())
    {
      var obj := new ObjectSer(out);
      obj.Field(VStr(handlerName));
      obj.Field(VStr(signature));
      obj.Field(VInt(requestId));
      obj.Field(VStr(data));
      assert obj.written == Contents().Fields();
      obj.Close();
      assert old(out.text) + "{" + PrintFields(Contents().Fields()) + "}" == old(out.text) + Encode(Contents());
    }

    /** The fields up to the text of the request id. */
    method ReadHead(obj: InStream) returns (number: string)
      requires obj.Valid()
      modifies this`handlerName, this`signature, obj
      ensures obj.Valid()
      ensures var t1 := NextToken(old(obj.View()));
              var t2 := NextToken(t1.next);
              handlerName == t1.text && signature == t2.text && Token(number, obj.View()) == NextToken(t2.next)
    {
      hide NextToken;
      handlerName := obj.ReadToken();
      signature := obj.ReadToken();
      number := obj.ReadToken();
    }

    /** Fields in front of one that fails have been overwritten by then; the others keep their value. */
    method DeserializeFrom(input: InStream) returns (r: Option<Fault>)
      requires input.Valid() && IsInt32(requestId)
      modifies this, input
      ensures var spec := old(DecodeFrom(input.View()));
              if spec.Ok? then r == None && Contents() == spec.value
              else r == Some(spec.fault) && requestId == old(requestId) && data == old(data)
      ensures var first := NextToken(Inside(NextToken(old(input.View())).text));
              handlerName == first.text && signature == NextToken(first.next).text
    {
      DecodeTokenByToken(input.View());
      hide NextToken, DecodeFrom, Stoi;
      var objData := input.ReadToken();
      var obj := new InStream(Inside(objData).rest);
      var number := ReadHead(obj);
      var n := Stoi(number);
      if n.Err? {
        return Some(n.fault);
      }
      requestId := n.value;
      data := obj.ReadToken();
      r := None;
    }
  }

  /** The four `>>` of a packet, token by token. */
  lemma {:induction false} PacketFieldByField(c: Cursor)
    requires c.Valid()
    ensures var t1 := NextToken(c);
            var t2 := NextToken(t1.next);
            var t3 := NextToken(t2.next);
            var t4 := NextToken(t3.next);
            var n := Stoi(t3.text);
            var r := ReadFields(PACKET_FIELDS, Defaults(PACKET_FIELDS), c);
            if n.Err? then r == Err(n.fault)
            else r.Ok? && r.value.0 == [VStr(t1.text), VStr(t2.text), VInt(n.value), VStr(t4.text)]
  {
    var t1 := NextToken(c);
    var t2 := NextToken(t1.next);
    var t3 := NextToken(t2.next);
    var t4 := NextToken(t3.next);
    var ts := PACKET_FIELDS;
    var ds := Defaults(ts);
    DefaultsOfPacket();
    ReadFieldsCons(ts, ds, c, t1);
    ReadFieldsCons(ts[1..], ds[1..], t1.next, t2);
    assert ts[1..][1..] == ts[2..] && ds[1..][1..] == ds[2..];
    ReadFieldsCons(ts[2..], ds[2..], t2.next, t3);
    assert ts[2..][1..] == ts[3..] && ds[2..][1..] == ds[3..];
    ReadFieldsCons(ts[3..], ds[3..], t3.next, t4);
    assert ts[3..][1..] == [] && ds[3..][1..] == [];
  }

  lemma {:induction false} DecodeTokenByToken(c: Cursor)
    requires c.Valid()
    ensures var t1 := NextToken(Inside(NextToken(c).text));
            var t2 := NextToken(t1.next);
            var t3 := NextToken(t2.next);
            var t4 := NextToken(t3.next);
            var n := Stoi(t3.text);
            DecodeFrom(c) == if n.Err? then Err(n.fault) else Ok(Packet(t1.text, t2.text, n.value, t4.text))
  {
    PacketFieldByField(Inside(NextToken(c).text));
  }

  lemma {:induction false} DefaultsOfPacket()
    ensures Defaults(PACKET_FIELDS) == [VStr(""), VStr(""), VInt(0), VStr("")]
    ensures HaveTypes(PACKET_FIELDS[1..], Defaults(PACKET_FIELDS)[1..])
    ensures HaveTypes(PACKET_FIELDS[2..], Defaults(PACKET_FIELDS)[2..])
    ensures HaveTypes(PACKET_FIELDS[3..], Defaults(PACKET_FIELDS)[3..])
  {
    assert PACKET_FIELDS[1..][1..] == PACKET_FIELDS[2..] && PACKET_FIELDS[2..][1..] == PACKET_FIELDS[3..];
    assert Defaults([TStr]) == [VStr("")];
    assert Defaults([TInt, TStr]) == [VInt(0)] + Defaults([TStr]) by { assert [TInt, TStr][1..] == [TStr]; }
    assert PACKET_FIELDS[3..] == [TStr] && PACKET_FIELDS[2..] == [TInt, TStr];
    assert Defaults(PACKET_FIELDS[1..]) == [VStr("")] + Defaults(PACKET_FIELDS[2..]);
    assert Defaults(PACKET_FIELDS)[1..] == Defaults(PACKET_FIELDS[1..]);
    assert Defaults(PACKET_FIELDS)[2..] == Defaults(PACKET_FIELDS[2..]);
    assert Defaults(PACKET_FIELDS)[3..] == Defaults(PACKET_FIELDS[3..]);
  }
}
