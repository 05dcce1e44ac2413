/** From a session to a handler: the packets of lib/coreproto.h carry the text of RMI packets. */
module Transport {
  import opened Results
  import opened Decimal
  import opened CoreProto
  import opened RmiPackets
  import opened Dispatch
  import SessionReads

  /** Text whose characters have one byte each, as those of a `std::string`. */
  predicate IsBytes(text: string) {
    forall i :: 0 <= i < |text| ==> text[i] as int < 256
  }

  function ToBytes(text: string): (bytes: seq<Byte>)
    requires IsBytes(text)
    ensures |bytes| == |text|
  {
    seq(|text|, i requires 0 <= i < |text| => text[i] as int)
  }

  function ToText(bytes: seq<Byte>): (text: string)
    ensures |text| == |bytes|
  {
    seq(|bytes|, i requires 0 <= i < |bytes| => bytes[i] as char)
  }

  lemma {:induction false} TextOfBytes(text: string)
    requires IsBytes(text)
    ensures ToText(ToBytes(text)) == text
  {
  }

  /** An RMI packet as it comes in through a session, in one read. */
  predicate Carries(d: SessionReads.Delivery, p: Packet) {
    && d.Valid() && IsInt32(p.requestId) && Decodable(p)
    && IsBytes(Encode(p)) && d.payload == ToBytes(Encode(p))
    && |Encode(p)| <= SessionReads.SMALL_PAYLOAD
  }

  /** Where a packet should go: to the first handler registered under its name, if there is one. */
  function Destination<H>(handlers: map<string, H>, p: Packet): Option<Call<H>> {
    if p.handlerName in handlers then Some(Call(handlers[p.handlerName], p.signature, p.data)) else None
  }

  lemma {:induction false} HandedInOrder(ds: seq<SessionReads.Delivery>, ps: seq<Packet>, i: nat)
    requires |ds| == |ps| && i < |ds| && forall k :: 0 <= k < |ds| ==> Carries(ds[k], ps[k])
    ensures |SessionReads.AllHanded(ds)| == |ds|
    ensures IsBytes(Encode(ps[i])) && SessionReads.AllHanded(ds)[i] == ToBytes(Encode(ps[i]))
  {
    hide Carries;
    assert Carries(ds[0], ps[0]);
    SmallIsHandedWhole(ds[0], ps[0]);
    if |ds| > 1 {
      forall k | 0 <= k < |ds[1..]| ensures Carries(ds[1..][k], ps[1..][k]) {
        assert Carries(ds[k + 1], ps[k + 1]);
      }
      HandedInOrder(ds[1..], ps[1..], if i == 0 then 0 else i - 1);
    }
  }

  lemma {:induction false} SmallIsHandedWhole(d: SessionReads.Delivery, p: Packet)
    requires Carries(d, p)
    ensures IsBytes(Encode(p)) && d.Handed() == ToBytes(Encode(p))
  {
  }

  /** RMI packets of at most 1018 bytes, each read in one piece: the session hands off one text per packet, in
      order, whatever the read buffer held, and each goes to the first handler registered under its name, with
      the signature and the data sent, and nowhere if there is none. */
  lemma {:induction false} PacketsReachTheirHandlers<H>(
    s: SessionReads.State, ds: seq<SessionReads.Delivery>, ps: seq<Packet>, names: seq<string>, hs: seq<H>, i: nat)
    requires s.Valid() && s.incBuffer == [] && |names| == |hs|
    requires |ds| == |ps| && i < |ds| && forall k :: 0 <= k < |ds| ==> Carries(ds[k], ps[k])
    ensures SessionReads.AllValid(SessionReads.AllReads(ds))
    ensures var handed := SessionReads.Run(s, SessionReads.AllReads(ds)).handed;
            && |handed| == |s.handed| + |ps|
            && Route(RegisterAll(names, hs), ToText(handed[|s.handed| + i])) ==
               Ok(Destination(RegisterAll(names, hs), ps[i]))
  {
    hide *;
    AllAreDelivered(ds, ps);
    SessionReads.OneHandOffPerPacket(s, ds);
    HandedInOrder(ds, ps, i);
    assert Carries(ds[i], ps[i]);
    RouteOfCarried(RegisterAll(names, hs), ds[i], ps[i]);
    var handed := SessionReads.AllHanded(ds);
    assert (s.handed + handed)[|s.handed| + i] == handed[i];
  }

  lemma {:induction false} AllAreDelivered(ds: seq<SessionReads.Delivery>, ps: seq<Packet>)
    requires |ds| == |ps| && forall k :: 0 <= k < |ds| ==> Carries(ds[k], ps[k])
    ensures forall d :: d in ds ==> d.Valid()
  {
    forall d | d in ds ensures d.Valid() {
      var k :| 0 <= k < |ds| && ds[k] == d;
      assert Carries(ds[k], ps[k]);
    }
  }

  lemma {:induction false} RouteOfCarried<H>(handlers: map<string, H>, d: SessionReads.Delivery, p: Packet)
    requires Carries(d, p)
    ensures IsBytes(Encode(p)) && Route(handlers, ToText(ToBytes(Encode(p)))) == Ok(Destination(handlers, p))
  {
    TextOfBytes(Encode(p));
    PacketRoundTripExactly(p);
    hide ToText, ToBytes, Decode, Encode;
  }
}
