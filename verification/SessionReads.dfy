/** The read side of a session (lib/netbase.cpp): a read buffer that keeps stale bytes, and `incBuffer_`
    for packets that do not fit into it. */
module SessionReads {
  import opened CoreProto

  const BUFFER_SIZE := 1024

  /** The largest payload whose packet fits into the read buffer. */
  const SMALL_PAYLOAD := BUFFER_SIZE - HEADER_SIZE

  datatype State = State(incBuffer: seq<Byte>, buffer: seq<Byte>, handed: seq<seq<Byte>>) {
    predicate Valid() {
      |buffer| == BUFFER_SIZE
    }
  }

  /** A completed read: the bytes it put at the front of the buffer, and what the uninitialised `pkgSize`
      variable happens to hold. */
  datatype Arrival = Arrival(chunk: seq<Byte>, pkgSize: Word) {
    predicate Valid() {
      |chunk| <= BUFFER_SIZE
    }
  }

  /** `processRead` without an error. */
  function OnRead(s: State, r: Arrival): (s': State)
    requires s.Valid() && r.Valid()
    ensures s'.Valid()
  {
    var buffer := r.chunk + s.buffer[|r.chunk|..];
    if s.incBuffer == [] then
      var check := CheckArray(buffer, r.pkgSize);
      if check.complete then
        State([], buffer, s.handed + [FetchArray(buffer, check.pkgSize)])
      else if IsPacketStart(buffer) then
        State(r.chunk, buffer, s.handed)
      else
        State([], buffer, s.handed)
    else
      var grown := s.incBuffer + r.chunk;
      var check := CheckVector(grown, r.pkgSize);
      if check.complete then
        State([], buffer, s.handed + [FetchVector(grown, check.pkgSize)])
      else if check.pkgSize > MAX_PACKET_SIZE then
        State([], buffer, s.handed)
      else
        State(grown, buffer, s.handed)
  }

  predicate AllValid(rs: seq<Arrival>) {
    forall r :: r in rs ==> r.Valid()
  }

  function Run(s: State, rs: seq<Arrival>): (s': State)
    requires s.Valid() && AllValid(rs)
    ensures s'.Valid()
    decreases rs
  {
    if rs == [] then s else Run(OnRead(s, rs[0]), rs[1..])
  }

  lemma {:induction false} RunConcat(s: State, rs: seq<Arrival>, more: seq<Arrival>)
    requires s.Valid() && AllValid(rs) && AllValid(more)
    ensures Run(s, rs + more) == Run(Run(s, rs), more)
    decreases rs
  {
    if rs == [] {
      assert rs + more == more;
    } else {
      assert (rs + more)[1..] == rs[1..] + more;
      RunConcat(OnRead(s, rs[0]), rs[1..], more);
    }
  }

  function Bytes(rs: seq<Arrival>): seq<Byte> {
    if rs == [] then [] else rs[0].chunk + Bytes(rs[1..])
  }

  lemma {:induction false} BytesSnoc(rs: seq<Arrival>, r: Arrival)
    ensures Bytes(rs + [r]) == Bytes(rs) + r.chunk
  {
    if rs != [] {
      assert (rs + [r])[1..] == rs[1..] + [r];
      BytesSnoc(rs[1..], r);
    } else {
      assert (rs + [r])[1..] == [];
    }
  }

  /** Between reads the buffer for large packets holds no complete packet, and text in it starts with the
      first magic byte. */
  predicate BufferInv(s: State) {
    && !CheckVector(s.incBuffer, 0).complete
    && (s.incBuffer != [] ==> s.incBuffer[0] == 78)
  }

  /** A read while bytes are being collected. */
  lemma {:induction false} OnReadGrows(s: State, r: Arrival)
    requires s.Valid() && r.Valid() && s.incBuffer != []
    ensures var check := CheckVector(s.incBuffer + r.chunk, r.pkgSize);
            && OnRead(s, r).handed == (if check.complete then s.handed + [[]] else s.handed)
            && OnRead(s, r).incBuffer ==
               if check.complete || check.pkgSize > MAX_PACKET_SIZE then [] else s.incBuffer + r.chunk
  {
    var grown := s.incBuffer + r.chunk;
    if |grown| == HEADER_SIZE && CheckVector(grown, r.pkgSize).complete {
      assert grown[HEADER_SIZE..HEADER_SIZE] == [];
    }
  }

  lemma {:induction false} OnReadKeepsBufferInv(s: State, r: Arrival)
    requires s.Valid() && r.Valid() && BufferInv(s)
    ensures BufferInv(OnRead(s, r))
    ensures OnRead(s, r).incBuffer == [] || OnRead(s, r).incBuffer == s.incBuffer + r.chunk
  {
    if s.incBuffer == [] {
      assert s.incBuffer + r.chunk == r.chunk;
      OnReadStarts(s, r);
    } else {
      hide OnRead, CheckVector;
      OnReadGrows(s, r);
      CompleteOrNot(s.incBuffer + r.chunk, r.pkgSize, 0);
    }
  }

  /** The verdict does not depend on what the size variable held. */
  lemma {:induction false} CompleteOrNot(data: seq<Byte>, before: Word, other: Word)
    ensures CheckVector(data, before).complete <==> CheckVector(data, other).complete
  {
  }

  /** A read while nothing is collected. */
  lemma {:induction false} OnReadStarts(s: State, r: Arrival)
    requires s.Valid() && r.Valid() && s.incBuffer == []
    ensures var inc := OnRead(s, r).incBuffer;
            && (inc == [] || inc == r.chunk)
            && !CheckVector(inc, 0).complete && (inc != [] ==> inc[0] == MAGIC[0])
  {
    hide Ntohl;
    var buffer := r.chunk + s.buffer[|r.chunk|..];
    if OnRead(s, r).incBuffer != [] {
      assert r.chunk[0] == buffer[..2][0];
      if |r.chunk| >= HEADER_SIZE {
        assert r.chunk[..2] == buffer[..2] && r.chunk[2..6] == buffer[2..6];
      }
    }
  }

  /** `j` reads into the run the buffer was empty, and now it holds all that has arrived since. */
  ghost predicate SinceEmpty(s: State, rs: seq<Arrival>, j: nat)
    requires s.Valid() && AllValid(rs)
  {
    && j <= |rs|
    && AllValid(rs[..j])
    && Run(s, rs[..j]).incBuffer == []
    && Run(s, rs).incBuffer == Bytes(rs[j..])
  }

  /** For every run, whatever arrives and whatever was in the read buffer before. */
  lemma {:induction false} BufferHoldsWhatArrivedSinceEmpty(s: State, rs: seq<Arrival>)
    requires s.Valid() && AllValid(rs) && s.incBuffer == []
    ensures BufferInv(Run(s, rs))
    ensures exists j: nat :: SinceEmpty(s, rs, j)
    decreases |rs|
  {
    hide OnRead, Bytes, BufferInv, SinceEmpty;
    if rs == [] {
      SinceNow(s, rs);
      NothingIsHarmless(s);
    } else {
      hide Run;
      var n := |rs| - 1;
      var init, r := rs[..n], rs[n];
      assert rs == init + [r];
      BufferHoldsWhatArrivedSinceEmpty(s, init);
      RunOneMore(s, init, r);
      OnReadKeepsBufferInv(Run(s, init), r);
      if Run(s, rs).incBuffer == [] {
        SinceNow(s, rs);
      } else {
        var j: nat :| SinceEmpty(s, init, j);
        StillSince(s, init, r, j);
      }
    }
  }

  lemma {:induction false} NothingIsHarmless(s: State)
    requires s.incBuffer == []
    ensures BufferInv(s)
  {
  }

  lemma {:induction false} SinceNow(s: State, rs: seq<Arrival>)
    requires s.Valid() && AllValid(rs) && Run(s, rs).incBuffer == []
    ensures SinceEmpty(s, rs, |rs|)
  {
    hide OnRead;
    assert rs[..|rs|] == rs && rs[|rs|..] == [];
  }

  lemma {:induction false} StillSince(s: State, rs: seq<Arrival>, r: Arrival, j: nat)
    requires s.Valid() && AllValid(rs) && r.Valid() && SinceEmpty(s, rs, j)
    requires Run(s, rs + [r]).incBuffer == Run(s, rs).incBuffer + r.chunk
    ensures SinceEmpty(s, rs + [r], j)
  {
    hide OnRead, Run, Bytes;
    assert (rs + [r])[..j] == rs[..j] && (rs + [r])[j..] == rs[j..] + [r];
    BytesSnoc(rs[j..], r);
  }

  /** Bytes are being collected that cannot be the start of a packet. */
  predicate Jammed(s: State) {
    |s.incBuffer| >= 2 && s.incBuffer[..2] != MAGIC
  }

  /** A read jams a session that is not jammed exactly when only the first magic byte has been collected and
      a wrong byte follows, and it unjams one exactly when the uninitialised size happens to be over the
      limit. */
  lemma {:induction false} OnReadJamsExactly(s: State, r: Arrival)
    requires s.Valid() && r.Valid() && BufferInv(s)
    ensures Jammed(OnRead(s, r)) <==>
            r.pkgSize <= MAX_PACKET_SIZE && (Jammed(s) || JamsNext(s, r))
  {
    var buffer := r.chunk + s.buffer[|r.chunk|..];
    var grown := s.incBuffer + r.chunk;
    if s.incBuffer == [] {
      assert |r.chunk| >= 2 ==> r.chunk[..2] == buffer[..2];
    } else if |s.incBuffer| >= 2 {
      assert grown[..2] == s.incBuffer[..2];
    } else if r.chunk != [] {
      assert s.incBuffer == [MAGIC[0]];
      assert grown[..2] == [MAGIC[0], r.chunk[0]];
    }
  }

  predicate JamsNext(s: State, r: Arrival) {
    s.incBuffer == [MAGIC[0]] && r.chunk != [] && r.chunk[0] != MAGIC[1]
  }

  /** The run gets jammed at its read `j` and stays so. */
  ghost predicate JamsAt(s: State, rs: seq<Arrival>, j: nat)
    requires s.Valid() && AllValid(rs)
  {
    && j < |rs|
    && AllValid(rs[..j])
    && JamsNext(Run(s, rs[..j]), rs[j])
    && forall i :: j <= i < |rs| ==> rs[i].pkgSize <= MAX_PACKET_SIZE
  }

  /** A run that starts with nothing collected ends jammed if and only if after some of its reads the first
      magic byte alone was collected, the next read brought a wrong byte, and the uninitialised size has been
      within the limit since. */
  lemma {:induction false} RunJamsExactly(s: State, rs: seq<Arrival>)
    requires s.Valid() && AllValid(rs) && s.incBuffer == []
    ensures Jammed(Run(s, rs)) <==> exists j: nat :: JamsAt(s, rs, j)
    decreases |rs|
  {
    if rs != [] {
      var n := |rs| - 1;
      var init, r := rs[..n], rs[n];
      assert rs == init + [r] && AllValid(init);
      var before := Run(s, init);
      RunJamsExactly(s, init);
      RunOneMore(s, init, r);
      BufferHoldsWhatArrivedSinceEmpty(s, init);
      OnReadJamsExactly(before, r);
      hide OnRead, Run, BufferInv, JamsNext, Jammed;
      assert JamsNext(before, r) && r.pkgSize <= MAX_PACKET_SIZE ==> JamsAt(s, rs, n);
      forall j: nat | j < n && r.pkgSize <= MAX_PACKET_SIZE ensures JamsAt(s, init, j) <==> JamsAt(s, rs, j) {
        assert rs[..j] == init[..j];
      }
    }
  }

  lemma {:induction false} RunOneMore(s: State, rs: seq<Arrival>, r: Arrival)
    requires s.Valid() && AllValid(rs) && r.Valid()
    ensures Run(s, rs + [r]) == OnRead(Run(s, rs), r)
  {
    RunConcat(s, rs, [r]);
    hide OnRead;
    assert [r][1..] == [];
  }

  /** Less has been collected than the largest packet has, or the session is jammed. */
  predicate Bounded(s: State) {
    |s.incBuffer| < MAX_PACKET_SIZE + HEADER_SIZE || Jammed(s)
  }

  lemma {:induction false} OnReadKeepsBounded(s: State, r: Arrival)
    requires s.Valid() && r.Valid() && BufferInv(s)
    ensures Bounded(OnRead(s, r))
  {
    var s' := OnRead(s, r);
    OnReadKeepsBufferInv(s, r);
    if s.incBuffer != [] && s'.incBuffer != [] && |s'.incBuffer| >= HEADER_SIZE && !Jammed(s') {
      assert s'.incBuffer[..2] == MAGIC;
      SumDoesNotWrap(Ntohl(s'.incBuffer[2..6]));
    }
  }

  /** Whatever sizes are announced and however the bytes are cut into reads, what is collected never reaches
      the size of the largest packet, except in the jammed sessions that `RunJamsExactly` describes: an
      announcement beyond the limit is dropped with the next read. */
  lemma {:induction false} BufferStaysBounded(s: State, rs: seq<Arrival>)
    requires s.Valid() && AllValid(rs) && s.incBuffer == []
    ensures |Run(s, rs).incBuffer| < MAX_PACKET_SIZE + HEADER_SIZE || exists j: nat :: JamsAt(s, rs, j)
  {
    if rs != [] {
      var n := |rs| - 1;
      var init, r := rs[..n], rs[n];
      assert rs == init + [r] && AllValid(init);
      BufferHoldsWhatArrivedSinceEmpty(s, init);
      RunOneMore(s, init, r);
      OnReadKeepsBounded(Run(s, init), r);
      RunJamsExactly(s, rs);
    }
  }

  /** Collected bytes with a wrong magic are never recognised and, unless the uninitialised size happens to
      be over the limit, never dropped: the session collects for ever and hands nothing off. */
  lemma {:induction false} WrongMagicJams(s: State, rs: seq<Arrival>)
    requires s.Valid() && AllValid(rs) && Jammed(s)
    requires forall r :: r in rs ==> r.pkgSize <= MAX_PACKET_SIZE
    ensures Run(s, rs).incBuffer == s.incBuffer + Bytes(rs) && Run(s, rs).handed == s.handed
    decreases rs
  {
    if rs == [] {
      assert s.incBuffer + [] == s.incBuffer;
    } else {
      var grown := s.incBuffer + rs[0].chunk;
      assert grown[..2] == s.incBuffer[..2];
      WrongMagicJams(OnRead(s, rs[0]), rs[1..]);
      assert grown + Bytes(rs[1..]) == s.incBuffer + (rs[0].chunk + Bytes(rs[1..]));
    }
  }

  /** How it gets there: over the stale start of a large packet one byte is enough to start collecting, and
      the next byte may be any. */
  lemma {:induction false} OneByteReadJams(s: State, x: Byte, later: seq<Arrival>, first: Word, second: Word)
    requires s.Valid() && s.incBuffer == [] && AllValid(later)
    requires IsPacketStart(s.buffer) && !CheckArray(s.buffer, first).complete && x != MAGIC[1]
    requires second <= MAX_PACKET_SIZE && forall r :: r in later ==> r.pkgSize <= MAX_PACKET_SIZE
    ensures var s' := OnRead(OnRead(s, Arrival([MAGIC[0]], first)), Arrival([x], second));
            Run(s', later).incBuffer == [MAGIC[0], x] + Bytes(later) && Run(s', later).handed == s.handed
  {
    var r1, r2 := Arrival([MAGIC[0]], first), Arrival([x], second);
    assert s.buffer[0] == s.buffer[..2][0];
    assert r1.chunk + s.buffer[1..] == s.buffer;
    assert [MAGIC[0]] + [x] == [MAGIC[0], x] && [MAGIC[0], x][..2][1] == x;
    WrongMagicJams(OnRead(OnRead(s, r1), r2), later);
  }

  /** A packet as it arrives: its payload and the reads that bring it. */
  datatype Delivery = Delivery(payload: seq<Byte>, arrivals: seq<Arrival>) {
    /** The reads bring this packet and nothing else. */
    predicate Whole() {
      && |payload| <= MAX_PACKET_SIZE
      && arrivals != [] && AllValid(arrivals)
      && (forall r :: r in arrivals ==> r.chunk != [])
      && Bytes(arrivals) == CreatePacket(payload)
    }

    /** A large packet, cut into reads in any way. */
    predicate Large() {
      Whole() && |payload| > SMALL_PAYLOAD
    }

    /** Reads do not cross packet boundaries; a packet that fits the read buffer comes in one read, a
        larger one starts with at least its header. */
    predicate Valid() {
      && Whole()
      && (|payload| <= SMALL_PAYLOAD ==> |arrivals| == 1)
      && |arrivals[0].chunk| >= HEADER_SIZE
    }

    /** What the handler manager is given: `fetchData` on a vector loses every large payload. */
    function Handed(): seq<Byte> {
      if |payload| <= SMALL_PAYLOAD then payload else []
    }
  }

  /** Every small payload can be delivered. */
  lemma {:induction false} SmallDelivery(payload: seq<Byte>, pkgSize: Word)
    requires |payload| <= 1018
    ensures Delivery(payload, [Arrival(CreatePacket(payload), pkgSize)]).Valid()
  {
    var r := Arrival(CreatePacket(payload), pkgSize);
    assert [r][1..] == [] && Bytes([r]) == r.chunk + [];
  }

  lemma {:induction false} SmallPacket(s: State, d: Delivery)
    requires s.Valid() && s.incBuffer == [] && d.Valid() && |d.payload| <= SMALL_PAYLOAD
    ensures var s' := OnRead(s, d.arrivals[0]);
            s'.incBuffer == [] && s'.handed == s.handed + [d.payload]
  {
    var r := d.arrivals[0];
    assert Bytes(d.arrivals[1..]) == [] && r.chunk == CreatePacket(d.payload);
    HeaderOf(d.payload, []);
    assert |r.chunk| == HEADER_SIZE + |d.payload| by { assert CreatePacket(d.payload) + [] == r.chunk; }
    var buffer := r.chunk + s.buffer[|r.chunk|..];
    assert buffer == (CreatePacket(d.payload) + s.buffer[|r.chunk|..])[..BUFFER_SIZE];
    ArrayRecoversPacket(d.payload, s.buffer[|r.chunk|..], BUFFER_SIZE, r.pkgSize);
  }

  /** A first read with the header of a large packet starts the collection. */
  lemma {:induction false} LargePacketStarts(s: State, d: Delivery)
    requires s.Valid() && s.incBuffer == [] && d.Large() && |d.arrivals[0].chunk| >= HEADER_SIZE
    ensures var s' := OnRead(s, d.arrivals[0]);
            s'.incBuffer == d.arrivals[0].chunk && s'.handed == s.handed
  {
    var r, packet := d.arrivals[0], CreatePacket(d.payload);
    assert r in d.arrivals && packet == r.chunk + Bytes(d.arrivals[1..]);
    HeaderOf(d.payload, []);
    assert packet + [] == packet;
    HeaderStarts(s, r, |d.payload|) by {
      hide CreatePacket, Bytes, Ntohl;
      assert r.chunk[..2] == packet[..2] && r.chunk[2..6] == packet[2..6];
    }
  }

  lemma {:induction false} HeaderStarts(s: State, r: Arrival, size: nat)
    requires s.Valid() && s.incBuffer == [] && r.Valid() && |r.chunk| >= HEADER_SIZE
    requires r.chunk[..2] == MAGIC && Ntohl(r.chunk[2..6]) == size > SMALL_PAYLOAD
    ensures OnRead(s, r).incBuffer == r.chunk && OnRead(s, r).handed == s.handed
  {
    hide Ntohl;
    var buffer := r.chunk + s.buffer[|r.chunk|..];
    assert buffer[..2] == r.chunk[..2] && buffer[2..6] == r.chunk[2..6];
  }

  /** The payload size that the read buffer announces when `k` bytes of a packet have arrived. */
  function Announced(s: State, payload: seq<Byte>, k: nat): Word
    requires s.Valid() && k <= HEADER_SIZE
  {
    Ntohl((CreatePacket(payload)[..k] + s.buffer[k..HEADER_SIZE])[2..6])
  }

  /** Why a large packet must start with its header: a first read that is shorter starts the collection exactly
      when the stale bytes complete the magic and announce a packet that does not fit the read buffer. */
  lemma {:induction false} ShortStartExactly(s: State, payload: seq<Byte>, k: nat, pkgSize: Word)
    requires s.Valid() && s.incBuffer == [] && 0 < k < HEADER_SIZE
    ensures var chunk := CreatePacket(payload)[..k];
            var s' := OnRead(s, Arrival(chunk, pkgSize));
            s'.incBuffer == chunk && s'.handed == s.handed <==>
            (k == 1 ==> s.buffer[1] == MAGIC[1]) && Announced(s, payload, k) > SMALL_PAYLOAD
  {
    var chunk := CreatePacket(payload)[..k];
    var buffer := chunk + s.buffer[k..];
    assert CreatePacket(payload)[..2] == MAGIC;
    var header := chunk + s.buffer[k..HEADER_SIZE];
    assert |header| == HEADER_SIZE && buffer[..HEADER_SIZE] == header;
    assert buffer[2..6] == buffer[..HEADER_SIZE][2..6];
    assert buffer[0] == CreatePacket(payload)[..2][0];
    assert buffer[1] == if k == 1 then s.buffer[1] else CreatePacket(payload)[..2][1];
    assert buffer[..2] == [buffer[0], buffer[1]];
    var size := Ntohl(buffer[2..6]);
    assert size <= MAX_PACKET_SIZE ==> Truncate(size + HEADER_SIZE) == size + HEADER_SIZE;
  }

  /** What has to be in the read buffer for a large packet to be collected from its first read on. */
  predicate Starts(s: State, d: Delivery)
    requires s.Valid() && d.Large()
  {
    var k := |d.arrivals[0].chunk|;
    k >= HEADER_SIZE || ((k == 1 ==> s.buffer[1] == MAGIC[1]) && Announced(s, d.payload, k) > SMALL_PAYLOAD)
  }

  lemma {:induction false} LargePacketStartsExactly(s: State, d: Delivery)
    requires s.Valid() && s.incBuffer == [] && d.Large()
    ensures d.arrivals[0].Valid()
    ensures var s' := OnRead(s, d.arrivals[0]);
            s'.incBuffer == d.arrivals[0].chunk && s'.handed == s.handed <==> Starts(s, d)
  {
    var r := d.arrivals[0];
    var k := |r.chunk|;
    assert r in d.arrivals && CreatePacket(d.payload)[..k] == r.chunk;
    if k >= HEADER_SIZE {
      LargePacketStarts(s, d);
    } else {
      ShortStartExactly(s, d.payload, k, r.pkgSize);
      assert r == Arrival(CreatePacket(d.payload)[..k], r.pkgSize);
    }
  }

  /** Every further read adds its bytes, unless the header is not complete and the uninitialised size is over
      the limit; the read that completes the packet hands it off. */
  lemma {:induction false} LargePacketGrows(s: State, r: Arrival, payload: seq<Byte>, k: nat)
    requires s.Valid() && r.Valid() && SMALL_PAYLOAD < |payload| <= MAX_PACKET_SIZE
    requires 0 < k && k + |r.chunk| <= HEADER_SIZE + |payload|
    requires s.incBuffer == CreatePacket(payload)[..k]
    requires r.chunk == CreatePacket(payload)[k..k + |r.chunk|]
    ensures var s' := OnRead(s, r);
            if k + |r.chunk| == HEADER_SIZE + |payload| then
              s'.incBuffer == [] && s'.handed == s.handed + [[]]
            else
              && s'.handed == s.handed
              && s'.incBuffer == if k + |r.chunk| < HEADER_SIZE && r.pkgSize > MAX_PACKET_SIZE then []
                                 else CreatePacket(payload)[..k + |r.chunk|]
  {
    var packet := CreatePacket(payload);
    hide CreatePacket, OnRead, CheckVector, Truncate;
    var grown := s.incBuffer + r.chunk;
    assert packet + [] == packet && grown == packet[..k + |r.chunk|];
    CheckOfCut(payload, [], k + |r.chunk|, r.pkgSize);
    SizeOf(payload);
    OnReadGrows(s, r);
  }

  lemma {:induction false} SizeOf(payload: seq<Byte>)
    requires |payload| <= MAX_PACKET_SIZE
    ensures Truncate(|payload|) == |payload|
  {
  }

  /** After `j` reads all of them have been collected and nothing has been handed off. */
  predicate Collected(s: State, d: Delivery, j: nat)
    requires s.Valid() && d.Large() && j <= |d.arrivals|
  {
    && AllValid(d.arrivals[..j])
    && Run(s, d.arrivals[..j]).incBuffer == Bytes(d.arrivals[..j])
    && Run(s, d.arrivals[..j]).handed == s.handed
  }

  /** After read `j` the header is complete, or the uninitialised size is within the limit. */
  predicate Harmless(d: Delivery, j: nat)
    requires j < |d.arrivals|
  {
    |Bytes(d.arrivals[..j + 1])| < HEADER_SIZE ==> d.arrivals[j].pkgSize <= MAX_PACKET_SIZE
  }

  /** The bytes of the first `j` reads, and those of the next. */
  lemma {:induction false} CutOfDelivery(d: Delivery, j: nat)
    requires d.Large() && 0 < j < |d.arrivals|
    ensures var packet, r, k := CreatePacket(d.payload), d.arrivals[j], |Bytes(d.arrivals[..j])|;
            && r.Valid() && r.chunk != [] && 0 < k && k + |r.chunk| <= |packet|
            && Bytes(d.arrivals[..j]) == packet[..k] && r.chunk == packet[k..k + |r.chunk|]
            && Bytes(d.arrivals[..j + 1]) == packet[..k + |r.chunk|]
            && (k + |r.chunk| == |packet| <==> j + 1 == |d.arrivals|)
  {
    var packet := CreatePacket(d.payload);
    hide CreatePacket;
    var init, r, rest := d.arrivals[..j], d.arrivals[j], d.arrivals[j + 1..];
    assert r in d.arrivals && d.arrivals[0] in d.arrivals && init[0] == d.arrivals[0];
    assert d.arrivals[..j + 1] == init + [r] && d.arrivals == (init + [r]) + rest;
    BytesOfSome(init);
    BytesSnoc(init, r);
    BytesConcat(init + [r], rest);
    if rest != [] {
      assert rest[0] in d.arrivals;
      BytesOfSome(rest);
    }
    assert packet == Bytes(init) + r.chunk + Bytes(rest);
  }

  lemma {:induction false} CollectsNext(s: State, d: Delivery, j: nat)
    requires s.Valid() && d.Large() && 0 < j && j + 1 < |d.arrivals| && Collected(s, d, j)
    ensures Collected(s, d, j + 1) <==> Harmless(d, j)
  {
    var init, r, k := d.arrivals[..j], d.arrivals[j], |Bytes(d.arrivals[..j])|;
    assert d.arrivals[..j + 1] == init + [r] && AllValid(init + [r]);
    CutOfDelivery(d, j);
    RunOneMore(s, init, r);
    hide OnRead, Run, Bytes;
    LargePacketGrows(Run(s, init), r, d.payload, k);
    hide CreatePacket;
  }

  lemma {:induction false} LastReadHandsOff(s: State, d: Delivery)
    requires s.Valid() && d.Large() && |d.arrivals| > 1 && Collected(s, d, |d.arrivals| - 1)
    ensures Run(s, d.arrivals).incBuffer == [] && Run(s, d.arrivals).handed == s.handed + [[]]
  {
    var n := |d.arrivals| - 1;
    var init, r := d.arrivals[..n], d.arrivals[n];
    assert d.arrivals == init + [r];
    CutOfDelivery(d, n);
    RunOneMore(s, init, r);
    hide OnRead, Run, Bytes;
    LargePacketGrows(Run(s, init), r, d.payload, |Bytes(init)|);
  }

  lemma {:induction false} CollectedFirst(s: State, d: Delivery)
    requires s.Valid() && s.incBuffer == [] && d.Large()
    ensures |d.arrivals| > 1
    ensures Collected(s, d, 1) <==> Starts(s, d)
  {
    LargePacketStartsExactly(s, d);
    var r := d.arrivals[0];
    assert d.arrivals[..1] == [r] && Bytes([r]) == r.chunk + [] == r.chunk;
    assert Run(s, [r]) == OnRead(s, r) by { RunOneMore(s, [], r); assert [] + [r] == [r]; }
    assert |d.arrivals| == 1 ==> d.arrivals == [r];
  }

  /** How a large packet may be cut: all of it is collected, and nothing handed off before its last read, if
      and only if the read buffer is right for its first read and the uninitialised size is within the limit
      until the header is complete. */
  lemma {:induction false} LargePacketCollectedExactly(s: State, d: Delivery)
    requires s.Valid() && s.incBuffer == [] && d.Large()
    ensures (forall j :: 0 < j < |d.arrivals| ==> Collected(s, d, j)) <==>
            Starts(s, d) && forall j :: 0 < j < |d.arrivals| ==> Harmless(d, j)
  {
    CollectedFirst(s, d);
    var n := |d.arrivals|;
    if Starts(s, d) && forall j :: 0 < j < n ==> Harmless(d, j) {
      forall j | 0 < j < n ensures Collected(s, d, j) {
        CollectedUpTo(s, d, j);
      }
    } else if forall j :: 0 < j < n ==> Collected(s, d, j) {
      assert Collected(s, d, 1);
      forall j | 0 < j < n ensures Harmless(d, j) {
        CutOfDelivery(d, j);
        if j + 1 < n {
          assert Collected(s, d, j) && Collected(s, d, j + 1);
          CollectsNext(s, d, j);
        }
      }
    }
  }

  lemma {:induction false} CollectedUpTo(s: State, d: Delivery, j: nat)
    requires s.Valid() && s.incBuffer == [] && d.Large() && Starts(s, d) && 0 < j < |d.arrivals|
    requires forall i :: 0 < i < |d.arrivals| ==> Harmless(d, i)
    ensures Collected(s, d, j)
    decreases j
  {
    hide Collected, Harmless, Starts, Delivery.Large;
    if j == 1 {
      CollectedFirst(s, d);
    } else {
      CollectedUpTo(s, d, j - 1);
      CollectsNext(s, d, j - 1);
    }
  }

  /** And then its last read hands it off, once. */
  lemma {:induction false} LargePacketIsHandedOff(s: State, d: Delivery)
    requires s.Valid() && s.incBuffer == [] && d.Large() && Starts(s, d)
    requires forall j :: 0 < j < |d.arrivals| ==> Harmless(d, j)
    ensures Run(s, d.arrivals).incBuffer == [] && Run(s, d.arrivals).handed == s.handed + [[]]
  {
    CollectedFirst(s, d);
    CollectedUpTo(s, d, |d.arrivals| - 1);
    LastReadHandsOff(s, d);
  }

  lemma {:induction false} HeaderFirstIsHarmless(d: Delivery, j: nat)
    requires d.Large() && |d.arrivals[0].chunk| >= HEADER_SIZE && j < |d.arrivals|
    ensures Harmless(d, j)
  {
    BytesPrefix(d.arrivals, 1, j + 1);
  }

  /** One packet: one hand-off, and the buffer for large packets is empty again. */
  lemma {:induction false} DeliveryIsHandedOff(s: State, d: Delivery)
    requires s.Valid() && s.incBuffer == [] && d.Valid()
    ensures Run(s, d.arrivals).incBuffer == []
    ensures Run(s, d.arrivals).handed == s.handed + [d.Handed()]
  {
    if |d.payload| <= SMALL_PAYLOAD {
      SmallPacket(s, d);
      assert d.arrivals[1..] == [];
    } else {
      forall j | 0 < j < |d.arrivals| ensures Harmless(d, j) {
        HeaderFirstIsHarmless(d, j);
      }
      LargePacketIsHandedOff(s, d);
    }
  }

  function AllReads(ds: seq<Delivery>): seq<Arrival> {
    if ds == [] then [] else ds[0].arrivals + AllReads(ds[1..])
  }

  function AllHanded(ds: seq<Delivery>): seq<seq<Byte>> {
    if ds == [] then [] else [ds[0].Handed()] + AllHanded(ds[1..])
  }

  lemma {:induction false} AllReadsAreValid(ds: seq<Delivery>)
    requires forall d :: d in ds ==> d.Valid()
    ensures AllValid(AllReads(ds))
    ensures ds != [] ==> AllValid(ds[0].arrivals)
  {
    if ds != [] {
      assert ds[0] in ds;
      AllReadsAreValid(ds[1..]);
    }
  }

  /** Whole runs: exactly one hand-off per packet, in order, whatever the packets, however large ones are
      cut up, and whatever the read buffer held. */
  lemma {:induction false} OneHandOffPerPacket(s: State, ds: seq<Delivery>)
    requires s.Valid() && s.incBuffer == [] && forall d :: d in ds ==> d.Valid()
    ensures AllValid(AllReads(ds))
    ensures Run(s, AllReads(ds)).incBuffer == []
    ensures Run(s, AllReads(ds)).handed == s.handed + AllHanded(ds)
    decreases ds
  {
    hide OnRead, Run, Bytes, AllReads, AllHanded, AllValid, State.Valid, Delivery.Valid, Delivery.Handed;
    AllReadsAreValid(ds);
    if ds == [] {
      NoDeliveries(s);
    } else {
      FirstDelivery(ds);
      var d, more := ds[0], ds[1..];
      DeliveryIsHandedOff(s, d);
      AllReadsAreValid(more);
      OneHandOffPerPacket(Run(s, d.arrivals), more);
      RunConcat(s, d.arrivals, AllReads(more));
      assert s.handed + [d.Handed()] + AllHanded(more) == s.handed + ([d.Handed()] + AllHanded(more));
    }
  }

  lemma {:induction false} NoDeliveries(s: State)
    requires s.Valid()
    ensures AllReads([]) == [] && AllValid([]) && Run(s, []) == s && s.handed + AllHanded([]) == s.handed
  {
    assert s.handed + [] == s.handed;
  }

  lemma {:induction false} FirstDelivery(ds: seq<Delivery>)
    requires ds != [] && forall d :: d in ds ==> d.Valid()
    ensures ds[0].Valid() && AllValid(ds[0].arrivals) && forall d :: d in ds[1..] ==> d.Valid()
    ensures AllReads(ds) == ds[0].arrivals + AllReads(ds[1..])
    ensures AllHanded(ds) == [ds[0].Handed()] + AllHanded(ds[1..])
  {
    assert ds[0] in ds;
  }

  /** While a large packet is on its way, the buffer is what has arrived of it and nothing is handed off. */
  lemma {:induction false} LargePacketPrefix(s: State, d: Delivery, j: nat)
    requires s.Valid() && s.incBuffer == [] && d.Valid() && |d.payload| > SMALL_PAYLOAD
    requires 0 < j < |d.arrivals|
    ensures AllValid(d.arrivals[..j])
    ensures Run(s, d.arrivals[..j]).incBuffer == Bytes(d.arrivals[..j])
    ensures Run(s, d.arrivals[..j]).handed == s.handed
  {
    forall i | 0 < i < |d.arrivals| ensures Harmless(d, i) {
      HeaderFirstIsHarmless(d, i);
    }
    CollectedUpTo(s, d, j);
  }

  lemma {:induction false} BytesOfSome(rs: seq<Arrival>)
    requires rs != [] && rs[0].chunk != []
    ensures Bytes(rs) != []
  {
  }

  lemma {:induction false} BytesConcat(rs: seq<Arrival>, more: seq<Arrival>)
    ensures Bytes(rs + more) == Bytes(rs) + Bytes(more)
  {
    if rs == [] {
      assert rs + more == more;
    } else {
      assert (rs + more)[1..] == rs[1..] + more;
      BytesConcat(rs[1..], more);
    }
  }

  lemma {:induction false} BytesPrefix(rs: seq<Arrival>, i: nat, j: nat)
    requires i <= j <= |rs|
    ensures |Bytes(rs[..i])| <= |Bytes(rs[..j])|
    ensures i == 1 ==> |Bytes(rs[..i])| == |rs[0].chunk|
  {
    assert rs[..j] == rs[..i] + rs[i..j];
    BytesConcat(rs[..i], rs[i..j]);
    if i == 1 {
      assert rs[..1][1..] == [];
    }
  }

  /** The payload reaches the handler manager exactly when its packet fits the read buffer. */
  lemma {:induction false} PayloadArrivesExactly(s: State, d: Delivery)
    requires s.Valid() && s.incBuffer == [] && d.Valid()
    ensures Run(s, d.arrivals).handed == s.handed + [d.payload] <==> |d.payload| <= 1018
  {
    DeliveryIsHandedOff(s, d);
    assert (s.handed + [d.Handed()])[|s.handed|] == d.Handed();
    assert (s.handed + [d.payload])[|s.handed|] == d.payload;
  }

  /** Why a small packet must come in one read: as soon as its header is there it is taken for complete, and
      what has not arrived is made up from the stale bytes. It is right exactly when those are. */
  lemma {:induction false} PartOfSmallPacketExactly(s: State, payload: seq<Byte>, k: nat, pkgSize: Word)
    requires s.Valid() && s.incBuffer == [] && |payload| <= SMALL_PAYLOAD
    requires HEADER_SIZE <= k <= HEADER_SIZE + |payload|
    ensures var s' := OnRead(s, Arrival(CreatePacket(payload)[..k], pkgSize));
            var stale := s.buffer[k..HEADER_SIZE + |payload|];
            && s'.incBuffer == []
            && s'.handed == s.handed + [payload[..k - HEADER_SIZE] + stale]
            && (s'.handed == s.handed + [payload] <==> stale == payload[k - HEADER_SIZE..])
  {
    var n := HEADER_SIZE + |payload|;
    var seen := payload[..k - HEADER_SIZE] + s.buffer[k..n];
    var packet := CreatePacket(payload);
    assert packet[..k] + s.buffer[k..] == (CreatePacket(seen) + s.buffer[n..])[..BUFFER_SIZE];
    ArrayRecoversPacket(seen, s.buffer[n..], BUFFER_SIZE, pkgSize);
    assert (s.handed + [seen])[|s.handed|] == seen && (s.handed + [payload])[|s.handed|] == payload;
    assert payload == payload[..k - HEADER_SIZE] + payload[k - HEADER_SIZE..];
    assert seen[k - HEADER_SIZE..] == s.buffer[k..n];
  }

  /** Any part of a small packet that is still in the read buffer makes the buffer look complete, and the
      packet is handed off again. */
  lemma {:induction false} PartOfSmallPacketIsReplayed(s: State, d: Delivery, k: nat, pkgSize: Word)
    requires s.Valid() && s.incBuffer == [] && d.Valid() && |d.payload| <= SMALL_PAYLOAD
    requires k <= HEADER_SIZE + |d.payload|
    ensures var again := Arrival(CreatePacket(d.payload)[..k], pkgSize);
            OnRead(OnRead(s, d.arrivals[0]), again).handed == s.handed + [d.payload] + [d.payload]
  {
    SmallPacket(s, d);
    var packet, s1 := CreatePacket(d.payload), OnRead(s, d.arrivals[0]);
    assert Bytes(d.arrivals[1..]) == [] && d.arrivals[0].chunk == packet;
    var stale := s.buffer[|packet|..];
    assert s1.buffer == packet + stale;
    assert packet[..k] + s1.buffer[k..] == s1.buffer;
    assert s1.buffer == (packet + stale)[..BUFFER_SIZE];
    ArrayRecoversPacket(d.payload, stale, BUFFER_SIZE, pkgSize);
  }

  /** Why reads must not cross packet boundaries: what comes behind a packet in the same read is dropped. */
  lemma {:induction false} BytesBehindPacketAreDropped(s: State, payload: seq<Byte>, x: seq<Byte>, pkgSize: Word)
    requires s.Valid() && s.incBuffer == [] && |payload| + HEADER_SIZE + |x| <= BUFFER_SIZE
    ensures var s' := OnRead(s, Arrival(CreatePacket(payload) + x, pkgSize));
            s'.incBuffer == [] && s'.handed == s.handed + [payload]
  {
    var chunk := CreatePacket(payload) + x;
    var stale := x + s.buffer[|chunk|..];
    assert chunk + s.buffer[|chunk|..] == (CreatePacket(payload) + stale)[..BUFFER_SIZE];
    ArrayRecoversPacket(payload, stale, BUFFER_SIZE, pkgSize);
  }

  /** The same for the read that completes a large packet. */
  lemma {:induction false} BytesBehindLargePacketAreDropped(s: State, r: Arrival, payload: seq<Byte>, x: seq<Byte>)
    requires s.Valid() && r.Valid() && s.incBuffer != [] && SMALL_PAYLOAD < |payload| <= MAX_PACKET_SIZE
    requires s.incBuffer + r.chunk == CreatePacket(payload) + x
    ensures OnRead(s, r).incBuffer == [] && OnRead(s, r).handed == s.handed + [[]]
  {
    var all := CreatePacket(payload) + x;
    assert all[..|all|] == all;
    CheckOfCut(payload, x, |all|, r.pkgSize);
  }

  /** Every read, in numbers: what is handed off, and what is collected. */
  lemma {:induction false} OnReadInNumbers(s: State, r: Arrival)
    requires s.Valid() && r.Valid()
    ensures var s', b, inc := OnRead(s, r), r.chunk + s.buffer[|r.chunk|..], s.incBuffer + r.chunk;
            && s'.buffer == b && |b| == 1024
            && if s.incBuffer == [] then
                 var size := BigEndian(b[2], b[3], b[4], b[5]);
                 if b[0] != 78 || b[1] != 70 then s'.incBuffer == [] && s'.handed == s.handed
                 else if size <= 1018 then s'.incBuffer == [] && s'.handed == s.handed + [b[6..6 + size]]
                 else s'.incBuffer == r.chunk && s'.handed == s.handed
               else if |inc| < 6 || inc[0] != 78 || inc[1] != 70 then
                 s'.handed == s.handed && s'.incBuffer == if r.pkgSize > 0x3FFF_FFFF then [] else inc
               else
                 var size := BigEndian(inc[2], inc[3], inc[4], inc[5]);
                 if size > 0x3FFF_FFFF then s'.incBuffer == [] && s'.handed == s.handed
                 else if size + 6 <= |inc| then s'.incBuffer == [] && s'.handed == s.handed + [[]]
                 else s'.incBuffer == inc && s'.handed == s.handed
  {
    hide CheckVector, CheckArray, IsPacketStart, BigEndian, FetchArray, FetchVector;
    if s.incBuffer == [] {
      ArrayCheckInNumbers(r.chunk + s.buffer[|r.chunk|..], r.pkgSize);
    } else {
      VectorCheckInNumbers(s.incBuffer + r.chunk, r.pkgSize);
      OnReadGrows(s, r);
    }
  }

  /** Where the byte at `i` of the read buffer comes from, after any run: the last read that was long enough,
      or what was there before. */
  function LastAt(s: State, rs: seq<Arrival>, i: nat): Byte
    requires s.Valid() && i < BUFFER_SIZE
  {
    if rs == [] then s.buffer[i]
    else
      var n := |rs| - 1;
      if i < |rs[n].chunk| then rs[n].chunk[i] else LastAt(s, rs[..n], i)
  }

  lemma {:induction false} BufferKeepsStaleBytes(s: State, rs: seq<Arrival>, i: nat)
    requires s.Valid() && AllValid(rs) && i < BUFFER_SIZE
    ensures Run(s, rs).buffer[i] == LastAt(s, rs, i)
    decreases |rs|
  {
    if rs != [] {
      var n := |rs| - 1;
      var init, r := rs[..n], rs[n];
      assert rs == init + [r] && AllValid(init) && r in rs;
      BufferKeepsStaleBytes(s, init, i);
      RunOneMore(s, init, r);
      OnReadInNumbers(Run(s, init), r);
      hide OnRead, Run;
    }
  }

  /** The session object: the buffers it keeps between callbacks. */
  class Session {
    const data: array<Byte>
    var incBuffer: seq<Byte>
    var handed: seq<seq<Byte>>

    ghost predicate Valid() {
      data.Length == BUFFER_SIZE
    }

    ghost function View(): (s: State)
      requires Valid()
      reads this, data
      ensures s.Valid()
    {
      State(incBuffer, data[..], handed)
    }

    constructor ()
      ensures Valid() && fresh(data) && incBuffer == [] && handed == []
    {
      data := new Byte[BUFFER_SIZE];
      incBuffer, handed := [], [];
    }

    /** `async_read_some` fills the front of the buffer and leaves the rest as it was. */
    method Receive(chunk: seq<Byte>)
      requires Valid() && |chunk| <= BUFFER_SIZE
      modifies data
      ensures data[..] == chunk + old(data[..])[|chunk|..]
    {
      for i := 0 to |chunk|
        invariant forall k :: 0 <= k < BUFFER_SIZE ==> data[k] == if k < i then chunk[k] else old(data[k])
      {
        data[i] := chunk[i];
      }
    }

    /** `processRead`. */
    method ProcessRead(r: Arrival)
      requires Valid() && r.Valid()
      modifies this, data
      ensures View() == OnRead(old(View()), r)
    {
      Receive(r.chunk);
      if incBuffer == [] {
        var check := CheckArray(data[..], r.pkgSize);
        if check.complete {
          handed := handed + [FetchArray(data[..], check.pkgSize)];
        } else if IsPacketStart(data[..]) {
          incBuffer := incBuffer + data[..|r.chunk|];
        }
      } else {
        incBuffer := incBuffer + data[..|r.chunk|];
        var check := CheckVector(incBuffer, r.pkgSize);
        if check.complete {
          handed := handed + [FetchVector(incBuffer, check.pkgSize)];
          incBuffer := [];
        } else if check.pkgSize > MAX_PACKET_SIZE {
          incBuffer := [];
        }
      }
    }
  }
}
