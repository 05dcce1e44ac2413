/** The write side of a session (lib/netbase.cpp): `sendData` and `handleWrite`. The two buffers are
    swapped and never cleared, so bytes that were sent go back to the output buffer and are sent again. */
module SessionWrites {
  import opened Results
  import opened CoreProto

  /** A write that was started: bytes of an earlier write once more, then bytes never sent before. */
  datatype Write = Write(repeated: seq<Byte>, first: seq<Byte>) {
    function Content(): seq<Byte> {
      repeated + first
    }
  }

  /** The two buffers, the operation in flight, and the history: the writes started, the blocks passed to
      `sendData`, and how many bytes at the front of the output buffer have been sent before. */
  datatype State = State(outBuffer: seq<Byte>, processing: seq<Byte>, inFlight: Option<seq<Byte>>,
                         writes: seq<Write>, blocks: seq<seq<Byte>>, resent: nat) {
    /** `outBufferProcessing_` holds exactly what is in flight. */
    predicate Valid() {
      && resent <= |outBuffer|
      && inFlight == (if processing == [] then None else Some(processing))
    }

    function Fresh(): seq<Byte>
      requires resent <= |outBuffer|
    {
      outBuffer[resent..]
    }
  }

  const START := State([], [], None, [], [], 0)

  datatype Event = Send(block: seq<Byte>) | Done

  /** A completion can only come for a write that is in flight. */
  predicate Enabled(s: State, e: Event) {
    e.Done? ==> s.inFlight.Some?
  }

  /** `handleWrite` without an error: swap, and start a write if there is anything to send. */
  function HandleWrite(s: State): State
    requires s.resent <= |s.outBuffer|
  {
    var next := s.(outBuffer := s.processing, processing := s.outBuffer, resent := |s.processing|);
    if s.outBuffer == [] then next
    else next.(inFlight := Some(s.outBuffer),
               writes := s.writes + [Write(s.outBuffer[..s.resent], s.outBuffer[s.resent..])])
  }

  function Step(s: State, e: Event): State
    requires s.Valid() && Enabled(s, e)
  {
    match e
    case Send(block) =>
      var queued := s.(outBuffer := s.outBuffer + block, blocks := s.blocks + [block]);
      if s.processing == [] then HandleWrite(queued) else queued
    case Done =>
      HandleWrite(s.(inFlight := None))
  }

  /** A write is only ever started when none is in flight, and one in flight is left alone until it is
      done: writes never overlap and their bytes never change under them. */
  lemma {:induction false} WritesNeverOverlap(s: State, e: Event)
    requires s.Valid() && Enabled(s, e)
    ensures Step(s, e).Valid()
    ensures s.inFlight.Some? && e.Send? ==> Step(s, e).inFlight == s.inFlight && Step(s, e).writes == s.writes
    ensures |s.writes| <= |Step(s, e).writes| <= |s.writes| + 1 && s.writes <= Step(s, e).writes
    ensures |Step(s, e).writes| == |s.writes| + 1 ==>
              Step(s, e).inFlight == Some(Step(s, e).writes[|s.writes|].Content())
  {
    if e.Send? && s.processing == [] {
      var out := s.outBuffer + e.block;
      assert out[..s.resent] + out[s.resent..] == out;
    } else if e.Done? {
      assert s.outBuffer[..s.resent] + s.outBuffer[s.resent..] == s.outBuffer;
    }
  }

  /** A completion without a write in flight does not happen; it stands for no event at all. */
  function Next(s: State, e: Event): (s': State)
    requires s.Valid()
    ensures s'.Valid()
  {
    if Enabled(s, e) then WritesNeverOverlap(s, e); Step(s, e) else s
  }

  function Run(s: State, events: seq<Event>): (s': State)
    requires s.Valid()
    ensures s'.Valid()
    decreases events
  {
    if events == [] then s else Run(Next(s, events[0]), events[1..])
  }

  /** The parts of the writes that were sent for the first time. */
  function FirstBytes(writes: seq<Write>): seq<Byte> {
    if writes == [] then [] else FirstBytes(writes[..|writes| - 1]) + writes[|writes| - 1].first
  }

  /** Bytes that were sent before: nothing, or all that some earlier write carried. */
  predicate Earlier(bytes: seq<Byte>, writes: seq<Write>) {
    bytes == [] || exists i :: 0 <= i < |writes| && writes[i].Content() == bytes
  }

  lemma {:induction false} EarlierStays(bytes: seq<Byte>, writes: seq<Write>, w: Write)
    requires Earlier(bytes, writes)
    ensures Earlier(bytes, writes + [w])
  {
    if bytes != [] {
      var i :| 0 <= i < |writes| && writes[i].Content() == bytes;
      assert (writes + [w])[i].Content() == bytes;
    }
  }

  /** All that a write repeats was carried by a write before it. */
  predicate OnlyRepeatsEarlier(writes: seq<Write>) {
    forall i :: 0 <= i < |writes| ==> Earlier(writes[i].repeated, writes[..i])
  }

  lemma {:induction false} HistoryGrows(writes: seq<Write>, w: Write)
    requires OnlyRepeatsEarlier(writes) && Earlier(w.repeated, writes)
    ensures OnlyRepeatsEarlier(writes + [w])
    ensures Earlier(w.Content(), writes + [w])
    ensures FirstBytes(writes + [w]) == FirstBytes(writes) + w.first
  {
    var grown := writes + [w];
    assert grown[..|writes|] == writes && grown[|writes|].Content() == w.Content();
    forall i | 0 <= i < |grown| ensures Earlier(grown[i].repeated, grown[..i]) {
      assert i < |writes| ==> grown[..i] == writes[..i];
    }
  }

  /** Conservation: the first transmissions so far and the bytes that wait for theirs are the blocks, in
      call order, each byte once; and all else that a write carries was carried by an earlier write. */
  predicate Inv(s: State) {
    && s.Valid()
    && FirstBytes(s.writes) + s.Fresh() == Flat(s.blocks)
    && Earlier(s.outBuffer[..s.resent], s.writes)
    && Earlier(s.processing, s.writes)
    && OnlyRepeatsEarlier(s.writes)
  }

  lemma {:induction false} HandleWriteKeepsInv(s: State)
    requires s.resent <= |s.outBuffer| && s.inFlight == None
    requires FirstBytes(s.writes) + s.Fresh() == Flat(s.blocks)
    requires Earlier(s.outBuffer[..s.resent], s.writes) && Earlier(s.processing, s.writes)
    requires OnlyRepeatsEarlier(s.writes)
    ensures Inv(HandleWrite(s))
  {
    hide Earlier, FirstBytes, OnlyRepeatsEarlier, Flat;
    var s' := HandleWrite(s);
    assert s'.outBuffer[..s'.resent] == s.processing && s'.Fresh() == [];
    assert FirstBytes(s'.writes) + [] == FirstBytes(s'.writes);
    if s.outBuffer == [] {
      assert s.Fresh() == [] && s.outBuffer[..s.resent] == [];
    } else {
      var w := Write(s.outBuffer[..s.resent], s.Fresh());
      assert w.Content() == s.outBuffer;
      EarlierStays(s.processing, s.writes, w);
      HistoryGrows(s.writes, w);
    }
  }

  lemma {:induction false} StepKeepsInv(s: State, e: Event)
    requires Inv(s)
    ensures Inv(Next(s, e))
  {
    if e.Send? {
      var queued := s.(outBuffer := s.outBuffer + e.block, blocks := s.blocks + [e.block]);
      assert queued.outBuffer[..s.resent] == s.outBuffer[..s.resent] && queued.Fresh() == s.Fresh() + e.block;
      FlatSnoc(s.blocks, e.block);
      if s.processing == [] {
        HandleWriteKeepsInv(queued);
      }
    } else if Enabled(s, e) {
      HandleWriteKeepsInv(s.(inFlight := None));
    }
  }

  /** Every run, from the first event on. */
  lemma {:induction false} RunKeepsInv(s: State, events: seq<Event>)
    requires Inv(s)
    ensures Inv(Run(s, events))
    decreases events
  {
    if events != [] {
      StepKeepsInv(s, events[0]);
      RunKeepsInv(Next(s, events[0]), events[1..]);
    }
  }

  /** The blocks passed to `sendData` during a run. */
  function Blocks(events: seq<Event>): seq<seq<Byte>> {
    if events == [] then []
    else (if events[0].Send? then [events[0].block] else []) + Blocks(events[1..])
  }

  lemma {:induction false} RunRecordsBlocks(s: State, events: seq<Event>)
    requires s.Valid()
    ensures Run(s, events).blocks == s.blocks + Blocks(events)
    decreases events
  {
    if events != [] {
      var s1 := Next(s, events[0]);
      RunRecordsBlocks(s1, events[1..]);
      assert s1.blocks == s.blocks + (if events[0].Send? then [events[0].block] else []);
    }
  }

  /** Every run: stripped of what an earlier write carried, the writes started so far, and then the bytes
      that still wait for theirs, are the blocks in call order, each byte once. */
  lemma {:induction false} FirstTransmissionsAreTheBlocksInOrder(events: seq<Event>)
    ensures var s := Run(START, events);
            && FirstBytes(s.writes) + s.Fresh() == Flat(Blocks(events))
            && OnlyRepeatsEarlier(s.writes)
  {
    assert FirstBytes([]) + START.Fresh() == [];
    RunKeepsInv(START, events);
    RunRecordsBlocks(START, events);
    assert [] + Blocks(events) == Blocks(events);
  }

  /** Sends while a write is in flight pile up and start nothing. */
  lemma {:induction false} SendsPileUp(s: State, blocks: seq<seq<Byte>>)
    requires s.Valid() && s.inFlight.Some?
    ensures var s' := Run(s, Sends(blocks));
            && s'.outBuffer == s.outBuffer + Flat(blocks) && s'.resent == s.resent
            && s'.processing == s.processing && s'.inFlight == s.inFlight && s'.writes == s.writes
    decreases blocks
  {
    if blocks == [] {
      assert s.outBuffer + [] == s.outBuffer;
    } else {
      var s1 := Next(s, Send(blocks[0]));
      assert Sends(blocks)[1..] == Sends(blocks[1..]);
      SendsPileUp(s1, blocks[1..]);
      assert s.outBuffer + blocks[0] + Flat(blocks[1..]) == s.outBuffer + (blocks[0] + Flat(blocks[1..]));
    }
  }

  function Sends(blocks: seq<seq<Byte>>): seq<Event> {
    if blocks == [] then [] else [Send(blocks[0])] + Sends(blocks[1..])
  }

  /** No block waits longer than for one completion: an idle session starts a write that ends with it at
      once; a busy one has it in the write that the next completion starts, together with whatever else
      was sent in the meantime, in call order. */
  lemma {:induction false} BlockGoesOutPromptly(s: State, block: seq<Byte>, later: seq<seq<Byte>>)
    requires s.Valid() && block != []
    ensures s.inFlight.None? ==>
              Next(s, Send(block)).writes == s.writes + [Write(s.outBuffer[..s.resent], s.Fresh() + block)]
    ensures s.inFlight.Some? ==>
              Next(Run(Next(s, Send(block)), Sends(later)), Done).writes ==
              s.writes + [Write(s.outBuffer[..s.resent], s.Fresh() + block + Flat(later))]
  {
    var out := s.outBuffer + block;
    assert out[..s.resent] == s.outBuffer[..s.resent] && out[s.resent..] == s.Fresh() + block;
    if s.inFlight.Some? {
      var s1 := Next(s, Send(block));
      SendsPileUp(s1, later);
      var all := out + Flat(later);
      assert all[..s.resent] == s.outBuffer[..s.resent] && all[s.resent..] == s.Fresh() + block + Flat(later);
    }
  }

  /** Because nothing is ever cleared: once both buffers hold bytes they do so for good, and the session
      never stops writing. */
  lemma {:induction false} OnceBusyAlwaysBusy(s: State, events: seq<Event>)
    requires s.Valid() && s.outBuffer != [] && s.processing != []
    ensures Run(s, events).inFlight.Some?
    ensures Run(s, events).outBuffer != [] && Run(s, events).processing != []
    decreases events
  {
    if events != [] {
      OnceBusyAlwaysBusy(Next(s, events[0]), events[1..]);
    }
  }

  /** A completion leaves the session idle exactly when the output buffer is empty, and even then the bytes
      just sent wait in front of the next block. */
  lemma {:induction false} IdleExactlyWhenNothingWaits(s: State)
    requires s.Valid() && s.inFlight.Some?
    ensures Next(s, Done).inFlight == None <==> s.outBuffer == []
    ensures Next(s, Done).outBuffer == s.inFlight.value && Next(s, Done).Fresh() == []
  {
  }

  lemma {:induction false} RunConcat(s: State, events: seq<Event>, more: seq<Event>)
    requires s.Valid()
    ensures Run(s, events + more) == Run(Run(s, events), more)
    decreases events
  {
    if events == [] {
      assert events + more == more;
    } else {
      assert (events + more)[1..] == events[1..] + more;
      RunConcat(Next(s, events[0]), events[1..], more);
    }
  }

  lemma {:induction false} RunOneMore(s: State, events: seq<Event>, e: Event)
    requires s.Valid()
    ensures Run(s, events + [e]) == Next(Run(s, events), e)
  {
    RunConcat(s, events, [e]);
    hide Next;
    assert [e][1..] == [];
  }

  /** Both buffers hold bytes: each completion finds something to send. */
  predicate Busy(s: State) {
    s.outBuffer != [] && s.processing != []
  }

  /** The run sends a non-empty block as its event `j`, while a write is in flight. */
  predicate SendsIntoFlight(events: seq<Event>, j: nat) {
    && j < |events|
    && events[j].Send? && events[j].block != []
    && Run(START, events[..j]).inFlight.Some?
  }

  /** One event makes the session busy exactly if it is such a send, or if the session was busy before. */
  lemma {:induction false} BusyStep(s: State, e: Event)
    requires s.Valid()
    ensures Busy(Next(s, e)) <==> Busy(s) || (e.Send? && e.block != [] && s.inFlight.Some?)
  {
  }

  /** A run makes the session busy exactly if some non-empty block is sent while a write is in flight. */
  lemma {:induction false} BusyExactly(events: seq<Event>)
    ensures Busy(Run(START, events)) <==> exists j: nat :: SendsIntoFlight(events, j)
    decreases |events|
  {
    if events != [] {
      var n := |events| - 1;
      var init, e := events[..n], events[n];
      assert events == init + [e];
      BusyExactly(init);
      RunOneMore(START, init, e);
      BusyStep(Run(START, init), e);
      hide Run, Next, Busy;
      forall j: nat | j < n ensures SendsIntoFlight(events, j) <==> SendsIntoFlight(init, j) {
        assert events[..j] == init[..j];
      }
      assert SendsIntoFlight(events, n) <==> e.Send? && e.block != [] && Run(START, init).inFlight.Some?;
    }
  }

  function Dones(n: nat): seq<Event> {
    if n == 0 then [] else [Done] + Dones(n - 1)
  }

  /** Completions alone bring a session to rest exactly when it is not busy. */
  lemma {:induction false} RestsUnlessBusy(s: State)
    requires s.Valid()
    ensures (exists n: nat :: Run(s, Dones(n)).inFlight.None?) <==> !Busy(s)
  {
    if Busy(s) {
      forall n: nat ensures Run(s, Dones(n)).inFlight.Some? {
        OnceBusyAlwaysBusy(s, Dones(n));
      }
    } else if s.inFlight.None? {
      assert Run(s, Dones(0)).inFlight.None?;
    } else {
      var s1 := Next(s, Done);
      assert s1.inFlight.None?;
      assert Dones(1) == [Done] && Run(s, [Done]) == Run(s1, []) == s1;
    }
  }

  /** Whether all writes of a run ever come to an end, if nothing more is sent: exactly if no non-empty block
      was sent while a write was in flight. */
  lemma {:induction false} ComesToRestExactly(events: seq<Event>)
    ensures (exists n: nat :: Run(START, events + Dones(n)).inFlight.None?) <==>
            !exists j: nat :: SendsIntoFlight(events, j)
  {
    BusyExactly(events);
    RestsUnlessBusy(Run(START, events));
    forall n: nat ensures Run(START, events + Dones(n)) == Run(Run(START, events), Dones(n)) {
      RunConcat(START, events, Dones(n));
    }
  }

  /** How many writes were completed. */
  function Completions(events: seq<Event>): nat {
    if events == [] then 0
    else
      var n := |events| - 1;
      Completions(events[..n]) + if events[n].Done? && Run(START, events[..n]).inFlight.Some? then 1 else 0
  }

  predicate NothingRepeated(writes: seq<Write>) {
    forall i :: 0 <= i < |writes| ==> writes[i].repeated == []
  }

  /** A send, be it of an empty block, that finds the session idle after a completion. */
  predicate SendsIntoIdle(events: seq<Event>, j: nat) {
    && j < |events| && events[j].Send?
    && Completions(events[..j]) > 0 && Run(START, events[..j]).inFlight.None?
  }

  /** Nothing gets a second chance to be sent: at most one write was completed, and nothing was sent to a
      session that was idle after it. */
  ghost predicate SingleExchange(events: seq<Event>) {
    Completions(events) <= 1 && !exists j: nat :: SendsIntoIdle(events, j)
  }

  lemma {:induction false} SingleExchangeSnoc(events: seq<Event>, e: Event)
    ensures var s := Run(START, events);
            SingleExchange(events + [e]) <==>
            && SingleExchange(events)
            && (Completions(events) > 0 ==> if e.Done? then s.inFlight.None? else s.inFlight.Some?)
  {
    hide Run;
    var all, n := events + [e], |events|;
    assert all[..n] == events;
    forall j: nat | j < n ensures SendsIntoIdle(all, j) <==> SendsIntoIdle(events, j) {
      assert all[..j] == events[..j];
    }
    assert SendsIntoIdle(all, n) <==> e.Send? && Completions(events) > 0 && Run(START, events).inFlight.None?;
  }

  /** What is in the buffers before the first completion, and what after it. */
  predicate ExchangeInv(s: State, completions: nat) {
    if completions == 0 then s.resent == 0 && (s.processing == [] ==> s.outBuffer == [])
    else s.resent > 0
  }

  /** One event in such a run: it starts no write that repeats anything, or it ends the single exchange and
      starts one that does. */
  lemma {:induction false} ExchangeStep(s: State, e: Event, completions: nat)
    requires s.Valid() && ExchangeInv(s, completions) && NothingRepeated(s.writes)
    ensures var s' := Next(s, e);
            if completions > 0 && (if e.Done? then s.inFlight.Some? else s.inFlight.None?) then
              !NothingRepeated(s'.writes)
            else
              && NothingRepeated(s'.writes)
              && ExchangeInv(s', if e.Done? && s.inFlight.Some? then completions + 1 else completions)
  {
    var s' := Next(s, e);
    if s'.writes != s.writes {
      var out := if e.Send? then s.outBuffer + e.block else s.outBuffer;
      assert s'.writes == s.writes + [Write(out[..s.resent], out[s.resent..])];
      assert s'.writes[|s.writes|].repeated == out[..s.resent];
    }
  }

  lemma {:induction false} RepetitionStays(s: State, e: Event)
    requires s.Valid() && !NothingRepeated(s.writes)
    ensures !NothingRepeated(Next(s, e).writes)
  {
    if Enabled(s, e) {
      WritesNeverOverlap(s, e);
      hide Step;
      var i :| 0 <= i < |s.writes| && s.writes[i].repeated != [];
      assert Step(s, e).writes[i] == s.writes[i];
    }
  }

  /** Each byte goes out once, in a run from the start, exactly if it is a single exchange. */
  lemma {:induction false} RepeatsExactly(events: seq<Event>)
    ensures NothingRepeated(Run(START, events).writes) <==> SingleExchange(events)
    ensures SingleExchange(events) ==> ExchangeInv(Run(START, events), Completions(events))
    decreases |events|
  {
    if events != [] {
      var n := |events| - 1;
      var init, e := events[..n], events[n];
      assert events == init + [e];
      var s := Run(START, init);
      RepeatsExactly(init);
      RunOneMore(START, init, e);
      SingleExchangeSnoc(init, e);
      assert Completions(events) == Completions(init) + if e.Done? && s.inFlight.Some? then 1 else 0;
      hide Run, Next, SingleExchange, ExchangeInv, NothingRepeated, Completions;
      if SingleExchange(init) {
        ExchangeStep(s, e, Completions(init));
      } else {
        RepetitionStays(s, e);
      }
    }
  }

  /** A byte that is sent twice: one block, another while the first is on its way, and two completions. */
  lemma {:induction false} FirstBlockIsRepeated(x: Byte, y: Byte)
    ensures Run(START, [Send([x]), Send([y]), Done, Done]).writes ==
            [Write([], [x]), Write([], [y]), Write([x], [])]
  {
    var s1 := State([], [x], Some([x]), [Write([], [x])], [[x]], 0);
    var s2 := s1.(outBuffer := [y], blocks := [[x], [y]]);
    var s3 := State([x], [y], Some([y]), [Write([], [x]), Write([], [y])], [[x], [y]], 1);
    var s4 := State([y], [x], Some([x]), [Write([], [x]), Write([], [y]), Write([x], [])], [[x], [y]], 1);
    assert [] + [x] == [x] && [x][..0] == [] && [x][0..] == [x] && [x][..1] == [x] && [x][1..] == [];
    assert [] + [y] == [y] && [y][..0] == [] && [y][0..] == [y];
    assert Next(START, Send([x])) == s1;
    assert Next(s1, Send([y])) == s2;
    assert Next(s2, Done) == s3;
    assert Next(s3, Done) == s4;
    hide Next;
    assert Run(s3, [Done]) == Run(s4, []) == s4;
    assert Run(s2, [Done, Done]) == Run(s3, [Done]);
    assert Run(s1, [Send([y]), Done, Done]) == Run(s2, [Done, Done]);
    assert [Send([x]), Send([y]), Done, Done][1..] == [Send([y]), Done, Done];
  }

  /** The two buffers as the object keeps them; `started` are the writes handed to the socket. */
  class Session {
    var outBuffer: seq<Byte>
    var outBufferProcessing: seq<Byte>
    var started: seq<seq<Byte>>

    /** The buffers and the contents of the writes, without the history that the model adds. */
    ghost predicate Shows(s: State)
      reads this
    {
      && outBuffer == s.outBuffer
      && outBufferProcessing == s.processing
      && started == Contents(s.writes)
    }

    constructor ()
      ensures Shows(START)
    {
      outBuffer, outBufferProcessing, started := [], [], [];
    }

    method SendData(data: seq<Byte>, ghost s: State)
      requires s.Valid() && Shows(s)
      modifies this
      ensures Shows(Next(s, Send(data)))
    {
      outBuffer := outBuffer + data;
      if outBufferProcessing == [] {
        OnWritten(s.(outBuffer := outBuffer, blocks := s.blocks + [data]));
      }
    }

    /** `handleWrite`, as the completion of a write. */
    method WriteDone(ghost s: State)
      requires s.Valid() && Shows(s) && s.inFlight.Some?
      modifies this
      ensures Shows(Next(s, Done))
    {
      OnWritten(s.(inFlight := None));
    }

    method OnWritten(ghost s: State)
      requires s.resent <= |s.outBuffer| && Shows(s)
      modifies this
      ensures Shows(HandleWrite(s))
    {
      outBuffer, outBufferProcessing := outBufferProcessing, outBuffer;
      if outBufferProcessing != [] {
        ContentsSnoc(s.writes, Write(s.outBuffer[..s.resent], s.outBuffer[s.resent..]));
        assert s.outBuffer[..s.resent] + s.outBuffer[s.resent..] == s.outBuffer;
        started := started + [outBufferProcessing];
      }
    }
  }

  function Contents(writes: seq<Write>): seq<seq<Byte>> {
    if writes == [] then [] else [writes[0].Content()] + Contents(writes[1..])
  }

  lemma {:induction false} ContentsSnoc(writes: seq<Write>, w: Write)
    ensures Contents(writes + [w]) == Contents(writes) + [w.Content()]
  {
    if writes == [] {
      assert (writes + [w])[1..] == [];
    } else {
      assert (writes + [w])[1..] == writes[1..] + [w];
      ContentsSnoc(writes[1..], w);
    }
  }
}
