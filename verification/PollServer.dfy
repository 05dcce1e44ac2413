/** The receiving side of a poll-server connection (lib/server.cpp). What makes a block of data complete
    is up to the server's user; here it is any pure predicate. */
module PollServer {
  import opened CoreProto

  type Completeness = seq<Byte> -> bool

  datatype State = State(receivedData: seq<Byte>, delivered: seq<seq<Byte>>)

  const START := State([], [])

  /** `receiveDataFromSocket`; an empty chunk is a closed connection, and gives false. */
  function Receive(complete: Completeness, s: State, chunk: seq<Byte>): (State, bool) {
    if chunk == [] then (s, false)
    else if s.receivedData == [] && complete(chunk) then (s.(delivered := s.delivered + [chunk]), true)
    else
      var all := s.receivedData + chunk;
      if complete(all) then (State([], s.delivered + [all]), true) else (s.(receivedData := all), true)
  }

  function Run(complete: Completeness, s: State, chunks: seq<seq<Byte>>): State
    decreases chunks
  {
    if chunks == [] then s else Run(complete, Receive(complete, s, chunks[0]).0, chunks[1..])
  }

  /** Delivered blocks are complete, and what is kept back is not. */
  predicate Inv(complete: Completeness, s: State) {
    && (forall i :: 0 <= i < |s.delivered| ==> complete(s.delivered[i]) && s.delivered[i] != [])
    && (s.receivedData != [] ==> !complete(s.receivedData))
  }

  lemma {:induction false} ReceiveConserves(complete: Completeness, s: State, chunk: seq<Byte>)
    requires Inv(complete, s)
    ensures var s' := Receive(complete, s, chunk).0;
            && Inv(complete, s')
            && Flat(s'.delivered) + s'.receivedData == Flat(s.delivered) + s.receivedData + chunk
            && s.delivered <= s'.delivered
  {
    var all := s.receivedData + chunk;
    FlatSnoc(s.delivered, all);
    assert s.receivedData == [] ==> all == chunk;
    assert Flat(s.delivered) + all == Flat(s.delivered) + s.receivedData + chunk;
  }

  /** Over every run no byte is lost, repeated or reordered, blocks are delivered only when they are
      complete, and a block is never held back once it is. */
  lemma {:induction false} RunConserves(complete: Completeness, s: State, chunks: seq<seq<Byte>>)
    requires Inv(complete, s)
    ensures var s' := Run(complete, s, chunks);
            && Inv(complete, s')
            && Flat(s'.delivered) + s'.receivedData == Flat(s.delivered) + s.receivedData + Flat(chunks)
            && s.delivered <= s'.delivered
    decreases chunks
  {
    if chunks == [] {
      assert Flat(s.delivered) + s.receivedData + [] == Flat(s.delivered) + s.receivedData;
    } else {
      var s1 := Receive(complete, s, chunks[0]).0;
      ReceiveConserves(complete, s, chunks[0]);
      RunConserves(complete, s1, chunks[1..]);
      var before := Flat(s.delivered) + s.receivedData;
      assert before + chunks[0] + Flat(chunks[1..]) == before + (chunks[0] + Flat(chunks[1..]));
    }
  }

  /** The connection is open after every chunk of a run. */
  predicate StaysOpen(complete: Completeness, s: State, chunks: seq<seq<Byte>>)
    decreases chunks
  {
    chunks == [] ||
    (Receive(complete, s, chunks[0]).1 && StaysOpen(complete, Receive(complete, s, chunks[0]).0, chunks[1..]))
  }

  /** Only an empty chunk closes a connection. */
  lemma {:induction false} StaysOpenExactly(complete: Completeness, s: State, chunks: seq<seq<Byte>>)
    ensures StaysOpen(complete, s, chunks) <==> [] !in chunks
    decreases chunks
  {
    if chunks != [] {
      StaysOpenExactly(complete, Receive(complete, s, chunks[0]).0, chunks[1..]);
      assert chunks == [chunks[0]] + chunks[1..];
    }
  }

  class ClientConnection {
    const complete: Completeness
    var receivedData: seq<Byte>
    var delivered: seq<seq<Byte>>

    ghost function View(): State
      reads this
    {
      State(receivedData, delivered)
    }

    constructor (complete: Completeness)
      ensures this.complete == complete && View() == START
    {
      this.complete := complete;
      receivedData, delivered := [], [];
    }

    method ReceiveDataFromSocket(buf: seq<Byte>) returns (open: bool)
      modifies this
      ensures (View(), open) == Receive(complete, old(View()), buf)
      ensures open <==> buf != []
      ensures var all := old(receivedData) + buf;
              if buf != [] && complete(all) then delivered == old(delivered) + [all] && receivedData == []
              else delivered == old(delivered) && receivedData == all
    {
      assert old(receivedData) == [] ==> old(receivedData) + buf == buf;
      if buf == [] {
        assert old(receivedData) + [] == old(receivedData);
        return false;
      }
      if receivedData == [] && complete(buf) {
        delivered := delivered + [buf];
      } else {
        receivedData := receivedData + buf;
        if complete(receivedData) {
          delivered := delivered + [receivedData];
          receivedData := [];
        }
      }
      open := true;
    }
  }
}
