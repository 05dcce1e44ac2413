/** Handlers and their manager (lib/handlerbase.cpp, lib/handlermanager.cpp): from packet text to the
    function that is called. The hand-over between threads is the subject of `Confinement`. */
module Dispatch {
  import opened Results
  import opened Decimal
  import opened Brackets
  import opened Tokenizer
  import opened Values
  import opened Printing
  import opened RoundTrip
  import opened OpenText
  import opened RemoteCalls
  import opened RmiPackets

  /** Who called, and the function that takes the answer to it, if one was set. */
  datatype NetInfo = NetInfo(clientId: Option<int>, callback: Option<Callback>)

  datatype Callback = Callback(id: nat)

  /** `NetInfo()` leaves the client open and sets no callback. */
  const BLANK := NetInfo(None, None)

  /** `netInfos_[clientId]`: a client that is missing is inserted. */
  function Access(netInfos: map<int, NetInfo>, clientId: int): map<int, NetInfo> {
    if clientId in netInfos then netInfos else netInfos[clientId := BLANK]
  }

  datatype Rmi = Rmi(sig: Signature, f: Function)

  /** `std::map::insert`: a key that is there keeps its value. */
  function Insert<H>(handlers: map<string, H>, name: string, h: H): map<string, H> {
    if name in handlers then handlers else handlers[name := h]
  }

  function RegisterAll<H>(names: seq<string>, hs: seq<H>): map<string, H>
    requires |names| == |hs|
  {
    if names == [] then map[]
    else Insert(RegisterAll(names[..|names| - 1], hs[..|hs| - 1]), names[|names| - 1], hs[|hs| - 1])
  }

  /** Who is found under a name, over any history of registrations: the first that registered it. */
  lemma {:induction false} FirstRegistrationWins<H>(names: seq<string>, hs: seq<H>, name: string)
    requires |names| == |hs|
    ensures name in RegisterAll(names, hs) <==> name in names
    ensures forall i :: 0 <= i < |names| && names[i] == name && name !in names[..i] ==>
              RegisterAll(names, hs)[name] == hs[i]
  {
    if names != [] {
      var n := |names| - 1;
      FirstRegistrationWins(names[..n], hs[..n], name);
      assert names == names[..n] + [names[n]];
      forall i | 0 <= i < |names| && names[i] == name && name !in names[..i]
        ensures RegisterAll(names, hs)[name] == hs[i]
      {
        if i < n {
          assert names[..n][..i] == names[..i] && names[..n][i] == name;
        }
      }
    }
  }

  /** Assignment to `functions_[name]`: the newest registration replaces an older one. */
  function Assign<F>(functions: map<string, F>, signature: string, f: F): map<string, F> {
    functions[signature := f]
  }

  function AssignAll<F>(signatures: seq<string>, fs: seq<F>): map<string, F>
    requires |signatures| == |fs|
  {
    if signatures == [] then map[]
    else
      var n := |signatures| - 1;
      Assign(AssignAll(signatures[..n], fs[..n]), signatures[n], fs[n])
  }

  /** What is called under a signature, over any history of registrations: the last one made, in contrast to
      `FirstRegistrationWins`. */
  lemma {:induction false} LastRegistrationWins<F>(signatures: seq<string>, fs: seq<F>, signature: string)
    requires |signatures| == |fs|
    ensures signature in AssignAll(signatures, fs) <==> signature in signatures
    ensures forall i :: 0 <= i < |signatures| && signatures[i] == signature && signature !in signatures[i + 1..] ==>
              AssignAll(signatures, fs)[signature] == fs[i]
  {
    if signatures != [] {
      var n := |signatures| - 1;
      LastRegistrationWins(signatures[..n], fs[..n], signature);
      assert signatures == signatures[..n] + [signatures[n]];
      forall i | 0 <= i < |signatures| && signatures[i] == signature && signature !in signatures[i + 1..]
        ensures AssignAll(signatures, fs)[signature] == fs[i]
      {
        if i < n {
          assert signatures[i + 1..][n - i - 1] == signatures[n];
          assert signatures[i + 1..] == signatures[..n][i + 1..] + [signatures[n]];
          assert signatures[..n][i] == signature;
        }
      }
    }
  }

  datatype Call<H> = Call(handler: H, signature: string, data: string)

  /** Where `handlePacket` sends the call in a packet: nowhere if no handler has its name. */
  function Route<H>(handlers: map<string, H>, text: string): Result<Option<Call<H>>> {
    var p :- Decode(text);
    Ok(if p.handlerName in handlers then Some(Call(handlers[p.handlerName], p.signature, p.data)) else None)
  }

  /** A packet that was handled: the handlers registered then, its text, and who sent it. */
  datatype Arrived<H> = Arrived(handlers: map<string, H>, text: string, clientId: int) {
    predicate Reaches() {
      var call := Route(handlers, text);
      call.Ok? && call.value.Some?
    }
  }

  /** `netInfos_` after these packets: only one that reaches a handler accesses it. */
  function Known<H>(history: seq<Arrived<H>>): map<int, NetInfo> {
    if history == [] then map[]
    else
      var n := |history| - 1;
      var before := Known(history[..n]);
      if history[n].Reaches() then Access(before, history[n].clientId) else before
  }

  /** The client sent a packet that reached a handler. */
  ghost predicate Sent<H>(history: seq<Arrived<H>>, id: int) {
    exists i :: 0 <= i < |history| && history[i].Reaches() && history[i].clientId == id
  }

  lemma {:induction false} SentSnoc<H>(history: seq<Arrived<H>>, last: Arrived<H>, id: int)
    ensures Sent(history + [last], id) <==> Sent(history, id) || (last.Reaches() && last.clientId == id)
  {
    hide Arrived.Reaches;
    var all := history + [last];
    if Sent(history, id) {
      var i :| 0 <= i < |history| && history[i].Reaches() && history[i].clientId == id;
      assert all[i].Reaches() && all[i].clientId == id;
    }
    assert all[|history|] == last;
  }

  lemma {:induction false} KnownSnoc<H>(history: seq<Arrived<H>>, last: Arrived<H>)
    ensures Known(history + [last]) ==
            if last.Reaches() then Access(Known(history), last.clientId) else Known(history)
  {
    hide Arrived.Reaches;
    var all := history + [last];
    assert all[..|history|] == history && all[|history|] == last;
  }

  /** Whatever packets come, in whatever order: exactly the senders of those that reached a handler are known,
      and no callback is ever set. */
  lemma {:induction false} NoClientHasCallback<H>(history: seq<Arrived<H>>, id: int)
    ensures id in Known(history) <==> Sent(history, id)
    ensures id in Known(history) ==> Known(history)[id] == BLANK
  {
    if history != [] {
      hide Arrived.Reaches, Sent, Known;
      var init, last := history[..|history| - 1], history[|history| - 1];
      assert history == init + [last];
      NoClientHasCallback(init, id);
      KnownSnoc(init, last);
      SentSnoc(init, last, id);
    }
  }

  /** A decodable packet reaches the first handler that registered its name, with the signature and the
      data that were sent. */
  lemma {:induction false} PacketReachesFirstHandler<H>(names: seq<string>, hs: seq<H>, p: Packet, i: nat)
    requires |names| == |hs| && i < |names|
    requires IsInt32(p.requestId) && Decodable(p)
    requires names[i] == p.handlerName && p.handlerName !in names[..i]
    ensures Route(RegisterAll(names, hs), Encode(p)) == Ok(Some(Call(hs[i], p.signature, p.data)))
  {
    PacketRoundTripExactly(p);
    FirstRegistrationWins(names, hs, p.handlerName);
  }

  /** RMI packets nest. A packet with clean names, whose data field is the text of a string-free argument
      object, reaches the first handler that registered its name, and that handler reads the arguments that
      were sent: always from a closed object, from `make_call` text exactly when the last argument does not
      end in an `int`. */
  lemma {:induction false} NestedCallReachesHandler<H>(
    names: seq<string>, hs: seq<H>, p: Packet, i: nat, ps: seq<Param>, args: seq<Value>)
    requires |names| == |hs| && i < |names|
    requires IsInt32(p.requestId) && names[i] == p.handlerName && p.handlerName !in names[..i]
    requires CleanText(p.handlerName) && CleanText(p.signature)
    requires args != [] && HaveTypes(Schemas(ps), args) && AllClean(args) && AllStringFree(args)
    requires p.data == FieldsText(args) || p.data == Print(VObj(args))
    ensures Route(RegisterAll(names, hs), Encode(p)) == Ok(Some(Call(hs[i], p.signature, p.data)))
    ensures p.data == Print(VObj(args)) ==> ReadCall(ps, p.data) == Ok(args)
    ensures p.data == FieldsText(args) ==> (ReadCall(ps, p.data) == Ok(args) <==> TailSafe(Last(args)))
  {
    NeutralConcat(p.handlerName, p.signature, Curly);
    NestedCallDecodesExactly(p, args);
    PacketRoundTripExactly(p);
    PacketReachesFirstHandler(names, hs, p, i);
    NestedArgumentsExactly(ps, args);
  }

  /** A call on its way to the handler's thread, with its arguments captured. */
  datatype Posted = Posted(signature: string, data: string, netInfo: NetInfo)

  type ThreadId = nat

  /** What a call leaves behind: the exception, if any, and the handler's state. */
  datatype Handling = Handling(fault: Option<Fault>, inbox: seq<Posted>,
                               answers: seq<(NetInfo, string)>, currNetInfo: NetInfo)

  class Handler {
    const name: string
    /** `sendAnswer` is virtual; a handler may answer in its own way. */
    const overridesAnswer: bool
    /** The thread of the handler, once it runs, and the calls posted to it. */
    var thisId: Option<ThreadId>
    var inbox: seq<Posted>
    var functions: map<string, Rmi>
    var currNetInfo: NetInfo
    var answers: seq<(NetInfo, string)>

    constructor (name: string, overridesAnswer: bool)
      ensures this.name == name && this.overridesAnswer == overridesAnswer
      ensures thisId == None && inbox == []
      ensures functions == map[] && currNetInfo == BLANK && answers == []
    {
      this.name, this.overridesAnswer := name, overridesAnswer;
      thisId, inbox := None, [];
      functions, currNetInfo, answers := map[], BLANK, [];
    }

    /** `REGISTER_RMI3`. */
    method Register(signature: string, rmi: Rmi)
      modifies this`functions
      ensures functions == Assign(old(functions), signature, rmi)
    {
      functions := functions[signature := rmi];
    }

    /** Calling a callback that was never set raises an exception. */
    method SendAnswer(netInfo: NetInfo, data: string) returns (fault: Option<Fault>)
      modifies this`answers
      ensures if overridesAnswer || netInfo.callback.Some?
              then fault == None && answers == old(answers) + [(netInfo, data)]
              else fault == Some(BadFunctionCall) && answers == old(answers)
    {
      if !overridesAnswer && netInfo.callback.None? {
        return Some(BadFunctionCall);
      }
      answers := answers + [(netInfo, data)];
      fault := None;
    }

    /** What a call comes to: the answer that is sent, or the exception that ends it. */
    function Outcome(call: Posted): Result<string>
      requires call.signature in functions
      reads this`functions
    {
      var answer :- Serve(functions[call.signature].sig, functions[call.signature].f, call.data);
      if overridesAnswer || call.netInfo.callback.Some? then Ok(answer) else Err(BadFunctionCall)
    }

    /** How a call leaves the handler. From another thread it is posted. On the handler's own it runs: an
        unknown signature does nothing, an answer goes out once and resets the current caller, and an exception
        leaves the current caller set. */
    function AfterCall(call: Posted, on: ThreadId, before: Handling): Handling
      reads this`thisId, this`functions
    {
      if thisId != Some(on) then before.(fault := None, inbox := before.inbox + [call])
      else if call.signature !in functions then before.(fault := None)
      else
        match Outcome(call)
        case Ok(answer) => Handling(None, before.inbox, before.answers + [(call.netInfo, answer)], BLANK)
        case Err(fault) => Handling(Some(fault), before.inbox, before.answers, call.netInfo)
    }

    function Shows(fault: Option<Fault>): Handling
      reads this`inbox, this`answers, this`currNetInfo
    {
      Handling(fault, inbox, answers, currNetInfo)
    }

    /** `handleCall`: from another thread the call is posted, on the handler's own it runs. */
    method HandleCall(signature: string, data: string, netInfo: NetInfo, on: ThreadId) returns (fault: Option<Fault>)
      modifies this`inbox, this`currNetInfo, this`answers
      ensures Shows(fault) == AfterCall(Posted(signature, data, netInfo), on, old(Shows(None)))
      ensures thisId != Some(on) ==>
                && fault == None && inbox == old(inbox) + [Posted(signature, data, netInfo)]
                && answers == old(answers) && currNetInfo == old(currNetInfo)
      ensures thisId == Some(on) ==> inbox == old(inbox)
      ensures thisId == Some(on) && signature !in functions ==>
                fault == None && answers == old(answers) && currNetInfo == old(currNetInfo)
      ensures thisId == Some(on) && signature in functions ==>
                var answer := Serve(functions[signature].sig, functions[signature].f, data);
                if answer.Err? then
                  fault == Some(answer.fault) && answers == old(answers) && currNetInfo == netInfo
                else if overridesAnswer || netInfo.callback.Some? then
                  fault == None && answers == old(answers) + [(netInfo, answer.value)] && currNetInfo == BLANK
                else
                  fault == Some(BadFunctionCall) && answers == old(answers) && currNetInfo == netInfo
    {
      fault := None;
      if thisId != Some(on) {
        inbox := inbox + [Posted(signature, data, netInfo)];
        return;
      }
      if signature in functions {
        var rmi := functions[signature];
        currNetInfo := netInfo;
        var answer := HandleRmi(rmi.sig, rmi.f, data);
        if answer.Err? {
          return Some(answer.fault);
        }
        fault := SendAnswer(netInfo, answer.value);
        if fault.Some? {
          return;
        }
        currNetInfo := BLANK;
      }
    }

    /** The handler's thread makes the oldest posted call again: it runs, and is not posted a second time. An
        exception has nobody to catch it there. */
    method RunPosted() returns (fault: Option<Fault>)
      requires thisId.Some? && inbox != []
      modifies this`inbox, this`currNetInfo, this`answers
      ensures Shows(fault) == AfterCall(old(inbox)[0], thisId.value, old(Shows(None)).(inbox := old(inbox)[1..]))
      ensures inbox == old(inbox)[1..]
      ensures old(inbox)[0].signature !in functions ==>
                fault == None && answers == old(answers) && currNetInfo == old(currNetInfo)
      ensures var Posted(signature, data, netInfo) := old(inbox)[0];
              signature in functions ==>
                var answer := Serve(functions[signature].sig, functions[signature].f, data);
                if answer.Ok? && (overridesAnswer || netInfo.callback.Some?) then
                  fault == None && answers == old(answers) + [(netInfo, answer.value)] && currNetInfo == BLANK
                else
                  fault.Some? && answers == old(answers) && currNetInfo == netInfo
    {
      var call := inbox[0];
      inbox := inbox[1..];
      fault := HandleCall(call.signature, call.data, call.netInfo, thisId.value);
    }
  }

  /** Calls made one after the other on a thread, until one ends in an exception. */
  ghost function Calls(h: Handler, calls: seq<Posted>, on: ThreadId, s: Handling): Handling
    reads h
  {
    if calls == [] || s.fault.Some? then s else Calls(h, calls[1..], on, h.AfterCall(calls[0], on, s))
  }

  /** The handler's thread taking posted calls, oldest first, until one ends in an exception. */
  ghost function RunsPosted(h: Handler, n: nat, on: ThreadId, s: Handling): Handling
    reads h
    decreases n
  {
    if n == 0 || s.inbox == [] || s.fault.Some? then s
    else RunsPosted(h, n - 1, on, h.AfterCall(s.inbox[0], on, s.(inbox := s.inbox[1..])))
  }

  lemma {:induction false} CallsArePosted(h: Handler, calls: seq<Posted>, other: ThreadId, s: Handling)
    requires h.thisId != Some(other) && s.fault == None
    ensures Calls(h, calls, other, s) == s.(inbox := s.inbox + calls)
    decreases calls
  {
    if calls == [] {
      assert s.inbox + [] == s.inbox;
    } else {
      CallsArePosted(h, calls[1..], other, h.AfterCall(calls[0], other, s));
      assert s.inbox + [calls[0]] + calls[1..] == s.inbox + calls;
    }
  }

  lemma {:induction false} PostedCallsRun(h: Handler, calls: seq<Posted>, own: ThreadId, s: Handling, direct: Handling)
    requires h.thisId == Some(own) && s == direct.(inbox := calls)
    ensures var later, now := RunsPosted(h, |calls|, own, s), Calls(h, calls, own, direct);
            later.answers == now.answers && later.currNetInfo == now.currNetInfo && later.fault == now.fault
    ensures Calls(h, calls, own, direct).fault == None ==> RunsPosted(h, |calls|, own, s).inbox == []
    decreases calls
  {
    if calls != [] && direct.fault == None {
      var s1 := h.AfterCall(calls[0], own, s.(inbox := calls[1..]));
      var direct1 := h.AfterCall(calls[0], own, direct);
      assert s1 == direct1.(inbox := calls[1..]);
      hide Handler.AfterCall;
      PostedCallsRun(h, calls[1..], own, s1, direct1);
    }
  }

  /** Handing calls over to the handler's thread changes nothing but the time: posted from any other thread and
      then run one after the other, they give the same answers in the same order as if they had been made on the
      handler's own thread, up to the same exception, if there is one. */
  lemma {:induction false} HandOverIsTransparent(
    h: Handler, calls: seq<Posted>, other: ThreadId, own: ThreadId, s: Handling)
    requires h.thisId == Some(own) && own != other && s.fault == None && s.inbox == []
    ensures var posted := Calls(h, calls, other, s);
            var later, now := RunsPosted(h, |calls|, own, posted), Calls(h, calls, own, s);
            && posted.answers == s.answers
            && later.answers == now.answers && later.currNetInfo == now.currNetInfo && later.fault == now.fault
            && (now.fault == None ==> later.inbox == [])
  {
    CallsArePosted(h, calls, other, s);
    assert [] + calls == calls;
    PostedCallsRun(h, calls, own, s.(inbox := calls), s);
  }

  /** What `handlePacket` hands to a handler never has a callback, so over any history of packets a call is
      answered if and only if its arguments can be read and the handler overrides `sendAnswer`. */
  lemma {:induction false} AnsweredExactly(history: seq<Arrived<Handler>>, clientId: int, h: Handler, call: Posted)
    requires call.signature in h.functions
    requires call.netInfo == Access(Known(history), clientId)[clientId].(clientId := Some(clientId))
    ensures h.Outcome(call).Ok? <==>
            h.overridesAnswer && Serve(h.functions[call.signature].sig, h.functions[call.signature].f, call.data).Ok?
  {
    NoClientHasCallback(history, clientId);
  }

  ghost predicate GoesTo<H>(handlers: map<string, H>, text: string, h: H) {
    var call := Route(handlers, text);
    call.Ok? && call.value.Some? && call.value.value.handler == h
  }

  class HandlerManager {
    var handlers: map<string, Handler>
    var netInfos: map<int, NetInfo>
    ghost var history: seq<Arrived<Handler>>

    ghost predicate Valid()
      reads this
    {
      netInfos == Known(history)
    }

    constructor ()
      ensures Valid() && handlers == map[] && history == []
    {
      handlers, netInfos, history := map[], map[], [];
    }

    method RegisterHandler(h: Handler?)
      modifies this`handlers
      ensures handlers == if h == null then old(handlers) else Insert(old(handlers), h.name, h)
    {
      if h == null {
        return;
      }
      if h.name !in handlers {
        handlers := handlers[h.name := h];
      }
    }

    /** Only the handler found is touched, and the client's `NetInfo` is looked up by an access that
        inserts it when it is missing. */
    method HandlePacket(text: string, clientId: int, on: ThreadId) returns (fault: Option<Fault>)
      requires Valid()
      modifies this`netInfos, this`history, handlers.Values
      ensures Valid() && history == old(history) + [Arrived(handlers, text, clientId)]
      ensures forall h :: h in handlers.Values && !GoesTo(handlers, text, h) ==> h.Shows(None) == old(h.Shows(None))
      ensures match Route(handlers, text)
              case Err(raised) => fault == Some(raised)
              case Ok(None) => fault == None
              case Ok(Some(call)) =>
                var posted := Posted(call.signature, call.data, NetInfo(Some(clientId), None));
                && call.handler.Shows(fault) == call.handler.AfterCall(posted, on, old(call.handler.Shows(None)))
                && (call.handler.thisId != Some(on) ==>
                      call.handler.Shows(fault) ==
                      Handling(None, old(call.handler.inbox) + [posted],
                               old(call.handler.answers), old(call.handler.currNetInfo)))
    {
      hide DecodeFrom, Handler.AfterCall, Known;
      history := history + [Arrived(handlers, text, clientId)];
      KnownSnoc(old(history), Arrived(handlers, text, clientId));
      var input := new InStream(text);
      var pkg := new RmiPacket();
      fault := pkg.DeserializeFrom(input);
      if fault.Some? {
        return;
      }
      if pkg.handlerName in handlers {
        NoClientHasCallback(old(history), clientId);
        hide Sent;
        var h := handlers[pkg.handlerName];
        var netInfo := NetInfoOf(clientId);
        fault := h.HandleCall(pkg.signature, pkg.data, netInfo, on);
      }
    }

    /** The client's entry, which is inserted when it is missing. */
    method NetInfoOf(clientId: int) returns (netInfo: NetInfo)
      modifies this`netInfos
      ensures netInfos == Access(old(netInfos), clientId)
      ensures netInfo == netInfos[clientId].(clientId := Some(clientId))
    {
      if clientId !in netInfos {
        netInfos := netInfos[clientId := BLANK];
      }
      netInfo := netInfos[clientId].(clientId := Some(clientId));
    }
  }
}
