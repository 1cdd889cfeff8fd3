/** One call through a client: what goes to the transport, what the caller is told, and which counters move. The
    counters of an address and request are shared by every client of that address, and calls overlap freely. */
module Rpc {
  import opened Contract
  import opened Wire
  import opened Wrappers

  /** What the transport makes of a request: an error of one of the three kinds told apart, or the bytes a
      response is read from. */
  datatype Reply = TimedOut | PendingOverflow | OtherError | Received(stream: Bytes)

  /** How a call ends. Unsent calls have nothing to send and reach no counter. */
  datatype Outcome =
    | Unsent
    | Failed(kind: Reply)
    | Rejected(status: int, text: Bytes)
    | Undecoded
    | Answered(value: Bytes)

  /** How a counted call ends, from the reply alone: decodes says which values are responses. */
  function OutcomeOf(reply: Reply, decodes: Bytes -> bool): Outcome {
    if !reply.Received? then Failed(reply)
    else match Parse(reply.stream)
         case Parsed(m, _) =>
           if m.code != OK then Rejected(m.code, m.value)
           else if decodes(m.value) then Answered(m.value)
           else Undecoded
         case _ => Failed(OtherError)
  }

  /** The status handed to the caller beside its result or error. */
  function StatusOf(o: Outcome): int {
    match o
    case Unsent => UNKNOWN
    case Failed(_) => NETWORK_ERROR
    case Rejected(status, _) => status
    case Undecoded | Answered(_) => OK
  }

  datatype Counters = Counters(request: nat, success: nat, failed: nat, timeout: nat, overflow: nat, error: nat)

  const ZERO_COUNTERS: Counters := Counters(0, 0, 0, 0, 0, 0)

  function Begun(c: Counters): Counters { c.(request := c.request + 1) }

  function Ended(c: Counters, o: Outcome): Counters {
    match o
    case Unsent | Undecoded => c
    case Answered(_) => c.(success := c.success + 1)
    case Rejected(_, _) => c.(failed := c.failed + 1)
    case Failed(TimedOut) => c.(timeout := c.timeout + 1)
    case Failed(PendingOverflow) => c.(overflow := c.overflow + 1)
    case Failed(_) => c.(error := c.error + 1)
  }

  /** A transport error is the outcome of its kind and a bad frame another error, both under NETWORK_ERROR; a response
      is a refusal under its own status unless that is OK, and then a result if it decodes. */
  lemma OutcomeExactly(reply: Reply, decodes: Bytes -> bool)
    ensures
      var o := OutcomeOf(reply, decodes);
      && (!reply.Received? ==> o == Failed(reply) && StatusOf(o) == 7)
      && (reply.Received? && !Parse(reply.stream).Parsed? ==> o == Failed(OtherError) && StatusOf(o) == 7)
      && (reply.Received? && Parse(reply.stream).Parsed? ==>
            var m := Parse(reply.stream).message;
            && StatusOf(o) == m.code
            && o == if m.code != 1 then Rejected(m.code, m.value)
                    else if decodes(m.value) then Answered(m.value) else Undecoded)
  {
  }

  /** Each outcome moves the counter of its own kind and no other; an undecodable response moves none. */
  lemma EndedExactly(c: Counters, reply: Reply, o: Outcome)
    requires o.Failed? ==> o.kind == if reply.Received? then OtherError else reply
    requires !o.Failed? ==> reply.Received?
    ensures
      var e := Ended(c, o);
      && e.request == c.request
      && e.success == c.success + (if o.Answered? then 1 else 0)
      && e.failed == c.failed + (if o.Rejected? then 1 else 0)
      && e.timeout == c.timeout + (if reply == TimedOut then 1 else 0)
      && e.overflow == c.overflow + (if reply == PendingOverflow then 1 else 0)
      && e.error == c.error + (if o == Failed(OtherError) then 1 else 0)
  {
  }

  class MetricsGroup {
    var request: nat
    var success: nat
    var failed: nat
    var timeout: nat
    var overflow: nat
    var error: nat

    function View(): Counters
      reads this
    {
      Counters(request, success, failed, timeout, overflow, error)
    }

    constructor ()
      ensures View() == ZERO_COUNTERS
    {
      request, success, failed, timeout, overflow, error := 0, 0, 0, 0, 0, 0;
    }

    /** countError: no error from the transport means the server refused. */
    method CountError(err: Option<Reply>)
      modifies this
      ensures err == None ==> View() == old(View()).(failed := old(failed) + 1)
      ensures err == Some(TimedOut) ==> View() == old(View()).(timeout := old(timeout) + 1)
      ensures err == Some(PendingOverflow) ==> View() == old(View()).(overflow := old(overflow) + 1)
      ensures err.Some? && err.value !in {TimedOut, PendingOverflow} ==> View() == old(View()).(error := old(error) + 1)
    {
      match err
      case None => failed := failed + 1;
      case Some(TimedOut) => timeout := timeout + 1;
      case Some(PendingOverflow) => overflow := overflow + 1;
      case Some(_) => error := error + 1;
    }
  }

  /** doUnary, with the response it acquired: a new one or one put back earlier, whatever its status and buffer.
      The caller and the counters see the reply alone, and the transport the frame of this call alone. */
  method DoUnary(pool: RequestPool, resp: Response, group: MetricsGroup, code: byte, marshalled: Option<Bytes>,
                 spare: nat, bw: Writer, reply: Reply, decodes: Bytes -> bool)
    returns (o: Outcome, status: int)
    requires pool.Valid() && resp.Valid()
    requires {group, bw, resp, resp.buf, resp.sizeBuf} !! pool.Repr()
    modifies pool.Repr(), bw, group, resp, resp.buf, resp.sizeBuf
    ensures pool.Valid() && resp.Valid() && fresh(pool.Repr() - old(pool.Repr())) && status == StatusOf(o)
    ensures
      if marshalled == None || marshalled.value == [] then
        o == Unsent && group.View() == old(group.View()) && bw.sink == old(bw.sink)
      else
        && o == OutcomeOf(reply, decodes)
        && group.View() == Ended(Begun(old(group.View())), o)
        && bw.sink == PutCall(old(bw.sink), Message(code, marshalled.value))
        && resp.statusCode == OK && resp.Value() == []
    ensures marshalled.Some? && marshalled.value != [] ==>
      && (!reply.Received? ==> o == Failed(reply) && status == 7)
      && (reply.Received? && !Parse(reply.stream).Parsed? ==> o == Failed(OtherError) && status == 7)
      && (reply.Received? && Parse(reply.stream).Parsed? ==>
            var m := Parse(reply.stream).message;
            && status == m.code
            && o == if m.code != 1 then Rejected(m.code, m.value)
                    else if decodes(m.value) then Answered(m.value) else Undecoded)
    ensures marshalled.Some? && marshalled.value != [] ==>
      && group.request == old(group.request) + 1
      && group.success == old(group.success) + (if o.Answered? then 1 else 0)
      && group.failed == old(group.failed) + (if o.Rejected? then 1 else 0)
      && group.timeout == old(group.timeout) + (if reply == TimedOut then 1 else 0)
      && group.overflow == old(group.overflow) + (if reply == PendingOverflow then 1 else 0)
      && group.error == old(group.error) + (if o == Failed(OtherError) then 1 else 0)
  {
    if marshalled == None || marshalled.value == [] {
      return Unsent, UNKNOWN;
    }
    var req := Prepare(pool, code, marshalled.value, spare);
    OutcomeExactly(reply, decodes);
    EndedExactly(Begun(group.View()), reply, OutcomeOf(reply, decodes));
    o, status := Exchange(req, resp, group, bw, reply, decodes);
    pool.Release(req);
    resp.Reset();
  }

  /** What doUnary does with the prepared request: it is counted and written, and the reply received. */
  method Exchange(req: Request, resp: Response, group: MetricsGroup, bw: Writer, reply: Reply, decodes: Bytes -> bool)
    returns (o: Outcome, status: int)
    requires req.Valid() && resp.Valid() && {group, bw, resp, resp.buf, resp.sizeBuf} !! {req, req.buf, req.sizeBuf}
    modifies req.sizeBuf, bw, group, resp, resp.buf, resp.sizeBuf
    ensures req.Valid() && resp.Valid() && (resp.buf == old(resp.buf) || fresh(resp.buf))
    ensures o == OutcomeOf(reply, decodes) && status == StatusOf(o)
    ensures group.View() == Ended(Begun(old(group.View())), o)
    ensures !reply.Received? ==> o == Failed(reply) && status == 7
    ensures o.Answered? ==>
      reply.Received? && Parse(reply.stream).Parsed? && Parse(reply.stream).message.value == o.value
    ensures bw.sink == PutCall(old(bw.sink), Message(req.code, old(req.Value())))
  {
    group.request := group.request + 1;
    var _ := req.WriteRequest(bw);
    o, status := Receive(resp, group, reply, decodes);
  }

  /** The second half of doUnary: from the transport's reply to the outcome and its counter. */
  method Receive(resp: Response, group: MetricsGroup, reply: Reply, decodes: Bytes -> bool)
    returns (o: Outcome, status: int)
    requires resp.Valid()
    modifies group, resp, resp.buf, resp.sizeBuf
    ensures resp.Valid() && (resp.buf == old(resp.buf) || fresh(resp.buf))
    ensures o == OutcomeOf(reply, decodes) && status == StatusOf(o) && group.View() == Ended(old(group.View()), o)
    ensures !reply.Received? ==> o == Failed(reply) && status == 7
    ensures reply.Received? && !Parse(reply.stream).Parsed? ==> o == Failed(OtherError) && status == 7
    ensures o.Answered? || o.Rejected? || o.Undecoded? ==>
      && reply.Received? && Parse(reply.stream).Parsed? && status == Parse(reply.stream).message.code
      && (status == 1 <==> !o.Rejected?)
  {
    var err := if reply.Received? then None else Some(reply);
    if reply.Received? {
      var br := new Reader(reply.stream);
      var ok := resp.ReadResponse(br);
      if !ok {
        err := Some(OtherError);
      }
    }
    if err.Some? {
      group.CountError(err);
      return Failed(err.value), NETWORK_ERROR;
    }
    if resp.statusCode != OK {
      group.CountError(None);
      return Rejected(resp.statusCode, resp.Value()), resp.statusCode;
    }
    if !decodes(resp.Value()) {
      return Undecoded, resp.statusCode;
    }
    group.success := group.success + 1;
    return Answered(resp.Value()), resp.statusCode;
  }

  /** From the server's handler to the caller: the status arrives as it was set exactly when it is a single byte, and a
      call succeeds exactly when the byte left of the status is OK and the value decodes. */
  lemma CallerSeesTheStatus(status: int, value: Bytes, tail: Bytes, decodes: Bytes -> bool)
    requires |value| <= MAX_SIZE
    ensures
      var o := OutcomeOf(Received(Frame(Message(StatusByte(status), value)) + tail), decodes);
      && StatusOf(o) == status % 256
      && (StatusOf(o) == status <==> 0 <= status < 256)
      && (o == Answered(value) <==> status % 256 == OK && decodes(value))
      && (o == Rejected(status % 256, value) <==> status % 256 != OK)
  {
    StatusRoundTripExactly(status, value, tail);
  }

  /** A status one byte cannot hold may arrive as another: 257 arrives as OK, and the call succeeds. */
  lemma RefusalMayArriveAsSuccess(value: Bytes, decodes: Bytes -> bool)
    requires |value| <= MAX_SIZE && decodes(value)
    ensures OutcomeOf(Received(Frame(Message(StatusByte(257), value))), decodes) == Answered(value)
  {
    CallerSeesTheStatus(257, value, [], decodes);
    assert Frame(Message(StatusByte(257), value)) + [] == Frame(Message(StatusByte(257), value));
  }

  // ---- Overlapping calls ----

  /** What one set of counters is registered under. */
  datatype Key = Key(addr: string, request: nat)

  /** The two points of a call at which it touches the counters. */
  datatype Event = Start(id: nat, key: Key) | End(id: nat, key: Key, outcome: Outcome)

  /** inFlight has the calls that were counted as requests and have not been counted as anything else. */
  datatype State = State(counters: map<Key, Counters>, inFlight: map<nat, Key>)

  const INITIAL: State := State(map[], map[])

  function At(s: State, key: Key): Counters {
    if key in s.counters then s.counters[key] else ZERO_COUNTERS
  }

  predicate Enabled(s: State, e: Event) {
    match e
    case Start(id, _) => id !in s.inFlight
    case End(id, key, outcome) => id in s.inFlight && s.inFlight[id] == key && outcome != Unsent
  }

  function Apply(s: State, e: Event): State
    requires Enabled(s, e)
  {
    match e
    case Start(id, key) => State(s.counters[key := Begun(At(s, key))], s.inFlight[id := key])
    case End(id, key, outcome) => State(s.counters[key := Ended(At(s, key), outcome)], s.inFlight - {id})
  }

  predicate IsHistory(events: seq<Event>)
    decreases |events|, 0
  {
    events == [] ||
    (var before := events[..|events| - 1]; IsHistory(before) && Enabled(After(before), events[|events| - 1]))
  }

  function After(events: seq<Event>): State
    requires IsHistory(events)
    decreases |events|, 1
  {
    if events == [] then INITIAL else Apply(After(events[..|events| - 1]), events[|events| - 1])
  }

  function Calls(inFlight: map<nat, Key>, key: Key): set<nat> { set id | id in inFlight && inFlight[id] == key }

  function InFlight(s: State, key: Key): nat { |Calls(s.inFlight, key)| }

  /** How many calls under this key ended with such an outcome. */
  function Ends(events: seq<Event>, key: Key, such: Outcome -> bool): nat {
    if events == [] then 0
    else
      var e := events[|events| - 1];
      Ends(events[..|events| - 1], key, such) + (if e.End? && e.key == key && such(e.outcome) then 1 else 0)
  }

  predicate Success(o: Outcome) { o.Answered? }
  predicate Refusal(o: Outcome) { o.Rejected? }
  predicate Timeout(o: Outcome) { o == Failed(TimedOut) }
  predicate Overflow(o: Outcome) { o == Failed(PendingOverflow) }
  predicate Error(o: Outcome) { o.Failed? && o.kind != TimedOut && o.kind != PendingOverflow }
  predicate Garbled(o: Outcome) { o.Undecoded? }

  function Outcomes(c: Counters): nat { c.success + c.failed + c.timeout + c.overflow + c.error }

  /** However calls overlap, each counter is the number of calls that ended its way. */
  lemma {:induction false} EachCounterIsItsTally(events: seq<Event>, key: Key)
    requires IsHistory(events)
    ensures
      var c := At(After(events), key);
      && c.success == Ends(events, key, Success) && c.failed == Ends(events, key, Refusal)
      && c.timeout == Ends(events, key, Timeout) && c.overflow == Ends(events, key, Overflow)
      && c.error == Ends(events, key, Error)
    decreases |events|
  {
    if events != [] {
      EachCounterIsItsTally(events[..|events| - 1], key);
    }
  }

  lemma OneMoreCall(calls: map<nat, Key>, id: nat, k: Key, key: Key)
    requires id !in calls
    ensures |Calls(calls[id := k], key)| == |Calls(calls, key)| + (if k == key then 1 else 0)
  {
    var before, after := Calls(calls, key), Calls(calls[id := k], key);
    if k == key {
      assert after == before + {id};
    } else {
      assert after == before;
    }
  }

  lemma InFlightAfter(s: State, e: Event, key: Key)
    requires Enabled(s, e)
    ensures InFlight(Apply(s, e), key) == InFlight(s, key) + (if e.key != key then 0 else if e.Start? then 1 else -1)
  {
    if e.Start? {
      OneMoreCall(s.inFlight, e.id, e.key, key);
    } else {
      OneMoreCall(s.inFlight - {e.id}, e.id, e.key, key);
      assert (s.inFlight - {e.id})[e.id := e.key] == s.inFlight;
    }
  }

  /** An event touches the counters of its own key only. */
  lemma CountersAfter(s: State, e: Event, key: Key)
    requires Enabled(s, e)
    ensures
      At(Apply(s, e), key) ==
        if e.key != key then At(s, key) else if e.Start? then Begun(At(s, key)) else Ended(At(s, key), e.outcome)
  {
  }

  /** The requests not yet counted under an outcome. */
  function Uncounted(c: Counters): int { c.request - Outcomes(c) }

  /** A start adds one, an end takes one off unless its response was undecodable. */
  lemma UncountedAfter(c: Counters, e: Event)
    requires e.End? ==> e.outcome != Unsent
    ensures e.Start? ==> Uncounted(Begun(c)) == Uncounted(c) + 1
    ensures e.End? && e.outcome.Undecoded? ==> Uncounted(Ended(c, e.outcome)) == Uncounted(c)
    ensures e.End? && !e.outcome.Undecoded? ==> Uncounted(Ended(c, e.outcome)) == Uncounted(c) - 1
  {
  }

  lemma ConservedAfter(s: State, e: Event, key: Key, garbled: nat)
    requires Enabled(s, e) && Uncounted(At(s, key)) == garbled + InFlight(s, key)
    ensures
      var more := if e.End? && e.key == key && Garbled(e.outcome) then 1 else 0;
      Uncounted(At(Apply(s, e), key)) == garbled + more + InFlight(Apply(s, e), key)
  {
    InFlightAfter(s, e, key);
    CountersAfter(s, e, key);
    UncountedAfter(At(s, key), e);
  }

  /** However calls overlap, and at every moment: every request counted is counted once more under its outcome, or
      ended with a response nobody could decode, or is still in flight. */
  lemma {:induction false} RequestsAreConserved(events: seq<Event>, key: Key)
    requires IsHistory(events)
    ensures
      var c := At(After(events), key);
      c.request == Outcomes(c) + Ends(events, key, Garbled) + InFlight(After(events), key)
    decreases |events|
  {
    if events == [] {
      assert Calls(INITIAL.inFlight, key) == {};
    } else {
      var before, e := events[..|events| - 1], events[|events| - 1];
      RequestsAreConserved(before, key);
      ConservedAfter(After(before), e, key, Ends(before, key, Garbled));
    }
  }

  /** With no call under way the counters add up exactly when every response could be decoded. */
  lemma CountersAddUpExactly(events: seq<Event>, key: Key)
    requires IsHistory(events) && InFlight(After(events), key) == 0
    ensures At(After(events), key).request == Outcomes(At(After(events), key)) <==> Ends(events, key, Garbled) == 0
  {
    RequestsAreConserved(events, key);
  }

  lemma OneMoreEvent(events: seq<Event>, e: Event) returns (more: seq<Event>)
    requires IsHistory(events) && Enabled(After(events), e)
    ensures more == events + [e] && IsHistory(more) && After(more) == Apply(After(events), e)
  {
    more := events + [e];
    assert more[..|more| - 1] == events;
  }

  /** One call whose response cannot be decoded is a request and nothing else. */
  lemma UndecodedGoesUncounted(key: Key) returns (events: seq<Event>)
    ensures IsHistory(events) && InFlight(After(events), key) == 0
    ensures At(After(events), key).request == 1 && Outcomes(At(After(events), key)) == 0
  {
    events := OneMoreEvent([], Start(0, key));
    events := OneMoreEvent(events, End(0, key, Undecoded));
    assert Calls(After(events).inFlight, key) == {};
  }
}
