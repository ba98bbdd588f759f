/** The Harmony SDK's event demultiplexer: several async waiters and direct readers
    share one native queue and one side buffer. A step is what runs between two
    `await`s; steps of different waiters and native callbacks interleave freely. */
module EventDemux {
  import opened Text

  datatype EventType = Result | Error | HostRequest

  datatype Event = Event(requestId: nat, kind: EventType, operationId: nat, body: string)

  /** An entry of the native queue: a JSON text that parses to an event, or one that
      `parseReaderCoreEvent` rejects. */
  datatype Raw = Parsed(event: Event) | Malformed(text: string)

  /** What one step of `waitForResult` or `readEvent` comes to. */
  datatype Outcome =
    | Idle                      // nothing to read
    | Buffered(event: Event)    // belongs to another request: put in the side buffer
    | Delivered(event: Event)   // returned, thrown as its error, or handed to its handler
    | NoHandler(event: Event)   // a host.request nobody handles: re-queued, waiter fails
    | Rejected                  // a malformed entry was dropped, the caller fails
    | RuntimeClosed             // refused because the runtime is closed

  /** The shared state. */
  datatype Demux = Demux(pending: seq<Event>, native: seq<Raw>, closed: bool)

  // ---------------------------------------------------------------------
  // One step, as a function of the shared state
  // ---------------------------------------------------------------------

  /** The position of the first buffered event of a request, or the buffer's length. */
  function FirstFor(pending: seq<Event>, r: nat): (i: nat)
    ensures i <= |pending|
    ensures i < |pending| ==> pending[i].requestId == r
    ensures forall j :: 0 <= j < i ==> pending[j].requestId != r
  {
    if pending == [] || pending[0].requestId == r then 0 else 1 + FirstFor(pending[1..], r)
  }

  /** A waiter for `r` deals with an event it has just obtained. */
  function Dispatch(s: Demux, e: Event, r: nat, hasHandler: bool): (Demux, Outcome) {
    if e.requestId != r then (s.(pending := s.pending + [e]), Buffered(e))
    else if e.kind == HostRequest && !hasHandler then (s.(pending := s.pending + [e]), NoHandler(e))
    else (s, Delivered(e))
  }

  /** One iteration of the loop of `waitForResult` for request `r`. */
  function WaitStep(s: Demux, r: nat, hasHandler: bool): (Demux, Outcome) {
    var i := FirstFor(s.pending, r);
    if i < |s.pending| then
      Dispatch(s.(pending := s.pending[..i] + s.pending[i + 1..]), s.pending[i], r, hasHandler)
    else if s.native == [] then (s, Idle)
    else
      var rest := s.(native := s.native[1..]);
      match s.native[0]
      case Malformed(_) => (rest, Rejected)
      case Parsed(e) => Dispatch(rest, e, r, hasHandler)
  }

  /** `readEvent`: the oldest buffered event, else the oldest native one, whoever it is for. */
  function ReadStep(s: Demux): (Demux, Outcome) {
    if s.closed then (s, RuntimeClosed)
    else if s.pending != [] then (s.(pending := s.pending[1..]), Delivered(s.pending[0]))
    else if s.native == [] then (s, Idle)
    else
      var rest := s.(native := s.native[1..]);
      match s.native[0]
      case Malformed(_) => (rest, Rejected)
      case Parsed(e) => (rest, Delivered(e))
  }

  // ---------------------------------------------------------------------
  // The program's objects
  // ---------------------------------------------------------------------

  /** The native side: a queue that the core's callback fills under a mutex. */
  class RuntimeState {
    var events: seq<Raw>
    var destroyed: bool

    constructor ()
      ensures events == [] && !destroyed
    {
      events, destroyed := [], false;
    }

    method RuntimeEventCallback(json: Raw)
      modifies this
      ensures destroyed == old(destroyed)
      ensures events == if destroyed then old(events) else old(events) + [json]
    {
      if destroyed { return; }
      events := events + [json];
    }

    /** `WaitForEvent` from the moment its wait is over. */
    method TakeEvent() returns (event: Option<Raw>)
      modifies this
      ensures destroyed == old(destroyed)
      ensures old(events) == [] ==> event == None && events == []
      ensures old(events) != [] ==> event == Some(old(events)[0]) && events == old(events)[1..]
    {
      if events == [] {
        return None;
      }
      event := Some(events[0]);
      events := events[1..];
    }

    method Destroy()
      modifies this
      ensures destroyed && events == []
    {
      destroyed := true;
      events := [];
    }
  }

  class ReaderCoreRuntime {
    const native: RuntimeState
    var pendingEvents: seq<Event>
    var closed: bool

    ghost predicate Valid()
      reads this, native
    {
      closed == native.destroyed && (closed ==> pendingEvents == [] && native.events == [])
    }

    ghost function State(): Demux
      reads this, native
    {
      Demux(pendingEvents, native.events, closed)
    }

    constructor (native: RuntimeState)
      requires !native.destroyed
      ensures Valid() && this.native == native
      ensures State() == Demux([], native.events, false)
    {
      this.native := native;
      pendingEvents, closed := [], false;
    }

    method Close()
      requires Valid()
      modifies this, native
      ensures Valid() && State() == Demux([], [], true)
    {
      if closed { return; }
      native.Destroy();
      pendingEvents := [];
      closed := true;
    }

    method TakePendingForRequest(r: nat) returns (event: Option<Event>)
      modifies this`pendingEvents
      ensures var i := FirstFor(old(pendingEvents), r);
              if i < |old(pendingEvents)| then
                && event == Some(old(pendingEvents)[i])
                && pendingEvents == old(pendingEvents)[..i] + old(pendingEvents)[i + 1..]
              else event == None && pendingEvents == old(pendingEvents)
    {
      var index := 0;
      while index < |pendingEvents| && pendingEvents[index].requestId != r
        invariant index <= |pendingEvents|
        invariant forall j :: 0 <= j < index ==> pendingEvents[j].requestId != r
      {
        index := index + 1;
      }
      if index == |pendingEvents| {
        return None;
      }
      event := Some(pendingEvents[index]);
      pendingEvents := pendingEvents[..index] + pendingEvents[index + 1..];
    }

    /** One iteration of `waitForResult`, up to its next `await` or its end. */
    method WaitIteration(r: nat, hasHandler: bool) returns (outcome: Outcome)
      requires Valid()
      modifies this`pendingEvents, native
      ensures Valid() && (State(), outcome) == WaitStep(old(State()), r, hasHandler)
    {
      var event := TakePendingForRequest(r);
      if event.None? {
        var raw := native.TakeEvent();
        if raw.None? { return Idle; }
        if raw.value.Malformed? { return Rejected; }
        event := Some(raw.value.event);
      }
      var e := event.value;
      if e.kind == HostRequest {
        if e.requestId != r {
          pendingEvents := pendingEvents + [e];
          return Buffered(e);
        }
        if !hasHandler {
          pendingEvents := pendingEvents + [e];
          return NoHandler(e);
        }
        return Delivered(e);
      }
      if e.requestId == r {
        return Delivered(e);
      }
      pendingEvents := pendingEvents + [e];
      outcome := Buffered(e);
    }

    method ReadEvent() returns (outcome: Outcome)
      requires Valid()
      modifies this`pendingEvents, native
      ensures Valid() && (State(), outcome) == ReadStep(old(State()))
    {
      if closed { return RuntimeClosed; }
      if pendingEvents != [] {
        outcome := Delivered(pendingEvents[0]);
        pendingEvents := pendingEvents[1..];
        return;
      }
      var raw := native.TakeEvent();
      match raw
      case None => outcome := Idle;
      case Some(Malformed(_)) => outcome := Rejected;
      case Some(Parsed(e)) => outcome := Delivered(e);
    }
  }

  // ---------------------------------------------------------------------
  // Runs
  // ---------------------------------------------------------------------

  datatype Step =
    | Emit(raw: Raw)                       // the core's callback
    | Wait(r: nat, hasHandler: bool)       // an iteration of a waiter for r
    | Read                                 // a call of readEvent
    | Close

  /** Who got an event. */
  datatype Receiver = Waiter(r: nat) | Reader

  /** The shared state with the history of what was accepted and handed out. */
  datatype System = System(demux: Demux, emitted: seq<Raw>, delivered: seq<Event>, receivers: seq<Receiver>)

  const Start := System(Demux([], [], false), [], [], [])

  function Receive(s: System, who: Receiver, result: (Demux, Outcome)): System {
    if result.1.Delivered?
    then System(result.0, s.emitted, s.delivered + [result.1.event], s.receivers + [who])
    else s.(demux := result.0)
  }

  function Next(s: System, step: Step): System {
    match step
    case Emit(raw) =>
      if s.demux.closed then s
      else s.(demux := s.demux.(native := s.demux.native + [raw]), emitted := s.emitted + [raw])
    case Wait(r, hasHandler) => Receive(s, Waiter(r), WaitStep(s.demux, r, hasHandler))
    case Read => Receive(s, Reader, ReadStep(s.demux))
    case Close => s.(demux := Demux([], [], true))
  }

  function Run(s: System, steps: seq<Step>): System
    decreases |steps|
  {
    if steps == [] then s else Run(Next(s, steps[0]), steps[1..])
  }

  /** The step does not end in a waiter failing for want of a handler. */
  predicate Handled(s: System, step: Step) {
    step.Wait? ==> !WaitStep(s.demux, step.r, step.hasHandler).1.NoHandler?
  }
}
