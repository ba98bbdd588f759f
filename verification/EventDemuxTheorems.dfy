/** What every interleaving of waiters, readers and native callbacks keeps. */
module EventDemuxTheorems {
  import Text
  import opened EventDemux

  // ---------------------------------------------------------------------
  // Per-request streams
  // ---------------------------------------------------------------------

  function If(c: bool, e: Event): seq<Event> { if c then [e] else [] }

  /** The events of request `r`, in order. */
  function For(events: seq<Event>, r: nat): seq<Event> {
    if events == [] then []
    else If(events[0].requestId == r, events[0]) + For(events[1..], r)
  }

  /** The well-formed events of request `r` in the native queue, in order. */
  function Stream(raws: seq<Raw>, r: nat): seq<Event> {
    if raws == [] then []
    else Own(raws[0], r) + Stream(raws[1..], r)
  }

  function Own(raw: Raw, r: nat): seq<Event> {
    match raw
    case Parsed(e) => If(e.requestId == r, e)
    case Malformed(_) => []
  }

  lemma {:induction false} ForConcat(a: seq<Event>, b: seq<Event>, r: nat)
    ensures For(a + b, r) == For(a, r) + For(b, r)
  {
    if a == [] {
      assert a + b == b;
    } else {
      ForConcat(a[1..], b, r);
      assert (a + b)[0] == a[0] && (a + b)[1..] == a[1..] + b;
      Text.Reassociate(If(a[0].requestId == r, a[0]), For(a[1..], r), For(b, r));
    }
  }

  lemma {:induction false} StreamConcat(a: seq<Raw>, b: seq<Raw>, r: nat)
    ensures Stream(a + b, r) == Stream(a, r) + Stream(b, r)
  {
    if a == [] {
      assert a + b == b;
    } else {
      StreamConcat(a[1..], b, r);
      assert (a + b)[0] == a[0] && (a + b)[1..] == a[1..] + b;
      Text.Reassociate(Own(a[0], r), Stream(a[1..], r), Stream(b, r));
    }
  }

  lemma {:induction false} ForOthers(pending: seq<Event>, r: nat)
    requires forall e :: e in pending ==> e.requestId != r
    ensures For(pending, r) == []
  {
    if pending != [] {
      ForOthers(pending[1..], r);
    }
  }

  /** What the waiter takes from the buffer is the first event of its request, and only that. */
  lemma TakenFromBuffer(pending: seq<Event>, r: nat, q: nat)
    ensures var i := FirstFor(pending, r);
            if i < |pending| then
              For(pending, q) ==
              If(q == r, pending[i]) + For(pending[..i] + pending[i + 1..], q)
            else For(pending, r) == []
  {
    var i := FirstFor(pending, r);
    ForOthers(pending[..i], r);
    if i < |pending| {
      RemovedFromBuffer(pending[..i], pending[i], pending[i + 1..], q);
      assert pending == pending[..i] + [pending[i]] + pending[i + 1..];
    } else {
      assert pending[..i] == pending;
    }
  }

  lemma RemovedFromBuffer(a: seq<Event>, e: Event, b: seq<Event>, q: nat)
    requires e.requestId == q ==> For(a, q) == []
    ensures For(a + [e] + b, q) == If(e.requestId == q, e) + For(a + b, q)
  {
    ForConcat(a, [e], q);
    ForConcat(a + [e], b, q);
    ForConcat(a, b, q);
  }

  // ---------------------------------------------------------------------
  // Order: delivered, then buffered, then unread is what was emitted
  // ---------------------------------------------------------------------

  /** For request `r` nothing is lost, duplicated or out of order. */
  predicate InOrder(s: System, r: nat) {
    For(s.delivered, r) + (For(s.demux.pending, r) + Stream(s.demux.native, r)) == Stream(s.emitted, r)
  }

  predicate Closed(s: System, r: nat) {
    s.demux == Demux([], [], true) && For(s.delivered, r) <= Stream(s.emitted, r)
  }

  predicate Consistent(s: System, r: nat) {
    if s.demux.closed then Closed(s, r) else InOrder(s, r)
  }

  /** What is still to come for `q`. */
  function Outstanding(d: Demux, q: nat): seq<Event> {
    For(d.pending, q) + Stream(d.native, q)
  }

  /** A waiter's step moves at most one event out of what is outstanding for any
      request: the first one of its own. */
  lemma WaitStepKeepsOthers(d: Demux, r: nat, hasHandler: bool, q: nat)
    requires !WaitStep(d, r, hasHandler).1.NoHandler?
    ensures var (d', outcome) := WaitStep(d, r, hasHandler);
            if outcome.Delivered?
            then Outstanding(d, q) == If(q == r, outcome.event) + Outstanding(d', q)
            else Outstanding(d, q) == Outstanding(d', q)
  {
    TakenFromBuffer(d.pending, r, q);
    if FirstFor(d.pending, r) == |d.pending| && d.native != [] {
      if d.native[0].Parsed? {
        FromNative(d, d.native[0].event, r, q);
      }
    }
  }

  /** An event read past the buffer: the buffer holds none of the reader's own. */
  lemma FromNative(d: Demux, e: Event, r: nat, q: nat)
    requires d.native != [] && d.native[0] == Parsed(e) && For(d.pending, r) == []
    ensures Outstanding(d, q) == For(d.pending + [e], q) + Stream(d.native[1..], q)
    ensures e.requestId == r ==>
              Outstanding(d, q) == If(q == r, e) + (For(d.pending, q) + Stream(d.native[1..], q))
  {
    ForConcat(d.pending, [e], q);
    OneEvent(e, q);
    StreamFirst(d.native, e, q);
    assert Outstanding(d, q) == For(d.pending, q) + Stream(d.native, q);
    assert e.requestId != q ==> If(e.requestId == q, e) == [];
    assert If(q == r, e) == if q == r then [e] else [];
    var a, x, b := For(d.pending, q), If(e.requestId == q, e), Stream(d.native[1..], q);
    hide *;
    Text.Reassociate(a, x, b);
    if e.requestId == r { PassesEmpty(a, x, b); }
  }

  lemma PassesEmpty(a: seq<Event>, x: seq<Event>, b: seq<Event>)
    requires a == [] || x == []
    ensures a + (x + b) == x + (a + b)
  {
    assert [] + b == b && [] + (a + b) == a + b && [] + (x + b) == x + b;
  }

  lemma OneEvent(e: Event, q: nat)
    ensures For([e], q) == If(e.requestId == q, e)
  {
  }

  lemma StreamFirst(native: seq<Raw>, e: Event, q: nat)
    requires native != [] && native[0] == Parsed(e)
    ensures Stream(native, q) == If(e.requestId == q, e) + Stream(native[1..], q)
  {
  }

  lemma ReadStepTakesFirst(d: Demux, q: nat)
    ensures var (d', outcome) := ReadStep(d);
            if outcome.Delivered?
            then Outstanding(d, q) == If(outcome.event.requestId == q, outcome.event) + Outstanding(d', q)
            else Outstanding(d, q) == Outstanding(d', q)
  {
    if !d.closed && d.pending != [] {
      assert d.pending == [d.pending[0]] + d.pending[1..];
      ForConcat([d.pending[0]], d.pending[1..], q);
    } else if !d.closed && d.native != [] {
    }
  }

  /** An emitted event is outstanding last. */
  lemma EmitAppends(d: Demux, emitted: seq<Raw>, raw: Raw, q: nat)
    ensures Outstanding(d.(native := d.native + [raw]), q) == Outstanding(d, q) + Stream([raw], q)
    ensures Stream(emitted + [raw], q) == Stream(emitted, q) + Stream([raw], q)
  {
    var n, b, x := Stream(d.native, q), For(d.pending, q), Stream([raw], q);
    StreamConcat(d.native, [raw], q);
    StreamConcat(emitted, [raw], q);
    Text.Reassociate(b, n, x);
  }

  /** The step puts no event of `q` back behind a different one of `q`. */
  predicate Harmless(s: System, step: Step, q: nat) {
    step.Wait? && step.r == q && !Handled(s, step) ==>
      NoOtherBuffered(s.demux, q, WaitStep(s.demux, q, step.hasHandler).1.event)
  }

  /** Nothing of `r` but copies of `e` is buffered. */
  predicate NoOtherBuffered(d: Demux, r: nat, e: Event) {
    forall x :: x in For(d.pending, r) ==> x == e
  }

  predicate AllHarmless(s: System, steps: seq<Step>, q: nat)
    decreases |steps|
  {
    steps != [] ==> Harmless(s, steps[0], q) && AllHarmless(Next(s, steps[0]), steps[1..], q)
  }

  /** Another request's waiter that finds no handler changes nothing for `q`. */
  lemma RequeueKeepsOthers(s: System, r: nat, hasHandler: bool, q: nat)
    requires Consistent(s, q) && r != q && WaitStep(s.demux, r, hasHandler).1.NoHandler?
    ensures Consistent(Next(s, Wait(r, hasHandler)), q)
  {
    if FirstFor(s.demux.pending, r) < |s.demux.pending| {
      var b := RequeuedFromBuffer(s.demux, r, q);
      assert [] + b == b + [];
    } else {
      RequeuedFromNative(s.demux, r, q);
    }
  }

  lemma StepKeepsConsistent(s: System, step: Step, q: nat)
    requires Consistent(s, q) && Harmless(s, step, q)
    ensures Consistent(Next(s, step), q)
  {
    match step
    case Close =>
      CloseKeepsConsistent(s, q);
    case Emit(raw) =>
      EmitKeepsConsistent(s, raw, q);
    case Wait(r, hasHandler) =>
      if Handled(s, step) {
        WaitStepKeepsOthers(s.demux, r, hasHandler, q);
        ReceiveKeepsConsistent(s, Waiter(r), WaitStep(s.demux, r, hasHandler), q);
      } else if r != q {
        RequeueKeepsOthers(s, r, hasHandler, q);
      } else {
        RequeueKeepsOrderExactly(s, q);
      }
    case Read =>
      ReadStepTakesFirst(s.demux, q);
      ReceiveKeepsConsistent(s, Reader, ReadStep(s.demux), q);
  }

  lemma CloseKeepsConsistent(s: System, q: nat)
    requires Consistent(s, q)
    ensures Consistent(Next(s, Close), q)
  {
    if !s.demux.closed {
      assert For(s.delivered, q) <= Stream(s.emitted, q);
    }
  }

  lemma EmitKeepsConsistent(s: System, raw: Raw, q: nat)
    requires Consistent(s, q)
    ensures Consistent(Next(s, Emit(raw)), q)
  {
    if !s.demux.closed {
      var g, o, x := For(s.delivered, q), Outstanding(s.demux, q), Stream([raw], q);
      EmitAppends(s.demux, s.emitted, raw, q);
      Text.Reassociate(g, o, x);
    }
  }

  lemma ReceiveKeepsConsistent(s: System, who: Receiver, result: (Demux, Outcome), q: nat)
    requires Consistent(s, q) && result.0.closed == s.demux.closed
    requires s.demux.closed ==> result.0 == s.demux && !result.1.Delivered?
    requires if result.1.Delivered?
             then Outstanding(s.demux, q) == If(result.1.event.requestId == q, result.1.event) + Outstanding(result.0, q)
             else Outstanding(s.demux, q) == Outstanding(result.0, q)
    ensures Consistent(Receive(s, who, result), q)
  {
    if result.1.Delivered? {
      var e := result.1.event;
      ForConcat(s.delivered, [e], q);
      assert For([e], q) == If(e.requestId == q, e);
      Text.Reassociate(For(s.delivered, q), If(e.requestId == q, e), Outstanding(result.0, q));
    }
  }

  lemma {:induction false} RunKeepsConsistent(s: System, steps: seq<Step>, q: nat)
    requires Consistent(s, q) && AllHarmless(s, steps, q)
    ensures Consistent(Run(s, steps), q)
    decreases |steps|
  {
    if steps != [] {
      StepKeepsConsistent(s, steps[0], q);
      RunKeepsConsistent(Next(s, steps[0]), steps[1..], q);
    }
  }

  /** In every interleaving in which no host.request of `r` is put back behind a different
      event of `r`, whatever happens to other requests: as long as the runtime is open, what was delivered for `r`, then what is
      buffered for it, then what is unread for it is exactly what was emitted for it;
      once closed, what was delivered is a prefix of what was emitted before. */
  lemma InterleavedWaiters(steps: seq<Step>, r: nat)
    requires AllHarmless(Start, steps, r)
    ensures var s := Run(Start, steps);
            if s.demux.closed then s.demux == Demux([], [], true) && For(s.delivered, r) <= Stream(s.emitted, r)
            else For(s.delivered, r) + Outstanding(s.demux, r) == Stream(s.emitted, r)
  {
    RunKeepsConsistent(Start, steps, r);
  }

  /** The order holds now and after each of the steps. */
  predicate AlwaysConsistent(s: System, steps: seq<Step>, q: nat)
    decreases |steps|
  {
    Consistent(s, q) && (steps != [] ==> AlwaysConsistent(Next(s, steps[0]), steps[1..], q))
  }

  /** That condition is exact: the order holds throughout a run only under it. */
  lemma {:induction false} OrderHoldsExactly(s: System, steps: seq<Step>, q: nat)
    requires Consistent(s, q)
    ensures AlwaysConsistent(s, steps, q) <==> AllHarmless(s, steps, q)
    decreases |steps|
  {
    if steps != [] {
      var step := steps[0];
      if Harmless(s, step, q) {
        StepKeepsConsistent(s, step, q);
        OrderHoldsExactly(Next(s, step), steps[1..], q);
      } else {
        assert step == Wait(q, false) && !s.demux.closed;
        HarmfulBreaksOrder(s, q);
      }
    }
  }

  lemma HarmfulBreaksOrder(s: System, q: nat)
    requires !s.demux.closed && InOrder(s, q) && !Harmless(s, Wait(q, false), q)
    ensures !Consistent(Next(s, Wait(q, false)), q)
  {
    RequeueKeepsOrderExactly(s, q);
    assert !Next(s, Wait(q, false)).demux.closed;
  }

  /** A run that loses the order of a request: its host.request and its result are buffered
      by another waiter, and then its own waiter has no handler. */
  lemma RequeueCanReorder(w: nat, e: Event, f: Event)
    requires e.kind == HostRequest && e.requestId == f.requestId != w && e != f
    ensures var r := e.requestId;
            var steps := [Emit(Parsed(e)), Emit(Parsed(f)), Wait(w, false), Wait(w, false), Wait(r, false)];
            Run(Start, steps).demux.pending == [f, e] && !InOrder(Run(Start, steps), r)
  {
    var r := e.requestId;
    var steps := [Emit(Parsed(e)), Emit(Parsed(f)), Wait(w, false), Wait(w, false), Wait(r, false)];
    var s1 := Next(Start, steps[0]);
    var s2 := Next(s1, steps[1]);
    var s3 := Next(s2, steps[2]);
    var s4 := Next(s3, steps[3]);
    var s5 := Next(s4, steps[4]);
    assert s2.demux == Demux([], [Parsed(e), Parsed(f)], false) && s2.emitted == [Parsed(e), Parsed(f)];
    assert s3.demux == Demux([e], [Parsed(f)], false);
    assert s4.demux == Demux([e, f], [], false);
    assert s5.demux == Demux([f, e], [], false) && s5.delivered == [];
    RunsTo(steps, s1, s2, s3, s4, s5);
    assert For([e], r) == [e] && For([f], r) == [f] && For([f, e], r) == [f, e];
    assert s2.emitted[1..] == [Parsed(f)] && Stream([Parsed(f)], r) == [f];
    assert Stream(s2.emitted, r) == [e] + [f];
  }

  lemma RunsTo(steps: seq<Step>, s1: System, s2: System, s3: System, s4: System, s5: System)
    requires |steps| == 5 && s1 == Next(Start, steps[0]) && s2 == Next(s1, steps[1]) && s3 == Next(s2, steps[2])
    requires s4 == Next(s3, steps[3]) && s5 == Next(s4, steps[4])
    ensures Run(Start, steps) == s5
  {
    hide Next;
    var t := steps;
    assert t[1..][1..] == t[2..] && t[2..][1..] == t[3..] && t[3..][1..] == t[4..] && t[4..][1..] == [];
    assert Run(s5, []) == s5;
    assert Run(s4, t[4..]) == s5;
    assert Run(s3, t[3..]) == s5;
    assert Run(s2, t[2..]) == s5;
    assert Run(s1, t[1..]) == s5;
  }

  /** Whatever a waiter was handed belongs to its own request. */
  predicate RightReceivers(s: System) {
    && |s.receivers| == |s.delivered|
    && forall i :: 0 <= i < |s.delivered| && s.receivers[i].Waiter? ==>
         s.delivered[i].requestId == s.receivers[i].r
  }

  /** No waiter is ever handed another request's event, handlers or not. */
  lemma {:induction false} WaitersGetTheirOwn(s: System, steps: seq<Step>)
    requires RightReceivers(s)
    ensures RightReceivers(Run(s, steps))
    decreases |steps|
  {
    if steps != [] {
      WaitersGetTheirOwn(Next(s, steps[0]), steps[1..]);
    }
  }

  /** After `close` nothing is delivered and nothing more is accepted. */
  lemma {:induction false} NothingAfterClose(s: System, steps: seq<Step>)
    requires s.demux == Demux([], [], true)
    ensures Run(s, steps) == s
  {
    if steps != [] {
      NothingAfterClose(Next(s, steps[0]), steps[1..]);
    }
  }

  // ---------------------------------------------------------------------
  // The native queue
  // ---------------------------------------------------------------------

  /** What a step takes from the native queue, well-formed or not. */
  function Taken(s: System, step: Step): seq<Raw> {
    if (step.Wait? || step.Read?) && |Next(s, step).demux.native| < |s.demux.native| then s.demux.native[..1] else []
  }

  /** What the steps take from the native queue, in order. */
  function NativeReads(s: System, steps: seq<Step>): seq<Raw>
    decreases |steps|
  {
    if steps == [] then [] else Taken(s, steps[0]) + NativeReads(Next(s, steps[0]), steps[1..])
  }

  lemma StepReadsFirst(s: System, step: Step)
    requires step.Wait? || step.Read?
    ensures var t := Next(s, step); s.demux.native == Taken(s, step) + t.demux.native && t.emitted == s.emitted
    ensures Next(s, step).demux.closed == s.demux.closed
  {
  }

  /** What was read from the native queue and then what waits in it is what was accepted;
      once closed, what was read is a prefix of what was accepted. */
  predicate QueueInOrder(s: System, read: seq<Raw>) {
    if s.demux.closed then s.demux.native == [] && read <= s.emitted else read + s.demux.native == s.emitted
  }

  lemma StepKeepsQueue(s: System, step: Step, read: seq<Raw>)
    requires QueueInOrder(s, read)
    ensures QueueInOrder(Next(s, step), read + Taken(s, step))
  {
    if step.Wait? || step.Read? {
      StepReadsFirst(s, step);
    }
  }

  lemma {:induction false} RunKeepsQueue(s: System, steps: seq<Step>, read: seq<Raw>)
    requires QueueInOrder(s, read)
    ensures QueueInOrder(Run(s, steps), read + NativeReads(s, steps))
    decreases |steps|
  {
    if steps == [] {
      assert read + [] == read;
    } else {
      var t := Next(s, steps[0]);
      assert Run(s, steps) == Run(t, steps[1..]);
      assert NativeReads(s, steps) == Taken(s, steps[0]) + NativeReads(t, steps[1..]);
      hide *;
      StepKeepsQueue(s, steps[0], read);
      RunKeepsQueue(t, steps[1..], read + Taken(s, steps[0]));
      Text.Reassociate(read, Taken(s, steps[0]), NativeReads(t, steps[1..]));
    }
  }

  /** In every interleaving, handlers or not and malformed entries included, what is received
      from the native queue is a prefix of what was enqueued before close: all but what still
      waits there, and after close nothing more. */
  lemma QueueSafety(steps: seq<Step>)
    ensures var s := Run(Start, steps);
            && NativeReads(Start, steps) <= s.emitted
            && (!s.demux.closed ==> NativeReads(Start, steps) + s.demux.native == s.emitted)
  {
    RunKeepsQueue(Start, steps, []);
    assert [] + NativeReads(Start, steps) == NativeReads(Start, steps);
  }

  // ---------------------------------------------------------------------
  // A missing handler
  // ---------------------------------------------------------------------

  lemma {:induction false} RotatesToItself(b: seq<Event>, e: Event)
    ensures b + [e] == [e] + b <==> forall x :: x in b ==> x == e
  {
    if b != [] {
      RotatesToItself(b[1..], e);
      assert b == [b[0]] + b[1..];
      assert forall x :: x in b <==> x == b[0] || x in b[1..];
      assert b + [e] == [b[0]] + (b[1..] + [e]);
      if b[0] == e && b + [e] == [e] + b {
        assert b[1..] + [e] == (b + [e])[1..] == ([e] + b)[1..] == b;
      } else if b[0] != e {
        assert (b + [e])[0] == b[0] && b[0] in b;
      }
    }
  }

  /** The buffer, for request `q`, around a re-queued event of request `r`. */
  lemma RequeuedFromBuffer(d: Demux, r: nat, q: nat) returns (b: seq<Event>)
    requires FirstFor(d.pending, r) < |d.pending| && WaitStep(d, r, false).1.NoHandler?
    ensures var (d', outcome) := WaitStep(d, r, false);
            && For(d.pending, q) == If(q == r, outcome.event) + b
            && For(d'.pending, q) == b + If(q == r, outcome.event)
            && d'.native == d.native && d'.closed == d.closed
  {
    var i := FirstFor(d.pending, r);
    var rest, e := d.pending[..i] + d.pending[i + 1..], d.pending[i];
    TakenFromBuffer(d.pending, r, q);
    ForConcat(rest, [e], q);
    b := For(rest, q);
  }

  /** An event re-queued from the native queue lands where it was: between the buffered
      and the unread events. */
  lemma RequeuedFromNative(d: Demux, r: nat, q: nat)
    requires FirstFor(d.pending, r) == |d.pending| && WaitStep(d, r, false).1.NoHandler?
    ensures Outstanding(WaitStep(d, r, false).0, q) == Outstanding(d, q)
    ensures WaitStep(d, r, false).0.closed == d.closed && For(d.pending, r) == []
  {
    TakenFromBuffer(d.pending, r, r);
    FromNative(d, WaitStep(d, r, false).1.event, r, q);
  }

  /** A host.request that finds no handler is put back at the end of the buffer. That
      keeps the request's order exactly when no different event of the same request
      is already buffered. */
  lemma RequeueKeepsOrderExactly(s: System, r: nat)
    requires !s.demux.closed && InOrder(s, r) && !Handled(s, Wait(r, false))
    ensures InOrder(Next(s, Wait(r, false)), r) <==>
            NoOtherBuffered(s.demux, r, WaitStep(s.demux, r, false).1.event)
  {
    var d, e, g := s.demux, WaitStep(s.demux, r, false).1.event, For(s.delivered, r);
    if FirstFor(d.pending, r) < |d.pending| {
      var b := RequeuedFromBuffer(d, r, r);
      RotatesToItself(b, e);
      CancelBoth(g, b + [e], [e] + b, Stream(d.native, r));
      assert forall x :: x in [e] + b <==> x == e || x in b;
    } else {
      RequeuedFromNative(d, r, r);
    }
  }

  lemma CancelBoth(g: seq<Event>, a: seq<Event>, b: seq<Event>, n: seq<Event>)
    requires |a| == |b|
    ensures g + (a + n) == g + (b + n) <==> a == b
  {
    if g + (a + n) == g + (b + n) {
      assert a == (g + (a + n))[|g|..|g| + |a|];
      assert b == (g + (b + n))[|g|..|g| + |b|];
    }
  }

  /** How often an event occurs. */
  function Copies(events: seq<Event>, e: Event): nat {
    if events == [] then 0 else (if events[0] == e then 1 else 0) + Copies(events[1..], e)
  }

  function NativeCopies(raws: seq<Raw>, e: Event): nat {
    if raws == [] then 0 else (if raws[0] == Parsed(e) then 1 else 0) + NativeCopies(raws[1..], e)
  }

  /** Every copy of the event that was emitted was either delivered or is still held. */
  predicate Accounted(s: System, e: Event) {
    Copies(s.delivered, e) + Copies(s.demux.pending, e) + NativeCopies(s.demux.native, e)
    == NativeCopies(s.emitted, e)
  }

  lemma {:induction false} CopiesConcat(a: seq<Event>, b: seq<Event>, e: Event)
    ensures Copies(a + b, e) == Copies(a, e) + Copies(b, e)
  {
    if a == [] {
      assert a + b == b;
    } else {
      assert (a + b)[1..] == a[1..] + b;
      CopiesConcat(a[1..], b, e);
    }
  }

  lemma {:induction false} NativeCopiesConcat(a: seq<Raw>, b: seq<Raw>, e: Event)
    ensures NativeCopies(a + b, e) == NativeCopies(a, e) + NativeCopies(b, e)
  {
    if a == [] {
      assert a + b == b;
    } else {
      assert (a + b)[1..] == a[1..] + b;
      NativeCopiesConcat(a[1..], b, e);
    }
  }

  /** One copy of `x` taken out of the buffer. */
  lemma CopiesRemove(pending: seq<Event>, i: nat, e: Event)
    requires i < |pending|
    ensures Copies(pending, e) == Copies(pending[..i] + pending[i + 1..], e) + Copies([pending[i]], e)
  {
    assert pending == pending[..i] + ([pending[i]] + pending[i + 1..]);
    CopiesConcat(pending[..i], [pending[i]] + pending[i + 1..], e);
    CopiesConcat([pending[i]], pending[i + 1..], e);
    CopiesConcat(pending[..i], pending[i + 1..], e);
  }

  function Held(d: Demux, e: Event): nat {
    Copies(d.pending, e) + NativeCopies(d.native, e)
  }

  lemma DispatchKeepsCopies(d: Demux, x: Event, r: nat, hasHandler: bool, e: Event)
    ensures var (d', outcome) := Dispatch(d, x, r, hasHandler);
            Held(d, e) + Copies([x], e) == Held(d', e) + if outcome.Delivered? then Copies([outcome.event], e) else 0
  {
    CopiesConcat(d.pending, [x], e);
  }

  lemma WaitStepKeepsCopies(d: Demux, r: nat, hasHandler: bool, e: Event)
    ensures var (d', outcome) := WaitStep(d, r, hasHandler);
            Held(d, e) == Held(d', e) + if outcome.Delivered? then Copies([outcome.event], e) else 0
  {
    var i := FirstFor(d.pending, r);
    if i < |d.pending| {
      CopiesRemove(d.pending, i, e);
      DispatchKeepsCopies(d.(pending := d.pending[..i] + d.pending[i + 1..]), d.pending[i], r, hasHandler, e);
    } else if d.native != [] && d.native[0].Parsed? {
      DispatchKeepsCopies(d.(native := d.native[1..]), d.native[0].event, r, hasHandler, e);
    }
  }

  lemma ReadStepKeepsCopies(d: Demux, e: Event)
    ensures var (d', outcome) := ReadStep(d);
            Held(d, e) == Held(d', e) + if outcome.Delivered? then Copies([outcome.event], e) else 0
  {
  }

  lemma ReceiveKeepsCopies(s: System, who: Receiver, result: (Demux, Outcome), e: Event)
    requires Accounted(s, e)
    requires Held(s.demux, e) == Held(result.0, e) + if result.1.Delivered? then Copies([result.1.event], e) else 0
    ensures Accounted(Receive(s, who, result), e)
  {
    if result.1.Delivered? {
      CopiesConcat(s.delivered, [result.1.event], e);
    }
  }

  lemma StepKeepsAccounted(s: System, step: Step, e: Event)
    requires !s.demux.closed && Accounted(s, e) && step != Close
    ensures !Next(s, step).demux.closed && Accounted(Next(s, step), e)
  {
    match step
    case Emit(raw) =>
      NativeCopiesConcat(s.demux.native, [raw], e);
      NativeCopiesConcat(s.emitted, [raw], e);
    case Wait(r, hasHandler) =>
      WaitStepKeepsCopies(s.demux, r, hasHandler, e);
      ReceiveKeepsCopies(s, Waiter(r), WaitStep(s.demux, r, hasHandler), e);
    case Read =>
      ReadStepKeepsCopies(s.demux, e);
      ReceiveKeepsCopies(s, Reader, ReadStep(s.demux), e);
  }

  /** Even when handlers are missing, until `close` no well-formed event is lost or
      duplicated: it has been delivered or is still held, as often as it was emitted. */
  lemma {:induction false} NothingLostOrDuplicated(s: System, steps: seq<Step>, e: Event)
    requires !s.demux.closed && Accounted(s, e) && Close !in steps
    ensures Accounted(Run(s, steps), e)
    decreases |steps|
  {
    if steps != [] {
      StepKeepsAccounted(s, steps[0], e);
      NothingLostOrDuplicated(Next(s, steps[0]), steps[1..], e);
    }
  }

  // ---------------------------------------------------------------------
  // Bounded progress
  // ---------------------------------------------------------------------

  /** The position in the native queue of the first event for `r`, or the queue's length. */
  function NativePosition(native: seq<Raw>, r: nat): (p: nat)
    ensures p <= |native|
  {
    if native == [] || (native[0].Parsed? && native[0].event.requestId == r) then 0
    else 1 + NativePosition(native[1..], r)
  }

  predicate Awaited(d: Demux, r: nat) {
    FirstFor(d.pending, r) < |d.pending| || NativePosition(d.native, r) < |d.native|
  }

  /** How many native events a waiter for `r` may have to move before its own. */
  function Distance(d: Demux, r: nat): nat {
    if FirstFor(d.pending, r) < |d.pending| then 0 else NativePosition(d.native, r)
  }

  predicate WellFormed(raws: seq<Raw>) {
    forall raw :: raw in raws ==> raw.Parsed?
  }

  /** An open runtime with well-formed events, each of which finds a handler. */
  predicate Benign(s: System, steps: seq<Step>)
    decreases |steps|
  {
    && !s.demux.closed && WellFormed(s.demux.native)
    && (steps != [] ==> steps[0] != Close && Handled(s, steps[0]) && Benign(Next(s, steps[0]), steps[1..]))
  }

  function OwnSteps(steps: seq<Step>, r: nat): nat {
    if steps == [] then 0
    else (if steps[0].Wait? && steps[0].r == r then 1 else 0) + OwnSteps(steps[1..], r)
  }

  lemma {:induction false} NativePositionAppend(native: seq<Raw>, raw: Raw, r: nat)
    ensures NativePosition(native, r) < |native| ==> NativePosition(native + [raw], r) == NativePosition(native, r)
  {
    if native != [] {
      assert (native + [raw])[1..] == native[1..] + [raw];
      NativePositionAppend(native[1..], raw, r);
    }
  }

  lemma {:induction false} FirstForAppend(pending: seq<Event>, e: Event, r: nat)
    ensures FirstFor(pending, r) < |pending| ==> FirstFor(pending + [e], r) < |pending|
    ensures FirstFor(pending, r) == |pending| && e.requestId == r ==> FirstFor(pending + [e], r) == |pending|
    ensures FirstFor(pending, r) == |pending| && e.requestId != r ==> FirstFor(pending + [e], r) == |pending| + 1
  {
    if pending != [] {
      assert (pending + [e])[1..] == pending[1..] + [e];
      FirstForAppend(pending[1..], e, r);
    }
  }

  lemma FirstForRemove(pending: seq<Event>, i: nat, r: nat)
    requires i < |pending| && pending[i].requestId != r
    ensures var rest := pending[..i] + pending[i + 1..];
            FirstFor(rest, r) < |rest| <==> FirstFor(pending, r) < |pending|
  {
    var rest := pending[..i] + pending[i + 1..];
    var k := FirstFor(pending, r);
    if k < |pending| {
      assert rest[if k < i then k else k - 1] == pending[k];
    }
    var l := FirstFor(rest, r);
    if l < |rest| {
      assert rest[l] == pending[if l < i then l else l + 1];
    }
  }

  lemma WaitStepProgress(d: Demux, w: nat, hasHandler: bool, r: nat)
    requires Awaited(d, r) && WellFormed(d.native)
    requires !WaitStep(d, w, hasHandler).1.NoHandler?
    ensures var (d', outcome) := WaitStep(d, w, hasHandler);
            || (outcome.Delivered? && outcome.event.requestId == r)
            || (&& Awaited(d', r) && Distance(d', r) <= Distance(d, r)
                && (w == r ==> Distance(d', r) < Distance(d, r)))
  {
    var i := FirstFor(d.pending, w);
    if i < |d.pending| {
      if w != r {
        FirstForRemove(d.pending, i, r);
      }
    } else if d.native != [] {
      assert d.native[0] in d.native;
      NativeStepProgress(d, w, hasHandler, r);
    }
  }

  /** The same when the waiter reads past the buffer. */
  lemma NativeStepProgress(d: Demux, w: nat, hasHandler: bool, r: nat)
    requires Awaited(d, r) && FirstFor(d.pending, w) == |d.pending| && d.native != [] && d.native[0].Parsed?
    requires !WaitStep(d, w, hasHandler).1.NoHandler?
    ensures var (d', outcome) := WaitStep(d, w, hasHandler);
            || (outcome.Delivered? && outcome.event.requestId == r)
            || (&& Awaited(d', r) && Distance(d', r) <= Distance(d, r)
                && (w == r ==> Distance(d', r) < Distance(d, r)))
  {
    FirstForAppend(d.pending, d.native[0].event, r);
  }

  lemma ReadStepProgress(d: Demux, r: nat)
    requires !d.closed && Awaited(d, r) && WellFormed(d.native)
    ensures var (d', outcome) := ReadStep(d);
            || (outcome.Delivered? && outcome.event.requestId == r)
            || (Awaited(d', r) && Distance(d', r) <= Distance(d, r))
  {
    if d.pending != [] {
      assert d.pending[1..] == d.pending[..0] + d.pending[1..];
      if d.pending[0].requestId != r {
        FirstForRemove(d.pending, 0, r);
      }
    } else {
      assert d.native[0] in d.native;
    }
  }

  lemma DeliveredGrows(s: System, step: Step, r: nat)
    ensures For(s.delivered, r) <= For(Next(s, step).delivered, r)
    ensures |Next(s, step).delivered| == |s.delivered| + 1 && Next(s, step).delivered[|s.delivered|].requestId == r ==>
              |For(s.delivered, r)| < |For(Next(s, step).delivered, r)|
  {
    var t := Next(s, step);
    if |t.delivered| > |s.delivered| {
      ForConcat(s.delivered, t.delivered[|s.delivered|..], r);
    }
  }

  lemma {:induction false} DeliveredOnlyGrows(s: System, steps: seq<Step>, r: nat)
    ensures |For(s.delivered, r)| <= |For(Run(s, steps).delivered, r)|
    decreases |steps|
  {
    if steps != [] {
      DeliveredGrows(s, steps[0], r);
      DeliveredOnlyGrows(Next(s, steps[0]), steps[1..], r);
    }
  }

  /** If the first event for `r` is at position p of the native queue, or already in the
      buffer (p = 0), then p + 1 iterations of waiters for `r` suffice for an event of
      `r` to be handed out, whatever everybody else does in between. */
  lemma {:induction false} BoundedProgress(s: System, steps: seq<Step>, r: nat)
    requires Benign(s, steps) && Awaited(s.demux, r)
    requires OwnSteps(steps, r) > Distance(s.demux, r)
    ensures |For(Run(s, steps).delivered, r)| > |For(s.delivered, r)|
    decreases |steps|
  {
    var t := Next(s, steps[0]);
    DeliveredGrows(s, steps[0], r);
    DeliveredOnlyGrows(t, steps[1..], r);
    match steps[0]
    case Emit(raw) =>
      NativePositionAppend(s.demux.native, raw, r);
      BoundedProgress(t, steps[1..], r);
    case Read =>
      ReadStepProgress(s.demux, r);
      if |For(t.delivered, r)| == |For(s.delivered, r)| {
        BoundedProgress(t, steps[1..], r);
      }
    case Wait(w, hasHandler) =>
      WaitStepProgress(s.demux, w, hasHandler, r);
      if |For(t.delivered, r)| == |For(s.delivered, r)| {
        BoundedProgress(t, steps[1..], r);
      }
  }

  // ---------------------------------------------------------------------
  // What each outcome means
  // ---------------------------------------------------------------------

  predicate NoneFor(events: seq<Event>, r: nat) { forall i :: 0 <= i < |events| ==> events[i].requestId != r }

  /** The event a waiter for `r` gets next: the first buffered one of its own, else the head
      of the native queue. */
  predicate Obtains(d: Demux, r: nat, e: Event) {
    if NoneFor(d.pending, r) then d.native != [] && d.native[0] == Parsed(e)
    else exists i :: 0 <= i < |d.pending| && d.pending[i] == e && e.requestId == r && NoneFor(d.pending[..i], r)
  }

  /** A waiter idles, and nothing changes, only if there is nothing for it; a malformed entry
      fails it and is dropped, and only that; an event of another request is put at the end
      of the buffer; its own is delivered, or fails it if it has no handler. */
  lemma WaitOutcomes(d: Demux, r: nat, hasHandler: bool)
    ensures var (t, outcome), none := WaitStep(d, r, hasHandler), NoneFor(d.pending, r);
            && t.closed == d.closed && outcome != RuntimeClosed
            && (outcome == Idle <==> none && d.native == []) && (outcome == Idle ==> t == d)
            && (outcome == Rejected <==> none && d.native != [] && d.native[0].Malformed?)
            && (outcome == Rejected ==> t == d.(native := d.native[1..]))
            && (forall e :: outcome == Buffered(e) <==> Obtains(d, r, e) && e.requestId != r)
            && (forall e :: outcome == Buffered(e) ==> t == d.(native := d.native[1..], pending := d.pending + [e]))
            && (forall e :: outcome == Delivered(e) <==> Obtains(d, r, e) && e.requestId == r && (e.kind == HostRequest ==> hasHandler))
            && (forall e :: outcome == NoHandler(e) <==> Obtains(d, r, e) && e.requestId == r && e.kind == HostRequest && !hasHandler)
  {
    var i := FirstFor(d.pending, r);
    if i < |d.pending| {
      assert NoneFor(d.pending[..i], r);
      assert Obtains(d, r, d.pending[i]);
      forall j: nat | j < |d.pending| && d.pending[j].requestId == r && NoneFor(d.pending[..j], r) ensures j == i {
        FirstIs(d.pending, r, j);
      }
    }
  }

  lemma FirstIs(pending: seq<Event>, r: nat, j: nat)
    requires j < |pending| && pending[j].requestId == r && NoneFor(pending[..j], r)
    ensures FirstFor(pending, r) == j
  {
    assert forall k :: 0 <= k < j ==> pending[..j][k] == pending[k];
  }

  /** A direct read fails once the runtime is closed; otherwise it takes the oldest buffered
      event, else the oldest native entry, and fails on a malformed one. */
  lemma ReadOutcomes(d: Demux)
    ensures var (t, outcome) := ReadStep(d);
            && (outcome == RuntimeClosed <==> d.closed)
            && (outcome == Idle <==> !d.closed && d.pending == [] && d.native == [])
            && (outcome == Rejected <==> !d.closed && d.pending == [] && d.native != [] && d.native[0].Malformed?)
            && (outcome == RuntimeClosed || outcome == Idle ==> t == d)
            && (outcome == Rejected ==> t == d.(native := d.native[1..]))
            && (forall e :: outcome == Delivered(e) <==>
                  !d.closed && if d.pending != [] then e == d.pending[0] else d.native != [] && d.native[0] == Parsed(e))
            && (outcome.Delivered? ==>
                  t == if d.pending != [] then d.(pending := d.pending[1..]) else d.(native := d.native[1..]))
            && !outcome.Buffered? && !outcome.NoHandler?
  {
  }
}
