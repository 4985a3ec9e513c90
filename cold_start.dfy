/** The cold-start buffer of one handler kind (notification opened, in-app
    message clicked): RNOneSignal.java lines 432-453 and 500-521. An event
    that arrives before the application has called the "init params"
    operation is kept in a one-slot buffer, overwriting an earlier one; the
    "init params" operation marks the handler ready and hands the buffered
    event, if any, to the stored callback; once ready, every event goes
    straight to the stored callback. This module is the specification of
    that state machine over traces of calls; the class RNOneSignal in module
    Bridge implements it with the source's fields. */
module ColdStart {
  import opened Wrappers

  /** The state of one handler kind: the ready flag
      (hasSetNotificationOpenedHandler), the one-slot buffer
      (coldStartNotificationResult) and the stored callback
      (notificationOpenedCallback). */
  datatype Channel<E, C> = Channel(ready: bool, buffered: Option<E>, handler: Option<C>)

  /** An invocation of callback with event. */
  datatype Delivery<E, C> = Delivery(callback: C, event: E)

  /** The calls that reach one handler kind: the application stores a
      callback, the application declares it ready, the SDK reports an event. */
  datatype Call<E, C> = SetHandler(callback: C) | InitParams | Arrive(event: E)

  /** A channel and the deliveries made so far. */
  datatype After<E, C> = After(channel: Channel<E, C>, delivered: seq<Delivery<E, C>>)

  /** The state of a freshly constructed module: not ready, nothing
      buffered, no callback. */
  function Initial<E, C>(): Channel<E, C> {
    Channel(false, None, None)
  }

  /** The call invokes the stored callback. */
  predicate Delivers<E, C>(ch: Channel<E, C>, call: Call<E, C>) {
    (call.InitParams? && ch.buffered.Some?) || (call.Arrive? && ch.ready)
  }

  /** The call does not invoke a callback that was never stored (which
      would throw a NullPointerException in the source). */
  predicate CanStep<E, C>(ch: Channel<E, C>, call: Call<E, C>) {
    Delivers(ch, call) ==> ch.handler.Some?
  }

  /** The effect of one call: the new channel and what it delivers. */
  function Step<E, C>(ch: Channel<E, C>, call: Call<E, C>): (r: After<E, C>)
    requires CanStep(ch, call)
    ensures |r.delivered| == if Delivers(ch, call) then 1 else 0
    ensures Delivers(ch, call) ==> r.delivered[0].callback == ch.handler.value
    ensures call.InitParams? ==>
              r.channel == ch.(ready := true, buffered := None)
              && (ch.buffered.Some? ==> r.delivered[0].event == ch.buffered.value)
    ensures call.Arrive? && !ch.ready ==> r.channel == ch.(buffered := Some(call.event))
    ensures call.Arrive? && ch.ready ==> r.channel == ch && r.delivered[0].event == call.event
    ensures call.SetHandler? ==> r.channel == ch.(handler := Some(call.callback))
  {
    match call
    case SetHandler(c) => After(ch.(handler := Some(c)), [])
    case InitParams =>
      if ch.buffered.Some? then
        After(ch.(ready := true, buffered := None), [Delivery(ch.handler.value, ch.buffered.value)])
      else After(ch.(ready := true), [])
    case Arrive(e) =>
      if ch.ready then After(ch, [Delivery(ch.handler.value, e)])
      else After(ch.(buffered := Some(e)), [])
  }

  /** No call of the trace dereferences a missing callback. */
  predicate Safe<E, C>(calls: seq<Call<E, C>>)
    decreases |calls|, 0
  {
    |calls| == 0 ||
    (Safe(calls[..|calls| - 1]) && CanStep(Run(calls[..|calls| - 1]).channel, calls[|calls| - 1]))
  }

  /** The state and the deliveries after a trace of calls, from Initial(). */
  function Run<E, C>(calls: seq<Call<E, C>>): After<E, C>
    requires Safe(calls)
    decreases |calls|, 1
  {
    if |calls| == 0 then After(Initial(), [])
    else
      var before := Run(calls[..|calls| - 1]);
      var step := Step(before.channel, calls[|calls| - 1]);
      After(step.channel, before.delivered + step.delivered)
  }

  // An independent description of what a trace delivers.

  /** The position of the first InitParams call, or |calls| if there is none. */
  function FirstInit<E, C>(calls: seq<Call<E, C>>): (i: nat)
    ensures i <= |calls|
    ensures i < |calls| ==> calls[i].InitParams?
    ensures forall j :: 0 <= j < i ==> !calls[j].InitParams?
  {
    if |calls| == 0 then 0
    else if calls[0].InitParams? then 0
    else 1 + FirstInit(calls[1..])
  }

  /** The events the SDK reported, in order. */
  function Arrivals<E, C>(calls: seq<Call<E, C>>): seq<E> {
    if |calls| == 0 then []
    else
      var last := calls[|calls| - 1];
      Arrivals(calls[..|calls| - 1]) + if last.Arrive? then [last.event] else []
  }

  /** The last event the SDK reported, if any. */
  function LastArrival<E, C>(calls: seq<Call<E, C>>): Option<E> {
    if |calls| == 0 then None
    else if calls[|calls| - 1].Arrive? then Some(calls[|calls| - 1].event)
    else LastArrival(calls[..|calls| - 1])
  }

  /** The last callback stored, if any. */
  function LastHandler<E, C>(calls: seq<Call<E, C>>): Option<C> {
    if |calls| == 0 then None
    else if calls[|calls| - 1].SetHandler? then Some(calls[|calls| - 1].callback)
    else LastHandler(calls[..|calls| - 1])
  }

  function AsSeq<E>(o: Option<E>): seq<E> {
    if o.Some? then [o.value] else []
  }

  /** The events of a sequence of deliveries. */
  function Events<E, C>(ds: seq<Delivery<E, C>>): seq<E> {
    if |ds| == 0 then [] else Events(ds[..|ds| - 1]) + [ds[|ds| - 1].event]
  }

  /** What the buffer-then-flush design promises: nothing is delivered
      before the first InitParams; then the latest event that arrived before
      it (the only one that survives in the buffer) is delivered once, and
      every later event is delivered once, in order. */
  function Expected<E, C>(calls: seq<Call<E, C>>): seq<E> {
    var i := FirstInit(calls);
    if i == |calls| then [] else AsSeq(LastArrival(calls[..i])) + Arrivals(calls[i + 1..])
  }

  lemma EventsAppend<E, C>(ds: seq<Delivery<E, C>>, more: seq<Delivery<E, C>>)
    requires |more| <= 1
    ensures Events(ds + more) == Events(ds) + Events(more)
  {
    if |more| == 1 {
      assert (ds + more)[..|ds + more| - 1] == ds;
    } else {
      assert ds + more == ds;
    }
  }

  /** Where an InitParams call first occurs in a trace extended by one call. */
  lemma FirstInitAppend<E, C>(p: seq<Call<E, C>>, call: Call<E, C>)
    ensures FirstInit(p + [call]) ==
              if FirstInit(p) < |p| then FirstInit(p)
              else if call.InitParams? then |p| else |p| + 1
  {
    var calls := p + [call];
    var i := FirstInit(calls);
    assert forall j :: 0 <= j < |p| ==> calls[j] == p[j];
    if FirstInit(p) < |p| {
      assert calls[FirstInit(p)].InitParams?;
    } else if call.InitParams? {
      assert calls[|p|].InitParams?;
    }
  }

  /** What a channel looks like after a trace: ready exactly when an
      InitParams call has been made; until then the buffer holds the latest
      event and nothing has been delivered; afterwards the buffer is empty;
      the stored callback is the last one set. */
  ghost predicate Shape<E, C>(calls: seq<Call<E, C>>, a: After<E, C>) {
    && (a.channel.ready <==> FirstInit(calls) < |calls|)
    && (!a.channel.ready ==> a.channel.buffered == LastArrival(calls) && a.delivered == [])
    && (a.channel.ready ==> a.channel.buffered.None?)
    && a.channel.handler == LastHandler(calls)
  }

  /** Every trace leaves the channel in the Shape above. */
  lemma {:induction false} RunShape<E, C>(calls: seq<Call<E, C>>)
    requires Safe(calls)
    ensures Shape(calls, Run(calls))
    decreases |calls|
  {
    if |calls| > 0 {
      var p := calls[..|calls| - 1];
      var call := calls[|calls| - 1];
      assert calls == p + [call];
      RunShape(p);
      FirstInitAppend(p, call);
    }
  }

  /** The events a trace delivers are exactly the Expected ones. */
  lemma {:induction false} RunDeliversExpected<E, C>(calls: seq<Call<E, C>>)
    requires Safe(calls)
    ensures Events(Run(calls).delivered) == Expected(calls)
    decreases |calls|
  {
    if |calls| == 0 {
      return;
    }
    var p := calls[..|calls| - 1];
    var call := calls[|calls| - 1];
    assert calls == p + [call];
    RunDeliversExpected(p);
    RunShape(p);
    FirstInitAppend(p, call);
    var before := Run(p);
    EventsAppend(before.delivered, Step(before.channel, call).delivered);
    var i := FirstInit(p);
    if i < |p| {
      ReadyExtends(p, call);
    } else if call.InitParams? {
      assert calls[..|p|] == p;
      assert calls[|p| + 1..] == [];
    }
  }

  /** After the first InitParams, one more call adds its event, if any, to
      the Expected events. */
  lemma {:induction false} ReadyExtends<E, C>(p: seq<Call<E, C>>, call: Call<E, C>)
    requires FirstInit(p) < |p|
    requires FirstInit(p + [call]) == FirstInit(p)
    ensures Expected(p + [call]) == Expected(p) + if call.Arrive? then [call.event] else []
  {
    var calls := p + [call];
    var i := FirstInit(p);
    assert calls[..i] == p[..i];
    assert calls[i + 1..] == p[i + 1..] + [call];
    ArrivalsAppend(p[i + 1..], call);
  }

  lemma ArrivalsAppend<E, C>(q: seq<Call<E, C>>, call: Call<E, C>)
    ensures Arrivals(q + [call]) == Arrivals(q) + if call.Arrive? then [call.event] else []
  {
    assert (q + [call])[..|q|] == q;
  }

  /** The SDK reports each of events in turn. */
  function Reports<E, C>(events: seq<E>): (calls: seq<Call<E, C>>)
    ensures |calls| == |events|
    ensures forall k :: 0 <= k < |calls| ==> calls[k] == Arrive(events[k])
  {
    if |events| == 0 then [] else Reports(events[..|events| - 1]) + [Arrive(events[|events| - 1])]
  }

  /** Registering the handler before any event buffers nothing: every event
      that arrives afterwards is delivered directly, once, in order. This is
      the intended behaviour, for a handler that accepts any number of
      invocations; with a single-use bridge Callback, as the source stores,
      the second event throws instead (SecondDirectEventThrows). */
  lemma ReadyFirstDeliversAll<E, C>(c: C, events: seq<E>)
    ensures Safe([SetHandler(c), InitParams] + Reports(events))
    ensures Events(Run([SetHandler(c), InitParams] + Reports<E, C>(events)).delivered) == events
  {
    var tail := Reports<E, C>(events);
    var calls := [SetHandler(c), InitParams] + tail;
    SafeAfterHandler(c, tail);
    RunDeliversExpected(calls);
    assert FirstInit(calls) == 1;
    assert calls[..1] == [SetHandler(c)];
    assert LastArrival(calls[..1]) == None by {
      assert calls[..1][..0] == [];
    }
    ArrivalsOfReports<E, C>(events);
    assert calls[2..] == tail;
  }

  /** Once a callback is stored first, no later call of a trace without
      SetHandler can dereference a missing callback. */
  lemma {:induction false} SafeAfterHandler<E, C>(c: C, tail: seq<Call<E, C>>)
    requires forall k :: 0 <= k < |tail| ==> !tail[k].SetHandler?
    ensures Safe([SetHandler(c), InitParams] + tail)
    ensures Run([SetHandler(c), InitParams] + tail).channel.handler == Some(c)
    decreases |tail|
  {
    var calls := [SetHandler(c), InitParams] + tail;
    if |tail| == 0 {
      assert calls[..1] == [SetHandler(c)];
      assert calls[..0] == [];
    } else {
      var t := tail[..|tail| - 1];
      SafeAfterHandler(c, t);
      assert calls[..|calls| - 1] == [SetHandler(c), InitParams] + t;
    }
  }

  lemma {:induction false} ArrivalsOfReports<E, C>(events: seq<E>)
    ensures Arrivals(Reports<E, C>(events)) == events
    decreases |events|
  {
    if |events| > 0 {
      var e := events[..|events| - 1];
      ArrivalsOfReports<E, C>(e);
      var calls := Reports<E, C>(events);
      assert calls[..|calls| - 1] == Reports<E, C>(e);
    }
  }

  // Single-use callbacks. A React Native bridge Callback may be invoked
  // once only; invoking it again throws (RNOneSignal.java, lines 95-98).

  /** The callbacks invoked by a sequence of deliveries. */
  function Invoked<E, C(==)>(ds: seq<Delivery<E, C>>): set<C> {
    set i | 0 <= i < |ds| :: ds[i].callback
  }

  /** The call neither dereferences a missing callback nor invokes a
      callback a second time. */
  predicate OneShot<E, C(==)>(a: After<E, C>, call: Call<E, C>) {
    CanStep(a.channel, call)
    && (Delivers(a.channel, call) ==> a.channel.handler.value !in Invoked(a.delivered))
  }

  /** No call of the trace throws when the stored callback is a single-use
      bridge Callback. */
  predicate SafeOneShot<E, C(==)>(calls: seq<Call<E, C>>)
    decreases |calls|
  {
    Safe(calls) &&
    (|calls| == 0 ||
     (SafeOneShot(calls[..|calls| - 1]) && OneShot(Run(calls[..|calls| - 1]), calls[|calls| - 1])))
  }

  /** As the source is written: once the handler is ready, the first event
      goes to the stored callback and the second one would invoke that same
      callback again, which throws; without the single-use rule the trace is
      fine. */
  lemma SecondDirectEventThrows<E, C>(c: C, first: E, second: E)
    ensures Safe([SetHandler(c), InitParams, Arrive(first), Arrive(second)])
    ensures Safe([SetHandler(c), InitParams, Arrive(first)])
    ensures Run([SetHandler(c), InitParams, Arrive(first)]).delivered == [Delivery(c, first)]
    ensures Run([SetHandler(c), InitParams, Arrive(first)]).channel.handler == Some(c)
    ensures !OneShot(Run([SetHandler(c), InitParams, Arrive(first)]), Arrive(second))
    ensures !SafeOneShot([SetHandler(c), InitParams, Arrive(first), Arrive(second)])
  {
    var calls: seq<Call<E, C>> := [SetHandler(c), InitParams, Arrive(first), Arrive(second)];
    var none: seq<Call<E, C>> := [];
    var three := [SetHandler(c), InitParams, Arrive(first)];
    assert calls[..3] == three;
    assert three[..2] == [SetHandler(c), InitParams];
    assert three[..2][..1] == [SetHandler(c)];
    assert three[..2][..1][..0] == none;
    assert Run<E, C>([SetHandler(c)]) == After(Channel(false, None, Some(c)), []);
    assert Run<E, C>([SetHandler(c), InitParams]) == After(Channel(true, None, Some(c)), []);
    assert Run(three) == After(Channel(true, None, Some(c)), [Delivery(c, first)]);
    assert c in Invoked(Run(three).delivered);
  }

  /** With single-use callbacks, a trace that does not throw invokes each
      callback at most once. */
  lemma {:induction false} OneShotInvokesEachOnce<E, C>(calls: seq<Call<E, C>>)
    requires SafeOneShot(calls)
    ensures forall i, j :: 0 <= i < j < |Run(calls).delivered| ==>
              Run(calls).delivered[i].callback != Run(calls).delivered[j].callback
    decreases |calls|
  {
    if |calls| > 0 {
      var p := calls[..|calls| - 1];
      OneShotInvokesEachOnce(p);
      var before := Run(p);
      var step := Step(before.channel, calls[|calls| - 1]);
      var ds := Run(calls).delivered;
      assert ds == before.delivered + step.delivered;
      forall i, j | 0 <= i < j < |ds| ensures ds[i].callback != ds[j].callback {
        if j >= |before.delivered| {
          assert ds[i] == before.delivered[i];
        }
      }
    }
  }
}
