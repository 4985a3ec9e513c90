/** The one-shot callback slot of `getTags` (RNOneSignal.java lines
    168-182). `getTags` stores its callback only when the slot is empty and
    asks the SDK for the tags with a result handler; whenever a result
    handler is called it invokes the stored callback, if any, and empties
    the slot. This module is the specification over traces of calls; the
    class RNOneSignal in module Bridge implements it with its fields. */
module TagSlot {
  import opened Wrappers

  /** An invocation of callback with the tags. */
  datatype Delivery<T, C> = Delivery(callback: C, tags: T)

  /** `getTags(callback)` from the application, or the SDK calling a result
      handler with the tags. */
  datatype Call<T, C> = GetTags(callback: C) | TagsAvailable(tags: T)

  /** The slot (pendingGetTagsCallback) and the deliveries made so far. */
  datatype After<T, C> = After(pending: Option<C>, delivered: seq<Delivery<T, C>>)

  /** The effect of one call on the slot: the new slot and what it delivers. */
  function Step<T, C>(pending: Option<C>, call: Call<T, C>): (r: After<T, C>)
    ensures call.GetTags? && pending.Some? ==> r.pending == pending
    ensures call.GetTags? && pending.None? ==> r.pending == Some(call.callback)
    ensures call.GetTags? ==> r.pending.Some? && r.delivered == []
    ensures call.TagsAvailable? ==> r.pending.None?
    ensures call.TagsAvailable? && pending.Some? ==> r.delivered == [Delivery(pending.value, call.tags)]
    ensures call.TagsAvailable? && pending.None? ==> r.delivered == []
  {
    match call
    case GetTags(c) => After(if pending.None? then Some(c) else pending, [])
    case TagsAvailable(tags) =>
      After(None, if pending.Some? then [Delivery(pending.value, tags)] else [])
  }

  /** The slot and the deliveries after a trace of calls, from an empty slot. */
  function Run<T, C>(calls: seq<Call<T, C>>): After<T, C>
    decreases |calls|
  {
    if |calls| == 0 then After(None, [])
    else
      var before := Run(calls[..|calls| - 1]);
      var step := Step(before.pending, calls[|calls| - 1]);
      After(step.pending, before.delivered + step.delivered)
  }

  /** The callbacks handed to `getTags` in a trace. */
  function Requested<T, C>(calls: seq<Call<T, C>>): set<C> {
    set k | 0 <= k < |calls| && calls[k].GetTags? :: calls[k].callback
  }

  /** The number of `getTags` calls in a trace. */
  function Requests<T, C>(calls: seq<Call<T, C>>): nat {
    if |calls| == 0 then 0
    else Requests(calls[..|calls| - 1]) + if calls[|calls| - 1].GetTags? then 1 else 0
  }

  /** Over any trace, however often the SDK reports tags: each delivery
      uses up one `getTags` call, and a callback still stored uses up one
      more, so callbacks are never invoked more often than `getTags` was
      called; every stored or invoked callback came from a `getTags` call. */
  lemma {:induction false} AtMostOncePerRequest<T, C>(calls: seq<Call<T, C>>)
    ensures |Run(calls).delivered| + (if Run(calls).pending.Some? then 1 else 0) <= Requests(calls)
    ensures Run(calls).pending.Some? ==> Run(calls).pending.value in Requested(calls)
    ensures forall d :: d in Run(calls).delivered ==> d.callback in Requested(calls)
    decreases |calls|
  {
    if |calls| > 0 {
      var p := calls[..|calls| - 1];
      var call := calls[|calls| - 1];
      AtMostOncePerRequest(p);
      assert Requested(p) <= Requested(calls) by {
        forall k | 0 <= k < |p| && p[k].GetTags? ensures p[k].callback in Requested(calls) {
          assert calls[k] == p[k];
        }
      }
      if call.GetTags? {
        assert call.callback in Requested(calls) by {
          assert calls[|calls| - 1] == call;
        }
      }
    }
  }

  /** The callbacks of a trace's `getTags` calls are pairwise distinct. */
  ghost predicate DistinctRequests<T, C>(calls: seq<Call<T, C>>) {
    forall i, j :: 0 <= i < j < |calls| && calls[i].GetTags? && calls[j].GetTags? ==>
      calls[i].callback != calls[j].callback
  }

  /** The single-invocation rule for bridge callbacks, for the slot: when
      every `getTags` call passes a callback of its own, no callback is
      invoked twice, and a callback still pending has not been invoked. */
  lemma {:induction false} DistinctRequestsInvokedOnce<T, C>(calls: seq<Call<T, C>>)
    requires DistinctRequests(calls)
    ensures forall i, j :: 0 <= i < j < |Run(calls).delivered| ==>
              Run(calls).delivered[i].callback != Run(calls).delivered[j].callback
    ensures Run(calls).pending.Some? ==>
              forall i :: 0 <= i < |Run(calls).delivered| ==>
                Run(calls).delivered[i].callback != Run(calls).pending.value
    decreases |calls|
  {
    if |calls| > 0 {
      var p := calls[..|calls| - 1];
      var call := calls[|calls| - 1];
      assert DistinctRequests(p) by {
        forall i, j | 0 <= i < j < |p| && p[i].GetTags? && p[j].GetTags?
          ensures p[i].callback != p[j].callback
        {
          assert calls[i] == p[i] && calls[j] == p[j];
        }
      }
      DistinctRequestsInvokedOnce(p);
      AtMostOncePerRequest(p);
      if call.GetTags? && Run(p).pending.None? {
        forall i | 0 <= i < |Run(p).delivered| ensures Run(p).delivered[i].callback != call.callback {
          var d := Run(p).delivered[i];
          assert d in Run(p).delivered;
          var k :| 0 <= k < |p| && p[k].GetTags? && p[k].callback == d.callback;
          assert calls[k] == p[k];
        }
      }
    }
  }

  /** A second result with no new `getTags` call finds the slot empty: the
      callback is invoked once, with the first tags. */
  lemma SecondResultDeliversNothing<T, C>(c: C, first: T, second: T)
    ensures Run([GetTags(c), TagsAvailable(first), TagsAvailable(second)]).delivered
            == [Delivery(c, first)]
  {
    var calls: seq<Call<T, C>> := [GetTags(c), TagsAvailable(first), TagsAvailable(second)];
    var none: seq<Call<T, C>> := [];
    assert calls[..2][..1] == calls[..1] && calls[..1][..0] == none;
    assert calls[..2] == [GetTags(c), TagsAvailable(first)];
    assert Run(calls[..1]) == After(Some(c), []);
    assert Run(calls[..2]) == After(None, [Delivery(c, first)]);
  }

  /** A callback passed to `getTags` while another one is pending is
      dropped: it is never invoked, whatever the SDK reports afterwards. */
  lemma LaterCallbackDropped<T, C>(c1: C, c2: C, first: T, second: T)
    requires c1 != c2
    ensures Run([GetTags(c1), GetTags(c2), TagsAvailable(first), TagsAvailable(second)]).delivered
            == [Delivery(c1, first)]
    ensures forall d :: d in Run([GetTags(c1), GetTags(c2), TagsAvailable(first), TagsAvailable(second)]).delivered
              ==> d.callback != c2
  {
    var calls: seq<Call<T, C>> := [GetTags(c1), GetTags(c2), TagsAvailable(first), TagsAvailable(second)];
    var none: seq<Call<T, C>> := [];
    assert calls[..3][..2] == calls[..2] && calls[..2][..1] == calls[..1] && calls[..1][..0] == none;
    assert calls[..3] == [GetTags(c1), GetTags(c2), TagsAvailable(first)];
    assert Run(calls[..1]) == After(Some(c1), []);
    assert Run(calls[..2]) == After(Some(c1), []);
    assert Run(calls[..3]) == After(None, [Delivery(c1, first)]);
  }
}
