/**
 * lib/any.js: `CollectionAny`, which resolves with the first item to resolve
 * and rejects with an AggregateError once every item has rejected.
 *
 * lib/any.js extends a Collection whose `resolvedOneDo`, `abortPending` and
 * `exit` are not part of this repository (lib/collection.js has none of
 * them). The model gives them the plainest behaviour that lib/any.js relies
 * on: the base `resolvedOneDo` records the entry and counts it off as
 * `rejectedOneDo` does, calling `exit` at 0; `exit` calls `done`;
 * `abortPending` is recorded as one event.
 */
module CollectionAny {
  import Utils
  import Collections

  type JsValue = Utils.JsValue
  type Status = Collections.Status

  /** The message `done` gives the AggregateError. */
  const AllRejectedMessage := "All promises were rejected"

  /** The `name` of the fallback AggregateError class. */
  const AggregateErrorName := "AggregateError"

  /** An AggregateError (section 20.5.7 of ECMA-262): the errors it groups and its message. */
  datatype AggregateErr = AggregateErr(errors: seq<JsValue>, message: string)

  /**
   * `new AggregateErr(errors, message)` of the fallback class: `errors` holds
   * the given errors, in order, and `message` the message.
   */
  function NewAggregateError(errors: seq<JsValue>, message: string): (e: AggregateErr)
    ensures e.errors == errors && |e.errors| == |errors| && e.message == message
  {
    AggregateErr(errors, message)
  }

  /** What a `CollectionAny` sends out: a call of `abortPending`, the output's resolve or reject. */
  datatype AnyEvent =
    | AbortPendingCalled
    | AnyResolved(v: JsValue)
    | AnyRejected(e: AggregateErr)

  predicate IsOutput(e: AnyEvent) {
    e.AnyResolved? || e.AnyRejected?
  }

  /** How many times the output was settled. */
  function Outputs(events: seq<AnyEvent>): (n: nat)
    ensures n <= |events|
  {
    if events == [] then 0
    else Outputs(events[..|events| - 1]) + (if IsOutput(events[|events| - 1]) then 1 else 0)
  }

  lemma OutputsAppend(events: seq<AnyEvent>, e: AnyEvent)
    ensures Outputs(events + [e]) == Outputs(events) + (if IsOutput(e) then 1 else 0)
  {
    assert (events + [e])[..|events|] == events;
  }

  /** Every field of a `CollectionAny`. */
  datatype AnyFields = AnyFields(
    awaitAll: bool,
    state: seq<Status>,
    result: seq<JsValue>,
    numPending: int,
    anyState: Status,
    anyResult: JsValue,
    events: seq<AnyEvent>)

  ghost predicate SomeResolved(state: seq<Status>) {
    exists i :: 0 <= i < |state| && state[i] == Collections.Resolved
  }

  /**
   * The latch is set exactly when an entry has resolved; the count is the
   * number of pending entries until the latch forces it without `await`,
   * after which it is never positive; the output settles at most once, never
   * while something could still report and bring the count to 0.
   */
  ghost predicate AnyValid(f: AnyFields) {
    && |f.state| == |f.result|
    && f.anyState != Collections.Rejected
    && (f.anyState == Collections.Resolved <==> SomeResolved(f.state))
    && (f.anyState == Collections.Pending || f.awaitAll ==> f.numPending == Collections.CountPending(f.state))
    && (f.anyState == Collections.Resolved && !f.awaitAll ==> f.numPending <= 0)
    && Outputs(f.events) <= 1
    && (Outputs(f.events) == 1 ==> f.numPending <= 0)
    && (Outputs(f.events) == 1 && f.anyState == Collections.Pending ==> Collections.AllReported(f.state))
  }

  /** lib/any.js `done()`: resolve with the first value, or reject with every error in input order. */
  function AnyDone(f: AnyFields): (e: AnyEvent)
    ensures IsOutput(e)
    ensures e.AnyResolved? <==> f.anyState == Collections.Resolved
    ensures e.AnyResolved? ==> e.v == f.anyResult
    ensures e.AnyRejected? ==> e.e == NewAggregateError(f.result, AllRejectedMessage)
  {
    if f.anyState == Collections.Resolved then AnyResolved(f.anyResult)
    else AnyRejected(NewAggregateError(f.result, AllRejectedMessage))
  }

  /** The base `exit()`: settle the output through `done()`. */
  function ExitOf(f: AnyFields): (g: AnyFields)
    ensures g.(events := f.events) == f
    ensures g.events == f.events + [AnyDone(f)]
  {
    f.(events := f.events + [AnyDone(f)])
  }

  /** The base `resolvedOneDo(value, index)`: record the entry, count it off, `exit` at 0. */
  function BaseResolvedOneDoOf(f: AnyFields, value: JsValue, index: nat): (g: AnyFields)
    requires |f.state| == |f.result| && index < |f.state|
    ensures g.state == f.state[index := Collections.Resolved] && g.result == f.result[index := value]
    ensures g.numPending == f.numPending - 1 && g.awaitAll == f.awaitAll
    ensures g.anyState == f.anyState && g.anyResult == f.anyResult
    ensures g.events == f.events + (if f.numPending == 1 then [AnyDone(g)] else [])
  {
    var g := f.(state := f.state[index := Collections.Resolved], result := f.result[index := value], numPending := f.numPending - 1);
    if g.numPending == 0 then ExitOf(g) else g
  }

  /**
   * `resolvedOneDo(value, index)`: the first resolution sets the latch and,
   * without `await`, forces the count to 1 so the base step exits at once;
   * it alone then calls `abortPending`.
   */
  function ResolvedOneDoOf(f: AnyFields, value: JsValue, index: nat): (g: AnyFields)
    requires AnyValid(f) && index < |f.state| && f.state[index] == Collections.Pending
    ensures AnyValid(g)
    ensures g.state == f.state[index := Collections.Resolved] && g.result == f.result[index := value]
    ensures g.anyState == Collections.Resolved
    ensures g.anyResult == if f.anyState == Collections.Pending then value else f.anyResult
  {
    if f.anyState == Collections.Pending then FirstResolutionOf(f, value, index)
    else LaterResolutionOf(f, value, index)
  }

  /**
   * The first resolution: latch `value`; without `await` the output resolves
   * with it at once; in either case `abortPending` follows the base step.
   */
  function FirstResolutionOf(f: AnyFields, value: JsValue, index: nat): (g: AnyFields)
    requires AnyValid(f) && index < |f.state| && f.state[index] == Collections.Pending
    requires f.anyState == Collections.Pending
    ensures AnyValid(g)
    ensures g.state == f.state[index := Collections.Resolved] && g.result == f.result[index := value]
    ensures g.anyState == Collections.Resolved && g.anyResult == value
    ensures !f.awaitAll ==> g.events == f.events + [AnyResolved(value), AbortPendingCalled]
    ensures f.awaitAll ==>
      g.events == f.events + (if Collections.AllReported(g.state) then [AnyResolved(value)] else []) + [AbortPendingCalled]
  {
    var f2 := BaseResolvedOneDoOf(Latched(f, value), value, index);
    FirstResolutionValid(f, value, index);
    FirstResolutionEvents(f, value, index);
    f2.(events := f2.events + [AbortPendingCalled])
  }

  /** The latch step of the first resolution; without `await` the count is forced to 1. */
  function Latched(f: AnyFields, value: JsValue): (g: AnyFields)
    ensures g == f.(anyState := Collections.Resolved, anyResult := value, numPending := g.numPending)
    ensures g.numPending == if f.awaitAll then f.numPending else 1
  {
    f.(anyState := Collections.Resolved, anyResult := value, numPending := if !f.awaitAll then 1 else f.numPending)
  }

  /** What the first resolution leaves is valid. */
  lemma {:induction false} FirstResolutionValid(f: AnyFields, value: JsValue, index: nat)
    requires AnyValid(f) && index < |f.state| && f.state[index] == Collections.Pending
    requires f.anyState == Collections.Pending
    ensures var f2 := BaseResolvedOneDoOf(Latched(f, value), value, index);
      AnyValid(f2.(events := f2.events + [AbortPendingCalled]))
  {
    Collections.ReportFacts(f.state, index, Collections.Resolved);
    var f1 := Latched(f, value);
    var f2 := BaseResolvedOneDoOf(f1, value, index);
    var g := f2.(events := f2.events + [AbortPendingCalled]);
    assert g.state[index] == Collections.Resolved;
    assert SomeResolved(g.state);
    assert !Collections.AllReported(f.state) by {
      assert f.state[index] == Collections.Pending;
    }
    assert Outputs(f.events) == 0;
    OutputsAppend(f.events, AnyDone(f2));
    OutputsAppend(f2.events, AbortPendingCalled);
    assert Outputs(f2.events) == (if f1.numPending == 1 then 1 else 0);
  }

  /** The events of the first resolution. */
  lemma {:induction false} FirstResolutionEvents(f: AnyFields, value: JsValue, index: nat)
    requires AnyValid(f) && index < |f.state| && f.state[index] == Collections.Pending
    requires f.anyState == Collections.Pending
    ensures var f2 := BaseResolvedOneDoOf(Latched(f, value), value, index);
      && (!f.awaitAll ==> f2.events == f.events + [AnyResolved(value)])
      && (f.awaitAll ==> f2.events == f.events + (if Collections.AllReported(f2.state) then [AnyResolved(value)] else []))
  {
    Collections.ReportFacts(f.state, index, Collections.Resolved);
  }

  /** A later resolution: only the base step, which settles the output only as the last report under `await`. */
  function LaterResolutionOf(f: AnyFields, value: JsValue, index: nat): (g: AnyFields)
    requires AnyValid(f) && index < |f.state| && f.state[index] == Collections.Pending
    requires f.anyState == Collections.Resolved
    ensures AnyValid(g)
    ensures g.state == f.state[index := Collections.Resolved] && g.result == f.result[index := value]
    ensures g.anyState == Collections.Resolved && g.anyResult == f.anyResult
    ensures g.events == f.events || g.events == f.events + [AnyResolved(f.anyResult)]
  {
    Collections.ReportFacts(f.state, index, Collections.Resolved);
    var g := BaseResolvedOneDoOf(f, value, index);
    assert g.state[index] == Collections.Resolved;
    OutputsAppend(f.events, AnyDone(g));
    g
  }

  /** `rejectedOneDo(err, index)`: record the entry, count it off, `exit` at 0. */
  function RejectedOneDoOf(f: AnyFields, err: JsValue, index: nat): (g: AnyFields)
    requires AnyValid(f) && index < |f.state| && f.state[index] == Collections.Pending
    ensures AnyValid(g)
    ensures g.state == f.state[index := Collections.Rejected] && g.result == f.result[index := err]
    ensures g.numPending == f.numPending - 1
    ensures g.anyState == f.anyState && g.anyResult == f.anyResult
    ensures g.events == f.events + (if g.numPending == 0 then [AnyDone(g)] else [])
  {
    var g := Counted(f, err, index);
    RejectedOneValid(f, err, index);
    if g.numPending == 0 then ExitOf(g) else g
  }

  /** The entry recorded as rejected and counted off, before any `exit`. */
  function Counted(f: AnyFields, err: JsValue, index: nat): (g: AnyFields)
    requires |f.state| == |f.result| && index < |f.state|
    ensures g.state == f.state[index := Collections.Rejected] && g.result == f.result[index := err]
    ensures g.numPending == f.numPending - 1 && g.events == f.events
    ensures g.awaitAll == f.awaitAll && g.anyState == f.anyState && g.anyResult == f.anyResult
  {
    f.(state := f.state[index := Collections.Rejected], result := f.result[index := err], numPending := f.numPending - 1)
  }

  /** A rejection keeps the collection valid, whether or not it exits. */
  lemma RejectedOneValid(f: AnyFields, err: JsValue, index: nat)
    requires AnyValid(f) && index < |f.state| && f.state[index] == Collections.Pending
    ensures var g := Counted(f, err, index); AnyValid(if g.numPending == 0 then ExitOf(g) else g)
  {
    Collections.ReportFacts(f.state, index, Collections.Rejected);
    var g := Counted(f, err, index);
    assert SomeResolved(g.state) <==> SomeResolved(f.state) by {
      if SomeResolved(f.state) {
        var i :| 0 <= i < |f.state| && f.state[i] == Collections.Resolved;
        assert g.state[i] == Collections.Resolved;
      }
      if SomeResolved(g.state) {
        var i :| 0 <= i < |g.state| && g.state[i] == Collections.Resolved;
        assert f.state[i] == Collections.Resolved;
      }
    }
    assert AnyValid(g);
    if g.numPending == 0 {
      assert Outputs(f.events) == 0;
      OutputsAppend(g.events, AnyDone(g));
    }
  }

  /**
   * Reports that only reject leave the output settled exactly when none is
   * pending any more, and then with an AggregateError over every entry.
   */
  lemma {:induction false} AllRejectedGivesAggregate(f: AnyFields, err: JsValue, index: nat)
    requires AnyValid(f) && index < |f.state| && f.state[index] == Collections.Pending
    requires f.anyState == Collections.Pending
    ensures var g := RejectedOneDoOf(f, err, index);
      && (Collections.AllReported(g.state) <==> Outputs(g.events) == 1)
      && (Collections.AllReported(g.state) ==> g.events[|g.events| - 1] == AnyRejected(AggregateErr(g.result, AllRejectedMessage)))
  {
    var g := RejectedOneDoOf(f, err, index);
    Collections.ReportFacts(f.state, index, Collections.Rejected);
    OutputsAppend(f.events, AnyDone(g));
    assert Outputs(f.events) == 0;
  }

  class AnyCollection {
    var awaitAll: bool
    var state: seq<Status>
    var result: seq<JsValue>
    var numPending: int
    var anyState: Status
    var anyResult: JsValue
    var events: seq<AnyEvent>

    function F(): AnyFields
      reads this
    {
      AnyFields(awaitAll, state, result, numPending, anyState, anyResult, events)
    }

    ghost predicate Valid()
      reads this
    {
      AnyValid(F())
    }

    /**
     * `new CollectionAny(options)` once the base class has subscribed to
     * `items`: every entry pending, the latch at `PENDING` and `undefined`.
     */
    constructor (awaitAll: bool, items: seq<JsValue>)
      ensures Valid()
      ensures this.awaitAll == awaitAll && result == items && |state| == |items| && numPending == |items|
      ensures Collections.AllPending(state) && anyState == Collections.Pending && anyResult == Utils.Undefined
      ensures events == []
    {
      this.awaitAll := awaitAll;
      state := seq(|items|, _ => Collections.Pending);
      result := items;
      numPending := |items|;
      anyState := Collections.Pending;
      anyResult := Utils.Undefined;
      events := [];
      new;
      AllPendingCount(state);
    }

    /** `done()` */
    method Done()
      modifies this
      ensures F() == old(F()).(events := old(events) + [AnyDone(old(F()))])
    {
      if anyState == Collections.Resolved {
        events := events + [AnyResolved(anyResult)];
      } else {
        var err := NewAggregateError(result, AllRejectedMessage);
        events := events + [AnyRejected(err)];
      }
    }

    /** The base `exit()`. */
    method Exit()
      modifies this
      ensures F() == ExitOf(old(F()))
    {
      Done();
    }

    /** The base `abortPending()`. */
    method AbortPending()
      modifies this
      ensures F() == old(F()).(events := old(events) + [AbortPendingCalled])
    {
      events := events + [AbortPendingCalled];
    }

    /** The base `resolvedOneDo(value, index)`. */
    method BaseResolvedOneDo(value: JsValue, index: nat)
      requires |state| == |result| && index < |state|
      modifies this
      ensures F() == BaseResolvedOneDoOf(old(F()), value, index)
    {
      state := state[index := Collections.Resolved];
      result := result[index := value];
      numPending := numPending - 1;
      if numPending == 0 {
        Exit();
      }
    }

    /** `resolvedOneDo(value, index)` */
    method ResolvedOneDo(value: JsValue, index: nat)
      requires Valid() && index < |state| && state[index] == Collections.Pending
      modifies this
      ensures F() == ResolvedOneDoOf(old(F()), value, index)
    {
      var isPending := anyState == Collections.Pending;
      if isPending {
        anyState := Collections.Resolved;
        anyResult := value;
        if !awaitAll {
          numPending := 1;
        }
      }
      BaseResolvedOneDo(value, index);
      if isPending {
        AbortPending();
      }
    }

    /** `rejectedOneDo(err, index)` */
    method RejectedOneDo(err: JsValue, index: nat)
      requires Valid() && index < |state| && state[index] == Collections.Pending
      modifies this
      ensures F() == RejectedOneDoOf(old(F()), err, index)
    {
      state := state[index := Collections.Rejected];
      result := result[index := err];
      numPending := numPending - 1;
      if numPending == 0 {
        Exit();
      }
    }
  }

  lemma AllPendingCount(state: seq<Status>)
    requires Collections.AllPending(state)
    ensures Collections.CountPending(state) == |state|
  {
    if state != [] {
      AllPendingCount(state[..|state| - 1]);
    }
  }
}
