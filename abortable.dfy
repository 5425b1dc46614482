/**
 * lib/abortable.js: the Abortable constructor, which runs the executor
 * against a `DummyAbortable` and then moves the dummy's state onto the new
 * handle, and the overridden `.then()`.
 *
 * The executor is user code. It is given here as the list of callback calls
 * it makes synchronously; what each call throws is handed back to it.
 */
module Abortable {
  import opened Wrappers
  import opened Values
  import opened Methods
  import opened Dummy

  /** One call the executor makes on the callbacks it was given. */
  datatype ExecCall = CallResolve(value: Value) | CallReject(reason: Value) | CallOnAbort(fn: FnArg)

  /** The `executor` argument: not a function, or a function making these calls. */
  datatype Executor = NotAFunction | Runs(calls: seq<ExecCall>)

  /** Every handle the calls mention is in an arena of `n` handles. */
  predicate CallsIn(calls: seq<ExecCall>, n: nat) {
    forall i :: 0 <= i < |calls| && calls[i].CallResolve? && calls[i].value.HandleRef? ==> calls[i].value.id < n
  }

  /**
   * One executor call on the dummy: its new state, the native calls made,
   * what was thrown. `onAbort` reaches the dummy's `_onAbort` under `rule`.
   */
  function DummyStepOf(d: DummyState, owner: Id, c: ExecCall, hs: seq<HandleState>, rule: OnAbortRule)
    : (r: (DummyState, seq<Event>, Option<Exception>))
    requires c.CallResolve? && c.value.HandleRef? ==> c.value.id < |hs|
    ensures c.CallResolve? ==> r == (DummyResolvedOf(d, c.value, hs), [NativeResolve(owner, c.value)], None)
    ensures c.CallReject? ==> r == (DummyRejectedOf(d), [NativeReject(owner, c.reason)], None)
    ensures c.CallOnAbort? ==> r == (DummyOnAbortByOf(d, c.fn, rule).0, [], DummyOnAbortByOf(d, c.fn, rule).1)
  {
    match c
    case CallResolve(v) => (DummyResolvedOf(d, v, hs), [NativeResolve(owner, v)], None)
    case CallReject(e) => (DummyRejectedOf(d), [NativeReject(owner, e)], None)
    case CallOnAbort(fn) => var o := DummyOnAbortByOf(d, fn, rule); (o.0, [], o.1)
  }

  /** The executor's calls, in order, on the dummy. */
  function DummyRunOf(d: DummyState, owner: Id, calls: seq<ExecCall>, hs: seq<HandleState>, rule: OnAbortRule)
    : (r: (DummyState, seq<Event>, seq<Option<Exception>>))
    requires CallsIn(calls, |hs|)
    ensures |r.2| == |calls|
    ensures d.isFateSealed ==> r.0.isFateSealed
    ensures (d.awaiting.Some? ==> d.awaiting.value < |hs|) ==> (r.0.awaiting.Some? ==> r.0.awaiting.value < |hs|)
    decreases |calls|
  {
    if calls == [] then (d, [], [])
    else
      var m := |calls| - 1;
      var r1 := DummyRunOf(d, owner, calls[..m], hs, rule);
      var s := DummyStepOf(r1.0, owner, calls[m], hs, rule);
      (s.0, r1.1 + s.1, r1.2 + [s.2])
  }

  /** The fields the constructor gives the new handle, copied from the dummy or reset. */
  function TransferredState(d: DummyState): (s: HandleState)
    ensures s.canAbort == d.canAbort && s.isFateSealed == d.isFateSealed
    ensures s.abortHandler == d.abortHandler && s.onAbortWasCalled == d.onAbortWasCalled
    ensures s.awaiting == d.awaiting
    ensures !s.isAborted && s.unabortedCount == Num(0)
    ensures s.followers.None? && s.abortError.None? && !s.expectingInternalThen
  {
    HandleState(d.canAbort, d.isFateSealed, d.abortHandler, d.onAbortWasCalled, d.awaiting,
                None, false, None, Num(0), false)
  }

  /** Ranks for the arena once a handle that nobody follows is added: it goes below all others. */
  function Lifted(rank: seq<nat>): (r: seq<nat>)
    ensures |r| == |rank| + 1 && r[|rank|] == 0
    ensures forall i :: 0 <= i < |rank| ==> r[i] == rank[i] + 1
  {
    seq(|rank|, i requires 0 <= i < |rank| => rank[i] + 1) + [0]
  }

  /** The arena after the constructor adds handle `|hs|` in state `s`, following what it awaits. */
  function ConstructedOf(hs: seq<HandleState>, s: HandleState): (r: seq<HandleState>)
    requires s.awaiting.Some? ==> s.awaiting.value < |hs|
    ensures |r| == |hs| + 1 && r[|hs|] == s
    ensures forall i :: 0 <= i < |hs| && s.awaiting != Some(i) ==> r[i] == hs[i]
    ensures s.awaiting.Some? ==> r[s.awaiting.value].unabortedCount == hs[s.awaiting.value].unabortedCount.Inc()
    ensures s.awaiting.Some? ==> FollowersOf(r[s.awaiting.value]) == FollowersOf(hs[s.awaiting.value]) + [|hs|]
  {
    if s.awaiting.Some? then FollowedOf(hs + [s], s.awaiting.value, |hs|) else hs + [s]
  }

  /** The run visits every call of the executor, in order. */
  lemma DummyRunOfStep(d: DummyState, owner: Id, calls: seq<ExecCall>, hs: seq<HandleState>, rule: OnAbortRule, i: nat)
    requires CallsIn(calls, |hs|) && i < |calls|
    ensures CallsIn(calls[..i], |hs|) && CallsIn(calls[..i + 1], |hs|)
    ensures var r := DummyRunOf(d, owner, calls[..i], hs, rule);
      var s := DummyStepOf(r.0, owner, calls[i], hs, rule);
      DummyRunOf(d, owner, calls[..i + 1], hs, rule) == (s.0, r.1 + s.1, r.2 + [s.2])
  {
    assert calls[..i + 1][..i] == calls[..i];
  }

  /**
   * Once the dummy's fate is sealed, further resolve and reject calls leave
   * its state alone; each of them still reaches the native function.
   */
  lemma {:induction false} SealedRunKeepsState(d: DummyState, owner: Id, calls: seq<ExecCall>, hs: seq<HandleState>, rule: OnAbortRule)
    requires CallsIn(calls, |hs|) && d.isFateSealed
    requires forall i :: 0 <= i < |calls| ==> !calls[i].CallOnAbort?
    ensures var r := DummyRunOf(d, owner, calls, hs, rule);
      r.0 == d && |r.1| == |calls| && forall i :: 0 <= i < |calls| ==> r.2[i].None?
    decreases |calls|
  {
    if calls != [] {
      var m := |calls| - 1;
      assert CallsIn(calls[..m], |hs|);
      SealedRunKeepsState(d, owner, calls[..m], hs, rule);
    }
  }

  /**
   * With lib/dummy.js as written, no executor call throws and `onAbort` is
   * never recorded, so the new handle still accepts a later `onAbort`.
   */
  lemma {:induction false} AsWrittenRunNeverThrows(d: DummyState, owner: Id, calls: seq<ExecCall>, hs: seq<HandleState>)
    requires CallsIn(calls, |hs|)
    ensures var r := DummyRunOf(d, owner, calls, hs, AsWritten);
      (forall i :: 0 <= i < |calls| ==> r.2[i].None?) && r.0.onAbortWasCalled == d.onAbortWasCalled
    decreases |calls|
  {
    if calls != [] {
      var m := |calls| - 1;
      assert CallsIn(calls[..m], |hs|);
      AsWrittenRunNeverThrows(d, owner, calls[..m], hs);
    }
  }

  /**
   * An executor calling `onAbort(f1)` then `onAbort(f2)`: as written neither
   * call throws and `f2` is the handler; with the checks the second call
   * throws and `f1` stays.
   */
  lemma ExecutorDoubleOnAbort(owner: Id, hs: seq<HandleState>, f1: Fn, f2: Fn)
    ensures CallsIn([CallOnAbort(Function(f1)), CallOnAbort(Function(f2))], |hs|)
    ensures DummyRunOf(InitialDummy(), owner, [CallOnAbort(Function(f1)), CallOnAbort(Function(f2))], hs, AsWritten)
         == (InitialDummy().(abortHandler := Some(f2)), [], [None, None])
    ensures DummyRunOf(InitialDummy(), owner, [CallOnAbort(Function(f1)), CallOnAbort(Function(f2))], hs, Corrected)
         == (InitialDummy().(abortHandler := Some(f1), onAbortWasCalled := true), [],
             [None, Some(ErrorThrown("onAbort() cannot be called twice"))])
  {
    var calls := [CallOnAbort(Function(f1)), CallOnAbort(Function(f2))];
    assert calls[..1] == [CallOnAbort(Function(f1))];
    assert calls[..1][..0] == [];
    var d0 := InitialDummy();
    var none: seq<Option<Exception>> := [];
    var noEvents: seq<Event> := [];
    forall rule: OnAbortRule ensures DummyRunOf(d0, owner, calls[..1][..0], hs, rule) == (d0, noEvents, none) {
    }
    var w := d0.(abortHandler := Some(f1));
    assert DummyStepOf(d0, owner, calls[0], hs, AsWritten) == (w, noEvents, None);
    assert noEvents + noEvents == noEvents && none + [None] == [None];
    assert DummyRunOf(d0, owner, calls[..1], hs, AsWritten) == (w, noEvents, [None]);
    assert DummyStepOf(w, owner, calls[1], hs, AsWritten) == (d0.(abortHandler := Some(f2)), noEvents, None);
    var c := d0.(abortHandler := Some(f1), onAbortWasCalled := true);
    assert DummyStepOf(d0, owner, calls[0], hs, Corrected) == (c, noEvents, None);
    assert DummyRunOf(d0, owner, calls[..1], hs, Corrected) == (c, noEvents, [None]);
    assert DummyStepOf(c, owner, calls[1], hs, Corrected) == (c, noEvents, Some(ErrorThrown("onAbort() cannot be called twice")));
    assert none + [None] + [None] == [None, None];
    assert DummyRunOf(d0, owner, calls, hs, AsWritten) == (d0.(abortHandler := Some(f2)), noEvents, [None, None]);
    assert none + [None] + [Some(ErrorThrown("onAbort() cannot be called twice"))] == [None, Some(ErrorThrown("onAbort() cannot be called twice"))];
    assert DummyRunOf(d0, owner, calls, hs, Corrected) == (c, noEvents, [None, Some(ErrorThrown("onAbort() cannot be called twice"))]);
  }

  /**
   * Runs the executor against the dummy. A driver for the user code: it is the
   * executor, not the library, that makes these calls.
   */
  method RunExecutor(p: DummyAbortable, calls: seq<ExecCall>, hs: seq<HandleState>, rule: OnAbortRule) returns (thrown: seq<Option<Exception>>)
    requires CallsIn(calls, |hs|)
    modifies p
    ensures var r := DummyRunOf(old(p.State()), p.owner, calls, hs, rule);
      p.State() == r.0 && p.events == old(p.events) + r.1 && thrown == r.2
  {
    thrown := [];
    var i := 0;
    while i < |calls|
      invariant 0 <= i <= |calls| && CallsIn(calls[..i], |hs|)
      invariant var r := DummyRunOf(old(p.State()), p.owner, calls[..i], hs, rule);
        p.State() == r.0 && p.events == old(p.events) + r.1 && thrown == r.2
    {
      DummyRunOfStep(old(p.State()), p.owner, calls, hs, rule, i);
      match calls[i] {
        case CallResolve(v) =>
          p.Resolved(v, hs);
          thrown := thrown + [None];
        case CallReject(e) =>
          p.Rejected(e);
          thrown := thrown + [None];
        case CallOnAbort(fn) =>
          var t := p.OnAbortBy(fn, rule);
          thrown := thrown + [t];
      }
      i := i + 1;
    }
    assert calls[..i] == calls;
  }

  /**
   * `new Abortable(executor)`: a non-function executor makes `super(executor)`
   * throw the native TypeError, before the constructor's own throw is
   * reached; the model gives it that throw's message. Otherwise the executor
   * runs against a fresh dummy, its `onAbort` calls under `rule`, the new
   * handle takes the dummy's state, and a handle the dummy awaits records
   * the new one as its follower. The new handle is the last of the arena.
   */
  method Construct(reg: Registry, executor: Executor, rule: OnAbortRule, ghost rank: seq<nat>)
    returns (r: Result<Id, Exception>, thrown: seq<Option<Exception>>)
    requires reg.Valid() && Ranked(reg.handles, rank)
    requires executor.Runs? ==> CallsIn(executor.calls, |reg.handles|)
    modifies reg
    ensures reg.Valid()
    ensures executor.NotAFunction? ==>
      r == Failure(TypeError("Promise resolver is not a function")) && thrown == []
      && reg.handles == old(reg.handles) && reg.log == old(reg.log)
    ensures executor.Runs? ==>
      var run := DummyRunOf(InitialDummy(), |old(reg.handles)|, executor.calls, old(reg.handles), rule);
      && r == Success(|old(reg.handles)|) && thrown == run.2
      && reg.handles == ConstructedOf(old(reg.handles), TransferredState(run.0))
      && reg.log == old(reg.log) + run.1
      && Ranked(reg.handles, Lifted(rank))
    ensures executor.Runs? && rule.AsWritten? ==>
      && (forall i :: 0 <= i < |thrown| ==> thrown[i].None?)
      && |reg.handles| == |old(reg.handles)| + 1 && !reg.handles[|old(reg.handles)|].onAbortWasCalled
    ensures executor == Runs([]) ==> reg.handles == old(reg.handles) + [TransferredState(InitialDummy())]
  {
    if executor.NotAFunction? {
      return Failure(TypeError("Promise resolver is not a function")), [];
    }
    var id := |reg.handles|;
    if rule.AsWritten? {
      AsWrittenRunNeverThrows(InitialDummy(), id, executor.calls, reg.handles);
    }
    var p := new DummyAbortable(id);
    thrown := RunExecutor(p, executor.calls, reg.handles, rule);
    var awaiting := p.awaiting;
    var s := TransferredState(p.State());
    LiftedRanks(reg.handles, rank, s);
    id := reg.Allocate(s);
    reg.log := reg.log + p.events;
    if awaiting.Some? {
      FollowedRecordFollower(reg, awaiting.value, id);
      FollowedOfLinks(old(reg.handles) + [s], Lifted(rank), awaiting.value, id);
    }
    r := Success(id);
  }

  /** A new handle with no followers added at the bottom keeps the ranking. */
  lemma LiftedRanks(hs: seq<HandleState>, rank: seq<nat>, s: HandleState)
    requires Ranked(hs, rank) && s.followers.None?
    ensures Ranked(hs + [s], Lifted(rank))
  {
    var r := Lifted(rank);
    var hs1 := hs + [s];
    forall i | 0 <= i < |hs1| ensures RankedBelow(hs1[i], r, r[i]) {
      if i < |hs| {
        assert hs1[i] == hs[i];
        assert RankedBelow(hs[i], rank, rank[i]);
      } else {
        assert FollowersOf(hs1[i]) == [];
      }
    }
  }

  /**
   * `awaiting._followedRecordFollower(this)`. Its body is not part of this
   * model; it is taken to do what `_followed(follower)` does.
   */
  method FollowedRecordFollower(reg: Registry, p: Id, follower: Id)
    requires reg.Valid() && p < |reg.handles| && follower < |reg.handles|
    modifies reg
    ensures reg.Valid() && reg.handles == FollowedOf(old(reg.handles), p, follower) && reg.log == old(reg.log)
  {
    reg.Followed(p, follower);
  }

  /** The handler `.then()` passes on for fulfilment: the user's, or identity. */
  function ResolveReaction(resolveHandler: FnArg): (r: Reaction)
    ensures resolveHandler.Function? ==> r == UserFn(resolveHandler.f)
    ensures resolveHandler.NotFunction? ==> forall v, o :: Invoke(r, v, o) == Returned(v)
  {
    if resolveHandler.Function? then UserFn(resolveHandler.f) else Identity
  }

  /** The handler `.then()` passes on for rejection: the user's, or one that rethrows. */
  function RejectReaction(rejectHandler: FnArg): (r: Reaction)
    ensures rejectHandler.Function? ==> r == UserFn(rejectHandler.f)
    ensures rejectHandler.NotFunction? ==> forall v, o :: Invoke(r, v, o) == Threw(v)
  {
    if rejectHandler.Function? then UserFn(rejectHandler.f) else Rethrow
  }

  /**
   * `.then(resolveHandler, rejectHandler)` on handle `h`. The child `p` is an
   * Abortable built by the native `.then()` with an executor that calls
   * nothing synchronously. During an internal call the flag is reset and
   * nothing is counted; the handlers go to the native `.then()` unwrapped.
   * Otherwise the handlers (with defaults) are wrapped in `p._handled`, `h`
   * counts one more consumer, and `p` awaits `h` if `h` can still abort.
   */
  method Then(reg: Registry, h: Id, resolveHandler: FnArg, rejectHandler: FnArg, ghost rank: seq<nat>)
    returns (p: Id, onFulfilled: Reaction, onRejected: Reaction, wrapped: bool)
    requires reg.Valid() && h < |reg.handles| && Ranked(reg.handles, rank)
    modifies reg
    ensures reg.Valid() && Ranked(reg.handles, Lifted(rank))
    ensures p == |old(reg.handles)| && |reg.handles| == p + 1 && reg.log == old(reg.log)
    ensures var s := old(reg.handles[h]);
      if s.expectingInternalThen then
        && !wrapped
        && reg.handles == old(reg.handles)[h := s.(expectingInternalThen := false)] + [TransferredState(InitialDummy())]
      else
        && wrapped
        && onFulfilled == ResolveReaction(resolveHandler) && onRejected == RejectReaction(rejectHandler)
        && reg.handles == old(reg.handles)[h := s.(unabortedCount := s.unabortedCount.Inc())]
             + [TransferredState(InitialDummy()).(awaiting := if s.canAbort then Some(h) else None)]
  {
    if reg.handles[h].expectingInternalThen {
      assert LinkedIn(reg.handles[h], |reg.handles|);
      WellLinkedUpdate(reg.handles, h, reg.handles[h].(expectingInternalThen := false));
      RankedUpdate(reg.handles, rank, h, reg.handles[h].(expectingInternalThen := false));
      reg.handles := reg.handles[h := reg.handles[h].(expectingInternalThen := false)];
      var c, _ := Construct(reg, Runs([]), AsWritten, rank);
      return |reg.handles| - 1, ResolveReaction(resolveHandler), RejectReaction(rejectHandler), false;
    }
    onFulfilled := ResolveReaction(resolveHandler);
    onRejected := RejectReaction(rejectHandler);
    wrapped := true;
    var c, _ := Construct(reg, Runs([]), AsWritten, rank);
    p := |reg.handles| - 1;
    var s := reg.handles[h];
    assert LinkedIn(s, |reg.handles|) && RankedBelow(s, Lifted(rank), Lifted(rank)[h]);
    WellLinkedUpdate(reg.handles, h, s.(unabortedCount := s.unabortedCount.Inc()));
    RankedUpdate(reg.handles, Lifted(rank), h, s.(unabortedCount := s.unabortedCount.Inc()));
    reg.handles := reg.handles[h := s.(unabortedCount := s.unabortedCount.Inc())];
    if reg.handles[h].canAbort {
      var q := reg.handles[p];
      assert LinkedIn(q, |reg.handles|) && RankedBelow(q, Lifted(rank), Lifted(rank)[p]);
      WellLinkedUpdate(reg.handles, p, q.(awaiting := Some(h)));
      RankedUpdate(reg.handles, Lifted(rank), p, q.(awaiting := Some(h)));
      reg.handles := reg.handles[p := q.(awaiting := Some(h))];
    }
  }

  /**
   * An executor callback called after the constructor returned: `p` now
   * names the Abortable itself, so the call goes to its own methods.
   */
  method LateCall(reg: Registry, h: Id, c: ExecCall, ghost rank: seq<nat>) returns (thrown: Option<Exception>)
    requires reg.Valid() && h < |reg.handles| && Ranked(reg.handles, rank)
    requires c.CallResolve? ==> CanFollow(reg.handles, rank, h, c.value)
    modifies reg
    ensures reg.Valid() && |reg.handles| == |old(reg.handles)|
    ensures c.CallResolve? ==> thrown.None?
    ensures c.CallResolve? ==> (
      if old(reg.handles[h].isFateSealed) then reg.handles == old(reg.handles) && reg.log == old(reg.log) + [NativeResolve(h, c.value)]
      else
        var r := SettledOf(old(reg.handles)[h := old(reg.handles[h]).(isFateSealed := true)], old(reg.log), h, c.value, rank);
        reg.handles == r.0 && reg.log == r.1 + [NativeResolve(h, r.2)])
    ensures c.CallReject? ==> thrown.None? && reg.log == old(reg.log) + [NativeReject(h, c.reason)]
    ensures c.CallReject? ==> reg.handles == (if old(reg.handles[h].isFateSealed) then old(reg.handles)
                         else ClearOf(old(reg.handles)[h := old(reg.handles[h]).(isFateSealed := true)], h, rank))
    ensures c.CallOnAbort? && c.fn.NotFunction? ==> thrown == Some(TypeError("onAbort() must be passed a function"))
    ensures c.CallOnAbort? && c.fn.Function? ==> (thrown.None? <==> !old(reg.handles[h].onAbortWasCalled))
  {
    match c
    case CallResolve(v) =>
      reg.Resolved(h, v, rank);
      thrown := None;
    case CallReject(e) =>
      reg.Rejected(h, e, rank);
      thrown := None;
    case CallOnAbort(fn) =>
      thrown := reg.OnAbort(h, fn);
  }
}
