/**
 * lib/index.js and lib/dummyPromise.js: the oldest version of the abort
 * machine. It tracks `_isAbortable` rather than `_canAbort`/`_isAborted`; an
 * abort that goes up an `_awaiting` link is counted by `_abortIndirect`; and
 * each indirect abort queues a callback that `_abortDone()` runs once the
 * abort has been handled. A `DummyPromise` placeholder records what the
 * executor does during construction; it lives in the same arena as the
 * Abortables, marked as a placeholder.
 */
module Legacy {
  import opened Wrappers
  import opened Values
  import Utils
  import Methods
  import Abortable

  /** An `Abortable` of lib/index.js, or a `DummyPromise` of lib/dummyPromise.js. */
  datatype Kind = Real | Placeholder

  /**
   * The fields of either kind. A placeholder uses only `isAbortable`,
   * `isFateSealed`, `abortHandler`, `awaiting` and `followerIndex`; an
   * Abortable uses all but `followerIndex`. A queued callback is the
   * handle whose `_abortDone()` it calls.
   */
  datatype LegacyState = LegacyState(
    kind: Kind,
    isAbortable: bool,
    isFateSealed: bool,
    abortHandler: Option<Fn>,
    awaiting: Option<Id>,
    followers: Option<seq<Id>>,
    abortError: Option<Error>,
    abortCallbacks: Option<seq<Id>>,
    unabortedCount: Count,
    followerIndex: Option<Utils.JsNum>)

  function FollowersOf(s: LegacyState): seq<Id> {
    Utils.Elements(s.followers)
  }

  function CallbacksOf(s: LegacyState): seq<Id> {
    Utils.Elements(s.abortCallbacks)
  }

  /** Every handle `s` refers to is one of `n` handles. */
  ghost predicate InRange(s: LegacyState, n: nat) {
    && (s.awaiting.Some? ==> s.awaiting.value < n)
    && (forall f :: f in FollowersOf(s) ==> 0 <= f < n)
    && (forall c :: c in CallbacksOf(s) ==> 0 <= c < n)
  }

  ghost predicate Linked(hs: seq<LegacyState>) {
    forall i :: 0 <= i < |hs| ==> InRange(hs[i], |hs|)
  }

  /** Every follower of `s` ranks below `r`. */
  ghost predicate RankedBelow(s: LegacyState, rank: seq<nat>, r: nat) {
    forall f :: f in FollowersOf(s) ==> 0 <= f < |rank| && rank[f] < r
  }

  /** `rank` witnesses that the follower graph, which `_clear()` walks, is acyclic. */
  ghost predicate Ranked(hs: seq<LegacyState>, rank: seq<nat>) {
    && |rank| == |hs|
    && forall i :: 0 <= i < |hs| ==> RankedBelow(hs[i], rank, rank[i])
  }

  lemma LinkedUpdate(hs: seq<LegacyState>, i: nat, s: LegacyState)
    requires Linked(hs) && i < |hs| && InRange(s, |hs|)
    ensures Linked(hs[i := s])
  {
    var hs1 := hs[i := s];
    forall j | 0 <= j < |hs1| ensures InRange(hs1[j], |hs1|) {
      if j != i {
        assert hs1[j] == hs[j];
      }
    }
  }

  lemma RankedUpdate(hs: seq<LegacyState>, rank: seq<nat>, i: nat, s: LegacyState)
    requires Ranked(hs, rank) && i < |hs| && RankedBelow(s, rank, rank[i])
    ensures Ranked(hs[i := s], rank)
  {
    var hs1 := hs[i := s];
    forall j | 0 <= j < |hs1| ensures RankedBelow(hs1[j], rank, rank[j]) {
      if j != i {
        assert hs1[j] == hs[j];
      }
    }
  }

  /** A state with the same links as `hs[i]` keeps the arena linked and ranked. */
  lemma SameLinks(hs: seq<LegacyState>, rank: seq<nat>, i: nat, s: LegacyState)
    requires Linked(hs) && i < |hs|
    requires s.awaiting == hs[i].awaiting && s.followers == hs[i].followers && s.abortCallbacks == hs[i].abortCallbacks
    ensures Linked(hs[i := s])
    ensures Ranked(hs, rank) ==> Ranked(hs[i := s], rank)
  {
    assert FollowersOf(s) == FollowersOf(hs[i]) && CallbacksOf(s) == CallbacksOf(hs[i]);
    assert InRange(hs[i], |hs|);
    LinkedUpdate(hs, i, s);
    if Ranked(hs, rank) {
      assert RankedBelow(hs[i], rank, rank[i]);
      RankedUpdate(hs, rank, i, s);
    }
  }

  // ---------------------------------------------------------------------
  // `_clear()`

  /** The fields `_clear()` resets; a placeholder has fewer of them. */
  function Cleared(s: LegacyState): (r: LegacyState)
    ensures !r.isAbortable && r.abortHandler.None? && r.awaiting.None?
    ensures r.kind == s.kind && r.isFateSealed == s.isFateSealed
    ensures s.kind.Real? ==> r.followers.None? && r.abortError.None? && r.abortCallbacks.None?
    ensures s.kind.Real? ==> r.unabortedCount == NaN && r.followerIndex == s.followerIndex
    ensures s.kind.Placeholder? ==> r.followerIndex.None? && r.followers == s.followers
    ensures s.kind.Placeholder? ==>
      r.abortError == s.abortError && r.abortCallbacks == s.abortCallbacks && r.unabortedCount == s.unabortedCount
  {
    match s.kind
    case Real =>
      s.(isAbortable := false, abortHandler := None, awaiting := None, followers := None,
         abortError := None, abortCallbacks := None, unabortedCount := NaN)
    case Placeholder =>
      s.(isAbortable := false, abortHandler := None, awaiting := None, followerIndex := None)
  }

  /** A cleared state refers to no handle it did not refer to before. */
  lemma ClearedLinks(s: LegacyState, n: nat, rank: seq<nat>, r: nat)
    ensures InRange(s, n) ==> InRange(Cleared(s), n)
    ensures RankedBelow(s, rank, r) ==> RankedBelow(Cleared(s), rank, r)
  {
    var c := Cleared(s);
    assert FollowersOf(c) == [] || FollowersOf(c) == FollowersOf(s);
    assert CallbacksOf(c) == [] || CallbacksOf(c) == CallbacksOf(s);
  }

  /**
   * `this._clear()`: an Abortable clears its followers first, in order, then
   * itself; a placeholder only resets its own fields. The walk over the
   * followers is the one `Methods.ClearOf` makes for the newest version, over
   * this version's handle records and with the placeholder case added.
   */
  ghost function ClearOf(hs: seq<LegacyState>, h: Id, rank: seq<nat>): (r: seq<LegacyState>)
    requires Ranked(hs, rank) && h < |hs|
    ensures |r| == |hs| && Ranked(r, rank)
    decreases rank[h], 1, 0
  {
    assert RankedBelow(hs[h], rank, rank[h]);
    if hs[h].kind.Placeholder? then
      RankedUpdate(hs, rank, h, Cleared(hs[h]));
      hs[h := Cleared(hs[h])]
    else
      var hs1 := ClearListOf(hs, FollowersOf(hs[h]), rank, rank[h]);
      RankedUpdate(hs1, rank, h, Cleared(hs1[h]));
      hs1[h := Cleared(hs1[h])]
  }

  /** Clears the handles of `fs` one after another, in order, as `Methods.ClearListOf` does. */
  ghost function ClearListOf(hs: seq<LegacyState>, fs: seq<Id>, rank: seq<nat>, bound: nat): (r: seq<LegacyState>)
    requires Ranked(hs, rank)
    requires forall f :: f in fs ==> f < |hs| && rank[f] < bound
    ensures |r| == |hs| && Ranked(r, rank)
    decreases bound, 0, |fs|
  {
    if fs == [] then hs
    else
      var pre := fs[..|fs| - 1];
      assert forall f :: f in pre ==> f in fs;
      assert fs[|fs| - 1] in fs;
      ClearOf(ClearListOf(hs, pre, rank, bound), fs[|fs| - 1], rank)
  }

  lemma {:induction false} ClearOfLinked(hs: seq<LegacyState>, h: Id, rank: seq<nat>)
    requires Ranked(hs, rank) && h < |hs| && Linked(hs)
    ensures Linked(ClearOf(hs, h, rank))
    decreases rank[h], 1, 0
  {
    assert RankedBelow(hs[h], rank, rank[h]);
    var hs1 := if hs[h].kind.Placeholder? then hs else ClearListOf(hs, FollowersOf(hs[h]), rank, rank[h]);
    if hs[h].kind.Real? {
      ClearListOfLinked(hs, FollowersOf(hs[h]), rank, rank[h]);
    }
    assert InRange(hs1[h], |hs1|);
    ClearedLinks(hs1[h], |hs1|, rank, rank[h]);
    LinkedUpdate(hs1, h, Cleared(hs1[h]));
  }

  lemma {:induction false} ClearListOfLinked(hs: seq<LegacyState>, fs: seq<Id>, rank: seq<nat>, bound: nat)
    requires Ranked(hs, rank) && Linked(hs)
    requires forall f :: f in fs ==> f < |hs| && rank[f] < bound
    ensures Linked(ClearListOf(hs, fs, rank, bound))
    decreases bound, 0, |fs|
  {
    if fs != [] {
      var pre := fs[..|fs| - 1];
      assert forall f :: f in pre ==> f in fs;
      assert fs[|fs| - 1] in fs;
      ClearListOfLinked(hs, pre, rank, bound);
      ClearOfLinked(ClearListOf(hs, pre, rank, bound), fs[|fs| - 1], rank);
    }
  }

  /** `_clear()` keeps every handle's kind and leaves the cleared handle unable to abort. */
  lemma {:induction false} ClearOfClears(hs: seq<LegacyState>, h: Id, rank: seq<nat>)
    requires Ranked(hs, rank) && h < |hs|
    ensures var r := ClearOf(hs, h, rank);
      !r[h].isAbortable && r[h].abortHandler.None? && r[h].awaiting.None?
      && forall i :: 0 <= i < |hs| ==> r[i].kind == hs[i].kind && r[i].isFateSealed == hs[i].isFateSealed
    decreases rank[h], 1, 0
  {
    assert RankedBelow(hs[h], rank, rank[h]);
    if hs[h].kind.Real? {
      ClearListOfKinds(hs, FollowersOf(hs[h]), rank, rank[h]);
    }
  }

  lemma {:induction false} ClearListOfKinds(hs: seq<LegacyState>, fs: seq<Id>, rank: seq<nat>, bound: nat)
    requires Ranked(hs, rank)
    requires forall f :: f in fs ==> f < |hs| && rank[f] < bound
    ensures var r := ClearListOf(hs, fs, rank, bound);
      forall i :: 0 <= i < |hs| ==> r[i].kind == hs[i].kind && r[i].isFateSealed == hs[i].isFateSealed
    decreases bound, 0, |fs|
  {
    if fs != [] {
      var pre := fs[..|fs| - 1];
      assert forall f :: f in pre ==> f in fs;
      assert fs[|fs| - 1] in fs;
      ClearListOfKinds(hs, pre, rank, bound);
      ClearOfClears(ClearListOf(hs, pre, rank, bound), fs[|fs| - 1], rank);
    }
  }

  /** A handle that is not `h` and not below it in rank is left alone by `_clear()`. */
  lemma {:induction false} ClearOfFrame(hs: seq<LegacyState>, h: Id, rank: seq<nat>, j: Id)
    requires Ranked(hs, rank) && h < |hs| && j < |hs| && j != h && rank[j] >= rank[h]
    ensures ClearOf(hs, h, rank)[j] == hs[j]
    decreases rank[h], 1, 0
  {
    assert RankedBelow(hs[h], rank, rank[h]);
    if hs[h].kind.Real? {
      ClearListOfFrame(hs, FollowersOf(hs[h]), rank, rank[h], j);
    }
  }

  lemma {:induction false} ClearListOfFrame(hs: seq<LegacyState>, fs: seq<Id>, rank: seq<nat>, bound: nat, j: Id)
    requires Ranked(hs, rank) && j < |hs| && rank[j] >= bound
    requires forall f :: f in fs ==> f < |hs| && rank[f] < bound
    ensures ClearListOf(hs, fs, rank, bound)[j] == hs[j]
    decreases bound, 0, |fs|
  {
    if fs != [] {
      var pre := fs[..|fs| - 1];
      assert forall f :: f in pre ==> f in fs;
      assert fs[|fs| - 1] in fs;
      ClearListOfFrame(hs, pre, rank, bound, j);
      ClearOfFrame(ClearListOf(hs, pre, rank, bound), fs[|fs| - 1], rank, j);
    }
  }

  /** Every handle in the list is cleared by the time the list is done. */
  lemma {:induction false} ClearListOfClears(hs: seq<LegacyState>, fs: seq<Id>, rank: seq<nat>, bound: nat)
    requires Ranked(hs, rank)
    requires forall f :: f in fs ==> f < |hs| && rank[f] < bound
    ensures forall f :: f in fs ==> !ClearListOf(hs, fs, rank, bound)[f].isAbortable
    decreases |fs|
  {
    if fs != [] {
      var pre := fs[..|fs| - 1];
      var last := fs[|fs| - 1];
      assert forall f :: f in pre ==> f in fs;
      assert last in fs;
      ClearListOfClears(hs, pre, rank, bound);
      var hs1 := ClearListOf(hs, pre, rank, bound);
      ClearOfClears(hs1, last, rank);
      forall f | f in fs ensures !ClearListOf(hs, fs, rank, bound)[f].isAbortable {
        if f != last {
          assert f in pre;
          assert !hs1[f].isAbortable;
          ClearOfKeepsCleared(hs1, last, rank, f);
        }
      }
    }
  }

  /** `_clear()` never makes a handle abortable again. */
  lemma {:induction false} ClearOfKeepsCleared(hs: seq<LegacyState>, h: Id, rank: seq<nat>, j: Id)
    requires Ranked(hs, rank) && h < |hs| && j < |hs| && !hs[j].isAbortable
    ensures !ClearOf(hs, h, rank)[j].isAbortable
    decreases rank[h], 1, 0
  {
    assert RankedBelow(hs[h], rank, rank[h]);
    if hs[h].kind.Real? {
      ClearListOfKeepsCleared(hs, FollowersOf(hs[h]), rank, rank[h], j);
    }
  }

  lemma {:induction false} ClearListOfKeepsCleared(hs: seq<LegacyState>, fs: seq<Id>, rank: seq<nat>, bound: nat, j: Id)
    requires Ranked(hs, rank) && j < |hs| && !hs[j].isAbortable
    requires forall f :: f in fs ==> f < |hs| && rank[f] < bound
    ensures !ClearListOf(hs, fs, rank, bound)[j].isAbortable
    decreases bound, 0, |fs|
  {
    if fs != [] {
      var pre := fs[..|fs| - 1];
      assert forall f :: f in pre ==> f in fs;
      assert fs[|fs| - 1] in fs;
      ClearListOfKeepsCleared(hs, pre, rank, bound, j);
      ClearOfKeepsCleared(ClearListOf(hs, pre, rank, bound), fs[|fs| - 1], rank, j);
    }
  }

  // ---------------------------------------------------------------------
  // The abort chain: `_abort`, `_abortDo`, `_abortPropagate`, `_abortIndirect`

  /** How many handles still count a consumer; `_abortIndirect` aborts only on the last one. */
  function Live(hs: seq<LegacyState>): nat {
    if hs == [] then 0
    else Live(hs[..|hs| - 1]) + (if hs[|hs| - 1].unabortedCount.IsPositive() then 1 else 0)
  }

  lemma {:induction false} LiveUpdate(hs: seq<LegacyState>, i: nat, s: LegacyState)
    requires i < |hs|
    ensures Live(hs[i := s]) + (if hs[i].unabortedCount.IsPositive() then 1 else 0)
         == Live(hs) + (if s.unabortedCount.IsPositive() then 1 else 0)
  {
    var n := |hs|;
    if i == n - 1 {
      assert hs[i := s][..n - 1] == hs[..n - 1];
    } else {
      assert hs[i := s][..n - 1] == hs[..n - 1][i := s];
      LiveUpdate(hs[..n - 1], i, s);
    }
  }

  /** `_abortIndirect(err, cb)` before its consensus test: the first error, the queued callback, one consumer fewer. */
  function Indirected(s: LegacyState, err: Option<Error>, cb: Id): (r: LegacyState)
    ensures r.abortError == (if s.abortError.Some? then s.abortError else err)
    ensures r.abortCallbacks == Utils.PushOrCreate(s.abortCallbacks, cb)
    ensures r.unabortedCount == s.unabortedCount.Dec()
    ensures r.awaiting == s.awaiting && r.followers == s.followers && r.abortHandler == s.abortHandler
    ensures r.kind == s.kind && r.isAbortable == s.isAbortable && r.isFateSealed == s.isFateSealed
  {
    s.(abortError := if s.abortError.Some? then s.abortError else err,
       abortCallbacks := Utils.PushOrCreate(s.abortCallbacks, cb),
       unabortedCount := s.unabortedCount.Dec())
  }

  /**
   * `this._abort()` on handle `h`: no longer abortable; a registered handler
   * is preferred over the `_awaiting` link.
   */
  ghost function AbortOf(hs: seq<LegacyState>, log: seq<Event>, h: Id): (r: (seq<LegacyState>, seq<Event>))
    requires Linked(hs) && h < |hs|
    ensures |r.0| == |hs| && Linked(r.0)
    decreases Live(hs), 3
  {
    var s := hs[h].(isAbortable := false);
    SameLinks(hs, [], h, s);
    if s.abortHandler.Some? then
      AbortDoOf(hs[h := s], log, h)
    else if s.awaiting.Some? then
      assert InRange(hs[h], |hs|);
      LiveUpdate(hs, h, s);
      PropagateOf(hs[h := s], log, h, s.awaiting.value)
    else (hs[h := s], log)
  }

  /**
   * `this._abortDo()`: take the handler and the error off the handle, then
   * call the handler with the error and a callback that runs `_abortDone()`.
   */
  function AbortDoOf(hs: seq<LegacyState>, log: seq<Event>, h: Id): (r: (seq<LegacyState>, seq<Event>))
    requires Linked(hs) && h < |hs| && hs[h].abortHandler.Some?
    ensures Linked(r.0)
    ensures r.0 == hs[h := hs[h].(abortHandler := None, abortError := None)]
    ensures r.1 == log + [HandlerCalledWithDone(h, hs[h].abortHandler.value, hs[h].abortError)]
  {
    SameLinks(hs, [], h, hs[h].(abortHandler := None, abortError := None));
    (hs[h := hs[h].(abortHandler := None, abortError := None)],
     log + [HandlerCalledWithDone(h, hs[h].abortHandler.value, hs[h].abortError)])
  }

  /** `this._abortPropagate(target)`: hand this handle's error to `target`, with a callback to this handle. */
  ghost function PropagateOf(hs: seq<LegacyState>, log: seq<Event>, h: Id, target: Id): (r: (seq<LegacyState>, seq<Event>))
    requires Linked(hs) && h < |hs| && target < |hs|
    ensures |r.0| == |hs| && Linked(r.0)
    decreases Live(hs), 2
  {
    var s := hs[h].(abortError := None);
    SameLinks(hs, [], h, s);
    LiveUpdate(hs, h, s);
    IndirectOf(hs[h := s], log, target, hs[h].abortError, h)
  }

  /** `target._abortIndirect(err, cb)`: count the abort; abort when no consumer is left. */
  ghost function IndirectOf(hs: seq<LegacyState>, log: seq<Event>, t: Id, err: Option<Error>, cb: Id): (r: (seq<LegacyState>, seq<Event>))
    requires Linked(hs) && t < |hs| && cb < |hs|
    ensures |r.0| == |hs| && Linked(r.0)
    decreases Live(hs), 1
  {
    var s1 := Indirected(hs[t], err, cb);
    assert InRange(hs[t], |hs|);
    assert FollowersOf(s1) == FollowersOf(hs[t]);
    assert forall c :: c in CallbacksOf(s1) ==> c in CallbacksOf(hs[t]) || c == cb;
    LinkedUpdate(hs, t, s1);
    LiveUpdate(hs, t, s1);
    if s1.unabortedCount.IsZero() then AbortOf(hs[t := s1], log, t)
    else (hs[t := s1], log)
  }

  // ---------------------------------------------------------------------
  // `_abortDone()`

  /** How many handles hold a callback queue; `_abortDone()` removes its own before running it. */
  function Queued(hs: seq<LegacyState>): nat {
    if hs == [] then 0
    else Queued(hs[..|hs| - 1]) + (if hs[|hs| - 1].abortCallbacks.Some? then 1 else 0)
  }

  lemma {:induction false} QueuedUpdate(hs: seq<LegacyState>, i: nat, s: LegacyState)
    requires i < |hs|
    ensures Queued(hs[i := s]) + (if hs[i].abortCallbacks.Some? then 1 else 0)
         == Queued(hs) + (if s.abortCallbacks.Some? then 1 else 0)
  {
    var n := |hs|;
    if i == n - 1 {
      assert hs[i := s][..n - 1] == hs[..n - 1];
    } else {
      assert hs[i := s][..n - 1] == hs[..n - 1][i := s];
      QueuedUpdate(hs[..n - 1], i, s);
    }
  }

  /** `r` differs from `hs` only in callback queues that have been taken away. */
  ghost predicate OnlyDequeued(hs: seq<LegacyState>, r: seq<LegacyState>) {
    && |r| == |hs|
    && forall i :: 0 <= i < |hs| ==>
         r[i] == hs[i].(abortCallbacks := r[i].abortCallbacks)
         && (r[i].abortCallbacks.Some? ==> r[i].abortCallbacks == hs[i].abortCallbacks)
  }

  /**
   * `this._abortDone()`: if a queue is present, remove it, then call its
   * callbacks in order; each calls `_abortDone()` on the handle that queued it.
   */
  ghost function DoneOf(hs: seq<LegacyState>, log: seq<Event>, h: Id): (r: (seq<LegacyState>, seq<Event>))
    requires Linked(hs) && h < |hs|
    ensures OnlyDequeued(hs, r.0) && Linked(r.0) && Queued(r.0) <= Queued(hs)
    ensures r.0[h].abortCallbacks.None?
    ensures log <= r.1
    decreases Queued(hs), 1, 0
  {
    if hs[h].abortCallbacks.None? then (hs, log)
    else
      var s := hs[h].(abortCallbacks := None);
      assert InRange(hs[h], |hs|) && FollowersOf(s) == FollowersOf(hs[h]) && CallbacksOf(s) == [];
      LinkedUpdate(hs, h, s);
      QueuedUpdate(hs, h, s);
      var r := DoneListOf(hs[h := s], log, CallbacksOf(hs[h]), Queued(hs));
      assert r.0[h].abortCallbacks.None?;
      r
  }

  ghost function DoneListOf(hs: seq<LegacyState>, log: seq<Event>, cbs: seq<Id>, bound: nat): (r: (seq<LegacyState>, seq<Event>))
    requires Linked(hs) && Queued(hs) < bound
    requires forall c :: c in cbs ==> c < |hs|
    ensures OnlyDequeued(hs, r.0) && Linked(r.0) && Queued(r.0) <= Queued(hs)
    ensures log <= r.1
    decreases bound, 0, |cbs|
  {
    if cbs == [] then (hs, log)
    else
      var m := |cbs| - 1;
      assert forall c :: c in cbs[..m] ==> c in cbs;
      assert cbs[m] in cbs;
      var r1 := DoneListOf(hs, log, cbs[..m], bound);
      DoneOf(r1.0, r1.1 + [CallbackCalled(cbs[m])], cbs[m])
  }

  /** The calls of the callbacks `cbs`, in order. */
  function CallsOf(cbs: seq<Id>): (r: seq<Event>)
    ensures |r| == |cbs| && forall i :: 0 <= i < |cbs| ==> r[i] == CallbackCalled(cbs[i])
  {
    if cbs == [] then [] else CallsOf(cbs[..|cbs| - 1]) + [CallbackCalled(cbs[|cbs| - 1])]
  }

  /**
   * When no queued callback's own handle has a queue, `_abortDone()` calls
   * the callbacks exactly in the order they were queued.
   */
  lemma {:induction false} DoneRunsCallbacksInOrder(hs: seq<LegacyState>, log: seq<Event>, h: Id)
    requires Linked(hs) && h < |hs| && hs[h].abortCallbacks.Some?
    requires forall c :: c in CallbacksOf(hs[h]) ==> hs[c].abortCallbacks.None? || c == h
    ensures DoneOf(hs, log, h).1 == log + CallsOf(CallbacksOf(hs[h]))
    ensures DoneOf(hs, log, h).0 == hs[h := hs[h].(abortCallbacks := None)]
  {
    var s := hs[h].(abortCallbacks := None);
    assert InRange(hs[h], |hs|) && FollowersOf(s) == FollowersOf(hs[h]) && CallbacksOf(s) == [];
    LinkedUpdate(hs, h, s);
    QueuedUpdate(hs, h, s);
    FlatDoneList(hs[h := s], log, CallbacksOf(hs[h]), Queued(hs));
  }

  lemma {:induction false} FlatDoneList(hs: seq<LegacyState>, log: seq<Event>, cbs: seq<Id>, bound: nat)
    requires Linked(hs) && Queued(hs) < bound
    requires forall c :: c in cbs ==> c < |hs| && hs[c].abortCallbacks.None?
    ensures DoneListOf(hs, log, cbs, bound) == (hs, log + CallsOf(cbs))
    decreases |cbs|
  {
    if cbs != [] {
      var m := |cbs| - 1;
      Utils.PrefixIn(cbs, m);
      assert cbs[m] in cbs;
      FlatDoneList(hs, log, cbs[..m], bound);
      var l1 := log + CallsOf(cbs[..m]) + [CallbackCalled(cbs[m])];
      assert hs[cbs[m]].abortCallbacks.None?;
      assert DoneOf(hs, l1, cbs[m]) == (hs, l1);
      assert DoneListOf(hs, log, cbs, bound) == DoneOf(hs, l1, cbs[m]);
      assert log + CallsOf(cbs) == log + CallsOf(cbs[..m]) + [CallbackCalled(cbs[m])];
    } else {
      assert log + CallsOf(cbs) == log;
    }
  }

  /** A second `_abortDone()` on the same handle does nothing. */
  lemma DoneTwiceIsDone(hs: seq<LegacyState>, log: seq<Event>, h: Id)
    requires Linked(hs) && h < |hs|
    ensures var r := DoneOf(hs, log, h); DoneOf(r.0, r.1, h) == r
  {
    var r := DoneOf(hs, log, h);
    assert r.0[h].abortCallbacks.None?;
  }

  /** The abort chain only ever turns `_isAbortable` off, keeps every follower list and kind, and only appends to the log. */
  ghost predicate Progressed(hs: seq<LegacyState>, log: seq<Event>, r: (seq<LegacyState>, seq<Event>)) {
    && |r.0| == |hs| && log <= r.1
    && forall i :: 0 <= i < |hs| ==>
         && (r.0[i].isAbortable ==> hs[i].isAbortable)
         && r.0[i].followers == hs[i].followers && r.0[i].kind == hs[i].kind
  }

  lemma ProgressedTrans(hs: seq<LegacyState>, log: seq<Event>, mid: (seq<LegacyState>, seq<Event>), r: (seq<LegacyState>, seq<Event>))
    requires Progressed(hs, log, mid) && Progressed(mid.0, mid.1, r)
    ensures Progressed(hs, log, r)
  {
  }

  /** `_abort()` leaves its handle unable to abort, and the chain it starts makes progress. */
  lemma {:induction false} AbortOfProgresses(hs: seq<LegacyState>, log: seq<Event>, h: Id)
    requires Linked(hs) && h < |hs|
    ensures Progressed(hs, log, AbortOf(hs, log, h)) && !AbortOf(hs, log, h).0[h].isAbortable
    decreases Live(hs), 3
  {
    var s := hs[h].(isAbortable := false);
    SameLinks(hs, [], h, s);
    assert Progressed(hs, log, (hs[h := s], log));
    if s.abortHandler.Some? {
      assert Progressed(hs[h := s], log, AbortDoOf(hs[h := s], log, h));
    } else if s.awaiting.Some? {
      assert InRange(hs[h], |hs|);
      LiveUpdate(hs, h, s);
      PropagateOfProgresses(hs[h := s], log, h, s.awaiting.value);
      ProgressedTrans(hs, log, (hs[h := s], log), PropagateOf(hs[h := s], log, h, s.awaiting.value));
    }
  }

  lemma {:induction false} PropagateOfProgresses(hs: seq<LegacyState>, log: seq<Event>, h: Id, target: Id)
    requires Linked(hs) && h < |hs| && target < |hs|
    ensures Progressed(hs, log, PropagateOf(hs, log, h, target))
    ensures !hs[h].isAbortable ==> !PropagateOf(hs, log, h, target).0[h].isAbortable
    decreases Live(hs), 2
  {
    var s := hs[h].(abortError := None);
    SameLinks(hs, [], h, s);
    LiveUpdate(hs, h, s);
    var hs1 := hs[h := s];
    var r := IndirectOf(hs1, log, target, hs[h].abortError, h);
    assert PropagateOf(hs, log, h, target) == r;
    IndirectOfProgresses(hs1, log, target, hs[h].abortError, h);
    assert Progressed(hs, log, (hs1, log));
    ProgressedTrans(hs, log, (hs1, log), r);
    assert !hs[h].isAbortable ==> !r.0[h].isAbortable;
  }

  lemma {:induction false} IndirectOfProgresses(hs: seq<LegacyState>, log: seq<Event>, t: Id, err: Option<Error>, cb: Id)
    requires Linked(hs) && t < |hs| && cb < |hs|
    ensures Progressed(hs, log, IndirectOf(hs, log, t, err, cb))
    decreases Live(hs), 1
  {
    var s1 := Indirected(hs[t], err, cb);
    assert InRange(hs[t], |hs|);
    assert FollowersOf(s1) == FollowersOf(hs[t]);
    assert forall c :: c in CallbacksOf(s1) ==> c in CallbacksOf(hs[t]) || c == cb;
    LinkedUpdate(hs, t, s1);
    LiveUpdate(hs, t, s1);
    assert Progressed(hs, log, (hs[t := s1], log));
    if s1.unabortedCount.IsZero() {
      AbortOfProgresses(hs[t := s1], log, t);
      ProgressedTrans(hs, log, (hs[t := s1], log), AbortOf(hs[t := s1], log, t));
    }
  }

  /**
   * `_abortIndirect` while another consumer is left: the first error is kept,
   * the callback is queued, one consumer fewer, and nothing else happens.
   */
  lemma IndirectWaits(hs: seq<LegacyState>, log: seq<Event>, t: Id, err: Option<Error>, cb: Id, k: int)
    requires Linked(hs) && t < |hs| && cb < |hs| && hs[t].unabortedCount == Num(k) && k != 1
    ensures IndirectOf(hs, log, t, err, cb) ==
      (hs[t := hs[t].(abortError := if hs[t].abortError.Some? then hs[t].abortError else err,
                      abortCallbacks := Some(CallbacksOf(hs[t]) + [cb]),
                      unabortedCount := Num(k - 1))], log)
  {
    var s1 := Indirected(hs[t], err, cb);
    assert s1.abortCallbacks == Some(CallbacksOf(hs[t]) + [cb]);
    assert InRange(hs[t], |hs|);
    assert FollowersOf(s1) == FollowersOf(hs[t]);
    assert forall c :: c in CallbacksOf(s1) ==> c in CallbacksOf(hs[t]) || c == cb;
    LinkedUpdate(hs, t, s1);
    LiveUpdate(hs, t, s1);
  }

  /**
   * `_abortIndirect` on the last consumer of a handle with a handler: the
   * callback is queued, the handle is no longer abortable, and the handler is
   * called once with the first error; the error and handler are taken off.
   */
  lemma {:induction false} IndirectLastFiresHandler(hs: seq<LegacyState>, log: seq<Event>, t: Id, err: Option<Error>, cb: Id)
    requires Linked(hs) && t < |hs| && cb < |hs| && hs[t].unabortedCount == Num(1) && hs[t].abortHandler.Some?
    ensures var e := if hs[t].abortError.Some? then hs[t].abortError else err;
      IndirectOf(hs, log, t, err, cb) ==
      (hs[t := hs[t].(isAbortable := false, abortHandler := None, abortError := None,
                      abortCallbacks := Some(CallbacksOf(hs[t]) + [cb]), unabortedCount := Num(0))],
       log + [HandlerCalledWithDone(t, hs[t].abortHandler.value, e)])
  {
    var s1 := Indirected(hs[t], err, cb);
    assert InRange(hs[t], |hs|);
    assert FollowersOf(s1) == FollowersOf(hs[t]);
    assert forall c :: c in CallbacksOf(s1) ==> c in CallbacksOf(hs[t]) || c == cb;
    LinkedUpdate(hs, t, s1);
    var hs1 := hs[t := s1];
    LiveUpdate(hs, t, s1);
    assert s1.abortCallbacks == Some(CallbacksOf(hs[t]) + [cb]);
    assert IndirectOf(hs, log, t, err, cb) == AbortOf(hs1, log, t);
    var s2 := s1.(isAbortable := false);
    SameLinks(hs1, [], t, s2);
    assert AbortOf(hs1, log, t) == AbortDoOf(hs1[t := s2], log, t);
    assert hs1[t := s2][t := s2.(abortHandler := None, abortError := None)] == hs[t := s2.(abortHandler := None, abortError := None)];
  }

  /** `_abort()` prefers a registered handler to the `_awaiting` link. */
  lemma AbortPrefersHandler(hs: seq<LegacyState>, log: seq<Event>, h: Id)
    requires Linked(hs) && h < |hs| && hs[h].abortHandler.Some?
    ensures AbortOf(hs, log, h) ==
      (hs[h := hs[h].(isAbortable := false, abortHandler := None, abortError := None)],
       log + [HandlerCalledWithDone(h, hs[h].abortHandler.value, hs[h].abortError)])
  {
    var s := hs[h].(isAbortable := false);
    SameLinks(hs, [], h, s);
    assert AbortOf(hs, log, h) == AbortDoOf(hs[h := s], log, h);
    assert hs[h := s][h := s.(abortHandler := None, abortError := None)] == hs[h := s.(abortHandler := None, abortError := None)];
  }

  // ---------------------------------------------------------------------
  // `_followed`, `_settled`, and the placeholder's `_resolved`

  /** Handle `h` may settle with `v`: a handle it would follow ranks above it. */
  ghost predicate CanFollow(hs: seq<LegacyState>, rank: seq<nat>, h: Id, v: Value) {
    v.HandleRef? ==> v.id < |hs| && h < |rank| && v.id < |rank| && rank[h] < rank[v.id]
  }

  /** `isAbortable(value)` for a value of the arena: an Abortable (a thenable) whose `_isAbortable` is set. */
  predicate IsAbortableValue(hs: seq<LegacyState>, v: Value)
    requires v.HandleRef? ==> v.id < |hs|
  {
    v.HandleRef? && hs[v.id].kind.Real? && hs[v.id].isAbortable
  }

  /**
   * `p._followed(follower)`: one more consumer of `p`, the follower awaits
   * `p`, and the follower is appended to `p`'s `_followers`.
   */
  function FollowedOf(hs: seq<LegacyState>, p: Id, follower: Id): (r: seq<LegacyState>)
    requires p < |hs| && follower < |hs| && p != follower
    ensures |r| == |hs|
    ensures r[p] == hs[p].(unabortedCount := hs[p].unabortedCount.Inc(), followers := Utils.PushOrCreate(hs[p].followers, follower))
    ensures r[follower] == hs[follower].(awaiting := Some(p))
    ensures forall i :: 0 <= i < |hs| && i != p && i != follower ==> r[i] == hs[i]
  {
    hs[p := hs[p].(unabortedCount := hs[p].unabortedCount.Inc(), followers := Utils.PushOrCreate(hs[p].followers, follower))]
      [follower := hs[follower].(awaiting := Some(p))]
  }

  lemma FollowedOfLinks(hs: seq<LegacyState>, rank: seq<nat>, p: Id, follower: Id)
    requires Linked(hs) && Ranked(hs, rank) && p < |hs| && follower < |hs| && rank[follower] < rank[p]
    ensures Linked(FollowedOf(hs, p, follower)) && Ranked(FollowedOf(hs, p, follower), rank)
  {
    var r := FollowedOf(hs, p, follower);
    assert FollowersOf(r[p]) == FollowersOf(hs[p]) + [follower];
    assert InRange(hs[p], |hs|) && RankedBelow(hs[p], rank, rank[p]);
    assert InRange(hs[follower], |hs|) && RankedBelow(hs[follower], rank, rank[follower]);
    forall j | 0 <= j < |r| ensures InRange(r[j], |r|) && RankedBelow(r[j], rank, rank[j]) {
      if j == follower {
        assert FollowersOf(r[j]) == FollowersOf(hs[j]) && CallbacksOf(r[j]) == CallbacksOf(hs[j]);
      } else if j == p {
        assert CallbacksOf(r[j]) == CallbacksOf(hs[j]);
      } else {
        assert r[j] == hs[j];
      }
    }
  }

  /**
   * `this._settled(res)` on Abortable `h`: follow an abortable `res`, and if
   * this handle already carries an abort error, propagate it there at once;
   * on anything else, clear.
   */
  ghost function SettledOf(hs: seq<LegacyState>, log: seq<Event>, h: Id, v: Value, rank: seq<nat>): (r: (seq<LegacyState>, seq<Event>))
    requires Linked(hs) && Ranked(hs, rank) && h < |hs| && CanFollow(hs, rank, h, v)
    ensures |r.0| == |hs| && Linked(r.0) && Ranked(r.0, rank)
  {
    if IsAbortableValue(hs, v) then
      FollowedOfLinks(hs, rank, v.id, h);
      var hs1 := FollowedOf(hs, v.id, h);
      if hs1[h].abortError.Some? then
        PropagateOfProgresses(hs1, log, h, v.id);
        var r := PropagateOf(hs1, log, h, v.id);
        assert forall i :: 0 <= i < |hs| ==> FollowersOf(r.0[i]) == FollowersOf(hs1[i]);
        RankedOfSameFollowers(hs1, r.0, rank);
        r
      else (hs1, log)
    else
      ClearOfLinked(hs, h, rank);
      (ClearOf(hs, h, rank), log)
  }

  /** Rankings only look at follower lists. */
  lemma RankedOfSameFollowers(hs: seq<LegacyState>, r: seq<LegacyState>, rank: seq<nat>)
    requires Ranked(hs, rank) && |r| == |hs|
    requires forall i :: 0 <= i < |hs| ==> FollowersOf(r[i]) == FollowersOf(hs[i])
    ensures Ranked(r, rank)
  {
    forall i | 0 <= i < |r| ensures RankedBelow(r[i], rank, rank[i]) {
      assert RankedBelow(hs[i], rank, rank[i]);
    }
  }

  /** How the placeholder computes `_followerIndex` from what `_followed` returns. */
  datatype IndexRule =
    /** lib/utils.js as written: `pushOrCreate` returns undefined, and `undefined - 1` is NaN. */
    | AsWritten
    /** `pushOrCreate` returning the new length, as its doc comment says. */
    | Corrected

  /**
   * What `p._followed(follower)` returns when `p`'s follower list was `fs`:
   * the value of `pushOrCreate(...)` as written, or the new length.
   */
  function FollowedReturn(rule: IndexRule, fs: Option<seq<Id>>, follower: Id): (r: Utils.JsValue)
    ensures rule.AsWritten? ==> r == Utils.Undefined
    ensures rule.Corrected? ==> r == Utils.Number(Utils.Finite(|Utils.Elements(Utils.PushOrCreate(fs, follower))|))
  {
    match rule
    case AsWritten => Utils.PushOrCreateCall(fs, follower).1
    case Corrected => Utils.Number(Utils.Finite(|Utils.Elements(Utils.PushOrCreate(fs, follower))|))
  }

  /**
   * `res._followed(this) - 1`: NaN as written; under the corrected rule the
   * position the follower takes in the list, which is its old length.
   */
  function FollowerIndexOf(rule: IndexRule, fs: Option<seq<Id>>, follower: Id): (r: Utils.JsNum)
    ensures rule.AsWritten? ==> r == Utils.NotANumber
    ensures rule.Corrected? ==> r == Utils.Finite(|Utils.Elements(fs)|)
    ensures rule.Corrected? ==> Utils.Elements(Utils.PushOrCreate(fs, follower))[r.n] == follower
  {
    Utils.MinusOne(FollowedReturn(rule, fs, follower))
  }

  /** One executor call on the placeholder `d` of the Abortable `owner`. */
  datatype LegacyCall = LResolve(value: Value) | LReject(reason: Value) | LOnAbort(fn: Fn)

  /** The error `DummyPromise._rejected` throws: it calls `this.clear()`, which no class defines. */
  const ClearIsNotAFunction := TypeError("this.clear is not a function")

  /**
   * `d._resolved(resolve, res)`: the first call either follows an abortable
   * `res` and stores the index `_followed` gives back, or clears; every call
   * reaches the native resolve.
   */
  ghost function PlaceholderResolvedOf(hs: seq<LegacyState>, log: seq<Event>, d: Id, owner: Id, v: Value, rank: seq<nat>, rule: IndexRule)
    : (r: (seq<LegacyState>, seq<Event>))
    requires Linked(hs) && Ranked(hs, rank) && d < |hs| && CanFollow(hs, rank, d, v)
    ensures |r.0| == |hs| && Linked(r.0) && Ranked(r.0, rank)
    ensures r.1 == log + [NativeResolve(owner, v)]
  {
    if hs[d].isFateSealed then (hs, log + [NativeResolve(owner, v)])
    else
      var hs1 := hs[d := hs[d].(isFateSealed := true)];
      SameLinks(hs, rank, d, hs1[d]);
      if IsAbortableValue(hs1, v) then
        FollowedOfLinks(hs1, rank, v.id, d);
        var hs2 := FollowedOf(hs1, v.id, d);
        var ix := FollowerIndexOf(rule, hs1[v.id].followers, d);
        SameLinks(hs2, rank, d, hs2[d].(followerIndex := Some(ix)));
        (hs2[d := hs2[d].(followerIndex := Some(ix))], log + [NativeResolve(owner, v)])
      else
        ClearOfLinked(hs1, d, rank);
        (ClearOf(hs1, d, rank), log + [NativeResolve(owner, v)])
  }

  /** The calls only refer to handles that rank above the placeholder. */
  ghost predicate CallsFollowable(hs: seq<LegacyState>, rank: seq<nat>, d: Id, calls: seq<LegacyCall>) {
    forall i :: 0 <= i < |calls| && calls[i].LResolve? ==> CanFollow(hs, rank, d, calls[i].value)
  }

  /** One executor call on the placeholder: the arena, the log, and what the call threw. */
  ghost function PlaceholderStepOf(hs: seq<LegacyState>, log: seq<Event>, d: Id, owner: Id, c: LegacyCall, rank: seq<nat>, rule: IndexRule)
    : (r: (seq<LegacyState>, seq<Event>, Option<Exception>))
    requires Linked(hs) && Ranked(hs, rank) && d < |hs| && (c.LResolve? ==> CanFollow(hs, rank, d, c.value))
    ensures |r.0| == |hs| && Linked(r.0) && Ranked(r.0, rank)
  {
    match c
    case LResolve(v) =>
      var o := PlaceholderResolvedOf(hs, log, d, owner, v, rank, rule);
      (o.0, o.1, None)
    case LReject(e) =>
      if hs[d].isFateSealed then (hs, log + [NativeReject(owner, e)], None)
      else
        SameLinks(hs, rank, d, hs[d].(isFateSealed := true));
        (hs[d := hs[d].(isFateSealed := true)], log, Some(ClearIsNotAFunction))
    case LOnAbort(fn) =>
      if hs[d].isAbortable then
        SameLinks(hs, rank, d, hs[d].(abortHandler := Some(fn)));
        (hs[d := hs[d].(abortHandler := Some(fn))], log, None)
      else (hs, log, None)
  }

  /** The executor's calls on the placeholder, in order. */
  ghost function PlaceholderRunOf(hs: seq<LegacyState>, log: seq<Event>, d: Id, owner: Id, calls: seq<LegacyCall>, rank: seq<nat>, rule: IndexRule)
    : (r: (seq<LegacyState>, seq<Event>, seq<Option<Exception>>))
    requires Linked(hs) && Ranked(hs, rank) && d < |hs| && CallsFollowable(hs, rank, d, calls)
    ensures |r.0| == |hs| && Linked(r.0) && Ranked(r.0, rank) && |r.2| == |calls|
    decreases |calls|
  {
    if calls == [] then (hs, log, [])
    else
      var m := |calls| - 1;
      assert CallsFollowable(hs, rank, d, calls[..m]);
      var r1 := PlaceholderRunOf(hs, log, d, owner, calls[..m], rank, rule);
      assert calls[m].LResolve? ==> CanFollow(r1.0, rank, d, calls[m].value);
      var s := PlaceholderStepOf(r1.0, r1.1, d, owner, calls[m], rank, rule);
      (s.0, s.1, r1.2 + [s.2])
  }

  // ---------------------------------------------------------------------
  // The constructor

  /** `new DummyPromise()`: abortable, not sealed, no handler, no awaiting, no follower index. */
  function InitialPlaceholder(): (s: LegacyState)
    ensures s.kind.Placeholder? && s.isAbortable && !s.isFateSealed
    ensures s.abortHandler.None? && s.awaiting.None? && s.followerIndex.None?
    ensures s.followers.None? && s.abortCallbacks.None? && s.abortError.None?
  {
    LegacyState(Placeholder, true, false, None, None, None, None, None, NaN, None)
  }

  /** The Abortable's fields once the constructor has copied them from placeholder `d`. */
  function TransferredState(d: LegacyState): (s: LegacyState)
    ensures s.kind.Real? && s.isAbortable == d.isAbortable && s.isFateSealed == d.isFateSealed
    ensures s.abortHandler == d.abortHandler && s.awaiting == d.awaiting
    ensures s.followers.None? && s.abortError.None? && s.abortCallbacks.None? && s.unabortedCount == Num(0)
  {
    LegacyState(Real, d.isAbortable, d.isFateSealed, d.abortHandler, d.awaiting, None, None, None, Num(0), None)
  }

  /**
   * `awaiting._followers[p._followerIndex] = this`: an index inside the array
   * replaces that element; any other key (NaN, undefined) is a property that
   * is not an element, and the elements are unchanged.
   */
  function InstallOf(hs: seq<LegacyState>, t: Id, ix: Option<Utils.JsNum>, r: Id): (res: seq<LegacyState>)
    requires t < |hs|
    ensures |res| == |hs|
    ensures (ix.Some? && ix.value.Finite? && 0 <= ix.value.n < |FollowersOf(hs[t])|) ==>
      res == hs[t := hs[t].(followers := Some(FollowersOf(hs[t])[ix.value.n := r]))]
    ensures !(ix.Some? && ix.value.Finite? && 0 <= ix.value.n < |FollowersOf(hs[t])|) ==> res == hs
  {
    if ix.Some? && ix.value.Finite? && 0 <= ix.value.n < |FollowersOf(hs[t])| then
      hs[t := hs[t].(followers := Some(FollowersOf(hs[t])[ix.value.n := r]))]
    else hs
  }

  /** Ranks during construction: the old handles two up, the placeholder at 1. */
  function RunRank(rank: seq<nat>): (r: seq<nat>)
    ensures |r| == |rank| + 1 && r[|rank|] == 1
    ensures forall i :: 0 <= i < |rank| ==> r[i] == rank[i] + 2
  {
    seq(|rank|, i requires 0 <= i < |rank| => rank[i] + 2) + [1]
  }

  /** Ranks after construction: the new Abortable at 0, below its placeholder. */
  function Raised(rank: seq<nat>): (r: seq<nat>)
    ensures |r| == |rank| + 2 && r[|rank|] == 1 && r[|rank| + 1] == 0
    ensures forall i :: 0 <= i < |rank| ==> r[i] == rank[i] + 2
  {
    RunRank(rank) + [0]
  }

  /** Adding a handle with no followers and nothing queued keeps the arena linked and ranked. */
  lemma AppendLinks(hs: seq<LegacyState>, rank: seq<nat>, s: LegacyState, r: nat)
    requires Linked(hs) && Ranked(hs, rank)
    requires s.followers.None? && s.abortCallbacks.None? && (s.awaiting.Some? ==> s.awaiting.value < |hs|)
    ensures Linked(hs + [s]) && Ranked(hs + [s], rank + [r])
  {
    var hs1 := hs + [s];
    var rank1 := rank + [r];
    forall i | 0 <= i < |hs1| ensures InRange(hs1[i], |hs1|) && RankedBelow(hs1[i], rank1, rank1[i]) {
      if i < |hs| {
        assert hs1[i] == hs[i] && rank1[i] == rank[i];
        assert InRange(hs[i], |hs|) && RankedBelow(hs[i], rank, rank[i]);
      } else {
        assert FollowersOf(hs1[i]) == [] && CallbacksOf(hs1[i]) == [];
      }
    }
  }

  /** The arena with a placeholder added is ranked by `RunRank`. */
  lemma RunRanked(hs: seq<LegacyState>, rank: seq<nat>)
    requires Linked(hs) && Ranked(hs, rank)
    ensures Linked(hs + [InitialPlaceholder()]) && Ranked(hs + [InitialPlaceholder()], RunRank(rank))
  {
    var r := RunRank(rank);
    forall i | 0 <= i < |hs| ensures RankedBelow(hs[i], r[..|hs|], r[i]) {
      assert RankedBelow(hs[i], rank, rank[i]);
    }
    var rs := r[..|hs|];
    assert Ranked(hs, rs);
    AppendLinks(hs, rs, InitialPlaceholder(), 1);
    assert rs + [1] == r;
  }

  /** Every call refers to an existing handle. */
  predicate CallsIn(calls: seq<LegacyCall>, n: nat) {
    forall i :: 0 <= i < |calls| && calls[i].LResolve? && calls[i].value.HandleRef? ==> calls[i].value.id < n
  }

  /**
   * `new Abortable(executor)`: placeholder `|hs|` records the executor's
   * calls, the Abortable `|hs| + 1` takes its state, and an awaited handle
   * gets the Abortable at the placeholder's index in its `_followers`.
   */
  ghost function ConstructOf(hs: seq<LegacyState>, log: seq<Event>, calls: seq<LegacyCall>, rank: seq<nat>, rule: IndexRule)
    : (r: (seq<LegacyState>, seq<Event>, seq<Option<Exception>>))
    requires Linked(hs) && Ranked(hs, rank) && CallsIn(calls, |hs|)
    ensures |r.0| == |hs| + 2 && Linked(r.0) && Ranked(r.0, Raised(rank)) && |r.2| == |calls|
  {
    var d := |hs|;
    var hs0 := hs + [InitialPlaceholder()];
    RunRanked(hs, rank);
    assert CallsFollowable(hs0, RunRank(rank), d, calls);
    var run := PlaceholderRunOf(hs0, log, d, d + 1, calls, RunRank(rank), rule);
    var ps := run.0[d];
    assert InRange(ps, |run.0|);
    AppendLinks(run.0, RunRank(rank), TransferredState(ps), 0);
    var hs2 := run.0 + [TransferredState(ps)];
    if ps.awaiting.Some? then
      var hs3 := InstallOf(hs2, ps.awaiting.value, ps.followerIndex, d + 1);
      InstallLinks(hs2, Raised(rank), ps.awaiting.value, ps.followerIndex, d + 1);
      (hs3, run.1, run.2)
    else (hs2, run.1, run.2)
  }

  /** Installing a handle that ranks below the awaited one keeps the arena linked and ranked. */
  lemma InstallLinks(hs: seq<LegacyState>, rank: seq<nat>, t: Id, ix: Option<Utils.JsNum>, r: Id)
    requires Linked(hs) && t < |hs| && r < |hs|
    ensures Linked(InstallOf(hs, t, ix, r))
    ensures Ranked(hs, rank) && rank[r] < rank[t] ==> Ranked(InstallOf(hs, t, ix, r), rank)
  {
    var res := InstallOf(hs, t, ix, r);
    if res != hs {
      var k := ix.value.n;
      assert FollowersOf(res[t]) == FollowersOf(hs[t])[k := r];
      assert forall f :: f in FollowersOf(res[t]) ==> f in FollowersOf(hs[t]) || f == r;
      assert InRange(hs[t], |hs|);
      assert CallbacksOf(res[t]) == CallbacksOf(hs[t]);
      LinkedUpdate(hs, t, res[t]);
      if Ranked(hs, rank) && rank[r] < rank[t] {
        assert RankedBelow(hs[t], rank, rank[t]);
        RankedUpdate(hs, rank, t, res[t]);
      }
    }
  }

  /** A handle that no follower list holds is untouched by `_clear()` elsewhere, and stays unheld. */
  lemma {:induction false} ClearOfUnfollowed(hs: seq<LegacyState>, h: Id, rank: seq<nat>, j: Id)
    requires Ranked(hs, rank) && h < |hs| && j < |hs| && j != h
    requires forall i :: 0 <= i < |hs| ==> j !in FollowersOf(hs[i])
    ensures ClearOf(hs, h, rank)[j] == hs[j]
    ensures forall i :: 0 <= i < |hs| ==> j !in FollowersOf(ClearOf(hs, h, rank)[i])
    decreases rank[h], 1, 0
  {
    assert RankedBelow(hs[h], rank, rank[h]);
    var hs1 := if hs[h].kind.Placeholder? then hs else ClearListOf(hs, FollowersOf(hs[h]), rank, rank[h]);
    if hs[h].kind.Real? {
      ClearListOfUnfollowed(hs, FollowersOf(hs[h]), rank, rank[h], j);
    }
    var r := hs1[h := Cleared(hs1[h])];
    forall i | 0 <= i < |hs| ensures j !in FollowersOf(r[i]) {
      if i == h {
        assert FollowersOf(r[i]) == [] || FollowersOf(r[i]) == FollowersOf(hs1[i]);
      }
    }
  }

  lemma {:induction false} ClearListOfUnfollowed(hs: seq<LegacyState>, fs: seq<Id>, rank: seq<nat>, bound: nat, j: Id)
    requires Ranked(hs, rank) && j < |hs|
    requires forall f :: f in fs ==> f < |hs| && rank[f] < bound && f != j
    requires forall i :: 0 <= i < |hs| ==> j !in FollowersOf(hs[i])
    ensures ClearListOf(hs, fs, rank, bound)[j] == hs[j]
    ensures forall i :: 0 <= i < |hs| ==> j !in FollowersOf(ClearListOf(hs, fs, rank, bound)[i])
    decreases bound, 0, |fs|
  {
    if fs != [] {
      var pre := fs[..|fs| - 1];
      assert forall f :: f in pre ==> f in fs;
      assert fs[|fs| - 1] in fs;
      ClearListOfUnfollowed(hs, pre, rank, bound, j);
      ClearOfUnfollowed(ClearListOf(hs, pre, rank, bound), fs[|fs| - 1], rank, j);
    }
  }

  /** The arena once the placeholder `|hs|`, new and unsealed, has been resolved with abortable `t`. */
  function FollowedInto(hs: seq<LegacyState>, t: Id, rule: IndexRule): (r: seq<LegacyState>)
    requires t < |hs|
    ensures |r| == |hs| + 1
    ensures r[|hs|] == InitialPlaceholder().(isFateSealed := true, awaiting := Some(t),
      followerIndex := Some(FollowerIndexOf(rule, hs[t].followers, |hs|)))
    ensures r[t] == hs[t].(unabortedCount := hs[t].unabortedCount.Inc(), followers := Some(FollowersOf(hs[t]) + [|hs|]))
    ensures forall i :: 0 <= i < |hs| && i != t ==> r[i] == hs[i]
  {
    var n := |hs|;
    var hs1 := hs + [InitialPlaceholder().(isFateSealed := true)];
    var hs2 := FollowedOf(hs1, t, n);
    assert FollowersOf(hs2[t]) == FollowersOf(hs[t]) + [n];
    hs2[n := hs2[n].(followerIndex := Some(FollowerIndexOf(rule, hs1[t].followers, n)))]
  }

  /** The placeholder's run for an executor that resolves it with abortable `t`. */
  lemma ResolvedRun(hs: seq<LegacyState>, log: seq<Event>, t: Id, rank: seq<nat>, rule: IndexRule)
    requires Linked(hs) && Ranked(hs, rank) && t < |hs| && IsAbortableValue(hs, HandleRef(t))
    ensures var hs0 := hs + [InitialPlaceholder()];
      && Linked(hs0) && Ranked(hs0, RunRank(rank))
      && CallsFollowable(hs0, RunRank(rank), |hs|, [LResolve(HandleRef(t))])
      && PlaceholderRunOf(hs0, log, |hs|, |hs| + 1, [LResolve(HandleRef(t))], RunRank(rank), rule)
         == (FollowedInto(hs, t, rule), log + [NativeResolve(|hs| + 1, HandleRef(t))], [None])
  {
    var n := |hs|;
    var calls := [LResolve(HandleRef(t))];
    var hs0 := hs + [InitialPlaceholder()];
    RunRanked(hs, rank);
    var rr := RunRank(rank);
    assert CallsFollowable(hs0, rr, n, calls);
    assert calls[..0] == [];
    assert PlaceholderRunOf(hs0, log, n, n + 1, [], rr, rule) == (hs0, log, []);
    var run := PlaceholderRunOf(hs0, log, n, n + 1, calls, rr, rule);
    var step := PlaceholderStepOf(hs0, log, n, n + 1, calls[0], rr, rule);
    assert run == (step.0, step.1, [] + [step.2]);
    assert [] + [step.2] == [step.2];
    var hs1 := hs0[n := hs0[n].(isFateSealed := true)];
    assert hs1 == hs + [InitialPlaceholder().(isFateSealed := true)];
    assert IsAbortableValue(hs1, HandleRef(t));
    assert step.0 == FollowedInto(hs, t, rule);
  }

  /** The arena after the executor resolves the placeholder with abortable `t` and the constructor ends. */
  lemma ResolvedWithAbortable(hs: seq<LegacyState>, log: seq<Event>, t: Id, rank: seq<nat>, rule: IndexRule)
    requires Linked(hs) && Ranked(hs, rank) && t < |hs| && IsAbortableValue(hs, HandleRef(t))
    ensures CallsIn([LResolve(HandleRef(t))], |hs|)
    ensures var r := ConstructOf(hs, log, [LResolve(HandleRef(t))], rank, rule);
      var n := |hs|;
      && r.1 == log + [NativeResolve(n + 1, HandleRef(t))] && r.2 == [None]
      && r.0[n + 1] == LegacyState(Real, true, true, None, Some(t), None, None, None, Num(0), None)
      && r.0[n].awaiting == Some(t) && r.0[n].isAbortable && r.0[n].followers.None?
      && r.0[t] == hs[t].(unabortedCount := hs[t].unabortedCount.Inc(),
                          followers := Some(FollowersOf(hs[t]) + [if rule.Corrected? then n + 1 else n]))
      && forall i :: 0 <= i < n && i != t ==> r.0[i] == hs[i]
  {
    var n := |hs|;
    ResolvedRun(hs, log, t, rank, rule);
    var run0 := FollowedInto(hs, t, rule);
    var ps := run0[n];
    var hs3 := run0 + [TransferredState(ps)];
    var r := ConstructOf(hs, log, [LResolve(HandleRef(t))], rank, rule);
    assert r.0 == InstallOf(hs3, t, ps.followerIndex, n + 1);
    if rule.Corrected? {
      assert FollowersOf(hs3[t])[|FollowersOf(hs[t])| := n + 1] == FollowersOf(hs[t]) + [n + 1];
    }
  }

  /**
   * The Abortable built for an executor that resolves with abortable `t`,
   * with lib/utils.js as written: its placeholder stays in `t`'s
   * `_followers` and the Abortable itself is in no follower list, so
   * clearing `t` leaves it abortable.
   */
  lemma FollowerLostAsWritten(hs: seq<LegacyState>, log: seq<Event>, t: Id, rank: seq<nat>)
    requires Linked(hs) && Ranked(hs, rank) && t < |hs| && IsAbortableValue(hs, HandleRef(t))
    ensures CallsIn([LResolve(HandleRef(t))], |hs|)
    ensures var r := ConstructOf(hs, log, [LResolve(HandleRef(t))], rank, AsWritten);
      && FollowersOf(r.0[t]) == FollowersOf(hs[t]) + [|hs|]
      && (forall i :: 0 <= i < |r.0| ==> |hs| + 1 !in FollowersOf(r.0[i]))
      && Ranked(r.0, Raised(rank))
      && ClearOf(r.0, t, Raised(rank))[|hs| + 1].isAbortable
  {
    var n := |hs|;
    ResolvedWithAbortable(hs, log, t, rank, AsWritten);
    var r := ConstructOf(hs, log, [LResolve(HandleRef(t))], rank, AsWritten);
    var hs2 := r.0;
    assert |hs2| == n + 2 && FollowersOf(hs2[n]) == [] && FollowersOf(hs2[n + 1]) == [];
    NewestUnfollowed(hs, hs2, t);
    ClearOfUnfollowed(hs2, t, Raised(rank), n + 1);
  }

  /** Two handles appended to a linked arena, `t` gaining only the first as a follower: nothing follows the second. */
  lemma NewestUnfollowed(hs: seq<LegacyState>, hs2: seq<LegacyState>, t: Id)
    requires Linked(hs) && t < |hs| && |hs2| == |hs| + 2
    requires FollowersOf(hs2[|hs|]) == [] && FollowersOf(hs2[|hs| + 1]) == []
    requires FollowersOf(hs2[t]) == FollowersOf(hs[t]) + [|hs|]
    requires forall i :: 0 <= i < |hs| && i != t ==> hs2[i] == hs[i]
    ensures forall i :: 0 <= i < |hs2| ==> |hs| + 1 !in FollowersOf(hs2[i])
  {
    var n := |hs|;
    forall i | 0 <= i < |hs2| ensures n + 1 !in FollowersOf(hs2[i]) {
      if i < n {
        assert InRange(hs[i], n);
      }
    }
  }

  /**
   * The same Abortable with `pushOrCreate` returning the new length: it
   * takes its placeholder's place in `t`'s `_followers`, and clearing `t`
   * clears it too.
   */
  lemma FollowerInstalled(hs: seq<LegacyState>, log: seq<Event>, t: Id, rank: seq<nat>)
    requires Linked(hs) && Ranked(hs, rank) && t < |hs| && IsAbortableValue(hs, HandleRef(t))
    ensures CallsIn([LResolve(HandleRef(t))], |hs|)
    ensures var r := ConstructOf(hs, log, [LResolve(HandleRef(t))], rank, Corrected);
      && FollowersOf(r.0[t]) == FollowersOf(hs[t]) + [|hs| + 1]
      && Ranked(r.0, Raised(rank))
      && !ClearOf(r.0, t, Raised(rank))[|hs| + 1].isAbortable
  {
    var n := |hs|;
    ResolvedWithAbortable(hs, log, t, rank, Corrected);
    var r := ConstructOf(hs, log, [LResolve(HandleRef(t))], rank, Corrected);
    var rk := Raised(rank);
    assert r.0[t].kind.Real?;
    assert RankedBelow(r.0[t], rk, rk[t]);
    assert n + 1 in FollowersOf(r.0[t]);
    ClearListOfClears(r.0, FollowersOf(r.0[t]), rk, rk[t]);
  }

  /** An Abortable whose executor called nothing. */
  function FreshAbortable(): (s: LegacyState)
    ensures s == TransferredState(InitialPlaceholder())
    ensures s.kind.Real? && s.isAbortable && !s.isFateSealed && s.abortHandler.None? && s.awaiting.None?
    ensures s.followers.None? && s.abortError.None? && s.abortCallbacks.None? && s.unabortedCount == Num(0)
  {
    LegacyState(Real, true, false, None, None, None, None, None, Num(0), None)
  }

  /** An executor that calls nothing leaves an untouched placeholder and a fresh Abortable. */
  lemma ConstructNothing(hs: seq<LegacyState>, log: seq<Event>, rank: seq<nat>, rule: IndexRule)
    requires Linked(hs) && Ranked(hs, rank)
    ensures CallsIn([], |hs|)
    ensures ConstructOf(hs, log, [], rank, rule) == (hs + [InitialPlaceholder(), FreshAbortable()], log, [])
  {
    var hs0 := hs + [InitialPlaceholder()];
    RunRanked(hs, rank);
    assert PlaceholderRunOf(hs0, log, |hs|, |hs| + 1, [], RunRank(rank), rule) == (hs0, log, []);
    assert hs0 + [FreshAbortable()] == hs + [InitialPlaceholder(), FreshAbortable()];
  }

  /**
   * An executor that resolves with a value that is not an abortable
   * Abortable: the placeholder is sealed and cleared, so the Abortable is
   * sealed and can no longer abort, and nothing else changes.
   */
  lemma {:induction false} ResolvedWithPlain(hs: seq<LegacyState>, log: seq<Event>, v: Value, rank: seq<nat>, rule: IndexRule)
    requires Linked(hs) && Ranked(hs, rank) && (v.HandleRef? ==> v.id < |hs|) && !IsAbortableValue(hs, v)
    ensures CallsIn([LResolve(v)], |hs|)
    ensures var r := ConstructOf(hs, log, [LResolve(v)], rank, rule);
      && r.0 == hs + [Cleared(InitialPlaceholder().(isFateSealed := true)),
                      LegacyState(Real, false, true, None, None, None, None, None, Num(0), None)]
      && r.1 == log + [NativeResolve(|hs| + 1, v)] && r.2 == [None]
  {
    var n := |hs|;
    RunRanked(hs, rank);
    PlainRun(hs, log, v, rank, rule);
    var run := PlaceholderRunOf(hs + [InitialPlaceholder()], log, n, n + 1, [LResolve(v)], RunRank(rank), rule);
    var sealed := Cleared(InitialPlaceholder().(isFateSealed := true));
    assert run.0[n] == sealed && sealed.awaiting.None?;
    assert TransferredState(sealed) == LegacyState(Real, false, true, None, None, None, None, None, Num(0), None);
  }

  /** The executor's single resolve with a value that is not abortable: the placeholder is sealed and cleared. */
  lemma PlainRun(hs: seq<LegacyState>, log: seq<Event>, v: Value, rank: seq<nat>, rule: IndexRule)
    requires Linked(hs) && Ranked(hs, rank) && (v.HandleRef? ==> v.id < |hs|) && !IsAbortableValue(hs, v)
    requires Linked(hs + [InitialPlaceholder()]) && Ranked(hs + [InitialPlaceholder()], RunRank(rank))
    ensures CallsFollowable(hs + [InitialPlaceholder()], RunRank(rank), |hs|, [LResolve(v)])
    ensures PlaceholderRunOf(hs + [InitialPlaceholder()], log, |hs|, |hs| + 1, [LResolve(v)], RunRank(rank), rule)
         == (hs + [Cleared(InitialPlaceholder().(isFateSealed := true))], log + [NativeResolve(|hs| + 1, v)], [None])
  {
    var n := |hs|;
    var calls := [LResolve(v)];
    var hs0 := hs + [InitialPlaceholder()];
    var rr := RunRank(rank);
    assert CallsFollowable(hs0, rr, n, calls);
    assert calls[..0] == [];
    assert PlaceholderRunOf(hs0, log, n, n + 1, [], rr, rule) == (hs0, log, []);
    assert !IsAbortableValue(hs0, v);
    PlainResolvedStep(hs0, log, n, n + 1, v, rr, rule);
    var o := PlaceholderResolvedOf(hs0, log, n, n + 1, v, rr, rule);
    assert PlaceholderStepOf(hs0, log, n, n + 1, calls[0], rr, rule) == (o.0, o.1, None);
    var none: seq<Option<Exception>> := [];
    assert none + [None] == [None];
    assert hs0[n := Cleared(hs0[n].(isFateSealed := true))] == hs + [Cleared(InitialPlaceholder().(isFateSealed := true))];
  }

  /** A placeholder resolved for the first time with a value that is not abortable, is sealed and cleared. */
  lemma PlainResolvedStep(hs: seq<LegacyState>, log: seq<Event>, d: Id, owner: Id, v: Value, rank: seq<nat>, rule: IndexRule)
    requires Linked(hs) && Ranked(hs, rank) && d < |hs| && CanFollow(hs, rank, d, v)
    requires hs[d].kind.Placeholder? && !hs[d].isFateSealed && !IsAbortableValue(hs, v)
    ensures PlaceholderResolvedOf(hs, log, d, owner, v, rank, rule)
         == (hs[d := Cleared(hs[d].(isFateSealed := true))], log + [NativeResolve(owner, v)])
  {
    var hs1 := hs[d := hs[d].(isFateSealed := true)];
    assert !IsAbortableValue(hs1, v);
    SameLinks(hs, rank, d, hs1[d]);
    assert ClearOf(hs1, d, rank) == hs1[d := Cleared(hs1[d])];
    assert hs1[d := Cleared(hs1[d])] == hs[d := Cleared(hs[d].(isFateSealed := true))];
  }

  // ---------------------------------------------------------------------
  // `_resolved`, `_rejected`, `_onAbort`, `abort`

  /** `this._resolved(resolve, res)` on Abortable `h`: settle on the first call; the native resolve always runs. */
  ghost function ResolvedOf(hs: seq<LegacyState>, log: seq<Event>, h: Id, v: Value, rank: seq<nat>): (r: (seq<LegacyState>, seq<Event>))
    requires Linked(hs) && Ranked(hs, rank) && h < |hs| && CanFollow(hs, rank, h, v)
    ensures |r.0| == |hs| && Linked(r.0) && Ranked(r.0, rank)
    ensures |r.1| > 0 && r.1[|r.1| - 1] == NativeResolve(h, v)
  {
    if hs[h].isFateSealed then (hs, log + [NativeResolve(h, v)])
    else
      var hs1 := hs[h := hs[h].(isFateSealed := true)];
      SameLinks(hs, rank, h, hs1[h]);
      var s := SettledOf(hs1, log, h, v, rank);
      (s.0, s.1 + [NativeResolve(h, v)])
  }

  /** The rejection reason is the abort error this handle is waiting on (identity as value equality). */
  predicate RejectsWithAbortError(s: LegacyState, reason: Value) {
    s.abortError.Some? && reason == ErrorRef(s.abortError.value)
  }

  /** Taking callback queues away keeps a ranking. */
  lemma DequeuedRanked(hs: seq<LegacyState>, r: seq<LegacyState>, rank: seq<nat>)
    requires Ranked(hs, rank) && OnlyDequeued(hs, r)
    ensures Ranked(r, rank)
  {
    forall i | 0 <= i < |hs| ensures FollowersOf(r[i]) == FollowersOf(hs[i]) {
      assert r[i] == hs[i].(abortCallbacks := r[i].abortCallbacks);
    }
    RankedOfSameFollowers(hs, r, rank);
  }

  /**
   * `this._rejected(reject, err)` on Abortable `h`: on the first call, finish
   * the abort (`_abortDone()`) if `err` is the pending abort error, then
   * clear; the native reject always runs.
   */
  ghost function RejectedOf(hs: seq<LegacyState>, log: seq<Event>, h: Id, reason: Value, rank: seq<nat>): (r: (seq<LegacyState>, seq<Event>))
    requires Linked(hs) && Ranked(hs, rank) && h < |hs|
    ensures |r.0| == |hs| && Linked(r.0) && Ranked(r.0, rank)
    ensures |r.1| > 0 && r.1[|r.1| - 1] == NativeReject(h, reason)
  {
    if hs[h].isFateSealed then (hs, log + [NativeReject(h, reason)])
    else
      var hs1 := hs[h := hs[h].(isFateSealed := true)];
      SameLinks(hs, rank, h, hs1[h]);
      var d := if RejectsWithAbortError(hs1[h], reason) then DoneOf(hs1, log, h) else (hs1, log);
      assert OnlyDequeued(hs1, d.0);
      DequeuedRanked(hs1, d.0, rank);
      ClearOfLinked(d.0, h, rank);
      (ClearOf(d.0, h, rank), d.1 + [NativeReject(h, reason)])
  }

  /** Once the fate is sealed, resolving and rejecting only reach the native callbacks. */
  lemma SealedSettlementOnlyForwards(hs: seq<LegacyState>, log: seq<Event>, h: Id, v: Value, reason: Value, rank: seq<nat>)
    requires Linked(hs) && Ranked(hs, rank) && h < |hs| && CanFollow(hs, rank, h, v) && hs[h].isFateSealed
    ensures ResolvedOf(hs, log, h, v, rank) == (hs, log + [NativeResolve(h, v)])
    ensures RejectedOf(hs, log, h, reason, rank) == (hs, log + [NativeReject(h, reason)])
  {
  }

  /** `_clear()` on an Abortable leaves none of its followers able to abort. */
  lemma ClearOfClearsFollowers(hs: seq<LegacyState>, h: Id, rank: seq<nat>)
    requires Ranked(hs, rank) && h < |hs| && hs[h].kind.Real?
    ensures forall f :: f in FollowersOf(hs[h]) ==> !ClearOf(hs, h, rank)[f].isAbortable
  {
    assert RankedBelow(hs[h], rank, rank[h]);
    ClearListOfClears(hs, FollowersOf(hs[h]), rank, rank[h]);
  }

  /**
   * The first `_resolved` with an abortable Abortable `v`, on a handle with
   * no pending error: the handle is sealed and awaits `v`, and `v` counts
   * one more consumer and has the handle at the end of its `_followers`.
   */
  lemma FirstResolveFollows(hs: seq<LegacyState>, log: seq<Event>, h: Id, v: Value, rank: seq<nat>)
    requires Linked(hs) && Ranked(hs, rank) && h < |hs| && CanFollow(hs, rank, h, v)
    requires !hs[h].isFateSealed && IsAbortableValue(hs, v) && hs[h].abortError.None?
    ensures var r := ResolvedOf(hs, log, h, v, rank);
      && r.0[h] == hs[h].(isFateSealed := true, awaiting := Some(v.id))
      && r.0[v.id] == hs[v.id].(unabortedCount := hs[v.id].unabortedCount.Inc(), followers := Some(FollowersOf(hs[v.id]) + [h]))
      && r.1 == log + [NativeResolve(h, v)]
  {
    var hs1 := hs[h := hs[h].(isFateSealed := true)];
    SameLinks(hs, rank, h, hs1[h]);
    assert IsAbortableValue(hs1, v);
    FollowedOfLinks(hs1, rank, v.id, h);
    assert SettledOf(hs1, log, h, v, rank) == (FollowedOf(hs1, v.id, h), log);
  }

  /** The first `_resolved` with anything else clears the handle and its followers. */
  lemma {:induction false} FirstResolveClears(hs: seq<LegacyState>, log: seq<Event>, h: Id, v: Value, rank: seq<nat>)
    requires Linked(hs) && Ranked(hs, rank) && h < |hs| && CanFollow(hs, rank, h, v)
    requires !hs[h].isFateSealed && !IsAbortableValue(hs, v) && hs[h].kind.Real?
    ensures var r := ResolvedOf(hs, log, h, v, rank);
      && !r.0[h].isAbortable && r.0[h].isFateSealed
      && (forall f :: f in FollowersOf(hs[h]) ==> !r.0[f].isAbortable)
      && r.1 == log + [NativeResolve(h, v)]
  {
    var hs1 := hs[h := hs[h].(isFateSealed := true)];
    SameLinks(hs, rank, h, hs1[h]);
    assert !IsAbortableValue(hs1, v);
    assert SettledOf(hs1, log, h, v, rank) == (ClearOf(hs1, h, rank), log);
    ClearOfClears(hs1, h, rank);
    assert FollowersOf(hs1[h]) == FollowersOf(hs[h]);
    ClearOfClearsFollowers(hs1, h, rank);
  }

  /**
   * The first `_rejected` with the pending abort error, when no queued
   * callback's handle has a queue of its own: the callbacks run in the order
   * they were queued, then the native reject; the handle and its followers
   * can no longer abort.
   */
  lemma {:induction false} RejectWithAbortErrorRunsCallbacks(hs: seq<LegacyState>, log: seq<Event>, h: Id, rank: seq<nat>)
    requires Linked(hs) && Ranked(hs, rank) && h < |hs| && !hs[h].isFateSealed && hs[h].kind.Real?
    requires hs[h].abortError.Some? && hs[h].abortCallbacks.Some?
    requires forall c :: c in CallbacksOf(hs[h]) ==> hs[c].abortCallbacks.None? || c == h
    ensures var r := RejectedOf(hs, log, h, ErrorRef(hs[h].abortError.value), rank);
      && r.1 == log + CallsOf(CallbacksOf(hs[h])) + [NativeReject(h, ErrorRef(hs[h].abortError.value))]
      && !r.0[h].isAbortable && r.0[h].abortCallbacks.None?
      && (forall f :: f in FollowersOf(hs[h]) ==> !r.0[f].isAbortable)
  {
    var reason := ErrorRef(hs[h].abortError.value);
    var hs1 := hs[h := hs[h].(isFateSealed := true)];
    SameLinks(hs, rank, h, hs1[h]);
    assert RejectsWithAbortError(hs1[h], reason);
    assert CallbacksOf(hs1[h]) == CallbacksOf(hs[h]);
    assert forall c :: c in CallbacksOf(hs1[h]) ==> hs1[c].abortCallbacks.None? || c == h;
    DoneRunsCallbacksInOrder(hs1, log, h);
    var d := DoneOf(hs1, log, h);
    var hs2 := hs1[h := hs1[h].(abortCallbacks := None)];
    assert d.0 == hs2;
    DequeuedRanked(hs1, hs2, rank);
    assert RejectedOf(hs, log, h, reason, rank) == (ClearOf(hs2, h, rank), d.1 + [NativeReject(h, reason)]);
    ClearOfClears(hs2, h, rank);
    assert FollowersOf(hs2[h]) == FollowersOf(hs[h]);
    ClearOfClearsFollowers(hs2, h, rank);
  }

  /**
   * `this._onAbort(fn)`: record the handler only while abortable; with an
   * abort error already pending, call it at once with that error.
   */
  function OnAbortOf(hs: seq<LegacyState>, log: seq<Event>, h: Id, fn: Fn): (r: (seq<LegacyState>, seq<Event>))
    requires Linked(hs) && h < |hs|
    ensures |r.0| == |hs| && Linked(r.0)
    ensures !hs[h].isAbortable ==> r == (hs, log)
    ensures hs[h].isAbortable && hs[h].abortError.None? ==> r == (hs[h := hs[h].(abortHandler := Some(fn))], log)
    ensures hs[h].isAbortable && hs[h].abortError.Some? ==>
      && r.0 == hs[h := hs[h].(abortHandler := None, abortError := None)]
      && r.1 == log + [HandlerCalledWithDone(h, fn, hs[h].abortError)]
  {
    if !hs[h].isAbortable then (hs, log)
    else
      var s := hs[h].(abortHandler := Some(fn));
      SameLinks(hs, [], h, s);
      if s.abortError.Some? then
        assert hs[h := s][h := s.(abortHandler := None, abortError := None)] == hs[h := hs[h].(abortHandler := None, abortError := None)];
        AbortDoOf(hs[h := s], log, h)
      else (hs[h := s], log)
  }

  /** The error `.abort(err)` goes on with: a default AbortError for null or undefined, `err` itself if it is an Error. */
  function LegacyAbortError(arg: AbortArg): (r: Result<Error, Exception>)
    ensures arg.IsNullish() ==> r == Success(NewAbortError(None)) && r.value.message == "Aborted"
    ensures arg.ErrorArg? ==> r == Success(arg.e)
    ensures arg.BoolArg? || arg.OtherArg? ==> r == Failure(ErrorThrown(".abort() must be called with an Error or null"))
  {
    match arg
    case Missing => Success(NewAbortError(None))
    case NullArg => Success(NewAbortError(None))
    case ErrorArg(e) => Success(e)
    case _ => Failure(ErrorThrown(".abort() must be called with an Error or null"))
  }

  /** `this._abortWithError(err)`: record the error, then `_abort()`. */
  ghost function AbortWithErrorOf(hs: seq<LegacyState>, log: seq<Event>, h: Id, e: Error): (r: (seq<LegacyState>, seq<Event>))
    requires Linked(hs) && h < |hs|
    ensures |r.0| == |hs| && Linked(r.0)
  {
    SameLinks(hs, [], h, hs[h].(abortError := Some(e)));
    AbortOf(hs[h := hs[h].(abortError := Some(e))], log, h)
  }

  /** `h.abort(err)`: the handle itself, or what it throws. */
  ghost function AbortCallOf(hs: seq<LegacyState>, log: seq<Event>, h: Id, arg: AbortArg)
    : (r: (seq<LegacyState>, seq<Event>, Result<Id, Exception>))
    requires Linked(hs) && h < |hs|
    ensures |r.0| == |hs| && Linked(r.0)
  {
    if !hs[h].isAbortable then (hs, log, Success(h))
    else
      match LegacyAbortError(arg)
      case Failure(x) => (hs, log, Failure(x))
      case Success(e) =>
        var a := AbortWithErrorOf(hs, log, h, e);
        (a.0, a.1, Success(h))
  }

  /**
   * `abort` checks `_isAbortable` before it looks at its argument: on a
   * handle that cannot abort, every argument (even an invalid one) is a
   * no-op returning the handle; on one that can, an invalid argument throws
   * and changes nothing, and a valid one leaves the handle unable to abort.
   */
  lemma AbortGuards(hs: seq<LegacyState>, log: seq<Event>, h: Id, arg: AbortArg)
    requires Linked(hs) && h < |hs|
    ensures !hs[h].isAbortable ==> AbortCallOf(hs, log, h, arg) == (hs, log, Success(h))
    ensures hs[h].isAbortable && (arg.BoolArg? || arg.OtherArg?) ==>
      AbortCallOf(hs, log, h, arg) == (hs, log, Failure(ErrorThrown(".abort() must be called with an Error or null")))
    ensures hs[h].isAbortable && (arg.IsNullish() || arg.ErrorArg?) ==>
      var r := AbortCallOf(hs, log, h, arg);
      r.2 == Success(h) && !r.0[h].isAbortable && Progressed(hs, log, (r.0, r.1))
  {
    if hs[h].isAbortable && (arg.IsNullish() || arg.ErrorArg?) {
      var e := LegacyAbortError(arg).value;
      var s := hs[h].(abortError := Some(e));
      SameLinks(hs, [], h, s);
      AbortOfProgresses(hs[h := s], log, h);
      assert Progressed(hs, log, (hs[h := s], log));
      ProgressedTrans(hs, log, (hs[h := s], log), AbortOf(hs[h := s], log, h));
    }
  }

  /** `.abort()` on an abortable handle with a handler calls it once, with a default AbortError. */
  lemma AbortCallsHandler(hs: seq<LegacyState>, log: seq<Event>, h: Id)
    requires Linked(hs) && h < |hs| && hs[h].isAbortable && hs[h].abortHandler.Some?
    ensures var r := AbortCallOf(hs, log, h, Missing);
      && r.1 == log + [HandlerCalledWithDone(h, hs[h].abortHandler.value, Some(NewAbortError(None)))]
      && r.0 == hs[h := hs[h].(isAbortable := false, abortHandler := None, abortError := None)]
      && r.2 == Success(h)
  {
    var s := hs[h].(abortError := Some(NewAbortError(None)));
    SameLinks(hs, [], h, s);
    AbortPrefersHandler(hs[h := s], log, h);
    assert hs[h := s][h := s.(isAbortable := false, abortHandler := None, abortError := None)]
        == hs[h := hs[h].(isAbortable := false, abortHandler := None, abortError := None)];
  }

  // ---------------------------------------------------------------------
  // The objects

  /**
   * The Abortables and placeholders of lib/index.js and lib/dummyPromise.js,
   * and the calls they have made so far.
   */
  class LegacyRegistry {
    var handles: seq<LegacyState>
    var log: seq<Event>

    ghost predicate Valid()
      reads this
    {
      Linked(handles)
    }

    constructor ()
      ensures Valid() && handles == [] && log == []
    {
      handles := [];
      log := [];
    }

    /** `_sealFate()`, which the placeholder borrows: true exactly when this call sealed the fate. */
    method SealFate(h: Id) returns (sealed: bool)
      requires Valid() && h < |handles|
      modifies this
      ensures Valid() && sealed == !old(handles[h].isFateSealed)
      ensures handles == old(handles)[h := old(handles[h]).(isFateSealed := true)] && log == old(log)
      ensures !sealed ==> handles == old(handles)
    {
      if handles[h].isFateSealed {
        assert handles[h := handles[h].(isFateSealed := true)] == handles;
        return false;
      }
      SameLinks(handles, [], h, handles[h].(isFateSealed := true));
      handles := handles[h := handles[h].(isFateSealed := true)];
      return true;
    }

    /**
     * `p._followed(follower)`: the follower list grows as `pushOrCreate`
     * does, and the call gives back what `pushOrCreate` returns under `rule`.
     */
    method Followed(p: Id, follower: Id, rule: IndexRule, ghost rank: seq<nat>) returns (ret: Utils.JsValue)
      requires Valid() && Ranked(handles, rank) && p < |handles| && follower < |handles| && rank[follower] < rank[p]
      modifies this
      ensures Valid() && Ranked(handles, rank)
      ensures handles == FollowedOf(old(handles), p, follower) && log == old(log)
      ensures ret == FollowedReturn(rule, old(handles[p].followers), follower)
    {
      FollowedOfLinks(handles, rank, p, follower);
      ghost var target := FollowedOf(handles, p, follower);
      var q := handles[p];
      handles := handles[p := q.(unabortedCount := q.unabortedCount.Inc())];
      handles := handles[follower := handles[follower].(awaiting := Some(p))];
      var call := Utils.PushOrCreateCall(handles[p].followers, follower);
      handles := handles[p := handles[p].(followers := call.0)];
      assert handles == target;
      if rule.AsWritten? {
        ret := call.1;
      } else {
        ret := Utils.Number(Utils.Finite(|FollowersOf(handles[p])|));
      }
    }

    /** `_clear()`: an Abortable clears each follower in turn, then itself; a placeholder only itself. */
    method Clear(h: Id, ghost rank: seq<nat>)
      requires Valid() && Ranked(handles, rank) && h < |handles|
      modifies this
      ensures Valid() && Ranked(handles, rank)
      ensures handles == ClearOf(old(handles), h, rank) && log == old(log)
      decreases rank[h]
    {
      assert RankedBelow(handles[h], rank, rank[h]);
      ClearOfLinked(handles, h, rank);
      if handles[h].kind.Real? {
        var fs := FollowersOf(handles[h]);
        var i := 0;
        while i < |fs|
          invariant 0 <= i <= |fs| && |handles| == |old(handles)|
          invariant forall f :: f in fs[..i] ==> f in fs
          invariant handles == ClearListOf(old(handles), fs[..i], rank, rank[h]) && log == old(log)
          invariant Valid() && Ranked(handles, rank)
        {
          assert fs[..i + 1][..i] == fs[..i] && fs[i] in fs;
          Utils.PrefixIn(fs, i + 1);
          ClearListOfLinked(old(handles), fs[..i + 1], rank, rank[h]);
          Clear(fs[i], rank);
          i := i + 1;
        }
        assert fs[..i] == fs;
      }
      ClearedLinks(handles[h], |handles|, rank, rank[h]);
      assert InRange(handles[h], |handles|);
      LinkedUpdate(handles, h, Cleared(handles[h]));
      handles := handles[h := Cleared(handles[h])];
    }

    /** `_abortDo()`: take the handler and the error off, then call the handler with them and a done callback. */
    method AbortDo(h: Id)
      requires Valid() && h < |handles| && handles[h].abortHandler.Some?
      modifies this
      ensures Valid() && (handles, log) == AbortDoOf(old(handles), old(log), h)
    {
      var handler := handles[h].abortHandler.value;
      var err := handles[h].abortError;
      SameLinks(handles, [], h, handles[h].(abortHandler := None, abortError := None));
      handles := handles[h := handles[h].(abortHandler := None, abortError := None)];
      log := log + [HandlerCalledWithDone(h, handler, err)];
    }

    /** `_abort()`: no longer abortable; the handler if there is one, else the `_awaiting` link. */
    method AbortInternal(h: Id)
      requires Valid() && h < |handles|
      modifies this
      ensures Valid() && (handles, log) == AbortOf(old(handles), old(log), h)
      decreases Live(handles), 3
    {
      var s := handles[h].(isAbortable := false);
      SameLinks(handles, [], h, s);
      assert InRange(handles[h], |handles|);
      LiveUpdate(handles, h, s);
      handles := handles[h := s];
      if s.abortHandler.Some? {
        AbortDo(h);
      } else if s.awaiting.Some? {
        AbortPropagate(h, s.awaiting.value);
      }
    }

    /** `_abortPropagate(target)`: hand this handle's error to `target` with a callback to this handle. */
    method AbortPropagate(h: Id, target: Id)
      requires Valid() && h < |handles| && target < |handles|
      modifies this
      ensures Valid() && (handles, log) == PropagateOf(old(handles), old(log), h, target)
      decreases Live(handles), 2
    {
      var err := handles[h].abortError;
      var s := handles[h].(abortError := None);
      SameLinks(handles, [], h, s);
      LiveUpdate(handles, h, s);
      handles := handles[h := s];
      AbortIndirect(target, err, h);
    }

    /** `_abortIndirect(err, cb)`: keep the first error, queue the callback, count down, abort at zero. */
    method AbortIndirect(t: Id, err: Option<Error>, cb: Id)
      requires Valid() && t < |handles| && cb < |handles|
      modifies this
      ensures Valid() && (handles, log) == IndirectOf(old(handles), old(log), t, err, cb)
      decreases Live(handles), 1
    {
      var s := handles[t];
      if s.abortError.None? {
        s := s.(abortError := err);
      }
      s := s.(abortCallbacks := Utils.PushOrCreate(s.abortCallbacks, cb));
      s := s.(unabortedCount := s.unabortedCount.Dec());
      assert s == Indirected(handles[t], err, cb);
      assert InRange(handles[t], |handles|);
      assert FollowersOf(s) == FollowersOf(handles[t]);
      assert forall c :: c in CallbacksOf(s) ==> c in CallbacksOf(handles[t]) || c == cb;
      LinkedUpdate(handles, t, s);
      LiveUpdate(handles, t, s);
      handles := handles[t := s];
      if s.unabortedCount.IsZero() {
        AbortInternal(t);
      }
    }

    /** `_abortDone()`: take the queue off, then call each queued callback in order. */
    method AbortDone(h: Id)
      requires Valid() && h < |handles|
      modifies this
      ensures Valid() && (handles, log) == DoneOf(old(handles), old(log), h)
      decreases Queued(handles), 1
    {
      var callbacks := handles[h].abortCallbacks;
      if callbacks.None? {
        return;
      }
      var s := handles[h].(abortCallbacks := None);
      assert InRange(handles[h], |handles|) && FollowersOf(s) == FollowersOf(handles[h]) && CallbacksOf(s) == [];
      LinkedUpdate(handles, h, s);
      QueuedUpdate(handles, h, s);
      ghost var bound := Queued(handles);
      handles := handles[h := s];
      assert callbacks.value == CallbacksOf(old(handles)[h]);
      assert forall c :: c in callbacks.value ==> c < |handles|;
      RunCallbacks(callbacks.value, bound);
    }

    /** The loop of `_abortDone()`: call each callback, which finishes the abort of the handle that queued it. */
    method RunCallbacks(cbs: seq<Id>, ghost bound: nat)
      requires Valid() && Queued(handles) < bound
      requires forall c :: c in cbs ==> c < |handles|
      modifies this
      ensures Valid() && (handles, log) == DoneListOf(old(handles), old(log), cbs, bound)
      decreases bound, 0
    {
      ghost var start := (handles, log);
      var i := 0;
      while i < |cbs|
        invariant 0 <= i <= |cbs| && |handles| == |start.0|
        invariant forall c :: c in cbs[..i] ==> c in cbs
        invariant (handles, log) == DoneListOf(start.0, start.1, cbs[..i], bound)
        invariant Valid() && Queued(handles) < bound
      {
        assert cbs[..i + 1][..i] == cbs[..i] && cbs[i] in cbs;
        Utils.PrefixIn(cbs, i + 1);
        log := log + [CallbackCalled(cbs[i])];
        AbortDone(cbs[i]);
        i := i + 1;
      }
      assert cbs[..i] == cbs;
    }

    /** `_settled(res)`: follow an abortable `res` (propagating a pending error), else clear. */
    method Settled(h: Id, v: Value, ghost rank: seq<nat>)
      requires Valid() && Ranked(handles, rank) && h < |handles| && CanFollow(handles, rank, h, v)
      modifies this
      ensures Valid() && Ranked(handles, rank)
      ensures (handles, log) == SettledOf(old(handles), old(log), h, v, rank)
    {
      ghost var hs0, log0 := handles, log;
      if IsAbortableValue(handles, v) {
        var _ := Followed(v.id, h, AsWritten, rank);
        ghost var hs1 := handles;
        if handles[h].abortError.Some? {
          AbortPropagate(h, v.id);
          assert SettledOf(hs0, log0, h, v, rank) == PropagateOf(hs1, log0, h, v.id);
        } else {
          assert SettledOf(hs0, log0, h, v, rank) == (hs1, log0);
        }
      } else {
        Clear(h, rank);
        assert SettledOf(hs0, log0, h, v, rank) == (ClearOf(hs0, h, rank), log0);
      }
    }

    /** `_resolved(resolve, res)` */
    method Resolved(h: Id, v: Value, ghost rank: seq<nat>)
      requires Valid() && Ranked(handles, rank) && h < |handles| && CanFollow(handles, rank, h, v)
      modifies this
      ensures Valid() && Ranked(handles, rank)
      ensures (handles, log) == ResolvedOf(old(handles), old(log), h, v, rank)
    {
      SameLinks(handles, rank, h, handles[h].(isFateSealed := true));
      var sealed := SealFate(h);
      if sealed {
        Settled(h, v, rank);
      }
      log := log + [NativeResolve(h, v)];
    }

    /** `_rejected(reject, err)` */
    method Rejected(h: Id, reason: Value, ghost rank: seq<nat>)
      requires Valid() && Ranked(handles, rank) && h < |handles|
      modifies this
      ensures Valid() && Ranked(handles, rank)
      ensures (handles, log) == RejectedOf(old(handles), old(log), h, reason, rank)
    {
      SameLinks(handles, rank, h, handles[h].(isFateSealed := true));
      var sealed := SealFate(h);
      if sealed {
        if RejectsWithAbortError(handles[h], reason) {
          ghost var before := handles;
          AbortDone(h);
          DequeuedRanked(before, handles, rank);
        }
        Clear(h, rank);
      }
      log := log + [NativeReject(h, reason)];
    }

    /** `_onAbort(fn)` */
    method OnAbort(h: Id, fn: Fn)
      requires Valid() && h < |handles|
      modifies this
      ensures Valid() && (handles, log) == OnAbortOf(old(handles), old(log), h, fn)
    {
      if !handles[h].isAbortable {
        return;
      }
      SameLinks(handles, [], h, handles[h].(abortHandler := Some(fn)));
      handles := handles[h := handles[h].(abortHandler := Some(fn))];
      if handles[h].abortError.Some? {
        AbortDo(h);
      }
    }

    /** `_abortWithError(err)` */
    method AbortWithError(h: Id, e: Error)
      requires Valid() && h < |handles|
      modifies this
      ensures Valid() && (handles, log) == AbortWithErrorOf(old(handles), old(log), h, e)
    {
      SameLinks(handles, [], h, handles[h].(abortError := Some(e)));
      handles := handles[h := handles[h].(abortError := Some(e))];
      AbortInternal(h);
    }

    /** `abort(err)`: the handle itself, or the exception thrown. */
    method Abort(h: Id, arg: AbortArg) returns (r: Result<Id, Exception>)
      requires Valid() && h < |handles|
      modifies this
      ensures Valid() && (handles, log, r) == AbortCallOf(old(handles), old(log), h, arg)
    {
      if !handles[h].isAbortable {
        return Success(h);
      }
      var e := LegacyAbortError(arg);
      if e.Failure? {
        return Failure(e.error);
      }
      AbortWithError(h, e.value);
      return Success(h);
    }

    /** `_handled(handler, input)`: settle with what the handler returns, or clear and rethrow. */
    method Handled(h: Id, reaction: Methods.Reaction, input: Value, userOutcome: Methods.Completion, ghost rank: seq<nat>)
      returns (c: Methods.Completion)
      requires Valid() && Ranked(handles, rank) && h < |handles|
      requires var o := Methods.Invoke(reaction, input, userOutcome); o.Returned? ==> CanFollow(handles, rank, h, o.value)
      modifies this
      ensures Valid() && Ranked(handles, rank)
      ensures c == Methods.Invoke(reaction, input, userOutcome)
      ensures c.Threw? ==> handles == ClearOf(old(handles), h, rank) && log == old(log)
      ensures c.Returned? ==> (handles, log) == SettledOf(old(handles), old(log), h, c.value, rank)
    {
      c := Methods.Invoke(reaction, input, userOutcome);
      if c.Returned? {
        Settled(h, c.value, rank);
      } else {
        Clear(h, rank);
      }
    }

    /** The placeholder's `_resolved(resolve, res)`, under the index rule `rule`. */
    method PlaceholderResolved(d: Id, owner: Id, v: Value, rule: IndexRule, ghost rank: seq<nat>)
      requires Valid() && Ranked(handles, rank) && d < |handles| && CanFollow(handles, rank, d, v)
      modifies this
      ensures Valid() && Ranked(handles, rank)
      ensures (handles, log) == PlaceholderResolvedOf(old(handles), old(log), d, owner, v, rank, rule)
    {
      SameLinks(handles, rank, d, handles[d].(isFateSealed := true));
      var sealed := SealFate(d);
      if sealed {
        if IsAbortableValue(handles, v) {
          var ret := Followed(v.id, d, rule, rank);
          var ix := Utils.MinusOne(ret);
          SameLinks(handles, rank, d, handles[d].(followerIndex := Some(ix)));
          handles := handles[d := handles[d].(followerIndex := Some(ix))];
        } else {
          Clear(d, rank);
        }
      }
      log := log + [NativeResolve(owner, v)];
    }

    /**
     * The placeholder's `_rejected(reject, err)`: on the first call it seals
     * the fate and throws, since `this.clear` is not a function; the native
     * reject is then never reached.
     */
    method PlaceholderRejected(d: Id, owner: Id, reason: Value, rule: IndexRule, ghost rank: seq<nat>) returns (thrown: Option<Exception>)
      requires Valid() && Ranked(handles, rank) && d < |handles|
      modifies this
      ensures Valid() && Ranked(handles, rank)
      ensures var s := PlaceholderStepOf(old(handles), old(log), d, owner, LReject(reason), rank, rule);
        handles == s.0 && log == s.1 && thrown == s.2
    {
      SameLinks(handles, rank, d, handles[d].(isFateSealed := true));
      var sealed := SealFate(d);
      if sealed {
        return Some(ClearIsNotAFunction);
      }
      log := log + [NativeReject(owner, reason)];
      return None;
    }

    /** The placeholder's `_onAbort(fn)` */
    method PlaceholderOnAbort(d: Id, fn: Fn, rule: IndexRule, ghost rank: seq<nat>)
      requires Valid() && Ranked(handles, rank) && d < |handles|
      modifies this
      ensures Valid() && Ranked(handles, rank)
      ensures var s := PlaceholderStepOf(old(handles), old(log), d, d, LOnAbort(fn), rank, rule);
        handles == s.0 && log == s.1
    {
      if handles[d].isAbortable {
        SameLinks(handles, rank, d, handles[d].(abortHandler := Some(fn)));
        handles := handles[d := handles[d].(abortHandler := Some(fn))];
      }
    }

    /** The executor's calls on placeholder `d`, in order; what each threw. */
    method RunPlaceholder(d: Id, owner: Id, calls: seq<LegacyCall>, rule: IndexRule, ghost rank: seq<nat>) returns (thrown: seq<Option<Exception>>)
      requires Valid() && Ranked(handles, rank) && d < |handles| && CallsFollowable(handles, rank, d, calls)
      modifies this
      ensures Valid() && Ranked(handles, rank)
      ensures (handles, log, thrown) == PlaceholderRunOf(old(handles), old(log), d, owner, calls, rank, rule)
    {
      thrown := [];
      var i := 0;
      while i < |calls|
        invariant 0 <= i <= |calls| && |handles| == |old(handles)|
        invariant CallsFollowable(old(handles), rank, d, calls[..i])
        invariant (handles, log, thrown) == PlaceholderRunOf(old(handles), old(log), d, owner, calls[..i], rank, rule)
        invariant Valid() && Ranked(handles, rank)
      {
        assert calls[..i + 1][..i] == calls[..i] && calls[..i + 1][i] == calls[i];
        assert CallsFollowable(old(handles), rank, d, calls[..i + 1]);
        match calls[i] {
          case LResolve(v) =>
            assert CanFollow(handles, rank, d, v);
            PlaceholderResolved(d, owner, v, rule, rank);
            thrown := thrown + [None];
          case LReject(e) =>
            var x := PlaceholderRejected(d, owner, e, rule, rank);
            thrown := thrown + [x];
          case LOnAbort(fn) =>
            PlaceholderOnAbort(d, fn, rule, rank);
            thrown := thrown + [None];
        }
        i := i + 1;
      }
      assert calls[..i] == calls;
    }

    /**
     * `new Abortable(executor)`: a placeholder records the executor's calls,
     * the Abortable takes its fields, and takes its place among the followers
     * of the handle it awaits.
     */
    method Construct(calls: seq<LegacyCall>, rule: IndexRule, ghost rank: seq<nat>) returns (r: Id, thrown: seq<Option<Exception>>)
      requires Valid() && Ranked(handles, rank) && CallsIn(calls, |handles|)
      modifies this
      ensures Valid() && Ranked(handles, Raised(rank)) && r == |old(handles)| + 1
      ensures (handles, log, thrown) == ConstructOf(old(handles), old(log), calls, rank, rule)
    {
      var d := |handles|;
      RunRanked(handles, rank);
      handles := handles + [InitialPlaceholder()];
      assert CallsFollowable(handles, RunRank(rank), d, calls);
      thrown := RunPlaceholder(d, d + 1, calls, rule, RunRank(rank));
      var ps := handles[d];
      assert InRange(ps, |handles|);
      AppendLinks(handles, RunRank(rank), TransferredState(ps), 0);
      handles := handles + [TransferredState(ps)];
      if ps.awaiting.Some? {
        var t := ps.awaiting.value;
        InstallLinks(handles, Raised(rank), t, ps.followerIndex, d + 1);
        var fs := FollowersOf(handles[t]);
        if ps.followerIndex.Some? && ps.followerIndex.value.Finite? && 0 <= ps.followerIndex.value.n < |fs| {
          handles := handles[t := handles[t].(followers := Some(fs[ps.followerIndex.value.n := d + 1]))];
        }
      }
      r := d + 1;
    }

    /**
     * `then(resolveHandler, rejectHandler)`: the child is built by the native
     * `.then()` with an executor that calls nothing; `h` counts one more
     * consumer, and the child awaits `h` while `h` is abortable. The child is
     * not put in `h`'s `_followers`.
     */
    method Then(h: Id, resolveHandler: FnArg, rejectHandler: FnArg, ghost rank: seq<nat>)
      returns (p: Id, onFulfilled: Methods.Reaction, onRejected: Methods.Reaction)
      requires Valid() && Ranked(handles, rank) && h < |handles|
      modifies this
      ensures Valid() && Ranked(handles, Raised(rank)) && p == |old(handles)| + 1 && log == old(log)
      ensures onFulfilled == Abortable.ResolveReaction(resolveHandler) && onRejected == Abortable.RejectReaction(rejectHandler)
      ensures var s := old(handles[h]);
        handles == old(handles)[h := s.(unabortedCount := s.unabortedCount.Inc())]
          + [InitialPlaceholder(), FreshAbortable().(awaiting := if s.isAbortable then Some(h) else None)]
    {
      onFulfilled := Abortable.ResolveReaction(resolveHandler);
      onRejected := Abortable.RejectReaction(rejectHandler);
      ConstructNothing(handles, log, rank, AsWritten);
      ghost var hs0 := handles;
      var thrown;
      p, thrown := Construct([], AsWritten, rank);
      assert handles == hs0 + [InitialPlaceholder(), FreshAbortable()];
      var s := handles[h];
      SameLinks(handles, Raised(rank), h, s.(unabortedCount := s.unabortedCount.Inc()));
      handles := handles[h := s.(unabortedCount := s.unabortedCount.Inc())];
      if handles[h].isAbortable {
        var q := handles[p];
        assert FollowersOf(q.(awaiting := Some(h))) == [] && CallbacksOf(q.(awaiting := Some(h))) == [];
        LinkedUpdate(handles, p, q.(awaiting := Some(h)));
        RankedUpdate(handles, Raised(rank), p, q.(awaiting := Some(h)));
        handles := handles[p := q.(awaiting := Some(h))];
      }
    }

    /** `Abortable.resolve(value)`: an Abortable is returned as it is; anything else is wrapped. */
    method StaticResolve(v: Value, rule: IndexRule, ghost rank: seq<nat>) returns (r: Id)
      requires Valid() && Ranked(handles, rank) && (v.HandleRef? ==> v.id < |handles|)
      modifies this
      ensures Valid()
      ensures v.HandleRef? && old(handles[v.id]).kind.Real? ==> r == v.id && handles == old(handles) && log == old(log)
      ensures !(v.HandleRef? && old(handles[v.id]).kind.Real?) ==>
        && CallsIn([LResolve(v)], |old(handles)|)
        && r == |old(handles)| + 1 && Ranked(handles, Raised(rank))
        && var c := ConstructOf(old(handles), old(log), [LResolve(v)], rank, rule);
           handles == c.0 && log == c.1
    {
      if v.HandleRef? && handles[v.id].kind.Real? {
        return v.id;
      }
      var thrown;
      r, thrown := Construct([LResolve(v)], rule, rank);
    }
  }
}
