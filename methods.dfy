/**
 * lib/methods.js: the prototype methods of the newest Abortable, acting on an
 * arena of handles. A handle's fields are those the methods read and write
 * (`_canAbort`, `_isFateSealed`, `_abortHandler`, `_onAbortWasCalled`,
 * `_awaiting`, `_followers`, `_isAborted`, `_abortError`, `_unabortedCount`,
 * `_expectingInternalThen`); `this` is a position in the arena.
 *
 * The recursive operations (`_abort` with `_abortPropagate`, and `_clear`)
 * are specified by ghost functions; each method is proved to compute what
 * its function says, and the properties of the machine are lemmas about
 * the functions.
 */
module Methods {
  import opened Wrappers
  import opened Values
  import Utils

  datatype HandleState = HandleState(
    canAbort: bool,
    isFateSealed: bool,
    abortHandler: Option<Fn>,
    onAbortWasCalled: bool,
    awaiting: Option<Id>,
    followers: Option<seq<Id>>,
    isAborted: bool,
    abortError: Option<Error>,
    unabortedCount: Count,
    expectingInternalThen: bool)

  /** The handles in `_followers` (none while the property is undefined). */
  function FollowersOf(s: HandleState): seq<Id> {
    Utils.Elements(s.followers)
  }

  /** The `_awaiting` link and every follower of `s` are handles of an arena of `n`. */
  ghost predicate LinkedIn(s: HandleState, n: nat) {
    && (s.awaiting.Some? ==> s.awaiting.value < n)
    && (forall f :: f in FollowersOf(s) ==> 0 <= f < n)
  }

  /** Every `_awaiting` link and every follower is a handle of the arena. */
  ghost predicate WellLinked(hs: seq<HandleState>) {
    forall i :: 0 <= i < |hs| ==> LinkedIn(hs[i], |hs|)
  }

  /** Every follower of `s` has a rank below `r`. */
  ghost predicate RankedBelow(s: HandleState, rank: seq<nat>, r: nat) {
    forall f :: f in FollowersOf(s) ==> 0 <= f < |rank| && rank[f] < r
  }

  /**
   * `rank` witnesses that the follower graph is acyclic: every follower has
   * a smaller rank than the handle it follows. `_clear()` recurses over
   * followers and terminates only on such a graph.
   */
  ghost predicate Ranked(hs: seq<HandleState>, rank: seq<nat>) {
    && |rank| == |hs|
    && forall i :: 0 <= i < |hs| ==> RankedBelow(hs[i], rank, rank[i])
  }

  /** Handle `h` may settle with `v`: a handle it would follow ranks above it. */
  ghost predicate CanFollow(hs: seq<HandleState>, rank: seq<nat>, h: Id, v: Value) {
    v.HandleRef? ==> v.id < |hs| && v.id < |rank| && h < |rank| && rank[h] < rank[v.id]
  }

  /** Replacing one handle keeps the arena well linked when its links stay in range. */
  lemma WellLinkedUpdate(hs: seq<HandleState>, i: nat, s: HandleState)
    requires WellLinked(hs) && i < |hs|
    requires FollowersOf(s) == FollowersOf(hs[i])
    requires s.awaiting.Some? ==> s.awaiting.value < |hs|
    ensures WellLinked(hs[i := s])
  {
    var hs1 := hs[i := s];
    forall j | 0 <= j < |hs1| ensures LinkedIn(hs1[j], |hs1|) {
      if j == i {
        assert FollowersOf(hs1[j]) == FollowersOf(hs[i]);
      }
    }
  }

  /** Replacing one handle keeps the ranking when its followers still rank below it. */
  lemma RankedUpdate(hs: seq<HandleState>, rank: seq<nat>, i: nat, s: HandleState)
    requires Ranked(hs, rank) && i < |hs|
    requires RankedBelow(s, rank, rank[i])
    ensures Ranked(hs[i := s], rank)
  {
    var hs1 := hs[i := s];
    forall j | 0 <= j < |hs1| ensures RankedBelow(hs1[j], rank, rank[j]) {
      if j == i {
        assert hs1[j] == s;
      }
    }
  }

  /** Replacing a handle by one with the same links changes neither the links nor their count. */
  lemma KeepLinks(hs: seq<HandleState>, i: nat, s: HandleState)
    requires WellLinked(hs) && i < |hs|
    requires s.awaiting == hs[i].awaiting && s.followers == hs[i].followers
    ensures WellLinked(hs[i := s]) && AwaitingLinks(hs[i := s]) == AwaitingLinks(hs)
  {
    WellLinkedUpdate(hs, i, s);
    AwaitingLinksUpdate(hs, i, s);
  }

  /** How many handles have an `_awaiting` link; each abort propagation removes one. */
  function AwaitingLinks(hs: seq<HandleState>): nat {
    if hs == [] then 0
    else AwaitingLinks(hs[..|hs| - 1]) + (if hs[|hs| - 1].awaiting.Some? then 1 else 0)
  }

  lemma {:induction false} AwaitingLinksUpdate(hs: seq<HandleState>, i: nat, s: HandleState)
    requires i < |hs|
    ensures AwaitingLinks(hs[i := s]) + (if hs[i].awaiting.Some? then 1 else 0)
         == AwaitingLinks(hs) + (if s.awaiting.Some? then 1 else 0)
  {
    var n := |hs|;
    if i == n - 1 {
      assert hs[i := s][..n - 1] == hs[..n - 1];
    } else {
      assert hs[i := s][..n - 1] == hs[..n - 1][i := s];
      AwaitingLinksUpdate(hs[..n - 1], i, s);
    }
  }

  /** The state `_clear()` leaves a handle in. */
  function ClearedState(s: HandleState): (r: HandleState)
    ensures !r.canAbort && r.abortHandler.None? && r.awaiting.None? && r.followers.None?
    ensures r.abortError.None? && r.unabortedCount == NaN
    ensures r.isFateSealed == s.isFateSealed && r.isAborted == s.isAborted
    ensures r.onAbortWasCalled == s.onAbortWasCalled && r.expectingInternalThen == s.expectingInternalThen
  {
    s.(canAbort := false, abortHandler := None, awaiting := None, followers := None,
       abortError := None, unabortedCount := NaN)
  }

  /** `toAbortable(value)`: the handle a value stands for, if any. */
  function ToAbortable(v: Value): (r: Option<Id>)
    ensures r.Some? <==> v.HandleRef?
    ensures r.Some? ==> r.value == v.id
  {
    if v.HandleRef? then Some(v.id) else None
  }

  // ---------------------------------------------------------------------
  // Specification functions

  /**
   * `this._abort(err, unilateral)` on handle `h`: the arena and the event log
   * afterwards.
   */
  ghost function AbortOf(hs: seq<HandleState>, log: seq<Event>, h: Id, err: Option<Error>, unilateral: bool)
    : (r: (seq<HandleState>, seq<Event>))
    requires WellLinked(hs) && h < |hs|
    ensures |r.0| == |hs| && WellLinked(r.0)
    decreases AwaitingLinks(hs), 2
  {
    var s1 := Recorded(hs[h], err, unilateral);
    KeepLinks(hs, h, s1);
    if !unilateral && s1.unabortedCount.IsPositive() then (hs[h := s1], log)
    else ConsensusOf(hs[h := s1], log, h)
  }

  /** The part of `_abort` after consensus: mark aborted, then propagate or fire the handler. */
  ghost function ConsensusOf(hs: seq<HandleState>, log: seq<Event>, h: Id)
    : (r: (seq<HandleState>, seq<Event>))
    requires WellLinked(hs) && h < |hs|
    ensures |r.0| == |hs| && WellLinked(r.0)
    decreases AwaitingLinks(hs), 1
  {
    var s := hs[h].(isAborted := true, canAbort := false);
    assert LinkedIn(hs[h], |hs|);
    if s.awaiting.Some? then
      WellLinkedUpdate(hs, h, s.(awaiting := None));
      AwaitingLinksUpdate(hs, h, s.(awaiting := None));
      PropagateOf(hs[h := s.(awaiting := None)], log, h, s.awaiting.value)
    else if s.abortHandler.Some? then
      WellLinkedUpdate(hs, h, s.(abortHandler := None));
      (hs[h := s.(abortHandler := None)], log + [HandlerCalled(h, s.abortHandler.value, s.abortError)])
    else
      WellLinkedUpdate(hs, h, s);
      (hs[h := s], log)
  }

  /** `_abort` up to the consensus test: the error it records and the count it leaves. */
  function Recorded(s: HandleState, err: Option<Error>, unilateral: bool): (r: HandleState)
    ensures unilateral ==> r == s.(abortError := err)
    ensures !unilateral ==> r.unabortedCount == s.unabortedCount.Dec()
    ensures !unilateral ==> r.abortError == if s.abortError.None? then err else s.abortError
    ensures r.awaiting == s.awaiting && r.followers == s.followers && r.abortHandler == s.abortHandler
  {
    if unilateral then s.(abortError := err)
    else s.(abortError := if s.abortError.None? then err else s.abortError,
            unabortedCount := s.unabortedCount.Dec())
  }

  /** `this._abortPropagate(target)`: hands this handle's error over to `target`. */
  ghost function PropagateOf(hs: seq<HandleState>, log: seq<Event>, h: Id, target: Id)
    : (r: (seq<HandleState>, seq<Event>))
    requires WellLinked(hs) && h < |hs| && target < |hs|
    ensures |r.0| == |hs| && WellLinked(r.0)
    decreases AwaitingLinks(hs), 3
  {
    var err := hs[h].abortError;
    var hs1 := hs[h := hs[h].(abortError := None)];
    assert LinkedIn(hs[h], |hs|);
    WellLinkedUpdate(hs, h, hs[h].(abortError := None));
    AwaitingLinksUpdate(hs, h, hs[h].(abortError := None));
    AbortOf(hs1, log, target, err, false)
  }

  /** `this._clear()` on handle `h`: clears every follower, then `h` itself. */
  ghost function ClearOf(hs: seq<HandleState>, h: Id, rank: seq<nat>): (r: seq<HandleState>)
    requires Ranked(hs, rank) && h < |hs|
    ensures |r| == |hs| && Ranked(r, rank)
    decreases rank[h], 1, 0
  {
    assert RankedBelow(hs[h], rank, rank[h]);
    var hs1 := ClearListOf(hs, FollowersOf(hs[h]), rank, rank[h]);
    RankedUpdate(hs1, rank, h, ClearedState(hs1[h]));
    hs1[h := ClearedState(hs1[h])]
  }

  /** Clears the handles of `fs` one after another, in order. */
  ghost function ClearListOf(hs: seq<HandleState>, fs: seq<Id>, rank: seq<nat>, bound: nat): (r: seq<HandleState>)
    requires Ranked(hs, rank)
    requires forall f :: f in fs ==> f < |hs| && rank[f] < bound
    ensures |r| == |hs| && Ranked(r, rank)
    decreases bound, 0, |fs|
  {
    if fs == [] then hs
    else
      var pre := fs[..|fs| - 1];
      assert forall f :: f in pre ==> f in fs;
      assert fs[|fs| - 1] in fs;
      ClearOf(ClearListOf(hs, pre, rank, bound), fs[|fs| - 1], rank)
  }

  /** `_abort` and `_abortPropagate` never touch any `_followers` list. */
  lemma {:induction false} AbortOfKeepsFollowers(hs: seq<HandleState>, log: seq<Event>, h: Id, err: Option<Error>, unilateral: bool)
    requires WellLinked(hs) && h < |hs|
    ensures forall i :: 0 <= i < |hs| ==> AbortOf(hs, log, h, err, unilateral).0[i].followers == hs[i].followers
    decreases AwaitingLinks(hs), 2
  {
    var s1 := Recorded(hs[h], err, unilateral);
    KeepLinks(hs, h, s1);
    if unilateral || !s1.unabortedCount.IsPositive() {
      ConsensusOfKeepsFollowers(hs[h := s1], log, h);
    }
  }

  lemma {:induction false} ConsensusOfKeepsFollowers(hs: seq<HandleState>, log: seq<Event>, h: Id)
    requires WellLinked(hs) && h < |hs|
    ensures forall i :: 0 <= i < |hs| ==> ConsensusOf(hs, log, h).0[i].followers == hs[i].followers
    decreases AwaitingLinks(hs), 1
  {
    var s := hs[h].(isAborted := true, canAbort := false);
    if s.awaiting.Some? {
      assert LinkedIn(hs[h], |hs|);
      WellLinkedUpdate(hs, h, s.(awaiting := None));
      AwaitingLinksUpdate(hs, h, s.(awaiting := None));
      PropagateOfKeepsFollowers(hs[h := s.(awaiting := None)], log, h, s.awaiting.value);
    }
  }

  lemma {:induction false} PropagateOfKeepsFollowers(hs: seq<HandleState>, log: seq<Event>, h: Id, target: Id)
    requires WellLinked(hs) && h < |hs| && target < |hs|
    ensures forall i :: 0 <= i < |hs| ==> PropagateOf(hs, log, h, target).0[i].followers == hs[i].followers
    decreases AwaitingLinks(hs), 3
  {
    KeepLinks(hs, h, hs[h].(abortError := None));
    AbortOfKeepsFollowers(hs[h := hs[h].(abortError := None)], log, target, hs[h].abortError, false);
  }

  /**
   * `_abort` only ever moves a handle towards aborted: no handle stops being
   * aborted or starts being able to abort, and the log only grows.
   */
  ghost predicate Progressed(before: (seq<HandleState>, seq<Event>), after: (seq<HandleState>, seq<Event>)) {
    && |after.0| == |before.0|
    && before.1 <= after.1
    && forall i :: 0 <= i < |before.0| ==>
         (before.0[i].isAborted ==> after.0[i].isAborted) && (after.0[i].canAbort ==> before.0[i].canAbort)
  }

  lemma {:induction false} AbortOfProgresses(hs: seq<HandleState>, log: seq<Event>, h: Id, err: Option<Error>, unilateral: bool)
    requires WellLinked(hs) && h < |hs|
    ensures Progressed((hs, log), AbortOf(hs, log, h, err, unilateral))
    decreases AwaitingLinks(hs), 2
  {
    var s1 := Recorded(hs[h], err, unilateral);
    KeepLinks(hs, h, s1);
    if unilateral || !s1.unabortedCount.IsPositive() {
      ConsensusOfAborts(hs[h := s1], log, h);
    }
  }

  /** After consensus the handle is aborted and can no longer abort. */
  lemma {:induction false} ConsensusOfAborts(hs: seq<HandleState>, log: seq<Event>, h: Id)
    requires WellLinked(hs) && h < |hs|
    ensures Progressed((hs, log), ConsensusOf(hs, log, h))
    ensures ConsensusOf(hs, log, h).0[h].isAborted && !ConsensusOf(hs, log, h).0[h].canAbort
    decreases AwaitingLinks(hs), 1
  {
    var s := hs[h].(isAborted := true, canAbort := false);
    if s.awaiting.Some? {
      assert LinkedIn(hs[h], |hs|);
      WellLinkedUpdate(hs, h, s.(awaiting := None));
      AwaitingLinksUpdate(hs, h, s.(awaiting := None));
      PropagateOfProgresses(hs[h := s.(awaiting := None)], log, h, s.awaiting.value);
    }
  }

  lemma {:induction false} PropagateOfProgresses(hs: seq<HandleState>, log: seq<Event>, h: Id, target: Id)
    requires WellLinked(hs) && h < |hs| && target < |hs|
    ensures Progressed((hs, log), PropagateOf(hs, log, h, target))
    decreases AwaitingLinks(hs), 3
  {
    KeepLinks(hs, h, hs[h].(abortError := None));
    AbortOfProgresses(hs[h := hs[h].(abortError := None)], log, target, hs[h].abortError, false);
  }

  /** `p._followed(follower)`: one more consumer, and `follower` appended. */
  function FollowedOf(hs: seq<HandleState>, p: Id, follower: Id): (r: seq<HandleState>)
    requires p < |hs|
    ensures |r| == |hs| && r[p].unabortedCount == hs[p].unabortedCount.Inc()
    ensures FollowersOf(r[p]) == FollowersOf(hs[p]) + [follower]
    ensures forall i :: 0 <= i < |hs| && i != p ==> r[i] == hs[i]
  {
    var s := hs[p];
    hs[p := s.(unabortedCount := s.unabortedCount.Inc(),
               followers := Utils.PushOrCreate(s.followers, follower))]
  }

  /** `_followed` keeps the arena well linked and, for a lower-ranked follower, ranked. */
  lemma FollowedOfLinks(hs: seq<HandleState>, rank: seq<nat>, p: Id, follower: Id)
    requires p < |hs| && follower < |hs|
    ensures WellLinked(hs) ==> WellLinked(FollowedOf(hs, p, follower)) && FollowedOf(hs, p, follower)[p].awaiting == hs[p].awaiting
    ensures Ranked(hs, rank) && rank[follower] < rank[p] ==> Ranked(FollowedOf(hs, p, follower), rank)
  {
    var r := FollowedOf(hs, p, follower);
    assert r == hs[p := r[p]];
    if WellLinked(hs) {
      assert LinkedIn(hs[p], |hs|);
      assert LinkedIn(r[p], |hs|);
      forall j | 0 <= j < |hs| ensures LinkedIn(r[j], |hs|) {
        if j != p {
          assert r[j] == hs[j];
        }
      }
    }
    if Ranked(hs, rank) && rank[follower] < rank[p] {
      assert RankedBelow(hs[p], rank, rank[p]);
      RankedUpdate(hs, rank, p, r[p]);
    }
  }

  /** `this._follow(target)`: drop the abort handler; propagate or record awaiting. */
  ghost function FollowOf(hs: seq<HandleState>, log: seq<Event>, h: Id, target: Id)
    : (r: (seq<HandleState>, seq<Event>))
    requires WellLinked(hs) && h < |hs| && target < |hs|
    ensures |r.0| == |hs| && WellLinked(r.0)
    ensures forall i :: 0 <= i < |hs| ==> r.0[i].followers == hs[i].followers
  {
    var s := hs[h].(abortHandler := None);
    assert LinkedIn(hs[h], |hs|);
    WellLinkedUpdate(hs, h, s);
    WellLinkedUpdate(hs, h, s.(awaiting := Some(target)));
    if s.isAborted then
      PropagateOfKeepsFollowers(hs[h := s], log, h, target);
      PropagateOf(hs[h := s], log, h, target)
    else (hs[h := s.(awaiting := Some(target))], log)
  }

  /** `this._settled(value)`: the arena, the log and the value handed to native resolve. */
  ghost function SettledOf(hs: seq<HandleState>, log: seq<Event>, h: Id, v: Value, rank: seq<nat>)
    : (r: (seq<HandleState>, seq<Event>, Value))
    requires WellLinked(hs) && Ranked(hs, rank) && h < |hs| && CanFollow(hs, rank, h, v)
    ensures |r.0| == |hs| && WellLinked(r.0) && Ranked(r.0, rank)
  {
    match ToAbortable(v)
    case Some(p) =>
      var hs1 := FollowedOf(hs, p, h);
      FollowedOfLinks(hs, rank, p, h);
      if hs1[p].canAbort then
        var f := FollowOf(hs1, log, h, p);
        assert Ranked(f.0, rank) by {
          forall i | 0 <= i < |hs1| ensures RankedBelow(f.0[i], rank, rank[i]) {
            assert FollowersOf(f.0[i]) == FollowersOf(hs1[i]);
            assert RankedBelow(hs1[i], rank, rank[i]);
          }
        }
        (f.0, f.1, HandleRef(p))
      else
        ClearOfWellLinked(hs1, h, rank);
        (ClearOf(hs1, h, rank), log, v)
    case None =>
      ClearOfWellLinked(hs, h, rank);
      (ClearOf(hs, h, rank), log, v)
  }

  lemma ClearOfWellLinked(hs: seq<HandleState>, h: Id, rank: seq<nat>)
    requires Ranked(hs, rank) && h < |hs| && WellLinked(hs)
    ensures WellLinked(ClearOf(hs, h, rank))
    decreases rank[h], 1, 0
  {
    ClearListOfShape(hs, FollowersOf(hs[h]), rank, rank[h]);
    ClearListOfWellLinked(hs, FollowersOf(hs[h]), rank, rank[h]);
  }

  lemma ClearListOfWellLinked(hs: seq<HandleState>, fs: seq<Id>, rank: seq<nat>, bound: nat)
    requires Ranked(hs, rank) && WellLinked(hs)
    requires forall f :: f in fs ==> f < |hs| && rank[f] < bound
    ensures WellLinked(ClearListOf(hs, fs, rank, bound))
    decreases bound, 0, |fs|
  {
    if fs != [] {
      Utils.PrefixWithin(fs, |fs| - 1, |hs|, rank, bound);
      assert fs[|fs| - 1] in fs;
      ClearListOfWellLinked(hs, fs[..|fs| - 1], rank, bound);
      ClearOfWellLinked(ClearListOf(hs, fs[..|fs| - 1], rank, bound), fs[|fs| - 1], rank);
    }
  }

  // ---------------------------------------------------------------------
  // Properties of `_clear()`

  /**
   * `_clear()` changes a handle only by clearing it, leaves every handle
   * ranked at or above `h` other than `h` alone, and leaves `h` cleared.
   */
  lemma {:induction false} ClearOfShape(hs: seq<HandleState>, h: Id, rank: seq<nat>)
    requires Ranked(hs, rank) && h < |hs|
    ensures ClearOf(hs, h, rank)[h] == ClearedState(hs[h])
    ensures forall j :: 0 <= j < |hs| ==>
      ClearOf(hs, h, rank)[j] == hs[j] || ClearOf(hs, h, rank)[j] == ClearedState(hs[j])
    ensures forall j :: 0 <= j < |hs| && j != h && rank[j] >= rank[h] ==> ClearOf(hs, h, rank)[j] == hs[j]
    decreases rank[h], 1, 0
  {
    ClearListOfShape(hs, FollowersOf(hs[h]), rank, rank[h]);
  }

  lemma {:induction false} ClearListOfShape(hs: seq<HandleState>, fs: seq<Id>, rank: seq<nat>, bound: nat)
    requires Ranked(hs, rank)
    requires forall f :: f in fs ==> f < |hs| && rank[f] < bound
    ensures forall j :: 0 <= j < |hs| ==>
      ClearListOf(hs, fs, rank, bound)[j] == hs[j] || ClearListOf(hs, fs, rank, bound)[j] == ClearedState(hs[j])
    ensures forall j :: 0 <= j < |hs| && rank[j] >= bound ==> ClearListOf(hs, fs, rank, bound)[j] == hs[j]
    decreases bound, 0, |fs|
  {
    if fs != [] {
      var pre := fs[..|fs| - 1];
      assert forall f :: f in pre ==> f in fs;
      assert fs[|fs| - 1] in fs;
      var hs1 := ClearListOf(hs, pre, rank, bound);
      ClearListOfShape(hs, pre, rank, bound);
      ClearOfShape(hs1, fs[|fs| - 1], rank);
    }
  }

  /**
   * Every handle `_clear()` leaves cleared has all of its former followers
   * cleared too.
   */
  ghost predicate ClosedUnderFollowers(before: seq<HandleState>, after: seq<HandleState>) {
    |after| == |before| &&
    forall d, f :: 0 <= d < |before| && after[d] == ClearedState(before[d]) && f in FollowersOf(before[d]) ==>
      0 <= f < |before| && after[f] == ClearedState(before[f])
  }

  lemma {:induction false} ClearOfClosed(hs: seq<HandleState>, h: Id, rank: seq<nat>)
    requires Ranked(hs, rank) && h < |hs|
    ensures ClosedUnderFollowers(hs, ClearOf(hs, h, rank))
    decreases rank[h], 1, 0
  {
    var fs := FollowersOf(hs[h]);
    var hs1 := ClearListOf(hs, fs, rank, rank[h]);
    var r := ClearOf(hs, h, rank);
    ClearListOfShape(hs, fs, rank, rank[h]);
    ClearListOfClosed(hs, fs, rank, rank[h]);
    ClearListOfCleared(hs, fs, rank, rank[h]);
    assert r == hs1[h := ClearedState(hs1[h])];
    forall d, f | 0 <= d < |hs| && r[d] == ClearedState(hs[d]) && f in FollowersOf(hs[d])
      ensures 0 <= f < |hs| && r[f] == ClearedState(hs[f])
    {
      if d == h {
        assert f in fs;
      } else {
        assert hs1[d] == r[d];
      }
      // Whatever `f` was before, clearing it again changes nothing.
      assert hs1[f] == ClearedState(hs[f]);
    }
  }

  /** After clearing `fs`, each handle of `fs` is cleared. */
  lemma {:induction false} ClearListOfCleared(hs: seq<HandleState>, fs: seq<Id>, rank: seq<nat>, bound: nat)
    requires Ranked(hs, rank)
    requires forall f :: f in fs ==> f < |hs| && rank[f] < bound
    ensures forall f :: f in fs ==> ClearListOf(hs, fs, rank, bound)[f] == ClearedState(hs[f])
    decreases |fs|
  {
    if fs != [] {
      var pre := fs[..|fs| - 1];
      var last := fs[|fs| - 1];
      assert forall f :: f in pre ==> f in fs;
      assert last in fs;
      var hs1 := ClearListOf(hs, pre, rank, bound);
      ClearListOfCleared(hs, pre, rank, bound);
      ClearListOfShape(hs, pre, rank, bound);
      ClearOfShape(hs1, last, rank);
      forall f | f in fs ensures ClearListOf(hs, fs, rank, bound)[f] == ClearedState(hs[f]) {
        if f != last {
          assert f in pre;
        }
      }
    }
  }

  lemma {:induction false} ClearListOfClosed(hs: seq<HandleState>, fs: seq<Id>, rank: seq<nat>, bound: nat)
    requires Ranked(hs, rank)
    requires forall f :: f in fs ==> f < |hs| && rank[f] < bound
    ensures ClosedUnderFollowers(hs, ClearListOf(hs, fs, rank, bound))
    decreases bound, 0, |fs|
  {
    if fs != [] {
      var pre := fs[..|fs| - 1];
      assert forall f :: f in pre ==> f in fs;
      assert fs[|fs| - 1] in fs;
      var hs1 := ClearListOf(hs, pre, rank, bound);
      var r := ClearOf(hs1, fs[|fs| - 1], rank);
      ClearListOfClosed(hs, pre, rank, bound);
      ClearListOfShape(hs, pre, rank, bound);
      ClearOfShape(hs1, fs[|fs| - 1], rank);
      ClearOfClosed(hs1, fs[|fs| - 1], rank);
      forall d, f | 0 <= d < |hs| && r[d] == ClearedState(hs[d]) && f in FollowersOf(hs[d])
        ensures 0 <= f < |hs| && r[f] == ClearedState(hs[f])
      {
        assert r[f] == hs1[f] || r[f] == ClearedState(hs1[f]);
        if hs1[d] == ClearedState(hs[d]) {
          assert hs1[f] == ClearedState(hs[f]);
        } else {
          assert hs1[d] == hs[d];
          assert r[d] == ClearedState(hs1[d]);
          assert f in FollowersOf(hs1[d]);
          assert r[f] == ClearedState(hs1[f]);
        }
      }
    }
  }

  /** `j` is `h` or reached from it through `_followers` links. */
  ghost predicate Reaches(hs: seq<HandleState>, rank: seq<nat>, h: Id, j: Id)
    requires Ranked(hs, rank) && h < |hs|
    decreases rank[h]
  {
    h == j || exists f :: f in FollowersOf(hs[h]) && Reaches(hs, rank, f, j)
  }

  /**
   * After `_clear()` on `h`, every handle that followed `h`, directly or
   * through other followers, is cleared: in particular none can abort.
   */
  lemma {:induction false} ClearDisablesFollowers(hs: seq<HandleState>, h: Id, rank: seq<nat>, j: Id)
    requires Ranked(hs, rank) && h < |hs| && j < |hs|
    requires Reaches(hs, rank, h, j)
    ensures ClearOf(hs, h, rank)[j] == ClearedState(hs[j])
    ensures !ClearOf(hs, h, rank)[j].canAbort
  {
    ClearOfShape(hs, h, rank);
    ClearOfClosed(hs, h, rank);
    ClosedReaches(hs, ClearOf(hs, h, rank), rank, h, j);
  }

  lemma {:induction false} ClosedReaches(hs: seq<HandleState>, after: seq<HandleState>, rank: seq<nat>, h: Id, j: Id)
    requires Ranked(hs, rank) && h < |hs| && j < |hs|
    requires ClosedUnderFollowers(hs, after) && after[h] == ClearedState(hs[h])
    requires Reaches(hs, rank, h, j)
    ensures after[j] == ClearedState(hs[j])
    decreases rank[h]
  {
    if h != j {
      var f :| f in FollowersOf(hs[h]) && Reaches(hs, rank, f, j);
      ClosedReaches(hs, after, rank, f, j);
    }
  }

  // ---------------------------------------------------------------------
  // Properties of `_abort()`

  /**
   * A non-unilateral abort that leaves other consumers wanting the value
   * only records the first error and counts one consumer less.
   */
  lemma AbortWithoutConsensus(hs: seq<HandleState>, log: seq<Event>, h: Id, err: Option<Error>)
    requires WellLinked(hs) && h < |hs|
    requires hs[h].unabortedCount.Num? && hs[h].unabortedCount.n > 1
    ensures AbortOf(hs, log, h, err, false).1 == log
    ensures AbortOf(hs, log, h, err, false).0 == hs[h := hs[h].(
      abortError := if hs[h].abortError.Some? then hs[h].abortError else err,
      unabortedCount := Num(hs[h].unabortedCount.n - 1))]
  {
  }

  /**
   * On consensus a handle that awaits no other and has a handler becomes
   * aborted, loses its handler and calls it once with the recorded error;
   * a unilateral abort records its own error.
   */
  lemma AbortFiresHandler(hs: seq<HandleState>, log: seq<Event>, h: Id, err: Option<Error>, unilateral: bool)
    requires WellLinked(hs) && h < |hs|
    requires hs[h].awaiting.None? && hs[h].abortHandler.Some?
    requires unilateral || !hs[h].unabortedCount.Dec().IsPositive()
    ensures var r := AbortOf(hs, log, h, err, unilateral);
      && r.0[h].isAborted && !r.0[h].canAbort && r.0[h].abortHandler.None?
      && r.1 == log + [HandlerCalled(h, hs[h].abortHandler.value, r.0[h].abortError)]
      && (unilateral ==> r.0[h].abortError == err)
      && (!unilateral && hs[h].abortError.Some? ==> r.0[h].abortError == hs[h].abortError)
      && (forall i :: 0 <= i < |hs| && i != h ==> r.0[i] == hs[i])
  {
  }

  /**
   * After consensus a handle that awaits `t` gives up the link and its own
   * error, and `t` receives a non-unilateral abort with that error.
   */
  lemma ConsensusPropagates(hs: seq<HandleState>, log: seq<Event>, h: Id)
    requires WellLinked(hs) && h < |hs| && hs[h].awaiting.Some?
    ensures var b := hs[h].(isAborted := true, canAbort := false, awaiting := None, abortError := None);
      WellLinked(hs[h := b]) && hs[h].awaiting.value < |hs| &&
      ConsensusOf(hs, log, h) == AbortOf(hs[h := b], log, hs[h].awaiting.value, hs[h].abortError, false)
  {
    var a := hs[h].(isAborted := true, canAbort := false, awaiting := None);
    var b := a.(abortError := None);
    assert LinkedIn(hs[h], |hs|);
    WellLinkedUpdate(hs, h, a);
    WellLinkedUpdate(hs, h, b);
    assert hs[h := a][h := b] == hs[h := b];
  }

  /**
   * On consensus a handle that awaits `t` hands the error that won over to
   * `t` as a non-unilateral abort.
   */
  lemma AbortPropagatesUp(hs: seq<HandleState>, log: seq<Event>, h: Id, err: Option<Error>, unilateral: bool)
    requires WellLinked(hs) && h < |hs| && hs[h].awaiting.Some?
    requires unilateral || !hs[h].unabortedCount.Dec().IsPositive()
    ensures var s := hs[h];
      var e := if unilateral || s.abortError.None? then err else s.abortError;
      var cnt := if unilateral then s.unabortedCount else s.unabortedCount.Dec();
      var s2 := s.(isAborted := true, canAbort := false, awaiting := None, abortError := None, unabortedCount := cnt);
      WellLinked(hs[h := s2]) && s.awaiting.value < |hs| &&
      AbortOf(hs, log, h, err, unilateral) == AbortOf(hs[h := s2], log, s.awaiting.value, e, false)
  {
    var s1 := Recorded(hs[h], err, unilateral);
    KeepLinks(hs, h, s1);
    var hs1 := hs[h := s1];
    ConsensusPropagates(hs1, log, h);
    var b := s1.(isAborted := true, canAbort := false, awaiting := None, abortError := None);
    assert hs1[h := b] == hs[h := b];
  }

  // ---------------------------------------------------------------------
  // `.then()` handlers (used by `_handled()` and lib/abortable.js)

  /** What a `.then()` handler does with its input. */
  datatype Reaction = Identity | Rethrow | UserFn(f: Fn)

  /** How a handler call ended. */
  datatype Completion = Returned(value: Value) | Threw(reason: Value)

  /**
   * `handler.call(ctx, input)`: the two defaults pass the input through;
   * a user function ends as `userOutcome` says.
   */
  function Invoke(r: Reaction, input: Value, userOutcome: Completion): (c: Completion)
    ensures r.Identity? ==> c == Returned(input)
    ensures r.Rethrow? ==> c == Threw(input)
    ensures r.UserFn? ==> c == userOutcome
  {
    match r
    case Identity => Returned(input)
    case Rethrow => Threw(input)
    case UserFn(_) => userOutcome
  }

  // ---------------------------------------------------------------------
  // `.abort()` argument handling

  /**
   * `.abort(err, unilateral)` lines that conform and validate the arguments:
   * the error (if any) and the unilateral flag, or the exception thrown.
   */
  function ConformAbortArgs(err: AbortArg, unilateral: AbortArg): (r: Result<(Option<Error>, bool), Exception>)
    ensures err.BoolArg? ==> r == Success((None, err.b))
    ensures err.OtherArg? ==> r == Failure(ErrorThrown(".abort() error must be an Error or null"))
    ensures !err.BoolArg? && !err.OtherArg? && !unilateral.IsNullish() && !unilateral.BoolArg? ==>
      r == Failure(ErrorThrown(".abort() unilateral argument must be true or false if provided"))
    ensures r.Success? ==> r.value.0 == (if err.ErrorArg? then Some(err.e) else None)
    ensures r.Success? && !err.BoolArg? ==> r.value.1 == (unilateral.BoolArg? && unilateral.b)
  {
    var (e, u) := if err.BoolArg? then (NullArg, err) else (err, unilateral);
    if !e.IsNullish() && !e.ErrorArg? then
      Failure(ErrorThrown(".abort() error must be an Error or null"))
    else if !u.IsNullish() && !u.BoolArg? then
      Failure(ErrorThrown(".abort() unilateral argument must be true or false if provided"))
    else
      Success((if e.ErrorArg? then Some(e.e) else None, u.BoolArg? && u.b))
  }

  // ---------------------------------------------------------------------
  // The arena

  class Registry {
    var handles: seq<HandleState>
    var log: seq<Event>

    ghost predicate Valid()
      reads this
    {
      WellLinked(handles)
    }

    constructor ()
      ensures Valid() && handles == [] && log == []
    {
      handles := [];
      log := [];
    }

    /** Adds a new handle (an Abortable being constructed) to the arena. */
    method Allocate(s: HandleState) returns (id: Id)
      requires Valid()
      requires s.awaiting.Some? ==> s.awaiting.value < |handles|
      requires s.followers.None?
      modifies this
      ensures Valid() && id == old(|handles|)
      ensures handles == old(handles) + [s] && log == old(log)
    {
      id := |handles|;
      handles := handles + [s];
    }

    /** `_sealFate()`: true exactly when this call sealed the fate. */
    method SealFate(h: Id) returns (sealed: bool)
      requires Valid() && h < |handles|
      modifies this
      ensures Valid() && sealed == !old(handles[h].isFateSealed)
      ensures handles == old(handles)[h := old(handles[h]).(isFateSealed := true)]
      ensures handles[h].isFateSealed && log == old(log)
    {
      if handles[h].isFateSealed {
        assert handles == handles[h := handles[h].(isFateSealed := true)];
        return false;
      }
      WellLinkedUpdate(handles, h, handles[h].(isFateSealed := true));
      handles := handles[h := handles[h].(isFateSealed := true)];
      return true;
    }

    /**
     * `_resolved(resolve, value)`: the first resolve or reject settles the
     * handle; every call reaches the native resolve function.
     */
    method Resolved(h: Id, value: Value, ghost rank: seq<nat>)
      requires Valid() && h < |handles| && Ranked(handles, rank) && CanFollow(handles, rank, h, value)
      modifies this
      ensures Valid() && |handles| == old(|handles|)
      ensures old(handles[h].isFateSealed) ==>
        handles == old(handles) && log == old(log) + [NativeResolve(h, value)]
      ensures !old(handles[h].isFateSealed) ==>
        var r := SettledOf(old(handles)[h := old(handles[h]).(isFateSealed := true)], old(log), h, value, rank);
        handles == r.0 && log == r.1 + [NativeResolve(h, r.2)]
    {
      var v := value;
      var sealed := SealFate(h);
      if sealed {
        v := Settled(h, value, rank);
      }
      log := log + [NativeResolve(h, v)];
    }

    /**
     * `_rejected(reject, err)`: the first resolve or reject clears the
     * handle; every call reaches the native reject function.
     */
    method Rejected(h: Id, reason: Value, ghost rank: seq<nat>)
      requires Valid() && h < |handles| && Ranked(handles, rank)
      modifies this
      ensures Valid() && |handles| == old(|handles|)
      ensures log == old(log) + [NativeReject(h, reason)]
      ensures old(handles[h].isFateSealed) ==> handles == old(handles)
      ensures !old(handles[h].isFateSealed) ==>
        handles == ClearOf(old(handles)[h := old(handles[h]).(isFateSealed := true)], h, rank)
    {
      var sealed := SealFate(h);
      if sealed {
        Clear(h, rank);
      }
      log := log + [NativeReject(h, reason)];
    }

    /** `_settled(value)`: follow an abortable value, or clear. */
    method Settled(h: Id, value: Value, ghost rank: seq<nat>) returns (r: Value)
      requires Valid() && h < |handles| && Ranked(handles, rank) && CanFollow(handles, rank, h, value)
      modifies this
      ensures Valid() && Ranked(handles, rank)
      ensures (handles, log, r) == SettledOf(old(handles), old(log), h, value, rank)
    {
      var p := ToAbortable(value);
      if p.Some? {
        Followed(p.value, h);
        assert Ranked(handles, rank);
        if handles[p.value].canAbort {
          Follow(h, p.value);
          return HandleRef(p.value);
        }
      }
      Clear(h, rank);
      ClearOfWellLinked(old(handles), h, rank);
      if p.Some? {
        ClearOfWellLinked(FollowedOf(old(handles), p.value, h), h, rank);
      }
      r := value;
    }

    /** `_follow(target)`: drop the handler; propagate a pending abort or await `target`. */
    method Follow(h: Id, target: Id)
      requires Valid() && h < |handles| && target < |handles|
      modifies this
      ensures Valid()
      ensures (handles, log) == FollowOf(old(handles), old(log), h, target)
    {
      WellLinkedUpdate(handles, h, handles[h].(abortHandler := None));
      handles := handles[h := handles[h].(abortHandler := None)];
      if handles[h].isAborted {
        AbortPropagate(h, target);
      } else {
        WellLinkedUpdate(handles, h, handles[h].(awaiting := Some(target)));
        handles := handles[h := handles[h].(awaiting := Some(target))];
        assert handles == old(handles)[h := handles[h]];
      }
    }

    /** `_followed(follower)`: count one more consumer and record the follower. */
    method Followed(p: Id, follower: Id)
      requires Valid() && p < |handles| && follower < |handles|
      modifies this
      ensures Valid() && handles == FollowedOf(old(handles), p, follower) && log == old(log)
    {
      var s := handles[p];
      FollowedOfLinks(handles, [], p, follower);
      handles := handles[p := s.(unabortedCount := s.unabortedCount.Inc(),
                                followers := Utils.PushOrCreate(s.followers, follower))];
    }

    /** `_clear()`: clear every follower (recursively), then this handle. */
    method Clear(h: Id, ghost rank: seq<nat>)
      requires Valid() && h < |handles| && Ranked(handles, rank)
      modifies this
      ensures handles == ClearOf(old(handles), h, rank) && log == old(log)
      ensures Valid() && Ranked(handles, rank)
      decreases rank[h], 1
    {
      ClearOfWellLinked(handles, h, rank);
      var fs := FollowersOf(handles[h]);
      assert RankedBelow(handles[h], rank, rank[h]);
      ClearFollowers(fs, rank, rank[h]);
      handles := handles[h := ClearedState(handles[h])];
    }

    /** The loop of `_clear()` over `_followers`: clear each one, in order. */
    method ClearFollowers(fs: seq<Id>, ghost rank: seq<nat>, ghost bound: nat)
      requires Valid() && Ranked(handles, rank)
      requires forall f :: f in fs ==> f < |handles| && rank[f] < bound
      modifies this
      ensures handles == ClearListOf(old(handles), fs, rank, bound) && log == old(log)
      ensures Valid() && Ranked(handles, rank)
      decreases bound, 0
    {
      ghost var hs0 := handles;
      var i := 0;
      while i < |fs|
        invariant 0 <= i <= |fs|
        invariant forall f :: f in fs[..i] ==> f < |hs0| && rank[f] < bound
        invariant handles == ClearListOf(hs0, fs[..i], rank, bound)
        invariant Valid() && Ranked(handles, rank) && log == old(log)
      {
        assert fs[..i + 1][..i] == fs[..i];
        Utils.PrefixWithin(fs, i + 1, |hs0|, rank, bound);
        Clear(fs[i], rank);
        i := i + 1;
      }
      assert fs[..i] == fs;
    }

    /** `_onAbort(fn)`: register the abort handler, at most once. */
    method OnAbort(h: Id, fn: FnArg) returns (thrown: Option<Exception>)
      requires Valid() && h < |handles|
      modifies this
      ensures Valid()
      ensures fn.NotFunction? ==> thrown == Some(TypeError("onAbort() must be passed a function"))
      ensures fn.Function? && old(handles[h].onAbortWasCalled) ==>
        thrown == Some(ErrorThrown("onAbort() cannot be called twice"))
      ensures thrown.Some? ==> handles == old(handles) && log == old(log)
      ensures thrown.None? <==> fn.Function? && !old(handles[h].onAbortWasCalled)
      ensures thrown.None? && old(handles[h].isFateSealed) ==>
        handles == old(handles)[h := old(handles[h]).(onAbortWasCalled := true)] && log == old(log)
      ensures thrown.None? && !old(handles[h].isFateSealed) && !old(handles[h].isAborted) ==>
        handles == old(handles)[h := old(handles[h]).(onAbortWasCalled := true, abortHandler := Some(fn.f))]
        && log == old(log)
      ensures thrown.None? && !old(handles[h].isFateSealed) && old(handles[h].isAborted) ==>
        handles == old(handles)[h := old(handles[h]).(onAbortWasCalled := true, abortHandler := None)]
        && log == old(log) + [HandlerCalled(h, fn.f, old(handles[h].abortError))]
    {
      if fn.NotFunction? {
        return Some(TypeError("onAbort() must be passed a function"));
      }
      if handles[h].onAbortWasCalled {
        return Some(ErrorThrown("onAbort() cannot be called twice"));
      }
      WellLinkedUpdate(handles, h, handles[h].(onAbortWasCalled := true));
      handles := handles[h := handles[h].(onAbortWasCalled := true)];
      if handles[h].isFateSealed {
        return None;
      }
      WellLinkedUpdate(handles, h, handles[h].(abortHandler := Some(fn.f)));
      handles := handles[h := handles[h].(abortHandler := Some(fn.f))];
      if handles[h].isAborted {
        AbortDo(h);
      }
      thrown := None;
    }

    /** `noAbort()`: irrevocably not abortable; returns the handle for chaining. */
    method NoAbort(h: Id) returns (r: Id)
      requires Valid() && h < |handles|
      modifies this
      ensures Valid() && r == h
      ensures handles == old(handles)[h := old(handles[h]).(canAbort := false)] && log == old(log)
    {
      WellLinkedUpdate(handles, h, handles[h].(canAbort := false));
      handles := handles[h := handles[h].(canAbort := false)];
      r := h;
    }

    /**
     * `.abort(err, unilateral)`: validate, then abort with the given error or
     * a default AbortError, unless the handle cannot abort.
     */
    method Abort(h: Id, err: AbortArg, unilateral: AbortArg) returns (r: Result<Id, Exception>)
      requires Valid() && h < |handles|
      modifies this
      ensures Valid()
      ensures ConformAbortArgs(err, unilateral).Failure? ==>
        r == Failure(ConformAbortArgs(err, unilateral).error) && handles == old(handles) && log == old(log)
      ensures ConformAbortArgs(err, unilateral).Success? ==> r == Success(h)
      ensures ConformAbortArgs(err, unilateral).Success? && !old(handles[h].canAbort) ==>
        handles == old(handles) && log == old(log)
      ensures ConformAbortArgs(err, unilateral).Success? && old(handles[h].canAbort) ==>
        var c := ConformAbortArgs(err, unilateral).value;
        var e := if c.0.Some? then c.0.value else NewAbortError(None);
        (handles, log) == AbortOf(old(handles), old(log), h, Some(e), c.1)
    {
      var c := ConformAbortArgs(err, unilateral);
      if c.Failure? {
        return Failure(c.error);
      }
      if !handles[h].canAbort {
        return Success(h);
      }
      var e := if c.value.0.Some? then c.value.0.value else NewAbortError(None);
      AbortInternal(h, Some(e), c.value.1);
      r := Success(h);
    }

    /** `_abort(err, unilateral)`: consensus, then propagate or fire the handler. */
    method AbortInternal(h: Id, err: Option<Error>, unilateral: bool)
      requires Valid() && h < |handles|
      modifies this
      ensures Valid()
      ensures (handles, log) == AbortOf(old(handles), old(log), h, err, unilateral)
      decreases AwaitingLinks(handles), 2
    {
      // The writes to this handle's fields are gathered in `s` and stored at once.
      var s := handles[h];
      if unilateral {
        s := s.(abortError := err);
      } else {
        if s.abortError.None? {
          s := s.(abortError := err);
        }
        s := s.(unabortedCount := s.unabortedCount.Dec());
      }
      assert s == Recorded(handles[h], err, unilateral);
      KeepLinks(handles, h, s);
      handles := handles[h := s];
      if unilateral || !s.unabortedCount.IsPositive() {
        AbortConsensus(h);
      }
    }

    /** The rest of `_abort` once consensus is reached: set the flags, then propagate or fire the handler. */
    method AbortConsensus(h: Id)
      requires Valid() && h < |handles|
      modifies this
      ensures Valid()
      ensures (handles, log) == ConsensusOf(old(handles), old(log), h)
      decreases AwaitingLinks(handles), 1
    {
      var s := handles[h].(isAborted := true, canAbort := false);
      assert LinkedIn(handles[h], |handles|);
      var awaiting := s.awaiting;
      if awaiting.Some? {
        AwaitingLinksUpdate(handles, h, s.(awaiting := None));
        WellLinkedUpdate(handles, h, s.(awaiting := None));
        handles := handles[h := s.(awaiting := None)];
        AbortPropagate(h, awaiting.value);
      } else {
        KeepLinks(handles, h, s);
        handles := handles[h := s];
        if s.abortHandler.Some? {
          AbortDo(h);
          assert handles == old(handles)[h := s.(abortHandler := None)];
        }
      }
    }

    /** `_abortDo()`: take the handler off the handle, then call it with the error. */
    method AbortDo(h: Id)
      requires Valid() && h < |handles| && handles[h].abortHandler.Some?
      modifies this
      ensures Valid()
      ensures handles == old(handles)[h := old(handles[h]).(abortHandler := None)]
      ensures log == old(log) + [HandlerCalled(h, old(handles[h]).abortHandler.value, old(handles[h]).abortError)]
    {
      var handler := handles[h].abortHandler.value;
      KeepLinks(handles, h, handles[h].(abortHandler := None));
      handles := handles[h := handles[h].(abortHandler := None)];
      log := log + [HandlerCalled(h, handler, handles[h].abortError)];
    }

    /** `_abortPropagate(target)`: move this handle's error to `target` and abort it. */
    method AbortPropagate(h: Id, target: Id)
      requires Valid() && h < |handles| && target < |handles|
      modifies this
      ensures Valid()
      ensures (handles, log) == PropagateOf(old(handles), old(log), h, target)
      decreases AwaitingLinks(handles), 3
    {
      var err := handles[h].abortError;
      KeepLinks(handles, h, handles[h].(abortError := None));
      handles := handles[h := handles[h].(abortError := None)];
      AbortInternal(target, err, false);
    }

    /**
     * `_handled(handler, input)`: run a `.then()` handler for handle `h`;
     * settle with what it returns, or clear and rethrow what it throws.
     */
    method Handled(h: Id, reaction: Reaction, input: Value, userOutcome: Completion, ghost rank: seq<nat>)
      returns (c: Completion)
      requires Valid() && h < |handles| && Ranked(handles, rank)
      requires var o := Invoke(reaction, input, userOutcome); o.Returned? ==> CanFollow(handles, rank, h, o.value)
      modifies this
      ensures Valid() && Ranked(handles, rank)
      ensures var o := Invoke(reaction, input, userOutcome);
        && (o.Threw? ==> c == o && handles == ClearOf(old(handles), h, rank) && log == old(log))
        && (o.Returned? ==>
             var s := SettledOf(old(handles), old(log), h, o.value, rank);
             c == Returned(s.2) && handles == s.0 && log == s.1)
    {
      var o := Invoke(reaction, input, userOutcome);
      if o.Returned? {
        var v := Settled(h, o.value, rank);
        return Returned(v);
      }
      Clear(h, rank);
      c := o;
    }
  }
}
