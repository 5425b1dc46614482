/**
 * Abort by consensus (lib/methods.js `_abort` and `_abortPropagate`): a
 * handle consumed by several children through `.then()` is aborted only
 * when every one of them has asked for it. Each child awaits the parent and
 * is the parent's consumer once; the children abort one after another.
 */
module Consensus {
  import opened Wrappers
  import opened Values
  import opened Methods

  /** `cs[0].abort(errs[0]); cs[1].abort(errs[1]); ...` on handles that can abort. */
  ghost function AbortEach(hs: seq<HandleState>, log: seq<Event>, cs: seq<Id>, errs: seq<Error>)
    : (r: (seq<HandleState>, seq<Event>))
    requires WellLinked(hs) && |errs| == |cs|
    requires forall i :: 0 <= i < |cs| ==> cs[i] < |hs|
    ensures |r.0| == |hs| && WellLinked(r.0)
    decreases |cs|
  {
    if cs == [] then (hs, log)
    else
      var m := |cs| - 1;
      var r1 := AbortEach(hs, log, cs[..m], errs[..m]);
      AbortOf(r1.0, r1.1, cs[m], Some(errs[m]), false)
  }

  /**
   * `cs` are distinct children of `p` that await it, have recorded no error
   * and are consumed by nobody, so a single abort reaches consensus on each.
   */
  ghost predicate Consumers(hs: seq<HandleState>, p: Id, cs: seq<Id>) {
    && (forall i :: 0 <= i < |cs| ==>
          && cs[i] < |hs| && cs[i] != p
          && hs[cs[i]].awaiting == Some(p) && hs[cs[i]].abortError.None?
          && !hs[cs[i]].unabortedCount.Dec().IsPositive())
    && (forall i, j :: 0 <= i < j < |cs| ==> cs[i] != cs[j])
  }

  /** The error a handle ends up with: the one it had, else the first one sent. */
  function FirstError(had: Option<Error>, errs: seq<Error>): (r: Option<Error>)
    ensures had.Some? ==> r == had
    ensures had.None? && errs != [] ==> r == Some(errs[0])
    ensures had.None? && errs == [] ==> r.None?
  {
    if had.Some? then had else if errs == [] then None else Some(errs[0])
  }

  /** The state a child is left in once its abort has reached consensus and gone up. */
  function AbortedChild(s: HandleState): (r: HandleState)
    ensures r.isAborted && !r.canAbort && r.awaiting.None? && r.abortError.None?
    ensures r.followers == s.followers && r.abortHandler == s.abortHandler
  {
    s.(isAborted := true, canAbort := false, awaiting := None, abortError := None,
       unabortedCount := s.unabortedCount.Dec())
  }

  /** One child's abort, with the parent still consumed by others. */
  lemma ChildAbortCounts(hs: seq<HandleState>, log: seq<Event>, p: Id, c: Id, e: Error, k: int)
    requires WellLinked(hs) && p < |hs| && c < |hs| && c != p
    requires hs[c].awaiting == Some(p) && hs[c].abortError.None? && !hs[c].unabortedCount.Dec().IsPositive()
    requires hs[p].unabortedCount == Num(k) && k > 1
    ensures AbortOf(hs, log, c, Some(e), false) ==
      (hs[c := AbortedChild(hs[c])][p := hs[p].(unabortedCount := Num(k - 1), abortError := FirstError(hs[p].abortError, [e]))], log)
  {
    AbortPropagatesUp(hs, log, c, Some(e), false);
    AbortWithoutConsensus(hs[c := AbortedChild(hs[c])], log, p, Some(e));
  }

  /**
   * While fewer children than the parent's count have aborted, the parent is
   * not aborted and its handler has not run: it has only counted the aborts
   * and kept the first error. Each aborted child is aborted and nothing else
   * has changed.
   */
  lemma {:induction false} PartialAbortKeepsParent(hs: seq<HandleState>, log: seq<Event>, p: Id, cs: seq<Id>, errs: seq<Error>, n: nat)
    requires WellLinked(hs) && p < |hs| && |errs| == |cs| && Consumers(hs, p, cs)
    requires hs[p].unabortedCount == Num(n) && |cs| < n
    ensures var r := AbortEach(hs, log, cs, errs);
      && r.1 == log
      && r.0[p] == hs[p].(unabortedCount := Num(n - |cs|), abortError := FirstError(hs[p].abortError, errs))
      && (forall i :: 0 <= i < |cs| ==> r.0[cs[i]].isAborted && !r.0[cs[i]].canAbort)
      && (forall i :: 0 <= i < |hs| && i != p && i !in cs ==> r.0[i] == hs[i])
    decreases |cs|
  {
    if cs != [] {
      var m := |cs| - 1;
      var c := cs[m];
      assert Consumers(hs, p, cs[..m]);
      PartialAbortKeepsParent(hs, log, p, cs[..m], errs[..m], n);
      var r1 := AbortEach(hs, log, cs[..m], errs[..m]);
      assert c !in cs[..m];
      assert r1.0[c] == hs[c];
      ChildAbortCounts(r1.0, r1.1, p, c, errs[m], n - m);
      var r := AbortEach(hs, log, cs, errs);
      var hs2 := r1.0[c := AbortedChild(hs[c])];
      assert r.0 == hs2[p := r1.0[p].(unabortedCount := Num(n - |cs|), abortError := FirstError(r1.0[p].abortError, [errs[m]]))];
      assert FirstError(FirstError(hs[p].abortError, errs[..m]), [errs[m]]) == FirstError(hs[p].abortError, errs);
      forall i | 0 <= i < |cs| ensures r.0[cs[i]].isAborted && !r.0[cs[i]].canAbort {
        if i < m {
          assert cs[i] == cs[..m][i];
          assert r.0[cs[i]] == r1.0[cs[i]];
        }
      }
      forall i | 0 <= i < |hs| && i != p && i !in cs ensures r.0[i] == hs[i] {
        assert i !in cs[..m];
        assert r.0[i] == r1.0[i];
      }
    }
  }

  /**
   * Once as many children as the parent's count have aborted, the parent is
   * aborted and cannot abort any more; if it awaits no other handle, its
   * handler runs exactly once, with the first error recorded.
   */
  lemma {:induction false} FullAbortAbortsParent(hs: seq<HandleState>, log: seq<Event>, p: Id, cs: seq<Id>, errs: seq<Error>)
    requires WellLinked(hs) && p < |hs| && |errs| == |cs| && Consumers(hs, p, cs)
    requires cs != [] && hs[p].unabortedCount == Num(|cs|)
    ensures var r := AbortEach(hs, log, cs, errs);
      && r.0[p].isAborted && !r.0[p].canAbort
      && (hs[p].awaiting.None? && hs[p].abortHandler.Some? ==>
            r.1 == log + [HandlerCalled(p, hs[p].abortHandler.value, FirstError(hs[p].abortError, errs))]
            && r.0[p].abortHandler.None?)
  {
    var m := |cs| - 1;
    var c := cs[m];
    assert Consumers(hs, p, cs[..m]);
    PartialAbortKeepsParent(hs, log, p, cs[..m], errs[..m], |cs|);
    var r1 := AbortEach(hs, log, cs[..m], errs[..m]);
    assert c !in cs[..m];
    assert r1.0[c] == hs[c];
    AbortPropagatesUp(r1.0, r1.1, c, Some(errs[m]), false);
    var s := r1.0[c];
    var s2 := s.(isAborted := true, canAbort := false, awaiting := None, abortError := None,
                 unabortedCount := s.unabortedCount.Dec());
    var hs2 := r1.0[c := s2];
    var r := AbortEach(hs, log, cs, errs);
    assert r == AbortOf(hs2, r1.1, p, Some(errs[m]), false);
    var q := hs2[p];
    assert q.unabortedCount == Num(1);
    var s1 := Recorded(q, Some(errs[m]), false);
    KeepLinks(hs2, p, s1);
    ConsensusOfAborts(hs2[p := s1], r1.1, p);
    assert s1.abortError == FirstError(hs[p].abortError, errs) by {
      assert FirstError(hs[p].abortError, errs[..m]) == FirstError(hs[p].abortError, errs) || m == 0;
    }
    if hs[p].awaiting.None? && hs[p].abortHandler.Some? {
      AbortFiresHandler(hs2, r1.1, p, Some(errs[m]), false);
    }
  }
}
