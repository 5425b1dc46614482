/**
 * lib/abort.js: an earlier version of the abort methods. It has no
 * unilateral abort, and it decrements `_unabortedCount` only while the count
 * is positive, so a count that starts non-negative never goes below zero.
 * It works on its own handle records, kept apart from lib/methods.js's.
 */
module AbortCounting {
  import opened Wrappers
  import opened Values

  /** The fields lib/abort.js reads and writes on a handle. */
  datatype CountingState = CountingState(
    canAbort: bool,
    isAborted: bool,
    abortHandler: Option<Fn>,
    awaiting: Option<Id>,
    abortError: Option<Error>,
    unabortedCount: Count)

  /** The handle a state awaits, if any, is one of `n` handles. */
  predicate AwaitsIn(s: CountingState, n: nat) {
    s.awaiting.Some? ==> s.awaiting.value < n
  }

  /** Every `_awaiting` link points into the arena. */
  predicate Linked(hs: seq<CountingState>) {
    forall i :: 0 <= i < |hs| ==> AwaitsIn(hs[i], |hs|)
  }

  /** How many handles have an `_awaiting` link; each propagation removes one. */
  function Links(hs: seq<CountingState>): nat {
    if hs == [] then 0
    else Links(hs[..|hs| - 1]) + (if hs[|hs| - 1].awaiting.Some? then 1 else 0)
  }

  lemma {:induction false} LinksUpdate(hs: seq<CountingState>, i: nat, s: CountingState)
    requires i < |hs|
    ensures Links(hs[i := s]) + (if hs[i].awaiting.Some? then 1 else 0)
         == Links(hs) + (if s.awaiting.Some? then 1 else 0)
  {
    var n := |hs|;
    if i == n - 1 {
      assert hs[i := s][..n - 1] == hs[..n - 1];
    } else {
      assert hs[i := s][..n - 1] == hs[..n - 1][i := s];
      LinksUpdate(hs[..n - 1], i, s);
    }
  }

  /** Storing a state whose link stays in range keeps the arena linked. */
  lemma LinkedUpdate(hs: seq<CountingState>, i: nat, s: CountingState)
    requires Linked(hs) && i < |hs| && AwaitsIn(s, |hs|)
    ensures Linked(hs[i := s])
  {
    var hs1 := hs[i := s];
    forall j | 0 <= j < |hs1| ensures AwaitsIn(hs1[j], |hs1|) {
      if j != i {
        assert hs1[j] == hs[j];
      }
    }
  }

  /** Storing a state with the same link keeps the arena linked and the link count. */
  lemma SameLink(hs: seq<CountingState>, i: nat, s: CountingState)
    requires Linked(hs) && i < |hs| && s.awaiting == hs[i].awaiting
    ensures Linked(hs[i := s]) && Links(hs[i := s]) == Links(hs)
  {
    assert AwaitsIn(hs[i], |hs|);
    LinkedUpdate(hs, i, s);
    LinksUpdate(hs, i, s);
  }

  /** `if (this._unabortedCount > 0) this._unabortedCount--`: never below zero. */
  function Counted(c: Count): (r: Count)
    ensures c.IsPositive() ==> r == c.Dec()
    ensures !c.IsPositive() ==> r == c
    ensures c.Num? && c.n >= 0 ==> r.Num? && r.n >= 0
    ensures c.Num? && c.n > 1 ==> r.IsPositive()
    ensures !r.IsPositive() <==> !c.IsPositive() || c == Num(1)
  {
    if c.IsPositive() then c.Dec() else c
  }

  /** `_abort(err)` up to the consensus test: the first error is kept and the count decremented while positive. */
  function Recorded(s: CountingState, err: Option<Error>): (r: CountingState)
    ensures r.abortError == (if s.abortError.Some? then s.abortError else err)
    ensures r.unabortedCount == Counted(s.unabortedCount)
    ensures r.awaiting == s.awaiting && r.abortHandler == s.abortHandler
    ensures r.canAbort == s.canAbort && r.isAborted == s.isAborted
  {
    s.(abortError := if s.abortError.Some? then s.abortError else err,
       unabortedCount := Counted(s.unabortedCount))
  }

  /** `this._abort(err)` on handle `h`: the arena and the event log afterwards. */
  ghost function AbortOf(hs: seq<CountingState>, log: seq<Event>, h: Id, err: Option<Error>)
    : (r: (seq<CountingState>, seq<Event>))
    requires Linked(hs) && h < |hs|
    ensures |r.0| == |hs| && Linked(r.0)
    decreases Links(hs), 2
  {
    var s1 := Recorded(hs[h], err);
    SameLink(hs, h, s1);
    if s1.unabortedCount.IsPositive() then (hs[h := s1], log)
    else ConsensusOf(hs[h := s1], log, h)
  }

  /** The part of `_abort` after consensus: mark aborted, then propagate or fire the handler. */
  ghost function ConsensusOf(hs: seq<CountingState>, log: seq<Event>, h: Id)
    : (r: (seq<CountingState>, seq<Event>))
    requires Linked(hs) && h < |hs|
    ensures |r.0| == |hs| && Linked(r.0)
    decreases Links(hs), 1
  {
    var s := hs[h].(isAborted := true, canAbort := false);
    assert AwaitsIn(hs[h], |hs|);
    if s.awaiting.Some? then
      LinkedUpdate(hs, h, s.(awaiting := None));
      LinksUpdate(hs, h, s.(awaiting := None));
      PropagateOf(hs[h := s.(awaiting := None)], log, h, s.awaiting.value)
    else if s.abortHandler.Some? then
      LinkedUpdate(hs, h, s.(abortHandler := None));
      (hs[h := s.(abortHandler := None)], log + [HandlerCalled(h, s.abortHandler.value, s.abortError)])
    else
      LinkedUpdate(hs, h, s);
      (hs[h := s], log)
  }

  /** `this._abortPropagate(target)`: delete this handle's error and abort `target` with it. */
  ghost function PropagateOf(hs: seq<CountingState>, log: seq<Event>, h: Id, target: Id)
    : (r: (seq<CountingState>, seq<Event>))
    requires Linked(hs) && h < |hs| && target < |hs|
    ensures |r.0| == |hs| && Linked(r.0)
    decreases Links(hs), 3
  {
    SameLink(hs, h, hs[h].(abortError := None));
    AbortOf(hs[h := hs[h].(abortError := None)], log, target, hs[h].abortError)
  }

  /** No count is negative (NaN, the count of an undefined field, is not negative). */
  predicate CountOk(s: CountingState) {
    s.unabortedCount.Num? ==> s.unabortedCount.n >= 0
  }

  predicate NonNegative(hs: seq<CountingState>) {
    forall i :: 0 <= i < |hs| ==> CountOk(hs[i])
  }

  lemma NonNegativeUpdate(hs: seq<CountingState>, i: nat, s: CountingState)
    requires NonNegative(hs) && i < |hs| && CountOk(s)
    ensures NonNegative(hs[i := s])
  {
    var hs1 := hs[i := s];
    forall j | 0 <= j < |hs1| ensures CountOk(hs1[j]) {
      if j != i {
        assert hs1[j] == hs[j];
      }
    }
  }

  /** An abort, however far it propagates, leaves no count negative. */
  lemma {:induction false} AbortKeepsCountsNonNegative(hs: seq<CountingState>, log: seq<Event>, h: Id, err: Option<Error>)
    requires Linked(hs) && h < |hs| && NonNegative(hs)
    ensures NonNegative(AbortOf(hs, log, h, err).0)
    decreases Links(hs), 2
  {
    var s1 := Recorded(hs[h], err);
    SameLink(hs, h, s1);
    assert CountOk(hs[h]);
    NonNegativeUpdate(hs, h, s1);
    if !s1.unabortedCount.IsPositive() {
      ConsensusKeepsCountsNonNegative(hs[h := s1], log, h);
    }
  }

  lemma {:induction false} ConsensusKeepsCountsNonNegative(hs: seq<CountingState>, log: seq<Event>, h: Id)
    requires Linked(hs) && h < |hs| && NonNegative(hs)
    ensures NonNegative(ConsensusOf(hs, log, h).0)
    decreases Links(hs), 1
  {
    var s := hs[h].(isAborted := true, canAbort := false);
    assert AwaitsIn(hs[h], |hs|) && CountOk(hs[h]);
    if s.awaiting.Some? {
      LinkedUpdate(hs, h, s.(awaiting := None));
      LinksUpdate(hs, h, s.(awaiting := None));
      NonNegativeUpdate(hs, h, s.(awaiting := None));
      PropagateKeepsCountsNonNegative(hs[h := s.(awaiting := None)], log, h, s.awaiting.value);
    } else if s.abortHandler.Some? {
      NonNegativeUpdate(hs, h, s.(abortHandler := None));
    } else {
      NonNegativeUpdate(hs, h, s);
    }
  }

  lemma {:induction false} PropagateKeepsCountsNonNegative(hs: seq<CountingState>, log: seq<Event>, h: Id, target: Id)
    requires Linked(hs) && h < |hs| && target < |hs| && NonNegative(hs)
    ensures NonNegative(PropagateOf(hs, log, h, target).0)
    decreases Links(hs), 3
  {
    SameLink(hs, h, hs[h].(abortError := None));
    assert CountOk(hs[h]);
    NonNegativeUpdate(hs, h, hs[h].(abortError := None));
    AbortKeepsCountsNonNegative(hs[h := hs[h].(abortError := None)], log, target, hs[h].abortError);
  }

  /**
   * A handle counting more than one consumer only counts the abort: it keeps
   * the first error, is one consumer down, and nothing else happens.
   */
  lemma AbortWaitsForConsensus(hs: seq<CountingState>, log: seq<Event>, h: Id, err: Option<Error>, k: int)
    requires Linked(hs) && h < |hs| && hs[h].unabortedCount == Num(k) && k > 1
    ensures AbortOf(hs, log, h, err) ==
      (hs[h := hs[h].(unabortedCount := Num(k - 1),
                      abortError := if hs[h].abortError.Some? then hs[h].abortError else err)], log)
  {
  }

  /**
   * On consensus with nothing awaited, the handle is aborted, cannot abort,
   * and its handler (if any) is taken off and called once with the first error.
   */
  lemma {:induction false} ConsensusFiresHandler(hs: seq<CountingState>, log: seq<Event>, h: Id, err: Option<Error>)
    requires Linked(hs) && h < |hs| && !Counted(hs[h].unabortedCount).IsPositive() && hs[h].awaiting.None?
    ensures var r := AbortOf(hs, log, h, err);
      var e := if hs[h].abortError.Some? then hs[h].abortError else err;
      && r.0[h].isAborted && !r.0[h].canAbort && r.0[h].abortHandler.None? && r.0[h].abortError == e
      && (forall i :: 0 <= i < |hs| && i != h ==> r.0[i] == hs[i])
      && r.1 == log + (if hs[h].abortHandler.Some? then [HandlerCalled(h, hs[h].abortHandler.value, e)] else [])
  {
    var s1 := Recorded(hs[h], err);
    SameLink(hs, h, s1);
    var hs1 := hs[h := s1];
    assert hs1[h].awaiting.None?;
  }

  /**
   * On consensus with an awaited handle, the link is cut, this handle's error
   * is deleted, and the error goes on to abort the awaited handle.
   */
  lemma {:induction false} ConsensusPropagates(hs: seq<CountingState>, log: seq<Event>, h: Id, err: Option<Error>)
    requires Linked(hs) && h < |hs| && !Counted(hs[h].unabortedCount).IsPositive() && hs[h].awaiting.Some?
    ensures var e := if hs[h].abortError.Some? then hs[h].abortError else err;
      var s2 := hs[h].(isAborted := true, canAbort := false, awaiting := None, abortError := None,
                       unabortedCount := Counted(hs[h].unabortedCount));
      && Linked(hs[h := s2]) && hs[h].awaiting.value < |hs|
      && AbortOf(hs, log, h, err) == AbortOf(hs[h := s2], log, hs[h].awaiting.value, e)
  {
    var s1 := Recorded(hs[h], err);
    SameLink(hs, h, s1);
    var hs1 := hs[h := s1];
    assert AwaitsIn(hs[h], |hs|);
    var s := s1.(isAborted := true, canAbort := false, awaiting := None);
    LinkedUpdate(hs1, h, s);
    LinksUpdate(hs1, h, s);
    var hs2 := hs1[h := s];
    SameLink(hs2, h, hs2[h].(abortError := None));
    assert AbortOf(hs, log, h, err) == ConsensusOf(hs1, log, h);
    assert ConsensusOf(hs1, log, h) == PropagateOf(hs2, log, h, hs[h].awaiting.value);
    assert hs2[h := hs2[h].(abortError := None)] == hs[h := s.(abortError := None)];
  }

  /** `abort(err)`: validate the error and default it, or throw. */
  function ConformAbortArg(err: AbortArg): (r: Result<Error, Exception>)
    ensures err.Missing? || err.NullArg? ==> r == Success(NewAbortError(None))
    ensures err.ErrorArg? ==> r == Success(err.e)
    ensures err.BoolArg? || err.OtherArg? ==> r == Failure(ErrorThrown(".abort() error must be an Error or null"))
  {
    if err.ErrorArg? then Success(err.e)
    else if err.IsNullish() then Success(NewAbortError(None))
    else Failure(ErrorThrown(".abort() error must be an Error or null"))
  }

  class CountingRegistry {
    var handles: seq<CountingState>
    var log: seq<Event>

    ghost predicate Valid()
      reads this
    {
      Linked(handles)
    }

    constructor ()
      ensures Valid() && handles == [] && log == []
    {
      handles := [];
      log := [];
    }

    /**
     * `abort(err)`: an argument that is neither an Error nor null throws,
     * even on a handle that cannot abort; otherwise a handle that cannot
     * abort is left alone, and one that can is aborted with the error or a
     * new AbortError.
     */
    method Abort(h: Id, err: AbortArg) returns (r: Result<Id, Exception>)
      requires Valid() && h < |handles|
      modifies this
      ensures Valid()
      ensures ConformAbortArg(err).Failure? ==>
        r == Failure(ConformAbortArg(err).error) && handles == old(handles) && log == old(log)
      ensures ConformAbortArg(err).Success? ==> r == Success(h)
      ensures ConformAbortArg(err).Success? && !old(handles[h].canAbort) ==>
        handles == old(handles) && log == old(log)
      ensures ConformAbortArg(err).Success? && old(handles[h].canAbort) ==>
        (handles, log) == AbortOf(old(handles), old(log), h, Some(ConformAbortArg(err).value))
    {
      if !err.IsNullish() && !err.ErrorArg? {
        return Failure(ErrorThrown(".abort() error must be an Error or null"));
      }
      if !handles[h].canAbort {
        return Success(h);
      }
      var e := if err.ErrorArg? then err.e else NewAbortError(None);
      AbortInternal(h, Some(e));
      r := Success(h);
    }

    /** `_abort(err)`: record, count, and on consensus propagate or fire the handler. */
    method AbortInternal(h: Id, err: Option<Error>)
      requires Valid() && h < |handles|
      modifies this
      ensures Valid()
      ensures (handles, log) == AbortOf(old(handles), old(log), h, err)
      decreases Links(handles), 2
    {
      var s := handles[h];
      if s.abortError.None? {
        s := s.(abortError := err);
      }
      if s.unabortedCount.IsPositive() {
        s := s.(unabortedCount := s.unabortedCount.Dec());
        if s.unabortedCount.IsPositive() {
          SameLink(handles, h, s);
          handles := handles[h := s];
          return;
        }
      }
      assert s == Recorded(handles[h], err);
      SameLink(handles, h, s);
      handles := handles[h := s];
      AbortConsensus(h);
    }

    /** The rest of `_abort` once consensus is reached. */
    method AbortConsensus(h: Id)
      requires Valid() && h < |handles|
      modifies this
      ensures Valid()
      ensures (handles, log) == ConsensusOf(old(handles), old(log), h)
      decreases Links(handles), 1
    {
      var s := handles[h].(isAborted := true, canAbort := false);
      assert AwaitsIn(handles[h], |handles|);
      var awaiting := s.awaiting;
      if awaiting.Some? {
        LinksUpdate(handles, h, s.(awaiting := None));
        LinkedUpdate(handles, h, s.(awaiting := None));
        handles := handles[h := s.(awaiting := None)];
        AbortPropagate(h, awaiting.value);
      } else {
        SameLink(handles, h, s);
        handles := handles[h := s];
        if s.abortHandler.Some? {
          AbortDo(h);
          assert handles == old(handles)[h := s.(abortHandler := None)];
        }
      }
    }

    /** `_abortDo()`: take the handler off the handle, then call it with the recorded error. */
    method AbortDo(h: Id)
      requires Valid() && h < |handles| && handles[h].abortHandler.Some?
      modifies this
      ensures Valid()
      ensures handles == old(handles)[h := old(handles[h]).(abortHandler := None)]
      ensures log == old(log) + [HandlerCalled(h, old(handles[h]).abortHandler.value, old(handles[h]).abortError)]
    {
      var handler := handles[h].abortHandler.value;
      SameLink(handles, h, handles[h].(abortHandler := None));
      handles := handles[h := handles[h].(abortHandler := None)];
      log := log + [HandlerCalled(h, handler, handles[h].abortError)];
    }

    /** `_abortPropagate(target)`: delete this handle's error and abort `target` with it. */
    method AbortPropagate(h: Id, target: Id)
      requires Valid() && h < |handles| && target < |handles|
      modifies this
      ensures Valid()
      ensures (handles, log) == PropagateOf(old(handles), old(log), h, target)
      decreases Links(handles), 3
    {
      var err := handles[h].abortError;
      SameLink(handles, h, handles[h].(abortError := None));
      handles := handles[h := handles[h].(abortError := None)];
      AbortInternal(target, err);
    }
  }
}
