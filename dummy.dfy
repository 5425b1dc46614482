/**
 * lib/dummy.js: `DummyAbortable`, the stand-in that records what the
 * executor does (resolve, reject, onAbort) while the Abortable it belongs to
 * is still being constructed. Its native resolve and reject calls are
 * recorded under the id the Abortable will get.
 */
module Dummy {
  import opened Wrappers
  import opened Values
  import opened Methods

  /** The fields of a dummy. */
  datatype DummyState = DummyState(
    canAbort: bool,
    isFateSealed: bool,
    abortHandler: Option<Fn>,
    awaiting: Option<Id>,
    onAbortWasCalled: bool)

  /** The state the constructor leaves. */
  function InitialDummy(): (d: DummyState)
    ensures d.canAbort && !d.isFateSealed && d.abortHandler.None? && d.awaiting.None?
    ensures !d.onAbortWasCalled
  {
    DummyState(true, false, None, None, false)
  }

  /** `_clear()`: no longer abortable, no handler. */
  function DummyClearOf(d: DummyState): (r: DummyState)
    ensures !r.canAbort && r.abortHandler.None?
    ensures r.isFateSealed == d.isFateSealed && r.awaiting == d.awaiting && r.onAbortWasCalled == d.onAbortWasCalled
  {
    d.(canAbort := false, abortHandler := None)
  }

  /**
   * `_settled(value)`: await an Abortable that can still abort, clear on
   * anything else; `hs` gives the state of the Abortables.
   */
  function DummySettledOf(d: DummyState, value: Value, hs: seq<HandleState>): (r: DummyState)
    requires value.HandleRef? ==> value.id < |hs|
    ensures value.HandleRef? && hs[value.id].canAbort ==> r == d.(awaiting := Some(value.id))
    ensures !(value.HandleRef? && hs[value.id].canAbort) ==> r == DummyClearOf(d)
  {
    if value.HandleRef? && hs[value.id].canAbort then d.(awaiting := Some(value.id))
    else DummyClearOf(d)
  }

  /** `_resolved(resolve, value)`: only the first settlement has an effect. */
  function DummyResolvedOf(d: DummyState, value: Value, hs: seq<HandleState>): (r: DummyState)
    requires value.HandleRef? ==> value.id < |hs|
    ensures d.isFateSealed ==> r == d
    ensures !d.isFateSealed ==> r == DummySettledOf(d.(isFateSealed := true), value, hs)
    ensures r.isFateSealed
  {
    if d.isFateSealed then d else DummySettledOf(d.(isFateSealed := true), value, hs)
  }

  /** `_rejected(reject, err)`: only the first settlement has an effect. */
  function DummyRejectedOf(d: DummyState): (r: DummyState)
    ensures d.isFateSealed ==> r == d
    ensures !d.isFateSealed ==> r == DummyClearOf(d.(isFateSealed := true))
    ensures r.isFateSealed
  {
    if d.isFateSealed then d else DummyClearOf(d.(isFateSealed := true))
  }

  /**
   * `_onAbort(fn)` as lib/dummy.js writes it: store the handler while the
   * dummy can abort, with no check of the argument and no record of the call.
   * A non-function argument is stored in the source; here it leaves no handler.
   */
  function DummyOnAbortAsWrittenOf(d: DummyState, fn: FnArg): (r: DummyState)
    ensures d.canAbort && fn.Function? ==> r == d.(abortHandler := Some(fn.f))
    ensures !d.canAbort ==> r == d
    ensures r.onAbortWasCalled == d.onAbortWasCalled
  {
    if !d.canAbort then d
    else if fn.Function? then d.(abortHandler := Some(fn.f))
    else d.(abortHandler := None)
  }

  /**
   * `_onAbort(fn)` with the checks lib/methods.js makes: a non-function and a
   * second call throw; the handler is stored only while the dummy can abort.
   */
  function DummyOnAbortOf(d: DummyState, fn: FnArg): (r: (DummyState, Option<Exception>))
    ensures fn.NotFunction? ==> r == (d, Some(TypeError("onAbort() must be passed a function")))
    ensures fn.Function? && d.onAbortWasCalled ==> r == (d, Some(ErrorThrown("onAbort() cannot be called twice")))
    ensures fn.Function? && !d.onAbortWasCalled ==> r.1.None? && r.0.onAbortWasCalled
    ensures fn.Function? && !d.onAbortWasCalled && d.canAbort ==>
      r.0 == d.(onAbortWasCalled := true, abortHandler := Some(fn.f))
    ensures fn.Function? && !d.onAbortWasCalled && !d.canAbort ==> r.0 == d.(onAbortWasCalled := true)
  {
    if fn.NotFunction? then (d, Some(TypeError("onAbort() must be passed a function")))
    else if d.onAbortWasCalled then (d, Some(ErrorThrown("onAbort() cannot be called twice")))
    else
      var d1 := d.(onAbortWasCalled := true);
      (if d1.canAbort then d1.(abortHandler := Some(fn.f)) else d1, None)
  }

  /** Which `_onAbort` the executor's `onAbort` reaches while the Abortable is being built. */
  datatype OnAbortRule =
    /** lib/dummy.js as written: no check and no record of the call. */
    | AsWritten
    /** The checks of lib/methods.js, as the first row of the findings intends. */
    | Corrected

  /**
   * The executor's `onAbort(fn)` on the dummy under `rule`: the new state and
   * what the call throws. As written it never throws and never records the call.
   */
  function DummyOnAbortByOf(d: DummyState, fn: FnArg, rule: OnAbortRule): (r: (DummyState, Option<Exception>))
    ensures rule.AsWritten? ==> r.1.None? && r.0.onAbortWasCalled == d.onAbortWasCalled
    ensures rule.AsWritten? && d.canAbort && fn.Function? ==> r.0.abortHandler == Some(fn.f)
    ensures rule.Corrected? && fn.Function? && d.onAbortWasCalled ==> r.1.Some? && r.0 == d
    ensures rule.Corrected? && fn.NotFunction? ==> r.1.Some? && r.0 == d
    ensures !d.canAbort ==> r.0.abortHandler == d.abortHandler && r.0.canAbort == d.canAbort
    ensures r.0.isFateSealed == d.isFateSealed && r.0.awaiting == d.awaiting && r.0.canAbort == d.canAbort
  {
    match rule
    case AsWritten => (DummyOnAbortAsWrittenOf(d, fn), None)
    case Corrected => DummyOnAbortOf(d, fn)
  }

  class DummyAbortable {
    var canAbort: bool
    var isFateSealed: bool
    var abortHandler: Option<Fn>
    var awaiting: Option<Id>
    var onAbortWasCalled: bool
    /** Native resolve and reject calls made so far. */
    var events: seq<Event>
    /** The id of the Abortable under construction. */
    const owner: Id

    function State(): DummyState
      reads this
    {
      DummyState(canAbort, isFateSealed, abortHandler, awaiting, onAbortWasCalled)
    }

    constructor (owner: Id)
      ensures State() == InitialDummy() && events == [] && this.owner == owner
    {
      canAbort := true;
      isFateSealed := false;
      abortHandler := None;
      awaiting := None;
      onAbortWasCalled := false;
      events := [];
      this.owner := owner;
    }

    /** `_sealFate()`: true exactly when this call sealed the fate. */
    method SealFate() returns (sealed: bool)
      modifies this
      ensures sealed == !old(isFateSealed)
      ensures State() == old(State()).(isFateSealed := true) && events == old(events)
    {
      if isFateSealed {
        return false;
      }
      isFateSealed := true;
      return true;
    }

    /** `_resolved(resolve, value)`: the native resolve always receives the value itself. */
    method Resolved(value: Value, hs: seq<HandleState>)
      requires value.HandleRef? ==> value.id < |hs|
      modifies this
      ensures State() == DummyResolvedOf(old(State()), value, hs)
      ensures events == old(events) + [NativeResolve(owner, value)]
    {
      var v := value;
      var sealed := SealFate();
      if sealed {
        v := Settled(value, hs);
      }
      events := events + [NativeResolve(owner, v)];
    }

    /** `_rejected(reject, err)` */
    method Rejected(reason: Value)
      modifies this
      ensures State() == DummyRejectedOf(old(State()))
      ensures events == old(events) + [NativeReject(owner, reason)]
    {
      var sealed := SealFate();
      if sealed {
        Clear();
      }
      events := events + [NativeReject(owner, reason)];
    }

    /** `_settled(value)`: returns the value unchanged in every case. */
    method Settled(value: Value, hs: seq<HandleState>) returns (r: Value)
      requires value.HandleRef? ==> value.id < |hs|
      modifies this
      ensures r == value
      ensures State() == DummySettledOf(old(State()), value, hs) && events == old(events)
    {
      if value.HandleRef? {
        if hs[value.id].canAbort {
          awaiting := Some(value.id);
          return value;
        }
      }
      Clear();
      return value;
    }

    /** `_onAbort(fn)` as written in lib/dummy.js. */
    method OnAbortAsWritten(fn: FnArg)
      modifies this
      ensures State() == DummyOnAbortAsWrittenOf(old(State()), fn) && events == old(events)
    {
      if canAbort {
        abortHandler := if fn.Function? then Some(fn.f) else None;
      }
    }

    /** `_onAbort(fn)` with the argument check and the once-only rule. */
    method OnAbort(fn: FnArg) returns (thrown: Option<Exception>)
      modifies this
      ensures (State(), thrown) == DummyOnAbortOf(old(State()), fn) && events == old(events)
    {
      if fn.NotFunction? {
        return Some(TypeError("onAbort() must be passed a function"));
      }
      if onAbortWasCalled {
        return Some(ErrorThrown("onAbort() cannot be called twice"));
      }
      onAbortWasCalled := true;
      if canAbort {
        abortHandler := Some(fn.f);
      }
      thrown := None;
    }

    /** The executor's `onAbort(fn)` under `rule`. */
    method OnAbortBy(fn: FnArg, rule: OnAbortRule) returns (thrown: Option<Exception>)
      modifies this
      ensures (State(), thrown) == DummyOnAbortByOf(old(State()), fn, rule) && events == old(events)
    {
      if rule.AsWritten? {
        OnAbortAsWritten(fn);
        thrown := None;
      } else {
        thrown := OnAbort(fn);
      }
    }

    /** `_clear()` */
    method Clear()
      modifies this
      ensures State() == DummyClearOf(old(State())) && events == old(events)
    {
      canAbort := false;
      abortHandler := None;
    }
  }

  /**
   * An executor that calls `onAbort` twice while the Abortable is being
   * built, against lib/dummy.js as written: neither call throws and the
   * second handler replaces the first.
   */
  method DoubleOnAbortAsWritten(f1: Fn, f2: Fn) returns (handler: Option<Fn>, onAbortWasCalled: bool)
    ensures handler == Some(f2) && !onAbortWasCalled
  {
    var d := new DummyAbortable(0);
    d.OnAbortAsWritten(Function(f1));
    d.OnAbortAsWritten(Function(f2));
    handler := d.abortHandler;
    onAbortWasCalled := d.onAbortWasCalled;
  }

  /** The same executor against the checked `_onAbort`: the second call throws, the first handler stays. */
  method DoubleOnAbort(f1: Fn, f2: Fn) returns (handler: Option<Fn>, secondThrew: Option<Exception>)
    ensures handler == Some(f1)
    ensures secondThrew == Some(ErrorThrown("onAbort() cannot be called twice"))
  {
    var d := new DummyAbortable(0);
    var first := d.OnAbort(Function(f1));
    secondThrew := d.OnAbort(Function(f2));
    handler := d.abortHandler;
  }

  /**
   * Resolving before `onAbort` inside the executor leaves no handler stored,
   * with `_onAbort` as written and with the checks alike.
   */
  lemma {:induction false} ResolveFirstDropsHandler(value: Value, hs: seq<HandleState>, fn: FnArg, rule: OnAbortRule)
    requires value.HandleRef? ==> value.id < |hs|
    requires !(value.HandleRef? && hs[value.id].canAbort)
    ensures DummyOnAbortAsWrittenOf(DummyResolvedOf(InitialDummy(), value, hs), fn).abortHandler.None?
    ensures DummyOnAbortAsWrittenOf(DummyRejectedOf(InitialDummy()), fn).abortHandler.None?
    ensures DummyOnAbortByOf(DummyResolvedOf(InitialDummy(), value, hs), fn, rule).0.abortHandler.None?
    ensures DummyOnAbortByOf(DummyRejectedOf(InitialDummy()), fn, rule).0.abortHandler.None?
  {
  }
}
