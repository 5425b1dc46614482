/**
 * lib/collection.js and the subclasses that decide when and how its output
 * settles: lib/all.js (and its duplicate lib/collectionAll.js), lib/race.js,
 * lib/collectionRace.js and lib/allSettled.js.
 *
 * A collection walks its input once, keeping per-item `state`/`result`
 * entries and a count of the items still pending, records the first
 * rejection, sends aborts to the items still pending, and calls `done()`.
 * What it sends to the outside (subscribing to an item, an abort sent to an
 * item, the output's resolve or reject) is appended to `events`.
 */
module Collections {
  import opened Wrappers
  import Values
  import Utils

  type JsValue = Utils.JsValue

  /** `PENDING`, `RESOLVED`, `REJECTED` */
  datatype Status = Pending | Resolved | Rejected

  /** The subclass a collection belongs to; it decides `done()` and the race latch. */
  datatype Variant =
    | All        // lib/all.js, and the identical lib/collectionAll.js
    | Race       // lib/race.js
    | RaceAlt    // lib/collectionRace.js
    | AllSettled // lib/allSettled.js

  /** The first constructor argument: something `for...of` can walk, or not. */
  datatype Iterable = Items(items: seq<JsValue>) | NotIterable

  /** The error an abort carries: the collection's own AbortError, or the one the output was aborted with. */
  datatype Signal = MemberRejection | External(err: JsValue)

  /** The message of the collection's own AbortError. */
  const MemberRejectionMessage := "Abort due to collection member rejection"

  /** One element of what `allSettled` resolves with (section 27.2.4.2 of ECMA-262). */
  datatype Record = Fulfilled(value: JsValue) | RejectedRecord(reason: JsValue)

  /** What the output resolves with. */
  datatype Output = ResultsOut(values: seq<JsValue>) | ValueOut(v: JsValue) | RecordsOut(records: seq<Record>)

  datatype CollectionEvent =
    | ThenCalled(index: nat)
    | AbortSent(index: nat, signal: Signal)
    | OutputResolved(value: Output)
    | OutputRejected(reason: JsValue)

  /** The TypeError `for...of` throws on something that is not iterable. */
  const NotIterableError := Values.TypeError("this.iterator is not iterable")

  /** The TypeError strict mode throws when a property is set on a primitive. */
  const PrimitivePropertyError := Values.TypeError("Cannot create property 'result' on a primitive")

  // ---------------------------------------------------------------------
  // Counting and writing entries

  /** How many entries are still pending. */
  function CountPending(state: seq<Status>): (n: nat)
    ensures n <= |state|
  {
    if state == [] then 0
    else CountPending(state[..|state| - 1]) + (if state[|state| - 1] == Pending then 1 else 0)
  }

  /** The count is 0 exactly when no entry is pending. */
  lemma {:induction false} CountPendingZero(state: seq<Status>)
    ensures CountPending(state) == 0 <==> AllReported(state)
  {
    if state != [] {
      var m := |state| - 1;
      CountPendingZero(state[..m]);
      assert forall i :: 0 <= i < m ==> state[..m][i] == state[i];
    }
  }

  lemma {:induction false} CountPendingUpdate(state: seq<Status>, i: nat, s: Status)
    requires i < |state|
    ensures CountPending(state[i := s]) + (if state[i] == Pending then 1 else 0)
         == CountPending(state) + (if s == Pending then 1 else 0)
  {
    var n := |state|;
    if i == n - 1 {
      assert state[i := s][..n - 1] == state[..n - 1];
    } else {
      assert state[i := s][..n - 1] == state[..n - 1][i := s];
      CountPendingUpdate(state[..n - 1], i, s);
    }
  }

  lemma CountPendingAppend(state: seq<Status>, s: Status)
    ensures CountPending(state + [s]) == CountPending(state) + (if s == Pending then 1 else 0)
  {
    assert (state + [s])[..|state|] == state;
  }

  /** `arr[index] = v` on an array of which `index` is an element or the next one. */
  function Put<T>(s: seq<T>, index: nat, v: T): (r: seq<T>)
    requires index <= |s|
    ensures |r| == if index < |s| then |s| else |s| + 1
    ensures r[index] == v && forall i :: 0 <= i < |s| && i != index ==> r[i] == s[i]
  {
    if index < |s| then s[index := v] else s + [v]
  }

  /** The entry `run` makes for an item: a thenable is pending, anything else is resolved at once. */
  function RunStatus(item: JsValue): (s: Status)
    ensures s == Pending <==> Utils.IsPromise(item)
    ensures s != Rejected
  {
    if Utils.IsPromise(item) then Pending else Resolved
  }

  /** How many items are thenables. */
  function CountThenables(items: seq<JsValue>): (n: nat)
    ensures n <= |items|
  {
    if items == [] then 0
    else CountThenables(items[..|items| - 1]) + (if Utils.IsPromise(items[|items| - 1]) then 1 else 0)
  }

  /** The `item.then(...)` calls `run` makes on the first `n` items, in order. */
  function ThenCalls(items: seq<JsValue>, n: nat): (r: seq<CollectionEvent>)
    requires n <= |items|
    ensures |r| <= n
  {
    if n == 0 then []
    else ThenCalls(items, n - 1) + (if Utils.IsPromise(items[n - 1]) then [ThenCalled(n - 1)] else [])
  }

  /** `run` subscribes to every thenable exactly once, in input order, and to nothing else. */
  lemma {:induction false} ThenCallsReachExactlyThenables(items: seq<JsValue>, n: nat)
    requires n <= |items|
    ensures var r := ThenCalls(items, n);
      && (forall e :: e in r ==> e.ThenCalled? && e.index < n && Utils.IsPromise(items[e.index]))
      && (forall i :: 0 <= i < n && Utils.IsPromise(items[i]) ==> ThenCalled(i) in r)
      && (forall a, b :: 0 <= a < b < |r| ==> r[a].index < r[b].index)
      && |r| == CountThenables(items[..n])
  {
    if n > 0 {
      ThenCallsReachExactlyThenables(items, n - 1);
      var p := ThenCalls(items, n - 1);
      var tail := if Utils.IsPromise(items[n - 1]) then [ThenCalled(n - 1)] else [];
      assert ThenCalls(items, n) == p + tail;
      assert items[..n][..n - 1] == items[..n - 1];
      assert CountThenables(items[..n]) == CountThenables(items[..n - 1]) + |tail|;
    }
  }

  /** An input of plain values only is never subscribed to. */
  lemma {:induction false} NoThenCalls(items: seq<JsValue>, n: nat)
    requires n <= |items| && forall i :: 0 <= i < |items| ==> !Utils.IsPromise(items[i])
    ensures ThenCalls(items, n) == []
  {
    if n > 0 {
      NoThenCalls(items, n - 1);
    }
  }

  /** The first item that is not a thenable, the first to report to a race. */
  function FirstPlain(items: seq<JsValue>): (r: Option<nat>)
    ensures r.Some? ==> r.value < |items|
  {
    if items == [] then None
    else
      var p := FirstPlain(items[..|items| - 1]);
      if p.Some? then p
      else if Utils.IsPromise(items[|items| - 1]) then None
      else Some(|items| - 1)
  }

  /** `FirstPlain` finds the first item that is not a thenable, and only misses when there is none. */
  lemma {:induction false} FirstPlainIsFirst(items: seq<JsValue>)
    ensures var r := FirstPlain(items);
      && (r.Some? ==> !Utils.IsPromise(items[r.value]) && forall k :: 0 <= k < r.value ==> Utils.IsPromise(items[k]))
      && (r.None? ==> forall k :: 0 <= k < |items| ==> Utils.IsPromise(items[k]))
    decreases |items|
  {
    if items != [] {
      var pre := items[..|items| - 1];
      FirstPlainIsFirst(pre);
      assert forall k :: 0 <= k < |pre| ==> pre[k] == items[k];
    }
  }

  // ---------------------------------------------------------------------
  // Aborting the pending items

  /**
   * The aborts `_abort(err, cb)` sends while it walks the first `n` entries:
   * one to each pending entry holding an abortable, in index order, and to
   * no other entry.
   */
  function AbortsUpTo(state: seq<Status>, result: seq<JsValue>, signal: Signal, n: nat): (r: seq<CollectionEvent>)
    requires |state| == |result| && n <= |state|
    ensures |r| <= n
  {
    if n == 0 then []
    else
      var pre := AbortsUpTo(state, result, signal, n - 1);
      if state[n - 1] == Pending && Utils.IsAbortable(result[n - 1]) then pre + [AbortSent(n - 1, signal)]
      else pre
  }

  /**
   * The aborts go to the pending entries holding an abortable, each once and
   * in index order, and to no other entry.
   */
  lemma {:induction false} AbortsReachExactlyPendingAbortables(state: seq<Status>, result: seq<JsValue>, signal: Signal, n: nat)
    requires |state| == |result| && n <= |state|
    ensures var r := AbortsUpTo(state, result, signal, n);
      && (forall e :: e in r ==>
            e.AbortSent? && e.index < n && e.signal == signal && state[e.index] == Pending && Utils.IsAbortable(result[e.index]))
      && (forall i :: 0 <= i < n && state[i] == Pending && Utils.IsAbortable(result[i]) ==> AbortSent(i, signal) in r)
      && (forall a, b :: 0 <= a < b < |r| ==> r[a].index < r[b].index)
  {
    if n > 0 {
      AbortsReachExactlyPendingAbortables(state, result, signal, n - 1);
    }
  }

  // ---------------------------------------------------------------------
  // `done()` of each subclass

  /** lib/all.js `done()`: reject with the first error, otherwise resolve with the results in input order. */
  function AllDone(errored: bool, error: JsValue, result: seq<JsValue>): (r: CollectionEvent)
    ensures r.OutputRejected? <==> errored
    ensures errored ==> r.reason == error
    ensures !errored ==> r == OutputResolved(ResultsOut(result))
  {
    if errored then OutputRejected(error) else OutputResolved(ResultsOut(result))
  }

  /** lib/race.js `done()`: settle as the first report did; nothing while no item has reported. */
  function RaceDone(raceState: Status, raceResult: JsValue): (r: seq<CollectionEvent>)
    ensures raceState == Pending <==> r == []
    ensures raceState == Rejected ==> r == [OutputRejected(raceResult)]
    ensures raceState == Resolved ==> r == [OutputResolved(ValueOut(raceResult))]
  {
    match raceState
    case Rejected => [OutputRejected(raceResult)]
    case Resolved => [OutputResolved(ValueOut(raceResult))]
    case Pending => []
  }

  /** lib/collectionRace.js `done()`: reject as a first rejection did, otherwise always resolve. */
  function RaceAltDone(raceState: Status, raceResult: JsValue): (r: CollectionEvent)
    ensures r.OutputRejected? <==> raceState == Rejected
    ensures r.OutputRejected? ==> r.reason == raceResult
    ensures r.OutputResolved? ==> r.value == ValueOut(raceResult)
  {
    if raceState == Rejected then OutputRejected(raceResult) else OutputResolved(ValueOut(raceResult))
  }

  /** The `status` field of a settlement record. */
  function StatusName(r: Record): (name: string)
    ensures name == "fulfilled" || name == "rejected"
    ensures name == "fulfilled" <==> r.Fulfilled?
  {
    if r.Fulfilled? then "fulfilled" else "rejected"
  }

  /** lib/allSettled.js `done()`'s map: a record per entry, fulfilled exactly for a resolved one. */
  function SettledRecords(state: seq<Status>, result: seq<JsValue>): (r: seq<Record>)
    requires |state| == |result|
    ensures |r| == |state|
    ensures forall i :: 0 <= i < |r| ==> (r[i].Fulfilled? <==> state[i] == Resolved)
    ensures forall i :: 0 <= i < |r| ==> (if r[i].Fulfilled? then r[i].value else r[i].reason) == result[i]
  {
    if state == [] then []
    else
      var m := |state| - 1;
      SettledRecords(state[..m], result[..m])
        + [if state[m] == Resolved then Fulfilled(result[m]) else RejectedRecord(result[m])]
  }

  /** What `done()` sends to the output, by subclass. */
  function DoneEvents(variant: Variant, f: Fields): (r: seq<CollectionEvent>)
    requires |f.state| == |f.result|
    ensures |r| <= 1
    ensures variant.AllSettled? ==> r == [OutputResolved(RecordsOut(SettledRecords(f.state, f.result)))]
  {
    match variant
    case All => [AllDone(f.errored, f.error, f.result)]
    case Race => RaceDone(f.raceState, f.raceResult)
    case RaceAlt => [RaceAltDone(f.raceState, f.raceResult)]
    case AllSettled => [OutputResolved(RecordsOut(SettledRecords(f.state, f.result)))]
  }

  /** Records an allSettled run over plain values only: every one fulfilled with its value, in order. */
  lemma {:induction false} PlainItemsAllFulfilled(items: seq<JsValue>)
    requires forall i :: 0 <= i < |items| ==> !Utils.IsPromise(items[i])
    ensures SettledRecords(seq(|items|, i requires 0 <= i < |items| => RunStatus(items[i])), items)
         == seq(|items|, i requires 0 <= i < |items| => Fulfilled(items[i]))
  {
    var st := seq(|items|, i requires 0 <= i < |items| => RunStatus(items[i]));
    var r := SettledRecords(st, items);
    forall i | 0 <= i < |items| ensures r[i] == Fulfilled(items[i]) {
      assert st[i] == Resolved;
    }
  }

  // ---------------------------------------------------------------------
  // The race latch

  /** A report to a race: a value or an error. */
  datatype Report = ResolvedReport(v: JsValue) | RejectedReport(e: JsValue)

  /** The latch of lib/race.js and lib/collectionRace.js: only a report to a pending race sets it. */
  function Latch(raceState: Status, raceResult: JsValue, r: Report): (l: (Status, JsValue))
    ensures raceState != Pending ==> l == (raceState, raceResult)
    ensures raceState == Pending && r.ResolvedReport? ==> l == (Resolved, r.v)
    ensures raceState == Pending && r.RejectedReport? ==> l == (Rejected, r.e)
  {
    if raceState != Pending then (raceState, raceResult)
    else if r.ResolvedReport? then (Resolved, r.v)
    else (Rejected, r.e)
  }

  function LatchAll(raceState: Status, raceResult: JsValue, reports: seq<Report>): (l: (Status, JsValue))
  {
    if reports == [] then (raceState, raceResult)
    else
      var l1 := LatchAll(raceState, raceResult, reports[..|reports| - 1]);
      Latch(l1.0, l1.1, reports[|reports| - 1])
  }

  /** Whatever reports follow, a race is settled by the first one. */
  lemma {:induction false} FirstReportWins(raceResult: JsValue, reports: seq<Report>)
    requires reports != []
    ensures LatchAll(Pending, raceResult, reports) ==
      if reports[0].ResolvedReport? then (Resolved, reports[0].v) else (Rejected, reports[0].e)
    decreases |reports|
  {
    if |reports| > 1 {
      var pre := reports[..|reports| - 1];
      assert pre[0] == reports[0];
      FirstReportWins(raceResult, pre);
    } else {
      assert reports[..0] == [];
    }
  }

  // ---------------------------------------------------------------------
  // The state of a collection and what each step makes of it

  /** Every field of a collection. */
  datatype Fields = Fields(
    input: Iterable,
    awaitAll: bool,          // the truthiness of `options.await`
    iterated: bool,
    result: seq<JsValue>,
    state: seq<Status>,
    numPending: int,
    errored: bool,
    error: JsValue,
    raceState: Status,       // the race latch, used by the race subclasses
    raceResult: JsValue,
    errorAnnotated: bool,    // whether the first error has had `result` and `state` attached
    events: seq<CollectionEvent>)

  predicate IsRace(variant: Variant) {
    variant.Race? || variant.RaceAlt?
  }

  /**
   * The count is the number of pending entries, the collection has errored
   * exactly when an entry is rejected, and a race has latched exactly when
   * an entry has reported.
   */
  ghost predicate ValidFields(variant: Variant, f: Fields) {
    && |f.result| == |f.state|
    && f.numPending == CountPending(f.state)
    && (f.errored <==> SomeRejected(f.state))
    && (IsRace(variant) ==> (f.raceState == Pending <==> AllPending(f.state)))
    && (!IsRace(variant) ==> f.raceState == Pending)
  }

  /** No entry is pending any more. */
  predicate AllReported(state: seq<Status>) {
    forall i :: 0 <= i < |state| ==> state[i] != Pending
  }

  /** No entry has reported yet. */
  predicate AllPending(state: seq<Status>) {
    forall i :: 0 <= i < |state| ==> state[i] == Pending
  }

  ghost predicate SomeRejected(state: seq<Status>) {
    exists i :: 0 <= i < |state| && state[i] == Rejected
  }

  /** A pending entry reports: one fewer pending, a rejection is remembered, not all are pending any more. */
  lemma ReportFacts(state: seq<Status>, index: nat, s: Status)
    requires index < |state| && state[index] == Pending && s != Pending
    ensures CountPending(state[index := s]) == CountPending(state) - 1
    ensures AllReported(state[index := s]) <==> CountPending(state) == 1
    ensures SomeRejected(state[index := s]) <==> SomeRejected(state) || s == Rejected
    ensures !AllPending(state[index := s])
  {
    CountPendingUpdate(state, index, s);
    CountPendingZero(state[index := s]);
    var t := state[index := s];
    assert t[index] == s;
    if SomeRejected(state) {
      var i :| 0 <= i < |state| && state[i] == Rejected;
      assert t[i] == Rejected;
    }
    if SomeRejected(t) {
      var i :| 0 <= i < |t| && t[i] == Rejected;
      assert i == index || state[i] == Rejected;
    }
  }

  /** What the constructor leaves; a race's latch starts at `PENDING` and `null`. */
  function InitialFields(input: Iterable, awaitAll: bool): (f: Fields)
    ensures f.input == input && f.awaitAll == awaitAll && !f.iterated && !f.errored && !f.errorAnnotated
    ensures f.result == [] && f.state == [] && f.numPending == 0 && f.events == []
    ensures f.error == Utils.Undefined && f.raceState == Pending && f.raceResult == Utils.Null
    ensures forall variant :: ValidFields(variant, f)
  {
    Fields(input, awaitAll, false, [], [], 0, false, Utils.Undefined, Pending, Utils.Null, false, [])
  }

  /** A race subclass latches a report; the other subclasses ignore it. */
  function RaceLatchOf(variant: Variant, f: Fields, r: Report): (g: Fields)
    ensures g == f.(raceState := g.raceState, raceResult := g.raceResult)
    ensures IsRace(variant) ==> (g.raceState, g.raceResult) == Latch(f.raceState, f.raceResult, r)
    ensures !IsRace(variant) ==> g == f
  {
    if IsRace(variant) then
      var l := Latch(f.raceState, f.raceResult, r);
      f.(raceState := l.0, raceResult := l.1)
    else f
  }

  /** `resolvedOneSimple(res, index)`: latch, then write the entry. */
  function ResolvedOneSimpleOf(variant: Variant, f: Fields, res: JsValue, index: nat): (g: Fields)
    requires |f.state| == |f.result| && index <= |f.state|
    ensures g.state == Put(f.state, index, Resolved) && g.result == Put(f.result, index, res)
    ensures g.events == f.events && g.numPending == f.numPending && g.errored == f.errored && g.error == f.error
  {
    RaceLatchOf(variant, f, ResolvedReport(res)).(result := Put(f.result, index, res), state := Put(f.state, index, Resolved))
  }

  /**
   * `resolvedOne(res, index)`: the entry at `index` (an existing one or the
   * next) becomes resolved with `res`, the count goes down by one, and
   * `done()` follows exactly when the count reaches 0. Nothing checks that
   * the entry was pending.
   */
  function ResolvedOneOf(variant: Variant, f: Fields, res: JsValue, index: nat): (g: Fields)
    requires |f.state| == |f.result| && index <= |f.state|
    ensures g.state == Put(f.state, index, Resolved) && g.result == Put(f.result, index, res)
    ensures g.numPending == f.numPending - 1
    ensures g.input == f.input && g.awaitAll == f.awaitAll && g.iterated == f.iterated
    ensures g.errored == f.errored && g.error == f.error && g.errorAnnotated == f.errorAnnotated
    ensures IsRace(variant) ==> (g.raceState, g.raceResult) == Latch(f.raceState, f.raceResult, ResolvedReport(res))
    ensures !IsRace(variant) ==> g.raceState == f.raceState && g.raceResult == f.raceResult
    ensures g.events == f.events + (if g.numPending == 0 then DoneEvents(variant, g) else [])
  {
    var f1 := ResolvedOneSimpleOf(variant, f, res, index).(numPending := f.numPending - 1);
    f1.(events := f1.events + (if f1.numPending == 0 then DoneEvents(variant, f1) else []))
  }

  /**
   * A resolution that reaches its own pending entry, as with a per-item
   * index: the collection stays valid, and `done()` follows exactly when no
   * entry is pending any more.
   */
  lemma ResolvedAtPendingEntry(variant: Variant, f: Fields, res: JsValue, index: nat)
    requires ValidFields(variant, f) && index < |f.state| && f.state[index] == Pending
    ensures var g := ResolvedOneOf(variant, f, res, index);
      && ValidFields(variant, g)
      && g.state == f.state[index := Resolved] && g.result == f.result[index := res]
      && g.events == f.events + (if AllReported(g.state) then DoneEvents(variant, g) else [])
  {
    ReportFacts(f.state, index, Resolved);
  }

  /**
   * `rejectedOne(err, index)`: the entry at `index` becomes rejected with
   * `err`. The first rejection records the error, attaches `result` and
   * `state` to it when awaiting all (setting a property on a primitive
   * throws in strict mode, so a truthy primitive error ends the call there),
   * and aborts the pending items. Without `await` every rejection calls
   * `done()`; with it, only the one that brings the count to 0.
   */
  function RejectedOneOf(variant: Variant, f: Fields, err: JsValue, index: nat): (r: (Fields, Option<Values.Exception>))
    requires |f.state| == |f.result| && index <= |f.state|
    ensures var g := r.0;
      && g.state == Put(f.state, index, Rejected) && g.result == Put(f.result, index, err)
      && g.input == f.input && g.awaitAll == f.awaitAll && g.iterated == f.iterated
      && g.errored && g.error == (if f.errored then f.error else err)
      && (IsRace(variant) ==> (g.raceState, g.raceResult) == Latch(f.raceState, f.raceResult, RejectedReport(err)))
      && (!IsRace(variant) ==> g.raceState == f.raceState && g.raceResult == f.raceResult)
      && g.errorAnnotated == (f.errorAnnotated || (!f.errored && f.awaitAll && Utils.Truthy(err) && err.Object?))
    ensures r.1.Some? <==> !f.errored && f.awaitAll && Utils.Truthy(err) && !err.Object?
    ensures r.1.Some? ==> r.1 == Some(PrimitivePropertyError) && r.0.numPending == f.numPending && r.0.events == f.events
    ensures r.1.None? ==> r.0.numPending == f.numPending - 1
    ensures r.1.None? ==>
      r.0.events == f.events
        + (if f.errored then [] else AbortsUpTo(r.0.state, r.0.result, MemberRejection, |r.0.state|))
        + (if !f.awaitAll || r.0.numPending == 0 then DoneEvents(variant, r.0) else [])
  {
    if f.errored then (LaterRejectionOf(variant, f, err, index), None)
    else FirstRejectionOf(variant, f, err, index)
  }

  /**
   * A rejection that reaches its own pending entry, as with a per-item
   * index: unless it throws, the collection stays valid, and with `await`
   * `done()` follows exactly when no entry is pending any more.
   */
  lemma RejectedAtPendingEntry(variant: Variant, f: Fields, err: JsValue, index: nat)
    requires ValidFields(variant, f) && index < |f.state| && f.state[index] == Pending
    ensures var r := RejectedOneOf(variant, f, err, index);
      && r.0.state == f.state[index := Rejected] && r.0.result == f.result[index := err]
      && (r.1.None? ==> ValidFields(variant, r.0))
      && (r.1.None? ==>
            r.0.events == f.events
              + (if f.errored then [] else AbortsUpTo(r.0.state, r.0.result, MemberRejection, |r.0.state|))
              + (if !f.awaitAll || AllReported(r.0.state) then DoneEvents(variant, r.0) else []))
  {
    ReportFacts(f.state, index, Rejected);
    var r := RejectedOneOf(variant, f, err, index);
    if r.1.None? {
      ValidAfterRejection(variant, f, r.0, err, index);
    }
  }

  /** What a rejection of its own pending entry leaves is valid, whichever rejection it is. */
  lemma ValidAfterRejection(variant: Variant, f: Fields, g: Fields, err: JsValue, index: nat)
    requires ValidFields(variant, f) && index < |f.state| && f.state[index] == Pending
    requires g.state == f.state[index := Rejected] && g.result == f.result[index := err]
    requires g.errored && g.numPending == f.numPending - 1
    requires IsRace(variant) ==> (g.raceState, g.raceResult) == Latch(f.raceState, f.raceResult, RejectedReport(err))
    requires !IsRace(variant) ==> g.raceState == f.raceState
    ensures ValidFields(variant, g)
  {
    ReportFacts(f.state, index, Rejected);
  }

  /** A rejection after the first: the error stays, no abort is sent. */
  function LaterRejectionOf(variant: Variant, f: Fields, err: JsValue, index: nat): (g: Fields)
    requires |f.state| == |f.result| && index <= |f.state| && f.errored
    ensures g.state == Put(f.state, index, Rejected) && g.result == Put(f.result, index, err)
    ensures g.input == f.input && g.awaitAll == f.awaitAll && g.iterated == f.iterated
    ensures g.errored && g.error == f.error && g.errorAnnotated == f.errorAnnotated
    ensures IsRace(variant) ==> (g.raceState, g.raceResult) == Latch(f.raceState, f.raceResult, RejectedReport(err))
    ensures !IsRace(variant) ==> g.raceState == f.raceState && g.raceResult == f.raceResult
    ensures g.numPending == f.numPending - 1
    ensures g.events == f.events + (if !f.awaitAll || g.numPending == 0 then DoneEvents(variant, g) else [])
  {
    SettleRejectionOf(variant, RecordRejectionOf(variant, f, err, index))
  }

  /** The first rejection: record the error, annotate it, abort the pending items. */
  function FirstRejectionOf(variant: Variant, f: Fields, err: JsValue, index: nat): (r: (Fields, Option<Values.Exception>))
    requires |f.state| == |f.result| && index <= |f.state| && !f.errored
    ensures var g := r.0;
      && g.state == Put(f.state, index, Rejected) && g.result == Put(f.result, index, err)
      && g.input == f.input && g.awaitAll == f.awaitAll && g.iterated == f.iterated
      && g.errored && g.error == err
      && (IsRace(variant) ==> (g.raceState, g.raceResult) == Latch(f.raceState, f.raceResult, RejectedReport(err)))
      && (!IsRace(variant) ==> g.raceState == f.raceState && g.raceResult == f.raceResult)
      && g.errorAnnotated == (f.errorAnnotated || (f.awaitAll && Utils.Truthy(err) && err.Object?))
    ensures r.1.Some? <==> f.awaitAll && Utils.Truthy(err) && !err.Object?
    ensures r.1.Some? ==> r.1 == Some(PrimitivePropertyError) && r.0.numPending == f.numPending && r.0.events == f.events
    ensures r.1.None? ==> r.0.numPending == f.numPending - 1
    ensures r.1.None? ==>
      r.0.events == f.events
        + AbortsUpTo(r.0.state, r.0.result, MemberRejection, |r.0.state|)
        + (if !f.awaitAll || r.0.numPending == 0 then DoneEvents(variant, r.0) else [])
  {
    var f1 := RecordRejectionOf(variant, f, err, index);
    var s := FirstErrorOf(f1, err);
    if s.1.Some? then s
    else (SettleRejectionOf(variant, s.0), None)
  }

  /** The latch and the entry of `rejectedOne`. */
  function RecordRejectionOf(variant: Variant, f: Fields, err: JsValue, index: nat): (g: Fields)
    requires |f.state| == |f.result| && index <= |f.state|
    ensures g == f.(result := Put(f.result, index, err), state := Put(f.state, index, Rejected),
                    raceState := g.raceState, raceResult := g.raceResult)
    ensures IsRace(variant) ==> (g.raceState, g.raceResult) == Latch(f.raceState, f.raceResult, RejectedReport(err))
    ensures !IsRace(variant) ==> g.raceState == f.raceState && g.raceResult == f.raceResult
  {
    RaceLatchOf(variant, f, RejectedReport(err)).(result := Put(f.result, index, err), state := Put(f.state, index, Rejected))
  }

  /** The first rejection of `rejectedOne`: record the error, annotate it, abort the pending items. */
  function FirstErrorOf(f: Fields, err: JsValue): (r: (Fields, Option<Values.Exception>))
    requires |f.state| == |f.result|
    ensures r.0 == f.(errored := true, error := err, errorAnnotated := r.0.errorAnnotated, events := r.0.events)
    ensures r.0.errorAnnotated == (f.errorAnnotated || (f.awaitAll && Utils.Truthy(err) && err.Object?))
    ensures r.1.Some? <==> f.awaitAll && Utils.Truthy(err) && !err.Object?
    ensures r.1.Some? ==> r.1 == Some(PrimitivePropertyError) && r.0.events == f.events
    ensures r.1.None? ==> r.0.events == f.events + AbortsUpTo(f.state, f.result, MemberRejection, |f.state|)
  {
    var annotate := f.awaitAll && Utils.Truthy(err);
    if annotate && !err.Object? then (f.(errored := true, error := err), Some(PrimitivePropertyError))
    else
      var f2 := f.(errored := true, error := err, errorAnnotated := f.errorAnnotated || annotate);
      (f2.(events := f2.events + AbortsUpTo(f2.state, f2.result, MemberRejection, |f2.state|)), None)
  }

  /** The end of `rejectedOne`: one fewer pending, and `done()` unless awaiting others. */
  function SettleRejectionOf(variant: Variant, f: Fields): (g: Fields)
    requires |f.state| == |f.result|
    ensures g == f.(numPending := f.numPending - 1, events := g.events)
    ensures g.events == f.events + (if !f.awaitAll || f.numPending == 1 then DoneEvents(variant, g) else [])
  {
    var f3 := f.(numPending := f.numPending - 1);
    f3.(events := f3.events + (if !f3.awaitAll || f3.numPending == 0 then DoneEvents(variant, f3) else []))
  }

  /** `_abort(err, cb)`: only the events change. */
  function AbortPendingOf(f: Fields, signal: Signal): (g: Fields)
    requires |f.state| == |f.result|
    ensures g == f.(events := g.events)
    ensures g.events == f.events + AbortsUpTo(f.state, f.result, signal, |f.state|)
  {
    f.(events := f.events + AbortsUpTo(f.state, f.result, signal, |f.state|))
  }

  /** `done()` looks at the entries and the verdict fields only, not at what was sent before. */
  lemma DoneEventsFrame(variant: Variant, f: Fields, g: Fields)
    requires |f.state| == |f.result|
    requires g.state == f.state && g.result == f.result && g.errored == f.errored && g.error == f.error
    requires g.raceState == f.raceState && g.raceResult == f.raceResult
    ensures DoneEvents(variant, g) == DoneEvents(variant, f)
  {
  }

  /**
   * Once `all` has errored, every later output event is a rejection with
   * the first error, whichever entry the report writes: it rejects early and
   * stays rejected.
   */
  lemma {:induction false} AllStaysRejectedOnResolve(f: Fields, res: JsValue, index: nat)
    requires |f.state| == |f.result| && index <= |f.state| && f.errored
    ensures forall e :: e in ResolvedOneOf(All, f, res, index).events[|f.events|..] ==> e == OutputRejected(f.error)
  {
    var g := ResolvedOneOf(All, f, res, index);
    assert g.events[|f.events|..] == (if g.numPending == 0 then DoneEvents(All, g) else []);
  }

  lemma {:induction false} AllStaysRejectedOnReject(f: Fields, err: JsValue, index: nat)
    requires |f.state| == |f.result| && index <= |f.state| && f.errored
    ensures RejectedOneOf(All, f, err, index).1.None?
    ensures forall e :: e in RejectedOneOf(All, f, err, index).0.events[|f.events|..] ==> e == OutputRejected(f.error)
  {
    var h := RejectedOneOf(All, f, err, index).0;
    assert h.events[|f.events|..] == (if !f.awaitAll || h.numPending == 0 then DoneEvents(All, h) else []);
  }

  /**
   * `done()` waits for the count: a resolution that does not bring it to 0
   * sends nothing, and with `await` neither does a rejection, apart from the
   * aborts of a first one.
   */
  lemma {:induction false} AwaitWaitsOnResolve(variant: Variant, f: Fields, res: JsValue, index: nat)
    requires |f.state| == |f.result| && index <= |f.state| && f.numPending != 1
    ensures ResolvedOneOf(variant, f, res, index).events == f.events
  {
    var g := ResolvedOneOf(variant, f, res, index);
    assert g.numPending != 0;
  }

  lemma {:induction false} AwaitWaitsOnReject(variant: Variant, f: Fields, err: JsValue, index: nat)
    requires |f.state| == |f.result| && index <= |f.state| && f.awaitAll && f.numPending != 1
    ensures forall e :: e in RejectedOneOf(variant, f, err, index).0.events ==> e in f.events || e.AbortSent?
  {
    var r := RejectedOneOf(variant, f, err, index);
    if r.1.None? {
      var aborts := if f.errored then [] else AbortsUpTo(r.0.state, r.0.result, MemberRejection, |r.0.state|);
      AbortsReachExactlyPendingAbortables(r.0.state, r.0.result, MemberRejection, |r.0.state|);
      assert r.0.events == f.events + aborts;
    }
  }

  /** One turn of `run()`'s loop: subscribe to a thenable, resolve anything else at once. */
  function TakeOf(variant: Variant, f: Fields, item: JsValue, index: nat): (g: Fields)
    requires |f.state| == |f.result| == index
    ensures g.state == f.state + [RunStatus(item)] && g.result == f.result + [item]
    ensures g.numPending == f.numPending + (if Utils.IsPromise(item) then 1 else 0)
    ensures g.events == f.events + (if Utils.IsPromise(item) then [ThenCalled(index)] else [])
    ensures g.input == f.input && g.awaitAll == f.awaitAll && g.iterated == f.iterated
    ensures g.errored == f.errored && g.error == f.error && g.errorAnnotated == f.errorAnnotated
    ensures (g.raceState, g.raceResult) ==
      if IsRace(variant) && !Utils.IsPromise(item) then Latch(f.raceState, f.raceResult, ResolvedReport(item))
      else (f.raceState, f.raceResult)
  {
    if Utils.IsPromise(item) then
      f.(numPending := f.numPending + 1, state := f.state + [Pending], result := f.result + [item],
         events := f.events + [ThenCalled(index)])
    else ResolvedOneSimpleOf(variant, f, item, index)
  }

  /** `run()`'s loop over the first `n` items. */
  function WalkOf(variant: Variant, f: Fields, items: seq<JsValue>, n: nat): (g: Fields)
    requires |f.state| == |f.result| == 0 && n <= |items|
    ensures |g.state| == |g.result| == n
  {
    if n == 0 then f else TakeOf(variant, WalkOf(variant, f, items, n - 1), items[n - 1], n - 1)
  }

  /** The walk leaves an entry per item, pending exactly for a thenable, and changes no other field. */
  lemma {:induction false} WalkEntries(variant: Variant, f: Fields, items: seq<JsValue>, n: nat)
    requires |f.state| == |f.result| == 0 && n <= |items|
    ensures var g := WalkOf(variant, f, items, n);
      && g.result == items[..n]
      && (forall k :: 0 <= k < n ==> g.state[k] == RunStatus(items[k]))
      && g.input == f.input && g.awaitAll == f.awaitAll && g.iterated == f.iterated
      && g.errored == f.errored && g.error == f.error && g.errorAnnotated == f.errorAnnotated
  {
    if n > 0 {
      WalkEntries(variant, f, items, n - 1);
      assert items[..n] == items[..n - 1] + [items[n - 1]];
    }
  }

  /** The walk's count is the number of pending entries, none of them rejected. */
  lemma {:induction false} WalkCount(variant: Variant, f: Fields, items: seq<JsValue>, n: nat)
    requires |f.state| == |f.result| == 0 && f.numPending == 0 && n <= |items|
    ensures var g := WalkOf(variant, f, items, n);
      g.numPending == CountPending(g.state) && !SomeRejected(g.state)
  {
    if n > 0 {
      WalkCount(variant, f, items, n - 1);
      var g0 := WalkOf(variant, f, items, n - 1);
      CountPendingAppend(g0.state, RunStatus(items[n - 1]));
      var g := WalkOf(variant, f, items, n);
      assert g.state == g0.state + [RunStatus(items[n - 1])];
      assert !SomeRejected(g.state) by {
        forall k | 0 <= k < n ensures g.state[k] != Rejected {
          if k < n - 1 {
            assert g.state[k] == g0.state[k];
          }
        }
      }
    }
  }

  /** The walk subscribes to the thenables in order and sends nothing else. */
  lemma {:induction false} WalkEvents(variant: Variant, f: Fields, items: seq<JsValue>, n: nat)
    requires |f.state| == |f.result| == 0 && n <= |items|
    ensures WalkOf(variant, f, items, n).events == f.events + ThenCalls(items, n)
  {
    if n > 0 {
      WalkEvents(variant, f, items, n - 1);
    }
  }

  /** A race's latch after the walk holds the first plain item, if any. */
  lemma {:induction false} WalkLatch(variant: Variant, f: Fields, items: seq<JsValue>, n: nat)
    requires |f.state| == |f.result| == 0 && n <= |items|
    requires f.raceState == Pending && f.raceResult == Utils.Null
    ensures var g := WalkOf(variant, f, items, n);
      IsRace(variant) ==>
        (g.raceState, g.raceResult) == (if FirstPlain(items[..n]).Some? then (Resolved, items[FirstPlain(items[..n]).value]) else (Pending, Utils.Null))
    ensures !IsRace(variant) ==> WalkOf(variant, f, items, n).raceState == Pending
  {
    if n > 0 {
      WalkLatch(variant, f, items, n - 1);
      assert items[..n][..n - 1] == items[..n - 1];
    }
  }

  /**
   * The state `run()` leaves after walking `items`: every entry as the walk
   * records it, no failure, and the `.then` calls (with `done()` when no
   * item was a thenable).
   */
  ghost predicate RanOver(variant: Variant, items: seq<JsValue>, g: Fields) {
    && ValidFields(variant, g) && g.iterated && !g.errored
    && |g.state| == |items| && g.result == items
    && (forall i :: 0 <= i < |items| ==> g.state[i] == RunStatus(items[i]))
    && g.events == ThenCalls(items, |items|) + (if AllReported(g.state) then DoneEvents(variant, g) else [])
  }

  /**
   * `run()` from the state the constructor leaves. On something iterable it
   * makes an entry per item in input order, pending exactly for a thenable,
   * with the count of pending entries; a race has latched onto the first
   * plain item, if any; `run` subscribes to each thenable once, in order,
   * and settles the output at once exactly when no item is a thenable.
   */
  function RunOf(variant: Variant, input: Iterable, awaitAll: bool): (r: (Fields, Result<(), Values.Exception>))
    ensures ValidFields(variant, r.0)
    ensures r.0.input == input && r.0.awaitAll == awaitAll
    ensures input.NotIterable? ==> r.1 == Failure(NotIterableError) && r.0 == InitialFields(input, awaitAll)
    ensures input.Items? ==>
      var items := input.items;
      && r.1.Success? && r.0.iterated && !r.0.errored && !r.0.errorAnnotated
      && |r.0.state| == |items| && r.0.result == items
      && (forall i :: 0 <= i < |items| ==> r.0.state[i] == RunStatus(items[i]))
      && (IsRace(variant) ==>
            (r.0.raceState, r.0.raceResult) == (if FirstPlain(items).Some? then (Resolved, items[FirstPlain(items).value]) else (Pending, Utils.Null)))
      && r.0.events == ThenCalls(items, |items|) + (if AllReported(r.0.state) then DoneEvents(variant, r.0) else [])
  {
    var f := InitialFields(input, awaitAll);
    if input.NotIterable? then (f, Failure(NotIterableError))
    else
      var items := input.items;
      WalkFacts(variant, f, items);
      var g := WalkOf(variant, f, items, |items|).(iterated := true);
      RunSettles(variant, items, g);
      if g.numPending == 0 then (g.(events := g.events + DoneEvents(variant, g)), Success(()))
      else (g, Success(()))
  }

  /** The end of `run()` (lib/collection.js:61-64) on what the walk leaves: `done()` exactly when nothing is pending. */
  lemma RunSettles(variant: Variant, items: seq<JsValue>, g: Fields)
    requires ValidFields(variant, g) && !g.errored && |g.state| == |items|
    requires g.events == ThenCalls(items, |items|)
    ensures var h := if g.numPending == 0 then g.(events := g.events + DoneEvents(variant, g)) else g;
      && ValidFields(variant, h)
      && h.events == ThenCalls(items, |items|) + (if AllReported(h.state) then DoneEvents(variant, h) else [])
  {
    CountPendingZero(g.state);
    var h := g.(events := g.events + DoneEvents(variant, g));
    DoneEventsFrame(variant, g, h);
  }

  /** `run()` over a list of items leaves the state `RanOver` describes. */
  lemma RunRanOver(variant: Variant, items: seq<JsValue>, awaitAll: bool)
    ensures RanOver(variant, items, RunOf(variant, Items(items), awaitAll).0)
  {
  }

  /** What `run()`'s loop leaves after walking every item from the initial state. */
  lemma WalkFacts(variant: Variant, f: Fields, items: seq<JsValue>)
    requires f == InitialFields(f.input, f.awaitAll)
    ensures var g := WalkOf(variant, f, items, |items|);
      && ValidFields(variant, g)
      && g.result == items && |g.state| == |items|
      && (forall k :: 0 <= k < |items| ==> g.state[k] == RunStatus(items[k]))
      && g.input == f.input && g.awaitAll == f.awaitAll && !g.iterated
      && !g.errored && g.error == f.error && !g.errorAnnotated
      && g.events == ThenCalls(items, |items|)
      && (IsRace(variant) ==>
            (g.raceState, g.raceResult) == (if FirstPlain(items).Some? then (Resolved, items[FirstPlain(items).value]) else (Pending, Utils.Null)))
  {
    var g := WalkOf(variant, f, items, |items|);
    WalkEntries(variant, f, items, |items|);
    WalkCount(variant, f, items, |items|);
    WalkEvents(variant, f, items, |items|);
    WalkLatch(variant, f, items, |items|);
    assert items[..|items|] == items;
    FirstPlainIsFirst(items);
    if IsRace(variant) {
      assert g.raceState == Pending <==> AllPending(g.state);
    }
  }

  // ---------------------------------------------------------------------
  // The collection

  class Collection {
    const variant: Variant
    var input: Iterable
    var awaitAll: bool
    var iterated: bool
    var result: seq<JsValue>
    var state: seq<Status>
    var numPending: int
    var errored: bool
    var error: JsValue
    var raceState: Status
    var raceResult: JsValue
    var errorAnnotated: bool
    /** What the collection has sent to its items and its output. */
    var events: seq<CollectionEvent>

    function F(): Fields
      reads this
    {
      Fields(input, awaitAll, iterated, result, state, numPending, errored, error, raceState, raceResult, errorAnnotated, events)
    }

    ghost predicate Valid()
      reads this
    {
      ValidFields(variant, F())
    }

    /** `new Collection(iterator, options)` */
    constructor (variant: Variant, input: Iterable, awaitAll: bool)
      ensures Valid() && F() == InitialFields(input, awaitAll) && this.variant == variant
    {
      this.variant := variant;
      this.input := input;
      this.awaitAll := awaitAll;
      iterated := false;
      result := [];
      state := [];
      numPending := 0;
      errored := false;
      error := Utils.Undefined;
      raceState := Pending;
      raceResult := Utils.Null;
      errorAnnotated := false;
      events := [];
    }

    /** `done()` of this collection's subclass. */
    method Done()
      requires |state| == |result|
      modifies this
      ensures F() == old(F()).(events := old(events) + DoneEvents(variant, old(F())))
      ensures DoneEvents(variant, F()) == DoneEvents(variant, old(F()))
    {
      ghost var f0 := F();
      DoneEventsFrame(variant, f0, f0.(events := f0.events + DoneEvents(variant, f0)));
      match variant {
        case All =>
          if errored {
            events := events + [OutputRejected(error)];
            return;
          }
          events := events + [OutputResolved(ResultsOut(result))];
        case Race =>
          if raceState == Rejected {
            events := events + [OutputRejected(raceResult)];
            return;
          }
          if raceState == Resolved {
            events := events + [OutputResolved(ValueOut(raceResult))];
          }
        case RaceAlt =>
          if raceState == Rejected {
            events := events + [OutputRejected(raceResult)];
            return;
          }
          events := events + [OutputResolved(ValueOut(raceResult))];
        case AllSettled =>
          var records := SettledRecords(state, result);
          events := events + [OutputResolved(RecordsOut(records))];
      }
    }

    /** The race subclasses' latch, which their `resolvedOneSimple` and `rejectedOne` run first. */
    method LatchReport(r: Report)
      modifies this
      ensures F() == RaceLatchOf(variant, old(F()), r)
    {
      if IsRace(variant) && raceState == Pending {
        if r.ResolvedReport? {
          raceState := Resolved;
          raceResult := r.v;
        } else {
          raceState := Rejected;
          raceResult := r.e;
        }
      }
    }

    /** `resolvedOneSimple(res, index)` */
    method ResolvedOneSimple(res: JsValue, index: nat)
      requires |state| == |result| && index <= |state|
      modifies this
      ensures F() == ResolvedOneSimpleOf(variant, old(F()), res, index)
    {
      LatchReport(ResolvedReport(res));
      result := Put(result, index, res);
      state := Put(state, index, Resolved);
    }

    /**
     * `run()`: walk the input, subscribing to each thenable and resolving
     * each plain value at once, then call `done()` if nothing is pending.
     */
    method Run() returns (r: Result<(), Values.Exception>)
      requires F() == InitialFields(input, awaitAll)
      modifies this
      ensures (F(), r) == RunOf(variant, old(input), old(awaitAll))
    {
      if input.NotIterable? {
        return Failure(NotIterableError);
      }
      var items := input.items;
      Walk(items);
      iterated := true;
      if numPending == 0 {
        Done();
      }
      return Success(());
    }

    /** The loop of `run()` over the items. */
    method Walk(items: seq<JsValue>)
      requires |state| == |result| == 0
      modifies this
      ensures F() == WalkOf(variant, old(F()), items, |items|)
    {
      var index := 0;
      while index < |items|
        invariant 0 <= index <= |items|
        invariant F() == WalkOf(variant, old(F()), items, index)
      {
        Take(items[index], index);
        index := index + 1;
      }
    }

    /** One turn of `run()`'s loop. */
    method Take(item: JsValue, index: nat)
      requires |state| == |result| == index
      modifies this
      ensures F() == TakeOf(variant, old(F()), item, index)
    {
      if Utils.IsPromise(item) {
        numPending := numPending + 1;
        state := state + [Pending];
        result := result + [item];
        events := events + [ThenCalled(index)];
      } else {
        ResolvedOneSimple(item, index);
      }
    }

    /** `resolvedOne(res, index)`: an item has resolved. */
    method ResolvedOne(res: JsValue, index: nat)
      requires |state| == |result| && index <= |state|
      modifies this
      ensures F() == ResolvedOneOf(variant, old(F()), res, index)
    {
      ghost var f0 := F();
      ResolvedOneSimple(res, index);
      numPending := numPending - 1;
      ghost var f1 := F();
      assert f1 == ResolvedOneSimpleOf(variant, f0, res, index).(numPending := f0.numPending - 1);
      if numPending == 0 {
        Done();
      }
    }

    /** `rejectedOne(err, index)`: an item has rejected. */
    method RejectedOne(err: JsValue, index: nat) returns (thrown: Option<Values.Exception>)
      requires |state| == |result| && index <= |state|
      modifies this
      ensures (F(), thrown) == RejectedOneOf(variant, old(F()), err, index)
    {
      ghost var f0 := F();
      RecordRejection(err, index);
      ghost var f1 := F();
      if errored {
        SettleRejection();
        assert F() == SettleRejectionOf(variant, f1);
        return None;
      }
      thrown := FirstError(err);
      if thrown.Some? {
        return;
      }
      ghost var f2 := F();
      SettleRejection();
      assert F() == SettleRejectionOf(variant, f2);
    }

    /** The latch and the entry of `rejectedOne`. */
    method RecordRejection(err: JsValue, index: nat)
      requires |state| == |result| && index <= |state|
      modifies this
      ensures F() == RecordRejectionOf(variant, old(F()), err, index)
    {
      LatchReport(RejectedReport(err));
      result := Put(result, index, err);
      state := Put(state, index, Rejected);
    }

    /** The first rejection of `rejectedOne`. */
    method FirstError(err: JsValue) returns (thrown: Option<Values.Exception>)
      requires |state| == |result|
      modifies this
      ensures (F(), thrown) == FirstErrorOf(old(F()), err)
    {
      errored := true;
      error := err;
      if awaitAll && Utils.Truthy(err) {
        if !err.Object? {
          return Some(PrimitivePropertyError);
        }
        errorAnnotated := true;
      }
      AbortPending(MemberRejection);
      return None;
    }

    /** The end of `rejectedOne`. */
    method SettleRejection()
      requires |state| == |result|
      modifies this
      ensures F() == SettleRejectionOf(variant, old(F()))
    {
      numPending := numPending - 1;
      if !awaitAll || numPending == 0 {
        Done();
      }
    }

    /**
     * `abort(err, cb)`: the output was aborted; abort every pending item with
     * `err` and one `once` wrapper of `cb`, shared by all of them.
     */
    method Abort(err: JsValue) returns (cb: Utils.Once<bool>)
      requires |state| == |result|
      modifies this
      ensures F() == AbortPendingOf(old(F()), External(err))
      ensures fresh(cb) && cb.Valid() && !cb.called
    {
      cb := new Utils.Once<bool>();
      AbortPending(External(err));
    }

    /**
     * An external abort after which every aborted item calls back: `cb`
     * itself runs once if any item was aborted and never otherwise.
     */
    method AbortAndCallBack(err: JsValue, cbResult: bool) returns (runs: nat)
      requires |state| == |result|
      modifies this
      ensures F() == AbortPendingOf(old(F()), External(err))
      ensures runs == if AbortsUpTo(old(state), old(result), External(err), |old(state)|) == [] then 0 else 1
    {
      var cb := Abort(err);
      var sent := AbortsUpTo(state, result, External(err), |state|);
      var i := 0;
      while i < |sent|
        invariant 0 <= i <= |sent|
        invariant cb.Valid() && (cb.called <==> i > 0) && cb.runs == (if i == 0 then 0 else 1)
        invariant F() == AbortPendingOf(old(F()), External(err))
      {
        var _ := cb.Call(cbResult);
        i := i + 1;
      }
      runs := cb.runs;
    }

    /** `_abort(err, cb)`: send `_abortIndirect` to each pending entry that holds an abortable. */
    method AbortPending(signal: Signal)
      requires |state| == |result|
      modifies this
      ensures F() == AbortPendingOf(old(F()), signal)
    {
      var index := 0;
      while index < |state|
        invariant 0 <= index <= |state| && state == old(state) && result == old(result)
        invariant F() == old(F()).(events := old(events) + AbortsUpTo(state, result, signal, index))
      {
        if state[index] == Pending {
          var p := result[index];
          if Utils.IsAbortable(p) {
            events := events + [AbortSent(index, signal)];
          }
        }
        index := index + 1;
      }
    }
  }

  // ---------------------------------------------------------------------
  // The exported functions

  /** `all(iterator, options)`: an empty input resolves at once with no results. */
  method AllOfNothing(awaitAll: bool) returns (c: Collection, r: Result<(), Values.Exception>)
    ensures r.Success? && c.events == [OutputResolved(ResultsOut([]))]
  {
    c := new Collection(All, Items([]), awaitAll);
    r := c.Run();
  }

  /** `race(iterator)` on an empty input: nothing ever settles the output. */
  method RaceOfNothing(awaitAll: bool) returns (c: Collection, r: Result<(), Values.Exception>)
    ensures r.Success? && c.events == []
  {
    c := new Collection(Race, Items([]), awaitAll);
    r := c.Run();
  }

  /** The lib/collectionRace.js race on an empty input resolves with `null`. */
  method RaceAltOfNothing(awaitAll: bool) returns (c: Collection, r: Result<(), Values.Exception>)
    ensures r.Success? && c.events == [OutputResolved(ValueOut(Utils.Null))]
  {
    c := new Collection(RaceAlt, Items([]), awaitAll);
    r := c.Run();
  }

  /**
   * `allSettled(iterable)` as lib/allSettled.js writes it:
   * `new CollectionAllSettled({await: true}).run(iterable)`. lib/collection.js
   * takes the options object as the iterator and ignores `run`'s argument, so
   * `run` throws whatever the input.
   */
  method AllSettledAsWritten(iterable: seq<JsValue>) returns (c: Collection, r: Result<(), Values.Exception>)
    ensures r == Failure(NotIterableError) && !c.awaitAll && c.events == []
  {
    c := new Collection(AllSettled, NotIterable, false);
    r := c.Run();
  }

  /**
   * `allSettled(iterable)` with the arguments in the order lib/collection.js
   * takes them: `new CollectionAllSettled(iterable, {await: true}).run()`.
   * The collection awaits every item; an input of plain values resolves at
   * once with a fulfilled record for each, in order.
   */
  method AllSettledOf(iterable: seq<JsValue>) returns (c: Collection, r: Result<(), Values.Exception>)
    ensures r.Success? && c.awaitAll && c.Valid() && c.variant == AllSettled
    ensures |c.state| == |iterable| && c.result == iterable
    ensures forall i :: 0 <= i < |iterable| ==> c.state[i] == RunStatus(iterable[i])
    ensures (forall i :: 0 <= i < |iterable| ==> !Utils.IsPromise(iterable[i])) ==>
      c.events == [OutputResolved(RecordsOut(seq(|iterable|, i requires 0 <= i < |iterable| => Fulfilled(iterable[i]))))]
  {
    c := new Collection(AllSettled, Items(iterable), true);
    r := c.Run();
    if forall i :: 0 <= i < |iterable| ==> !Utils.IsPromise(iterable[i]) {
      PlainRunSettles(iterable);
    }
  }

  /** An allSettled run over plain values calls no `then` and resolves with a fulfilled record for each. */
  lemma PlainRunSettles(items: seq<JsValue>)
    requires forall i :: 0 <= i < |items| ==> !Utils.IsPromise(items[i])
    ensures RunOf(AllSettled, Items(items), true).0.events
         == [OutputResolved(RecordsOut(seq(|items|, i requires 0 <= i < |items| => Fulfilled(items[i]))))]
  {
    var f := RunOf(AllSettled, Items(items), true).0;
    var st := seq(|items|, i requires 0 <= i < |items| => RunStatus(items[i]));
    assert f.state == st && f.result == items;
    assert AllReported(f.state);
    NoThenCalls(items, |items|);
    assert f.events == DoneEvents(AllSettled, f);
    PlainItemsAllFulfilled(items);
  }
}
