/**
 * The reports that reach the handlers lib/collection.js:50-53 subscribes,
 * folded over a collection once `run()` has returned.
 *
 * The handlers close over the one `let index` of lib/collection.js:43, so
 * as written each passes the number of items `run()` walked, not its own
 * item's index. `IndexBinding` names both readings: the lemmas on
 * `SharedIndex` state what the code as written does, those on
 * `PerItemIndex` what a binding per iteration would do.
 */
module CollectionReports {
  import opened Wrappers
  import Values
  import Utils
  import opened Collections

  /**
   * Which `index` the `.then` handlers of lib/collection.js:51-52 pass.
   * `let index` is declared once, before the loop (lib/collection.js:43),
   * so every handler closes over that one binding, which holds the number
   * of items once `run()` has returned. With a binding per iteration each
   * handler would pass the index of its own item.
   */
  datatype IndexBinding = SharedIndex | PerItemIndex

  /** A report to the handlers of the subscription to item `sub`. */
  datatype ItemReport = ItemReport(sub: nat, report: Report)

  /** The status an entry takes from a report. */
  function ReportStatus(r: Report): (s: Status)
    ensures s != Pending
    ensures s == Resolved <==> r.ResolvedReport?
  {
    if r.ResolvedReport? then Resolved else Rejected
  }

  /** The value an entry takes from a report. */
  function ReportValue(r: Report): (v: JsValue)
    ensures r.ResolvedReport? ==> v == r.v
    ensures r.RejectedReport? ==> v == r.e
  {
    if r.ResolvedReport? then r.v else r.e
  }

  /** The index the handlers of item `sub` pass, once `run()` has walked `n` items. */
  function HandlerIndex(binding: IndexBinding, n: nat, sub: nat): (i: nat)
    ensures binding.SharedIndex? ==> i == n
    ensures binding.PerItemIndex? ==> i == sub
  {
    if binding.SharedIndex? then n else sub
  }

  predicate SubsBelow(xs: seq<ItemReport>, n: nat) {
    forall k :: 0 <= k < |xs| ==> xs[k].sub < n
  }

  predicate AllResolutions(xs: seq<ItemReport>) {
    forall k :: 0 <= k < |xs| ==> xs[k].report.ResolvedReport?
  }

  /** No two reports come from the same subscription: a promise settles once. */
  predicate DistinctSubs(xs: seq<ItemReport>) {
    forall a, b :: 0 <= a < b < |xs| ==> xs[a].sub != xs[b].sub
  }

  predicate NotReported(xs: seq<ItemReport>, s: nat) {
    forall k :: 0 <= k < |xs| ==> xs[k].sub != s
  }

  /** What holds of every report holds of all but the last. */
  lemma PrefixReports(xs: seq<ItemReport>, n: nat)
    requires xs != []
    ensures var pre := xs[..|xs| - 1];
      && (AllResolutions(xs) ==> AllResolutions(pre))
      && (DistinctSubs(xs) ==> DistinctSubs(pre))
      && (SubsBelow(xs, n) ==> SubsBelow(pre, n))
  {
    var pre := xs[..|xs| - 1];
    assert forall k :: 0 <= k < |pre| ==> pre[k] == xs[k];
  }

  /** Reports that all come from thenables never come from a plain item. */
  lemma PlainNotReported(items: seq<JsValue>, xs: seq<ItemReport>)
    requires SubsBelow(xs, |items|) && forall k :: 0 <= k < |xs| ==> Utils.IsPromise(items[xs[k].sub])
    ensures forall i :: 0 <= i < |items| && !Utils.IsPromise(items[i]) ==> NotReported(xs, i)
  {
  }

  /** A handler runs: `resolvedOne` or `rejectedOne` at the index it passes. */
  function ReportOf(variant: Variant, f: Fields, binding: IndexBinding, n: nat, x: ItemReport)
    : (r: (Fields, Option<Values.Exception>))
    requires |f.state| == |f.result| && n <= |f.state| && (binding.PerItemIndex? ==> x.sub < n)
    ensures |r.0.state| == |r.0.result| >= |f.state|
    ensures x.report.ResolvedReport? ==> r == (ResolvedOneOf(variant, f, x.report.v, HandlerIndex(binding, n, x.sub)), None)
    ensures x.report.RejectedReport? ==> r == RejectedOneOf(variant, f, x.report.e, HandlerIndex(binding, n, x.sub))
  {
    var index := HandlerIndex(binding, n, x.sub);
    match x.report
    case ResolvedReport(v) => (ResolvedOneOf(variant, f, v, index), None)
    case RejectedReport(e) => RejectedOneOf(variant, f, e, index)
  }

  /** The reports in the order their handlers run; what each handler threw. */
  function ReportsOf(variant: Variant, f: Fields, binding: IndexBinding, n: nat, xs: seq<ItemReport>)
    : (r: (Fields, seq<Option<Values.Exception>>))
    requires |f.state| == |f.result| && n <= |f.state| && (binding.PerItemIndex? ==> SubsBelow(xs, n))
    ensures |r.0.state| == |r.0.result| >= |f.state| && |r.1| == |xs|
    decreases |xs|
  {
    if xs == [] then (f, [])
    else
      var m := |xs| - 1;
      assert binding.PerItemIndex? ==> SubsBelow(xs[..m], n) && xs[m].sub < n;
      var p := ReportsOf(variant, f, binding, n, xs[..m]);
      var q := ReportOf(variant, p.0, binding, n, xs[m]);
      (q.0, p.1 + [q.1])
  }

  /** How many handlers threw. */
  function CountThrown(ts: seq<Option<Values.Exception>>): (c: nat)
    ensures c <= |ts|
  {
    if ts == [] then 0 else CountThrown(ts[..|ts| - 1]) + (if ts[|ts| - 1].Some? then 1 else 0)
  }

  /** One more report: the fold over `xs` is the fold over all but the last, then the last. */
  lemma ReportsStep(variant: Variant, f: Fields, binding: IndexBinding, n: nat, xs: seq<ItemReport>)
    requires |f.state| == |f.result| && n <= |f.state| && (binding.PerItemIndex? ==> SubsBelow(xs, n)) && xs != []
    ensures binding.PerItemIndex? ==> SubsBelow(xs[..|xs| - 1], n) && xs[|xs| - 1].sub < n
    ensures var p := ReportsOf(variant, f, binding, n, xs[..|xs| - 1]);
      var q := ReportOf(variant, p.0, binding, n, xs[|xs| - 1]);
      ReportsOf(variant, f, binding, n, xs) == (q.0, p.1 + [q.1])
  {
    assert binding.PerItemIndex? ==> SubsBelow(xs[..|xs| - 1], n);
  }

  /** One more resolution: the fold over `xs` is the fold over all but the last, then `resolvedOne`. */
  lemma ResolutionStep(variant: Variant, f: Fields, binding: IndexBinding, n: nat, xs: seq<ItemReport>)
    requires |f.state| == |f.result| && n <= |f.state| && (binding.PerItemIndex? ==> SubsBelow(xs, n)) && xs != []
    requires xs[|xs| - 1].report.ResolvedReport?
    ensures binding.PerItemIndex? ==> SubsBelow(xs[..|xs| - 1], n) && xs[|xs| - 1].sub < n
    ensures var p := ReportsOf(variant, f, binding, n, xs[..|xs| - 1]).0;
      var x := xs[|xs| - 1];
      ReportsOf(variant, f, binding, n, xs).0 == ResolvedOneOf(variant, p, x.report.v, HandlerIndex(binding, n, x.sub))
  {
    ReportsStep(variant, f, binding, n, xs);
  }

  /** What one report does to the count and the error, whatever its index. */
  lemma ReportCountStep(variant: Variant, p: Fields, binding: IndexBinding, n: nat, x: ItemReport)
    requires |p.state| == |p.result| && n <= |p.state| && (binding.PerItemIndex? ==> x.sub < n)
    ensures var q := ReportOf(variant, p, binding, n, x);
      && q.0.numPending == p.numPending - 1 + (if q.1.Some? then 1 else 0)
      && (q.1.Some? ==> !p.errored && q.0.errored)
      && (p.errored ==> q.0.errored)
      && q.0.input == p.input && q.0.awaitAll == p.awaitAll && q.0.iterated == p.iterated
  {
  }

  /**
   * Whatever the binding, every report takes one off the count except one
   * that throws, and only the first rejection can throw, so at most one does.
   */
  lemma {:induction false} ReportsCount(variant: Variant, f: Fields, binding: IndexBinding, n: nat, xs: seq<ItemReport>)
    requires |f.state| == |f.result| && n <= |f.state| && (binding.PerItemIndex? ==> SubsBelow(xs, n))
    ensures var r := ReportsOf(variant, f, binding, n, xs);
      && r.0.numPending == f.numPending - |xs| + CountThrown(r.1)
      && CountThrown(r.1) <= 1
      && (CountThrown(r.1) == 1 ==> !f.errored)
      && (f.errored ==> r.0.errored)
      && (CountThrown(r.1) == 1 ==> r.0.errored)
      && r.0.input == f.input && r.0.awaitAll == f.awaitAll && r.0.iterated == f.iterated
    decreases |xs|
  {
    if xs != [] {
      var m := |xs| - 1;
      ReportsStep(variant, f, binding, n, xs);
      ReportsCount(variant, f, binding, n, xs[..m]);
      var p := ReportsOf(variant, f, binding, n, xs[..m]);
      ReportCountStep(variant, p.0, binding, n, xs[m]);
      var q := ReportOf(variant, p.0, binding, n, xs[m]);
      assert (p.1 + [q.1])[..|p.1|] == p.1;
    }
  }

  /**
   * When every report is a resolution and the count covers them, the count
   * goes down by one per report and `done()` runs once, on the report that
   * brings it to 0; this holds for either binding.
   */
  lemma {:induction false} ResolutionsSettleOnLast(variant: Variant, f: Fields, binding: IndexBinding, n: nat, xs: seq<ItemReport>)
    requires |f.state| == |f.result| && n <= |f.state| && (binding.PerItemIndex? ==> SubsBelow(xs, n))
    requires AllResolutions(xs) && f.numPending >= |xs|
    ensures var g := ReportsOf(variant, f, binding, n, xs).0;
      && g.numPending == f.numPending - |xs| && g.errored == f.errored && g.error == f.error
      && g.events == f.events + (if xs != [] && f.numPending == |xs| then DoneEvents(variant, g) else [])
    decreases |xs|
  {
    if xs != [] {
      var m := |xs| - 1;
      var pre := xs[..m];
      PrefixReports(xs, n);
      ResolutionStep(variant, f, binding, n, xs);
      ResolutionsSettleOnLast(variant, f, binding, n, pre);
      var x := xs[m];
      SettleStep(variant, f, ReportsOf(variant, f, binding, n, pre).0, x.report.v, HandlerIndex(binding, n, x.sub), m);
    }
  }

  /** The step of `ResolutionsSettleOnLast`: one more resolution after `m` of them. */
  lemma SettleStep(variant: Variant, f: Fields, p: Fields, v: JsValue, index: nat, m: nat)
    requires |p.state| == |p.result| && index <= |p.state| && f.numPending >= m + 1
    requires p.numPending == f.numPending - m && p.errored == f.errored && p.error == f.error && p.events == f.events
    ensures var g := ResolvedOneOf(variant, p, v, index);
      && g.numPending == f.numPending - (m + 1) && g.errored == f.errored && g.error == f.error
      && g.events == f.events + (if f.numPending == m + 1 then DoneEvents(variant, g) else [])
  {
  }

  /**
   * As written (`SharedIndex`): whatever reports arrive, the entries `run()`
   * made stay as it left them, and a thenable's entry stays `PENDING` with
   * the thenable as its result; every report writes the one entry after
   * them, which holds the last report.
   */
  lemma {:induction false} SharedKeepsItems(variant: Variant, f: Fields, n: nat, xs: seq<ItemReport>)
    requires |f.state| == |f.result| == n
    ensures var g := ReportsOf(variant, f, SharedIndex, n, xs).0;
      && |g.state| == n + (if xs == [] then 0 else 1)
      && g.state[..n] == f.state && g.result[..n] == f.result
      && (xs != [] ==> g.state[n] == ReportStatus(xs[|xs| - 1].report) && g.result[n] == ReportValue(xs[|xs| - 1].report))
    decreases |xs|
  {
    if xs != [] {
      var m := |xs| - 1;
      SharedKeepsItems(variant, f, n, xs[..m]);
      var p := ReportsOf(variant, f, SharedIndex, n, xs[..m]).0;
      var g := ReportOf(variant, p, SharedIndex, n, xs[m]).0;
      assert ReportsOf(variant, f, SharedIndex, n, xs).0 == g;
      var st := ReportStatus(xs[m].report);
      var v := ReportValue(xs[m].report);
      assert g.state == Put(p.state, n, st) && g.result == Put(p.result, n, v);
      assert g.state[..n] == p.state[..n];
      assert g.result[..n] == p.result[..n];
    }
  }

  /** After the walk, the count of pending entries is the count of thenables. */
  lemma {:induction false} CountPendingRun(items: seq<JsValue>, state: seq<Status>)
    requires |state| == |items| && forall i :: 0 <= i < |items| ==> state[i] == RunStatus(items[i])
    ensures CountPending(state) == CountThenables(items)
    decreases |items|
  {
    if items != [] {
      var m := |items| - 1;
      CountPendingRun(items[..m], state[..m]);
    }
  }

  /**
   * As written, from a valid `all` collection of `n` entries that has not
   * failed, as many resolutions as the count: the output resolves once, with
   * the entries as they were followed by the value of the last resolution.
   */
  lemma SharedAllSettles(f: Fields, n: nat, xs: seq<ItemReport>)
    requires ValidFields(All, f) && |f.state| == n && !f.errored
    requires AllResolutions(xs) && |xs| == f.numPending && xs != []
    ensures ReportsOf(All, f, SharedIndex, n, xs).0.events
      == f.events + [OutputResolved(ResultsOut(f.result + [xs[|xs| - 1].report.v]))]
  {
    ResolutionsSettleOnLast(All, f, SharedIndex, n, xs);
    SharedKeepsItems(All, f, n, xs);
    var h := ReportsOf(All, f, SharedIndex, n, xs).0;
    assert h.result == f.result + [xs[|xs| - 1].report.v];
  }

  /**
   * As written, `all` over items of which some are thenables, once each
   * thenable has resolved after `run()`: the output resolves once, with the
   * items themselves (the thenables, not their values) followed by the value
   * of the last resolution.
   */
  lemma SharedAllResolvesWithLastValue(items: seq<JsValue>, g: Fields, xs: seq<ItemReport>)
    requires RanOver(All, items, g)
    requires AllResolutions(xs) && |xs| == CountThenables(items) && xs != []
    ensures ReportsOf(All, g, SharedIndex, |items|, xs).0.events
      == ThenCalls(items, |items|) + [OutputResolved(ResultsOut(items + [xs[|xs| - 1].report.v]))]
  {
    CountPendingRun(items, g.state);
    CountPendingZero(g.state);
    SharedAllSettles(g, |items|, xs);
  }

  /**
   * As written, once `run()` has returned and any reports have arrived, a
   * thenable's entry is still `PENDING`: `allSettled` records it as rejected
   * with the thenable as its reason, and an abort still reaches it when it
   * is abortable, even after it has settled.
   */
  lemma SharedStaleEntries(variant: Variant, items: seq<JsValue>, g: Fields, xs: seq<ItemReport>, signal: Signal, i: nat)
    requires RanOver(variant, items, g) && i < |items| && Utils.IsPromise(items[i])
    ensures var h := ReportsOf(variant, g, SharedIndex, |items|, xs).0;
      && h.state[i] == Pending && h.result[i] == items[i]
      && SettledRecords(h.state, h.result)[i] == RejectedRecord(items[i])
      && (Utils.IsAbortable(items[i]) ==> AbortSent(i, signal) in AbortPendingOf(h, signal).events)
  {
    var n := |items|;
    SharedKeepsItems(variant, g, n, xs);
    var h := ReportsOf(variant, g, SharedIndex, n, xs).0;
    assert h.state[i] == h.state[..n][i] && h.result[i] == h.result[..n][i];
    AbortsReachExactlyPendingAbortables(h.state, h.result, signal, |h.state|);
  }

  /** The entries after one more per-item resolution, as sequences. */
  lemma PerItemEntriesStep(fs: seq<Status>, fr: seq<JsValue>, ps: seq<Status>, pr: seq<JsValue>, xs: seq<ItemReport>)
    requires |fs| == |fr| == |ps| == |pr| && xs != [] && SubsBelow(xs, |fs|) && DistinctSubs(xs)
    requires var pre := xs[..|xs| - 1];
      && (forall k :: 0 <= k < |pre| ==> ps[pre[k].sub] == Resolved && pr[pre[k].sub] == ReportValue(pre[k].report))
      && (forall s :: 0 <= s < |fs| && NotReported(pre, s) ==> ps[s] == fs[s] && pr[s] == fr[s])
    ensures NotReported(xs[..|xs| - 1], xs[|xs| - 1].sub)
    ensures var x := xs[|xs| - 1];
      var gs := ps[x.sub := Resolved];
      var gr := pr[x.sub := ReportValue(x.report)];
      && (forall k :: 0 <= k < |xs| ==> gs[xs[k].sub] == Resolved && gr[xs[k].sub] == ReportValue(xs[k].report))
      && (forall s :: 0 <= s < |fs| && NotReported(xs, s) ==> gs[s] == fs[s] && gr[s] == fr[s])
  {
    var m := |xs| - 1;
    var pre := xs[..m];
    assert forall k :: 0 <= k < m ==> pre[k] == xs[k];
    forall s | 0 <= s < |fs| && NotReported(xs, s) ensures NotReported(pre, s) {
    }
  }

  /**
   * With a per-item index, resolutions from distinct subscriptions to
   * pending entries: each resolves its own entry with its value, the other
   * entries stay, and the collection stays valid.
   */
  lemma {:induction false} PerItemResolutions(variant: Variant, f: Fields, n: nat, xs: seq<ItemReport>)
    requires ValidFields(variant, f) && |f.state| == n
    requires AllResolutions(xs) && SubsBelow(xs, n) && DistinctSubs(xs)
    requires forall k :: 0 <= k < |xs| ==> f.state[xs[k].sub] == Pending
    ensures var g := ReportsOf(variant, f, PerItemIndex, n, xs).0;
      && ValidFields(variant, g) && |g.state| == n
      && (forall k :: 0 <= k < |xs| ==> g.state[xs[k].sub] == Resolved && g.result[xs[k].sub] == ReportValue(xs[k].report))
      && (forall s :: 0 <= s < n && NotReported(xs, s) ==> g.state[s] == f.state[s] && g.result[s] == f.result[s])
    decreases |xs|
  {
    if xs != [] {
      var m := |xs| - 1;
      var pre := xs[..m];
      ResolutionStep(variant, f, PerItemIndex, n, xs);
      PrefixReports(xs, n);
      PerItemResolutions(variant, f, n, pre);
      PerItemStep(variant, f, ReportsOf(variant, f, PerItemIndex, n, pre).0, n, xs);
    }
  }

  /** The step of `PerItemResolutions`: one more per-item resolution, after the others. */
  lemma PerItemStep(variant: Variant, f: Fields, p: Fields, n: nat, xs: seq<ItemReport>)
    requires |f.state| == |f.result| == n && ValidFields(variant, p) && |p.state| == n
    requires xs != [] && SubsBelow(xs, n) && DistinctSubs(xs) && xs[|xs| - 1].report.ResolvedReport?
    requires f.state[xs[|xs| - 1].sub] == Pending
    requires var pre := xs[..|xs| - 1];
      && (forall k :: 0 <= k < |pre| ==> p.state[pre[k].sub] == Resolved && p.result[pre[k].sub] == ReportValue(pre[k].report))
      && (forall s :: 0 <= s < n && NotReported(pre, s) ==> p.state[s] == f.state[s] && p.result[s] == f.result[s])
    ensures var x := xs[|xs| - 1];
      var g := ResolvedOneOf(variant, p, x.report.v, x.sub);
      && ValidFields(variant, g) && |g.state| == n
      && (forall k :: 0 <= k < |xs| ==> g.state[xs[k].sub] == Resolved && g.result[xs[k].sub] == ReportValue(xs[k].report))
      && (forall s :: 0 <= s < n && NotReported(xs, s) ==> g.state[s] == f.state[s] && g.result[s] == f.result[s])
  {
    PerItemEntriesStep(f.state, f.result, p.state, p.result, xs);
    var x := xs[|xs| - 1];
    assert p.state[x.sub] == Pending;
    ResolvedAtPendingEntry(variant, p, x.report.v, x.sub);
  }

  /**
   * With a per-item index, from a valid `all` collection that has not
   * failed, resolutions of distinct pending entries as many as the count:
   * every entry ends resolved, and the output resolves on the last report,
   * with the result entries.
   */
  lemma PerItemAllSettles(f: Fields, n: nat, xs: seq<ItemReport>)
    requires ValidFields(All, f) && |f.state| == n && !f.errored
    requires AllResolutions(xs) && SubsBelow(xs, n) && DistinctSubs(xs) && |xs| == f.numPending
    requires forall k :: 0 <= k < |xs| ==> f.state[xs[k].sub] == Pending
    ensures var h := ReportsOf(All, f, PerItemIndex, n, xs).0;
      && h.events == f.events + (if xs != [] then [OutputResolved(ResultsOut(h.result))] else [])
      && |h.result| == n
      && (forall i :: 0 <= i < n ==> h.state[i] == Resolved)
      && (forall k :: 0 <= k < |xs| ==> h.result[xs[k].sub] == ReportValue(xs[k].report))
      && (forall s :: 0 <= s < n && NotReported(xs, s) ==> h.result[s] == f.result[s])
  {
    PerItemResolutions(All, f, n, xs);
    ResolutionsSettleOnLast(All, f, PerItemIndex, n, xs);
    var h := ReportsOf(All, f, PerItemIndex, n, xs).0;
    CountPendingZero(h.state);
    assert !SomeRejected(h.state);
  }

  /**
   * With a per-item index, `all` once each thenable has resolved exactly
   * once after `run()`: the output resolves once, with every thenable's
   * value at its place and every other item as it is, in input order.
   */
  lemma PerItemAllResolves(items: seq<JsValue>, g: Fields, xs: seq<ItemReport>)
    requires RanOver(All, items, g)
    requires AllResolutions(xs) && SubsBelow(xs, |items|) && DistinctSubs(xs)
    requires (forall k :: 0 <= k < |xs| ==> Utils.IsPromise(items[xs[k].sub])) && |xs| == CountThenables(items)
    ensures var h := ReportsOf(All, g, PerItemIndex, |items|, xs).0;
      && h.events == ThenCalls(items, |items|) + [OutputResolved(ResultsOut(h.result))]
      && |h.result| == |items|
      && (forall k :: 0 <= k < |xs| ==> h.result[xs[k].sub] == xs[k].report.v)
      && (forall i :: 0 <= i < |items| && !Utils.IsPromise(items[i]) ==> h.result[i] == items[i])
      && (forall i :: 0 <= i < |items| ==> h.state[i] == Resolved)
  {
    var n := |items|;
    CountPendingRun(items, g.state);
    CountPendingZero(g.state);
    PerItemAllSettles(g, n, xs);
    PlainNotReported(items, xs);
  }
}
