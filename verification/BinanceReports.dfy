/**
 Which updates of the user-data stream the Binance trader reports
 (core/extensions/binance/src/trader_binance.cpp), over any run of inserts and updates.
 */
module BinanceReports {
  import opened Wrappers
  import opened BinanceOrders

  predicate Registers(e: Event, id: nat) {
    e.Insert? && e.input.orderId == id
  }

  predicate Concerns(e: Event, id: nat) {
    e.Stream? && !e.update.error && Names(e.update, id)
  }

  /** Any status but a new or partially filled order's ends tracking. */
  predicate Closes(e: Event, id: nat) {
    Concerns(e, id) && !e.update.status.Newx? && !e.update.status.PartiallyFilled?
  }

  /** An insert at `p`, and no update before `k` that closes the order. */
  predicate Open(events: seq<Event>, id: nat, p: nat, k: nat)
    requires k <= |events|
  {
    p < k && Registers(events[p], id) && forall q :: p < q < k ==> !Closes(events[q], id)
  }

  function RecordAt(events: seq<Event>, p: nat): Record
    requires p < |events| && events[p].Insert?
  {
    Record(events[p].input, events[p].source, events[p].now)
  }

  /** `r` is the first insert from `p` on that is open before event `k`, if there is one. */
  predicate FirstOpen(events: seq<Event>, id: nat, p: nat, k: nat, r: Option<nat>)
    requires k <= |events|
  {
    && (r.Some? ==> p <= r.value && Open(events, id, r.value, k))
    && forall q :: p <= q < k && (r.None? || q < r.value) ==> !Open(events, id, q, k)
  }

  function Owner(events: seq<Event>, id: nat, p: nat, k: nat): (r: Option<nat>)
    requires k <= |events|
    ensures r.Some? ==> r.value < k && Registers(events[r.value], id)
    decreases k - p
  {
    if p >= k then None else if Open(events, id, p, k) then Some(p) else Owner(events, id, p + 1, k)
  }

  lemma {:induction false} OwnerIsFirst(events: seq<Event>, id: nat, p: nat, k: nat)
    requires k <= |events|
    ensures FirstOpen(events, id, p, k, Owner(events, id, p, k))
    decreases k - p
  {
    if p < k && !Open(events, id, p, k) { OwnerIsFirst(events, id, p + 1, k); }
  }

  lemma OpenNext(events: seq<Event>, id: nat, p: nat, k: nat)
    requires p <= k < |events|
    ensures Open(events, id, p, k + 1) <==>
            if p == k then Registers(events[k], id) else Open(events, id, p, k) && !Closes(events[k], id)
  {
  }

  lemma OwnerIs(events: seq<Event>, id: nat, k: nat, r: Option<nat>)
    requires k <= |events| && FirstOpen(events, id, 0, k, r)
    ensures Owner(events, id, 0, k) == r
  {
    OwnerIsFirst(events, id, 0, k);
    var owner := Owner(events, id, 0, k);
    if owner.Some? { assert Open(events, id, owner.value, k) && owner.value < k; }
  }

  lemma OwnerNext(events: seq<Event>, id: nat, k: nat)
    requires k < |events|
    ensures Owner(events, id, 0, k + 1) ==
            if Closes(events[k], id) then None
            else if Owner(events, id, 0, k).None? && Registers(events[k], id) then Some(k)
            else Owner(events, id, 0, k)
  {
    OwnerIsFirst(events, id, 0, k);
    var before := Owner(events, id, 0, k);
    var after := if Closes(events[k], id) then None
                 else if before.None? && Registers(events[k], id) then Some(k)
                 else before;
    if after.Some? { OpenNext(events, id, after.value, k); }
    var next := k + 1;
    forall q | 0 <= q < next && (after.None? || q < after.value) ensures !Open(events, id, q, next) {
      OpenNext(events, id, q, k);
    }
    OwnerIs(events, id, next, after);
  }

  lemma RunNext(events: seq<Event>, k: nat)
    requires k < |events|
    ensures Run(events[..k + 1]) == Step(Run(events[..k]), events[k])
  {
    assert events[..k + 1][..k] == events[..k];
  }

  /** An order is tracked exactly while an insert of it is open, by the record of the first such insert. */
  lemma {:induction false} TrackedByOwner(events: seq<Event>, id: nat, k: nat)
    requires k <= |events|
    ensures var data, owner := Run(events[..k]).orderData, Owner(events, id, 0, k);
            FirstOpen(events, id, 0, k, owner)
            && if owner.None? then id !in data else id in data && data[id] == RecordAt(events, owner.value)
  {
    OwnerIsFirst(events, id, 0, k);
    if k > 0 {
      TrackedByOwner(events, id, k - 1);
      OwnerNext(events, id, k - 1);
      RunNext(events, k - 1);
    }
  }

  /** One report for each update, in order, that finds an open insert of its order. */
  function DueReports(events: seq<Event>, k: nat): seq<Report>
    requires k <= |events|
  {
    if k == 0 then []
    else
      DueReports(events, k - 1) + DueAt(events, k - 1)
  }

  function DueAt(events: seq<Event>, k: nat): seq<Report>
    requires k < |events|
  {
    if events[k].Insert? || events[k].update.error then []
    else
      var owner := Owner(events, IdOf(events[k].update), 0, k);
      if owner.None? then [] else [ReportOn(RecordAt(events, owner.value), events[k].update)]
  }

  /** Over any events at all, the reports are those due: none is missing, none comes twice or out of order. */
  lemma {:induction false} ReportsAreDue(events: seq<Event>, k: nat)
    requires k <= |events|
    ensures Run(events[..k]).reports == DueReports(events, k)
  {
    if k > 0 {
      ReportsAreDue(events, k - 1);
      RunNext(events, k - 1);
      if events[k - 1].Stream? { TrackedByOwner(events, IdOf(events[k - 1].update), k - 1); }
    }
  }

  function ReportsOf(reports: seq<Report>, id: nat): seq<Report> {
    if reports == [] then []
    else
      ReportsOf(reports[..|reports| - 1], id) +
      if reports[|reports| - 1].orderId == id then [reports[|reports| - 1]] else []
  }

  /** The updates of an order up to and including the first that closes it. */
  function LifeReports(events: seq<Event>, r: Record, i: nat, k: nat): seq<Report>
    requires k <= |events|
    decreases k - i
  {
    if i >= k then []
    else if !Concerns(events[i], r.input.orderId) then LifeReports(events, r, i + 1, k)
    else
      [ReportOn(r, events[i].update)] +
      if Closes(events[i], r.input.orderId) then [] else LifeReports(events, r, i + 1, k)
  }

  lemma {:induction false} LifeNext(events: seq<Event>, r: Record, i: nat, k: nat)
    requires i <= k < |events|
    ensures var id := r.input.orderId;
            LifeReports(events, r, i, k + 1) == LifeReports(events, r, i, k) +
            if Concerns(events[k], id) && (forall q :: i <= q < k ==> !Closes(events[q], id))
            then [ReportOn(r, events[k].update)] else []
    decreases k - i
  {
    if i < k {
      LifeNext(events, r, i + 1, k);
    } else {
      assert LifeReports(events, r, k + 1, k + 1) == [];
    }
  }

  lemma OnlyOwner(events: seq<Event>, p: nat, k: nat)
    requires DistinctInserts(events) && p < |events| && events[p].Insert? && k <= |events|
    ensures var id := events[p].input.orderId;
            Owner(events, id, 0, k) == if Open(events, id, p, k) then Some(p) else None
  {
    var id := events[p].input.orderId;
    forall q | 0 <= q < k && Open(events, id, q, k) ensures q == p {
      assert !(q < p) && !(p < q);
    }
    OwnerIs(events, id, k, if Open(events, id, p, k) then Some(p) else None);
  }

  /** What event `k` makes due of the order inserted at `p`. */
  lemma DueOfAnOrder(events: seq<Event>, p: nat, k: nat)
    requires DistinctInserts(events) && p < |events| && events[p].Insert? && k < |events|
    ensures var id := events[p].input.orderId;
            ReportsOf(DueAt(events, k), id) ==
            if Open(events, id, p, k) && Concerns(events[k], id)
            then [ReportOn(RecordAt(events, p), events[k].update)] else []
  {
    var due := DueAt(events, k);
    OnlyOwner(events, p, k);
    if due != [] { assert due == [due[0]] && due[..0] == []; }
  }

  lemma {:induction false} ReportsOfConcat(xs: seq<Report>, ys: seq<Report>, id: nat)
    ensures ReportsOf(xs + ys, id) == ReportsOf(xs, id) + ReportsOf(ys, id)
  {
    if ys == [] {
      assert xs + ys == xs;
    } else {
      var n := |ys| - 1;
      ReportsOfConcat(xs, ys[..n], id);
      assert (xs + ys)[..|xs + ys| - 1] == xs + ys[..n];
    }
  }

  lemma ReportsOfDue(events: seq<Event>, k: nat, id: nat)
    requires k < |events|
    ensures ReportsOf(DueReports(events, k + 1), id)
         == ReportsOf(DueReports(events, k), id) + ReportsOf(DueAt(events, k), id)
  {
    ReportsOfConcat(DueReports(events, k), DueAt(events, k), id);
  }

  lemma LifeOfAnOrder(events: seq<Event>, p: nat, k: nat)
    requires p < |events| && events[p].Insert? && k < |events|
    ensures var id, r := events[p].input.orderId, RecordAt(events, p);
            LifeReports(events, r, p + 1, k + 1) == LifeReports(events, r, p + 1, k) +
            if Open(events, id, p, k) && Concerns(events[k], id) then [ReportOn(r, events[k].update)] else []
  {
    if k > p { LifeNext(events, RecordAt(events, p), p + 1, k); }
  }

  lemma DueIsLifeNext(events: seq<Event>, p: nat, k: nat)
    requires DistinctInserts(events) && p < |events| && events[p].Insert? && k < |events|
    requires DueAreLife(events, p, k)
    ensures DueAreLife(events, p, k + 1)
  {
    ReportsOfDue(events, k, events[p].input.orderId);
    DueOfAnOrder(events, p, k);
    LifeOfAnOrder(events, p, k);
  }

  predicate DueAreLife(events: seq<Event>, p: nat, k: nat)
    requires p < |events| && events[p].Insert? && k <= |events|
  {
    ReportsOf(DueReports(events, k), events[p].input.orderId) == LifeReports(events, RecordAt(events, p), p + 1, k)
  }

  lemma {:induction false} DueIsLife(events: seq<Event>, p: nat, k: nat)
    requires DistinctInserts(events) && p < |events| && events[p].Insert? && k <= |events|
    ensures DueAreLife(events, p, k)
  {
    if k > 0 {
      DueIsLife(events, p, k - 1);
      DueIsLifeNext(events, p, k - 1);
    }
  }

  /** Of each inserted order the updates after its insert are reported, each once, to the first that closes it. */
  lemma ReportsOfAnOrder(events: seq<Event>, p: nat)
    requires DistinctInserts(events) && p < |events| && events[p].Insert?
    ensures ReportsOf(Run(events).reports, events[p].input.orderId)
         == LifeReports(events, RecordAt(events, p), p + 1, |events|)
  {
    ReportsAreDue(events, |events|);
    assert events[..|events|] == events;
    DueIsLife(events, p, |events|);
  }
}
