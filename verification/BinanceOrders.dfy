/**
 Order tracking of the Binance trader (core/extensions/binance/src/trader_binance.cpp): orders are
 registered when inserted, reported on user-data updates and forgotten at a closing report.
 Inserts and updates are atomic steps; quantities are exact.
 */
module BinanceOrders {
  import opened Wrappers
  import opened BinanceSymbols

  /** The exchange's statuses, and any value outside them. */
  datatype ExchangeStatus = Newx | PartiallyFilled | FilledX | CanceledX | PendingCancel | Rejected | Expired | Unlisted

  datatype OrderStatus = Unknown | Submitted | Pending | Cancelled | Error | Filled | PartialFilledActive

  datatype Side = Buy | Sell

  function FromExchange(status: ExchangeStatus): OrderStatus {
    match status
    case Newx => Submitted
    case PartiallyFilled => PartialFilledActive
    case FilledX => Filled
    case CanceledX => Cancelled
    case PendingCancel => Pending
    case Rejected => Error
    case Expired => Error
    case Unlisted => Unknown
  }

  predicate Active(s: OrderStatus) {
    s.Submitted? || s.PartialFilledActive?
  }

  /** The part of an order input that reports carry on. */
  datatype Input = Input(orderId: nat, strategyId: nat, side: Side, price: real, volume: real)

  datatype Record = Record(input: Input, source: nat, insertTime: int)

  /** An order update of the user-data stream; a client id that is no number reads as 0. */
  datatype Update = Update(error: bool, clientId: Option<nat>, exchangeId: nat, symbol: string, traded: real,
                           status: ExchangeStatus, time: int)

  /** An order written to the journal of one source. */
  datatype Report = Report(source: nat, orderId: nat, strategyId: nat, exchangeId: nat, symbol: string, side: Side,
                           price: real, volume: real, volumeTraded: real, volumeLeft: real,
                           status: OrderStatus, insertTime: int, updateTime: int)

  datatype Books = Books(orderData: map<nat, Record>, reports: seq<Report>)

  datatype Event = Insert(input: Input, source: nat, now: int) | Stream(update: Update)

  function IdOf(u: Update): nat {
    if u.clientId.None? then 0 else u.clientId.value
  }

  function ReportOn(r: Record, u: Update): Report {
    Report(r.source, IdOf(u), r.input.strategyId, u.exchangeId, FromBinance(u.symbol), r.input.side,
           r.input.price, r.input.volume, u.traded, r.input.volume - u.traded,
           FromExchange(u.status), r.insertTime, u.time)
  }

  function Step(b: Books, e: Event): Books {
    match e
    case Insert(input, source, now) =>
      if input.orderId in b.orderData then b
      else b.(orderData := b.orderData[input.orderId := Record(input, source, now)])
    case Stream(u) =>
      if u.error || IdOf(u) !in b.orderData then b
      else
        var r := ReportOn(b.orderData[IdOf(u)], u);
        Books(if Active(r.status) then b.orderData else b.orderData - {IdOf(u)}, b.reports + [r])
  }

  function Run(events: seq<Event>): Books {
    if events == [] then Books(map[], []) else Step(Run(events[..|events| - 1]), events[|events| - 1])
  }

  class Trader {
    var orderData: map<nat, Record>
    var reports: seq<Report>

    constructor ()
      ensures Books(orderData, reports) == Run([])
    {
      orderData := map[];
      reports := [];
    }

    /** `emplace` keeps a record that is already there. */
    method InsertOrder(input: Input, source: nat, now: int)
      modifies this
      ensures Books(orderData, reports) == Step(old(Books(orderData, reports)), Insert(input, source, now))
    {
      if input.orderId !in orderData {
        orderData := orderData[input.orderId := Record(input, source, now)];
      }
    }

    method OnOrderUpdate(msg: Update)
      modifies this
      ensures Books(orderData, reports) == Step(old(Books(orderData, reports)), Stream(msg))
    {
      if msg.error { return; }
      var id := IdOf(msg);
      if id in orderData {
        var itr := orderData[id];
        var symbol := FromBinanceSymbol(msg.symbol);
        var status := FromExchange(msg.status);
        var order := Report(itr.source, id, itr.input.strategyId, msg.exchangeId, symbol, itr.input.side,
                            itr.input.price, itr.input.volume, msg.traded, itr.input.volume - msg.traded,
                            status, itr.insertTime, msg.time);
        reports := reports + [order];
        if status != PartialFilledActive && status != Submitted { orderData := orderData - {id}; }
      }
    }
  }

  // ---------------------------------------------------------------- every run

  predicate DistinctInserts(events: seq<Event>) {
    forall i, j :: 0 <= i < j < |events| && events[i].Insert? && events[j].Insert? ==>
      events[i].input.orderId != events[j].input.orderId
  }

  ghost predicate InsertedAs(events: seq<Event>, r: Record) {
    exists i :: 0 <= i < |events| && events[i] == Insert(r.input, r.source, r.insertTime)
  }

  ghost predicate Inserted(events: seq<Event>, id: nat) {
    exists i :: 0 <= i < |events| && events[i].Insert? && events[i].input.orderId == id
  }

  /** A report ended the order. */
  ghost predicate Closed(reports: seq<Report>, id: nat) {
    exists k :: 0 <= k < |reports| && reports[k].orderId == id && !Active(reports[k].status)
  }

  /** A report goes to the source that inserted its order, repeats what was asked for and tells one update. */
  ghost predicate Faithful(events: seq<Event>, p: Report) {
    && (exists r: Record :: InsertedAs(events, r) && Repeats(p, r))
    && (exists u: Update :: Streamed(events, u) && Tells(p, u))
  }

  ghost predicate Streamed(events: seq<Event>, u: Update) {
    exists i :: 0 <= i < |events| && events[i] == Stream(u)
  }

  /** The update is of this order: its client id reads as the order's, and one that is no number as 0. */
  predicate Names(u: Update, id: nat) {
    u.clientId == Some(id) || (u.clientId == None && id == 0)
  }

  /** The status a report gives for each of the exchange's. */
  predicate Renders(status: OrderStatus, x: ExchangeStatus) {
    && (status == Submitted <==> x == Newx) && (status == PartialFilledActive <==> x == PartiallyFilled)
    && (status == Filled <==> x == FilledX) && (status == Cancelled <==> x == CanceledX)
    && (status == Pending <==> x == PendingCancel) && (status == Unknown <==> x == Unlisted)
    && (status == Error <==> x == Rejected || x == Expired)
  }

  predicate Tells(p: Report, u: Update) {
    && !u.error && Names(u, p.orderId) && p.exchangeId == u.exchangeId && p.updateTime == u.time
    && p.symbol == FromBinance(u.symbol) && p.volumeTraded == u.traded
    && Renders(p.status, u.status)
  }

  predicate Repeats(p: Report, r: Record) {
    && p.orderId == r.input.orderId && p.source == r.source && p.insertTime == r.insertTime
    && p.strategyId == r.input.strategyId && p.side == r.input.side
    && p.price == r.input.price && p.volume == r.input.volume
    && p.volumeTraded + p.volumeLeft == p.volume
  }

  /** Reports of one order are active until at most one last that is not. */
  predicate ActiveThenClosed(reports: seq<Report>) {
    forall k, l :: 0 <= k < l < |reports| && reports[k].orderId == reports[l].orderId ==> Active(reports[k].status)
  }

  /** The tracked orders are those inserted that no report has closed. */
  ghost predicate TracksOpen(events: seq<Event>, b: Books) {
    forall id :: id in b.orderData <==> Inserted(events, id) && !Closed(b.reports, id)
  }

  ghost predicate RecordsInserted(events: seq<Event>, data: map<nat, Record>) {
    forall id :: id in data ==> data[id].input.orderId == id && InsertedAs(events, data[id])
  }

  ghost predicate AllFaithful(events: seq<Event>, reports: seq<Report>) {
    forall k :: 0 <= k < |reports| ==> Faithful(events, reports[k])
  }

  ghost predicate Sound(events: seq<Event>, b: Books) {
    && TracksOpen(events, b) && RecordsInserted(events, b.orderData)
    && AllFaithful(events, b.reports) && ActiveThenClosed(b.reports)
  }

  lemma EventsGrow(events: seq<Event>, e: Event)
    ensures forall r: Record :: InsertedAs(events, r) ==> InsertedAs(events + [e], r)
    ensures forall u: Update :: Streamed(events, u) ==> Streamed(events + [e], u)
    ensures e.Stream? ==> Streamed(events + [e], e.update)
    ensures forall p: Report :: Faithful(events, p) ==> Faithful(events + [e], p)
    ensures forall id: nat ::
              Inserted(events + [e], id) <==> Inserted(events, id) || (e.Insert? && e.input.orderId == id)
  {
    var more := events + [e];
    assert more[|events|] == e && forall i :: 0 <= i < |events| ==> more[i] == events[i];
    forall r: Record | InsertedAs(events, r) ensures InsertedAs(more, r) {
      var i :| 0 <= i < |events| && events[i] == Insert(r.input, r.source, r.insertTime);
      assert more[i] == events[i];
    }
    forall u: Update | Streamed(events, u) ensures Streamed(more, u) {
      var i :| 0 <= i < |events| && events[i] == Stream(u);
      assert more[i] == events[i];
    }
    forall id: nat ensures Inserted(more, id) <==> Inserted(events, id) || (e.Insert? && e.input.orderId == id) {
      if Inserted(events, id) {
        var i :| 0 <= i < |events| && events[i].Insert? && events[i].input.orderId == id;
        assert more[i] == events[i];
      }
    }
  }

  lemma ReportsGrow(reports: seq<Report>, r: Report, id: nat)
    ensures Closed(reports + [r], id) <==> Closed(reports, id) || (r.orderId == id && !Active(r.status))
  {
    var more := reports + [r];
    assert more[|reports|] == r;
    if Closed(reports, id) {
      var k :| 0 <= k < |reports| && reports[k].orderId == id && !Active(reports[k].status);
      assert more[k] == reports[k];
    }
  }

  lemma ReportedWasInserted(events: seq<Event>, b: Books, id: nat)
    requires Sound(events, b) && Closed(b.reports, id)
    ensures Inserted(events, id)
  {
    var k :| 0 <= k < |b.reports| && b.reports[k].orderId == id && !Active(b.reports[k].status);
    assert Faithful(events, b.reports[k]);
    var r: Record :| InsertedAs(events, r) && Repeats(b.reports[k], r);
    var i :| 0 <= i < |events| && events[i] == Insert(r.input, r.source, r.insertTime);
    assert events[i].Insert? && events[i].input.orderId == id;
  }

  lemma ReportIsFaithful(events: seq<Event>, e: Event, rec: Record)
    requires e.Stream? && !e.update.error && rec.input.orderId == IdOf(e.update) && InsertedAs(events, rec)
    ensures Faithful(events + [e], ReportOn(rec, e.update))
  {
    EventsGrow(events, e);
    var r := ReportOn(rec, e.update);
    assert InsertedAs(events + [e], rec) && Repeats(r, rec);
    assert Streamed(events + [e], e.update) && Tells(r, e.update);
  }

  lemma ReportKeepsTracking(events: seq<Event>, b: Books, e: Event)
    requires Sound(events, b) && e.Stream? && !e.update.error && IdOf(e.update) in b.orderData
    ensures TracksOpen(events + [e], Step(b, e))
    ensures ActiveThenClosed(Step(b, e).reports)
  {
    EventsGrow(events, e);
    var id, r := IdOf(e.update), ReportOn(b.orderData[IdOf(e.update)], e.update);
    assert !Closed(b.reports, id);
    forall other: nat
      ensures Closed(b.reports + [r], other) <==> Closed(b.reports, other) || (other == id && !Active(r.status))
    {
      ReportsGrow(b.reports, r, other);
    }
  }

  /** One more event takes nothing from what is known of reports and records. */
  lemma KnowledgeGrows(events: seq<Event>, e: Event, b: Books)
    requires RecordsInserted(events, b.orderData) && AllFaithful(events, b.reports)
    ensures RecordsInserted(events + [e], b.orderData) && AllFaithful(events + [e], b.reports)
  {
    EventsGrow(events, e);
  }

  lemma QuietKeepsTracking(events: seq<Event>, b: Books, e: Event)
    requires TracksOpen(events, b) && e.Stream?
    ensures TracksOpen(events + [e], b)
  {
    EventsGrow(events, e);
  }

  lemma InsertKeepsTracking(events: seq<Event>, b: Books, e: Event)
    requires TracksOpen(events, b) && e.Insert? && !Closed(b.reports, e.input.orderId)
    ensures TracksOpen(events + [e], Step(b, e))
  {
    EventsGrow(events, e);
  }

  lemma InsertKeepsRecords(events: seq<Event>, b: Books, e: Event)
    requires RecordsInserted(events, b.orderData) && e.Insert?
    ensures RecordsInserted(events + [e], Step(b, e).orderData)
  {
    EventsGrow(events, e);
    assert (events + [e])[|events|] == e;
    assert InsertedAs(events + [e], Record(e.input, e.source, e.now));
  }

  /** Over any interleaving with distinct ids the tracked orders are those inserted and not closed. */
  lemma {:induction false} RunIsSound(events: seq<Event>)
    requires DistinctInserts(events)
    ensures Sound(events, Run(events))
  {
    if events != [] {
      var n := |events| - 1;
      var before, e, b := events[..n], events[n], Run(events[..n]);
      assert events == before + [e];
      assert forall i :: 0 <= i < n ==> before[i] == events[i];
      RunIsSound(before);
      KnowledgeGrows(before, e, b);
      if e.Insert? {
        var id := e.input.orderId;
        assert !Inserted(before, id);
        if Closed(b.reports, id) { ReportedWasInserted(before, b, id); }
        InsertKeepsTracking(before, b, e);
        InsertKeepsRecords(before, b, e);
      } else if !e.update.error && IdOf(e.update) in b.orderData {
        ReportIsFaithful(before, e, b.orderData[IdOf(e.update)]);
        ReportKeepsTracking(before, b, e);
      } else {
        QuietKeepsTracking(before, b, e);
      }
    }
  }

  /** Tracking goes on exactly at a new or partially filled order: a pending cancel ends it. */
  lemma TrackingContinues(b: Books, u: Update, id: nat)
    requires !u.error && Names(u, id) && id in b.orderData
    ensures id in Step(b, Stream(u)).orderData <==> u.status.Newx? || u.status.PartiallyFilled?
  {
  }

  /** After a report that closes an order no update of it is reported, not even a fill. */
  lemma LateUpdateIsDropped(b: Books, u: Update, late: Update, id: nat)
    requires !u.error && Names(u, id) && id in b.orderData && Names(late, id)
    requires !u.status.Newx? && !u.status.PartiallyFilled?
    ensures Step(Step(b, Stream(u)), Stream(late)) == Step(b, Stream(u))
  {
  }
}
