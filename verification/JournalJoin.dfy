/** The join of the three journal streams (scripts/benchmark/analysis/summarize_latency_journal.py). */
module JournalJoin {
  import opened Wrappers
  import opened JournalMatch
  import opened StableSort

  /** `to_int(...) or 0`. */
  function SortKey(genTime: Option<int>): int {
    if genTime.None? then 0 else genTime.value
  }

  // ---------------------------------------------------------------- the matches of a join

  datatype DepthMethod = ByPriceSide | ByDepthTime | NoDepth
  datatype OrderMethod = ByOrderId | ByOrderTime | NoOrder

  /** The sorted streams of a join and its two tolerances. */
  datatype Job = Job(depths: seq<Depth>, inputs: seq<Input>, orders: seq<Order>, maxDelta: int, epsilon: real) {

    function DepthFor(i: nat, used: set<nat>): (r: (Option<nat>, DepthMethod))
      requires i < |inputs|
      ensures r.0.Some? <==> r.1 != NoDepth
      ensures r.0.Some? ==> r.0.value < |depths| && r.0.value !in used
    {
      var a := BestOfAll(PriceSideDelays(inputs[i], depths, epsilon), used);
      var b := BestOfAll(DepthDelays(inputs[i], depths, maxDelta), used);
      if a.Some? then (a, ByPriceSide) else if b.Some? then (b, ByDepthTime) else (None, NoDepth)
    }

    function OrderFor(i: nat, used: set<nat>): (r: (Option<nat>, OrderMethod))
      requires i < |inputs|
      ensures r.0.Some? <==> r.1 != NoOrder
      ensures r.0.Some? ==> r.0.value < |orders| && r.0.value !in used
    {
      var a := BestOfAll(OrderIdDelays(inputs[i], orders), used);
      var b := BestOfAll(OrderDelays(inputs[i], orders, maxDelta), used);
      if a.Some? then (a, ByOrderId) else if b.Some? then (b, ByOrderTime) else (None, NoOrder)
    }

    /** What the first `k` inputs have used. */
    function UsedDepths(k: nat): set<nat>
      requires k <= |inputs|
    {
      if k == 0 then {} else Also(UsedDepths(k - 1), DepthFor(k - 1, UsedDepths(k - 1)).0)
    }

    function UsedOrders(k: nat): set<nat>
      requires k <= |inputs|
    {
      if k == 0 then {} else Also(UsedOrders(k - 1), OrderFor(k - 1, UsedOrders(k - 1)).0)
    }

    function DepthOf(i: nat): Option<nat>
      requires i < |inputs|
    {
      DepthFor(i, UsedDepths(i)).0
    }

    function OrderOf(i: nat): Option<nat>
      requires i < |inputs|
    {
      OrderFor(i, UsedOrders(i)).0
    }

    function RowFrom(i: nat, depth: (Option<nat>, DepthMethod), order: (Option<nat>, OrderMethod)): Joined
      requires i < |inputs|
      requires depth.0.Some? ==> depth.0.value < |depths|
      requires order.0.Some? ==> order.0.value < |orders|
    {
      var depthGen := if depth.0.None? then None else depths[depth.0.value].genTime;
      var orderGen := if order.0.None? then None else orders[order.0.value].genTime;
      Joined(depth.0, depth.1, order.0, order.1,
             Difference(inputs[i].genTime, depthGen), Difference(orderGen, inputs[i].genTime),
             if orderGen.None? then Difference(inputs[i].genTime, depthGen) else Difference(orderGen, depthGen))
    }

    function Row(i: nat): Joined
      requires i < |inputs|
    {
      RowFrom(i, DepthFor(i, UsedDepths(i)), OrderFor(i, UsedOrders(i)))
    }

    function Rows(k: nat): (r: seq<Joined>)
      requires k <= |inputs|
      ensures |r| == k
    {
      seq(k, i requires 0 <= i < k => Row(i))
    }
  }

  /** One output row; a missing latency is an empty cell. */
  datatype Joined = Joined(
    depth: Option<nat>, depthMethod: DepthMethod,
    order: Option<nat>, orderMethod: OrderMethod,
    mdToOrder: Option<int>, orderReport: Option<int>, total: Option<int>)

  function Difference(a: Option<int>, b: Option<int>): Option<int> {
    if a.None? || b.None? then None else Some(a.value - b.value)
  }

  // ---------------------------------------------------------------- the join

  datatype Counts = Counts(
    depthPriceSide: nat, depthTime: nat, depthUnmatched: nat,
    orderOrderId: nat, orderTime: nat, orderUnmatched: nat)

  function CountDepths(rows: seq<Joined>, m: DepthMethod): nat {
    if rows == [] then 0 else CountDepths(rows[..|rows| - 1], m) + if rows[|rows| - 1].depthMethod == m then 1 else 0
  }

  function CountOrders(rows: seq<Joined>, m: OrderMethod): nat {
    if rows == [] then 0 else CountOrders(rows[..|rows| - 1], m) + if rows[|rows| - 1].orderMethod == m then 1 else 0
  }

  function CountsOf(rows: seq<Joined>): Counts {
    Counts(CountDepths(rows, ByPriceSide), CountDepths(rows, ByDepthTime), CountDepths(rows, NoDepth),
           CountOrders(rows, ByOrderId), CountOrders(rows, ByOrderTime), CountOrders(rows, NoOrder))
  }

  method MatchDepth(job: Job, i: nat, used: IndexSet) returns (depth: Option<nat>, how: DepthMethod)
    requires i < |job.inputs|
    modifies used
    ensures (depth, how) == job.DepthFor(i, old(used.s))
    ensures used.s == Also(old(used.s), depth)
  {
    depth := MatchDepthByPriceSide(job.inputs[i], job.depths, used, job.epsilon);
    if depth.Some? { return depth, ByPriceSide; }
    depth := MatchDepthByTime(job.inputs[i], job.depths, used, job.maxDelta);
    if depth.Some? { return depth, ByDepthTime; }
    return None, NoDepth;
  }

  method MatchOrder(job: Job, i: nat, used: IndexSet, index: IdIndex) returns (order: Option<nat>, how: OrderMethod)
    requires i < |job.inputs|
    requires Indexes(index, job.orders, {}, |job.orders|)
    modifies used
    ensures (order, how) == job.OrderFor(i, old(used.s))
    ensures used.s == Also(old(used.s), order)
  {
    order := MatchOrderById(job.inputs[i], job.orders, used, index);
    if order.Some? { return order, ByOrderId; }
    order := MatchOrderByTime(job.inputs[i], job.orders, used, job.maxDelta);
    if order.Some? { return order, ByOrderTime; }
    return None, NoOrder;
  }

  function DepthKey(d: Depth): int { SortKey(d.genTime) }
  function InputKey(i: Input): int { SortKey(i.genTime) }
  function OrderKey(o: Order): int { SortKey(o.genTime) }

  function JobOf(depths: seq<Depth>, inputs: seq<Input>, orders: seq<Order>, maxDelta: int, epsilon: real): Job {
    Job(SortByKey(depths, DepthKey), SortByKey(inputs, InputKey), SortByKey(orders, OrderKey), maxDelta, epsilon)
  }

  function Bump(c: Counts, d: DepthMethod, o: OrderMethod): Counts {
    var c' := match d
      case ByPriceSide => c.(depthPriceSide := c.depthPriceSide + 1)
      case ByDepthTime => c.(depthTime := c.depthTime + 1)
      case NoDepth => c.(depthUnmatched := c.depthUnmatched + 1);
    match o
    case ByOrderId => c'.(orderOrderId := c'.orderOrderId + 1)
    case ByOrderTime => c'.(orderTime := c'.orderTime + 1)
    case NoOrder => c'.(orderUnmatched := c'.orderUnmatched + 1)
  }

  lemma CountsNext(rows: seq<Joined>, r: Joined)
    ensures CountsOf(rows + [r]) == Bump(CountsOf(rows), r.depthMethod, r.orderMethod)
  {
    assert (rows + [r])[..|rows|] == rows;
  }

  lemma RowsNext(job: Job, i: nat)
    requires i < |job.inputs|
    ensures job.Rows(i + 1) == job.Rows(i) + [job.Row(i)]
  {
  }

  method MakeRow(job: Job, i: nat, depth: Option<nat>, depthMethod: DepthMethod,
                 order: Option<nat>, orderMethod: OrderMethod)
    returns (row: Joined)
    requires i < |job.inputs|
    requires depth.Some? ==> depth.value < |job.depths|
    requires order.Some? ==> order.value < |job.orders|
    ensures row == job.RowFrom(i, (depth, depthMethod), (order, orderMethod))
  {
    var depthGen := if depth.Some? then job.depths[depth.value].genTime else None;
    var inputGen := job.inputs[i].genTime;
    var orderGen := if order.Some? then job.orders[order.value].genTime else None;
    var mdToOrder := if depthGen.None? || inputGen.None? then None else Some(inputGen.value - depthGen.value);
    var orderReport := if inputGen.None? || orderGen.None? then None else Some(orderGen.value - inputGen.value);
    var total := if orderGen.None? then mdToOrder
                 else if depthGen.None? then None
                 else Some(orderGen.value - depthGen.value);
    row := Joined(depth, depthMethod, order, orderMethod, mdToOrder, orderReport, total);
  }

  method JoinJournal(depths: seq<Depth>, inputs: seq<Input>, orders: seq<Order>, maxDelta: int, epsilon: real)
    returns (rows: seq<Joined>, counts: Counts)
    ensures var job := JobOf(depths, inputs, orders, maxDelta, epsilon);
            rows == job.Rows(|job.inputs|) && counts == CountsOf(rows)
  {
    rows, counts := JoinSorted(JobOf(depths, inputs, orders, maxDelta, epsilon));
  }

  /** Adds the methods of one more row to the counts. */
  method Tally(counts: Counts, rows: seq<Joined>, row: Joined) returns (r: Counts)
    requires counts == CountsOf(rows)
    ensures r == CountsOf(rows + [row])
  {
    r := Bump(counts, row.depthMethod, row.orderMethod);
    CountsNext(rows, row);
  }

  /** One turn of the join. */
  method JoinOne(job: Job, i: nat, usedDepths: IndexSet, usedOrders: IndexSet, index: IdIndex) returns (row: Joined)
    requires i < |job.inputs| && usedDepths != usedOrders
    requires Indexes(index, job.orders, {}, |job.orders|)
    requires usedDepths.s == job.UsedDepths(i) && usedOrders.s == job.UsedOrders(i)
    modifies usedDepths, usedOrders
    ensures row == job.Row(i)
    ensures usedDepths.s == job.UsedDepths(i + 1) && usedOrders.s == job.UsedOrders(i + 1)
  {
    var depth, depthMethod := MatchDepth(job, i, usedDepths);
    var order, orderMethod := MatchOrder(job, i, usedOrders, index);
    row := MakeRow(job, i, depth, depthMethod, order, orderMethod);
  }

  /** One turn of the join with its row and counts. */
  method JoinNext(job: Job, i: nat, usedDepths: IndexSet, usedOrders: IndexSet, index: IdIndex,
                  rows: seq<Joined>, counts: Counts)
    returns (rows': seq<Joined>, counts': Counts)
    requires i < |job.inputs| && usedDepths != usedOrders
    requires Indexes(index, job.orders, {}, |job.orders|)
    requires usedDepths.s == job.UsedDepths(i) && usedOrders.s == job.UsedOrders(i)
    requires rows == job.Rows(i) && counts == CountsOf(rows)
    modifies usedDepths, usedOrders
    ensures usedDepths.s == job.UsedDepths(i + 1) && usedOrders.s == job.UsedOrders(i + 1)
    ensures rows' == job.Rows(i + 1) && counts' == CountsOf(rows')
  {
    var row := JoinOne(job, i, usedDepths, usedOrders, index);
    counts' := Tally(counts, rows, row);
    rows' := rows + [row];
    RowsNext(job, i);
  }

  /** The loop over the inputs, with nothing used yet. */
  method JoinAll(job: Job, usedDepths: IndexSet, usedOrders: IndexSet, index: IdIndex)
    returns (rows: seq<Joined>, counts: Counts)
    requires usedDepths != usedOrders && usedDepths.s == {} && usedOrders.s == {}
    requires Indexes(index, job.orders, {}, |job.orders|)
    modifies usedDepths, usedOrders
    ensures rows == job.Rows(|job.inputs|) && counts == CountsOf(rows)
  {
    rows, counts := [], Counts(0, 0, 0, 0, 0, 0);
    for i := 0 to |job.inputs|
      invariant usedDepths.s == job.UsedDepths(i) && usedOrders.s == job.UsedOrders(i)
      invariant rows == job.Rows(i)
      invariant counts == CountsOf(rows)
    {
      rows, counts := JoinNext(job, i, usedDepths, usedOrders, index, rows, counts);
    }
  }

  /** The join once its three streams are sorted. */
  method JoinSorted(job: Job) returns (rows: seq<Joined>, counts: Counts)
    ensures rows == job.Rows(|job.inputs|) && counts == CountsOf(rows)
  {
    var usedDepths := new IndexSet();
    var usedOrders := new IndexSet();
    var index := BuildOrderIdIndex(job.orders, usedOrders);
    rows, counts := JoinAll(job, usedDepths, usedOrders, index);
  }

  // ---------------------------------------------------------------- what every join keeps

  predicate AllTimed(job: Job) {
    && (forall d :: d in job.depths ==> d.genTime.Some?)
    && (forall i :: i in job.inputs ==> i.genTime.Some?)
    && (forall o :: o in job.orders ==> o.genTime.Some?)
  }

  /** With every time present no effect precedes its cause, and stages add up to the total. */
  lemma RowIsCausal(job: Job, i: nat)
    requires i < |job.inputs| && AllTimed(job)
    ensures var r := job.Row(i);
            r.depth.Some? ==>
              r.depth.value < |job.depths| && r.mdToOrder.Some?
              && job.depths[r.depth.value].genTime.value <= job.inputs[i].genTime.value
    ensures var r := job.Row(i);
            r.order.Some? ==>
              r.order.value < |job.orders| && r.orderReport.Some?
              && job.inputs[i].genTime.value <= job.orders[r.order.value].genTime.value
    ensures var r := job.Row(i);
            r.depth.Some? && r.order.Some? ==>
              r.total == Some(r.mdToOrder.value + r.orderReport.value)
              && r.mdToOrder.value >= 0 && r.orderReport.value >= 0
    ensures var r := job.Row(i); r.order.None? ==> r.total == r.mdToOrder
  {
    var r := job.Row(i);
    assert job.inputs[i] in job.inputs;
    if r.depth.Some? { assert job.depths[r.depth.value] in job.depths; }
    if r.order.Some? { assert job.orders[r.order.value] in job.orders; }
  }

  /**
   From the times of the rows alone: each latency, where there is one, leads from one time to the next, and
   is missing exactly where one of its ends is; without an order time the total ends at the input.
   */
  lemma LatenciesMeasure(job: Job, i: nat)
    requires i < |job.inputs|
    ensures var r, x := job.Row(i), job.inputs[i].genTime;
            var d := if r.depth.None? then None else job.depths[r.depth.value].genTime;
            var o := if r.order.None? then None else job.orders[r.order.value].genTime;
            (r.mdToOrder.Some? <==> d.Some? && x.Some?)
            && (r.mdToOrder.Some? ==> d.value + r.mdToOrder.value == x.value)
            && (r.orderReport.Some? <==> x.Some? && o.Some?)
            && (r.orderReport.Some? ==> x.value + r.orderReport.value == o.value)
            && (o.Some? ==> (r.total.Some? <==> d.Some?))
            && (o.Some? && r.total.Some? ==> d.value + r.total.value == o.value)
            && (o.None? ==> (r.total.Some? <==> d.Some? && x.Some?))
            && (o.None? && r.total.Some? ==> d.value + r.total.value == x.value)
  {
  }

  // ---------------------------------------------------------------- why a row was chosen

  /** Two attributes go together: equal, or one of them not given. */
  predicate Together(a: string, b: string) {
    a == b || a == "" || b == ""
  }

  predicate NoFurtherThan(a: Option<real>, b: Option<real>, epsilon: real) {
    a.Some? && b.Some? && a.value <= b.value + epsilon && b.value <= a.value + epsilon
  }

  /** A depth not later than the input, whose bid a buyer, or whose ask a seller, quotes. */
  predicate Quoted(x: Input, d: Depth, epsilon: real) {
    && x.genTime.Some? && d.genTime.Some? && d.genTime.value <= x.genTime.value
    && Together(x.symbol, d.symbol)
    && ((x.side == "BUY" && NoFurtherThan(x.price, d.bid, epsilon))
        || (x.side == "SELL" && NoFurtherThan(x.price, d.ask, epsilon)))
  }

  predicate RecentDepth(x: Input, d: Depth, maxDelta: int) {
    && x.genTime.Some? && d.genTime.Some?
    && d.genTime.value <= x.genTime.value <= d.genTime.value + maxDelta
    && Together(x.symbol, d.symbol)
  }

  predicate OrderOfId(x: Input, o: Order) {
    && x.orderId == o.orderId != ""
    && (x.genTime.Some? && o.genTime.Some? ==> x.genTime.value <= o.genTime.value)
  }

  predicate SoonOrder(x: Input, o: Order, maxDelta: int) {
    && x.genTime.Some? && o.genTime.Some?
    && x.genTime.value <= o.genTime.value <= x.genTime.value + maxDelta
    && Together(x.symbol, o.symbol) && Together(x.clientId, o.clientId) && Together(x.orderId, o.orderId)
  }

  /** How long after the input an order came; nothing where a time is missing. */
  function Lag(x: Input, o: Order): int {
    if x.genTime.Some? && o.genTime.Some? then o.genTime.value - x.genTime.value else 0
  }

  predicate DepthQualifies(job: Job, m: DepthMethod, x: Input, d: Depth) {
    match m
    case ByPriceSide => Quoted(x, d, job.epsilon)
    case ByDepthTime => RecentDepth(x, d, job.maxDelta)
    case NoDepth => false
  }

  predicate OrderQualifies(job: Job, m: OrderMethod, x: Input, o: Order) {
    match m
    case ByOrderId => OrderOfId(x, o)
    case ByOrderTime => SoonOrder(x, o, job.maxDelta)
    case NoOrder => false
  }

  /** Of the unused depths that qualify, `c` is the latest, and the first of those. */
  ghost predicate LatestDepth(job: Job, m: DepthMethod, x: Input, used: set<nat>, c: nat) {
    && c < |job.depths| && c !in used && DepthQualifies(job, m, x, job.depths[c])
    && forall j: nat :: j < |job.depths| && j !in used && DepthQualifies(job, m, x, job.depths[j]) ==>
         job.depths[j].genTime.value <= job.depths[c].genTime.value
         && (j < c ==> job.depths[j].genTime.value < job.depths[c].genTime.value)
  }

  /** Of the unused orders that qualify, `c` lags least, and is the first of those. */
  ghost predicate SoonestOrder(job: Job, m: OrderMethod, x: Input, used: set<nat>, c: nat) {
    && c < |job.orders| && c !in used && OrderQualifies(job, m, x, job.orders[c])
    && forall j: nat :: j < |job.orders| && j !in used && OrderQualifies(job, m, x, job.orders[j]) ==>
         Lag(x, job.orders[c]) <= Lag(x, job.orders[j])
         && (j < c ==> Lag(x, job.orders[c]) < Lag(x, job.orders[j]))
  }

  ghost predicate NoDepthLeft(job: Job, m: DepthMethod, x: Input, used: set<nat>) {
    forall j: nat :: j < |job.depths| && j !in used ==> !DepthQualifies(job, m, x, job.depths[j])
  }

  ghost predicate NoOrderLeft(job: Job, m: OrderMethod, x: Input, used: set<nat>) {
    forall j: nat :: j < |job.orders| && j !in used ==> !OrderQualifies(job, m, x, job.orders[j])
  }

  lemma PriceSideStage(job: Job, x: Input, used: set<nat>)
    ensures var b := BestOfAll(PriceSideDelays(x, job.depths, job.epsilon), used);
            if b.None? then NoDepthLeft(job, ByPriceSide, x, used)
            else LatestDepth(job, ByPriceSide, x, used, b.value)
  {
    var delays := PriceSideDelays(x, job.depths, job.epsilon);
    forall j: nat | j < |job.depths| && j !in used
      ensures Candidate(delays, used, j) <==> DepthQualifies(job, ByPriceSide, x, job.depths[j])
    {
    }
  }

  lemma DepthTimeStage(job: Job, x: Input, used: set<nat>)
    ensures var b := BestOfAll(DepthDelays(x, job.depths, job.maxDelta), used);
            if b.None? then NoDepthLeft(job, ByDepthTime, x, used)
            else LatestDepth(job, ByDepthTime, x, used, b.value)
  {
    var delays := DepthDelays(x, job.depths, job.maxDelta);
    forall j: nat | j < |job.depths| && j !in used
      ensures Candidate(delays, used, j) <==> DepthQualifies(job, ByDepthTime, x, job.depths[j])
    {
    }
  }

  lemma OrderIdStage(job: Job, x: Input, used: set<nat>)
    ensures var b := BestOfAll(OrderIdDelays(x, job.orders), used);
            if b.None? then NoOrderLeft(job, ByOrderId, x, used)
            else SoonestOrder(job, ByOrderId, x, used, b.value)
  {
    var delays := OrderIdDelays(x, job.orders);
    forall j: nat | j < |job.orders| && j !in used
      ensures Candidate(delays, used, j) <==> OrderQualifies(job, ByOrderId, x, job.orders[j])
    {
    }
  }

  lemma OrderTimeStage(job: Job, x: Input, used: set<nat>)
    ensures var b := BestOfAll(OrderDelays(x, job.orders, job.maxDelta), used);
            if b.None? then NoOrderLeft(job, ByOrderTime, x, used)
            else SoonestOrder(job, ByOrderTime, x, used, b.value)
  {
    var delays := OrderDelays(x, job.orders, job.maxDelta);
    forall j: nat | j < |job.orders| && j !in used
      ensures Candidate(delays, used, j) <==> OrderQualifies(job, ByOrderTime, x, job.orders[j])
    {
    }
  }

  /** A quoted depth comes first; then one within the bound; the latest unused is taken, or none is left. */
  lemma DepthIsJustified(job: Job, i: nat)
    requires i < |job.inputs|
    ensures var r, used, x := job.Row(i), job.UsedDepths(i), job.inputs[i];
            if r.depth.Some? then LatestDepth(job, r.depthMethod, x, used, r.depth.value)
            else NoDepthLeft(job, ByDepthTime, x, used)
    ensures var r, used, x := job.Row(i), job.UsedDepths(i), job.inputs[i];
            (r.depth.Some? <==> r.depthMethod != NoDepth)
            && (r.depthMethod != ByPriceSide ==> NoDepthLeft(job, ByPriceSide, x, used))
  {
    PriceSideStage(job, job.inputs[i], job.UsedDepths(i));
    DepthTimeStage(job, job.inputs[i], job.UsedDepths(i));
  }

  /** An order of the id comes first; then one within the bound; the soonest unused is taken, or none is left. */
  lemma OrderIsJustified(job: Job, i: nat)
    requires i < |job.inputs|
    ensures var r, used, x := job.Row(i), job.UsedOrders(i), job.inputs[i];
            if r.order.Some? then SoonestOrder(job, r.orderMethod, x, used, r.order.value)
            else NoOrderLeft(job, ByOrderTime, x, used)
    ensures var r, used, x := job.Row(i), job.UsedOrders(i), job.inputs[i];
            (r.order.Some? <==> r.orderMethod != NoOrder)
            && (r.orderMethod != ByOrderId ==> NoOrderLeft(job, ByOrderId, x, used))
  {
    OrderIdStage(job, job.inputs[i], job.UsedOrders(i));
    OrderTimeStage(job, job.inputs[i], job.UsedOrders(i));
  }

  /** The streams of a join hold the given rows by time, a missing time counting as 0. */
  lemma JobIsByTime(depths: seq<Depth>, inputs: seq<Input>, orders: seq<Order>, maxDelta: int, epsilon: real)
    ensures var job := JobOf(depths, inputs, orders, maxDelta, epsilon);
            ByTime(job.depths, (d: Depth) => d.genTime) && ByTime(job.inputs, (x: Input) => x.genTime)
            && ByTime(job.orders, (o: Order) => o.genTime)
    ensures var job := JobOf(depths, inputs, orders, maxDelta, epsilon);
            (exists p :: Places(depths, job.depths, p)) && (exists p :: Places(inputs, job.inputs, p))
            && (exists p :: Places(orders, job.orders, p))
  {
    SortIsStable(depths, DepthKey, 0);
    SortIsStable(inputs, InputKey, 0);
    SortIsStable(orders, OrderKey, 0);
    var p := SortPlaces(depths, DepthKey);
    var q := SortPlaces(inputs, InputKey);
    var r := SortPlaces(orders, OrderKey);
  }

  predicate ByTime<T>(rows: seq<T>, time: T -> Option<int>) {
    forall i, j :: 0 <= i < j < |rows| ==>
      match (time(rows[i]), time(rows[j]))
      case (Some(a), Some(b)) => a <= b
      case (Some(a), None) => a <= 0
      case (None, Some(b)) => 0 <= b
      case (None, None) => true
  }

  /** What a list of choices has taken. */
  function Taken(picks: seq<Option<nat>>): set<nat> {
    if picks == [] then {} else Also(Taken(picks[..|picks| - 1]), picks[|picks| - 1])
  }

  predicate EachNew(picks: seq<Option<nat>>) {
    forall i :: 0 <= i < |picks| && picks[i].Some? ==> picks[i].value !in Taken(picks[..i])
  }

  function CountTaken(picks: seq<Option<nat>>): nat {
    if picks == [] then 0
    else CountTaken(picks[..|picks| - 1]) + if picks[|picks| - 1].Some? then 1 else 0
  }

  lemma {:induction false} TakenMembers(picks: seq<Option<nat>>, x: nat)
    ensures x in Taken(picks) <==> Some(x) in picks
  {
    if picks != [] {
      var n := |picks| - 1;
      TakenMembers(picks[..n], x);
      assert picks == picks[..n] + [picks[n]];
    }
  }

  lemma {:induction false} NewIsOnce(picks: seq<Option<nat>>)
    requires EachNew(picks)
    ensures |Taken(picks)| == CountTaken(picks)
    ensures forall i, j :: 0 <= i < j < |picks| && picks[i].Some? ==> picks[i] != picks[j]
  {
    if picks != [] {
      var n := |picks| - 1;
      var shorter := picks[..n];
      assert forall i :: 0 <= i < n ==> shorter[i] == picks[i] && shorter[..i] == picks[..i];
      NewIsOnce(shorter);
      if picks[n].Some? { TakenMembers(shorter, picks[n].value); }
    }
  }

  /** Choices that avoid what was used, each added to it, are new each time. */
  lemma {:induction false} HistoryIsNew(picks: seq<Option<nat>>, useds: seq<set<nat>>)
    requires |useds| == |picks| + 1 && useds[0] == {}
    requires forall i :: 0 <= i < |picks| ==> useds[i + 1] == Also(useds[i], picks[i])
    requires forall i :: 0 <= i < |picks| && picks[i].Some? ==> picks[i].value !in useds[i]
    ensures EachNew(picks) && Taken(picks) == useds[|picks|]
  {
    if picks != [] {
      var n := |picks| - 1;
      HistoryIsNew(picks[..n], useds[..n + 1]);
      assert forall i :: 0 <= i < n ==> picks[..n][i] == picks[i] && picks[..n][..i] == picks[..i];
    }
  }

  function DepthColumn(rows: seq<Joined>): (r: seq<Option<nat>>)
    ensures |r| == |rows| && forall i :: 0 <= i < |r| ==> r[i] == rows[i].depth
  {
    if rows == [] then [] else DepthColumn(rows[..|rows| - 1]) + [rows[|rows| - 1].depth]
  }

  function OrderColumn(rows: seq<Joined>): (r: seq<Option<nat>>)
    ensures |r| == |rows| && forall i :: 0 <= i < |r| ==> r[i] == rows[i].order
  {
    if rows == [] then [] else OrderColumn(rows[..|rows| - 1]) + [rows[|rows| - 1].order]
  }

  lemma {:induction false} CountsFollowColumns(rows: seq<Joined>)
    requires forall i :: 0 <= i < |rows| ==> (rows[i].depth.Some? <==> rows[i].depthMethod != NoDepth)
    requires forall i :: 0 <= i < |rows| ==> (rows[i].order.Some? <==> rows[i].orderMethod != NoOrder)
    ensures var c := CountsOf(rows);
            c.depthPriceSide + c.depthTime == CountTaken(DepthColumn(rows))
            && c.depthPriceSide + c.depthTime + c.depthUnmatched == |rows|
    ensures var c := CountsOf(rows);
            c.orderOrderId + c.orderTime == CountTaken(OrderColumn(rows))
            && c.orderOrderId + c.orderTime + c.orderUnmatched == |rows|
  {
    if rows != [] {
      var n := |rows| - 1;
      CountsFollowColumns(rows[..n]);
      assert DepthColumn(rows)[..n] == DepthColumn(rows[..n]);
      assert OrderColumn(rows)[..n] == OrderColumn(rows[..n]);
    }
  }

  lemma RowParts(job: Job, i: nat)
    requires i < |job.inputs|
    ensures var r := job.Row(i);
            r.depth == job.DepthOf(i) && (r.depth.Some? <==> r.depthMethod != NoDepth)
            && job.UsedDepths(i + 1) == Also(job.UsedDepths(i), r.depth)
            && (r.depth.Some? ==> r.depth.value < |job.depths| && r.depth.value !in job.UsedDepths(i))
    ensures var r := job.Row(i);
            r.order == job.OrderOf(i) && (r.order.Some? <==> r.orderMethod != NoOrder)
            && job.UsedOrders(i + 1) == Also(job.UsedOrders(i), r.order)
            && (r.order.Some? ==> r.order.value < |job.orders| && r.order.value !in job.UsedOrders(i))
  {
  }

  function DepthHistory(job: Job, k: nat): (r: seq<set<nat>>)
    requires k <= |job.inputs|
    ensures |r| == k + 1 && forall i :: 0 <= i <= k ==> r[i] == job.UsedDepths(i)
  {
    if k == 0 then [job.UsedDepths(0)] else DepthHistory(job, k - 1) + [job.UsedDepths(k)]
  }

  function OrderHistory(job: Job, k: nat): (r: seq<set<nat>>)
    requires k <= |job.inputs|
    ensures |r| == k + 1 && forall i :: 0 <= i <= k ==> r[i] == job.UsedOrders(i)
  {
    if k == 0 then [job.UsedOrders(0)] else OrderHistory(job, k - 1) + [job.UsedOrders(k)]
  }

  lemma DepthsAreNew(job: Job, k: nat)
    requires k <= |job.inputs|
    ensures var column := DepthColumn(job.Rows(k));
            EachNew(column) && Taken(column) == job.UsedDepths(k)
  {
    var column, history := DepthColumn(job.Rows(k)), DepthHistory(job, k);
    forall i | 0 <= i < |column|
      ensures history[i + 1] == Also(history[i], column[i])
      ensures column[i].Some? ==> column[i].value !in history[i]
    {
      RowParts(job, i);
    }
    HistoryIsNew(column, history);
  }

  lemma OrdersAreNew(job: Job, k: nat)
    requires k <= |job.inputs|
    ensures var column := OrderColumn(job.Rows(k));
            EachNew(column) && Taken(column) == job.UsedOrders(k)
  {
    var column, history := OrderColumn(job.Rows(k)), OrderHistory(job, k);
    forall i | 0 <= i < |column|
      ensures history[i + 1] == Also(history[i], column[i])
      ensures column[i].Some? ==> column[i].value !in history[i]
    {
      RowParts(job, i);
    }
    HistoryIsNew(column, history);
  }

  /** No depth and no order is given to two inputs. */
  lemma UsedAtMostOnce(job: Job)
    ensures var rows := job.Rows(|job.inputs|);
            forall i, j :: 0 <= i < j < |rows| ==>
              (rows[i].depth.Some? ==> rows[i].depth != rows[j].depth)
              && (rows[i].order.Some? ==> rows[i].order != rows[j].order)
  {
    var rows := job.Rows(|job.inputs|);
    DepthsAreNew(job, |job.inputs|);
    OrdersAreNew(job, |job.inputs|);
    NewIsOnce(DepthColumn(rows));
    NewIsOnce(OrderColumn(rows));
  }

  /** What is used before an input is what the rows of the inputs before it hold. */
  lemma UsedByEarlierRows(job: Job, k: nat, c: nat)
    requires k <= |job.inputs|
    ensures c in job.UsedDepths(k) <==> Some(c) in DepthColumn(job.Rows(k))
    ensures c in job.UsedOrders(k) <==> Some(c) in OrderColumn(job.Rows(k))
  {
    DepthsAreNew(job, k);
    OrdersAreNew(job, k);
    TakenMembers(DepthColumn(job.Rows(k)), c);
    TakenMembers(OrderColumn(job.Rows(k)), c);
  }

  function DepthMethods(rows: seq<Joined>): seq<DepthMethod> {
    seq(|rows|, i requires 0 <= i < |rows| => rows[i].depthMethod)
  }

  function OrderMethods(rows: seq<Joined>): seq<OrderMethod> {
    seq(|rows|, i requires 0 <= i < |rows| => rows[i].orderMethod)
  }

  lemma {:induction false} CountIsMultiplicity(rows: seq<Joined>, d: DepthMethod, o: OrderMethod)
    ensures CountDepths(rows, d) == multiset(DepthMethods(rows))[d]
    ensures CountOrders(rows, o) == multiset(OrderMethods(rows))[o]
  {
    if rows != [] {
      var n := |rows| - 1;
      CountIsMultiplicity(rows[..n], d, o);
      assert DepthMethods(rows) == DepthMethods(rows[..n]) + [rows[n].depthMethod];
      assert OrderMethods(rows) == OrderMethods(rows[..n]) + [rows[n].orderMethod];
    }
  }

  /** Each count is the number of rows matched by its method. */
  lemma CountsAreMultiplicities(rows: seq<Joined>)
    ensures var c, ds, os := CountsOf(rows), multiset(DepthMethods(rows)), multiset(OrderMethods(rows));
            c.depthPriceSide == ds[ByPriceSide] && c.depthTime == ds[ByDepthTime] && c.depthUnmatched == ds[NoDepth]
            && c.orderOrderId == os[ByOrderId] && c.orderTime == os[ByOrderTime] && c.orderUnmatched == os[NoOrder]
  {
    CountIsMultiplicity(rows, ByPriceSide, ByOrderId);
    CountIsMultiplicity(rows, ByDepthTime, ByOrderTime);
    CountIsMultiplicity(rows, NoDepth, NoOrder);
  }

  /** Each count family adds up to the inputs, and its matches to the rows used. */
  lemma CountsBalance(job: Job)
    ensures var n := |job.inputs|;
            var c := CountsOf(job.Rows(n));
            c.depthPriceSide + c.depthTime + c.depthUnmatched == n
            && c.orderOrderId + c.orderTime + c.orderUnmatched == n
            && c.depthPriceSide + c.depthTime == |job.UsedDepths(n)|
            && c.orderOrderId + c.orderTime == |job.UsedOrders(n)|
  {
    var rows := job.Rows(|job.inputs|);
    forall i | 0 <= i < |rows|
      ensures rows[i].depth.Some? <==> rows[i].depthMethod != NoDepth
      ensures rows[i].order.Some? <==> rows[i].orderMethod != NoOrder
    {
      RowParts(job, i);
    }
    CountsFollowColumns(rows);
    DepthsAreNew(job, |job.inputs|);
    OrdersAreNew(job, |job.inputs|);
    NewIsOnce(DepthColumn(rows));
    NewIsOnce(OrderColumn(rows));
  }
}
