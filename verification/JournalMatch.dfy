/**
 Matching of journal rows (scripts/benchmark/analysis/summarize_latency_journal.py):
 each matcher scans a list for the first unused row of least delay.
 */
module JournalMatch {
  import opened Wrappers

  datatype Depth = Depth(genTime: Option<int>, symbol: string, bid: Option<real>, ask: Option<real>)

  datatype Input = Input(genTime: Option<int>, symbol: string, side: string, price: Option<real>,
                         orderId: string, clientId: string)

  datatype Order = Order(genTime: Option<int>, symbol: string, orderId: string, clientId: string)

  // ---------------------------------------------------------------- field tests

  /** Two attributes clash when both are given and they differ. */
  predicate Clash(a: string, b: string) {
    a != "" && b != "" && a != b
  }

  function PriceForSide(depth: Depth, side: string): Option<real> {
    if side == "BUY" then depth.bid else if side == "SELL" then depth.ask else None
  }

  predicate SamePrice(left: Option<real>, right: Option<real>, epsilon: real) {
    left.Some? && right.Some? && -epsilon <= left.value - right.value <= epsilon
  }

  // ---------------------------------------------------------------- delays of the candidates

  /** Delay from a depth to an input by price and side, or None when the row is skipped. */
  function PriceSideDelay(input: Input, depth: Depth, epsilon: real): Option<int> {
    if input.genTime.None? || input.side == "" then None
    else if depth.genTime.None? || depth.genTime.value > input.genTime.value then None
    else if Clash(input.symbol, depth.symbol) then None
    else if !SamePrice(input.price, PriceForSide(depth, input.side), epsilon) then None
    else Some(input.genTime.value - depth.genTime.value)
  }

  function DepthDelay(input: Input, depth: Depth, maxDelta: int): Option<int> {
    if input.genTime.None? || depth.genTime.None? || depth.genTime.value > input.genTime.value then None
    else if Clash(input.symbol, depth.symbol) then None
    else if input.genTime.value - depth.genTime.value > maxDelta then None
    else Some(input.genTime.value - depth.genTime.value)
  }

  /** Delay from an input to an order of the same id; a missing time counts as no delay. */
  function OrderIdDelay(input: Input, order: Order): Option<int> {
    if input.orderId == "" || order.orderId != input.orderId then None
    else if input.genTime.None? || order.genTime.None? then Some(0)
    else if order.genTime.value < input.genTime.value then None
    else Some(order.genTime.value - input.genTime.value)
  }

  function OrderDelay(input: Input, order: Order, maxDelta: int): Option<int> {
    if input.genTime.None? || order.genTime.None? || order.genTime.value < input.genTime.value then None
    else if Clash(input.orderId, order.orderId) || Clash(input.clientId, order.clientId) then None
    else if Clash(input.symbol, order.symbol) then None
    else if order.genTime.value - input.genTime.value > maxDelta then None
    else Some(order.genTime.value - input.genTime.value)
  }

  function PriceSideDelays(input: Input, depths: seq<Depth>, epsilon: real): (r: seq<Option<int>>)
    ensures |r| == |depths|
  {
    seq(|depths|, i requires 0 <= i < |depths| => PriceSideDelay(input, depths[i], epsilon))
  }

  function DepthDelays(input: Input, depths: seq<Depth>, maxDelta: int): (r: seq<Option<int>>)
    ensures |r| == |depths|
  {
    seq(|depths|, i requires 0 <= i < |depths| => DepthDelay(input, depths[i], maxDelta))
  }

  function OrderIdDelays(input: Input, orders: seq<Order>): (r: seq<Option<int>>)
    ensures |r| == |orders|
  {
    seq(|orders|, i requires 0 <= i < |orders| => OrderIdDelay(input, orders[i]))
  }

  function OrderDelays(input: Input, orders: seq<Order>, maxDelta: int): (r: seq<Option<int>>)
    ensures |r| == |orders|
  {
    seq(|orders|, i requires 0 <= i < |orders| => OrderDelay(input, orders[i], maxDelta))
  }

  // ---------------------------------------------------------------- the first of least delay

  /** `i` may be chosen: unused and not skipped. */
  predicate Candidate(delays: seq<Option<int>>, used: set<nat>, i: nat) {
    i < |delays| && i !in used && delays[i].Some?
  }

  /** One turn of a scan: `p` replaces the best so far only by a smaller delay. */
  function Challenge(delays: seq<Option<int>>, used: set<nat>, b: Option<nat>, p: nat): Option<nat>
    requires p < |delays|
    requires b.Some? ==> Candidate(delays, used, b.value)
  {
    if p in used || delays[p].None? then b
    else if b.None? || delays[p].value < delays[b.value].value then Some(p)
    else b
  }

  /** The first candidate below `k` that no other candidate below `k` undercuts. */
  function Best(delays: seq<Option<int>>, used: set<nat>, k: nat): (r: Option<nat>)
    requires k <= |delays|
    ensures r.None? ==> forall j :: 0 <= j < k ==> !Candidate(delays, used, j)
    ensures r.Some? ==> r.value < k && Candidate(delays, used, r.value)
    ensures r.Some? ==>
              forall j :: 0 <= j < r.value && Candidate(delays, used, j) ==> delays[r.value].value < delays[j].value
    ensures r.Some? ==>
              forall j :: r.value <= j < k && Candidate(delays, used, j) ==> delays[r.value].value <= delays[j].value
  {
    if k == 0 then None
    else
      Challenge(delays, used, Best(delays, used, k - 1), k - 1)
  }

  function BestOfAll(delays: seq<Option<int>>, used: set<nat>): Option<nat> {
    Best(delays, used, |delays|)
  }

  function Also(used: set<nat>, r: Option<nat>): set<nat> {
    if r.None? then used else used + {r.value}
  }

  // ---------------------------------------------------------------- the matchers

  /** A `used` set, shared between the calls that add to it. */
  class IndexSet {
    var s: set<nat>

    constructor ()
      ensures s == {}
    {
      s := {};
    }
  }

  /** Returns the index of the best row instead of the row itself. */
  method MatchDepthByPriceSide(input: Input, depths: seq<Depth>, used: IndexSet, epsilon: real)
    returns (best: Option<nat>)
    modifies used
    ensures best == BestOfAll(PriceSideDelays(input, depths, epsilon), old(used.s))
    ensures used.s == Also(old(used.s), best)
  {
    best := None;
    ghost var delays := PriceSideDelays(input, depths, epsilon);
    if input.genTime.None? || input.side == "" { return; }
    var bestDelta := 0;
    for idx := 0 to |depths|
      invariant used.s == old(used.s)
      invariant best == Best(delays, used.s, idx)
      invariant best.Some? ==> Some(bestDelta) == delays[best.value]
    {
      if idx in used.s { continue; }
      var depth := depths[idx];
      if depth.genTime.None? || depth.genTime.value > input.genTime.value { continue; }
      if input.symbol != "" && depth.symbol != "" && input.symbol != depth.symbol { continue; }
      if !SamePrice(input.price, PriceForSide(depth, input.side), epsilon) { continue; }
      var delta := input.genTime.value - depth.genTime.value;
      if best.None? || delta < bestDelta { best, bestDelta := Some(idx), delta; }
    }
    if best.Some? { used.s := used.s + {best.value}; }
  }

  method MatchDepthByTime(input: Input, depths: seq<Depth>, used: IndexSet, maxDelta: int) returns (best: Option<nat>)
    modifies used
    ensures best == BestOfAll(DepthDelays(input, depths, maxDelta), old(used.s))
    ensures used.s == Also(old(used.s), best)
  {
    best := None;
    ghost var delays := DepthDelays(input, depths, maxDelta);
    if input.genTime.None? { return; }
    var bestDelta := 0;
    for idx := 0 to |depths|
      invariant used.s == old(used.s)
      invariant best == Best(delays, used.s, idx)
      invariant best.Some? ==> Some(bestDelta) == delays[best.value]
    {
      if idx in used.s { continue; }
      var depth := depths[idx];
      if depth.genTime.None? || depth.genTime.value > input.genTime.value { continue; }
      if input.symbol != "" && depth.symbol != "" && input.symbol != depth.symbol { continue; }
      var delta := input.genTime.value - depth.genTime.value;
      if delta <= maxDelta && (best.None? || delta < bestDelta) { best, bestDelta := Some(idx), delta; }
    }
    if best.Some? { used.s := used.s + {best.value}; }
  }

  method MatchOrderByTime(input: Input, orders: seq<Order>, used: IndexSet, maxDelta: int) returns (best: Option<nat>)
    modifies used
    ensures best == BestOfAll(OrderDelays(input, orders, maxDelta), old(used.s))
    ensures used.s == Also(old(used.s), best)
  {
    best := None;
    ghost var delays := OrderDelays(input, orders, maxDelta);
    if input.genTime.None? { return; }
    var bestDelta := 0;
    for idx := 0 to |orders|
      invariant used.s == old(used.s)
      invariant best == Best(delays, used.s, idx)
      invariant best.Some? ==> Some(bestDelta) == delays[best.value]
    {
      if idx in used.s { continue; }
      var order := orders[idx];
      if order.genTime.None? || order.genTime.value < input.genTime.value { continue; }
      if input.orderId != "" && order.orderId != "" && input.orderId != order.orderId { continue; }
      if input.clientId != "" && order.clientId != "" && input.clientId != order.clientId { continue; }
      if input.symbol != "" && order.symbol != "" && input.symbol != order.symbol { continue; }
      var delta := order.genTime.value - input.genTime.value;
      if delta <= maxDelta && (best.None? || delta < bestDelta) { best, bestDelta := Some(idx), delta; }
    }
    if best.Some? { used.s := used.s + {best.value}; }
  }

  // ---------------------------------------------------------------- the order-id index

  type IdIndex = map<string, seq<nat>>

  predicate Below(list: seq<nat>, n: nat) {
    forall i :: 0 <= i < |list| ==> list[i] < n
  }

  /** The positions below `k` of the unused orders with an id, in order. */
  function Positions(orders: seq<Order>, used: set<nat>, id: string, k: nat): (r: seq<nat>)
    requires k <= |orders|
    ensures Below(r, k)
    ensures forall i :: 0 <= i < |r| ==> orders[r[i]].orderId == id
  {
    if k == 0 then []
    else if k - 1 !in used && orders[k - 1].orderId == id then Positions(orders, used, id, k - 1) + [k - 1]
    else Positions(orders, used, id, k - 1)
  }

  /** They are exactly those positions, each once. */
  lemma {:induction false} PositionsExactly(orders: seq<Order>, used: set<nat>, id: string, k: nat)
    requires k <= |orders|
    ensures var list := Positions(orders, used, id, k);
            (forall p: nat :: p in list <==> p < k && p !in used && orders[p].orderId == id)
            && forall i, j :: 0 <= i < j < |list| ==> list[i] < list[j]
  {
    if k > 0 {
      PositionsExactly(orders, used, id, k - 1);
    }
  }

  function Lookup(index: IdIndex, id: string): seq<nat> {
    if id in index then index[id] else []
  }

  /** The index lists, for every non-empty id, the unused orders that carry it. */
  ghost predicate Indexes(index: IdIndex, orders: seq<Order>, used: set<nat>, k: nat)
    requires k <= |orders|
  {
    forall id :: Lookup(index, id) == if id == "" then [] else Positions(orders, used, id, k)
  }

  lemma IndexesNext(index: IdIndex, orders: seq<Order>, used: set<nat>, k: nat)
    requires k < |orders| && Indexes(index, orders, used, k)
    ensures var id := orders[k].orderId;
            Indexes(if k in used || id == "" then index else index[id := Lookup(index, id) + [k]], orders, used, k + 1)
  {
    var id := orders[k].orderId;
    var next := if k in used || id == "" then index else index[id := Lookup(index, id) + [k]];
    forall other ensures Lookup(next, other) == if other == "" then [] else Positions(orders, used, other, k + 1) {
      assert Lookup(index, other) == if other == "" then [] else Positions(orders, used, other, k);
    }
  }

  method BuildOrderIdIndex(orders: seq<Order>, used: IndexSet) returns (index: IdIndex)
    ensures Indexes(index, orders, used.s, |orders|)
  {
    index := map[];
    for idx := 0 to |orders|
      invariant Indexes(index, orders, used.s, idx)
    {
      IndexesNext(index, orders, used.s, idx);
      if idx in used.s { continue; }
      var id := orders[idx].orderId;
      if id != "" {
        index := index[id := Lookup(index, id) + [idx]];
      }
    }
  }

  /** The same choice as `Best`, over the first `k` entries of a list of positions. */
  function BestListed(delays: seq<Option<int>>, used: set<nat>, list: seq<nat>, k: nat): (r: Option<nat>)
    requires k <= |list|
    requires Below(list, |delays|)
    ensures r.Some? ==> Candidate(delays, used, r.value)
  {
    if k == 0 then None
    else
      Challenge(delays, used, BestListed(delays, used, list, k - 1), list[k - 1])
  }

  lemma {:induction false} BestListedPrefix(delays: seq<Option<int>>, used: set<nat>,
                                            xs: seq<nat>, ys: seq<nat>, k: nat)
    requires k <= |xs|
    requires Below(xs, |delays|) && Below(xs + ys, |delays|)
    ensures BestListed(delays, used, xs + ys, k) == BestListed(delays, used, xs, k)
  {
    if k > 0 { BestListedPrefix(delays, used, xs, ys, k - 1); }
  }

  /** Choosing through the index is choosing by a full scan, whatever has been used since. */
  lemma {:induction false} IndexIsScan(input: Input, orders: seq<Order>, used: set<nat>, k: nat)
    requires input.orderId != "" && k <= |orders|
    ensures var list := Positions(orders, {}, input.orderId, k);
            BestListed(OrderIdDelays(input, orders), used, list, |list|) == Best(OrderIdDelays(input, orders), used, k)
  {
    if k > 0 {
      IndexIsScan(input, orders, used, k - 1);
      var delays := OrderIdDelays(input, orders);
      if orders[k - 1].orderId == input.orderId {
        BestListedNext(delays, used, Positions(orders, {}, input.orderId, k - 1), k - 1);
      } else {
        assert delays[k - 1] == None;
        assert Positions(orders, {}, input.orderId, k) == Positions(orders, {}, input.orderId, k - 1);
      }
    }
  }

  lemma BestListedNext(delays: seq<Option<int>>, used: set<nat>, xs: seq<nat>, p: nat)
    requires Below(xs, |delays|) && p < |delays|
    ensures BestListed(delays, used, xs + [p], |xs| + 1)
         == Challenge(delays, used, BestListed(delays, used, xs, |xs|), p)
  {
    BestListedPrefix(delays, used, xs, [p], |xs|);
    assert (xs + [p])[|xs|] == p;
  }

  lemma NoIdNoChoice(input: Input, orders: seq<Order>, used: set<nat>)
    requires input.orderId == ""
    ensures BestOfAll(OrderIdDelays(input, orders), used).None?
  {
  }

  method MatchOrderById(input: Input, orders: seq<Order>, used: IndexSet, index: IdIndex) returns (best: Option<nat>)
    requires Indexes(index, orders, {}, |orders|)
    modifies used
    ensures best == BestOfAll(OrderIdDelays(input, orders), old(used.s))
    ensures used.s == Also(old(used.s), best)
  {
    best := None;
    ghost var delays := OrderIdDelays(input, orders);
    if input.orderId == "" {
      NoIdNoChoice(input, orders, used.s);
      return;
    }
    var list := Lookup(index, input.orderId);
    assert list == Positions(orders, {}, input.orderId, |orders|);
    var bestDelta := 0;
    for k := 0 to |list|
      invariant used.s == old(used.s)
      invariant best == BestListed(delays, used.s, list, k)
      invariant best.Some? ==> Some(bestDelta) == delays[best.value]
    {
      var idx := list[k];
      if idx in used.s { continue; }
      var order := orders[idx];
      if input.genTime.Some? && order.genTime.Some? && order.genTime.value < input.genTime.value { continue; }
      var delta := if input.genTime.None? || order.genTime.None? then 0 else order.genTime.value - input.genTime.value;
      if best.None? || delta < bestDelta { best, bestDelta := Some(idx), delta; }
    }
    IndexIsScan(input, orders, used.s, |orders|);
    if best.Some? { used.s := used.s + {best.value}; }
  }
}
