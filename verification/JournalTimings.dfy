/**
 Exactly when the join matches as many inputs as any one-to-one pairing could, whatever the times of its
 rows (scripts/benchmark/analysis/summarize_latency_journal.py): conditions on symbols and client ids alone.
 */
module JournalTimings {
  import opened Wrappers
  import opened JournalMatch
  import opened JournalJoin
  import opened JournalOptimal
  import opened StableSort

  type Times = seq<Option<int>>

  /** The same rows at other times. */
  function InputsAt(xs: seq<Input>, t: Times): seq<Input>
    requires |t| == |xs|
  {
    seq(|xs|, i requires 0 <= i < |xs| => xs[i].(genTime := t[i]))
  }

  function DepthsAt(xs: seq<Depth>, t: Times): seq<Depth>
    requires |t| == |xs|
  {
    seq(|xs|, i requires 0 <= i < |xs| => xs[i].(genTime := t[i]))
  }

  function OrdersAt(xs: seq<Order>, t: Times): seq<Order>
    requires |t| == |xs|
  {
    seq(|xs|, i requires 0 <= i < |xs| => xs[i].(genTime := t[i]))
  }

  // ---------------------------------------------------------------- sorting keeps the conditions

  lemma SortedTimeStage(xs: seq<Input>, side: Side)
    requires TimeStage(xs, side)
    ensures TimeStage(SortByKey(xs, InputKey), side)
  {
    forall x ensures x in SortByKey(xs, InputKey) <==> x in xs { SortMembers(xs, InputKey, x); }
  }

  /** The tags of a sorted list are the tags it was made from, in another order. */
  ghost predicate Reordered(xs: seq<Tag>, ys: seq<Tag>) {
    exists places: seq<nat> :: Places(xs, ys, places)
  }

  lemma ReorderedInputs(xs: seq<Input>)
    ensures Reordered(InputTags(xs), InputTags(SortByKey(xs, InputKey)))
  {
    var places := SortPlaces(xs, InputKey);
    assert Places(InputTags(xs), InputTags(SortByKey(xs, InputKey)), places);
  }

  lemma ReorderedDepths(xs: seq<Depth>)
    ensures Reordered(DepthTags(xs), DepthTags(SortByKey(xs, DepthKey)))
  {
    var places := SortPlaces(xs, DepthKey);
    assert Places(DepthTags(xs), DepthTags(SortByKey(xs, DepthKey)), places);
  }

  lemma ReorderedOrders(xs: seq<Order>)
    ensures Reordered(OrderTags(xs), OrderTags(SortByKey(xs, OrderKey)))
  {
    var places := SortPlaces(xs, OrderKey);
    assert Places(OrderTags(xs), OrderTags(SortByKey(xs, OrderKey)), places);
  }

  lemma ExchangeableReordered(xs: seq<Tag>, ys: seq<Tag>, xs': seq<Tag>, ys': seq<Tag>)
    requires Reordered(xs, xs') && Reordered(ys, ys')
    ensures Exchangeable(xs, ys) ==> Exchangeable(xs', ys')
    ensures ChainFree(xs, ys) ==> ChainFree(xs', ys')
  {
    var f: seq<nat> :| Places(xs, xs', f);
    var g: seq<nat> :| Places(ys, ys', g);
    if !Exchangeable(xs', ys') {
      var p: nat, q: nat, u: nat, v: nat :| Rivals(xs', ys', p, q, u, v);
      assert Rivals(xs, ys, f[p], f[q], g[u], g[v]);
    }
    if !ChainFree(xs', ys') {
      var p: nat, q: nat, u: nat, v: nat :| Chain(xs', ys', p, q, u, v);
      assert f[p] != f[q] by { assert p < q || q < p; }
      assert g[u] != g[v] by { assert u < v || v < u; }
      assert Chain(xs, ys, f[p], f[q], g[u], g[v]);
    }
  }

  // ---------------------------------------------------------------- the conditions suffice

  lemma JobIsSorted(depths: seq<Depth>, inputs: seq<Input>, orders: seq<Order>, maxDelta: int, epsilon: real)
    ensures Sorted(JobOf(depths, inputs, orders, maxDelta, epsilon).inputs, InputKey)
  {
    SortIsStable(inputs, InputKey, 0);
  }

  /** Where inputs that share an order agree with the same orders, no pairing beats the order side. */
  lemma OrderSideIsMaximum(depths: seq<Depth>, inputs: seq<Input>, orders: seq<Order>, maxDelta: int, epsilon: real)
    requires TimeStage(inputs, OrderSide) && Exchangeable(InputTags(inputs), OrderTags(orders))
    ensures MatchesMost(JobOf(depths, inputs, orders, maxDelta, epsilon), OrderSide)
  {
    var job := JobOf(depths, inputs, orders, maxDelta, epsilon);
    JobIsSorted(depths, inputs, orders, maxDelta, epsilon);
    SortedTimeStage(inputs, OrderSide);
    ReorderedInputs(inputs);
    ReorderedOrders(orders);
    ExchangeableReordered(InputTags(inputs), OrderTags(orders), InputTags(job.inputs), OrderTags(job.orders));
    OrdersExchange(job);
    ExchangingIsMaximum(job, OrderSide);
  }

  /** The same for depths where the bound excludes none. */
  lemma UnboundedDepthSideIsMaximum(depths: seq<Depth>, inputs: seq<Input>, orders: seq<Order>,
                                    maxDelta: int, epsilon: real)
    requires TimeStage(inputs, DepthSide) && Exchangeable(InputTags(inputs), DepthTags(depths))
    requires Unbounded(JobOf(depths, inputs, orders, maxDelta, epsilon))
    ensures MatchesMost(JobOf(depths, inputs, orders, maxDelta, epsilon), DepthSide)
  {
    var job := JobOf(depths, inputs, orders, maxDelta, epsilon);
    JobIsSorted(depths, inputs, orders, maxDelta, epsilon);
    SortedTimeStage(inputs, DepthSide);
    ReorderedInputs(inputs);
    ReorderedDepths(depths);
    ExchangeableReordered(InputTags(inputs), DepthTags(depths), InputTags(job.inputs), DepthTags(job.depths));
    DepthsExchange(job);
    ExchangingIsMaximum(job, DepthSide);
  }

  /** Under a bound depths need more: no two inputs that share a depth of which one may take another. */
  lemma ChainFreeDepthSideIsMaximum(depths: seq<Depth>, inputs: seq<Input>, orders: seq<Order>,
                                    maxDelta: int, epsilon: real)
    requires TimeStage(inputs, DepthSide) && ChainFree(InputTags(inputs), DepthTags(depths))
    ensures MatchesMost(JobOf(depths, inputs, orders, maxDelta, epsilon), DepthSide)
  {
    var job := JobOf(depths, inputs, orders, maxDelta, epsilon);
    SortedTimeStage(inputs, DepthSide);
    ReorderedInputs(inputs);
    ReorderedDepths(depths);
    ExchangeableReordered(InputTags(inputs), DepthTags(depths), InputTags(job.inputs), DepthTags(job.depths));
    ChainFreeExchanges(job, DepthSide);
    ExchangingIsMaximum(job, DepthSide);
  }

  // ---------------------------------------------------------------- a join that loses a pair

  /** Only inputs `a` and `b` fit anything: `a` both rows, `x` with less delay, and `b` row `x` alone. */
  ghost predicate Contested(job: Job, side: Side, a: nat, b: nat, x: nat, y: nat) {
    && a < b < |job.inputs| && x != y
    && (forall i: nat, j: nat :: Fits(job, side, i, j) <==> (i == a && (j == x || j == y)) || (i == b && j == x))
    && Delay(job, side, a, x) < Delay(job, side, a, y)
  }

  lemma ContestedStep(job: Job, side: Side, a: nat, b: nat, x: nat, y: nat, k: nat)
    requires TimeStage(job.inputs, side) && Contested(job, side, a, b, x, y) && k < |job.inputs|
    requires Used(job, side, k) == if k <= a then {} else {x}
    ensures Pick(job, side, k) == if k == a then Some(x) else None
  {
    PickIsNearest(job, side, k);
    assert Fits(job, side, a, x) && Fits(job, side, a, y);
  }

  lemma {:induction false} ContestedUse(job: Job, side: Side, a: nat, b: nat, x: nat, y: nat, k: nat)
    requires TimeStage(job.inputs, side) && Contested(job, side, a, b, x, y) && k <= |job.inputs|
    ensures Used(job, side, k) == if k <= a then {} else {x}
  {
    if k > 0 {
      ContestedUse(job, side, a, b, x, y, k - 1);
      ContestedStep(job, side, a, b, x, y, k - 1);
      PickByTime(job, side, k - 1);
    }
  }

  lemma ContestedPairing(job: Job, side: Side, a: nat, b: nat, x: nat, y: nat)
    requires Contested(job, side, a, b, x, y)
    ensures var m: map<nat, nat> := map[a := y, b := x];
            Pairing(job, side, m, 0, {}) && |m| == 2
  {
    var m: map<nat, nat> := map[a := y, b := x];
    assert m.Keys == {a, b} && |m| == |m.Keys|;
  }

  lemma ContestedMatchesOne(job: Job, side: Side, a: nat, b: nat, x: nat, y: nat)
    requires TimeStage(job.inputs, side) && Contested(job, side, a, b, x, y)
    ensures Matched(job, side) == 1
  {
    ContestedUse(job, side, a, b, x, y, |job.inputs|);
    UsedCount(job, side);
  }

  /** The join then matches one of the two inputs. */
  lemma ContestedLosesAPair(job: Job, side: Side, a: nat, b: nat, x: nat, y: nat)
    requires TimeStage(job.inputs, side) && Contested(job, side, a, b, x, y)
    ensures !MatchesMost(job, side)
  {
    ContestedMatchesOne(job, side, a, b, x, y);
    ContestedPairing(job, side, a, b, x, y);
  }

  /** Two rows have a time and the others none. */
  function TwoTimes(n: nat, p: nat, s: int, q: nat, t: int): (r: Times)
    ensures |r| == n
  {
    seq(n, i => if i == p then Some(s) else if i == q then Some(t) else None)
  }

  lemma InputsPlaced(xs: seq<Input>, p: nat, s: int, q: nat, t: int) returns (a: nat, b: nat)
    requires p < |xs| && q < |xs| && p != q && 0 < s < t
    ensures var r := SortByKey(InputsAt(xs, TwoTimes(|xs|, p, s, q, t)), InputKey);
            a < b < |r| && r[a] == xs[p].(genTime := Some(s)) && r[b] == xs[q].(genTime := Some(t))
            && forall i :: 0 <= i < |r| && i != a && i != b ==> r[i].genTime == None
  {
    a, b := SortFinds(InputsAt(xs, TwoTimes(|xs|, p, s, q, t)), InputKey, p, q);
  }

  lemma DepthsPlaced(xs: seq<Depth>, p: nat, s: int, q: nat, t: int) returns (a: nat, b: nat)
    requires p < |xs| && q < |xs| && p != q && 0 < s < t
    ensures var r := SortByKey(DepthsAt(xs, TwoTimes(|xs|, p, s, q, t)), DepthKey);
            a < b < |r| && r[a] == xs[p].(genTime := Some(s)) && r[b] == xs[q].(genTime := Some(t))
            && forall i :: 0 <= i < |r| && i != a && i != b ==> r[i].genTime == None
  {
    a, b := SortFinds(DepthsAt(xs, TwoTimes(|xs|, p, s, q, t)), DepthKey, p, q);
  }

  lemma OrdersPlaced(xs: seq<Order>, p: nat, s: int, q: nat, t: int) returns (a: nat, b: nat)
    requires p < |xs| && q < |xs| && p != q && 0 < s < t
    ensures var r := SortByKey(OrdersAt(xs, TwoTimes(|xs|, p, s, q, t)), OrderKey);
            a < b < |r| && r[a] == xs[p].(genTime := Some(s)) && r[b] == xs[q].(genTime := Some(t))
            && forall i :: 0 <= i < |r| && i != a && i != b ==> r[i].genTime == None
  {
    a, b := SortFinds(OrdersAt(xs, TwoTimes(|xs|, p, s, q, t)), OrderKey, p, q);
  }

  lemma TimeStageAt(xs: seq<Input>, t: Times, side: Side)
    requires TimeStage(xs, side) && |t| == |xs|
    ensures TimeStage(InputsAt(xs, t), side) && TimeStage(SortByKey(InputsAt(xs, t), InputKey), side)
  {
    var ys := InputsAt(xs, t);
    forall y | y in ys ensures if side.DepthSide? then y.side == "" else y.orderId == "" {
      var i :| 0 <= i < |ys| && ys[i] == y;
      assert xs[i] in xs;
    }
    SortedTimeStage(ys, side);
  }

  /** Of a sorted stream only two rows have a time. */
  predicate OnlyInputs(job: Job, a: nat, s: int, b: nat, t: int) {
    && a < b < |job.inputs| && job.inputs[a].genTime == Some(s) && job.inputs[b].genTime == Some(t)
    && forall i :: 0 <= i < |job.inputs| && i != a && i != b ==> job.inputs[i].genTime == None
  }

  predicate OnlyDepths(job: Job, a: nat, s: int, b: nat, t: int) {
    && a < b < |job.depths| && job.depths[a].genTime == Some(s) && job.depths[b].genTime == Some(t)
    && forall i :: 0 <= i < |job.depths| && i != a && i != b ==> job.depths[i].genTime == None
  }

  predicate OnlyOrders(job: Job, a: nat, s: int, b: nat, t: int) {
    && a < b < |job.orders| && job.orders[a].genTime == Some(s) && job.orders[b].genTime == Some(t)
    && forall i :: 0 <= i < |job.orders| && i != a && i != b ==> job.orders[i].genTime == None
  }

  lemma ContestedOrders(job: Job, a: nat, b: nat, x: nat, y: nat)
    requires TimeStage(job.inputs, OrderSide) && job.maxDelta >= 2
    requires OnlyInputs(job, a, 1, b, 2) && OnlyOrders(job, x, 2, y, 3)
    requires Rivals(InputTags(job.inputs), OrderTags(job.orders), a, b, x, y)
    ensures Contested(job, OrderSide, a, b, x, y)
  {
    assert job.inputs[a] in job.inputs && job.inputs[b] in job.inputs;
    forall i: nat, j: nat
      ensures Fits(job, OrderSide, i, j) <==> (i == a && (j == x || j == y)) || (i == b && j == x)
    {
      if Fits(job, OrderSide, i, j) { FitsAgree(job, OrderSide, i, j); }
    }
  }

  lemma ContestedDepths(job: Job, a: nat, s: int, b: nat, x: nat, y: nat)
    requires OnlyInputs(job, a, s, b, s + 1) && OnlyDepths(job, y, 1, x, 2)
    requires s >= 2 && 1 <= s - 1 <= job.maxDelta
    requires var xs, ys := InputTags(job.inputs), DepthTags(job.depths);
             Agree(xs[a], ys[x]) && Agree(xs[a], ys[y]) && Agree(xs[b], ys[x])
             && (job.maxDelta == s - 1 || !Agree(xs[b], ys[y]))
    ensures Contested(job, DepthSide, a, b, x, y)
  {
    forall i: nat, j: nat
      ensures Fits(job, DepthSide, i, j) <==> (i == a && (j == x || j == y)) || (i == b && j == x)
    {
      if Fits(job, DepthSide, i, j) { FitsAgree(job, DepthSide, i, j); }
    }
  }

  /** Rival orders: times under which the join matches one of two inputs that could both be paired. */
  lemma RivalOrdersLose(depths: seq<Depth>, inputs: seq<Input>, orders: seq<Order>, maxDelta: int, epsilon: real,
                        p: nat, q: nat, u: nat, v: nat)
    requires TimeStage(inputs, OrderSide) && maxDelta >= 2
    requires Rivals(InputTags(inputs), OrderTags(orders), p, q, u, v)
    ensures var ti, to := TwoTimes(|inputs|, p, 1, q, 2), TwoTimes(|orders|, u, 2, v, 3);
            !MatchesMost(JobOf(depths, InputsAt(inputs, ti), OrdersAt(orders, to), maxDelta, epsilon), OrderSide)
  {
    var ti, to := TwoTimes(|inputs|, p, 1, q, 2), TwoTimes(|orders|, u, 2, v, 3);
    var job := JobOf(depths, InputsAt(inputs, ti), OrdersAt(orders, to), maxDelta, epsilon);
    var a, b := InputsPlaced(inputs, p, 1, q, 2);
    var x, y := OrdersPlaced(orders, u, 2, v, 3);
    TimeStageAt(inputs, ti, OrderSide);
    assert Rivals(InputTags(job.inputs), OrderTags(job.orders), a, b, x, y);
    ContestedOrders(job, a, b, x, y);
    ContestedLosesAPair(job, OrderSide, a, b, x, y);
  }

  function TwoInputsTwoDepths(depths: seq<Depth>, inputs: seq<Input>, orders: seq<Order>, maxDelta: int, epsilon: real,
                              p: nat, s: int, q: nat, u: nat, v: nat): Job
  {
    var ti, td := TwoTimes(|inputs|, p, s, q, s + 1), TwoTimes(|depths|, v, 1, u, 2);
    JobOf(DepthsAt(depths, td), InputsAt(inputs, ti), orders, maxDelta, epsilon)
  }

  lemma DepthJobPlaced(depths: seq<Depth>, inputs: seq<Input>, orders: seq<Order>, maxDelta: int, epsilon: real,
                       p: nat, s: int, q: nat, u: nat, v: nat)
    returns (a: nat, b: nat, x: nat, y: nat)
    requires p < |inputs| && q < |inputs| && p != q && u < |depths| && v < |depths| && u != v && s > 0
    requires TimeStage(inputs, DepthSide)
    ensures var job := TwoInputsTwoDepths(depths, inputs, orders, maxDelta, epsilon, p, s, q, u, v);
            TimeStage(job.inputs, DepthSide)
            && OnlyInputs(job, a, s, b, s + 1) && OnlyDepths(job, y, 1, x, 2)
            && InputTags(job.inputs)[a] == InputTags(inputs)[p] && InputTags(job.inputs)[b] == InputTags(inputs)[q]
            && DepthTags(job.depths)[x] == DepthTags(depths)[u] && DepthTags(job.depths)[y] == DepthTags(depths)[v]
  {
    a, b := InputsPlaced(inputs, p, s, q, s + 1);
    y, x := DepthsPlaced(depths, v, 1, u, 2);
    TimeStageAt(inputs, TwoTimes(|inputs|, p, s, q, s + 1), DepthSide);
  }

  /** A chain of depths: times a bound apart under which the nearest depth is the wrong one to take. */
  lemma ChainedDepthsLose(depths: seq<Depth>, inputs: seq<Input>, orders: seq<Order>, maxDelta: int, epsilon: real,
                          p: nat, q: nat, u: nat, v: nat)
    requires TimeStage(inputs, DepthSide) && maxDelta >= 1
    requires Chain(InputTags(inputs), DepthTags(depths), p, q, u, v)
    ensures !MatchesMost(TwoInputsTwoDepths(depths, inputs, orders, maxDelta, epsilon, p, maxDelta + 1, q, u, v),
                         DepthSide)
  {
    var job := TwoInputsTwoDepths(depths, inputs, orders, maxDelta, epsilon, p, maxDelta + 1, q, u, v);
    var a, b, x, y := DepthJobPlaced(depths, inputs, orders, maxDelta, epsilon, p, maxDelta + 1, q, u, v);
    ContestedDepths(job, a, maxDelta + 1, b, x, y);
    ContestedLosesAPair(job, DepthSide, a, b, x, y);
  }

  lemma TwoTimesUnbounded(job: Job, a: nat, b: nat, x: nat, y: nat)
    requires OnlyInputs(job, a, 2, b, 3) && OnlyDepths(job, y, 1, x, 2) && job.maxDelta == 2
    ensures Unbounded(job)
  {
  }

  /** Rival depths lose a pair even where the bound excludes no depth. */
  lemma RivalDepthsLose(depths: seq<Depth>, inputs: seq<Input>, orders: seq<Order>, epsilon: real,
                        p: nat, q: nat, u: nat, v: nat)
    requires TimeStage(inputs, DepthSide)
    requires Rivals(InputTags(inputs), DepthTags(depths), p, q, u, v)
    ensures var job := TwoInputsTwoDepths(depths, inputs, orders, 2, epsilon, p, 2, q, u, v);
            Unbounded(job) && !MatchesMost(job, DepthSide)
  {
    var job := TwoInputsTwoDepths(depths, inputs, orders, 2, epsilon, p, 2, q, u, v);
    var a, b, x, y := DepthJobPlaced(depths, inputs, orders, 2, epsilon, p, 2, q, u, v);
    ContestedDepths(job, a, 2, b, x, y);
    ContestedLosesAPair(job, DepthSide, a, b, x, y);
    TwoTimesUnbounded(job, a, b, x, y);
  }

  // ---------------------------------------------------------------- exactly when

  /** Whatever the times of the rows, the join matches as many inputs with orders as any pairing. */
  ghost predicate AlwaysMostOrders(inputs: seq<Input>, orders: seq<Order>, maxDelta: int) {
    forall depths: seq<Depth>, ti: Times, to: Times, epsilon: real :: |ti| == |inputs| && |to| == |orders| ==>
      MatchesMost(JobOf(depths, InputsAt(inputs, ti), OrdersAt(orders, to), maxDelta, epsilon), OrderSide)
  }

  ghost predicate AlwaysMostDepths(inputs: seq<Input>, depths: seq<Depth>, maxDelta: int) {
    forall orders: seq<Order>, ti: Times, td: Times, epsilon: real :: |ti| == |inputs| && |td| == |depths| ==>
      MatchesMost(JobOf(DepthsAt(depths, td), InputsAt(inputs, ti), orders, maxDelta, epsilon), DepthSide)
  }

  /** The same at times and bounds where the bound excludes no earlier depth. */
  ghost predicate AlwaysMostDepthsUnbounded(inputs: seq<Input>, depths: seq<Depth>) {
    forall orders: seq<Order>, ti: Times, td: Times, maxDelta: int, epsilon: real
      :: |ti| == |inputs| && |td| == |depths| ==>
        var job := JobOf(DepthsAt(depths, td), InputsAt(inputs, ti), orders, maxDelta, epsilon);
        Unbounded(job) ==> MatchesMost(job, DepthSide)
  }

  /** Orders: at every timing exactly where inputs that share an order agree with the same orders. */
  lemma OrderSideExact(inputs: seq<Input>, orders: seq<Order>, maxDelta: int)
    requires TimeStage(inputs, OrderSide) && maxDelta >= 2
    ensures AlwaysMostOrders(inputs, orders, maxDelta) <==> Exchangeable(InputTags(inputs), OrderTags(orders))
  {
    if Exchangeable(InputTags(inputs), OrderTags(orders)) {
      forall depths: seq<Depth>, ti: Times, to: Times, epsilon: real | |ti| == |inputs| && |to| == |orders|
        ensures MatchesMost(JobOf(depths, InputsAt(inputs, ti), OrdersAt(orders, to), maxDelta, epsilon), OrderSide)
      {
        TimeStageAt(inputs, ti, OrderSide);
        assert InputTags(InputsAt(inputs, ti)) == InputTags(inputs);
        assert OrderTags(OrdersAt(orders, to)) == OrderTags(orders);
        OrderSideIsMaximum(depths, InputsAt(inputs, ti), OrdersAt(orders, to), maxDelta, epsilon);
      }
    } else {
      var p: nat, q: nat, u: nat, v: nat :| Rivals(InputTags(inputs), OrderTags(orders), p, q, u, v);
      RivalOrdersLose([], inputs, orders, maxDelta, 0.0, p, q, u, v);
    }
  }

  /** Depths under a bound: at every timing exactly where no two inputs chain two depths. */
  lemma DepthSideExact(inputs: seq<Input>, depths: seq<Depth>, maxDelta: int)
    requires TimeStage(inputs, DepthSide) && maxDelta >= 1
    ensures AlwaysMostDepths(inputs, depths, maxDelta) <==> ChainFree(InputTags(inputs), DepthTags(depths))
  {
    if ChainFree(InputTags(inputs), DepthTags(depths)) {
      forall orders: seq<Order>, ti: Times, td: Times, epsilon: real | |ti| == |inputs| && |td| == |depths|
        ensures MatchesMost(JobOf(DepthsAt(depths, td), InputsAt(inputs, ti), orders, maxDelta, epsilon), DepthSide)
      {
        TimeStageAt(inputs, ti, DepthSide);
        assert InputTags(InputsAt(inputs, ti)) == InputTags(inputs);
        assert DepthTags(DepthsAt(depths, td)) == DepthTags(depths);
        ChainFreeDepthSideIsMaximum(DepthsAt(depths, td), InputsAt(inputs, ti), orders, maxDelta, epsilon);
      }
    } else {
      var p: nat, q: nat, u: nat, v: nat :| Chain(InputTags(inputs), DepthTags(depths), p, q, u, v);
      ChainedDepthsLose(depths, inputs, [], maxDelta, 0.0, p, q, u, v);
    }
  }

  /** Depths without a bound: at every timing exactly under the condition for orders. */
  lemma UnboundedDepthSideExact(inputs: seq<Input>, depths: seq<Depth>)
    requires TimeStage(inputs, DepthSide)
    ensures AlwaysMostDepthsUnbounded(inputs, depths) <==> Exchangeable(InputTags(inputs), DepthTags(depths))
  {
    if Exchangeable(InputTags(inputs), DepthTags(depths)) {
      forall orders: seq<Order>, ti: Times, td: Times, maxDelta: int, epsilon: real
        | |ti| == |inputs| && |td| == |depths|
          && Unbounded(JobOf(DepthsAt(depths, td), InputsAt(inputs, ti), orders, maxDelta, epsilon))
        ensures MatchesMost(JobOf(DepthsAt(depths, td), InputsAt(inputs, ti), orders, maxDelta, epsilon), DepthSide)
      {
        TimeStageAt(inputs, ti, DepthSide);
        assert InputTags(InputsAt(inputs, ti)) == InputTags(inputs);
        assert DepthTags(DepthsAt(depths, td)) == DepthTags(depths);
        UnboundedDepthSideIsMaximum(DepthsAt(depths, td), InputsAt(inputs, ti), orders, maxDelta, epsilon);
      }
    } else {
      var p: nat, q: nat, u: nat, v: nat :| Rivals(InputTags(inputs), DepthTags(depths), p, q, u, v);
      RivalDepthsLose(depths, inputs, [], 0.0, p, q, u, v);
    }
  }

  /** Inputs for X and Y, an order without a symbol and a later one for X: one input is left out. */
  lemma MixedBlanksLoseAPair(x: Input, y: Input, blank: Order, o: Order)
    requires TimeStage([x, y], OrderSide)
    requires x.symbol == "X" && y.symbol == "Y" && blank.symbol == "" && o.symbol == "X"
    requires blank.clientId == o.clientId == ""
    ensures !AlwaysMostOrders([x, y], [blank, o], 2)
  {
    assert "X"[0] != "Y"[0];
    assert Rivals(InputTags([x, y]), OrderTags([blank, o]), 0, 1, 0, 1);
    OrderSideExact([x, y], [blank, o], 2);
  }

  /** Two inputs and two depths of one symbol: under any bound the nearest depth can be the wrong one. */
  lemma TwoDepthsLoseAPair(x: Input, d: Depth, maxDelta: int)
    requires x.side == "" && x.symbol == d.symbol && maxDelta >= 1
    ensures !AlwaysMostDepths([x, x], [d, d], maxDelta)
  {
    assert Chain(InputTags([x, x]), DepthTags([d, d]), 0, 1, 0, 1);
    DepthSideExact([x, x], [d, d], maxDelta);
  }
}
