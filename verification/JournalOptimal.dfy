/**
 Maximality of the join (scripts/benchmark/analysis/summarize_latency_journal.py): where rows are matched
 by time, when does no one-to-one pairing within the time bound pair more inputs than the join?
 */
module JournalOptimal {
  import opened Wrappers
  import opened JournalMatch
  import opened JournalJoin
  import opened StableSort

  // ---------------------------------------------------------------- the two sides of a join

  /** What inputs are paired with. */
  datatype Side = DepthSide | OrderSide

  /** Only the stage that goes by time applies: no input has a side, or none has an order id. */
  predicate TimeStage(inputs: seq<Input>, side: Side) {
    forall x :: x in inputs ==> if side.DepthSide? then x.side == "" else x.orderId == ""
  }

  function Delays(job: Job, side: Side, i: nat): seq<Option<int>>
    requires i < |job.inputs|
  {
    if side.DepthSide? then DepthDelays(job.inputs[i], job.depths, job.maxDelta)
    else OrderDelays(job.inputs[i], job.orders, job.maxDelta)
  }

  /** Input `i` and row `j` may be paired: in time order, within the bound, with no clash. */
  predicate Fits(job: Job, side: Side, i: nat, j: nat) {
    i < |job.inputs| && j < |Delays(job, side, i)| && Delays(job, side, i)[j].Some?
  }

  function Delay(job: Job, side: Side, i: nat, j: nat): int
    requires Fits(job, side, i, j)
  {
    Delays(job, side, i)[j].value
  }

  function Pick(job: Job, side: Side, i: nat): Option<nat>
    requires i < |job.inputs|
  {
    if side.DepthSide? then job.DepthOf(i) else job.OrderOf(i)
  }

  function Used(job: Job, side: Side, k: nat): set<nat>
    requires k <= |job.inputs|
  {
    if side.DepthSide? then job.UsedDepths(k) else job.UsedOrders(k)
  }

  /** How many inputs the join matched on a side, by its own counts. */
  function Matched(job: Job, side: Side): nat {
    var c := CountsOf(job.Rows(|job.inputs|));
    if side.DepthSide? then c.depthPriceSide + c.depthTime else c.orderOrderId + c.orderTime
  }

  predicate OneToOne(m: map<nat, nat>) {
    forall i, i' :: i in m && i' in m && i != i' ==> m[i] != m[i']
  }

  /** A one-to-one pairing of inputs from `k` on with rows outside `used`. */
  ghost predicate Pairing(job: Job, side: Side, m: map<nat, nat>, k: nat, used: set<nat>) {
    && (forall i :: i in m ==> i >= k && m[i] !in used && Fits(job, side, i, m[i]))
    && OneToOne(m)
  }

  /** No one-to-one pairing pairs more inputs than the join matched. */
  ghost predicate MatchesMost(job: Job, side: Side) {
    forall m: map<nat, nat> :: Pairing(job, side, m, 0, {}) ==> |m| <= Matched(job, side)
  }

  // ---------------------------------------------------------------- what the join does on one side

  /** `j` is unused and fits input `i` with no more delay than any other unused row does. */
  ghost predicate Nearest(job: Job, side: Side, i: nat, used: set<nat>, j: nat) {
    && j !in used && Fits(job, side, i, j)
    && forall j': nat :: j' !in used && Fits(job, side, i, j') ==> Delay(job, side, i, j) <= Delay(job, side, i, j')
  }

  lemma NoSideNoChoice(input: Input, depths: seq<Depth>, epsilon: real, used: set<nat>)
    requires input.side == ""
    ensures BestOfAll(PriceSideDelays(input, depths, epsilon), used).None?
  {
  }

  lemma PickByTime(job: Job, side: Side, i: nat)
    requires TimeStage(job.inputs, side) && i < |job.inputs|
    ensures Pick(job, side, i) == BestOfAll(Delays(job, side, i), Used(job, side, i))
    ensures Used(job, side, i + 1) == Also(Used(job, side, i), Pick(job, side, i))
  {
    assert job.inputs[i] in job.inputs;
    match side
    case DepthSide => NoSideNoChoice(job.inputs[i], job.depths, job.epsilon, job.UsedDepths(i));
    case OrderSide => NoIdNoChoice(job.inputs[i], job.orders, job.UsedOrders(i));
  }

  /** The row an input gets is a nearest unused one it fits, if it fits any. */
  lemma PickIsNearest(job: Job, side: Side, i: nat)
    requires TimeStage(job.inputs, side) && i < |job.inputs|
    ensures var pick, used := Pick(job, side, i), Used(job, side, i);
            if pick.None? then forall j: nat :: j !in used ==> !Fits(job, side, i, j)
            else Nearest(job, side, i, used, pick.value)
  {
    PickByTime(job, side, i);
    var used, delays := Used(job, side, i), Delays(job, side, i);
    assert forall j: nat :: j !in used && Fits(job, side, i, j) ==> Candidate(delays, used, j);
  }

  // ---------------------------------------------------------------- the exchange argument

  /**
   If an earlier input may take either of two rows, and a later input the nearer of them,
   then the later input may take the other instead.
   */
  ghost predicate Exchanging(job: Job, side: Side) {
    forall i: nat, k: nat, j: nat, j': nat ::
      i < k && j != j' && Fits(job, side, i, j) && Fits(job, side, i, j') && Fits(job, side, k, j)
      && Delay(job, side, i, j) <= Delay(job, side, i, j')
      ==> Fits(job, side, k, j')
  }

  lemma WithoutKey(m: map<nat, nat>, k: nat)
    ensures |m - {k}| == |m| - if k in m then 1 else 0
  {
    assert (m - {k}).Keys == m.Keys - {k};
    assert |(m - {k}).Keys| == |m - {k}| && |m.Keys| == |m|;
  }

  lemma PairingWithout(job: Job, side: Side, m: map<nat, nat>, k: nat, used: set<nat>, i: nat)
    requires Pairing(job, side, m, k, used)
    ensures Pairing(job, side, m - {i}, k, used)
    ensures |m - {i}| >= |m| - 1
  {
    WithoutKey(m, i);
  }

  /** Key `i` takes over the value of key `k`, whose entry goes. */
  lemma TakeOver(m: map<nat, nat>, i: nat, k: nat) returns (m': map<nat, nat>)
    requires OneToOne(m) && i in m && k in m && i != k
    ensures OneToOne(m') && |m'| == |m| - 1
    ensures i in m' && m'[i] == m[k]
    ensures forall a :: a in m' ==> a in m && a != k && m'[a] != m[i]
    ensures forall a :: a in m' && a != i ==> m'[a] == m[a]
  {
    WithoutKey(m, k);
    m' := (m - {k})[i := m[k]];
    assert m'.Keys == (m - {k}).Keys;
    assert |m'.Keys| == |m'| && |(m - {k}).Keys| == |m - {k}|;
  }

  /** Row `j` leaves the pairing with input `k`, and input `i` gets the row `k` had. */
  lemma HandOver(job: Job, side: Side, m: map<nat, nat>, k: nat, used: set<nat>, i: nat, j: nat)
    returns (m': map<nat, nat>)
    requires Exchanging(job, side) && Pairing(job, side, m, k, used) && Nearest(job, side, k, used, j)
    requires k in m && i in m && i != k && m[i] == j
    ensures Pairing(job, side, m', k + 1, used + {j}) && |m'| == |m| - 1
  {
    var j' := m[k];
    assert j' !in used && Fits(job, side, k, j') && i > k && Fits(job, side, i, j);
    assert Fits(job, side, i, j');
    m' := TakeOver(m, i, k);
    forall a | a in m' ensures a >= k + 1 && m'[a] !in used + {j} && Fits(job, side, a, m'[a]) {
      assert a in m && a != k && m'[a] != j;
      if a != i { assert m'[a] == m[a]; }
    }
  }

  lemma PairingNarrowed(job: Job, side: Side, m: map<nat, nat>, k: nat, used: set<nat>, j: nat)
    requires Pairing(job, side, m, k, used)
    requires k !in m && forall i :: i in m ==> m[i] != j
    ensures Pairing(job, side, m, k + 1, used + {j})
  {
  }

  /** A pairing loses at most one pair by giving up one input and a row nearest to it. */
  lemma Reassign(job: Job, side: Side, m: map<nat, nat>, k: nat, used: set<nat>, j: nat)
    returns (m': map<nat, nat>)
    requires Exchanging(job, side) && Pairing(job, side, m, k, used)
    requires k < |job.inputs| && Nearest(job, side, k, used, j)
    ensures Pairing(job, side, m', k + 1, used + {j}) && |m'| >= |m| - 1
  {
    if i :| i in m && i != k && m[i] == j {
      if k in m {
        m' := HandOver(job, side, m, k, used, i, j);
      } else {
        m' := m - {i};
        PairingWithout(job, side, m, k, used, i);
        PairingNarrowed(job, side, m', k, used, j);
      }
    } else {
      m' := m - {k};
      PairingWithout(job, side, m, k, used, k);
      PairingNarrowed(job, side, m', k, used, j);
    }
  }

  lemma NothingToPair(job: Job, side: Side, m: map<nat, nat>, used: set<nat>)
    requires Pairing(job, side, m, |job.inputs|, used)
    ensures |m| == 0
  {
    assert m.Keys == {};
  }

  lemma SkipInput(job: Job, side: Side, m: map<nat, nat>, k: nat, used: set<nat>)
    requires Pairing(job, side, m, k, used)
    requires forall j: nat :: j !in used ==> !Fits(job, side, k, j)
    ensures Pairing(job, side, m, k + 1, used)
  {
  }

  lemma UsedCount(job: Job, side: Side)
    ensures Matched(job, side) == |Used(job, side, |job.inputs|)|
  {
    CountsBalance(job);
  }

  /** From any input on, no pairing of what is left is larger than what the join still matches. */
  lemma {:induction false} GreedyIsMaximum(job: Job, side: Side, m: map<nat, nat>, k: nat)
    requires TimeStage(job.inputs, side) && Exchanging(job, side)
    requires k <= |job.inputs| && Pairing(job, side, m, k, Used(job, side, k))
    ensures |m| + |Used(job, side, k)| <= Matched(job, side)
    decreases |job.inputs| - k
  {
    if k == |job.inputs| {
      UsedCount(job, side);
      NothingToPair(job, side, m, Used(job, side, k));
    } else {
      var used, pick := Used(job, side, k), Pick(job, side, k);
      PickByTime(job, side, k);
      PickIsNearest(job, side, k);
      if pick.None? {
        SkipInput(job, side, m, k, used);
        GreedyIsMaximum(job, side, m, k + 1);
      } else {
        var m' := Reassign(job, side, m, k, used, pick.value);
        GreedyIsMaximum(job, side, m', k + 1);
      }
    }
  }

  lemma ExchangingIsMaximum(job: Job, side: Side)
    requires TimeStage(job.inputs, side) && Exchanging(job, side)
    ensures MatchesMost(job, side)
  {
    forall m: map<nat, nat> | Pairing(job, side, m, 0, {}) ensures |m| <= Matched(job, side) {
      GreedyIsMaximum(job, side, m, 0);
    }
  }

  // ---------------------------------------------------------------- the condition on the rows

  /** What a row is compared by, apart from its time. */
  datatype Tag = Tag(symbol: string, clientId: string)

  predicate Agree(a: Tag, b: Tag) {
    !Clash(a.symbol, b.symbol) && !Clash(a.clientId, b.clientId)
  }

  function InputTag(x: Input): Tag { Tag(x.symbol, x.clientId) }
  function DepthTag(d: Depth): Tag { Tag(d.symbol, "") }
  function OrderTag(o: Order): Tag { Tag(o.symbol, o.clientId) }

  function InputTags(xs: seq<Input>): seq<Tag> { seq(|xs|, i requires 0 <= i < |xs| => InputTag(xs[i])) }
  function DepthTags(xs: seq<Depth>): seq<Tag> { seq(|xs|, i requires 0 <= i < |xs| => DepthTag(xs[i])) }
  function OrderTags(xs: seq<Order>): seq<Tag> { seq(|xs|, i requires 0 <= i < |xs| => OrderTag(xs[i])) }

  /** Two inputs of which one may take two rows and the other only the first of them. */
  predicate Rivals(xs: seq<Tag>, ys: seq<Tag>, p: nat, q: nat, u: nat, v: nat) {
    && p < |xs| && q < |xs| && u < |ys| && v < |ys|
    && Agree(xs[p], ys[u]) && Agree(xs[p], ys[v]) && Agree(xs[q], ys[u]) && !Agree(xs[q], ys[v])
  }

  /** Inputs that share a row agree with the same rows. */
  ghost predicate Exchangeable(xs: seq<Tag>, ys: seq<Tag>) {
    forall p: nat, q: nat, u: nat, v: nat :: !Rivals(xs, ys, p, q, u, v)
  }

  /** Two inputs share a row, and one of them may take another. */
  predicate Chain(xs: seq<Tag>, ys: seq<Tag>, p: nat, q: nat, u: nat, v: nat) {
    && p < |xs| && q < |xs| && u < |ys| && v < |ys| && p != q && u != v
    && Agree(xs[p], ys[u]) && Agree(xs[p], ys[v]) && Agree(xs[q], ys[u])
  }

  ghost predicate ChainFree(xs: seq<Tag>, ys: seq<Tag>) {
    forall p: nat, q: nat, u: nat, v: nat :: !Chain(xs, ys, p, q, u, v)
  }

  function RowTags(job: Job, side: Side): seq<Tag> {
    if side.DepthSide? then DepthTags(job.depths) else OrderTags(job.orders)
  }

  lemma FitsAgree(job: Job, side: Side, i: nat, j: nat)
    requires Fits(job, side, i, j)
    ensures i < |InputTags(job.inputs)| && j < |RowTags(job, side)|
    ensures Agree(InputTags(job.inputs)[i], RowTags(job, side)[j])
  {
  }

  /** Every depth not later than an input is within the bound of it. */
  predicate Unbounded(job: Job) {
    forall x, d :: x in job.inputs && d in job.depths && x.genTime.Some? && d.genTime.Some? ==>
      x.genTime.value - d.genTime.value <= job.maxDelta
  }

  /** Orders: a later input that may take the earlier order may also wait for the later one. */
  lemma OrdersExchange(job: Job)
    requires TimeStage(job.inputs, OrderSide) && Sorted(job.inputs, InputKey)
    requires Exchangeable(InputTags(job.inputs), OrderTags(job.orders))
    ensures Exchanging(job, OrderSide)
  {
    forall i: nat, k: nat, j: nat, j': nat
      | i < k && j != j' && Fits(job, OrderSide, i, j) && Fits(job, OrderSide, i, j') && Fits(job, OrderSide, k, j)
        && Delay(job, OrderSide, i, j) <= Delay(job, OrderSide, i, j')
      ensures Fits(job, OrderSide, k, j')
    {
      assert InputKey(job.inputs[i]) <= InputKey(job.inputs[k]);
      assert job.inputs[k] in job.inputs;
      FitsAgree(job, OrderSide, i, j);
      FitsAgree(job, OrderSide, i, j');
      FitsAgree(job, OrderSide, k, j);
      assert !Rivals(InputTags(job.inputs), OrderTags(job.orders), i, k, j, j');
    }
  }

  /** Depths: without a bound a later input may take whatever depth an earlier one may. */
  lemma DepthsExchange(job: Job)
    requires Sorted(job.inputs, InputKey) && Unbounded(job)
    requires Exchangeable(InputTags(job.inputs), DepthTags(job.depths))
    ensures Exchanging(job, DepthSide)
  {
    forall i: nat, k: nat, j: nat, j': nat
      | i < k && j != j' && Fits(job, DepthSide, i, j) && Fits(job, DepthSide, i, j') && Fits(job, DepthSide, k, j)
        && Delay(job, DepthSide, i, j) <= Delay(job, DepthSide, i, j')
      ensures Fits(job, DepthSide, k, j')
    {
      assert InputKey(job.inputs[i]) <= InputKey(job.inputs[k]);
      assert job.inputs[k] in job.inputs && job.depths[j'] in job.depths;
      FitsAgree(job, DepthSide, i, j);
      FitsAgree(job, DepthSide, i, j');
      FitsAgree(job, DepthSide, k, j);
      assert !Rivals(InputTags(job.inputs), DepthTags(job.depths), i, k, j, j');
    }
  }

  /** Where no row that two inputs share has a rival, nothing need ever be exchanged. */
  lemma ChainFreeExchanges(job: Job, side: Side)
    ensures ChainFree(InputTags(job.inputs), RowTags(job, side)) ==> Exchanging(job, side)
  {
    if !Exchanging(job, side) {
      var i: nat, k: nat, j: nat, j': nat :|
        i < k && j != j' && Fits(job, side, i, j) && Fits(job, side, i, j') && Fits(job, side, k, j)
        && !Fits(job, side, k, j');
      FitsAgree(job, side, i, j);
      FitsAgree(job, side, i, j');
      FitsAgree(job, side, k, j);
      assert Chain(InputTags(job.inputs), RowTags(job, side), i, k, j, j');
    }
  }
}
