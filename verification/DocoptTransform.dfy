/**
 Expansion of a pattern tree into one disjunction of leaf lists, by a first-in
 first-out worklist of groups.  The meaning of a tree is a bag of leaf bags; the
 expansion keeps it, and a measure over groups bounds the number of rewrites.
 */
module DocoptTransform {
  import opened DocoptPattern

  // ---------------------------------------------------------------- meaning

  type Bag = multiset<Leaf>

  function Shift(a: Bag, ys: seq<Bag>): (r: seq<Bag>)
    ensures |r| == |ys|
  {
    if ys == [] then [] else [a + ys[0]] + Shift(a, ys[1..])
  }

  /** All sums of one bag of `xs` and one bag of `ys`. */
  function Cross(xs: seq<Bag>, ys: seq<Bag>): seq<Bag> {
    if xs == [] then [] else Shift(xs[0], ys) + Cross(xs[1..], ys)
  }

  /** The leaf bags a pattern stands for: OneOrMore counts as its children twice. */
  function Meaning(p: Pattern): seq<Bag>
    decreases p, 1
  {
    match p
    case Tip(leaf) => [multiset{leaf}]
    case Either(cs) => MeaningAny(cs)
    case OneOrMore(cs) => Cross(MeaningAll(cs), MeaningAll(cs))
    case Required(cs) => MeaningAll(cs)
    case Optional(cs) => MeaningAll(cs)
    case OptionsShortcut(cs) => MeaningAll(cs)
  }

  function MeaningAll(cs: seq<Pattern>): seq<Bag>
    decreases cs, 0
  {
    if cs == [] then [multiset{}] else Cross(Meaning(cs[0]), MeaningAll(cs[1..]))
  }

  function MeaningAny(cs: seq<Pattern>): seq<Bag>
    decreases cs, 0
  {
    if cs == [] then [] else Meaning(cs[0]) + MeaningAny(cs[1..])
  }

  // ---------------------------------------------------------------- algebra of Cross, up to order

  lemma {:induction false} ShiftAppend(a: Bag, xs: seq<Bag>, ys: seq<Bag>)
    ensures Shift(a, xs + ys) == Shift(a, xs) + Shift(a, ys)
  {
    if xs == [] {
      assert xs + ys == ys;
    } else {
      assert (xs + ys)[1..] == xs[1..] + ys;
      ShiftAppend(a, xs[1..], ys);
    }
  }

  lemma SumIs(a: Bag, y: Bag, x: Bag)
    ensures a + y == x <==> a <= x && y == x - a
  {
    assert (a + y) - a == y;
    if a <= x { assert a + (x - a) == x; }
  }

  lemma {:induction false} ShiftCount(a: Bag, ys: seq<Bag>, x: Bag)
    ensures multiset(Shift(a, ys))[x] == if a <= x then multiset(ys)[x - a] else 0
  {
    if ys != [] {
      ShiftCount(a, ys[1..], x);
      assert ys == [ys[0]] + ys[1..];
      SumIs(a, ys[0], x);
    }
  }

  lemma ShiftCongruence(a: Bag, xs: seq<Bag>, ys: seq<Bag>)
    requires multiset(xs) == multiset(ys)
    ensures multiset(Shift(a, xs)) == multiset(Shift(a, ys))
  {
    forall x ensures multiset(Shift(a, xs))[x] == multiset(Shift(a, ys))[x] {
      ShiftCount(a, xs, x);
      ShiftCount(a, ys, x);
    }
  }

  lemma {:induction false} CrossAppendLeft(xs: seq<Bag>, ys: seq<Bag>, zs: seq<Bag>)
    ensures Cross(xs + ys, zs) == Cross(xs, zs) + Cross(ys, zs)
  {
    if xs == [] {
      assert xs + ys == ys;
    } else {
      assert (xs + ys)[1..] == xs[1..] + ys;
      CrossAppendLeft(xs[1..], ys, zs);
    }
  }

  lemma {:induction false} CrossAppendRight(xs: seq<Bag>, ys: seq<Bag>, zs: seq<Bag>)
    ensures multiset(Cross(xs, ys + zs)) == multiset(Cross(xs, ys)) + multiset(Cross(xs, zs))
  {
    if xs != [] {
      ShiftAppend(xs[0], ys, zs);
      CrossAppendRight(xs[1..], ys, zs);
    }
  }

  lemma {:induction false} CrossOne(xs: seq<Bag>, a: Bag)
    ensures Cross(xs, [a]) == Shift(a, xs)
  {
    if xs != [] {
      CrossOne(xs[1..], a);
      assert Shift(xs[0], [a]) == [xs[0] + a] + Shift(xs[0], []);
      assert xs[0] + a == a + xs[0];
    }
  }

  lemma {:induction false} CrossEmpty(xs: seq<Bag>)
    ensures Cross(xs, []) == []
  {
    if xs != [] { CrossEmpty(xs[1..]); }
  }

  lemma {:induction false} CrossUnit(xs: seq<Bag>)
    ensures Cross([multiset{}], xs) == xs
    ensures Cross(xs, [multiset{}]) == xs
  {
    CrossOne(xs, multiset{});
    ShiftUnit(xs);
    assert Cross([multiset{}], xs) == Shift(multiset{}, xs) + Cross([], xs);
  }

  lemma {:induction false} ShiftUnit(xs: seq<Bag>)
    ensures Shift(multiset{}, xs) == xs
  {
    if xs != [] {
      ShiftUnit(xs[1..]);
      assert multiset{} + xs[0] == xs[0];
    }
  }

  lemma {:induction false} CrossCommutes(xs: seq<Bag>, ys: seq<Bag>)
    ensures multiset(Cross(xs, ys)) == multiset(Cross(ys, xs))
  {
    if xs == [] {
      CrossEmpty(ys);
    } else {
      assert xs == [xs[0]] + xs[1..];
      CrossAppendRight(ys, [xs[0]], xs[1..]);
      CrossOne(ys, xs[0]);
      CrossCommutes(xs[1..], ys);
    }
  }

  lemma {:induction false} ShiftShift(a: Bag, b: Bag, xs: seq<Bag>)
    ensures Shift(a, Shift(b, xs)) == Shift(a + b, xs)
  {
    if xs != [] {
      ShiftShift(a, b, xs[1..]);
      assert a + (b + xs[0]) == (a + b) + xs[0];
    }
  }

  lemma {:induction false} CrossShift(a: Bag, xs: seq<Bag>, ys: seq<Bag>)
    ensures Cross(Shift(a, xs), ys) == Shift(a, Cross(xs, ys))
  {
    if xs != [] {
      CrossShift(a, xs[1..], ys);
      ShiftShift(a, xs[0], ys);
      ShiftAppend(a, Shift(xs[0], ys), Cross(xs[1..], ys));
    }
  }

  lemma {:induction false} CrossAssociates(xs: seq<Bag>, ys: seq<Bag>, zs: seq<Bag>)
    ensures Cross(Cross(xs, ys), zs) == Cross(xs, Cross(ys, zs))
  {
    if xs != [] {
      CrossAppendLeft(Shift(xs[0], ys), Cross(xs[1..], ys), zs);
      CrossShift(xs[0], ys, zs);
      CrossAssociates(xs[1..], ys, zs);
    }
  }

  lemma {:induction false} CrossCongruence(xs: seq<Bag>, ys: seq<Bag>, zs: seq<Bag>)
    requires multiset(ys) == multiset(zs)
    ensures multiset(Cross(xs, ys)) == multiset(Cross(xs, zs))
  {
    if xs != [] {
      ShiftCongruence(xs[0], ys, zs);
      CrossCongruence(xs[1..], ys, zs);
    }
  }

  lemma CrossSwap(xs: seq<Bag>, ys: seq<Bag>, zs: seq<Bag>)
    ensures multiset(Cross(xs, Cross(ys, zs))) == multiset(Cross(ys, Cross(xs, zs)))
  {
    CrossAssociates(xs, ys, zs);
    CrossAssociates(ys, xs, zs);
    CrossCommutes(xs, ys);
    CrossCommutes(Cross(xs, ys), zs);
    CrossCommutes(Cross(ys, xs), zs);
    CrossCongruence(zs, Cross(xs, ys), Cross(ys, xs));
  }

  // ---------------------------------------------------------------- one rewrite

  predicate Flat(children: seq<Pattern>) {
    forall c :: c in children ==> c.Tip?
  }

  /** Position of the leftmost child that is a branch. */
  function FirstBranch(children: seq<Pattern>): (k: nat)
    requires !Flat(children)
    ensures k < |children| && !children[k].Tip?
    ensures Flat(children[..k])
  {
    if !children[0].Tip? then 0
    else
      assert children == [children[0]] + children[1..];
      1 + FirstBranch(children[1..])
  }

  function Without(children: seq<Pattern>, k: nat): seq<Pattern>
    requires k < |children|
  {
    children[..k] + children[k + 1..]
  }

  /** Each alternative of an Either, in front of the rest of its group. */
  function Alternatives(cs: seq<Pattern>, rest: seq<Pattern>): (r: seq<seq<Pattern>>)
    ensures |r| == |cs| && forall i :: 0 <= i < |cs| ==> r[i] == [cs[i]] + rest
  {
    if cs == [] then [] else [[cs[0]] + rest] + Alternatives(cs[1..], rest)
  }

  /** The groups that take the place of a group holding the branch `child`. */
  function Replacements(child: Pattern, rest: seq<Pattern>): seq<seq<Pattern>>
    requires !child.Tip?
  {
    if child.Either? then Alternatives(child.children, rest)
    else if child.OneOrMore? then [child.children + child.children + rest]
    else [child.children + rest]
  }

  /** Meaning of a list of groups. */
  function MeaningGroups(groups: seq<seq<Pattern>>): seq<Bag> {
    if groups == [] then [] else MeaningAll(groups[0]) + MeaningGroups(groups[1..])
  }

  lemma {:induction false} MeaningGroupsAppend(xs: seq<seq<Pattern>>, ys: seq<seq<Pattern>>)
    ensures MeaningGroups(xs + ys) == MeaningGroups(xs) + MeaningGroups(ys)
  {
    if xs == [] {
      assert xs + ys == ys;
    } else {
      assert (xs + ys)[1..] == xs[1..] + ys;
      MeaningGroupsAppend(xs[1..], ys);
    }
  }

  lemma {:induction false} MeaningAllAppend(xs: seq<Pattern>, ys: seq<Pattern>)
    ensures MeaningAll(xs + ys) == Cross(MeaningAll(xs), MeaningAll(ys))
  {
    if xs == [] {
      assert xs + ys == ys;
      CrossUnit(MeaningAll(ys));
    } else {
      assert (xs + ys)[1..] == xs[1..] + ys;
      MeaningAllAppend(xs[1..], ys);
      CrossAssociates(Meaning(xs[0]), MeaningAll(xs[1..]), MeaningAll(ys));
    }
  }

  lemma MeaningOfFirst(c: Pattern, cs: seq<Pattern>)
    ensures MeaningAll([c] + cs) == Cross(Meaning(c), MeaningAll(cs))
  {
    assert ([c] + cs)[1..] == cs;
  }

  lemma MeaningOfThree(pre: seq<Pattern>, c: Pattern, post: seq<Pattern>)
    ensures MeaningAll(pre + ([c] + post)) == Cross(MeaningAll(pre), Cross(Meaning(c), MeaningAll(post)))
  {
    MeaningAllAppend(pre, [c] + post);
    MeaningOfFirst(c, post);
  }

  lemma Around(children: seq<Pattern>, k: nat)
    requires k < |children|
    ensures children == children[..k] + ([children[k]] + children[k + 1..])
  {
  }

  lemma MeaningAround(children: seq<Pattern>, k: nat)
    requires k < |children|
    ensures var a, b, c := MeaningAll(children[..k]), Meaning(children[k]), MeaningAll(children[k + 1..]);
            MeaningAll(children) == Cross(a, Cross(b, c)) && MeaningAll(Without(children, k)) == Cross(a, c)
  {
    Around(children, k);
    MeaningOfThree(children[..k], children[k], children[k + 1..]);
    MeaningAllAppend(children[..k], children[k + 1..]);
  }

  /** A group means the same with one child moved to the front. */
  lemma MoveToFront(children: seq<Pattern>, k: nat)
    requires k < |children|
    ensures multiset(MeaningAll(children))
         == multiset(Cross(Meaning(children[k]), MeaningAll(Without(children, k))))
  {
    MeaningAround(children, k);
    CrossSwap(MeaningAll(children[..k]), Meaning(children[k]), MeaningAll(children[k + 1..]));
  }

  lemma {:induction false} AlternativesMeaning(cs: seq<Pattern>, rest: seq<Pattern>)
    ensures MeaningGroups(Alternatives(cs, rest)) == Cross(MeaningAny(cs), MeaningAll(rest))
  {
    if cs != [] {
      AlternativesMeaning(cs[1..], rest);
      assert ([cs[0]] + rest)[1..] == rest;
      CrossAppendLeft(Meaning(cs[0]), MeaningAny(cs[1..]), MeaningAll(rest));
    }
  }

  lemma ReplacementsMeaning(child: Pattern, rest: seq<Pattern>)
    requires !child.Tip?
    ensures MeaningGroups(Replacements(child, rest)) == Cross(Meaning(child), MeaningAll(rest))
  {
    var cs := child.children;
    if child.Either? {
      AlternativesMeaning(cs, rest);
    } else if child.OneOrMore? {
      MeaningAllAppend(cs, cs);
      MeaningAllAppend(cs + cs, rest);
      assert MeaningGroups([cs + cs + rest]) == MeaningAll(cs + cs + rest) + MeaningGroups([]);
    } else {
      MeaningAllAppend(cs, rest);
      assert MeaningGroups([cs + rest]) == MeaningAll(cs + rest) + MeaningGroups([]);
    }
  }

  // ---------------------------------------------------------------- the measure

  function Weight(p: Pattern): (w: nat)
    ensures w >= 1
    decreases p, 1
  {
    match p
    case Tip(_) => 1
    case Either(cs) => 1 + WeightSum(cs)
    case OneOrMore(cs) => 1 + WeightProduct(cs) * WeightProduct(cs)
    case Required(cs) => 1 + WeightProduct(cs)
    case Optional(cs) => 1 + WeightProduct(cs)
    case OptionsShortcut(cs) => 1 + WeightProduct(cs)
  }

  function WeightProduct(cs: seq<Pattern>): (w: nat)
    ensures w >= 1
    decreases cs, 0
  {
    if cs == [] then 1
    else
      MulAtLeastOne(Weight(cs[0]), WeightProduct(cs[1..]));
      Weight(cs[0]) * WeightProduct(cs[1..])
  }

  function WeightSum(cs: seq<Pattern>): nat
    decreases cs, 0
  {
    if cs == [] then 0 else Weight(cs[0]) + WeightSum(cs[1..])
  }

  function GroupsWeight(groups: seq<seq<Pattern>>): nat {
    if groups == [] then 0 else WeightProduct(groups[0]) + GroupsWeight(groups[1..])
  }

  lemma MulAtLeastOne(a: nat, b: nat)
    requires a >= 1 && b >= 1
    ensures a * b >= 1
  {
  }

  lemma MulAssociates(a: nat, b: nat, c: nat)
    ensures (a * b) * c == a * (b * c)
  {
  }

  lemma MulSwaps(a: nat, b: nat, c: nat)
    ensures a * (b * c) == b * (a * c)
  {
    MulAssociates(a, b, c);
    MulAssociates(b, a, c);
  }

  lemma MulDistributes(a: nat, b: nat, c: nat)
    ensures (a + b) * c == a * c + b * c
  {
  }

  lemma {:induction false} GroupsWeightAppend(xs: seq<seq<Pattern>>, ys: seq<seq<Pattern>>)
    ensures GroupsWeight(xs + ys) == GroupsWeight(xs) + GroupsWeight(ys)
  {
    if xs == [] {
      assert xs + ys == ys;
    } else {
      assert (xs + ys)[1..] == xs[1..] + ys;
      GroupsWeightAppend(xs[1..], ys);
    }
  }

  lemma {:induction false} WeightProductAppend(xs: seq<Pattern>, ys: seq<Pattern>)
    ensures WeightProduct(xs + ys) == WeightProduct(xs) * WeightProduct(ys)
  {
    if xs == [] {
      assert xs + ys == ys;
    } else {
      assert (xs + ys)[1..] == xs[1..] + ys;
      WeightProductAppend(xs[1..], ys);
      MulAssociates(Weight(xs[0]), WeightProduct(xs[1..]), WeightProduct(ys));
    }
  }

  lemma WeightToFront(children: seq<Pattern>, k: nat)
    requires k < |children|
    ensures WeightProduct(children) == Weight(children[k]) * WeightProduct(Without(children, k))
  {
    var pre, post := children[..k], children[k + 1..];
    var tail := [children[k]] + post;
    assert children == pre + tail;
    WeightProductAppend(pre, tail);
    assert tail[1..] == post;
    WeightProductAppend(pre, post);
    MulSwaps(WeightProduct(pre), Weight(children[k]), WeightProduct(post));
  }

  lemma {:induction false} AlternativesWeight(cs: seq<Pattern>, rest: seq<Pattern>)
    ensures GroupsWeight(Alternatives(cs, rest)) == WeightSum(cs) * WeightProduct(rest)
  {
    if cs != [] {
      AlternativesWeight(cs[1..], rest);
      assert ([cs[0]] + rest)[1..] == rest;
      MulDistributes(Weight(cs[0]), WeightSum(cs[1..]), WeightProduct(rest));
    }
  }

  lemma ReplacementsWeight(child: Pattern, rest: seq<Pattern>)
    requires !child.Tip?
    ensures GroupsWeight(Replacements(child, rest)) == (Weight(child) - 1) * WeightProduct(rest)
  {
    var cs := child.children;
    if child.Either? {
      AlternativesWeight(cs, rest);
    } else if child.OneOrMore? {
      WeightProductAppend(cs, cs);
      assert Weight(child) - 1 == WeightProduct(cs + cs);
      WeightProductAppend(cs + cs, rest);
      OneGroupWeight(cs + cs + rest);
    } else {
      assert Weight(child) - 1 == WeightProduct(cs);
      WeightProductAppend(cs, rest);
      OneGroupWeight(cs + rest);
    }
  }

  lemma OneGroupWeight(cs: seq<Pattern>)
    ensures GroupsWeight([cs]) == WeightProduct(cs)
  {
    assert GroupsWeight([cs]) == WeightProduct(cs) + GroupsWeight([]);
  }

  /** Every rewrite makes the worklist strictly lighter, however it is nested. */
  lemma RewriteIsLighter(children: seq<Pattern>, groups: seq<seq<Pattern>>)
    requires !Flat(children)
    ensures var k := FirstBranch(children);
            GroupsWeight(groups + Replacements(children[k], Without(children, k)))
            < GroupsWeight([children] + groups)
  {
    var k := FirstBranch(children);
    var rest := Without(children, k);
    GroupsWeightAppend(groups, Replacements(children[k], rest));
    ReplacementsWeight(children[k], rest);
    WeightToFront(children, k);
    assert ([children] + groups)[1..] == groups;
    assert (Weight(children[k]) - 1) * WeightProduct(rest)
        == Weight(children[k]) * WeightProduct(rest) - WeightProduct(rest);
  }

  // ---------------------------------------------------------------- the expansion

  /** The leaf lists the worklist yields, in the order it yields them. */
  function Expand(groups: seq<seq<Pattern>>): (cases: seq<seq<Pattern>>)
    ensures forall g :: g in cases ==> Flat(g)
    decreases GroupsWeight(groups)
  {
    if groups == [] then []
    else
      var children := groups[0];
      assert groups == [children] + groups[1..];
      if Flat(children) then [children] + Expand(groups[1..])
      else
        var k := FirstBranch(children);
        RewriteIsLighter(children, groups[1..]);
        Expand(groups[1..] + Replacements(children[k], Without(children, k)))
  }

  /** Expanding a worklist keeps the bag of leaf bags it stands for. */
  lemma {:induction false} ExpandKeepsMeaning(groups: seq<seq<Pattern>>)
    ensures multiset(MeaningGroups(Expand(groups))) == multiset(MeaningGroups(groups))
    decreases GroupsWeight(groups)
  {
    if groups != [] {
      var children := groups[0];
      assert groups == [children] + groups[1..];
      if Flat(children) {
        ExpandKeepsMeaning(groups[1..]);
        assert ([children] + Expand(groups[1..]))[1..] == Expand(groups[1..]);
      } else {
        var k := FirstBranch(children);
        var rest := Without(children, k);
        RewriteIsLighter(children, groups[1..]);
        ExpandKeepsMeaning(groups[1..] + Replacements(children[k], rest));
        MeaningGroupsAppend(groups[1..], Replacements(children[k], rest));
        ReplacementsMeaning(children[k], rest);
        MoveToFront(children, k);
      }
    }
  }

  /** `Either(*[Required(*e) for e in cases])`. */
  function Disjunction(cases: seq<seq<Pattern>>): Pattern {
    Either(seq(|cases|, i requires 0 <= i < |cases| => Required(cases[i])))
  }

  lemma {:induction false} DisjunctionMeaning(cases: seq<seq<Pattern>>)
    ensures Meaning(Disjunction(cases)) == MeaningGroups(cases)
  {
    if cases != [] {
      DisjunctionMeaning(cases[1..]);
      var cs := Disjunction(cases).children;
      assert cs[1..] == Disjunction(cases[1..]).children;
      assert Meaning(cs[0]) == MeaningAll(cases[0]);
      assert MeaningAny(cs) == Meaning(cs[0]) + MeaningAny(cs[1..]);
      assert Meaning(Disjunction(cases[1..])) == MeaningAny(cs[1..]);
    }
  }

  function Transformed(p: Pattern): Pattern {
    Disjunction(Expand([[p]]))
  }

  /** The expanded pattern is one disjunction of leaf lists and means what the input meant. */
  lemma TransformKeepsMeaning(p: Pattern)
    ensures Transformed(p).Either?
    ensures forall c :: c in Transformed(p).children ==> c.Required? && Flat(c.children)
    ensures multiset(Meaning(Transformed(p))) == multiset(Meaning(p))
  {
    ExpandKeepsMeaning([[p]]);
    DisjunctionMeaning(Expand([[p]]));
    assert MeaningAll([p]) == Cross(Meaning(p), MeaningAll([p][1..]));
    CrossUnit(Meaning(p));
    assert MeaningGroups([[p]]) == MeaningAll([p]) + MeaningGroups([[p]][1..]);
    assert [[p]][1..] == [];
  }

  /** One turn of the worklist. */
  lemma ExpandStep(children: seq<Pattern>, groups: seq<seq<Pattern>>)
    ensures Flat(children) ==>
              Expand([children] + groups) == [children] + Expand(groups)
              && GroupsWeight(groups) < GroupsWeight([children] + groups)
    ensures !Flat(children) ==>
              var k := FirstBranch(children);
              var next := groups + Replacements(children[k], Without(children, k));
              Expand([children] + groups) == Expand(next) && GroupsWeight(next) < GroupsWeight([children] + groups)
  {
    assert ([children] + groups)[1..] == groups;
    if !Flat(children) { RewriteIsLighter(children, groups); }
  }

  /** Takes the leftmost branch out of a group and queues what replaces it. */
  method Requeue(group: seq<Pattern>, queue: seq<seq<Pattern>>) returns (groups: seq<seq<Pattern>>)
    requires !Flat(group)
    ensures var k := FirstBranch(group);
            groups == queue + Replacements(group[k], Without(group, k))
  {
    var k := FirstBranch(group);
    var child := group[k];
    var children := Without(group, k);
    groups := queue;
    if child.Either? {
      var cs := child.children;
      for i := 0 to |cs|
        invariant groups == queue + Alternatives(cs, children)[..i]
      {
        groups := groups + [[cs[i]] + children];
      }
      assert Alternatives(cs, children)[..|cs|] == Alternatives(cs, children);
    } else if child.OneOrMore? {
      groups := groups + [child.children + child.children + children];
    } else {
      groups := groups + [child.children + children];
    }
  }

  lemma MoveCase(xs: seq<seq<Pattern>>, x: seq<Pattern>, ys: seq<seq<Pattern>>)
    ensures (xs + [x]) + ys == xs + ([x] + ys)
  {
  }

  method Transform(pattern: Pattern) returns (r: Pattern)
    ensures r == Transformed(pattern)
  {
    var result: seq<seq<Pattern>> := [];
    var groups := [[pattern]];
    while groups != []
      invariant result + Expand(groups) == Expand([[pattern]])
      decreases GroupsWeight(groups)
    {
      var children := groups[0];
      assert groups == [children] + groups[1..];
      groups := groups[1..];
      ExpandStep(children, groups);
      if exists c: Pattern :: c in children && !c.Tip? {
        groups := Requeue(children, groups);
      } else {
        MoveCase(result, children, Expand(groups));
        result := result + [children];
      }
    }
    return Disjunction(result);
  }

  // ---------------------------------------------------------------- repeated terminals

  /** A terminal some reading of the pattern holds more than once. */
  ghost predicate Repeats(p: Pattern, l: Leaf) {
    exists b :: b in Meaning(p) && b[l] > 1
  }

  function LeafBag(cs: seq<Pattern>): Bag
    requires Flat(cs)
  {
    if cs == [] then multiset{} else multiset{cs[0].leaf} + LeafBag(cs[1..])
  }

  lemma {:induction false} FlatMeaning(cs: seq<Pattern>)
    requires Flat(cs)
    ensures MeaningAll(cs) == [LeafBag(cs)]
  {
    if cs != [] {
      FlatMeaning(cs[1..]);
      CrossOne([multiset{cs[0].leaf}], LeafBag(cs[1..]));
      assert LeafBag(cs[1..]) + multiset{cs[0].leaf} == LeafBag(cs);
    }
  }

  lemma {:induction false} LeafBagCounts(cs: seq<Pattern>, l: Leaf)
    requires Flat(cs)
    ensures LeafBag(cs)[l] == multiset(cs)[Tip(l)]
  {
    if cs != [] {
      LeafBagCounts(cs[1..], l);
      assert cs == [cs[0]] + cs[1..];
      assert cs[0] == Tip(cs[0].leaf);
    }
  }

  lemma {:induction false} GroupsMember(groups: seq<seq<Pattern>>, b: Bag)
    requires forall g :: g in groups ==> Flat(g)
    ensures b in MeaningGroups(groups) <==> exists i :: 0 <= i < |groups| && b == LeafBag(groups[i])
  {
    if groups != [] {
      GroupsMember(groups[1..], b);
      FlatMeaning(groups[0]);
      assert forall i :: 0 < i < |groups| ==> groups[i] == groups[1..][i - 1];
    }
  }

  /** Some of the first `k` cases holds the terminal more than once. */
  ghost predicate InSomeCase(cases: seq<seq<Pattern>>, k: nat, l: Leaf)
    requires k <= |cases|
  {
    exists i :: 0 <= i < k && multiset(cases[i])[Tip(l)] > 1
  }

  /** The worklist finds a terminal twice in one case exactly when the pattern's meaning repeats it. */
  lemma RepeatsInSomeCase(p: Pattern, l: Leaf)
    ensures Repeats(p, l) <==> InSomeCase(Expand([[p]]), |Expand([[p]])|, l)
  {
    var cases := Expand([[p]]);
    if Repeats(p, l) {
      var b :| b in Meaning(p) && b[l] > 1;
      MeaningIsCases(p, b);
      GroupsMember(cases, b);
      var i :| 0 <= i < |cases| && b == LeafBag(cases[i]);
      LeafBagCounts(cases[i], l);
    }
    if i :| 0 <= i < |cases| && multiset(cases[i])[Tip(l)] > 1 {
      LeafBagCounts(cases[i], l);
      GroupsMember(cases, LeafBag(cases[i]));
      MeaningIsCases(p, LeafBag(cases[i]));
    }
  }

  lemma MeaningIsCases(p: Pattern, b: Bag)
    ensures b in Meaning(p) <==> b in MeaningGroups(Expand([[p]]))
  {
    TransformKeepsMeaning(p);
    DisjunctionMeaning(Expand([[p]]));
    assert b in Meaning(p) <==> b in multiset(Meaning(p));
    assert b in Meaning(Transformed(p)) <==> b in multiset(Meaning(Transformed(p)));
  }

  /** Marks what a case holds more than once. */
  method MarkCase(case_: seq<Pattern>, before: set<Leaf>) returns (marked: set<Leaf>)
    requires Flat(case_)
    ensures forall l :: l in marked <==> l in before || multiset(case_)[Tip(l)] > 1
  {
    marked := before;
    for k := 0 to |case_|
      invariant forall l :: l in marked <==> l in before || (Tip(l) in case_[..k] && multiset(case_)[Tip(l)] > 1)
    {
      var e := case_[k];
      assert e in case_ && e == Tip(e.leaf);
      assert case_[..k + 1] == case_[..k] + [e];
      if multiset(case_)[e] > 1 { marked := marked + {e.leaf}; }
    }
    assert case_[..|case_|] == case_;
  }

  /** Marks the terminals whose values have to accumulate. */
  method FixRepeatingArguments(pattern: Pattern) returns (marked: set<Leaf>)
    ensures forall l :: l in marked <==> Repeats(pattern, l)
  {
    var either := Transform(pattern);
    ghost var cases := Expand([[pattern]]);
    assert |either.children| == |cases|;
    marked := {};
    for i := 0 to |either.children|
      invariant forall l :: l in marked <==> InSomeCase(cases, i, l)
    {
      assert either.children[i].children == cases[i] && cases[i] in cases;
      marked := MarkCase(either.children[i].children, marked);
    }
    forall l ensures l in marked <==> Repeats(pattern, l) {
      RepeatsInSomeCase(pattern, l);
    }
  }
}
