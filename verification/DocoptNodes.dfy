/**
 The expansion of a pattern tree over objects (core/deps/fmt-5.3.0/support/docopt.py): nodes that own
 lists of nodes, groups that are lists changed in place.  The input tree stays as it is.
 */
module DocoptNodes {
  import opened DocoptPattern
  import opened DocoptTransform

  datatype Kind = Terminal(leaf: Leaf) | AllOf | SomeOf | Shortcut | OneOf | Repeated

  /** A list that is changed in place. */
  class List {
    var items: seq<Node>

    constructor (items: seq<Node>)
      ensures this.items == items
    {
      this.items := items;
    }

    method RemoveAt(k: nat)
      requires k < |items|
      modifies this
      ensures items == old(items)[..k] + old(items)[k + 1..]
    {
      items := items[..k] + items[k + 1..];
    }
  }

  class Node {
    var kind: Kind
    var children: List

    constructor (kind: Kind, children: List)
      ensures this.kind == kind && this.children == children
    {
      this.kind := kind;
      this.children := children;
    }
  }

  // ---------------------------------------------------------------- the value of a tree of objects

  function KindOf(p: Pattern): Kind {
    match p
    case Tip(leaf) => Terminal(leaf)
    case Required(_) => AllOf
    case Optional(_) => SomeOf
    case OptionsShortcut(_) => Shortcut
    case Either(_) => OneOf
    case OneOrMore(_) => Repeated
  }

  /** Node `n`, with what it owns among the objects `h`, is the tree `p`. */
  ghost predicate Is(h: set<object>, n: Node, p: Pattern)
    reads h
    decreases p, 1
  {
    && n in h && n.children in h && n.kind == KindOf(p)
    && (!p.Tip? ==> Are(h, n.children.items, p.children))
  }

  ghost predicate Are(h: set<object>, ns: seq<Node>, ps: seq<Pattern>)
    reads h
    decreases ps, 0
  {
    |ns| == |ps| && forall i :: 0 <= i < |ns| ==> Is(h, ns[i], ps[i])
  }

  lemma {:induction false} IsAmongMore(h: set<object>, h': set<object>, n: Node, p: Pattern)
    requires Is(h, n, p) && h <= h'
    ensures Is(h', n, p)
    decreases p, 1
  {
    if !p.Tip? { AreAmongMore(h, h', n.children.items, p.children); }
  }

  lemma {:induction false} AreAmongMore(h: set<object>, h': set<object>, ns: seq<Node>, ps: seq<Pattern>)
    requires Are(h, ns, ps) && h <= h'
    ensures Are(h', ns, ps)
    decreases ps, 0
  {
    forall i | 0 <= i < |ns| ensures Is(h', ns[i], ps[i]) { IsAmongMore(h, h', ns[i], ps[i]); }
  }

  lemma AreTogether(h: set<object>, ns: seq<Node>, ps: seq<Pattern>, ns': seq<Node>, ps': seq<Pattern>)
    requires Are(h, ns, ps) && Are(h, ns', ps')
    ensures Are(h, ns + ns', ps + ps')
  {
  }

  /** Distinct lists, none of them of the tree, that hold the groups `vs`. */
  ghost predicate Hold(h: set<object>, ls: seq<List>, vs: seq<seq<Pattern>>)
    reads h, ls
  {
    && |ls| == |vs|
    && (forall i :: 0 <= i < |ls| ==> ls[i] !in h && Are(h, ls[i].items, vs[i]))
    && (forall i, j :: 0 <= i < j < |ls| ==> ls[i] != ls[j])
  }

  lemma HoldAppend(h: set<object>, ls: seq<List>, vs: seq<seq<Pattern>>, l: List, v: seq<Pattern>)
    requires Hold(h, ls, vs) && l !in h && l !in ls && Are(h, l.items, v)
    ensures Hold(h, ls + [l], vs + [v])
  {
  }

  // ---------------------------------------------------------------- the expansion

  /** The position of the first child that is no terminal. */
  method FindBranch(ghost h: set<object>, ns: seq<Node>, ghost ps: seq<Pattern>) returns (k: nat)
    requires Are(h, ns, ps)
    ensures Flat(ps) ==> k == |ns|
    ensures !Flat(ps) ==> k == FirstBranch(ps)
  {
    k := 0;
    while k < |ns| && ns[k].kind.Terminal?
      invariant k <= |ns|
      invariant forall i :: 0 <= i < k ==> ps[i].Tip?
    {
      assert Is(h, ns[k], ps[k]);
      k := k + 1;
    }
    if k < |ns| {
      assert Is(h, ns[k], ps[k]);
    }
  }

  /** The queue grew by new lists only. */
  twostate predicate Grew(queue: seq<List>, new groups: seq<List>) {
    queue <= groups && forall i :: |queue| <= i < |groups| ==> fresh(groups[i])
  }

  /** A new list at the end of the queue. */
  method Append(ghost h: set<object>, queue: seq<List>, items: seq<Node>,
                ghost vs: seq<seq<Pattern>>, ghost ps: seq<Pattern>)
    returns (groups: seq<List>)
    requires Hold(h, queue, vs) && Are(h, items, ps)
    ensures Hold(h, groups, vs + [ps]) && Grew(queue, groups)
  {
    var l := new List(items);
    HoldAppend(h, queue, vs, l, ps);
    groups := queue + [l];
  }

  method AppendAlternatives(ghost h: set<object>, queue: seq<List>, cs: seq<Node>, others: seq<Node>,
                            ghost vs: seq<seq<Pattern>>, ghost ps: seq<Pattern>, ghost rest: seq<Pattern>)
    returns (groups: seq<List>)
    requires Hold(h, queue, vs) && Are(h, cs, ps) && Are(h, others, rest)
    ensures Hold(h, groups, vs + Alternatives(ps, rest)) && Grew(queue, groups)
  {
    groups := queue;
    ghost var alternatives := Alternatives(ps, rest);
    assert vs + alternatives[..0] == vs;
    for i := 0 to |cs|
      invariant Hold(h, groups, vs + alternatives[..i])
      invariant Grew(queue, groups)
    {
      AreTogether(h, [cs[i]], [ps[i]], others, rest);
      groups := Append(h, groups, [cs[i]] + others, vs + alternatives[..i], [ps[i]] + rest);
      assert vs + alternatives[..i + 1] == vs + alternatives[..i] + [alternatives[i]];
    }
    assert alternatives[..|cs|] == alternatives;
  }

  /** Queues what replaces a branch `child` before the rest of its group. */
  method AppendReplacements(ghost h: set<object>, queue: seq<List>, child: Node, others: seq<Node>,
                            ghost vs: seq<seq<Pattern>>, ghost p: Pattern, ghost rest: seq<Pattern>)
    returns (groups: seq<List>)
    requires Hold(h, queue, vs) && Is(h, child, p) && !p.Tip? && Are(h, others, rest)
    ensures Hold(h, groups, vs + Replacements(p, rest)) && Grew(queue, groups)
  {
    var cs := child.children.items;
    AreTogether(h, cs, p.children, others, rest);
    if child.kind == OneOf {
      groups := AppendAlternatives(h, queue, cs, others, vs, p.children, rest);
    } else if child.kind == Repeated {
      AreTogether(h, cs, p.children, cs, p.children);
      AreTogether(h, cs + cs, p.children + p.children, others, rest);
      groups := Append(h, queue, cs + cs + others, vs, p.children + p.children + rest);
    } else {
      groups := Append(h, queue, cs + others, vs, p.children + rest);
    }
  }

  lemma AreWithout(h: set<object>, ns: seq<Node>, ps: seq<Pattern>, k: nat)
    requires Are(h, ns, ps) && k < |ns|
    ensures Are(h, ns[..k] + ns[k + 1..], Without(ps, k))
  {
  }

  /** Takes the branch at `k` out of a group, in place, and queues new lists for what replaces it. */
  method RequeueNodes(ghost h: set<object>, group: List, k: nat, queue: seq<List>,
                      ghost ps: seq<Pattern>, ghost vs: seq<seq<Pattern>>)
    returns (groups: seq<List>)
    requires Are(h, group.items, ps) && !Flat(ps) && k == FirstBranch(ps)
    requires Hold(h, queue, vs) && group !in h && group !in queue
    modifies group
    ensures Hold(h, groups, vs + Replacements(ps[k], Without(ps, k)))
    ensures Grew(queue, groups)
  {
    var child := group.items[k];
    assert Is(h, child, ps[k]);
    AreWithout(h, group.items, ps, k);
    group.RemoveAt(k);
    groups := AppendReplacements(h, queue, child, group.items, vs, ps[k], Without(ps, k));
  }

  /** A Required node for each finished case. */
  method BuildCases(ghost h: set<object>, cases: seq<List>, ghost vs: seq<seq<Pattern>>)
    returns (ns: seq<Node>, ghost h': set<object>)
    requires Hold(h, cases, vs)
    ensures h <= h' && fresh(h' - h)
    ensures Are(h', ns, Disjunction(vs).children)
  {
    ns, h' := [], h;
    for i := 0 to |cases|
      invariant Hold(h, cases, vs) && h <= h' && fresh(h' - h)
      invariant Are(h', ns, Disjunction(vs).children[..i])
    {
      var l := new List(cases[i].items);
      var n := new Node(AllOf, l);
      AreAmongMore(h', h' + {n, l}, ns, Disjunction(vs).children[..i]);
      AreAmongMore(h, h' + {n, l}, l.items, vs[i]);
      h' := h' + {n, l};
      assert Is(h', n, Required(vs[i]));
      ns := ns + [n];
    }
    assert Disjunction(vs).children[..|cases|] == Disjunction(vs).children;
  }

  lemma PopHeld(h: set<object>, ls: seq<List>, vs: seq<seq<Pattern>>)
    requires Hold(h, ls, vs) && ls != []
    ensures ls[0] !in h && ls[0] !in ls[1..] && Are(h, ls[0].items, vs[0]) && Hold(h, ls[1..], vs[1..])
  {
  }

  /** A group of terminals is a finished case; any other is queued again without its first branch. */
  method TakeTurn(ghost h: set<object>, group: List, queue: seq<List>, result: seq<List>,
                  ghost vs: seq<seq<Pattern>>, ghost cases: seq<seq<Pattern>>)
    returns (groups: seq<List>, done: seq<List>, ghost vs': seq<seq<Pattern>>, ghost cases': seq<seq<Pattern>>)
    requires vs != [] && Hold(h, queue, vs[1..]) && Hold(h, result, cases)
    requires Are(h, group.items, vs[0]) && group !in h && group !in queue && group !in result
    requires forall l :: l in result ==> l !in queue
    modifies group
    ensures Hold(h, groups, vs') && Hold(h, done, cases')
    ensures cases' + Expand(vs') == cases + Expand(vs) && GroupsWeight(vs') < GroupsWeight(vs)
    ensures forall l :: l in groups ==> l in queue || fresh(l)
    ensures forall l :: l in done ==> (l in result || l == group) && l !in groups
  {
    ghost var ps := vs[0];
    assert vs == [ps] + vs[1..];
    ExpandStep(ps, vs[1..]);
    var k := FindBranch(h, group.items, ps);
    if k < |group.items| {
      groups := RequeueNodes(h, group, k, queue, ps, vs[1..]);
      done := result;
      vs', cases' := vs[1..] + Replacements(ps[k], Without(ps, k)), cases;
    } else {
      MoveCase(cases, ps, Expand(vs[1..]));
      HoldAppend(h, result, cases, group, ps);
      groups, done := queue, result + [group];
      vs', cases' := vs[1..], cases + [ps];
    }
  }

  lemma HoldOne(h: set<object>, l: List, n: Node, p: Pattern)
    requires l !in h && l.items == [n] && Is(h, n, p)
    ensures Hold(h, [l], [[p]])
  {
  }

  lemma NothingLeft(cases: seq<seq<Pattern>>)
    ensures cases + Expand([]) == cases
  {
  }

  /** The finished cases of a worklist, as lists of nodes of the tree. */
  method ExpandNodes(ghost h: set<object>, start: seq<List>, ghost vs0: seq<seq<Pattern>>) returns (result: seq<List>)
    requires Hold(h, start, vs0)
    modifies start
    ensures Hold(h, result, Expand(vs0))
  {
    result := [];
    var groups := start;
    ghost var vs, cases := vs0, [];
    while groups != []
      invariant Hold(h, result, cases) && Hold(h, groups, vs)
      invariant forall l :: l in result ==> l !in groups
      invariant forall l :: l in groups ==> l in start || fresh(l)
      invariant cases + Expand(vs) == Expand(vs0)
      decreases GroupsWeight(vs)
    {
      var children := groups[0];
      assert children in groups;
      PopHeld(h, groups, vs);
      groups, result, vs, cases := TakeTurn(h, children, groups[1..], result, vs, cases);
    }
    NothingLeft(cases);
  }

  /** The expansion returns a new tree for the expanded pattern and changes no object there was before. */
  method TransformNodes(root: Node, ghost h: set<object>, ghost p: Pattern)
    returns (r: Node, ghost h': set<object>)
    requires Is(h, root, p)
    ensures h <= h' && fresh(h' - h) && r !in h
    ensures Is(h', r, Transformed(p)) && Is(h, root, p)
  {
    var first := new List([root]);
    HoldOne(h, first, root, p);
    var result := ExpandNodes(h, [first], [[p]]);
    var ns, more := BuildCases(h, result, Expand([[p]]));
    var l := new List(ns);
    r := new Node(OneOf, l);
    h' := more + {r, l};
    AreAmongMore(more, h', l.items, Transformed(p).children);
  }
}
