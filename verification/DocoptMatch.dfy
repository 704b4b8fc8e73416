/**
 The matcher of usage patterns against parsed command-line arguments
 (core/deps/fmt-5.3.0/support/docopt.py).  `collected` is the log of what each
 terminal consumed, in order.
 */
module DocoptMatch {
  import opened DocoptPattern
  import opened Wrappers

  /** An element of a parsed argument vector. */
  datatype Arg = Positional(value: string) | Opt(name: string)

  datatype Taken = Taken(leaf: Leaf, arg: Arg)

  datatype Outcome = Outcome(matched: bool, left: seq<Arg>, collected: seq<Taken>)

  /** The assertion at the head of OneOrMore's matcher, at every node of a tree. */
  predicate WellFormed(p: Pattern) {
    match p
    case Tip(_) => true
    case OneOrMore(cs) => |cs| == 1 && WellFormed(cs[0])
    case _ => forall c :: c in p.children ==> WellFormed(c)
  }

  /** Does this terminal look at this argument at all? */
  predicate Sees(leaf: Leaf, arg: Arg) {
    if leaf.Option? then arg.Opt? && arg.name == leaf.name else arg.Positional?
  }

  function SingleMatch(leaf: Leaf, left: seq<Arg>): (r: Option<nat>)
    ensures r.Some? ==> r.value < |left| && Sees(leaf, left[r.value])
  {
    if left == [] then None
    else if Sees(leaf, left[0]) then
      if leaf.Command? && left[0].value != leaf.name then None else Some(0)
    else
      match SingleMatch(leaf, left[1..])
      case None => None
      case Some(k) => Some(k + 1)
  }

  // ---------------------------------------------------------------- what a match returns

  function MatchLeaf(leaf: Leaf, left: seq<Arg>, collected: seq<Taken>): Outcome {
    match SingleMatch(leaf, left)
    case None => Outcome(false, left, collected)
    case Some(k) => Outcome(true, left[..k] + left[k + 1..], collected + [Taken(leaf, left[k])])
  }

  function Match(p: Pattern, left: seq<Arg>, collected: seq<Taken>): (r: Outcome)
    requires WellFormed(p)
    ensures |r.left| <= |left|
    ensures !r.matched ==> r.left == left && r.collected == collected
    decreases p, 0, 0
  {
    match p
    case Tip(leaf) => MatchLeaf(leaf, left, collected)
    case Required(cs) =>
      var r := MatchAll(cs, left, collected);
      if r.matched then r else Outcome(false, left, collected)
    case Optional(cs) => MatchSome(cs, left, collected)
    case OptionsShortcut(cs) => MatchSome(cs, left, collected)
    case Either(cs) => MatchBest(cs, left, collected)
    case OneOrMore(cs) =>
      if Match(cs[0], left, collected).matched then MatchMany(cs[0], left, collected)
      else Outcome(false, left, collected)
  }

  /** The children one after the other, up to the first that fails. */
  function MatchAll(cs: seq<Pattern>, left: seq<Arg>, collected: seq<Taken>): (r: Outcome)
    requires forall c :: c in cs ==> WellFormed(c)
    ensures |r.left| <= |left|
    decreases cs, 0, 0
  {
    if cs == [] then Outcome(true, left, collected)
    else
      var r := Match(cs[0], left, collected);
      if r.matched then MatchAll(cs[1..], r.left, r.collected) else r
  }

  /** The children one after the other, ignoring which of them fail. */
  function MatchSome(cs: seq<Pattern>, left: seq<Arg>, collected: seq<Taken>): (r: Outcome)
    requires forall c :: c in cs ==> WellFormed(c)
    ensures |r.left| <= |left| && r.matched
    decreases cs, 0, 0
  {
    if cs == [] then Outcome(true, left, collected)
    else
      var r := Match(cs[0], left, collected);
      MatchSome(cs[1..], r.left, r.collected)
  }

  function Better(a: Outcome, b: Outcome): Outcome {
    if !b.matched || (a.matched && |a.left| <= |b.left|) then a else b
  }

  /** The first of the matching alternatives that leaves fewest arguments. */
  function MatchBest(cs: seq<Pattern>, left: seq<Arg>, collected: seq<Taken>): (r: Outcome)
    requires forall c :: c in cs ==> WellFormed(c)
    ensures |r.left| <= |left|
    ensures !r.matched ==> r.left == left && r.collected == collected
    decreases cs, 0, 0
  {
    if cs == [] then Outcome(false, left, collected)
    else Better(Match(cs[0], left, collected), MatchBest(cs[1..], left, collected))
  }

  /** The child again and again, until it fails or consumes nothing. */
  function MatchMany(p: Pattern, left: seq<Arg>, collected: seq<Taken>): (r: Outcome)
    requires WellFormed(p)
    ensures |r.left| <= |left| && r.matched
    decreases p, 1, |left|
  {
    var r := Match(p, left, collected);
    if r.matched && |r.left| < |left| then MatchMany(p, r.left, r.collected)
    else Outcome(true, left, r.collected)
  }

  // ---------------------------------------------------------------- conservation and order

  /** What a match owes its caller: a log that only grew, and nothing lost or invented. */
  ghost predicate Conserves(left: seq<Arg>, collected: seq<Taken>, r: Outcome) {
    && collected <= r.collected
    && Subsequence(r.left, left)
    && multiset(left) == multiset(r.left) + multiset(Args(r.collected[|collected|..]))
    && TakenInTurn(r.left, left)
  }

  /** Of each kind of argument, `left` is `whole` with some taken from the front. */
  ghost predicate TakenInTurn(left: seq<Arg>, whole: seq<Arg>) {
    forall k :: Suffix(Only(left, k), Only(whole, k))
  }

  function Args(ts: seq<Taken>): (r: seq<Arg>)
    ensures |r| == |ts|
  {
    if ts == [] then [] else [ts[0].arg] + Args(ts[1..])
  }

  /** Arguments that one terminal can tell apart only by position. */
  datatype Key = PositionalKey | OptionKey(name: string)

  function KeyOf(arg: Arg): Key {
    if arg.Positional? then PositionalKey else OptionKey(arg.name)
  }

  function Only(args: seq<Arg>, k: Key): seq<Arg> {
    if args == [] then []
    else if KeyOf(args[0]) == k then [args[0]] + Only(args[1..], k)
    else Only(args[1..], k)
  }

  ghost predicate Suffix(xs: seq<Arg>, ys: seq<Arg>) {
    |xs| <= |ys| && ys[|ys| - |xs|..] == xs
  }

  /** `xs` is `ys` with some elements dropped. */
  predicate Subsequence(xs: seq<Arg>, ys: seq<Arg>) {
    if xs == [] then true
    else if ys == [] then false
    else if xs[0] == ys[0] then Subsequence(xs[1..], ys[1..])
    else Subsequence(xs, ys[1..])
  }

  lemma {:induction false} ArgsAppend(xs: seq<Taken>, ys: seq<Taken>)
    ensures Args(xs + ys) == Args(xs) + Args(ys)
  {
    if xs == [] {
      assert xs + ys == ys;
    } else {
      assert (xs + ys)[1..] == xs[1..] + ys;
      ArgsAppend(xs[1..], ys);
    }
  }

  lemma {:induction false} SubsequenceReflexive(xs: seq<Arg>)
    ensures Subsequence(xs, xs)
  {
    if xs != [] { SubsequenceReflexive(xs[1..]); }
  }

  lemma {:induction false} SubsequenceOfTail(xs: seq<Arg>, ys: seq<Arg>)
    requires ys != [] && Subsequence(xs, ys[1..])
    ensures Subsequence(xs, ys)
  {
    if xs != [] && xs[0] == ys[0] { TailSubsequence(xs, ys[1..]); }
  }

  lemma {:induction false} TailSubsequence(xs: seq<Arg>, ys: seq<Arg>)
    requires xs != [] && Subsequence(xs, ys)
    ensures Subsequence(xs[1..], ys)
  {
    if xs[0] == ys[0] {
      SubsequenceOfTail(xs[1..], ys);
    } else {
      TailSubsequence(xs, ys[1..]);
      SubsequenceOfTail(xs[1..], ys);
    }
  }

  lemma {:induction false} SubsequenceTransitive(xs: seq<Arg>, ys: seq<Arg>, zs: seq<Arg>)
    requires Subsequence(xs, ys) && Subsequence(ys, zs)
    ensures Subsequence(xs, zs)
  {
    if xs != [] {
      if ys[0] == zs[0] {
        if xs[0] == ys[0] {
          SubsequenceTransitive(xs[1..], ys[1..], zs[1..]);
        } else {
          SubsequenceTransitive(xs, ys[1..], zs[1..]);
        }
      } else {
        SubsequenceTransitive(xs, ys, zs[1..]);
        SubsequenceOfTail(xs, zs);
      }
    }
  }

  lemma {:induction false} SubsequenceLength(xs: seq<Arg>, ys: seq<Arg>)
    requires Subsequence(xs, ys)
    ensures |xs| <= |ys|
    ensures |xs| == |ys| ==> xs == ys
  {
    if xs != [] {
      if xs[0] == ys[0] {
        SubsequenceLength(xs[1..], ys[1..]);
        assert xs == [xs[0]] + xs[1..] && ys == [ys[0]] + ys[1..];
      } else {
        SubsequenceLength(xs, ys[1..]);
      }
    }
  }

  lemma {:induction false} SubsequenceWithout(xs: seq<Arg>, n: nat)
    requires n < |xs|
    ensures Subsequence(xs[..n] + xs[n + 1..], xs)
  {
    var rest := xs[..n] + xs[n + 1..];
    if n == 0 {
      assert rest == xs[1..];
      SubsequenceReflexive(xs[1..]);
      SubsequenceOfTail(xs[1..], xs);
    } else {
      SubsequenceWithout(xs[1..], n - 1);
      assert rest[1..] == xs[1..][..n - 1] + xs[1..][n..];
    }
  }

  lemma SuffixTransitive(xs: seq<Arg>, ys: seq<Arg>, zs: seq<Arg>)
    requires Suffix(xs, ys) && Suffix(ys, zs)
    ensures Suffix(xs, zs)
  {
  }

  lemma TakenInTurnTransitive(xs: seq<Arg>, ys: seq<Arg>, zs: seq<Arg>)
    requires TakenInTurn(xs, ys) && TakenInTurn(ys, zs)
    ensures TakenInTurn(xs, zs)
  {
    forall k ensures Suffix(Only(xs, k), Only(zs, k)) {
      SuffixTransitive(Only(xs, k), Only(ys, k), Only(zs, k));
    }
  }

  lemma ConservesNothing(left: seq<Arg>, collected: seq<Taken>, matched: bool)
    ensures Conserves(left, collected, Outcome(matched, left, collected))
  {
    assert collected[|collected|..] == [];
    SubsequenceReflexive(left);
  }

  lemma GainsAdd(xs: seq<Taken>, ys: seq<Taken>, zs: seq<Taken>)
    requires xs <= ys <= zs
    ensures multiset(Args(zs[|xs|..])) == multiset(Args(ys[|xs|..])) + multiset(Args(zs[|ys|..]))
  {
    assert zs[|xs|..] == ys[|xs|..] + zs[|ys|..];
    ArgsAppend(ys[|xs|..], zs[|ys|..]);
  }

  lemma ConservesThen(left: seq<Arg>, collected: seq<Taken>, r: Outcome, s: Outcome)
    requires Conserves(left, collected, r) && Conserves(r.left, r.collected, s)
    ensures Conserves(left, collected, s)
  {
    GainsAdd(collected, r.collected, s.collected);
    SubsequenceTransitive(s.left, r.left, left);
    TakenInTurnTransitive(s.left, r.left, left);
  }

  /** The element a terminal takes is the first of its kind, and nothing else goes. */
  lemma {:induction false} SingleMatchTakesFirst(leaf: Leaf, left: seq<Arg>, k: Key)
    requires SingleMatch(leaf, left).Some?
    ensures var n := SingleMatch(leaf, left).value;
            var rest := left[..n] + left[n + 1..];
            if k == KeyOf(left[n])
            then Only(left, k) == [left[n]] + Only(rest, k)
            else Only(left, k) == Only(rest, k)
  {
    var n := SingleMatch(leaf, left).value;
    var rest := left[..n] + left[n + 1..];
    if n == 0 {
      assert rest == left[1..];
    } else {
      SingleMatchTakesFirst(leaf, left[1..], k);
      var rest' := left[1..][..n - 1] + left[1..][n..];
      assert rest[1..] == rest' && rest[0] == left[0];
    }
  }

  lemma LeafTakenInTurn(leaf: Leaf, left: seq<Arg>)
    requires SingleMatch(leaf, left).Some?
    ensures var n := SingleMatch(leaf, left).value; TakenInTurn(left[..n] + left[n + 1..], left)
  {
    var n := SingleMatch(leaf, left).value;
    forall k ensures Suffix(Only(left[..n] + left[n + 1..], k), Only(left, k)) {
      SingleMatchTakesFirst(leaf, left, k);
    }
  }

  lemma LeafConserves(leaf: Leaf, left: seq<Arg>, collected: seq<Taken>)
    ensures Conserves(left, collected, MatchLeaf(leaf, left, collected))
  {
    var r := MatchLeaf(leaf, left, collected);
    if r.matched {
      var n := SingleMatch(leaf, left).value;
      assert left == left[..n] + [left[n]] + left[n + 1..];
      assert r.collected[|collected|..] == [Taken(leaf, left[n])];
      SubsequenceWithout(left, n);
      LeafTakenInTurn(leaf, left);
    } else {
      ConservesNothing(left, collected, false);
    }
  }

  /** No argument is lost, invented or taken out of turn, whether the match succeeds or fails. */
  lemma {:induction false} MatchConserves(p: Pattern, left: seq<Arg>, collected: seq<Taken>)
    requires WellFormed(p)
    ensures Conserves(left, collected, Match(p, left, collected))
    decreases p, 0, 0
  {
    ConservesNothing(left, collected, false);
    match p
    case Tip(leaf) => LeafConserves(leaf, left, collected);
    case Required(cs) => AllConserves(cs, left, collected);
    case Optional(cs) => SomeConserves(cs, left, collected);
    case OptionsShortcut(cs) => SomeConserves(cs, left, collected);
    case Either(cs) => BestConserves(cs, left, collected);
    case OneOrMore(cs) => ManyConserves(cs[0], left, collected);
  }

  lemma {:induction false} AllConserves(cs: seq<Pattern>, left: seq<Arg>, collected: seq<Taken>)
    requires forall c :: c in cs ==> WellFormed(c)
    ensures Conserves(left, collected, MatchAll(cs, left, collected))
    decreases cs, 0, 0
  {
    if cs == [] {
      ConservesNothing(left, collected, true);
    } else {
      var r := Match(cs[0], left, collected);
      MatchConserves(cs[0], left, collected);
      if r.matched {
        AllConserves(cs[1..], r.left, r.collected);
        ConservesThen(left, collected, r, MatchAll(cs, left, collected));
      }
    }
  }

  lemma {:induction false} SomeConserves(cs: seq<Pattern>, left: seq<Arg>, collected: seq<Taken>)
    requires forall c :: c in cs ==> WellFormed(c)
    ensures Conserves(left, collected, MatchSome(cs, left, collected))
    decreases cs, 0, 0
  {
    if cs == [] {
      ConservesNothing(left, collected, true);
    } else {
      var r := Match(cs[0], left, collected);
      MatchConserves(cs[0], left, collected);
      SomeConserves(cs[1..], r.left, r.collected);
      ConservesThen(left, collected, r, MatchSome(cs, left, collected));
    }
  }

  lemma {:induction false} BestConserves(cs: seq<Pattern>, left: seq<Arg>, collected: seq<Taken>)
    requires forall c :: c in cs ==> WellFormed(c)
    ensures Conserves(left, collected, MatchBest(cs, left, collected))
    decreases cs, 0, 0
  {
    if cs == [] {
      ConservesNothing(left, collected, false);
    } else {
      MatchConserves(cs[0], left, collected);
      BestConserves(cs[1..], left, collected);
    }
  }

  lemma {:induction false} ManyConserves(p: Pattern, left: seq<Arg>, collected: seq<Taken>)
    requires WellFormed(p)
    ensures Conserves(left, collected, MatchMany(p, left, collected))
    decreases p, 1, |left|
  {
    var r := Match(p, left, collected);
    MatchConserves(p, left, collected);
    if r.matched && |r.left| < |left| {
      ManyConserves(p, r.left, r.collected);
      ConservesThen(left, collected, r, MatchMany(p, left, collected));
    } else {
      SameLengthSameList(left, collected, r);
    }
  }

  lemma SameLengthSameList(left: seq<Arg>, collected: seq<Taken>, r: Outcome)
    requires Conserves(left, collected, r) && |r.left| == |left|
    ensures r.left == left && r.collected == collected
  {
    var gained := r.collected[|collected|..];
    assert |multiset(left)| == |multiset(r.left)| + |multiset(Args(gained))|;
    assert r.collected == collected + gained;
    SubsequenceLength(r.left, left);
  }

  // ---------------------------------------------------------------- choice and repetition

  /** The alternatives before the i-th, where they match, leave more than it does. */
  ghost predicate WorseBefore(cs: seq<Pattern>, i: nat, left: seq<Arg>, collected: seq<Taken>)
    requires i < |cs|
    requires forall c :: c in cs ==> WellFormed(c)
  {
    forall j :: 0 <= j < i && Match(cs[j], left, collected).matched
      ==> |Match(cs[i], left, collected).left| < |Match(cs[j], left, collected).left|
  }

  /** Either returns the outcome of one alternative, and no alternative that matched leaves less. */
  lemma {:induction false} EitherIsBest(cs: seq<Pattern>, left: seq<Arg>, collected: seq<Taken>)
    requires forall c :: c in cs ==> WellFormed(c)
    ensures var r := Match(Either(cs), left, collected);
            (r.matched <==> exists c :: c in cs && Match(c, left, collected).matched)
    ensures var r := Match(Either(cs), left, collected);
            forall c :: c in cs && Match(c, left, collected).matched ==> |r.left| <= |Match(c, left, collected).left|
    ensures var r := Match(Either(cs), left, collected);
            r.matched ==>
              exists i :: 0 <= i < |cs| && r == Match(cs[i], left, collected) && WorseBefore(cs, i, left, collected)
  {
    if cs != [] {
      var tail := cs[1..];
      EitherIsBest(tail, left, collected);
      assert forall c :: c in cs <==> c == cs[0] || c in tail;
      var a, b := Match(cs[0], left, collected), MatchBest(tail, left, collected);
      if a.matched && Better(a, b) == a {
        assert cs[0] in cs && Match(cs[0], left, collected).matched;
        assert WorseBefore(cs, 0, left, collected);
      } else if b.matched {
        var i :| 0 <= i < |tail| && b == Match(tail[i], left, collected) && WorseBefore(tail, i, left, collected);
        assert cs[i + 1] == tail[i];
        forall j | 0 <= j < i + 1 && Match(cs[j], left, collected).matched
          ensures |b.left| < |Match(cs[j], left, collected).left|
        {
          if j > 0 { assert cs[j] == tail[j - 1]; }
        }
      }
    }
  }

  /** Where a repetition stops, one more round would fail or consume nothing. */
  lemma RepetitionIsExhausted(p: Pattern, left: seq<Arg>, collected: seq<Taken>)
    requires WellFormed(p)
    ensures var r := Match(OneOrMore([p]), left, collected);
            r.matched ==>
              var again := Match(p, r.left, r.collected);
              again.left == r.left && again.collected == r.collected
  {
    ManyIsExhausted(p, left, collected);
  }

  lemma {:induction false} ManyIsExhausted(p: Pattern, left: seq<Arg>, collected: seq<Taken>)
    requires WellFormed(p)
    ensures var r := MatchMany(p, left, collected);
            var again := Match(p, r.left, r.collected);
            again.left == r.left && again.collected == r.collected
    decreases |left|
  {
    var r := Match(p, left, collected);
    MatchConserves(p, left, collected);
    if r.matched && |r.left| < |left| {
      ManyIsExhausted(p, r.left, r.collected);
    } else {
      SameLengthSameList(left, collected, r);
    }
  }

  lemma RepetitionUnfolds(p: Pattern, left: seq<Arg>, collected: seq<Taken>)
    requires WellFormed(p)
    ensures Match(OneOrMore([p]), left, collected) ==
            if Match(p, left, collected).matched then MatchMany(p, left, collected)
            else Outcome(false, left, collected)
  {
  }

  lemma ManyOnce(p: Pattern, left: seq<Arg>, collected: seq<Taken>)
    requires WellFormed(p)
    ensures var once := Match(p, left, collected);
            MatchMany(p, left, collected) ==
            if once.matched && |once.left| < |left| then MatchMany(p, once.left, once.collected)
            else Outcome(true, left, collected)
  {
    var once := Match(p, left, collected);
    MatchConserves(p, left, collected);
    if |once.left| == |left| { SameLengthSameList(left, collected, once); }
  }

  /** A repetition is one round, and the repetition again on what it left if that goes on. */
  lemma RepetitionInRounds(p: Pattern, left: seq<Arg>, collected: seq<Taken>)
    requires WellFormed(p)
    ensures var once, r := Match(p, left, collected), Match(OneOrMore([p]), left, collected);
            (r.matched <==> once.matched)
            && (once.matched ==>
                  var more := Match(OneOrMore([p]), once.left, once.collected);
                  r == if |once.left| < |left| && more.matched then more else once)
  {
    var once := Match(p, left, collected);
    RepetitionUnfolds(p, left, collected);
    if once.matched {
      RepetitionUnfolds(p, once.left, once.collected);
      ManyOnce(p, left, collected);
      ManyOnce(p, once.left, once.collected);
      MatchConserves(p, left, collected);
      if |once.left| == |left| { SameLengthSameList(left, collected, once); }
    }
  }

  // ---------------------------------------------------------------- the language of a pattern

  /** The words of terminals a pattern allows, independently of any argument vector. */
  ghost predicate Accepts(p: Pattern, w: seq<Leaf>)
    requires WellFormed(p)
    decreases p, 0, 0
  {
    match p
    case Tip(leaf) => w == [leaf]
    case Required(cs) => AcceptsAll(cs, w)
    case Optional(cs) => AcceptsSome(cs, w)
    case OptionsShortcut(cs) => AcceptsSome(cs, w)
    case Either(cs) => exists c :: c in cs && Accepts(c, w)
    case OneOrMore(cs) => AcceptsMany(cs[0], w)
  }

  /** A word of every child, in order. */
  ghost predicate AcceptsAll(cs: seq<Pattern>, w: seq<Leaf>)
    requires forall c :: c in cs ==> WellFormed(c)
    decreases cs, 0, 0
  {
    if cs == [] then w == []
    else exists k :: 0 <= k <= |w| && Accepts(cs[0], w[..k]) && AcceptsAll(cs[1..], w[k..])
  }

  /** A word of some of the children, in order. */
  ghost predicate AcceptsSome(cs: seq<Pattern>, w: seq<Leaf>)
    requires forall c :: c in cs ==> WellFormed(c)
    decreases cs, 0, 0
  {
    if cs == [] then w == []
    else exists k :: 0 <= k <= |w| && (k == 0 || Accepts(cs[0], w[..k])) && AcceptsSome(cs[1..], w[k..])
  }

  /** One word of the pattern, or several non-empty parts each of which begins with one. */
  ghost predicate AcceptsMany(p: Pattern, w: seq<Leaf>)
    requires WellFormed(p)
    decreases p, 1, |w|
  {
    Accepts(p, w) || exists k :: 0 < k < |w| && Accepts(p, w[..k]) && AcceptsMany(p, w[k..])
  }

  function Leaves(ts: seq<Taken>): (r: seq<Leaf>)
    ensures |r| == |ts|
  {
    if ts == [] then [] else [ts[0].leaf] + Leaves(ts[1..])
  }

  lemma {:induction false} LeavesAppend(xs: seq<Taken>, ys: seq<Taken>)
    ensures Leaves(xs + ys) == Leaves(xs) + Leaves(ys)
  {
    if xs == [] {
      assert xs + ys == ys;
    } else {
      assert (xs + ys)[1..] == xs[1..] + ys;
      LeavesAppend(xs[1..], ys);
    }
  }

  /** The terminals consumed since `collected`. */
  function Word(collected: seq<Taken>, r: Outcome): seq<Leaf>
    requires collected <= r.collected
  {
    Leaves(r.collected[|collected|..])
  }

  lemma WordSplits(collected: seq<Taken>, r: Outcome, s: Outcome)
    requires collected <= r.collected <= s.collected
    ensures var k := |r.collected| - |collected|;
            |Word(collected, s)| >= k
            && Word(collected, s)[..k] == Word(collected, r)
            && Word(collected, s)[k..] == Word(r.collected, s)
  {
    var xs, ys := r.collected[|collected|..], s.collected[|r.collected|..];
    assert s.collected[|collected|..] == xs + ys;
    LeavesAppend(xs, ys);
  }

  /** Whatever a successful match consumed is a word of the pattern. */
  lemma {:induction false} MatchIsSound(p: Pattern, left: seq<Arg>, collected: seq<Taken>)
    requires WellFormed(p)
    ensures var r := Match(p, left, collected);
            collected <= r.collected && (r.matched ==> Accepts(p, Word(collected, r)))
    decreases p, 0, 0
  {
    MatchConserves(p, left, collected);
    var r := Match(p, left, collected);
    match p
    case Tip(leaf) =>
      if r.matched {
        var k := SingleMatch(leaf, left).value;
        assert r.collected[|collected|..] == [Taken(leaf, left[k])];
      }
    case Required(cs) => if r.matched { AllIsSound(cs, left, collected); }
    case Optional(cs) => SomeIsSound(cs, left, collected);
    case OptionsShortcut(cs) => SomeIsSound(cs, left, collected);
    case Either(cs) =>
      if r.matched {
        EitherIsBest(cs, left, collected);
        var i :| 0 <= i < |cs| && r == Match(cs[i], left, collected);
        MatchIsSound(cs[i], left, collected);
      }
    case OneOrMore(cs) => if r.matched { ManyIsSound(cs[0], left, collected); }
  }

  lemma {:induction false} AllIsSound(cs: seq<Pattern>, left: seq<Arg>, collected: seq<Taken>)
    requires forall c :: c in cs ==> WellFormed(c)
    requires MatchAll(cs, left, collected).matched
    ensures var s := MatchAll(cs, left, collected);
            collected <= s.collected && AcceptsAll(cs, Word(collected, s))
    decreases cs, 0, 0
  {
    if cs == [] {
      assert collected[|collected|..] == [];
    } else {
      var r, s := Match(cs[0], left, collected), MatchAll(cs, left, collected);
      MatchIsSound(cs[0], left, collected);
      AllIsSound(cs[1..], r.left, r.collected);
      WordSplits(collected, r, s);
    }
  }

  lemma {:induction false} SomeIsSound(cs: seq<Pattern>, left: seq<Arg>, collected: seq<Taken>)
    requires forall c :: c in cs ==> WellFormed(c)
    ensures var s := MatchSome(cs, left, collected);
            collected <= s.collected && AcceptsSome(cs, Word(collected, s))
    decreases cs, 0, 0
  {
    if cs == [] {
      assert collected[|collected|..] == [];
    } else {
      var r, s := Match(cs[0], left, collected), MatchSome(cs, left, collected);
      MatchIsSound(cs[0], left, collected);
      SomeIsSound(cs[1..], r.left, r.collected);
      WordSplits(collected, r, s);
    }
  }

  lemma {:induction false} ManyIsSound(p: Pattern, left: seq<Arg>, collected: seq<Taken>)
    requires WellFormed(p) && Match(p, left, collected).matched
    ensures var s := MatchMany(p, left, collected);
            collected <= s.collected && AcceptsMany(p, Word(collected, s))
    decreases p, 1, |left|
  {
    var r, s := Match(p, left, collected), MatchMany(p, left, collected);
    MatchIsSound(p, left, collected);
    MatchConserves(p, left, collected);
    if |r.left| < |left| {
      ManyConserves(p, r.left, r.collected);
      WordSplits(collected, r, s);
      if Match(p, r.left, r.collected).matched {
        ManyIsSound(p, r.left, r.collected);
        ConsumedWhenShorter(left, collected, r);
        if |Word(r.collected, s)| == 0 {
          assert Word(collected, s) == Word(collected, r);
        }
      } else {
        assert Word(collected, s) == Word(collected, r);
      }
    }
  }

  lemma ConsumedWhenShorter(left: seq<Arg>, collected: seq<Taken>, r: Outcome)
    requires Conserves(left, collected, r) && |r.left| < |left|
    ensures |collected| < |r.collected|
  {
    var gained := r.collected[|collected|..];
    assert |multiset(left)| == |multiset(r.left)| + |multiset(Args(gained))|;
  }

  // ---------------------------------------------------------------- when a flat list matches

  function Tips(ls: seq<Leaf>): (r: seq<Pattern>)
    ensures |r| == |ls|
  {
    seq(|ls|, i requires 0 <= i < |ls| => Tip(ls[i]))
  }

  /** The kind of argument a terminal takes. */
  function KeyOfLeaf(leaf: Leaf): Key {
    if leaf.Option? then OptionKey(leaf.name) else PositionalKey
  }

  function OnlyLeaves(ls: seq<Leaf>, k: Key): seq<Leaf> {
    if ls == [] then []
    else if KeyOfLeaf(ls[0]) == k then [ls[0]] + OnlyLeaves(ls[1..], k)
    else OnlyLeaves(ls[1..], k)
  }

  /** A command takes only a positional of its name. */
  predicate Agrees(leaf: Leaf, arg: Arg) {
    leaf.Command? ==> arg.Positional? && arg.value == leaf.name
  }

  /** Enough arguments, and each command stands before the argument of its name. */
  predicate Served(ls: seq<Leaf>, args: seq<Arg>) {
    |ls| <= |args| && forall i :: 0 <= i < |ls| ==> Agrees(ls[i], args[i])
  }

  /** The arguments serve the terminals, kind by kind. */
  ghost predicate ServesAll(ls: seq<Leaf>, left: seq<Arg>) {
    forall k: Key :: Served(OnlyLeaves(ls, k), Only(left, k))
  }

  /** A terminal matches exactly if the first argument of its kind exists and agrees. */
  lemma {:induction false} SingleMatchExactly(leaf: Leaf, left: seq<Arg>)
    ensures var kind := Only(left, KeyOfLeaf(leaf));
            SingleMatch(leaf, left).Some? <==> kind != [] && Agrees(leaf, kind[0])
  {
    if left != [] && !Sees(leaf, left[0]) { SingleMatchExactly(leaf, left[1..]); }
  }

  lemma ServedFirst(ls: seq<Leaf>, args: seq<Arg>)
    requires ls != []
    ensures Served(ls, args) <==> args != [] && Agrees(ls[0], args[0]) && Served(ls[1..], args[1..])
  {
    if args != [] {
      assert forall i :: 0 < i < |ls| && i < |args| ==> ls[i] == ls[1..][i - 1] && args[i] == args[1..][i - 1];
    }
  }

  /** What the first terminal leaves serves the others exactly if all are served, kind by kind. */
  lemma ServedStep(ls: seq<Leaf>, left: seq<Arg>, k: Key)
    requires ls != [] && SingleMatch(ls[0], left).Some?
    ensures var n := SingleMatch(ls[0], left).value;
            var rest := left[..n] + left[n + 1..];
            Served(OnlyLeaves(ls, k), Only(left, k)) <==> Served(OnlyLeaves(ls[1..], k), Only(rest, k))
  {
    var n := SingleMatch(ls[0], left).value;
    var rest := left[..n] + left[n + 1..];
    SingleMatchTakesFirst(ls[0], left, k);
    SingleMatchExactly(ls[0], left);
    if KeyOfLeaf(ls[0]) == k {
      ServedFirst(OnlyLeaves(ls, k), Only(left, k));
      assert OnlyLeaves(ls, k)[1..] == OnlyLeaves(ls[1..], k);
      assert Only(left, k)[1..] == Only(rest, k);
    }
  }

  /** A list of terminals in sequence matches exactly if every kind of argument serves its terminals. */
  lemma {:induction false} FlatMatchesExactly(ls: seq<Leaf>, left: seq<Arg>, collected: seq<Taken>)
    ensures Match(Required(Tips(ls)), left, collected).matched <==> ServesAll(ls, left)
    decreases |ls|
  {
    var cs := Tips(ls);
    if ls != [] {
      assert cs[0] == Tip(ls[0]) && cs[1..] == Tips(ls[1..]);
      var r := Match(cs[0], left, collected);
      if r.matched {
        FlatMatchesExactly(ls[1..], r.left, r.collected);
        assert MatchAll(cs, left, collected) == MatchAll(Tips(ls[1..]), r.left, r.collected);
        forall k: Key
          ensures Served(OnlyLeaves(ls, k), Only(left, k)) <==> Served(OnlyLeaves(ls[1..], k), Only(r.left, k))
        {
          ServedStep(ls, left, k);
        }
      } else {
        var k := KeyOfLeaf(ls[0]);
        SingleMatchExactly(ls[0], left);
        ServedFirst(OnlyLeaves(ls, k), Only(left, k));
      }
    }
  }

  /** A disjunction of flat cases matches exactly if some case is served. */
  lemma CasesMatchExactly(cases: seq<seq<Leaf>>, left: seq<Arg>, collected: seq<Taken>)
    ensures var p := Either(seq(|cases|, i requires 0 <= i < |cases| => Required(Tips(cases[i]))));
            Match(p, left, collected).matched
            <==> exists i :: 0 <= i < |cases| && ServesAll(cases[i], left)
  {
    var cs := seq(|cases|, i requires 0 <= i < |cases| => Required(Tips(cases[i])));
    EitherIsBest(cs, left, collected);
    forall i | 0 <= i < |cases| ensures Match(cs[i], left, collected).matched <==> ServesAll(cases[i], left) {
      FlatMatchesExactly(cases[i], left, collected);
      assert cs[i] == Required(Tips(cases[i]));
    }
    if i :| 0 <= i < |cases| && ServesAll(cases[i], left) { assert cs[i] in cs; }
  }

  // ---------------------------------------------------------------- what an optional part takes

  /** An optional part takes all of its children where they can all be had. */
  lemma OptionalTakesAll(cs: seq<Pattern>, left: seq<Arg>, collected: seq<Taken>)
    requires forall c :: c in cs ==> WellFormed(c)
    requires Match(Required(cs), left, collected).matched
    ensures Match(Optional(cs), left, collected) == Match(Required(cs), left, collected)
  {
    SomeIsAll(cs, left, collected);
  }

  lemma {:induction false} SomeIsAll(cs: seq<Pattern>, left: seq<Arg>, collected: seq<Taken>)
    requires forall c :: c in cs ==> WellFormed(c)
    requires MatchAll(cs, left, collected).matched
    ensures MatchSome(cs, left, collected) == MatchAll(cs, left, collected)
    decreases |cs|
  {
    if cs != [] {
      var r := Match(cs[0], left, collected);
      SomeIsAll(cs[1..], r.left, r.collected);
    }
  }

  /** An optional part with one child is that child, except that it matches in any case. */
  lemma OptionalOfOne(c: Pattern, left: seq<Arg>, collected: seq<Taken>)
    requires WellFormed(c)
    ensures Match(Optional([c]), left, collected) == Match(c, left, collected).(matched := true)
  {
    assert [c][1..] == [];
    var r := Match(c, left, collected);
    assert MatchSome([c][1..], r.left, r.collected) == Outcome(true, r.left, r.collected);
  }

  /** Its children take what they can in order: a part first, the others from what that leaves. */
  lemma {:induction false} OptionalInParts(xs: seq<Pattern>, ys: seq<Pattern>, left: seq<Arg>, collected: seq<Taken>)
    requires forall c :: c in xs + ys ==> WellFormed(c)
    ensures (forall c :: c in xs ==> WellFormed(c)) && forall c :: c in ys ==> WellFormed(c)
    ensures var r := Match(Optional(xs), left, collected);
            Match(Optional(xs + ys), left, collected) == Match(Optional(ys), r.left, r.collected)
    ensures Match(OptionsShortcut(xs), left, collected) == Match(Optional(xs), left, collected)
    decreases |xs|
  {
    assert forall c :: c in xs || c in ys ==> c in xs + ys;
    if xs == [] {
      assert xs + ys == ys;
    } else {
      assert (xs + ys)[0] == xs[0] && (xs + ys)[1..] == xs[1..] + ys;
      var r := Match(xs[0], left, collected);
      OptionalInParts(xs[1..], ys, r.left, r.collected);
    }
  }

  /** A sequence matches part by part, or not at all. */
  lemma {:induction false} RequiredInParts(xs: seq<Pattern>, ys: seq<Pattern>, left: seq<Arg>, collected: seq<Taken>)
    requires forall c :: c in xs + ys ==> WellFormed(c)
    ensures (forall c :: c in xs ==> WellFormed(c)) && forall c :: c in ys ==> WellFormed(c)
    ensures var r := Match(Required(xs), left, collected);
            var s := Match(Required(ys), r.left, r.collected);
            Match(Required(xs + ys), left, collected)
            == if r.matched && s.matched then s else Outcome(false, left, collected)
    decreases |xs|
  {
    assert forall c :: c in xs || c in ys ==> c in xs + ys;
    if xs == [] {
      assert xs + ys == ys;
    } else {
      assert (xs + ys)[0] == xs[0] && (xs + ys)[1..] == xs[1..] + ys;
      var r := Match(xs[0], left, collected);
      if r.matched { RequiredInParts(xs[1..], ys, r.left, r.collected); }
    }
  }

  lemma RequiredOfOne(c: Pattern, left: seq<Arg>, collected: seq<Taken>)
    requires WellFormed(c)
    ensures Match(Required([c]), left, collected) == Match(c, left, collected)
  {
    assert [c][1..] == [];
    var r := Match(c, left, collected);
    if r.matched { assert MatchAll([c][1..], r.left, r.collected) == Outcome(true, r.left, r.collected); }
  }

  /** Where an optional part takes nothing, none of its children could have taken anything. */
  lemma {:induction false} OptionalIsGreedy(cs: seq<Pattern>, left: seq<Arg>, collected: seq<Taken>)
    requires forall c :: c in cs ==> WellFormed(c)
    requires Match(Optional(cs), left, collected).left == left
    ensures forall c :: c in cs ==> Match(c, left, collected).left == left
    ensures Match(Optional(cs), left, collected).collected == collected
    decreases |cs|
  {
    if cs != [] {
      var r := Match(cs[0], left, collected);
      MatchConserves(cs[0], left, collected);
      assert Match(Optional(cs), left, collected) == Match(Optional(cs[1..]), r.left, r.collected);
      assert |r.left| == |left|;
      SameLengthSameList(left, collected, r);
      OptionalIsGreedy(cs[1..], left, collected);
      assert forall c :: c in cs <==> c == cs[0] || c in cs[1..];
    }
  }

  /** Terminals of one kind, in order, each taking the first argument left if it agrees. */
  function Skimmed(ls: seq<Leaf>, args: seq<Arg>): seq<Arg> {
    if ls == [] || args == [] then args
    else if Agrees(ls[0], args[0]) then Skimmed(ls[1..], args[1..])
    else Skimmed(ls[1..], args)
  }

  /** Without commands that is as many as there are terminals and arguments for. */
  lemma {:induction false} SkimmedByCount(ls: seq<Leaf>, args: seq<Arg>)
    requires forall l :: l in ls ==> !l.Command?
    ensures Skimmed(ls, args) == args[if |ls| <= |args| then |ls| else |args|..]
  {
    if ls != [] && args != [] {
      SkimmedByCount(ls[1..], args[1..]);
    }
  }

  lemma SkimmedStep(leaf: Leaf, ls: seq<Leaf>, left: seq<Arg>, collected: seq<Taken>, k: Key)
    ensures var r := Match(Tip(leaf), left, collected);
            Skimmed(OnlyLeaves([leaf] + ls, k), Only(left, k)) == Skimmed(OnlyLeaves(ls, k), Only(r.left, k))
  {
    assert ([leaf] + ls)[1..] == ls;
    SingleMatchExactly(leaf, left);
    if SingleMatch(leaf, left).Some? { SingleMatchTakesFirst(leaf, left, k); }
    if KeyOfLeaf(leaf) == k {
      assert OnlyLeaves([leaf] + ls, k)[1..] == OnlyLeaves(ls, k);
      if SingleMatch(leaf, left).Some? {
        assert Only(left, k)[1..] == Only(Match(Tip(leaf), left, collected).left, k);
      }
    }
  }

  /** Of each kind, an optional list of terminals leaves exactly what its terminals of that kind cannot take. */
  lemma {:induction false} FlatOptionalExactly(ls: seq<Leaf>, left: seq<Arg>, collected: seq<Taken>, k: Key)
    ensures Only(Match(Optional(Tips(ls)), left, collected).left, k) == Skimmed(OnlyLeaves(ls, k), Only(left, k))
    decreases |ls|
  {
    if ls != [] {
      var r := Match(Tip(ls[0]), left, collected);
      assert Tips(ls)[0] == Tip(ls[0]) && Tips(ls)[1..] == Tips(ls[1..]);
      assert Match(Optional(Tips(ls)), left, collected) == Match(Optional(Tips(ls[1..])), r.left, r.collected);
      FlatOptionalExactly(ls[1..], r.left, r.collected, k);
      SkimmedStep(ls[0], ls[1..], left, collected, k);
      assert [ls[0]] + ls[1..] == ls;
    }
  }

  /** Without commands it takes, of each kind, as many as there are terminals and arguments for. */
  lemma FlatOptionalByCount(ls: seq<Leaf>, left: seq<Arg>, collected: seq<Taken>, k: Key)
    requires forall l :: l in ls ==> !l.Command?
    ensures var ours, all := |OnlyLeaves(ls, k)|, Only(left, k);
            Only(Match(Optional(Tips(ls)), left, collected).left, k) == all[if ours <= |all| then ours else |all|..]
  {
    FlatOptionalExactly(ls, left, collected, k);
    OnlyLeavesAmong(ls, k);
    SkimmedByCount(OnlyLeaves(ls, k), Only(left, k));
  }

  lemma {:induction false} OnlyLeavesAmong(ls: seq<Leaf>, k: Key)
    ensures forall l :: l in OnlyLeaves(ls, k) ==> l in ls
  {
    if ls != [] { OnlyLeavesAmong(ls[1..], k); }
  }

  // ---------------------------------------------------------------- the methods

  method RunMatch(p: Pattern, left: seq<Arg>, collected: seq<Taken>)
    returns (matched: bool, l: seq<Arg>, c: seq<Taken>)
    requires WellFormed(p)
    ensures Outcome(matched, l, c) == Match(p, left, collected)
    decreases p, 0
  {
    match p
    case Tip(leaf) =>
      var pos := SingleMatch(leaf, left);
      if pos == None { return false, left, collected; }
      return true, left[..pos.value] + left[pos.value + 1..], collected + [Taken(leaf, left[pos.value])];
    case Required(cs) => matched, l, c := RunRequired(cs, left, collected);
    case Optional(cs) => matched, l, c := RunOptional(cs, left, collected);
    case OptionsShortcut(cs) => matched, l, c := RunOptional(cs, left, collected);
    case Either(cs) => matched, l, c := RunEither(cs, left, collected);
    case OneOrMore(cs) => matched, l, c := RunOneOrMore(cs[0], left, collected);
  }

  method RunRequired(cs: seq<Pattern>, left: seq<Arg>, collected: seq<Taken>)
    returns (matched: bool, l: seq<Arg>, c: seq<Taken>)
    requires forall p :: p in cs ==> WellFormed(p)
    ensures Outcome(matched, l, c) == Match(Required(cs), left, collected)
    decreases cs, 0
  {
    l, c := left, collected;
    for i := 0 to |cs|
      invariant MatchAll(cs, left, collected) == MatchAll(cs[i..], l, c)
    {
      assert cs[i..][0] == cs[i] && cs[i..][1..] == cs[i + 1..];
      matched, l, c := RunMatch(cs[i], l, c);
      if !matched { return false, left, collected; }
    }
    matched := true;
  }

  method RunOptional(cs: seq<Pattern>, left: seq<Arg>, collected: seq<Taken>)
    returns (matched: bool, l: seq<Arg>, c: seq<Taken>)
    requires forall p :: p in cs ==> WellFormed(p)
    ensures Outcome(matched, l, c) == Match(Optional(cs), left, collected)
    decreases cs, 0
  {
    l, c := left, collected;
    for i := 0 to |cs|
      invariant MatchSome(cs, left, collected) == MatchSome(cs[i..], l, c)
    {
      assert cs[i..][0] == cs[i] && cs[i..][1..] == cs[i + 1..];
      matched, l, c := RunMatch(cs[i], l, c);
    }
    matched := true;
  }

  method RunOneOrMore(p: Pattern, left: seq<Arg>, collected: seq<Taken>)
    returns (matched: bool, l: seq<Arg>, c: seq<Taken>)
    requires WellFormed(p)
    ensures Outcome(matched, l, c) == Match(OneOrMore([p]), left, collected)
    decreases p, 1
  {
    l, c := left, collected;
    var last: Option<seq<Arg>> := None;
    var times := 0;
    var more := true;
    while more
      invariant times == 0 ==> l == left && c == collected
      invariant times == 0 && more ==> last == None
      invariant times == 0 && !more ==> !Match(p, left, collected).matched
      invariant times > 0 ==> Match(p, left, collected).matched && last == Some(l)
      invariant more ==> MatchMany(p, l, c) == MatchMany(p, left, collected)
      invariant times > 0 && !more ==> Outcome(true, l, c) == MatchMany(p, left, collected)
      decreases more, |l|, if last.None? then 1 else 0
    {
      MatchConserves(p, l, c);
      ghost var before := Outcome(true, l, c);
      more, l, c := RunMatch(p, l, c);
      times := times + if more then 1 else 0;
      if |l| == |before.left| {
        SameLengthSameList(before.left, before.collected, Outcome(more, l, c));
      }
      if last == Some(l) {
        assert Outcome(true, l, c) == MatchMany(p, before.left, before.collected);
        break;
      }
      last := Some(l);
    }
    if times >= 1 { return true, l, c; }
    return false, left, collected;
  }

  method RunEither(cs: seq<Pattern>, left: seq<Arg>, collected: seq<Taken>)
    returns (matched: bool, l: seq<Arg>, c: seq<Taken>)
    requires forall p :: p in cs ==> WellFormed(p)
    ensures Outcome(matched, l, c) == Match(Either(cs), left, collected)
    decreases cs, 0
  {
    var outcomes: seq<Outcome> := [];
    for i := 0 to |cs|
      invariant forall o :: o in outcomes ==> o.matched
      invariant MatchBest(cs, left, collected) == BestThen(outcomes, MatchBest(cs[i..], left, collected))
    {
      assert cs[i..][0] == cs[i] && cs[i..][1..] == cs[i + 1..];
      matched, l, c := RunMatch(cs[i], left, collected);
      if matched {
        BestThenAppend(outcomes, Outcome(true, l, c), MatchBest(cs[i + 1..], left, collected));
        outcomes := outcomes + [Outcome(true, l, c)];
      }
    }
    if outcomes != [] {
      var best := outcomes[0];
      for i := 1 to |outcomes|
        invariant best.matched
        invariant Better(best, BestThen(outcomes[i..], Outcome(false, left, collected)))
               == BestThen(outcomes, Outcome(false, left, collected))
      {
        if |outcomes[i].left| < |best.left| { best := outcomes[i]; }
      }
      return true, best.left, best.collected;
    }
    return false, left, collected;
  }

  /** The first best of a list of outcomes followed by one more. */
  function BestThen(outcomes: seq<Outcome>, last: Outcome): Outcome {
    if outcomes == [] then last else Better(outcomes[0], BestThen(outcomes[1..], last))
  }

  lemma {:induction false} BestThenAppend(outcomes: seq<Outcome>, o: Outcome, last: Outcome)
    ensures BestThen(outcomes + [o], last) == BestThen(outcomes, Better(o, last))
  {
    if outcomes == [] {
      assert outcomes + [o] == [o];
    } else {
      assert (outcomes + [o])[1..] == outcomes[1..] + [o];
      BestThenAppend(outcomes[1..], o, last);
    }
  }
}
