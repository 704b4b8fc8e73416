/**
 What the tree of a usage pattern is made of (core/deps/fmt-5.3.0/support/docopt.py), text by text: how
 alternatives and sequences of texts parse, in terms of how each of them parses alone.
 */
module DocoptTexts {
  import opened DocoptPattern
  import opened DocoptParser
  import opened Wrappers

  // ---------------------------------------------------------------- more text behind

  /** An atom is read the same whatever follows it. */
  lemma {:induction false} AtomExtends(ts: seq<Token>, rest: seq<Token>)
    requires !Ends(ts) && Atom(ts).Parsed?
    ensures !Ends(ts + rest) && Atom(ts + rest) == Parsed(Atom(ts).value, Atom(ts).rest + rest)
    decreases |ts|, 0
  {
    assert (ts + rest)[1..] == ts[1..] + rest;
    if ts[0].Open? {
      var e := Expr(ts[1..]);
      ExprExtends(ts[1..], rest);
      assert (e.rest + rest)[1..] == e.rest[1..] + rest;
    }
  }

  lemma {:induction false} SequenceExtends(done: seq<Pattern>, ts: seq<Token>, rest: seq<Token>)
    requires Sequence(done, ts).Parsed? && (Sequence(done, ts).rest != [] || Ends(rest))
    ensures var s := Sequence(done, ts); Sequence(done, ts + rest) == Parsed(s.value, s.rest + rest)
    decreases |ts|, 1
  {
    if ts == [] {
      assert ts + rest == rest;
    } else if !Ends(ts) {
      var a := Atom(ts);
      AtomExtends(ts, rest);
      if a.rest != [] && a.rest[0] == Ellipsis {
        assert (a.rest + rest)[1..] == a.rest[1..] + rest;
        SequenceExtends(done + [OneOrMore(a.value)], a.rest[1..], rest);
      } else {
        if a.rest == [] { assert a.rest + rest == rest; }
        SequenceExtends(done + a.value, a.rest, rest);
      }
    }
  }

  lemma {:induction false} ChoiceExtends(done: seq<Pattern>, ts: seq<Token>, rest: seq<Token>)
    requires Choice(done, ts).Parsed? && (Choice(done, ts).rest != [] || Stops(rest))
    ensures var r := Choice(done, ts); Choice(done, ts + rest) == Parsed(r.value, r.rest + rest)
    decreases |ts|, 2
  {
    if ts == [] {
      assert ts + rest == rest;
    } else if ts[0] == Pipe {
      var s := Sequence([], ts[1..]);
      assert (ts + rest)[1..] == ts[1..] + rest;
      SequenceExtends([], ts[1..], rest);
      ChoiceExtends(done + Grouped(s.value), s.rest, rest);
    }
  }

  lemma {:induction false} ExprExtends(ts: seq<Token>, rest: seq<Token>)
    requires Expr(ts).Parsed? && (Expr(ts).rest != [] || Stops(rest))
    ensures Expr(ts + rest) == Parsed(Expr(ts).value, Expr(ts).rest + rest)
    decreases |ts|, 3
  {
    var s := Sequence([], ts);
    SequenceExtends([], ts, rest);
    if s.rest != [] && s.rest[0] == Pipe {
      ChoiceExtends(Grouped(s.value), s.rest, rest);
    }
  }

  // ---------------------------------------------------------------- texts without a bar of their own

  /** No bar outside brackets; `level` are open. */
  predicate NoBar(ts: seq<Token>, level: nat)
    decreases ts
  {
    if ts == [] then true
    else
      match ts[0]
      case Open(_) => NoBar(ts[1..], level + 1)
      case Close(_) => NoBar(ts[1..], if level > 0 then level - 1 else 0)
      case Pipe => level > 0 && NoBar(ts[1..], level)
      case _ => NoBar(ts[1..], level)
  }

  lemma {:induction false} AtomNoBar(ts: seq<Token>, level: nat)
    requires !Ends(ts) && Atom(ts).Parsed? && NoBar(ts, level)
    ensures NoBar(Atom(ts).rest, level)
    decreases |ts|, 0
  {
    if ts[0].Open? { ExprNoBar(ts[1..], level + 1); }
  }

  lemma {:induction false} SequenceNoBar(done: seq<Pattern>, ts: seq<Token>, level: nat)
    requires Sequence(done, ts).Parsed? && NoBar(ts, level)
    ensures NoBar(Sequence(done, ts).rest, level)
    decreases |ts|, 1
  {
    if !Ends(ts) {
      var a := Atom(ts);
      AtomNoBar(ts, level);
      if a.rest != [] && a.rest[0] == Ellipsis {
        SequenceNoBar(done + [OneOrMore(a.value)], a.rest[1..], level);
      } else {
        SequenceNoBar(done + a.value, a.rest, level);
      }
    }
  }

  lemma {:induction false} ChoiceNoBar(done: seq<Pattern>, ts: seq<Token>, level: nat)
    requires Choice(done, ts).Parsed? && NoBar(ts, level)
    ensures NoBar(Choice(done, ts).rest, level)
    decreases |ts|, 2
  {
    if ts != [] && ts[0] == Pipe {
      var s := Sequence([], ts[1..]);
      SequenceNoBar([], ts[1..], level);
      ChoiceNoBar(done + Grouped(s.value), s.rest, level);
    }
  }

  lemma {:induction false} ExprNoBar(ts: seq<Token>, level: nat)
    requires Expr(ts).Parsed? && NoBar(ts, level)
    ensures NoBar(Expr(ts).rest, level)
    decreases |ts|, 3
  {
    var s := Sequence([], ts);
    SequenceNoBar([], ts, level);
    if s.rest != [] && s.rest[0] == Pipe { ChoiceNoBar(Grouped(s.value), s.rest, level); }
  }

  /** A text that parses alone and has no bar outside brackets. */
  predicate Alone(ts: seq<Token>) {
    Whole(ts).Ok? && NoBar(ts, 0)
  }

  /** The items a text parses to. */
  function ItemsOf(ts: seq<Token>): seq<Pattern>
    requires Whole(ts).Ok?
  {
    Whole(ts).value.children
  }

  lemma AloneIsASequence(ts: seq<Token>)
    requires Alone(ts)
    ensures Sequence([], ts) == Parsed(ItemsOf(ts), []) == Expr(ts)
  {
    var s := Sequence([], ts);
    SequenceNoBar([], ts, 0);
    SequenceDecides([], ts, []);
  }

  // ---------------------------------------------------------------- alternatives

  function Bracketed(b: Bracket, ts: seq<Token>): seq<Token> {
    [Open(b)] + ts + [Close(b)]
  }

  lemma {:induction false} NoBarInside(ts: seq<Token>, open: seq<Bracket>, b: Bracket)
    requires Nested(ts, open)
    ensures NoBar(ts + [Close(b)], |open| + 1)
    decreases ts
  {
    if ts == [] {
      assert ts + [Close(b)] == [Close(b)];
    } else {
      assert (ts + [Close(b)])[1..] == ts[1..] + [Close(b)];
      match ts[0]
      case Open(c) => NoBarInside(ts[1..], open + [c], b);
      case Close(_) => NoBarInside(ts[1..], open[..|open| - 1], b);
      case _ => NoBarInside(ts[1..], open, b);
    }
  }

  /** A bracketed text is one item: its bracket around what it parses to. */
  lemma BracketedIsOne(b: Bracket, ts: seq<Token>)
    requires Whole(ts).Ok?
    ensures Whole(Bracketed(b, ts)) == Ok(Required([if b.Round? then Required(ItemsOf(ts)) else Optional(ItemsOf(ts))]))
    ensures Alone(Bracketed(b, ts))
  {
    var all := Bracketed(b, ts);
    ExprExtends(ts, [Close(b)]);
    assert all[1..] == ts + [Close(b)];
    assert [] + [Close(b)] == [Close(b)];
    var one := Enclosed(b, ItemsOf(ts));
    assert Atom(all) == Parsed([one], []);
    assert [] + [one] == [one];
    assert Sequence([], all) == Sequence([one], []);
    ParsesIffNested(ts);
    NoBarInside(ts, [], b);
  }

  /** What one alternative contributes: nothing, its one item, or the item it is in round brackets. */
  function Contribution(ts: seq<Token>): seq<Pattern>
    requires Alone(ts)
  {
    BracketedIsOne(Round, ts);
    if |ItemsOf(ts)| <= 1 then ItemsOf(ts) else ItemsOf(Bracketed(Round, ts))
  }

  predicate AllAlone(texts: seq<seq<Token>>) {
    forall i :: 0 <= i < |texts| ==> Alone(texts[i])
  }

  function Contributions(texts: seq<seq<Token>>): seq<Pattern>
    requires AllAlone(texts)
  {
    if texts == [] then [] else Contribution(texts[0]) + Contributions(texts[1..])
  }

  /** Each text after a bar. */
  function Barred(texts: seq<seq<Token>>): seq<Token> {
    if texts == [] then [] else [Pipe] + texts[0] + Barred(texts[1..])
  }

  lemma ContributionIsGrouped(ts: seq<Token>)
    requires Alone(ts)
    ensures Contribution(ts) == Grouped(ItemsOf(ts))
  {
    BracketedIsOne(Round, ts);
  }

  lemma BarredEnds(texts: seq<seq<Token>>)
    ensures Ends(Barred(texts))
    ensures Barred(texts) == [] || Barred(texts)[0] == Pipe
  {
  }

  lemma ChoiceOfText(done: seq<Pattern>, t: seq<Token>, rest: seq<Token>)
    requires Alone(t) && Ends(rest)
    ensures Choice(done, [Pipe] + t + rest) == Choice(done + Contribution(t), rest)
  {
    AloneIsASequence(t);
    SequenceExtends([], t, rest);
    assert ([Pipe] + t + rest)[1..] == t + rest;
    assert [] + rest == rest;
    ContributionIsGrouped(t);
  }

  /** Several items are a choice; one or none are themselves. */
  function Chosen(all: seq<Pattern>): seq<Pattern> {
    if |all| > 1 then [Either(all)] else all
  }

  lemma ContributionsOfMore(done: seq<Pattern>, texts: seq<seq<Token>>)
    requires AllAlone(texts) && texts != []
    ensures (done + Contribution(texts[0])) + Contributions(texts[1..]) == done + Contributions(texts)
  {
  }

  lemma {:induction false} ChoiceOfTexts(done: seq<Pattern>, texts: seq<seq<Token>>)
    requires AllAlone(texts)
    ensures Choice(done, Barred(texts)) == Parsed(Chosen(done + Contributions(texts)), [])
    decreases |texts|
  {
    if texts == [] {
      assert done + [] == done;
    } else {
      BarredEnds(texts[1..]);
      ChoiceOfText(done, texts[0], Barred(texts[1..]));
      ChoiceOfTexts(done + Contribution(texts[0]), texts[1..]);
      ContributionsOfMore(done, texts);
    }
  }

  /** Texts with bars between them. */
  function Joined(texts: seq<seq<Token>>): seq<Token>
    requires texts != []
  {
    texts[0] + Barred(texts[1..])
  }

  /**
   Texts between bars parse to one choice of what they contribute: several items of an alternative as in round
   brackets, one item as itself, an empty alternative not at all; and to no choice where one item is left.
   */
  lemma AlternativesParse(texts: seq<seq<Token>>)
    requires AllAlone(texts) && |texts| > 1
    ensures var all := Contributions(texts);
            Whole(Joined(texts)) == Ok(Required(if |all| > 1 then [Either(all)] else all))
  {
    var first, others := texts[0], texts[1..];
    AloneIsASequence(first);
    BarredEnds(others);
    SequenceExtends([], first, Barred(others));
    assert [] + Barred(others) == Barred(others);
    ContributionIsGrouped(first);
    ChoiceOfTexts(Contribution(first), others);
  }

  lemma {:induction false} ContributionsAgree(texts: seq<seq<Token>>, texts': seq<seq<Token>>)
    requires AllAlone(texts) && AllAlone(texts') && |texts| == |texts'|
    requires forall i :: 0 <= i < |texts| ==> Contribution(texts[i]) == Contribution(texts'[i])
    ensures Contributions(texts) == Contributions(texts')
  {
    if texts != [] { ContributionsAgree(texts[1..], texts'[1..]); }
  }

  /** Round brackets around any alternative of several items change nothing. */
  lemma BracketsChangeNothing(texts: seq<seq<Token>>, i: nat)
    requires AllAlone(texts) && i < |texts| && |texts| > 1 && |ItemsOf(texts[i])| > 1
    ensures Whole(Joined(texts[i := Bracketed(Round, texts[i])])) == Whole(Joined(texts))
  {
    BracketedIsOne(Round, texts[i]);
    var texts' := texts[i := Bracketed(Round, texts[i])];
    AlternativesParse(texts);
    AlternativesParse(texts');
    ContributionsAgree(texts, texts');
  }

  lemma {:induction false} ContributionsSplit(xs: seq<seq<Token>>, ys: seq<seq<Token>>)
    requires AllAlone(xs) && AllAlone(ys)
    ensures AllAlone(xs + ys) && Contributions(xs + ys) == Contributions(xs) + Contributions(ys)
  {
    if xs == [] {
      assert xs + ys == ys;
    } else {
      assert (xs + ys)[1..] == xs[1..] + ys;
      ContributionsSplit(xs[1..], ys);
    }
  }

  /** An empty alternative among at least two others may as well not be there. */
  lemma EmptyAlternativeVanishes(xs: seq<seq<Token>>, ys: seq<seq<Token>>)
    requires AllAlone(xs + ys) && |xs + ys| > 1
    ensures Whole(Joined(xs + [[]] + ys)) == Whole(Joined(xs + ys))
  {
    assert AllAlone(xs) by { assert forall i :: 0 <= i < |xs| ==> xs[i] == (xs + ys)[i]; }
    assert AllAlone(ys) by { assert forall i :: 0 <= i < |ys| ==> ys[i] == (xs + ys)[|xs| + i]; }
    var empty: seq<Token> := [];
    assert Contribution(empty) == [] && Contributions([empty]) == [] + Contributions([empty][1..]);
    ContributionsSplit(xs, ys);
    ContributionsSplit(xs, [empty]);
    ContributionsSplit(xs + [empty], ys);
    assert Contributions(xs) + [] == Contributions(xs);
    AlternativesParse(xs + ys);
    AlternativesParse(xs + [empty] + ys);
  }

  // ---------------------------------------------------------------- sequences

  lemma {:induction false} SequenceGoesOn(done: seq<Pattern>, xs: seq<Token>, ys: seq<Token>)
    requires Sequence(done, xs).Parsed? && Sequence(done, xs).rest == []
    requires ys == [] || ys[0] != Ellipsis
    ensures Sequence(done, xs + ys) == Sequence(Sequence(done, xs).value, ys)
    decreases |xs|
  {
    if xs == [] {
      assert xs + ys == ys;
    } else {
      var a := Atom(xs);
      AtomExtends(xs, ys);
      if a.rest != [] && a.rest[0] == Ellipsis {
        assert (a.rest + ys)[1..] == a.rest[1..] + ys;
        SequenceGoesOn(done + [OneOrMore(a.value)], a.rest[1..], ys);
      } else {
        if a.rest == [] { assert a.rest + ys == ys; }
        SequenceGoesOn(done + a.value, a.rest, ys);
      }
    }
  }

  lemma {:induction false} SequenceAfter(done: seq<Pattern>, more: seq<Pattern>, ts: seq<Token>)
    ensures var s := Sequence(more, ts);
            Sequence(done + more, ts) == if s.Parsed? then Parsed(done + s.value, s.rest) else s
    decreases |ts|
  {
    if !Ends(ts) {
      var a := Atom(ts);
      if a.Parsed? {
        if a.rest != [] && a.rest[0] == Ellipsis {
          assert done + more + [OneOrMore(a.value)] == done + (more + [OneOrMore(a.value)]);
          SequenceAfter(done, more + [OneOrMore(a.value)], a.rest[1..]);
        } else {
          assert done + more + a.value == done + (more + a.value);
          SequenceAfter(done, more + a.value, a.rest);
        }
      }
    }
  }

  /** One text after another parses to the items of the one and then those of the other. */
  lemma SequencesParse(xs: seq<Token>, ys: seq<Token>)
    requires Alone(xs) && Alone(ys) && (ys == [] || ys[0] != Ellipsis)
    ensures Whole(xs + ys) == Ok(Required(ItemsOf(xs) + ItemsOf(ys)))
  {
    AloneIsASequence(xs);
    AloneIsASequence(ys);
    SequenceGoesOn([], xs, ys);
    SequenceAfter(ItemsOf(xs), [], ys);
    assert ItemsOf(xs) + [] == ItemsOf(xs);
  }

  lemma {:induction false} SequenceRepeats(done: seq<Pattern>, xs: seq<Token>, one: Pattern)
    requires !Ends(xs) && Atom(xs) == Parsed([one], [])
    ensures Sequence(done, xs + [Ellipsis]) == Parsed(done + [OneOrMore([one])], [])
  {
    AtomExtends(xs, [Ellipsis]);
    assert [] + [Ellipsis] == [Ellipsis] && [Ellipsis][1..] == [];
  }

  /** An ellipsis after a bracketed text repeats it. */
  lemma EllipsisRepeats(b: Bracket, xs: seq<Token>)
    requires Whole(xs).Ok?
    ensures Whole(Bracketed(b, xs) + [Ellipsis]) == Ok(Required([
              OneOrMore([if b.Round? then Required(ItemsOf(xs)) else Optional(ItemsOf(xs))])]))
  {
    var all := Bracketed(b, xs);
    BracketedIsOne(b, xs);
    AloneIsASequence(all);
    var a := Atom(all);
    ExprExtends(xs, [Close(b)]);
    assert all[1..] == xs + [Close(b)] && [] + [Close(b)] == [Close(b)];
    SequenceRepeats([], all, a.value[0]);
    assert [] + [OneOrMore(a.value)] == [OneOrMore(a.value)];
  }
}
