/**
 The recursive-descent parser of usage patterns (core/deps/fmt-5.3.0/support/docopt.py)
 over tokens already classified, and a printer it undoes.
 */
module DocoptParser {
  import opened DocoptPattern
  import opened Wrappers

  datatype Bracket = Round | Square

  /** What a token that is a word can spell: the ellipsis is a token of its own. */
  type Word = s: string | s != "..." witness ""

  datatype Token =
    | Open(bracket: Bracket)
    | Close(bracket: Bracket)
    | Pipe
    | Ellipsis
    | OptionsWord
    | ArgumentWord(name: string)
    | CommandWord(word: Word)

  datatype ParseError = Unmatched(bracket: Bracket) | UnexpectedEnding

  datatype Parsed =
    | Parsed(value: seq<Pattern>, rest: seq<Token>)
    | Failed(error: ParseError)

  // ---------------------------------------------------------------- what the parser returns

  /** `tokens.current()` ends a sequence: nothing left, a closing bracket or a bar. */
  predicate Ends(ts: seq<Token>) {
    ts == [] || ts[0].Close? || ts[0].Pipe?
  }

  function Enclosed(b: Bracket, cs: seq<Pattern>): Pattern {
    if b.Round? then Required(cs) else Optional(cs)
  }

  /** One alternative: a sequence of several is wrapped, one stays itself, none vanishes. */
  function Grouped(cs: seq<Pattern>): seq<Pattern> {
    if |cs| > 1 then [Required(cs)] else cs
  }

  function Expr(ts: seq<Token>): (r: Parsed)
    ensures r.Parsed? ==> |r.rest| <= |ts|
    decreases |ts|, 3
  {
    var s := Sequence([], ts);
    if s.Failed? || s.rest == [] || s.rest[0] != Pipe then s
    else Choice(Grouped(s.value), s.rest)
  }

  function Choice(done: seq<Pattern>, ts: seq<Token>): (r: Parsed)
    ensures r.Parsed? ==> |r.rest| <= |ts|
    decreases |ts|, 2
  {
    if ts == [] || ts[0] != Pipe then Parsed(if |done| > 1 then [Either(done)] else done, ts)
    else
      var s := Sequence([], ts[1..]);
      if s.Failed? then s else Choice(done + Grouped(s.value), s.rest)
  }

  function Sequence(done: seq<Pattern>, ts: seq<Token>): (r: Parsed)
    ensures r.Parsed? ==> |r.rest| <= |ts|
    decreases |ts|, 1
  {
    if Ends(ts) then Parsed(done, ts)
    else
      var a := Atom(ts);
      if a.Failed? then a
      else if a.rest != [] && a.rest[0] == Ellipsis then Sequence(done + [OneOrMore(a.value)], a.rest[1..])
      else Sequence(done + a.value, a.rest)
  }

  /** A token that is neither a bracket nor a word reads as a command: so does a stray ellipsis. */
  function Atom(ts: seq<Token>): (r: Parsed)
    requires !Ends(ts)
    ensures r.Parsed? ==> |r.rest| < |ts|
    decreases |ts|, 0
  {
    match ts[0]
    case Open(b) =>
      var e := Expr(ts[1..]);
      if e.Failed? then e
      else if e.rest == [] || e.rest[0] != Close(b) then Failed(Unmatched(b))
      else Parsed([Enclosed(b, e.value)], e.rest[1..])
    case OptionsWord => Parsed([OptionsShortcut([])], ts[1..])
    case ArgumentWord(name) => Parsed([Tip(Argument(name))], ts[1..])
    case CommandWord(name) => Parsed([Tip(Command(name))], ts[1..])
    case Ellipsis => Parsed([Tip(Command("..."))], ts[1..])
  }

  function Whole(ts: seq<Token>): Result<Pattern, ParseError> {
    var e := Expr(ts);
    if e.Failed? then Err(e.error)
    else if e.rest != [] then Err(UnexpectedEnding)
    else Ok(Required(e.value))
  }

  // ---------------------------------------------------------------- the parser's methods

  class Tokens {
    var items: seq<Token>

    constructor (source: seq<Token>)
      ensures items == source
    {
      items := source;
    }

    function Current(): Option<Token>
      reads this
    {
      if items == [] then None else Some(items[0])
    }

    method Move() returns (token: Option<Token>)
      modifies this
      ensures old(items) == [] ==> token == None && items == []
      ensures old(items) != [] ==> token == Some(old(items)[0]) && items == old(items)[1..]
    {
      token := None;
      if items != [] {
        token := Some(items[0]);
        items := items[1..];
      }
    }
  }

  /** The value a parse method returned or the error it raised, with the tokens it left. */
  ghost predicate Reports(r: Result<seq<Pattern>, ParseError>, left: seq<Token>, p: Parsed) {
    match r
    case Ok(value) => p == Parsed(value, left)
    case Err(error) => p == Failed(error)
  }

  method ParseExpr(tokens: Tokens) returns (r: Result<seq<Pattern>, ParseError>)
    modifies tokens
    ensures Reports(r, tokens.items, Expr(old(tokens.items)))
    decreases |tokens.items|, 2
  {
    r := ParseSeq(tokens);
    if r.Err? || tokens.Current() != Some(Pipe) { return; }
    var result := if |r.value| > 1 then [Required(r.value)] else r.value;
    while tokens.Current() == Some(Pipe)
      invariant |tokens.items| <= |old(tokens.items)|
      invariant Choice(result, tokens.items) == Expr(old(tokens.items))
      decreases |tokens.items|
    {
      var _ := tokens.Move();
      r := ParseSeq(tokens);
      if r.Err? { return; }
      result := result + if |r.value| > 1 then [Required(r.value)] else r.value;
    }
    r := Ok(if |result| > 1 then [Either(result)] else result);
  }

  method ParseSeq(tokens: Tokens) returns (r: Result<seq<Pattern>, ParseError>)
    modifies tokens
    ensures Reports(r, tokens.items, Sequence([], old(tokens.items)))
    decreases |tokens.items|, 1
  {
    var result: seq<Pattern> := [];
    while tokens.Current() != None && !tokens.Current().value.Close? && !tokens.Current().value.Pipe?
      invariant |tokens.items| <= |old(tokens.items)|
      invariant Sequence(result, tokens.items) == Sequence([], old(tokens.items))
      decreases |tokens.items|
    {
      var atom := ParseAtom(tokens);
      if atom.Err? { return atom; }
      if tokens.Current() == Some(Ellipsis) {
        result := result + [OneOrMore(atom.value)];
        var _ := tokens.Move();
      } else {
        result := result + atom.value;
      }
    }
    r := Ok(result);
  }

  method ParseAtom(tokens: Tokens) returns (r: Result<seq<Pattern>, ParseError>)
    requires !Ends(tokens.items)
    modifies tokens
    ensures Reports(r, tokens.items, Atom(old(tokens.items)))
    decreases |tokens.items|, 0
  {
    var token := tokens.Current().value;
    var _ := tokens.Move();
    match token
    case Open(b) =>
      var inner := ParseExpr(tokens);
      if inner.Err? { return inner; }
      var closing := tokens.Move();
      if closing != Some(Close(b)) { return Err(Unmatched(b)); }
      r := Ok([Enclosed(b, inner.value)]);
    case OptionsWord => r := Ok([OptionsShortcut([])]);
    case ArgumentWord(name) => r := Ok([Tip(Argument(name))]);
    case CommandWord(name) => r := Ok([Tip(Command(name))]);
    case Ellipsis => r := Ok([Tip(Command("..."))]);
  }

  method ParsePattern(source: seq<Token>) returns (r: Result<Pattern, ParseError>)
    ensures r == Whole(source)
  {
    var tokens := new Tokens(source);
    var result := ParseExpr(tokens);
    if result.Err? { return Err(result.error); }
    if tokens.Current() != None { return Err(UnexpectedEnding); }
    r := Ok(Required(result.value));
  }

  // ---------------------------------------------------------------- the printer

  function Print(p: Pattern): seq<Token>
    decreases p, 1
  {
    match p
    case Tip(Argument(name)) => [ArgumentWord(name)]
    case Tip(Command(name)) => if name == "..." then [Ellipsis] else [CommandWord(name)]
    case Tip(Option(_)) => []
    case Required(cs) => [Open(Round)] + PrintSeq(cs) + [Close(Round)]
    case Optional(cs) => [Open(Square)] + PrintSeq(cs) + [Close(Square)]
    case OptionsShortcut(_) => [OptionsWord]
    case OneOrMore(cs) => PrintSeq(cs) + [Ellipsis]
    case Either(cs) => if cs == [] then [] else Print(cs[0]) + PrintMore(cs[1..])
  }

  function PrintSeq(cs: seq<Pattern>): seq<Token>
    decreases cs, 0
  {
    if cs == [] then [] else Print(cs[0]) + PrintSeq(cs[1..])
  }

  function PrintMore(cs: seq<Pattern>): seq<Token>
    decreases cs, 0
  {
    if cs == [] then [] else [Pipe] + Print(cs[0]) + PrintMore(cs[1..])
  }

  // ---------------------------------------------------------------- the trees the grammar has

  /** What one `atom` of the grammar yields; a command named by a stray ellipsis is not one. */
  predicate CanonicalAtom(p: Pattern)
    decreases p, 0
  {
    match p
    case Tip(leaf) => leaf.Argument? || (leaf.Command? && leaf.name != "...")
    case Required(cs) => CanonicalBody(cs)
    case Optional(cs) => CanonicalBody(cs)
    case OptionsShortcut(cs) => cs == []
    case OneOrMore(_) => false
    case Either(_) => false
  }

  predicate CanonicalItem(p: Pattern)
    decreases p, 1
  {
    if p.OneOrMore? then |p.children| == 1 && CanonicalAtom(p.children[0]) else CanonicalAtom(p)
  }

  /** What one `expr` yields: items in sequence, or a single choice between two or more items. */
  predicate CanonicalBody(cs: seq<Pattern>)
    decreases cs, 2
  {
    if |cs| == 1 && cs[0].Either?
    then |cs[0].children| >= 2 && forall c :: c in cs[0].children ==> CanonicalItem(c)
    else forall c :: c in cs ==> CanonicalItem(c)
  }

  /** An item that begins with an ellipsis: a command of that name, or a repetition of it. */
  predicate Stray(p: Pattern) {
    p == Tip(Command("...")) || p == OneOrMore([Tip(Command("..."))])
  }

  // ---------------------------------------------------------------- the trees the parser can return

  /** What an atom can yield: as in the grammar, but a command may be named by a stray ellipsis. */
  predicate ParsableAtom(p: Pattern)
    decreases p, 0
  {
    match p
    case Tip(leaf) => leaf.Argument? || leaf.Command?
    case Required(cs) => ParsableBody(cs)
    case Optional(cs) => ParsableBody(cs)
    case OptionsShortcut(cs) => cs == []
    case OneOrMore(_) => false
    case Either(_) => false
  }

  predicate ParsableItem(p: Pattern)
    decreases p, 1
  {
    if p.OneOrMore? then |p.children| == 1 && ParsableAtom(p.children[0]) else ParsableAtom(p)
  }

  /** An ellipsis is a command only where it can end no item: first, or after a repetition. */
  predicate StraysApart(cs: seq<Pattern>) {
    forall i :: 0 < i < |cs| && Stray(cs[i]) ==> cs[i - 1].OneOrMore?
  }

  predicate ParsableBody(cs: seq<Pattern>)
    decreases cs, 2
  {
    if |cs| == 1 && cs[0].Either?
    then |cs[0].children| >= 2 && forall c :: c in cs[0].children ==> ParsableItem(c)
    else StraysApart(cs) && forall c :: c in cs ==> ParsableItem(c)
  }

  lemma {:induction false} CanonicalIsParsable(cs: seq<Pattern>)
    requires CanonicalBody(cs)
    ensures ParsableBody(cs)
    decreases cs, 2
  {
    if |cs| == 1 && cs[0].Either? {
      forall c | c in cs[0].children ensures ParsableItem(c) { CanonicalItemIsParsable(c); }
    } else {
      forall c | c in cs ensures ParsableItem(c) && !Stray(c) { CanonicalItemIsParsable(c); }
    }
  }

  lemma {:induction false} CanonicalItemIsParsable(p: Pattern)
    requires CanonicalItem(p)
    ensures ParsableItem(p) && !Stray(p)
    decreases p, 1
  {
    var atom := if p.OneOrMore? then p.children[0] else p;
    if atom.Required? || atom.Optional? { CanonicalIsParsable(atom.children); }
  }

  // ---------------------------------------------------------------- parsing what was printed

  lemma PrintStarts(p: Pattern)
    requires ParsableItem(p)
    ensures var ts := Print(p); !Ends(ts) && (ts[0] == Ellipsis <==> Stray(p))
  {
    if p.OneOrMore? {
      assert Print(p) == Print(p.children[0]) + PrintSeq(p.children[1..]) + [Ellipsis];
      PrintStarts(p.children[0]);
    }
  }

  lemma {:induction false} AtomUndoesPrint(p: Pattern, rest: seq<Token>)
    requires ParsableAtom(p)
    ensures !Ends(Print(p) + rest)
    ensures Atom(Print(p) + rest) == Parsed([p], rest)
    decreases p, 0
  {
    var ts := Print(p) + rest;
    PrintStarts(p);
    if p.Required? || p.Optional? {
      var b := if p.Required? then Round else Square;
      var inner := PrintSeq(p.children) + ([Close(b)] + rest);
      assert ts == [Open(b)] + inner;
      ExprUndoesPrint(p.children, [Close(b)] + rest);
      assert ts[1..] == inner;
    } else {
      assert ts[1..] == rest;
    }
  }

  lemma {:induction false} ItemUndoesPrint(p: Pattern, done: seq<Pattern>, rest: seq<Token>)
    requires ParsableItem(p)
    requires rest == [] || rest[0] != Ellipsis || p.OneOrMore?
    ensures Sequence(done, Print(p) + rest) == Sequence(done + [p], rest)
    decreases p, 1
  {
    if p.OneOrMore? {
      var c := p.children[0];
      assert PrintSeq(p.children) == Print(c) + PrintSeq(p.children[1..]);
      assert Print(p) + rest == Print(c) + ([Ellipsis] + rest);
      AtomUndoesPrint(c, [Ellipsis] + rest);
      assert p == OneOrMore([c]);
      assert ([Ellipsis] + rest)[1..] == rest;
    } else {
      AtomUndoesPrint(p, rest);
    }
  }

  lemma {:induction false} SequenceUndoesPrint(cs: seq<Pattern>, done: seq<Pattern>, rest: seq<Token>)
    requires StraysApart(cs) && forall c :: c in cs ==> ParsableItem(c)
    requires Ends(rest)
    ensures Sequence(done, PrintSeq(cs) + rest) == Parsed(done + cs, rest)
    decreases cs, 0
  {
    if cs == [] {
      assert PrintSeq(cs) + rest == rest;
    } else {
      var tail := PrintSeq(cs[1..]) + rest;
      assert PrintSeq(cs) + rest == Print(cs[0]) + tail;
      if cs[1..] == [] {
        assert tail == rest;
      } else {
        PrintStarts(cs[1]);
        assert tail[0] == Print(cs[1])[0];
      }
      ItemUndoesPrint(cs[0], done, tail);
      SequenceUndoesPrint(cs[1..], done + [cs[0]], rest);
      MoveFirst(done, cs);
    }
  }

  lemma MoreStarts(cs: seq<Pattern>, rest: seq<Token>)
    requires Ends(rest)
    ensures Ends(PrintMore(cs) + rest)
    ensures cs != [] ==> (PrintMore(cs) + rest)[0] == Pipe
  {
    if cs == [] { assert PrintMore(cs) + rest == rest; }
  }

  lemma ChoiceStep(done: seq<Pattern>, ts: seq<Token>, p: Pattern, rest: seq<Token>)
    requires ts != [] && ts[0] == Pipe && Sequence([], ts[1..]) == Parsed([p], rest)
    ensures Choice(done, ts) == Choice(done + [p], rest)
  {
  }

  lemma {:induction false} ChoiceUndoesPrint(cs: seq<Pattern>, done: seq<Pattern>, rest: seq<Token>)
    requires forall c :: c in cs ==> ParsableItem(c)
    requires Ends(rest) && (rest == [] || rest[0] != Pipe)
    requires |done| + |cs| > 1
    ensures Choice(done, PrintMore(cs) + rest) == Parsed([Either(done + cs)], rest)
    decreases cs, 0
  {
    if cs == [] {
      assert PrintMore(cs) + rest == rest;
      assert done + cs == done;
    } else {
      var tail := PrintMore(cs[1..]) + rest;
      MoreStarts(cs[1..], rest);
      MoreSplits(cs, rest);
      OneUndoesPrint(cs[0], tail);
      ChoiceStep(done, PrintMore(cs) + rest, cs[0], tail);
      ChoiceUndoesPrint(cs[1..], done + [cs[0]], rest);
      MoveFirst(done, cs);
    }
  }

  lemma MoveFirst(done: seq<Pattern>, cs: seq<Pattern>)
    requires cs != []
    ensures (done + [cs[0]]) + cs[1..] == done + cs
  {
  }

  lemma Regroup(t: Token, xs: seq<Token>, ys: seq<Token>, zs: seq<Token>)
    ensures var ts := [t] + xs + ys + zs;
            ts[0] == t && ts[1..] == xs + (ys + zs)
  {
  }

  lemma MoreSplits(cs: seq<Pattern>, rest: seq<Token>)
    requires cs != []
    ensures var ts := PrintMore(cs) + rest;
            ts[0] == Pipe && ts[1..] == Print(cs[0]) + (PrintMore(cs[1..]) + rest)
  {
    Regroup(Pipe, Print(cs[0]), PrintMore(cs[1..]), rest);
  }

  lemma {:induction false} OneUndoesPrint(p: Pattern, rest: seq<Token>)
    requires ParsableItem(p) && Ends(rest)
    ensures Sequence([], Print(p) + rest) == Parsed([p], rest)
    decreases p, 2
  {
    ItemUndoesPrint(p, [], rest);
    assert [] + [p] == [p];
  }

  lemma {:induction false} ExprUndoesPrint(cs: seq<Pattern>, rest: seq<Token>)
    requires ParsableBody(cs)
    requires Ends(rest) && (rest == [] || rest[0] != Pipe)
    ensures Expr(PrintSeq(cs) + rest) == Parsed(cs, rest)
    decreases cs, 1
  {
    if |cs| == 1 && cs[0].Either? {
      var alts := cs[0].children;
      var tail := PrintMore(alts[1..]) + rest;
      assert PrintSeq(cs) == Print(cs[0]) + PrintSeq(cs[1..]);
      assert PrintSeq(cs) + rest == Print(alts[0]) + tail;
      MoreStarts(alts[1..], rest);
      OneUndoesPrint(alts[0], tail);
      ChoiceUndoesPrint(alts[1..], [alts[0]], rest);
      assert [alts[0]] + alts[1..] == alts;
      assert [Either(alts)] == cs;
    } else {
      SequenceUndoesPrint(cs, [], rest);
      assert [] + cs == cs;
    }
  }

  /** The parser undoes the printer on every tree it can return, with no token left. */
  lemma ParseUndoesPrint(cs: seq<Pattern>)
    requires ParsableBody(cs)
    ensures Whole(PrintSeq(cs)) == Ok(Required(cs))
  {
    ExprUndoesPrint(cs, []);
    assert PrintSeq(cs) + [] == PrintSeq(cs);
  }

  /** In particular on every canonical tree of the grammar. */
  lemma ParseUndoesCanonicalPrint(cs: seq<Pattern>)
    requires CanonicalBody(cs)
    ensures Whole(PrintSeq(cs)) == Ok(Required(cs))
  {
    CanonicalIsParsable(cs);
    ParseUndoesPrint(cs);
  }

  // ---------------------------------------------------------------- what parsing can return

  /** Items so far: the next one may be a stray ellipsis only if the last one is a repetition. */
  predicate Items(cs: seq<Pattern>) {
    StraysApart(cs) && forall c :: c in cs ==> ParsableItem(c)
  }

  predicate MayStray(done: seq<Pattern>, ts: seq<Token>) {
    done == [] || done[|done| - 1].OneOrMore? || ts == [] || ts[0] != Ellipsis
  }

  lemma {:induction false} AtomIsParsable(ts: seq<Token>)
    requires !Ends(ts) && Atom(ts).Parsed?
    ensures var cs := Atom(ts).value;
            |cs| == 1 && ParsableAtom(cs[0]) && (Stray(cs[0]) <==> ts[0] == Ellipsis)
    decreases |ts|, 0
  {
    if ts[0].Open? { ExprIsParsable(ts[1..]); }
  }

  lemma ItemsAppend(done: seq<Pattern>, item: Pattern)
    requires Items(done) && ParsableItem(item)
    requires done == [] || done[|done| - 1].OneOrMore? || !Stray(item)
    ensures Items(done + [item])
  {
  }

  lemma {:induction false} SequenceIsParsable(done: seq<Pattern>, ts: seq<Token>)
    requires Sequence(done, ts).Parsed? && Items(done) && MayStray(done, ts)
    ensures Items(Sequence(done, ts).value)
    decreases |ts|, 1
  {
    if !Ends(ts) {
      var a := Atom(ts);
      AtomIsParsable(ts);
      var many := a.rest != [] && a.rest[0] == Ellipsis;
      var item := if many then OneOrMore(a.value) else a.value[0];
      ItemsAppend(done, item);
      assert many || a.value == [item];
      SequenceIsParsable(done + [item], if many then a.rest[1..] else a.rest);
    }
  }

  /** Items that stand alone as alternatives. */
  predicate Alternatives(cs: seq<Pattern>) {
    forall c :: c in cs ==> ParsableItem(c)
  }

  lemma ItemIsNotEither(p: Pattern)
    requires ParsableItem(p)
    ensures !p.Either?
  {
  }

  lemma ItemsAreBody(cs: seq<Pattern>)
    requires Items(cs)
    ensures ParsableBody(cs)
  {
    if |cs| == 1 { ItemIsNotEither(cs[0]); }
  }

  lemma GroupedIsItems(cs: seq<Pattern>)
    requires Items(cs)
    ensures Alternatives(Grouped(cs))
  {
    ItemsAreBody(cs);
    if |cs| > 1 { assert ParsableAtom(Required(cs)); }
  }

  lemma {:induction false} ChoiceIsParsable(done: seq<Pattern>, ts: seq<Token>)
    requires Choice(done, ts).Parsed? && Alternatives(done)
    ensures ParsableBody(Choice(done, ts).value)
    decreases |ts|, 2
  {
    if ts == [] || ts[0] != Pipe {
      if |done| <= 1 { ItemsAreBody(done); }
    } else {
      var s := Sequence([], ts[1..]);
      SequenceIsParsable([], ts[1..]);
      GroupedIsItems(s.value);
      ChoiceIsParsable(done + Grouped(s.value), s.rest);
    }
  }

  lemma {:induction false} ExprIsParsable(ts: seq<Token>)
    requires Expr(ts).Parsed?
    ensures ParsableBody(Expr(ts).value)
    decreases |ts|, 3
  {
    var s := Sequence([], ts);
    SequenceIsParsable([], ts);
    ItemsAreBody(s.value);
    if s.rest != [] && s.rest[0] == Pipe {
      GroupedIsItems(s.value);
      ChoiceIsParsable(Grouped(s.value), s.rest);
    }
  }

  /** Printing what any accepted text parsed to and parsing again gives the same tree. */
  lemma ReprintParsesBack(ts: seq<Token>)
    requires Whole(ts).Ok?
    ensures Whole(PrintSeq(Whole(ts).value.children)) == Whole(ts)
  {
    ExprIsParsable(ts);
    ParseUndoesPrint(Whole(ts).value.children);
  }

  /** The trees the parser returns are exactly those described above. */
  lemma ParserImage(cs: seq<Pattern>)
    ensures (exists ts :: Whole(ts) == Ok(Required(cs))) <==> ParsableBody(cs)
  {
    if ts :| Whole(ts) == Ok(Required(cs)) { ExprIsParsable(ts); }
    if ParsableBody(cs) { ParseUndoesPrint(cs); }
  }

  // ---------------------------------------------------------------- when parsing fails

  /** Brackets nest: every closing bracket meets the innermost open one of its kind, and none stays open. */
  predicate Nested(ts: seq<Token>, open: seq<Bracket>)
    decreases ts
  {
    if ts == [] then open == []
    else
      match ts[0]
      case Open(b) => Nested(ts[1..], open + [b])
      case Close(b) => open != [] && open[|open| - 1] == b && Nested(ts[1..], open[..|open| - 1])
      case _ => Nested(ts[1..], open)
  }

  /**
   The first thing wrong with the brackets: the innermost open one meets another, or the end, or a closing
   one comes with none open.
   */
  function Fault(ts: seq<Token>, open: seq<Bracket>): Option<ParseError>
    decreases ts
  {
    if ts == [] then if open == [] then None else Some(Unmatched(open[|open| - 1]))
    else
      match ts[0]
      case Open(b) => Fault(ts[1..], open + [b])
      case Close(b) =>
        if open == [] then Some(UnexpectedEnding)
        else if open[|open| - 1] != b then Some(Unmatched(open[|open| - 1]))
        else Fault(ts[1..], open[..|open| - 1])
      case _ => Fault(ts[1..], open)
  }

  lemma {:induction false} NestedIsFaultless(ts: seq<Token>, open: seq<Bracket>)
    ensures Nested(ts, open) <==> Fault(ts, open).None?
    decreases ts
  {
    if ts != [] {
      match ts[0]
      case Open(b) => NestedIsFaultless(ts[1..], open + [b]);
      case Close(b) => if open != [] { NestedIsFaultless(ts[1..], open[..|open| - 1]); }
      case _ => NestedIsFaultless(ts[1..], open);
    }
  }

  /** Whatever was open before, parsing a part reports its fault, or leaves the rest to decide. */
  ghost predicate Decides(p: Parsed, ts: seq<Token>, open: seq<Bracket>) {
    if p.Failed? then Fault(ts, open) == Some(p.error) else Fault(ts, open) == Fault(p.rest, open)
  }

  lemma {:induction false} AtomDecides(ts: seq<Token>, open: seq<Bracket>)
    requires !Ends(ts)
    ensures Decides(Atom(ts), ts, open)
    decreases |ts|, 0
  {
    if ts[0].Open? {
      var b := ts[0].bracket;
      var inner := open + [b];
      ExprDecides(ts[1..], inner);
      var e := Expr(ts[1..]);
      if e.Parsed? && e.rest != [] && e.rest[0] == Close(b) { assert inner[..|inner| - 1] == open; }
    }
  }

  lemma {:induction false} SequenceDecides(done: seq<Pattern>, ts: seq<Token>, open: seq<Bracket>)
    ensures Decides(Sequence(done, ts), ts, open)
    ensures Sequence(done, ts).Parsed? ==> Ends(Sequence(done, ts).rest)
    decreases |ts|, 1
  {
    if !Ends(ts) {
      AtomDecides(ts, open);
      var a := Atom(ts);
      if a.Parsed? {
        if a.rest != [] && a.rest[0] == Ellipsis {
          SequenceDecides(done + [OneOrMore(a.value)], a.rest[1..], open);
        } else {
          SequenceDecides(done + a.value, a.rest, open);
        }
      }
    }
  }

  /** Tokens a choice or expression stops at: the end or a closing bracket. */
  predicate Stops(ts: seq<Token>) {
    ts == [] || ts[0].Close?
  }

  lemma {:induction false} ChoiceDecides(done: seq<Pattern>, ts: seq<Token>, open: seq<Bracket>)
    requires Ends(ts)
    ensures Decides(Choice(done, ts), ts, open)
    ensures Choice(done, ts).Parsed? ==> Stops(Choice(done, ts).rest)
    decreases |ts|, 2
  {
    if ts != [] && ts[0] == Pipe {
      SequenceDecides([], ts[1..], open);
      var s := Sequence([], ts[1..]);
      if s.Parsed? { ChoiceDecides(done + Grouped(s.value), s.rest, open); }
    }
  }

  lemma {:induction false} ExprDecides(ts: seq<Token>, open: seq<Bracket>)
    ensures Decides(Expr(ts), ts, open)
    ensures Expr(ts).Parsed? ==> Stops(Expr(ts).rest)
    decreases |ts|, 3
  {
    SequenceDecides([], ts, open);
    var s := Sequence([], ts);
    if s.Parsed? && s.rest != [] && s.rest[0] == Pipe { ChoiceDecides(Grouped(s.value), s.rest, open); }
  }

  /** A usage pattern is rejected exactly when its brackets do not nest. */
  lemma ParsesIffNested(ts: seq<Token>)
    ensures Whole(ts).Ok? <==> Nested(ts, [])
  {
    ErrorIsFirstFault(ts);
    NestedIsFaultless(ts, []);
  }

  /** And the error it is rejected with is the first fault of its brackets. */
  lemma ErrorIsFirstFault(ts: seq<Token>)
    ensures match Whole(ts) case Ok(_) => Fault(ts, []) == None case Err(e) => Fault(ts, []) == Some(e)
  {
    ExprDecides(ts, []);
  }

  // ---------------------------------------------------------------- which texts the grammar has

  /** No ellipsis where there is nothing to repeat: at the start, or after an opening bracket, a bar or another. */
  predicate StrayFree(ts: seq<Token>) {
    forall i :: 0 <= i < |ts| ==> HasAnItem(ts, i, false)
  }

  predicate Repeatable(t: Token) {
    !t.Open? && !t.Pipe? && !t.Ellipsis?
  }

  /** An ellipsis at `i` follows something it can repeat; `ready` says so of the text before. */
  predicate HasAnItem(ts: seq<Token>, i: nat, ready: bool)
    requires i < |ts|
  {
    ts[i] == Ellipsis ==> if i == 0 then ready else Repeatable(ts[i - 1])
  }

  /** The same from left to right. */
  predicate Scan(ts: seq<Token>, ready: bool) {
    ts == [] || ((ts[0] == Ellipsis ==> ready) && Scan(ts[1..], Repeatable(ts[0])))
  }

  lemma {:induction false} ScanIsStrayFree(ts: seq<Token>, ready: bool)
    ensures Scan(ts, ready) <==> forall i :: 0 <= i < |ts| ==> HasAnItem(ts, i, ready)
  {
    if ts != [] {
      var tail, next := ts[1..], Repeatable(ts[0]);
      ScanIsStrayFree(tail, next);
      assert HasAnItem(ts, 0, ready) <==> (ts[0] == Ellipsis ==> ready);
      forall i | 0 <= i < |tail| ensures HasAnItem(ts, i + 1, ready) <==> HasAnItem(tail, i, next) {
      }
      forall i | 0 < i < |ts| ensures HasAnItem(ts, i, ready) <==> HasAnItem(tail, i - 1, next) {
      }
    }
  }

  predicate Canonical(cs: seq<Pattern>) {
    forall c :: c in cs ==> CanonicalItem(c)
  }

  lemma {:induction false} AtomScans(ts: seq<Token>)
    requires !Ends(ts) && Atom(ts).Parsed?
    ensures var a := Atom(ts);
            |a.value| == 1 && !a.value[0].Either? && !a.value[0].OneOrMore?
            && (Scan(ts, false) <==> CanonicalAtom(a.value[0]) && Scan(a.rest, true))
    decreases |ts|, 0
  {
    if ts[0].Open? {
      ExprScans(ts[1..]);
      assert Scan(ts, false) == Scan(ts[1..], false);
    }
  }

  /** What a sequence adds is canonical exactly if it meets no stray ellipsis. */
  lemma {:induction false} SequenceScans(done: seq<Pattern>, ts: seq<Token>)
    requires Sequence(done, ts).Parsed? && forall c :: c in done ==> !c.Either?
    ensures var s := Sequence(done, ts);
            Ends(s.rest) && (forall c :: c in s.value ==> !c.Either?)
            && (Canonical(done) && Scan(ts, false) <==> Canonical(s.value) && Scan(s.rest, false))
    decreases |ts|, 1
  {
    if !Ends(ts) {
      var a := Atom(ts);
      AtomScans(ts);
      var many := a.rest != [] && a.rest[0] == Ellipsis;
      var item := if many then OneOrMore(a.value) else a.value[0];
      var rest := if many then a.rest[1..] else a.rest;
      assert CanonicalItem(item) == CanonicalAtom(a.value[0]);
      assert Scan(a.rest, true) == Scan(rest, false);
      assert many || a.value == [item];
      assert Canonical(done + [item]) == (Canonical(done) && CanonicalItem(item));
      SequenceScans(done + [item], rest);
    }
  }

  lemma GroupedScans(cs: seq<Pattern>)
    requires forall c :: c in cs ==> !c.Either?
    ensures Canonical(Grouped(cs)) <==> Canonical(cs)
    ensures forall c :: c in Grouped(cs) ==> !c.Either?
  {
    if |cs| > 1 {
      assert CanonicalItem(Required(cs)) == CanonicalAtom(Required(cs)) == CanonicalBody(cs);
      assert CanonicalBody(cs) == Canonical(cs);
      assert Grouped(cs) == [Required(cs)];
    }
  }

  lemma {:induction false} ChoiceScans(done: seq<Pattern>, ts: seq<Token>)
    requires Choice(done, ts).Parsed? && forall c :: c in done ==> !c.Either?
    ensures var r := Choice(done, ts);
            Canonical(done) && Scan(ts, false) <==> CanonicalBody(r.value) && Scan(r.rest, false)
    decreases |ts|, 2
  {
    if ts == [] || ts[0] != Pipe {
      assert CanonicalBody(Choice(done, ts).value) == Canonical(done);
    } else {
      var s := Sequence([], ts[1..]);
      SequenceScans([], ts[1..]);
      GroupedScans(s.value);
      var next := done + Grouped(s.value);
      assert Canonical(next) == (Canonical(done) && Canonical(Grouped(s.value)));
      assert Scan(ts, false) == Scan(ts[1..], false);
      ChoiceScans(next, s.rest);
    }
  }

  lemma {:induction false} ExprScans(ts: seq<Token>)
    requires Expr(ts).Parsed?
    ensures Scan(ts, false) <==> CanonicalBody(Expr(ts).value) && Scan(Expr(ts).rest, false)
    ensures Stops(Expr(ts).rest)
    decreases |ts|, 3
  {
    var s := Sequence([], ts);
    SequenceScans([], ts);
    ExprDecides(ts, []);
    if s.rest != [] && s.rest[0] == Pipe {
      GroupedScans(s.value);
      ChoiceScans(Grouped(s.value), s.rest);
    } else {
      assert CanonicalBody(s.value) == Canonical(s.value);
    }
  }

  /** What is parsed is canonical exactly where every ellipsis has something to repeat. */
  lemma CanonicalIffStrayFree(ts: seq<Token>)
    requires Whole(ts).Ok?
    ensures CanonicalBody(Whole(ts).value.children) <==> StrayFree(ts)
  {
    ExprScans(ts);
    ScanIsStrayFree(ts, false);
  }

  /** A lone ellipsis parses, but not to a tree of the grammar. */
  lemma LoneEllipsisIsACommand()
    ensures Whole([Ellipsis]) == Ok(Required([Tip(Command("..."))]))
    ensures !CanonicalBody([Tip(Command("..."))])
  {
    var cs := [Tip(Command("..."))];
    assert [Ellipsis][1..] == [];
    assert Sequence(cs, []) == Parsed(cs, []);
    assert [] + cs == cs;
    assert Sequence([], [Ellipsis]) == Parsed(cs, []);
    assert !CanonicalItem(cs[0]);
  }
}
