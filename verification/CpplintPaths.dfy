/**
 The stack of open blocks around any place of a well-nested text (core/deps/SQLiteCpp-2.3.0/cpplint.py): it is
 the path of the scopes the place lies in.
 */
module CpplintPaths {
  import opened Wrappers
  import opened CpplintNesting
  import opened CpplintScopes

  // ---------------------------------------------------------------- well-nested texts

  /** What opens a scope; its brace may stand on the next line, and a plain one may open assembly. */
  datatype Opener = Opener(kind: Kind, braceBelow: bool, asm: bool)

  datatype Item =
    | Scope(opener: Opener, body: seq<Item>)
    | Keyword(access: string)
    | Forward(name: string, isStruct: bool)
    | Call(parens: int)

  function PlainLine(marks: seq<Mark>): Line {
    Line(NoDirective, 0, false, [], None, Tail(None, marks))
  }

  function Brace(): Mark {
    OpenBrace(false)
  }

  /** The lines that open a scope. */
  function OpenLines(o: Opener): seq<Line> {
    var below := if o.braceBelow then [PlainLine([Brace()])] else [];
    match o.kind
    case Plain => [PlainLine([OpenBrace(o.asm)])]
    case Namespace(name) =>
      [PlainLine([]).(namespaces := [NamespaceHead(name, !o.braceBelow)])] + below
    case Class(name, isStruct) =>
      [PlainLine([]).(classHead := Some(ClassHead(name, isStruct,
                                                  Tail(None, if o.braceBelow then [] else [Brace()]))))] + below
  }

  /** A class ends in a semicolon as well. */
  function CloseLine(o: Opener): Line {
    PlainLine(if o.kind.Class? then [CloseBrace, Semicolon] else [CloseBrace])
  }

  /** A call spread over two lines opens parentheses on one and closes them on the other. */
  function LinesOf(item: Item): seq<Line>
    decreases item, 0
  {
    match item
    case Scope(o, body) => OpenLines(o) + LinesOfAll(body) + [CloseLine(o)]
    case Keyword(access) => [PlainLine([]).(tail := Tail(Some(access), []))]
    case Forward(name, isStruct) =>
      [PlainLine([]).(classHead := Some(ClassHead(name, isStruct, Tail(None, [Semicolon]))))]
    case Call(parens) =>
      [PlainLine([]).(parens := parens), PlainLine([CloseParen, Semicolon]).(parens := -parens)]
  }

  function LinesOfAll(items: seq<Item>): seq<Line>
    decreases items, 0
  {
    if items == [] then [] else LinesOf(items[0]) + LinesOfAll(items[1..])
  }

  // ---------------------------------------------------------------- the blocks of a path

  /** The last access keyword among these items, not looking into scopes. */
  function LastAccess(items: seq<Item>, a: string): string {
    if items == [] then a
    else LastAccess(items[1..], if items[0].Keyword? then items[0].access else a)
  }

  /** The block of a scope after some of its items. */
  function BlockAfter(o: Opener, items: seq<Item>): Block {
    Block(o.kind, true, 0, if o.kind.Plain? && o.asm then BlockAsm else NoAsm,
          if o.kind.Class? then LastAccess(items, if o.kind.isStruct then "public" else "private") else "")
  }

  /** The innermost block is open, outside parentheses and not within a statement of assembly. */
  predicate Settled(s: Stack) {
    s == [] || (Last(s).seenOpenBrace && Last(s).openParens == 0 && (Last(s).asm == NoAsm || Last(s).asm == BlockAsm))
  }

  /** The stack after items of its innermost scope: nothing but the access of a class can have changed. */
  function AfterItems(s: Stack, items: seq<Item>): Stack {
    if s != [] && Last(s).kind.Class? then WithLast(s, Last(s).(access := LastAccess(items, Last(s).access))) else s
  }

  lemma OneAccess(item: Item, a: string)
    ensures LastAccess([item], a) == if item.Keyword? then item.access else a
  {
    assert [item][1..] == [];
  }

  lemma AfterOne(s: Stack, item: Item)
    ensures AfterItems(s, [item]) ==
            if item.Keyword? && s != [] && Last(s).kind.Class? then WithLast(s, Last(s).(access := item.access)) else s
  {
    if s != [] {
      OneAccess(item, Last(s).access);
      assert WithLast(s, Last(s)) == s;
    }
  }

  lemma {:induction false} FoldAppend(s: Stack, xs: seq<Line>, ys: seq<Line>)
    ensures Fold(s, xs + ys) == Fold(Fold(s, xs), ys)
    decreases xs
  {
    if xs == [] {
      assert xs + ys == ys;
    } else {
      assert (xs + ys)[1..] == xs[1..] + ys;
      FoldAppend(Rest(s, xs[0]), xs[1..], ys);
    }
  }

  lemma FoldOne(s: Stack, line: Line)
    ensures Fold(s, [line]) == Rest(s, line)
  {
    assert [line][1..] == [];
  }

  lemma FoldTwo(s: Stack, a: Line, b: Line)
    ensures Fold(s, [a, b]) == Rest(Rest(s, a), b)
  {
    assert [a, b][1..] == [b];
    FoldOne(Rest(s, a), b);
  }

  /** A line without parentheses leaves a settled stack to its declarations and braces. */
  lemma SettledCounts(s: Stack, line: Line)
    requires Settled(s) && line.parens == 0
    ensures CountParens(s, line) == s
  {
    if s != [] { assert WithLast(s, Last(s)) == s; }
  }

  lemma OneMark(s: Stack, m: Mark)
    ensures TakeMarks(s, [m]) == TakeMark(s, m)
  {
    assert [m][1..] == [];
  }

  lemma TwoMarks(s: Stack, m: Mark, m': Mark)
    ensures TakeMarks(s, [m, m']) == TakeMark(TakeMark(s, m), m')
  {
    assert [m, m'][1..] == [m'];
    OneMark(TakeMark(s, m), m');
  }

  /** A line of marks alone. */
  lemma PlainRest(s: Stack, ms: seq<Mark>)
    requires Settled(s) || (s != [] && Last(s).openParens == 0 && Last(s).asm == NoAsm)
    ensures Rest(s, PlainLine(ms)) == TakeMarks(s, ms)
  {
    if s != [] { assert WithLast(s, Last(s)) == s; }
  }

  /** Where the brace is still to come, the next line brings it. */
  lemma BraceBelow(s: Stack, b: Block, o: Opener, lines: seq<Line>)
    requires lines != [] && lines == [lines[0]] + if o.braceBelow then [PlainLine([Brace()])] else []
    requires !o.kind.Plain? && Rest(s, lines[0]) == s + [b]
    requires b == BlockAfter(o, []).(seenOpenBrace := !o.braceBelow)
    ensures Fold(s, lines) == s + [BlockAfter(o, [])]
  {
    FoldOne(s, lines[0]);
    if o.braceBelow {
      FoldTwo(s, lines[0], lines[1]);
      PlainRest(s + [b], [Brace()]);
      OneMark(s + [b], Brace());
      assert WithLast(s + [b], b.(seenOpenBrace := true)) == s + [BlockAfter(o, [])];
    } else {
      assert lines == [lines[0]];
    }
  }

  /** A line with a class head alone takes it. */
  lemma HeadTaken(s: Stack, head: ClassHead)
    requires Settled(s) && head.tail.access.None?
    ensures Rest(s, PlainLine([]).(classHead := Some(head))) == TakeMarks(s + [ClassBlock(head)], head.tail.marks)
  {
    SettledCounts(s, PlainLine([]).(classHead := Some(head)));
    assert PushNamespaces(s, []) == s;
  }

  lemma PlainOpens(s: Stack, o: Opener)
    requires Settled(s) && o.kind.Plain?
    ensures Fold(s, OpenLines(o)) == s + [BlockAfter(o, [])]
  {
    var m := OpenBrace(o.asm);
    FoldOne(s, PlainLine([m]));
    PlainRest(s, [m]);
    OneMark(s, m);
  }

  lemma NamespaceOpens(s: Stack, o: Opener)
    requires Settled(s) && o.kind.Namespace?
    ensures Fold(s, OpenLines(o)) == s + [BlockAfter(o, [])]
  {
    var lines := OpenLines(o);
    var head := NamespaceHead(o.kind.name, !o.braceBelow);
    SettledCounts(s, lines[0]);
    assert [head][1..] == [];
    assert PushNamespaces(s, [head]) == s + [NamespaceBlock(head)];
    BraceBelow(s, NamespaceBlock(head), o, lines);
  }

  lemma ClassOpens(s: Stack, o: Opener)
    requires Settled(s) && o.kind.Class?
    ensures Fold(s, OpenLines(o)) == s + [BlockAfter(o, [])]
  {
    var lines := OpenLines(o);
    var block := Block(o.kind, false, 0, NoAsm, if o.kind.isStruct then "public" else "private");
    HeadTaken(s, lines[0].classHead.value);
    OneMark(s + [block], Brace());
    assert WithLast(s + [block], block.(seenOpenBrace := true)) == s + [block.(seenOpenBrace := true)];
    BraceBelow(s, block.(seenOpenBrace := !o.braceBelow), o, lines);
  }

  /** Opening a scope puts its block on the stack. */
  lemma OpenPushes(s: Stack, o: Opener)
    requires Settled(s)
    ensures Fold(s, OpenLines(o)) == s + [BlockAfter(o, [])] && Settled(s + [BlockAfter(o, [])])
  {
    match o.kind
    case Plain => PlainOpens(s, o);
    case Namespace(_) => NamespaceOpens(s, o);
    case Class(_, _) => ClassOpens(s, o);
  }

  lemma ClosePops(s: Stack, b: Block, o: Opener)
    requires Settled(s) && Settled(s + [b])
    ensures Fold(s + [b], [CloseLine(o)]) == s
  {
    var all := s + [b];
    FoldOne(all, CloseLine(o));
    PlainRest(all, CloseLine(o).tail.marks);
    assert all[..|all| - 1] == s;
    OneMark(all, CloseBrace);
    TwoMarks(all, CloseBrace, Semicolon);
  }

  lemma KeywordTaken(s: Stack, access: string)
    requires Settled(s)
    ensures Fold(s, LinesOf(Keyword(access))) == AfterItems(s, [Keyword(access)])
  {
    var line := LinesOf(Keyword(access))[0];
    FoldOne(s, line);
    SettledCounts(s, line);
    assert PushNamespaces(s, []) == s;
    AfterOne(s, Keyword(access));
  }

  lemma ForwardGone(s: Stack, name: string, isStruct: bool)
    requires Settled(s)
    ensures Fold(s, LinesOf(Forward(name, isStruct))) == s
  {
    var line := LinesOf(Forward(name, isStruct))[0];
    FoldOne(s, line);
    HeadTaken(s, line.classHead.value);
    var head := s + [ClassBlock(line.classHead.value)];
    OneMark(head, Semicolon);
    assert head[..|head| - 1] == s;
  }

  lemma CallGone(s: Stack, parens: int)
    requires Settled(s)
    ensures Fold(s, LinesOf(Call(parens))) == s
  {
    var lines := LinesOf(Call(parens));
    FoldTwo(s, lines[0], lines[1]);
    assert PushNamespaces(s, []) == s;
    if s == [] {
      TwoMarks(s, CloseParen, Semicolon);
    } else {
      var open := WithLast(s, Last(s).(openParens := parens));
      assert CountParens(s, lines[0]) == open;
      assert PushNamespaces(open, []) == open;
      assert CountParens(open, lines[1]) == s;
      TwoMarks(s, CloseParen, Semicolon);
    }
  }

  lemma AfterItemsFirst(s: Stack, items: seq<Item>)
    requires items != []
    ensures AfterItems(AfterItems(s, [items[0]]), items[1..]) == AfterItems(s, items)
    ensures !items[0].Keyword? ==> AfterItems(s, [items[0]]) == s
    ensures Settled(s) ==> Settled(AfterItems(s, [items[0]]))
  {
    AfterOne(s, items[0]);
    if s != [] {
      var t := AfterItems(s, [items[0]]);
      assert WithLast(t, Last(t).(access := LastAccess(items[1..], Last(t).access)))
          == WithLast(s, Last(s).(access := LastAccess(items[1..], Last(t).access)));
    }
  }

  lemma ScopeGone(s: Stack, o: Opener, body: seq<Item>)
    requires Settled(s)
    requires var inside := s + [BlockAfter(o, [])];
             Fold(inside, LinesOfAll(body)) == AfterItems(inside, body) && Settled(AfterItems(inside, body))
    ensures Fold(s, LinesOf(Scope(o, body))) == s
  {
    var inside := s + [BlockAfter(o, [])];
    OpenPushes(s, o);
    FoldAppend(s, OpenLines(o), LinesOfAll(body));
    FoldAppend(s, OpenLines(o) + LinesOfAll(body), [CloseLine(o)]);
    InsideAfter(s, o, body);
    ClosePops(s, BlockAfter(o, body), o);
  }

  lemma InsideAfter(here: Stack, o: Opener, passed: seq<Item>)
    ensures AfterItems(here + [BlockAfter(o, [])], passed) == here + [BlockAfter(o, passed)]
  {
    var inside := here + [BlockAfter(o, [])];
    assert inside[|inside| - 1 := BlockAfter(o, passed)] == here + [BlockAfter(o, passed)];
  }

  lemma {:induction false} ItemLeaves(s: Stack, item: Item)
    requires Settled(s)
    ensures Fold(s, LinesOf(item)) == AfterItems(s, [item])
    decreases item, 0
  {
    AfterItemsFirst(s, [item]);
    match item
    case Scope(o, body) =>
      OpenPushes(s, o);
      ItemsLeave(s + [BlockAfter(o, [])], body);
      ScopeGone(s, o, body);
    case Keyword(access) => KeywordTaken(s, access);
    case Forward(name, isStruct) => ForwardGone(s, name, isStruct);
    case Call(parens) => CallGone(s, parens);
  }

  /** Complete items leave the stack as it was, but for the last access keyword among them. */
  lemma {:induction false} ItemsLeave(s: Stack, items: seq<Item>)
    requires Settled(s)
    ensures Fold(s, LinesOfAll(items)) == AfterItems(s, items) && Settled(AfterItems(s, items))
    decreases items, 0
  {
    if items == [] {
      if s != [] { assert WithLast(s, Last(s)) == s; }
    } else {
      ItemLeaves(s, items[0]);
      AfterItemsFirst(s, items);
      FoldAppend(s, LinesOf(items[0]), LinesOfAll(items[1..]));
      ItemsLeave(AfterItems(s, [items[0]]), items[1..]);
    }
  }

  // ---------------------------------------------------------------- any place of a text

  /** A step into a scope, past the items before it. */
  datatype Step = Step(before: seq<Item>, opener: Opener)

  /** The lines up to a place: past items and into scopes, and past the last items. */
  function LinesUpTo(path: seq<Step>, last: seq<Item>): seq<Line> {
    if path == [] then LinesOfAll(last)
    else LinesOfAll(path[0].before) + OpenLines(path[0].opener) + LinesUpTo(path[1..], last)
  }

  /** The items passed at the outermost level of a path. */
  function Passed(path: seq<Step>, last: seq<Item>): seq<Item> {
    if path == [] then last else path[0].before
  }

  /** One block for every scope of the path, each after the items passed in it. */
  function PathBlocks(path: seq<Step>, last: seq<Item>): Stack {
    if path == [] then []
    else [BlockAfter(path[0].opener, Passed(path[1..], last))] + PathBlocks(path[1..], last)
  }

  lemma EnterScope(s: Stack, step: Step, rest: seq<Line>)
    requires Settled(s)
    ensures var inside := AfterItems(s, step.before) + [BlockAfter(step.opener, [])];
            Settled(inside)
            && Fold(s, LinesOfAll(step.before) + OpenLines(step.opener) + rest) == Fold(inside, rest)
  {
    ItemsLeave(s, step.before);
    OpenPushes(AfterItems(s, step.before), step.opener);
    FoldAppend(s, LinesOfAll(step.before), OpenLines(step.opener));
    FoldAppend(s, LinesOfAll(step.before) + OpenLines(step.opener), rest);
  }

  /** At any place of a well-nested text the stack is the path of the scopes around it. */
  lemma {:induction false} StackIsPath(s: Stack, path: seq<Step>, last: seq<Item>)
    requires Settled(s)
    ensures Fold(s, LinesUpTo(path, last)) == AfterItems(s, Passed(path, last)) + PathBlocks(path, last)
    decreases |path|
  {
    if path == [] {
      ItemsLeave(s, last);
      assert AfterItems(s, last) + [] == AfterItems(s, last);
    } else {
      var o, here, deeper := path[0].opener, AfterItems(s, path[0].before), path[1..];
      EnterScope(s, path[0], LinesUpTo(deeper, last));
      StackIsPath(here + [BlockAfter(o, [])], deeper, last);
      InsideAfter(here, o, Passed(deeper, last));
      Rejoin(here, BlockAfter(o, Passed(deeper, last)), PathBlocks(deeper, last));
    }
  }

  lemma Rejoin(s: Stack, b: Block, t: Stack)
    ensures (s + [b]) + t == s + ([b] + t)
  {
  }
}
