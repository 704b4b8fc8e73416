/**
 The brace tracker (core/deps/SQLiteCpp-2.3.0/cpplint.py): a stack of open blocks with
 checkpoints for preprocessor alternatives.  Lines come classified: the directive they hold,
 their parentheses, declarations and braces.
 */
module CpplintNesting {
  import opened Wrappers

  // ---------------------------------------------------------------- lines and blocks

  /** `Otherwise` stands for both #else and #elif. */
  datatype Directive = NoDirective | If | Otherwise | Endif

  datatype Asm = NoAsm | InsideAsm | EndAsm | BlockAsm

  datatype Kind = Plain | Namespace(name: string) | Class(className: string, isStruct: bool)

  /** The fields of a block of any class. */
  datatype Block = Block(kind: Kind, seenOpenBrace: bool, openParens: int, asm: Asm, access: string)

  /** The next brace, semicolon or closing parenthesis; an opening brace may start assembly. */
  datatype Mark = OpenBrace(asm: bool) | CloseBrace | Semicolon | CloseParen

  /** What is left of a line after its declarations. */
  datatype Tail = Tail(access: Option<string>, marks: seq<Mark>)

  datatype NamespaceHead = NamespaceHead(name: string, brace: bool)

  datatype ClassHead = ClassHead(name: string, isStruct: bool, tail: Tail)

  datatype Line = Line(directive: Directive, parens: int, asm: bool,
                       namespaces: seq<NamespaceHead>, classHead: Option<ClassHead>, tail: Tail)

  // ---------------------------------------------------------------- the rest of an update

  type Stack = seq<Block>

  function Last<T>(s: seq<T>): T
    requires s != []
  {
    s[|s| - 1]
  }

  function WithLast<T>(s: seq<T>, x: T): seq<T>
    requires s != []
  {
    s[|s| - 1 := x]
  }

  predicate SeenOpenBrace(s: Stack) {
    s == [] || Last(s).seenOpenBrace
  }

  /** The innermost block after the parentheses of a line. */
  function Counted(b: Block, line: Line): Block {
    var b' := b.(openParens := b.openParens + line.parens);
    if b'.asm == NoAsm || b'.asm == EndAsm then
      b'.(asm := if line.parens != 0 && b'.openParens == 1 && line.asm then InsideAsm else NoAsm)
    else if b'.asm == InsideAsm && b'.openParens == 0 then b'.(asm := EndAsm)
    else b'
  }

  function CountParens(s: Stack, line: Line): Stack {
    if s == [] then s else WithLast(s, Counted(Last(s), line))
  }

  function NamespaceBlock(h: NamespaceHead): Block {
    Block(Namespace(h.name), h.brace, 0, NoAsm, "")
  }

  function PushNamespaces(s: Stack, hs: seq<NamespaceHead>): Stack
    decreases hs
  {
    if hs == [] then s else PushNamespaces(s + [NamespaceBlock(hs[0])], hs[1..])
  }

  function ClassBlock(h: ClassHead): Block {
    Block(Class(h.name, h.isStruct), false, 0, NoAsm, if h.isStruct then "public" else "private")
  }

  /** A class head counts only outside the parentheses of the innermost block. */
  predicate TakesClass(s: Stack, line: Line) {
    line.classHead.Some? && (s == [] || Last(s).openParens == 0)
  }

  function SetAccess(s: Stack, access: Option<string>): Stack {
    if access.Some? && s != [] && Last(s).kind.Class? then WithLast(s, Last(s).(access := access.value)) else s
  }

  function TakeMark(s: Stack, m: Mark): Stack {
    match m
    case OpenBrace(asm) =>
      if SeenOpenBrace(s) then s + [Block(Plain, true, 0, if asm then BlockAsm else NoAsm, "")]
      else WithLast(s, Last(s).(seenOpenBrace := true))
    case CloseBrace => if s == [] then s else s[..|s| - 1]
    case _ => if SeenOpenBrace(s) then s else s[..|s| - 1]
  }

  function TakeMarks(s: Stack, ms: seq<Mark>): Stack
    decreases ms
  {
    if ms == [] then s else TakeMarks(TakeMark(s, ms[0]), ms[1..])
  }

  /** All of an update but its preprocessor part. */
  function Rest(s: Stack, line: Line): Stack {
    var s1 := PushNamespaces(CountParens(s, line), line.namespaces);
    if TakesClass(s1, line)
    then TakeTail(s1 + [ClassBlock(line.classHead.value)], line.classHead.value.tail)
    else TakeTail(s1, line.tail)
  }

  function TakeTail(s: Stack, tail: Tail): Stack {
    TakeMarks(SetAccess(s, tail.access), tail.marks)
  }

  // ---------------------------------------------------------------- what braces do to the stack

  /** Braces of these marks close in order, from `depth` open ones down to none. */
  predicate BracesClose(depth: nat, ms: seq<Mark>)
    decreases ms
  {
    if ms == [] then depth == 0
    else
      match ms[0]
      case OpenBrace(_) => BracesClose(depth + 1, ms[1..])
      case CloseBrace => depth > 0 && BracesClose(depth - 1, ms[1..])
      case _ => BracesClose(depth, ms[1..])
  }

  /** Closing what was opened above `s` gives `s` back, whatever semicolons and parentheses lie between. */
  lemma {:induction false} BracesUnwind(s: Stack, above: Stack, ms: seq<Mark>)
    requires SeenOpenBrace(s) && BracesClose(|above|, ms)
    requires forall i :: 0 <= i < |above| ==> above[i].seenOpenBrace
    ensures TakeMarks(s + above, ms) == s
    decreases ms
  {
    if ms == [] {
      assert s + above == s;
    } else {
      var all := s + above;
      assert SeenOpenBrace(all) by {
        if above == [] { assert all == s; } else { assert Last(all) == Last(above); }
      }
      match ms[0]
      case OpenBrace(asm) =>
        var b := Block(Plain, true, 0, if asm then BlockAsm else NoAsm, "");
        assert all + [b] == s + (above + [b]);
        BracesUnwind(s, above + [b], ms[1..]);
      case CloseBrace =>
        assert all[..|all| - 1] == s + above[..|above| - 1];
        BracesUnwind(s, above[..|above| - 1], ms[1..]);
      case Semicolon => BracesUnwind(s, above, ms[1..]);
      case CloseParen => BracesUnwind(s, above, ms[1..]);
    }
  }

  /** A declared head is gone after its body, or after a semicolon or parenthesis that comes before any brace. */
  lemma HeadUnwinds(s: Stack, head: Block, first: Mark, ms: seq<Mark>)
    requires SeenOpenBrace(s) && !head.seenOpenBrace
    requires if first.OpenBrace? then BracesClose(1, ms) else !first.CloseBrace? && BracesClose(0, ms)
    ensures TakeMarks(s + [head], [first] + ms) == s
  {
    assert ([first] + ms)[1..] == ms;
    var body := [head.(seenOpenBrace := true)];
    if first.OpenBrace? {
      assert WithLast(s + [head], body[0]) == s + body;
      BracesUnwind(s, body, ms);
    } else {
      assert (s + [head])[..|s|] == s + [];
      BracesUnwind(s, [], ms);
    }
  }

  // ---------------------------------------------------------------- whole updates

  datatype Checkpoint = Checkpoint(beforeIf: Stack, beforeElse: Stack, seenElse: bool)

  datatype State = State(stack: Stack, pp: seq<Checkpoint>)

  function UpdatePp(st: State, d: Directive): State {
    match d
    case NoDirective => st
    case If => st.(pp := st.pp + [Checkpoint(st.stack, [], false)])
    case Otherwise =>
      if st.pp == [] then st
      else
        var c := Last(st.pp);
        State(c.beforeIf, if c.seenElse then st.pp else WithLast(st.pp, Checkpoint(c.beforeIf, st.stack, true)))
    case Endif =>
      if st.pp == [] then st
      else State(if Last(st.pp).seenElse then Last(st.pp).beforeElse else st.stack, st.pp[..|st.pp| - 1])
  }

  function Updated(st: State, line: Line): State {
    var st' := UpdatePp(st, line.directive);
    st'.(stack := Rest(st'.stack, line))
  }

  function Run(st: State, lines: seq<Line>): State
    decreases lines
  {
    if lines == [] then st else Run(Updated(st, lines[0]), lines[1..])
  }

  // ---------------------------------------------------------------- text without alternatives

  /** For every open group, whether its first #else or #elif has been passed. */
  function Groups(flags: seq<bool>, d: Directive): seq<bool> {
    match d
    case NoDirective => flags
    case If => flags + [false]
    case Otherwise => if flags == [] then flags else WithLast(flags, true)
    case Endif => if flags == [] then flags else flags[..|flags| - 1]
  }

  function GroupsAfter(flags: seq<bool>, lines: seq<Line>): seq<bool>
    decreases lines
  {
    if lines == [] then flags else GroupsAfter(Groups(flags, lines[0].directive), lines[1..])
  }

  /** The lines in no alternative: from the first #else or #elif of a group up to its #endif nothing is kept. */
  function Keep(flags: seq<bool>, lines: seq<Line>): seq<Line>
    decreases lines
  {
    if lines == [] then []
    else
      var flags' := Groups(flags, lines[0].directive);
      (if true in flags' then [] else [lines[0]]) + Keep(flags', lines[1..])
  }

  /** The rest of each update over a text, with no checkpoints at all. */
  function Fold(s: Stack, lines: seq<Line>): Stack
    decreases lines
  {
    if lines == [] then s else Fold(Rest(s, lines[0]), lines[1..])
  }

  // ---------------------------------------------------------------- checkpoints simulate the removal

  function Flags(own: seq<Checkpoint>): (r: seq<bool>)
    ensures |r| == |own| && forall i :: 0 <= i < |r| ==> r[i] == own[i].seenElse
  {
    seq(|own|, i requires 0 <= i < |own| => own[i].seenElse)
  }

  /** The stack of the kept text: as saved at the outermost alternative, or as it is outside alternatives. */
  function Kept(own: seq<Checkpoint>, stack: Stack): Stack {
    if own == [] then stack
    else if own[0].seenElse then own[0].beforeElse
    else Kept(own[1..], stack)
  }

  lemma {:induction false} KeptOutside(own: seq<Checkpoint>, stack: Stack)
    requires true !in Flags(own)
    ensures Kept(own, stack) == stack
  {
    if own != [] {
      assert Flags(own)[0] in Flags(own);
      assert Flags(own)[1..] == Flags(own[1..]);
      KeptOutside(own[1..], stack);
    }
  }

  lemma {:induction false} KeptInside(own: seq<Checkpoint>, s: Stack, t: Stack)
    requires true in Flags(own)
    ensures Kept(own, s) == Kept(own, t)
  {
    if !own[0].seenElse {
      assert Flags(own) == [false] + Flags(own[1..]);
      KeptInside(own[1..], s, t);
    }
  }

  lemma {:induction false} KeptIf(own: seq<Checkpoint>, stack: Stack, c: Checkpoint)
    requires !c.seenElse
    ensures Kept(own + [c], stack) == Kept(own, stack)
    ensures Flags(own + [c]) == Flags(own) + [false]
  {
    if own == [] {
      assert own + [c] == [c];
    } else {
      assert (own + [c])[1..] == own[1..] + [c];
      KeptIf(own[1..], stack, c);
    }
  }

  lemma {:induction false} KeptOtherwise(own: seq<Checkpoint>, stack: Stack, now: Stack)
    requires own != []
    ensures var c := Last(own);
            var own' := if c.seenElse then own else WithLast(own, Checkpoint(c.beforeIf, stack, true));
            Kept(own', now) == Kept(own, stack) && Flags(own') == WithLast(Flags(own), true)
  {
    var c := Last(own);
    var own' := if c.seenElse then own else WithLast(own, Checkpoint(c.beforeIf, stack, true));
    if |own| > 1 {
      assert own'[1..] == if c.seenElse then own[1..] else WithLast(own[1..], Checkpoint(c.beforeIf, stack, true));
      KeptOtherwise(own[1..], stack, now);
    } else {
      assert own'[1..] == [] && own[1..] == [];
      if !c.seenElse { assert Kept(own, stack) == Kept([], stack); }
    }
  }

  lemma {:induction false} KeptEndif(own: seq<Checkpoint>, stack: Stack)
    requires own != []
    ensures var n := |own| - 1;
            Kept(own[..n], if Last(own).seenElse then Last(own).beforeElse else stack) == Kept(own, stack)
            && Flags(own[..n]) == Flags(own)[..n]
  {
    var n := |own| - 1;
    if n > 0 {
      assert own[..n][1..] == own[1..][..n - 1];
      KeptEndif(own[1..], stack);
    } else {
      assert own[1..] == [];
    }
  }

  /** One update above the checkpoints `base`: the kept stack takes the line if the line is kept. */
  lemma UpdateSimulates(base: seq<Checkpoint>, own: seq<Checkpoint>, stack: Stack, line: Line)
    returns (own': seq<Checkpoint>, stack': Stack)
    requires base == [] || own != [] || line.directive.NoDirective? || line.directive.If?
    ensures Updated(State(stack, base + own), line) == State(stack', base + own')
    ensures Flags(own') == Groups(Flags(own), line.directive)
    ensures Kept(own', stack') == if true in Flags(own') then Kept(own, stack) else Rest(Kept(own, stack), line)
  {
    var pp := base + own;
    var now := stack;
    own' := own;
    match line.directive {
      case NoDirective =>
      case If =>
        own' := own + [Checkpoint(stack, [], false)];
        KeptIf(own, stack, Last(own'));
        assert pp + [Last(own')] == base + own';
      case Otherwise =>
        if own != [] {
          var c := Last(own);
          assert Last(pp) == c;
          own' := if c.seenElse then own else WithLast(own, Checkpoint(c.beforeIf, stack, true));
          now := c.beforeIf;
          KeptOtherwise(own, stack, now);
          if !c.seenElse { assert WithLast(pp, Last(own')) == base + own'; }
        }
      case Endif =>
        if own != [] {
          assert Last(pp) == Last(own);
          own' := own[..|own| - 1];
          now := if Last(own).seenElse then Last(own).beforeElse else stack;
          KeptEndif(own, stack);
          assert pp[..|pp| - 1] == base + own';
        }
    }
    stack' := Rest(now, line);
    assert UpdatePp(State(stack, pp), line.directive) == State(now, base + own');
    assert Kept(own', now) == Kept(own, stack);
    if true in Flags(own') {
      KeptInside(own', now, stack');
    } else {
      KeptOutside(own', now);
      KeptOutside(own', stack');
    }
  }

  /**
   Every #else, #elif and #endif belongs to an #if among these lines or to one of `level` open ones,
   and all are closed.
   */
  predicate Balanced(level: nat, lines: seq<Line>)
    decreases lines
  {
    if lines == [] then level == 0
    else
      match lines[0].directive
      case NoDirective => Balanced(level, lines[1..])
      case If => Balanced(level + 1, lines[1..])
      case Otherwise => level > 0 && Balanced(level, lines[1..])
      case Endif => level > 0 && Balanced(level - 1, lines[1..])
  }

  lemma Bare(own: seq<Checkpoint>)
    ensures [] + own == own
  {
  }

  lemma LineKeepsText(own: seq<Checkpoint>, stack: Stack, line: Line) returns (st: State)
    ensures st == Updated(State(stack, own), line)
    ensures Flags(st.pp) == Groups(Flags(own), line.directive)
    ensures Kept(st.pp, st.stack) == if true in Flags(st.pp) then Kept(own, stack) else Rest(Kept(own, stack), line)
  {
    Bare(own);
    var own1, stack1 := UpdateSimulates([], own, stack, line);
    Bare(own1);
    st := State(stack1, own1);
  }

  /** Through any lines at all, the kept stack is the fold of the kept lines. */
  lemma {:induction false} RunKeepsText(own: seq<Checkpoint>, stack: Stack, lines: seq<Line>)
    ensures var st := Run(State(stack, own), lines);
            Flags(st.pp) == GroupsAfter(Flags(own), lines)
            && Kept(st.pp, st.stack) == Fold(Kept(own, stack), Keep(Flags(own), lines))
    decreases lines
  {
    if lines != [] {
      var st := LineKeepsText(own, stack, lines[0]);
      RunKeepsText(st.pp, st.stack, lines[1..]);
      FoldKeepStep(Kept(own, stack), Flags(own), lines);
    }
  }

  lemma FoldKeepStep(s: Stack, flags: seq<bool>, lines: seq<Line>)
    requires lines != []
    ensures var flags' := Groups(flags, lines[0].directive);
            Fold(s, Keep(flags, lines))
            == Fold(if true in flags' then s else Rest(s, lines[0]), Keep(flags', lines[1..]))
  {
    var flags' := Groups(flags, lines[0].directive);
    var tail := Keep(flags', lines[1..]);
    if true in flags' {
      assert Keep(flags, lines) == [] + tail;
      assert [] + tail == tail;
    } else {
      assert Keep(flags, lines) == [lines[0]] + tail;
      assert ([lines[0]] + tail)[1..] == tail;
    }
  }

  /** Outside alternatives the machine's stack is that of the text with its alternatives removed. */
  lemma OutsideAlternatives(lines: seq<Line>)
    requires true !in GroupsAfter([], lines)
    ensures Run(State([], []), lines).stack == Fold([], Keep([], lines))
  {
    assert Flags([]) == [];
    RunKeepsText([], [], lines);
    var st := Run(State([], []), lines);
    KeptOutside(st.pp, st.stack);
  }

  lemma BalancedLine(base: seq<Checkpoint>, own: seq<Checkpoint>, stack: Stack, lines: seq<Line>)
    returns (own': seq<Checkpoint>, stack': Stack)
    requires lines != [] && Balanced(|own|, lines)
    ensures Balanced(|own'|, lines[1..])
    ensures Updated(State(stack, base + own), lines[0]) == State(stack', base + own')
    ensures Flags(own') == Groups(Flags(own), lines[0].directive)
    ensures Kept(own', stack') == if true in Flags(own') then Kept(own, stack) else Rest(Kept(own, stack), lines[0])
  {
    own', stack' := UpdateSimulates(base, own, stack, lines[0]);
    assert |own'| == |Groups(Flags(own), lines[0].directive)|;
  }

  lemma {:induction false} BalancedRunAbove(base: seq<Checkpoint>, own: seq<Checkpoint>, stack: Stack, lines: seq<Line>)
    requires Balanced(|own|, lines)
    ensures Run(State(stack, base + own), lines) == State(Fold(Kept(own, stack), Keep(Flags(own), lines)), base)
    decreases lines
  {
    if lines == [] {
      assert base + own == base;
    } else {
      var own', stack' := BalancedLine(base, own, stack, lines);
      BalancedRunAbove(base, own', stack', lines[1..]);
      FoldKeepStep(Kept(own, stack), Flags(own), lines);
    }
  }

  /** Balanced lines leave the checkpoints as they were and the stack of the lines outside alternatives. */
  lemma BalancedRun(st: State, lines: seq<Line>)
    requires Balanced(0, lines)
    ensures Run(st, lines) == State(Fold(st.stack, Keep([], lines)), st.pp)
  {
    assert st.pp + [] == st.pp && Flags([]) == [];
    BalancedRunAbove(st.pp, [], st.stack, lines);
  }

  // ---------------------------------------------------------------- what is kept of a group

  lemma {:induction false} KeepSplits(flags: seq<bool>, xs: seq<Line>, ys: seq<Line>)
    ensures Keep(flags, xs + ys) == Keep(flags, xs) + Keep(GroupsAfter(flags, xs), ys)
    decreases xs
  {
    if xs == [] {
      assert xs + ys == ys;
    } else {
      assert (xs + ys)[1..] == xs[1..] + ys;
      KeepSplits(Groups(flags, xs[0].directive), xs[1..], ys);
    }
  }

  /** Balanced lines close what they open, and lose everything inside an alternative, nothing outside. */
  lemma {:induction false} BalancedKeep(outer: seq<bool>, inner: seq<bool>, lines: seq<Line>)
    requires Balanced(|inner|, lines)
    ensures GroupsAfter(outer + inner, lines) == outer
    ensures Keep(outer + inner, lines) == if true in outer then [] else Keep(inner, lines)
    decreases lines
  {
    if lines == [] {
      assert outer + inner == outer;
    } else {
      var d := lines[0].directive;
      assert Groups(outer + inner, d) == outer + Groups(inner, d);
      BalancedKeep(outer, Groups(inner, d), lines[1..]);
    }
  }

  /** Lines that open and close groups evenly; any #else or #elif among them may be the enclosing group's. */
  predicate Even(level: nat, lines: seq<Line>)
    decreases lines
  {
    if lines == [] then level == 0
    else
      match lines[0].directive
      case NoDirective => Even(level, lines[1..])
      case If => Even(level + 1, lines[1..])
      case Otherwise => Even(level, lines[1..])
      case Endif => level > 0 && Even(level - 1, lines[1..])
  }

  lemma {:induction false} NothingKeptInside(inner: seq<bool>, lines: seq<Line>)
    requires Even(|inner|, lines)
    ensures GroupsAfter([true] + inner, lines) == [true] && Keep([true] + inner, lines) == []
    decreases lines
  {
    if lines == [] {
      assert [true] + inner == [true];
    } else {
      var d := lines[0].directive;
      var inner' := Groups(inner, d);
      assert Groups([true] + inner, d) == [true] + inner';
      assert ([true] + inner')[0] == true;
      NothingKeptInside(inner', lines[1..]);
    }
  }

  lemma KeepOne(flags: seq<bool>, line: Line)
    ensures Keep(flags, [line]) == if true in Groups(flags, line.directive) then [] else [line]
    ensures GroupsAfter(flags, [line]) == Groups(flags, line.directive)
  {
    assert [line][1..] == [];
  }

  lemma KeepBranch(open: Line, body: seq<Line>)
    requires open.directive.If? && Balanced(0, body)
    ensures Keep([], [open] + body) == [open] + Keep([], body)
    ensures GroupsAfter([], [open] + body) == [false]
  {
    KeepSplits([], [open], body);
    GroupsSplit([], [open], body);
    KeepOne([], open);
    assert [] + [false] == [false] && [false] + [] == [false];
    BalancedKeep([false], [], body);
  }

  lemma KeepAlternatives(other: Line, rest: seq<Line>, close: Line)
    requires other.directive.Otherwise? && close.directive.Endif? && Even(0, rest)
    ensures Keep([false], [other] + rest + [close]) == [close]
  {
    KeepSplits([false], [other] + rest, [close]);
    KeepSplits([false], [other], rest);
    GroupsSplit([false], [other], rest);
    KeepOne([false], other);
    assert WithLast([false], true) == [true] && [true] + [] == [true];
    assert [true][0] in [true];
    NothingKeptInside([], rest);
    KeepOne([true], close);
    assert Groups([true], Endif) == [];
  }

  /** Of a group, the #if line, the first branch cleared of its own alternatives and the #endif line stay. */
  lemma KeepOfGroup(open: Line, body: seq<Line>, other: Line, rest: seq<Line>, close: Line)
    requires open.directive.If? && other.directive.Otherwise? && close.directive.Endif?
    requires Balanced(0, body) && Even(0, rest)
    ensures Keep([], ([open] + body) + ([other] + rest + [close])) == [open] + Keep([], body) + [close]
  {
    KeepSplits([], [open] + body, [other] + rest + [close]);
    KeepBranch(open, body);
    KeepAlternatives(other, rest, close);
  }

  lemma {:induction false} GroupsSplit(flags: seq<bool>, xs: seq<Line>, ys: seq<Line>)
    ensures GroupsAfter(flags, xs + ys) == GroupsAfter(GroupsAfter(flags, xs), ys)
    decreases xs
  {
    if xs == [] {
      assert xs + ys == ys;
    } else {
      assert (xs + ys)[1..] == xs[1..] + ys;
      GroupsSplit(Groups(flags, xs[0].directive), xs[1..], ys);
    }
  }
}
