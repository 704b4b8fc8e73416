/**
 What a line and a text do to the stack of open blocks (core/deps/SQLiteCpp-2.3.0/cpplint.py): which blocks a
 line declares, what becomes of a block while it stays open, and the path of scopes around any place of a
 well-nested text.
 */
module CpplintScopes {
  import opened Wrappers
  import opened CpplintNesting

  // ---------------------------------------------------------------- what a line declares

  /** A class head counts outside the parentheses of the innermost block, which a namespace of the line starts anew. */
  predicate PushesClass(s: Stack, line: Line) {
    && line.classHead.Some?
    && (line.namespaces != [] || s == [] || s[|s| - 1].openParens + line.parens == 0)
  }

  /** The tail that follows the declarations of a line. */
  function TailOf(s: Stack, line: Line): Tail {
    if PushesClass(s, line) then line.classHead.value.tail else line.tail
  }

  /** The stack before the braces of a line. */
  function Declared(s: Stack, line: Line): Stack {
    var s1 := PushNamespaces(CountParens(s, line), line.namespaces);
    var s2 := if TakesClass(s1, line) then s1 + [ClassBlock(line.classHead.value)] else s1;
    SetAccess(s2, TailOf(s, line).access)
  }

  lemma {:induction false} NamespacesPushed(s: Stack, hs: seq<NamespaceHead>)
    ensures var d := PushNamespaces(s, hs);
            |d| == |s| + |hs| && d[..|s|] == s
            && forall j :: 0 <= j < |hs| ==> d[|s| + j] == Block(Namespace(hs[j].name), hs[j].brace, 0, NoAsm, "")
    decreases hs
  {
    if hs != [] {
      NamespacesPushed(s + [NamespaceBlock(hs[0])], hs[1..]);
      var d := PushNamespaces(s, hs);
      assert d[..|s| + 1] == s + [NamespaceBlock(hs[0])];
      assert d[..|s|] == d[..|s| + 1][..|s|];
      forall j | 0 <= j < |hs| ensures d[|s| + j] == Block(Namespace(hs[j].name), hs[j].brace, 0, NoAsm, "") {
        if j == 0 {
          assert d[|s|] == d[..|s| + 1][|s|];
        } else {
          assert d[|s| + 1 + (j - 1)] == NamespaceBlock(hs[1..][j - 1]);
        }
      }
    }
  }

  lemma CountedBlock(b: Block, line: Line)
    ensures var c := Counted(b, line);
            c.kind == b.kind && c.seenOpenBrace == b.seenOpenBrace && c.access == b.access
            && c.openParens == b.openParens + line.parens
    ensures var c, n := Counted(b, line), b.openParens + line.parens;
            c.asm == match b.asm
                     case BlockAsm => BlockAsm
                     case InsideAsm => if n == 0 then EndAsm else InsideAsm
                     case _ => if line.asm && line.parens != 0 && n == 1 then InsideAsm else NoAsm
  {
  }

  /** A class is pushed exactly outside parentheses. */
  lemma ClassIsPushed(s: Stack, line: Line)
    ensures TakesClass(PushNamespaces(CountParens(s, line), line.namespaces), line) <==> PushesClass(s, line)
  {
    var hs, s0 := line.namespaces, CountParens(s, line);
    NamespacesPushed(s0, hs);
    var d := PushNamespaces(s0, hs);
    if hs != [] {
      var j := |hs| - 1;
      assert d[|s0| + j] == NamespaceBlock(hs[j]);
      assert d != [] && Last(d) == d[|s0| + j];
    } else {
      assert d == s0;
      if s != [] { CountedBlock(Last(s), line); }
    }
  }

  lemma RestIsMarks(s: Stack, line: Line)
    ensures Rest(s, line) == TakeMarks(Declared(s, line), TailOf(s, line).marks)
  {
    ClassIsPushed(s, line);
  }

  lemma AccessSet(s: Stack, access: Option<string>)
    ensures var t := SetAccess(s, access);
            |t| == |s| && (forall i :: 0 <= i < |s| - 1 ==> t[i] == s[i])
            && (s != [] ==>
                  Last(t) == if Last(s).kind.Class? && access.Some? then Last(s).(access := access.value) else Last(s))
  {
  }

  /** How many blocks a line declares. */
  function Declares(s: Stack, line: Line): nat {
    |line.namespaces| + if PushesClass(s, line) then 1 else 0
  }

  /**
   Before the braces of a line: the old blocks, of which the innermost has counted the parentheses and, if nothing
   is declared, taken the access keyword; a namespace for each head, in order; and the class, if it is pushed.
   */
  lemma DeclaredExactly(s: Stack, line: Line)
    ensures var d, n := Declared(s, line), |s|;
            |d| == n + Declares(s, line)
            && (forall i :: 0 <= i < n - 1 ==> d[i] == s[i])
            && (n > 0 ==>
                  d[n - 1].kind == s[n - 1].kind && d[n - 1].seenOpenBrace == s[n - 1].seenOpenBrace
                  && d[n - 1].openParens == s[n - 1].openParens + line.parens
                  && d[n - 1].access == if Declares(s, line) == 0 && s[n - 1].kind.Class? && line.tail.access.Some?
                                        then line.tail.access.value else s[n - 1].access)
    ensures var d, n, hs := Declared(s, line), |s|, line.namespaces;
            |d| >= n + |hs|
            && forall j :: 0 <= j < |hs| ==> d[n + j] == Block(Namespace(hs[j].name), hs[j].brace, 0, NoAsm, "")
    ensures PushesClass(s, line) ==>
              var d, h := Declared(s, line), line.classHead.value;
              d != []
              && Last(d) == Block(Class(h.name, h.isStruct), false, 0, NoAsm,
                                  if h.tail.access.Some? then h.tail.access.value
                                  else if h.isStruct then "public" else "private")
  {
    ClassIsPushed(s, line);
    var s0 := CountParens(s, line);
    var s1 := PushNamespaces(s0, line.namespaces);
    var s2 := if PushesClass(s, line) then s1 + [ClassBlock(line.classHead.value)] else s1;
    NamespacesPushed(s0, line.namespaces);
    AccessSet(s2, TailOf(s, line).access);
    assert forall i :: 0 <= i < |s| ==> s1[i] == s1[..|s|][i] == s0[i];
    if s != [] { CountedBlock(Last(s), line); }
  }

  // ---------------------------------------------------------------- lines of namespaces

  lemma AllSeen(s: Stack, hs: seq<NamespaceHead>)
    requires forall j :: 0 <= j < |hs| ==> hs[j].brace
    ensures var d := PushNamespaces(s, hs);
            |d| >= |s| && d[..|s|] == s && forall i :: |s| <= i < |d| ==> d[i].seenOpenBrace
  {
    NamespacesPushed(s, hs);
    var d := PushNamespaces(s, hs);
    forall i | |s| <= i < |d| ensures d[i].seenOpenBrace { assert d[|s| + (i - |s|)] == NamespaceBlock(hs[i - |s|]); }
  }

  /** The innermost block may have counted parentheses; apart from that nothing changed. */
  predicate OnlyCounted(s: Stack, t: Stack, parens: int) {
    && |t| == |s| && (forall i :: 0 <= i < |s| - 1 ==> t[i] == s[i])
    && (s != [] ==>
          s[|s| - 1].(openParens := s[|s| - 1].openParens + parens, asm := NoAsm) == t[|s| - 1].(asm := NoAsm))
  }

  /**
   A line of namespace heads with their braces leaves one block for each, in order and by name, above the stack, if
   its other braces close among themselves; and leaves the stack alone if they close the namespaces as well.
   */
  lemma NamespaceLine(s: Stack, line: Line)
    requires line.namespaces != [] && forall j :: 0 <= j < |line.namespaces| ==> line.namespaces[j].brace
    requires line.classHead.None? && line.tail.access.None?
    requires SeenOpenBrace(s)
    ensures var t, hs := Rest(s, line), line.namespaces;
            BracesClose(0, line.tail.marks) ==>
              |t| == |s| + |hs| && OnlyCounted(s, t[..|s|], line.parens)
              && forall j :: 0 <= j < |hs| ==> t[|s| + j] == Block(Namespace(hs[j].name), true, 0, NoAsm, "")
    ensures BracesClose(|line.namespaces|, line.tail.marks) ==> OnlyCounted(s, Rest(s, line), line.parens)
  {
    var s0, hs, ms := CountParens(s, line), line.namespaces, line.tail.marks;
    var d := PushNamespaces(s0, hs);
    NamespacesPushed(s0, hs);
    AllSeen(s0, hs);
    if s != [] { CountedBlock(Last(s), line); }
    assert OnlyCounted(s, s0, line.parens);
    assert Rest(s, line) == TakeMarks(d, ms);
    if BracesClose(0, ms) {
      assert d + [] == d;
      BracesUnwind(d, [], ms);
    }
    if BracesClose(|hs|, ms) {
      assert d == s0 + d[|s0|..];
      BracesUnwind(s0, d[|s0|..], ms);
    }
  }

  /** With nothing open, closing braces, semicolons and parentheses do nothing. */
  lemma {:induction false} NothingToClose(ms: seq<Mark>)
    requires forall m :: m in ms ==> !m.OpenBrace?
    ensures TakeMarks([], ms) == []
    decreases ms
  {
    if ms != [] {
      assert ms[0] in ms;
      NothingToClose(ms[1..]);
    }
  }

  // ---------------------------------------------------------------- a block while it stays open

  /** Taking these marks the stack never gets lower than `n`. */
  predicate Stays(n: nat, s: Stack, ms: seq<Mark>)
    decreases ms
  {
    |s| >= n && (ms == [] || Stays(n, TakeMark(s, ms[0]), ms[1..]))
  }

  /** What braces, semicolons and parentheses leave of a block: all but whether its brace was seen. */
  predicate SameBlock(a: Block, b: Block) {
    a.kind == b.kind && a.openParens == b.openParens && a.asm == b.asm && a.access == b.access
  }

  lemma {:induction false} MarksKeepBlocks(n: nat, s: Stack, ms: seq<Mark>)
    requires Stays(n, s, ms)
    ensures var t := TakeMarks(s, ms); |t| >= n && forall i :: 0 <= i < n ==> SameBlock(s[i], t[i])
    decreases ms
  {
    if ms != [] {
      var s' := TakeMark(s, ms[0]);
      assert forall i :: 0 <= i < n ==> SameBlock(s[i], s'[i]);
      MarksKeepBlocks(n, s', ms[1..]);
    }
  }

  /** The block at `i` is never taken off by these lines. */
  predicate Remains(s: Stack, lines: seq<Line>, i: nat)
    decreases lines
  {
    && i < |s|
    && (lines == [] ||
        (Stays(i + 1, Declared(s, lines[0]), TailOf(s, lines[0]).marks) && Remains(Rest(s, lines[0]), lines[1..], i)))
  }

  /** The parentheses of the lines that found the block at `i` innermost. */
  function ParensSeen(s: Stack, lines: seq<Line>, i: nat): int
    decreases lines
  {
    if lines == [] then 0
    else (if |s| == i + 1 then lines[0].parens else 0) + ParensSeen(Rest(s, lines[0]), lines[1..], i)
  }

  /** The last access keyword of the lines that had the block at `i` innermost behind their declarations, or `a`. */
  function LastKeyword(s: Stack, lines: seq<Line>, i: nat, a: string): string
    decreases lines
  {
    if lines == [] then a
    else
      var line := lines[0];
      LastKeyword(Rest(s, line), lines[1..], i,
                  if |s| == i + 1 && Declares(s, line) == 0 && line.tail.access.Some?
                  then line.tail.access.value else a)
  }

  lemma LineKeepsBlock(s: Stack, line: Line, i: nat)
    requires i < |s| && Stays(i + 1, Declared(s, line), TailOf(s, line).marks)
    ensures var t := Rest(s, line);
            |t| > i && t[i].kind == s[i].kind
            && t[i].openParens == s[i].openParens + (if |s| == i + 1 then line.parens else 0)
            && t[i].access == if |s| == i + 1 && Declares(s, line) == 0 && s[i].kind.Class? && line.tail.access.Some?
                              then line.tail.access.value else s[i].access
  {
    DeclaredExactly(s, line);
    RestIsMarks(s, line);
    var d := Declared(s, line);
    MarksKeepBlocks(i + 1, d, TailOf(s, line).marks);
    assert SameBlock(d[i], Rest(s, line)[i]);
  }

  /**
   Through any lines that do not take a block off, its open parentheses are those it had and those of the lines that
   found it innermost; a class's access is the last keyword met inside it and outside inner blocks.
   */
  lemma {:induction false} BlockHistory(s: Stack, lines: seq<Line>, i: nat)
    requires Remains(s, lines, i)
    ensures var t := Fold(s, lines);
            |t| > i && t[i].kind == s[i].kind && t[i].openParens == s[i].openParens + ParensSeen(s, lines, i)
            && t[i].access == if s[i].kind.Class? then LastKeyword(s, lines, i, s[i].access) else s[i].access
    decreases lines
  {
    if lines != [] {
      LineKeepsBlock(s, lines[0], i);
      BlockHistory(Rest(s, lines[0]), lines[1..], i);
    }
  }
}
