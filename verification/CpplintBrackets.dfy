/**
 The multi-line bracket finders (core/deps/SQLiteCpp-2.3.0/cpplint.py), forward and backward,
 over lines already cleansed of strings and comments.
 */
module CpplintBrackets {

  // ---------------------------------------------------------------- nesting height

  function Change(c: char, open: char, close: char): int {
    if c == open then 1 else if c == close then -1 else 0
  }

  /** Openings less closings before position `i`. */
  function Height(text: seq<char>, i: nat, open: char, close: char): int
    requires i <= |text|
  {
    if i == 0 then 0 else Height(text, i - 1, open, close) + Change(text[i - 1], open, close)
  }

  /** The closing bracket at `q` belongs to the opening bracket at `p`. */
  ghost predicate Paired(text: seq<char>, p: nat, q: nat, open: char, close: char) {
    && p < q < |text| && text[p] == open && text[q] == close
    && Height(text, q + 1, open, close) == Height(text, p, open, close)
    && forall r :: p < r <= q ==> Height(text, r, open, close) > Height(text, p, open, close)
  }

  ghost predicate NeverCloses(text: seq<char>, p: nat, open: char, close: char) {
    forall q :: !Paired(text, p, q, open, close)
  }

  ghost predicate NeverOpens(text: seq<char>, q: nat, open: char, close: char) {
    forall p :: !Paired(text, p, q, open, close)
  }

  /** A bracket has one partner, looked for from either side. */
  lemma PartnerIsUnique(text: seq<char>, p: nat, q: nat, p': nat, q': nat, open: char, close: char)
    requires Paired(text, p, q, open, close) && Paired(text, p', q', open, close)
    ensures p == p' <==> q == q'
  {
  }

  // ---------------------------------------------------------------- positions in many lines

  function Flat(lines: seq<string>): string {
    if lines == [] then [] else Flat(lines[..|lines| - 1]) + lines[|lines| - 1]
  }

  /** Where line `k` begins in the flattened text. */
  function Offset(lines: seq<string>, k: nat): nat
    requires k <= |lines|
  {
    |Flat(lines[..k])|
  }

  lemma OffsetNext(lines: seq<string>, k: nat)
    requires k < |lines|
    ensures Offset(lines, k + 1) == Offset(lines, k) + |lines[k]|
  {
    assert lines[..k + 1][..k] == lines[..k];
  }

  lemma {:induction false} OffsetMonotone(lines: seq<string>, a: nat, b: nat)
    requires a <= b <= |lines|
    ensures Offset(lines, a) <= Offset(lines, b)
  {
    if a < b {
      OffsetMonotone(lines, a, b - 1);
      OffsetNext(lines, b - 1);
    }
  }

  /** The flattened text holds each line at its offset. */
  lemma {:induction false} FlatHolds(lines: seq<string>, k: nat, n: nat)
    requires k < n <= |lines|
    ensures Offset(lines, k) + |lines[k]| <= Offset(lines, n)
    ensures Flat(lines[..n])[Offset(lines, k)..Offset(lines, k) + |lines[k]|] == lines[k]
    decreases n
  {
    assert lines[..n][..n - 1] == lines[..n - 1];
    if k < n - 1 { FlatHolds(lines, k, n - 1); }
  }

  /** `line` stands at position `at` of `text`. */
  ghost predicate LineIn(text: string, at: nat, line: string) {
    at + |line| <= |text| && text[at..at + |line|] == line
  }

  lemma LineInFlat(lines: seq<string>, k: nat)
    requires k < |lines|
    ensures LineIn(Flat(lines), Offset(lines, k), lines[k])
    ensures Offset(lines, k + 1) == Offset(lines, k) + |lines[k]|
    ensures Offset(lines, |lines|) == |Flat(lines)|
  {
    FlatHolds(lines, k, |lines|);
    assert lines[..|lines|] == lines;
    OffsetNext(lines, k);
  }

  lemma CharAt(text: string, at: nat, line: string, i: nat)
    requires LineIn(text, at, line) && i < |line|
    ensures text[at + i] == line[i]
  {
    assert text[at..at + |line|][i] == text[at + i];
  }

  /** Inside a line the height of the whole text moves as the line's own. */
  lemma {:induction false} HeightInLine(text: string, at: nat, line: string, i: nat, open: char, close: char)
    requires LineIn(text, at, line) && i <= |line|
    ensures Height(text, at + i, open, close) == Height(text, at, open, close) + Height(line, i, open, close)
  {
    if i > 0 {
      HeightInLine(text, at, line, i - 1, open, close);
      CharAt(text, at, line, i - 1);
    }
  }

  lemma PositionIsUnique(lines: seq<string>, k: nat, i: nat, k': nat, i': nat)
    requires k < |lines| && i < |lines[k]| && k' < |lines| && i' < |lines[k']|
    requires Offset(lines, k) + i == Offset(lines, k') + i'
    ensures k == k' && i == i'
  {
    OffsetNext(lines, k);
    OffsetNext(lines, k');
    if k < k' { OffsetMonotone(lines, k + 1, k'); }
    if k' < k { OffsetMonotone(lines, k' + 1, k); }
  }

  // ---------------------------------------------------------------- forward

  predicate IsOpening(c: char) {
    c == '(' || c == '{' || c == '[' || c == '<'
  }

  predicate IsClosing(c: char) {
    c == ')' || c == '}' || c == ']' || c == '>'
  }

  function Closing(c: char): char {
    if c == '(' then ')' else if c == '[' then ']' else if c == '{' then '}' else '>'
  }

  function Opening(c: char): char {
    if c == ')' then '(' else if c == ']' then '[' else if c == '}' then '{' else '<'
  }

  /** The four kinds of brackets. */
  predicate Brackets(open: char, close: char) {
    (open, close) in {('(', ')'), ('{', '}'), ('[', ']'), ('<', '>')}
  }

  lemma BracketsArePartners(open: char, close: char)
    ensures Brackets(open, close) <==> IsOpening(open) && close == Closing(open)
    ensures Brackets(open, close) <==> IsClosing(close) && open == Opening(close)
  {
  }

  /** Depth reached by scanning `line` from `start` up to, and not including, `i`. */
  function DepthAt(line: string, start: nat, i: nat, depth: int, open: char, close: char): int
    requires start <= i <= |line|
  {
    depth + Height(line, i, open, close) - Height(line, start, open, close)
  }

  /** Scanning starts inside brackets, or on one that opens. */
  predicate Inside(line: string, start: nat, depth: int, open: char) {
    depth > 0 || (depth == 0 && start < |line| && line[start] == open)
  }

  /** No closing bracket before `end` brings the depth to zero. */
  ghost predicate NoneCloses(line: string, start: nat, end: nat, depth: int, open: char, close: char)
    requires start <= end <= |line|
  {
    forall r :: start < r <= end && line[r - 1] == close ==> DepthAt(line, start, r, depth, open, close) != 0
  }

  ghost predicate StaysInside(line: string, start: nat, end: nat, depth: int, open: char, close: char)
    requires start <= end <= |line|
  {
    forall r :: start < r <= end ==> DepthAt(line, start, r, depth, open, close) > 0
  }

  method FindEndOfExpressionInLine(line: string, startpos: nat, depth: int, startchar: char, endchar: char)
    returns (pos: int, newDepth: int)
    requires startpos <= |line| && startchar != endchar
    ensures pos == -1 || startpos < pos <= |line|
    ensures var end := if pos == -1 then |line| else pos - 1;
            NoneCloses(line, startpos, end, depth, startchar, endchar)
            && (Inside(line, startpos, depth, startchar) ==>
                  StaysInside(line, startpos, end, depth, startchar, endchar))
    ensures newDepth == DepthAt(line, startpos, if pos == -1 then |line| else pos, depth, startchar, endchar)
    ensures pos != -1 ==> line[pos - 1] == endchar && newDepth == 0
  {
    var d := depth;
    for i := startpos to |line|
      invariant d == DepthAt(line, startpos, i, depth, startchar, endchar)
      invariant NoneCloses(line, startpos, i, depth, startchar, endchar)
      invariant Inside(line, startpos, depth, startchar) ==> StaysInside(line, startpos, i, depth, startchar, endchar)
    {
      if line[i] == startchar {
        d := d + 1;
      } else if line[i] == endchar {
        d := d - 1;
        if d == 0 { return i + 1, 0; }
      }
    }
    return -1, d;
  }

  /** What CloseExpression answers for the bracket at (k, pos): one past its partner, or nothing. */
  ghost predicate Closed(lines: seq<string>, k: nat, pos: nat, k': nat, end: int)
    requires k < |lines| && pos < |lines[k]|
  {
    var open := lines[k][pos];
    var p := Offset(lines, k) + pos;
    if end == -1
    then k' == |lines| && forall close :: Brackets(open, close) ==> NeverCloses(Flat(lines), p, open, close)
    else k' < |lines| && 1 <= end <= |lines[k']| && Brackets(open, lines[k'][end - 1])
         && Paired(Flat(lines), p, Offset(lines, k') + end - 1, open, lines[k'][end - 1])
  }

  /** From just after position `p` up to position `n` of the flattened text the height stays above that at `p`. */
  ghost predicate AboveSince(text: seq<char>, p: nat, n: nat, open: char, close: char)
    requires p <= |text| && n <= |text|
  {
    forall r :: p < r <= n ==> Height(text, r, open, close) > Height(text, p, open, close)
  }

  /** The bracket opened at `p` is still open before position `n`, `depth` levels down. */
  ghost predicate OpenAt(text: seq<char>, p: nat, n: nat, depth: int, open: char, close: char) {
    && p <= n <= |text| && p < |text| && text[p] == open
    && AboveSince(text, p, n, open, close)
    && depth == Height(text, n, open, close) - Height(text, p, open, close)
  }

  /** Scanning part of a line without leaving the bracket. */
  lemma StillOpen(text: string, at: nat, line: string, start: nat, end: nat, depth: int, p: nat,
                  open: char, close: char)
    requires LineIn(text, at, line) && start <= end <= |line|
    requires OpenAt(text, p, at + start, depth, open, close)
    requires StaysInside(line, start, end, depth, open, close)
    ensures OpenAt(text, p, at + end, DepthAt(line, start, end, depth, open, close), open, close)
  {
    HeightInLine(text, at, line, start, open, close);
    HeightInLine(text, at, line, end, open, close);
    forall r | p < r <= at + end
      ensures Height(text, r, open, close) > Height(text, p, open, close)
    {
      if r > at + start {
        HeightInLine(text, at, line, r - at, open, close);
        assert DepthAt(line, start, r - at, depth, open, close) > 0;
      }
    }
  }

  /** What one more scanned line tells: the bracket is still open after it, or its partner. */
  lemma LineScanned(text: string, at: nat, line: string, start: nat, depth: int, end: int, newDepth: int,
                    p: nat, open: char, close: char)
    requires LineIn(text, at, line) && start <= |line| && (end == -1 || start < end <= |line|)
    requires open != close && OpenAt(text, p, at + start, depth, open, close)
    requires StaysInside(line, start, if end == -1 then |line| else end - 1, depth, open, close)
    requires newDepth == DepthAt(line, start, if end == -1 then |line| else end, depth, open, close)
    requires end != -1 ==> line[end - 1] == close && newDepth == 0
    ensures end == -1 ==> OpenAt(text, p, at + |line|, newDepth, open, close)
    ensures end != -1 ==> Paired(text, p, at + end - 1, open, close)
  {
    StillOpen(text, at, line, start, if end == -1 then |line| else end - 1, depth, p, open, close);
    if end != -1 { CharAt(text, at, line, end - 1); }
  }

  lemma NothingCloses(text: seq<char>, p: nat, open: char, close: char)
    requires p <= |text| && AboveSince(text, p, |text|, open, close)
    ensures NeverCloses(text, p, open, close)
  {
  }

  /** The lines after `linenum`, for a bracket still open at its end. */
  method CloseInLaterLines(lines: seq<string>, linenum: nat, depth: int, ghost p: nat, startchar: char, endchar: char)
    returns (line: string, k: nat, end: int)
    requires linenum < |lines| && startchar != endchar
    requires p < Offset(lines, linenum + 1)
    requires OpenAt(Flat(lines), p, Offset(lines, linenum + 1), depth, startchar, endchar)
    ensures end == -1 ==> k == |lines| && NeverCloses(Flat(lines), p, startchar, endchar)
    ensures end != -1 ==> k < |lines| && line == lines[k] && 1 <= end <= |line| && line[end - 1] == endchar
    ensures end != -1 ==> Paired(Flat(lines), p, Offset(lines, k) + end - 1, startchar, endchar)
  {
    k := linenum;
    line := lines[k];
    var numOpen := depth;
    while k < |lines| - 1
      invariant linenum <= k < |lines|
      invariant OpenAt(Flat(lines), p, Offset(lines, k + 1), numOpen, startchar, endchar)
      invariant p < Offset(lines, k + 1)
    {
      k := k + 1;
      line := lines[k];
      ghost var before := numOpen;
      assert before > 0;
      end, numOpen := FindEndOfExpressionInLine(line, 0, numOpen, startchar, endchar);
      LineInFlat(lines, k);
      LineScanned(Flat(lines), Offset(lines, k), line, 0, before, end, numOpen, p, startchar, endchar);
      if end > -1 { return line, k, end; }
    }
    LineInFlat(lines, k);
    NothingCloses(Flat(lines), p, startchar, endchar);
    return line, |lines|, -1;
  }

  method CloseExpression(lines: seq<string>, linenum: nat, pos: nat) returns (line: string, k: nat, end: int)
    requires linenum < |lines| && pos < |lines[linenum]|
    ensures Closed(lines, linenum, pos, k, end)
    ensures end != -1 ==> line == lines[k]
  {
    line := lines[linenum];
    var startchar := line[pos];
    forall close ensures Brackets(startchar, close) <==> IsOpening(startchar) && close == Closing(startchar) {
      BracketsArePartners(startchar, close);
    }
    if !IsOpening(startchar) { return line, |lines|, -1; }
    var endchar := Closing(startchar);
    ghost var at := Offset(lines, linenum);
    LineInFlat(lines, linenum);
    CharAt(Flat(lines), at, line, pos);
    var numOpen;
    end, numOpen := FindEndOfExpressionInLine(line, pos, 0, startchar, endchar);
    LineScanned(Flat(lines), at, line, pos, 0, end, numOpen, at + pos, startchar, endchar);
    if end > -1 { return line, linenum, end; }
    line, k, end := CloseInLaterLines(lines, linenum, numOpen, at + pos, startchar, endchar);
  }

  // ---------------------------------------------------------------- backward

  /** Depth reached by scanning `line` backward from `end` down to, and including, `i`. */
  function DepthBack(line: string, end: int, i: nat, depth: int, open: char, close: char): int
    requires i <= end + 1 <= |line|
  {
    depth + Height(line, i, open, close) - Height(line, end + 1, open, close)
  }

  predicate InsideBack(line: string, end: int, depth: int, close: char) {
    depth > 0 || (depth == 0 && 0 <= end < |line| && line[end] == close)
  }

  /** No opening bracket from `start` on brings the depth to zero. */
  ghost predicate NoneOpens(line: string, end: int, start: nat, depth: int, open: char, close: char)
    requires start <= end + 1 <= |line|
  {
    forall r :: start <= r <= end && line[r] == open ==> DepthBack(line, end, r, depth, open, close) != 0
  }

  ghost predicate StaysInsideBack(line: string, end: int, start: nat, depth: int, open: char, close: char)
    requires start <= end + 1 <= |line|
  {
    forall r :: start <= r <= end ==> DepthBack(line, end, r, depth, open, close) > 0
  }

  method FindStartOfExpressionInLine(line: string, endpos: int, depth: int, startchar: char, endchar: char)
    returns (pos: int, newDepth: int)
    requires -1 <= endpos < |line| && startchar != endchar
    ensures -1 <= pos <= endpos
    ensures NoneOpens(line, endpos, pos + 1, depth, startchar, endchar)
    ensures InsideBack(line, endpos, depth, endchar) ==>
              StaysInsideBack(line, endpos, pos + 1, depth, startchar, endchar)
    ensures newDepth == DepthBack(line, endpos, if pos == -1 then 0 else pos, depth, startchar, endchar)
    ensures pos != -1 ==> line[pos] == startchar && newDepth == 0
  {
    var d := depth;
    for i := endpos + 1 downto 0
      invariant d == DepthBack(line, endpos, i, depth, startchar, endchar)
      invariant NoneOpens(line, endpos, i, depth, startchar, endchar)
      invariant InsideBack(line, endpos, depth, endchar) ==>
                  StaysInsideBack(line, endpos, i, depth, startchar, endchar)
    {
      if line[i] == endchar {
        d := d + 1;
      } else if line[i] == startchar {
        d := d - 1;
        if d == 0 { return i, 0; }
      }
    }
    return -1, d;
  }

  /** What ReverseCloseExpression answers for the bracket at (k, pos): its partner, or nothing. */
  ghost predicate Opened(lines: seq<string>, k: nat, pos: nat, k': nat, start: int)
    requires k < |lines| && pos < |lines[k]|
  {
    var close := lines[k][pos];
    var q := Offset(lines, k) + pos;
    if start == -1
    then k' == 0 && forall open :: Brackets(open, close) ==> NeverOpens(Flat(lines), q, open, close)
    else k' < |lines| && 0 <= start < |lines[k']| && Brackets(lines[k'][start], close)
         && Paired(Flat(lines), Offset(lines, k') + start, q, lines[k'][start], close)
  }

  /** From position `n` up to and including `q` the height is above that just after `q`. */
  ghost predicate AboveUntil(text: seq<char>, n: nat, q: nat, open: char, close: char)
    requires q < |text|
  {
    forall r :: n <= r <= q ==> Height(text, r, open, close) > Height(text, q + 1, open, close)
  }

  /** The bracket closed at `q` is still unmatched from position `n` on, `depth` levels down. */
  ghost predicate UnopenedAt(text: seq<char>, n: nat, q: nat, depth: int, open: char, close: char) {
    && n <= q + 1 <= |text| && text[q] == close
    && AboveUntil(text, n, q, open, close)
    && depth == Height(text, n, open, close) - Height(text, q + 1, open, close)
  }

  lemma StillUnopened(text: string, at: nat, line: string, end: int, start: nat, depth: int, q: nat,
                      open: char, close: char)
    requires LineIn(text, at, line) && start <= end + 1 <= |line|
    requires UnopenedAt(text, at + end + 1, q, depth, open, close)
    requires StaysInsideBack(line, end, start, depth, open, close)
    ensures UnopenedAt(text, at + start, q, DepthBack(line, end, start, depth, open, close), open, close)
  {
    HeightInLine(text, at, line, end + 1, open, close);
    HeightInLine(text, at, line, start, open, close);
    forall r | at + start <= r <= q
      ensures Height(text, r, open, close) > Height(text, q + 1, open, close)
    {
      if r <= at + end {
        HeightInLine(text, at, line, r - at, open, close);
        assert DepthBack(line, end, r - at, depth, open, close) > 0;
      }
    }
  }

  lemma LineScannedBack(text: string, at: nat, line: string, end: int, depth: int, start: int, newDepth: int,
                        q: nat, open: char, close: char)
    requires LineIn(text, at, line) && -1 <= start <= end < |line|
    requires open != close && UnopenedAt(text, at + end + 1, q, depth, open, close)
    requires StaysInsideBack(line, end, start + 1, depth, open, close)
    requires newDepth == DepthBack(line, end, if start == -1 then 0 else start, depth, open, close)
    requires start != -1 ==> line[start] == open && newDepth == 0
    ensures start == -1 ==> UnopenedAt(text, at, q, newDepth, open, close)
    ensures start != -1 ==> Paired(text, at + start, q, open, close)
  {
    StillUnopened(text, at, line, end, start + 1, depth, q, open, close);
    if start != -1 {
      CharAt(text, at, line, start);
      HeightInLine(text, at, line, start, open, close);
      HeightInLine(text, at, line, start + 1, open, close);
    }
  }

  lemma NothingOpens(text: seq<char>, q: nat, open: char, close: char)
    requires q < |text| && AboveUntil(text, 0, q, open, close)
    ensures NeverOpens(text, q, open, close)
  {
  }

  /** The lines before `linenum`, for a bracket still unmatched at its beginning. */
  method OpenInEarlierLines(lines: seq<string>, linenum: nat, depth: int, ghost q: nat, startchar: char, endchar: char)
    returns (line: string, k: nat, start: int)
    requires linenum < |lines| && startchar != endchar
    requires Offset(lines, linenum) <= q
    requires UnopenedAt(Flat(lines), Offset(lines, linenum), q, depth, startchar, endchar)
    ensures start == -1 ==> k == 0 && NeverOpens(Flat(lines), q, startchar, endchar)
    ensures start != -1 ==> k < |lines| && line == lines[k] && 0 <= start < |line| && line[start] == startchar
    ensures start != -1 ==> Paired(Flat(lines), Offset(lines, k) + start, q, startchar, endchar)
  {
    k := linenum;
    line := lines[k];
    var numOpen := depth;
    while k > 0
      invariant k <= linenum && Offset(lines, k) <= q
      invariant UnopenedAt(Flat(lines), Offset(lines, k), q, numOpen, startchar, endchar)
    {
      k := k - 1;
      line := lines[k];
      ghost var before := numOpen;
      assert before > 0;
      LineInFlat(lines, k);
      start, numOpen := FindStartOfExpressionInLine(line, |line| - 1, numOpen, startchar, endchar);
      LineScannedBack(Flat(lines), Offset(lines, k), line, |line| - 1, before, start, numOpen, q, startchar, endchar);
      if start > -1 { return line, k, start; }
    }
    NothingOpens(Flat(lines), q, startchar, endchar);
    return line, 0, -1;
  }

  method ReverseCloseExpression(lines: seq<string>, linenum: nat, pos: nat) returns (line: string, k: nat, start: int)
    requires linenum < |lines| && pos < |lines[linenum]|
    ensures Opened(lines, linenum, pos, k, start)
    ensures start != -1 ==> line == lines[k]
  {
    line := lines[linenum];
    var endchar := line[pos];
    forall open ensures Brackets(open, endchar) <==> IsClosing(endchar) && open == Opening(endchar) {
      BracketsArePartners(open, endchar);
    }
    if !IsClosing(endchar) { return line, 0, -1; }
    var startchar := Opening(endchar);
    ghost var at := Offset(lines, linenum);
    LineInFlat(lines, linenum);
    CharAt(Flat(lines), at, line, pos);
    var numOpen;
    start, numOpen := FindStartOfExpressionInLine(line, pos, 0, startchar, endchar);
    LineScannedBack(Flat(lines), at, line, pos, 0, start, numOpen, at + pos, startchar, endchar);
    if start > -1 { return line, linenum, start; }
    line, k, start := OpenInEarlierLines(lines, linenum, numOpen, at + pos, startchar, endchar);
  }

  // ---------------------------------------------------------------- the two finders undo each other

  /** Going back from the bracket before where a close was found returns to where the search began. */
  lemma ReverseUndoesClose(lines: seq<string>, k: nat, pos: nat, k': nat, end: nat, k'': nat, start: int)
    requires k < |lines| && pos < |lines[k]| && Closed(lines, k, pos, k', end)
    requires Opened(lines, k', end - 1, k'', start)
    ensures k'' == k && start == pos
  {
    var open, close := lines[k][pos], lines[k'][end - 1];
    var p, q := Offset(lines, k) + pos, Offset(lines, k') + end - 1;
    assert Brackets(open, close) && Paired(Flat(lines), p, q, open, close);
    assert start != -1;
    assert lines[k''][start] == open;
    PartnerIsUnique(Flat(lines), p, q, Offset(lines, k'') + start, q, open, close);
    PositionIsUnique(lines, k, pos, k'', start);
  }

  /** Closing the bracket a backward search found returns one past where it began. */
  lemma CloseUndoesReverse(lines: seq<string>, k: nat, pos: nat, k': nat, start: nat, k'': nat, end: int)
    requires k < |lines| && pos < |lines[k]| && Opened(lines, k, pos, k', start)
    requires Closed(lines, k', start, k'', end)
    ensures k'' == k && end == pos + 1
  {
    var open, close := lines[k'][start], lines[k][pos];
    var p, q := Offset(lines, k') + start, Offset(lines, k) + pos;
    assert Brackets(open, close) && Paired(Flat(lines), p, q, open, close);
    assert end != -1;
    assert lines[k''][end - 1] == close;
    PartnerIsUnique(Flat(lines), p, q, p, Offset(lines, k'') + end - 1, open, close);
    PositionIsUnique(lines, k, pos, k'', end - 1);
  }
}
