/**
 The brace tracker as it runs (core/deps/SQLiteCpp-2.3.0/cpplint.py): blocks are objects that
 updates change in place, so checkpoints hold deep copies.
 */
module CpplintTracker {
  import opened Wrappers
  import opened CpplintNesting

  class BlockInfo {
    const kind: Kind
    var seenOpenBrace: bool
    var openParentheses: int
    var inlineAsm: Asm
    var access: string

    constructor (b: Block)
      ensures Val() == b
    {
      kind := b.kind;
      seenOpenBrace := b.seenOpenBrace;
      openParentheses := b.openParens;
      inlineAsm := b.asm;
      access := b.access;
    }

    function Val(): Block
      reads this
    {
      Block(kind, seenOpenBrace, openParentheses, inlineAsm, access)
    }
  }

  class PreprocessorInfo {
    var stackBeforeIf: seq<BlockInfo>
    var stackBeforeElse: seq<BlockInfo>
    var seenElse: bool

    constructor (stackBeforeIf: seq<BlockInfo>)
      ensures this.stackBeforeIf == stackBeforeIf && stackBeforeElse == [] && !seenElse
    {
      this.stackBeforeIf := stackBeforeIf;
      stackBeforeElse := [];
      seenElse := false;
    }
  }

  /** The blocks of a list, by value. */
  ghost predicate Holds(bs: seq<BlockInfo>, s: Stack)
    reads bs
  {
    |bs| == |s| && forall i :: 0 <= i < |bs| ==> bs[i].Val() == s[i]
  }

  ghost predicate Distinct(bs: seq<BlockInfo>) {
    forall i, j :: 0 <= i < j < |bs| ==> bs[i] != bs[j]
  }

  ghost predicate Apart(xs: seq<BlockInfo>, ys: seq<BlockInfo>) {
    forall i, j :: 0 <= i < |xs| && 0 <= j < |ys| ==> xs[i] != ys[j]
  }

  ghost predicate Inside(bs: seq<BlockInfo>, repr: set<object>) {
    forall i :: 0 <= i < |bs| ==> bs[i] in repr
  }

  method DeepCopy(bs: seq<BlockInfo>, ghost s: Stack) returns (r: seq<BlockInfo>, ghost objs: set<object>)
    requires Holds(bs, s)
    ensures Holds(r, s) && Distinct(r) && Inside(r, objs) && fresh(objs)
  {
    r := [];
    objs := {};
    for i := 0 to |bs|
      invariant Holds(r, s[..i]) && Distinct(r) && Inside(r, objs) && fresh(objs)
      invariant Holds(bs, s)
    {
      var b := new BlockInfo(bs[i].Val());
      r := r + [b];
      objs := objs + {b};
    }
  }

  /** A checkpoint object holds a checkpoint. */
  ghost predicate Saves(p: PreprocessorInfo, c: Checkpoint)
    reads p, p.stackBeforeIf, p.stackBeforeElse
  {
    && Holds(p.stackBeforeIf, c.beforeIf) && Holds(p.stackBeforeElse, c.beforeElse) && p.seenElse == c.seenElse
  }

  /** It does so in blocks of `repr` that `stack` does not share. */
  ghost predicate Clear(p: PreprocessorInfo, stack: seq<BlockInfo>, repr: set<object>)
    reads p
  {
    && Inside(p.stackBeforeIf, repr) && Inside(p.stackBeforeElse, repr)
    && Apart(stack, p.stackBeforeIf) && Apart(stack, p.stackBeforeElse) && Distinct(p.stackBeforeElse)
  }

  /** The stack `p` gives back at #endif shares nothing with what `q` saved. */
  ghost predicate Separate(p: PreprocessorInfo, q: PreprocessorInfo)
    reads p, q
  {
    p != q && Apart(p.stackBeforeElse, q.stackBeforeElse) && Apart(p.stackBeforeElse, q.stackBeforeIf)
  }

  class NestingState {
    var stack: seq<BlockInfo>
    var ppStack: seq<PreprocessorInfo>
    ghost var model: State
    ghost var Repr: set<object>

    ghost predicate Valid()
      reads this, Repr
      ensures Valid() ==> this in Repr
    {
      && this in Repr
      && Inside(stack, Repr) && Holds(stack, model.stack) && Distinct(stack)
      && |ppStack| == |model.pp|
      && (forall k :: 0 <= k < |ppStack| ==> ppStack[k] in Repr && Clear(ppStack[k], stack, Repr))
      && (forall k :: 0 <= k < |ppStack| ==> Saves(ppStack[k], model.pp[k]))
      && (forall k, l :: 0 <= k < |ppStack| && 0 <= l < |ppStack| && k != l ==> Separate(ppStack[k], ppStack[l]))
    }

    constructor ()
      ensures Valid() && fresh(Repr)
      ensures model == State([], [])
    {
      stack, ppStack := [], [];
      model := State([], []);
      Repr := {this};
    }

    method UpdatePreprocessor(d: Directive)
      requires Valid()
      modifies Repr
      ensures Valid() && fresh(Repr - old(Repr))
      ensures model == UpdatePp(old(model), d)
    {
      match d
      case If => PushCheckpoint();
      case Otherwise =>
        if ppStack != [] {
          RememberStack();
          RestoreStack();
        }
      case Endif => if ppStack != [] { PopCheckpoint(); }
      case NoDirective =>
    }

    method PushCheckpoint()
      requires Valid()
      modifies this
      ensures Valid() && fresh(Repr - old(Repr))
      ensures model == UpdatePp(old(model), If)
    {
      var copy, objs := DeepCopy(stack, model.stack);
      var info := new PreprocessorInfo(copy);
      ppStack := ppStack + [info];
      model := UpdatePp(model, If);
      Repr := Repr + {info} + objs;
      CheckpointPushed(info, objs);
    }

    twostate lemma CheckpointPushed(new info: PreprocessorInfo, new objs: set<object>)
      requires old(Valid())
      requires stack == old(stack) && ppStack == old(ppStack) + [info]
      requires Repr == old(Repr) + {info} + objs && fresh(info) && fresh(objs)
      requires forall o :: o in old(Repr) && o != this ==> unchanged(o)
      requires Inside(info.stackBeforeIf, objs) && info.stackBeforeElse == [] && !info.seenElse
      requires Holds(info.stackBeforeIf, old(model.stack))
      requires model == UpdatePp(old(model), If)
      ensures Valid()
    {
      OlderKept();
      NewestClear(info, info.stackBeforeIf);
      assert Saves(info, Last(model.pp));
    }

    /** Checkpoints below the top keep what they hold while nothing in `Repr` but this object changes. */
    twostate lemma OlderKept()
      requires old(Valid())
      requires stack == old(stack) && |ppStack| >= |old(ppStack)| && ppStack[..|old(ppStack)|] == old(ppStack)
      requires |model.pp| == |ppStack| && model.pp[..|old(ppStack)|] == old(model.pp)
      requires old(Repr) <= Repr
      requires forall o :: o in old(Repr) && o != this ==> unchanged(o)
      ensures Holds(stack, old(model.stack))
      ensures forall k :: 0 <= k < |old(ppStack)| ==>
                ppStack[k] in Repr && Clear(ppStack[k], stack, Repr) && Saves(ppStack[k], model.pp[k])
      ensures forall k, l :: 0 <= k < |old(ppStack)| && 0 <= l < |old(ppStack)| && k != l ==>
                Separate(ppStack[k], ppStack[l])
    {
      forall k | 0 <= k < |old(ppStack)|
        ensures ppStack[k] in Repr && Clear(ppStack[k], stack, Repr) && Saves(ppStack[k], model.pp[k])
      {
        assert ppStack[k] == old(ppStack)[k] && model.pp[k] == old(model.pp)[k];
        assert old(Clear(ppStack[k], stack, Repr)) && old(Saves(ppStack[k], model.pp[k]));
        assert unchanged(ppStack[k]);
      }
      forall k, l | 0 <= k < |old(ppStack)| && 0 <= l < |old(ppStack)| && k != l
        ensures Separate(ppStack[k], ppStack[l])
      {
        assert old(Separate(ppStack[k], ppStack[l]));
      }
    }

    /** A checkpoint of new blocks shares nothing with older ones. */
    twostate lemma NewestClear(new info: PreprocessorInfo, new copy: seq<BlockInfo>)
      requires old(Valid())
      requires stack == old(stack) && ppStack == old(ppStack) + [info]
      requires forall o :: o in old(Repr) && o != this ==> unchanged(o)
      requires fresh(info) && forall i :: 0 <= i < |copy| ==> fresh(copy[i])
      requires info.stackBeforeIf == copy && info.stackBeforeElse == []
      requires Inside(copy, Repr)
      ensures Clear(info, stack, Repr)
      ensures forall k :: 0 <= k < |old(ppStack)| ==> Separate(ppStack[k], info) && Separate(info, ppStack[k])
    {
      forall k | 0 <= k < |old(ppStack)| ensures Separate(ppStack[k], info) && Separate(info, ppStack[k]) {
        assert ppStack[k] == old(ppStack)[k];
        assert old(Clear(ppStack[k], stack, Repr));
        assert unchanged(ppStack[k]);
      }
    }

    /** The first #else or #elif of a group saves the stack it ends. */
    method RememberStack()
      requires Valid() && ppStack != []
      modifies this, Last(ppStack)
      ensures Valid() && fresh(Repr - old(Repr))
      ensures stack == old(stack) && ppStack == old(ppStack)
      ensures model == old(model).(pp :=
                var c := Last(old(model.pp));
                if c.seenElse then old(model.pp)
                else WithLast(old(model.pp), Checkpoint(c.beforeIf, old(model.stack), true)))
    {
      var n := |ppStack| - 1;
      var info := ppStack[n];
      ghost var c := model.pp[n];
      assert Saves(info, c);
      if info.seenElse { return; }
      var copy, objs := DeepCopy(stack, model.stack);
      info.seenElse := true;
      info.stackBeforeElse := copy;
      model := model.(pp := WithLast(model.pp, Checkpoint(c.beforeIf, model.stack, true)));
      Repr := Repr + objs;
      StackRemembered(objs);
    }

    twostate lemma StackRemembered(new objs: set<object>)
      requires old(Valid()) && old(ppStack) != []
      requires stack == old(stack) && ppStack == old(ppStack)
      requires Repr == old(Repr) + objs && fresh(objs)
      requires forall o :: o in old(Repr) && o != this && o != Last(ppStack) ==> unchanged(o)
      requires var info := Last(ppStack);
               info.stackBeforeIf == old(info.stackBeforeIf) && info.seenElse
               && Inside(info.stackBeforeElse, objs) && Distinct(info.stackBeforeElse)
               && Holds(info.stackBeforeElse, old(model.stack))
      requires model == old(model).(pp :=
                 WithLast(old(model.pp), Checkpoint(Last(old(model.pp)).beforeIf, old(model.stack), true)))
      ensures Valid()
    {
      var n := |ppStack| - 1;
      var info := ppStack[n];
      assert old(Clear(info, stack, Repr)) && old(Saves(info, model.pp[n]));
      assert Clear(info, stack, Repr) && Saves(info, model.pp[n]);
      forall k | 0 <= k < n
        ensures ppStack[k] in Repr && Clear(ppStack[k], stack, Repr) && Saves(ppStack[k], model.pp[k])
        ensures Separate(ppStack[k], info) && Separate(info, ppStack[k])
      {
        assert old(Clear(ppStack[k], stack, Repr)) && old(Saves(ppStack[k], model.pp[k]));
        assert old(Separate(ppStack[k], ppStack[n])) && old(Separate(ppStack[n], ppStack[k]));
        assert unchanged(ppStack[k]);
      }
      forall k, l | 0 <= k < n && 0 <= l < n && k != l ensures Separate(ppStack[k], ppStack[l]) {
        assert old(Separate(ppStack[k], ppStack[l]));
        assert old(Separate(ppStack[k], ppStack[n])) && old(Separate(ppStack[l], ppStack[n]));
        assert unchanged(ppStack[k]) && unchanged(ppStack[l]);
      }
    }

    /** Every #else and #elif goes on from the stack before its #if. */
    method RestoreStack()
      requires Valid() && ppStack != []
      modifies this
      ensures Valid() && fresh(Repr - old(Repr))
      ensures model == old(model).(stack := Last(old(model.pp)).beforeIf)
    {
      var n := |ppStack| - 1;
      assert Saves(ppStack[n], model.pp[n]);
      ghost var objs;
      stack, objs := DeepCopy(ppStack[n].stackBeforeIf, model.pp[n].beforeIf);
      model := model.(stack := model.pp[n].beforeIf);
      Repr := Repr + objs;
      StackReplaced(objs);
    }

    twostate lemma StackReplaced(new objs: set<object>)
      requires old(Valid())
      requires ppStack == old(ppStack) && model.pp == old(model.pp)
      requires Inside(stack, objs) && Distinct(stack) && Holds(stack, model.stack)
      requires Repr == old(Repr) + objs && fresh(objs)
      requires forall o :: o in old(Repr) && o != this ==> unchanged(o)
      ensures Valid()
    {
      forall k | 0 <= k < |ppStack| ensures Clear(ppStack[k], stack, Repr) && Saves(ppStack[k], model.pp[k]) {
        assert old(Clear(ppStack[k], stack, Repr)) && old(Saves(ppStack[k], model.pp[k]));
        assert unchanged(ppStack[k]);
      }
      forall k, l | 0 <= k < |ppStack| && 0 <= l < |ppStack| && k != l ensures Separate(ppStack[k], ppStack[l]) {
        assert old(Separate(ppStack[k], ppStack[l]));
        assert unchanged(ppStack[k]) && unchanged(ppStack[l]);
      }
    }

    method PopCheckpoint()
      requires Valid() && ppStack != []
      modifies this
      ensures Valid() && Repr == old(Repr)
      ensures model == UpdatePp(old(model), Endif)
    {
      var n := |ppStack| - 1;
      assert Saves(ppStack[n], model.pp[n]) && Clear(ppStack[n], stack, Repr);
      if ppStack[n].seenElse { stack := ppStack[n].stackBeforeElse; }
      ppStack := ppStack[..n];
      model := UpdatePp(model, Endif);
      forall k | 0 <= k < n ensures Clear(ppStack[k], stack, Repr) {
        assert old(Clear(ppStack[k], stack, Repr)) && old(Separate(ppStack[n], ppStack[k]));
      }
    }

    /** Changing the innermost block in place changes nothing any checkpoint holds. */
    twostate lemma InnerChanged()
      requires old(Valid()) && old(stack) != []
      requires stack == old(stack) && ppStack == old(ppStack) && Repr == old(Repr)
      requires forall o :: o in old(Repr) && o != this && o != Last(old(stack)) ==> unchanged(o)
      requires model == old(model).(stack := WithLast(old(model.stack), Last(stack).Val()))
      ensures Valid()
    {
      forall k | 0 <= k < |ppStack| ensures Clear(ppStack[k], stack, Repr) && Saves(ppStack[k], model.pp[k]) {
        assert old(Clear(ppStack[k], stack, Repr)) && old(Saves(ppStack[k], model.pp[k]));
        assert unchanged(ppStack[k]);
      }
      forall k, l | 0 <= k < |ppStack| && 0 <= l < |ppStack| && k != l ensures Separate(ppStack[k], ppStack[l]) {
        assert old(Separate(ppStack[k], ppStack[l]));
      }
    }

    method CountParentheses(line: Line)
      requires Valid()
      modifies this, if stack == [] then {} else {Last(stack)}
      ensures Valid() && Repr == old(Repr)
      ensures model == old(model).(stack := CountParens(old(model.stack), line))
    {
      if stack == [] { return; }
      var inner := Last(stack);
      assert inner.Val() == Last(model.stack);
      inner.openParentheses := inner.openParentheses + line.parens;
      if inner.inlineAsm == NoAsm || inner.inlineAsm == EndAsm {
        inner.inlineAsm := if line.parens != 0 && inner.openParentheses == 1 && line.asm then InsideAsm else NoAsm;
      } else if inner.inlineAsm == InsideAsm && inner.openParentheses == 0 {
        inner.inlineAsm := EndAsm;
      }
      model := model.(stack := CountParens(model.stack, line));
      InnerChanged();
    }

    method Push(b: Block) returns (info: BlockInfo)
      requires Valid()
      modifies this
      ensures Valid() && fresh(Repr - old(Repr))
      ensures stack == old(stack) + [info] && fresh(info) && info.Val() == b
      ensures model == old(model).(stack := old(model.stack) + [b])
    {
      info := new BlockInfo(b);
      stack := stack + [info];
      Repr := Repr + {info};
      model := model.(stack := model.stack + [b]);
      forall k | 0 <= k < |ppStack| ensures Clear(ppStack[k], stack, Repr) {
        assert old(Clear(ppStack[k], stack, Repr));
      }
    }

    method Pop()
      requires Valid() && stack != []
      modifies this
      ensures Valid() && Repr == old(Repr)
      ensures model == old(model).(stack := old(model.stack)[..|old(model.stack)| - 1])
    {
      stack := stack[..|stack| - 1];
      model := model.(stack := model.stack[..|model.stack| - 1]);
      forall k | 0 <= k < |ppStack| ensures Clear(ppStack[k], stack, Repr) {
        assert old(Clear(ppStack[k], stack, Repr));
      }
    }

    /** `self.stack[-1].seen_open_brace = True`. */
    method MarkSeen()
      requires Valid() && stack != []
      modifies this, Last(stack)
      ensures Valid() && Repr == old(Repr)
      ensures var s := old(model.stack);
              model == old(model).(stack := WithLast(s, Last(s).(seenOpenBrace := true)))
    {
      var inner := Last(stack);
      assert inner.Val() == Last(model.stack);
      inner.seenOpenBrace := true;
      model := model.(stack := WithLast(model.stack, inner.Val()));
      InnerChanged();
    }

    method UpdateAccess(access: Option<string>)
      requires Valid()
      modifies this, if stack == [] then {} else {Last(stack)}
      ensures Valid() && Repr == old(Repr)
      ensures model == old(model).(stack := SetAccess(old(model.stack), access))
    {
      if stack == [] { return; }
      var inner := Last(stack);
      assert inner.Val() == Last(model.stack);
      if inner.kind.Class? && access.Some? {
        inner.access := access.value;
        model := model.(stack := WithLast(model.stack, inner.Val()));
        InnerChanged();
      }
    }

    method ConsumeNamespaces(hs: seq<NamespaceHead>)
      requires Valid()
      modifies Repr
      ensures Valid() && fresh(Repr - old(Repr))
      ensures model == old(model).(stack := PushNamespaces(old(model.stack), hs))
    {
      for i := 0 to |hs|
        invariant Valid() && fresh(Repr - old(Repr))
        invariant model.pp == old(model.pp)
        invariant PushNamespaces(model.stack, hs[i..]) == PushNamespaces(old(model.stack), hs)
      {
        var h := hs[i];
        ghost var before := model.stack;
        var info := Push(NamespaceBlock(h).(seenOpenBrace := false));
        if h.brace { MarkSeen(); }
        assert hs[i..][1..] == hs[i + 1..];
        assert model.stack == before + [NamespaceBlock(h)];
      }
    }

    method Consume(m: Mark)
      requires Valid()
      modifies Repr
      ensures Valid() && fresh(Repr - old(Repr))
      ensures model == old(model).(stack := TakeMark(old(model.stack), m))
    {
      var seen := stack == [] || Last(stack).seenOpenBrace;
      assert seen == SeenOpenBrace(model.stack) by {
        if stack != [] { assert Last(stack).Val() == Last(model.stack); }
      }
      match m
      case OpenBrace(asm) =>
        if seen {
          var b := Push(Block(Plain, true, 0, if asm then BlockAsm else NoAsm, ""));
        } else {
          MarkSeen();
        }
      case Semicolon => if !seen { Pop(); }
      case CloseParen => if !seen { Pop(); }
      case CloseBrace => if stack != [] { Pop(); }
    }

    method ConsumeClassHead(line: Line) returns (tail: Tail)
      requires Valid()
      modifies this
      ensures Valid() && fresh(Repr - old(Repr))
      ensures var s := old(model.stack);
              if TakesClass(s, line)
              then model == old(model).(stack := s + [ClassBlock(line.classHead.value)])
                   && tail == line.classHead.value.tail
              else model == old(model) && tail == line.tail
    {
      tail := line.tail;
      var head := line.classHead;
      assert stack != [] ==> Last(stack).Val() == Last(model.stack);
      if head.Some? && (stack == [] || Last(stack).openParentheses == 0) {
        var info := Push(ClassBlock(head.value));
        tail := head.value.tail;
      }
    }

    method ConsumeMarks(ms: seq<Mark>)
      requires Valid()
      modifies Repr
      ensures Valid() && fresh(Repr - old(Repr))
      ensures model == old(model).(stack := TakeMarks(old(model.stack), ms))
    {
      for i := 0 to |ms|
        invariant Valid() && fresh(Repr - old(Repr))
        invariant model.pp == old(model.pp)
        invariant TakeMarks(model.stack, ms[i..]) == TakeMarks(old(model.stack), ms)
      {
        assert ms[i..][1..] == ms[i + 1..];
        Consume(ms[i]);
      }
    }

    method ConsumeTail(tail: Tail)
      requires Valid()
      modifies Repr
      ensures Valid() && fresh(Repr - old(Repr))
      ensures model == old(model).(stack := TakeTail(old(model.stack), tail))
    {
      UpdateAccess(tail.access);
      ConsumeMarks(tail.marks);
    }

    method CountAndPushNamespaces(line: Line)
      requires Valid()
      modifies Repr
      ensures Valid() && fresh(Repr - old(Repr))
      ensures model == old(model).(stack := PushNamespaces(CountParens(old(model.stack), line), line.namespaces))
    {
      CountParentheses(line);
      ConsumeNamespaces(line.namespaces);
    }

    /** Everything in an update but its preprocessor part. */
    method UpdateRest(line: Line)
      requires Valid()
      modifies Repr
      ensures Valid() && fresh(Repr - old(Repr))
      ensures model == old(model).(stack := Rest(old(model.stack), line))
    {
      CountAndPushNamespaces(line);
      var tail := ConsumeClassHead(line);
      assert Rest(old(model.stack), line) == TakeTail(model.stack, tail);
      ConsumeTail(tail);
    }

    method Update(line: Line)
      requires Valid()
      modifies Repr
      ensures Valid() && fresh(Repr - old(Repr))
      ensures model == Updated(old(model), line)
    {
      UpdatePreprocessor(line.directive);
      UpdateRest(line);
    }
  }

  /** A file of balanced groups leaves the blocks of its text without the alternatives. */
  method TrackLines(state: NestingState, lines: seq<Line>)
    requires state.Valid()
    modifies state.Repr
    ensures state.Valid() && fresh(state.Repr - old(state.Repr))
    ensures state.model == Run(old(state.model), lines)
    ensures Balanced(0, lines) ==>
              Holds(state.stack, Fold(old(state.model.stack), Keep([], lines)))
              && state.model.pp == old(state.model.pp)
  {
    for i := 0 to |lines|
      invariant state.Valid() && fresh(state.Repr - old(state.Repr))
      invariant Run(state.model, lines[i..]) == Run(old(state.model), lines)
    {
      assert lines[i..][1..] == lines[i + 1..];
      state.Update(lines[i]);
    }
    if Balanced(0, lines) { BalancedRun(old(state.model), lines); }
  }
}
