/**
 Which code the AML machine runs.  A step reads code if its outcome depends on the instruction that it is
 given; the program counter that it reads at is that of the top block.  The theorems are about the counters that
 a run reads at one level of blocks, while the item that owns the level is on the stack.
 */
module AmlControl {
  import opened AmlMachine
  import opened AmlBalance
  import AmlRuns

  predicate ReadsCode(s: State, i: Input)
    requires s.stack != []
  {
    Process(s, i.(instr := Truncated)) != Process(s, i.(instr := BadOpcode))
  }

  /** The top block; a state with items always has one. */
  function TopBlock(s: State): Block { if s.blocks == [] then Block(0, 0) else s.blocks[|s.blocks| - 1] }

  /** Where the top block goes on after an instruction: `Continue` in a loop commits no program counter. */
  function After(s: State, i: Input): int
    requires s.stack != []
  {
    if i.instr.ContinueOp? && s.Top().Loop? then TopBlock(s).pc else i.next
  }

  /** `Break` ends a loop or condition, and `Continue` a condition. */
  predicate Leaves(s: State, i: Input)
    requires s.stack != []
  {
    s.Top().Skippable() && (i.instr.BreakOp? || (i.instr.ContinueOp? && s.Top().Cond?))
  }

  // -------------------------------------------------------------------------- what a step may touch

  /** Items below the top and blocks below the top are as they were, as far as they are still there. */
  ghost predicate Below(s: State, o: State) {
    && (forall k :: 0 <= k < |o.stack| && k < |s.stack| - 1 ==> o.stack[k] == s.stack[k])
    && (forall k :: 0 <= k < |o.blocks| && k < |s.blocks| - 1 ==> o.blocks[k] == s.blocks[k])
  }

  /** The top block, if it is still there, has its limit and this program counter. */
  ghost predicate TopAt(s: State, o: State, pc: int) {
    |o.blocks| >= |s.blocks| > 0 ==> o.blocks[|s.blocks| - 1] == TopBlock(s).(pc := pc)
  }

  /** The top item, if it is still there, is as it was. */
  ghost predicate TopStays(s: State, o: State) {
    |o.stack| >= |s.stack| > 0 ==> o.stack[|s.stack| - 1] == s.Top()
  }

  /** The block that an instruction opens, and the state in which its item starts. */
  ghost predicate Opened(s: State, i: Input, o: State) {
    && |o.stack| == |s.stack| + 1
    && |o.blocks| == |s.blocks| + (if o.Top().OwnsBlock() then 1 else 0)
    && match i.instr
       case IfOp(body, bodyLimit, hasElse, elsePc, elseLimit) =>
         && TopBlock(o) == Block(body, bodyLimit)
         && o.Top().Cond? && o.Top() == Cond(o.Top().frame, false, hasElse, elsePc, elseLimit)
       case WhileOp(body) =>
         TopBlock(o) == Block(body, i.next) && o.Top().Loop? && o.Top() == Loop(o.Top().frame, false, body)
       case BufferOp(data) => TopBlock(o) == Block(data, i.next) && o.Top().Buffer?
       case PackageOp(_, data) => TopBlock(o) == Block(data, i.next) && o.Top().Package?
       case BankFieldOp(start) => TopBlock(o) == Block(start, i.next) && o.Top().BankField?
       case ScopeOp(nested, _) => TopBlock(o) == Block(nested, i.next) && o.Top().Populate?
       case _ => !o.Top().OwnsBlock()
  }

  /** What a parse may touch: the program counter moves to the next instruction, or the level is left. */
  ghost predicate Parsed(s: State, i: Input, o: State)
    requires s.stack != []
  {
    && Below(s, o) && TopStays(s, o) && TopAt(s, o, After(s, i)) && (Leaves(s, i) ==> |o.stack| < |s.stack|)
    && (|o.stack| > |s.stack| ==> Opened(s, i, o))
  }

  lemma NameParsed(m: Mode, s: State, i: Input, t: Target)
    requires ParseName(m, s, i, t).Next?
    ensures var o := ParseName(m, s, i, t).s;
            && Below(s, o) && TopStays(s, o) && TopAt(s, o, i.next) && |o.blocks| == |s.blocks|
            && (o.stack == s.stack || (|o.stack| == |s.stack| + 1 && o.Top().Invoke?))
  {
  }

  lemma ConstantParsed(m: Mode, s: State, i: Input)
    requires ParseConstant(m, s, i).Next?
    ensures var o := ParseConstant(m, s, i).s;
            Below(s, o) && TopStays(s, o) && TopAt(s, o, i.next) && o.stack == s.stack
  {
  }

  lemma OpenParsed(s: State, i: Input, b: Block, it: Item)
    requires OpenBlock(s, i, b, it).Next?
    ensures var o := OpenBlock(s, i, b, it).s;
            && Below(s, o) && TopStays(s, o) && TopAt(s, o, i.next)
            && o.stack == s.stack + [it] && |o.blocks| == |s.blocks| + 1 && TopBlock(o) == b
  {
  }

  lemma PackageParsed(m: Mode, s: State, i: Input, variable: bool, data: int)
    requires ParsePackage(m, s, i, variable, data).Next?
    ensures var o := ParsePackage(m, s, i, variable, data).s;
            && Below(s, o) && TopStays(s, o) && TopAt(s, o, i.next)
            && |o.stack| == |s.stack| + 1 && |o.blocks| == |s.blocks| + 1
            && TopBlock(o) == Block(data, i.next) && o.Top().Package?
  {
    hide OpenBlock;
    var s1 := ReserveOp(s, i.oom).s;
    OpenParsed(s1, i, Block(data, i.next), Package(|s1.ops|, variable, 0, 0, 0, m.WantsResult()));
  }

  lemma ScopeParsed(s: State, i: Input, nested: int, resolved: bool)
    requires ParseScope(s, i, nested, resolved).Next?
    ensures var o := ParseScope(s, i, nested, resolved).s;
            && Below(s, o) && TopStays(s, o) && TopAt(s, o, i.next)
            && |o.stack| == |s.stack| + 1 && |o.blocks| == |s.blocks| + 1
            && TopBlock(o) == Block(nested, i.next) && o.Top().Populate?
  {
  }

  lemma BankFieldParsed(s: State, i: Input, start: int)
    requires ParseBankField(s, i, start).Next?
    ensures var o := ParseBankField(s, i, start).s;
            && Below(s, o) && TopStays(s, o) && TopAt(s, o, i.next)
            && |o.stack| == |s.stack| + 1 && |o.blocks| == |s.blocks| + 1
            && TopBlock(o) == Block(start, i.next) && o.Top().BankField?
  {
    hide OpenBlock;
    var s1 := ReserveOp(s, i.oom).s;
    var s2 := ReserveOp(s1, i.oom).s;
    OpenParsed(s2, i, Block(start, i.next), BankField(|s2.ops|));
  }

  lemma {:induction false} UnwindParsed(s: State, keep: nat)
    requires Unwind(s, keep).Next?
    ensures var o := Unwind(s, keep).s;
            && o.stack <= s.stack && o.blocks <= s.blocks && (|s.stack| <= keep ==> o == s)
            && (|s.stack| > keep ==> |o.stack| < |s.stack| && |o.blocks| < |s.blocks|)
    decreases |s.stack|
  {
    if |s.stack| > keep && s.Top().Skippable() && s.blocks != [] {
      UnwindParsed(s.(blocks := s.blocks[..|s.blocks| - 1], stack := s.stack[..|s.stack| - 1]), keep);
    }
  }

  /** `Continue` and `Break` belong to the nearest loop, with only conditions in between. */
  lemma LeaveParsed(s: State, i: Input)
    requires s.stack != [] && s.blocks != [] && (i.instr.ContinueOp? || i.instr.BreakOp?)
    ensures i.instr.ContinueOp? && ParseContinue(s).Next? ==> Parsed(s, i, ParseContinue(s).s)
    ensures i.instr.BreakOp? && ParseBreak(s).Next? ==> Parsed(s, i, ParseBreak(s).s)
  {
    hide Unwind, Enclosing;
    var n := Enclosing(s.stack, false);
    if n >= 0 && Unwind(s, n).Next? {
      UnwindParsed(s, n);
    }
  }

  /** A parse keeps everything but the program counter of the top block, or leaves levels. */
  lemma ParseFlow(m: Mode, s: State, i: Input)
    requires Parse(m, s, i).Next? && s.stack != [] && (m.Immediate() ==> !s.Top().Skippable())
    ensures Parsed(s, i, Parse(m, s, i).s) && s.blocks != [] && TopBlock(s).pc < TopBlock(s).limit
  {
    hide ParseOpcode;
    if m.Immediate() {
      ImmediateParsed(s, i);
    } else {
      OpcodeFlow(m, s, i);
    }
  }

  lemma ImmediateParsed(s: State, i: Input)
    requires ReserveOp(s, i.oom).Next? && CommitPc(ReserveOp(s, i.oom).s, i.next).Next?
    ensures var o := CommitPc(ReserveOp(s, i.oom).s, i.next).s;
            Below(s, o) && TopStays(s, o) && TopAt(s, o, i.next) && o.stack == s.stack
  {
  }

  lemma OpcodeFlow(m: Mode, s: State, i: Input)
    requires ParseOpcode(m, s, i).Next? && s.stack != [] && s.blocks != []
    ensures Parsed(s, i, ParseOpcode(m, s, i).s)
  {
    hide ParseName, ParseConstant, OpenBlock, ParsePackage, ParseScope, ParseBankField, ParseContinue, ParseBreak,
         ParseItem, CommitPc, Below, TopAt, TopStays, TopBlock;
    match i.instr
    case Name(t) => NameParsed(m, s, i, t);
    case Zero | Constant | ArgOp | LocalOp | DebugOp => ConstantParsed(m, s, i);
    case BufferOp(data) => OpenParsed(s, i, Block(data, i.next), Buffer(|s.ops|, m.WantsResult()));
    case PackageOp(variable, data) => PackageParsed(m, s, i, variable, data);
    case WhileOp(body) => OpenParsed(s, i, Block(body, i.next), Loop(|s.ops|, false, body));
    case IfOp(body, bodyLimit, hasElse, elsePc, elseLimit) =>
      OpenParsed(s, i, Block(body, bodyLimit), Cond(|s.ops|, false, hasElse, elsePc, elseLimit));
    case ScopeOp(nested, resolved) => ScopeParsed(s, i, nested, resolved);
    case BankFieldOp(start) => BankFieldParsed(s, i, start);
    case ContinueOp => LeaveParsed(s, i);
    case BreakOp => LeaveParsed(s, i);
    case ReturnOp => ItemParsed(s, i, Return(|s.ops|));
    case NodeOp(shape) => ItemParsed(s, i, Node(|s.ops|, shape));
    case Operator(shape) => ItemParsed(s, i, Op(|s.ops|, shape, m.WantsResult()));
    case Nop | Leaf(_) => CommitParsed(s, i);
    case Literal | BadOpcode | Truncated =>
  }

  lemma ItemParsed(s: State, i: Input, it: Item)
    requires ParseItem(s, i, it).Next?
    ensures var o := ParseItem(s, i, it).s;
            && Below(s, o) && TopStays(s, o) && TopAt(s, o, i.next)
            && o.stack == s.stack + [it] && |o.blocks| == |s.blocks|
  {
  }

  lemma CommitParsed(s: State, i: Input)
    requires CommitPc(s, i.next).Next?
    ensures var o := CommitPc(s, i.next).s;
            Below(s, o) && TopStays(s, o) && TopAt(s, o, i.next) && o.stack == s.stack
  {
  }

  /** A parse that succeeds would fail on a truncated instruction and not fail on a bad one. */
  lemma ParseReads(m: Mode, s: State, i: Input)
    requires Parse(m, s, i).Next?
    ensures Parse(m, s, i.(instr := Truncated)) == Failed && Parse(m, s, i.(instr := BadOpcode)) != Failed
  {
    hide ParseName, ParseConstant, OpenBlock, ParsePackage, ParseScope, ParseBankField, ParseContinue, ParseBreak;
  }

  // ---------------------------------------------------------------------------- one step, by kind

  /** What a step does to the levels: if it reads code, it reads inside the top block's limit and moves its
      program counter to the next instruction, or leaves the level; if not, the top block, if it stays, is as it
      was. */
  ghost predicate Moves(s: State, i: Input, o: State)
    requires s.stack != []
  {
    && Below(s, o)
    && (ReadsCode(s, i) ==> TopAt(s, o, After(s, i)) && (Leaves(s, i) ==> |o.stack| < |s.stack|))
    && (!ReadsCode(s, i) ==> TopAt(s, o, TopBlock(s).pc))
    && (|o.stack| > |s.stack| ==> Opened(s, i, o))
  }

  /** A step that parses. */
  lemma ParsingStep(m: Mode, s: State, i: Input, i1: Input)
    requires s.stack != [] && Process(s, i).Next? && i1 == i.(reduceOk := i1.reduceOk)
    requires m.Immediate() ==> !s.Top().Skippable()
    requires Process(s, i) == Parse(m, s, i1)
    requires Process(s, i.(instr := Truncated)) == Parse(m, s, i1.(instr := Truncated))
    requires Process(s, i.(instr := BadOpcode)) == Parse(m, s, i1.(instr := BadOpcode))
    ensures Moves(s, i, Process(s, i).s) && TopStays(s, Process(s, i).s) && ReadsCode(s, i)
  {
    hide Process, Parse;
    ParseFlow(m, s, i1);
    ParseReads(m, s, i1);
  }

  /** A step that updates its own item and then parses. */
  lemma ParsingStepFrom(m: Mode, s: State, s1: State, i: Input)
    requires s.stack != [] && Process(s, i).Next? && s1.blocks == s.blocks
    requires |s1.stack| == |s.stack| && s1.stack[..|s.stack| - 1] == s.stack[..|s.stack| - 1]
    requires !s.Top().Skippable() && !s1.Top().Skippable()
    requires Process(s, i) == Parse(m, s1, i)
    requires Process(s, i.(instr := Truncated)) == Parse(m, s1, i.(instr := Truncated))
    requires Process(s, i.(instr := BadOpcode)) == Parse(m, s1, i.(instr := BadOpcode))
    ensures Moves(s, i, Process(s, i).s)
  {
    hide Process, Parse;
    ParseFlow(m, s1, i);
    ParseReads(m, s1, i);
    var o := Process(s, i).s;
    forall k | 0 <= k < |o.stack| && k < |s.stack| - 1 ensures o.stack[k] == s.stack[k] {
      assert s1.stack[k] == s1.stack[..|s.stack| - 1][k] == s.stack[k];
    }
  }

  lemma FinishFlow(s: State, s1: State, ownsBlock: bool, ownsCtx: bool)
    requires s.stack != [] && s1.stack == s.stack && s1.blocks == s.blocks && Finish(s1, ownsBlock, ownsCtx).Next?
    ensures var o := Finish(s1, ownsBlock, ownsCtx).s;
            && Below(s, o) && TopAt(s, o, TopBlock(s).pc) && |o.stack| == |s.stack| - 1
            && (ownsBlock ==> |o.blocks| < |s.blocks|)
  {
  }

  lemma ScopeFlow(s: State, i: Input)
    requires s.stack != [] && s.Top().OwnsContext() && Process(s, i).Next?
    ensures var o := Process(s, i).s;
            && Moves(s, i, o) && TopStays(s, o)
            && (TopBlock(s).pc >= TopBlock(s).limit ==> |o.stack| < |s.stack|)
            && (TopBlock(s).pc < TopBlock(s).limit ==> ReadsCode(s, i) && !i.instr.BreakOp? && !i.instr.ContinueOp?)
  {
    hide Parse, Finish, Below, TopAt, Moves;
    var b := TopBlock(s);
    if b.pc != b.limit {
      ParsingStep(Exec, s, i, i);
      if i.instr.BreakOp? || i.instr.ContinueOp? { StrayLeave(s, i); }
    } else {
      ScopeEnds(s, i);
    }
  }

  /** Outside every loop there is nothing to leave. */
  lemma StrayLeave(s: State, i: Input)
    requires s.stack != [] && s.Top().OwnsContext() && (i.instr.BreakOp? || i.instr.ContinueOp?)
    ensures !Parse(Exec, s, i).Next?
  {
    hide Unwind;
  }

  lemma ScopeEnds(s: State, i: Input)
    requires s.stack != [] && s.Top().OwnsContext() && Process(s, i).Next?
    requires TopBlock(s).pc == TopBlock(s).limit
    ensures Moves(s, i, Process(s, i).s) && |Process(s, i).s.stack| < |s.stack|
  {
    hide Parse, Finish, Below, TopAt;
    if s.Top().Populate? {
      FinishFlow(s, s, true, true);
    } else {
      var s1 := ReserveOp(s, i.oom).s;
      FinishFlow(s, Yield(s1, s.Top().want).s, true, true);
    }
  }

  lemma BufferFlow(s: State, i: Input)
    requires s.stack != [] && s.Top().Buffer? && Process(s, i).Next?
    ensures Moves(s, i, Process(s, i).s)
  {
    hide Parse, Finish, Below, TopAt, TopStays;
    if |s.ops| - s.Top().frame != 1 {
      ParsingStep(Object, s, i, i);
    } else {
      var s1 := PopOps(s, 1).s;
      FinishFlow(s, Yield(s1, s.Top().want).s, true, false);
    }
  }

  lemma CondFlow(s: State, i: Input)
    requires s.stack != [] && s.Top().Cond? && s.Top().branch && Process(s, i).Next?
    ensures var o := Process(s, i).s;
            && Moves(s, i, o) && TopStays(s, o)
            && (TopBlock(s).pc < TopBlock(s).limit ==> ReadsCode(s, i))
            && (TopBlock(s).pc >= TopBlock(s).limit ==> |o.stack| < |s.stack|)
  {
    hide Parse, Finish, Below, TopAt;
    if TopBlock(s).pc != TopBlock(s).limit {
      ParsingStep(Exec, s, i, i);
    } else {
      FinishFlow(s, s, true, false);
    }
  }

  lemma OperatorFlow(s: State, i: Input)
    requires s.stack != [] && (s.Top().Op? || s.Top().Node?) && Process(s, i).Next?
    ensures Moves(s, i, Process(s, i).s)
  {
    hide Parse, Reduce, Below, TopAt, TopStays;
    var it := s.Top();
    var modes := it.shape.Modes();
    var k := |s.ops| - it.frame;
    if 0 <= k < |modes| {
      ParsingStep(modes[k], s, i, if it.Op? then i else i.(reduceOk := true));
    } else {
      var s1 := if it.Op? then ReserveOp(s, i.oom).s else s;
      ReduceFlow(s, s1, k, it.Op? && it.want);
    }
  }

  lemma ReduceFlow(s: State, s1: State, k: nat, want: bool)
    requires s.stack != [] && s1.stack == s.stack && s1.blocks == s.blocks && Reduce(s1, k, want).Next?
    ensures var o := Reduce(s1, k, want).s;
            Below(s, o) && TopAt(s, o, TopBlock(s).pc) && |o.stack| <= |s.stack|
  {
  }

  lemma InvokeFlow(s: State, i: Input)
    requires s.stack != [] && s.Top().Invoke? && Process(s, i).Next?
    ensures Moves(s, i, Process(s, i).s)
  {
    hide Parse, CallMethod, Below, TopAt, TopStays;
    var it := s.Top();
    if |s.ops| - it.frame != it.argc + 1 {
      ParsingStep(Object, s, i, i);
    } else {
      var s2 := ReserveBlk(ReserveCtx(s, i.oom).s, i.oom).s;
      CallFlow(s, s2, i, it.argc, it.want);
      CallFlow(s, s2, i.(instr := Truncated), it.argc, it.want);
      CallFlow(s, s2, i.(instr := BadOpcode), it.argc, it.want);
    }
  }

  lemma CallFlow(s: State, s2: State, i: Input, argc: nat, want: bool)
    requires s.stack != [] && s2.stack == s.stack && s2.blocks == s.blocks
    ensures CallMethod(s2, i, argc, want) == CallMethod(s2, i.(instr := Nop), argc, want)
    ensures CallMethod(s2, i, argc, want).Next? ==>
              var o := CallMethod(s2, i, argc, want).s;
              Below(s, o) && TopAt(s, o, TopBlock(s).pc) && |o.stack| <= |s.stack|
  {
  }

  lemma ReturnFlow(s: State, i: Input)
    requires s.stack != [] && s.Top().Return? && Process(s, i).Next?
    ensures Moves(s, i, Process(s, i).s)
  {
    hide Parse, Unwind, Finish, Enclosing, Below, TopAt, TopStays;
    var it := s.Top();
    if |s.ops| - it.frame != 1 {
      ParsingStep(Object, s, i, i);
    } else {
      var s1 := PopOps(s, 1).s;
      var n := Enclosing(s.stack[..|s.stack| - 1], true);
      var s3 := PopItem(Yield(s1, s.stack[n - 1].want).s).s;
      UnwindFlow(s, s3, n);
    }
  }

  lemma UnwindFlow(s: State, s3: State, n: nat)
    requires s.stack != [] && s3.stack == s.stack[..|s.stack| - 1] && s3.blocks == s.blocks
    requires Unwind(s3, n).Next? && Finish(Unwind(s3, n).s, true, true).Next?
    ensures var o := Finish(Unwind(s3, n).s, true, true).s;
            Below(s, o) && TopAt(s, o, TopBlock(s).pc) && |o.stack| <= |s.stack|
  {
    hide Unwind;
    UnwindParsed(s3, n);
  }

  lemma BankFieldFlow(s: State, i: Input)
    requires s.stack != [] && s.Top().BankField? && Process(s, i).Next?
    ensures Moves(s, i, Process(s, i).s)
  {
    hide Parse, Finish, Below, TopAt, TopStays;
    var it := s.Top();
    if |s.ops| - it.frame != 3 {
      ParsingStep(Object, s, i, i);
    } else {
      FinishFlow(s, PopOps(s, 3).s, true, false);
    }
  }

  lemma PackageFlow(s: State, i: Input)
    requires s.stack != [] && s.Top().Package? && Process(s, i).Next?
    ensures Moves(s, i, Process(s, i).s)
  {
    hide Parse, ProcessPackage0, StorePackage, Finish, Below, TopAt, TopStays;
    var it := s.Top();
    if it.phase == 0 {
      Package0Flow(s, i);
    } else if it.phase == 1 {
      Package1Flow(s, i);
    } else {
      Package2Flow(s, i);
    }
  }

  lemma Package0Flow(s: State, i: Input)
    requires s.stack != [] && s.Top().Package? && s.Top().phase == 0 && Process(s, i).Next?
    ensures Moves(s, i, Process(s, i).s)
  {
    hide Parse;
    var it := s.Top();
    var m := if it.variable then Object else ImmByte;
    var t := SetTop(s, it.(phase := it.phase + 1));
    ParseFlow(m, t, i);
    ParseReads(m, t, i);
    var p, o := Parse(m, t, i).s, Process(s, i).s;
    assert o.blocks == p.blocks && |o.stack| == |p.stack|;
    forall k | 0 <= k < |o.stack| && k < |s.stack| - 1 ensures o.stack[k] == s.stack[k] {
      assert t.stack[k] == s.stack[k] && p.stack[k] == t.stack[k];
    }
  }

  lemma Package1Flow(s: State, i: Input)
    requires s.stack != [] && s.Top().Package? && s.Top().phase == 1 && Process(s, i).Next?
    ensures Moves(s, i, Process(s, i).s)
  {
    hide Parse, ProcessPackage0, StorePackage, Finish;
  }

  lemma Package2Flow(s: State, i: Input)
    requires s.stack != [] && s.Top().Package? && s.Top().phase > 1 && Process(s, i).Next?
    ensures Moves(s, i, Process(s, i).s)
  {
    hide Parse, ProcessPackage0, StorePackage, Finish, Below, TopAt, TopStays;
    var it := s.Top();
    var full := |s.ops| == it.frame + 2;
    if full {
      StoreFlow(s);
    }
    var s1 := if full then StorePackage(s, it).s else s;
    if TopBlock(s).pc != TopBlock(s).limit {
      ParsingStepFrom(Data, s, s1, i);
    } else {
      PackageEnds(s, s1, it.want);
    }
  }

  lemma StoreFlow(s: State)
    requires s.stack != [] && s.Top().Package? && |s.ops| == s.Top().frame + 2
    ensures StorePackage(s, s.Top()).Next? ==>
              var s1 := StorePackage(s, s.Top()).s;
              && s1.blocks == s.blocks && |s1.stack| == |s.stack| && !s1.Top().Skippable()
              && s1.stack[..|s.stack| - 1] == s.stack[..|s.stack| - 1]
  {
  }

  lemma PackageEnds(s: State, s1: State, want: bool)
    requires s.stack != [] && s1.blocks == s.blocks
    requires |s1.stack| == |s.stack| && s1.stack[..|s.stack| - 1] == s.stack[..|s.stack| - 1]
    ensures var s2 := if want then Next(s1) else PopOps(s1, 1);
            s2.Next? && Finish(s2.s, true, false).Next? ==>
              var o := Finish(s2.s, true, false).s;
              Below(s, o) && TopAt(s, o, TopBlock(s).pc) && |o.stack| <= |s.stack|
  {
    forall k | 0 <= k < |s.stack| - 1 ensures s1.stack[k] == s.stack[k] {
      assert s1.stack[k] == s1.stack[..|s.stack| - 1][k];
    }
  }

  // ------------------------------------------------------------------------- conditions and loops

  /** The owner of the top level is on top and holds the value of its predicate. */
  predicate Decides(s: State) {
    s.stack != [] && s.Top().Skippable() && |s.ops| > s.Top().frame
  }

  lemma PredicateFlow(s: State, i: Input)
    requires s.stack != [] && Process(s, i).Next? && !Decides(s)
    requires (s.Top().Cond? && !s.Top().branch) || (s.Top().Loop? && !s.Top().iterating)
    ensures var o := Process(s, i).s; Moves(s, i, o) && TopStays(s, o) && ReadsCode(s, i)
  {
    hide Parse, Finish, Below, TopAt, TopStays;
    ParsingStep(Object, s, i, i);
  }

  /** Deciding reads no code; the level goes on where the value says, or ends. */
  lemma DecisionFlow(s: State, i: Input)
    requires Decides(s) && Process(s, i).Next?
    requires (s.Top().Cond? && !s.Top().branch) || (s.Top().Loop? && !s.Top().iterating)
    ensures var o, it := Process(s, i).s, s.Top();
            && Below(s, o) && s.blocks != [] && !ReadsCode(s, i)
            && if i.truthy then
                 && o.blocks == s.blocks && |o.stack| == |s.stack|
                 && o.Top() == if it.Cond? then it.(branch := true) else it.(iterating := true)
               else if it.Cond? && it.hasElse then
                 && |o.blocks| == |s.blocks| && |o.stack| == |s.stack|
                 && TopBlock(o) == Block(it.elsePc, it.elseLimit) && o.Top() == it.(branch := true)
               else |o.stack| < |s.stack|
  {
    hide Parse;
  }

  /** A loop in its body reads on up to the limit and goes back to its predicate there. */
  lemma BodyFlow(s: State, i: Input)
    requires s.stack != [] && s.Top().Loop? && s.Top().iterating && Process(s, i).Next?
    ensures var o, b := Process(s, i).s, TopBlock(s);
            && Below(s, o)
            && (b.pc == b.limit ==>
                  && !ReadsCode(s, i) && |o.blocks| == |s.blocks| > 0 && |o.stack| == |s.stack|
                  && TopBlock(o) == b.(pc := s.Top().predPc) && o.Top() == s.Top().(iterating := false))
            && (b.pc != b.limit ==> Moves(s, i, o) && TopStays(s, o) && ReadsCode(s, i))
  {
    hide Parse;
    if TopBlock(s).pc != TopBlock(s).limit {
      hide Below, TopAt, TopStays;
      ParsingStep(Exec, s, i, i);
    }
  }

  ghost predicate AtLimit(s: State) {
    s.stack != [] && s.ctx != [] && s.blocks != [] && TopBlock(s).pc >= TopBlock(s).limit
  }

  lemma ParseEscapes(m: Mode, s: State, i: Input)
    requires AtLimit(s)
    ensures Parse(m, s, i) == Stopped(EscapedCode)
  {
  }

  /** At the limit no step depends on the instruction. */
  lemma ReadsInside(s: State, i: Input)
    requires s.stack != [] && ReadsCode(s, i)
    ensures s.blocks != [] && TopBlock(s).pc < TopBlock(s).limit
  {
    hide Parse, Finish, ProcessPackage, ProcessOperands, ProcessInvoke, ProcessReturn;
    var it := s.Top();
    if AtLimit(s) {
      EscapesIn(s, i.(instr := Truncated));
      EscapesIn(s, i.(instr := BadOpcode));
      match it
      case Package(_, _, _, _, _, _) => PackageInside(s, i);
      case Invoke(_, _, _) => InvokeInside(s, i);
      case Return(_) => ReturnInside(s, i);
      case Node(frame, shape) => OperandsInside(s, i.(reduceOk := true), frame, shape, false);
      case Op(frame, shape, want) =>
        OperandsInside(s, i, frame, shape, want);
        if ReserveOp(s, i.oom).Next? { OperandsInside(ReserveOp(s, i.oom).s, i, frame, shape, want); }
      case _ =>
    }
  }

  lemma EscapesIn(s: State, i: Input)
    requires AtLimit(s)
    ensures Parse(Exec, s, i) == Parse(Object, s, i) == Stopped(EscapedCode)
  {
    ParseEscapes(Exec, s, i);
    ParseEscapes(Object, s, i);
  }

  lemma PackageInside(s: State, i: Input)
    requires AtLimit(s) && s.Top().Package?
    ensures !ReadsCode(s, i)
  {
    hide ParseOpcode, Finish;
  }

  lemma InvokeInside(s: State, i: Input)
    requires AtLimit(s) && s.Top().Invoke?
    ensures !ReadsCode(s, i)
  {
    hide ParseOpcode;
  }

  lemma ReturnInside(s: State, i: Input)
    requires AtLimit(s) && s.Top().Return?
    ensures !ReadsCode(s, i)
  {
    hide ParseOpcode, Unwind, Enclosing, Finish;
  }

  lemma OperandsInside(s: State, i: Input, frame: nat, shape: Shape, want: bool)
    requires AtLimit(s)
    ensures ProcessOperands(s, i.(instr := Truncated), frame, shape, want)
         == ProcessOperands(s, i.(instr := BadOpcode), frame, shape, want)
  {
    hide Parse, Reduce, MissingObject;
    var k := |s.ops| - frame;
    var modes := shape.Modes();
    if 0 <= k < |modes| {
      ParseEscapes(modes[k], s, i.(instr := Truncated));
      ParseEscapes(modes[k], s, i.(instr := BadOpcode));
    }
  }

  /** Every step keeps what is below the top; if the top is no loop and no condition, it moves the top level. */
  lemma StepFlow(s: State, i: Input)
    requires s.stack != [] && Process(s, i).Next?
    ensures Below(s, Process(s, i).s)
    ensures !s.Top().Skippable() ==> Moves(s, i, Process(s, i).s)
    ensures |Process(s, i).s.stack| > |s.stack| ==> Opened(s, i, Process(s, i).s)
  {
    hide Process, Below, TopAt, TopStays, ReadsCode;
    match s.Top()
    case Populate | Method(_) => ScopeFlow(s, i);
    case Buffer(_, _) => BufferFlow(s, i);
    case Package(_, _, _, _, _, _) => PackageFlow(s, i);
    case Node(_, _) | Op(_, _, _) => OperatorFlow(s, i);
    case Invoke(_, _, _) => InvokeFlow(s, i);
    case Return(_) => ReturnFlow(s, i);
    case BankField(_) => BankFieldFlow(s, i);
    case Loop(_, iterating, _) =>
      if iterating { BodyFlow(s, i); } else if Decides(s) { DecisionFlow(s, i); } else { PredicateFlow(s, i); }
    case Cond(_, branch, _, _, _) =>
      if branch { CondFlow(s, i); } else if Decides(s) { DecisionFlow(s, i); } else { PredicateFlow(s, i); }
  }

  // -------------------------------------------------------------------------- what a level goes through

  /** An instruction read, with the one that follows it; `Break` or `Continue` read by the owner of the level;
      the value of the owner's predicate. */
  datatype Event =
    | Read(pc: int, next: int)
    | Leave(pc: int, again: bool)
    | Decision(truthy: bool)

  /** What a step contributes to the level of `d` blocks that the item at height `j` owns. */
  function EventOf(s: State, i: Input, j: nat, d: nat): seq<Event>
    requires s.stack != []
  {
    if |s.blocks| == d && ReadsCode(s, i) then
      if |s.stack| == j && (i.instr.BreakOp? || i.instr.ContinueOp?) then [Leave(TopBlock(s).pc, i.instr.ContinueOp?)]
      else [Read(TopBlock(s).pc, i.next)]
    else if |s.stack| == j && Decides(s) then [Decision(i.truthy)]
    else []
  }

  /** The events of a run at that level, until the item at height `j` is popped. */
  function Events(s: State, inputs: seq<Input>, j: nat, d: nat): seq<Event>
    decreases |inputs|
  {
    if |s.stack| < j || s.stack == [] || inputs == [] then []
    else EventOf(s, inputs[0], j, d) + match Process(s, inputs[0])
      case Next(o) => Events(o, inputs[1..], j, d)
      case _ => []
  }

  /** Instructions one after the other from `pc`, all before `limit`; leaving ends the level. */
  ghost predicate Straight(events: seq<Event>, pc: int, limit: int)
    decreases |events|
  {
    events == [] ||
    match events[0]
    case Read(p, next) => p == pc < limit && Straight(events[1..], next, limit)
    case Leave(p, _) => p == pc < limit && |events| == 1
    case Decision(_) => false
  }

  /** A condition: its predicate, and then the branch that its value selects. */
  ghost predicate Branches(events: seq<Event>, pc: int, limit: int, hasElse: bool, elsePc: int, elseLimit: int)
    decreases |events|
  {
    events == [] ||
    match events[0]
    case Read(p, next) => p == pc < limit && Branches(events[1..], next, limit, hasElse, elsePc, elseLimit)
    case Leave(p, _) => p == pc < limit && |events| == 1
    case Decision(truthy) =>
      if truthy then Straight(events[1..], pc, limit)
      else if hasElse then Straight(events[1..], elsePc, elseLimit)
      else |events| == 1
  }

  /** A loop: its predicate, and then its body up to the limit, where it starts again at the predicate. */
  ghost predicate Repeats(events: seq<Event>, pc: int, limit: int, predicatePc: int, inBody: bool)
    decreases |events|
  {
    events == [] ||
    var again := inBody && pc == limit;
    var at := if again then predicatePc else pc;
    match events[0]
    case Read(p, next) => p == at < limit && Repeats(events[1..], next, limit, predicatePc, inBody && !again)
    case Leave(p, continues) =>
      && p == at < limit
      && (if continues then Repeats(events[1..], p, limit, predicatePc, inBody && !again) else |events| == 1)
    case Decision(truthy) =>
      && (!inBody || again)
      && (if truthy then Repeats(events[1..], at, limit, predicatePc, true) else |events| == 1)
  }

  /** Every instruction ends behind its start. */
  ghost predicate Forward(events: seq<Event>) {
    forall k :: 0 <= k < |events| && events[k].Read? ==> events[k].pc <= events[k].next
  }

  /** All instructions lie in the given range. */
  ghost predicate Within(events: seq<Event>, from: int, limit: int) {
    forall k :: 0 <= k < |events| && !events[k].Decision? ==> from <= events[k].pc < limit
  }

  // ----------------------------------------------------------------------------- one level in a run

  lemma {:induction false} PrefixBlocks(stack: seq<Item>, j: nat)
    requires j <= |stack|
    ensures BlocksOf(stack[..j]) <= BlocksOf(stack)
    ensures j < |stack| && stack[|stack| - 1].OwnsBlock() ==> BlocksOf(stack[..j]) < BlocksOf(stack)
    decreases |stack|
  {
    if j < |stack| {
      var below := stack[..|stack| - 1];
      assert below[..j] == stack[..j];
      PrefixBlocks(below, j);
    } else {
      assert stack[..j] == stack;
    }
  }

  /** The item at height `j` owns the block at depth `d`. */
  ghost predicate OnLevel(s: State, j: nat, d: nat) {
    0 < j <= |s.stack| && 0 < d <= |s.blocks| && d == BlocksOf(s.stack[..j]) && s.stack[j - 1].OwnsBlock()
  }

  /** A step above the owner changes at most the program counter of the level, and only by reading there. */
  lemma StepAbove(s: State, i: Input, j: nat, d: nat, root: Item)
    requires Inv(s, root) && OnLevel(s, j, d) && |s.stack| > j
    requires Process(s, i).Next? && |Process(s, i).s.stack| >= j
    ensures var o, b := Process(s, i).s, s.blocks[d - 1];
            && Inv(o, root) && OnLevel(o, j, d) && o.stack[j - 1] == s.stack[j - 1]
            && o.blocks[d - 1] == if |s.blocks| == d && ReadsCode(s, i) then b.(pc := i.next) else b
  {
    hide Process, ReadsCode, Held, ContextsOf, BlocksOf;
    var o := Process(s, i).s;
    StepKeeps(s, i, root);
    StepFlow(s, i);
    assert o.stack[..j] == s.stack[..j];
    PrefixBlocks(o.stack, j);
    PrefixBlocks(s.stack, j);
  }

  /** A step of the owner that leaves it on the stack leaves it on its level. */
  lemma StepOwner(s: State, i: Input, j: nat, d: nat, root: Item)
    requires Inv(s, root) && OnLevel(s, j, d) && |s.stack| == j
    requires Process(s, i).Next?
    ensures var o := Process(s, i).s;
            Inv(o, root) && (|o.stack| >= j && o.stack[j - 1].OwnsBlock() ==> OnLevel(o, j, d))
    ensures d == |s.blocks|
  {
    hide Process, ReadsCode, Held, ContextsOf;
    var o := Process(s, i).s;
    StepKeeps(s, i, root);
    StepFlow(s, i);
    assert s.stack[..j] == s.stack;
    if |o.stack| >= j && o.stack[j - 1].OwnsBlock() {
      assert o.stack[..j][..j - 1] == s.stack[..j - 1];
      assert BlocksOf(o.stack[..j]) == BlocksOf(s.stack[..j - 1]) + 1 == d;
      PrefixBlocks(o.stack, j);
    }
  }

  /** The item's block runs to its end: a table, a scope, a method, or a condition in its branch. */
  predicate RunsOn(it: Item) { it.OwnsContext() || (it.Cond? && it.branch) }

  lemma RunsOnFlow(s: State, i: Input)
    requires s.stack != [] && RunsOn(s.Top()) && Process(s, i).Next?
    ensures var o := Process(s, i).s;
            && Moves(s, i, o) && TopStays(s, o)
            && (i.instr.BreakOp? || i.instr.ContinueOp? || !ReadsCode(s, i) ==> |o.stack| < |s.stack|)
  {
    hide Process, ReadsCode, Below, TopAt, TopStays;
    if s.Top().Cond? {
      CondFlow(s, i);
    } else {
      ScopeFlow(s, i);
    }
  }

  lemma DecidedHoldsNone(s: State, root: Item)
    requires Inv(s, root) && s.stack != []
    requires RunsOn(s.Top()) || (s.Top().Loop? && s.Top().iterating)
    ensures !Decides(s)
  {
    hide ContextsOf, BlocksOf;
  }

  /** The events after the first step. */
  function Later(s: State, inputs: seq<Input>, j: nat, d: nat): seq<Event>
    requires s.stack != [] && inputs != []
  {
    match Process(s, inputs[0])
    case Next(o) => Events(o, inputs[1..], j, d)
    case _ => []
  }

  lemma EventsStep(s: State, inputs: seq<Input>, j: nat, d: nat)
    requires |s.stack| >= j > 0 && inputs != []
    ensures var e, events := EventOf(s, inputs[0], j, d), Events(s, inputs, j, d);
            if e == [] then events == Later(s, inputs, j, d)
            else |e| == 1 && events != [] && events[0] == e[0] && events[1..] == Later(s, inputs, j, d)
  {
    hide Process, ReadsCode;
  }

  /** A table, scope or method, and a condition in its branch, runs straight through its block. */
  lemma {:induction false} StraightRun(s: State, inputs: seq<Input>, j: nat, d: nat, root: Item)
    requires Inv(s, root) && OnLevel(s, j, d) && RunsOn(s.stack[j - 1])
    ensures Straight(Events(s, inputs, j, d), s.blocks[d - 1].pc, s.blocks[d - 1].limit)
    decreases |inputs|
  {
    hide Process, ReadsCode, Inv, Decides, BlocksOf, Events;
    if inputs == [] {
      NoInputs(s, j, d);
      return;
    }
    var i := inputs[0];
    EventsStep(s, inputs, j, d);
    if ReadsCode(s, i) { ReadsInside(s, i); }
    if Process(s, i).Next? {
      var o := Process(s, i).s;
      if |o.stack| < j {
        Popped(o, inputs[1..], j, d);
      }
      if |s.stack| == j {
        DecidedHoldsNone(s, root);
        RunsOnFlow(s, i);
        StepOwner(s, i, j, d, root);
      } else if |o.stack| >= j {
        StepAbove(s, i, j, d, root);
      }
      if |o.stack| >= j {
        StraightRun(o, inputs[1..], j, d, root);
      }
    } else if |s.stack| == j {
      DecidedHoldsNone(s, root);
    }
  }

  /** Before it is decided, a condition reads its predicate, and then it takes the branch that the value selects. */
  lemma {:induction false} BranchRun(s: State, inputs: seq<Input>, j: nat, d: nat, root: Item)
    requires Inv(s, root) && OnLevel(s, j, d) && s.stack[j - 1].Cond? && !s.stack[j - 1].branch
    ensures var b, it := s.blocks[d - 1], s.stack[j - 1];
            Branches(Events(s, inputs, j, d), b.pc, b.limit, it.hasElse, it.elsePc, it.elseLimit)
    decreases |inputs|
  {
    hide Process, ReadsCode, Inv, Decides, BlocksOf, Events;
    if inputs == [] {
      NoInputs(s, j, d);
      return;
    }
    var i := inputs[0];
    EventsStep(s, inputs, j, d);
    if ReadsCode(s, i) { ReadsInside(s, i); }
    if Process(s, i).Next? {
      var o := Process(s, i).s;
      if |o.stack| < j {
        Popped(o, inputs[1..], j, d);
      }
      if |s.stack| > j {
        if |o.stack| >= j {
          StepAbove(s, i, j, d, root);
          BranchRun(o, inputs[1..], j, d, root);
        }
      } else {
        StepOwner(s, i, j, d, root);
        if Decides(s) {
          DecisionFlow(s, i);
          if |o.stack| >= j {
            StraightRun(o, inputs[1..], j, d, root);
          }
        } else {
          PredicateFlow(s, i);
          if |o.stack| >= j {
            BranchRun(o, inputs[1..], j, d, root);
          }
        }
      }
    }
  }

  /** A loop reads its predicate, then its body, and at the limit it starts again. */
  lemma {:induction false} RepeatRun(s: State, inputs: seq<Input>, j: nat, d: nat, root: Item)
    requires Inv(s, root) && OnLevel(s, j, d) && s.stack[j - 1].Loop?
    ensures var b, it := s.blocks[d - 1], s.stack[j - 1];
            Repeats(Events(s, inputs, j, d), b.pc, b.limit, it.predPc, it.iterating)
    decreases |inputs|
  {
    hide Process, ReadsCode, Inv, Decides, BlocksOf, Events;
    if inputs == [] {
      NoInputs(s, j, d);
      return;
    }
    var i := inputs[0];
    EventsStep(s, inputs, j, d);
    if ReadsCode(s, i) { ReadsInside(s, i); }
    if |s.stack| == j && s.Top().iterating { DecidedHoldsNone(s, root); }
    if Process(s, i).Next? {
      var o := Process(s, i).s;
      if |o.stack| < j {
        Popped(o, inputs[1..], j, d);
      }
      if |s.stack| > j {
        if |o.stack| >= j {
          StepAbove(s, i, j, d, root);
        }
      } else {
        StepOwner(s, i, j, d, root);
        if s.Top().iterating {
          BodyFlow(s, i);
        } else if Decides(s) {
          DecisionFlow(s, i);
        } else {
          PredicateFlow(s, i);
        }
      }
      if |o.stack| >= j {
        RepeatRun(o, inputs[1..], j, d, root);
      }
    }
  }

  lemma {:induction false} StraightWithin(events: seq<Event>, pc: int, limit: int, from: int)
    requires Straight(events, pc, limit) && Forward(events) && from <= pc
    ensures Within(events, from, limit)
    decreases |events|
  {
    if events != [] && events[0].Read? {
      var rest := events[1..];
      assert forall k :: 0 <= k < |rest| ==> rest[k] == events[k + 1];
      StraightWithin(rest, events[0].next, limit, from);
      assert forall k :: 1 <= k < |events| ==> events[k] == rest[k - 1];
    }
  }

  lemma {:induction false} RepeatsWithin(events: seq<Event>, pc: int, limit: int, predicatePc: int, inBody: bool)
    requires Repeats(events, pc, limit, predicatePc, inBody) && Forward(events) && predicatePc <= pc
    ensures Within(events, predicatePc, limit)
    decreases |events|
  {
    if |events| > 1 {
      var rest := events[1..];
      assert forall k :: 0 <= k < |rest| ==> rest[k] == events[k + 1];
      var again := inBody && pc == limit;
      var at := if again then predicatePc else pc;
      match events[0] {
        case Read(p, next) => RepeatsWithin(rest, next, limit, predicatePc, inBody && !again);
        case Leave(p, _) => RepeatsWithin(rest, p, limit, predicatePc, inBody && !again);
        case Decision(_) => RepeatsWithin(rest, at, limit, predicatePc, true);
      }
      assert forall k :: 1 <= k < |events| ==> events[k] == rest[k - 1];
    }
  }

  lemma NoInputs(s: State, j: nat, d: nat)
    ensures Events(s, [], j, d) == []
  {
  }

  lemma Popped(s: State, inputs: seq<Input>, j: nat, d: nat)
    requires |s.stack| < j
    ensures Events(s, inputs, j, d) == []
  {
  }

  // ------------------------------------------------------------------------------------ main results

  /** The events at the top level of `s` in a run from `s`, until its top item is popped. */
  function TopEvents(s: State, inputs: seq<Input>): seq<Event> {
    Events(s, inputs, |s.stack|, |s.blocks|)
  }

  lemma TopOnLevel(s: State, root: Item)
    requires Inv(s, root) && s.stack != [] && s.Top().OwnsBlock()
    ensures OnLevel(s, |s.stack|, |s.blocks|) && TopBlock(s) == s.blocks[|s.blocks| - 1]
  {
    hide Held, ContextsOf;
    assert s.stack[..|s.stack|] == s.stack;
  }

  /** A level that is read does not start empty: the first instruction read is the first of its block. */
  lemma StartsAt(s: State, inputs: seq<Input>, root: Item)
    requires Inv(s, root) && s.stack != [] && RunsOn(s.Top()) && inputs != [] && TopBlock(s).pc < TopBlock(s).limit
    ensures TopEvents(s, inputs) != []
  {
    hide Process, Held, ContextsOf, BlocksOf;
    EventsStep(s, inputs, |s.stack|, |s.blocks|);
    ReadsAt(s, inputs[0], root);
  }

  lemma ReadsAt(s: State, i: Input, root: Item)
    requires Inv(s, root) && s.stack != [] && RunsOn(s.Top()) && TopBlock(s).pc < TopBlock(s).limit
    ensures ReadsCode(s, i)
  {
    hide Held;
    TopOnLevel(s, root);
    RootOwns(s.stack);
  }

  /** After its step `i` to `o`, the condition on top of `s` runs the branch that the value in `i` selects. */
  ghost predicate TakesBranch(s: State, i: Input, o: State, rest: seq<Input>)
    requires s.stack != [] && s.Top().Cond?
  {
    var events := Events(o, rest, |s.stack|, |s.blocks|);
    var it, b := s.Top(), TopBlock(s);
    if i.truthy then RunsFrom(events, rest, b.pc, b.limit)
    else if it.hasElse then RunsFrom(events, rest, it.elsePc, it.elseLimit)
    else |o.stack| < |s.stack| && events == []
  }

  /** Straight through a range, with something to read if there is any. */
  ghost predicate RunsFrom(events: seq<Event>, rest: seq<Input>, pc: int, limit: int) {
    && Straight(events, pc, limit)
    && (Forward(events) ==> Within(events, pc, limit))
    && (rest != [] && pc < limit ==> events != [])
  }

  /** From the step that decides a condition until its item is popped, the instructions read at its level are
      those of the selected branch, in order from its first and before its limit; without an else branch, none. */
  lemma CondRuns(s: State, i: Input, rest: seq<Input>, root: Item)
    requires Inv(s, root) && s.stack != [] && s.Top().Cond? && Decides(s) && Process(s, i).Next?
    ensures TakesBranch(s, i, Process(s, i).s, rest)
  {
    hide Process, ReadsCode, Inv, Decides, BlocksOf, Events;
    var o := Process(s, i).s;
    var j, d := |s.stack|, |s.blocks|;
    if s.Top().branch { DecidedHoldsNone(s, root); }
    TopOnLevel(s, root);
    DecisionFlow(s, i);
    StepOwner(s, i, j, d, root);
    if |o.stack| < j {
      Popped(o, rest, j, d);
    } else {
      BranchStarts(o, rest, j, d, root);
    }
  }

  lemma BranchStarts(o: State, rest: seq<Input>, j: nat, d: nat, root: Item)
    requires Inv(o, root) && OnLevel(o, j, d) && |o.stack| == j && |o.blocks| == d && RunsOn(o.Top())
    ensures RunsFrom(Events(o, rest, j, d), rest, TopBlock(o).pc, TopBlock(o).limit)
  {
    hide Process, ReadsCode, Inv, BlocksOf, Events;
    var events, b := Events(o, rest, j, d), TopBlock(o);
    StraightRun(o, rest, j, d, root);
    if Forward(events) { StraightWithin(events, b.pc, b.limit, b.pc); }
    if rest != [] && b.pc < b.limit { StartsAt(o, rest, root); }
  }

  /** From the instruction that opens a condition on: its predicate from the body's first instruction on, and then
      the branch that the value selects. */
  lemma IfRuns(s: State, i: Input, rest: seq<Input>, root: Item)
    requires Inv(s, root) && s.stack != [] && Process(s, i).Next? && |Process(s, i).s.stack| > |s.stack|
    requires i.instr.IfOp?
    ensures var c := i.instr;
            Branches(TopEvents(Process(s, i).s, rest), c.body, c.bodyLimit, c.hasElse, c.elsePc, c.elseLimit)
  {
    hide Process, ReadsCode, Inv, BlocksOf, Events;
    var o := Process(s, i).s;
    StepKeeps(s, i, root);
    StepFlow(s, i);
    TopOnLevel(o, root);
    BranchRun(o, rest, |o.stack|, |o.blocks|, root);
  }

  /** From the instruction that opens a loop on: the predicate from its first instruction, the body up to the
      limit, and the predicate again; nothing outside is read at that level. */
  lemma WhileRuns(s: State, i: Input, rest: seq<Input>, root: Item)
    requires Inv(s, root) && s.stack != [] && Process(s, i).Next? && |Process(s, i).s.stack| > |s.stack|
    requires i.instr.WhileOp?
    ensures var events, start := TopEvents(Process(s, i).s, rest), i.instr.body;
            Repeats(events, start, i.next, start, false) && (Forward(events) ==> Within(events, start, i.next))
  {
    hide Process, ReadsCode, Inv, BlocksOf, Events;
    var o := Process(s, i).s;
    StepKeeps(s, i, root);
    StepFlow(s, i);
    TopOnLevel(o, root);
    RepeatRun(o, rest, |o.stack|, |o.blocks|, root);
    var events := TopEvents(o, rest);
    if Forward(events) { RepeatsWithin(events, i.instr.body, i.next, i.instr.body, false); }
  }

  /** A loop at the limit of its body: the next instruction read at its level is the predicate's first. */
  lemma LoopRuns(s: State, rest: seq<Input>, root: Item)
    requires Inv(s, root) && s.stack != [] && s.Top().Loop? && s.Top().iterating
    requires TopBlock(s).pc == TopBlock(s).limit
    ensures var events := TopEvents(s, rest);
            && (events != [] && !events[0].Decision? ==> events[0].pc == s.Top().predPc)
            && Repeats(events, s.Top().predPc, TopBlock(s).limit, s.Top().predPc, false)
            && (|rest| > 1 && s.Top().predPc < TopBlock(s).limit ==> events != [])
  {
    hide Process, ReadsCode, Inv, BlocksOf, Events;
    TopOnLevel(s, root);
    RepeatRun(s, rest, |s.stack|, |s.blocks|, root);
    if |rest| > 1 && s.Top().predPc < TopBlock(s).limit {
      BackReads(s, rest[0], rest[1], root);
      EventsStep(s, rest, |s.stack|, |s.blocks|);
      EventsStep(Process(s, rest[0]).s, rest[1..], |s.stack|, |s.blocks|);
    }
  }

  lemma BackReads(s: State, i: Input, next: Input, root: Item)
    requires Inv(s, root) && s.stack != [] && s.Top().Loop? && s.Top().iterating
    requires TopBlock(s).pc == TopBlock(s).limit && s.Top().predPc < TopBlock(s).limit
    ensures Process(s, i).Next?
    ensures var o := Process(s, i).s;
            |o.stack| == |s.stack| && |o.blocks| == |s.blocks| && ReadsCode(o, next)
  {
    hide Held;
    TopOnLevel(s, root);
    RootOwns(s.stack);
    DecidedHoldsNone(s, root);
  }

  /** A scope runs straight through its block. */
  lemma ScopeRuns(s: State, i: Input, rest: seq<Input>, root: Item)
    requires Inv(s, root) && s.stack != [] && Process(s, i).Next? && |Process(s, i).s.stack| > |s.stack|
    requires i.instr.ScopeOp?
    ensures RunsFrom(TopEvents(Process(s, i).s, rest), rest, i.instr.nested, i.next)
  {
    hide Process, ReadsCode, Inv, BlocksOf, Events;
    var o := Process(s, i).s;
    StepKeeps(s, i, root);
    StepFlow(s, i);
    TopOnLevel(o, root);
    BranchStarts(o, rest, |o.stack|, |o.blocks|, root);
  }

  /** A called method runs straight through its body, from the first byte to the limit. */
  lemma CallRuns(s: State, i: Input, rest: seq<Input>, root: Item)
    requires Inv(s, root) && s.stack != [] && s.Top().Invoke? && Process(s, i).Next?
    requires |Process(s, i).s.stack| == |s.stack| && Process(s, i).s.Top().Method?
    ensures RunsFrom(TopEvents(Process(s, i).s, rest), rest, 0, i.methodLimit)
  {
    hide Process, ReadsCode, Inv, BlocksOf, Events;
    var o := Process(s, i).s;
    StepKeeps(s, i, root);
    CallOpens(s, i);
    TopOnLevel(o, root);
    BranchStarts(o, rest, |o.stack|, |o.blocks|, root);
  }

  /** With all its arguments there, an invocation is replaced by the AML method; one that the host overrides is done
      at once and runs no code. */
  lemma CallOrOverride(s: State, i: Input)
    requires s.stack != [] && s.Top().Invoke? && |s.ops| == s.Top().frame + s.Top().argc + 1 && Process(s, i).Next?
    ensures var o := Process(s, i).s;
            if i.overridden then |o.stack| == |s.stack| - 1 && o.blocks == s.blocks && o.ctx == s.ctx
            else |o.stack| == |s.stack| && o.Top() == Method(s.Top().want) && o.ctx == s.ctx + [true]
  {
    hide Parse;
  }

  lemma CallOpens(s: State, i: Input)
    requires s.stack != [] && s.Top().Invoke? && Process(s, i).Next?
    requires |Process(s, i).s.stack| == |s.stack| && Process(s, i).s.Top().Method?
    ensures TopBlock(Process(s, i).s) == Block(0, i.methodLimit)
  {
    hide Parse;
    var it := s.Top();
    if |s.ops| - it.frame != it.argc + 1 {
      ParsingStep(Object, s, i, i);
    }
  }

  /** A table or method at the bottom of a run is run straight from its first byte to its limit. */
  lemma RootRuns(idle: State, root: Item, limit: int, inputs: seq<Input>)
    requires AmlRuns.Idle(idle) && root.OwnsContext()
    ensures RunsFrom(TopEvents(AmlRuns.Entered(idle, root, limit), inputs), inputs, 0, limit)
  {
    hide Process, ReadsCode, Inv, BlocksOf, Events;
    var s := AmlRuns.Entered(idle, root, limit);
    AmlRuns.EnteredInv(idle, root, limit);
    TopOnLevel(s, root);
    BranchStarts(s, inputs, |s.stack|, |s.blocks|, root);
  }

  /** In every run: conditions take the branch that their value selects, and the blocks that `If` and `While` open
      are run as a condition and as a loop. */
  lemma ControlInRuns(idle: State, root: Item, limit: int, before: seq<Input>, s: State, i: Input, rest: seq<Input>)
    requires AmlRuns.Idle(idle) && root.OwnsContext()
    requires AmlRuns.Run(AmlRuns.Entered(idle, root, limit), before) == AmlRuns.Running(s)
    ensures s.stack != []
    ensures Process(s, i).Next? && s.Top().Cond? && Decides(s) ==> TakesBranch(s, i, Process(s, i).s, rest)
    ensures Process(s, i).Next? && |Process(s, i).s.stack| > |s.stack| && i.instr.IfOp? ==>
              var c := i.instr;
              Branches(TopEvents(Process(s, i).s, rest), c.body, c.bodyLimit, c.hasElse, c.elsePc, c.elseLimit)
    ensures Process(s, i).Next? && |Process(s, i).s.stack| > |s.stack| && i.instr.WhileOp? ==>
              Repeats(TopEvents(Process(s, i).s, rest), i.instr.body, i.next, i.instr.body, false)
  {
    hide Process, Inv, Decides, TakesBranch, Branches, Repeats, Events;
    AmlRuns.EnteredInv(idle, root, limit);
    AmlRuns.RunKeeps(AmlRuns.Entered(idle, root, limit), before, root);
    if Process(s, i).Next? {
      if s.Top().Cond? && Decides(s) { CondRuns(s, i, rest, root); }
      if |Process(s, i).s.stack| > |s.stack| {
        if i.instr.IfOp? { IfRuns(s, i, rest, root); }
        if i.instr.WhileOp? { WhileRuns(s, i, rest, root); }
      }
    }
  }
}
