/**
 What the code that the AML machine runs leaves on the operand stack.  An item that parses asks for an operand
 in some mode, or for none; the instruction that it reads delivers exactly one operand or none, at once or
 when the items that it opened are done, however long that takes and whatever runs in between.
 */
module AmlValues {
  import opened AmlMachine
  import opened AmlBalance
  import AmlRuns
  import AmlControl

  /** Operands below the item at index `k`: those below its frame; an item that owns a context holds none. */
  function Under(stack: seq<Item>, n: nat, k: nat): nat
    decreases |stack| - k
  {
    if k >= |stack| then n else if stack[k].OwnsContext() then Under(stack, n, k + 1) else stack[k].frame
  }

  function Below(s: State, k: nat): nat { Under(s.stack, |s.ops|, k) }

  /** What an item leaves for the item below when it is done. */
  function Result(it: Item): seq<Tag> { if it.Yields() then [ObjectTag] else [] }

  /** What a step does to the operands: below the top item nothing; if items are popped, the lowest of them
      leaves its result and nothing else. */
  ghost predicate Settles(s: State, o: State)
    requires s.stack != []
  {
    var top := |s.stack| - 1;
    if |o.stack| > top then
      var b := Below(s, top);
      && Below(o, top) == b <= |s.ops| && b <= |o.ops| && o.ops[..b] == s.ops[..b]
      && o.stack[top].Yields() == s.Top().Yields()
    else
      var b := Below(s, |o.stack|);
      b <= |s.ops| && o.ops == s.ops[..b] + Result(s.stack[|o.stack|])
  }

  // ----------------------------------------------------------------------------- operands in the stack

  lemma {:induction false} UnderFront(stack: seq<Item>, n: nat, k: nat)
    requires k < |stack|
    ensures Under(stack, n, k) == Under(stack[..|stack| - 1], Base(stack[|stack| - 1], n), k)
    decreases |stack| - k
  {
    var front := stack[..|stack| - 1];
    if k < |stack| - 1 {
      assert front[k] == stack[k];
      UnderFront(stack, n, k + 1);
    } else {
      assert Under(stack, n, k + 1) == n;
    }
  }

  /** The operands of the items lie above each other. */
  lemma {:induction false} UnderGrows(stack: seq<Item>, ops: seq<Tag>, cap: nat, k: nat)
    requires stack != [] && Held(stack, ops, cap) && k < |stack|
    ensures Under(stack, |ops|, k) <= Under(stack, |ops|, k + 1) <= |ops|
    decreases |stack|
  {
    var top := |stack| - 1;
    var b := Base(stack[top], |ops|);
    assert |ops[..b]| == b;
    assert Under(stack, |ops|, |stack|) == |ops|;
    UnderFront(stack, |ops|, k);
    if k < top {
      UnderFront(stack, |ops|, k + 1);
      UnderGrows(stack[..top], ops[..b], cap, k);
    } else {
      assert Under(stack[..top], b, k) == b;
    }
  }

  lemma {:induction false} UnderMono(stack: seq<Item>, ops: seq<Tag>, cap: nat, j: nat, k: nat)
    requires stack != [] && Held(stack, ops, cap) && j <= k <= |stack|
    ensures Under(stack, |ops|, j) <= Under(stack, |ops|, k) <= |ops|
    decreases k - j
  {
    hide Held;
    if j < k {
      UnderGrows(stack, ops, cap, j);
      UnderMono(stack, ops, cap, j + 1, k);
    } else if k < |stack| {
      UnderGrows(stack, ops, cap, k);
    }
  }

  /** An item on top of one that owns a context leaves nothing. */
  lemma {:induction false} ContextTakesNone(stack: seq<Item>, ops: seq<Tag>, cap: nat, p: nat)
    requires stack != [] && Held(stack, ops, cap) && 0 < p < |stack| && stack[p - 1].OwnsContext()
    ensures !stack[p].Yields()
    decreases |stack|
  {
    var top := |stack| - 1;
    if p < top {
      assert stack[..top][p] == stack[p] && stack[..top][p - 1] == stack[p - 1];
      ContextTakesNone(stack[..top], ops[..Base(stack[top], |ops|)], cap, p);
    }
  }

  /** Conditions and loops without an operand on top lie on each other. */
  lemma {:induction false} SkippableFlat(stack: seq<Item>, ops: seq<Tag>, cap: nat, p: nat)
    requires stack != [] && Held(stack, ops, cap) && p < |stack| && HeldByTop(stack, ops) == 0
    requires forall k :: p <= k < |stack| ==> stack[k].Skippable()
    ensures stack[p].Skippable() && stack[p].frame == |ops|
    decreases |stack|
  {
    var top := |stack| - 1;
    if p < top {
      assert ops[..stack[top].frame] == ops;
      assert stack[..top][p] == stack[p] && stack[..top][top - 1].Skippable();
      SkippableFlat(stack[..top], ops, cap, p);
    }
  }

  // -------------------------------------------------------------------------------- what a parse does

  /** The item is pushed with what it owns. */
  ghost predicate Opens(s: State, m: Mode, o: State, it: Item) { PushesItem(s, m, o) && o.Top() == it }

  /** The operand that an instruction stands for: a value, or a name that is left as it is or resolved. */
  function Meaning(m: Mode, instr: Instr): Tag {
    var names := m.Reference? || m.OptReference?;
    match instr
    case Name(t) =>
      if m.Unresolved? then UnresolvedName else if names then ResolvedName(t.MethodTarget?) else ObjectTag
    case Zero => if names then NullName else ObjectTag
    case ArgOp => if names then ArgName else ObjectTag
    case LocalOp => if names then LocalName else ObjectTag
    case DebugOp => DebugName
    case _ => ObjectTag
  }

  /** One operand is pushed. */
  ghost predicate Gives(s: State, m: Mode, o: State, t: Tag) { PushesOp(s, m, o) && o.ops == s.ops + [t] }

  /** What each instruction does in each mode. */
  ghost predicate Does(m: Mode, i: Input, s: State, o: State) {
    var n, want := |s.ops|, m.WantsResult();
    if m.Immediate() then Gives(s, m, o, ObjectTag)
    else match i.instr
      case Nop | Leaf(_) => OnlyPc(s, o)
      case Zero | Constant | ArgOp | LocalOp | DebugOp =>
        if want then Gives(s, m, o, Meaning(m, i.instr)) else OnlyPc(s, o)
      case Name(t) => NameParsed(m, s, t, o)
      case BufferOp(_) => Opens(s, m, o, Buffer(n, want))
      case PackageOp(variable, _) => Opens(s, m, o, Package(n, variable, 0, 0, 0, want))
      case Operator(shape) => Opens(s, m, o, Op(n, shape, want))
      case NodeOp(shape) => Opens(s, m, o, Node(n, shape))
      case ReturnOp => Opens(s, m, o, Return(n))
      case WhileOp(body) => Opens(s, m, o, Loop(n, false, body))
      case IfOp(_, _, hasElse, elsePc, elseLimit) => Opens(s, m, o, Cond(n, false, hasElse, elsePc, elseLimit))
      case ScopeOp(_, _) => Opens(s, m, o, Populate)
      case BankFieldOp(_) => Opens(s, m, o, BankField(n))
      case ContinueOp | BreakOp => o.stack <= s.stack && o.ops == s.ops
      case Literal | BadOpcode | Truncated => false
  }

  lemma NameDoes(m: Mode, s: State, i: Input, t: Target)
    requires Parseable(s) && !m.Immediate() && ParseName(m, s, i, t).Next?
    ensures NameParsed(m, s, t, ParseName(m, s, i, t).s)
  {
    hide PushName, NameParsed;
    var s3 := CommitPc(ReserveStk(ReserveOp(s, i.oom).s, i.oom).s, i.next).s;
    PushNameEffect(m, s3, t);
    PushNameDoes(m, s3, t);
    NameFrom(m, s, s3, t, PushName(m, s3, t).s);
  }

  /** A method name in a mode that invokes opens an invocation; any other name is an operand if one is wanted. */
  ghost predicate NameParsed(m: Mode, s: State, t: Target, o: State) {
    if t.MethodTarget? && m.Invokes() then Opens(s, m, o, Invoke(|s.ops|, t.argc % 8, m.WantsResult()))
    else if m.WantsResult() then Gives(s, m, o, Meaning(m, Name(t))) else OnlyPc(s, o)
  }

  lemma PushNameDoes(m: Mode, s: State, t: Target)
    requires PushName(m, s, t).Next? && Effect(s, m, PushName(m, s, t))
    ensures NameParsed(m, s, t, PushName(m, s, t).s)
  {
  }

  lemma NameFrom(m: Mode, s: State, s3: State, t: Target, o: State)
    requires s3.stack == s.stack && s3.ops == s.ops && s3.ctx == s.ctx && |s3.blocks| == |s.blocks|
    requires NameParsed(m, s3, t, o)
    ensures NameParsed(m, s, t, o)
  {
  }

  lemma ConstantDoes(m: Mode, s: State, i: Input)
    requires Parseable(s) && !m.Immediate() && ParseConstant(m, s, i).Next?
    requires i.instr.Zero? || i.instr.Constant? || i.instr.ArgOp? || i.instr.LocalOp? || i.instr.DebugOp?
    ensures var o := ParseConstant(m, s, i).s;
            if m.WantsResult() then Gives(s, m, o, Meaning(m, i.instr)) else OnlyPc(s, o)
  {
    hide PushConstant;
    ConstantEffect(m, s, i);
    var s2 := CommitPc(ReserveOp(s, i.oom).s, i.next).s;
    PushConstantGives(m, s2, i.instr);
  }

  lemma PushConstantGives(m: Mode, s: State, instr: Instr)
    requires PushConstant(m, s, instr).Next? && !m.Immediate()
    requires instr.Zero? || instr.Constant? || instr.ArgOp? || instr.LocalOp? || instr.DebugOp?
    ensures PushConstant(m, s, instr).s.ops == if m.WantsResult() then s.ops + [Meaning(m, instr)] else s.ops
    ensures PushConstant(m, s, instr).s.stack == s.stack
  {
  }

  lemma ItemDoes(m: Mode, s: State, i: Input, it: Item)
    requires Parseable(s) && !it.OwnsBlock() && it.frame == |s.ops| && FreshItem(it, [])
    requires it.Yields() ==> m.WantsResult()
    requires ParseItem(s, i, it).Next?
    ensures Opens(s, m, ParseItem(s, i, it).s, it)
  {
    ParseItemEffect(m, s, i, it);
  }

  lemma BlockDoes(m: Mode, s: State, i: Input, b: Block, it: Item)
    requires Parseable(s) && it.OwnsBlock() && !it.OwnsContext() && it.frame == |s.ops| && FreshItem(it, [])
    requires it.Yields() ==> m.WantsResult()
    requires OpenBlock(s, i, b, it).Next?
    ensures Opens(s, m, OpenBlock(s, i, b, it).s, it)
  {
    hide OpenBlock;
    OpenBlockEffect(m, s, i, b, it);
    OpenBlockShape(s, i, b, it);
  }

  lemma PackageDoes(m: Mode, s: State, i: Input, variable: bool, data: int)
    requires Parseable(s) && ParsePackage(m, s, i, variable, data).Next?
    ensures Opens(s, m, ParsePackage(m, s, i, variable, data).s, Package(|s.ops|, variable, 0, 0, 0, m.WantsResult()))
  {
    hide ParsePackage;
    PackageOpEffect(m, s, i, variable, data);
    PackageOpShape(m, s, i, variable, data);
  }

  lemma ScopeDoes(m: Mode, s: State, i: Input, nested: int, resolved: bool)
    requires Parseable(s) && ParseScope(s, i, nested, resolved).Next?
    ensures Opens(s, m, ParseScope(s, i, nested, resolved).s, Populate)
  {
    hide ParseScope;
    ScopeEffect(m, s, i, nested, resolved);
    ScopeShape(s, i, nested, resolved);
  }

  lemma BankFieldDoes(m: Mode, s: State, i: Input, start: int)
    requires Parseable(s) && ParseBankField(s, i, start).Next?
    ensures Opens(s, m, ParseBankField(s, i, start).s, BankField(|s.ops|))
  {
    hide ParseBankField;
    BankFieldOpEffect(m, s, i, start);
    BankFieldShape(s, i, start);
  }

  lemma CommitDoes(s: State, pc: int)
    requires CommitPc(s, pc).Next?
    ensures OnlyPc(s, CommitPc(s, pc).s)
  {
  }

  lemma {:induction false} UnwindDoes(s: State, keep: nat)
    requires Unwind(s, keep).Next?
    ensures Unwind(s, keep).s.stack <= s.stack && Unwind(s, keep).s.ops == s.ops
    decreases |s.stack|
  {
    if |s.stack| > keep && s.Top().Skippable() && s.blocks != [] {
      UnwindDoes(s.(blocks := s.blocks[..|s.blocks| - 1], stack := s.stack[..|s.stack| - 1]), keep);
    }
  }

  lemma LeaveDoes(s: State)
    ensures ParseContinue(s).Next? ==> ParseContinue(s).s.stack <= s.stack && ParseContinue(s).s.ops == s.ops
    ensures ParseBreak(s).Next? ==> ParseBreak(s).s.stack <= s.stack && ParseBreak(s).s.ops == s.ops
  {
    hide Unwind, Enclosing;
    var n := Enclosing(s.stack, false);
    if n >= 0 && Unwind(s, n).Next? {
      UnwindDoes(s, n);
    }
  }

  lemma OpcodeDoes(m: Mode, s: State, i: Input)
    requires Parseable(s) && !m.Immediate() && ParseOpcode(m, s, i).Next?
    ensures Does(m, i, s, ParseOpcode(m, s, i).s)
  {
    hide ParseName, ParseConstant, OpenBlock, ParsePackage, ParseScope, ParseBankField, ParseContinue, ParseBreak,
         ParseItem, CommitPc, Opens, Gives, OnlyPc, Parseable;
    match i.instr
    case Name(t) => NameDoes(m, s, i, t);
    case Zero | Constant | ArgOp | LocalOp | DebugOp => ConstantDoes(m, s, i);
    case BufferOp(data) => BlockDoes(m, s, i, Block(data, i.next), Buffer(|s.ops|, m.WantsResult()));
    case PackageOp(variable, data) => PackageDoes(m, s, i, variable, data);
    case WhileOp(body) => BlockDoes(m, s, i, Block(body, i.next), Loop(|s.ops|, false, body));
    case IfOp(body, bodyLimit, hasElse, elsePc, elseLimit) =>
      BlockDoes(m, s, i, Block(body, bodyLimit), Cond(|s.ops|, false, hasElse, elsePc, elseLimit));
    case ScopeOp(nested, resolved) => ScopeDoes(m, s, i, nested, resolved);
    case BankFieldOp(start) => BankFieldDoes(m, s, i, start);
    case ContinueOp => LeaveDoes(s);
    case BreakOp => LeaveDoes(s);
    case ReturnOp => ItemDoes(m, s, i, Return(|s.ops|));
    case NodeOp(shape) => ItemDoes(m, s, i, Node(|s.ops|, shape));
    case Operator(shape) => ItemDoes(m, s, i, Op(|s.ops|, shape, m.WantsResult()));
    case Nop | Leaf(_) => CommitDoes(s, i.next);
    case Literal | BadOpcode | Truncated =>
  }

  lemma ParseDoes(m: Mode, s: State, i: Input)
    requires Parseable(s) && Parse(m, s, i).Next?
    ensures Does(m, i, s, Parse(m, s, i).s)
  {
    hide ParseOpcode, Gives, OnlyPc, Opens;
    if m.Immediate() {
      ImmediateDoes(m, s, i);
    } else {
      OpcodeDoes(m, s, i);
    }
  }

  lemma ImmediateDoes(m: Mode, s: State, i: Input)
    requires Parseable(s) && m.Immediate() && Parse(m, s, i).Next?
    ensures Gives(s, m, Parse(m, s, i).s, ObjectTag)
  {
    ImmediateEffect(m, s, i);
  }

  // ------------------------------------------------------------------------ operands after one step

  lemma TopUnder(s: State)
    requires s.stack != []
    ensures Below(s, |s.stack| - 1) == Base(s.Top(), |s.ops|)
  {
    assert Under(s.stack, |s.ops|, |s.stack|) == |s.ops|;
  }

  lemma ParseSettles(m: Mode, s: State, i: Input, root: Item)
    requires Inv(s, root) && Ready(s, m) && Parse(m, s, i).Next?
    ensures Does(m, i, s, Parse(m, s, i).s) && Settles(s, Parse(m, s, i).s)
  {
    RootOwns(s.stack);
    hide Parse, Does, Settles, ContextsOf, BlocksOf;
    ParseDoes(m, s, i);
    if !m.Immediate() && (i.instr.BreakOp? || i.instr.ContinueOp?) {
      LeaveSettles(m, s, i, root);
    } else {
      DoesSettles(m, i, s, Parse(m, s, i).s);
    }
  }

  /** Pushing leaves the operands below the top item alone. */
  lemma DoesSettles(m: Mode, i: Input, s: State, o: State)
    requires s.stack != [] && Ready(s, m) && Does(m, i, s, o)
    requires m.Immediate() || !(i.instr.BreakOp? || i.instr.ContinueOp?)
    ensures Settles(s, o)
  {
    assert OnlyPc(s, o) || PushesOp(s, m, o) || PushesItem(s, m, o) by {
      hide OnlyPc, PushesOp, PushesItem;
    }
    hide Does;
    var top := |s.stack| - 1;
    TopUnder(s);
    assert Under(o.stack, |o.ops|, |o.stack|) == |o.ops|;
    if PushesItem(s, m, o) {
      assert Below(o, top + 1) == |s.ops|;
    }
  }

  /** Break and Continue pop conditions and loops that hold no operand. */
  lemma LeaveSettles(m: Mode, s: State, i: Input, root: Item)
    requires Inv(s, root) && Ready(s, m) && !m.Immediate() && (i.instr.BreakOp? || i.instr.ContinueOp?)
    requires Parse(m, s, i).Next?
    ensures Settles(s, Parse(m, s, i).s)
  {
    hide Unwind, Enclosing, Inv, Held, MayPush;
    var n := Enclosing(s.stack, false);
    var o := Parse(m, s, i).s;
    LeaveLength(s, i, n);
    SkippableHoldsNone(s, m.WantsResult(), root);
    TopUnder(s);
    var p := if |o.stack| < |s.stack| then |o.stack| else |s.stack| - 1;
    HeldOf(s, root);
    SkippableFlat(s.stack, s.ops, s.stkCap, p);
    assert s.ops[..|s.ops|] == s.ops;
  }

  lemma HeldOf(s: State, root: Item)
    requires Inv(s, root) && s.stack != []
    ensures Held(s.stack, s.ops, s.stkCap)
  {
  }

  lemma LeaveLength(s: State, i: Input, n: int)
    requires s.stack != [] && n == Enclosing(s.stack, false) && (i.instr.BreakOp? || i.instr.ContinueOp?)
    requires (if i.instr.BreakOp? then ParseBreak(s) else ParseContinue(s)).Next?
    ensures n > 0 && s.Top().Skippable()
    ensures var o := (if i.instr.BreakOp? then ParseBreak(s) else ParseContinue(s)).s;
            && o.stack == s.stack[..if i.instr.BreakOp? then n - 1 else n] && o.ops == s.ops
            && forall k :: n - 1 <= k < |s.stack| ==> s.stack[k].Skippable()
  {
    hide Unwind, Enclosing;
    UnwindLength(s, n);
    UnwindDoes(s, n);
  }

  lemma {:induction false} UnwindLength(s: State, keep: nat)
    requires Unwind(s, keep).Next? && keep <= |s.stack|
    ensures Unwind(s, keep).s.stack == s.stack[..keep]
    decreases |s.stack|
  {
    if |s.stack| > keep {
      var s1 := s.(blocks := s.blocks[..|s.blocks| - 1], stack := s.stack[..|s.stack| - 1]);
      UnwindLength(s1, keep);
      assert s1.stack[..keep] == s.stack[..keep];
    }
  }

  datatype Request = Nothing | Operand(mode: Mode)

  /** The mode in which the top item parses next, if it does. */
  function Asks(s: State): Request
    requires s.stack != []
  {
    var it, b := s.Top(), AmlControl.TopBlock(s);
    var k := if it.OwnsContext() then 0 else |s.ops| - it.frame;
    match it
    case Populate | Method(_) => if b.pc == b.limit then Nothing else Operand(Exec)
    case Loop(_, iterating, _) =>
      if !iterating then (if k == 1 then Nothing else Operand(Object))
      else if b.pc == b.limit then Nothing else Operand(Exec)
    case Cond(_, branch, _, _, _) =>
      if !branch then (if k == 1 then Nothing else Operand(Object))
      else if b.pc == b.limit then Nothing else Operand(Exec)
    case Buffer(_, _) | Return(_) => if k == 1 then Nothing else Operand(Object)
    case BankField(_) => if k == 3 then Nothing else Operand(Object)
    case Invoke(_, argc, _) => if k == argc + 1 then Nothing else Operand(Object)
    case Node(_, shape) => if 0 <= k < |shape.Modes()| then Operand(shape.Modes()[k]) else Nothing
    case Op(_, shape, _) => if 0 <= k < |shape.Modes()| then Operand(shape.Modes()[k]) else Nothing
    case Package(_, variable, _, _, phase, _) =>
      if phase == 0 then Operand(if variable then Object else ImmByte)
      else if phase == 1 || b.pc == b.limit then Nothing else Operand(Data)
  }

  /** A package first stores the element that it holds. */
  function Settled(s: State): State
    requires s.stack != []
  {
    var it := s.Top();
    if !it.Package? then s
    else if it.phase == 0 then SetTop(s, it.(phase := 1))
    else if it.phase > 1 && |s.ops| == it.frame + 2 then
      SetTop(s, it.(index := it.index + 1)).(ops := s.ops[..it.frame + 1])
    else s
  }

  /** The next step of the top item parses in the mode that it asks for. */
  ghost predicate Parses(s: State, i: Input, o: State, root: Item)
    requires s.stack != [] && Asks(s).Operand?
  {
    var m, t, top := Asks(s).mode, Settled(s), |s.stack| - 1;
    && Inv(t, root) && Ready(t, m)
    && Parse(m, t, Seen(s, i)).Next?
    && var p := Parse(m, t, Seen(s, i)).s;
       && o.ops == p.ops && |o.stack| == |p.stack| && o.blocks == p.blocks
       && (forall k :: 0 <= k < |o.stack| && k != top ==> o.stack[k] == p.stack[k])
       && (o.stack == p.stack || (s.Top().Package? && |o.stack| > top && o.stack[top] == s.Top()))
  }

  lemma AskedReady(s: State, root: Item)
    requires Inv(s, root) && s.stack != [] && Asks(s).Operand? && !s.Top().Package?
    ensures Ready(s, Asks(s).mode)
  {
    hide ContextsOf, BlocksOf;
    if !s.Top().OwnsContext() {
      TopFrame(s, root);
    }
  }

  /** What the parse sees of the input: a node item ignores the error code of its reduction. */
  function Seen(s: State, i: Input): Input
    requires s.stack != []
  {
    if s.Top().Node? then i.(reduceOk := true) else i
  }

  lemma PlainParses(s: State, i: Input)
    requires s.stack != [] && Asks(s).Operand? && !s.Top().Package? && Process(s, i).Next?
    ensures Process(s, i) == Parse(Asks(s).mode, s, Seen(s, i))
  {
    hide Parse, Finish;
  }

  lemma Package0Ready(s: State, root: Item)
    requires Inv(s, root) && s.stack != [] && s.Top().Package? && s.Top().phase == 0
    ensures Inv(Settled(s), root) && Ready(Settled(s), Asks(s).mode)
  {
    TopFrame(s, root);
    hide Inv, MayPush;
    var adv := s.Top().(phase := 1);
    SetTopKeeps(s, adv, s.ops, root);
    assert SetTop(s, adv) == SetTop(s, adv).(ops := s.ops);
    PackageMayPush(s, root);
  }

  lemma PackageMayPush(s: State, root: Item)
    requires Inv(s, root) && s.stack != [] && s.Top().Package? && s.Top().phase == 0
    ensures MayPush(s.Top().(phase := 1), |s.ops| - s.Top().frame, |s.stack| < s.stkCap, true)
  {
    TopFrame(s, root);
    hide Inv;
  }

  lemma Package0Parses(s: State, i: Input, root: Item)
    requires Inv(s, root) && s.stack != [] && s.Top().Package? && s.Top().phase == 0 && Process(s, i).Next?
    ensures Parses(s, i, Process(s, i).s, root)
  {
    Package0Ready(s, root);
    hide Parse, Inv, Ready;
  }

  lemma Package2Ready(s: State, i: Input, root: Item)
    requires Inv(s, root) && s.stack != [] && s.Top().Package? && s.Top().phase > 1
    requires Process(s, i).Next? && Asks(s).Operand?
    ensures Inv(Settled(s), root) && Ready(Settled(s), Data)
    ensures Process(s, i) == Parse(Data, Settled(s), i)
  {
    hide Parse, Finish;
    var it := s.Top();
    if |s.ops| == it.frame + 2 {
      StoreKeeps(s, root);
      assert s.ops[..|s.ops| - 1] == s.ops[..it.frame + 1];
      assert StorePackage(s, it).s == Settled(s);
    }
  }

  lemma StepParses(s: State, i: Input, root: Item)
    requires Inv(s, root) && s.stack != [] && Asks(s).Operand? && Process(s, i).Next?
    ensures Parses(s, i, Process(s, i).s, root)
  {
    hide Process, Parse, Inv, Ready;
    if !s.Top().Package? {
      AskedReady(s, root);
      PlainParses(s, i);
    } else if s.Top().phase == 0 {
      Package0Parses(s, i, root);
    } else {
      Package2Ready(s, i, root);
    }
  }

  lemma PackageSettles(s: State, o: State, p: State)
    requires s.stack != [] && s.Top().Package? && s.Top().frame < |s.ops| && |o.stack| == |p.stack| >= |s.stack|
    requires Settles(Settled(s), p) && o.ops == p.ops && (o.stack == p.stack || o.stack[|s.stack| - 1] == s.Top())
    requires p.stack[|s.stack| - 1] == Settled(s).Top()
    ensures Settles(s, o)
  {
    TopUnder(s);
    TopUnder(Settled(s));
    var b := s.Top().frame;
    assert o.ops[..b] == Settled(s).ops[..b] == s.ops[..b];
  }

  /** A step that parses does what its instruction does in the mode that the top item asks for. */
  lemma StepDoes(s: State, i: Input, root: Item)
    requires Inv(s, root) && s.stack != [] && Asks(s).Operand? && Process(s, i).Next?
    ensures var m, t, o := Asks(s).mode, Settled(s), Process(s, i).s;
            && Settles(s, o)
            && (exists p: State :: Does(m, Seen(s, i), t, p) && o.ops == p.ops && |o.stack| == |p.stack|
                  && (forall k :: 0 <= k < |o.stack| && k != |s.stack| - 1 ==> o.stack[k] == p.stack[k]))
  {
    hide Process, Parse, Inv, Ready, Does, Settles;
    StepParses(s, i, root);
    var p := Parse(Asks(s).mode, Settled(s), Seen(s, i)).s;
    ParseSettles(Asks(s).mode, Settled(s), Seen(s, i), root);
    var o := Process(s, i).s;
    if s.Top().Package? {
      TopFrame(s, root);
      PackageStays(Asks(s).mode, Settled(s), Seen(s, i));
      PackageSettles(s, o, p);
    } else {
      SameSettles(s, o, p);
    }
  }

  lemma PackageStays(m: Mode, s: State, i: Input)
    requires s.stack != [] && s.Top().Package? && Parse(m, s, i).Next? && Does(m, i, s, Parse(m, s, i).s)
    ensures var p := Parse(m, s, i).s; |p.stack| >= |s.stack| && p.stack[|s.stack| - 1] == s.Top()
  {
    if !m.Immediate() && (i.instr.BreakOp? || i.instr.ContinueOp?) {
      LeaveLoopStops(m, s, i);
    } else {
      hide Parse;
    }
  }

  lemma SameSettles(s: State, o: State, p: State)
    requires s.stack != [] && Settles(s, p) && o.ops == p.ops && o.stack == p.stack
    ensures Settles(s, o)
  {
  }

  // ------------------------------------------------------------------------- items that are done

  lemma FinishSettles(s: State, mid: State, ownsBlock: bool, ownsCtx: bool)
    requires s.stack != [] && mid.stack == s.stack && Base(s.Top(), |s.ops|) <= |s.ops|
    requires mid.ops == s.ops[..Base(s.Top(), |s.ops|)] + Result(s.Top()) && Finish(mid, ownsBlock, ownsCtx).Next?
    ensures Settles(s, Finish(mid, ownsBlock, ownsCtx).s)
  {
    TopUnder(s);
  }

  lemma MethodReduces(s: State, i: Input, root: Item)
    requires Inv(s, root) && s.stack != [] && s.Top().OwnsContext() && Asks(s).Nothing? && Process(s, i).Next?
    ensures Settles(s, Process(s, i).s)
  {
    hide Inv, Parse, Finish, Settles;
    assert s.ops[..|s.ops|] == s.ops;
    if s.Top().Populate? {
      FinishSettles(s, s, true, true);
    } else {
      var s1 := ReserveOp(s, i.oom).s;
      FinishSettles(s, Yield(s1, s.Top().want).s, true, true);
    }
  }

  lemma BufferReduces(s: State, i: Input, root: Item)
    requires Inv(s, root) && s.stack != [] && s.Top().Buffer? && Asks(s).Nothing? && Process(s, i).Next?
    ensures Settles(s, Process(s, i).s)
  {
    TopFrame(s, root);
    hide Inv, Parse, Finish, Settles;
    var s1 := PopOps(s, 1).s;
    FinishSettles(s, Yield(s1, s.Top().want).s, true, false);
  }

  lemma BankFieldReduces(s: State, i: Input, root: Item)
    requires Inv(s, root) && s.stack != [] && s.Top().BankField? && Asks(s).Nothing? && Process(s, i).Next?
    ensures Settles(s, Process(s, i).s)
  {
    TopFrame(s, root);
    hide Inv, Parse, Finish, Settles;
    FinishSettles(s, PopOps(s, 3).s, true, false);
  }

  lemma OperatorReduces(s: State, i: Input, root: Item)
    requires Inv(s, root) && s.stack != [] && (s.Top().Op? || s.Top().Node?) && Asks(s).Nothing? && Process(s, i).Next?
    ensures Settles(s, Process(s, i).s)
  {
    TopFrame(s, root);
    hide Inv, Parse, Finish, Settles;
    var it := s.Top();
    var s1 := if it.Op? then ReserveOp(s, i.oom).s else s;
    var s2 := PopOps(s1, |s.ops| - it.frame).s;
    FinishSettles(s, Yield(s2, it.Yields()).s, false, false);
  }

  lemma PackageReduces(s: State, i: Input, root: Item)
    requires Inv(s, root) && s.stack != [] && s.Top().Package? && Asks(s).Nothing? && Process(s, i).Next?
    ensures Settles(s, Process(s, i).s)
  {
    TopFrame(s, root);
    hide Inv, Parse, Settles;
    var it := s.Top();
    if it.phase == 1 {
      SizeSettles(s, i);
    } else {
      ElementsSettle(s, i, root);
    }
  }

  lemma SizeSettles(s: State, i: Input)
    requires s.stack != [] && s.Top().Package? && s.Top().phase == 1 && Process(s, i).Next?
    ensures Settles(s, Process(s, i).s)
  {
    TopUnder(s);
    TopUnder(Process(s, i).s);
  }

  lemma ElementsSettle(s: State, i: Input, root: Item)
    requires Inv(s, root) && s.stack != [] && s.Top().Package? && s.Top().phase > 1 && Asks(s).Nothing?
    requires Process(s, i).Next?
    ensures Settles(s, Process(s, i).s)
  {
    TopFrame(s, root);
    TagOfOperand(s, 0, root);
    hide Inv, Parse, Typed;
    var it := s.Top();
    ElementsEnd(s, i);
    assert s.ops[..it.frame + 1] == s.ops[..it.frame] + [ObjectTag];
    TopUnder(s);
  }

  lemma ElementsEnd(s: State, i: Input)
    requires s.stack != [] && s.Top().Package? && s.Top().phase > 1 && Asks(s).Nothing? && Process(s, i).Next?
    ensures var it, o := s.Top(), Process(s, i).s;
            && |o.stack| == |s.stack| - 1 && it.frame < |s.ops|
            && o.ops == s.ops[..if it.want then it.frame + 1 else it.frame]
  {
    hide Parse;
  }

  lemma InvokeReduces(s: State, i: Input, root: Item)
    requires Inv(s, root) && s.stack != [] && s.Top().Invoke? && Asks(s).Nothing? && Process(s, i).Next?
    ensures Settles(s, Process(s, i).s)
  {
    TopFrame(s, root);
    hide Inv, Parse, CallMethod, Settles, Typed;
    var s2 := ReserveBlk(ReserveCtx(s, i.oom).s, i.oom).s;
    CallSettles(s, s2, i);
  }

  lemma CallSettles(s: State, s2: State, i: Input)
    requires |s.stack| > 1 && s.Top().Invoke? && |s.ops| == s.Top().frame + s.Top().argc + 1
    requires s2.stack == s.stack && s2.ops == s.ops && CallMethod(s2, i, s.Top().argc, s.Top().want).Next?
    ensures Settles(s, CallMethod(s2, i, s.Top().argc, s.Top().want).s)
  {
    TopUnder(s);
    TopUnder(CallMethod(s2, i, s.Top().argc, s.Top().want).s);
  }

  /** The value of a predicate is dropped; at the end of a branch or body there is none. */
  lemma DecisionSettles(s: State, i: Input, root: Item)
    requires Inv(s, root) && s.stack != [] && s.Top().Skippable() && Asks(s).Nothing? && Process(s, i).Next?
    ensures Settles(s, Process(s, i).s)
  {
    TopFrame(s, root);
    hide Inv, Process, Settles, Typed;
    DecisionEnds(s, i);
    if !AmlControl.Decides(s) {
      assert s.ops[..s.Top().frame] == s.ops;
    }
    DecidedSettles(s, Process(s, i).s);
  }

  lemma DecidedSettles(s: State, o: State)
    requires |s.stack| > 1 && s.Top().Skippable() && s.Top().frame <= |s.ops| && o.ops == s.ops[..s.Top().frame]
    requires |o.stack| == |s.stack| - 1 || (|o.stack| == |s.stack| && o.Top().Skippable()
                                            && o.Top().frame == s.Top().frame)
    ensures Settles(s, o)
  {
    TopUnder(s);
    TopUnder(o);
  }

  lemma DecisionEnds(s: State, i: Input)
    requires s.stack != [] && s.Top().Skippable() && Asks(s).Nothing? && Process(s, i).Next?
    requires |s.ops| <= s.Top().frame + MaxOps(s.Top(), false)
    ensures var it, o := s.Top(), Process(s, i).s;
            && o.ops == s.ops[..if AmlControl.Decides(s) then it.frame else |s.ops|]
            && (|o.stack| == |s.stack| - 1
                || (|o.stack| == |s.stack| && o.Top().Skippable() && o.Top().frame == it.frame))
  {
    hide Parse;
  }

  /** A return drops its method with everything above it and leaves the result that the method owes. */
  lemma ReturnSettles(s: State, i: Input, root: Item)
    requires Inv(s, root) && s.stack != [] && s.Top().Return? && Asks(s).Nothing? && Process(s, i).Next?
    ensures Settles(s, Process(s, i).s)
  {
    hide Inv, Parse, Unwind, Enclosing, Settles, Process, Held;
    ReturnBelow(s, root);
    var t := s.(stack := s.stack[..|s.stack| - 1], ops := s.ops[..|s.ops| - 1]);
    var n := Enclosing(t.stack, true);
    ReturnLength(s, i, n);
    var o := Process(s, i).s;
    assert t.stack[n - 1] == s.stack[n - 1];
    if n < |t.stack| {
      assert t.Top().Skippable();
      HeldOf(t, root);
      SkippableFlat(t.stack, t.ops, t.stkCap, n);
      assert t.stack[n] == s.stack[n];
    }
    assert Below(s, n - 1) == Below(s, n) == s.Top().frame;
    ReturnResult(s, o, n);
  }

  lemma ReturnResult(s: State, o: State, n: nat)
    requires 0 < n < |s.stack| && s.Top().Return? && |s.ops| == s.Top().frame + 1 && Below(s, n - 1) == s.Top().frame
    requires o.stack == s.stack[..n - 1] && o.ops == s.ops[..|s.ops| - 1] + Result(s.stack[n - 1])
    ensures Settles(s, o)
  {
  }

  lemma ReturnLength(s: State, i: Input, n: int)
    requires s.stack != [] && s.Top().Return? && Asks(s).Nothing? && Process(s, i).Next?
    requires n == Enclosing(s.stack[..|s.stack| - 1], true)
    ensures n > 0 && s.stack[n - 1].Method? && |s.ops| == s.Top().frame + 1
    ensures var o := Process(s, i).s;
            o.stack == s.stack[..n - 1] && o.ops == s.ops[..|s.ops| - 1] + Result(s.stack[n - 1])
  {
    hide Parse, Unwind, Enclosing;
    var s2 := Yield(PopOps(s, 1).s, s.stack[n - 1].want).s;
    var s3 := PopItem(s2).s;
    UnwindLength(s3, n);
    UnwindDoes(s3, n);
  }

  /** Every step of every item. */
  lemma StepSettles(s: State, i: Input, root: Item)
    requires Inv(s, root) && s.stack != [] && Process(s, i).Next?
    ensures Settles(s, Process(s, i).s)
  {
    hide Process, Settles, Inv, Asks;
    if Asks(s).Operand? {
      StepDoes(s, i, root);
    } else {
      match s.Top()
      case Populate | Method(_) => MethodReduces(s, i, root);
      case Buffer(_, _) => BufferReduces(s, i, root);
      case BankField(_) => BankFieldReduces(s, i, root);
      case Package(_, _, _, _, _, _) => PackageReduces(s, i, root);
      case Node(_, _) | Op(_, _, _) => OperatorReduces(s, i, root);
      case Invoke(_, _, _) => InvokeReduces(s, i, root);
      case Return(_) => ReturnSettles(s, i, root);
      case Loop(_, _, _) | Cond(_, _, _, _, _) => DecisionSettles(s, i, root);
    }
  }

  // ------------------------------------------------------------------------------------ whole runs

  /** The first state of a run with at most `j` items. */
  function Back(s: State, inputs: seq<Input>, j: nat): AmlRuns.Result
    decreases |inputs|
  {
    if |s.stack| <= j then AmlRuns.Done(s)
    else if inputs == [] then AmlRuns.Running(s)
    else match Process(s, inputs[0])
      case Next(o) => Back(o, inputs[1..], j)
      case Failed => AmlRuns.Failure
      case Stopped(why) => AmlRuns.Panic(why)
  }

  /** The item at index `j` is on top of the operands `below`, and owes a result or none. */
  ghost predicate Owes(s: State, j: nat, below: seq<Tag>, result: seq<Tag>) {
    |s.stack| > j && Below(s, j) == |below| && below <= s.ops && Result(s.stack[j]) == result
  }

  lemma {:induction false} UnderSame(stack: seq<Item>, n: nat, stack': seq<Item>, n': nat, k: nat, m: nat)
    requires k <= m <= |stack| && m <= |stack'| && stack[..m] == stack'[..m]
    requires Under(stack, n, m) == Under(stack', n', m)
    ensures Under(stack, n, k) == Under(stack', n', k)
    decreases m - k
  {
    if k < m {
      assert stack[k] == stack[..m][k] == stack'[..m][k] == stack'[k];
      UnderSame(stack, n, stack', n', k + 1, m);
    }
  }

  /** A step that keeps the item keeps what it owes. */
  lemma OwesOn(s: State, i: Input, j: nat, below: seq<Tag>, result: seq<Tag>, root: Item)
    requires Inv(s, root) && s.stack != [] && Process(s, i).Next? && Owes(s, j, below, result)
    requires |Process(s, i).s.stack| > j
    ensures Owes(Process(s, i).s, j, below, result)
  {
    hide Process, Inv;
    StepSettles(s, i, root);
    AmlControl.StepFlow(s, i);
    HeldOf(s, root);
    hide Held;
    var o, top := Process(s, i).s, |s.stack| - 1;
    if |o.stack| > top {
      assert o.stack[..top] == s.stack[..top];
      UnderSame(s.stack, |s.ops|, o.stack, |o.ops|, j, top);
      UnderMono(s.stack, s.ops, s.stkCap, j, top);
      PrefixOf(below, s.ops, o.ops, Below(s, top));
    } else {
      var p := |o.stack|;
      assert o.stack[..p] == s.stack[..p];
      UnderMono(s.stack, s.ops, s.stkCap, j, p);
      PoppedUnder(s, o, j, p, root);
      PrefixOf(below, s.ops, o.ops, Below(s, p));
    }
  }

  lemma PrefixOf(below: seq<Tag>, ops: seq<Tag>, ops': seq<Tag>, b: nat)
    requires below <= ops && |below| <= b <= |ops| && b <= |ops'| && ops[..b] == ops'[..b]
    ensures below <= ops'
  {
    assert below == ops[..b][..|below|] == ops'[..b][..|below|];
  }

  /** After popping, what lies below a remaining item is as it was: only an item above a context that leaves a
      result could change it, and there is none. */
  lemma PoppedUnder(s: State, o: State, j: nat, p: nat, root: Item)
    requires Inv(s, root) && j < p == |o.stack| < |s.stack| && o.stack == s.stack[..p]
    requires Below(s, p) <= |s.ops| && o.ops == s.ops[..Below(s, p)] + Result(s.stack[p])
    ensures Below(o, j) == Below(s, j)
  {
    HeldOf(s, root);
    hide Inv, Held;
    assert Under(o.stack, |o.ops|, p) == |o.ops|;
    if s.stack[p - 1].OwnsContext() {
      ContextTakesNone(s.stack, s.ops, s.stkCap, p);
      UnderSame(s.stack, |s.ops|, o.stack, |o.ops|, j, p);
    } else {
      assert o.stack[p - 1] == s.stack[p - 1];
      UnderSame(s.stack, |s.ops|, o.stack, |o.ops|, j, p - 1);
    }
  }

  /** When the items from index `j` on are gone, the one at `j` has left what it owed. */
  lemma {:induction false} OwedIsPaid(s: State, inputs: seq<Input>, j: nat, below: seq<Tag>, result: seq<Tag>,
                                      root: Item)
    requires Inv(s, root) && Owes(s, j, below, result)
    ensures var back := Back(s, inputs, j);
            back.Done? && |back.s.stack| == j ==> back.s.ops == below + result
    decreases |inputs|
  {
    hide Process, Inv;
    if inputs != [] && Process(s, inputs[0]).Next? {
      var o := Process(s, inputs[0]).s;
      StepKeeps(s, inputs[0], root);
      if |o.stack| > j {
        OwesOn(s, inputs[0], j, below, result, root);
        OwedIsPaid(o, inputs[1..], j, below, result, root);
      } else {
        StepSettles(s, inputs[0], root);
        assert Back(o, inputs[1..], j) == AmlRuns.Done(o);
      }
    }
  }

  /** The instruction is one that has a value. */
  predicate HasValue(instr: Instr) {
    match instr
    case Name(_) | Zero | Constant | ArgOp | LocalOp | DebugOp | BufferOp(_) | PackageOp(_, _) | Operator(_) => true
    case _ => false
  }

  /** What the instruction delivers to an item that asks for an operand in the given mode. */
  function Delivered(m: Mode, instr: Instr): seq<Tag> {
    if m.Immediate() then [ObjectTag] else if m != Exec && HasValue(instr) then [Meaning(m, instr)] else []
  }

  /** An instruction delivers exactly one operand, allowed in the mode that was asked for, or none: when the run is
      back at the item that read it, that is all that the operand stack has gained. */
  lemma ValueRuns(s: State, i: Input, rest: seq<Input>, root: Item)
    requires Inv(s, root) && s.stack != [] && Asks(s).Operand? && Process(s, i).Next?
    ensures var m, before, back := Asks(s).mode, Settled(s).ops, Back(Process(s, i).s, rest, |s.stack|);
            back.Done? && |back.s.stack| == |s.stack| ==>
              && back.s.ops == before + Delivered(m, i.instr)
              && forall k :: |before| <= k < |back.s.ops| ==> TagOk(m, back.s.ops[k])
  {
    hide Process, Inv, Asks, Settled, Settles;
    var m, t, o := Asks(s).mode, Settled(s), Process(s, i).s;
    StepDoes(s, i, root);
    StepKeeps(s, i, root);
    SettledLength(s);
    var p :| Does(m, Seen(s, i), t, p) && o.ops == p.ops && |o.stack| == |p.stack|
             && (forall k :: 0 <= k < |o.stack| && k != |s.stack| - 1 ==> o.stack[k] == p.stack[k]);
    if |o.stack| > |s.stack| {
      OpenedOwes(m, Seen(s, i), t, p, o);
      OwedIsPaid(o, rest, |s.stack|, t.ops, Result(o.stack[|s.stack|]), root);
    } else {
      assert Back(o, rest, |s.stack|) == AmlRuns.Done(o);
      if |o.stack| == |s.stack| { AtOnce(m, Seen(s, i), t, p); }
    }
  }

  lemma SettledLength(s: State)
    requires s.stack != []
    ensures |Settled(s).stack| == |s.stack|
  {
  }

  lemma OpenedOwes(m: Mode, i: Input, t: State, p: State, o: State)
    requires t.stack != [] && Does(m, i, t, p) && |o.stack| == |p.stack| > |t.stack| && o.ops == p.ops
    requires o.stack[|t.stack|] == p.stack[|t.stack|]
    ensures Owes(o, |t.stack|, t.ops, Result(o.stack[|t.stack|]))
    ensures Result(o.stack[|t.stack|]) == Delivered(m, i.instr)
    ensures Delivered(m, i.instr) != [] ==> TagOk(m, ObjectTag)
  {
    assert Under(o.stack, |o.ops|, |o.stack|) == |o.ops|;
  }

  lemma AtOnce(m: Mode, i: Input, t: State, p: State)
    requires Does(m, i, t, p) && |p.stack| == |t.stack|
    ensures p.ops == t.ops + Delivered(m, i.instr)
    ensures Delivered(m, i.instr) != [] ==> PushesOp(t, m, p)
  {
  }
}
