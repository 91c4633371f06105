/**
 Whole runs of the AML machine: lai_exec_run and its two callers, lai_populate and lai_eval_args.
 A run reads one input per step; all statements hold for every sequence of inputs.
 */
module AmlRuns {
  import opened AmlMachine
  import opened AmlBalance

  datatype Result = Done(s: State) | Running(s: State) | Failure | Panic(why: Why)

  /** Runs until the execution stack is empty, a step fails, or the inputs are used up. */
  function Run(s: State, inputs: seq<Input>): Result
    decreases |inputs|
  {
    if s.stack == [] then Done(s)
    else if inputs == [] then Running(s)
    else match Process(s, inputs[0])
      case Next(s') => Run(s', inputs[1..])
      case Failed => Failure
      case Stopped(why) => Panic(why)
  }

  lemma {:induction false} RunKeeps(s: State, inputs: seq<Input>, root: Item)
    requires Inv(s, root)
    ensures match Run(s, inputs)
            case Done(s') => s'.stack == [] && Inv(s', root)
            case Running(s') => s'.stack != [] && Inv(s', root)
            case Failure => true
            case Panic(why) => !why.Internal()
    decreases |inputs|
  {
    hide Process, Inv;
    if s.stack != [] && inputs != [] {
      StepKeeps(s, inputs[0], root);
      if Process(s, inputs[0]).Next? {
        RunKeeps(Process(s, inputs[0]).s, inputs[1..], root);
      }
    }
  }

  // -------------------------------------------------------------------------------- operations

  const INITIAL: State := State([], [], [], [], 8, 8, 16, 16)

  /** No run in progress; capacities may have grown in earlier runs. */
  ghost predicate Idle(s: State) {
    s.ctx == [] && s.blocks == [] && s.stack == [] && s.ops == [] && Fits(s)
  }

  /** The state in which lai_populate or lai_eval_args enters the run loop. */
  function Entered(s: State, root: Item, limit: int): State {
    s.(ctx := [root.Method?], blocks := [Block(0, limit)], stack := [root], ops := [])
  }

  lemma EnteredInv(s: State, root: Item, limit: int)
    requires Idle(s) && root.OwnsContext()
    ensures Inv(Entered(s, root, limit), root)
  {
    var t := Entered(s, root, limit);
    assert t.stack[..0] == [];
    assert ContextsOf(t.stack) == ContextsOf([]) + [root.Method?];
  }

  /** An error-free lai_populate run leaves all four stacks empty; no internal check ever fires. */
  lemma PopulateBalanced(s: State, limit: int, inputs: seq<Input>)
    requires Idle(s)
    ensures match Run(Entered(s, Populate, limit), inputs)
            case Done(s') => Idle(s')
            case Running(s') => Inv(s', Populate)
            case Failure => true
            case Panic(why) => !why.Internal()
  {
    EnteredInv(s, Populate, limit);
    RunKeeps(Entered(s, Populate, limit), inputs, Populate);
  }

  /** An error-free run of an AML method leaves exactly one operand, an object. */
  lemma EvaluateBalanced(s: State, limit: int, inputs: seq<Input>)
    requires Idle(s)
    ensures match Run(Entered(s, Method(true), limit), inputs)
            case Done(s') => s'.ops == [ObjectTag] && Idle(s'.(ops := []))
            case Running(s') => Inv(s', Method(true))
            case Failure => true
            case Panic(why) => !why.Internal()
  {
    EnteredInv(s, Method(true), limit);
    RunKeeps(Entered(s, Method(true), limit), inputs, Method(true));
  }

  class Interpreter {
    var st: State

    constructor ()
      ensures st == INITIAL
    {
      st := INITIAL;
    }

    /** lai_exec_run. */
    method ExecRun(inputs: seq<Input>) returns (r: Result)
      modifies this
      ensures r == Run(old(st), inputs)
      ensures r.Done? || r.Running? ==> st == r.s
    {
      hide Process;
      var n := 0;
      while st.stack != [] && n < |inputs|
        invariant 0 <= n <= |inputs|
        invariant Run(old(st), inputs) == Run(st, inputs[n..])
        decreases |inputs| - n
      {
        var o := Process(st, inputs[n]);
        assert inputs[n..][1..] == inputs[n + 1..];
        if o.Failed? {
          return Failure;
        }
        if o.Stopped? {
          return Panic(o.why);
        }
        st := o.s;
        n := n + 1;
      }
      r := if st.stack == [] then Done(st) else Running(st);
    }

    /** lai_populate: the three checks after the loop hold whenever it ends without an error. */
    method PopulateTable(size: int, inputs: seq<Input>) returns (r: Result)
      requires Idle(st)
      modifies this
      ensures r == Run(Entered(old(st), Populate, size), inputs)
      ensures r.Done? ==> Idle(st) && st == r.s
      ensures r.Panic? ==> !r.why.Internal()
    {
      PopulateBalanced(st, size, inputs);
      st := Entered(st, Populate, size);
      r := ExecRun(inputs);
    }

    /** lai_eval_args on an AML method: exactly one operand is on the stack, and it is popped. */
    method EvaluateMethod(size: int, inputs: seq<Input>) returns (r: Result)
      requires Idle(st)
      modifies this
      ensures r == Run(Entered(old(st), Method(true), size), inputs)
      ensures r.Done? ==> r.s.ops == [ObjectTag] && Idle(st)
      ensures r.Failure? ==> st == INITIAL
      ensures r.Panic? ==> !r.why.Internal()
    {
      EvaluateBalanced(st, size, inputs);
      st := Entered(st, Method(true), size);
      r := ExecRun(inputs);
      if r.Done? {
        st := st.(ops := st.ops[..|st.ops| - 1]);
      } else if r.Failure? {
        st := INITIAL;
      }
    }
  }

  // ------------------------------------------------------------------------ operand discipline

  /** Where the frame of item `j` ends: where the frame of the next item begins. */
  function FrameEnd(stack: seq<Item>, top: nat, j: nat): nat
    requires j < |stack|
    decreases |stack| - j
  {
    if j + 1 == |stack| then top else Base(stack[j + 1], FrameEnd(stack, top, j + 1))
  }

  lemma {:induction false} FrameEndBelow(stack: seq<Item>, top: nat, j: nat)
    requires j + 1 < |stack|
    ensures FrameEnd(stack, top, j) == FrameEnd(stack[..|stack| - 1], Base(stack[|stack| - 1], top), j)
    decreases |stack| - j
  {
    if j + 2 < |stack| {
      FrameEndBelow(stack, top, j + 1);
    }
  }

  lemma {:induction false} FrameDiscipline(stack: seq<Item>, ops: seq<Tag>, cap: nat, j: nat)
    requires j < |stack| <= cap && Held(stack, ops, cap)
    ensures var end := FrameEnd(stack, |ops|, j);
            var held := end - Base(stack[j], end);
            && Base(stack[j], end) <= end <= |ops|
            && MinOps(stack[j]) <= held <= MaxOps(stack[j], j + 1 < cap)
            && (forall k :: 0 <= k < held ==> TagOk(ModeAt(stack[j], k), ops[Base(stack[j], end) + k]))
    decreases |stack|
  {
    hide MinOps, MaxOps, ModeAt, TagOk, MayPush;
    var n := |stack|;
    var b := Base(stack[n - 1], |ops|);
    if j + 1 < n {
      FrameEndBelow(stack, |ops|, j);
      FrameDiscipline(stack[..n - 1], ops[..b], cap, j);
    } else {
      forall k | 0 <= k < |ops| - b ensures TagOk(ModeAt(stack[j], k), ops[b + k]) {
        assert ops[b + k] == ops[b..][k];
      }
    }
  }

  /** In every reachable state frames never decrease going up the stack, and every item holds
      between its least and its greatest number of operands, each with a tag of the right mode. */
  lemma OperandDiscipline(s: State, root: Item, j: nat)
    requires Inv(s, root) && j < |s.stack|
    ensures var end := FrameEnd(s.stack, |s.ops|, j);
            var it := s.stack[j];
            var held := end - Base(it, end);
            && Base(it, end) <= end <= |s.ops|
            && MinOps(it) <= held <= MaxOps(it, j + 1 < s.stkCap)
            && (it.Node? || it.Op? ==> held <= 6)
            && (forall k :: 0 <= k < held ==> TagOk(ModeAt(it, k), s.ops[Base(it, end) + k]))
  {
    FrameDiscipline(s.stack, s.ops, s.stkCap, j);
  }

  /** Context depth is the number of populate and method items. */
  lemma {:induction false} ContextDepth(stack: seq<Item>)
    ensures |ContextsOf(stack)| == |set j: nat | j < |stack| && stack[j].OwnsContext()|
    decreases |stack|
  {
    hide Item.OwnsContext;
    var owners := set j: nat | j < |stack| && stack[j].OwnsContext();
    if stack == [] {
      assert owners == {};
    } else {
      var n, low := |stack| - 1, stack[..|stack| - 1];
      ContextDepth(low);
      var below := set j: nat | j < |low| && low[j].OwnsContext();
      assert owners == below + if stack[n].OwnsContext() then {n} else {};
    }
  }

  /** Block depth is the number of items that own a block. */
  lemma {:induction false} BlockDepth(stack: seq<Item>)
    ensures BlocksOf(stack) == |set j: nat | j < |stack| && stack[j].OwnsBlock()|
    decreases |stack|
  {
    hide Item.OwnsBlock;
    var owners := set j: nat | j < |stack| && stack[j].OwnsBlock();
    if stack == [] {
      assert owners == {};
    } else {
      var n, low := |stack| - 1, stack[..|stack| - 1];
      BlockDepth(low);
      var below := set j: nat | j < |low| && low[j].OwnsBlock();
      assert owners == below + if stack[n].OwnsBlock() then {n} else {};
    }
  }

  // ---------------------------------------------------------------- where the checks are wrong

  /** The implicit return demands an empty operand stack: it stops exactly when a caller of the
      method already holds an operand. */
  lemma ImplicitReturnStops(s: State, i: Input, root: Item)
    requires Inv(s, root) && s.stack != [] && s.Top().Method? && !i.oom
    requires s.blocks != [] && s.blocks[|s.blocks| - 1].pc == s.blocks[|s.blocks| - 1].limit
    ensures Process(s, i) == Stopped(PendingOperands) <==> s.ops != []
    ensures s.ops == [] ==> Process(s, i).Next?
  {
    RootOwns(s.stack);
    TopContextOfMethod(s.stack, |s.stack|);
    assert s.stack[..|s.stack|] == s.stack;
  }

  function Stage(pc: int, stack: seq<Item>, ops: seq<Tag>): State {
    State([true], [Block(pc, 9)], stack, ops, 8, 8, 16, 16)
  }

  function Feed(instr: Instr, next: int): Input {
    Input(instr, next, false, true, true, true, 0, false, 0)
  }

  lemma FirstSteps()
    ensures Process(Stage(0, [Method(true)], []), Feed(Operator(ObjObjRef), 1))
            == Next(Stage(1, [Method(true), Op(0, ObjObjRef, false)], []))
    ensures Process(Stage(1, [Method(true), Op(0, ObjObjRef, false)], []), Feed(Constant, 2))
            == Next(Stage(2, [Method(true), Op(0, ObjObjRef, false)], [ObjectTag]))
  {
  }

  lemma NameStep()
    ensures Process(Stage(2, [Method(true), Op(0, ObjObjRef, false)], [ObjectTag]), Feed(Name(MethodTarget(0)), 3))
            == Next(Stage(3, [Method(true), Op(0, ObjObjRef, false), Invoke(1, 0, true)],
                          [ObjectTag, ResolvedName(true)]))
  {
  }

  lemma CallStep()
    ensures Process(Stage(3, [Method(true), Op(0, ObjObjRef, false), Invoke(1, 0, true)],
                          [ObjectTag, ResolvedName(true)]), Feed(Nop, 4))
            == Next(State([true, true], [Block(3, 9), Block(0, 0)],
                          [Method(true), Op(0, ObjObjRef, false), Method(true)], [ObjectTag], 8, 8, 16, 16))
  {
  }

  lemma EndStep()
    ensures Process(State([true, true], [Block(3, 9), Block(0, 0)],
                          [Method(true), Op(0, ObjObjRef, false), Method(true)], [ObjectTag], 8, 8, 16, 16),
                    Feed(Nop, 5))
            == Stopped(PendingOperands)
  {
  }

  /** A run that stops there: Add(One, FOO()) where FOO has an empty body. */
  lemma ImplicitReturnReachable()
    ensures Run(Entered(INITIAL, Method(true), 9),
                [Feed(Operator(ObjObjRef), 1), Feed(Constant, 2), Feed(Name(MethodTarget(0)), 3), Feed(Nop, 4),
                 Feed(Nop, 5)])
            == Panic(PendingOperands)
  {
    hide Process;
    FirstSteps();
    NameStep();
    CallStep();
    EndStep();
    var inputs := [Feed(Operator(ObjObjRef), 1), Feed(Constant, 2), Feed(Name(MethodTarget(0)), 3), Feed(Nop, 4),
                   Feed(Nop, 5)];
    assert inputs[1..][1..] == inputs[2..] && inputs[2..][1..] == inputs[3..] && inputs[3..][1..] == inputs[4..];
    var s4 := State([true, true], [Block(3, 9), Block(0, 0)],
                    [Method(true), Op(0, ObjObjRef, false), Method(true)], [ObjectTag], 8, 8, 16, 16);
    assert Run(s4, inputs[4..]) == Panic(PendingOperands);
    var s3 := Stage(3, [Method(true), Op(0, ObjObjRef, false), Invoke(1, 0, true)], [ObjectTag, ResolvedName(true)]);
    assert Run(s3, inputs[3..]) == Run(s4, inputs[4..]);
    var s2 := Stage(2, [Method(true), Op(0, ObjObjRef, false)], [ObjectTag]);
    assert Run(s2, inputs[2..]) == Run(s3, inputs[3..]);
    var s1 := Stage(1, [Method(true), Op(0, ObjObjRef, false)], []);
    assert Run(s1, inputs[1..]) == Run(s2, inputs[2..]);
    assert Entered(INITIAL, Method(true), 9) == Stage(0, [Method(true)], []);
  }

  /** Reserving two operands by two calls without a push in between is one slot short exactly when a
      single slot was free. */
  lemma BankFieldRoom(s: State, i: Input, start: int)
    requires Parseable(s) && !i.oom
    ensures ParseBankField(s, i, start) == Stopped(BankRoom) <==> |s.ops| + 1 == s.opCap
    ensures |s.ops| + 1 != s.opCap ==> ParseBankField(s, i, start).Next?
  {
    hide OpenBlock;
    var s1 := ReserveOp(s, i.oom).s;
    OpenBlockShape(s1, i, Block(start, i.next), BankField(|s.ops|));
    OpenBlockSucceeds(s1, i, Block(start, i.next), BankField(|s.ops|));
  }

  lemma OpenBlockSucceeds(s: State, i: Input, b: Block, it: Item)
    requires Parseable(s) && !i.oom
    ensures OpenBlock(s, i, b, it).Next?
  {
  }

  predicate ReservesStack(instr: Instr) {
    instr.Name? || instr.BufferOp? || instr.PackageOp? || instr.ReturnOp? || instr.WhileOp? || instr.IfOp?
    || instr.ScopeOp? || instr.NodeOp? || instr.Operator? || instr.BankFieldOp?
  }

  /** The size phase of a variable-length package is lost, and a second size operand will be parsed,
      exactly when parsing the size had to grow a full execution stack. */
  lemma PackagePhaseLost(s: State, i: Input, root: Item)
    requires Inv(s, root) && s.stack != [] && s.Top().Package? && s.Top().variable && s.Top().phase == 0
    requires ProcessPackage0(s, i, s.Top()).Next?
    ensures var o := ProcessPackage0(s, i, s.Top()).s;
            && |o.stack| >= |s.stack| && o.stack[|s.stack| - 1].Package?
            && (o.stack[|s.stack| - 1].phase == 0 <==> |s.stack| == s.stkCap && ReservesStack(i.instr))
  {
    RootOwns(s.stack);
    hide Parse, ParseOpcode, Held, ContextsOf, BlocksOf;
    var n := |s.stack|;
    var t := SetTop(s, s.Top().(phase := 1));
    PackageParse(t, i);
    var o := Parse(Object, t, i).s;
    assert o.stack[n - 1] == o.stack[..n][n - 1] == t.stack[n - 1];
  }

  lemma PackageParse(t: State, i: Input)
    requires Parseable(t) && t.stack != [] && t.Top().Package? && Parse(Object, t, i).Next?
    ensures var o := Parse(Object, t, i).s;
            && |o.stack| >= |t.stack| && o.stack[..|t.stack|] == t.stack
            && (o.stkCap != t.stkCap <==> |t.stack| == t.stkCap && ReservesStack(i.instr))
  {
    LeaveLoopStops(Object, t, i);
    hide ParseOpcode;
    ParseOpcodeEffect(Object, t, i);
    ParseGrows(t, i);
  }

  ghost predicate Grows(t: State, o: Outcome) {
    o.Next? ==> o.s.stkCap == if |t.stack| == t.stkCap then 2 * t.stkCap else t.stkCap
  }

  lemma NameGrows(t: State, i: Input)
    requires Parseable(t) && i.instr.Name?
    ensures Grows(t, ParseName(Object, t, i, i.instr.target))
  {
  }

  lemma PackageGrows(t: State, i: Input, variable: bool, data: int)
    requires Parseable(t)
    ensures Grows(t, ParsePackage(Object, t, i, variable, data))
  {
  }

  lemma BankFieldGrows(t: State, i: Input, start: int)
    requires Parseable(t)
    ensures Grows(t, ParseBankField(t, i, start))
  {
    if ReserveOp(t, i.oom).Next? {
      OpenBlockGrows(ReserveOp(t, i.oom).s, i, Block(start, i.next), BankField(|t.ops|));
      OpenBlockShape(ReserveOp(t, i.oom).s, i, Block(start, i.next), BankField(|t.ops|));
    }
    hide OpenBlock;
  }

  lemma OpenBlockGrows(t: State, i: Input, b: Block, it: Item)
    requires Parseable(t)
    ensures Grows(t, OpenBlock(t, i, b, it))
  {
  }

  lemma ParseGrows(t: State, i: Input)
    requires Parseable(t) && ParseOpcode(Object, t, i).Next?
    requires !i.instr.BreakOp? && !i.instr.ContinueOp?
    ensures ParseOpcode(Object, t, i).s.stkCap ==
            if |t.stack| == t.stkCap && ReservesStack(i.instr) then 2 * t.stkCap else t.stkCap
  {
    hide ParseName, OpenBlock, ParsePackage, ParseBankField;
    match i.instr
    case Name(_) => NameGrows(t, i);
    case BufferOp(data) => OpenBlockGrows(t, i, Block(data, i.next), Buffer(|t.ops|, true));
    case PackageOp(variable, data) => PackageGrows(t, i, variable, data);
    case WhileOp(body) => OpenBlockGrows(t, i, Block(body, i.next), Loop(|t.ops|, false, body));
    case IfOp(body, bodyLimit, hasElse, elsePc, elseLimit) =>
      OpenBlockGrows(t, i, Block(body, bodyLimit), Cond(|t.ops|, false, hasElse, elsePc, elseLimit));
    case BankFieldOp(start) => BankFieldGrows(t, i, start);
    case _ =>
  }

  /** Continue straight in the body of its loop changes nothing at all. */
  lemma ContinueIsStuck(s: State, i: Input)
    requires s.stack != [] && s.Top().Loop? && s.Top().iterating && i.instr.ContinueOp?
    requires s.ctx != [] && s.blocks != []
    requires s.blocks[|s.blocks| - 1].pc < s.blocks[|s.blocks| - 1].limit
    ensures Process(s, i) == Next(s)
  {
  }
}
