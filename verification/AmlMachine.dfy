/**
 The AML stack machine: four stacks (context, block, execution, operand) driven one item at a
 time.  Bytes of AML code are abstracted to decoded instructions grouped by what they push; every
 decoded field (program counters, name resolution, operand values, host failures) is an arbitrary
 input, so a statement about all inputs covers all AML code.

 `Stopped` stands for a failed LAI_ENSURE or a lai_panic, `Failed` for an API error code.
 */
module AmlMachine {

  // ---------------------------------------------------------------- parse modes and operand tags

  datatype Mode =
    | Data | Object | Exec | Unresolved | Reference | OptReference | ImmByte | ImmWord | ImmDword
  {
    predicate WantsResult() { this != Exec }
    predicate Resolves() { Exec? || Object? || Reference? || OptReference? }
    predicate Invokes() { Exec? || Object? }
    predicate Immediate() { ImmByte? || ImmWord? || ImmDword? }
  }

  datatype Tag =
    | ObjectTag | NullName | UnresolvedName | ResolvedName(isMethod: bool)
    | ArgName | LocalName | DebugName

  /** The tags an operand can carry when it was parsed in the given mode. */
  predicate TagOk(m: Mode, t: Tag) {
    match m
    case Exec => false
    case Unresolved => t.ObjectTag? || t.UnresolvedName?
    case Reference | OptReference => !t.UnresolvedName?
    case _ => t.ObjectTag?
  }

  /** Operators, grouped by the modes of their operands. */
  datatype Shape =
    | ObjRef | ObjObjRef | ObjObjObjRef | ObjObjRefRef | FatalShape | Ref | Obj | ObjObj | MatchShape
    | RefObj | OptRefRef | AcquireShape
    | NameShape | FieldShape | ArbFieldShape | RegionShape
  {
    function Modes(): (ms: seq<Mode>)
      ensures 1 <= |ms| <= 6
      ensures Exec !in ms
    {
      match this
      case ObjRef => [Object, Reference]
      case ObjObjRef => [Object, Object, Reference]
      case ObjObjObjRef => [Object, Object, Object, Reference]
      case ObjObjRefRef => [Object, Object, Reference, Reference]
      case FatalShape => [ImmByte, ImmDword, Object]
      case Ref => [Reference]
      case Obj => [Object]
      case ObjObj => [Object, Object]
      case MatchShape => [Object, ImmByte, Object, ImmByte, Object, Object]
      case RefObj => [Reference, Object]
      case OptRefRef => [OptReference, Reference]
      case AcquireShape => [Reference, ImmWord]
      case NameShape => [Unresolved, Object]
      case FieldShape => [Reference, Object, Unresolved]
      case ArbFieldShape => [Reference, Object, Object, Unresolved]
      case RegionShape => [Unresolved, ImmByte, Object, Object]
    }
  }

  // ------------------------------------------------------------------------------------- state

  datatype Item =
    | Populate
    | Method(want: bool)
    | Loop(frame: nat, iterating: bool, predPc: int)
    | Cond(frame: nat, branch: bool, hasElse: bool, elsePc: int, elseLimit: int)
    | Buffer(frame: nat, want: bool)
    | Package(frame: nat, variable: bool, index: nat, size: nat, phase: nat, want: bool)
    | Node(frame: nat, shape: Shape)
    | Op(frame: nat, shape: Shape, want: bool)
    | Invoke(frame: nat, argc: nat, want: bool)
    | Return(frame: nat)
    | BankField(frame: nat)
  {
    predicate OwnsContext() { Populate? || Method? }
    predicate OwnsBlock() {
      Populate? || Method? || Loop? || Cond? || Buffer? || Package? || BankField?
    }
    predicate Skippable() { Cond? || Loop? }

    /** Whether finishing this item leaves one operand for the item below. */
    predicate Yields() {
      match this
      case Method(w) => w
      case Buffer(_, w) => w
      case Package(_, _, _, _, _, w) => w
      case Op(_, _, w) => w
      case Invoke(_, _, w) => w
      case _ => false
    }
  }

  datatype Block = Block(pc: int, limit: int)

  /** `ctx` holds one flag per context item: does it carry a method invocation? */
  datatype State = State(
    ctx: seq<bool>, blocks: seq<Block>, stack: seq<Item>, ops: seq<Tag>,
    ctxCap: nat, blkCap: nat, stkCap: nat, opCap: nat)
  {
    function Top(): Item requires stack != [] { stack[|stack| - 1] }
  }

  datatype Why =
    // Caused by the AML code, the host or memory pressure.
    | EscapedCode | Malformed | WrongMode | NoInvocation | Outside | BadOperand
    | PackageOverflow | MissingOperand | PendingOperands | BankRoom
    // Internal consistency checks of the interpreter.
    | NoContext | NoBlock | Arity | ModeIndex | OperandTag | FrameEmpty | PopEmpty | Capacity
    | BadUnwind | PackageTop | PackageIndex | NullInvocation
  {
    predicate Internal() {
      NoContext? || NoBlock? || Arity? || ModeIndex? || OperandTag? || FrameEmpty? || PopEmpty?
      || Capacity? || BadUnwind? || PackageTop? || PackageIndex? || NullInvocation?
    }
  }

  datatype Outcome = Next(s: State) | Failed | Stopped(why: Why) {
    predicate IsFailure() { !Next? }
    function PropagateFailure(): Outcome requires IsFailure() { this }
    function Extract(): State requires !IsFailure() { s }
  }

  // ------------------------------------------------------------------------- stack primitives

  function ReserveCtx(s: State, oom: bool): Outcome {
    if |s.ctx| != s.ctxCap then Next(s) else if oom then Failed else Next(s.(ctxCap := 2 * s.ctxCap))
  }
  function ReserveBlk(s: State, oom: bool): Outcome {
    if |s.blocks| != s.blkCap then Next(s) else if oom then Failed else Next(s.(blkCap := 2 * s.blkCap))
  }
  function ReserveStk(s: State, oom: bool): Outcome {
    if |s.stack| != s.stkCap then Next(s) else if oom then Failed else Next(s.(stkCap := 2 * s.stkCap))
  }
  function ReserveOp(s: State, oom: bool): Outcome {
    if |s.ops| != s.opCap then Next(s) else if oom then Failed else Next(s.(opCap := 2 * s.opCap))
  }
  function PushCtx(s: State, invocation: bool): Outcome {
    if |s.ctx| < s.ctxCap then Next(s.(ctx := s.ctx + [invocation])) else Stopped(Capacity)
  }
  function PushBlock(s: State, b: Block): Outcome {
    if |s.blocks| < s.blkCap then Next(s.(blocks := s.blocks + [b])) else Stopped(Capacity)
  }
  function PushItem(s: State, it: Item): Outcome {
    if |s.stack| < s.stkCap then Next(s.(stack := s.stack + [it])) else Stopped(Capacity)
  }
  function PushOp(s: State, t: Tag): Outcome {
    if |s.ops| < s.opCap then Next(s.(ops := s.ops + [t])) else Stopped(Capacity)
  }
  function PopCtx(s: State): Outcome {
    if s.ctx == [] then Stopped(PopEmpty) else Next(s.(ctx := s.ctx[..|s.ctx| - 1]))
  }
  function PopBlock(s: State): Outcome {
    if s.blocks == [] then Stopped(PopEmpty) else Next(s.(blocks := s.blocks[..|s.blocks| - 1]))
  }
  function PopItem(s: State): Outcome {
    if s.stack == [] then Stopped(PopEmpty) else Next(s.(stack := s.stack[..|s.stack| - 1]))
  }
  function PopOps(s: State, n: nat): Outcome {
    if |s.ops| < n then Stopped(PopEmpty) else Next(s.(ops := s.ops[..|s.ops| - n]))
  }
  function SetTop(s: State, it: Item): State
    requires s.stack != []
  {
    s.(stack := s.stack[..|s.stack| - 1] + [it])
  }
  function CommitPc(s: State, pc: int): Outcome {
    if s.blocks == [] then Stopped(NoBlock)
    else Next(s.(blocks := s.blocks[..|s.blocks| - 1] + [s.blocks[|s.blocks| - 1].(pc := pc)]))
  }
  function SetBlock(s: State, b: Block): State
    requires s.blocks != []
  {
    s.(blocks := s.blocks[..|s.blocks| - 1] + [b])
  }

  // ----------------------------------------------------------------------------------- parsing

  datatype Target = Undefined | MethodTarget(argc: nat) | ObjectTarget(accessible: bool)

  datatype Instr =
    | Truncated                                   // the encoding runs past the block limit
    | Literal                                     // operand bytes of an immediate mode
    | Name(target: Target)
    | Nop                                         // Nop, BreakPoint, External
    | Zero
    | Constant                                    // One, Ones, Revision, Timer, integers, strings
    | BufferOp(data: int)
    | PackageOp(variable: bool, data: int)
    | ReturnOp
    | WhileOp(body: int)
    | ContinueOp
    | BreakOp
    | IfOp(body: int, bodyLimit: int, hasElse: bool, elsePc: int, elseLimit: int)
    | ScopeOp(nested: int, resolved: bool)        // Scope, Device, Processor, PowerRes, ThermalZone
    | Leaf(installed: bool)                       // Method, Alias, Mutex, Event, Field, IndexField
    | NodeOp(shape: Shape)
    | Operator(shape: Shape)
    | BankFieldOp(start: int)
    | ArgOp
    | LocalOp
    | DebugOp
    | BadOpcode                                   // unknown opcode, stray Else, unresolvable field

  /** Everything one step reads besides the four stacks. */
  datatype Input = Input(
    instr: Instr, next: int, oom: bool, truthy: bool, valueOk: bool, reduceOk: bool,
    size: nat, overridden: bool, methodLimit: int)

  function ParseName(m: Mode, s0: State, i: Input, t: Target): Outcome {
    var s1 :- ReserveOp(s0, i.oom);
    var s2 :- ReserveStk(s1, i.oom);
    var s3 :- CommitPc(s2, i.next);
    PushName(m, s3, t)
  }

  function PushName(m: Mode, s: State, t: Target): Outcome {
    if m == Data then PushOp(s, ObjectTag)
    else if !m.Resolves() then PushOp(s, UnresolvedName)
    else match t
      case Undefined => if m.OptReference? then PushOp(s, ResolvedName(false)) else Failed
      case MethodTarget(argc) =>
        if m.Invokes() then
          var s3 :- PushItem(s, Invoke(|s.ops|, argc % 8, m.WantsResult()));
          PushOp(s3, ResolvedName(true))
        else PushOp(s, ResolvedName(true))
      case ObjectTarget(accessible) =>
        if m.Invokes() then
          if !accessible then Stopped(BadOperand)
          else if m.WantsResult() then PushOp(s, ObjectTag) else Next(s)
        else PushOp(s, ResolvedName(false))
  }

  /** Integer and string constants, `Zero` and references to ARGx, LOCALx and Debug. */
  function ParseConstant(m: Mode, s0: State, i: Input): Outcome {
    var s1 :- ReserveOp(s0, i.oom);
    var s2 :- CommitPc(s1, i.next);
    PushConstant(m, s2, i.instr)
  }

  function PushConstant(m: Mode, s: State, instr: Instr): Outcome {
    match instr
    case Zero =>
      if m.Data? || m.Object? then PushOp(s, ObjectTag)
      else if m.Reference? || m.OptReference? then PushOp(s, NullName)
      else if m.Exec? then Next(s) else Stopped(WrongMode)
    case DebugOp =>
      if m.Reference? || m.OptReference? then PushOp(s, DebugName) else Stopped(WrongMode)
    case ArgOp | LocalOp =>
      if m.Reference? || m.OptReference? then PushOp(s, if instr.ArgOp? then ArgName else LocalName)
      else if !m.Object? then Stopped(WrongMode)
      else if s.ctx == [] then Stopped(NoContext)
      else if !s.ctx[|s.ctx| - 1] then Stopped(NoInvocation)
      else PushOp(s, ObjectTag)
    case _ =>
      if m.Data? || m.Object? then PushOp(s, ObjectTag)
      else if m.Exec? then Next(s) else Stopped(WrongMode)
  }

  /** Opcodes that open a block of their own: push a block, then the item. */
  function OpenBlock(s0: State, i: Input, b: Block, it: Item): Outcome {
    var s1 :- ReserveBlk(s0, i.oom);
    var s2 :- ReserveStk(s1, i.oom);
    var s3 :- CommitPc(s2, i.next);
    var s4 :- PushBlock(s3, b);
    PushItem(s4, it)
  }

  function ParsePackage(m: Mode, s0: State, i: Input, variable: bool, data: int): Outcome {
    var s1 :- ReserveOp(s0, i.oom);
    var s2 :- OpenBlock(s1, i, Block(data, i.next),
                        Package(|s1.ops|, variable, 0, 0, 0, m.WantsResult()));
    PushOp(s2, ObjectTag)
  }

  function ReserveScope(s0: State, i: Input): Outcome {
    var s1 :- ReserveCtx(s0, i.oom);
    var s2 :- ReserveBlk(s1, i.oom);
    var s3 :- ReserveStk(s2, i.oom);
    CommitPc(s3, i.next)
  }

  function ParseScope(s0: State, i: Input, nested: int, resolved: bool): Outcome {
    var s4 :- ReserveScope(s0, i);
    if !resolved then Failed
    else
      var s5 :- PushCtx(s4, false);
      var s6 :- PushBlock(s5, Block(nested, i.next));
      PushItem(s6, Populate)
  }

  /** The two operands are reserved by two calls with no push in between. */
  function ParseBankField(s0: State, i: Input, start: int): Outcome {
    var s1 :- ReserveOp(s0, i.oom);
    var s2 :- ReserveOp(s1, i.oom);
    var s3 :- OpenBlock(s2, i, Block(start, i.next), BankField(|s2.ops|));
    var s4 :- PushOp(s3, ResolvedName(false));
    if |s4.ops| < s4.opCap then PushOp(s4, ResolvedName(false)) else Stopped(BankRoom)
  }

  function ParseItem(s0: State, i: Input, it: Item): Outcome {
    var s1 :- ReserveStk(s0, i.oom);
    var s :- CommitPc(s1, i.next);
    PushItem(s, it)
  }

  /** Pops conditions and loops (and their blocks) down to `keep` items. */
  function Unwind(s: State, keep: nat): (o: Outcome)
    decreases |s.stack|
  {
    if |s.stack| <= keep then Next(s)
    else if !s.Top().Skippable() then Stopped(BadUnwind)
    else
      var s1 :- PopBlock(s);
      var s2 :- PopItem(s1);
      Unwind(s2, keep)
  }

  /** Number of items up to and including the nearest loop (or method), if only conditions and loops
      lie above it. */
  function Enclosing(stack: seq<Item>, toMethod: bool): (n: int)
    ensures -1 <= n <= |stack| && n != 0
    ensures n > 0 ==> if toMethod then stack[n - 1].Method? else stack[n - 1].Loop?
    ensures n > 0 ==> forall j :: n <= j < |stack| ==> stack[j].Skippable()
  {
    if stack == [] then -1
    else
      var it := stack[|stack| - 1];
      if (if toMethod then it.Method? else it.Loop?) then |stack|
      else if !it.Skippable() then -1
      else Enclosing(stack[..|stack| - 1], toMethod)
  }

  /** Continue never commits a program counter. */
  function ParseContinue(s: State): Outcome {
    var n := Enclosing(s.stack, false);
    if n < 0 then Stopped(Outside) else Unwind(s, n)
  }

  function ParseBreak(s: State): Outcome {
    var n := Enclosing(s.stack, false);
    if n < 0 then Stopped(Outside)
    else
      var s1 :- Unwind(s, n);
      var s2 :- PopBlock(s1);
      PopItem(s2)
  }

  function Parse(m: Mode, s: State, i: Input): Outcome {
    if s.ctx == [] then Stopped(NoContext)
    else if s.blocks == [] then Stopped(NoBlock)
    else if s.blocks[|s.blocks| - 1].pc >= s.blocks[|s.blocks| - 1].limit then Stopped(EscapedCode)
    else if i.instr.Truncated? then Failed
    else if m.Immediate() then
      var s1 :- ReserveOp(s, i.oom);
      var s2 :- CommitPc(s1, i.next);
      PushOp(s2, ObjectTag)
    else ParseOpcode(m, s, i)
  }

  function ParseOpcode(m: Mode, s: State, i: Input): Outcome {
    match i.instr
    case Literal | BadOpcode | Truncated => Stopped(Malformed)
    case Name(t) => ParseName(m, s, i, t)
    case Nop => CommitPc(s, i.next)
    case Zero | Constant | ArgOp | LocalOp | DebugOp => ParseConstant(m, s, i)
    case BufferOp(data) => OpenBlock(s, i, Block(data, i.next), Buffer(|s.ops|, m.WantsResult()))
    case PackageOp(variable, data) => ParsePackage(m, s, i, variable, data)
    case ReturnOp => ParseItem(s, i, Return(|s.ops|))
    case WhileOp(body) => OpenBlock(s, i, Block(body, i.next), Loop(|s.ops|, false, body))
    case ContinueOp => ParseContinue(s)
    case BreakOp => ParseBreak(s)
    case IfOp(body, bodyLimit, hasElse, elsePc, elseLimit) =>
      OpenBlock(s, i, Block(body, bodyLimit), Cond(|s.ops|, false, hasElse, elsePc, elseLimit))
    case ScopeOp(nested, resolved) => ParseScope(s, i, nested, resolved)
    case Leaf(installed) => if installed then CommitPc(s, i.next) else Failed
    case NodeOp(shape) => ParseItem(s, i, Node(|s.ops|, shape))
    case Operator(shape) => ParseItem(s, i, Op(|s.ops|, shape, m.WantsResult()))
    case BankFieldOp(start) => ParseBankField(s, i, start)
  }

  // -------------------------------------------------------------------------------- processing

  function Finish(s: State, ownsBlock: bool, ownsCtx: bool): Outcome {
    var s1 :- if ownsBlock then PopBlock(s) else Next(s);
    var s2 :- if ownsCtx then PopCtx(s1) else Next(s1);
    PopItem(s2)
  }

  function Yield(s: State, want: bool): Outcome {
    if want then PushOp(s, ObjectTag) else Next(s)
  }

  function ProcessMethod(s: State, i: Input, atEnd: bool, want: bool): Outcome {
    if !atEnd then Parse(Exec, s, i)
    else
      var s1 :- ReserveOp(s, i.oom);
      if s1.ops != [] then Stopped(PendingOperands)
      else
        var s2 :- Yield(s1, want);
        if s2.ctx == [] || !s2.ctx[|s2.ctx| - 1] then Stopped(NullInvocation)
        else Finish(s2, true, true)
  }

  function ProcessBuffer(s: State, i: Input, frame: nat, want: bool): Outcome {
    var k := |s.ops| - frame;
    if k > 1 then Stopped(Arity)
    else if k != 1 then Parse(Object, s, i)
    else if !s.ops[frame].ObjectTag? then Stopped(OperandTag)
    else
      var s1 :- PopOps(s, 1);
      if !i.valueOk then Stopped(BadOperand)
      else
        var s2 :- Yield(s1, want);
        Finish(s2, true, false)
  }

  /** In phase 0 the item pointer is used after parsing: if parsing reallocated the execution stack,
      the phase is advanced in the old copy and lost. */
  function ProcessPackage0(s: State, i: Input, it: Item): Outcome
    requires s.stack != [] && it == s.Top() && it.Package?
  {
    var n := |s.stack|;
    var advanced := it.(phase := it.phase + 1);
    var s1 :- Parse(if it.variable then Object else ImmByte, SetTop(s, advanced), i);
    if s1.stkCap != s.stkCap && |s1.stack| >= n then Next(s1.(stack := s1.stack[n - 1 := it]))
    else Next(s1)
  }

  function ProcessPackage(s: State, i: Input, it: Item, atEnd: bool): Outcome
    requires s.stack != [] && it == s.Top() && it.Package?
  {
    if |s.ops| <= it.frame then Stopped(FrameEmpty)
    else if it.phase == 0 then ProcessPackage0(s, i, it)
    else if it.phase == 1 then
      if |s.ops| <= it.frame + 1 then Stopped(MissingOperand)
      else if !s.ops[it.frame + 1].ObjectTag? then Stopped(OperandTag)
      else if !i.valueOk then Stopped(BadOperand)
      else
        var s1 :- PopOps(s, 1);
        if s1.stack == [] then Stopped(PopEmpty)
        else Next(SetTop(s1, it.(phase := it.phase + 1, size := i.size)))
    else
      var s1 :- if |s.ops| == it.frame + 2 then StorePackage(s, it) else Next(s);
      if |s1.ops| != it.frame + 1 then Stopped(PackageTop)
      else if !atEnd then Parse(Data, s1, i)
      else
        var s2 :- if it.want then Next(s1) else PopOps(s1, 1);
        Finish(s2, true, false)
  }

  function StorePackage(s: State, it: Item): Outcome
    requires s.stack != [] && it.Package? && |s.ops| == it.frame + 2
  {
    if !s.ops[it.frame].ObjectTag? || !s.ops[it.frame + 1].ObjectTag? then Stopped(OperandTag)
    else if it.index == it.size then Stopped(PackageOverflow)
    else if it.index > it.size then Stopped(PackageIndex)
    else PopOps(SetTop(s, it.(index := it.index + 1)), 1)
  }

  /** Node and operator items read their operands through the modes array of eight bytes. */
  function ProcessOperands(s: State, i: Input, frame: nat, shape: Shape, want: bool): Outcome {
    var k := |s.ops| - frame;
    var modes := shape.Modes();
    if k < 0 || k > |modes| then Stopped(ModeIndex)
    else if k < |modes| then Parse(modes[k], s, i)
    else if MissingObject(modes, s.ops[frame..]) then Stopped(OperandTag)
    else if !i.valueOk then Stopped(BadOperand)
    else if !i.reduceOk then Failed
    else Reduce(s, k, want)
  }

  /** An operand that the reduction reads as an object is not one. */
  predicate MissingObject(modes: seq<Mode>, operands: seq<Tag>)
    requires |modes| <= |operands|
  {
    exists j :: 0 <= j < |modes| && (modes[j].Object? || modes[j].Immediate()) && !operands[j].ObjectTag?
  }

  function Reduce(s: State, k: nat, want: bool): Outcome {
    var s1 :- PopOps(s, k);
    var s2 :- Yield(s1, want);
    Finish(s2, false, false)
  }

  function ProcessInvoke(s: State, i: Input, frame: nat, argc: nat, want: bool): Outcome {
    var k := |s.ops| - frame;
    if k > argc + 1 then Stopped(Arity)
    else if k != argc + 1 then Parse(Object, s, i)
    else
      var s1 :- ReserveCtx(s, i.oom);
      var s2 :- ReserveBlk(s1, i.oom);
      if s2.ops[frame] != ResolvedName(true) then Stopped(OperandTag)
      else if exists j :: frame + 1 <= j < |s2.ops| && !s2.ops[j].ObjectTag? then Stopped(OperandTag)
      else CallMethod(s2, i, argc, want)
  }

  function CallMethod(s: State, i: Input, argc: nat, want: bool): Outcome {
    var s1 :- PopOps(s, argc + 1);
    var s2 :- PopItem(s1);
    if i.overridden then
      if !i.reduceOk then Failed else Yield(s2, want)
    else if !i.valueOk then Stopped(BadOperand)
    else
      var s3 :- PushCtx(s2, true);
      var s4 :- PushBlock(s3, Block(0, i.methodLimit));
      PushItem(s4, Method(want))
  }

  function ProcessReturn(s: State, i: Input, frame: nat): Outcome
    requires s.stack != []
  {
    var k := |s.ops| - frame;
    if k > 1 then Stopped(Arity)
    else if k != 1 then Parse(Object, s, i)
    else if !s.ops[frame].ObjectTag? then Stopped(OperandTag)
    else
      var s1 :- PopOps(s, 1);
      var n := Enclosing(s.stack[..|s.stack| - 1], true);
      if n < 0 then Stopped(Outside)
      else
        var s2 :- Yield(s1, s.stack[n - 1].want);
        if s2.ctx == [] || !s2.ctx[|s2.ctx| - 1] then Stopped(NullInvocation)
        else
          var s3 :- PopItem(s2);
          var s4 :- Unwind(s3, n);
          Finish(s4, true, true)
  }

  /** The predicate of a loop or condition: its value decides between `taken` and `other`. */
  function ProcessPredicate(s: State, i: Input, frame: nat, taken: Item, other: Item, elseBlock: Block): Outcome
    requires s.stack != []
  {
    var k := |s.ops| - frame;
    if k > 1 then Stopped(Arity)
    else if k != 1 then Parse(Object, s, i)
    else if !s.ops[frame].ObjectTag? then Stopped(OperandTag)
    else if !i.valueOk then Stopped(BadOperand)
    else
      var s1 :- PopOps(s, 1);
      if i.truthy then Next(SetTop(s1, taken))
      else if other.Cond? && other.hasElse then
        if s1.blocks == [] then Stopped(NoBlock) else Next(SetBlock(SetTop(s1, other), elseBlock))
      else Finish(s1, true, false)
  }

  function ProcessLoop(s: State, i: Input, it: Item, b: Block): Outcome
    requires s.stack != [] && s.blocks != [] && it == s.Top() && it.Loop?
  {
    if !it.iterating then ProcessPredicate(s, i, it.frame, it.(iterating := true), it, b)
    else if b.pc == b.limit then Next(SetBlock(SetTop(s, it.(iterating := false)), b.(pc := it.predPc)))
    else Parse(Exec, s, i)
  }

  function ProcessCond(s: State, i: Input, it: Item, b: Block): Outcome
    requires s.stack != [] && it == s.Top() && it.Cond?
  {
    if !it.branch then
      ProcessPredicate(s, i, it.frame, it.(branch := true), it.(branch := true), Block(it.elsePc, it.elseLimit))
    else if b.pc == b.limit then Finish(s, true, false)
    else Parse(Exec, s, i)
  }

  function ProcessBankField(s: State, i: Input, frame: nat): Outcome {
    var k := |s.ops| - frame;
    if k > 3 then Stopped(Arity)
    else if k != 3 then Parse(Object, s, i)
    else if !s.ops[frame + 2].ObjectTag? then Stopped(OperandTag)
    else if !i.valueOk then Stopped(BadOperand)
    else if !i.reduceOk then Failed
    else
      var s1 :- PopOps(s, 3);
      Finish(s1, true, false)
  }

  /** lai_exec_process: one step on the top-most item of the execution stack. */
  function Process(s: State, i: Input): Outcome
    requires s.stack != []
  {
    if s.ctx == [] then Stopped(NoContext)
    else if s.blocks == [] then Stopped(NoBlock)
    else
      var b := s.blocks[|s.blocks| - 1];
      var atEnd := b.pc == b.limit;
      if b.pc > b.limit then Stopped(EscapedCode)
      else match s.Top()
        case Populate => if atEnd then Finish(s, true, true) else Parse(Exec, s, i)
        case Method(want) => ProcessMethod(s, i, atEnd, want)
        case Buffer(frame, want) => ProcessBuffer(s, i, frame, want)
        case Package(_, _, _, _, _, _) => ProcessPackage(s, i, s.Top(), atEnd)
        case Node(frame, shape) =>  // the error code of the reduction is ignored
          ProcessOperands(s, i.(reduceOk := true), frame, shape, false)
        case Op(frame, shape, want) =>
          if |s.ops| == frame + |shape.Modes()| then
            var s1 :- ReserveOp(s, i.oom);
            ProcessOperands(s1, i, frame, shape, want)
          else ProcessOperands(s, i, frame, shape, want)
        case Invoke(frame, argc, want) => ProcessInvoke(s, i, frame, argc, want)
        case Return(frame) => ProcessReturn(s, i, frame)
        case Loop(_, _, _) => ProcessLoop(s, i, s.Top(), b)
        case Cond(_, _, _, _, _) => ProcessCond(s, i, s.Top(), b)
        case BankField(frame) => ProcessBankField(s, i, frame)
  }
}
