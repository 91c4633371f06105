/**
 The balance between the four stacks of the AML machine, over whole runs.

 `Inv` says, of a state reached from a run started on `root`: the context and block stacks mirror the
 items that own them, the operand stack splits into one frame per waiting item, every frame has the
 arity and the operand tags its item asks for, and every stack fits its capacity.
 */
module AmlBalance {
  import opened AmlMachine

  // --------------------------------------------------------------------------------- invariant

  function ContextsOf(stack: seq<Item>): (c: seq<bool>) {
    if stack == [] then []
    else
      var it := stack[|stack| - 1];
      ContextsOf(stack[..|stack| - 1]) + if it.OwnsContext() then [it.Method?] else []
  }

  function BlocksOf(stack: seq<Item>): (n: nat) {
    if stack == [] then 0
    else BlocksOf(stack[..|stack| - 1]) + if stack[|stack| - 1].OwnsBlock() then 1 else 0
  }

  function Base(it: Item, top: nat): nat {
    if it.OwnsContext() then top else it.frame
  }

  function MinOps(it: Item): nat {
    if it.Package? || it.Invoke? then 1 else if it.BankField? then 2 else 0
  }

  /** Most operands an item can hold.  A variable-length package can hold one more than the phases
      suggest, because of the lost phase; `room` says that the stack has a free slot above it. */
  function MaxOps(it: Item, room: bool): nat {
    match it
    case Populate | Method(_) => 0
    case Loop(_, iterating, _) => if iterating then 0 else 1
    case Cond(_, branch, _, _, _) => if branch then 0 else 1
    case Buffer(_, _) | Return(_) => 1
    case Package(_, variable, _, _, phase, _) =>
      if phase == 0 then (if variable && room then 2 else 1)
      else if phase == 1 then (if variable then 3 else 2) else 2
    case Node(_, shape) => |shape.Modes()|
    case Op(_, shape, _) => |shape.Modes()|
    case Invoke(_, argc, _) => argc + 1
    case BankField(_) => 3
  }

  function ModeAt(it: Item, j: nat): Mode {
    if (it.Node? || it.Op?) && j < |it.shape.Modes()| then it.shape.Modes()[j]
    else if (it.Invoke? && j == 0) || (it.BankField? && j < 2) then Reference
    else Object
  }

  ghost predicate Typed(it: Item, held: seq<Tag>, room: bool) {
    && MinOps(it) <= |held| <= MaxOps(it, room)
    && (forall j :: 0 <= j < |held| ==> TagOk(ModeAt(it, j), held[j]))
    && (it.Invoke? ==> held[0] == ResolvedName(true) && it.argc <= 7)
    && (it.Package? ==> it.index <= it.size && (it.phase < 2 ==> it.index == 0))
  }

  /** May an item with `k` operands have a child on top of it? */
  predicate MayPush(it: Item, k: int, room: bool, gives: bool) {
    && (MaxOps(it, room) == 0 || k < MaxOps(it, room))
    && (gives ==> k < MaxOps(it, room))
  }

  function HeldByTop(stack: seq<Item>, ops: seq<Tag>): int
    requires stack != []
  {
    |ops| - Base(stack[|stack| - 1], |ops|)
  }

  ghost predicate Held(stack: seq<Item>, ops: seq<Tag>, cap: nat)
    requires stack != []
    decreases |stack|
  {
    var n := |stack|;
    var it := stack[n - 1];
    var b := Base(it, |ops|);
    && b <= |ops|
    && Typed(it, ops[b..], n < cap)
    && (if n == 1 then b == 0
        else
          && Held(stack[..n - 1], ops[..b], cap)
          && MayPush(stack[n - 2], HeldByTop(stack[..n - 1], ops[..b]), n - 1 < cap, it.Yields()))
  }

  ghost predicate Fits(s: State) {
    && |s.ctx| <= s.ctxCap && |s.blocks| <= s.blkCap && |s.stack| <= s.stkCap && |s.ops| <= s.opCap
    && s.ctxCap > 0 && s.blkCap > 0 && s.stkCap > 0 && s.opCap > 1
  }

  ghost predicate Inv(s: State, root: Item) {
    && root.OwnsContext()
    && Fits(s)
    && s.ctx == ContextsOf(s.stack)
    && |s.blocks| == BlocksOf(s.stack)
    && (if s.stack == [] then s.ops == (if root.Yields() then [ObjectTag] else [])
        else s.stack[0] == root && Held(s.stack, s.ops, s.stkCap))
  }

  ghost predicate Good(o: Outcome, root: Item) {
    match o
    case Next(s) => Inv(s, root)
    case Failed => true
    case Stopped(why) => !why.Internal()
  }

  // ----------------------------------------------------------------- how the stacks may change

  lemma {:induction false} HeldWithMoreRoom(stack: seq<Item>, ops: seq<Tag>, cap: nat, cap': nat)
    requires stack != [] && cap <= cap' && Held(stack, ops, cap)
    ensures Held(stack, ops, cap')
    decreases |stack|
  {
    var n := |stack|;
    if n > 1 {
      HeldWithMoreRoom(stack[..n - 1], ops[..Base(stack[n - 1], |ops|)], cap, cap');
    }
  }

  lemma HeldPushItem(stack: seq<Item>, ops: seq<Tag>, cap: nat, it: Item, own: seq<Tag>)
    requires stack != [] && Held(stack, ops, cap)
    requires MayPush(stack[|stack| - 1], HeldByTop(stack, ops), |stack| < cap, it.Yields())
    requires if it.OwnsContext() then own == [] else it.frame == |ops|
    requires Typed(it, own, |stack| + 1 < cap)
    ensures Held(stack + [it], ops + own, cap)
  {
    var st := stack + [it];
    assert st[..|st| - 1] == stack;
    assert (ops + own)[..|ops|] == ops && (ops + own)[|ops|..] == own;
  }

  lemma HeldPushOp(stack: seq<Item>, ops: seq<Tag>, cap: nat, t: Tag)
    requires stack != [] && Held(stack, ops, cap)
    requires HeldByTop(stack, ops) < MaxOps(stack[|stack| - 1], |stack| < cap)
    requires TagOk(ModeAt(stack[|stack| - 1], HeldByTop(stack, ops)), t)
    ensures Held(stack, ops + [t], cap)
  {
    var b := Base(stack[|stack| - 1], |ops|);
    assert (ops + [t])[..b] == ops[..b];
    assert (ops + [t])[b..] == ops[b..] + [t];
  }

  /** A finished item leaves its frame, and one object if it yields. */
  lemma HeldFinish(stack: seq<Item>, ops: seq<Tag>, cap: nat)
    requires |stack| > 1 && Held(stack, ops, cap)
    ensures var it := stack[|stack| - 1];
            var below := ops[..Base(it, |ops|)];
            Held(stack[..|stack| - 1], if it.Yields() then below + [ObjectTag] else below, cap)
  {
    var n := |stack|;
    var it := stack[n - 1];
    var b := Base(it, |ops|);
    if it.Yields() {
      var p := stack[n - 2];
      assert MinOps(p) <= |ops[..b]| - Base(p, b);
      HeldPushOp(stack[..n - 1], ops[..b], cap, ObjectTag);
    }
  }

  lemma HeldSetTop(stack: seq<Item>, ops: seq<Tag>, ops': seq<Tag>, cap: nat, it: Item)
    requires stack != [] && Held(stack, ops, cap)
    requires var old_ := stack[|stack| - 1];
             && !it.OwnsContext() && !old_.OwnsContext() && it.frame == old_.frame
             && it.Yields() == old_.Yields()
    requires it.frame <= |ops'| && ops'[..it.frame] == ops[..it.frame]
    requires Typed(it, ops'[it.frame..], |stack| < cap)
    ensures Held(stack[..|stack| - 1] + [it], ops', cap)
  {
    var st := stack[..|stack| - 1] + [it];
    assert st[..|st| - 1] == stack[..|stack| - 1];
  }

  /** Conditions and loops on which something waits hold no operand, so they unwind freely. */
  lemma UnwindOne(s: State, root: Item)
    requires Inv(s, root) && |s.stack| > 1 && s.Top().Skippable() && HeldByTop(s.stack, s.ops) == 0
    ensures s.blocks != []
    ensures var s' := s.(blocks := s.blocks[..|s.blocks| - 1], stack := s.stack[..|s.stack| - 1]);
            && Inv(s', root)
            && MayPush(s'.Top(), HeldByTop(s'.stack, s'.ops), |s'.stack| < s'.stkCap, false)
            && (s'.Top().Skippable() ==> HeldByTop(s'.stack, s'.ops) == 0)
  {
    assert s.ops[..s.Top().frame] == s.ops;
  }

  lemma {:induction false} UnwindKeeps(s: State, keep: nat, root: Item)
    requires Inv(s, root) && 1 <= keep <= |s.stack|
    requires HeldByTop(s.stack, s.ops) == 0 || keep == |s.stack|
    requires forall j :: keep <= j < |s.stack| ==> s.stack[j].Skippable()
    ensures Unwind(s, keep).Next?
    ensures var s' := Unwind(s, keep).s;
            && Inv(s', root) && s'.stack == s.stack[..keep] && s'.ops == s.ops
            && s'.stkCap == s.stkCap && s'.opCap == s.opCap
            && (keep < |s.stack| ==>
                  MayPush(s'.Top(), HeldByTop(s'.stack, s'.ops), keep < s.stkCap, false))
    decreases |s.stack|
  {
    if |s.stack| > keep {
      UnwindOne(s, root);
      var s2 := s.(blocks := s.blocks[..|s.blocks| - 1], stack := s.stack[..|s.stack| - 1]);
      assert Unwind(s, keep) == Unwind(s2, keep);
      hide Inv, MayPush, Unwind, MaxOps;
      assert |s2.stack| > keep ==> s2.Top().Skippable();
      UnwindKeeps(s2, keep, root);
      assert s2.stack[..keep] == s.stack[..keep];
      assert |s2.stack| == keep ==> s2.stack[..keep] == s2.stack && Unwind(s2, keep) == Next(s2);
    }
  }

  /** The top item must be a context owner or sit on one: contexts and blocks are never empty. */
  lemma {:induction false} RootOwns(stack: seq<Item>)
    requires stack != [] && stack[0].OwnsContext()
    ensures ContextsOf(stack) != [] && BlocksOf(stack) > 0
    decreases |stack|
  {
    if |stack| > 1 {
      RootOwns(stack[..|stack| - 1]);
    }
  }

  /** Above a method with only conditions and loops, the top context is the method's. */
  lemma {:induction false} TopContextOfMethod(stack: seq<Item>, n: nat)
    requires 1 <= n <= |stack| && stack[n - 1].Method?
    requires forall j :: n <= j < |stack| ==> stack[j].Skippable()
    ensures ContextsOf(stack) == ContextsOf(stack[..n])
    ensures ContextsOf(stack[..n]) == ContextsOf(stack[..n - 1]) + [true]
    decreases |stack|
  {
    assert stack[..n][..n - 1] == stack[..n - 1];
    if |stack| > n {
      assert stack[..|stack| - 1][..n] == stack[..n];
      assert stack[..|stack| - 1][..n - 1] == stack[..n - 1];
      TopContextOfMethod(stack[..|stack| - 1], n);
    } else {
      assert stack[..n] == stack;
    }
  }

  // ------------------------------------------------------------------------------ parse steps

  /** What the top item must satisfy for a parse in mode `m`. */
  ghost predicate Ready(s: State, m: Mode) {
    && s.stack != []
    && var k := HeldByTop(s.stack, s.ops);
       var room := |s.stack| < s.stkCap;
       && k >= 0
       && MayPush(s.Top(), k, room, m.WantsResult())
       && (m.WantsResult() ==>
             ModeAt(s.Top(), k) == m || (ModeAt(s.Top(), k) == Object && (m.Data? || m.ImmByte?)))
  }

  /** A parse that pushes neither an item nor an operand. */
  ghost predicate OnlyPc(s: State, s': State) {
    s'.stack == s.stack && s'.ops == s.ops && s'.ctx == s.ctx && |s'.blocks| == |s.blocks|
  }

  /** A parse that pushes one operand allowed in its mode. */
  ghost predicate PushesOp(s: State, m: Mode, s': State) {
    && m.WantsResult() && s'.stack == s.stack && s'.ctx == s.ctx && |s'.blocks| == |s.blocks|
    && |s'.ops| == |s.ops| + 1 && s'.ops == s.ops + [s'.ops[|s.ops|]] && TagOk(m, s'.ops[|s.ops|])
  }

  /** The operands that are pushed together with a new item. */
  predicate FreshItem(it: Item, own: seq<Tag>) {
    if it.Invoke? then own == [ResolvedName(true)] && it.argc <= 7
    else if it.Package? then own == [ObjectTag] && it.index == it.size == it.phase == 0
    else if it.BankField? then own == [ResolvedName(false), ResolvedName(false)]
    else own == []
  }

  lemma FreshItemTyped(it: Item, own: seq<Tag>, room: bool)
    requires FreshItem(it, own)
    ensures Typed(it, own, room)
  {
  }

  /** A parse that pushes one item together with what the item owns. */
  ghost predicate PushesItem(s: State, m: Mode, s': State) {
    && |s'.stack| == |s.stack| + 1 && s'.stack == s.stack + [s'.Top()] && s.ops <= s'.ops
    && var it := s'.Top();
       && (it.Yields() ==> m.WantsResult())
       && (if it.OwnsContext() then s'.ops == s.ops else it.frame == |s.ops|)
       && FreshItem(it, s'.ops[|s.ops|..])
       && s'.ctx == s.ctx + (if it.OwnsContext() then [it.Method?] else [])
       && |s'.blocks| == |s.blocks| + if it.OwnsBlock() then 1 else 0
  }

  ghost predicate Effect(s: State, m: Mode, o: Outcome) {
    match o
    case Failed => true
    case Stopped(why) => !why.Internal()
    case Next(s') =>
      && Fits(s') && (s'.stkCap == s.stkCap || (|s.stack| == s.stkCap && s'.stkCap == 2 * s.stkCap))
      && (OnlyPc(s, s') || PushesOp(s, m, s') || PushesItem(s, m, s'))
  }

  lemma PushesOpKeeps(s: State, m: Mode, s': State, root: Item)
    requires Inv(s, root) && Ready(s, m) && Fits(s') && s.stkCap <= s'.stkCap && PushesOp(s, m, s')
    ensures Inv(s', root)
  {
    HeldPushOp(s.stack, s.ops, s.stkCap, s'.ops[|s.ops|]);
    HeldWithMoreRoom(s.stack, s'.ops, s.stkCap, s'.stkCap);
  }

  lemma PushesItemKeeps(s: State, m: Mode, s': State, root: Item)
    requires Inv(s, root) && Ready(s, m) && Fits(s') && s.stkCap <= s'.stkCap && PushesItem(s, m, s')
    ensures Inv(s', root)
  {
    var it, own := s'.Top(), s'.ops[|s.ops|..];
    HeldWithMoreRoom(s.stack, s.ops, s.stkCap, s'.stkCap);
    FreshItemTyped(it, own, |s.stack| + 1 < s'.stkCap);
    HeldPushItem(s.stack, s.ops, s'.stkCap, it, own);
    assert s.ops + own == s'.ops;
    assert s'.stack[..|s'.stack| - 1] == s.stack;
  }

  lemma EffectKeeps(s: State, m: Mode, o: Outcome, root: Item)
    requires Inv(s, root) && Ready(s, m) && Effect(s, m, o)
    ensures Good(o, root)
  {
    if o.Next? {
      if OnlyPc(s, o.s) {
        HeldWithMoreRoom(s.stack, s.ops, s.stkCap, o.s.stkCap);
      } else if PushesOp(s, m, o.s) {
        PushesOpKeeps(s, m, o.s, root);
      } else {
        PushesItemKeeps(s, m, o.s, root);
      }
    }
  }

  ghost predicate Parseable(s: State) {
    Fits(s) && s.ctx != [] && s.blocks != []
  }

  lemma PushNameEffect(m: Mode, s: State, t: Target)
    requires Fits(s) && |s.ops| < s.opCap && |s.stack| < s.stkCap && !m.Immediate()
    ensures Effect(s, m, PushName(m, s, t))
    ensures PushName(m, s, t).Next? ==> PushName(m, s, t).s.stkCap == s.stkCap
  {
    var o := PushName(m, s, t);
    if o.Next? && t.MethodTarget? && m.Invokes() {
      assert o.s.ops[|s.ops|..] == [ResolvedName(true)];
    }
  }

  lemma NameEffect(m: Mode, s: State, i: Input, t: Target)
    requires Parseable(s) && !m.Immediate()
    ensures Effect(s, m, ParseName(m, s, i, t))
  {
    hide PushName;
    if ReserveOp(s, i.oom).Next? && ReserveStk(s, i.oom).Next? {
      var s1 := ReserveStk(ReserveOp(s, i.oom).s, i.oom).s;
      PushNameEffect(m, CommitPc(s1, i.next).s, t);
    }
  }

  lemma ConstantEffect(m: Mode, s: State, i: Input)
    requires Parseable(s) && !m.Immediate()
    ensures Effect(s, m, ParseConstant(m, s, i))
  {
    hide PushConstant;
    if ReserveOp(s, i.oom).Next? {
      PushConstantEffect(m, CommitPc(ReserveOp(s, i.oom).s, i.next).s, i.instr);
    }
  }

  lemma PushConstantEffect(m: Mode, s: State, instr: Instr)
    requires Parseable(s) && !m.Immediate() && |s.ops| < s.opCap
    ensures Effect(s, m, PushConstant(m, s, instr))
    ensures PushConstant(m, s, instr).Next? ==> PushConstant(m, s, instr).s.stkCap == s.stkCap
  {
  }

  lemma OpenBlockShape(s: State, i: Input, b: Block, it: Item)
    requires Parseable(s)
    ensures var o := OpenBlock(s, i, b, it);
            && !o.Stopped?
            && (o.Next? ==>
                  && o.s.stack == s.stack + [it] && o.s.ops == s.ops && o.s.ctx == s.ctx
                  && |o.s.blocks| == |s.blocks| + 1
                  && Fits(o.s) && o.s.opCap == s.opCap
                  && (o.s.stkCap == s.stkCap || (|s.stack| == s.stkCap && o.s.stkCap == 2 * s.stkCap)))
  {
  }

  lemma OpenBlockEffect(m: Mode, s: State, i: Input, b: Block, it: Item)
    requires Parseable(s)
    requires it.OwnsBlock() && !it.OwnsContext() && it.frame == |s.ops| && FreshItem(it, [])
    requires it.Yields() ==> m.WantsResult()
    ensures Effect(s, m, OpenBlock(s, i, b, it))
  {
    hide OpenBlock;
    OpenBlockShape(s, i, b, it);
  }

  lemma PackageOpEffect(m: Mode, s: State, i: Input, variable: bool, data: int)
    requires Parseable(s)
    ensures Effect(s, m, ParsePackage(m, s, i, variable, data))
  {
    hide ParsePackage;
    PackageOpShape(m, s, i, variable, data);
    var o := ParsePackage(m, s, i, variable, data);
    if o.Next? {
      assert o.s.ops[|s.ops|..] == [ObjectTag];
      assert PushesItem(s, m, o.s);
    }
  }

  lemma PackageOpShape(m: Mode, s: State, i: Input, variable: bool, data: int)
    requires Parseable(s)
    ensures var o := ParsePackage(m, s, i, variable, data);
            && !o.Stopped?
            && (o.Next? ==>
                  && o.s.stack == s.stack + [Package(|s.ops|, variable, 0, 0, 0, m.WantsResult())]
                  && o.s.ops == s.ops + [ObjectTag] && o.s.ctx == s.ctx
                  && |o.s.blocks| == |s.blocks| + 1 && Fits(o.s)
                  && (o.s.stkCap == s.stkCap || (|s.stack| == s.stkCap && o.s.stkCap == 2 * s.stkCap)))
  {
    hide OpenBlock;
    var s1 := ReserveOp(s, i.oom);
    if s1.Next? {
      OpenBlockShape(s1.s, i, Block(data, i.next), Package(|s.ops|, variable, 0, 0, 0, m.WantsResult()));
    }
  }

  lemma ScopeEffect(m: Mode, s: State, i: Input, nested: int, resolved: bool)
    requires Parseable(s)
    ensures Effect(s, m, ParseScope(s, i, nested, resolved))
  {
    hide ParseScope;
    ScopeShape(s, i, nested, resolved);
    var o := ParseScope(s, i, nested, resolved);
    if o.Next? {
      assert o.s.ops[|s.ops|..] == [];
      assert PushesItem(s, m, o.s);
    }
  }

  lemma ScopeShape(s: State, i: Input, nested: int, resolved: bool)
    requires Parseable(s)
    ensures var o := ParseScope(s, i, nested, resolved);
            match o
            case Failed => true
            case Stopped(why) => false
            case Next(s') =>
              && s'.stack == s.stack + [Populate] && s'.ops == s.ops && s'.ctx == s.ctx + [false]
              && |s'.blocks| == |s.blocks| + 1 && Fits(s')
              && (s'.stkCap == s.stkCap || (|s.stack| == s.stkCap && s'.stkCap == 2 * s.stkCap))
  {
    hide ReserveScope;
    ScopeReserved(s, i);
  }

  lemma ScopeReserved(s: State, i: Input)
    requires Parseable(s)
    ensures var o := ReserveScope(s, i);
            && !o.Stopped?
            && (o.Next? ==>
                  && o.s.stack == s.stack && o.s.ops == s.ops && o.s.ctx == s.ctx && |o.s.blocks| == |s.blocks|
                  && |o.s.ctx| < o.s.ctxCap && |o.s.blocks| < o.s.blkCap && |o.s.stack| < o.s.stkCap
                  && o.s.opCap == s.opCap
                  && (o.s.stkCap == s.stkCap || (|s.stack| == s.stkCap && o.s.stkCap == 2 * s.stkCap)))
  {
  }

  lemma BankFieldOpEffect(m: Mode, s: State, i: Input, start: int)
    requires Parseable(s)
    ensures Effect(s, m, ParseBankField(s, i, start))
  {
    hide ParseBankField;
    BankFieldShape(s, i, start);
    var o := ParseBankField(s, i, start);
    if o.Next? {
      assert o.s.ops[|s.ops|..] == [ResolvedName(false), ResolvedName(false)];
      assert PushesItem(s, m, o.s);
    }
  }

  lemma BankFieldShape(s: State, i: Input, start: int)
    requires Parseable(s)
    ensures var o := ParseBankField(s, i, start);
            && (o.Stopped? ==> o.why == BankRoom)
            && (o.Next? ==>
                  && o.s.stack == s.stack + [BankField(|s.ops|)] && o.s.ctx == s.ctx
                  && o.s.ops == s.ops + [ResolvedName(false), ResolvedName(false)]
                  && |o.s.blocks| == |s.blocks| + 1 && Fits(o.s)
                  && (o.s.stkCap == s.stkCap || (|s.stack| == s.stkCap && o.s.stkCap == 2 * s.stkCap)))
  {
    hide OpenBlock;
    var s1 := ReserveOp(s, i.oom);
    if s1.Next? {
      OpenBlockShape(s1.s, i, Block(start, i.next), BankField(|s.ops|));
    }
  }

  lemma ParseItemEffect(m: Mode, s: State, i: Input, it: Item)
    requires Parseable(s)
    requires !it.OwnsBlock() && it.frame == |s.ops| && FreshItem(it, [])
    requires it.Yields() ==> m.WantsResult()
    ensures Effect(s, m, ParseItem(s, i, it))
  {
  }

  lemma ParseOpcodeEffect(m: Mode, s: State, i: Input)
    requires Parseable(s) && !m.Immediate() && !(i.instr.BreakOp? || i.instr.ContinueOp?)
    ensures Effect(s, m, ParseOpcode(m, s, i))
  {
    hide ParseName, ParseConstant, OpenBlock, ParsePackage, ParseScope, ParseBankField, ParseItem;
    match i.instr
    case Name(t) => NameEffect(m, s, i, t);
    case Zero | Constant | ArgOp | LocalOp | DebugOp => ConstantEffect(m, s, i);
    case BufferOp(data) =>
      OpenBlockEffect(m, s, i, Block(data, i.next), Buffer(|s.ops|, m.WantsResult()));
    case PackageOp(variable, data) => PackageOpEffect(m, s, i, variable, data);
    case ReturnOp => ParseItemEffect(m, s, i, Return(|s.ops|));
    case WhileOp(body) =>
      OpenBlockEffect(m, s, i, Block(body, i.next), Loop(|s.ops|, false, body));
    case IfOp(body, bodyLimit, hasElse, elsePc, elseLimit) =>
      OpenBlockEffect(m, s, i, Block(body, bodyLimit),
                      Cond(|s.ops|, false, hasElse, elsePc, elseLimit));
    case ScopeOp(nested, resolved) => ScopeEffect(m, s, i, nested, resolved);
    case NodeOp(shape) => ParseItemEffect(m, s, i, Node(|s.ops|, shape));
    case Operator(shape) => ParseItemEffect(m, s, i, Op(|s.ops|, shape, m.WantsResult()));
    case BankFieldOp(start) => BankFieldOpEffect(m, s, i, start);
    case _ =>
  }

  lemma ImmediateEffect(m: Mode, s: State, i: Input)
    requires Parseable(s) && m.Immediate()
    ensures Effect(s, m, Parse(m, s, i))
    ensures Parse(m, s, i).Next? ==> Parse(m, s, i).s.stkCap == s.stkCap
  {
  }

  lemma LeaveLoopKeeps(m: Mode, s: State, root: Item)
    requires Inv(s, root) && Ready(s, m)
    ensures Good(ParseContinue(s), root) && Good(ParseBreak(s), root)
  {
    hide Inv, Enclosing, Unwind, MayPush, HeldByTop, Finish;
    var n := Enclosing(s.stack, false);
    if n > 0 {
      if s.Top().Skippable() {
        SkippableHoldsNone(s, m.WantsResult(), root);
      }
      UnwindKeeps(s, n, root);
      var u := Unwind(s, n).s;
      if n < |s.stack| {
        SkippableHoldsNone(u, false, root);
      } else {
        assert u.stack == s.stack;
      }
      BreakKeeps(u, root);
      BreakShape(s, n);
    }
  }

  lemma SkippableHoldsNone(s: State, gives: bool, root: Item)
    requires Inv(s, root) && s.stack != [] && s.Top().Skippable()
    requires MayPush(s.Top(), HeldByTop(s.stack, s.ops), |s.stack| < s.stkCap, gives)
    ensures HeldByTop(s.stack, s.ops) == 0
  {
    TopFrame(s, root);
    hide Inv;
  }

  lemma BreakShape(s: State, n: nat)
    requires n == Enclosing(s.stack, false) && Unwind(s, n).Next?
    ensures ParseBreak(s) == Finish(Unwind(s, n).s, true, false)
  {
    hide Enclosing, Unwind;
  }

  lemma BreakKeeps(s: State, root: Item)
    requires Inv(s, root) && s.stack != [] && s.Top().Loop? && HeldByTop(s.stack, s.ops) == 0
    ensures Good(Finish(s, true, false), root)
  {
    assert |s.stack| > 1;
    assert s.ops[..s.Top().frame] == s.ops;
    HeldFinish(s.stack, s.ops, s.stkCap);
  }

  lemma ParseKeeps(m: Mode, s: State, i: Input, root: Item)
    requires Inv(s, root) && Ready(s, m)
    ensures Good(Parse(m, s, i), root)
  {
    RootOwns(s.stack);
    if m.Immediate() {
      ImmediateEffect(m, s, i);
      EffectKeeps(s, m, Parse(m, s, i), root);
    } else if i.instr.BreakOp? || i.instr.ContinueOp? {
      LeaveLoopKeeps(m, s, root);
    } else {
      ParseOpcodeEffect(m, s, i);
      EffectKeeps(s, m, ParseOpcode(m, s, i), root);
    }
  }

  // ---------------------------------------------------------------------------- process steps

  /** The top item finishes: its frame is gone and, if it yields, one object took its place. */
  lemma FinishKeeps(s: State, mid: State, root: Item)
    requires Inv(s, root) && s.stack != []
    requires mid.stack == s.stack && mid.ctx == s.ctx && |mid.blocks| == |s.blocks|
    requires mid.stkCap == s.stkCap && Fits(mid)
    requires var below := s.ops[..Base(s.Top(), |s.ops|)];
             mid.ops == if s.Top().Yields() then below + [ObjectTag] else below
    ensures Good(Finish(mid, s.Top().OwnsBlock(), s.Top().OwnsContext()), root)
  {
    RootOwns(s.stack);
    if |s.stack| > 1 {
      HeldFinish(s.stack, s.ops, s.stkCap);
    }
  }

  lemma MethodKeeps(s: State, i: Input, atEnd: bool, root: Item)
    requires Inv(s, root) && s.stack != [] && s.Top().Method?
    ensures Good(ProcessMethod(s, i, atEnd, s.Top().want), root)
  {
    if !atEnd {
      ParseKeeps(Exec, s, i, root);
    } else if s.ops == [] {
      hide Finish;
      TopContextOfMethod(s.stack, |s.stack|);
      assert s.stack[..|s.stack|] == s.stack;
      FinishKeeps(s, if s.Top().want then s.(ops := [ObjectTag]) else s, root);
    }
  }

  lemma BufferKeeps(s: State, i: Input, root: Item)
    requires Inv(s, root) && s.stack != [] && s.Top().Buffer?
    ensures Good(ProcessBuffer(s, i, s.Top().frame, s.Top().want), root)
  {
    TopFrame(s, root);
    if |s.ops| == s.Top().frame {
      hide Parse, Finish, Inv;
      ParseKeeps(Object, s, i, root);
    } else {
      TagOfOperand(s, 0, root);
      BufferFinishes(s, i, root);
    }
  }

  lemma BufferFinishes(s: State, i: Input, root: Item)
    requires Inv(s, root) && s.stack != [] && s.Top().Buffer?
    requires |s.ops| == s.Top().frame + 1 && s.ops[s.Top().frame].ObjectTag?
    ensures Good(ProcessBuffer(s, i, s.Top().frame, s.Top().want), root)
  {
    hide Finish, Held, ContextsOf, BlocksOf;
    var it, below := s.Top(), s.ops[..s.Top().frame];
    assert s.ops[..|s.ops| - 1] == below;
    var mid := s.(ops := if it.want then below + [ObjectTag] else below);
    FinishKeeps(s, mid, root);
    hide Inv;
  }

  lemma SetTopKeeps(s: State, it: Item, ops: seq<Tag>, root: Item)
    requires Inv(s, root) && s.stack != [] && |ops| <= |s.ops|
    requires !s.Top().OwnsContext() && !it.OwnsContext()
    requires it.frame == s.Top().frame && it.Yields() == s.Top().Yields()
    requires it.OwnsBlock() == s.Top().OwnsBlock()
    requires it.frame <= |ops| && ops[..it.frame] == s.ops[..it.frame]
    requires Typed(it, ops[it.frame..], |s.stack| < s.stkCap)
    ensures Inv(SetTop(s, it).(ops := ops), root)
  {
    TopFrame(s, root);
    hide Held, Typed, Item.Yields;
    HeldSetTop(s.stack, s.ops, ops, s.stkCap, it);
    var s' := SetTop(s, it);
    assert |s.stack| > 1 && s'.stack[..|s.stack| - 1] == s.stack[..|s.stack| - 1];
  }

  lemma {:induction false} SwapMirrors(stack: seq<Item>, j: nat, it: Item)
    requires j < |stack| && !it.OwnsContext() && !stack[j].OwnsContext()
    requires it.OwnsBlock() == stack[j].OwnsBlock()
    ensures ContextsOf(stack[j := it]) == ContextsOf(stack)
    ensures BlocksOf(stack[j := it]) == BlocksOf(stack)
    decreases |stack|
  {
    var n := |stack| - 1;
    if j < n {
      SwapMirrors(stack[..n], j, it);
      assert stack[j := it][..n] == stack[..n][j := it];
    } else {
      assert stack[j := it][..n] == stack[..n];
    }
  }

  /** Losing the advanced phase of the package under a freshly pushed child keeps the frames. */
  lemma LostPhaseHeld(stack: seq<Item>, ops: seq<Tag>, cap: nat, it: Item)
    requires |stack| > 2 && |stack| - 1 < cap && Held(stack, ops, cap)
    requires var p := stack[|stack| - 2]; p.Package? && p.phase == 1 && p.variable && it == p.(phase := 0)
    requires it.frame + 1 == Base(stack[|stack| - 1], |ops|)
    ensures Held(stack[|stack| - 2 := it], ops, cap)
  {
    var n := |stack| - 1;
    var top := stack[n];
    var b := Base(top, |ops|);
    var low := stack[..n];
    var low' := low[..n - 1] + [it];
    assert Held(low, ops[..b], cap) && Typed(top, ops[b..], n + 1 < cap);
    HeldSetTop(low, ops[..b], ops[..b], cap, it);
    LostPhasePush(low', top, ops, cap);
    assert stack[n - 1 := it] == low' + [top];
  }

  lemma LostPhasePush(low: seq<Item>, top: Item, ops: seq<Tag>, cap: nat)
    requires low != [] && |low| < cap
    requires var p := low[|low| - 1]; p.Package? && p.phase == 0 && p.variable && p.frame + 1 == Base(top, |ops|)
    requires var b := Base(top, |ops|);
             b <= |ops| && Held(low, ops[..b], cap) && Typed(top, ops[b..], |low| + 1 < cap)
    ensures Held(low + [top], ops, cap)
  {
    var b := Base(top, |ops|);
    HeldPushItem(low, ops[..b], cap, top, ops[b..]);
    assert ops[..b] + ops[b..] == ops;
  }

  lemma PackageFrame(s: State, root: Item)
    requires Inv(s, root) && s.stack != [] && s.Top().Package?
    ensures |s.stack| > 1 && s.Top().frame < |s.ops| && s.Top().index <= s.Top().size
    ensures s.Top().phase == 0 && |s.stack| == s.stkCap ==> |s.ops| == s.Top().frame + 1
  {
  }

  lemma LostPhaseFlat(o: State, it: Item, root: Item)
    requires Inv(o, root) && o.stack != [] && o.Top().Package? && o.Top().variable && o.Top().phase == 1
    requires it == o.Top().(phase := 0) && |o.stack| < o.stkCap && |o.ops| <= it.frame + 2
    ensures Inv(o.(stack := o.stack[|o.stack| - 1 := it]), root)
  {
    SetTopKeeps(o, it, o.ops, root);
    assert o.stack[|o.stack| - 1 := it] == o.stack[..|o.stack| - 1] + [it];
  }

  lemma LostPhaseChild(o: State, it: Item, root: Item)
    requires Inv(o, root) && |o.stack| > 2 && |o.stack| - 1 < o.stkCap
    requires var p := o.stack[|o.stack| - 2]; p.Package? && p.phase == 1 && p.variable && it == p.(phase := 0)
    requires it.frame + 1 == Base(o.Top(), |o.ops|)
    ensures Inv(o.(stack := o.stack[|o.stack| - 2 := it]), root)
  {
    hide ContextsOf, BlocksOf;
    LostPhaseHeld(o.stack, o.ops, o.stkCap, it);
    SwapMirrors(o.stack, |o.stack| - 2, it);
  }

  lemma LostPhase(s: State, t: State, o: State, root: Item)
    requires Inv(s, root) && s.stack != [] && s.Top().Package? && s.Top().phase == 0 && s.Top().variable
    requires t == SetTop(s, s.Top().(phase := 1)) && Inv(o, root)
    requires Effect(t, Object, Next(o)) && o.stkCap != s.stkCap
    ensures |o.stack| >= |s.stack|
    ensures Inv(o.(stack := o.stack[|s.stack| - 1 := s.Top()]), root)
  {
    PackageFrame(s, root);
    hide Held, ContextsOf, BlocksOf;
    if |o.stack| == |s.stack| {
      LostPhaseFlat(o, s.Top(), root);
    } else {
      LostPhaseChild(o, s.Top(), root);
    }
  }

  lemma LeaveLoopStops(m: Mode, s: State, i: Input)
    requires s.stack != [] && s.Top().Package? && !m.Immediate()
    ensures i.instr.BreakOp? || i.instr.ContinueOp? ==> !Parse(m, s, i).Next?
  {
  }

  lemma Package0Keeps(s: State, i: Input, root: Item)
    requires Inv(s, root) && s.stack != [] && s.Top().Package? && s.Top().phase == 0
    ensures Good(ProcessPackage0(s, i, s.Top()), root)
  {
    var it, n := s.Top(), |s.stack|;
    var adv := it.(phase := 1);
    var t := SetTop(s, adv);
    assert s.ops[..it.frame] == s.ops[..it.frame];
    SetTopKeeps(s, adv, s.ops, root);
    assert t == t.(ops := s.ops);
    Package0Parse(s, t, i, root);
  }

  lemma Package0Parse(s: State, t: State, i: Input, root: Item)
    requires Inv(s, root) && s.stack != [] && s.Top().Package? && s.Top().phase == 0
    requires t == SetTop(s, s.Top().(phase := 1)) && Inv(t, root)
    ensures Good(ProcessPackage0(s, i, s.Top()), root)
  {
    var it, n := s.Top(), |s.stack|;
    var m := if it.variable then Object else ImmByte;
    RootOwns(t.stack);
    ParseKeeps(m, t, i, root);
    var o := Parse(m, t, i);
    if o.Next? && o.s.stkCap != s.stkCap {
      if it.variable {
        LeaveLoopStops(m, t, i);
        if !(i.instr.BreakOp? || i.instr.ContinueOp?) {
          ParseOpcodeEffect(m, t, i);
          LostPhase(s, t, o.s, root);
        }
      } else {
        ImmediateEffect(m, t, i);
      }
    }
  }

  /** What the invariant says about the frame of the top item. */
  lemma TopFrame(s: State, root: Item)
    requires Inv(s, root) && s.stack != [] && !s.Top().OwnsContext()
    ensures |s.stack| > 1 && s.Top().frame <= |s.ops|
    ensures Typed(s.Top(), s.ops[s.Top().frame..], |s.stack| < s.stkCap)
  {
  }

  lemma TagOfOperand(s: State, j: nat, root: Item)
    requires Inv(s, root) && s.stack != [] && !s.Top().OwnsContext() && s.Top().frame + j < |s.ops|
    ensures TagOk(ModeAt(s.Top(), j), s.ops[s.Top().frame + j])
  {
    assert s.ops[s.Top().frame + j] == s.ops[s.Top().frame..][j];
  }

  lemma StoreTyped(s: State, root: Item)
    requires Inv(s, root) && s.stack != [] && s.Top().Package? && s.Top().phase > 1
    requires |s.ops| == s.Top().frame + 2 && s.Top().index < s.Top().size
    ensures var it := s.Top();
            Typed(it.(index := it.index + 1), s.ops[..|s.ops| - 1][it.frame..], |s.stack| < s.stkCap)
  {
  }

  lemma PackageKeeps(s: State, i: Input, atEnd: bool, root: Item)
    requires Inv(s, root) && s.stack != [] && s.Top().Package?
    ensures Good(ProcessPackage(s, i, s.Top(), atEnd), root)
  {
    PackageFrame(s, root);
    var it := s.Top();
    if it.phase == 0 {
      hide ProcessPackage0;
      Package0Keeps(s, i, root);
    } else if it.phase == 1 {
      Package1Keeps(s, i, root);
    } else {
      Package2Keeps(s, i, atEnd, root);
    }
  }

  lemma Package1Keeps(s: State, i: Input, root: Item)
    requires Inv(s, root) && s.stack != [] && s.Top().Package? && s.Top().phase == 1
    ensures Good(ProcessPackage(s, i, s.Top(), false), root)
  {
    hide Inv, ProcessPackage;
    TopFrame(s, root);
    Package1Shape(s, i);
    if |s.ops| > s.Top().frame + 1 {
      TagOfOperand(s, 1, root);
      PackageSized(s, i.size, root);
    }
  }

  lemma Package1Shape(s: State, i: Input)
    requires s.stack != [] && s.Top().Package? && s.Top().phase == 1 && |s.ops| > s.Top().frame
    ensures ProcessPackage(s, i, s.Top(), false) ==
            var it := s.Top();
            if |s.ops| <= it.frame + 1 then Stopped(MissingOperand)
            else if !s.ops[it.frame + 1].ObjectTag? then Stopped(OperandTag)
            else if !i.valueOk then Stopped(BadOperand)
            else Next(SetTop(s, it.(phase := 2, size := i.size)).(ops := s.ops[..|s.ops| - 1]))
  {
  }

  lemma PackageSized(s: State, size: nat, root: Item)
    requires Inv(s, root) && s.stack != [] && s.Top().Package? && s.Top().phase == 1
    requires |s.ops| > s.Top().frame + 1
    ensures Inv(SetTop(s, s.Top().(phase := 2, size := size)).(ops := s.ops[..|s.ops| - 1]), root)
  {
    TopFrame(s, root);
    hide Held, ContextsOf, BlocksOf;
    SetTopKeeps(s, s.Top().(phase := 2, size := size), s.ops[..|s.ops| - 1], root);
  }

  lemma StoreKeeps(s: State, root: Item)
    requires Inv(s, root) && s.stack != [] && s.Top().Package? && s.Top().phase > 1
    requires |s.ops| == s.Top().frame + 2
    ensures Good(StorePackage(s, s.Top()), root)
  {
    hide Held, ContextsOf, BlocksOf, Typed;
    var it := s.Top();
    TagOfOperand(s, 0, root);
    TagOfOperand(s, 1, root);
    PackageFrame(s, root);
    if it.index < it.size {
      StoreTyped(s, root);
      SetTopKeeps(s, it.(index := it.index + 1), s.ops[..|s.ops| - 1], root);
    }
  }

  lemma Package2Keeps(s: State, i: Input, atEnd: bool, root: Item)
    requires Inv(s, root) && s.stack != [] && s.Top().Package? && s.Top().phase > 1
    ensures Good(ProcessPackage(s, i, s.Top(), atEnd), root)
  {
    hide Parse, Finish;
    var it := s.Top();
    if |s.ops| == it.frame + 2 {
      StoreKeeps(s, root);
      if StorePackage(s, it).Next? {
        Package2Rest(StorePackage(s, it).s, i, atEnd, root);
      }
    } else {
      Package2Rest(s, i, atEnd, root);
    }
  }

  lemma Package2Rest(s: State, i: Input, atEnd: bool, root: Item)
    requires Inv(s, root) && s.stack != [] && s.Top().Package? && s.Top().phase > 1
    requires |s.ops| == s.Top().frame + 1
    ensures !atEnd ==> Good(Parse(Data, s, i), root)
    ensures atEnd ==>
              var s2 := if s.Top().want then s else s.(ops := s.ops[..|s.ops| - 1]);
              Good(Finish(s2, true, false), root)
  {
    hide Parse, Finish;
    if !atEnd {
      ParseKeeps(Data, s, i, root);
    } else {
      var it := s.Top();
      assert TagOk(ModeAt(it, 0), s.ops[it.frame..][0]);
      assert s.ops[..it.frame] + [ObjectTag] == s.ops;
      FinishKeeps(s, if it.want then s else s.(ops := s.ops[..|s.ops| - 1]), root);
    }
  }

  lemma OperandsTyped(s: State, root: Item)
    requires Inv(s, root) && s.stack != [] && (s.Top().Node? || s.Top().Op?)
    ensures s.Top().frame <= |s.ops| <= s.Top().frame + |s.Top().shape.Modes()|
    ensures |s.ops| == s.Top().frame + |s.Top().shape.Modes()| ==>
              !MissingObject(s.Top().shape.Modes(), s.ops[s.Top().frame..])
  {
    TopFrame(s, root);
    hide Held, ContextsOf, BlocksOf;
    var it := s.Top();
    var modes, held := it.shape.Modes(), s.ops[it.frame..];
    hide Shape.Modes;
    if |held| == |modes| {
      forall j | 0 <= j < |modes| && (modes[j].Object? || modes[j].Immediate()) ensures held[j].ObjectTag? {
        assert TagOk(ModeAt(it, j), held[j]) && ModeAt(it, j) == modes[j];
      }
    }
  }

  lemma ReduceKeeps(s: State, root: Item)
    requires Inv(s, root) && s.stack != [] && (s.Top().Node? || s.Top().Op?)
    requires s.Top().frame < |s.ops| && (|s.ops| < s.opCap || s.Top().Node?)
    ensures Good(Reduce(s, |s.ops| - s.Top().frame, s.Top().Yields()), root)
  {
    hide Finish, Held, ContextsOf, BlocksOf;
    var it := s.Top();
    var below := s.ops[..it.frame];
    assert s.ops[..|s.ops| - (|s.ops| - it.frame)] == below;
    FinishKeeps(s, s.(ops := if it.Yields() then below + [ObjectTag] else below), root);
  }

  lemma OperandsKeep(s: State, i: Input, root: Item)
    requires Inv(s, root) && s.stack != [] && (s.Top().Node? || s.Top().Op?)
    requires |s.ops| < s.opCap || s.Top().Node? || |s.ops| != s.Top().frame + |s.Top().shape.Modes()|
    ensures Good(ProcessOperands(s, i, s.Top().frame, s.Top().shape, s.Top().Yields()), root)
  {
    OperandsTyped(s, root);
    hide Parse, Reduce, MissingObject, Inv;
    var it := s.Top();
    var k, modes := |s.ops| - it.frame, it.shape.Modes();
    hide Shape.Modes;
    if k < |modes| {
      assert ModeAt(it, k) == modes[k];
      ParseKeeps(modes[k], s, i, root);
    } else {
      ReduceKeeps(s, root);
    }
  }

  lemma InvokeTags(s: State, root: Item)
    requires Inv(s, root) && s.stack != [] && s.Top().Invoke?
    ensures s.Top().frame < |s.ops| <= s.Top().frame + s.Top().argc + 1 && |s.stack| > 1
    ensures s.ops[s.Top().frame] == ResolvedName(true)
    ensures forall j :: s.Top().frame + 1 <= j < |s.ops| ==> s.ops[j].ObjectTag?
  {
    var it := s.Top();
    assert s.ops[it.frame] == s.ops[it.frame..][0];
    forall j | it.frame + 1 <= j < |s.ops| ensures s.ops[j].ObjectTag? {
      TagOfOperand(s, j - it.frame, root);
    }
  }

  /** A method item takes the place of the invocation that called it. */
  lemma EnterMethod(s: State, t: State, root: Item)
    requires Inv(s, root) && s.stack != [] && s.Top().Invoke?
    requires t.stack == s.stack[..|s.stack| - 1] + [Method(s.Top().want)] && t.ops == s.ops[..s.Top().frame]
    requires t.ctx == s.ctx + [true] && |t.blocks| == |s.blocks| + 1 && Fits(t) && t.stkCap == s.stkCap
    ensures Inv(t, root)
  {
    var n := |s.stack|;
    InvokeTags(s, root);
    HeldFinish(s.stack, s.ops, s.stkCap);
    assert Held(s.stack[..n - 1], t.ops, s.stkCap);
    HeldPushItem(s.stack[..n - 1], t.ops, s.stkCap, Method(s.Top().want), []);
    assert t.ops + [] == t.ops;
    assert t.stack[..n - 1] == s.stack[..n - 1];
  }

  lemma CallShape(s: State, i: Input, argc: nat, want: bool)
    requires Fits(s) && |s.ops| > argc && s.stack != [] && |s.ctx| < s.ctxCap && |s.blocks| < s.blkCap
    ensures var o := CallMethod(s, i, argc, want);
            var below, low := s.ops[..|s.ops| - (argc + 1)], s.stack[..|s.stack| - 1];
            && (o.Stopped? ==> !o.why.Internal())
            && (o.Next? && i.overridden ==>
                  o.s == s.(stack := low, ops := if want then below + [ObjectTag] else below) && Fits(o.s))
            && (o.Next? && !i.overridden ==>
                  && o.s.stack == low + [Method(want)] && o.s.ops == below && o.s.ctx == s.ctx + [true]
                  && |o.s.blocks| == |s.blocks| + 1 && Fits(o.s) && o.s.stkCap == s.stkCap)
  {
  }

  lemma InvokeKeeps(s: State, i: Input, root: Item)
    requires Inv(s, root) && s.stack != [] && s.Top().Invoke?
    ensures Good(ProcessInvoke(s, i, s.Top().frame, s.Top().argc, s.Top().want), root)
  {
    hide Parse, CallMethod, Held, ContextsOf, BlocksOf;
    var it := s.Top();
    InvokeTags(s, root);
    if |s.ops| != it.frame + it.argc + 1 {
      InvokeParses(s, i, root);
    } else if ReserveCtx(s, i.oom).Next? && ReserveBlk(s, i.oom).Next? {
      CallKeeps(s, ReserveBlk(ReserveCtx(s, i.oom).s, i.oom).s, i, root);
    }
  }

  lemma InvokeParses(s: State, i: Input, root: Item)
    requires Inv(s, root) && s.stack != [] && s.Top().Invoke?
    requires |s.ops| < s.Top().frame + s.Top().argc + 1
    ensures Good(Parse(Object, s, i), root)
  {
    hide Parse;
    InvokeTags(s, root);
    ParseKeeps(Object, s, i, root);
  }

  lemma CallKeeps(s: State, t: State, i: Input, root: Item)
    requires Inv(s, root) && s.stack != [] && s.Top().Invoke?
    requires |s.ops| == s.Top().frame + s.Top().argc + 1
    requires Fits(t) && |t.ctx| < t.ctxCap && |t.blocks| < t.blkCap
    requires t == s.(ctxCap := t.ctxCap, blkCap := t.blkCap)
    ensures Good(CallMethod(t, i, s.Top().argc, s.Top().want), root)
  {
    hide CallMethod, Held, ContextsOf, BlocksOf;
    var it := s.Top();
    InvokeTags(s, root);
    CallShape(t, i, it.argc, it.want);
    var o := CallMethod(t, i, it.argc, it.want);
    assert t.ops[..|t.ops| - (it.argc + 1)] == s.ops[..it.frame];
    if o.Next? && i.overridden {
      var below := s.ops[..it.frame];
      FinishKeeps(t, t.(ops := if it.want then below + [ObjectTag] else below), root);
    } else if o.Next? {
      EnterMethod(t, o.s, root);
    }
  }

  lemma ReturnBelow(s: State, root: Item)
    requires Inv(s, root) && s.stack != [] && s.Top().Return? && |s.ops| == s.Top().frame + 1
    ensures s.ops[s.Top().frame].ObjectTag?
    ensures var t := s.(stack := s.stack[..|s.stack| - 1], ops := s.ops[..|s.ops| - 1]);
            && Inv(t, root) && t.stack != []
            && (t.Top().Skippable() ==> HeldByTop(t.stack, t.ops) == 0)
  {
    TagOfOperand(s, 0, root);
    HeldFinish(s.stack, s.ops, s.stkCap);
    assert s.ops[..|s.ops| - 1] == s.ops[..s.Top().frame];
  }

  lemma ReturnKeeps(s: State, i: Input, root: Item)
    requires Inv(s, root) && s.stack != [] && s.Top().Return?
    ensures Good(ProcessReturn(s, i, s.Top().frame), root)
  {
    TopFrame(s, root);
    if |s.ops| == s.Top().frame {
      hide Parse, Inv;
      ParseKeeps(Object, s, i, root);
    } else {
      ReturnValueKeeps(s, i, root);
    }
  }

  lemma InvContexts(s: State, root: Item)
    requires Inv(s, root) && s.stack != []
    ensures s.ctx == ContextsOf(s.stack) && s.stack[0].OwnsContext()
  {
  }

  lemma ReturnValueKeeps(s: State, i: Input, root: Item)
    requires Inv(s, root) && s.stack != [] && s.Top().Return? && |s.ops| == s.Top().frame + 1
    ensures Good(ProcessReturn(s, i, s.Top().frame), root)
  {
    hide Parse, Unwind, Finish, Enclosing, Inv, ContextsOf;
    ReturnBelow(s, root);
    var t := s.(stack := s.stack[..|s.stack| - 1], ops := s.ops[..|s.ops| - 1]);
    InvContexts(t, root);
    var m := Enclosing(t.stack, true);
    if m > 0 {
      hide ProcessReturn, Good, MayPush, MaxOps;
      UnwindKeeps(t, m, root);
      TopContextOfMethod(t.stack, m);
      ReturnFrom(s, t, i, m, root);
    }
  }

  lemma {:induction false} UnwindIgnoresOps(s: State, keep: nat, ops: seq<Tag>)
    ensures Unwind(s.(ops := ops), keep) ==
            match Unwind(s, keep)
            case Next(u) => Next(u.(ops := ops))
            case o => o
    decreases |s.stack|
  {
    if |s.stack| > keep && s.Top().Skippable() && s.blocks != [] {
      var s2 := s.(blocks := s.blocks[..|s.blocks| - 1], stack := s.stack[..|s.stack| - 1]);
      UnwindIgnoresOps(s2, keep, ops);
    }
  }

  lemma ReturnFrom(s: State, t: State, i: Input, m: nat, root: Item)
    requires Inv(s, root) && s.stack != [] && s.Top().Return? && |s.ops| == s.Top().frame + 1
    requires t == s.(stack := s.stack[..|s.stack| - 1], ops := s.ops[..|s.ops| - 1]) && Inv(t, root)
    requires m == Enclosing(t.stack, true) && 1 <= m <= |t.stack|
    requires s.ctx != [] && s.ctx[|s.ctx| - 1]
    requires s.ops[s.Top().frame].ObjectTag?
    requires Unwind(t, m).Next? && Inv(Unwind(t, m).s, root)
    requires Unwind(t, m).s.stack == t.stack[..m] && Unwind(t, m).s.ops == t.ops && Unwind(t, m).s.opCap == s.opCap
    ensures Good(ProcessReturn(s, i, s.Top().frame), root)
  {
    hide Parse, Finish, Held, ContextsOf, BlocksOf, Unwind, Enclosing;
    var u := Unwind(t, m).s;
    var w := u.Top().want;
    assert u.Top() == t.stack[m - 1] == s.stack[m - 1];
    var ops := if w then t.ops + [ObjectTag] else t.ops;
    UnwindIgnoresOps(t, m, ops);
    assert u.ops[..|u.ops|] == u.ops;
    FinishKeeps(u, u.(ops := ops), root);
    assert (if w then s.(ops := t.ops + [ObjectTag]) else s.(ops := t.ops)).(stack := t.stack) == t.(ops := ops);
  }

  lemma PredicateKeeps(s: State, i: Input, taken: Item, other: Item, b: Block, root: Item)
    requires Inv(s, root) && s.stack != [] && s.Top().Skippable() && MaxOps(s.Top(), false) == 1
    requires taken.Skippable() && taken.frame == s.Top().frame && MaxOps(taken, false) == 0
    requires other.Cond? ==> other == taken
    ensures Good(ProcessPredicate(s, i, s.Top().frame, taken, other, b), root)
  {
    TopFrame(s, root);
    if |s.ops| == s.Top().frame {
      hide Inv, Parse, Finish;
      ParseKeeps(Object, s, i, root);
    } else {
      PredicateDecides(s, i, taken, other, b, root);
    }
  }

  lemma PredicateDecides(s: State, i: Input, taken: Item, other: Item, b: Block, root: Item)
    requires Inv(s, root) && s.stack != [] && s.Top().Skippable() && |s.ops| == s.Top().frame + 1
    requires taken.Skippable() && taken.frame == s.Top().frame && MaxOps(taken, false) == 0
    requires other.Cond? ==> other == taken
    ensures Good(ProcessPredicate(s, i, s.Top().frame, taken, other, b), root)
  {
    hide Inv, Finish, ProcessPredicate, SetBlock, SetTop;
    PredicateTaken(s, taken, b, root);
    PredicateFalse(s, root);
    TagOfOperand(s, 0, root);
    PredicateShape(s, i, taken, other, b);
  }

  lemma PredicateShape(s: State, i: Input, taken: Item, other: Item, b: Block)
    requires s.stack != [] && s.Top().Skippable() && |s.ops| == s.Top().frame + 1
    ensures ProcessPredicate(s, i, s.Top().frame, taken, other, b) ==
            var t := s.(ops := s.ops[..s.Top().frame]);
            if !s.ops[s.Top().frame].ObjectTag? then Stopped(OperandTag)
            else if !i.valueOk then Stopped(BadOperand)
            else if i.truthy then Next(SetTop(t, taken))
            else if other.Cond? && other.hasElse then
              if s.blocks == [] then Stopped(NoBlock) else Next(SetBlock(SetTop(t, other), b))
            else Finish(t, true, false)
  {
    hide Finish, Parse;
    assert s.ops[..|s.ops| - 1] == s.ops[..s.Top().frame];
  }

  /** The predicate holds, or its alternative takes over: the item changes its state and drops the operand. */
  lemma PredicateTaken(s: State, taken: Item, b: Block, root: Item)
    requires Inv(s, root) && s.stack != [] && s.Top().Skippable() && |s.ops| == s.Top().frame + 1
    requires taken.Skippable() && taken.frame == s.Top().frame && MaxOps(taken, false) == 0
    ensures var t := SetTop(s.(ops := s.ops[..s.Top().frame]), taken);
            Inv(t, root) && s.blocks != [] && t.blocks != [] && Inv(SetBlock(t, b), root)
  {
    var below := s.ops[..s.Top().frame];
    RootOwns(s.stack);
    assert below[s.Top().frame..] == [];
    SetTopKeeps(s, taken, below, root);
    assert SetTop(s, taken).(ops := below) == SetTop(s.(ops := below), taken);
    hide Held, ContextsOf, BlocksOf;
  }

  /** The predicate fails: the item finishes. */
  lemma PredicateFalse(s: State, root: Item)
    requires Inv(s, root) && s.stack != [] && s.Top().Skippable() && |s.ops| == s.Top().frame + 1
    ensures Good(Finish(s.(ops := s.ops[..s.Top().frame]), true, false), root)
  {
    RootOwns(s.stack);
    hide Finish, Held, ContextsOf, BlocksOf;
    FinishKeeps(s, s.(ops := s.ops[..s.Top().frame]), root);
  }

  lemma LoopKeeps(s: State, i: Input, b: Block, root: Item)
    requires Inv(s, root) && s.stack != [] && s.Top().Loop? && s.blocks != []
    ensures Good(ProcessLoop(s, i, s.Top(), b), root)
  {
    TopFrame(s, root);
    hide Parse, ProcessPredicate, Held, ContextsOf, BlocksOf;
    var it := s.Top();
    if !it.iterating {
      PredicateKeeps(s, i, it.(iterating := true), it, b, root);
    } else if b.pc == b.limit {
      SetTopKeeps(s, it.(iterating := false), s.ops, root);
    } else {
      ParseKeeps(Exec, s, i, root);
    }
  }

  lemma CondKeeps(s: State, i: Input, b: Block, root: Item)
    requires Inv(s, root) && s.stack != [] && s.Top().Cond?
    ensures Good(ProcessCond(s, i, s.Top(), b), root)
  {
    TopFrame(s, root);
    hide Parse, ProcessPredicate, Finish, Held, ContextsOf, BlocksOf;
    var it := s.Top();
    if !it.branch {
      PredicateKeeps(s, i, it.(branch := true), it.(branch := true), Block(it.elsePc, it.elseLimit), root);
    } else if b.pc == b.limit {
      assert s.ops[..it.frame] == s.ops;
      FinishKeeps(s, s, root);
    } else {
      ParseKeeps(Exec, s, i, root);
    }
  }

  lemma PopulateKeeps(s: State, i: Input, root: Item)
    requires Inv(s, root) && s.stack != [] && s.Top().Populate?
    ensures Good(Finish(s, true, true), root) && Good(Parse(Exec, s, i), root)
  {
    hide Parse, Finish, Held, ContextsOf, BlocksOf;
    assert s.ops[..|s.ops|] == s.ops;
    FinishKeeps(s, s, root);
    ParseKeeps(Exec, s, i, root);
  }

  lemma BankFieldKeeps(s: State, i: Input, root: Item)
    requires Inv(s, root) && s.stack != [] && s.Top().BankField?
    ensures Good(ProcessBankField(s, i, s.Top().frame), root)
  {
    TopFrame(s, root);
    hide Parse, Finish, Held, ContextsOf, BlocksOf;
    var it := s.Top();
    if |s.ops| != it.frame + 3 {
      ParseKeeps(Object, s, i, root);
    } else {
      assert TagOk(ModeAt(it, 2), s.ops[it.frame..][2]);
      assert s.ops[..|s.ops| - 3] == s.ops[..it.frame];
      FinishKeeps(s, s.(ops := s.ops[..it.frame]), root);
    }
  }

  /** Every step keeps the invariant, and no internal check is ever the reason a step stops. */
  lemma StepKeeps(s: State, i: Input, root: Item)
    requires Inv(s, root) && s.stack != []
    ensures Good(Process(s, i), root)
  {
    RootOwns(s.stack);
    hide Parse, Finish, ProcessMethod, ProcessBuffer, ProcessPackage, ProcessOperands, ProcessInvoke,
      ProcessReturn, ProcessLoop, ProcessCond, ProcessBankField, Held, ContextsOf, BlocksOf, Shape.Modes;
    var b := s.blocks[|s.blocks| - 1];
    var atEnd := b.pc == b.limit;
    match s.Top()
    case Populate => PopulateKeeps(s, i, root);
    case Method(_) => MethodKeeps(s, i, atEnd, root);
    case Buffer(_, _) => BufferKeeps(s, i, root);
    case Package(_, _, _, _, _, _) => PackageKeeps(s, i, atEnd, root);
    case Node(_, _) => OperandsKeep(s, i.(reduceOk := true), root);
    case Op(_, _, _) =>
      if |s.ops| == s.opCap && |s.ops| == s.Top().frame + |s.Top().shape.Modes()| {
        OperandsKeep(s.(opCap := 2 * s.opCap), i, root);
      } else {
        OperandsKeep(s, i, root);
      }
    case Invoke(_, _, _) => InvokeKeeps(s, i, root);
    case Return(_) => ReturnKeeps(s, i, root);
    case Loop(_, _, _) => LoopKeeps(s, i, b, root);
    case Cond(_, _, _, _, _) => CondKeeps(s, i, b, root);
    case BankField(_) => BankFieldKeeps(s, i, root);
  }
}
