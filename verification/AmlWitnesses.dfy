/** Runs from an idle interpreter that reach the faults of BankField and of variable-length packages. */
module AmlWitnesses {
  import opened AmlMachine
  import opened AmlRuns

  const LIMIT := 99

  /** Shape of the nested operators: with one operand held each, or with none. */
  function Nesting(holding: bool): Shape { if holding then ObjObjRef else Obj }

  /** A method with `k` operators nested in one another. */
  function Items(k: nat, holding: bool): (items: seq<Item>)
    ensures |items| == k + 1
  {
    if k == 0 then [Method(true)]
    else Items(k - 1, holding) + [Op(if holding then k - 1 else 0, Nesting(holding), k > 1)]
  }

  function Tags(k: nat): (tags: seq<Tag>)
    ensures |tags| == k
  {
    if k == 0 then [] else Tags(k - 1) + [ObjectTag]
  }

  function Nested(k: nat, held: nat, holding: bool): State {
    State([true], [Block(if k == 0 then 0 else 1, LIMIT)], Items(k, holding), Tags(held), 8, 8, 16, 16)
  }

  /** The opcodes that nest one more operator. */
  function Opens(holding: bool): seq<Input> {
    [Feed(Operator(Nesting(holding)), 1)] + if holding then [Feed(Constant, 1)] else []
  }

  function Inputs(k: nat, holding: bool): seq<Input> {
    if k == 0 then [] else Inputs(k - 1, holding) + Opens(holding)
  }

  lemma OperatorStep(k: nat, holding: bool)
    requires k < 15
    ensures var held := if holding then k else 0;
            Process(Nested(k, held, holding), Feed(Operator(Nesting(holding)), 1))
            == Next(Nested(k + 1, held, holding))
  {
    hide Items, Tags;
    ItemsGrow(k, holding);
  }

  lemma ItemsGrow(k: nat, holding: bool)
    ensures Items(k + 1, holding) == Items(k, holding) + [Op(if holding then k else 0, Nesting(holding), k > 0)]
    ensures Items(k, holding)[k] == if k == 0 then Method(true)
                                    else Op(if holding then k - 1 else 0, Nesting(holding), k > 1)
  {
  }

  lemma ConstantStep(k: nat)
    requires k < 15
    ensures Process(Nested(k + 1, k, true), Feed(Constant, 1)) == Next(Nested(k + 1, k + 1, true))
  {
    hide Items;
    ItemsGrow(k + 1, true);
  }

  lemma {:induction false} NestRun(k: nat, holding: bool, rest: seq<Input>)
    requires k <= 15
    ensures Run(Nested(0, 0, holding), Inputs(k, holding) + rest)
            == Run(Nested(k, if holding then k else 0, holding), rest)
    decreases k
  {
    hide Process;
    if k > 0 {
      var more := Opens(holding) + rest;
      assert Inputs(k, holding) + rest == Inputs(k - 1, holding) + more;
      NestRun(k - 1, holding, more);
      OperatorStep(k - 1, holding);
      if holding {
        ConstantStep(k - 1);
        assert more[1..][1..] == rest;
      } else {
        assert more[1..] == rest;
      }
    } else {
      assert Inputs(0, holding) + rest == rest;
    }
  }

  lemma Starts(holding: bool)
    ensures Entered(INITIAL, Method(true), LIMIT) == Nested(0, 0, holding)
  {
  }

  /** Fifteen operands are pending when BankField wants two more slots of sixteen. */
  lemma BankFieldStops()
    ensures exists inputs :: Run(Entered(INITIAL, Method(true), LIMIT), inputs) == Panic(BankRoom)
  {
    var last := [Feed(BankFieldOp(2), 3)];
    Starts(true);
    NestRun(15, true, last);
    BankFieldStep();
  }

  lemma BankFieldStep()
    ensures Process(Nested(15, 15, true), Feed(BankFieldOp(2), 3)) == Stopped(BankRoom)
  {
    hide Items, Tags;
    ItemsGrow(15, true);
  }

  /** A variable-length package is the sixteenth item when its size is parsed: the size is on the stack,
      and the item still waits for it. */
  lemma PackageWaitsAgain()
    ensures exists inputs ::
              var r := Run(Entered(INITIAL, Method(true), LIMIT), inputs);
              && r.Running? && |r.s.ops| == 2 && r.s.stack != []
              && r.s.Top().Package? && r.s.Top().variable && r.s.Top().phase == 0
  {
    hide Process;
    var size := Feed(Name(ObjectTarget(true)), 3);
    var open := Feed(PackageOp(true, 2), 9);
    var last := [open, size];
    Starts(false);
    NestRun(14, false, last);
    PackageStep();
    SizeStep();
    assert last[1..] == [size];
    assert [size][1..] == [];
    assert Run(Nested(14, 0, false), last) == Run(WithPackage(2, 16), [size]) == Running(Sized());
    var inputs := Inputs(14, false) + last;
    assert Run(Entered(INITIAL, Method(true), LIMIT), inputs) == Running(Sized());
  }

  function WithPackage(pc: int, cap: nat): State {
    State([true], [Block(9, LIMIT), Block(pc, 9)], Items(14, false) + [Package(0, true, 0, 0, 0, true)], [ObjectTag],
          8, 8, cap, 16)
  }

  function Sized(): State { WithPackage(3, 32).(ops := [ObjectTag, ObjectTag]) }

  lemma PackageStep()
    ensures Process(Nested(14, 0, false), Feed(PackageOp(true, 2), 9)) == Next(WithPackage(2, 16))
  {
    hide Items;
    ItemsGrow(14, false);
  }

  lemma SizeStep()
    ensures Process(WithPackage(2, 16), Feed(Name(ObjectTarget(true)), 3)) == Next(Sized())
  {
    hide Items;
  }
}
