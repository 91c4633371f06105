/**
 The xHCI producer ring: slots 0 to n - 1 carry the caller's TRBs and slot n the link back to slot 0.
 The controller follows cycle bits and links as sections 4.9.2 and 6.4.4.1 of the xHCI specification say.
 */
module Ring {

  const LINK := 6
  const TRB_SIZE := 16

  /** `toggle` is bit 1 of the control word; `parameter` is the first quadword. */
  datatype Trb = Trb(kind: nat, cycle: bool, toggle: bool, parameter: nat)

  const ZERO_TRB := Trb(0, false, false, 0)

  /** Cycle state of a lap: the first lap writes ones. */
  predicate Parity(lap: nat) { lap % 2 == 0 }

  function Stamp(t: Trb, lap: nat): Trb { t.(cycle := Parity(lap)) }

  function Blank(t: Trb): Trb { t.(cycle := false) }

  function Link(base: nat, cycle: bool): Trb { Trb(LINK, cycle, true, base) }

  // ------------------------------------------------------------------------------- controller

  datatype Controller = Controller(slot: nat, cycle: bool)
  datatype Seen = Empty | Crossed(next: Controller) | Took(trb: Trb, next: Controller)

  /** One look at the dequeue slot; a link's address is turned back into a slot of the segment at `base`. */
  function Look(s: seq<Trb>, base: nat, c: Controller): Seen {
    if c.slot >= |s| || s[c.slot].cycle != c.cycle then Empty
    else if s[c.slot].kind != LINK then Took(s[c.slot], c.(slot := c.slot + 1))
    else if s[c.slot].parameter < base then Empty
    else Crossed(Controller((s[c.slot].parameter - base) / TRB_SIZE,
                            if s[c.slot].toggle then !c.cycle else c.cycle))
  }

  // ---------------------------------------------------------------------------------- invariant

  /** The slots when position 0 of lap `lap` is TRB number `here`: the new lap up to `index`, the previous
      lap behind it, and the link that closed the previous lap. */
  ghost predicate Slots(s: seq<Trb>, base: nat, n: nat, sent: seq<Trb>, lap: nat, index: nat, here: nat) {
    && index < n < |s| && |sent| == here + index && (lap > 0 ==> here >= n)
    && (forall i :: 0 <= i < index ==> s[i] == Stamp(sent[here + i], lap))
    && (forall i :: index <= i < n ==>
          if lap == 0 then !s[i].cycle else s[i] == Stamp(sent[here - n + i], lap - 1))
    && (if lap == 0 then !s[n].cycle else s[n] == Link(base, Parity(lap - 1)))
  }

  predicate Plain(t: Trb) { t.kind != 0 && !t.cycle }

  /** The memory after `sent`, whose last TRB stands before position `index` of lap `lap`. */
  ghost predicate Holds(s: seq<Trb>, base: nat, n: nat, sent: seq<Trb>, lap: nat, index: nat) {
    Slots(s, base, n, sent, lap, index, lap * n) && forall i :: 0 <= i < |sent| ==> Plain(sent[i])
  }

  /** Controller at slot `d` of lap `k`, where slot n is the link: it has taken k * n + d TRBs. */
  predicate Synced(n: nat, lap: nat, index: nat, k: nat, d: nat) {
    (k == lap && d <= index) || (k + 1 == lap && index <= d <= n)
  }

  /** Room for one more: the TRBs outstanding, and the link if the controller has still to cross it,
      number fewer than the data slots. */
  predicate Room(n: nat, lap: nat, index: nat, k: nat, d: nat) {
    lap * n + index - (k * n + d) + (if d == n then 1 else 0) < n
  }

  lemma Laps(n: nat, k: nat)
    ensures (k + 1) * n == k * n + n && (k + 2) * n == k * n + n + n
  {
  }

  /** Positions after one more TRB. */
  function NextLap(n: nat, lap: nat, index: nat): nat { if index + 1 == n then lap + 1 else lap }
  function NextIndex(n: nat, index: nat): nat { if index + 1 == n then 0 else index + 1 }

  /** An add keeps the controller in step if and only if there was room. */
  lemma RoomIsExact(n: nat, lap: nat, index: nat, k: nat, d: nat)
    requires index < n && Synced(n, lap, index, k, d)
    ensures Synced(n, NextLap(n, lap, index), NextIndex(n, index), k, d) <==> Room(n, lap, index, k, d)
  {
    Laps(n, k);
  }

  /** In step, the controller crosses the link, or finds the ring empty because it has taken everything
      sent, or takes the next TRB in order, unless that is a link TRB which the caller sent. */
  lemma LookFollows(s: seq<Trb>, base: nat, n: nat, sent: seq<Trb>, lap: nat, index: nat, k: nat, d: nat)
    requires Holds(s, base, n, sent, lap, index) && Synced(n, lap, index, k, d)
    ensures k * n + d <= |sent| && |sent| - (k * n + d) <= n
    ensures d == n ==> Look(s, base, Controller(d, Parity(k))) == Crossed(Controller(0, Parity(k + 1)))
                       && Synced(n, lap, index, k + 1, 0)
    ensures d < n && k * n + d < |sent| ==>
              Blank(Stamp(sent[k * n + d], k)) == sent[k * n + d] && Synced(n, lap, index, k, d + 1)
              && (Look(s, base, Controller(d, Parity(k)))
                  == Took(Stamp(sent[k * n + d], k), Controller(d + 1, Parity(k)))
                  <==> sent[k * n + d].kind != LINK)
    ensures d < n && k * n + d == |sent| ==> Look(s, base, Controller(d, Parity(k))) == Empty
  {
    Laps(n, k);
    if d < n && k * n + d < |sent| {
      assert s[d] == Stamp(sent[k * n + d], k) && Plain(sent[k * n + d]);
    }
  }

  /** One add without room: TRBs are outstanding, yet the controller finds the ring empty. */
  lemma FullLooksEmpty(s: seq<Trb>, base: nat, n: nat, sent: seq<Trb>, lap: nat, index: nat, k: nat, d: nat)
    requires index < n && Synced(n, lap, index, k, d) && !Room(n, lap, index, k, d)
    requires Holds(s, base, n, sent, NextLap(n, lap, index), NextIndex(n, index))
    ensures k * n + d < |sent| && Look(s, base, Controller(d, Parity(k))) == Empty
  {
    Laps(n, k);
  }

  /** What one accepted TRB does to the slots. */
  function Placed(s: seq<Trb>, base: nat, n: nat, t: Trb, lap: nat, index: nat): seq<Trb>
    requires index < n < |s|
  {
    var s' := s[index := Stamp(t, lap)];
    if index + 1 == n then s'[n := Link(base, Parity(lap))] else s'
  }

  lemma PlacedSlots(s: seq<Trb>, base: nat, n: nat, sent: seq<Trb>, lap: nat, index: nat, here: nat, t: Trb)
    requires Slots(s, base, n, sent, lap, index, here)
    ensures Slots(Placed(s, base, n, t, lap, index), base, n, sent + [Blank(t)], NextLap(n, lap, index),
                  NextIndex(n, index), if index + 1 == n then here + n else here)
  {
  }

  lemma PlacedHolds(s: seq<Trb>, base: nat, n: nat, sent: seq<Trb>, lap: nat, index: nat, t: Trb)
    requires Holds(s, base, n, sent, lap, index) && t.kind != 0
    ensures Holds(Placed(s, base, n, t, lap, index), base, n, sent + [Blank(t)],
                  NextLap(n, lap, index), NextIndex(n, index))
  {
    hide Slots, Placed;
    Laps(n, lap);
    PlacedSlots(s, base, n, sent, lap, index, lap * n, t);
  }

  // ------------------------------------------------------------------------------------ producer

  class Ring {
    const ptr: array<Trb>
    const base: nat                        // physical address of ptr
    const maxIndex: nat
    var index: nat
    var cycle: bool
    ghost var sent: seq<Trb>               // every TRB accepted so far, cycle bit blanked
    ghost var lap: nat

    ghost predicate Valid()
      reads this, ptr
    {
      maxIndex >= 1 && Holds(ptr[..], base, maxIndex - 1, sent, lap, index) && cycle == Parity(lap)
    }

    /** XhciRingCreate on zeroed memory: the last index is rounded up to whole pages, the allocation is
        not, so the ring fits its memory only for a positive multiple of 256. */
    constructor (size: nat, address: nat)
      requires size * TRB_SIZE + 0xFFF < 0x1_0000_0000
      ensures sent == [] && lap == 0 && index == 0 && fresh(ptr) && ptr.Length == size
      ensures Valid() <==> size > 0 && size % 256 == 0
      ensures Valid() ==> maxIndex == size
    {
      var pages := (size * TRB_SIZE + 0xFFF) / 4096;
      ptr := new Trb[size](_ => ZERO_TRB);
      base, maxIndex := address, pages * 4096 / TRB_SIZE;
      index, cycle, sent, lap := 0, true, [], 0;
    }

    /** XhciRingAdd. */
    method Add(trb: Trb) returns (status: int)
      requires Valid()
      modifies this, ptr
      ensures Valid()
      ensures if trb.kind == 0
              then status == -1 && sent == old(sent) && lap == old(lap) && index == old(index)
                   && ptr[..] == old(ptr[..])
              else status == 0 && sent == old(sent) + [Blank(trb)]
                   && lap == NextLap(maxIndex - 1, old(lap), old(index)) && index == NextIndex(maxIndex - 1, old(index))
    {
      if trb.kind == 0 {
        return -1;
      }
      hide Holds, Parity;
      ghost var n, s := maxIndex - 1, ptr[..];
      Flips(lap);
      HoldsShape(s, base, n, sent, lap, index);
      PlacedHolds(s, base, n, sent, lap, index, trb);
      ghost var placed := Placed(s, base, n, trb, lap, index);
      ptr[index] := trb.(cycle := cycle);
      sent := sent + [Blank(trb)];
      index := index + 1;
      if index == maxIndex - 1 {
        ptr[index] := Link(base, cycle);
        index := 0;
        cycle := !cycle;
        lap := lap + 1;
      }
      assert ptr[..] == placed;
      status := 0;
    }
  }

  // ---------------------------------------------------------------------------------------- runs

  datatype Action = Produce(trb: Trb) | Consume

  /** A bounded queue: what was accepted, how much of it was taken, and the slot the controller stands on. */
  datatype Queue = Queue(sent: seq<Trb>, taken: nat, slot: nat)

  /** The producer is accepted if its TRB has a type and there is room; the controller crosses the link at
      slot n, or takes the next TRB, or finds the queue empty. */
  function Act(q: Queue, n: nat, a: Action): Queue {
    match a
    case Produce(trb) =>
      if trb.kind != 0 && |q.sent| - q.taken + (if q.slot == n then 1 else 0) < n then q.(sent := q.sent + [Blank(trb)])
      else q
    case Consume =>
      if q.slot == n then q.(slot := 0)
      else if q.taken < |q.sent| then Queue(q.sent, q.taken + 1, q.slot + 1)
      else q
  }

  function Acts(n: nat, actions: seq<Action>): Queue {
    if actions == [] then Queue([], 0, 0) else Act(Acts(n, actions[..|actions| - 1]), n, actions[|actions| - 1])
  }

  lemma ActsNone(n: nat)
    ensures Acts(n, []) == Queue([], 0, 0)
  {
  }

  lemma ActsGrow(n: nat, actions: seq<Action>, i: nat)
    requires i < |actions|
    ensures Acts(n, actions[..i + 1]) == Act(Acts(n, actions[..i]), n, actions[i])
  {
    assert actions[..i + 1][..i] == actions[..i];
  }

  /** Any interleaving of a producer that adds when there is room and a controller that looks when it
      likes, over any number of laps, is the bounded queue: the controller has received, in order, what the
      queue says, and off the link it finds the ring empty exactly when it has received everything. */
  method Drive(ring: Ring, actions: seq<Action>) returns (received: seq<Trb>, c: Controller)
    requires ring.Valid() && ring.sent == []
    requires forall a :: a in actions && a.Produce? ==> a.trb.kind != LINK
    modifies ring, ring.ptr
    ensures ring.Valid()
    ensures var q := Acts(ring.maxIndex - 1, actions);
            && ring.sent == q.sent && q.taken <= |q.sent| <= q.taken + ring.maxIndex - 1
            && received == q.sent[..q.taken] && c.slot == q.slot <= ring.maxIndex - 1
    ensures c.slot == ring.maxIndex - 1 ==> Look(ring.ptr[..], ring.base, c) == Crossed(Controller(0, !c.cycle))
    ensures c.slot < ring.maxIndex - 1 ==>
              (Look(ring.ptr[..], ring.base, c) == Empty <==> received == ring.sent)
  {
    hide Holds, Parity, Look, Acts;
    ActsNone(ring.maxIndex - 1);
    received := [];
    var n := ring.maxIndex - 1;
    var k, added := 0, 0;
    c := Controller(0, true);
    Flips(0);
    HoldsShape(ring.ptr[..], ring.base, n, ring.sent, ring.lap, ring.index);
    for i := 0 to |actions|
      invariant ring.Valid() && Synced(n, ring.lap, ring.index, k, c.slot) && c.cycle == Parity(k)
      invariant added == |ring.sent| == ring.lap * n + ring.index && ring.index < n
      invariant |received| == k * n + c.slot <= added && received == ring.sent[..|received|]
      invariant Acts(n, actions[..i]) == Queue(ring.sent, |received|, c.slot)
      invariant forall j :: 0 <= j < |ring.sent| ==> ring.sent[j].kind != LINK
    {
      Laps(n, k);
      Flips(k);
      ActsGrow(n, actions, i);
      match actions[i]
      case Produce(trb) =>
        assert actions[i] in actions;
        if added - |received| + (if c.slot == n then 1 else 0) < n {
          RoomIsExact(n, ring.lap, ring.index, k, c.slot);
          var status := ring.Add(trb);
          HoldsShape(ring.ptr[..], ring.base, n, ring.sent, ring.lap, ring.index);
          if status == 0 {
            added := added + 1;
          }
        }
      case Consume =>
        LookFollows(ring.ptr[..], ring.base, n, ring.sent, ring.lap, ring.index, k, c.slot);
        var seen := Look(ring.ptr[..], ring.base, c);
        match seen {
          case Empty =>
          case Crossed(next) => c, k := next, k + 1;
          case Took(trb, next) =>
            c, received := next, received + [Blank(trb)];
        }
    }
    assert actions[..|actions|] == actions;
    Flips(k);
    LookFollows(ring.ptr[..], ring.base, n, ring.sent, ring.lap, ring.index, k, c.slot);
  }

  lemma HoldsShape(s: seq<Trb>, base: nat, n: nat, sent: seq<Trb>, lap: nat, index: nat)
    requires Holds(s, base, n, sent, lap, index)
    ensures index < n < |s| && |sent| == lap * n + index
    ensures sent == [] ==> lap == 0 && index == 0
  {
    if lap > 0 {
      assert (lap - 1) * n >= 0;
    }
  }

  lemma Flips(lap: nat)
    ensures Parity(lap + 1) == !Parity(lap) && Parity(0)
  {
  }
}
