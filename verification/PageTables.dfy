/**
 Four-level page tables on a machine with 40 physical address bits.  Memory is a map from frame number to
 the 512 entries that the frame holds when it is read as a table.
 */
module PageTables {
  import opened Util

  const ENTRIES := 512
  const FRAMES := 0x1000_0000                // frame numbers have 28 bits

  datatype Entry = Entry(present: bool, writeable: bool, user: bool, cacheDisabled: bool, large: bool,
                         ppn: nat, noExecute: bool, rest: nat)

  type Mem = map<nat, seq<Entry>>

  const ZERO_ENTRY := Entry(false, false, false, false, false, 0, false, 0)

  function ZeroTable(): seq<Entry> { seq(ENTRIES, _ => ZERO_ENTRY) }

  // ----------------------------------------------------------------------------------- indices

  /** Number of the virtual page: bits 12 to 47. */
  function PageOf(v: nat): nat { v / 4096 % 0x10_0000_0000 }

  /** Bytes that one entry of a table at a level covers: 4 KiB, 2 MiB, 1 GiB and 512 GiB. */
  function Covers(level: nat): (bytes: nat)
    ensures bytes > 0
  {
    if level <= 1 then 0x1000 else if level == 2 then 0x20_0000 else if level == 3 then 0x4000_0000
    else 0x80_0000_0000
  }

  /** The nine address bits that select an entry at a level: from bit 12, 21, 30 or 39 on. */
  function AddressBits(v: nat, level: nat): (i: nat)
    ensures i < ENTRIES
  {
    v / Covers(level) % ENTRIES
  }

  /** MmGetPageIndices; level 4 is the root.  The shifts and masks select the bits that the processor uses. */
  function Index(v: nat, level: nat): (i: nat)
    ensures i < ENTRIES && (1 <= level <= 4 ==> i == AddressBits(v, level))
  {
    assert 1 <= level <= 4 ==> Shifted(v, level) == v / Covers(level) by { ShiftedDivides(v, level); }
    Shifted(v, level) % 512
  }

  /** The address after the shifts: by twelve bits, and by nine more for each level above the last. */
  function Shifted(v: nat, level: nat): nat {
    if level == 1 then v / 4096
    else if level == 2 then v / 4096 / 512
    else if level == 3 then v / 4096 / 512 / 512
    else v / 4096 / 512 / 512 / 512
  }

  lemma ShiftedDivides(v: nat, level: nat)
    ensures 1 <= level <= 4 ==> Shifted(v, level) == v / Covers(level)
  {
    DivDiv(v, 4096, 512);
    DivDiv(v, 4096 * 512, 512);
    DivDiv(v, 4096 * 512 * 512, 512);
  }

  /** The indices are the digits of the page number, base 512, the root's most significant. */
  lemma IndicesAreDigits(v: nat)
    ensures PageOf(v) == Index(v, 1) + 512 * Index(v, 2) + 512 * 512 * Index(v, 3) + 512 * 512 * 512 * Index(v, 4)
  {
    Digits(v / 4096);
  }

  /** The four indices determine the page, and the page determines the four indices. */
  lemma IndicesArePage(v: nat, w: nat)
    ensures (forall l :: 1 <= l <= 4 ==> Index(v, l) == Index(w, l)) <==> PageOf(v) == PageOf(w)
  {
    hide Index, AddressBits, PageOf;
    IndicesAreDigits(v);
    IndicesAreDigits(w);
    FourDigits(Index(v, 1), Index(v, 2), Index(v, 3), Index(v, 4), Index(w, 1), Index(w, 2), Index(w, 3), Index(w, 4));
  }

  lemma FourDigits(a: nat, b: nat, c: nat, d: nat, a': nat, b': nat, c': nat, d': nat)
    requires a < 512 && b < 512 && c < 512 && d < 512 && a' < 512 && b' < 512 && c' < 512 && d' < 512
    ensures a + 512 * b + 512 * 512 * c + 512 * 512 * 512 * d == a' + 512 * b' + 512 * 512 * c' + 512 * 512 * 512 * d'
            <==> a == a' && b == b' && c == c' && d == d'
  {
    var q, q' := b + 512 * (c + 512 * d), b' + 512 * (c' + 512 * d');
    if 512 * q + a == 512 * q' + a' {
      DivUnique(512, q, a, q', a');
      DivUnique(512, c + 512 * d, b, c' + 512 * d', b');
      DivUnique(512, d, c, d', c');
    }
  }

  lemma Digits(n: nat)
    ensures n % 0x10_0000_0000
            == n % 512 + 512 * (n / 512 % 512 + 512 * (n / 512 / 512 % 512 + 512 * (n / 512 / 512 / 512 % 512)))
  {
  }

  /** Addresses that agree above the part covered by one entry at a level have equal indices from there up: two
      addresses in one 2 MiB page from level 2 up, in one 1 GiB page from level 3 up. */
  lemma SameAbove(v: nat, w: nat, level: nat, l: nat)
    requires 1 <= level <= l <= 4 && v / Covers(level) == w / Covers(level)
    ensures Index(v, l) == Index(w, l)
  {
    Coarser(v, level, l);
    Coarser(w, level, l);
  }

  lemma Coarser(v: nat, level: nat, l: nat)
    requires 1 <= level <= l <= 4
    ensures v / Covers(l) == v / Covers(level) / (Covers(l) / Covers(level))
  {
    var a, b := Covers(level), Covers(l) / Covers(level);
    assert b > 0 && a * b == Covers(l);
    hide Covers;
    DivDiv(v, a, b);
  }

  lemma DivDiv(v: nat, a: nat, b: nat)
    requires a > 0 && b > 0
    ensures a * b > 0 && v / (a * b) == v / a / b
  {
    Regrouped(a, b, v / a / b, v / a % b, v % a);
    ModUnique(v, a * b, v / a / b, a * (v / a % b) + v % a);
  }

  lemma Regrouped(a: nat, b: nat, q: nat, r: nat, s: nat)
    requires r < b && s < a
    ensures a * b > 0 && a * (b * q + r) + s == a * b * q + (a * r + s) && a * r + s < a * b
  {
    assert a * (b * q + r) == a * b * q + a * r;
    MulAtLeast(a, b - r);
    assert a * (b - r) == a * b - a * r;
  }

  // --------------------------------------------------------------------------- hardware's view

  /** Address translation, including the 2 MiB and 1 GiB pages that the kernel's code never makes. */
  function Translate(mem: Mem, table: nat, level: nat, v: nat): Option<nat>
    decreases level
  {
    if level == 0 || table !in mem || |mem[table]| != ENTRIES then None
    else
      var e := mem[table][AddressBits(v, level)];
      if !e.present then None
      else if level == 1 || (e.large && level <= 3) then
        Some(e.ppn * 4096 / Covers(level) * Covers(level) + v % Covers(level))
      else Translate(mem, e.ppn, level - 1, v)
  }

  /** The last-level table that serves `v`, if every directory on the way exists. */
  function LastTable(mem: Mem, table: nat, level: nat, v: nat): Option<nat>
    decreases level
  {
    if level == 0 || table !in mem || |mem[table]| != ENTRIES then None
    else if level == 1 then Some(table)
    else
      var e := mem[table][Index(v, level)];
      if e.present && !e.large then LastTable(mem, e.ppn, level - 1, v) else None
  }

  /** The 4 KiB entry that serves `v`; all zeros if its table does not exist. */
  function EntryIn(mem: Mem, table: nat, level: nat, v: nat): Entry
    decreases level
  {
    if level == 0 || table !in mem || |mem[table]| != ENTRIES then ZERO_ENTRY
    else if level == 1 then mem[table][Index(v, 1)]
    else
      var e := mem[table][Index(v, level)];
      if e.present && !e.large then EntryIn(mem, e.ppn, level - 1, v) else ZERO_ENTRY
  }

  /** No directory entry that the walk for `v` looks at carries the large bit. */
  predicate NoLarge(mem: Mem, table: nat, level: nat, v: nat)
    requires forall f :: f in mem ==> |mem[f]| == ENTRIES
    decreases level
  {
    level <= 1 || table !in mem ||
    var e := mem[table][Index(v, level)];
    !e.large && (e.present ==> NoLarge(mem, e.ppn, level - 1, v))
  }

  /** Every directory entry present on the walk for `v` allows writes. */
  predicate PathWriteable(mem: Mem, table: nat, level: nat, v: nat)
    requires forall f :: f in mem ==> |mem[f]| == ENTRIES
    decreases level
  {
    level <= 1 || table !in mem ||
    var e := mem[table][Index(v, level)];
    e.present ==> e.writeable && PathWriteable(mem, e.ppn, level - 1, v)
  }

  /** Tables that MmMapMemory has to create for `v`. */
  function Missing(mem: Mem, table: nat, level: nat, v: nat): nat
    requires forall f :: f in mem ==> |mem[f]| == ENTRIES
    decreases level
  {
    if level <= 1 || table !in mem then 0
    else
      var e := mem[table][Index(v, level)];
      if e.present then Missing(mem, e.ppn, level - 1, v) else level - 1
  }

  // ------------------------------------------------------------------------------ shape of the tree

  predicate Links(mem: Mem, level: map<nat, nat>, f: nat, i: nat)
  {
    f in level && f in mem && i < |mem[f]| && level[f] > 1 && mem[f][i].present && !mem[f][i].large
  }

  function Target(mem: Mem, f: nat, i: nat): nat
    requires f in mem && i < |mem[f]|
  {
    mem[f][i].ppn
  }

  /** `level` says which frames are tables and at which level; a table has at most one parent entry. */
  ghost predicate Tree(mem: Mem, level: map<nat, nat>, root: nat) {
    && root in level && level[root] == 4
    && (forall f :: f in mem ==> |mem[f]| == ENTRIES)
    && (forall f :: f in level ==> f in mem && 1 <= level[f] <= 4)
    && (forall f, i :: f in level && level[f] == 4 && 0 <= i < ENTRIES ==> !mem[f][i].large)
    && (forall f, i :: Links(mem, level, f, i) ==>
          Target(mem, f, i) in level && level[Target(mem, f, i)] == level[f] - 1)
    && (forall f, i, g, j ::
          (Links(mem, level, f, i) && Links(mem, level, g, j) && Target(mem, f, i) == Target(mem, g, j)) ==>
          f == g && i == j)
  }

  /** Two walks that end in the same last-level table started in the same table with the same indices. */
  lemma {:induction false} OneWay(mem: Mem, level: map<nat, nat>, root: nat,
                                  f: nat, g: nat, l: nat, v: nat, w: nat)
    requires Tree(mem, level, root) && f in level && g in level && level[f] == level[g] == l
    requires LastTable(mem, f, l, v).Some? && LastTable(mem, f, l, v) == LastTable(mem, g, l, w)
    ensures f == g && forall k :: 2 <= k <= l ==> Index(v, k) == Index(w, k)
    decreases l
  {
    if l > 1 {
      assert Links(mem, level, f, Index(v, l)) && Links(mem, level, g, Index(w, l));
      OneWay(mem, level, root, Target(mem, f, Index(v, l)), Target(mem, g, Index(w, l)), l - 1, v, w);
    }
  }

  /** A leaf entry serves exactly one virtual page. */
  lemma LeafOwner(mem: Mem, level: map<nat, nat>, root: nat, v: nat, w: nat)
    requires Tree(mem, level, root) && LastTable(mem, root, 4, v).Some?
    ensures LastTable(mem, root, 4, w) == LastTable(mem, root, 4, v) && Index(w, 1) == Index(v, 1)
            <==> PageOf(w) == PageOf(v)
  {
    hide Index;
    IndicesArePage(v, w);
    if LastTable(mem, root, 4, w) == LastTable(mem, root, 4, v) {
      OneWay(mem, level, root, root, root, 4, v, w);
    }
    if PageOf(v) == PageOf(w) {
      SamePath(mem, root, 4, v, w);
    }
  }

  lemma {:induction false} SamePath(mem: Mem, f: nat, l: nat, v: nat, w: nat)
    requires l <= 4 && forall k :: 1 <= k <= 4 ==> Index(v, k) == Index(w, k)
    ensures LastTable(mem, f, l, v) == LastTable(mem, f, l, w)
    decreases l
  {
    if l > 1 && f in mem && |mem[f]| == ENTRIES {
      SamePath(mem, mem[f][Index(v, l)].ppn, l - 1, v, w);
    }
  }

  /** Where a walk ends in a leaf of 4 KiB, translation reads that leaf. */
  lemma {:induction false} TranslateLeaf(mem: Mem, f: nat, l: nat, v: nat)
    requires LastTable(mem, f, l, v).Some? && l <= 4
    ensures LastTable(mem, f, l, v).value in mem && |mem[LastTable(mem, f, l, v).value]| == ENTRIES
    ensures var e := mem[LastTable(mem, f, l, v).value][Index(v, 1)];
            Translate(mem, f, l, v) == if e.present then Some(e.ppn * 4096 + v % 4096) else None
    decreases l
  {
    hide Index;
    if l > 1 {
      TranslateLeaf(mem, mem[f][Index(v, l)].ppn, l - 1, v);
    }
  }

  // ---------------------------------------------------------------------------------- two updates

  /** Hanging a fresh zeroed table under an absent entry. */
  function Linked(mem: Mem, f: nat, i: nat, new_: nat): Mem
    requires f in mem && i < |mem[f]|
  {
    mem[new_ := ZeroTable()][f := mem[f][i := mem[f][i].(ppn := new_, present := true, writeable := true)]]
  }

  ghost predicate CanLink(mem: Mem, level: map<nat, nat>, root: nat, f: nat, i: nat, new_: nat) {
    && Tree(mem, level, root) && f in level && level[f] > 1 && i < ENTRIES
    && !mem[f][i].present && !mem[f][i].large && new_ !in level
  }

  lemma LinkedTree(mem: Mem, level: map<nat, nat>, root: nat, f: nat, i: nat, new_: nat)
    requires CanLink(mem, level, root, f, i, new_)
    ensures Tree(Linked(mem, f, i, new_), level[new_ := level[f] - 1], root)
  {
    var mem', level' := Linked(mem, f, i, new_), level[new_ := level[f] - 1];
    forall g, j | Links(mem', level', g, j)
      ensures if g == f && j == i then Target(mem', g, j) == new_
              else Links(mem, level, g, j) && Target(mem', g, j) == Target(mem, g, j)
    {
    }
    forall g, j | g in level' && level'[g] == 4 && 0 <= j < ENTRIES ensures !mem'[g][j].large {
    }
    assert forall g :: g in level' ==> g in mem' && 1 <= level'[g] <= 4;
    forall g, j | Links(mem', level', g, j)
      ensures Target(mem', g, j) in level' && level'[Target(mem', g, j)] == level'[g] - 1
    {
    }
  }

  /** It changes no translation. */
  lemma {:induction false} LinkedTranslate(mem: Mem, level: map<nat, nat>, root: nat, f: nat, i: nat, new_: nat,
                                           g: nat, l: nat, v: nat)
    requires CanLink(mem, level, root, f, i, new_) && g in level && level[g] == l
    ensures Translate(Linked(mem, f, i, new_), g, l, v) == Translate(mem, g, l, v)
    decreases l
  {
    hide Index;
    var mem' := Linked(mem, f, i, new_);
    var e := mem[g][Index(v, l)];
    if g == f && Index(v, l) == i {
      assert mem'[new_] == ZeroTable();
    } else if l > 1 && e.present && !e.large {
      assert Links(mem, level, g, Index(v, l)) && Target(mem, g, Index(v, l)) == e.ppn;
      LinkedTranslate(mem, level, root, f, i, new_, e.ppn, l - 1, v);
    }
  }

  /** Walks that reached a last-level table still reach it, and find it as it was. */
  lemma {:induction false} LinkedPath(mem: Mem, level: map<nat, nat>, root: nat, f: nat, i: nat, new_: nat,
                                      g: nat, l: nat, v: nat)
    requires CanLink(mem, level, root, f, i, new_) && g in level && level[g] == l
    requires LastTable(mem, g, l, v).Some?
    ensures LastTable(Linked(mem, f, i, new_), g, l, v) == LastTable(mem, g, l, v)
    ensures var t := LastTable(mem, g, l, v).value;
            t in mem && t in Linked(mem, f, i, new_) && Linked(mem, f, i, new_)[t] == mem[t]
    decreases l
  {
    hide Index;
    if l > 1 {
      var e := mem[g][Index(v, l)];
      assert Links(mem, level, g, Index(v, l)) && Target(mem, g, Index(v, l)) == e.ppn;
      LinkedPath(mem, level, root, f, i, new_, e.ppn, l - 1, v);
    }
  }

  /** Every entry reads as before; those of the new table read as zeros. */
  lemma {:induction false} LinkedEntry(mem: Mem, level: map<nat, nat>, root: nat, f: nat, i: nat, new_: nat,
                                       g: nat, l: nat, v: nat)
    requires CanLink(mem, level, root, f, i, new_) && g in level && level[g] == l
    ensures EntryIn(Linked(mem, f, i, new_), g, l, v) == EntryIn(mem, g, l, v)
    decreases l
  {
    hide Index;
    var mem' := Linked(mem, f, i, new_);
    var e := mem[g][Index(v, l)];
    if g == f && Index(v, l) == i {
      assert mem'[new_] == ZeroTable();
    } else if l > 1 && e.present && !e.large {
      assert Links(mem, level, g, Index(v, l)) && Target(mem, g, Index(v, l)) == e.ppn;
      LinkedEntry(mem, level, root, f, i, new_, e.ppn, l - 1, v);
    }
  }

  lemma {:induction false} EntryLeaf(mem: Mem, f: nat, l: nat, v: nat)
    ensures LastTable(mem, f, l, v).None? ==> EntryIn(mem, f, l, v) == ZERO_ENTRY
    ensures LastTable(mem, f, l, v).Some? ==>
              var t := LastTable(mem, f, l, v).value;
              t in mem && |mem[t]| == ENTRIES && EntryIn(mem, f, l, v) == mem[t][Index(v, 1)]
    decreases l
  {
    hide Index;
    if l > 1 && f in mem && |mem[f]| == ENTRIES {
      EntryLeaf(mem, mem[f][Index(v, l)].ppn, l - 1, v);
    }
  }

  lemma OtherStoresTree(mem: Mem, level: map<nat, nat>, root: nat, f: nat, words: seq<Entry>)
    requires Tree(mem, level, root) && f !in level && |words| == ENTRIES
    ensures Tree(mem[f := words], level, root)
  {
    var mem' := mem[f := words];
    forall h, j | Links(mem', level, h, j)
      ensures Links(mem, level, h, j) && Target(mem', h, j) == Target(mem, h, j)
    {
    }
    assert forall h, j :: h in level && level[h] == 4 && 0 <= j < ENTRIES ==> mem'[h][j] == mem[h][j];
  }

  /** Whoever writes to a frame that is no table changes no translation. */
  lemma {:induction false} OtherStores(mem: Mem, level: map<nat, nat>, root: nat, f: nat, words: seq<Entry>,
                                       g: nat, l: nat, v: nat)
    requires Tree(mem, level, root) && f !in level && |words| == ENTRIES && g in level && level[g] == l
    ensures Translate(mem[f := words], g, l, v) == Translate(mem, g, l, v)
    ensures LastTable(mem[f := words], g, l, v) == LastTable(mem, g, l, v)
    ensures EntryIn(mem[f := words], g, l, v) == EntryIn(mem, g, l, v)
    decreases l
  {
    hide Index;
    var e := mem[g][Index(v, l)];
    if l > 1 && e.present && !e.large {
      assert Links(mem, level, g, Index(v, l)) && Target(mem, g, Index(v, l)) == e.ppn;
      OtherStores(mem, level, root, f, words, e.ppn, l - 1, v);
    }
  }

  /** Overwriting entry `i` of a last-level table. */
  function Leafed(mem: Mem, f: nat, i: nat, e: Entry): Mem
    requires f in mem && i < |mem[f]|
  {
    mem[f := mem[f][i := e]]
  }

  lemma LeafedTree(mem: Mem, level: map<nat, nat>, root: nat, f: nat, i: nat, e: Entry)
    requires Tree(mem, level, root) && f in level && level[f] == 1 && i < ENTRIES
    ensures Tree(Leafed(mem, f, i, e), level, root)
  {
    forall g, j | Links(Leafed(mem, f, i, e), level, g, j)
      ensures Links(mem, level, g, j) && Target(Leafed(mem, f, i, e), g, j) == Target(mem, g, j)
    {
    }
  }

  lemma {:induction false} LeafedPath(mem: Mem, level: map<nat, nat>, root: nat, f: nat, i: nat, e: Entry,
                                      g: nat, l: nat, v: nat)
    requires Tree(mem, level, root) && f in level && level[f] == 1 && i < ENTRIES && g in level && level[g] == l
    ensures LastTable(Leafed(mem, f, i, e), g, l, v) == LastTable(mem, g, l, v)
    ensures LastTable(mem, g, l, v).None? ==>
              Translate(Leafed(mem, f, i, e), g, l, v) == Translate(mem, g, l, v)
    decreases l
  {
    hide Index;
    if l > 1 && mem[g][Index(v, l)].present && !mem[g][Index(v, l)].large {
      assert Links(mem, level, g, Index(v, l)) && Target(mem, g, Index(v, l)) == mem[g][Index(v, l)].ppn;
      LeafedPath(mem, level, root, f, i, e, mem[g][Index(v, l)].ppn, l - 1, v);
    }
  }

  lemma {:induction false} LeafedWriteable(mem: Mem, level: map<nat, nat>, root: nat, f: nat, i: nat, e: Entry,
                                           g: nat, l: nat, v: nat)
    requires Tree(mem, level, root) && f in level && level[f] == 1 && i < ENTRIES && g in level && level[g] == l
    requires PathWriteable(mem, g, l, v) && NoLarge(mem, g, l, v)
    ensures forall h :: h in Leafed(mem, f, i, e) ==> |Leafed(mem, f, i, e)[h]| == ENTRIES
    ensures PathWriteable(Leafed(mem, f, i, e), g, l, v)
    decreases l
  {
    hide Index;
    if l > 1 && mem[g][Index(v, l)].present {
      assert Links(mem, level, g, Index(v, l)) && Target(mem, g, Index(v, l)) == mem[g][Index(v, l)].ppn;
      LeafedWriteable(mem, level, root, f, i, e, mem[g][Index(v, l)].ppn, l - 1, v);
    }
  }

  /** It changes the translation of the one page that the leaf serves, and of no other page. */
  lemma LeafedTranslate(mem: Mem, level: map<nat, nat>, root: nat, v: nat, e: Entry, w: nat)
    requires Tree(mem, level, root) && LastTable(mem, root, 4, v).Some?
    ensures LastTable(mem, root, 4, v).value in mem && |mem[LastTable(mem, root, 4, v).value]| == ENTRIES
    ensures var mem' := Leafed(mem, LastTable(mem, root, 4, v).value, Index(v, 1), e);
            && LastTable(mem', root, 4, w) == LastTable(mem, root, 4, w)
            && EntryIn(mem', root, 4, w) == (if PageOf(w) == PageOf(v) then e else EntryIn(mem, root, 4, w))
            && Translate(mem', root, 4, w)
                 == if PageOf(w) != PageOf(v) then Translate(mem, root, 4, w)
                    else if e.present then Some(e.ppn * 4096 + w % 4096) else None
  {
    hide Index, PageOf, Translate, LastTable, Tree, EntryIn;
    TranslateLeaf(mem, root, 4, v);
    Unfold(mem, level, root);
    LastLevel(mem, level, root, root, 4, v);
    var f := LastTable(mem, root, 4, v).value;
    LeafedPath(mem, level, root, f, Index(v, 1), e, root, 4, w);
    LeafOwner(mem, level, root, v, w);
    EntryLeaf(mem, root, 4, w);
    EntryLeaf(Leafed(mem, f, Index(v, 1), e), root, 4, w);
    if LastTable(mem, root, 4, w).Some? {
      TranslateLeaf(mem, root, 4, w);
      TranslateLeaf(Leafed(mem, f, Index(v, 1), e), root, 4, w);
    }
  }

  lemma Unfold(mem: Mem, level: map<nat, nat>, root: nat)
    requires Tree(mem, level, root)
    ensures root in level && level[root] == 4 && forall f :: f in mem ==> |mem[f]| == ENTRIES
    ensures forall f :: f in level ==> f in mem
  {
  }

  lemma {:induction false} LastLevel(mem: Mem, level: map<nat, nat>, root: nat, g: nat, l: nat, v: nat)
    requires Tree(mem, level, root) && g in level && level[g] == l && LastTable(mem, g, l, v).Some?
    ensures LastTable(mem, g, l, v).value in level && level[LastTable(mem, g, l, v).value] == 1
    decreases l
  {
    hide Index;
    if l > 1 {
      assert Links(mem, level, g, Index(v, l)) && Target(mem, g, Index(v, l)) == mem[g][Index(v, l)].ppn;
      LastLevel(mem, level, root, mem[g][Index(v, l)].ppn, l - 1, v);
    }
  }
}
