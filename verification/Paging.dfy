/**
 The kernel's address space: the page tables below the root that CR3 names and the frame allocator that
 they take their frames from.  Physical memory is identity mapped, as the kernel itself assumes when it
 uses a frame's address as a pointer.
 */
module Paging {
  import opened Util
  import opened Frames
  import opened PageTables

  /** The four permission flags as MmGetPagePermissions packs them. */
  function Flags(e: Entry): bv8 {
    (if e.writeable then 1 else 0) | (if e.user then 2 else 0)
    | (if e.noExecute then 4 else 0) | (if e.cacheDisabled then 8 else 0)
  }

  function WithFlags(e: Entry, permissions: bv8): Entry {
    e.(writeable := permissions & 1 != 0, user := permissions & 2 != 0,
       noExecute := permissions & 4 != 0, cacheDisabled := permissions & 8 != 0)
  }

  /** Bit 0 allows writes, bit 1 user access, bit 2 forbids execution, bit 3 disables the cache. */
  lemma FlagBits(e: Entry, permissions: bv8)
    ensures var e' := WithFlags(e, permissions);
            && (e'.writeable <==> permissions & 0x1 != 0) && (e'.user <==> permissions & 0x2 != 0)
            && (e'.noExecute <==> permissions & 0x4 != 0) && (e'.cacheDisabled <==> permissions & 0x8 != 0)
    ensures && (e.writeable <==> Flags(e) & 0x1 != 0) && (e.user <==> Flags(e) & 0x2 != 0)
            && (e.noExecute <==> Flags(e) & 0x4 != 0) && (e.cacheDisabled <==> Flags(e) & 0x8 != 0)
  {
  }

  /** What MmMapMemory makes of the entry of the page that it maps. */
  function MappedTo(e: Entry, physical: nat): Entry {
    e.(ppn := physical / 4096 % FRAMES, present := true, writeable := true)
  }

  lemma MappedFlags(e: Entry, physical: nat)
    ensures Flags(MappedTo(e, physical)) == Flags(e) | 1
  {
  }

  /** The flags written are the flags read, bits 0 to 3; and setting what was read changes nothing. */
  lemma FlagsRoundTrip(e: Entry, permissions: bv8)
    ensures Flags(WithFlags(e, permissions)) == permissions & 0xF
    ensures WithFlags(e, Flags(e)) == e
    ensures Flags(e) & 0xF == Flags(e)
    ensures WithFlags(e, permissions).present == e.present && WithFlags(e, permissions).ppn == e.ppn
  {
  }

  lemma TakenAfter(before: seq<bv8>, x: nat)
    requires x / 8 < |before|
    ensures forall y: nat :: y / 8 < |before| ==>
              GetBit(SetBit(before, x), y) == (x == y || GetBit(before, y))
              && GetBit(ClearBit(before, x), y) == (x != y && GetBit(before, y))
  {
    hide ByteGet, ByteSet, ByteClear;
    hide GetBit;
    forall y: nat | y / 8 < |before|
      ensures GetBit(SetBit(before, x), y) == (x == y || GetBit(before, y))
      ensures GetBit(ClearBit(before, x), y) == (x != y && GetBit(before, y))
    {
      BitUpdate(before, x, y);
    }
  }

  /** The entry that serves `v`. */
  function Leaf(mem: Mem, root: nat, v: nat): Entry
    requires LastTable(mem, root, 4, v).Some?
  {
    TranslateLeaf(mem, root, 4, v);
    mem[LastTable(mem, root, 4, v).value][Index(v, 1)]
  }

  class AddressSpace {
    const root: nat                          // kPML4
    const alloc: Allocator
    var mem: Mem
    ghost var level: map<nat, nat>           // the frames that serve as page tables
    ghost var live: set<nat>                 // the frames handed out and not yet freed

    predicate Ours(f: nat) {
      alloc.firstPage <= f < alloc.firstPage + alloc.total
    }

    /** Every table and every live frame of the allocator's region is marked as taken. */
    ghost predicate Owned()
      requires alloc.Shaped()
      reads this, alloc, alloc.bitfield
    {
      && alloc.firstPage + alloc.total <= FRAMES
      && (forall f :: Ours(f) ==> f in mem)
      && (forall f :: f in level && Ours(f) ==> alloc.Taken(f - alloc.firstPage))
      && (forall f :: f in live ==> Ours(f) && alloc.Taken(f - alloc.firstPage) && f !in level)
    }

    ghost predicate Valid()
      reads this, alloc, alloc.bitfield
    {
      alloc.Valid() && Tree(mem, level, root) && Owned()
    }

    /** Of the region, exactly `kept`, the live frames and the page tables are taken. */
    ghost predicate NoneLost(kept: set<nat>)
      requires alloc.Shaped()
      reads this, alloc, alloc.bitfield
    {
      && kept !! live
      && forall f: nat :: Ours(f) ==> (alloc.Taken(f - alloc.firstPage) <==> f in kept || f in live || f in level)
    }

    /** What the hardware translates `v` to. */
    ghost function At(v: nat): Option<nat>
      reads this
    {
      Translate(mem, root, 4, v)
    }

    /** The entry of the 4 KiB page that `v` lies in; zeros if its tables do not exist. */
    ghost function EntryAt(v: nat): Entry
      reads this
    {
      EntryIn(mem, root, 4, v)
    }

    /** The flags of the 4 KiB page that `v` lies in, if its tables exist. */
    ghost function Permissions(v: nat): Option<bv8>
      reads this
    {
      PermissionsIn(mem, root, v)
    }

    /** MmInitializePaging adopts the tables that the boot loader left outside the allocator's region. */
    constructor (cr3: nat, frames: Allocator, memory: Mem, ghost tables: map<nat, nat>)
      requires frames.Valid() && frames.firstPage + frames.total <= FRAMES && Tree(memory, tables, cr3)
      requires forall f :: frames.firstPage <= f < frames.firstPage + frames.total ==> f in memory && f !in tables
      ensures Valid() && root == cr3 && alloc == frames && mem == memory && level == tables && live == {}
    {
      hide Tree, GetBit, ClearIn;
      root, alloc, mem, level, live := cr3, frames, memory, tables, {};
    }

    /** MmRequestPage for a caller: the frame was neither live nor a page table. */
    method RequestPage() returns (page: nat)
      requires Valid() && alloc.Left() > 0
      modifies this`live, alloc, alloc.bitfield
      ensures Valid() && Ours(page) && page !in old(live) && page !in level && live == old(live) + {page}
      ensures page == alloc.firstPage + old(NextFree(alloc.Now(), alloc.total))
      ensures alloc.Now() == Grant(old(alloc.Now()), alloc.total) && alloc.Left() == old(alloc.Left()) - 1
      ensures forall kept :: old(NoneLost(kept)) ==> NoneLost(kept)
    {
      hide GetBit, SetBit, ClearBit, ClearIn, Tree, NextFree, Avail;
      page := NewFrame();
      live := live + {page};
    }

    method NewFrame() returns (page: nat)
      requires Valid() && alloc.Left() > 0
      modifies alloc, alloc.bitfield
      ensures Valid() && Ours(page) && page !in live && page !in level
      ensures page == alloc.firstPage + old(NextFree(alloc.Now(), alloc.total))
      ensures alloc.Now() == Grant(old(alloc.Now()), alloc.total) && alloc.Left() == old(alloc.Left()) - 1
      ensures !old(alloc.Taken(page - alloc.firstPage))
      ensures forall f: nat :: Ours(f) ==>
                alloc.Taken(f - alloc.firstPage) == (f == page || old(alloc.Taken(f - alloc.firstPage)))
    {
      hide GetBit, ByteSet, ByteClear, ClearIn, Tree, NextFree, Avail;
      ghost var before := alloc.bitfield[..];
      var x := alloc.RequestPage();
      TakenAfter(before, x);
      page := alloc.firstPage + x;
    }

    /** MmFreePage on a live frame. */
    method FreePage(page: nat)
      requires Valid() && page in live
      modifies this`live, alloc, alloc.bitfield
      ensures Valid() && Ours(page) && live == old(live) - {page} && alloc.Left() >= old(alloc.Left())
      ensures alloc.Now() == old(Bitmap(ClearBit(alloc.bitfield[..], page - alloc.firstPage), alloc.cursor))
      ensures forall kept :: old(NoneLost(kept)) ==> NoneLost(kept)
    {
      hide GetBit, ByteSet, ByteClear, ClearIn, Tree, Avail;
      TakenAfter(alloc.bitfield[..], page - alloc.firstPage);
      live := live - {page};
      alloc.FreePage(page);
    }

    /** The block that MmMapMemory repeats for each directory level: follow entry Index(v, l) of table `f`,
        first hanging a zeroed table under it if it is absent.  No translation and no live frame changes. */
    method Descend(f: nat, l: nat, v: nat) returns (page: nat, made: seq<nat>)
      requires Valid() && f in level && level[f] == l && l > 1
      requires NoLarge(mem, f, l, v) && Missing(mem, f, l, v) <= alloc.Left()
      modifies this`mem, this`level, alloc, alloc.bitfield
      ensures Valid() && page in level && level[page] == l - 1
      ensures Links(mem, level, f, Index(v, l)) && Target(mem, f, Index(v, l)) == page
      ensures NoLarge(mem, page, l - 1, v)
      ensures old(PathWriteable(mem, f, l, v)) ==>
                mem[f][Index(v, l)].writeable && PathWriteable(mem, page, l - 1, v)
      ensures alloc.Left() - Missing(mem, page, l - 1, v) == old(alloc.Left() - Missing(mem, f, l, v))
      ensures forall w: nat :: At(w) == old(At(w))
      ensures forall w: nat :: EntryAt(w) == old(EntryAt(w))
      ensures forall w: nat :: old(Permissions(w)).Some? ==> Permissions(w) == old(Permissions(w))
      ensures forall g :: g in old(level) ==> g in level && level[g] == old(level[g])
      ensures forall g :: g != f && (g in old(level) || g in live) ==>
                g in old(mem) && g in mem && mem[g] == old(mem[g])
      ensures l == 2 ==> Missing(mem, page, 1, v) == 0
      ensures |made| == old(Missing(mem, f, l, v)) - Missing(mem, page, l - 1, v)
      ensures Made(made, old(level), level, live)
      ensures Draw(old(alloc.Now()), alloc.total, alloc.firstPage, made) == Some(alloc.Now())
      ensures forall kept :: old(NoneLost(kept)) ==> NoneLost(kept)
    {
      hide GetBit, SetBit, ClearBit, ClearIn, Index, NextFree, Avail;
      var e := mem[f][Index(v, l)];
      if !e.present {
        ghost var b := alloc.Now();
        page := NewFrame();
        made := [page];
        DrawOne(b, alloc.total, alloc.firstPage, page);
        Hang(f, Index(v, l), page);
        assert mem[page] == ZeroTable();
      } else {
        page, made := e.ppn, [];
        assert Links(mem, level, f, Index(v, l)) && Target(mem, f, Index(v, l)) == page;
      }
    }

    method Hang(f: nat, i: nat, page: nat)
      requires Valid() && CanLink(mem, level, root, f, i, page)
      requires Ours(page) && page !in live && alloc.Taken(page - alloc.firstPage)
      modifies this`mem, this`level
      ensures Valid() && mem == Linked(old(mem), f, i, page) && level == old(level)[page := old(level[f]) - 1]
      ensures forall w: nat :: At(w) == old(At(w))
      ensures forall w: nat :: EntryAt(w) == old(EntryAt(w))
      ensures forall w: nat :: old(Permissions(w)).Some? ==> Permissions(w) == old(Permissions(w))
    {
      hide GetBit, ClearIn, Index, Translate, LastTable, EntryIn, Flags;
      LinkedTree(mem, level, root, f, i, page);
      forall w: nat
        ensures Translate(Linked(mem, f, i, page), root, 4, w) == At(w)
        ensures EntryIn(Linked(mem, f, i, page), root, 4, w) == EntryAt(w)
        ensures Permissions(w).Some? ==> PermissionsIn(Linked(mem, f, i, page), root, w) == Permissions(w)
      {
        LinkedTranslate(mem, level, root, f, i, page, root, 4, w);
        LinkedEntry(mem, level, root, f, i, page, root, 4, w);
        if Permissions(w).Some? {
          LinkedPath(mem, level, root, f, i, page, root, 4, w);
        }
      }
      var e := mem[f][i];
      mem := mem[page := ZeroTable()];
      mem := mem[f := mem[f][i := e.(ppn := page, present := true, writeable := true)]];
      level := level[page := level[f] - 1];
    }

    /** MmMapMemory, with the frames that became page tables, in the order in which they were requested. */
    method MapMemory(virtual: nat, physical: nat) returns (tables: seq<nat>)
      requires Valid() && NoLarge(mem, root, 4, virtual) && Missing(mem, root, 4, virtual) <= alloc.Left()
      modifies this`mem, this`level, alloc, alloc.bitfield
      ensures Valid() && LastTable(mem, root, 4, virtual).Some?
      ensures forall w: nat :: At(w) == if PageOf(w) == PageOf(virtual)
                                        then Some(physical / 4096 % FRAMES * 4096 + w % 4096) else old(At(w))
      ensures forall w: nat :: PageOf(w) != PageOf(virtual) && old(Permissions(w)).Some? ==>
                Permissions(w) == old(Permissions(w))
      ensures forall w: nat :: EntryAt(w) == if PageOf(w) == PageOf(virtual) then MappedTo(old(EntryAt(w)), physical)
                                             else old(EntryAt(w))
      ensures forall w: nat :: old(Permissions(w)).Some? ==> Permissions(w).Some?
      ensures Permissions(virtual) == if old(Permissions(virtual)).None? then Some(1)
                                      else Some(old(Permissions(virtual)).value | 1)
      ensures old(PathWriteable(mem, root, 4, virtual)) ==> PathWriteable(mem, root, 4, virtual)
      ensures At(virtual) == Some(physical - physical % 4096 + virtual % 4096) <==> physical < FRAMES * 4096
      ensures alloc.Left() == old(alloc.Left()) - old(Missing(mem, root, 4, virtual))
      ensures Made(tables, old(level), level, live) && |tables| == old(Missing(mem, root, 4, virtual))
      ensures Draw(old(alloc.Now()), alloc.total, alloc.firstPage, tables) == Some(alloc.Now())
      ensures forall kept :: old(NoneLost(kept)) ==> NoneLost(kept)
      ensures forall g :: g in live ==> g in mem && g in old(mem) && mem[g] == old(mem[g])
    {
      hide GetBit, SetBit, ClearBit, ClearIn, Index, PageOf, Tree, Translate, LastTable, NoLarge, Missing,
           PathWriteable, PermissionsIn, Draw, Made, Avail, EntryIn, Flags, Leaf;
      Unfold(mem, level, root);
      FlagsOf(mem, root, virtual);
      ghost var writeable := PathWriteable(mem, root, 4, virtual);
      var pt;
      pt, tables := Descend3(virtual);
      Unfold(mem, level, root);
      ghost var before := EntryAt(virtual);
      EntryLeaf(mem, root, 4, virtual);
      MappedFlags(before, physical);
      SamePageEntry(mem, level, root, virtual);
      var pte := mem[pt][Index(virtual, 1)].(ppn := physical / 4096 % FRAMES, present := true, writeable := true);
      if writeable {
        LastLevel(mem, level, root, root, 4, virtual);
        LeafedWriteable(mem, level, root, pt, Index(virtual, 1), pte, root, 4, virtual);
      }
      SetLeaf(virtual, pt, pte);
    }

    /** The three directory levels of MmMapMemory. */
    method Descend3(v: nat) returns (pt: nat, tables: seq<nat>)
      requires Valid() && NoLarge(mem, root, 4, v) && Missing(mem, root, 4, v) <= alloc.Left()
      modifies this`mem, this`level, alloc, alloc.bitfield
      ensures Valid() && LastTable(mem, root, 4, v) == Some(pt) && pt in mem && |mem[pt]| == ENTRIES
      ensures forall w: nat :: At(w) == old(At(w))
      ensures forall w: nat :: EntryAt(w) == old(EntryAt(w))
      ensures forall w: nat :: old(Permissions(w)).Some? ==> Permissions(w) == old(Permissions(w))
      ensures old(PathWriteable(mem, root, 4, v)) ==> PathWriteable(mem, root, 4, v)
      ensures NoLarge(mem, root, 4, v)
      ensures alloc.Left() == old(alloc.Left()) - old(Missing(mem, root, 4, v))
      ensures Made(tables, old(level), level, live) && |tables| == old(Missing(mem, root, 4, v))
      ensures Draw(old(alloc.Now()), alloc.total, alloc.firstPage, tables) == Some(alloc.Now())
      ensures forall kept :: old(NoneLost(kept)) ==> NoneLost(kept)
      ensures forall g :: g in live ==> g in mem && g in old(mem) && mem[g] == old(mem[g])
    {
      hide GetBit, SetBit, ClearBit, ClearIn, Index, PageOf, Tree, Translate, LastTable, NoLarge, Missing,
           PathWriteable, PermissionsIn, Draw, Made, NoneLost, Avail;
      Unfold(mem, level, root);
      ghost var b, level0 := alloc.Now(), level;
      var pdp, pdps := Descend(root, 4, v);
      ghost var level1 := level;
      var pd, pds := Descend(pdp, 3, v);
      ghost var level2 := level;
      var pts;
      pt, pts := Descend(pd, 2, v);
      tables := pdps + pds + pts;
      DrawMore(b, alloc.total, alloc.firstPage, pdps, pds);
      DrawMore(b, alloc.total, alloc.firstPage, pdps + pds, pts);
      MadeMore(pdps, pds, level0, level1, level2, live);
      MadeMore(pdps + pds, pts, level0, level2, level, live);
      ThreeLinks(mem, level, root, pdp, pd, pt, v);
      Unfold(mem, level, root);
    }

    method SetLeaf(v: nat, table: nat, e: Entry)
      requires Valid() && LastTable(mem, root, 4, v) == Some(table)
      modifies this`mem
      ensures table in old(mem) && |old(mem)[table]| == ENTRIES
      ensures table in level && level[table] == 1 && mem == Leafed(old(mem), table, Index(v, 1), e)
      ensures Valid() && LastTable(mem, root, 4, v) == Some(table) && Leaf(mem, root, v) == e
      ensures forall w: nat :: At(w) == if PageOf(w) != PageOf(v) then old(At(w))
                                   else if e.present then Some(e.ppn * 4096 + w % 4096) else None
      ensures forall w: nat :: EntryAt(w) == if PageOf(w) == PageOf(v) then e else old(EntryAt(w))
      ensures forall w: nat :: PageOf(w) != PageOf(v) ==> Permissions(w) == old(Permissions(w))
      ensures forall w: nat :: PageOf(w) == PageOf(v) ==> Permissions(w) == Some(Flags(e))
    {
      hide GetBit, ClearIn, Index, PageOf, Tree, Translate, LastTable, EntryIn, Flags;
      LeafedTranslate(mem, level, root, v, e, v);
      Unfold(mem, level, root);
      LastLevel(mem, level, root, root, 4, v);
      LeafedTree(mem, level, root, table, Index(v, 1), e);
      forall w: nat
        ensures var mem' := Leafed(mem, table, Index(v, 1), e);
                && Translate(mem', root, 4, w)
                   == (if PageOf(w) != PageOf(v) then At(w)
                       else if e.present then Some(e.ppn * 4096 + w % 4096) else None)
                && EntryIn(mem', root, 4, w) == (if PageOf(w) == PageOf(v) then e else EntryAt(w))
                && PermissionsIn(mem', root, w) == if PageOf(w) != PageOf(v) then Permissions(w) else Some(Flags(e))
      {
        LeafedTranslate(mem, level, root, v, e, w);
        LeafedFlags(mem, level, root, v, e, w);
      }
      mem := mem[table := mem[table][Index(v, 1) := e]];
    }

    /** The walk shared by the functions below; none of them looks at a present bit. */
    method Walk(v: nat) returns (table: nat)
      requires Valid() && LastTable(mem, root, 4, v).Some?
      ensures LastTable(mem, root, 4, v) == Some(table) && table in mem && |mem[table]| == ENTRIES
    {
      hide Index, GetBit, ClearIn;
      TranslateLeaf(mem, root, 4, v);
      var pde := mem[root][Index(v, 4)];
      assert LastTable(mem, pde.ppn, 3, v) == LastTable(mem, root, 4, v);
      var pd := pde.ppn;
      pde := mem[pd][Index(v, 3)];
      assert LastTable(mem, pde.ppn, 2, v) == LastTable(mem, root, 4, v);
      pd := pde.ppn;
      pde := mem[pd][Index(v, 2)];
      table := pde.ppn;
    }

    /** MmGetPhysicalAddress agrees with the hardware wherever the page is present. */
    method GetPhysicalAddress(v: nat) returns (r: nat)
      requires Valid() && LastTable(mem, root, 4, v).Some?
      ensures At(v).Some? ==> At(v) == Some(r)
    {
      hide Index, GetBit, ClearIn, Tree;
      TranslateLeaf(mem, root, 4, v);
      var pt := Walk(v);
      r := mem[pt][Index(v, 1)].ppn * 4096 + v % 4096;
    }

    /** MmSetPagePermissions. */
    method SetPagePermissions(v: nat, permissions: bv8)
      requires Valid() && LastTable(mem, root, 4, v).Some?
      modifies this`mem
      ensures Valid() && forall w: nat :: At(w) == old(At(w))
      ensures forall w: nat :: EntryAt(w) == if PageOf(w) == PageOf(v) then WithFlags(old(EntryAt(v)), permissions)
                                             else old(EntryAt(w))
      ensures var e := EntryAt(v);
              && (e.writeable <==> permissions & 0x1 != 0) && (e.user <==> permissions & 0x2 != 0)
              && (e.noExecute <==> permissions & 0x4 != 0) && (e.cacheDisabled <==> permissions & 0x8 != 0)
      ensures forall w: nat :: Permissions(w) == if PageOf(w) == PageOf(v) then Some(permissions & 0xF)
                                                 else old(Permissions(w))
      ensures LastTable(mem, root, 4, v).Some?
      ensures forall g :: g in live ==> g in mem && g in old(mem) && mem[g] == old(mem[g])
    {
      hide Index, GetBit, ClearIn, Tree, Flags, WithFlags, Translate, LastTable, PageOf, EntryIn;
      TranslateLeaf(mem, root, 4, v);
      EntryLeaf(mem, root, 4, v);
      var pt := Walk(v);
      ghost var e := mem[pt][Index(v, 1)];
      FlagBits(e, permissions);
      FlagsRoundTrip(e, permissions);
      forall w: nat | PageOf(w) == PageOf(v)
        ensures At(w) == if e.present then Some(e.ppn * 4096 + w % 4096) else None
      {
        LeafOwner(mem, level, root, v, w);
        TranslateLeaf(mem, root, 4, w);
      }
      SetLeaf(v, pt, WithFlags(mem[pt][Index(v, 1)], permissions));
    }

    /** MmGetPagePermissions. */
    method GetPagePermissions(v: nat) returns (permissions: bv8)
      requires Valid() && LastTable(mem, root, 4, v).Some?
      ensures Permissions(v) == Some(permissions)
    {
      hide Index, GetBit, ClearIn, Tree, Flags;
      TranslateLeaf(mem, root, 4, v);
      var pt := Walk(v);
      permissions := Flags(mem[pt][Index(v, 1)]);
    }

    /** MmPageSet. */
    method PageSet(v: nat, field: bv8)
      requires Valid() && LastTable(mem, root, 4, v).Some?
      modifies this`mem
      ensures Valid() && forall w: nat :: At(w) == old(At(w))
      ensures LastTable(mem, root, 4, v).Some?
      ensures forall w: nat :: Permissions(w) == if PageOf(w) == PageOf(v)
                                                 then Some((old(Permissions(v)).value | field) & 0xF)
                                                 else old(Permissions(w))
    {
      hide Index, GetBit, ClearIn, Tree, Flags, Translate, LastTable, PageOf;
      var p := GetPagePermissions(v);
      SetPagePermissions(v, p | field);
    }

    /** MmPageClear. */
    method PageClear(v: nat, field: bv8)
      requires Valid() && LastTable(mem, root, 4, v).Some?
      modifies this`mem
      ensures Valid() && forall w: nat :: At(w) == old(At(w))
      ensures LastTable(mem, root, 4, v).Some?
      ensures forall w: nat :: Permissions(w) == if PageOf(w) == PageOf(v)
                                                 then Some(old(Permissions(v)).value & !field & 0xF)
                                                 else old(Permissions(w))
    {
      hide Index, GetBit, ClearIn, Tree, Flags, Translate, LastTable, PageOf;
      var p := GetPagePermissions(v);
      SetPagePermissions(v, p & !field);
    }

    /** MmGetIdentityPage: a live frame that its own address reaches. */
    method GetIdentityPage() returns (page: nat)
      requires Valid()
      requires var v := (alloc.firstPage + NextFree(alloc.Now(), alloc.total)) * 4096;
               NoLarge(mem, root, 4, v) && Missing(mem, root, 4, v) < alloc.Left()
      modifies this`mem, this`level, this`live, alloc, alloc.bitfield
      ensures Valid() && page == alloc.firstPage + old(NextFree(alloc.Now(), alloc.total))
      ensures page !in old(live) && page !in old(level) && live == old(live) + {page}
      ensures forall kept :: old(NoneLost(kept)) ==> NoneLost(kept)
      ensures PageOf(page * 4096) == page
      ensures forall w: nat :: At(w) == if PageOf(w) == page then Some(page * 4096 + w % 4096) else old(At(w))
      ensures forall w: nat :: EntryAt(w) == if PageOf(w) == page then MappedTo(old(EntryAt(w)), page * 4096)
                                             else old(EntryAt(w))
    {
      hide Index, GetBit, SetBit, ClearIn, Tree, Translate, NoLarge, Missing, NoneLost, Draw, NextFree, Avail, Made,
           LastTable, PermissionsIn, PathWriteable, Leaf, EntryIn, MappedTo;
      Unfold(mem, level, root);
      page := RequestPage();
      var tables := MapMemory(page * 4096, page * 4096);
    }

    /** The part of a call's preconditions that depends on the tables and on the allocator. */
    predicate Ready(call: Call, log: seq<Event>)
      requires alloc.Shaped() && forall f :: f in mem ==> |mem[f]| == ENTRIES
      reads this, alloc, alloc.bitfield
    {
      match call
      case Request => alloc.Left() > 0
      case Free(page) => page in LiveAfter(log)
      case Write(page, words) => page in LiveAfter(log) && |words| == ENTRIES
      case Map(v, p) => NoLarge(mem, root, 4, v) && Missing(mem, root, 4, v) <= alloc.Left()
    }

    /** The holder of a live frame fills it: no translation changes. */
    method WriteFrame(page: nat, words: seq<Entry>)
      requires Valid() && page in live && |words| == ENTRIES
      modifies this`mem
      ensures Valid() && mem == old(mem)[page := words]
      ensures forall w: nat :: At(w) == old(At(w)) && EntryAt(w) == old(EntryAt(w))
      ensures forall w: nat :: Permissions(w) == old(Permissions(w))
      ensures forall kept :: old(NoneLost(kept)) ==> NoneLost(kept)
    {
      hide Index, GetBit, ClearIn, Tree, Translate, LastTable, Flags;
      OtherStoresTree(mem, level, root, page, words);
      Unfold(mem, level, root);
      forall w: nat
        ensures Translate(mem[page := words], root, 4, w) == At(w)
        ensures EntryIn(mem[page := words], root, 4, w) == EntryAt(w)
        ensures PermissionsIn(mem[page := words], root, w) == Permissions(w)
      {
        OtherStores(mem, level, root, page, words, root, 4, w);
        if LastTable(mem, root, 4, w).Some? {
          LastLevel(mem, level, root, root, 4, w);
        }
      }
      mem := mem[page := words];
    }

    /** Any run of calls, up to the first that is not ready.  The allocator has done exactly what the log says;
        no frame is lost; no page table and no live frame is handed out, and no live frame becomes a table;
        a live frame keeps what its holder wrote, and a page that is not mapped anew keeps its flags. */
    method Run(calls: seq<Call>) returns (log: seq<Event>)
      requires Valid() && live == {}
      modifies this, alloc, alloc.bitfield
      ensures Valid() && live == LiveAfter(log) && Distinct(log)
      ensures |log| <= |calls| && forall i :: 0 <= i < |log| ==> Answers(calls[i], log[i])
      ensures |log| == |calls| || !Ready(calls[|log|], log)
      ensures Replay(log, old(alloc.Now()), alloc.total, alloc.firstPage) == Some(alloc.Now())
      ensures forall kept :: old(NoneLost(kept)) ==> NoneLost(kept)
      ensures TablesApart(log, old(level)) && forall g :: g in level <==> g in old(level) || g in TablesAfter(log)
      ensures forall w: nat :: At(w) == MapsTo(calls[..|log|], w, old(At(w)))
      ensures forall w: nat :: EntryAt(w) == EntryTo(calls[..|log|], w, old(EntryAt(w)))
      ensures forall w: nat :: old(Permissions(w)).Some? ==> Permissions(w).Some?
      ensures Keeps(mem, log)
    {
      hide Index, GetBit, SetBit, ClearBit, ClearIn, Tree, Translate, NoLarge, Missing, PageOf, Owned, LastTable,
           Leaf, PermissionsIn, NoneLost, NextFree, Avail, Draw, Replay, MapsTo, TablesAfter, TablesApart, EntryTo,
           EntryOne, EntryIn,           Keeps;
      log := [];
      RunStarts(calls, mem, level, alloc.Now(), alloc.total, alloc.firstPage);
      Unfold(mem, level, root);
      var ready := true;
      while |log| < |calls| && ready
        invariant Valid() && live == LiveAfter(log) && Distinct(log)
        invariant |log| <= |calls| && forall i :: 0 <= i < |log| ==> Answers(calls[i], log[i])
        invariant Replay(log, old(alloc.Now()), alloc.total, alloc.firstPage) == Some(alloc.Now())
        invariant forall kept :: old(NoneLost(kept)) ==> NoneLost(kept)
        invariant TablesApart(log, old(level)) && forall g :: g in level <==> g in old(level) || g in TablesAfter(log)
        invariant forall w: nat :: At(w) == MapsTo(calls[..|log|], w, old(At(w)))
        invariant forall w: nat :: EntryAt(w) == EntryTo(calls[..|log|], w, old(EntryAt(w)))
        invariant forall w: nat :: old(Permissions(w)).Some? ==> Permissions(w).Some?
        invariant Keeps(mem, log)
        invariant forall f :: f in mem ==> |mem[f]| == ENTRIES
        invariant !ready ==> |log| < |calls| && !Ready(calls[|log|], log)
        decreases |calls| - |log|, ready
      {
        var n := |log|;
        ready := Ready(calls[n], log);
        if ready {
          ghost var b, level0, level1, live1 := old(alloc.Now()), old(level), level, live;
          var event := Serve(calls[n], log);
          Unfold(mem, level, root);
          DistinctGrows(log, event);
          ReplayGrows(log, event, b, alloc.total, alloc.firstPage);
          TablesGrow(log, event, level0, level1, level);
          log := log + [event];
          forall w: nat, start: Option<nat>
            ensures MapsTo(calls[..n + 1], w, start) == MapsTo([calls[n]], w, MapsTo(calls[..n], w, start))
          {
            MapsToGrows(calls, n, w, start);
          }
          forall w: nat, e: Entry
            ensures EntryTo(calls[..n + 1], w, e) == EntryOne(calls[n], w, EntryTo(calls[..n], w, e))
          {
            EntryGrows(calls, n, w, e);
          }
        }
      }
    }

    method Serve(call: Call, log: seq<Event>) returns (event: Event)
      requires Valid() && live == LiveAfter(log) && forall f :: f in mem ==> |mem[f]| == ENTRIES
      requires Ready(call, log) && Keeps(mem, log)
      modifies this, alloc, alloc.bitfield
      ensures Keeps(mem, log + [event])
      ensures Valid() && Answers(call, event) && live == LiveAfter(log + [event])
      ensures event.Got? ==> event.page !in old(live) && event.page !in level
      ensures Made(if event.Mapped? then event.tables else [], old(level), level, old(live))
      ensures Effect(event, old(alloc.Now()), alloc.total, alloc.firstPage) == Some(alloc.Now())
      ensures forall kept :: old(NoneLost(kept)) ==> NoneLost(kept)
      ensures forall w: nat :: At(w) == MapsTo([call], w, old(At(w)))
      ensures forall w: nat :: EntryAt(w) == EntryOne(call, w, old(EntryAt(w)))
      ensures forall w: nat :: old(Permissions(w)).Some? ==> Permissions(w).Some?
    {
      hide Index, GetBit, SetBit, ClearBit, ClearIn, Tree, Translate, NoLarge, Missing, PageOf, Owned, LastTable,
           Leaf, PermissionsIn, NoneLost, NextFree, Avail, Draw, PathWriteable, LiveAfter, MapsTo, Keeps;
      forall w: nat, start: Option<nat> ensures MapsTo([call], w, start) == MapsOne(call, w, start) {
        MapsToOne(call, w, start);
      }
      ghost var before, b := mem, alloc.Now();
      match call
      case Request =>
        var page := RequestPage();
        event := Got(page);
        DrawOne(b, alloc.total, alloc.firstPage, page);
        LiveGrows(log, event);
        KeepsGrow(before, mem, log, event);
      case Free(page) =>
        FreePage(page);
        event := Freed(page);
        LiveGrows(log, event);
        KeepsGrow(before, mem, log, event);
      case Write(page, words) =>
        WriteFrame(page, words);
        event := Written(page, words);
        assert alloc.Now() == b;
        LiveGrows(log, event);
        KeepsGrow(before, mem, log, event);
      case Map(v, p) =>
        var tables := MapMemory(v, p);
        event := Mapped(tables);
        assert [call][0] == call;
        LiveGrows(log, event);
        KeepsGrow(before, mem, log, event);
    }
  }

  /** `made` are the tables of `level'` that `level` did not have; none of them was live. */
  ghost predicate Made(made: seq<nat>, level: map<nat, nat>, level': map<nat, nat>, live: set<nat>) {
    && (forall g :: g in level' <==> g in level || g in made)
    && (forall g :: g in made ==> g !in level && g !in live)
  }

  lemma MadeMore(ts: seq<nat>, us: seq<nat>, a: map<nat, nat>, b: map<nat, nat>, c: map<nat, nat>, live: set<nat>)
    requires Made(ts, a, b, live) && Made(us, b, c, live)
    ensures Made(ts + us, a, c, live)
  {
  }

  lemma DrawOne(b: Bitmap, total: nat, first: nat, page: nat)
    requires Scannable(b, total) && page == first + NextFree(b, total)
    ensures Draw(b, total, first, [page]) == Some(Grant(b, total))
  {
    hide NextFree, SetBit;
    assert [page][1..] == [];
  }

  // --------------------------------------------------------------------------------------- runs

  datatype Call =
    | Map(virtual: nat, physical: nat) | Request | Free(page: nat) | Write(page: nat, words: seq<Entry>)
  datatype Event = Mapped(tables: seq<nat>) | Got(page: nat) | Freed(page: nat) | Written(page: nat, words: seq<Entry>)

  predicate Answers(call: Call, event: Event) {
    match call
    case Map(_, _) => event.Mapped?
    case Request => event.Got?
    case Free(page) => event == Freed(page)
    case Write(page, words) => event == Written(page, words)
  }

  /** Frames handed out and not given back. */
  function LiveAfter(log: seq<Event>): set<nat> {
    if log == [] then {}
    else
      LiveOne(LiveAfter(log[..|log| - 1]), log[|log| - 1])
  }

  function LiveOne(before: set<nat>, event: Event): set<nat> {
    match event
    case Mapped(_) => before
    case Got(page) => before + {page}
    case Freed(page) => before - {page}
    case Written(_, _) => before
  }

  /** What the holder of a live frame wrote last, if anything since the frame was granted. */
  function Contents(log: seq<Event>, page: nat): Option<seq<Entry>> {
    if log == [] then None
    else
      match log[|log| - 1]
      case Got(p) => if p == page then None else Contents(log[..|log| - 1], page)
      case Freed(p) => if p == page then None else Contents(log[..|log| - 1], page)
      case Written(p, words) => if p == page then Some(words) else Contents(log[..|log| - 1], page)
      case Mapped(_) => Contents(log[..|log| - 1], page)
  }

  ghost predicate Keeps(mem: Mem, log: seq<Event>) {
    forall page :: page in LiveAfter(log) && Contents(log, page).Some? ==>
      page in mem && mem[page] == Contents(log, page).value
  }

  lemma KeepsGrow(mem: Mem, mem': Mem, log: seq<Event>, event: Event)
    requires Keeps(mem, log)
    requires forall page :: page in LiveAfter(log) && page in mem && !(event.Written? && event.page == page) ==>
               page in mem' && mem'[page] == mem[page]
    requires event.Written? ==> event.page in mem' && mem'[event.page] == event.words
    ensures Keeps(mem', log + [event])
  {
    LiveGrows(log, event);
    assert (log + [event])[..|log|] == log;
  }

  /** Frames that became page tables. */
  function TablesAfter(log: seq<Event>): set<nat> {
    if log == [] then {}
    else
      var last := log[|log| - 1];
      TablesAfter(log[..|log| - 1]) + if last.Mapped? then set t | t in last.tables else {}
  }

  /** A frame that is granted is no page table, and a frame that becomes a table is neither live nor a table. */
  ghost predicate TablesApart(log: seq<Event>, tables: map<nat, nat>) {
    forall i :: 0 <= i < |log| ==> Apart(log[i], LiveAfter(log[..i]), tables, TablesAfter(log[..i]))
  }

  ghost predicate Apart(event: Event, live: set<nat>, tables: map<nat, nat>, made: set<nat>) {
    match event
    case Got(page) => page !in tables && page !in made
    case Mapped(ts) => forall t :: t in ts ==> t !in live && t !in tables && t !in made
    case _ => true
  }

  lemma TablesGrow(log: seq<Event>, event: Event, level0: map<nat, nat>, level1: map<nat, nat>, level2: map<nat, nat>)
    requires TablesApart(log, level0) && forall g :: g in level1 <==> g in level0 || g in TablesAfter(log)
    requires Made(if event.Mapped? then event.tables else [], level1, level2, LiveAfter(log))
    requires event.Got? ==> event.page !in level2
    ensures TablesApart(log + [event], level0)
    ensures forall g :: g in level2 <==> g in level0 || g in TablesAfter(log + [event])
  {
    TablesAfterGrows(log, event);
    assert Apart(event, LiveAfter(log), level0, TablesAfter(log));
    hide LiveAfter, TablesAfter, Apart;
    forall i | 0 <= i <= |log|
      ensures Apart((log + [event])[i], LiveAfter((log + [event])[..i]), level0, TablesAfter((log + [event])[..i]))
    {
      assert (log + [event])[..i] == log[..i];
      assert log[..|log|] == log;
    }
  }

  lemma TablesAfterGrows(log: seq<Event>, event: Event)
    ensures forall g :: g in TablesAfter(log + [event]) <==>
              g in TablesAfter(log) || (event.Mapped? && g in event.tables)
  {
    assert (log + [event])[..|log|] == log;
  }

  /** What one event does to the allocator: a grant is the next page that the scan finds. */
  function Effect(event: Event, b: Bitmap, total: nat, first: nat): Option<Bitmap> {
    match event
    case Mapped(ts) => Draw(b, total, first, ts)
    case Got(page) => Draw(b, total, first, [page])
    case Freed(page) =>
      if first <= page && (page - first) / 8 < |b.bits| then Some(b.(bits := ClearBit(b.bits, page - first))) else None
    case Written(_, _) => Some(b)
  }

  function Replay(log: seq<Event>, b: Bitmap, total: nat, first: nat): Option<Bitmap> {
    if log == [] then Some(b)
    else
      var before := Replay(log[..|log| - 1], b, total, first);
      if before.None? then None else Effect(log[|log| - 1], before.value, total, first)
  }

  lemma ReplayGrows(log: seq<Event>, event: Event, b: Bitmap, total: nat, first: nat)
    requires Replay(log, b, total, first).Some?
    ensures Replay(log + [event], b, total, first) == Effect(event, Replay(log, b, total, first).value, total, first)
  {
    hide Effect;
    assert (log + [event])[..|log|] == log;
  }

  /** What one call, and a run of calls, makes of the entry that serves `w`: mapping its page sets the frame and
      the present and writeable bits and leaves the other bits alone. */
  function EntryOne(call: Call, w: nat, e: Entry): Entry {
    if call.Map? && PageOf(call.virtual) == PageOf(w) then MappedTo(e, call.physical) else e
  }

  function EntryTo(calls: seq<Call>, w: nat, e: Entry): Entry {
    if calls == [] then e else EntryOne(calls[|calls| - 1], w, EntryTo(calls[..|calls| - 1], w, e))
  }

  lemma EntryGrows(calls: seq<Call>, n: nat, w: nat, e: Entry)
    requires n < |calls|
    ensures EntryTo(calls[..n + 1], w, e) == EntryOne(calls[n], w, EntryTo(calls[..n], w, e))
  {
    hide EntryOne;
    assert calls[..n + 1][..n] == calls[..n];
  }

  lemma RunStarts(calls: seq<Call>, mem: Mem, level: map<nat, nat>, b: Bitmap, total: nat, first: nat)
    ensures Replay([], b, total, first) == Some(b) && TablesApart([], level) && TablesAfter([]) == {}
    ensures Keeps(mem, []) && forall w: nat, start: Option<nat> :: MapsTo(calls[..0], w, start) == start
    ensures forall w: nat, e: Entry :: EntryTo(calls[..0], w, e) == e
  {
  }

  /** No frame is handed out while it is live. */
  predicate Distinct(log: seq<Event>) {
    forall i :: 0 <= i < |log| && log[i].Got? ==> log[i].page !in LiveAfter(log[..i])
  }

  /** The partial map from virtual addresses that the calls describe: the latest mapping wins. */
  function MapsTo(calls: seq<Call>, w: nat, start: Option<nat>): Option<nat> {
    if calls == [] then start
    else
      var last := calls[|calls| - 1];
      MapsOne(last, w, MapsTo(calls[..|calls| - 1], w, start))
  }

  /** What one call makes of the translation of `w`. */
  function MapsOne(call: Call, w: nat, before: Option<nat>): Option<nat> {
    if call.Map? && PageOf(call.virtual) == PageOf(w) then Some(call.physical / 4096 % FRAMES * 4096 + w % 4096)
    else before
  }

  lemma MapsToOne(call: Call, w: nat, start: Option<nat>)
    ensures MapsTo([call], w, start) == MapsOne(call, w, start)
  {
    assert [call][..0] == [];
  }

  lemma LiveGrows(log: seq<Event>, event: Event)
    ensures LiveAfter(log + [event]) == LiveOne(LiveAfter(log), event)
  {
    assert (log + [event])[..|log|] == log;
  }

  lemma DistinctGrows(log: seq<Event>, event: Event)
    requires Distinct(log) && (event.Got? ==> event.page !in LiveAfter(log))
    ensures Distinct(log + [event])
  {
    forall i | 0 <= i <= |log| ensures (log + [event])[..i] == log[..i] {
    }
    assert log[..|log|] == log;
  }

  lemma MapsToGrows(calls: seq<Call>, n: nat, w: nat, start: Option<nat>)
    requires n < |calls|
    ensures MapsTo(calls[..n + 1], w, start) == MapsTo([calls[n]], w, MapsTo(calls[..n], w, start))
  {
    assert calls[..n + 1][..n] == calls[..n];
  }

  /** Two grants of one frame have a release of it between them. */
  lemma FreedBetween(log: seq<Event>, i: nat, j: nat)
    requires Distinct(log) && i < j < |log| && log[i].Got? && log[j] == log[i]
    ensures exists k :: i < k < j && log[k] == Freed(log[i].page)
  {
    if !exists k :: i < k < j && log[k] == Freed(log[i].page) {
      StaysLive(log, i, j);
    }
  }

  lemma {:induction false} StaysLive(log: seq<Event>, i: nat, j: nat)
    requires i < j <= |log| && log[i].Got? && forall k :: i < k < j ==> log[k] != Freed(log[i].page)
    ensures log[i].page in LiveAfter(log[..j])
    decreases j
  {
    assert log[..j][..j - 1] == log[..j - 1];
    if i < j - 1 {
      StaysLive(log, i, j - 1);
    }
  }

  /** The flags of the 4 KiB page that `v` lies in, if its tables exist. */
  function PermissionsIn(mem: Mem, root: nat, v: nat): Option<bv8> {
    if LastTable(mem, root, 4, v).None? then None else Some(Flags(Leaf(mem, root, v)))
  }

  lemma FlagsOf(mem: Mem, root: nat, v: nat)
    ensures PermissionsIn(mem, root, v).None? ==> Flags(EntryIn(mem, root, 4, v)) == 0
    ensures PermissionsIn(mem, root, v).Some? ==> PermissionsIn(mem, root, v) == Some(Flags(EntryIn(mem, root, 4, v)))
  {
    EntryLeaf(mem, root, 4, v);
  }

  /** All addresses of one page have the same entry. */
  lemma SamePageEntry(mem: Mem, level: map<nat, nat>, root: nat, v: nat)
    requires Tree(mem, level, root) && LastTable(mem, root, 4, v).Some?
    ensures forall w: nat :: PageOf(w) == PageOf(v) ==> EntryIn(mem, root, 4, w) == EntryIn(mem, root, 4, v)
  {
    hide Index, Tree, LastTable, EntryIn, PageOf;
    forall w: nat | PageOf(w) == PageOf(v) ensures EntryIn(mem, root, 4, w) == EntryIn(mem, root, 4, v) {
      LeafOwner(mem, level, root, v, w);
      EntryLeaf(mem, root, 4, w);
      EntryLeaf(mem, root, 4, v);
    }
  }

  lemma LeafedFlags(mem: Mem, level: map<nat, nat>, root: nat, v: nat, e: Entry, w: nat)
    requires Tree(mem, level, root) && LastTable(mem, root, 4, v).Some?
    ensures LastTable(mem, root, 4, v).value in mem && |mem[LastTable(mem, root, 4, v).value]| == ENTRIES
    ensures var mem' := Leafed(mem, LastTable(mem, root, 4, v).value, Index(v, 1), e);
            PermissionsIn(mem', root, w)
            == if PageOf(w) != PageOf(v) then PermissionsIn(mem, root, w) else Some(Flags(e))
  {
    hide Index, PageOf, Translate, LastTable, Tree, Flags;
    TranslateLeaf(mem, root, 4, v);
    LeafedTranslate(mem, level, root, v, e, w);
    LeafOwner(mem, level, root, v, w);
    if LastTable(mem, root, 4, w).Some? {
      TranslateLeaf(mem, root, 4, w);
    }
  }

  lemma ThreeLinks(mem: Mem, level: map<nat, nat>, root: nat, pdp: nat, pd: nat, pt: nat, v: nat)
    requires Tree(mem, level, root) && Links(mem, level, root, Index(v, 4)) && Links(mem, level, pdp, Index(v, 3))
    requires Links(mem, level, pd, Index(v, 2)) && pt in level && level[pt] == 1
    requires Target(mem, root, Index(v, 4)) == pdp && Target(mem, pdp, Index(v, 3)) == pd
    requires Target(mem, pd, Index(v, 2)) == pt
    ensures LastTable(mem, root, 4, v) == Some(pt) && NoLarge(mem, root, 4, v)
    ensures mem[root][Index(v, 4)].writeable && mem[pdp][Index(v, 3)].writeable && mem[pd][Index(v, 2)].writeable ==>
              PathWriteable(mem, root, 4, v)
  {
    hide Index;
    assert LastTable(mem, pt, 1, v) == Some(pt) && NoLarge(mem, pt, 1, v) && PathWriteable(mem, pt, 1, v);
    assert LastTable(mem, pd, 2, v) == Some(pt) && NoLarge(mem, pd, 2, v);
    assert LastTable(mem, pdp, 3, v) == Some(pt) && NoLarge(mem, pdp, 3, v);
    if mem[root][Index(v, 4)].writeable && mem[pdp][Index(v, 3)].writeable && mem[pd][Index(v, 2)].writeable {
      assert PathWriteable(mem, pd, 2, v);
      assert PathWriteable(mem, pdp, 3, v);
    }
  }
}
