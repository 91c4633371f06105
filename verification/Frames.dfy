/**
 The bitmap allocator of physical frames.  Page numbers are relative to the first available page.
 */
module Frames {
  import opened Util

  const STATISTICS := 72                     // size of the packed statistics record

  // ------------------------------------------------------------------------------------ bitmap

  function BitMask(k: nat): bv8
    requires k < 8
  {
    if k == 0 then 1 else if k == 1 then 2 else if k == 2 then 4 else if k == 3 then 8
    else if k == 4 then 16 else if k == 5 then 32 else if k == 6 then 64 else 128
  }

  predicate ByteGet(b: bv8, k: nat)
    requires k < 8
  {
    b & BitMask(k) != 0
  }

  function ByteSet(b: bv8, k: nat): bv8
    requires k < 8
  {
    b | BitMask(k)
  }

  function ByteClear(b: bv8, k: nat): bv8
    requires k < 8
  {
    b & !BitMask(k)
  }

  lemma ByteBits(b: bv8, i: nat, j: nat)
    requires i < 8 && j < 8
    ensures ByteGet(ByteSet(b, i), j) == (i == j || ByteGet(b, j))
    ensures ByteGet(ByteClear(b, i), j) == (i != j && ByteGet(b, j))
    ensures !ByteGet(0, j)
  {
  }

  predicate GetBit(s: seq<bv8>, x: nat)
    requires x / 8 < |s|
  {
    ByteGet(s[x / 8], x % 8)
  }

  function SetBit(s: seq<bv8>, x: nat): seq<bv8>
    requires x / 8 < |s|
  {
    s[x / 8 := ByteSet(s[x / 8], x % 8)]
  }

  function ClearBit(s: seq<bv8>, x: nat): seq<bv8>
    requires x / 8 < |s|
  {
    s[x / 8 := ByteClear(s[x / 8], x % 8)]
  }

  lemma BitUpdate(s: seq<bv8>, x: nat, y: nat)
    requires x / 8 < |s| && y / 8 < |s|
    ensures GetBit(SetBit(s, x), y) == (x == y || GetBit(s, y))
    ensures GetBit(ClearBit(s, x), y) == (x != y && GetBit(s, y))
  {
    hide ByteGet, ByteSet, ByteClear, BitMask;
    ByteBits(s[x / 8], x % 8, y % 8);
  }

  /** Number of clear bits in [from, end). */
  function ClearIn(s: seq<bv8>, from: nat, end: nat): (n: nat)
    requires end <= 8 * |s|
    decreases end - from
  {
    if from >= end then 0 else (if GetBit(s, from) then 0 else 1) + ClearIn(s, from + 1, end)
  }

  lemma {:induction false} ClearInSame(s: seq<bv8>, s': seq<bv8>, from: nat, end: nat)
    requires end <= 8 * |s| == 8 * |s'| && forall y :: from <= y < end ==> GetBit(s', y) == GetBit(s, y)
    ensures ClearIn(s', from, end) == ClearIn(s, from, end)
    decreases end - from
  {
    hide GetBit;
    if from < end {
      ClearInSame(s, s', from + 1, end);
    }
  }

  /** Setting a clear bit, or clearing a set one, moves the count by one; otherwise it stays. */
  lemma {:induction false} ClearInUpdate(s: seq<bv8>, from: nat, end: nat, x: nat)
    requires end <= 8 * |s| && from <= x < end
    ensures ClearIn(SetBit(s, x), from, end) == ClearIn(s, from, end) - if GetBit(s, x) then 0 else 1
    ensures ClearIn(ClearBit(s, x), from, end) == ClearIn(s, from, end) + if GetBit(s, x) then 1 else 0
    decreases end - from
  {
    hide GetBit, ByteSet, ByteClear;
    BitUpdate(s, x, from);
    if from == x {
      ClearInOutside(s, x + 1, end, x);
    } else {
      ClearInUpdate(s, from + 1, end, x);
    }
  }

  lemma ClearInOutside(s: seq<bv8>, from: nat, end: nat, x: nat)
    requires end <= 8 * |s| && x / 8 < |s| && !(from <= x < end)
    ensures ClearIn(SetBit(s, x), from, end) == ClearIn(s, from, end) == ClearIn(ClearBit(s, x), from, end)
  {
    hide GetBit, ByteSet, ByteClear;
    forall y | from <= y < end
      ensures GetBit(SetBit(s, x), y) == GetBit(s, y) == GetBit(ClearBit(s, x), y)
    {
      BitUpdate(s, x, y);
    }
    ClearInSame(s, SetBit(s, x), from, end);
    ClearInSame(s, ClearBit(s, x), from, end);
  }

  lemma {:induction false} ClearInFinds(s: seq<bv8>, from: nat, end: nat)
    requires end <= 8 * |s|
    ensures ClearIn(s, from, end) > 0 <==> exists x :: from <= x < end && !GetBit(s, x)
    decreases end - from
  {
    hide GetBit;
    if from < end {
      ClearInFinds(s, from + 1, end);
    }
  }

  /** The first clear bit in [from, end), or `end`. */
  function FirstClear(s: seq<bv8>, from: nat, end: nat): (x: nat)
    requires end <= 8 * |s|
    ensures x <= end
    decreases end - from
  {
    if from >= end then end else if !GetBit(s, from) then from else FirstClear(s, from + 1, end)
  }

  lemma FirstClearStep(s: seq<bv8>, from: nat, end: nat)
    requires end <= 8 * |s|
    ensures from < end && GetBit(s, from) ==> FirstClear(s, from, end) == FirstClear(s, from + 1, end)
    ensures from < end && !GetBit(s, from) ==> FirstClear(s, from, end) == from
    ensures from >= end ==> FirstClear(s, from, end) == end
  {
    hide GetBit;
  }

  lemma {:induction false} FirstClearFinds(s: seq<bv8>, from: nat, end: nat)
    requires end <= 8 * |s| && from <= end
    ensures var x := FirstClear(s, from, end);
            && from <= x && (x < end <==> ClearIn(s, from, end) > 0) && (x < end ==> !GetBit(s, x))
            && ClearIn(s, from, end) == ClearIn(s, x, end)
    decreases end - from
  {
    hide GetBit;
    if from < end && GetBit(s, from) {
      FirstClearFinds(s, from + 1, end);
    }
  }

  // ---------------------------------------------------------------------- the scan, as a function

  /** What the scan depends on: the bitmap, with one byte after it, and the cursor. */
  datatype Bitmap = Bitmap(bits: seq<bv8>, cursor: nat)

  predicate Scannable(b: Bitmap, total: nat) { b.cursor <= total < 8 * |b.bits| }

  /** The page that MmRequestPage stops at: the first free one from the cursor on; else the page after the
      last, if its stray bit is clear; else the first free one from page one on. */
  function NextFree(b: Bitmap, total: nat): nat
    requires Scannable(b, total)
  {
    var x := FirstClear(b.bits, b.cursor, total);
    if x < total || !GetBit(b.bits, total) then x else FirstClear(b.bits, 1, total)
  }

  function Grant(b: Bitmap, total: nat): Bitmap
    requires Scannable(b, total)
  {
    Bitmap(SetBit(b.bits, NextFree(b, total)), NextFree(b, total))
  }

  /** Pages that successive requests will find: those from the cursor on, or, if the stray bit is set, those
      that the scan reaches after it has wrapped. */
  function Avail(b: Bitmap, total: nat): nat
    requires Scannable(b, total)
  {
    var ahead, all := ClearIn(b.bits, b.cursor, total), ClearIn(b.bits, 1, total);
    if GetBit(b.bits, total) && all > ahead then all else ahead
  }

  /** As long as one is left, a request gets a free page of the region and leaves one less. */
  lemma GrantTakes(b: Bitmap, total: nat)
    requires Scannable(b, total) && Avail(b, total) > 0
    ensures NextFree(b, total) < total && !GetBit(b.bits, NextFree(b, total))
    ensures Scannable(Grant(b, total), total) && Avail(Grant(b, total), total) == Avail(b, total) - 1
  {
    hide GetBit, ByteSet, ClearIn, FirstClear;
    var s, x := b.bits, NextFree(b, total);
    FirstClearFinds(s, b.cursor, total);
    ClearInNone(s, 1, 0);
    ClearInNone(s, total, total);
    if total > 0 {
      FirstClearFinds(s, 1, total);
      BitUpdate(s, x, total);
      ClearInUpdate(s, x, total, x);
      GrantCounts(s, x, total);
    }
  }

  lemma GrantCounts(s: seq<bv8>, x: nat, total: nat)
    requires x < total < 8 * |s| && !GetBit(s, x)
    ensures ClearIn(SetBit(s, x), 1, total) == ClearIn(s, 1, total) - if x >= 1 then 1 else 0
    ensures x == 0 ==> ClearIn(s, 0, total) == ClearIn(s, 1, total) + 1
  {
    hide GetBit, ByteSet;
    if x >= 1 {
      ClearInUpdate(s, 1, total, x);
    } else {
      ClearInOutside(s, 1, total, x);
    }
  }

  /** Successive requests: pages `ts`, counted from `first`, or nothing if the scans would stop elsewhere. */
  function Draw(b: Bitmap, total: nat, first: nat, ts: seq<nat>): Option<Bitmap>
    decreases |ts|
  {
    if ts == [] then Some(b)
    else if !Scannable(b, total) || ts[0] != first + NextFree(b, total) then None
    else Draw(Grant(b, total), total, first, ts[1..])
  }

  lemma {:induction false} DrawMore(b: Bitmap, total: nat, first: nat, ts: seq<nat>, us: seq<nat>)
    requires Draw(b, total, first, ts).Some?
    ensures Draw(b, total, first, ts + us) == Draw(Draw(b, total, first, ts).value, total, first, us)
    decreases |ts|
  {
    hide NextFree, SetBit;
    if ts == [] {
      assert ts + us == us;
    } else {
      assert (ts + us)[1..] == ts[1..] + us;
      DrawMore(Grant(b, total), total, first, ts[1..], us);
    }
  }

  /** Giving a page of the region back never leaves fewer. */
  lemma ReleaseLeaves(b: Bitmap, total: nat, x: nat)
    requires Scannable(b, total) && x < total && GetBit(b.bits, x)
    ensures Avail(Bitmap(ClearBit(b.bits, x), b.cursor), total) >= Avail(b, total)
  {
    hide GetBit, ByteClear, ClearIn;
    BitUpdate(b.bits, x, total);
    ReleaseCounts(b.bits, x, b.cursor, total);
    ReleaseCounts(b.bits, x, 1, total);
  }

  lemma ReleaseCounts(s: seq<bv8>, x: nat, from: nat, total: nat)
    requires x < total < 8 * |s| && GetBit(s, x)
    ensures ClearIn(ClearBit(s, x), from, total) == ClearIn(s, from, total) + if from <= x then 1 else 0
  {
    hide GetBit, ByteClear;
    if from <= x {
      ClearInUpdate(s, from, total, x);
    } else {
      ClearInOutside(s, from, total, x);
    }
  }

  lemma {:induction false} AllClear(s: seq<bv8>, from: nat, end: nat)
    requires from <= end <= 8 * |s| && forall k :: 0 <= k < |s| && 8 * k < end ==> s[k] == 0
    ensures ClearIn(s, from, end) == end - from
    ensures forall x :: from <= x < end ==> !GetBit(s, x)
    decreases end - from
  {
    hide ByteGet;
    if from < end {
      ByteBits(0, 0, from % 8);
      AllClear(s, from + 1, end);
    }
  }

  // --------------------------------------------------------------------------- initialisation

  function BitmapBytes(pages: nat): nat { if pages % 8 == 0 then pages / 8 else pages / 8 + 1 }

  /** Pages reserved for the statistics record and the bitmap. */
  function ReservedPages(pages: nat): nat { (BitmapBytes(pages) + STATISTICS + 3 * PAGE) / PAGE }

  /** The record sits at the start of the region and the bitmap one page later; for every number of
      pages both end within the reserved prefix, and if the size check passes so does the prefix. */
  lemma MetadataReserved(pages: nat)
    ensures STATISTICS <= PAGE && PAGE + BitmapBytes(pages) <= PAGE * ReservedPages(pages)
    ensures PAGE * pages >= BitmapBytes(pages) + STATISTICS + 3 * PAGE ==> ReservedPages(pages) <= pages
    ensures pages <= 8 * BitmapBytes(pages) < pages + 8
  {
  }

  class Allocator {
    const firstPage: nat            // first_available_page_addr >> 12
    const total: nat                // total_available_pages
    const bitfield: array<bv8>
    var freeMemory: int
    var lockedMemory: int
    var reservedMemory: int
    var cursor: nat                 // last_requested

    predicate Shaped()
      reads this
    {
      total < 8 * bitfield.Length && cursor <= total
    }

    /** free_memory is 4096 times the number of clear bits. */
    ghost predicate Accounted()
      requires Shaped()
      reads this, bitfield
    {
      freeMemory == PAGE * ClearIn(bitfield[..], 0, total)
    }

    ghost predicate Valid()
      reads this, bitfield
    {
      Shaped() && Accounted()
    }

    predicate Taken(x: nat)
      requires x / 8 < bitfield.Length
      reads bitfield
    {
      GetBit(bitfield[..], x)
    }

    function Now(): Bitmap
      reads this, bitfield
    {
      Bitmap(bitfield[..], cursor)
    }

    /** Pages that successive requests will find. */
    function Left(): nat
      requires Shaped()
      reads this, bitfield
    {
      Avail(Now(), total)
    }

    /** MmInitialize on a page-aligned region that passes its size check.  `beyond` is the byte after the bitmap,
        which the scan may look at and which nobody initialises. */
    constructor (base: nat, pages: nat, beyond: bv8)
      requires PAGE * pages >= BitmapBytes(pages) + STATISTICS + 3 * PAGE
      ensures Valid() && fresh(bitfield) && firstPage == base && total == pages && cursor == 0
      ensures bitfield.Length == BitmapBytes(pages) + 1 && bitfield[BitmapBytes(pages)] == beyond
      ensures forall x :: 0 <= x < 8 * BitmapBytes(pages) ==> (Taken(x) <==> x < ReservedPages(pages))
      ensures reservedMemory == PAGE * ReservedPages(pages) && lockedMemory == 0
    {
      hide GetBit, ByteSet, ByteClear;
      MetadataReserved(pages);
      firstPage, total, cursor := base, pages, 0;
      bitfield := new bv8[BitmapBytes(pages) + 1](i => if i < BitmapBytes(pages) then 0 else beyond);
      freeMemory, lockedMemory, reservedMemory := PAGE * pages, 0, 0;
      new;
      AllClear(bitfield[..], 0, total);
      AllClear(bitfield[..], 0, 8 * BitmapBytes(pages));
      ReservePages(0, ReservedPages(pages));
    }

    /** MmReservePage and MmLockPage differ only in the counter they raise.  The free counter stays exact
        if and only if the page was free. */
    method Take(x: nat, reserve: bool)
      requires Shaped() && x < total
      modifies this`freeMemory, this`lockedMemory, this`reservedMemory, bitfield
      ensures bitfield[..] == SetBit(old(bitfield[..]), x)
      ensures freeMemory == old(freeMemory) - PAGE
      ensures reservedMemory == old(reservedMemory) + (if reserve then PAGE else 0)
      ensures lockedMemory == old(lockedMemory) + (if reserve then 0 else PAGE)
      ensures old(Accounted()) ==> (Accounted() <==> !old(Taken(x)))
    {
      hide GetBit, ByteSet, ByteClear, ClearIn;
      ClearInUpdate(bitfield[..], 0, total, x);
      bitfield[x / 8] := ByteSet(bitfield[x / 8], x % 8);
      assert bitfield[..] == SetBit(old(bitfield[..]), x);
      freeMemory := freeMemory - PAGE;
      if reserve {
        reservedMemory := reservedMemory + PAGE;
      } else {
        lockedMemory := lockedMemory + PAGE;
      }
    }

    /** MmUnreservePage and MmUnlockPage: exact if and only if the page was taken. */
    method Release(x: nat, reserve: bool)
      requires Shaped() && x < total
      modifies this`freeMemory, this`lockedMemory, this`reservedMemory, bitfield
      ensures bitfield[..] == ClearBit(old(bitfield[..]), x)
      ensures freeMemory == old(freeMemory) + PAGE
      ensures reservedMemory == old(reservedMemory) - (if reserve then PAGE else 0)
      ensures lockedMemory == old(lockedMemory) - (if reserve then 0 else PAGE)
      ensures old(Accounted()) ==> (Accounted() <==> old(Taken(x)))
    {
      hide GetBit, ByteSet, ByteClear, ClearIn;
      ClearInUpdate(bitfield[..], 0, total, x);
      bitfield[x / 8] := ByteClear(bitfield[x / 8], x % 8);
      assert bitfield[..] == ClearBit(old(bitfield[..]), x);
      freeMemory := freeMemory + PAGE;
      if reserve {
        reservedMemory := reservedMemory - PAGE;
      } else {
        lockedMemory := lockedMemory - PAGE;
      }
    }

    /** MmReservePages on free pages. */
    method ReservePages(from: nat, pages: nat)
      requires Valid() && from + pages <= total && forall x :: from <= x < from + pages ==> !Taken(x)
      modifies this`freeMemory, this`lockedMemory, this`reservedMemory, bitfield
      ensures Valid() && lockedMemory == old(lockedMemory)
      ensures reservedMemory == old(reservedMemory) + PAGE * pages
      ensures forall x :: 0 <= x < 8 * bitfield.Length ==> Taken(x) == (old(Taken(x)) || from <= x < from + pages)
      ensures forall k :: 0 <= k < bitfield.Length && total <= 8 * k ==> bitfield[k] == old(bitfield[k])
    {
      hide GetBit, ByteSet, ByteClear, ClearIn;
      var i := 0;
      while i < pages
        invariant 0 <= i <= pages && Valid() && lockedMemory == old(lockedMemory)
        invariant reservedMemory == old(reservedMemory) + PAGE * i
        invariant forall x :: 0 <= x < 8 * bitfield.Length ==> Taken(x) == (old(Taken(x)) || from <= x < from + i)
        invariant forall k :: 0 <= k < bitfield.Length && total <= 8 * k ==> bitfield[k] == old(bitfield[k])
      {
        ghost var before := bitfield[..];
        assert forall x :: 0 <= x < 8 * bitfield.Length ==>
                 GetBit(before, x) == (old(Taken(x)) || from <= x < from + i) by {
          assert forall x :: 0 <= x < 8 * bitfield.Length ==> Taken(x) == GetBit(before, x);
        }
        Take(from + i, true);
        forall x | 0 <= x < 8 * bitfield.Length ensures Taken(x) == (old(Taken(x)) || from <= x < from + i + 1) {
          BitUpdate(before, from + i, x);
        }
        i := i + 1;
      }
    }

    /** MmRequestPage.  The scan looks at bit `total` before it wraps: the page handed out lies in the
        region, and the free counter stays exact, if and only if a page from the cursor on is free or that
        stray bit is set.  The source's loop does not end if the stray bit is set and no page from page one
        on is free. */
    method RequestPage() returns (x: nat)
      requires Valid() && (Taken(total) ==> Left() > 0)
      modifies this`cursor, this`freeMemory, this`lockedMemory, bitfield
      ensures Shaped() && x == cursor == old(NextFree(Now(), total)) && Now() == Grant(old(Now()), total)
      ensures !old(Taken(x))
      ensures x < total <==> old(ClearIn(bitfield[..], cursor, total)) > 0 || old(Taken(total))
      ensures x < total <==> Accounted()
      ensures x < total <==> old(Left()) > 0
      ensures old(Left()) > 0 ==> Left() == old(Left()) - 1
      ensures lockedMemory == old(lockedMemory) + PAGE
    {
      hide GetBit, ByteSet, ByteClear, ClearIn, FirstClear;
      ghost var wrapped, b := false, Now();
      ghost var s := b.bits;
      FirstClearFinds(s, cursor, total);
      ClearInNone(s, 1, 0);
      if total > 0 {
        FirstClearFinds(s, 1, total);
      }
      if Left() > 0 {
        GrantTakes(b, total);
      }
      while Taken(cursor)
        modifies this`cursor
        invariant Shaped() && bitfield[..] == s && Accounted()
        invariant FirstClear(s, cursor, total) == FirstClear(s, if wrapped then 1 else b.cursor, total)
        invariant wrapped ==> 1 <= cursor && GetBit(s, total) && FirstClear(s, b.cursor, total) == total
        invariant wrapped ==> FirstClear(s, 1, total) < total
        decreases !wrapped, total - cursor
      {
        FirstClearStep(s, cursor, total);
        if cursor >= total {
          cursor := 0;
          wrapped := true;
        }
        cursor := cursor + 1;
      }
      x := cursor;
      FirstClearStep(s, x, total);
      LockScanned(x);
    }

    /** MmLockPage on the page the scan stopped at. */
    method LockScanned(x: nat)
      requires Valid() && x == cursor && !Taken(x)
      modifies this`freeMemory, this`lockedMemory, bitfield
      ensures Shaped() && bitfield[..] == SetBit(old(bitfield[..]), x)
      ensures x < total <==> Accounted()
      ensures lockedMemory == old(lockedMemory) + PAGE
    {
      hide GetBit, ByteSet, ByteClear, ClearIn;
      ghost var s := bitfield[..];
      if x < total {
        ClearInUpdate(s, 0, total, x);
      } else {
        ClearInOutside(s, 0, total, x);
      }
      bitfield[x / 8] := ByteSet(bitfield[x / 8], x % 8);
      assert bitfield[..] == SetBit(s, x);
      freeMemory := freeMemory - PAGE;
      lockedMemory := lockedMemory + PAGE;
    }

    /** MmFreePage on the address of a page that is taken. */
    method FreePage(page: nat)
      requires Valid() && firstPage <= page < firstPage + total && Taken(page - firstPage)
      modifies this`freeMemory, this`lockedMemory, this`reservedMemory, bitfield
      ensures Valid() && bitfield[..] == ClearBit(old(bitfield[..]), page - firstPage)
      ensures Left() >= old(Left())
      ensures lockedMemory == old(lockedMemory) - PAGE && reservedMemory == old(reservedMemory)
    {
      hide GetBit, ByteSet, ByteClear, ClearIn, Avail;
      ReleaseLeaves(Now(), total, page - firstPage);
      Release(page - firstPage, false);
    }
  }

  /** A region of four pages, three of them reserved: the second request gets the page after the last. */
  method RequestBeyond() returns (alloc: Allocator, page: nat)
    ensures fresh(alloc) && alloc.Shaped() && alloc.total == 4 && alloc.cursor == page == alloc.total
    ensures alloc.Taken(page) && !alloc.Accounted()
  {
    hide GetBit, ByteSet, ByteClear;
    alloc := new Allocator(0, 4, 0);
    ghost var s := alloc.bitfield[..];
    assert ReservedPages(4) == 3;
    assert alloc.Taken(0) && alloc.Taken(1) && alloc.Taken(2) && !alloc.Taken(3) && !alloc.Taken(4);
    assert FirstClear(s, 2, 4) == 3;
    page := alloc.RequestPage();
    BitUpdate(s, 3, 3);
    BitUpdate(s, 3, 4);
    ghost var t := alloc.bitfield[..];
    page := alloc.RequestPage();
    BitUpdate(t, 4, 4);
  }

  lemma ClearInNone(s: seq<bv8>, from: nat, end: nat)
    requires end <= 8 * |s| && from >= end
    ensures ClearIn(s, from, end) == 0
  {
  }
}
