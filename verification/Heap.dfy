/** The kernel heap: boundary tags over a contiguous range, and an index of the holes ordered by size. */
module Heaps {
  import opened Util
  import opened OrderedArrays
  import opened Tiling

  const INDEX_SIZE := 0x20000

  function Key(h: Headers): nat -> nat { (a: nat) => SizeOf(h, a) }

  /** HeaderPredicate. */
  function Smaller(h: Headers): Compare { ByKey(Key(h)) }

  /** The index lists every hole once and nothing else. */
  ghost predicate Indexed(ix: seq<nat>, h: Headers, blocks: set<nat>) {
    NoRepeats(ix) && forall a :: a in ix <==> a in blocks && IsHole(h, a)
  }

  /** Blocks in use, with their sizes. */
  ghost function InUse(h: Headers, blocks: set<nat>): map<nat, nat> {
    map a | a in blocks && !IsHole(h, a) :: SizeOf(h, a)
  }

  /** The order depends on the sizes of the listed holes only. */
  lemma OrderedSame(ix: seq<nat>, h: Headers, h': Headers)
    requires Ordered(ix, Key(h)) && forall a :: a in ix ==> SizeOf(h', a) == SizeOf(h, a)
    ensures Ordered(ix, Key(h'))
  {
    forall i, j | 0 <= i < j < |ix| ensures Key(h')(ix[i]) <= Key(h')(ix[j]) {
      assert Key(h)(ix[i]) <= Key(h)(ix[j]);
    }
  }

  /** In an ordered index the first hole that fits is the smallest that fits. */
  lemma FirstIsSmallest(ix: seq<nat>, h: Headers, size: nat, k: nat, a: nat)
    requires Ordered(ix, Key(h)) && k < |ix| && forall i :: 0 <= i < k ==> SizeOf(h, ix[i]) < size
    requires a in ix && SizeOf(h, a) >= size
    ensures SizeOf(h, ix[k]) <= SizeOf(h, a)
  {
    var j :| 0 <= j < |ix| && ix[j] == a;
    assert j > k ==> Key(h)(ix[k]) <= Key(h)(ix[j]);
  }

  /** Listed holes are the holes among the blocks. */
  lemma Holes(ix: seq<nat>, h: Headers, blocks: set<nat>, n: nat)
    requires Indexed(ix, h, blocks)
    ensures forall a :: a in ix ==> a in h && a in blocks && IsHole(h, a)
    ensures (forall a :: a in ix ==> SizeOf(h, a) < n)
            <==> (forall a :: a in blocks && IsHole(h, a) ==> SizeOf(h, a) < n)
  {
  }

  lemma Smallest(ix: seq<nat>, h: Headers, blocks: set<nat>, n: nat, k: nat)
    requires Indexed(ix, h, blocks) && k < |ix| && forall i :: 0 <= i < k ==> SizeOf(h, ix[i]) < n
    ensures Ordered(ix, Key(h)) ==>
              forall a :: a in blocks && IsHole(h, a) && SizeOf(h, a) >= n ==> SizeOf(h, ix[k]) <= SizeOf(h, a)
  {
    if Ordered(ix, Key(h)) {
      forall a | a in blocks && IsHole(h, a) && SizeOf(h, a) >= n ensures SizeOf(h, ix[k]) <= SizeOf(h, a) {
        FirstIsSmallest(ix, h, n, k, a);
      }
    }
  }

  /** Growing one listed hole keeps the order if and only if it does not outgrow its successor. */
  lemma OrderedGrown(ix: seq<nat>, h: Headers, h': Headers, k: nat)
    requires Ordered(ix, Key(h)) && NoRepeats(ix) && k < |ix| && SizeOf(h', ix[k]) >= SizeOf(h, ix[k])
    requires forall a :: a in ix && a != ix[k] ==> SizeOf(h', a) == SizeOf(h, a)
    ensures Ordered(ix, Key(h')) <==> k + 1 == |ix| || SizeOf(h', ix[k]) <= SizeOf(h, ix[k + 1])
  {
    if k + 1 < |ix| && SizeOf(h', ix[k]) > SizeOf(h, ix[k + 1]) {
      assert Key(h')(ix[k]) > Key(h')(ix[k + 1]);
    } else {
      forall i, j | 0 <= i < j < |ix| ensures Key(h')(ix[i]) <= Key(h')(ix[j]) {
        assert Key(h)(ix[i]) <= Key(h)(ix[j]);
        if i == k {
          assert j > k + 1 ==> Key(h)(ix[k + 1]) <= Key(h)(ix[j]);
        }
      }
    }
  }

  /** Where the first block goes: on the page after the index, even if the index ends on a page boundary. */
  function StartOf(base: nat): (s: nat)
    ensures s % PAGE == 0 && base + 8 * INDEX_SIZE < s <= base + 8 * INDEX_SIZE + PAGE
  {
    PastPage(base + 8 * INDEX_SIZE)
  }

  function PastPage(x: nat): nat { if x / PAGE != 0 then x / PAGE * PAGE + PAGE else x }

  lemma OneHole(start: nat, end: nat)
    requires start + 2 * TAG <= end
    ensures var h: Headers := map[start := Header(MAGIC, true, end - start)];
            && Tiled(h, {start}, start, end) && Footed(h, map[], {start}, end)
            && Inserted([], start, Smaller(h)) == [start] && Indexed([start], h, {start}) && Ordered([start], Key(h))
            && InUse(h, {start}) == map[]
  {
    var h: Headers := map[start := Header(MAGIC, true, end - start)];
    assert Sound(h, start, start, end) && Followed(h, {start}, start, end) && Apart(h, start, start);
  }

  // ------------------------------------------------------------------------ effects on the index

  /** Taking listed hole `k` for use. */
  lemma IndexTaken(ix: seq<nat>, h: Headers, blocks: set<nat>, k: nat, n: nat)
    requires Indexed(ix, h, blocks) && k < |ix|
    ensures var h' := h[ix[k] := Header(MAGIC, false, n)];
            Indexed(Removed(ix, k), h', blocks)
            && (Ordered(ix, Key(h)) ==> Ordered(Removed(ix, k), Key(h')))
            && InUse(h', blocks) == InUse(h, blocks)[ix[k] := n] && ix[k] !in InUse(h, blocks)
  {
    var h', r := h[ix[k] := Header(MAGIC, false, n)], Removed(ix, k);
    RemovedMembers(ix, k);
    assert ix[k] in ix;
    if Ordered(ix, Key(h)) {
      OrderedSame(r, h, h');
    }
  }

  /** Listing a new hole. */
  lemma IndexAdded(ix: seq<nat>, h: Headers, blocks: set<nat>, a: nat, n: nat)
    requires Indexed(ix, h, blocks) && a !in ix
    ensures var h' := h[a := Header(MAGIC, true, n)];
            Indexed(Inserted(ix, a, Smaller(h')), h', blocks + {a})
            && (Ordered(ix, Key(h)) ==> Ordered(Inserted(ix, a, Smaller(h')), Key(h')))
            && InUse(h', blocks + {a}) == InUse(h, blocks) - {a}
  {
    hide Inserted;
    var h' := h[a := Header(MAGIC, true, n)];
    InsertedMembers(ix, a, Smaller(h'));
    if Ordered(ix, Key(h)) {
      OrderedSame(ix, h, h');
      InsertedOrdered(ix, a, Key(h'));
    }
  }

  class Heap {
    const start: nat
    const end: nat
    const index: OrderedArray
    var headers: Headers
    var footers: Footers
    ghost var blocks: set<nat>

    ghost predicate Shaped()
      reads this, index, index.items
    {
      && index.Valid() && index.size < index.items.Length
      && Indexed(index.Contents(), headers, blocks)
      && (start < TAG || start - TAG !in footers || footers[start - TAG].magic != MAGIC)
    }

    ghost predicate Valid()
      reads this, index, index.items
    {
      Shaped() && Tiled(headers, blocks, start, end) && Footed(headers, footers, blocks, end)
    }

    ghost predicate Sorted()
      requires index.Valid()
      reads this, index, index.items
    {
      Ordered(index.Contents(), Key(headers))
    }

    ghost function Live(): map<nat, nat>
      reads this
    {
      InUse(headers, blocks)
    }

    /** HeapCreate: one hole from the page after the index to the end.  The rounding skips a page even when
        the index already ends on a page boundary. */
    constructor (base: nat, end_: nat)
      requires base + 8 * INDEX_SIZE + PAGE + 2 * TAG <= end_
      ensures fresh(index) && fresh(index.items) && Valid() && Sorted() && Live() == map[]
      ensures end == end_ && start % PAGE == 0 && base + 8 * INDEX_SIZE < start <= base + 8 * INDEX_SIZE + PAGE
      ensures index.Contents() == [start] && index.items.Length == INDEX_SIZE && blocks == {start}
      ensures headers == map[start := Header(MAGIC, true, end - start)] && footers == map[]
    {
      hide StartOf, Tiled, Footed, Indexed, Ordered, InUse, Inserted, Smaller;
      var first := StartOf(base);
      OneHole(first, end_);
      start, end := first, end_;
      headers, footers := map[first := Header(MAGIC, true, end_ - first)], map[];
      blocks := {first};
      index := new OrderedArray(INDEX_SIZE);
      new;
      index.Insert(first, Smaller(headers));
    }

    /** HeapFindSmallestHole, unaligned: the first indexed hole that is large enough. */
    method FindSmallestHole(size: nat) returns (k: int)
      requires index.Valid() && forall a :: a in index.Contents() ==> a in headers
      ensures k == -1 <==> forall a :: a in index.Contents() ==> SizeOf(headers, a) < size
      ensures k == -1 || (0 <= k < index.size && SizeOf(headers, index.Contents()[k]) >= size)
      ensures forall i :: 0 <= i < k ==> SizeOf(headers, index.Contents()[i]) < size
    {
      var i := 0;
      while i < index.size && SizeOf(headers, index.items[i]) < size
        invariant 0 <= i <= index.size
        invariant forall j :: 0 <= j < i ==> SizeOf(headers, index.Contents()[j]) < size
      {
        i := i + 1;
      }
      assert i < index.size ==> index.Contents()[i] in index.Contents();
      k := if i == index.size then -1 else i;
    }

    /** HeapAllocate, unaligned, as far as the search for a hole.  Without a hole that is large enough the
        heap would have to grow; then nothing has changed yet. */
    method Allocate(size: nat) returns (r: Option<nat>)
      requires Valid()
      modifies this, index, index.items
      ensures Valid()
      ensures r.None? <==> forall a :: a in old(blocks) && old(IsHole(headers, a)) ==>
                             old(SizeOf(headers, a)) < size + 2 * TAG
      ensures r.None? ==> Live() == old(Live()) && blocks == old(blocks) && headers == old(headers)
                          && footers == old(footers) && index.Contents() == old(index.Contents())
      ensures r.Some? ==> Serves(old(headers), old(blocks), old(Live()), Live(), size, r.value)
      ensures r.Some? ==>
                var hole, room := r.value - TAG, old(SizeOf(headers, r.value - TAG));
                && headers == CutHeaders(old(headers), hole, Granted(size, room), room)
                && footers == CutFooters(old(footers), hole, Granted(size, room), room)
                && blocks == CutBlocks(old(blocks), hole, Granted(size, room), room)
      ensures index.size <= old(index.size)
      ensures old(Sorted()) ==> Sorted()
      ensures r.Some? && old(Sorted()) ==>
                forall a :: a in old(blocks) && old(IsHole(headers, a)) && old(SizeOf(headers, a)) >= size + 2 * TAG ==>
                  old(SizeOf(headers, r.value - TAG)) <= old(SizeOf(headers, a))
    {
      hide Tiled, Footed, Indexed, Ordered, InUse;
      var n := size + 2 * TAG;
      ghost var ix := index.Contents();
      Holes(ix, headers, blocks, n);
      var k := FindSmallestHole(n);
      if k == -1 {
        return None;
      }
      var hole := index.items[k];
      assert hole == ix[k] && hole in ix;
      Smallest(ix, headers, blocks, n, k);
      var room := headers[hole].size;
      if room - n < 2 * TAG {
        TakeWhole(k, hole);
      } else {
        TakePart(k, hole, n);
      }
      r := Some(hole + TAG);
    }

    /** The whole hole becomes the block. */
    method TakeWhole(k: nat, hole: nat)
      requires Valid() && k < index.size && hole == index.Contents()[k]
      modifies this, index, index.items
      ensures Valid() && blocks == old(blocks) && Live() == old(Live())[hole := old(SizeOf(headers, hole))]
      ensures hole !in old(Live()) && (old(Sorted()) ==> Sorted()) && index.size == old(index.size) - 1
      ensures var n := old(SizeOf(headers, hole));
              && n >= TAG && headers == old(headers)[hole := Header(MAGIC, false, n)]
              && footers == old(footers)[hole + n - TAG := Footer(MAGIC, hole)]
    {
      hide Tiled, Footed, Indexed, Ordered, Removed, InUse;
      IndexTaken(index.Contents(), headers, blocks, k, SizeOf(headers, hole));
      Listed(index.Contents(), headers, blocks, start, end, k);
      RetagTiled(headers, blocks, start, end, hole, false);
      RetagFooted(headers, footers, blocks, start, end, hole, false);
      var n := headers[hole].size;
      index.Remove(k);
      headers := headers[hole := Header(MAGIC, false, n)];
      footers := footers[hole + n - TAG := Footer(MAGIC, hole)];
    }

    /** The front of the hole becomes the block and the rest a new hole. */
    method TakePart(k: nat, hole: nat, n: nat)
      requires Valid() && k < index.size && hole == index.Contents()[k]
      requires 2 * TAG <= n && n + 2 * TAG <= SizeOf(headers, hole)
      modifies this, index, index.items
      ensures Valid() && blocks == old(blocks) + {hole + n} && Live() == old(Live())[hole := n]
      ensures hole !in old(Live()) && (old(Sorted()) ==> Sorted()) && index.size == old(index.size)
      ensures headers == PartHeaders(old(headers), hole, n, old(SizeOf(headers, hole)))
      ensures footers == PartFooters(old(footers), hole, n, old(SizeOf(headers, hole)))
    {
      hide Tiled, Footed, Indexed, Ordered, Removed, Inserted, InUse, Smaller;
      ghost var ix, h, f := index.Contents(), headers, footers;
      PartTiles(ix, h, f, blocks, start, end, k, n);
      PartIndexes(ix, h, blocks, k, n, SizeOf(h, hole));
      var room := headers[hole].size;
      index.Remove(k);
      headers := headers[hole := Header(MAGIC, false, n)];
      footers := footers[hole + n - TAG := Footer(MAGIC, hole)];
      headers := headers[hole + n := Header(MAGIC, true, room - n)];
      footers := footers[hole + room - TAG := Footer(MAGIC, hole + n)];
      index.Insert(hole + n, Smaller(headers));
      blocks := blocks + {hole + n};
    }

    /** HeapFree of a block that is not the last and whose right neighbour is in use.  A left merge leaves
        the index as it is, so it stays ordered only if the grown hole does not outgrow its successor. */
    method Free(address: nat)
      requires Valid() && index.size + 1 < index.items.Length
      requires address != 0 ==> address >= TAG && address - TAG in Live()
                                && End(headers, address - TAG) < end && !IsHole(headers, End(headers, address - TAG))
      modifies this, index, index.items
      ensures Valid() && Live() == if address == 0 then old(Live()) else old(Live()) - {address - TAG}
      ensures address == 0 || !old(LeftIsHole(headers, footers, address - TAG)) ==>
                blocks == old(blocks) && footers == old(footers) && (old(Sorted()) ==> Sorted())
      ensures address != 0 && !old(LeftIsHole(headers, footers, address - TAG)) ==>
                && headers == old(headers)[address - TAG := Header(MAGIC, true, old(SizeOf(headers, address - TAG)))]
                && index.size == old(index.size) + 1
      ensures address != 0 && old(LeftIsHole(headers, footers, address - TAG)) ==>
                && headers == MergedHeaders(old(headers), old(footers[address - 2 * TAG].header), address - TAG)
                && blocks == old(blocks) - {address - TAG} && index.Contents() == old(index.Contents())
                && (old(Sorted()) ==>
                      (Sorted() <==> old(GrownFits(index.Contents(), headers, footers[address - 2 * TAG].header,
                                                   address - TAG))))
    {
      hide Tiled, Footed, Indexed, Ordered, InUse, GrownFits;
      if address == 0 {
        return;
      }
      var header := address - TAG;
      if LeftIsHole(headers, footers, header) {
        MergeLeft(header);
      } else {
        Release(header);
      }
    }

    method MergeLeft(b: nat)
      requires Valid() && b in Live() && LeftIsHole(headers, footers, b) && End(headers, b) < end
      modifies this
      ensures Valid() && blocks == old(blocks) - {b} && Live() == old(Live()) - {b}
      ensures headers == MergedHeaders(old(headers), old(footers[b - TAG].header), b)
      ensures old(Sorted()) ==>
                (Sorted() <==> old(GrownFits(index.Contents(), headers, footers[b - TAG].header, b)))
    {
      hide Tiled, Footed, Indexed, Ordered, InUse;
      InUseMeans(headers, footers, blocks, start, end, b);
      var footer := End(headers, b) - TAG;
      var left := footers[b - TAG].header;
      LeftMerged(index.Contents(), headers, footers, blocks, start, end, b);
      LeftMergedIndex(index.Contents(), headers, blocks, left, b);
      headers := headers[b := headers[b].(hole := true)];
      footers := footers[footer := footers[footer].(header := left)];
      headers := headers[left := headers[left].(size := headers[left].size + headers[b].size)];
      blocks := blocks - {b};
    }

    method Release(b: nat)
      requires Valid() && b in Live() && !LeftIsHole(headers, footers, b) && index.size + 1 < index.items.Length
      modifies this, index, index.items
      ensures Valid() && blocks == old(blocks) && Live() == old(Live()) - {b} && (old(Sorted()) ==> Sorted())
      ensures headers == old(headers)[b := Header(MAGIC, true, old(SizeOf(headers, b)))] && footers == old(footers)
      ensures index.size == old(index.size) + 1
    {
      hide Tiled, Footed, Indexed, Ordered, Removed, Inserted, InUse, Smaller;
      InUseMeans(headers, footers, blocks, start, end, b);
      InUseUnlisted(index.Contents(), headers, blocks, b);
      RetagTiled(headers, blocks, start, end, b, true);
      RetagFooted(headers, footers, blocks, start, end, b, true);
      IndexAdded(index.Contents(), headers, blocks, b, headers[b].size);
      headers := headers[b := headers[b].(hole := true)];
      index.Insert(b, Smaller(headers));
      assert blocks + {b} == blocks;
    }
  }

  // --------------------------------------------------------------------------------------- freeing

  /** The left neighbour that HeapFree looks for through the footer before `b`. */
  predicate LeftIsHole(h: Headers, f: Footers, b: nat) {
    b >= TAG && b - TAG in f && f[b - TAG].magic == MAGIC && IsHole(h, f[b - TAG].header)
  }

  /** Block `b` joined to the listed hole `hole` would still be no larger than the hole's successor. */
  ghost predicate GrownFits(ix: seq<nat>, h: Headers, hole: nat, b: nat) {
    forall k :: 0 <= k < |ix| && ix[k] == hole ==>
      k + 1 == |ix| || SizeOf(h, hole) + SizeOf(h, b) <= SizeOf(h, ix[k + 1])
  }

  /** Headers after block `b` has joined the hole `left`. */
  function MergedHeaders(h: Headers, left: nat, b: nat): Headers {
    h[b := Header(MAGIC, true, SizeOf(h, b))][left := Header(MAGIC, true, SizeOf(h, left) + SizeOf(h, b))]
  }

  lemma InUseMeans(h: Headers, f: Footers, blocks: set<nat>, start: nat, end: nat, b: nat)
    requires Tiled(h, blocks, start, end) && Footed(h, f, blocks, end) && b in InUse(h, blocks)
    ensures b in blocks && !IsHole(h, b) && Sound(h, b, start, end)
    ensures End(h, b) < end ==> End(h, b) - TAG in f && f[End(h, b) - TAG] == Footer(MAGIC, b)
  {
    assert Sound(h, b, start, end);
  }

  lemma InUseUnlisted(ix: seq<nat>, h: Headers, blocks: set<nat>, b: nat)
    requires Indexed(ix, h, blocks) && !IsHole(h, b)
    ensures b !in ix
  {
  }

  lemma LeftMerged(ix: seq<nat>, h: Headers, f: Footers, blocks: set<nat>, start: nat, end: nat, b: nat)
    requires Tiled(h, blocks, start, end) && Footed(h, f, blocks, end) && b in blocks && LeftIsHole(h, f, b)
    requires start < TAG || start - TAG !in f || f[start - TAG].magic != MAGIC
    ensures var left := f[b - TAG].header;
            && left in blocks && left != b && Sound(h, left, start, end) && End(h, b) >= TAG + start
            && Tiled(MergedHeaders(h, left, b), blocks - {b}, start, end)
            && Footed(MergedHeaders(h, left, b), f[End(h, b) - TAG := Footer(MAGIC, left)], blocks - {b}, end)
  {
    var left := f[b - TAG].header;
    assert Sound(h, b, start, end);
    LeftNeighbour(h, f, blocks, start, end, b);
    var h1 := h[b := Header(MAGIC, true, SizeOf(h, b))];
    assert Sound(h, left, start, end);
    RetagTiled(h, blocks, start, end, b, true);
    RetagFooted(h, f, blocks, start, end, b, true);
    assert End(h1, left) == b && End(h1, b) == End(h, b);
    MergeTiled(h1, blocks, start, end, left, b);
    MergeFooted(h1, f, blocks, start, end, left, b);
  }

  lemma LeftMergedIndex(ix: seq<nat>, h: Headers, blocks: set<nat>, left: nat, b: nat)
    requires Indexed(ix, h, blocks) && left in blocks && b in blocks && left != b
    requires IsHole(h, left) && !IsHole(h, b)
    ensures var h' := MergedHeaders(h, left, b);
            && Indexed(ix, h', blocks - {b}) && InUse(h', blocks - {b}) == InUse(h, blocks) - {b}
            && (Ordered(ix, Key(h)) ==> (Ordered(ix, Key(h')) <==> GrownFits(ix, h, left, b)))
  {
    hide Ordered;
    var h' := MergedHeaders(h, left, b);
    assert b !in ix && left in ix;
    if Ordered(ix, Key(h)) {
      var k :| 0 <= k < |ix| && ix[k] == left;
      OrderedGrown(ix, h, h', k);
      assert forall j :: 0 <= j < |ix| && ix[j] == left ==> j == k;
    }
  }

  function PartHeaders(h: Headers, a: nat, n: nat, room: nat): Headers
    requires n <= room
  {
    h[a := Header(MAGIC, false, n)][a + n := Header(MAGIC, true, room - n)]
  }

  function PartFooters(f: Footers, a: nat, n: nat, room: nat): Footers
    requires TAG <= n <= room
  {
    f[a + n - TAG := Footer(MAGIC, a)][a + room - TAG := Footer(MAGIC, a + n)]
  }

  // ------------------------------------------------------------------------- effects of allocation

  /** The size of the block: the request with its tags, or the whole hole if too little would be left. */
  function Granted(size: nat, room: nat): nat {
    if room < size + 4 * TAG then room else size + 2 * TAG
  }

  function CutHeaders(h: Headers, a: nat, n: nat, room: nat): Headers {
    if n >= room then h[a := Header(MAGIC, false, n)] else PartHeaders(h, a, n, room)
  }

  function CutFooters(f: Footers, a: nat, n: nat, room: nat): Footers {
    if n < TAG then f
    else if n >= room then f[a + n - TAG := Footer(MAGIC, a)] else PartFooters(f, a, n, room)
  }

  function CutBlocks(blocks: set<nat>, a: nat, n: nat, room: nat): set<nat> {
    if n >= room then blocks else blocks + {a + n}
  }

  // ------------------------------------------------------------------ a heap that loses its order

  /** `k` blocks of 32 bytes in use from `s` on, and then a hole up to `end`. */
  ghost predicate Row(h: Headers, f: Footers, blocks: set<nat>, s: nat, end: nat, k: nat) {
    && end >= s + 32 * k
    && (forall a :: a in blocks ==> s <= a <= s + 32 * k && (a - s) % 32 == 0)
    && (forall i :: 0 <= i < k ==> s + 32 * i in blocks && s + 32 * i in h && h[s + 32 * i] == Header(MAGIC, false, 32))
    && s + 32 * k in blocks && s + 32 * k in h && h[s + 32 * k] == Header(MAGIC, true, end - s - 32 * k)
    && (forall i :: 0 <= i < k ==> s + 32 * i + TAG in f && f[s + 32 * i + TAG] == Footer(MAGIC, s + 32 * i))
    && (forall x :: x in f ==> x >= s)
  }

  lemma RowHole(h: Headers, f: Footers, blocks: set<nat>, s: nat, end: nat, k: nat, a: nat)
    requires Row(h, f, blocks, s, end, k) && a in blocks && IsHole(h, a)
    ensures a == s + 32 * k
  {
    var i := (a - s) / 32;
    assert a == s + 32 * i;
  }

  lemma RowGrows(h: Headers, f: Footers, blocks: set<nat>, s: nat, end: nat, k: nat)
    requires Row(h, f, blocks, s, end, k) && end - s - 32 * k >= 64
    ensures var a, room := s + 32 * k, end - s - 32 * k;
            Row(CutHeaders(h, a, 32, room), CutFooters(f, a, 32, room), CutBlocks(blocks, a, 32, room), s, end, k + 1)
  {
  }

  /** One more block at the end of the row. */
  method AllocateNext(heap: Heap, ghost k: nat)
    requires heap.Valid() && heap.Sorted() && heap.end - heap.start - 32 * k >= 64
    requires Row(heap.headers, heap.footers, heap.blocks, heap.start, heap.end, k)
    modifies heap, heap.index, heap.index.items
    ensures heap.Valid() && heap.Sorted() && heap.index.size <= old(heap.index.size)
    ensures Row(heap.headers, heap.footers, heap.blocks, heap.start, heap.end, k + 1)
  {
    hide Tiled, Footed, Indexed, Ordered, InUse, CutHeaders, CutFooters, CutBlocks;
    ghost var h, f, blocks, s, end := heap.headers, heap.footers, heap.blocks, heap.start, heap.end;
    assert IsHole(h, s + 32 * k) && SizeOf(h, s + 32 * k) == end - s - 32 * k;
    RowGrows(h, f, blocks, s, end, k);
    var a := heap.Allocate(0);
    RowHole(h, f, blocks, s, end, k, a.value - TAG);
  }

  method AllocateThree() returns (heap: Heap)
    ensures fresh(heap) && fresh(heap.index) && fresh(heap.index.items)
    ensures heap.Valid() && heap.Sorted() && heap.index.size <= 1 && heap.index.items.Length == INDEX_SIZE
    ensures heap.end == heap.start + 144 && heap.start >= TAG
    ensures Row(heap.headers, heap.footers, heap.blocks, heap.start, heap.start + 144, 3)
  {
    hide Tiled, Footed, Indexed, Ordered, InUse;
    heap := new Heap(0, 8 * INDEX_SIZE + PAGE + 144);
    assert heap.start == 8 * INDEX_SIZE + PAGE;
    assert Row(heap.headers, heap.footers, heap.blocks, heap.start, heap.end, 0);
    hide Row;
    AllocateNext(heap, 0);
    AllocateNext(heap, 1);
    AllocateNext(heap, 2);
  }

  /** Freeing the first block makes a hole of 32 bytes, listed before the one of 48; freeing the second makes it
      64, and it stays where it is. */
  method OrderLost() returns (heap: Heap)
    ensures fresh(heap) && heap.Valid() && !heap.Sorted()
  {
    hide Tiled, Footed, Indexed, Ordered, InUse, Row, FirstHole;
    heap := AllocateThree();
    FreeFirst(heap);
    FreeSecond(heap);
  }

  method FreeFirst(heap: Heap)
    requires heap.Valid() && heap.Sorted() && heap.index.size <= 1 && heap.index.items.Length == INDEX_SIZE
    requires heap.end == heap.start + 144 && heap.start >= TAG
    requires Row(heap.headers, heap.footers, heap.blocks, heap.start, heap.start + 144, 3)
    modifies heap, heap.index, heap.index.items
    ensures heap.Valid() && heap.Sorted() && heap.index.size <= 2
    ensures FirstHole(heap.headers, heap.footers, heap.blocks, heap.start)
  {
    hide Tiled, Footed, Indexed, Ordered, InUse, Row, FirstHole, LeftIsHole, GrownFits, MergedHeaders;
    var s := heap.start;
    RowOfThree(heap.headers, heap.footers, heap.blocks, s);
    FirstFreed(heap.headers, heap.footers, heap.blocks, s);
    heap.Free(s + TAG);
  }

  method FreeSecond(heap: Heap)
    requires heap.Valid() && heap.Sorted() && heap.index.size <= 2 && heap.index.items.Length == INDEX_SIZE
    requires heap.end == heap.start + 144 && heap.start >= TAG
    requires FirstHole(heap.headers, heap.footers, heap.blocks, heap.start)
    modifies heap, heap.index, heap.index.items
    ensures heap.Valid() && !heap.Sorted()
  {
    hide Tiled, Footed, Indexed, Ordered, InUse, LeftIsHole, GrownFits, MergedHeaders;
    Outgrows(heap.index.Contents(), heap.headers, heap.blocks, heap.start);
    heap.Free(heap.start + 32 + TAG);
  }

  /** Holes of 32 and 48 bytes, with two blocks of 32 in use between them. */
  ghost predicate FirstHole(h: Headers, f: Footers, blocks: set<nat>, s: nat) {
    && s + 32 in InUse(h, blocks) && End(h, s + 32) == s + 64 && !IsHole(h, s + 64)
    && LeftIsHole(h, f, s + 32) && f[s + 16].header == s
    && (forall a :: a in blocks && IsHole(h, a) ==> a == s || a == s + 96) && s in blocks && s + 96 in blocks
    && IsHole(h, s) && IsHole(h, s + 96) && SizeOf(h, s) == SizeOf(h, s + 32) == 32 && SizeOf(h, s + 96) == 48
  }

  lemma RowOfThree(h: Headers, f: Footers, blocks: set<nat>, s: nat)
    requires Row(h, f, blocks, s, s + 144, 3) && s >= TAG
    ensures s in InUse(h, blocks) && End(h, s) == s + 32 && !IsHole(h, s + 32) && !LeftIsHole(h, f, s)
  {
    assert s + 32 * 0 == s && s + 32 * 1 == s + 32;
  }

  lemma FirstFreed(h: Headers, f: Footers, blocks: set<nat>, s: nat)
    requires Row(h, f, blocks, s, s + 144, 3) && s >= TAG
    ensures FirstHole(h[s := Header(MAGIC, true, SizeOf(h, s))], f, blocks, s)
  {
    assert s + 32 * 0 == s && s + 32 * 1 == s + 32 && s + 32 * 2 == s + 64 && s + 32 * 3 == s + 96;
    var h' := h[s := Header(MAGIC, true, SizeOf(h, s))];
    forall a | a in blocks && IsHole(h', a) && a != s ensures a == s + 96 {
      RowHole(h, f, blocks, s, s + 144, 3, a);
    }
  }

  lemma Outgrows(ix: seq<nat>, h: Headers, blocks: set<nat>, s: nat)
    requires Indexed(ix, h, blocks) && Ordered(ix, Key(h)) && s in blocks && s + 96 in blocks
    requires forall a :: a in blocks && IsHole(h, a) ==> a == s || a == s + 96
    requires IsHole(h, s) && IsHole(h, s + 96)
    requires SizeOf(h, s) == SizeOf(h, s + 32) == 32 && SizeOf(h, s + 96) == 48
    ensures !GrownFits(ix, h, s, s + 32)
  {
    assert s in ix && s + 96 in ix;
    var k :| 0 <= k < |ix| && ix[k] == s;
    var j :| 0 <= j < |ix| && ix[j] == s + 96;
    assert k < j by {
      assert forall i, n :: 0 <= i < n < |ix| ==> Key(h)(ix[i]) <= Key(h)(ix[n]);
    }
    assert ix[k + 1] in ix;
  }

  lemma PartTiles(ix: seq<nat>, h: Headers, f: Footers, blocks: set<nat>, start: nat, end: nat, k: nat, n: nat)
    requires Indexed(ix, h, blocks) && Tiled(h, blocks, start, end) && Footed(h, f, blocks, end) && k < |ix|
    requires 2 * TAG <= n && n + 2 * TAG <= SizeOf(h, ix[k])
    ensures var a, room := ix[k], SizeOf(h, ix[k]);
            && a in blocks && Sound(h, a, start, end) && a + n !in blocks
            && Tiled(PartHeaders(h, a, n, room), blocks + {a + n}, start, end)
            && Footed(PartHeaders(h, a, n, room), PartFooters(f, a, n, room), blocks + {a + n}, end)
  {
    hide Tiled, Footed, Indexed;
    Listed(ix, h, blocks, start, end, k);
    SplitTiled(h, blocks, start, end, ix[k], n, false);
    SplitFooted(h, f, blocks, start, end, ix[k], n, false);
  }

  lemma PartIndexes(ix: seq<nat>, h: Headers, blocks: set<nat>, k: nat, n: nat, room: nat)
    requires Indexed(ix, h, blocks) && k < |ix| && n <= room && ix[k] + n !in blocks
    ensures var a, h' := ix[k], PartHeaders(h, ix[k], n, room);
            var ix' := Inserted(Removed(ix, k), a + n, Smaller(h'));
            && Indexed(ix', h', blocks + {a + n})
            && (Ordered(ix, Key(h)) ==> Ordered(ix', Key(h')))
            && InUse(h', blocks + {a + n}) == InUse(h, blocks)[a := n] && a !in InUse(h, blocks)
  {
    hide Indexed, Ordered, Removed, Inserted, InUse, Smaller;
    var h1 := h[ix[k] := Header(MAGIC, false, n)];
    IndexTaken(ix, h, blocks, k, n);
    Unlisted(Removed(ix, k), h1, blocks, ix[k] + n);
    IndexAdded(Removed(ix, k), h1, blocks, ix[k] + n, room - n);
  }

  lemma Listed(ix: seq<nat>, h: Headers, blocks: set<nat>, start: nat, end: nat, k: nat)
    requires Indexed(ix, h, blocks) && Tiled(h, blocks, start, end) && k < |ix|
    ensures ix[k] in blocks && Sound(h, ix[k], start, end)
  {
    assert ix[k] in ix;
  }

  lemma Unlisted(ix: seq<nat>, h: Headers, blocks: set<nat>, a: nat)
    requires Indexed(ix, h, blocks) && a !in blocks
    ensures a !in ix && a !in InUse(h, blocks)
  {
  }

  /** `p` is the payload of a new block inside a former hole; every other block in use is as it was. */
  ghost predicate Serves(h: Headers, blocks: set<nat>, live: map<nat, nat>, live': map<nat, nat>, size: nat, p: nat) {
    && p >= TAG && p - TAG in blocks && IsHole(h, p - TAG) && p - TAG !in live
    && p - TAG in live' && live' == live[p - TAG := live'[p - TAG]]
    && size + 2 * TAG <= live'[p - TAG] < size + 4 * TAG && live'[p - TAG] <= SizeOf(h, p - TAG)
  }
}
