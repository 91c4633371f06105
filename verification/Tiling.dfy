/**
 Boundary tags.  A block starts with a header and ends with a footer; `blocks` is the set of addresses at
 which headers in use stand.  Other addresses of the two maps hold stale tags.
 */
module Tiling {

  const MAGIC := 0x123890AB
  const TAG := 16                            // size of a header, and of a footer

  datatype Header = Header(magic: nat, hole: bool, size: nat)
  datatype Footer = Footer(magic: nat, header: nat)

  type Headers = map<nat, Header>
  type Footers = map<nat, Footer>

  function SizeOf(h: Headers, a: nat): nat { if a in h then h[a].size else 0 }

  predicate IsHole(h: Headers, a: nat) { a in h && h[a].hole }

  function End(h: Headers, a: nat): nat { a + SizeOf(h, a) }

  ghost predicate Sound(h: Headers, a: nat, start: nat, end: nat) {
    a in h && h[a].magic == MAGIC && start <= a && h[a].size >= 2 * TAG && End(h, a) <= end
  }

  predicate Followed(h: Headers, blocks: set<nat>, a: nat, end: nat) {
    End(h, a) == end || End(h, a) in blocks
  }

  predicate Apart(h: Headers, a: nat, b: nat) {
    a == b || End(h, a) <= b || End(h, b) <= a
  }

  /** The blocks tile [start, end): each is followed by another or by the end, and none overlap. */
  ghost predicate Tiled(h: Headers, blocks: set<nat>, start: nat, end: nat) {
    && start in blocks
    && (forall a {:trigger Sound(h, a, start, end)} :: a in blocks ==> Sound(h, a, start, end))
    && (forall a {:trigger Followed(h, blocks, a, end)} :: a in blocks ==> Followed(h, blocks, a, end))
    && (forall a, b {:trigger Apart(h, a, b)} :: a in blocks && b in blocks ==> Apart(h, a, b))
  }

  /** Every byte of the heap lies in exactly one block. */
  lemma {:induction false} Covers(h: Headers, blocks: set<nat>, start: nat, end: nat, a: nat, x: nat)
    returns (b: nat)
    requires Tiled(h, blocks, start, end) && a in blocks && a <= x < end
    ensures b in blocks && b <= x < End(h, b)
    ensures forall c :: c in blocks && c <= x < End(h, c) ==> c == b
    decreases end - a
  {
    if x < End(h, a) {
      b := a;
      forall c | c in blocks && c <= x < End(h, c) ensures c == b {
        assert Apart(h, b, c);
      }
    } else {
      assert Sound(h, a, start, end) && Followed(h, blocks, a, end);
      b := Covers(h, blocks, start, end, End(h, a), x);
    }
  }

  /** The caller's part of a block. */
  predicate InPayload(h: Headers, a: nat, x: nat) { a + TAG <= x < End(h, a) - TAG }

  predicate InTag(h: Headers, a: nat, x: nat) { a <= x < a + TAG || End(h, a) - TAG <= x < End(h, a) }

  /** A payload meets no tag and no other payload. */
  lemma PayloadsApart(h: Headers, blocks: set<nat>, start: nat, end: nat, a: nat, b: nat, x: nat)
    requires Tiled(h, blocks, start, end) && a in blocks && b in blocks && InPayload(h, a, x)
    ensures !InTag(h, b, x) && (InPayload(h, b, x) ==> a == b)
  {
    assert Sound(h, a, start, end) && Sound(h, b, start, end) && Apart(h, a, b);
  }

  /** All footers but the last block's are in place. */
  ghost predicate Footed(h: Headers, f: Footers, blocks: set<nat>, end: nat) {
    forall a :: a in blocks && TAG <= End(h, a) < end ==>
      End(h, a) - TAG in f && f[End(h, a) - TAG] == Footer(MAGIC, a)
  }

  // --------------------------------------------------------------------------- changes of the tiling

  /** Changing a block's flag but not its size. */
  lemma RetagTiled(h: Headers, blocks: set<nat>, start: nat, end: nat, a: nat, hole: bool)
    requires Tiled(h, blocks, start, end) && a in blocks
    ensures Tiled(h[a := Header(MAGIC, hole, SizeOf(h, a))], blocks, start, end)
  {
    var h' := h[a := Header(MAGIC, hole, SizeOf(h, a))];
    forall b | b in blocks ensures Sound(h', b, start, end) {
      assert Sound(h, b, start, end);
    }
    forall b | b in blocks ensures Followed(h', blocks, b, end) {
      assert Sound(h, b, start, end) && Followed(h, blocks, b, end);
    }
    forall b, c | b in blocks && c in blocks ensures Apart(h', b, c) {
      assert Sound(h, b, start, end) && Sound(h, c, start, end) && Apart(h, b, c);
    }
  }

  lemma RetagFooted(h: Headers, f: Footers, blocks: set<nat>, start: nat, end: nat, a: nat, hole: bool)
    requires Tiled(h, blocks, start, end) && Footed(h, f, blocks, end) && a in blocks
    ensures End(h, a) >= TAG
    ensures var h' := h[a := Header(MAGIC, hole, SizeOf(h, a))];
            Footed(h', f, blocks, end) && Footed(h', f[End(h, a) - TAG := Footer(MAGIC, a)], blocks, end)
  {
    assert Sound(h, a, start, end);
    forall b | b in blocks ensures Sound(h, b, start, end) && (b != a ==> End(h, b) != End(h, a)) {
      assert Sound(h, b, start, end) && Apart(h, a, b);
    }
  }

  function Split(h: Headers, a: nat, n: nat, hole: bool): Headers
  {
    h[a := Header(MAGIC, hole, n)][a + n := Header(MAGIC, true, if n <= SizeOf(h, a) then SizeOf(h, a) - n else 0)]
  }

  /** Cutting a block in two. */
  lemma SplitTiled(h: Headers, blocks: set<nat>, start: nat, end: nat, a: nat, n: nat, hole: bool)
    requires Tiled(h, blocks, start, end) && a in blocks && 2 * TAG <= n && n + 2 * TAG <= SizeOf(h, a)
    ensures a + n !in blocks && Tiled(Split(h, a, n, hole), blocks + {a + n}, start, end)
  {
    var h', blocks' := Split(h, a, n, hole), blocks + {a + n};
    assert Sound(h, a, start, end) && Followed(h, blocks, a, end);
    forall b | b in blocks && b != a
      ensures b != a + n && End(h', b) == End(h, b) && Sound(h', b, start, end)
      ensures End(h, b) <= a || End(h, a) <= b
    {
      assert Sound(h, b, start, end) && Apart(h, a, b);
    }
    forall b | b in blocks' ensures Followed(h', blocks', b, end) {
      assert b != a + n ==> Followed(h, blocks, b, end);
    }
    forall b, c | b in blocks' && c in blocks' ensures Apart(h', b, c) {
      assert b in blocks && c in blocks ==> Apart(h, b, c);
    }
  }

  lemma SplitFooted(h: Headers, f: Footers, blocks: set<nat>, start: nat, end: nat, a: nat, n: nat, hole: bool)
    requires Tiled(h, blocks, start, end) && a in blocks && 2 * TAG <= n && n + 2 * TAG <= SizeOf(h, a)
    requires Footed(h, f, blocks, end)
    ensures Footed(Split(h, a, n, hole),
                   f[a + n - TAG := Footer(MAGIC, a)][End(h, a) - TAG := Footer(MAGIC, a + n)], blocks + {a + n}, end)
  {
    var h' := Split(h, a, n, hole);
    assert Sound(h, a, start, end);
    forall b | b in blocks && b != a
      ensures b != a + n && End(h', b) == End(h, b) && End(h, b) != End(h, a) && End(h, b) != a + n
    {
      assert Sound(h, b, start, end) && Apart(h, a, b);
    }
    assert End(h', a) == a + n && End(h', a + n) == End(h, a);
  }

  function Merge(h: Headers, a: nat, b: nat): Headers {
    h[a := Header(MAGIC, true, SizeOf(h, a) + SizeOf(h, b))]
  }

  /** Joining a block to its left neighbour. */
  lemma MergeTiled(h: Headers, blocks: set<nat>, start: nat, end: nat, a: nat, b: nat)
    requires Tiled(h, blocks, start, end) && a in blocks && b in blocks && End(h, a) == b
    ensures a != b && Tiled(Merge(h, a, b), blocks - {b}, start, end)
  {
    var h', blocks' := Merge(h, a, b), blocks - {b};
    assert Sound(h, a, start, end) && Sound(h, b, start, end) && Followed(h, blocks, b, end);
    forall c | c in blocks && c != a && c != b
      ensures Sound(h', c, start, end) && End(h, c) != b && End(h', c) == End(h, c)
      ensures End(h, c) <= a || End(h, b) <= c
    {
      assert Sound(h, c, start, end) && Apart(h, a, c) && Apart(h, b, c);
    }
    forall c | c in blocks' ensures Followed(h', blocks', c, end) {
      assert c != a ==> Followed(h, blocks, c, end);
    }
    forall c, d | c in blocks' && d in blocks' ensures Apart(h', c, d) {
      assert Apart(h, c, d);
    }
  }

  lemma MergeFooted(h: Headers, f: Footers, blocks: set<nat>, start: nat, end: nat, a: nat, b: nat)
    requires Tiled(h, blocks, start, end) && a in blocks && b in blocks && End(h, a) == b
    requires Footed(h, f, blocks, end)
    ensures End(h, b) >= TAG
    ensures Footed(Merge(h, a, b), f[End(h, b) - TAG := Footer(MAGIC, a)], blocks - {b}, end)
  {
    var h' := Merge(h, a, b);
    assert Sound(h, a, start, end) && Sound(h, b, start, end);
    forall c | c in blocks && c != a && c != b ensures End(h', c) == End(h, c) && End(h, c) != End(h, b) {
      assert Sound(h, c, start, end) && Apart(h, b, c);
    }
    assert End(h', a) == End(h, b);
  }

  /** The block to the left, found through its footer. */
  lemma LeftNeighbour(h: Headers, f: Footers, blocks: set<nat>, start: nat, end: nat, b: nat)
    requires Tiled(h, blocks, start, end) && Footed(h, f, blocks, end) && b in blocks && b > start
    ensures b >= TAG && b - TAG in f && f[b - TAG].magic == MAGIC
    ensures f[b - TAG].header in blocks && End(h, f[b - TAG].header) == b
  {
    assert Sound(h, b, start, end);
    var a := Covers(h, blocks, start, end, start, b - 1);
    assert Sound(h, a, start, end) && Followed(h, blocks, a, end) && Apart(h, a, b);
  }
}
