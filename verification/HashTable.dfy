/**
 The open-addressing index of namespace children: an element table, a parallel hash table and a
 bucket table of element numbers.  There are no tombstones; a chain walk probes every bucket.
 */
module HashTables {
  import opened Util

  /** The bucket probed in round `i`. */
  function Slot(h: int, i: int, m: nat): nat
    requires m > 0
  {
    And(h + i, m - 1)
  }

  lemma SlotIsMod(h: int, i: int, k: nat)
    ensures Slot(h, i, Pow2(k)) == (h + i) % Pow2(k) < Pow2(k)
  {
    AndMask(h + i, k);
  }

  /** Every bucket is probed in exactly one of the first m rounds. */
  lemma ProbeReaches(h: int, b: nat, k: nat) returns (i: nat)
    requires b < Pow2(k)
    ensures i < Pow2(k) && Slot(h, i, Pow2(k)) == b
  {
    var m := Pow2(k);
    i := (b - h) % m;
    SlotIsMod(h, i, k);
    ModShift(b - h, m);
    ModUnique(h + i, m, -((b - h) / m), b);
  }

  lemma SameResidue(a: int, b: int, m: nat)
    requires 0 <= b - a < m && a % m == b % m
    ensures a == b
  {
    assert m * (b / m - a / m) == m * (b / m) - m * (a / m);
    DivUnique(m, b / m - a / m, 0, 0, b - a);
  }

  lemma ModShift(a: int, m: nat)
    requires m > 0
    ensures a % m == m * (-(a / m)) + a
  {
  }

  lemma ProbesDiffer(h: int, i: nat, j: nat, k: nat)
    requires i < j < Pow2(k)
    ensures Slot(h, i, Pow2(k)) != Slot(h, j, Pow2(k))
  {
    SlotIsMod(h, i, k);
    SlotIsMod(h, j, k);
    if (h + i) % Pow2(k) == (h + j) % Pow2(k) {
      SameResidue(h + i, h + j, Pow2(k));
    }
  }

  // ------------------------------------------------------------------------- abstract contents

  ghost function Pairs<T>(elems: seq<Option<T>>, hashes: seq<int>): (c: multiset<(int, T)>)
    requires |elems| == |hashes|
  {
    if elems == [] then multiset{}
    else
      var n := |elems| - 1;
      Pairs(elems[..n], hashes[..n]) + if elems[n].Some? then multiset{(hashes[n], elems[n].value)} else multiset{}
  }

  function Population<T>(elems: seq<Option<T>>): nat {
    if elems == [] then 0
    else Population(elems[..|elems| - 1]) + if elems[|elems| - 1].Some? then 1 else 0
  }

  /** Filling an empty slot adds one pair. */
  lemma {:induction false} PairsFill<T>(elems: seq<Option<T>>, hashes: seq<int>, k: nat, h: int, e: T)
    requires |elems| == |hashes| && k < |elems| && elems[k].None?
    ensures Pairs(elems[k := Some(e)], hashes[k := h]) == Pairs(elems, hashes) + multiset{(h, e)}
    ensures Population(elems[k := Some(e)]) == Population(elems) + 1
    decreases |elems|
  {
    var n := |elems| - 1;
    var es, hs := elems[k := Some(e)], hashes[k := h];
    if k < n {
      PairsFill(elems[..n], hashes[..n], k, h, e);
      assert es[..n] == elems[..n][k := Some(e)] && hs[..n] == hashes[..n][k := h];
      assert es[n] == elems[n] && hs[n] == hashes[n];
    } else {
      assert es[..n] == elems[..n] && hs[..n] == hashes[..n];
      assert Pairs(elems, hashes) == Pairs(elems[..n], hashes[..n]);
    }
  }

  /** Two tables that agree on their live slots hold the same pairs. */
  lemma {:induction false} PairsSame<T>(elems: seq<Option<T>>, hashes: seq<int>, hs: seq<int>)
    requires |elems| == |hashes| == |hs|
    requires forall k :: 0 <= k < |elems| && elems[k].Some? ==> hs[k] == hashes[k]
    ensures Pairs(elems, hs) == Pairs(elems, hashes)
    decreases |elems|
  {
    if elems != [] {
      var n := |elems| - 1;
      PairsSame(elems[..n], hashes[..n], hs[..n]);
    }
  }

  /** Trailing empty slots add no pair. */
  lemma {:induction false} PairsPadded<T>(es: seq<Option<T>>, hs: seq<int>, m: nat)
    requires m <= |es| == |hs| && forall k :: m <= k < |es| ==> es[k].None?
    ensures Pairs(es, hs) == Pairs(es[..m], hs[..m]) && Population(es) == Population(es[..m])
    decreases |es|
  {
    if m < |es| {
      var n := |es| - 1;
      PairsPadded(es[..n], hs[..n], m);
      assert es[..n][..m] == es[..m] && hs[..n][..m] == hs[..m];
    } else {
      assert es[..m] == es && hs[..m] == hs;
    }
  }

  lemma {:induction false} PairLive<T>(elems: seq<Option<T>>, hashes: seq<int>, h: int, e: T) returns (k: nat)
    requires |elems| == |hashes| && (h, e) in Pairs(elems, hashes)
    ensures k < |elems| && elems[k] == Some(e) && hashes[k] == h
    decreases |elems|
  {
    var n := |elems| - 1;
    if elems[n] == Some(e) && hashes[n] == h {
      k := n;
    } else {
      k := PairLive(elems[..n], hashes[..n], h, e);
    }
  }

  lemma {:induction false} LivePair<T>(elems: seq<Option<T>>, hashes: seq<int>, k: nat)
    requires |elems| == |hashes| && k < |elems| && elems[k].Some?
    ensures (hashes[k], elems[k].value) in Pairs(elems, hashes)
    decreases |elems|
  {
    var n := |elems| - 1;
    if k < n {
      LivePair(elems[..n], hashes[..n], k);
    }
  }

  lemma {:induction false} PopulationBelow<T>(elems: seq<Option<T>>)
    requires Population(elems) < |elems|
    ensures exists k :: 0 <= k < |elems| && elems[k].None?
    decreases |elems|
  {
    var n := |elems| - 1;
    if elems[n].Some? {
      PopulationBelow(elems[..n]);
      var k :| 0 <= k < n && elems[..n][k].None?;
      assert elems[k].None?;
    }
  }

  // ------------------------------------------------------------------------------ bucket table

  /** The loop that looks for a free slot in the element table always finds one. */
  method FindEmpty<T>(elems: seq<Option<T>>) returns (k: nat)
    requires Population(elems) < |elems|
    ensures k < |elems| && elems[k].None?
  {
    PopulationBelow(elems);
    k := 0;
    while elems[k].Some?
      invariant 0 <= k < |elems|
      invariant forall j :: 0 <= j < k ==> elems[j].Some?
      invariant exists j :: 0 <= j < |elems| && elems[j].None?
      decreases |elems| - k
    {
      k := k + 1;
    }
  }

  /** The buckets name the live elements below `n`, each exactly once. */
  ghost predicate Linked<T>(elems: seq<Option<T>>, buckets: seq<int>, n: nat)
    requires n <= |elems|
  {
    && (forall b :: 0 <= b < |buckets| && buckets[b] >= 0 ==> buckets[b] < n && elems[buckets[b]].Some?)
    && (forall b, c :: 0 <= b < c < |buckets| && buckets[b] >= 0 ==> buckets[b] != buckets[c])
    && (forall k :: 0 <= k < n && elems[k].Some? ==> k in buckets)
  }

  /** LAI_ENSURE(i < bucket_capacity) holds in both probing loops. */
  method FindFree<T>(elems: seq<Option<T>>, buckets: seq<int>, n: nat, h: int, ghost k: nat) returns (b: nat)
    requires n <= |elems| && Linked(elems, buckets, n) && |buckets| == Pow2(k) && n < |buckets|
    ensures b < |buckets| && buckets[b] < 0
  {
    var i := 0;
    SlotIsMod(h, 0, k);
    while buckets[Slot(h, i, |buckets|)] >= 0
      invariant 0 <= i < |buckets|
      invariant Slot(h, i, |buckets|) < |buckets|
      invariant forall j :: 0 <= j < i ==> Slot(h, j, |buckets|) < |buckets| && buckets[Slot(h, j, |buckets|)] >= 0
      decreases |buckets| - i
    {
      if i + 1 == |buckets| {
        AllTaken(buckets, h, k);
        Pigeonhole(buckets, n);
        assert false;
      }
      i := i + 1;
      SlotIsMod(h, i, k);
    }
    b := Slot(h, i, |buckets|);
  }

  lemma AllTaken(buckets: seq<int>, h: int, k: nat)
    requires |buckets| == Pow2(k)
    requires forall j :: 0 <= j < |buckets| ==> Slot(h, j, |buckets|) < |buckets| && buckets[Slot(h, j, |buckets|)] >= 0
    ensures forall b :: 0 <= b < |buckets| ==> buckets[b] >= 0
  {
    forall b | 0 <= b < |buckets| ensures buckets[b] >= 0 {
      var i := ProbeReaches(h, b, k);
    }
  }

  lemma LinkedFill<T>(elems: seq<Option<T>>, es: seq<Option<T>>, buckets: seq<int>, n: nat, n': nat, k: nat, b: nat)
    requires n <= |elems| && k < n' <= |es| && n <= n' && Linked(elems, buckets, n) && es[k].Some?
    requires forall j :: 0 <= j < n && elems[j].Some? ==> j < |es| && es[j].Some? && j != k
    requires forall j :: 0 <= j < n' && es[j].Some? && j != k ==> j < n && elems[j].Some?
    requires b < |buckets| && buckets[b] < 0
    ensures Linked(es, buckets[b := k], n')
  {
    var bs := buckets[b := k];
    forall j | 0 <= j < n' && es[j].Some? ensures j in bs {
      if j == k {
        assert bs[b] == k;
      } else {
        var c :| 0 <= c < |buckets| && buckets[c] == j;
        assert bs[c] == j;
      }
    }
  }

  class HashTable<T(==)> {
    var elems: seq<Option<T>>
    var hashes: seq<int>
    var buckets: seq<int>
    var num: int
    ghost var lg: nat       // the bucket capacity is 2^lg

    ghost predicate Valid()
      reads this
    {
      && |hashes| == |elems|
      && num == Population(elems)
      && (if elems == [] then buckets == []
          else |buckets| == 2 * |elems| && |buckets| == Pow2(lg) && num < |elems|)
      && Linked(elems, buckets, |elems|)
    }

    ghost function Contents(): multiset<(int, T)>
      requires Valid()
      reads this
    {
      Pairs(elems, hashes)
    }

    constructor ()
      ensures Valid() && Contents() == multiset{}
    {
      elems, hashes, buckets, num, lg := [], [], [], 0, 0;
    }

    /** lai_hashtable_grow: element numbers stay, the buckets are filled anew. */
    method Grow(n: nat, m: nat, ghost k: nat)
      requires Valid() && n >= |elems| && m >= |buckets| && m == 2 * n && m == Pow2(k) && num < n
      modifies this
      ensures Valid() && Contents() == old(Contents()) && num == old(num)
      ensures |elems| == n && |buckets| == m
    {
      hide Pairs, Population, Slot;
      var es: seq<Option<T>> := seq(n, _ => None);
      var hs: seq<int> := seq(n, _ => 0);
      var bs: seq<int> := seq(m, _ => -1);
      var j := 0;
      while j < |elems|
        invariant elems == old(elems) && hashes == old(hashes) && buckets == old(buckets) && num == old(num)
        invariant 0 <= j <= |elems| <= n && |es| == |hs| == n && |bs| == m
        invariant forall i :: 0 <= i < j ==> es[i] == elems[i] && (es[i].Some? ==> hs[i] == hashes[i])
        invariant forall i :: j <= i < n ==> es[i].None?
        invariant Linked(es, bs, j)
      {
        if elems[j].Some? {
          ghost var es0 := es;
          var b := FindFree(es, bs, j, hashes[j], k);
          es := es[j := elems[j]];
          hs := hs[j := hashes[j]];
          LinkedFill(es0, es, bs, j, j + 1, j, b);
          bs := bs[b := j];
        }
        j := j + 1;
      }
      PairsPadded(es, hs, |elems|);
      assert es[..|elems|] == elems;
      PairsSame(elems, hashes, hs[..|elems|]);
      elems, hashes, buckets, lg := es, hs, bs, k;
    }

    /** lai_hashtable_insert: one more pair; neither free-slot check fires. */
    method Insert(h: int, e: T)
      requires Valid()
      modifies this
      ensures Valid() && Contents() == old(Contents()) + multiset{(h, e)}
    {
      hide Pairs, Linked;
      if elems == [] || buckets == [] {
        assert Pow2(2) == 4;
        Grow(2, 4, 2);
      } else if num + 1 >= |elems| {
        Grow(2 * |elems|, 2 * |buckets|, lg + 1);
      }
      var k := FindEmpty(elems);
      Place(k, h, e);
    }

    /** The second half of an insertion: the element table and one bucket. */
    method Place(k: nat, h: int, e: T)
      requires Valid() && k < |elems| && elems[k].None? && num + 1 < |elems|
      modifies this
      ensures Valid() && Contents() == old(Contents()) + multiset{(h, e)}
    {
      hide Pairs, Population, Slot;
      PairsFill(elems, hashes, k, h, e);
      var b := FindFree(elems, buckets, |elems|, h, lg);
      LinkedFill(elems, elems[k := Some(e)], buckets, |elems|, |elems|, k, b);
      elems, hashes, buckets := elems[k := Some(e)], hashes[k := h], buckets[b := k];
      num := num + 1;
    }

    /** Does round `i` of a walk for `h` stop on an element? */
    predicate Hit(h: int, i: int)
      requires 0 <= i < |buckets| && Slot(h, i, |buckets|) < |buckets|
      reads this
    {
      var k := buckets[Slot(h, i, |buckets|)];
      0 <= k < |hashes| && hashes[k] == h
    }

    ghost predicate Probed(h: int, i: int)
      reads this
    {
      0 <= i < |buckets| && Slot(h, i, |buckets|) < |buckets| && Hit(h, i)
    }

    /** lai_hashtable_chain_advance: the next round that stops on an element, if any. */
    method Advance(h: int, from: int) returns (done: bool, i: int)
      requires Valid() && -1 <= from < |buckets|
      ensures from < i && (done <==> i == |buckets|) && i <= |buckets|
      ensures forall j :: from < j < i ==> !Probed(h, j)
      ensures !done ==> Probed(h, i)
    {
      i := from + 1;
      while i < |buckets|
        invariant from < i <= |buckets|
        invariant forall j :: from < j < i ==> !Probed(h, j)
      {
        SlotIsMod(h, i, lg);
        var k := buckets[Slot(h, i, |buckets|)];
        if k >= 0 && hashes[k] == h {
          return false, i;
        }
        i := i + 1;
      }
      done := true;
    }

    /** lai_hashtable_chain_get. */
    method Get(h: int, i: int) returns (e: T)
      requires Valid() && Probed(h, i)
      ensures elems[buckets[Slot(h, i, |buckets|)]] == Some(e)
      ensures (h, e) in Contents()
    {
      var k := buckets[Slot(h, i, |buckets|)];
      LivePair(elems, hashes, k);
      e := elems[k].value;
    }

    /** lai_hashtable_chain_remove: exactly the pair under the cursor goes. */
    method Remove(h: int, i: int)
      requires Valid() && Probed(h, i)
      modifies this
      ensures Valid() && lg == old(lg) && |buckets| == old(|buckets|)
      ensures exists e :: old(elems[buckets[Slot(h, i, |buckets|)]]) == Some(e)
                          && old(Contents()) == Contents() + multiset{(h, e)}
    {
      hide Pairs, Slot;
      var b := Slot(h, i, |buckets|);
      var k := buckets[b];
      ghost var e := elems[k].value;
      ghost var elems0, buckets0 := elems, buckets;
      PairsFill(elems[k := None], hashes, k, h, e);
      assert elems[k := None][k := Some(e)] == elems && hashes[k := h] == hashes;
      elems := elems[k := None];
      buckets := buckets[b := -1];
      num := num - 1;
      forall j | 0 <= j < |elems| && elems[j].Some? ensures j in buckets {
        assert elems0[j].Some?;
        var c :| 0 <= c < |buckets0| && buckets0[c] == j;
        assert buckets[c] == j;
      }
    }

    /** The elements a complete walk for `h` stops on, by element number, from round `i` on. */
    ghost function Walk(h: int, i: nat): seq<int>
      reads this
      decreases |buckets| - i
    {
      if i >= |buckets| then []
      else if Probed(h, i) then [buckets[Slot(h, i, |buckets|)]] + Walk(h, i + 1)
      else Walk(h, i + 1)
    }

    lemma {:induction false} InWalk(h: int, i: nat, k: int)
      ensures k in Walk(h, i) <==>
              exists j :: i <= j < |buckets| && Probed(h, j) && buckets[Slot(h, j, |buckets|)] == k
      decreases |buckets| - i
    {
      if i < |buckets| {
        InWalk(h, i + 1, k);
      }
    }

    lemma {:induction false} WalkDistinct(h: int, i: nat)
      requires Valid()
      ensures forall a, b :: 0 <= a < b < |Walk(h, i)| ==> Walk(h, i)[a] != Walk(h, i)[b]
      decreases |buckets| - i
    {
      if i < |buckets| {
        WalkDistinct(h, i + 1);
        if Probed(h, i) {
          var k := buckets[Slot(h, i, |buckets|)];
          InWalk(h, i + 1, k);
          forall j | i < j < |buckets| && Probed(h, j) ensures buckets[Slot(h, j, |buckets|)] != k {
            ProbesDiffer(h, i, j, lg);
          }
          assert k !in Walk(h, i + 1);
        }
      }
    }

    /** A walk for `h` visits every live element with hash `h` exactly once, and nothing else. */
    lemma WalkVisits(h: int, k: int)
      requires Valid()
      ensures k in Walk(h, 0) <==> 0 <= k < |elems| && elems[k].Some? && hashes[k] == h
      ensures k in Walk(h, 0) ==> multiset(Walk(h, 0))[k] == 1
    {
      InWalk(h, 0, k);
      WalkDistinct(h, 0);
      if 0 <= k < |elems| && elems[k].Some? && hashes[k] == h {
        var b :| 0 <= b < |buckets| && buckets[b] == k;
        var i := ProbeReaches(h, b, lg);
        assert Probed(h, i);
      }
      if k in Walk(h, 0) {
        OnceInDistinct(Walk(h, 0), k);
      }
    }

    /** Positions of a walk reach every live element. */
    lemma WalkReaches(h: int, e: T) returns (i: nat)
      requires Valid() && (h, e) in Contents()
      ensures Probed(h, i) && elems[buckets[Slot(h, i, |buckets|)]] == Some(e)
    {
      var k := PairLive(elems, hashes, h, e);
      var b :| 0 <= b < |buckets| && buckets[b] == k;
      i := ProbeReaches(h, b, lg);
    }
  }

  lemma {:induction false} OnceInDistinct(s: seq<int>, k: int)
    requires k in s && forall a, b :: 0 <= a < b < |s| ==> s[a] != s[b]
    ensures multiset(s)[k] == 1
    decreases |s|
  {
    var n := |s| - 1;
    assert s == s[..n] + [s[n]];
    if s[n] != k {
      OnceInDistinct(s[..n], k);
    } else {
      assert k !in s[..n];
    }
  }
}
