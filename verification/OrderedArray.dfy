/** The ordered array of pointers that backs the heap's index. */
module OrderedArrays {

  type Compare = (nat, nat) -> bool

  /** Position of the first element that the predicate does not put before `item`. */
  function Position(s: seq<nat>, item: nat, less: Compare): (k: nat)
    ensures k <= |s| && (forall i :: 0 <= i < k ==> less(s[i], item)) && (k < |s| ==> !less(s[k], item))
  {
    if s == [] || !less(s[0], item) then 0 else 1 + Position(s[1..], item, less)
  }

  function Inserted(s: seq<nat>, item: nat, less: Compare): seq<nat> {
    s[..Position(s, item, less)] + [item] + s[Position(s, item, less)..]
  }

  function Removed(s: seq<nat>, k: nat): seq<nat>
    requires k < |s|
  {
    s[..k] + s[k + 1..]
  }

  function ByKey(key: nat -> nat): Compare { (a: nat, b: nat) => key(a) < key(b) }

  ghost predicate Ordered(s: seq<nat>, key: nat -> nat) {
    forall i, j :: 0 <= i < j < |s| ==> key(s[i]) <= key(s[j])
  }

  ghost predicate NoRepeats(s: seq<nat>) {
    forall i, j :: 0 <= i < j < |s| ==> s[i] != s[j]
  }

  lemma InsertedAt(s: seq<nat>, item: nat, less: Compare)
    ensures var k, r := Position(s, item, less), Inserted(s, item, less);
            |r| == |s| + 1 && r[k] == item
            && (forall i :: 0 <= i < k ==> r[i] == s[i]) && (forall i :: k < i < |r| ==> r[i] == s[i - 1])
  {
    hide Position;
  }

  /** Inserting into an ordered array keeps the order. */
  lemma InsertedOrdered(s: seq<nat>, item: nat, key: nat -> nat)
    requires Ordered(s, key)
    ensures Ordered(Inserted(s, item, ByKey(key)), key)
  {
    hide Inserted, Position;
    InsertedAt(s, item, ByKey(key));
    var k, r := Position(s, item, ByKey(key)), Inserted(s, item, ByKey(key));
    assert forall i :: 0 <= i < k ==> ByKey(key)(s[i], item);
    assert k < |s| ==> !ByKey(key)(s[k], item);
    forall i, j | 0 <= i < j < |r| ensures key(r[i]) <= key(r[j]) {
      if i == k {
        assert key(item) <= key(s[k]) <= key(s[j - 1]);
      } else if j == k {
        assert ByKey(key)(s[i], item);
      }
    }
  }

  lemma InsertedMembers(s: seq<nat>, item: nat, less: Compare)
    ensures forall a :: a in Inserted(s, item, less) <==> a in s || a == item
    ensures NoRepeats(s) && item !in s ==> NoRepeats(Inserted(s, item, less))
  {
    hide Inserted, Position;
    InsertedAt(s, item, less);
    var k, r := Position(s, item, less), Inserted(s, item, less);
    forall a | a in s ensures a in r {
      var i :| 0 <= i < |s| && s[i] == a;
      assert a == r[if i < k then i else i + 1];
    }
  }

  lemma RemovedMembers(s: seq<nat>, k: nat)
    requires k < |s| && NoRepeats(s)
    ensures NoRepeats(Removed(s, k))
    ensures forall a :: a in Removed(s, k) <==> a in s && a != s[k]
    ensures forall key: nat -> nat :: Ordered(s, key) ==> Ordered(Removed(s, k), key)
  {
    var r := Removed(s, k);
    assert forall i :: 0 <= i < |r| ==> r[i] == if i < k then s[i] else s[i + 1];
    forall a | a in s && a != s[k] ensures a in r {
      var i :| 0 <= i < |s| && s[i] == a;
      assert a == r[if i < k then i else i - 1];
    }
  }

  class OrderedArray {
    const items: array<nat>
    var size: nat

    ghost predicate Valid()
      reads this
    {
      size <= items.Length
    }

    ghost function Contents(): seq<nat>
      requires Valid()
      reads this, items
    {
      items[..size]
    }

    /** ArrayCreate. */
    constructor (capacity: nat)
      ensures Valid() && Contents() == [] && items.Length == capacity && fresh(items)
    {
      items := new nat[capacity](_ => 0);
      size := 0;
    }

    /** ArrayInsert; the array must have a free slot. */
    method Insert(item: nat, less: Compare)
      requires Valid() && size < items.Length
      modifies this`size, items
      ensures Valid() && size == old(size) + 1 && Contents() == Inserted(old(Contents()), item, less)
    {
      hide Position, Inserted;
      ghost var s := Contents();
      var i := 0;
      while i < size && less(items[i], item)
        invariant 0 <= i <= size && forall j :: 0 <= j < i ==> less(s[j], item)
      {
        i := i + 1;
      }
      ghost var k := i;
      PositionUnique(s, item, less, k);
      InsertedAt(s, item, less);
      if i == size {
        items[size] := item;
        size := size + 1;
        return;
      }
      var tmp := items[i];
      items[i] := item;
      while i < size
        invariant k <= i <= size && size == old(size) && |s| == size
        invariant forall j :: 0 <= j < k ==> items[j] == s[j]
        invariant items[k] == item
        invariant forall j :: k < j <= i ==> items[j] == s[j - 1]
        invariant forall j :: i < j < size ==> items[j] == s[j]
        invariant i < size ==> tmp == s[i]
      {
        i := i + 1;
        var tmp2 := items[i];
        items[i] := tmp;
        tmp := tmp2;
      }
      size := size + 1;
      assert forall j :: 0 <= j < size ==> items[j] == Inserted(s, item, less)[j];
    }

    /** ArrayRemove; the loop also reads the slot after the last element. */
    method Remove(index: nat)
      requires Valid() && index < size < items.Length
      modifies this`size, items
      ensures Valid() && size == old(size) - 1 && Contents() == Removed(old(Contents()), index)
    {
      ghost var s := Contents();
      var i := index;
      while i < size
        invariant index <= i <= size && size == old(size) && |s| == size
        invariant forall j :: 0 <= j < index ==> items[j] == s[j]
        invariant forall j :: index <= j < i && j + 1 < size ==> items[j] == s[j + 1]
        invariant forall j :: i <= j < size ==> items[j] == s[j]
      {
        items[i] := items[i + 1];
        i := i + 1;
      }
      size := size - 1;
    }
  }

  lemma {:induction false} PositionUnique(s: seq<nat>, item: nat, less: Compare, k: nat)
    requires k <= |s| && (forall i :: 0 <= i < k ==> less(s[i], item)) && (k < |s| ==> !less(s[k], item))
    ensures Position(s, item, less) == k
  {
    if k > 0 {
      PositionUnique(s[1..], item, less, k - 1);
    }
  }
}
