/**
 The namespace as a per-parent map from four-character names to nodes, kept in one hash table per
 parent.  Nodes are numbers; a node's name and parent are fixed before it is installed.
 */
module Namespaces {
  import opened Util
  import opened HashTables
  import Paths

  const WORD := 0x1_0000_0000

  /** djb2 on 32-bit unsigned integers. */
  function Djb2(s: string): nat {
    if s == [] then 5381 else (33 * Djb2(s[..|s| - 1]) + Signed(s[|s| - 1])) % WORD
  }

  /** A C character is signed. */
  function Signed(c: char): int { if c as int < 128 then c as int else c as int - 256 }

  function Hash(s: string): int {
    if Djb2(s) < WORD / 2 then Djb2(s) else Djb2(s) - WORD
  }

  method HashString(s: string) returns (h: int)
    ensures h == Hash(s)
  {
    var x := 5381;
    for i := 0 to |s|
      invariant x == Djb2(s[..i])
    {
      assert s[..i + 1][..i] == s[..i];
      x := (32 * x + x + Signed(s[i])) % WORD;
    }
    assert s[..|s|] == s;
    h := if x < WORD / 2 then x else x - WORD;
  }

  /** A table's contents hold each child of a map once, under the hash of its name, and nothing else. */
  ghost predicate Mirrors(contents: multiset<(int, int)>, kids: map<string, int>) {
    && (forall n :: n in kids ==> contents[(Hash(n), kids[n])] == 1)
    && (forall pair :: pair in contents ==> exists n :: n in kids && pair == (Hash(n), kids[n]))
  }

  /** Different names mean different nodes. */
  ghost predicate Named(kids: map<string, int>, names: map<int, string>) {
    forall n :: n in kids ==> kids[n] in names && names[kids[n]] == n
  }

  lemma MirrorsNamed(c: multiset<(int, int)>, kids: map<string, int>, names: map<int, string>)
    requires Mirrors(c, kids) && Named(kids, names)
    ensures forall pair :: pair in c ==> pair.1 in names
  {
  }

  /** A complete search of the table answers like the map. */
  lemma LookupAgrees(c: multiset<(int, int)>, kids: map<string, int>, names: map<int, string>, name: string,
                     r: Option<int>)
    requires Mirrors(c, kids) && Named(kids, names) && forall pair :: pair in c ==> pair.1 in names
    requires r.Some? ==> (Hash(name), r.value) in c && r.value in names && names[r.value] == name
    requires r.None? ==> forall k :: (Hash(name), k) in c ==> names[k] != name
    ensures r == if name in kids then Some(kids[name]) else None
  {
    if name in kids {
      var k := kids[name];
      assert names[k] == name && (Hash(name), k) in c;
    }
    if r.Some? {
      var n :| n in kids && (Hash(name), r.value) == (Hash(n), kids[n]);
      assert n == name;
    }
  }

  lemma MirrorsAdd(c: multiset<(int, int)>, kids: map<string, int>, names: map<int, string>, node: int)
    requires Mirrors(c, kids) && Named(kids, names) && node in names && names[node] !in kids
    ensures Mirrors(c + multiset{(Hash(names[node]), node)}, kids[names[node] := node])
    ensures Named(kids[names[node] := node], names)
  {
    var kids' := kids[names[node] := node];
    var c' := c + multiset{(Hash(names[node]), node)};
    assert (Hash(names[node]), node) !in c;
    forall pair | pair in c' ensures exists n :: n in kids' && pair == (Hash(n), kids'[n]) {
      if pair in c {
        var n :| n in kids && pair == (Hash(n), kids[n]);
        assert n in kids' && kids'[n] == kids[n];
      } else {
        assert names[node] in kids';
      }
    }
  }

  lemma MirrorsDrop(c: multiset<(int, int)>, kids: map<string, int>, names: map<int, string>, node: int)
    requires Named(kids, names) && node in names && names[node] in kids && kids[names[node]] == node
    requires Mirrors(c + multiset{(Hash(names[node]), node)}, kids)
    ensures Mirrors(c, kids - {names[node]}) && Named(kids - {names[node]}, names)
  {
    var c0, kids' := c + multiset{(Hash(names[node]), node)}, kids - {names[node]};
    assert c0[(Hash(names[node]), node)] == 1;
    forall pair | pair in c ensures exists n :: n in kids' && pair == (Hash(n), kids'[n]) {
      assert pair in c0;
      var n :| n in kids && pair == (Hash(n), kids[n]);
      assert n in kids';
    }
    forall n | n in kids' ensures c[(Hash(n), kids'[n])] == 1 {
      assert c0[(Hash(n), kids[n])] == 1;
    }
  }

  // ---------------------------------------------------------------------------- table searches

  /** The search loop of lai_ns_get_child and of the duplicate check. */
  method FindNamed(t: HashTable<int>, names: map<int, string>, name: string) returns (r: Option<int>)
    requires t.Valid() && forall pair :: pair in t.Contents() ==> pair.1 in names
    ensures r.Some? ==> (Hash(name), r.value) in t.Contents() && r.value in names && names[r.value] == name
    ensures r.None? ==> forall c :: (Hash(name), c) in t.Contents() ==> names[c] != name
  {
    var h := HashString(name);
    var done, i := t.Advance(h, -1);
    while !done
      invariant 0 <= i <= |t.buckets| && (done <==> i == |t.buckets|)
      invariant !done ==> t.Probed(h, i)
      invariant forall j :: 0 <= j < i && t.Probed(h, j) ==> !NamedAt(t, names, h, j, name)
      decreases |t.buckets| - i
    {
      var c := t.Get(h, i);
      if names[c] == name {
        return Some(c);
      }
      done, i := t.Advance(h, i);
    }
    r := None;
    forall c | (h, c) in t.Contents() ensures names[c] != name {
      var j := t.WalkReaches(h, c);
      assert !NamedAt(t, names, h, j, name);
    }
  }

  /** Round `j` of the walk stops on a node with the given name. */
  ghost predicate NamedAt(t: HashTable<int>, names: map<int, string>, h: int, j: int, name: string)
    requires t.Valid() && t.Probed(h, j)
    reads t
  {
    var e := t.elems[t.buckets[Slot(h, j, |t.buckets|)]];
    e.Some? && e.value in names && names[e.value] == name
  }

  /** The search loop of lai_uninstall_nsnode: a node that is in the table is found. */
  method FindNode(t: HashTable<int>, h: int, node: int) returns (i: int)
    requires t.Valid() && (h, node) in t.Contents()
    ensures t.Probed(h, i) && t.elems[t.buckets[Slot(h, i, |t.buckets|)]] == Some(node)
  {
    ghost var goal := t.WalkReaches(h, node);
    var done, c;
    i := -1;
    while true
      invariant -1 <= i < goal
      invariant t.Probed(h, goal) && t.elems[t.buckets[Slot(h, goal, |t.buckets|)]] == Some(node)
      decreases goal - i
    {
      done, i := t.Advance(h, i);
      assert t.Probed(h, goal) && !done;
      c := t.Get(h, i);
      if c == node {
        return;
      }
    }
  }

  /** The sanity check of lai_uninstall_nsnode: the rest of the walk does not meet the node again. */
  method SanityCheck(t: HashTable<int>, h: int, from: int, node: int) returns (seen: bool)
    requires t.Valid() && 0 <= from < |t.buckets|
    ensures seen ==> (h, node) in t.Contents()
  {
    var done, i := t.Advance(h, from);
    while !done
      invariant 0 <= i <= |t.buckets| && (done <==> i == |t.buckets|)
      invariant !done ==> t.Probed(h, i)
      decreases |t.buckets| - i
    {
      var c := t.Get(h, i);
      if c == node {
        return true;
      }
      done, i := t.Advance(h, i);
    }
    seen := false;
  }

  /** A table that represents a map of children. */
  ghost predicate Lists(t: HashTable<int>, kids: map<string, int>, names: map<int, string>)
    reads t
  {
    t.Valid() && Named(kids, names) && Mirrors(t.Contents(), kids)
  }

  lemma NoneListed(t: HashTable<int>, names: map<int, string>)
    requires t.Valid() && t.Contents() == multiset{}
    ensures Lists(t, map[], names)
  {
  }

  method NewTables(n: nat, ghost names: map<int, string>) returns (ts: seq<HashTable<int>>)
    ensures |ts| == n && forall i :: 0 <= i < n ==> fresh(ts[i]) && Lists(ts[i], map[], names)
    ensures forall i, j :: 0 <= i < j < n ==> ts[i] != ts[j]
  {
    hide Lists;
    ts := [];
    for k := 0 to n
      invariant |ts| == k && forall i :: 0 <= i < k ==> fresh(ts[i]) && Lists(ts[i], map[], names)
      invariant forall i, j :: 0 <= i < j < k ==> ts[i] != ts[j]
    {
      var t := new HashTable<int>();
      NoneListed(t, names);
      ts := ts + [t];
    }
  }

  method AddNamed(t: HashTable<int>, ghost kids: map<string, int>, names: map<int, string>, node: int)
    requires Lists(t, kids, names) && node in names && names[node] !in kids
    modifies t
    ensures Lists(t, kids[names[node] := node], names)
  {
    hide HashTable.Valid, HashTable.Contents, Hash, Mirrors, Named;
    MirrorsAdd(t.Contents(), kids, names, node);
    var h := HashString(names[node]);
    t.Insert(h, node);
  }

  method DropNamed(t: HashTable<int>, ghost kids: map<string, int>, names: map<int, string>, node: int)
    requires Lists(t, kids, names) && node in names && names[node] in kids && kids[names[node]] == node
    modifies t
    ensures Lists(t, kids - {names[node]}, names)
  {
    hide HashTable.Valid, HashTable.Contents, Hash, Mirrors, Named;
    ghost var before := t.Contents();
    MirrorsOne(before, kids, names[node]);
    RemoveNode(t, names[node], node);
    assert before == t.Contents() + multiset{(Hash(names[node]), node)};
    MirrorsDrop(t.Contents(), kids, names, node);
  }

  // -------------------------------------------------------------------------------- namespace

  class Namespace {
    const names: map<int, string>
    const parents: map<int, Option<int>>
    var tables: map<int, HashTable<int>>
    var nsArray: seq<Option<int>>
    ghost var kids: map<int, map<string, int>>      // the abstract children maps

    ghost predicate Valid()
      reads this, set p | p in tables :: tables[p]
    {
      && names.Keys == parents.Keys == tables.Keys == kids.Keys
      && (forall c :: c in parents && parents[c].Some? ==> parents[c].value in tables)
      && (forall p, q :: p in tables && q in tables && p != q ==> tables[p] != tables[q])
      && (forall p :: p in tables ==> Lists(tables[p], kids[p], names))
    }

    /** Nodes below `n` with given names and parents, none of them installed. */
    constructor (nodes: map<int, string>, ancestry: map<int, Option<int>>, n: nat)
      requires nodes.Keys == ancestry.Keys && forall c :: c in nodes ==> 0 <= c < n
      requires forall c :: c in ancestry && ancestry[c].Some? ==> ancestry[c].value in ancestry
      ensures Valid() && names == nodes && parents == ancestry && nsArray == []
      ensures kids == map c | c in nodes :: map[]
      ensures forall p :: p in tables ==> fresh(tables[p])
    {
      var ts := NewTables(n, nodes);
      hide Lists;
      names, parents, nsArray := nodes, ancestry, [];
      tables := map c | c in nodes :: ts[c];
      kids := map c | c in nodes :: map[];
    }

    /** lai_ns_get_child: the hash table walk computes the map lookup. */
    method GetChild(p: int, name: string) returns (r: Option<int>)
      requires Valid() && p in tables
      ensures r == if name in kids[p] then Some(kids[p][name]) else None
    {
      hide HashTable.Valid, HashTable.Contents, Hash, Mirrors, Named;
      var t := tables[p];
      MirrorsNamed(t.Contents(), kids[p], names);
      r := FindNamed(t, names, name);
      LookupAgrees(t.Contents(), kids[p], names, name, r);
    }

    /** lai_install_nsnode: a duplicate is rejected and changes no children table, but is nevertheless
        appended to the array of all nodes. */
    method Install(node: int) returns (ok: bool)
      requires Valid() && node in names
      modifies this, set p | p in tables :: tables[p]
      ensures Valid() && tables == old(tables)
      ensures nsArray == old(nsArray) + [Some(node)]
      ensures parents[node].None? ==> ok && kids == old(kids)
      ensures parents[node].Some? ==> (ok <==> names[node] !in old(kids[parents[node].value]))
      ensures ok && parents[node].Some? ==>
                kids == old(kids)[parents[node].value := old(kids[parents[node].value])[names[node] := node]]
      ensures !ok ==> kids == old(kids) && forall p :: p in tables ==> unchanged(tables[p])
    {
      hide HashTable.Valid, HashTable.Contents, Hash, Mirrors, Named;
      nsArray := nsArray + [Some(node)];
      if parents[node].None? {
        return true;
      }
      var p := parents[node].value;
      var twin := GetChild(p, names[node]);
      if twin.Some? {
        return false;
      }
      AddChild(p, node);
      ok := true;
    }

    /** lai_uninstall_nsnode: the node, and only the node, leaves its parent's map; it is found, and
        found once, so neither panic is reached. */
    method Uninstall(node: int)
      requires Valid() && node in names
      requires parents[node].Some? ==>
                 names[node] in kids[parents[node].value] && kids[parents[node].value][names[node]] == node
      modifies this, set p | p in tables :: tables[p]
      ensures Valid() && tables == old(tables)
      ensures |nsArray| == |old(nsArray)|
      ensures forall i :: 0 <= i < |nsArray| ==>
                nsArray[i] == if old(nsArray[i]) == Some(node) then None else old(nsArray[i])
      ensures kids == if parents[node].None? then old(kids)
                      else old(kids)[parents[node].value := old(kids[parents[node].value]) - {names[node]}]
    {
      hide HashTable.Valid, HashTable.Contents, Hash, Mirrors, Named;
      ForgetNode(node);
      if parents[node].Some? {
        RemoveChild(parents[node].value, node);
      }
    }

    /** Every occurrence in the array of all nodes is cleared. */
    method ForgetNode(node: int)
      modifies this`nsArray
      ensures |nsArray| == |old(nsArray)|
      ensures forall i :: 0 <= i < |nsArray| ==>
                nsArray[i] == if old(nsArray[i]) == Some(node) then None else old(nsArray[i])
    {
      var k := 0;
      while k < |nsArray|
        invariant 0 <= k <= |nsArray| == |old(nsArray)|
        invariant forall i :: 0 <= i < |nsArray| ==>
                    nsArray[i] == if i < k && old(nsArray[i]) == Some(node) then None else old(nsArray[i])
      {
        if nsArray[k] == Some(node) {
          nsArray := nsArray[k := None];
        }
        k := k + 1;
      }
    }

    method AddChild(p: int, node: int)
      requires Valid() && p in tables && node in names && names[node] !in kids[p]
      modifies this`kids, tables[p]
      ensures Valid() && kids == old(kids)[p := old(kids[p])[names[node] := node]]
    {
      hide Lists;
      AddNamed(tables[p], kids[p], names, node);
      kids := kids[p := kids[p][names[node] := node]];
    }

    method RemoveChild(p: int, node: int)
      requires Valid() && p in tables && node in names && names[node] in kids[p] && kids[p][names[node]] == node
      modifies this`kids, tables[p]
      ensures Valid() && kids == old(kids)[p := old(kids[p]) - {names[node]}]
    {
      hide Lists;
      DropNamed(tables[p], kids[p], names, node);
      kids := kids[p := kids[p] - {names[node]}];
    }
  }

  lemma MirrorsOne(c: multiset<(int, int)>, kids: map<string, int>, n: string)
    requires Mirrors(c, kids) && n in kids
    ensures c[(Hash(n), kids[n])] == 1
  {
  }

  /** The part of lai_uninstall_nsnode that works on the parent's table. */
  method RemoveNode(t: HashTable<int>, name: string, node: int)
    requires t.Valid() && t.Contents()[(Hash(name), node)] == 1
    modifies t
    ensures t.Valid() && old(t.Contents()) == t.Contents() + multiset{(Hash(name), node)}
  {
    var h := HashString(name);
    var i := FindNode(t, h, node);
    t.Remove(h, i);
    assert old(t.Contents()) == t.Contents() + multiset{(h, node)};
    var seen := SanityCheck(t, h, i, node);
    assert !seen;
  }

  /** Tree `t` has the children that the namespace keeps. */
  ghost predicate Shows(t: Paths.Tree, kids: map<int, map<string, int>>) {
    forall p: nat, s: Name ::
      match Paths.Child(t, p, s)
      case Some(c) => p in kids && s in kids[p] && kids[p][s] == c
      case None => p !in kids || s !in kids[p]
  }

  /** What lai_ns_get_child returns is the child in such a tree. */
  method GetChildOf(ns: Namespace, ghost t: Paths.Tree, p: nat, name: Name) returns (r: Option<int>)
    requires ns.Valid() && p in ns.tables && Shows(t, ns.kids)
    ensures r == Paths.Child(t, p, name)
  {
    r := ns.GetChild(p, name);
    assert match Paths.Child(t, p, name)
           case Some(c) => name in ns.kids[p] && ns.kids[p][name] == c
           case None => name !in ns.kids[p];
  }
}
