/**
 The value of an AML object as a tree, on memories whose packages do not contain themselves.
 */
module DeepValues {
  import opened RefModel

  datatype Val =
    | VNull | VInteger(n: int) | VHandle(n: int)
    | VString(bytes: seq<int>) | VBuffer(bytes: seq<int>) | VPackage(elems: seq<Val>)
    | VIndex(kind: Kind, head: nat, at: nat)

  /** Does the variable contain (rather than index into) a package? */
  predicate Contains(v: Var) { v.Ref? && v.kind.PackageKind? && !v.isIndex }

  ghost predicate Closed(m: Mem) { ElemsMatch(m) && RefsMatch(m, {}) }

  /** Every contained package has a smaller rank than the package that contains it. */
  ghost predicate Acyclic(m: Mem, rank: map<nat, nat>) {
    && m.heads.Keys <= rank.Keys
    && forall p: nat, i: nat {:trigger Elem(p, i)} ::
         Elem(p, i) in m.vars && Contains(m.vars[Elem(p, i)]) ==>
           p in rank && m.vars[Elem(p, i)].head in rank && rank[m.vars[Elem(p, i)].head] < rank[p]
  }

  predicate Fits(m: Mem, v: Var) {
    v.Ref? ==> v.head in m.heads && m.heads[v.head].kind == v.kind
  }

  function Rank(rank: map<nat, nat>, v: Var): int {
    if Contains(v) && v.head in rank then rank[v.head] else -1
  }

  ghost function Value(m: Mem, rank: map<nat, nat>, v: Var): Val
    requires Closed(m) && Acyclic(m, rank) && Fits(m, v)
    decreases Rank(rank, v) + 1
  {
    match v
    case Null => VNull
    case Integer(n) => VInteger(n)
    case Handle(n) => VHandle(n)
    case Ref(kind, h, isIndex, at) =>
      if isIndex then VIndex(kind, h, at)
      else if kind.StringKind? then VString(m.heads[h].bytes)
      else if kind.BufferKind? then VBuffer(m.heads[h].bytes)
      else VPackage(seq(m.heads[h].size, i requires 0 <= i < m.heads[h].size => Value(m, rank, m.vars[Elem(h, i)])))
  }

  /** Every head that the variable contains, at any depth, is in `s`. */
  ghost predicate Within(m: Mem, rank: map<nat, nat>, v: Var, s: set<nat>)
    requires Closed(m) && Acyclic(m, rank) && Fits(m, v)
    decreases Rank(rank, v) + 1
  {
    v.Ref? && !v.isIndex ==>
      && v.head in s
      && (v.kind.PackageKind? ==>
            forall i :: 0 <= i < m.heads[v.head].size ==> Within(m, rank, m.vars[Elem(v.head, i)], s))
  }

  lemma {:induction false} WithinAll(m: Mem, rank: map<nat, nat>, v: Var)
    requires Closed(m) && Acyclic(m, rank) && Fits(m, v)
    ensures Within(m, rank, v, m.heads.Keys)
    decreases Rank(rank, v) + 1
  {
    if Contains(v) {
      forall i | 0 <= i < m.heads[v.head].size ensures Within(m, rank, m.vars[Elem(v.head, i)], m.heads.Keys) {
        WithinAll(m, rank, m.vars[Elem(v.head, i)]);
      }
    }
  }

  lemma {:induction false} WithinMore(m: Mem, rank: map<nat, nat>, v: Var, s: set<nat>, s': set<nat>)
    requires Closed(m) && Acyclic(m, rank) && Fits(m, v) && Within(m, rank, v, s) && s <= s'
    ensures Within(m, rank, v, s')
    decreases Rank(rank, v) + 1
  {
    if Contains(v) {
      forall i | 0 <= i < m.heads[v.head].size ensures Within(m, rank, m.vars[Elem(v.head, i)], s') {
        WithinMore(m, rank, m.vars[Elem(v.head, i)], s, s');
      }
    }
  }

  /** Two memories agree on the heads in `s`: content, size and elements (counts may differ). */
  ghost predicate Agree(m: Mem, m': Mem, s: set<nat>) {
    && (forall h :: h in s && h in m.heads ==> h in m'.heads && m'.heads[h].(rc := 0) == m.heads[h].(rc := 0))
    && (forall p: nat, i: nat {:trigger Elem(p, i)} ::
          p in s && Elem(p, i) in m.vars ==> Elem(p, i) in m'.vars && m'.vars[Elem(p, i)] == m.vars[Elem(p, i)])
  }

  /** A value depends only on the heads it contains. */
  lemma {:induction false} ValueFrame(m: Mem, rank: map<nat, nat>, m': Mem, rank': map<nat, nat>, v: Var, s: set<nat>)
    requires Closed(m) && Acyclic(m, rank) && Fits(m, v) && Within(m, rank, v, s)
    requires Closed(m') && Acyclic(m', rank') && Fits(m', v) && Agree(m, m', s)
    ensures Value(m', rank', v) == Value(m, rank, v) && Within(m', rank', v, s)
    decreases Rank(rank, v) + 1
  {
    if Contains(v) {
      var h := v.head;
      assert m'.heads[h].size == m.heads[h].size;
      forall i | 0 <= i < m.heads[h].size
        ensures m'.vars[Elem(h, i)] == m.vars[Elem(h, i)]
        ensures Value(m', rank', m'.vars[Elem(h, i)]) == Value(m, rank, m.vars[Elem(h, i)])
        ensures Within(m', rank', m'.vars[Elem(h, i)], s)
      {
        assert Elem(h, i) in m.vars && Elem(h, i) in m'.vars;
        ValueFrame(m, rank, m', rank', m.vars[Elem(h, i)], s);
      }
    }
  }

  /** Finalising other variables does not change the value of a surviving one. */
  lemma {:induction false} ValueShrunk(m: Mem, m': Mem, t: Loc, rank: map<nat, nat>, v: Var, s: set<nat>)
    requires Closed(m) && Acyclic(m, rank) && Fits(m, v) && Within(m, rank, v, s)
    requires Closed(m') && Fits(m', v) && Shrunk(m, m', t) && t.Root?
    ensures Acyclic(m', rank)
    ensures Value(m', rank, v) == Value(m, rank, v) && Within(m', rank, v, s)
    decreases Rank(rank, v) + 1
  {
    if Contains(v) {
      var h := v.head;
      assert m'.heads[h].size == m.heads[h].size;
      forall i | 0 <= i < m.heads[h].size
        ensures m'.vars[Elem(h, i)] == m.vars[Elem(h, i)]
        ensures Value(m', rank, m'.vars[Elem(h, i)]) == Value(m, rank, m.vars[Elem(h, i)])
        ensures Within(m', rank, m'.vars[Elem(h, i)], s)
      {
        assert Elem(h, i) in m.vars && Elem(h, i) in m'.vars;
        ValueShrunk(m, m', t, rank, m.vars[Elem(h, i)], s);
      }
    }
  }

  // ----------------------------------------------------------------------------- what stays

  /** Slots outside `ds` and heads outside `hs` that are still there are as they were, but for counts. */
  ghost predicate Kept(m: Mem, m': Mem, ds: set<Loc>, hs: set<nat>) {
    && (forall k :: k in m.vars && k in m'.vars && k !in ds ==> m'.vars[k] == m.vars[k])
    && (forall h :: h in m.heads && h in m'.heads && h !in hs ==> m'.heads[h].(rc := 0) == m.heads[h].(rc := 0))
  }

  /** The object behind `v` is still there at every depth: heads, sizes, bytes and elements.  Nothing is
      asked of the rest of `m'`, which may even have become cyclic. */
  ghost predicate Unchanged(m: Mem, rank: map<nat, nat>, v: Var, m': Mem)
    requires Closed(m) && Acyclic(m, rank) && Fits(m, v)
    decreases Rank(rank, v) + 1
  {
    v.Ref? && !v.isIndex ==>
      && v.head in m'.heads && m'.heads[v.head].(rc := 0) == m.heads[v.head].(rc := 0)
      && (v.kind.PackageKind? ==>
            forall i :: 0 <= i < m.heads[v.head].size ==>
              (&& Elem(v.head, i) in m'.vars && m'.vars[Elem(v.head, i)] == m.vars[Elem(v.head, i)]
               && Unchanged(m, rank, m.vars[Elem(v.head, i)], m')))
  }

  /** An unchanged object has the value it had. */
  lemma {:induction false} UnchangedValue(m: Mem, rank: map<nat, nat>, v: Var, m': Mem, rank': map<nat, nat>)
    requires Closed(m) && Acyclic(m, rank) && Fits(m, v) && Unchanged(m, rank, v, m')
    requires Closed(m') && Acyclic(m', rank') && Fits(m', v)
    ensures Value(m', rank', v) == Value(m, rank, v)
    decreases Rank(rank, v) + 1
  {
    if Contains(v) {
      forall i | 0 <= i < m.heads[v.head].size
        ensures Value(m', rank', m'.vars[Elem(v.head, i)]) == Value(m, rank, m.vars[Elem(v.head, i)])
      {
        UnchangedValue(m, rank, m.vars[Elem(v.head, i)], m', rank');
      }
    }
  }

  /** An object that is still referred to, and that contains nothing which was touched, is unchanged. */
  lemma {:induction false} KeptUnchanged(m: Mem, rank: map<nat, nat>, v: Var, m': Mem, ds: set<Loc>, hs: set<nat>,
                                         s: set<nat>)
    requires Closed(m) && Acyclic(m, rank) && Fits(m, v) && Within(m, rank, v, s)
    requires Closed(m') && Fits(m', v) && Kept(m, m', ds, hs)
    requires (forall d :: d in ds ==> d.Root? || d.pkg !in s) && hs !! s
    ensures Unchanged(m, rank, v, m')
    decreases Rank(rank, v) + 1
  {
    if Contains(v) {
      var h := v.head;
      forall i | 0 <= i < m.heads[h].size
        ensures Elem(h, i) in m'.vars && m'.vars[Elem(h, i)] == m.vars[Elem(h, i)]
        ensures Unchanged(m, rank, m.vars[Elem(h, i)], m')
      {
        assert m'.heads[h].size == m.heads[h].size;
        assert Elem(h, i) in m.vars && Elem(h, i) in m'.vars;
        KeptUnchanged(m, rank, m.vars[Elem(h, i)], m', ds, hs, s);
      }
    }
  }

  /** A store into head `p`: one of its elements or bytes.  Other heads may be freed on the way. */
  ghost predicate StoreInto(m: Mem, m': Mem, p: nat) {
    && m'.vars.Keys <= m.vars.Keys && m'.heads.Keys <= m.heads.Keys
    && (forall k :: k in m'.vars && !(k.Elem? && k.pkg == p) ==> m'.vars[k] == m.vars[k])
    && (forall h :: h in m'.heads && h != p ==> m'.heads[h].(rc := 0) == m.heads[h].(rc := 0))
  }

  /** Assigning to an element is such a store. */
  lemma ElementStore(m: Mem, m': Mem, p: nat, i: nat, x: Var)
    requires Updated(m, m', Elem(p, i), x, Elem(p, i))
    ensures StoreInto(m, m', p)
  {
  }

  /** An object that does not contain the head stored into, and is still referred to, is unchanged. */
  lemma StoreIndependent(m: Mem, rank: map<nat, nat>, v: Var, s: set<nat>, m': Mem, p: nat)
    requires Closed(m) && Acyclic(m, rank) && Fits(m, v) && Within(m, rank, v, s) && p !in s
    requires Closed(m') && Fits(m', v) && StoreInto(m, m', p)
    ensures Unchanged(m, rank, v, m')
  {
    var ds := set k | k in m.vars && k.Elem? && k.pkg == p;
    KeptUnchanged(m, rank, v, m', ds, {p}, s);
  }

  // ------------------------------------------------------------------------------------ copies

  /** `v'` in `m'` is a deep copy of `v` in `m` that contains only heads in `s`. */
  ghost predicate Copy(m: Mem, rank: map<nat, nat>, v: Var, m': Mem, rank': map<nat, nat>, v': Var, s: set<nat>)
    requires Closed(m) && Acyclic(m, rank) && Fits(m, v)
  {
    && Closed(m') && Acyclic(m', rank') && Fits(m', v')
    && Value(m', rank', v') == Value(m, rank, v) && Within(m', rank', v', s)
  }

  /** Everything but slot `d` is still there, unchanged but for counts. */
  ghost predicate Grown(m: Mem, m': Mem, d: Loc) {
    && (forall k :: k in m.vars ==> k in m'.vars && (k == d || m'.vars[k] == m.vars[k]))
    && (forall h :: h in m.heads ==> h in m'.heads && m'.heads[h].(rc := 0) == m.heads[h].(rc := 0))
  }

  ghost predicate Extends(rank: map<nat, nat>, rank': map<nat, nat>, hs: set<nat>) {
    forall h :: h in hs ==> h in rank && h in rank' && rank'[h] == rank[h]
  }

  lemma {:induction false} WithinBoth(m: Mem, rank: map<nat, nat>, v: Var, s: set<nat>, s': set<nat>)
    requires Closed(m) && Acyclic(m, rank) && Fits(m, v) && Within(m, rank, v, s) && Within(m, rank, v, s')
    ensures Within(m, rank, v, s * s')
    decreases Rank(rank, v) + 1
  {
    if Contains(v) {
      forall i | 0 <= i < m.heads[v.head].size ensures Within(m, rank, m.vars[Elem(v.head, i)], s * s') {
        WithinBoth(m, rank, m.vars[Elem(v.head, i)], s, s');
      }
    }
  }

  /** Growing elsewhere keeps the value of everything that was there. */
  lemma ValueGrown(m: Mem, rank: map<nat, nat>, m': Mem, rank': map<nat, nat>, v: Var, d: Loc)
    requires Closed(m) && Acyclic(m, rank) && Fits(m, v) && d.Root?
    requires Closed(m') && Acyclic(m', rank') && Grown(m, m', d)
    ensures Fits(m', v) && Value(m', rank', v) == Value(m, rank, v)
  {
    WithinAll(m, rank, v);
    ValueFrame(m, rank, m', rank', v, m.heads.Keys);
  }

  /** After a clone into a variable `d`, which may have been the source itself, a store into an old head
      leaves the copy as it was made, and a store into a head of the copy leaves every object that was there
      before the clone, and is still referred to, as it was. */
  lemma CloneIndependent(m: Mem, rank: map<nat, nat>, v: Var, m1: Mem, rank1: map<nat, nat>, v1: Var, d: Loc,
                         m2: Mem, p: nat, w: Var)
    requires Closed(m) && Acyclic(m, rank) && Fits(m, v) && d.Root? && Kept(m, m1, {d}, {})
    requires Copy(m, rank, v, m1, rank1, v1, m1.heads.Keys - m.heads.Keys)
    requires Closed(m2) && StoreInto(m1, m2, p)
    ensures p in m.heads && Fits(m2, v1) ==> Unchanged(m1, rank1, v1, m2)
    ensures p !in m.heads && Fits(m, w) && Fits(m2, w) ==> Unchanged(m, rank, w, m2)
  {
    if p in m.heads && Fits(m2, v1) {
      StoreIndependent(m1, rank1, v1, m1.heads.Keys - m.heads.Keys, m2, p);
    }
    if p !in m.heads && Fits(m, w) && Fits(m2, w) {
      WithinAll(m, rank, w);
      forall k | k in m.vars && k in m2.vars && k != d ensures m2.vars[k] == m.vars[k] {
        if k.Elem? {
          assert k == Elem(k.pkg, k.index);
        }
      }
      KeptUnchanged(m, rank, w, m2, {d}, {}, m.heads.Keys);
    }
  }

  /** A copy survives when a further element of package `h`, which it does not contain, is filled. */
  lemma CopyGrown(m: Mem, rank: map<nat, nat>, v: Var, m1: Mem, rank1: map<nat, nat>, v': Var, s: set<nat>,
                  m2: Mem, rank2: map<nat, nat>, d: Loc, s': set<nat>)
    requires Closed(m) && Acyclic(m, rank) && Fits(m, v) && Copy(m, rank, v, m1, rank1, v', s)
    requires Closed(m2) && Acyclic(m2, rank2) && Grown(m1, m2, d) && d.Elem? && d.pkg !in s && s <= s'
    ensures Copy(m, rank, v, m2, rank2, v', s')
  {
    ValueFrame(m1, rank1, m2, rank2, v', s);
    WithinMore(m2, rank2, v', s, s');
  }

  /** A package of copies is a copy of the package. */
  lemma PackageOfCopies(m: Mem, rank: map<nat, nat>, p: nat, m': Mem, rank': map<nat, nat>, h: nat, s: set<nat>)
    requires Closed(m) && Acyclic(m, rank) && p in m.heads && m.heads[p].kind.PackageKind?
    requires Closed(m') && Acyclic(m', rank') && h in m'.heads && m'.heads[h].kind.PackageKind?
    requires m'.heads[h].size == m.heads[p].size
    requires forall j :: 0 <= j < m.heads[p].size ==>
               (Elem(p, j) in m.vars && Elem(h, j) in m'.vars
                && Copy(m, rank, m.vars[Elem(p, j)], m', rank', m'.vars[Elem(h, j)], s))
    ensures forall at: nat, at': nat ::
              Copy(m, rank, Ref(PackageKind, p, false, at), m', rank', Ref(PackageKind, h, false, at'), s + {h})
  {
    forall j | 0 <= j < m.heads[p].size ensures Within(m', rank', m'.vars[Elem(h, j)], s + {h}) {
      WithinMore(m', rank', m'.vars[Elem(h, j)], s, s + {h});
    }
    forall at: nat, at': nat
      ensures Copy(m, rank, Ref(PackageKind, p, false, at), m', rank', Ref(PackageKind, h, false, at'), s + {h})
    {
      var v, v' := Ref(PackageKind, p, false, at), Ref(PackageKind, h, false, at');
      assert Value(m', rank', v').elems == Value(m, rank, v).elems;
    }
  }

  /** Exchanging a finished copy in slot `t` with the destination. */
  lemma CopySwapped(m: Mem, rank: map<nat, nat>, v: Var, m1: Mem, rank': map<nat, nat>, dest: Loc, t: Loc, s: set<nat>)
    requires Closed(m) && Acyclic(m, rank) && Fits(m, v)
    requires t.Root? && t in m1.vars && dest in m1.vars
    requires Copy(m, rank, v, m1, rank', m1.vars[t], s) && Closed(Swapped(m1, dest, t))
    requires dest.Elem? ==> m1.vars[dest] == Null && dest.pkg !in s && dest.pkg in rank'
                            && Rank(rank', m1.vars[t]) < rank'[dest.pkg]
    ensures Copy(m, rank, v, Swapped(m1, dest, t), rank', m1.vars[t], s)
  {
    ValueFrame(m1, rank', Swapped(m1, dest, t), rank', m1.vars[t], s);
  }

  /** Dropping what the destination held before, and then the temporary, leaves the copy intact. */
  lemma CopyShrunk(m: Mem, rank: map<nat, nat>, v: Var, m2: Mem, rank': map<nat, nat>, v': Var, s: set<nat>,
                   m3: Mem, t: Loc, dest: Loc)
    requires Closed(m) && Acyclic(m, rank) && Fits(m, v) && Copy(m, rank, v, m2, rank', v', s)
    requires t.Root? && Closed(m3) && Shrunk(m2, m3, t) && dest in m3.vars && m3.vars[dest] == v' && dest != t
    requires Closed(m3.(vars := m3.vars - {t}))
    ensures Copy(m, rank, v, m3.(vars := m3.vars - {t}), rank', v', s * m3.heads.Keys)
  {
    ValueShrunk(m2, m3, t, rank', v', s);
    WithinAll(m3, rank', v');
    WithinBoth(m3, rank', v', s, m3.heads.Keys);
    ValueFrame(m3, rank', m3.(vars := m3.vars - {t}), rank', v', s * m3.heads.Keys);
  }
}
