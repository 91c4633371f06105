/**
 Reference-counted AML objects.  A variable is a slot: either outside every package (`Root`: ARGx,
 LOCALx, operands, namespace nodes and C locals) or an element of a package (`Elem`).  String, buffer
 and package heads carry a count.  Counts live in a graph, since packages hold variables.
 */
module RefModel {

  datatype Loc = Root(id: nat) | Elem(pkg: nat, index: nat)

  datatype Kind = StringKind | BufferKind | PackageKind

  /** `Ref` is a string, buffer or package, or an index into one; all of them own one reference. */
  datatype Var =
    | Null
    | Integer(n: int)
    | Handle(n: int)
    | Ref(kind: Kind, head: nat, isIndex: bool, at: nat)
  {
    predicate Refers(h: nat) { Ref? && head == h }
  }

  /** `size` counts package elements, `bytes` is the content of a string or buffer. */
  datatype Head = Head(kind: Kind, rc: int, size: nat, bytes: seq<int>)

  datatype Mem = Mem(vars: map<Loc, Var>, heads: map<nat, Head>)

  // --------------------------------------------------------------------------------- invariant

  /** The slots that refer to a head, apart from those being finalised. */
  ghost function Counted(m: Mem, dead: set<Loc>, h: nat): set<Loc> {
    set l | l in m.vars && l !in dead && m.vars[l].Refers(h)
  }

  ghost predicate ElemsMatch(m: Mem) {
    forall p: nat, i: nat {:trigger Elem(p, i)} ::
      Elem(p, i) in m.vars <==> p in m.heads && m.heads[p].kind.PackageKind? && i < m.heads[p].size
  }

  ghost predicate Anchored(m: Mem, dead: set<Loc>, p: nat) {
    exists l :: l in m.vars && l.Root? && l !in dead && m.vars[l].Refers(p)
  }

  /** A slot that cannot vanish while it is finalised. */
  ghost predicate Safe(m: Mem, dead: set<Loc>, zombies: set<nat>, l: Loc) {
    l.Root? || l.pkg in zombies || Anchored(m, dead, l.pkg)
  }

  /** `dead` are the slots whose reference has been dropped but which are not cleared yet, `zombies` the
      packages whose elements are being finalised.  Outside any call both are empty, and then every
      head's count is the number of variables referring to it and is positive. */
  ghost predicate Inv(m: Mem, dead: set<Loc>, zombies: set<nat>) {
    && ElemsMatch(m)
    && RefsMatch(m, dead)
    && Exact(m, dead)
    && Alive(m, zombies)
    && (forall d :: d in dead ==> d in m.vars && Safe(m, dead, zombies, d))
  }

  ghost predicate RefsMatch(m: Mem, dead: set<Loc>) {
    forall l :: l in m.vars && l !in dead && m.vars[l].Ref? ==>
      m.vars[l].head in m.heads && m.heads[m.vars[l].head].kind == m.vars[l].kind
  }

  ghost predicate Exact(m: Mem, dead: set<Loc>) {
    forall h :: h in m.heads ==> m.heads[h].rc == |Counted(m, dead, h)|
  }

  ghost predicate Alive(m: Mem, zombies: set<nat>) {
    && zombies <= m.heads.Keys
    && forall h :: h in m.heads ==> (m.heads[h].rc == 0 <==> h in zombies)
  }

  /** What finalisation may do: clear one slot and free heads with their elements. */
  ghost predicate Shrunk(m: Mem, m': Mem, l: Loc) {
    && m'.vars.Keys <= m.vars.Keys && m'.heads.Keys <= m.heads.Keys
    && (forall k :: k in m'.vars && k != l ==> m'.vars[k] == m.vars[k])
    && (l in m'.vars ==> m'.vars[l] == Null)
    && (forall k :: k in m.vars && k.Root? ==> k in m'.vars)
    && (forall h :: h in m'.heads ==> m'.heads[h].(rc := 0) == m.heads[h].(rc := 0))
  }

  /** The effect of a move or an assignment: `dest`, unless its package was freed, holds `v`; `src` is
      emptied (unless it is the destination); nothing else changes, except that heads whose last
      reference was dropped are gone together with their elements. */
  ghost predicate Updated(m: Mem, m': Mem, dest: Loc, v: Var, src: Loc) {
    && m'.vars.Keys <= m.vars.Keys && m'.heads.Keys <= m.heads.Keys
    && (forall k :: k in m.vars && k.Root? ==> k in m'.vars)
    && (dest in m'.vars ==> m'.vars[dest] == v)
    && (src != dest && src in m'.vars ==> m'.vars[src] == Null)
    && (forall k :: k in m'.vars && k != dest && k != src ==> m'.vars[k] == m.vars[k])
    && (forall h :: h in m'.heads ==> m'.heads[h].(rc := 0) == m.heads[h].(rc := 0))
  }

  /** A live head is referred to by some variable, and a head that is referred to is live. */
  lemma LiveIffReferenced(m: Mem, h: nat)
    requires Inv(m, {}, {})
    ensures h in m.heads <==> exists l :: l in m.vars && m.vars[l].Refers(h)
    ensures h in m.heads ==> m.heads[h].rc == |Counted(m, {}, h)| > 0
  {
    if h in m.heads {
      assert Counted(m, {}, h) != {};
      var l :| l in Counted(m, {}, h);
    }
  }

  // ---------------------------------------------------------------------------- what may be freed

  /** Package `a` has an element that refers to `b`. */
  ghost predicate Links(m: Mem, a: nat, b: nat) {
    exists i: nat :: Elem(a, i) in m.vars && m.vars[Elem(a, i)].Refers(b)
  }

  ghost predicate Path(m: Mem, path: seq<nat>) {
    path != [] && forall i :: 0 <= i < |path| - 1 ==> Links(m, path[i], path[i + 1])
  }

  /** Head `h` can be reached from head `a` through elements of packages. */
  ghost predicate Reach(m: Mem, a: nat, h: nat) {
    exists path :: Path(m, path) && path[0] == a && path[|path| - 1] == h
  }

  /** Only heads that the dropped value `v` reaches in `mid` are gone. */
  ghost predicate FreedFrom(m: Mem, m': Mem, mid: Mem, v: Var) {
    forall h :: h in m.heads && h !in m'.heads ==> v.Ref? && Reach(mid, v.head, h)
  }

  /** Only heads that head `p` reaches are gone. */
  ghost predicate FreedUnder(m: Mem, m': Mem, p: nat) {
    forall h :: h in m.heads && h !in m'.heads ==> Reach(m, p, h)
  }

  /** The memory once the new value is in place: `dest` holds `v`, and `src`, if it is another slot, is empty. */
  function Placed(m: Mem, dest: Loc, v: Var, src: Loc): Mem { Put(Put(m, src, Null), dest, v) }

  lemma ReachSelf(m: Mem, a: nat)
    ensures Reach(m, a, a)
  {
    var path := [a];
    assert Path(m, path) && path[0] == a && path[|path| - 1] == a;
  }

  lemma ReachStep(m: Mem, a: nat, b: nat, h: nat)
    requires Links(m, a, b) && Reach(m, b, h)
    ensures Reach(m, a, h)
  {
    hide Links;
    var path :| Path(m, path) && path[0] == b && path[|path| - 1] == h;
    var all := [a] + path;
    assert Path(m, all) && all[0] == a && all[|all| - 1] == h;
  }

  /** Elements that are in `m'` as they are in `m`, or empty there. */
  ghost predicate SubLinks(m': Mem, m: Mem) {
    forall p: nat, i: nat {:trigger Elem(p, i)} ::
      Elem(p, i) in m'.vars && m'.vars[Elem(p, i)].Ref? ==>
        Elem(p, i) in m.vars && m.vars[Elem(p, i)] == m'.vars[Elem(p, i)]
  }

  lemma ReachSub(m': Mem, m: Mem, a: nat, h: nat)
    requires SubLinks(m', m) && Reach(m', a, h)
    ensures Reach(m, a, h)
  {
    var path :| Path(m', path) && path[0] == a && path[|path| - 1] == h;
    forall i | 0 <= i < |path| - 1 ensures Links(m, path[i], path[i + 1]) {
      assert Links(m', path[i], path[i + 1]);
      var j: nat :| Elem(path[i], j) in m'.vars && m'.vars[Elem(path[i], j)].Refers(path[i + 1]);
      assert Elem(path[i], j) in m.vars && m.vars[Elem(path[i], j)].Refers(path[i + 1]);
    }
    assert Path(m, path);
  }

  lemma FreedSub(m: Mem, m': Mem, mid: Mem, mid': Mem, v: Var)
    requires FreedFrom(m, m', mid, v) && SubLinks(mid, mid')
    ensures FreedFrom(m, m', mid', v)
  {
    hide Reach, SubLinks;
    forall h | h in m.heads && h !in m'.heads ensures v.Ref? && Reach(mid', v.head, h) {
      ReachSub(mid, mid', v.head, h);
    }
  }

  lemma FreedNone(m: Mem, m': Mem, p: nat)
    requires m.heads.Keys <= m'.heads.Keys + {p}
    ensures FreedUnder(m, m', p)
  {
    ReachSelf(m, p);
  }

  /** One more element of package `p` was finalised. */
  lemma FreedElement(m: Mem, m1: Mem, m2: Mem, p: nat, i: nat)
    requires Elem(p, i) in m1.vars && SubLinks(m1, m) && FreedFrom(m1, m2, m1, m1.vars[Elem(p, i)])
    requires FreedUnder(m, m1, p)
    ensures FreedUnder(m, m2, p)
  {
    hide Reach;
    var v := m1.vars[Elem(p, i)];
    forall h | h in m.heads && h !in m2.heads && h in m1.heads ensures Reach(m, p, h) {
      ReachSub(m1, m, v.head, h);
      assert Elem(p, i) in m.vars && m.vars[Elem(p, i)].Refers(v.head);
      ReachStep(m, p, v.head, h);
    }
  }

  /** What a live head reaches stays alive. */
  lemma ReachAlive(m: Mem, m': Mem, l: Loc, a: nat, h: nat)
    requires ElemsMatch(m) && ElemsMatch(m') && RefsMatch(m', {}) && Shrunk(m, m', l) && l.Root?
    requires Reach(m, a, h) && a in m'.heads
    ensures h in m'.heads
  {
    var path :| Path(m, path) && path[0] == a && path[|path| - 1] == h;
    PathAlive(m, m', l, path, |path| - 1);
  }

  lemma {:induction false} PathAlive(m: Mem, m': Mem, l: Loc, path: seq<nat>, k: nat)
    requires ElemsMatch(m) && ElemsMatch(m') && RefsMatch(m', {}) && Shrunk(m, m', l) && l.Root?
    requires Path(m, path) && path[0] in m'.heads && k < |path|
    ensures path[k] in m'.heads
  {
    if k > 0 {
      PathAlive(m, m', l, path, k - 1);
      assert Links(m, path[k - 1], path[k - 1 + 1]);
      var i: nat :| Elem(path[k - 1], i) in m.vars && m.vars[Elem(path[k - 1], i)].Refers(path[k]);
      assert Elem(path[k - 1], i) in m'.vars;
    }
  }

  // ------------------------------------------------------------------------ steps of finalising

  function DropRef(m: Mem, h: nat): Mem
    requires h in m.heads
  {
    m.(heads := m.heads[h := m.heads[h].(rc := m.heads[h].rc - 1)])
  }

  function AddRef(m: Mem, h: nat): Mem
    requires h in m.heads
  {
    m.(heads := m.heads[h := m.heads[h].(rc := m.heads[h].rc + 1)])
  }

  function Without(m: Mem, h: nat): Mem {
    Mem(map l | l in m.vars && !(l.Elem? && l.pkg == h) :: m.vars[l], m.heads - {h})
  }

  function Put(m: Mem, l: Loc, v: Var): Mem { m.(vars := m.vars[l := v]) }

  lemma DropRefCounts(m: Mem, dead: set<Loc>, l: Loc, g: nat)
    requires l in m.vars && l !in dead && m.vars[l].Ref?
    ensures Counted(m, dead, g) == Counted(m, dead + {l}, g) + (if m.vars[l].Refers(g) then {l} else {})
    ensures |Counted(m, dead + {l}, g)| == |Counted(m, dead, g)| - if m.vars[l].Refers(g) then 1 else 0
  {
    assert Counted(m, dead, g) == Counted(m, dead + {l}, g) + (if m.vars[l].Refers(g) then {l} else {});
  }

  lemma DropRefExact(m: Mem, dead: set<Loc>, l: Loc)
    requires Exact(m, dead) && l in m.vars && l !in dead && m.vars[l].Ref? && m.vars[l].head in m.heads
    ensures Exact(DropRef(m, m.vars[l].head), dead + {l}) && m.heads[m.vars[l].head].rc >= 1
  {
    var m' := DropRef(m, m.vars[l].head);
    forall g | g in m'.heads ensures m'.heads[g].rc == |Counted(m', dead + {l}, g)| {
      DropRefCounts(m, dead, l, g);
      assert Counted(m', dead + {l}, g) == Counted(m, dead + {l}, g);
    }
    DropRefCounts(m, dead, l, m.vars[l].head);
  }

  lemma DropRefSafe(m: Mem, dead: set<Loc>, zombies: set<nat>, l: Loc, d: Loc)
    requires l in m.vars && m.vars[l].Ref? && m.vars[l].head in m.heads
    requires Safe(m, dead, zombies, d) && (l.Root? ==> d == l)
    ensures Safe(DropRef(m, m.vars[l].head), dead + {l}, zombies, d)
  {
    if d.Elem? && d.pkg !in zombies {
      var r :| r in m.vars && r.Root? && r !in dead && m.vars[r].Refers(d.pkg);
      assert r !in dead + {l};
    }
  }

  lemma UncountedNotAnchored(m: Mem, dead: set<Loc>, h: nat)
    requires Exact(m, dead) && h in m.heads && m.heads[h].rc == 0
    ensures !Anchored(m, dead, h)
  {
    assert Counted(m, dead, h) == {};
    forall r | r in m.vars && r.Root? && r !in dead ensures !m.vars[r].Refers(h) {
      assert r !in Counted(m, dead, h);
    }
  }

  lemma DropRefKeeps(m: Mem, dead: set<Loc>, zombies: set<nat>, l: Loc)
    requires Inv(m, dead, zombies) && l in m.vars && l !in dead && m.vars[l].Ref?
    requires Safe(m, dead, zombies, l) && (l.Root? ==> dead == {})
    ensures var h := m.vars[l].head;
            && h in m.heads && m.heads[h].kind == m.vars[l].kind && m.heads[h].rc >= 1 && h !in zombies
            && var m' := DropRef(m, h);
               var z := if m'.heads[h].rc == 0 then zombies + {h} else zombies;
               && Inv(m', dead + {l}, z)
               && (m'.heads[h].rc == 0 ==> forall d :: d in dead + {l} ==> d.Root? || d.pkg != h)
  {
    hide Exact, Anchored, Counted;
    var h := m.vars[l].head;
    DropRefExact(m, dead, l);
    var m' := DropRef(m, h);
    forall d | d in dead + {l} ensures d in m'.vars && Safe(m', dead + {l}, zombies, d) {
      DropRefSafe(m, dead, zombies, l, d);
    }
    if m'.heads[h].rc == 0 {
      UncountedNotAnchored(m', dead + {l}, h);
    }
  }

  lemma NobodyRefers(m: Mem, dead: set<Loc>, h: nat)
    requires Exact(m, dead) && h in m.heads && m.heads[h].rc == 0
    ensures forall l :: l in m.vars && l !in dead ==> !m.vars[l].Refers(h)
  {
    assert Counted(m, dead, h) == {};
    forall l | l in m.vars && l !in dead ensures !m.vars[l].Refers(h) {
      assert l !in Counted(m, dead, h);
    }
  }

  lemma WithoutKeeps(m: Mem, dead: set<Loc>, zombies: set<nat>, h: nat)
    requires Inv(m, dead, zombies + {h}) && h !in zombies && h in m.heads
    requires forall d :: d in dead ==> d.Root? || d.pkg != h
    requires forall l :: l in m.vars && l.Elem? && l.pkg == h ==> m.vars[l].Null?
    ensures Inv(Without(m, h), dead, zombies)
  {
    var m' := Without(m, h);
    NobodyRefers(m, dead, h);
    forall g | g in m'.heads ensures m'.heads[g].rc == |Counted(m', dead, g)| {
      assert Counted(m', dead, g) == Counted(m, dead, g);
    }
    forall d | d in dead ensures d in m'.vars && Safe(m', dead, zombies, d) {
      if d.Elem? && d.pkg !in zombies {
        var r :| r in m.vars && r.Root? && r !in dead && m.vars[r].Refers(d.pkg);
        assert r in m'.vars && m'.vars[r].Refers(d.pkg);
      }
    }
  }

  lemma ClearKeeps(m: Mem, dead: set<Loc>, zombies: set<nat>, l: Loc)
    requires Inv(m, dead + {l}, zombies) && l !in dead
    ensures Inv(Put(m, l, Null), dead, zombies)
  {
    var m' := Put(m, l, Null);
    assert l in m.vars;
    assert m'.vars.Keys == m.vars.Keys;
    forall g | g in m'.heads ensures m'.heads[g].rc == |Counted(m', dead, g)| {
      assert Counted(m', dead, g) == Counted(m, dead + {l}, g);
    }
    forall d | d in dead ensures d in m'.vars && Safe(m', dead, zombies, d) {
      assert d in dead + {l};
      if d.Elem? && d.pkg !in zombies {
        var r :| r in m.vars && r.Root? && r !in dead + {l} && m.vars[r].Refers(d.pkg);
        assert r in m'.vars && m'.vars[r].Refers(d.pkg);
      }
    }
  }

  lemma DeadThere(m: Mem, dead: set<Loc>, zombies: set<nat>)
    requires Inv(m, dead, zombies)
    ensures dead <= m.vars.Keys && zombies <= m.heads.Keys
  {
  }

  lemma ElemThere(m: Mem, dead: set<Loc>, zombies: set<nat>, h: nat, i: nat)
    requires Inv(m, dead, zombies) && h in zombies
    requires h in m.heads && m.heads[h].kind.PackageKind? && i < m.heads[h].size
    ensures Elem(h, i) in m.vars && Safe(m, dead, zombies, Elem(h, i))
  {
  }

  lemma AllCleared(m: Mem, dead: set<Loc>, zombies: set<nat>, h: nat)
    requires Inv(m, dead, zombies) && h in m.heads && m.heads[h].kind.PackageKind?
    requires forall j :: 0 <= j < m.heads[h].size ==> Elem(h, j) in m.vars && m.vars[Elem(h, j)] == Null
    ensures forall l :: l in m.vars && l.Elem? && l.pkg == h ==> m.vars[l].Null?
  {
    forall l | l in m.vars && l.Elem? && l.pkg == h ensures m.vars[l].Null? {
      assert l == Elem(h, l.index);
    }
  }

  /** Like `Shrunk`, but the elements of one package may be cleared. */
  ghost predicate ShrunkExcept(m: Mem, m': Mem, p: nat) {
    && m'.vars.Keys <= m.vars.Keys && m'.heads.Keys <= m.heads.Keys
    && (forall k :: k in m'.vars && !(k.Elem? && k.pkg == p) ==> m'.vars[k] == m.vars[k])
    && (forall k :: k in m'.vars ==> m'.vars[k] == m.vars[k] || m'.vars[k] == Null)
    && (forall k :: k in m.vars && k.Root? ==> k in m'.vars)
    && (forall h :: h in m'.heads ==> m'.heads[h].(rc := 0) == m.heads[h].(rc := 0))
  }

  lemma ZombieStays(m: Mem, m': Mem, dead: set<Loc>, zombies: set<nat>, h: nat, l: Loc)
    requires Inv(m, dead, zombies) && Inv(m', dead, zombies) && h in zombies && Shrunk(m, m', l)
    requires m.heads[h].kind.PackageKind?
    ensures h in m'.heads && m'.heads[h] == m.heads[h]
    ensures forall j :: 0 <= j < m.heads[h].size ==> Elem(h, j) in m'.vars
    ensures dead <= m'.vars.Keys
  {
  }

  lemma NoElems(m: Mem, dead: set<Loc>, zombies: set<nat>, h: nat)
    requires Inv(m, dead, zombies) && h in m.heads && !m.heads[h].kind.PackageKind?
    ensures Without(m, h) == m.(heads := m.heads - {h})
  {
    forall l | l in m.vars ensures !(l.Elem? && l.pkg == h) {
      if l.Elem? {
        assert l == Elem(l.pkg, l.index);
      }
    }
    assert Without(m, h).vars == m.vars;
  }

  lemma ClearValue(m: Mem, dead: set<Loc>, zombies: set<nat>, l: Loc)
    requires Inv(m, dead, zombies) && l in m.vars && l !in dead && !m.vars[l].Ref?
    ensures Inv(Put(m, l, Null), dead, zombies)
  {
    var m' := Put(m, l, Null);
    assert m'.vars.Keys == m.vars.Keys;
    forall g | g in m'.heads ensures m'.heads[g].rc == |Counted(m', dead, g)| {
      assert Counted(m', dead, g) == Counted(m, dead, g);
    }
    forall d | d in dead ensures d in m'.vars && Safe(m', dead, zombies, d) {
      if d.Elem? && d.pkg !in zombies {
        var r :| r in m.vars && r.Root? && r !in dead && m.vars[r].Refers(d.pkg);
        assert r in m'.vars && m'.vars[r].Refers(d.pkg);
      }
    }
  }

  // ------------------------------------------------------------------- copying and exchanging

  /** Writing a further reference into an empty slot. */
  function Copied(m: Mem, l: Loc, v: Var): Mem
    requires v.Ref? ==> v.head in m.heads
  {
    Put(if v.Ref? then AddRef(m, v.head) else m, l, v)
  }

  lemma CopiedKeeps(m: Mem, l: Loc, src: Loc)
    requires Inv(m, {}, {}) && l in m.vars && m.vars[l] == Null && src in m.vars
    ensures m.vars[src].Ref? ==> m.vars[src].head in m.heads && m.heads[m.vars[src].head].rc > 0
    ensures Inv(Copied(m, l, m.vars[src]), {}, {})
  {
    hide Counted, Exact;
    var m' := Copied(m, l, m.vars[src]);
    assert m'.vars.Keys == m.vars.Keys;
    ExactCounts(m);
    CopiedExact(m, l, m.vars[src]);
  }

  lemma ExactCounts(m: Mem)
    requires Exact(m, {})
    ensures forall h :: h in m.heads ==> m.heads[h].rc >= 0
  {
  }

  lemma CopiedExact(m: Mem, l: Loc, v: Var)
    requires Exact(m, {}) && l in m.vars && m.vars[l] == Null && (v.Ref? ==> v.head in m.heads)
    ensures Exact(Copied(m, l, v), {})
  {
    var m' := Copied(m, l, v);
    hide Counted;
    forall g | g in m'.heads ensures m'.heads[g].rc == |Counted(m', {}, g)| {
      CopiedCount(m, m', l, g);
    }
  }

  lemma CopiedCount(m: Mem, m': Mem, l: Loc, g: nat)
    requires l in m.vars && m.vars[l] == Null && l in m'.vars && m'.vars == m.vars[l := m'.vars[l]]
    ensures |Counted(m', {}, g)| == |Counted(m, {}, g)| + if m'.vars[l].Refers(g) then 1 else 0
  {
    assert l !in Counted(m, {}, g);
    if m'.vars[l].Refers(g) {
      assert Counted(m', {}, g) == Counted(m, {}, g) + {l};
    } else {
      assert Counted(m', {}, g) == Counted(m, {}, g);
    }
  }

  function Swapped(m: Mem, a: Loc, b: Loc): Mem
    requires a in m.vars && b in m.vars
  {
    m.(vars := m.vars[a := m.vars[b]][b := m.vars[a]])
  }

  lemma SwappedCount(m: Mem, a: Loc, b: Loc, g: nat)
    requires a in m.vars && b in m.vars
    ensures |Counted(Swapped(m, a, b), {}, g)| == |Counted(m, {}, g)|
  {
    var m' := Swapped(m, a, b);
    var c, c' := Counted(m, {}, g), Counted(m', {}, g);
    if m.vars[a].Refers(g) == m.vars[b].Refers(g) {
      assert c' == c;
    } else if m.vars[a].Refers(g) {
      assert c' == c - {a} + {b};
    } else {
      assert c' == c - {b} + {a};
    }
  }

  lemma SwappedKeeps(m: Mem, a: Loc, b: Loc)
    requires Inv(m, {}, {}) && a in m.vars && b in m.vars
    ensures Inv(Swapped(m, a, b), {}, {})
  {
    var m' := Swapped(m, a, b);
    assert m'.vars.Keys == m.vars.Keys;
    hide Counted;
    forall g | g in m'.heads ensures m'.heads[g].rc == |Counted(m', {}, g)| {
      SwappedCount(m, a, b, g);
    }
  }

  /** A fresh empty variable, or an empty variable that goes out of scope. */
  lemma TempKeeps(m: Mem, r: nat)
    requires Inv(m, {}, {}) && Root(r) !in m.vars
    ensures Inv(Put(m, Root(r), Null), {}, {})
  {
    var m' := Put(m, Root(r), Null);
    forall g | g in m'.heads ensures m'.heads[g].rc == |Counted(m', {}, g)| {
      assert Counted(m', {}, g) == Counted(m, {}, g);
    }
  }

  lemma UntempKeeps(m: Mem, r: nat)
    requires Inv(m, {}, {}) && Root(r) in m.vars && m.vars[Root(r)] == Null
    ensures Inv(m.(vars := m.vars - {Root(r)}), {}, {})
  {
    var m' := m.(vars := m.vars - {Root(r)});
    forall g | g in m'.heads ensures m'.heads[g].rc == |Counted(m', {}, g)| {
      assert Counted(m', {}, g) == Counted(m, {}, g);
    }
  }

  // --------------------------------------------------------------------- creating and resizing

  function Elements(p: nat, n: nat): map<Loc, Var> {
    map i: nat | i < n :: Elem(p, i) := Null
  }

  /** A new head with count one, referred to by slot `l`. */
  function Created(m: Mem, l: Loc, h: nat, kind: Kind, size: nat, bytes: seq<int>): Mem {
    Mem((m.vars + if kind.PackageKind? then Elements(h, size) else map[])[l := Ref(kind, h, false, 0)],
        m.heads[h := Head(kind, 1, size, bytes)])
  }

  lemma CreatedKeeps(m: Mem, l: Loc, h: nat, kind: Kind, size: nat, bytes: seq<int>)
    requires Inv(m, {}, {}) && l in m.vars && m.vars[l] == Null && h !in m.heads
    ensures Inv(Created(m, l, h, kind, size, bytes), {}, {})
  {
    hide Exact, Counted;
    CreatedExact(m, l, h, kind, size, bytes);
    ExactCounts(m);
    assert forall i: nat :: Elem(h, i) !in m.vars;
  }

  lemma CreatedExact(m: Mem, l: Loc, h: nat, kind: Kind, size: nat, bytes: seq<int>)
    requires ElemsMatch(m) && RefsMatch(m, {}) && Exact(m, {}) && l in m.vars && m.vars[l] == Null && h !in m.heads
    ensures Exact(Created(m, l, h, kind, size, bytes), {})
  {
    var m' := Created(m, l, h, kind, size, bytes);
    assert forall i: nat :: Elem(h, i) !in m.vars;
    forall g | g in m'.heads ensures m'.heads[g].rc == |Counted(m', {}, g)| {
      if g == h {
        assert Counted(m', {}, g) == {l};
      } else {
        assert Counted(m', {}, g) == Counted(m, {}, g);
      }
    }
  }

  /** The element array of package `p` is cut or extended with empty elements. */
  function Resized(m: Mem, p: nat, n: nat): Mem
    requires p in m.heads
  {
    Mem((map l | l in m.vars && !(l.Elem? && l.pkg == p && l.index >= n) :: m.vars[l])
        + (map i: nat | i < n && Elem(p, i) !in m.vars :: Elem(p, i) := Null),
        m.heads[p := m.heads[p].(size := n)])
  }

  lemma ResizedKeeps(m: Mem, p: nat, n: nat)
    requires Inv(m, {}, {}) && p in m.heads && m.heads[p].kind.PackageKind?
    requires forall i :: n <= i < m.heads[p].size ==> Elem(p, i) in m.vars && m.vars[Elem(p, i)] == Null
    ensures Inv(Resized(m, p, n), {}, {})
  {
    var m' := Resized(m, p, n);
    forall g | g in m'.heads ensures m'.heads[g].rc == |Counted(m', {}, g)| {
      forall l | l in m.vars && m.vars[l].Refers(g) ensures l in m'.vars {
        if l.Elem? {
          assert l == Elem(l.pkg, l.index);
        }
      }
      assert Counted(m', {}, g) == Counted(m, {}, g);
    }
  }
}
