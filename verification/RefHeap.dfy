/**
 The operations on reference-counted variables, in place.
 */
module RefHeaps {
  import opened RefModel
  import opened DeepValues

  class Heap {
    var vars: map<Loc, Var>
    var heads: map<nat, Head>

    ghost function M(): Mem reads this { Mem(vars, heads) }

    /** lai_var_finalize.  Recursion ends because every nested call has one live head less. */
    method Finalize(l: Loc, ghost dead: set<Loc>, ghost zombies: set<nat>)
      requires Inv(M(), dead, zombies) && l in vars && l !in dead
      requires Safe(M(), dead, zombies, l) && (l.Root? ==> dead == {})
      modifies this`vars, this`heads
      ensures Inv(M(), dead, zombies) && l in vars && vars[l] == Null
      ensures Shrunk(old(M()), M(), l) && FreedFrom(old(M()), M(), old(M()), old(vars[l]))
      ensures !old(vars[l]).Ref? ==> M() == Put(old(M()), l, Null)
      decreases heads.Keys - zombies, 1
    {
      hide Inv, Safe, Reach, SubLinks;
      if vars[l].Ref? {
        var h := vars[l].head;
        ghost var m0 := M();
        ReachSelf(m0, h);
        DropRefKeeps(M(), dead, zombies, l);
        heads := heads[h := heads[h].(rc := heads[h].rc - 1)];
        if heads[h].rc == 0 {
          if vars[l].kind.PackageKind? {
            ghost var m1 := M();
            FreePackage(h, dead + {l}, zombies);
            SameLinks(m1, m0);
            ReachAll(m1, m0, M(), h);
          } else {
            NoElems(M(), dead + {l}, zombies + {h}, h);
            WithoutKeeps(M(), dead + {l}, zombies, h);
            heads := heads - {h};
          }
        }
        ClearKeeps(M(), dead, zombies, l);
      } else {
        ClearValue(M(), dead, zombies, l);
      }
      vars := vars[l := Null];
    }

    /** laihost_free_package: finalise the elements, then free the head and its element array. */
    method FreePackage(h: nat, ghost dead: set<Loc>, ghost zombies: set<nat>)
      requires Inv(M(), dead, zombies + {h}) && h !in zombies && h in heads && heads[h].kind.PackageKind?
      requires forall d :: d in dead ==> d.Root? || d.pkg != h
      modifies this`vars, this`heads
      ensures Inv(M(), dead, zombies) && h !in heads
      ensures forall d :: d in dead ==> d in vars && vars[d] == old(vars[d])
      ensures ShrunkExcept(old(M()), M(), h) && forall i: nat :: Elem(h, i) !in vars
      ensures FreedUnder(old(M()), M(), h)
      decreases heads.Keys - zombies, 0
    {
      hide Inv, Safe, FreedUnder, SubLinks, FreedFrom;
      FreedNone(M(), M(), h);
      ghost var z := zombies + {h};
      var n := heads[h].size;
      DeadThere(M(), dead, z);
      var i := 0;
      while i < n
        invariant 0 <= i <= n && h in heads && heads[h] == old(heads[h])
        invariant Inv(M(), dead, z)
        invariant forall j :: 0 <= j < i ==> Elem(h, j) in vars && vars[Elem(h, j)] == Null
        invariant ShrunkExcept(old(M()), M(), h)
        invariant FreedUnder(old(M()), M(), h)
        invariant forall d :: d in dead ==> d in vars && vars[d] == old(vars[d])
      {
        ghost var m0 := M();
        ElemThere(m0, dead, z, h, i);
        Finalize(Elem(h, i), dead, z);
        ZombieStays(m0, M(), dead, z, h, Elem(h, i));
        SubOfShrunk(old(M()), m0, h);
        FreedElement(old(M()), m0, M(), h, i);
        i := i + 1;
      }
      AllCleared(M(), dead, z, h);
      WithoutKeeps(M(), dead, zombies, h);
      ghost var m1 := M();
      vars := map l | l in vars && !(l.Elem? && l.pkg == h) :: vars[l];
      heads := heads - {h};
      FreedSelf(old(M()), m1, M(), h);
    }

    // ------------------------------------------------------------- variables that come and go

    var nextRoot: nat
    var nextHead: nat

    ghost predicate Valid()
      reads this
    {
      && Inv(M(), {}, {})
      && (forall l :: l in vars && l.Root? ==> l.id < nextRoot)
      && (forall h :: h in heads ==> h < nextHead)
    }

    constructor ()
      ensures Valid() && vars == map[] && heads == map[]
    {
      vars, heads, nextRoot, nextHead := map[], map[], 0, 0;
    }

    /** A zero-initialised local variable. */
    method NewLocal() returns (t: Loc)
      requires Valid()
      modifies this`vars, this`nextRoot
      ensures Valid() && t == Root(old(nextRoot)) && t !in old(vars) && vars == old(vars)[t := Null]
    {
      t := Root(nextRoot);
      TempKeeps(M(), nextRoot);
      vars, nextRoot := vars[t := Null], nextRoot + 1;
    }

    method EndLocal(t: Loc)
      requires Valid() && t.Root? && t in vars && vars[t] == Null
      modifies this`vars
      ensures Valid() && vars == old(vars) - {t}
    {
      UntempKeeps(M(), t.id);
      vars := vars - {t};
    }

    /** lai_swap_object. */
    method Swap(a: Loc, b: Loc)
      requires Valid() && a in vars && b in vars
      modifies this`vars
      ensures Valid() && M() == Swapped(old(M()), a, b)
    {
      SwappedKeeps(M(), a, b);
      vars := vars[a := vars[b]][b := vars[a]];
    }

    /** lai_var_move.  The destination may be an element of a package that dies on the way. */
    method Move(dest: Loc, src: Loc)
      requires Valid() && dest in vars && src in vars
      modifies this`vars, this`heads, this`nextRoot
      ensures Valid() && Updated(old(M()), M(), dest, old(vars[src]), src)
      ensures FreedFrom(old(M()), M(), Placed(old(M()), dest, old(vars[src]), src), old(vars[dest]))
      ensures !old(vars[dest]).Ref? ==> vars.Keys == old(vars.Keys) && heads == old(heads)
    {
      hide Inv, Reach, SubLinks;
      ghost var m0 := M();
      var t := NewLocal();
      Swap(t, src);
      Swap(t, dest);
      ghost var m1 := M();
      Finalize(t, {}, {});
      ghost var m2 := M();
      EndLocal(t);
      MoveUpdates(m0, m2, dest, src, t);
      MoveFrees(m0, m1, m2, dest, src, t);
    }

    /** lai_var_assign.  The extra reference is taken before the old value is dropped, so assigning a
        variable to itself, or a package's own element over its last reference, is safe. */
    method Assign(dest: Loc, src: Loc)
      requires Valid() && dest in vars && src in vars
      modifies this`vars, this`heads, this`nextRoot
      ensures Valid() && Updated(old(M()), M(), dest, old(vars[src]), dest)
      ensures FreedFrom(old(M()), M(), Placed(old(M()), dest, old(vars[src]), dest), old(vars[dest]))
      ensures !old(vars[dest]).Ref? ==> vars.Keys == old(vars.Keys) && heads.Keys == old(heads.Keys)
    {
      hide Inv, Reach;
      ghost var m0 := M();
      var t := NewLocal();
      CopyRef(t, src);
      ghost var m2 := M();
      Move(dest, t);
      ghost var m3 := M();
      EndLocal(t);
      AssignUpdates(m0, m2, m3, dest, src, t);
      AssignFrees(m0, m2, m3, dest, src, t);
    }

    /** The shallow copy of a variable, with its reference counted. */
    method CopyRef(t: Loc, src: Loc)
      requires Valid() && t in vars && vars[t] == Null && src in vars
      modifies this`vars, this`heads
      ensures Valid() && (old(vars[src]).Ref? ==> old(vars[src]).head in old(heads))
      ensures M() == Copied(old(M()), t, old(vars[src]))
    {
      hide Inv;
      CopiedKeeps(M(), t, src);
      if vars[src].Ref? {
        var h := vars[src].head;
        assert heads[h].rc > 0;
        heads := heads[h := heads[h].(rc := heads[h].rc + 1)];
      }
      vars := vars[t := vars[src]];
    }

    // --------------------------------------------------------------------------------- packages

    /** lai_exec_pkg_var_load. */
    method PackageLoad(out: Loc, p: nat, i: nat)
      requires Valid() && out in vars && Elem(p, i) in vars
      modifies this`vars, this`heads, this`nextRoot
      ensures Valid() && Updated(old(M()), M(), out, old(vars[Elem(p, i)]), out)
      ensures FreedFrom(old(M()), M(), Placed(old(M()), out, old(vars[Elem(p, i)]), out), old(vars[out]))
    {
      Assign(out, Elem(p, i));
    }

    /** lai_exec_pkg_var_store. */
    method PackageStore(src: Loc, p: nat, i: nat)
      requires Valid() && src in vars && Elem(p, i) in vars
      modifies this`vars, this`heads, this`nextRoot
      ensures Valid() && Updated(old(M()), M(), Elem(p, i), old(vars[src]), Elem(p, i))
      ensures FreedFrom(old(M()), M(), Placed(old(M()), Elem(p, i), old(vars[src]), Elem(p, i)), old(vars[Elem(p, i)]))
    {
      Assign(Elem(p, i), src);
    }

    /** lai_obj_resize_pkg on a variable outside every package: the elements that stay are unchanged,
        new ones are empty, and the package itself survives the finalisation of the rest. */
    method ResizePackage(target: Loc, n: nat) returns (ok: bool)
      requires Valid() && target.Root? && target in vars
      modifies this`vars, this`heads
      ensures Valid() && ok == Contains(old(vars[target]))
      ensures !ok ==> M() == old(M())
      ensures forall k :: k in old(vars) && k.Root? ==> k in vars && vars[k] == old(vars[k])
      ensures ok ==> Around(old(M()), M(), old(vars[target].head))
      ensures ok ==> FreedUnder(old(M()), M(), old(vars[target].head))
      ensures ok ==> var p := old(vars[target].head);
                     && p in old(heads) && p in heads && heads[p].size == n
                     && (forall i :: 0 <= i < n ==> Elem(p, i) in vars)
                     && (forall i :: 0 <= i < n && i < old(heads[p].size) ==>
                           (Elem(p, i) in old(vars) && vars[Elem(p, i)] == old(vars[Elem(p, i)])))
                     && (forall i :: old(heads[p].size) <= i < n ==> vars[Elem(p, i)] == Null)
    {
      if !(vars[target].Ref? && vars[target].kind.PackageKind? && !vars[target].isIndex) {
        return false;
      }
      hide Inv, Around, ShrunkExcept, FreedUnder;
      var p := vars[target].head;
      ghost var m0 := M();
      FinalizeTail(target, n);
      ghost var m := M();
      RootFacts(m, target);
      hide Resized;
      CutElements(p, n);
      ResizedSlots(m, p, n);
      AroundTwice(m0, m, M(), p);
      FreedSame(m0, m, M(), p);
      ok := true;
    }

    method CutElements(p: nat, n: nat)
      requires Valid() && p in heads && heads[p].kind.PackageKind?
      requires forall i :: n <= i < heads[p].size ==> Elem(p, i) in vars && vars[Elem(p, i)] == Null
      modifies this`vars, this`heads
      ensures Valid() && M() == Resized(old(M()), p, n)
    {
      hide Inv;
      ResizedKeeps(M(), p, n);
      vars := (map l | l in vars && !(l.Elem? && l.pkg == p && l.index >= n) :: vars[l])
              + (map i: nat | i < n && Elem(p, i) !in vars :: Elem(p, i) := Null);
      heads := heads[p := heads[p].(size := n)];
    }

    /** The loop that finalises the elements from `n` on. */
    method FinalizeTail(target: Loc, n: nat)
      requires Valid() && target.Root? && target in vars && Contains(vars[target])
      modifies this`vars, this`heads
      ensures Valid()
      ensures forall k :: k in old(vars) && k.Root? ==> k in vars && vars[k] == old(vars[k])
      ensures var p := vars[target].head;
              && p in old(heads) && p in heads && heads[p].size == old(heads[p].size)
              && forall j :: 0 <= j < heads[p].size ==>
                   (&& Elem(p, j) in vars && Elem(p, j) in old(vars)
                    && vars[Elem(p, j)] == if n <= j then Null else old(vars[Elem(p, j)]))
      ensures ShrunkExcept(old(M()), M(), vars[target].head)
      ensures FreedUnder(old(M()), M(), vars[target].head)
    {
      hide Inv, FreedUnder, FreedFrom, SubLinks;
      FreedNone(M(), M(), vars[target].head);
      var p := vars[target].head;
      RootFacts(M(), target);
      var size := heads[p].size;
      var i := n;
      while i < size
        invariant n <= i && Valid() && target in vars && vars[target] == old(vars[target])
        invariant p in heads && heads[p].size == size
        invariant forall k :: k in old(vars) && k.Root? ==> k in vars && vars[k] == old(vars[k])
        invariant forall j :: 0 <= j < size ==>
                    (Elem(p, j) in vars && vars[Elem(p, j)] == if n <= j < i then Null else old(vars[Elem(p, j)]))
        invariant ShrunkExcept(old(M()), M(), p)
        invariant FreedUnder(old(M()), M(), p)
      {
        AnchorSafe(M(), target, i);
        ghost var m1 := M();
        Finalize(Elem(p, i), {}, {});
        SubOfShrunk(old(M()), m1, p);
        FreedElement(old(M()), m1, M(), p, i);
        RootFacts(M(), target);
        i := i + 1;
      }
    }

    /** lai_create_string, lai_create_buffer, lai_create_pkg in an empty variable. */
    method Create(l: Loc, kind: Kind, size: nat, bytes: seq<int>) returns (h: nat)
      requires Valid() && l in vars && vars[l] == Null
      modifies this`vars, this`heads, this`nextHead
      ensures Valid() && h !in old(heads) && M() == Created(old(M()), l, h, kind, size, bytes)
    {
      hide Inv;
      h := nextHead;
      CreatedKeeps(M(), l, h, kind, size, bytes);
      vars := (vars + if kind.PackageKind? then Elements(h, size) else map[])[l := Ref(kind, h, false, 0)];
      heads := heads[h := Head(kind, 1, size, bytes)];
      nextHead := nextHead + 1;
    }

    /** The store of lai_operand_mutate through an index into a package: the package stays alive, its
        element becomes the object, and the temporary copy leaves no reference behind. */
    method StoreThroughIndex(dest: Loc, src: Loc)
      requires Valid() && dest.Root? && dest in vars && src in vars
      requires vars[dest].Ref? && vars[dest].kind.PackageKind? && Elem(vars[dest].head, vars[dest].at) in vars
      modifies this`vars, this`heads, this`nextRoot
      ensures Valid()
      ensures var e := Elem(old(vars[dest].head), old(vars[dest].at));
              && e in vars && Updated(old(M()), M(), e, old(vars[src]), e)
              && FreedFrom(old(M()), M(), Placed(old(M()), e, old(vars[src]), e), old(vars[e]))
    {
      hide Inv, Reach;
      var p, at := vars[dest].head, vars[dest].at;
      ghost var m0 := M();
      var copy := NewLocal();
      Assign(copy, src);
      ghost var m1 := M();
      TargetStays(m0, m1, dest);
      PackageStore(copy, p, at);
      ghost var m2 := M();
      TargetStays(m1, m2, dest);
      Finalize(copy, {}, {});
      ghost var m3 := M();
      TargetStays(m2, m3, dest);
      EndLocal(copy);
      StoreUpdates(m0, m1, m2, m3, Elem(p, at), src, copy);
      StoreFrees(m0, m1, m2, m3, Elem(p, at), src, copy);
    }

    /** The store of lai_operand_mutate through an index into a string or buffer: one byte. */
    method StoreByteThroughIndex(dest: Loc, src: Loc)
      requires Valid() && dest in vars && src in vars && vars[src].Integer?
      requires vars[dest].Ref? && !vars[dest].kind.PackageKind?
      requires vars[dest].head in heads && vars[dest].at < |heads[vars[dest].head].bytes|
      modifies this`heads
      ensures Valid() && StoreInto(old(M()), M(), vars[dest].head)
      ensures var h, at := vars[dest].head, vars[dest].at;
              h in heads && heads[h] == old(heads[h]).(bytes := old(heads[h].bytes)[at := vars[src].n % 256])
    {
      var h := vars[dest].head;
      WroteBytes(M(), h, heads[h].bytes[vars[dest].at := vars[src].n % 256]);
      heads := heads[h := heads[h].(bytes := heads[h].bytes[vars[dest].at := vars[src].n % 256])];
    }

    // -------------------------------------------------------------------------------- deep copy

    /** lai_obj_clone.  The copy is equal as a value and contains only fresh heads; it is complete before
        the old value of the destination is dropped, so destination and source may coincide. */
    method Clone(dest: Loc, src: Loc, ghost rank: map<nat, nat>) returns (ghost rank': map<nat, nat>)
      requires Valid() && dest in vars && src in vars && Acyclic(M(), rank)
      requires dest.Elem? ==> vars[dest] == Null && dest.pkg in rank && Rank(rank, vars[src]) < rank[dest.pkg]
      modifies this
      ensures Valid() && Acyclic(M(), rank') && Extends(rank, rank', old(heads.Keys))
      ensures dest in vars
      ensures Copy(old(M()), rank, old(vars[src]), M(), rank', vars[dest], heads.Keys - old(heads.Keys))
      ensures !old(vars[dest]).Ref? ==> Grown(old(M()), M(), dest)
      ensures forall k :: k in old(vars) && k.Root? && k != dest ==> k in vars && vars[k] == old(vars[k])
      ensures Kept(old(M()), M(), {dest}, {}) && FreedFrom(old(M()), M(), old(M()), old(vars[dest]))
      decreases Rank(rank, vars[src]) + 1, 3
    {
      InvCloses(M());
      hide Inv, Closed, Acyclic, Value, Within, Copy, DeepValues.Fits, Extends, Updated, FreedFrom, Reach, Kept;
      ghost var m0, v := M(), vars[src];
      if vars[src].Ref? && !vars[src].isIndex {
        var t := NewLocal();
        ghost var m1 := M();
        NewLocalIsGrown(m0, rank, v, t);
        rank' := CloneTo(t, src, rank);
        ghost var m2 := M();
        CloneToFromStart(m0, rank, v, m1, m2, rank', t, dest);
        ghost var m4 := Replace(dest, t);
        CloneEnds(m0, rank, v, m2, m4, rank', t, dest);
        CloneFrees(m0, m2, m4, t, dest);
      } else {
        Assign(dest, src);
        rank' := rank;
        InvCloses(M());
        ShallowCopy(m0, rank, src, dest, M());
        ShallowFrees(m0, M(), dest, v);
      }
    }

    /** lai_obj_clone, and then a store into an element of one side: of the copy in `dest`, or of an object that
        any other variable holds.  `dest` may be the source, and `other` may share the source's object.  `made`
        is the memory between the two. */
    method CloneThenStore(dest: Loc, src: Loc, other: Loc, obj: Loc, intoCopy: bool, i: nat, ghost rank: map<nat, nat>)
      returns (ghost made: Mem, ghost rank': map<nat, nat>)
      requires Valid() && Acyclic(M(), rank) && dest.Root? && other.Root? && obj.Root? && other != dest
      requires dest in vars && src in vars && other in vars && obj in vars
      modifies this
      ensures Valid() && Closed(made) && Acyclic(made, rank') && dest in made.vars
      ensures Copy(old(M()), rank, old(vars[src]), made, rank', made.vars[dest], made.heads.Keys - old(heads.Keys))
      ensures dest in vars && vars[dest] == made.vars[dest] && other in vars && vars[other] == old(vars[other])
      ensures other in made.vars && obj in made.vars
      ensures var side := made.vars[if intoCopy then dest else other];
              if Contains(side) && side.head in made.heads && i < made.heads[side.head].size
              then Elem(side.head, i) in vars
                   && Updated(made, M(), Elem(side.head, i), made.vars[obj], Elem(side.head, i))
              else M() == made
      ensures intoCopy ==> Unchanged(old(M()), rank, vars[other], M())
      ensures !intoCopy ==> Unchanged(made, rank', vars[dest], M())
    {
      InvCloses(M());
      ghost var m := M();
      hide Inv, Acyclic, Value, Within, Unchanged, Extends;
      rank' := Clone(dest, src, rank);
      InvCloses(M());
      made := M();
      var side := if intoCopy then dest else other;
      if Contains(vars[side]) && i < heads[vars[side].head].size {
        var p := vars[side].head;
        RootFacts(made, side);
        PackageStore(obj, p, i);
        InvCloses(M());
        ElementStore(made, M(), p, i, made.vars[obj]);
        CopyIsFresh(m, rank, m.vars[src], made, rank', made.vars[dest]);
        CloneIndependent(m, rank, m.vars[src], made, rank', made.vars[dest], dest, M(), p, m.vars[other]);
      } else {
        StoreNowhere(m, rank, m.vars[other], made, {dest});
        StoreNowhere(made, rank', made.vars[dest], made, {});
      }
    }

    /** The end of lai_obj_clone: the finished copy in `t` takes the place of the destination's value. */
    method Replace(dest: Loc, t: Loc) returns (ghost m4: Mem)
      requires Valid() && dest in vars && t in vars && t.Root? && dest != t
      modifies this`vars, this`heads
      ensures Valid() && RefModel.Inv(m4, {}, {}) && M() == m4.(vars := m4.vars - {t})
      ensures RefModel.Inv(Swapped(old(M()), dest, t), {}, {}) && Shrunk(Swapped(old(M()), dest, t), m4, t)
      ensures !old(vars[dest]).Ref? ==> m4 == Put(Swapped(old(M()), dest, t), t, Null)
      ensures FreedFrom(Swapped(old(M()), dest, t), m4, Swapped(old(M()), dest, t), old(vars[dest]))
    {
      hide Inv, Reach;
      Swap(dest, t);
      Finalize(t, {}, {});
      m4 := M();
      EndLocal(t);
    }

    /** lai_clone_string, lai_clone_buffer and lai_clone_package into an empty temporary. */
    method CloneTo(t: Loc, src: Loc, ghost rank: map<nat, nat>) returns (ghost rank': map<nat, nat>)
      requires Valid() && t.Root? && t in vars && vars[t] == Null && src in vars && Acyclic(M(), rank)
      requires vars[src].Ref? && !vars[src].isIndex
      modifies this
      ensures Valid() && Acyclic(M(), rank') && Extends(rank, rank', old(heads.Keys))
      ensures Grown(old(M()), M(), t) && t in vars && vars[t].Ref? && Rank(rank', vars[t]) == Rank(rank, old(vars[src]))
      ensures Copy(old(M()), rank, old(vars[src]), M(), rank', vars[t], heads.Keys - old(heads.Keys))
      decreases Rank(rank, vars[src]) + 1, 2
    {
      InvCloses(M());
      hide Inv;
      ghost var m0 := M();
      var p := vars[src].head;
      if vars[src].kind.PackageKind? {
        rank' := ClonePackage(t, src, rank);
      } else {
        var h := Create(t, vars[src].kind, 0, heads[p].bytes);
        rank' := rank[h := 0];
        InvCloses(M());
        LeafCopy(m0, rank, src, t, h, M(), rank');
      }
    }

    method ClonePackage(t: Loc, src: Loc, ghost rank: map<nat, nat>) returns (ghost rank': map<nat, nat>)
      requires Valid() && t.Root? && t in vars && vars[t] == Null && src in vars && Acyclic(M(), rank)
      requires Contains(vars[src])
      modifies this
      ensures Valid() && Acyclic(M(), rank') && Extends(rank, rank', old(heads.Keys))
      ensures Grown(old(M()), M(), t) && t in vars && vars[t].Ref? && Rank(rank', vars[t]) == Rank(rank, old(vars[src]))
      ensures Copy(old(M()), rank, old(vars[src]), M(), rank', vars[t], heads.Keys - old(heads.Keys))
      decreases Rank(rank, vars[src]) + 1, 1
    {
      InvCloses(M());
      hide Inv, Closed, Acyclic, Value, Within, Copy, DeepValues.Fits, Filling, Grown, Extends, Created;
      ghost var m0, v := M(), vars[src];
      RankHas(m0, rank, v);
      var p := vars[src].head;
      RootFacts(m0, src);
      var n := heads[p].size;
      var h := Create(t, PackageKind, n, []);
      rank' := rank[h := rank[p]];
      InvCloses(M());
      FillingStarts(m0, rank, p, t, h, M(), rank');
      rank' := FillPackage(h, p, n, t, m0, rank, rank');
      FillingDone(m0, rank, v, M(), rank', h, t);
    }

    /** The loop of lai_clone_package. */
    method FillPackage(h: nat, p: nat, n: nat, ghost t: Loc, ghost m0: Mem, ghost rank: map<nat, nat>,
                       ghost rank0: map<nat, nat>) returns (ghost rank': map<nat, nat>)
      requires Closed(m0) && Acyclic(m0, rank) && t.Root?
      requires p in m0.heads && m0.heads[p].kind.PackageKind? && m0.heads[p].size == n && p in rank
      requires Filling(m0, rank, p, M(), rank0, h, 0, t) && Valid()
      modifies this
      ensures Filling(m0, rank, p, M(), rank', h, n, t) && Valid()
      decreases rank[p] + 1, 0
    {
      hide Inv, Filling, Closed, Acyclic;
      rank' := rank0;
      var i := 0;
      while i < n
        invariant 0 <= i <= n && Valid() && Filling(m0, rank, p, M(), rank', h, i, t)
      {
        ghost var m1, rank1 := M(), rank';
        FillingNext(m0, rank, p, m1, rank1, h, i, t);
        rank' := Clone(Elem(h, i), Elem(p, i), rank1);
        InvCloses(M());
        FillingStep(m0, rank, p, m1, rank1, M(), rank', h, i, t);
        i := i + 1;
      }
    }
  }

  /** The state of lai_clone_package after `i` elements. */
  ghost predicate Filling(m: Mem, rank: map<nat, nat>, p: nat, m': Mem, rank': map<nat, nat>, h: nat, i: nat, t: Loc)
    requires Closed(m) && Acyclic(m, rank) && p in m.heads && m.heads[p].kind.PackageKind? && p in rank
  {
    && Closed(m') && Acyclic(m', rank') && Extends(rank, rank', m.heads.Keys)
    && h in rank' && rank'[h] == rank[p]
    && Grown(m, m', t) && t in m'.vars && m'.vars[t] == Ref(PackageKind, h, false, 0)
    && h !in m.heads && h in m'.heads && m'.heads[h].kind.PackageKind? && m'.heads[h].size == m.heads[p].size
    && i <= m.heads[p].size
    && (forall j :: i <= j < m.heads[p].size ==> Elem(h, j) in m'.vars && m'.vars[Elem(h, j)] == Null)
    && CopiedUpTo(m, rank, p, m', rank', h, i)
  }

  lemma RankHas(m: Mem, rank: map<nat, nat>, v: Var)
    requires Acyclic(m, rank) && DeepValues.Fits(m, v) && Contains(v)
    ensures v.head in rank && Rank(rank, v) == rank[v.head] && v.head in m.heads && m.heads[v.head].kind.PackageKind?
  {
  }

  lemma FillingStarts(m: Mem, rank: map<nat, nat>, p: nat, t: Loc, h: nat, m': Mem, rank': map<nat, nat>)
    requires Closed(m) && Acyclic(m, rank) && p in m.heads && m.heads[p].kind.PackageKind? && p in rank
    requires h !in m.heads && t in m.vars && t.Root?
    requires m' == Created(m, t, h, PackageKind, m.heads[p].size, []) && rank' == rank[h := rank[p]] && Closed(m')
    ensures Filling(m, rank, p, m', rank', h, 0, t)
  {
    PackageCreated(m, rank, p, t, h, m.heads[p].size, m', rank');
  }

  lemma FillingNext(m: Mem, rank: map<nat, nat>, p: nat, m1: Mem, rank1: map<nat, nat>, h: nat, i: nat, t: Loc)
    requires Closed(m) && Acyclic(m, rank) && p in m.heads && m.heads[p].kind.PackageKind? && p in rank
    requires i < m.heads[p].size && t.Root? && Filling(m, rank, p, m1, rank1, h, i, t)
    ensures Closed(m1) && Acyclic(m1, rank1) && h in rank1
    ensures Elem(p, i) in m1.vars && Elem(h, i) in m1.vars && m1.vars[Elem(h, i)] == Null
    ensures Rank(rank1, m1.vars[Elem(p, i)]) < rank[p] == rank1[h]
    ensures DeepValues.Fits(m1, m1.vars[Elem(p, i)])
  {
    ElemRank(m, rank, p, i, m1, rank1, t);
  }

  lemma FillingStep(m: Mem, rank: map<nat, nat>, p: nat, m1: Mem, rank1: map<nat, nat>, m2: Mem, rank2: map<nat, nat>,
                    h: nat, i: nat, t: Loc)
    requires Closed(m) && Acyclic(m, rank) && p in m.heads && m.heads[p].kind.PackageKind? && p in rank
    requires i < m.heads[p].size && t.Root? && Filling(m, rank, p, m1, rank1, h, i, t)
    requires Closed(m1) && Acyclic(m1, rank1) && Closed(m2) && Acyclic(m2, rank2)
    requires Extends(rank1, rank2, m1.heads.Keys)
    requires Grown(m1, m2, Elem(h, i)) && Elem(p, i) in m1.vars && Elem(h, i) in m2.vars
    requires DeepValues.Fits(m1, m1.vars[Elem(p, i)])
    requires Copy(m1, rank1, m1.vars[Elem(p, i)], m2, rank2, m2.vars[Elem(h, i)], m2.heads.Keys - m1.heads.Keys)
    ensures Filling(m, rank, p, m2, rank2, h, i + 1, t)
  {
    assert Elem(h, i) !in m.vars;
    hide Closed, Acyclic, Copy, CopiedUpTo, Value, Within;
    CopiedOneMore(m, rank, p, m1, rank1, m2, rank2, h, i, t);
    assert m1.heads[h].(rc := 0) == m2.heads[h].(rc := 0);
    GrownChain(m, m1, m2, t, Elem(h, i));
  }

  lemma FillingDone(m: Mem, rank: map<nat, nat>, v: Var, m': Mem, rank': map<nat, nat>, h: nat, t: Loc)
    requires Closed(m) && Acyclic(m, rank) && Contains(v) && DeepValues.Fits(m, v) && v.head in rank
    requires Filling(m, rank, v.head, m', rank', h, m.heads[v.head].size, t)
    ensures Acyclic(m', rank') && Extends(rank, rank', m.heads.Keys)
    ensures Grown(m, m', t) && t in m'.vars && m'.vars[t].Ref? && Rank(rank', m'.vars[t]) == Rank(rank, v)
    ensures Copy(m, rank, v, m', rank', m'.vars[t], m'.heads.Keys - m.heads.Keys)
  {
    var s := m'.heads.Keys - m.heads.Keys - {h};
    hide Closed, Acyclic, Copy, Value, Within;
    PackageOfCopies(m, rank, v.head, m', rank', h, s);
    assert s + {h} == m'.heads.Keys - m.heads.Keys;
    assert v == Ref(PackageKind, v.head, false, v.at);
  }

  lemma GrownChain(m: Mem, m1: Mem, m2: Mem, t: Loc, e: Loc)
    requires Grown(m, m1, t) && Grown(m1, m2, e) && e !in m.vars
    ensures Grown(m, m2, t)
  {
  }

  lemma InvCloses(m: Mem)
    requires Inv(m, {}, {})
    ensures Closed(m) && forall l :: l in m.vars ==> DeepValues.Fits(m, m.vars[l])
  {
  }

  /** The elements below `i` of the new package `h` are copies that do not contain `h` itself. */
  ghost predicate CopiedUpTo(m: Mem, rank: map<nat, nat>, p: nat, m': Mem, rank': map<nat, nat>, h: nat, i: nat)
    requires Closed(m) && Acyclic(m, rank) && p in m.heads && m.heads[p].kind.PackageKind? && i <= m.heads[p].size
  {
    forall j :: 0 <= j < i ==>
      (&& Elem(p, j) in m.vars && Elem(h, j) in m'.vars
       && Copy(m, rank, m.vars[Elem(p, j)], m', rank', m'.vars[Elem(h, j)], m'.heads.Keys - m.heads.Keys - {h}))
  }

  lemma PackageCreated(m: Mem, rank: map<nat, nat>, p: nat, t: Loc, h: nat, n: nat, m': Mem, rank': map<nat, nat>)
    requires Closed(m) && Acyclic(m, rank) && p in m.heads && h !in m.heads && t in m.vars && t.Root?
    requires m' == Created(m, t, h, PackageKind, n, []) && rank' == rank[h := rank[p]] && Closed(m')
    ensures Acyclic(m', rank') && Extends(rank, rank', m.heads.Keys) && Grown(m, m', t)
    ensures forall j :: 0 <= j < n ==> Elem(h, j) in m'.vars && m'.vars[Elem(h, j)] == Null
  {
    assert forall j: nat :: Elem(h, j) !in m.vars;
    forall q: nat, i: nat | Elem(q, i) in m'.vars && Contains(m'.vars[Elem(q, i)])
      ensures q in rank' && m'.vars[Elem(q, i)].head in rank' && rank'[m'.vars[Elem(q, i)].head] < rank'[q]
    {
      assert q != h;
      assert Elem(q, i) in m.vars && m.vars[Elem(q, i)] == m'.vars[Elem(q, i)];
      assert m.vars[Elem(q, i)].head in m.heads && q in m.heads;
    }
  }

  lemma ElemRank(m: Mem, rank: map<nat, nat>, p: nat, i: nat, m1: Mem, rank1: map<nat, nat>, t: Loc)
    requires Closed(m) && Acyclic(m, rank) && p in m.heads && m.heads[p].kind.PackageKind? && i < m.heads[p].size
    requires Closed(m1) && Acyclic(m1, rank1) && Grown(m, m1, t) && t.Root? && Extends(rank, rank1, m.heads.Keys)
    ensures Elem(p, i) in m.vars && Elem(p, i) in m1.vars && m1.vars[Elem(p, i)] == m.vars[Elem(p, i)]
    ensures Rank(rank1, m1.vars[Elem(p, i)]) == Rank(rank, m.vars[Elem(p, i)]) < rank[p]
    ensures DeepValues.Fits(m, m.vars[Elem(p, i)]) && DeepValues.Fits(m1, m.vars[Elem(p, i)])
    ensures Value(m1, rank1, m.vars[Elem(p, i)]) == Value(m, rank, m.vars[Elem(p, i)])
  {
    assert Elem(p, i) in m.vars;
    ValueGrown(m, rank, m1, rank1, m.vars[Elem(p, i)], t);
  }

  lemma CopiedOneMore(m: Mem, rank: map<nat, nat>, p: nat, m1: Mem, rank1: map<nat, nat>,
                      m2: Mem, rank2: map<nat, nat>, h: nat, i: nat, t: Loc)
    requires Closed(m) && Acyclic(m, rank) && p in m.heads && m.heads[p].kind.PackageKind? && i < m.heads[p].size
    requires Closed(m1) && Acyclic(m1, rank1) && Grown(m, m1, t) && t.Root? && Extends(rank, rank1, m.heads.Keys)
    requires Closed(m2) && Acyclic(m2, rank2) && Grown(m1, m2, Elem(h, i)) && h in m1.heads && h !in m.heads
    requires CopiedUpTo(m, rank, p, m1, rank1, h, i)
    requires Elem(p, i) in m1.vars && Elem(h, i) in m2.vars && DeepValues.Fits(m1, m1.vars[Elem(p, i)])
    requires Copy(m1, rank1, m1.vars[Elem(p, i)], m2, rank2, m2.vars[Elem(h, i)], m2.heads.Keys - m1.heads.Keys)
    ensures CopiedUpTo(m, rank, p, m2, rank2, h, i + 1)
  {
    var s := m2.heads.Keys - m.heads.Keys - {h};
    ElemRank(m, rank, p, i, m1, rank1, t);
    WithinMore(m2, rank2, m2.vars[Elem(h, i)], m2.heads.Keys - m1.heads.Keys, s);
    forall j | 0 <= j < i
      ensures Elem(h, j) in m2.vars && Copy(m, rank, m.vars[Elem(p, j)], m2, rank2, m2.vars[Elem(h, j)], s)
    {
      CopyGrown(m, rank, m.vars[Elem(p, j)], m1, rank1, m1.vars[Elem(h, j)], m1.heads.Keys - m.heads.Keys - {h},
                m2, rank2, Elem(h, i), s);
    }
  }

  lemma LeafCopy(m: Mem, rank: map<nat, nat>, src: Loc, t: Loc, h: nat, m': Mem, rank': map<nat, nat>)
    requires Closed(m) && Acyclic(m, rank) && src in m.vars && DeepValues.Fits(m, m.vars[src]) && t.Root? && t in m.vars
    requires m.vars[src].Ref? && !m.vars[src].isIndex && !m.vars[src].kind.PackageKind? && h !in m.heads
    requires m' == Created(m, t, h, m.vars[src].kind, 0, m.heads[m.vars[src].head].bytes) && Closed(m')
    requires rank' == rank[h := 0]
    ensures Acyclic(m', rank') && Extends(rank, rank', m.heads.Keys) && Grown(m, m', t)
    ensures Copy(m, rank, m.vars[src], m', rank', m'.vars[t], m'.heads.Keys - m.heads.Keys)
    ensures Rank(rank', m'.vars[t]) == Rank(rank, m.vars[src]) == -1
  {
    forall q: nat, i: nat | Elem(q, i) in m'.vars && Contains(m'.vars[Elem(q, i)])
      ensures q in rank' && m'.vars[Elem(q, i)].head in rank' && rank'[m'.vars[Elem(q, i)].head] < rank'[q]
    {
      assert Elem(q, i) in m.vars && m.vars[Elem(q, i)] == m'.vars[Elem(q, i)];
      assert m.vars[Elem(q, i)].head in m.heads && q in m.heads;
    }
  }

  lemma NewLocalIsGrown(m: Mem, rank: map<nat, nat>, v: Var, t: Loc)
    requires Closed(m) && Acyclic(m, rank) && DeepValues.Fits(m, v) && t.Root? && t !in m.vars
    ensures var m1 := Put(m, t, Null);
            Closed(m1) && Acyclic(m1, rank) && Grown(m, m1, t) && DeepValues.Fits(m1, v)
            && Value(m1, rank, v) == Value(m, rank, v)
  {
    ValueGrown(m, rank, Put(m, t, Null), rank, v, t);
  }

  lemma CloneToFromStart(m0: Mem, rank: map<nat, nat>, v: Var, m1: Mem, m2: Mem, rank': map<nat, nat>, t: Loc,
                         dest: Loc)
    requires Closed(m0) && Acyclic(m0, rank) && DeepValues.Fits(m0, v) && t.Root? && t !in m0.vars && dest in m0.vars
    requires m1 == Put(m0, t, Null) && Closed(m1) && Acyclic(m1, rank) && DeepValues.Fits(m1, v)
    requires Value(m1, rank, v) == Value(m0, rank, v)
    requires Grown(m1, m2, t) && Copy(m1, rank, v, m2, rank', m2.vars[t], m2.heads.Keys - m1.heads.Keys)
    requires Extends(rank, rank', m1.heads.Keys)
    ensures Copy(m0, rank, v, m2, rank', m2.vars[t], m2.heads.Keys - m0.heads.Keys)
    ensures dest in m2.vars && m2.vars[dest] == m0.vars[dest]
    ensures dest.Elem? ==>
              && dest.pkg !in m2.heads.Keys - m0.heads.Keys
              && dest.pkg in rank' && dest.pkg in rank && rank'[dest.pkg] == rank[dest.pkg]
  {
    if dest.Elem? {
      assert Elem(dest.pkg, dest.index) in m0.vars;
    }
  }

  lemma CloneEnds(m0: Mem, rank: map<nat, nat>, v: Var, m2: Mem, m4: Mem, rank': map<nat, nat>, t: Loc, dest: Loc)
    requires t.Root? && t !in m0.vars && dest in m0.vars && Grown(Put(m0, t, Null), m2, t)
    requires Closed(m0) && Acyclic(m0, rank) && DeepValues.Fits(m0, v)
    requires Copy(m0, rank, v, m2, rank', m2.vars[t], m2.heads.Keys - m0.heads.Keys)
    requires dest in m2.vars && m2.vars[dest] == m0.vars[dest]
    requires dest.Elem? ==>
               m0.vars[dest] == Null && dest.pkg !in m2.heads.Keys - m0.heads.Keys && dest.pkg in rank'
               && Rank(rank', m2.vars[t]) < rank'[dest.pkg]
    requires var m3 := Swapped(m2, dest, t);
             && Inv(m3, {}, {}) && Inv(m4, {}, {}) && Shrunk(m3, m4, t)
             && (!m0.vars[dest].Ref? ==> m4 == Put(m3, t, Null))
    requires Inv(m4.(vars := m4.vars - {t}), {}, {})
    ensures var m5 := m4.(vars := m4.vars - {t});
            && dest in m5.vars && Acyclic(m5, rank')
            && Copy(m0, rank, v, m5, rank', m5.vars[dest], m5.heads.Keys - m0.heads.Keys)
            && (!m0.vars[dest].Ref? ==> Grown(m0, m5, dest))
            && (forall k :: k in m0.vars && k.Root? && k != dest ==> k in m5.vars && m5.vars[k] == m0.vars[k])
            && Kept(m0, m5, {dest}, {})
  {
    var m3, s, m5 := Swapped(m2, dest, t), m2.heads.Keys - m0.heads.Keys, m4.(vars := m4.vars - {t});
    InvCloses(m3);
    InvCloses(m4);
    InvCloses(m5);
    hide Inv, Closed, Acyclic, Value, Within;
    ReplaceFrame(m0, m2, m4, t, dest);
    CopySwapped(m0, rank, v, m2, rank', dest, t, s);
    CloneCopied(m0, rank, v, m3, m4, rank', m2.vars[t], t, dest, s);
  }

  lemma ReplaceFrame(m0: Mem, m2: Mem, m4: Mem, t: Loc, dest: Loc)
    requires t.Root? && t !in m0.vars && dest in m0.vars && Grown(Put(m0, t, Null), m2, t) && dest in m2.vars
    requires dest.Elem? ==> m0.vars[dest] == Null
    requires var m3 := Swapped(m2, dest, t); Shrunk(m3, m4, t) && (!m0.vars[dest].Ref? ==> m4 == Put(m3, t, Null))
    ensures var m5 := m4.(vars := m4.vars - {t});
            && dest in m5.vars && m5.vars[dest] == m2.vars[t]
            && (!m0.vars[dest].Ref? ==> Grown(m0, m5, dest))
            && (forall k :: k in m0.vars && k.Root? && k != dest ==> k in m5.vars && m5.vars[k] == m0.vars[k])
            && Kept(m0, m5, {dest}, {})
  {
  }

  lemma CloneCopied(m0: Mem, rank: map<nat, nat>, v: Var, m3: Mem, m4: Mem, rank': map<nat, nat>, v': Var,
                    t: Loc, dest: Loc, s: set<nat>)
    requires Closed(m0) && Acyclic(m0, rank) && DeepValues.Fits(m0, v) && s !! m0.heads.Keys
    requires Copy(m0, rank, v, m3, rank', v', s) && t.Root? && dest != t
    requires Closed(m4) && Shrunk(m3, m4, t) && dest in m4.vars && m4.vars[dest] == v'
    requires Closed(m4.(vars := m4.vars - {t}))
    ensures var m5 := m4.(vars := m4.vars - {t});
            Acyclic(m5, rank') && Copy(m0, rank, v, m5, rank', v', m5.heads.Keys - m0.heads.Keys)
  {
    var m5 := m4.(vars := m4.vars - {t});
    CopyShrunk(m0, rank, v, m3, rank', v', s, m4, t, dest);
    hide Closed, Acyclic, Value, Within;
    WithinMore(m5, rank', v', s * m4.heads.Keys, m5.heads.Keys - m0.heads.Keys);
  }

  lemma CloneFrees(m0: Mem, m2: Mem, m4: Mem, t: Loc, dest: Loc)
    requires t.Root? && t !in m0.vars && dest in m0.vars && Grown(Put(m0, t, Null), m2, t) && dest in m2.vars
    requires dest.Elem? ==> m0.vars[dest] == Null
    requires Inv(m0, {}, {}) && Inv(Swapped(m2, dest, t), {}, {})
    requires FreedFrom(Swapped(m2, dest, t), m4, Swapped(m2, dest, t), m0.vars[dest])
    ensures FreedFrom(m0, m4.(vars := m4.vars - {t}), m0, m0.vars[dest])
  {
    hide Reach, Exact, Alive;
    var m3, v := Swapped(m2, dest, t), m0.vars[dest];
    forall h | h in m0.heads && h !in m4.heads ensures v.Ref? && Reach(m0, v.head, h) {
      assert dest.Root? && h in m3.heads;
      ReachBack(m0, m3, v.head, h);
    }
  }

  /** Heads that were there before a clone reach what they reached before. */
  lemma ReachBack(m0: Mem, m3: Mem, a: nat, h: nat)
    requires ElemsMatch(m0) && RefsMatch(m0, {}) && ElemsMatch(m3) && a in m0.heads && Reach(m3, a, h)
    requires forall g :: g in m0.heads ==> g in m3.heads && m3.heads[g].(rc := 0) == m0.heads[g].(rc := 0)
    requires forall k :: k in m0.vars && k.Elem? ==> k in m3.vars && m3.vars[k] == m0.vars[k]
    ensures Reach(m0, a, h)
  {
    var path :| Path(m3, path) && path[0] == a && path[|path| - 1] == h;
    PathBack(m0, m3, path, |path| - 1);
    assert path[..|path|] == path;
  }

  lemma {:induction false} PathBack(m0: Mem, m3: Mem, path: seq<nat>, k: nat)
    requires ElemsMatch(m0) && RefsMatch(m0, {}) && ElemsMatch(m3) && Path(m3, path) && k < |path|
    requires path[0] in m0.heads
    requires forall g :: g in m0.heads ==> g in m3.heads && m3.heads[g].(rc := 0) == m0.heads[g].(rc := 0)
    requires forall l :: l in m0.vars && l.Elem? ==> l in m3.vars && m3.vars[l] == m0.vars[l]
    ensures Path(m0, path[..k + 1]) && path[k] in m0.heads
  {
    if k > 0 {
      PathBack(m0, m3, path, k - 1);
      assert Links(m3, path[k - 1], path[k - 1 + 1]);
      var i: nat :| Elem(path[k - 1], i) in m3.vars && m3.vars[Elem(path[k - 1], i)].Refers(path[k]);
      assert Elem(path[k - 1], i) in m0.vars && m0.vars[Elem(path[k - 1], i)].Refers(path[k]);
      assert Links(m0, path[k - 1], path[k]);
    }
  }

  lemma ShallowFrees(m0: Mem, m': Mem, dest: Loc, v: Var)
    requires dest in m0.vars && (dest.Elem? ==> m0.vars[dest] == Null)
    requires FreedFrom(m0, m', Placed(m0, dest, v, dest), m0.vars[dest])
    ensures FreedFrom(m0, m', m0, m0.vars[dest])
  {
    hide Reach;
    if dest.Root? {
      FreedSub(m0, m', Placed(m0, dest, v, dest), m0, m0.vars[dest]);
    }
  }

  lemma ShallowCopy(m0: Mem, rank: map<nat, nat>, src: Loc, dest: Loc, m': Mem)
    requires Closed(m0) && Acyclic(m0, rank) && src in m0.vars && dest in m0.vars && DeepValues.Fits(m0, m0.vars[src])
    requires !m0.vars[src].Ref? || m0.vars[src].isIndex
    requires Updated(m0, m', dest, m0.vars[src], dest) && Closed(m')
    requires !m0.vars[dest].Ref? ==> m'.vars.Keys == m0.vars.Keys && m'.heads.Keys == m0.heads.Keys
    requires dest.Elem? ==> !m0.vars[dest].Ref?
    ensures dest in m'.vars && Acyclic(m', rank) && Extends(rank, rank, m0.heads.Keys)
    ensures Copy(m0, rank, m0.vars[src], m', rank, m'.vars[dest], m'.heads.Keys - m0.heads.Keys)
    ensures !m0.vars[dest].Ref? ==> Grown(m0, m', dest)
    ensures forall k :: k in m0.vars && k.Root? && k != dest ==> k in m'.vars && m'.vars[k] == m0.vars[k]
    ensures Kept(m0, m', {dest}, {})
  {
    assert Contains(m'.vars[dest]) ==> false;
    assert DeepValues.Fits(m', m'.vars[dest]);
  }

  /** The package behind an index held outside every package stays, with all its elements. */
  lemma TargetStays(m: Mem, m': Mem, dest: Loc)
    requires Inv(m, {}, {}) && Inv(m', {}, {}) && dest in m.vars && dest in m'.vars
    requires m.vars[dest].Ref? && m'.vars[dest] == m.vars[dest] && m.vars[dest].kind.PackageKind?
    requires Elem(m.vars[dest].head, m.vars[dest].at) in m.vars
    requires forall h :: h in m'.heads && h in m.heads ==> m'.heads[h].(rc := 0) == m.heads[h].(rc := 0)
    ensures Elem(m.vars[dest].head, m.vars[dest].at) in m'.vars
  {
    assert m.vars[dest].head in m.heads && m.vars[dest].head in m'.heads;
  }

  lemma StoreUpdates(m0: Mem, m1: Mem, m2: Mem, m3: Mem, e: Loc, src: Loc, copy: Loc)
    requires copy.Root? && copy !in m0.vars && e in m0.vars && e.Elem? && src in m0.vars
    requires Updated(Put(m0, copy, Null), m1, copy, m0.vars[src], copy)
    requires copy in m1.vars && Updated(m1, m2, e, m1.vars[copy], e) && Shrunk(m2, m3, copy)
    ensures Updated(m0, m3.(vars := m3.vars - {copy}), e, m0.vars[src], e)
  {
  }

  lemma StoreFrees(m0: Mem, m1: Mem, m2: Mem, m3: Mem, e: Loc, src: Loc, copy: Loc)
    requires copy.Root? && copy !in m0.vars && e in m0.vars && e.Elem? && src in m0.vars
    requires Inv(m0, {}, {}) && Inv(m1, {}, {}) && Inv(m2, {}, {}) && Inv(m3, {}, {})
    requires Updated(Put(m0, copy, Null), m1, copy, m0.vars[src], copy)
    requires FreedFrom(Put(m0, copy, Null), m1, Placed(Put(m0, copy, Null), copy, m0.vars[src], copy), Null)
    requires copy in m1.vars && e in m1.vars && Updated(m1, m2, e, m1.vars[copy], e)
    requires FreedFrom(m1, m2, Placed(m1, e, m1.vars[copy], e), m1.vars[e])
    requires copy in m2.vars && Shrunk(m2, m3, copy) && FreedFrom(m2, m3, m2, m2.vars[copy]) && e in m3.vars
    ensures FreedFrom(m0, m3, Placed(m0, e, m0.vars[src], e), m0.vars[e])
  {
    hide Inv, Reach, SubLinks, FreedFrom;
    StoreLast(m2, m3, e, copy);
    StoreLinks(m0, m1, e, src, copy);
    FreedSub(m1, m2, Placed(m1, e, m0.vars[src], e), Placed(m0, e, m0.vars[src], e), m0.vars[e]);
    StoreFirst(m0, m1, Placed(Put(m0, copy, Null), copy, m0.vars[src], copy), copy);
    StoreFreed(m0, m1, m2, m3, Placed(m0, e, m0.vars[src], e), m0.vars[e]);
  }

  /** Filling the empty temporary frees nothing. */
  lemma StoreFirst(m0: Mem, m1: Mem, mid: Mem, copy: Loc)
    requires FreedFrom(Put(m0, copy, Null), m1, mid, Null)
    ensures m0.heads.Keys <= m1.heads.Keys
  {
  }

  /** Dropping the temporary frees nothing, since the element holds the same value. */
  lemma StoreLast(m2: Mem, m3: Mem, e: Loc, copy: Loc)
    requires Inv(m2, {}, {}) && Inv(m3, {}, {}) && copy.Root? && e.Elem? && copy in m2.vars && e in m2.vars
    requires Shrunk(m2, m3, copy) && FreedFrom(m2, m3, m2, m2.vars[copy]) && e in m3.vars && m2.vars[e] == m2.vars[copy]
    ensures m3.heads.Keys == m2.heads.Keys
  {
    hide Reach, Exact, Alive;
    var v := m2.vars[copy];
    assert m3.vars[e] == v;
    forall h | h in m2.heads ensures h in m3.heads {
      if h !in m3.heads {
        ReachAlive(m2, m3, copy, v.head, h);
      }
    }
  }

  lemma StoreLinks(m0: Mem, m1: Mem, e: Loc, src: Loc, copy: Loc)
    requires copy.Root? && copy !in m0.vars && e in m0.vars && e.Elem? && src in m0.vars
    requires Updated(Put(m0, copy, Null), m1, copy, m0.vars[src], copy)
    ensures SubLinks(Placed(m1, e, m0.vars[src], e), Placed(m0, e, m0.vars[src], e))
  {
  }

  lemma StoreFreed(m0: Mem, m1: Mem, m2: Mem, m3: Mem, mid: Mem, v: Var)
    requires m0.heads.Keys <= m1.heads.Keys
    requires FreedFrom(m1, m2, mid, v) && m3.heads.Keys == m2.heads.Keys
    ensures FreedFrom(m0, m3, mid, v)
  {
    hide Reach;
  }

  lemma MoveUpdates(m0: Mem, m2: Mem, dest: Loc, src: Loc, t: Loc)
    requires dest in m0.vars && src in m0.vars && t !in m0.vars && t.Root?
    requires var m1 := Swapped(Swapped(Put(m0, t, Null), t, src), t, dest);
             Shrunk(m1, m2, t) && t in m2.vars && (!m1.vars[t].Ref? ==> m2 == Put(m1, t, Null))
    ensures var m3 := m2.(vars := m2.vars - {t});
            && Updated(m0, m3, dest, m0.vars[src], src)
            && (!m0.vars[dest].Ref? ==> m3.vars.Keys == m0.vars.Keys && m3.heads == m0.heads)
  {
  }

  lemma MoveFrees(m0: Mem, m1: Mem, m2: Mem, dest: Loc, src: Loc, t: Loc)
    requires dest in m0.vars && src in m0.vars && t !in m0.vars && t.Root?
    requires m1 == Swapped(Swapped(Put(m0, t, Null), t, src), t, dest)
    requires FreedFrom(m1, m2, m1, m1.vars[t]) && (dest == src ==> m2.heads == m1.heads)
    ensures FreedFrom(m0, m2, Placed(m0, dest, m0.vars[src], src), m0.vars[dest])
  {
    hide Reach;
    if dest != src {
      FreedSub(m1, m2, m1, Placed(m0, dest, m0.vars[src], src), m1.vars[t]);
    }
  }

  lemma AssignFrees(m0: Mem, m2: Mem, m3: Mem, dest: Loc, src: Loc, t: Loc)
    requires dest in m0.vars && src in m0.vars && t !in m0.vars && t.Root?
    requires m0.vars[src].Ref? ==> m0.vars[src].head in m0.heads
    requires m2 == Copied(Put(m0, t, Null), t, m0.vars[src])
    requires FreedFrom(m2, m3, Placed(m2, dest, m0.vars[src], t), m0.vars[dest])
    ensures FreedFrom(m0, m3, Placed(m0, dest, m0.vars[src], dest), m0.vars[dest])
  {
    hide Reach;
    FreedSub(m2, m3, Placed(m2, dest, m0.vars[src], t), Placed(m0, dest, m0.vars[src], dest), m0.vars[dest]);
  }

  lemma AssignUpdates(m0: Mem, m2: Mem, m3: Mem, dest: Loc, src: Loc, t: Loc)
    requires dest in m0.vars && src in m0.vars && t !in m0.vars && t.Root?
    requires m0.vars[src].Ref? ==> m0.vars[src].head in m0.heads
    requires m2 == Copied(Put(m0, t, Null), t, m0.vars[src])
    requires Updated(m2, m3, dest, m0.vars[src], t)
    ensures Updated(m0, m3.(vars := m3.vars - {t}), dest, m0.vars[src], dest)
  {
  }

  /** Outside package `p` only heads without a reference, and their elements, are gone. */
  ghost predicate Around(m: Mem, m': Mem, p: nat) {
    && (forall k :: k in m'.vars && !(k.Elem? && k.pkg == p) ==> k in m.vars && m'.vars[k] == m.vars[k])
    && (forall h :: h in m'.heads && h != p ==> h in m.heads && m'.heads[h].(rc := 0) == m.heads[h].(rc := 0))
  }

  lemma AroundTwice(m: Mem, m1: Mem, m2: Mem, p: nat)
    requires ShrunkExcept(m, m1, p) && Around(m1, m2, p)
    ensures Around(m, m2, p)
  {
  }

  lemma ResizedSlots(m: Mem, p: nat, n: nat)
    requires Inv(m, {}, {}) && p in m.heads && m.heads[p].kind.PackageKind?
    ensures var m' := Resized(m, p, n);
            && Around(m, m', p)
            && m'.heads.Keys == m.heads.Keys && p in m'.heads && m'.heads[p].size == n
            && (forall k :: k in m.vars && k.Root? ==> k in m'.vars && m'.vars[k] == m.vars[k])
            && (forall i :: 0 <= i < n ==> Elem(p, i) in m'.vars)
            && (forall i :: 0 <= i < n && i < m.heads[p].size ==>
                  (Elem(p, i) in m.vars && m'.vars[Elem(p, i)] == m.vars[Elem(p, i)]))
            && (forall i :: m.heads[p].size <= i < n ==> m'.vars[Elem(p, i)] == Null)
  {
  }

  lemma RootFacts(m: Mem, l: Loc)
    requires Inv(m, {}, {}) && l in m.vars && Contains(m.vars[l])
    ensures var p := m.vars[l].head;
            && p in m.heads && m.heads[p].kind.PackageKind?
            && forall j :: 0 <= j < m.heads[p].size ==> Elem(p, j) in m.vars
  {
  }

  lemma AnchorSafe(m: Mem, l: Loc, i: nat)
    requires l.Root? && l in m.vars && m.vars[l].Ref?
    ensures Safe(m, {}, {}, Elem(m.vars[l].head, i))
  {
    assert m.vars[l].Refers(m.vars[l].head);
  }

  lemma WroteBytes(m: Mem, h: nat, bytes: seq<int>)
    requires Inv(m, {}, {}) && h in m.heads
    ensures Inv(m.(heads := m.heads[h := m.heads[h].(bytes := bytes)]), {}, {})
  {
    var m' := m.(heads := m.heads[h := m.heads[h].(bytes := bytes)]);
    forall g | g in m'.heads ensures m'.heads[g].rc == |Counted(m', {}, g)| {
      assert Counted(m', {}, g) == Counted(m, {}, g);
    }
  }

  lemma CopyIsFresh(m: Mem, rank: map<nat, nat>, v: Var, m1: Mem, rank1: map<nat, nat>, v1: Var)
    requires Closed(m) && Acyclic(m, rank) && DeepValues.Fits(m, v)
    requires Copy(m, rank, v, m1, rank1, v1, m1.heads.Keys - m.heads.Keys)
    ensures Contains(v1) ==> v1.head !in m.heads
  {
  }

  lemma StoreNowhere(m: Mem, rank: map<nat, nat>, v: Var, m': Mem, ds: set<Loc>)
    requires Closed(m) && Acyclic(m, rank) && DeepValues.Fits(m, v) && forall d :: d in ds ==> d.Root?
    requires Closed(m') && DeepValues.Fits(m', v) && Kept(m, m', ds, {})
    ensures Unchanged(m, rank, v, m')
  {
    WithinAll(m, rank, v);
    KeptUnchanged(m, rank, v, m', ds, {}, m.heads.Keys);
  }

  lemma SameLinks(m': Mem, m: Mem)
    requires m'.vars == m.vars
    ensures SubLinks(m', m)
  {
  }

  lemma SubOfShrunk(m: Mem, m': Mem, p: nat)
    requires ShrunkExcept(m, m', p)
    ensures SubLinks(m', m)
  {
  }

  lemma FreedSame(m: Mem, m1: Mem, m2: Mem, p: nat)
    requires FreedUnder(m, m1, p) && m2.heads.Keys == m1.heads.Keys
    ensures FreedUnder(m, m2, p)
  {
    hide Reach;
  }

  lemma FreedSelf(m: Mem, m1: Mem, m2: Mem, p: nat)
    requires FreedUnder(m, m1, p) && m2.heads == m1.heads - {p}
    ensures FreedUnder(m, m2, p)
  {
    ReachSelf(m, p);
  }

  lemma ReachAll(m': Mem, m: Mem, last: Mem, h: nat)
    requires SubLinks(m', m) && FreedUnder(m', last, h)
    ensures forall g :: g in m'.heads && g !in last.heads ==> Reach(m, h, g)
  {
    hide Reach, SubLinks;
    forall g | g in m'.heads && g !in last.heads ensures Reach(m, h, g) {
      ReachSub(m', m, h, g);
    }
  }
}
