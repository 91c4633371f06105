/**
 Names and paths of the ACPI namespace: the two resolvers and the two printers.  A tree's children are
 the per-parent maps that the namespace keeps; the tables behind them are modelled elsewhere.
 */
module Paths {
  import opened Util

  const ROOT := '\\'
  const PARENT := '^'
  const DUAL := '.'
  const MULTI := '/'

  datatype Kind = Root | Alias(target: nat) | Other
  datatype Node = Node(name: Name, parent: Option<nat>, kind: Kind)
  datatype Tree = Tree(root: nat, nodes: map<nat, Node>, children: map<nat, map<Name, nat>>)

  datatype Outcome = Found(node: nat) | Missing | Stopped

  function Child(t: Tree, n: nat, name: Name): Option<nat> {
    if n in t.children && name in t.children[n] then Some(t.children[n][name]) else None
  }

  predicate IsAlias(t: Tree, n: nat) { n in t.nodes && t.nodes[n].kind.Alias? }

  /** Parents lead to the root, children know their parent and name, aliases lead to nodes. */
  ghost predicate Rooted(t: Tree, depth: map<nat, nat>) {
    && t.root in t.nodes && t.nodes[t.root].kind.Root?
    && (forall n :: n in t.nodes ==> n in depth && (t.nodes[n].parent.None? <==> n == t.root))
    && (forall n :: n in t.nodes && t.nodes[n].parent.Some? ==>
          t.nodes[n].parent.value in t.nodes && depth[n] == depth[t.nodes[n].parent.value] + 1)
    && (forall n, s :: n in t.nodes && Child(t, n, s).Some? ==>
          var c := Child(t, n, s).value; c in t.nodes && t.nodes[c].parent == Some(n) && t.nodes[c].name == s)
    && (forall n :: IsAlias(t, n) ==> t.nodes[n].kind.target in t.nodes)
  }

  /** lai_is_name, which also accepts the four prefix characters. */
  predicate IsName(c: char) {
    '0' <= c <= '9' || 'A' <= c <= 'Z' || c == '_' || c == ROOT || c == PARENT || c == MULTI || c == DUAL
  }

  predicate AllNames(s: string) { forall i :: 0 <= i < |s| ==> IsName(s[i]) }

  // ------------------------------------------------------------------------------- common steps

  /** Climbing stops at the root. */
  function Up(t: Tree, n: nat, height: nat): nat
    decreases height
  {
    if height == 0 || n !in t.nodes || t.nodes[n].parent.None? then n else Up(t, t.nodes[n].parent.value, height - 1)
  }

  /** An alias is followed once; its target must not be an alias. */
  function Follow(t: Tree, n: nat): Outcome {
    if !IsAlias(t, n) then Found(n)
    else if IsAlias(t, t.nodes[n].kind.target) then Stopped
    else Found(t.nodes[n].kind.target)
  }

  // ---------------------------------------------------------------------------- encoded names

  datatype AmlName = AmlName(isAbsolute: bool, height: nat, segments: seq<Name>)

  /** Single relative segments are searched for in the enclosing scopes. */
  predicate SearchScopes(a: AmlName) { !a.isAbsolute && a.height == 0 && |a.segments| == 1 }

  /** Children named one after the other; only the last may be an alias that is followed. */
  function DescendPlain(t: Tree, n: nat, segments: seq<Name>): Outcome
    decreases |segments|
  {
    if segments == [] then Found(n)
    else if Child(t, n, segments[0]).None? then Missing
    else DescendPlain(t, Child(t, n, segments[0]).value, segments[1..])
  }

  function Start(t: Tree, context: nat, a: AmlName): nat {
    Up(t, if a.isAbsolute then t.root else context, a.height)
  }

  ghost function SearchUp(t: Tree, depth: map<nat, nat>, n: nat, name: Name): Outcome
    requires Rooted(t, depth) && n in t.nodes
    decreases depth[n]
  {
    if Child(t, n, name).Some? then Follow(t, Child(t, n, name).value)
    else if t.nodes[n].parent.None? then Missing
    else SearchUp(t, depth, t.nodes[n].parent.value, name)
  }

  /** What an encoded name denotes in a context. */
  ghost function AmlResolve(t: Tree, depth: map<nat, nat>, context: nat, a: AmlName): Outcome
    requires Rooted(t, depth) && context in t.nodes
  {
    if IsAlias(t, context) then Stopped
    else if SearchScopes(a) then SearchUp(t, depth, context, a.segments[0])
    else if a.segments == [] then Found(Start(t, context, a))
    else
      var end := DescendPlain(t, Start(t, context, a), a.segments);
      if end.Found? then Follow(t, end.node) else end
  }

  /** lai_do_resolve. */
  method DoResolve(t: Tree, ghost depth: map<nat, nat>, context: nat, a: AmlName) returns (r: Outcome)
    requires Rooted(t, depth) && context in t.nodes
    ensures r == AmlResolve(t, depth, context, a)
  {
    var current := context;
    if t.nodes[current].kind.Alias? {
      return Stopped;
    }
    if SearchScopes(a) {
      r := SearchScope(t, depth, current, a.segments[0]);
      return;
    }
    if a.isAbsolute {
      current := ToRoot(t, depth, current);
    }
    current := Climb(t, depth, current, a.height);
    if a.segments == [] {
      return Found(current);
    }
    ghost var start := current;
    var i := 0;
    while i < |a.segments|
      invariant 0 <= i <= |a.segments| && current in t.nodes
      invariant DescendPlain(t, start, a.segments) == DescendPlain(t, current, a.segments[i..])
    {
      assert a.segments[i..][1..] == a.segments[i + 1..];
      if Child(t, current, a.segments[i]).None? {
        return Missing;
      }
      current := Child(t, current, a.segments[i]).value;
      i := i + 1;
    }
    r := Follow(t, current);
  }

  method SearchScope(t: Tree, ghost depth: map<nat, nat>, context: nat, name: Name) returns (r: Outcome)
    requires Rooted(t, depth) && context in t.nodes
    ensures r == SearchUp(t, depth, context, name)
  {
    var current := Some(context);
    while current.Some?
      invariant current.Some? ==> current.value in t.nodes
                                  && SearchUp(t, depth, context, name) == SearchUp(t, depth, current.value, name)
      invariant current.None? ==> SearchUp(t, depth, context, name) == Missing
      decreases if current.Some? then depth[current.value] + 1 else 0
    {
      var child := Child(t, current.value, name);
      if child.Some? {
        return Follow(t, child.value);
      }
      current := t.nodes[current.value].parent;
    }
    r := Missing;
  }

  method ToRoot(t: Tree, ghost depth: map<nat, nat>, context: nat) returns (current: nat)
    requires Rooted(t, depth) && context in t.nodes
    ensures current == t.root && t.nodes[current].kind.Root?
  {
    current := context;
    while t.nodes[current].parent.Some?
      invariant current in t.nodes
      decreases depth[current]
    {
      current := t.nodes[current].parent.value;
    }
  }

  method Climb(t: Tree, ghost depth: map<nat, nat>, context: nat, height: nat) returns (current: nat)
    requires Rooted(t, depth) && context in t.nodes
    ensures current == Up(t, context, height) && current in t.nodes
  {
    current := context;
    for i := 0 to height
      invariant current in t.nodes && Up(t, context, height) == Up(t, current, height - i)
    {
      if t.nodes[current].parent.None? {
        return;
      }
      current := t.nodes[current].parent.value;
    }
  }

  /** A scope search answers from the nearest enclosing scope that has the name, and misses only if none has. */
  lemma {:induction false} NearestScope(t: Tree, depth: map<nat, nat>, n: nat, name: Name, k: nat)
    requires Rooted(t, depth) && n in t.nodes && k <= depth[n]
    requires forall j :: 0 <= j < k ==> Child(t, Up(t, n, j), name).None?
    ensures Child(t, Up(t, n, k), name).Some? ==>
              SearchUp(t, depth, n, name) == Follow(t, Child(t, Up(t, n, k), name).value)
    ensures Up(t, n, k) == t.root && Child(t, t.root, name).None? ==> SearchUp(t, depth, n, name) == Missing
    decreases k
  {
    assert Up(t, n, 0) == n;
    if k > 0 && n != t.root {
      var p := t.nodes[n].parent.value;
      forall j | 0 <= j < k - 1 ensures Child(t, Up(t, p, j), name).None? {
        assert Up(t, n, j + 1) == Up(t, p, j);
      }
      NearestScope(t, depth, p, name, k - 1);
    }
  }

  /** Climbing: `k` steps up from a node lead to its ancestor `k` levels above it, and to the root beyond. */
  lemma {:induction false} UpIsAncestor(t: Tree, depth: map<nat, nat>, n: nat, k: nat)
    requires Rooted(t, depth) && n in t.nodes
    ensures var a := Up(t, n, k);
            && a in t.nodes && Ancestor(t, a, n, if depth[n] - depth[t.root] < k then depth[n] - depth[t.root] else k)
            && depth[t.root] <= depth[n]
            && depth[a] == (if depth[n] - depth[t.root] < k then depth[t.root] else depth[n] - k)
            && (depth[n] - depth[t.root] <= k ==> a == t.root)
    decreases depth[n], k
  {
    hide Rooted;
    RootIsLeast(t, depth, n);
    ParentAbove(t, depth, n);
    if k > 0 && n != t.root {
      UpIsAncestor(t, depth, t.nodes[n].parent.value, k - 1);
    }
  }

  lemma ParentAbove(t: Tree, depth: map<nat, nat>, n: nat)
    requires Rooted(t, depth) && n in t.nodes
    ensures n in depth && t.root in depth && (t.nodes[n].parent.None? <==> n == t.root)
    ensures n != t.root ==>
              var p := t.nodes[n].parent.value; p in t.nodes && p in depth && depth[n] == depth[p] + 1
  {
  }

  lemma {:induction false} RootIsLeast(t: Tree, depth: map<nat, nat>, n: nat)
    requires Rooted(t, depth) && n in t.nodes
    ensures depth[t.root] <= depth[n] && (depth[n] == depth[t.root] ==> n == t.root)
    decreases depth[n]
  {
    if n != t.root {
      RootIsLeast(t, depth, t.nodes[n].parent.value);
    }
  }

  /** `a` is reached from `n` by exactly `k` parent links. */
  predicate Ancestor(t: Tree, a: nat, n: nat, k: int)
    decreases k
  {
    if k <= 0 then k == 0 && a == n
    else n in t.nodes && t.nodes[n].parent.Some? && Ancestor(t, a, t.nodes[n].parent.value, k - 1)
  }

  /** A single name without prefix resolves to the child, its alias followed, of the nearest enclosing scope that
      has the name: the `k`-th scope up, if the nearer ones lack it. */
  lemma PlainNameFound(t: Tree, depth: map<nat, nat>, context: nat, name: Name, k: nat)
    requires Rooted(t, depth) && context in t.nodes && !IsAlias(t, context)
    requires forall j :: 0 <= j < k ==> Child(t, Up(t, context, j), name).None?
    requires Child(t, Up(t, context, k), name).Some?
    ensures AmlResolve(t, depth, context, AmlName(false, 0, [name]))
            == Follow(t, Child(t, Up(t, context, k), name).value)
  {
    Shorter(t, depth, context, name, k);
    NearestScope(t, depth, context, name, k);
  }

  /** It is missing if and only if no enclosing scope has it. */
  lemma PlainNameMissing(t: Tree, depth: map<nat, nat>, context: nat, name: Name)
    requires Rooted(t, depth) && context in t.nodes && !IsAlias(t, context)
    ensures AmlResolve(t, depth, context, AmlName(false, 0, [name])) == Missing
            <==> forall j: nat :: Child(t, Up(t, context, j), name).None?
  {
    hide Rooted, AmlResolve, Up, Follow, Child;
    if j: nat :| Child(t, Up(t, context, j), name).Some? {
      var k := FirstWith(t, context, name, j);
      PlainNameFound(t, depth, context, name, k);
      FollowFinds(t, Child(t, Up(t, context, k), name).value);
    } else {
      PlainNameNowhere(t, depth, context, name);
    }
  }

  lemma FollowFinds(t: Tree, n: nat)
    ensures Follow(t, n) != Missing
  {
  }

  lemma PlainNameNowhere(t: Tree, depth: map<nat, nat>, context: nat, name: Name)
    requires Rooted(t, depth) && context in t.nodes && !IsAlias(t, context)
    requires forall j: nat :: Child(t, Up(t, context, j), name).None?
    ensures AmlResolve(t, depth, context, AmlName(false, 0, [name])) == Missing
  {
    hide Up, Child;
    RootIsLeast(t, depth, context);
    var top := depth[context] - depth[t.root];
    UpIsAncestor(t, depth, context, top);
    NearestScope(t, depth, context, name, top);
  }

  /** The nearest scope with the name lies within the context's depth. */
  lemma Shorter(t: Tree, depth: map<nat, nat>, n: nat, name: Name, k: nat)
    requires Rooted(t, depth) && n in t.nodes
    requires forall j :: 0 <= j < k ==> Child(t, Up(t, n, j), name).None?
    requires Child(t, Up(t, n, k), name).Some?
    ensures k <= depth[n]
  {
    UpIsAncestor(t, depth, n, k);
    UpIsAncestor(t, depth, n, depth[n]);
  }

  lemma {:induction false} FirstWith(t: Tree, n: nat, name: Name, j: nat) returns (k: nat)
    requires Child(t, Up(t, n, j), name).Some?
    ensures Child(t, Up(t, n, k), name).Some? && forall i :: 0 <= i < k ==> Child(t, Up(t, n, i), name).None?
    decreases j
  {
    if i: nat :| i < j && Child(t, Up(t, n, i), name).Some? {
      k := FirstWith(t, n, name, i);
    } else {
      k := j;
    }
  }

  /** An absolute name, a name with carets and a name of several segments are not searched for: they denote what
      the descent from their start denotes, in every context with that start. */
  lemma PrefixedName(t: Tree, depth: map<nat, nat>, context: nat, a: AmlName)
    requires Rooted(t, depth) && context in t.nodes && !IsAlias(t, context)
    requires a.isAbsolute || a.height > 0 || |a.segments| != 1
    ensures AmlResolve(t, depth, context, a) ==
            var end := DescendPlain(t, Start(t, context, a), a.segments);
            if end.Found? && a.segments != [] then Follow(t, end.node) else end
  {
  }

  // -------------------------------------------------------------------------------- textual paths

  /** Length of the next segment: at most four name characters. */
  function SegmentLength(path: string, limit: nat): (k: nat)
    ensures k <= limit && k <= |path|
  {
    if limit == 0 || path == "" || !IsName(path[0]) then 0 else 1 + SegmentLength(path[1..], limit - 1)
  }

  function Pad(s: string): Name
    requires |s| <= 4
  {
    s + seq(4 - |s|, _ => '_')
  }

  /** The segment loop of lai_resolve_path: aliases are followed at every segment.  After a trailing dot
      it looks up the padded empty segment. */
  function DescendText(t: Tree, n: nat, path: string): Outcome
    decreases |path|
  {
    var k := SegmentLength(path, 4);
    var child := Child(t, n, Pad(path[..k]));
    if child.None? then Missing
    else
      var next := Follow(t, child.value);
      if !next.Found? || k == |path| then next
      else if path[k] != '.' then Stopped
      else DescendText(t, next.node, path[k + 1..])
  }

  /** Number of leading parent characters. */
  function Carets(path: string): (k: nat)
    ensures k <= |path|
  {
    if path == "" || path[0] != PARENT then 0 else 1 + Carets(path[1..])
  }

  /** What a path denotes in a context. */
  function TextResolve(t: Tree, context: Option<nat>, path: string): Outcome {
    var here := if context.Some? then context.value else t.root;
    if path != "" && path[0] == ROOT then
      if |path| == 1 then Found(t.root) else DescendText(t, t.root, path[1..])
    else
      var n := Up(t, here, Carets(path));
      if Carets(path) == |path| then Found(n) else DescendText(t, n, path[Carets(path)..])
  }

  /** lai_resolve_path.  Reading at the end of the path gives the terminator, which is no name character. */
  method ResolvePath(t: Tree, ghost depth: map<nat, nat>, context: Option<nat>, path: string) returns (r: Outcome)
    requires Rooted(t, depth) && (context.Some? ==> context.value in t.nodes)
    ensures r == TextResolve(t, context, path)
  {
    var current := if context.Some? then context.value else t.root;
    var at := 0;
    if path != "" && path[0] == ROOT {
      current := ToRoot(t, depth, current);
      at := 1;
    } else {
      while at < |path| && path[at] == PARENT
        invariant 0 <= at <= |path| && Carets(path) == at + Carets(path[at..])
      {
        at := at + 1;
      }
      current := Climb(t, depth, current, at);
    }
    if at == |path| {
      return Found(current);
    }
    r := Segments(t, depth, current, path[at..]);
  }

  lemma StepInside(t: Tree, depth: map<nat, nat>, n: nat, name: Name)
    requires Rooted(t, depth) && n in t.nodes && Child(t, n, name).Some?
    ensures Child(t, n, name).value in t.nodes
    ensures Follow(t, Child(t, n, name).value).Found? ==> Follow(t, Child(t, n, name).value).node in t.nodes
    ensures !Follow(t, Child(t, n, name).value).Missing?
  {
  }

  method Segments(t: Tree, ghost depth: map<nat, nat>, start: nat, path: string) returns (r: Outcome)
    requires Rooted(t, depth) && start in t.nodes && path != ""
    ensures r == DescendText(t, start, path)
  {
    hide Rooted, Pad, SegmentLength, Follow, Child, AllNames;
    var current, at := start, 0;
    while true
      invariant 0 <= at <= |path| && current in t.nodes
      invariant DescendText(t, start, path) == DescendText(t, current, path[at..])
      decreases |path| - at
    {
      var segment := ReadSegment(path, at);
      assert path[at..][|segment|..] == path[at + |segment|..];
      at := at + |segment|;
      var child := Child(t, current, Pad(segment));
      if child.None? {
        return Missing;
      }
      StepInside(t, depth, current, Pad(segment));
      var next := Follow(t, child.value);
      if next.Stopped? {
        return Stopped;
      }
      current := next.node;
      if at == |path| {
        return Found(current);
      }
      if path[at] != '.' {
        return Stopped;
      }
      assert path[at..][1..] == path[at + 1..];
      at := at + 1;
    }
  }

  method ReadSegment(path: string, at: nat) returns (segment: string)
    requires at <= |path|
    ensures segment == path[at..][..SegmentLength(path[at..], 4)]
  {
    ghost var rest := path[at..];
    segment := "";
    while |segment| < 4
      invariant |segment| <= 4 && |segment| <= |rest| && segment == rest[..|segment|]
      invariant SegmentLength(rest, 4) == |segment| + SegmentLength(rest[|segment|..], 4 - |segment|)
    {
      if at + |segment| == |path| || !IsName(path[at + |segment|]) {
        break;
      }
      assert rest[|segment|..][1..] == rest[|segment| + 1..];
      segment := segment + [path[at + |segment|]];
    }
  }
}
