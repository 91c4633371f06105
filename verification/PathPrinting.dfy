/** Printing of names and nodes, and what resolving the printed text gives. */
module PathPrinting {
  import opened Util
  import opened Paths

  function CaretRun(n: nat): string { seq(n, _ => PARENT) }

  function Join(segments: seq<Name>): string {
    if segments == [] then "" else if |segments| == 1 then segments[0]
    else segments[0] + "." + Join(segments[1..])
  }

  function Head(a: AmlName): string { (if a.isAbsolute then [ROOT] else "") + CaretRun(a.height) }

  /** The printed form of a name. */
  function Print(a: AmlName): string { Head(a) + Join(a.segments) }

  // ----------------------------------------------------------------------------------- printers

  /** Segments with a dot behind each. */
  function Dotted(segments: seq<Name>): string {
    if segments == [] then "" else Dotted(segments[..|segments| - 1]) + segments[|segments| - 1] + "."
  }

  lemma {:induction false} DottedFront(segments: seq<Name>)
    requires segments != []
    ensures Dotted(segments) == segments[0] + "." + Dotted(segments[1..])
  {
    if |segments| > 1 {
      DottedFront(segments[..|segments| - 1]);
      assert segments[..|segments| - 1][1..] == segments[1..][..|segments| - 2];
    }
  }

  lemma {:induction false} JoinDotted(segments: seq<Name>)
    requires segments != []
    ensures Join(segments) == Dotted(segments[..|segments| - 1]) + segments[|segments| - 1]
  {
    if |segments| > 1 {
      JoinDotted(segments[1..]);
      DottedFront(segments[..|segments| - 1]);
      assert segments[..|segments| - 1][1..] == segments[1..][..|segments| - 2];
    }
  }

  lemma {:induction false} DottedLength(segments: seq<Name>)
    ensures |Dotted(segments)| == 5 * |segments|
  {
    if segments != [] {
      DottedLength(segments[..|segments| - 1]);
    }
  }

  function MaxLength(a: AmlName): nat { 1 + a.height + |a.segments| * 5 + 1 }

  /** lai_stringify_amlname: the text and its terminator fit the buffer. */
  method StringifyAmlName(a: AmlName) returns (text: string)
    ensures text == Print(a) && |text| + 1 <= MaxLength(a)
  {
    hide Join, Dotted;
    var str := new char[MaxLength(a)];
    var n := 0;
    if a.isAbsolute {
      str[n] := ROOT;
      n := n + 1;
    }
    ghost var lead := n;
    for i := 0 to a.height
      invariant n == lead + i && str[..n] == Head(a)[..n]
    {
      str[n] := PARENT;
      n := n + 1;
    }
    n := PutSegments(str, n, a);
    str[n] := '\0';
    text := str[..n];
  }

  method PutSegments(str: array<char>, start: nat, a: AmlName) returns (n: nat)
    requires str.Length == MaxLength(a) && start == |Head(a)| && str[..start] == Head(a)
    modifies str
    ensures n < str.Length && str[..n] == Print(a)
  {
    hide Join, Dotted, Head;
    HeadLength(a);
    n := start;
    if a.segments == [] {
      JoinNone();
      return;
    }
    DottedNone();
    var i := 0;
    while true
      invariant 0 <= i < |a.segments| && n == start + 5 * i < str.Length
      invariant str[..n] == Head(a) + Dotted(a.segments[..i])
      decreases |a.segments| - i
    {
      PutSegment(str, n, a.segments[i]);
      n := n + 4;
      if i + 1 == |a.segments| {
        JoinDotted(a.segments);
        return;
      }
      DottedNext(a.segments, i);
      str[n] := '.';
      n := n + 1;
      i := i + 1;
    }
  }

  lemma JoinNone()
    ensures Join([]) == ""
  {
  }

  lemma DottedNone()
    ensures Dotted([]) == ""
  {
  }

  lemma HeadLength(a: AmlName)
    ensures |Head(a)| <= 1 + a.height
  {
  }

  lemma DottedNext(segments: seq<Name>, i: nat)
    requires i < |segments|
    ensures Dotted(segments[..i + 1]) == Dotted(segments[..i]) + segments[i] + "."
  {
    assert segments[..i + 1][..i] == segments[..i];
  }

  /** lai_amlname_iterate into the buffer. */
  method PutSegment(str: array<char>, n: nat, segment: Name)
    requires n + 4 <= str.Length
    modifies str
    ensures str[..n + 4] == old(str[..n]) + segment && str[n + 4..] == old(str[n + 4..])
  {
    for k := 0 to 4
      invariant str[..n + k] == old(str[..n]) + segment[..k] && str[n + 4..] == old(str[n + 4..])
    {
      str[n + k] := segment[k];
    }
  }

  // ----------------------------------------------------------------------------------- node paths

  /** Names on the way from the root. */
  ghost function PathOf(t: Tree, depth: map<nat, nat>, n: nat): seq<Name>
    requires Rooted(t, depth) && n in t.nodes
    decreases depth[n]
  {
    if n == t.root then [] else PathOf(t, depth, t.nodes[n].parent.value) + [t.nodes[n].name]
  }

  /** A dot before each segment. */
  function Led(segments: seq<Name>): string {
    if segments == [] then "" else Led(segments[..|segments| - 1]) + "." + segments[|segments| - 1]
  }

  lemma {:induction false} LedLength(segments: seq<Name>)
    ensures |Led(segments)| == 5 * |segments|
  {
    if segments != [] {
      LedLength(segments[..|segments| - 1]);
    }
  }

  lemma {:induction false} LedFront(segments: seq<Name>)
    requires segments != []
    ensures Led(segments) == "." + segments[0] + Led(segments[1..])
  {
    if |segments| > 1 {
      LedFront(segments[..|segments| - 1]);
      assert segments[..|segments| - 1][1..] == segments[1..][..|segments| - 2];
    }
  }

  lemma {:induction false} LedJoin(segments: seq<Name>)
    requires segments != []
    ensures Led(segments) == "." + Join(segments)
  {
    LedFront(segments);
    if |segments| > 1 {
      LedJoin(segments[1..]);
    }
  }

  /** lai_stringify_node_path: built from right to left; the counts match, so the assertion on the
      remaining room never fires. */
  method StringifyNodePath(t: Tree, ghost depth: map<nat, nat>, node: nat) returns (text: string)
    requires Rooted(t, depth) && node in t.nodes
    ensures text == [ROOT] + Join(PathOf(t, depth, node)) == Print(AmlName(true, 0, PathOf(t, depth, node)))
  {
    hide Led, Join, PathOf, Rooted, Print;
    PrintersAgree(t, depth, node);
    RootPath(t, depth, node);
    if t.nodes[node].parent.None? {
      JoinNone();
      return [ROOT];
    }
    LedJoin(PathOf(t, depth, node));
    LedLength(PathOf(t, depth, node));
    var segments := CountSegments(t, depth, node);
    var str := new char[segments * 5];
    FillPath(str, t, depth, node);
    ghost var all := str[..];
    str[0] := ROOT;
    text := str[..];
    assert text == [ROOT] + all[1..];
  }

  method FillPath(str: array<char>, t: Tree, ghost depth: map<nat, nat>, node: nat)
    requires Rooted(t, depth) && node in t.nodes && str.Length == 5 * |PathOf(t, depth, node)|
    modifies str
    ensures str[..] == Led(PathOf(t, depth, node))
  {
    hide Led, Join, PathOf, Rooted;
    LedLength([]);
    RootPath(t, depth, node);
    var n, current := str.Length, node;
    while t.nodes[current].parent.Some?
      invariant current in t.nodes && current in depth && n == 5 * |PathOf(t, depth, current)| <= str.Length
      invariant Led(PathOf(t, depth, node)) == Led(PathOf(t, depth, current)) + str[n..]
      decreases depth[current]
    {
      LedNext(t, depth, current);
      n := n - 4;
      CopyName(str, n, t.nodes[current].name);
      n := n - 1;
      ghost var tail := str[n + 1..];
      str[n] := '.';
      assert str[n..] == "." + tail;
      current := t.nodes[current].parent.value;
    }
    RootPath(t, depth, current);
  }

  /** lai_namecpy. */
  method CopyName(str: array<char>, n: nat, name: Name)
    requires n + 4 <= str.Length
    modifies str
    ensures str[n..] == name + old(str[n + 4..]) && str[..n] == old(str[..n])
  {
    str[n], str[n + 1], str[n + 2], str[n + 3] := name[0], name[1], name[2], name[3];
  }

  /** The two printers agree: a node's path is its absolute name, printed. */
  lemma PrintersAgree(t: Tree, depth: map<nat, nat>, n: nat)
    requires Rooted(t, depth) && n in t.nodes
    ensures Print(AmlName(true, 0, PathOf(t, depth, n))) == [ROOT] + Join(PathOf(t, depth, n))
  {
    assert CaretRun(0) == "";
  }

  lemma RootPath(t: Tree, depth: map<nat, nat>, n: nat)
    requires Rooted(t, depth) && n in t.nodes
    ensures t.nodes[n].parent.None? <==> n == t.root
    ensures PathOf(t, depth, n) == [] <==> n == t.root
    ensures n in depth
  {
  }

  lemma LedNext(t: Tree, depth: map<nat, nat>, n: nat)
    requires Rooted(t, depth) && n in t.nodes && t.nodes[n].parent.Some?
    ensures t.nodes[n].parent.Some? && t.nodes[n].parent.value in t.nodes
    ensures n in depth && t.nodes[n].parent.value in depth && depth[t.nodes[n].parent.value] < depth[n]
    ensures var p := PathOf(t, depth, t.nodes[n].parent.value);
            && |PathOf(t, depth, n)| == |p| + 1
            && Led(PathOf(t, depth, n)) == Led(p) + "." + t.nodes[n].name
  {
    var p := PathOf(t, depth, t.nodes[n].parent.value);
    assert (p + [t.nodes[n].name])[..|p|] == p;
  }

  method CountSegments(t: Tree, ghost depth: map<nat, nat>, node: nat) returns (segments: nat)
    requires Rooted(t, depth) && node in t.nodes
    ensures segments == |PathOf(t, depth, node)|
  {
    var current := node;
    segments := 0;
    while t.nodes[current].parent.Some?
      invariant current in t.nodes && segments + |PathOf(t, depth, current)| == |PathOf(t, depth, node)|
      decreases depth[current]
    {
      segments := segments + 1;
      current := t.nodes[current].parent.value;
    }
  }
}
