/** Printed paths lead back to their nodes, and the two resolvers agree. */
module PathTheorems {
  import opened Util
  import opened Paths
  import opened PathPrinting

  /** Textual resolution segment by segment: every alias on the way is followed. */
  function DescendSegments(t: Tree, n: nat, segments: seq<Name>): Outcome
    decreases |segments|
  {
    if segments == [] then Found(n)
    else if Child(t, n, segments[0]).None? then Missing
    else
      var next := Follow(t, Child(t, n, segments[0]).value);
      if next.Found? then DescendSegments(t, next.node, segments[1..]) else next
  }

  predicate Nameable(segments: seq<Name>) {
    forall i :: 0 <= i < |segments| ==> AllNames(segments[i])
  }

  // ------------------------------------------------------------------- text is read as its segments

  lemma {:induction false} WholeSegment(s: string, rest: string)
    requires AllNames(s)
    ensures SegmentLength(s + rest, |s|) == |s|
  {
    if s != "" {
      assert (s + rest)[1..] == s[1..] + rest;
      WholeSegment(s[1..], rest);
    }
  }

  lemma {:induction false} TextIsSegments(t: Tree, n: nat, segments: seq<Name>)
    requires segments != [] && Nameable(segments)
    ensures DescendText(t, n, Join(segments)) == DescendSegments(t, n, segments)
    decreases |segments|
  {
    var path := Join(segments);
    var rest := if |segments| == 1 then "" else "." + Join(segments[1..]);
    assert path == segments[0] + rest;
    WholeSegment(segments[0], rest);
    assert path[..4] == segments[0] == Pad(path[..4]);
    if |segments| > 1 && Child(t, n, segments[0]).Some? {
      var next := Follow(t, Child(t, n, segments[0]).value);
      assert path[4] == '.' && path[5..] == Join(segments[1..]);
      if next.Found? {
        TextIsSegments(t, next.node, segments[1..]);
      }
    }
  }

  /** A name shorter than four characters is padded at the end of a path; before a dot it is not, because
      the dot counts as a name character and becomes part of the segment. */
  lemma ShortSegment(s: string, rest: string)
    requires AllNames(s) && |s| < 4 && '.' !in s
    ensures s[..SegmentLength(s, 4)] == s
    ensures var path := s + "." + rest;
            '.' in path[..SegmentLength(path, 4)] && path[..SegmentLength(path, 4)] != s
  {
    ShortPrefix(s, "", 4);
    assert s + "" == s;
    var path := s + "." + rest;
    assert AllNames(s + ".");
    ShortPrefix(s + ".", rest, 4);
    assert path[|s|] == '.';
  }

  lemma {:induction false} ShortPrefix(s: string, rest: string, limit: nat)
    requires AllNames(s) && |s| <= limit
    ensures SegmentLength(s + rest, limit) >= |s|
  {
    if s != "" {
      assert (s + rest)[1..] == s[1..] + rest;
      ShortPrefix(s[1..], rest, limit - 1);
    }
  }

  // ------------------------------------------------------------------------------- path round trip

  /** Every node from the root down to `n` is listed under its parent, and none is an alias. */
  ghost predicate Reachable(t: Tree, depth: map<nat, nat>, n: nat)
    requires Rooted(t, depth) && n in t.nodes
    decreases depth[n]
  {
    n == t.root ||
    (!IsAlias(t, n) && Child(t, t.nodes[n].parent.value, t.nodes[n].name) == Some(n)
     && Reachable(t, depth, t.nodes[n].parent.value))
  }

  lemma {:induction false} DescendAppend(t: Tree, n: nat, segments: seq<Name>, last: Name)
    ensures DescendSegments(t, n, segments + [last]) ==
            var mid := DescendSegments(t, n, segments);
            if mid.Found? then DescendSegments(t, mid.node, [last]) else mid
    decreases |segments|
  {
    if segments != [] {
      assert (segments + [last])[1..] == segments[1..] + [last];
      if Child(t, n, segments[0]).Some? {
        var next := Follow(t, Child(t, n, segments[0]).value);
        if next.Found? {
          DescendAppend(t, next.node, segments[1..], last);
        }
      }
    }
  }

  lemma {:induction false} PathLeadsBack(t: Tree, depth: map<nat, nat>, n: nat)
    requires Rooted(t, depth) && n in t.nodes && Reachable(t, depth, n)
    ensures DescendSegments(t, t.root, PathOf(t, depth, n)) == Found(n)
    decreases depth[n]
  {
    if n != t.root {
      var p := t.nodes[n].parent.value;
      PathLeadsBack(t, depth, p);
      DescendAppend(t, t.root, PathOf(t, depth, p), t.nodes[n].name);
    }
  }

  /** The path printed for a node resolves to that node, from any context. */
  lemma PathRoundTrip(t: Tree, depth: map<nat, nat>, n: nat, context: Option<nat>)
    requires Rooted(t, depth) && n in t.nodes && Reachable(t, depth, n) && Nameable(PathOf(t, depth, n))
    ensures TextResolve(t, context, [ROOT] + Join(PathOf(t, depth, n))) == Found(n)
  {
    hide DescendText, DescendSegments;
    var segments := PathOf(t, depth, n);
    RootPath(t, depth, n);
    PathLeadsBack(t, depth, n);
    assert ([ROOT] + Join(segments))[1..] == Join(segments);
    if segments != [] {
      TextIsSegments(t, t.root, segments);
    }
  }

  // -------------------------------------------------------------------------- the resolvers agree

  /** No segment but the last meets an alias. */
  predicate NoInteriorAlias(t: Tree, n: nat, segments: seq<Name>)
    decreases |segments|
  {
    |segments| <= 1 || Child(t, n, segments[0]).None? ||
    var child := Child(t, n, segments[0]).value;
    !IsAlias(t, child) && NoInteriorAlias(t, child, segments[1..])
  }

  function PlainThenFollow(t: Tree, n: nat, segments: seq<Name>): Outcome {
    var end := DescendPlain(t, n, segments);
    if end.Found? then Follow(t, end.node) else end
  }

  lemma {:induction false} DescentsAgree(t: Tree, n: nat, segments: seq<Name>)
    requires segments != [] && NoInteriorAlias(t, n, segments)
    ensures DescendSegments(t, n, segments) == PlainThenFollow(t, n, segments)
    decreases |segments|
  {
    var child := Child(t, n, segments[0]);
    if child.Some? && |segments| > 1 {
      DescentsAgree(t, child.value, segments[1..]);
    } else if child.Some? {
      assert DescendPlain(t, child.value, segments[1..]) == Found(child.value);
      assert forall m :: DescendSegments(t, m, segments[1..]) == Found(m);
    }
  }

  /** Aliases have no children of their own. */
  ghost predicate BareAliases(t: Tree) {
    forall n, s :: IsAlias(t, n) ==> Child(t, n, s).None?
  }

  /** At an interior alias the encoded name misses, wherever the printed one leads. */
  lemma {:induction false} InteriorAliasMisses(t: Tree, n: nat, segments: seq<Name>)
    requires BareAliases(t) && !NoInteriorAlias(t, n, segments)
    ensures PlainThenFollow(t, n, segments) == Missing
    decreases |segments|
  {
    var child := Child(t, n, segments[0]).value;
    if IsAlias(t, child) {
      assert DescendPlain(t, child, segments[1..]) == Missing;
    } else {
      InteriorAliasMisses(t, child, segments[1..]);
    }
  }

  /** The printed form starts with exactly the prefix characters of the name. */
  predicate PlainStart(a: AmlName) {
    && (a.isAbsolute ==> a.height == 0)
    && (!a.isAbsolute && a.segments != [] ==>
          a.segments[0][0] != PARENT && (a.height == 0 ==> a.segments[0][0] != ROOT))
  }

  lemma {:induction false} CaretsCount(height: nat, rest: string)
    requires rest == "" || rest[0] != PARENT
    ensures Carets(CaretRun(height) + rest) == height
  {
    if height > 0 {
      assert (CaretRun(height) + rest)[1..] == CaretRun(height - 1) + rest;
      CaretsCount(height - 1, rest);
    }
  }

  /** Textual resolution of a printed name. */
  lemma PrintedMeans(t: Tree, context: nat, a: AmlName)
    requires Nameable(a.segments) && PlainStart(a)
    ensures TextResolve(t, Some(context), Print(a)) == DescendSegments(t, Start(t, context, a), a.segments)
  {
    hide DescendText, DescendSegments;
    var text, body := Print(a), Join(a.segments);
    assert body == "" <==> a.segments == [];
    assert a.segments != [] ==> body[0] == a.segments[0][0];
    Empty(t, Start(t, context, a));
    if a.segments != [] {
      TextIsSegments(t, Start(t, context, a), a.segments);
    }
    if a.isAbsolute {
      assert text[1..] == body;
    } else {
      CaretsCount(a.height, body);
      assert text == CaretRun(a.height) + body && text[a.height..] == body;
      assert a.height > 0 ==> text[0] == PARENT;
    }
  }

  lemma Empty(t: Tree, n: nat)
    ensures DescendSegments(t, n, []) == Found(n)
  {
  }

  /** Some segment has no child on the walk that follows aliases. */
  predicate LacksChild(t: Tree, n: nat, segments: seq<Name>)
    decreases |segments|
  {
    segments != [] &&
    (Child(t, n, segments[0]).None? ||
     var next := Follow(t, Child(t, n, segments[0]).value);
     next.Found? && LacksChild(t, next.node, segments[1..]))
  }

  lemma {:induction false} LacksChildMisses(t: Tree, n: nat, segments: seq<Name>)
    ensures DescendSegments(t, n, segments) == Missing <==> LacksChild(t, n, segments)
    decreases |segments|
  {
    if segments != [] && Child(t, n, segments[0]).Some? {
      var next := Follow(t, Child(t, n, segments[0]).value);
      if next.Found? {
        LacksChildMisses(t, next.node, segments[1..]);
      }
    }
  }

  /** For a name that is not searched for in scopes, resolving its encoded form agrees with resolving its
      printed form if and only if no interior segment meets an alias or the walk that follows aliases
      lacks a child. */
  lemma ResolversAgree(t: Tree, depth: map<nat, nat>, context: nat, a: AmlName)
    requires Rooted(t, depth) && context in t.nodes && !IsAlias(t, context) && BareAliases(t)
    requires Nameable(a.segments) && PlainStart(a) && !SearchScopes(a)
    ensures TextResolve(t, Some(context), Print(a)) == AmlResolve(t, depth, context, a)
            <==> NoInteriorAlias(t, Start(t, context, a), a.segments)
                 || LacksChild(t, Start(t, context, a), a.segments)
  {
    hide DescendText, DescendSegments, TextResolve, DescendPlain, Start;
    var start := Start(t, context, a);
    PrintedMeans(t, context, a);
    LacksChildMisses(t, start, a.segments);
    Empty(t, start);
    if a.segments != [] {
      assert AmlResolve(t, depth, context, a) == PlainThenFollow(t, start, a.segments);
      if NoInteriorAlias(t, start, a.segments) {
        DescentsAgree(t, start, a.segments);
      } else {
        InteriorAliasMisses(t, start, a.segments);
      }
    }
  }

  /** Alias AAAA leads to DDDD, which has a child CCCC. */
  function AliasTree(): Tree {
    Tree(0, map[0 := Node("____", None, Root), 1 := Node("AAAA", Some(0), Alias(2)), 2 := Node("DDDD", Some(0), Other),
                3 := Node("CCCC", Some(2), Other)],
         map[0 := map["AAAA" := 1, "DDDD" := 2], 2 := map["CCCC" := 3]])
  }

  function AliasDepth(): map<nat, nat> { map[0 := 0, 1 := 1, 2 := 1, 3 := 2] }

  /** There the text \AAAA.CCCC finds the child, and the encoded name does not. */
  lemma ResolversDiffer()
    ensures exists t: Tree, depth: map<nat, nat>, a: AmlName ::
              && Rooted(t, depth) && BareAliases(t) && Nameable(a.segments) && PlainStart(a) && !SearchScopes(a)
              && TextResolve(t, Some(t.root), Print(a)).Found? && AmlResolve(t, depth, t.root, a) == Missing
  {
    hide AliasTree, Rooted, BareAliases, DescendSegments, DescendPlain, TextResolve, Print;
    var t, a := AliasTree(), AmlName(true, 0, ["AAAA", "CCCC"]);
    AliasTreeRooted();
    AliasWalks();
    PrintedMeans(t, 0, a);
    assert AmlResolve(t, AliasDepth(), t.root, a) == Missing;
  }

  lemma AliasTreeRooted()
    ensures Rooted(AliasTree(), AliasDepth()) && BareAliases(AliasTree())
    ensures AliasTree().root == 0 && 0 in AliasTree().nodes && !IsAlias(AliasTree(), 0)
  {
    AliasNodes();
    hide AliasTree;
    forall n: nat, s: Name | Child(AliasTree(), n, s).Some?
      ensures n in [0, 2] && var c := Child(AliasTree(), n, s).value; c in [1, 2, 3]
      ensures var node := AliasTree().nodes[Child(AliasTree(), n, s).value]; node.parent == Some(n) && node.name == s
    {
      AliasChild(n, s);
    }
  }

  lemma AliasNodes()
    ensures var t := AliasTree();
            && t.root == 0 && t.nodes.Keys == {0, 1, 2, 3} && AliasDepth().Keys == {0, 1, 2, 3}
            && t.nodes[0] == Node("____", None, Root) && t.nodes[1] == Node("AAAA", Some(0), Alias(2))
            && t.nodes[2] == Node("DDDD", Some(0), Other) && t.nodes[3] == Node("CCCC", Some(2), Other)
  {
  }

  lemma AliasChild(n: nat, s: Name)
    ensures Child(AliasTree(), n, s) ==
            if n == 0 && s == "AAAA" then Some(1) else if n == 0 && s == "DDDD" then Some(2)
            else if n == 2 && s == "CCCC" then Some(3) else None
  {
    assert "AAAA"[0] != "DDDD"[0];
  }

  lemma AliasWalks()
    ensures DescendSegments(AliasTree(), 0, ["AAAA", "CCCC"]) == Found(3)
    ensures DescendPlain(AliasTree(), 0, ["AAAA", "CCCC"]) == Missing
  {
    var t, segments: seq<Name> := AliasTree(), ["AAAA", "CCCC"];
    assert Child(t, 0, "AAAA") == Some(1) && Follow(t, 1) == Found(2) && Child(t, 2, "CCCC") == Some(3);
    assert Follow(t, 3) == Found(3) && Child(t, 1, "CCCC").None?;
    hide AliasTree, Child, Follow;
    assert segments[1..] == ["CCCC"] && ["CCCC"][1..] == [];
    assert DescendSegments(t, 2, segments[1..]) == Found(3);
    assert DescendPlain(t, 1, segments[1..]) == Missing;
  }

  // --------------------------------------------------------------------------------- byte encoding

  function CountBytes(n: nat): string
    requires n < 256
  {
    if n == 0 then ['\0'] else if n == 1 then "" else if n == 2 then [DUAL] else [MULTI, n as char]
  }

  /** Section 20.2.2 of the ACPI Specification: prefix characters, the number of segments, the segments. */
  function Encode(a: AmlName): string
    requires |a.segments| < 256
  {
    Head(a) + (CountBytes(|a.segments|) + Flat(a.segments))
  }

  function Flat(segments: seq<Name>): string {
    if segments == [] then "" else segments[0] + Flat(segments[1..])
  }

  /** The first `n` segments of some bytes. */
  function Cut(bytes: string, n: nat): seq<Name>
    requires 4 * n <= |bytes|
  {
    if n == 0 then [] else [bytes[..4]] + Cut(bytes[4..], n - 1)
  }

  lemma {:induction false} CutFlat(segments: seq<Name>, rest: string)
    ensures |Flat(segments)| == 4 * |segments| && Cut(Flat(segments) + rest, |segments|) == segments
  {
    if segments != [] {
      CutFlat(segments[1..], rest);
      assert (Flat(segments) + rest)[..4] == segments[0];
      assert (Flat(segments) + rest)[4..] == Flat(segments[1..]) + rest;
    }
  }

  /** The prefix that gives the number of segments: that number and the bytes it takes. */
  function CountPrefix(bytes: string): Option<(nat, nat)> {
    if bytes == "" then None
    else if bytes[0] == '\0' then Some((0, 1))
    else if bytes[0] == DUAL then Some((2, 1))
    else if bytes[0] == MULTI then
      if |bytes| > 1 && bytes[1] as int > 2 then Some((bytes[1] as int, 2)) else None
    else if IsName(bytes[0]) then Some((1, 0)) else None
  }

  /** The name at the front of some bytes and its length; None where the parser stops or runs out of bytes. */
  function Parsed(bytes: string): Option<(AmlName, nat)> {
    var isAbsolute := bytes != "" && bytes[0] == ROOT;
    var lead := if isAbsolute then 1 else Carets(bytes);
    var count := CountPrefix(bytes[lead..]);
    if count.None? then None
    else
      var begin, n := lead + count.value.1, count.value.0;
      if begin + 4 * n > |bytes| then None
      else Some((AmlName(isAbsolute, if isAbsolute then 0 else lead, Cut(bytes[begin..], n)), begin + 4 * n))
  }

  /** lai_amlname_parse, with the segments that its cursor will deliver. */
  method AmlNameParse(bytes: string) returns (r: Option<(AmlName, nat)>)
    ensures r == Parsed(bytes)
  {
    var isAbsolute, height, it := false, 0, 0;
    if bytes != "" && bytes[it] == ROOT {
      isAbsolute := true;
      it := it + 1;
    } else {
      while it < |bytes| && bytes[it] == PARENT
        invariant 0 <= it == height <= |bytes| && Carets(bytes) == it + Carets(bytes[it..])
      {
        height := height + 1;
        it := it + 1;
      }
    }
    var segments;
    if it == |bytes| {
      return None;
    } else if bytes[it] == '\0' {
      it := it + 1;
      segments := 0;
    } else if bytes[it] == DUAL {
      it := it + 1;
      segments := 2;
    } else if bytes[it] == MULTI {
      it := it + 1;
      if it == |bytes| || bytes[it] as int <= 2 {
        return None;
      }
      segments := bytes[it] as int;
      it := it + 1;
    } else if IsName(bytes[it]) {
      segments := 1;
    } else {
      return None;
    }
    if it + 4 * segments > |bytes| {
      return None;
    }
    r := Some((AmlName(isAbsolute, height, Cut(bytes[it..], segments)), it + 4 * segments));
  }

  /** A name that the encoding can carry. */
  predicate Encodable(a: AmlName) {
    && |a.segments| < 256 && (a.isAbsolute ==> a.height == 0)
    && (|a.segments| == 1 ==>
          var c := a.segments[0][0];
          IsName(c) && c != DUAL && c != MULTI
          && (!a.isAbsolute ==> c != PARENT && (a.height == 0 ==> c != ROOT)))
  }

  lemma CountRead(segments: seq<Name>, rest: string)
    requires |segments| < 256
    requires |segments| == 1 ==> var c := segments[0][0]; IsName(c) && c != DUAL && c != MULTI
    ensures var skip := |CountBytes(|segments|)|;
            CountPrefix(CountBytes(|segments|) + Flat(segments) + rest) == Some((|segments|, skip))
  {
    hide Flat;
    FlatFront(segments);
  }

  lemma HeadRead(a: AmlName, tail: string)
    requires a.isAbsolute ==> a.height == 0
    requires !a.isAbsolute ==> tail != "" && tail[0] != PARENT && (a.height == 0 ==> tail[0] != ROOT)
    ensures var bytes := Head(a) + tail;
            && (a.isAbsolute <==> bytes != "" && bytes[0] == ROOT)
            && |Head(a)| == (if a.isAbsolute then 1 else Carets(bytes))
  {
    if !a.isAbsolute {
      CaretsCount(a.height, tail);
      assert Head(a) == CaretRun(a.height);
      assert a.height > 0 ==> (Head(a) + tail)[0] == PARENT;
    }
  }

  /** Parsing an encoded name gives the name back and consumes exactly its bytes. */
  lemma ParseEncode(a: AmlName, rest: string)
    requires Encodable(a)
    ensures Parsed(Encode(a) + rest) == Some((a, |Encode(a)|))
  {
    hide Cut, Flat, Head, CountPrefix, Carets;
    var count := CountBytes(|a.segments|);
    var bytes, tail := Encode(a) + rest, count + Flat(a.segments) + rest;
    FlatFront(a.segments);
    CutFlat(a.segments, rest);
    CountRead(a.segments, rest);
    HeadRead(a, tail);
    assert bytes == Head(a) + tail;
    assert bytes[|Head(a)|..] == tail;
    assert bytes[|Head(a)| + |count|..] == Flat(a.segments) + rest;
    HeadAbsolute(a);
  }

  lemma HeadAbsolute(a: AmlName)
    requires a.isAbsolute ==> a.height == 0
    ensures !a.isAbsolute ==> |Head(a)| == a.height
  {
  }

  lemma FlatFront(segments: seq<Name>)
    ensures segments == [] ==> Flat(segments) == ""
    ensures segments != [] ==> |Flat(segments)| >= 4 && Flat(segments)[0] == segments[0][0]
  {
  }

  /** From the bytes of an encoded name, parsing and resolving agrees with printing and resolving. */
  lemma EncodedAgrees(t: Tree, depth: map<nat, nat>, context: nat, a: AmlName, rest: string)
    requires Rooted(t, depth) && context in t.nodes && !IsAlias(t, context) && BareAliases(t)
    requires Encodable(a) && Nameable(a.segments) && PlainStart(a) && !SearchScopes(a)
    requires NoInteriorAlias(t, Start(t, context, a), a.segments)
    ensures var parsed := Parsed(Encode(a) + rest);
            && parsed.Some? && parsed.value.1 == |Encode(a)|
            && AmlResolve(t, depth, context, parsed.value.0) == TextResolve(t, Some(context), Print(parsed.value.0))
  {
    ParseEncode(a, rest);
    ResolversAgree(t, depth, context, a);
  }
}
