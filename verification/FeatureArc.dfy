/** The feature arc of feature_arc/sample/main.c: a table of named nodes whose next links are
    rewritten by a rebuild from the arc's enable flags, and a walk that follows them. This module
    holds the meaning of every operation on values; FeatureArcTable is the program on its arrays. */
module FeatureArc {

  const MAX_FEATURES: nat := 8
  const MAX_NODES: nat := 16

  /** None is the C program's NULL. */
  datatype Link = None | Some(name: string)
  datatype Node = Node(name: string, next: Link)
  /** struct feature_arc, up to its count. */
  datatype Arc = Arc(start: string, end: string, features: seq<string>, enabled: seq<bool>)

  /** Index of the first node called name, or the table size. */
  function FirstNode(nodes: seq<Node>, name: string): (i: nat)
    ensures i <= |nodes|
    ensures i < |nodes| ==> nodes[i].name == name
    ensures forall j :: 0 <= j < i ==> nodes[j].name != name
  {
    if nodes == [] || nodes[0].name == name then 0 else FirstNode(nodes[1..], name) + 1
  }

  /** set_next rewrites the first match and is silent when there is none. */
  function SetNext(nodes: seq<Node>, src: string, dst: string): (r: seq<Node>)
    ensures |r| == |nodes|
    ensures forall j :: 0 <= j < |r| ==> r[j].name == nodes[j].name
  {
    var i := FirstNode(nodes, src);
    if i < |nodes| then nodes[i := Node(nodes[i].name, Some(dst))] else nodes
  }

  /** dump_pipeline's inner loop keeps the last match. */
  function NextOf(nodes: seq<Node>, name: string): Link {
    if nodes == [] then None
    else if nodes[|nodes| - 1].name == name then nodes[|nodes| - 1].next
    else NextOf(nodes[..|nodes| - 1], name)
  }

  function SetFlag(features: seq<string>, enabled: seq<bool>, name: string, on: bool): seq<bool>
    requires |features| == |enabled|
  {
    seq(|features|, i requires 0 <= i < |features| => if features[i] == name then on else enabled[i])
  }

  /** feature_arc_rebuild after its first k iterations: the table and the cursor prev. */
  function RebuildPrefix(nodes: seq<Node>, a: Arc, k: nat): (seq<Node>, string)
    requires k <= |a.features| == |a.enabled|
  {
    if k == 0 then (nodes, a.start)
    else
      var (ns, prev) := RebuildPrefix(nodes, a, k - 1);
      if a.enabled[k - 1] then (SetNext(ns, prev, a.features[k - 1]), a.features[k - 1]) else (ns, prev)
  }

  function Rebuild(nodes: seq<Node>, a: Arc): seq<Node>
    requires |a.features| == |a.enabled|
  {
    var (ns, prev) := RebuildPrefix(nodes, a, |a.features|);
    SetNext(ns, prev, a.end)
  }

  predicate IsNode(nodes: seq<Node>, name: string) {
    exists i :: 0 <= i < |nodes| && nodes[i].name == name
  }

  predicate DistinctNames(nodes: seq<Node>) {
    forall i, j :: 0 <= i < j < |nodes| ==> nodes[i].name != nodes[j].name
  }

  /** What the program takes for granted: distinct node names, and an arc made of distinct nodes. */
  predicate WellFormed(nodes: seq<Node>, a: Arc) {
    && DistinctNames(nodes)
    && IsNode(nodes, a.start) && IsNode(nodes, a.end)
    && (forall i :: 0 <= i < |a.features| ==> IsNode(nodes, a.features[i]))
    && Distinct(a)
  }

  predicate Distinct(a: Arc) {
    && |a.features| == |a.enabled| && a.start != a.end
    && (forall i :: 0 <= i < |a.features| ==> a.features[i] != a.start && a.features[i] != a.end)
    && (forall i, j :: 0 <= i < j < |a.features| ==> a.features[i] != a.features[j])
  }

  function IndexOf(features: seq<string>, name: string): (i: nat)
    ensures i <= |features|
    ensures i < |features| ==> features[i] == name
    ensures forall j :: 0 <= j < i ==> features[j] != name
  {
    if features == [] || features[0] == name then 0 else IndexOf(features[1..], name) + 1
  }

  /** The place of a node: start, then the features as registered, then everything else. */
  function Place(a: Arc, name: string): nat {
    if name == a.start then 0 else IndexOf(a.features, name) + 1
  }

  predicate Forward(a: Arc, name: string, next: Link) {
    next.Some? ==> Place(a, name) < Place(a, next.name) && (next.name == a.end || next.name in a.features)
  }

  /** Every link, fresh or stale, goes to a strictly later place; the end has none. */
  predicate Ordered(nodes: seq<Node>, a: Arc) {
    forall i :: 0 <= i < |nodes| ==> Forward(a, nodes[i].name, nodes[i].next)
  }

  predicate Valid(nodes: seq<Node>, a: Arc) {
    WellFormed(nodes, a) && Ordered(nodes, a)
  }

  /** What dump_pipeline prints from cur on. */
  function WalkFrom(nodes: seq<Node>, a: Arc, cur: string): seq<string>
    requires Ordered(nodes, a)
    decreases |a.features| + 1 - Place(a, cur)
  {
    var next := NextOf(nodes, cur);
    NextIsForward(nodes, a, cur);
    if next == None then [cur] else [cur] + WalkFrom(nodes, a, next.name)
  }

  function Walk(nodes: seq<Node>, a: Arc): seq<string>
    requires Ordered(nodes, a)
  {
    WalkFrom(nodes, a, a.start)
  }

  lemma {:induction false} NextOfIsALink(nodes: seq<Node>, name: string)
    ensures NextOf(nodes, name).Some? ==> Node(name, NextOf(nodes, name)) in nodes
    decreases |nodes|
  {
    if nodes != [] && nodes[|nodes| - 1].name != name {
      NextOfIsALink(nodes[..|nodes| - 1], name);
    }
  }

  lemma NextIsForward(nodes: seq<Node>, a: Arc, cur: string)
    requires Ordered(nodes, a)
    ensures Forward(a, cur, NextOf(nodes, cur))
  {
    NextOfIsALink(nodes, cur);
  }

  lemma {:induction false} NextOfUnique(nodes: seq<Node>, i: nat)
    requires i < |nodes| && DistinctNames(nodes)
    ensures NextOf(nodes, nodes[i].name) == nodes[i].next
    decreases |nodes|
  {
    if i < |nodes| - 1 {
      NextOfUnique(nodes[..|nodes| - 1], i);
    }
  }

  lemma {:induction false} NextOfMissing(nodes: seq<Node>, name: string)
    requires !IsNode(nodes, name)
    ensures NextOf(nodes, name) == None
    decreases |nodes|
  {
    if nodes != [] {
      var front := nodes[..|nodes| - 1];
      assert forall i :: 0 <= i < |front| ==> front[i] == nodes[i];
      NextOfMissing(front, name);
    }
  }

  /** The link set_next changes is the one that dump_pipeline will read, and no other changes. */
  lemma SetNextReads(nodes: seq<Node>, src: string, dst: string, x: string)
    requires DistinctNames(nodes) && IsNode(nodes, src)
    ensures NextOf(SetNext(nodes, src, dst), x) == if x == src then Some(dst) else NextOf(nodes, x)
  {
    var r := SetNext(nodes, src, dst);
    if i :| 0 <= i < |nodes| && nodes[i].name == x {
      NextOfUnique(nodes, i);
      NextOfUnique(r, i);
    } else {
      NextOfMissing(nodes, x);
      NextOfMissing(r, x);
    }
  }

  lemma {:induction false} LastNodeIsRead(nodes: seq<Node>, i: nat, name: string)
    requires i < |nodes| && nodes[i].name == name && forall j :: i < j < |nodes| ==> nodes[j].name != name
    ensures NextOf(nodes, name) == nodes[i].next
    decreases |nodes|
  {
    if i < |nodes| - 1 {
      LastNodeIsRead(nodes[..|nodes| - 1], i, name);
    }
  }

  lemma {:induction false} LastNode(nodes: seq<Node>, name: string) returns (i: nat)
    requires IsNode(nodes, name)
    ensures i < |nodes| && nodes[i].name == name && forall j :: i < j < |nodes| ==> nodes[j].name != name
    decreases |nodes|
  {
    var last := |nodes| - 1;
    if nodes[last].name == name {
      i := last;
    } else {
      var k :| 0 <= k < |nodes| && nodes[k].name == name;
      assert nodes[..last][k].name == name;
      i := LastNode(nodes[..last], name);
    }
  }

  predicate Once(nodes: seq<Node>, name: string) {
    forall i, j :: 0 <= i < j < |nodes| && nodes[i].name == name ==> nodes[j].name != name
  }

  /** Why node names must be distinct: set_next writes the first node called src and dump_pipeline reads the
      last one, so the link set is read back exactly if there is one such node; otherwise nothing changes. */
  lemma SetNextIsReadIff(nodes: seq<Node>, src: string, dst: string)
    requires IsNode(nodes, src)
    ensures NextOf(SetNext(nodes, src, dst), src) == if Once(nodes, src) then Some(dst) else NextOf(nodes, src)
  {
    var r := SetNext(nodes, src, dst);
    var first := FirstNode(nodes, src);
    var last := LastNode(nodes, src);
    LastNodeIsRead(nodes, last, src);
    LastNodeIsRead(r, last, src);
    assert Once(nodes, src) <==> first == last;
  }

  lemma PlaceOfFeature(a: Arc, k: nat)
    requires Distinct(a) && k < |a.features|
    ensures Place(a, a.features[k]) == k + 1
  {
    assert a.features[IndexOf(a.features, a.features[k])] == a.features[k];
  }

  lemma EndIsLast(a: Arc)
    requires Distinct(a)
    ensures Place(a, a.end) == |a.features| + 1
  {
  }

  lemma SameNames(s: seq<Node>, r: seq<Node>)
    requires |r| == |s| && forall j :: 0 <= j < |r| ==> r[j].name == s[j].name
    ensures forall x :: IsNode(s, x) <==> IsNode(r, x)
  {
  }

  /** A forward link keeps the table valid. */
  lemma SetNextKeepsValid(nodes: seq<Node>, a: Arc, src: string, dst: string)
    requires Valid(nodes, a) && Forward(a, src, Some(dst))
    ensures Valid(SetNext(nodes, src, dst), a)
  {
    SameNames(nodes, SetNext(nodes, src, dst));
  }

  /** start followed by the enabled ones among the first k features. */
  function Chain(a: Arc, k: nat): (c: seq<string>)
    requires k <= |a.features| == |a.enabled|
    ensures c != [] && c[0] == a.start
  {
    if k == 0 then [a.start]
    else Chain(a, k - 1) + if a.enabled[k - 1] then [a.features[k - 1]] else []
  }

  ghost predicate Links(nodes: seq<Node>, c: seq<string>) {
    forall i :: 0 <= i < |c| - 1 ==> NextOf(nodes, c[i]) == Some(c[i + 1])
  }

  predicate NoRepeat(c: seq<string>) {
    forall i, j :: 0 <= i < j < |c| ==> c[i] != c[j]
  }

  /** Following the links from start visits exactly the nodes of c and then stops. */
  ghost predicate IsWalk(nodes: seq<Node>, start: string, c: seq<string>) {
    c != [] && c[0] == start && Links(nodes, c) && NextOf(nodes, c[|c| - 1]) == None
  }

  lemma {:induction false} ChainPlaces(a: Arc, k: nat, i: nat)
    requires Distinct(a) && k <= |a.features| && i < |Chain(a, k)|
    ensures Place(a, Chain(a, k)[i]) <= k
    ensures Chain(a, k)[i] == a.start || Chain(a, k)[i] in a.features
  {
    if k > 0 {
      if i < |Chain(a, k - 1)| {
        ChainPlaces(a, k - 1, i);
      } else {
        PlaceOfFeature(a, k - 1);
      }
    }
  }

  lemma {:induction false} DistinctChain(a: Arc, k: nat)
    requires Distinct(a) && k <= |a.features|
    ensures NoRepeat(Chain(a, k))
  {
    if k > 0 {
      var c := Chain(a, k - 1);
      DistinctChain(a, k - 1);
      PlaceOfFeature(a, k - 1);
      forall i | 0 <= i < |c|
        ensures c[i] != a.features[k - 1]
      {
        ChainPlaces(a, k - 1, i);
      }
    }
  }

  lemma EndIsNew(a: Arc)
    requires Distinct(a)
    ensures NoRepeat(Chain(a, |a.features|) + [a.end])
  {
    var c := Chain(a, |a.features|);
    DistinctChain(a, |a.features|);
    forall i | 0 <= i < |c|
      ensures c[i] != a.end
    {
      ChainPlaces(a, |a.features|, i);
    }
  }

  /** Linking the chain's last node to another one extends the chain. */
  lemma LinkLast(nodes: seq<Node>, c: seq<string>, dst: string)
    requires DistinctNames(nodes) && c != [] && NoRepeat(c) && Links(nodes, c) && IsNode(nodes, c[|c| - 1])
    ensures Links(SetNext(nodes, c[|c| - 1], dst), c + [dst])
  {
    var prev := c[|c| - 1];
    forall i | 0 <= i < |c|
      ensures NextOf(SetNext(nodes, prev, dst), c[i]) == Some((c + [dst])[i + 1])
    {
      SetNextReads(nodes, prev, dst, c[i]);
    }
  }

  /** All but the last node of the chain were written, nothing else. */
  ghost predicate Chained(nodes: seq<Node>, ns: seq<Node>, c: seq<string>) {
    && c != [] && Links(ns, c)
    && |ns| == |nodes| && (forall j :: 0 <= j < |ns| ==> ns[j].name == nodes[j].name)
    && (forall x :: x !in c[..|c| - 1] ==> NextOf(ns, x) == NextOf(nodes, x))
  }

  lemma ChainedOnce(nodes: seq<Node>, ns: seq<Node>, c: seq<string>, dst: string)
    requires DistinctNames(nodes) && Chained(nodes, ns, c) && NoRepeat(c) && IsNode(nodes, c[|c| - 1])
    ensures Chained(nodes, SetNext(ns, c[|c| - 1], dst), c + [dst])
  {
    var prev := c[|c| - 1];
    SameNames(nodes, ns);
    LinkLast(ns, c, dst);
    assert (c + [dst])[..|c|] == c && c == c[..|c| - 1] + [prev];
    forall x | x !in c
      ensures NextOf(SetNext(ns, prev, dst), x) == NextOf(nodes, x)
    {
      SetNextReads(ns, prev, dst, x);
    }
  }

  predicate AllNodes(nodes: seq<Node>, c: seq<string>) {
    forall i :: 0 <= i < |c| ==> IsNode(nodes, c[i])
  }

  lemma ChainShorter(nodes: seq<Node>, a: Arc, k: nat)
    requires k < |a.features| == |a.enabled| && NoRepeat(Chain(a, k + 1)) && AllNodes(nodes, Chain(a, k + 1))
    ensures NoRepeat(Chain(a, k)) && AllNodes(nodes, Chain(a, k))
  {
    var c, d := Chain(a, k), Chain(a, k + 1);
    assert |c| <= |d| && forall i :: 0 <= i < |c| ==> c[i] == d[i];
  }

  lemma RebuildStepChained(nodes: seq<Node>, a: Arc, k: nat)
    requires DistinctNames(nodes) && k < |a.features| == |a.enabled|
    requires NoRepeat(Chain(a, k)) && AllNodes(nodes, Chain(a, k))
    requires Chained(nodes, RebuildPrefix(nodes, a, k).0, Chain(a, k))
    requires RebuildPrefix(nodes, a, k).1 == Chain(a, k)[|Chain(a, k)| - 1]
    ensures Chained(nodes, RebuildPrefix(nodes, a, k + 1).0, Chain(a, k + 1))
    ensures RebuildPrefix(nodes, a, k + 1).1 == Chain(a, k + 1)[|Chain(a, k + 1)| - 1]
  {
    var c, r := Chain(a, k), RebuildPrefix(nodes, a, k);
    if a.enabled[k] {
      ChainedOnce(nodes, r.0, c, a.features[k]);
      assert Chain(a, k + 1) == c + [a.features[k]];
      assert RebuildPrefix(nodes, a, k + 1) == (SetNext(r.0, r.1, a.features[k]), a.features[k]);
    } else {
      assert Chain(a, k + 1) == c && RebuildPrefix(nodes, a, k + 1) == r;
    }
  }

  lemma {:induction false} RebuildPrefixChained(nodes: seq<Node>, a: Arc, k: nat)
    requires DistinctNames(nodes) && k <= |a.features| == |a.enabled|
    requires NoRepeat(Chain(a, k)) && AllNodes(nodes, Chain(a, k))
    ensures Chained(nodes, RebuildPrefix(nodes, a, k).0, Chain(a, k))
    ensures RebuildPrefix(nodes, a, k).1 == Chain(a, k)[|Chain(a, k)| - 1]
  {
    if k == 0 {
      assert RebuildPrefix(nodes, a, k) == (nodes, a.start) && Chain(a, k) == [a.start];
    } else {
      ChainShorter(nodes, a, k - 1);
      RebuildPrefixChained(nodes, a, k - 1);
      RebuildStepChained(nodes, a, k - 1);
    }
  }

  lemma {:induction false} RebuildPrefixNames(nodes: seq<Node>, a: Arc, k: nat)
    requires k <= |a.features| == |a.enabled|
    ensures var ns := RebuildPrefix(nodes, a, k).0;
      |ns| == |nodes| && forall j :: 0 <= j < |ns| ==> ns[j].name == nodes[j].name
  {
    if k > 0 {
      RebuildPrefixNames(nodes, a, k - 1);
    }
  }

  /** Links that lead to a stop never pass a node twice. */
  lemma {:induction false} WalksDoNotRepeat(nodes: seq<Node>, c: seq<string>, i: nat, j: nat)
    requires c != [] && Links(nodes, c) && NextOf(nodes, c[|c| - 1]) == None && i < j < |c|
    ensures c[i] != c[j]
    decreases |c| - j
  {
    if j < |c| - 1 {
      WalksDoNotRepeat(nodes, c, i + 1, j + 1);
    }
    assert NextOf(nodes, c[i]) == Some(c[i + 1]);
  }

  lemma NoRepeatFront(chain: seq<string>, end: string)
    requires NoRepeat(chain + [end])
    ensures NoRepeat(chain) && end !in chain
  {
    var c := chain + [end];
    assert forall i :: 0 <= i < |chain| ==> chain[i] == c[i];
    assert c[|chain|] == end;
  }

  lemma RebuildChained(nodes: seq<Node>, a: Arc, chain: seq<string>)
    requires DistinctNames(nodes) && |a.features| == |a.enabled| && chain == Chain(a, |a.features|)
    requires NoRepeat(chain + [a.end]) && AllNodes(nodes, chain)
    ensures Links(Rebuild(nodes, a), chain + [a.end])
    ensures NextOf(Rebuild(nodes, a), a.end) == NextOf(nodes, a.end)
  {
    var ns := RebuildPrefix(nodes, a, |a.features|).0;
    NoRepeatFront(chain, a.end);
    RebuildPrefixChained(nodes, a, |a.features|);
    assert IsNode(nodes, chain[|chain| - 1]);
    ChainedOnce(nodes, ns, chain, a.end);
    assert Rebuild(nodes, a) == SetNext(ns, chain[|chain| - 1], a.end);
    assert (chain + [a.end])[..|chain|] == chain;
  }

  lemma WalkedAreNodes(nodes: seq<Node>, chain: seq<string>, end: string)
    requires Links(nodes, chain + [end])
    ensures AllNodes(nodes, chain)
  {
    var c := chain + [end];
    forall i | 0 <= i < |chain|
      ensures IsNode(nodes, chain[i])
    {
      assert NextOf(nodes, c[i]) == Some(c[i + 1]);
      if !IsNode(nodes, c[i]) { NextOfMissing(nodes, c[i]); }
    }
  }

  lemma RebuildWalksOnlyIf(nodes: seq<Node>, a: Arc, chain: seq<string>)
    requires DistinctNames(nodes) && |a.features| == |a.enabled| && chain == Chain(a, |a.features|)
    requires IsWalk(Rebuild(nodes, a), a.start, chain + [a.end])
    ensures NoRepeat(chain + [a.end]) && AllNodes(nodes, chain) && NextOf(nodes, a.end) == None
  {
    var c, r := chain + [a.end], Rebuild(nodes, a);
    forall i, j | 0 <= i < j < |c|
      ensures c[i] != c[j]
    {
      WalksDoNotRepeat(r, c, i, j);
    }
    WalkedAreNodes(r, chain, a.end);
    RebuildPrefixNames(nodes, a, |a.features|);
    SameNames(nodes, r);
    RebuildChained(nodes, a, chain);
  }

  /** Exactly when a rebuild works: in the rebuilt table the walk is start, the enabled features in
      registration order, end, if and only if these names are pairwise different, all but the last are
      nodes, and the end had no link before. Disabled features may be repeated or unknown. */
  lemma RebuildWalksIff(nodes: seq<Node>, a: Arc)
    requires DistinctNames(nodes) && |a.features| == |a.enabled|
    ensures var chain := Chain(a, |a.features|);
      IsWalk(Rebuild(nodes, a), a.start, chain + [a.end])
      <==> NoRepeat(chain + [a.end]) && AllNodes(nodes, chain) && NextOf(nodes, a.end) == None
  {
    var chain := Chain(a, |a.features|);
    if IsWalk(Rebuild(nodes, a), a.start, chain + [a.end]) {
      RebuildWalksOnlyIf(nodes, a, chain);
    }
    if NoRepeat(chain + [a.end]) && AllNodes(nodes, chain) && NextOf(nodes, a.end) == None {
      RebuildChained(nodes, a, chain);
    }
  }

  lemma SameNamesWellFormed(nodes: seq<Node>, ns: seq<Node>, a: Arc)
    requires WellFormed(nodes, a) && |ns| == |nodes| && forall j :: 0 <= j < |ns| ==> ns[j].name == nodes[j].name
    ensures WellFormed(ns, a)
  {
    SameNames(nodes, ns);
  }

  /** Every iteration of the rebuild adds a forward link and leaves the cursor before the next feature. */
  lemma {:induction false} RebuildPrefixOrdered(nodes: seq<Node>, a: Arc, k: nat)
    requires Distinct(a) && Ordered(nodes, a) && k <= |a.features|
    ensures Ordered(RebuildPrefix(nodes, a, k).0, a)
    ensures Place(a, RebuildPrefix(nodes, a, k).1) <= k
  {
    if k > 0 {
      RebuildPrefixOrdered(nodes, a, k - 1);
      PlaceOfFeature(a, k - 1);
    }
  }

  lemma ChainNodes(nodes: seq<Node>, a: Arc, k: nat)
    requires WellFormed(nodes, a) && k <= |a.features|
    ensures AllNodes(nodes, Chain(a, k))
  {
    var c := Chain(a, k);
    forall i | 0 <= i < |c|
      ensures IsNode(nodes, c[i])
    {
      ChainPlaces(a, k, i);
    }
  }

  /** Halfway through a rebuild, after any k iterations: the table is valid, stale links included, and
      the links from start up to prev run through the enabled features seen so far. */
  lemma RebuildPrefixLinks(nodes: seq<Node>, a: Arc, k: nat)
    requires Valid(nodes, a) && k <= |a.features|
    ensures Valid(RebuildPrefix(nodes, a, k).0, a)
    ensures Links(RebuildPrefix(nodes, a, k).0, Chain(a, k))
    ensures RebuildPrefix(nodes, a, k).1 == Chain(a, k)[|Chain(a, k)| - 1]
  {
    RebuildPrefixOrdered(nodes, a, k);
    RebuildPrefixNames(nodes, a, k);
    SameNamesWellFormed(nodes, RebuildPrefix(nodes, a, k).0, a);
    DistinctChain(a, k);
    ChainNodes(nodes, a, k);
    RebuildPrefixChained(nodes, a, k);
  }

  lemma {:induction false} WalkAlong(nodes: seq<Node>, a: Arc, c: seq<string>, i: nat)
    requires Ordered(nodes, a) && i < |c| && Links(nodes, c) && NextOf(nodes, c[|c| - 1]) == None
    ensures WalkFrom(nodes, a, c[i]) == c[i..]
    decreases |c| - i
  {
    if i < |c| - 1 {
      WalkAlong(nodes, a, c, i + 1);
    }
  }

  /** A rebuild leaves a valid table whose walk is start, the enabled features as registered, end. */
  lemma RebuildWalk(nodes: seq<Node>, a: Arc)
    requires Valid(nodes, a)
    ensures Valid(Rebuild(nodes, a), a)
    ensures Walk(Rebuild(nodes, a), a) == Chain(a, |a.features|) + [a.end]
  {
    var k := |a.features|;
    RebuildPrefixLinks(nodes, a, k);
    ChainPlaces(a, k, |Chain(a, k)| - 1);
    EndIsLast(a);
    SetNextKeepsValid(RebuildPrefix(nodes, a, k).0, a, RebuildPrefix(nodes, a, k).1, a.end);
    NextIsForward(nodes, a, a.end);
    EndIsNew(a);
    ChainNodes(nodes, a, k);
    RebuildWalksIff(nodes, a);
    WalkAlong(Rebuild(nodes, a), a, Chain(a, k) + [a.end], 0);
  }

  /** What a program using the arc can do after feature_arc_init. */
  datatype Op =
    | AddNode(name: string)
    | Register(name: string)
    | Enable(name: string)
    | Disable(name: string)
    | RebuildAll

  datatype State = State(nodes: seq<Node>, arc: Arc)

  /** What the program takes for granted of each call. */
  predicate Admissible(s: State, op: Op) {
    match op
    case AddNode(name) => !IsNode(s.nodes, name)
    case Register(name) =>
      IsNode(s.nodes, name) && name != s.arc.start && name != s.arc.end && name !in s.arc.features
    case _ => true
  }

  function Apply(s: State, op: Op): State
    requires |s.arc.features| == |s.arc.enabled|
  {
    var a := s.arc;
    match op
    case AddNode(name) => s.(nodes := s.nodes + [Node(name, None)])
    case Register(name) => s.(arc := a.(features := a.features + [name], enabled := a.enabled + [false]))
    case Enable(name) => s.(arc := a.(enabled := SetFlag(a.features, a.enabled, name, true)))
    case Disable(name) => s.(arc := a.(enabled := SetFlag(a.features, a.enabled, name, false)))
    case RebuildAll => s.(nodes := Rebuild(s.nodes, a))
  }

  /** Right after feature_arc_init: nodes without links, no features. */
  ghost predicate Initial(s: State) {
    && WellFormed(s.nodes, s.arc) && s.arc.features == []
    && forall i :: 0 <= i < |s.nodes| ==> s.nodes[i].next == None
  }

  /** ss is what a program goes through that calls ops. */
  ghost predicate IsRun(ss: seq<State>, ops: seq<Op>) {
    && |ss| == |ops| + 1 && Initial(ss[0])
    && forall k :: 0 <= k < |ops| ==> |ss[k].arc.features| == |ss[k].arc.enabled| && ss[k + 1] == Apply(ss[k], ops[k])
  }

  /** A run in which every call is one the program allows for. */
  ghost predicate IsHistory(ss: seq<State>, ops: seq<Op>) {
    IsRun(ss, ops) && forall k :: 0 <= k < |ops| ==> Admissible(ss[k], ops[k])
  }

  lemma AddNodeKeepsValid(nodes: seq<Node>, a: Arc, name: string)
    requires Valid(nodes, a) && !IsNode(nodes, name)
    ensures Valid(nodes + [Node(name, None)], a)
  {
    var more := nodes + [Node(name, None)];
    forall x | IsNode(nodes, x)
      ensures IsNode(more, x)
    {
      var i :| 0 <= i < |nodes| && nodes[i].name == x;
      assert more[i].name == x;
    }
  }

  lemma {:induction false} IndexOfAppend(features: seq<string>, name: string, x: string)
    ensures IndexOf(features + [name], x) == if x in features then IndexOf(features, x)
                                             else if x == name then |features| else |features| + 1
  {
    if features != [] {
      assert (features + [name])[1..] == features[1..] + [name];
      if features[0] != x {
        IndexOfAppend(features[1..], name, x);
      }
    }
  }

  lemma RegisterKeepsValid(nodes: seq<Node>, a: Arc, name: string)
    requires Valid(nodes, a) && Admissible(State(nodes, a), Register(name))
    ensures Valid(nodes, a.(features := a.features + [name], enabled := a.enabled + [false]))
  {
    var b := a.(features := a.features + [name], enabled := a.enabled + [false]);
    forall i | 0 <= i < |nodes|
      ensures Forward(b, nodes[i].name, nodes[i].next)
    {
      assert Forward(a, nodes[i].name, nodes[i].next);
      IndexOfAppend(a.features, name, nodes[i].name);
      if nodes[i].next.Some? {
        IndexOfAppend(a.features, name, nodes[i].next.name);
      }
    }
  }

  lemma ApplyKeepsValid(s: State, op: Op)
    requires Valid(s.nodes, s.arc) && Admissible(s, op)
    ensures Valid(Apply(s, op).nodes, Apply(s, op).arc)
  {
    match op
    case AddNode(name) => AddNodeKeepsValid(s.nodes, s.arc, name);
    case Register(name) => RegisterKeepsValid(s.nodes, s.arc, name);
    case Enable(_) => FlagsDoNotMatter(s.nodes, s.arc, Apply(s, op).arc);
    case Disable(_) => FlagsDoNotMatter(s.nodes, s.arc, Apply(s, op).arc);
    case RebuildAll => RebuildWalk(s.nodes, s.arc);
  }

  lemma FlagsDoNotMatter(nodes: seq<Node>, a: Arc, b: Arc)
    requires Valid(nodes, a) && |b.enabled| == |a.enabled| && b == a.(enabled := b.enabled)
    ensures Valid(nodes, b)
  {
    forall i | 0 <= i < |nodes|
      ensures Forward(b, nodes[i].name, nodes[i].next)
    {
      assert Forward(a, nodes[i].name, nodes[i].next);
    }
  }

  lemma {:induction false} HistoryValid(ss: seq<State>, ops: seq<Op>, k: nat)
    requires IsHistory(ss, ops) && k < |ss|
    ensures Valid(ss[k].nodes, ss[k].arc)
  {
    if k > 0 {
      HistoryValid(ss, ops, k - 1);
      ApplyKeepsValid(ss[k - 1], ops[k - 1]);
    }
  }

  /** In every state a program can reach, and after every iteration of a rebuild started there, all
      links, stale ones of disabled features included, lead forward; so dump_pipeline terminates. */
  lemma AlwaysForward(ss: seq<State>, ops: seq<Op>, k: nat, i: nat)
    requires IsHistory(ss, ops) && k < |ss| && i <= |ss[k].arc.features| == |ss[k].arc.enabled|
    ensures Ordered(ss[k].nodes, ss[k].arc)
    ensures Ordered(RebuildPrefix(ss[k].nodes, ss[k].arc, i).0, ss[k].arc)
  {
    HistoryValid(ss, ops, k);
    RebuildPrefixLinks(ss[k].nodes, ss[k].arc, i);
  }

  lemma {:induction false} SameLinksSameWalk(s: State, t: State, cur: string)
    requires Ordered(s.nodes, s.arc) && Ordered(t.nodes, t.arc)
    requires forall x :: NextOf(s.nodes, x) == NextOf(t.nodes, x)
    ensures WalkFrom(s.nodes, s.arc, cur) == WalkFrom(t.nodes, t.arc, cur)
    decreases |s.arc.features| + 1 - Place(s.arc, cur)
  {
    NextIsForward(s.nodes, s.arc, cur);
    if NextOf(s.nodes, cur) != None {
      SameLinksSameWalk(s, t, NextOf(s.nodes, cur).name);
    }
  }

  /** Only a rebuild changes the walk. */
  lemma OtherCallsKeepWalk(s: State, op: Op)
    requires Valid(s.nodes, s.arc) && Admissible(s, op) && op != RebuildAll
    ensures var t := Apply(s, op);
      Valid(t.nodes, t.arc) && Walk(t.nodes, t.arc) == Walk(s.nodes, s.arc)
  {
    var t := Apply(s, op);
    ApplyKeepsValid(s, op);
    if op.AddNode? {
      assert t.nodes[..|t.nodes| - 1] == s.nodes;
      NextOfMissing(s.nodes, op.name);
    }
    SameLinksSameWalk(s, t, s.arc.start);
  }

  /** After any history whose last rebuild is call k, the walk is start, the features enabled at the time
      of that call in registration order, end, whatever was registered, added or switched since. */
  lemma {:induction false} WalkIsLastRebuild(ss: seq<State>, ops: seq<Op>, k: nat, m: nat)
    requires IsHistory(ss, ops) && k < m < |ss| && ops[k] == RebuildAll
    requires forall j :: k < j < m ==> ops[j] != RebuildAll
    ensures Valid(ss[m].nodes, ss[m].arc)
    ensures Walk(ss[m].nodes, ss[m].arc) == Chain(ss[k].arc, |ss[k].arc.features|) + [ss[k].arc.end]
    decreases m
  {
    if k == m - 1 {
      HistoryValid(ss, ops, k);
      RebuildWalk(ss[k].nodes, ss[k].arc);
    } else {
      WalkIsLastRebuild(ss, ops, k, m - 1);
      OtherCallsKeepWalk(ss[m - 1], ops[m - 1]);
    }
  }

  /** A call that writes the flag of the feature called name: its last such call decides. */
  predicate WritesFlag(op: Op, name: string) {
    op == Enable(name) || op == Disable(name)
  }

  /** A feature is enabled in a reachable state exactly when the last enable or disable naming it was an
      enable; registering leaves it disabled. Other calls, rebuilds included, do not touch its flag. */
  lemma {:induction false} FlagIsLastChange(ss: seq<State>, ops: seq<Op>, k: nat, m: nat, j: nat, name: string)
    requires IsHistory(ss, ops) && k < m < |ss|
    requires || (WritesFlag(ops[k], name) && j < |ss[k].arc.features| && ss[k].arc.features[j] == name)
             || (ops[k] == Register(name) && j == |ss[k].arc.features|)
    requires forall i :: k < i < m ==> !WritesFlag(ops[i], name)
    ensures j < |ss[m].arc.features| == |ss[m].arc.enabled| && ss[m].arc.features[j] == name
    ensures ss[m].arc.enabled[j] <==> ops[k] == Enable(name)
    decreases m
  {
    if k < m - 1 {
      FlagIsLastChange(ss, ops, k, m - 1, j, name);
    }
    assert ss[m] == Apply(ss[m - 1], ops[m - 1]);
  }

  lemma RebuildOfThree(nodes: seq<Node>, a: Arc)
    requires |a.features| == 3 && a.enabled == [true, true, true]
    ensures Rebuild(nodes, a)
            == SetNext(SetNext(SetNext(SetNext(nodes, a.start, a.features[0]), a.features[0], a.features[1]),
                               a.features[1], a.features[2]), a.features[2], a.end)
  {
    var n1 := SetNext(nodes, a.start, a.features[0]);
    var n2 := SetNext(n1, a.features[0], a.features[1]);
    assert RebuildPrefix(nodes, a, 1) == (n1, a.features[0]);
    assert RebuildPrefix(nodes, a, 2) == (n2, a.features[1]);
    assert RebuildPrefix(nodes, a, 3) == (SetNext(n2, a.features[1], a.features[2]), a.features[2]);
  }

  /** The program registers f twice around g, enables both and rebuilds. */
  function DuplicateOps(f: string, g: string): seq<Op> {
    [Register(f), Register(g), Register(f), Enable(f), Enable(g), RebuildAll]
  }

  lemma DuplicateArc(ss: seq<State>, f: string, g: string)
    requires IsRun(ss, DuplicateOps(f, g))
    ensures ss[5].nodes == ss[0].nodes
    ensures ss[5].arc == Arc(ss[0].arc.start, ss[0].arc.end, [f, g, f], [true, true, true])
  {
    var ops := DuplicateOps(f, g);
    assert ss[1] == Apply(ss[0], ops[0]) && ss[2] == Apply(ss[1], ops[1]) && ss[3] == Apply(ss[2], ops[2]);
    assert ss[3].arc.features == [f, g, f] && |ss[3].arc.enabled| == 3;
    assert ss[4] == Apply(ss[3], ops[3]) && ss[5] == Apply(ss[4], ops[4]);
    assert ss[5].arc.enabled == [true, true, true];
  }

  lemma RebuildOfDuplicate(nodes: seq<Node>, a: Arc, f: string, g: string, x: string)
    requires DistinctNames(nodes) && IsNode(nodes, a.start) && IsNode(nodes, f) && IsNode(nodes, g)
    requires a.start != f && a.start != g && f != g
    requires a.features == [f, g, f] && a.enabled == [true, true, true]
    ensures NextOf(Rebuild(nodes, a), x)
            == if x == a.start || x == g then Some(f) else if x == f then Some(a.end) else NextOf(nodes, x)
  {
    RebuildOfThree(nodes, a);
    var n1 := SetNext(nodes, a.start, f);
    var n2 := SetNext(n1, f, g);
    var n3 := SetNext(n2, g, f);
    SameNames(nodes, n1);
    SameNames(n1, n2);
    SameNames(n2, n3);
    SetNextReads(n3, f, a.end, x);
    SetNextReads(n2, g, f, x);
    SetNextReads(n1, f, g, x);
    SetNextReads(nodes, a.start, f, x);
  }

  lemma DuplicateWalk(nodes: seq<Node>, a: Arc, f: string, g: string)
    requires DistinctNames(nodes) && IsNode(nodes, a.start) && IsNode(nodes, f) && IsNode(nodes, g)
    requires a.start != f && a.start != g && f != g && a.end !in [a.start, f, g] && NextOf(nodes, a.end) == None
    requires a.features == [f, g, f] && a.enabled == [true, true, true]
    ensures IsWalk(Rebuild(nodes, a), a.start, [a.start, f, a.end])
    ensures !IsWalk(Rebuild(nodes, a), a.start, Chain(a, 3) + [a.end])
  {
    var c := Chain(a, 3) + [a.end];
    assert Chain(a, 1) == Chain(a, 0) + [f] == [a.start, f];
    assert Chain(a, 2) == Chain(a, 1) + [g];
    assert Chain(a, 3) == Chain(a, 2) + [f];
    assert c[1] == c[3] == f;
    RebuildWalksIff(nodes, a);
    RebuildOfDuplicate(nodes, a, f, g, a.start);
    RebuildOfDuplicate(nodes, a, f, g, f);
    RebuildOfDuplicate(nodes, a, f, g, a.end);
  }

  /** Why features must be distinct: the second registration of f makes the rebuild overwrite the link
      from f to g, so the walk passes g by although g is enabled. */
  lemma DuplicateFeatureHidesAnother(ss: seq<State>, f: string, g: string)
    requires IsRun(ss, DuplicateOps(f, g))
    requires Admissible(ss[0], Register(f)) && Admissible(ss[0], Register(g)) && f != g
    ensures var s := ss[6];
      && s.arc.features == [f, g, f] && s.arc.enabled == [true, true, true]
      && IsWalk(s.nodes, s.arc.start, [s.arc.start, f, s.arc.end])
      && !IsWalk(s.nodes, s.arc.start, Chain(s.arc, 3) + [s.arc.end])
  {
    DuplicateArc(ss, f, g);
    assert ss[6] == Apply(ss[5], DuplicateOps(f, g)[5]);
    NextOfIsALink(ss[0].nodes, ss[0].arc.end);
    DuplicateWalk(ss[0].nodes, ss[5].arc, f, g);
  }
}
