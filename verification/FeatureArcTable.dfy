/** feature_arc/sample/main.c on its two static arrays and one static struct. Every method is proved
    to do to the arrays exactly what FeatureArc says it does to their contents. */
module FeatureArcTable {
  import opened FeatureArc

  class Program {
    const nodes: array<Node>
    var nodeCount: nat
    var start: string
    var end: string
    const features: array<string>
    const enabled: array<bool>
    var count: nat

    ghost predicate Limits()
      reads this
    {
      && nodes.Length == MAX_NODES && features.Length == enabled.Length == MAX_FEATURES
      && nodeCount <= MAX_NODES && count <= MAX_FEATURES
    }

    ghost function Nodes(): seq<Node>
      requires Limits()
      reads this, nodes
    {
      nodes[..nodeCount]
    }

    ghost function L3Arc(): Arc
      requires Limits()
      reads this, features, enabled
    {
      Arc(start, end, features[..count], enabled[..count])
    }

    constructor ()
      ensures Limits() && Nodes() == [] && fresh(nodes) && fresh(features) && fresh(enabled)
    {
      nodes := new Node[MAX_NODES](_ => Node("", None));
      features := new string[MAX_FEATURES](_ => "");
      enabled := new bool[MAX_FEATURES](_ => false);
      nodeCount, count, start, end := 0, 0, "", "";
    }

    method AddNode(name: string)
      requires Limits() && nodeCount < MAX_NODES
      modifies this`nodeCount, nodes
      ensures Limits() && Nodes() == old(Nodes()) + [Node(name, None)]
      ensures L3Arc() == old(L3Arc())
    {
      nodes[nodeCount] := Node(name, None);
      nodeCount := nodeCount + 1;
    }

    method SetNextLink(src: string, dst: string)
      requires Limits()
      modifies nodes
      ensures Nodes() == SetNext(old(Nodes()), src, dst)
    {
      for i := 0 to nodeCount
        invariant nodes[..] == old(nodes[..])
        invariant forall j :: 0 <= j < i ==> nodes[j].name != src
      {
        if nodes[i].name == src {
          assert FirstNode(old(Nodes()), src) == i;
          nodes[i] := Node(nodes[i].name, Some(dst));
          return;
        }
      }
    }

    method FeatureArcInit(first: string, last: string)
      requires Limits()
      modifies this`start, this`end, this`count
      ensures Limits() && L3Arc() == Arc(first, last, [], []) && Nodes() == old(Nodes())
    {
      start, end, count := first, last, 0;
    }

    method FeatureRegister(name: string)
      requires Limits() && count < MAX_FEATURES
      modifies this`count, features, enabled
      ensures Limits() && Nodes() == old(Nodes())
      ensures L3Arc() == Apply(State(old(Nodes()), old(L3Arc())), Register(name)).arc
    {
      features[count] := name;
      enabled[count] := false;
      count := count + 1;
    }

    /** feature_enable and feature_disable differ only in the flag they write. */
    method FeatureSet(name: string, on: bool)
      requires Limits()
      modifies enabled
      ensures L3Arc() == Apply(State(old(Nodes()), old(L3Arc())), if on then Enable(name) else Disable(name)).arc
    {
      for i := 0 to count
        invariant forall j :: i <= j < count ==> enabled[j] == old(enabled[j])
        invariant forall j :: 0 <= j < i ==> enabled[j] == if features[j] == name then on else old(enabled[j])
      {
        if features[i] == name {
          enabled[i] := on;
        }
      }
    }

    method FeatureArcRebuild()
      requires Limits()
      modifies nodes
      ensures Nodes() == Rebuild(old(Nodes()), L3Arc())
    {
      var prev := start;
      for i := 0 to count
        invariant (Nodes(), prev) == RebuildPrefix(old(Nodes()), L3Arc(), i)
      {
        if enabled[i] {
          SetNextLink(prev, features[i]);
          prev := features[i];
        }
      }
      SetNextLink(prev, end);
    }

    /** dump_pipeline's search for the successor of cur. */
    method FindNext(cur: string) returns (next: Link)
      requires Limits()
      ensures next == NextOf(Nodes(), cur)
    {
      next := None;
      for i := 0 to nodeCount
        invariant next == NextOf(nodes[..i], cur)
      {
        assert nodes[..i + 1][..i] == nodes[..i];
        if nodes[i].name == cur {
          next := nodes[i].next;
        }
      }
    }

    /** The names dump_pipeline prints. Without forward links its loop need not end. */
    method DumpPipeline() returns (printed: seq<string>)
      requires Limits() && Ordered(Nodes(), L3Arc())
      ensures printed == Walk(Nodes(), L3Arc())
    {
      printed := [];
      var cur := start;
      while true
        invariant printed + WalkFrom(Nodes(), L3Arc(), cur) == Walk(Nodes(), L3Arc())
        decreases |L3Arc().features| + 1 - Place(L3Arc(), cur)
      {
        printed := printed + [cur];
        var next := FindNext(cur);
        NextIsForward(Nodes(), L3Arc(), cur);
        if next == None {
          break;
        }
        cur := next.name;
      }
    }
  }
}
