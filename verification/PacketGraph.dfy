/** The packet graph of graph/pipeline/pipeline.c: RX -> L2 -> IPv4/IPv6 -> TX, with a drop node. A
    walk runs the source once and then, in any order, nodes with pending packets until none is
    left; a node is given all of its pending packets at once. */
module PacketGraph {
  import opened Bursts
  import opened Bytes
  import opened Ethernet

  const BURST: nat := 32

  /** An mbuf: what L2 looks at, and the rest. */
  datatype Packet = Packet(etherType: u16, payload: seq<int>)

  datatype Family = V4 | V6 | Other

  function FamilyOf(p: Packet): Family {
    if p.etherType == ETHER_TYPE_IPV4 then V4 else if p.etherType == ETHER_TYPE_IPV6 then V6 else Other
  }

  /** The packets of one family, in order. */
  function Of(f: Family, ps: seq<Packet>): seq<Packet> {
    Pick(FamilyOf, f, ps)
  }

  ghost predicate All(f: Family, ps: seq<Packet>) {
    AllOf(FamilyOf, f, ps)
  }

  datatype Node = L2 | IPv4 | IPv6 | TX | Drop

  /** Pending packets of each node, and histories: packets received, passed to tx_burst, accepted by
      it, and freed. */
  datatype State = State(l2: seq<Packet>, ipv4: seq<Packet>, ipv6: seq<Packet>, tx: seq<Packet>, drop: seq<Packet>,
                         received: seq<Packet>, handed: seq<Packet>, sent: seq<Packet>, freed: seq<Packet>)

  function Init(): State {
    State([], [], [], [], [], [], [], [], [])
  }

  function Pending(s: State, node: Node): seq<Packet> {
    match node case L2 => s.l2 case IPv4 => s.ipv4 case IPv6 => s.ipv6 case TX => s.tx case Drop => s.drop
  }

  predicate Idle(s: State) {
    s.l2 == s.ipv4 == s.ipv6 == s.tx == s.drop == []
  }

  /** Either a new walk starts with the source, or a node with pending packets runs; tx_burst accepts
      a prefix of what the TX node offers. */
  datatype Action = Receive(burst: seq<Packet>) | Process(node: Node, accepted: nat)

  predicate Allowed(s: State, a: Action) {
    match a
    case Receive(burst) => Idle(s) && |burst| <= BURST
    case Process(node, accepted) => Pending(s, node) != [] && (node == TX ==> accepted <= |s.tx|)
  }

  function Step(s: State, a: Action): State
    requires Allowed(s, a)
  {
    match a
    case Receive(burst) => s.(l2 := s.l2 + burst, received := s.received + burst)
    case Process(L2, _) =>
      s.(l2 := [], ipv4 := s.ipv4 + Of(V4, s.l2), ipv6 := s.ipv6 + Of(V6, s.l2), drop := s.drop + Of(Other, s.l2))
    case Process(IPv4, _) => s.(ipv4 := [], tx := s.tx + s.ipv4)
    case Process(IPv6, _) => s.(ipv6 := [], tx := s.tx + s.ipv6)
    case Process(TX, n) =>
      s.(tx := [], handed := s.handed + s.tx, sent := s.sent + s.tx[..n], freed := s.freed + s.tx[n..])
    case Process(Drop, _) => s.(drop := [], freed := s.freed + s.drop)
  }

  ghost predicate IsRun(states: seq<State>, actions: seq<Action>) {
    && |states| == |actions| + 1 && states[0] == Init()
    && forall k :: 0 <= k < |actions| ==> Allowed(states[k], actions[k]) && states[k + 1] == Step(states[k], actions[k])
  }

  ghost predicate AreParts(ps: seq<Packet>, v4: seq<Packet>, v6: seq<Packet>, rest: seq<Packet>) {
    v4 == Of(V4, ps) && v6 == Of(V6, ps) && rest == Of(Other, ps)
  }

  lemma NextPart(ps: seq<Packet>, i: nat, v4: seq<Packet>, v6: seq<Packet>, rest: seq<Packet>)
    requires i < |ps| && AreParts(ps[..i], v4, v6, rest)
    ensures match FamilyOf(ps[i])
            case V4 => AreParts(ps[..i + 1], v4 + [ps[i]], v6, rest)
            case V6 => AreParts(ps[..i + 1], v4, v6 + [ps[i]], rest)
            case Other => AreParts(ps[..i + 1], v4, v6, rest + [ps[i]])
  {
    PickNext(FamilyOf, V4, ps, i);
    PickNext(FamilyOf, V6, ps, i);
    PickNext(FamilyOf, Other, ps, i);
  }

  lemma CountsByFamily(ps: seq<Packet>, p: Packet)
    ensures multiset(Of(V4, ps))[p] + multiset(Of(V6, ps))[p] + multiset(Of(Other, ps))[p] == multiset(ps)[p]
  {
    PickCounts(FamilyOf, V4, ps, p);
    PickCounts(FamilyOf, V6, ps, p);
    PickCounts(FamilyOf, Other, ps, p);
  }

  /** Splitting a burst by family loses nothing. */
  lemma PickPartitions(ps: seq<Packet>)
    ensures multiset(Of(V4, ps)) + multiset(Of(V6, ps)) + multiset(Of(Other, ps)) == multiset(ps)
  {
    forall p: Packet
      ensures multiset(Of(V4, ps))[p] + multiset(Of(V6, ps))[p] + multiset(Of(Other, ps))[p] == multiset(ps)[p]
    {
      CountsByFamily(ps, p);
    }
  }

  lemma PickLengths(ps: seq<Packet>)
    ensures |Of(V4, ps)| + |Of(V6, ps)| + |Of(Other, ps)| == |ps|
  {
    PickPartitions(ps);
    assert |multiset(Of(V4, ps)) + multiset(Of(V6, ps)) + multiset(Of(Other, ps))| == |multiset(ps)|;
  }

  /** Every received packet is somewhere exactly once. */
  ghost predicate Conserved(s: State) {
    multiset(s.received)
    == multiset(s.l2) + multiset(s.ipv4) + multiset(s.ipv6) + multiset(s.tx) + multiset(s.drop)
                            + multiset(s.sent) + multiset(s.freed)
  }

  /** Only what TX handed over was sent, queues hold what their node is for, and
      no more than one burst is inside the graph. */
  ghost predicate Sorted(s: State) {
    && multiset(s.sent) <= multiset(s.handed)
    && All(V4, s.ipv4) && All(V6, s.ipv6) && All(Other, s.drop) && Of(Other, s.tx) == []
    && Of(Other, s.handed) == []
    && |s.l2| + |s.ipv4| + |s.ipv6| + |s.tx| + |s.drop| <= BURST
  }

  ghost predicate Inv(s: State) {
    Conserved(s) && Sorted(s) && InOrder(V4, s) && InOrder(V6, s)
  }

  lemma L2Conserves(s: State, accepted: nat)
    requires Conserved(s) && Allowed(s, Process(L2, accepted))
    ensures Conserved(Step(s, Process(L2, accepted)))
  {
    PickPartitions(s.l2);
  }

  lemma TxConserves(s: State, accepted: nat)
    requires Conserved(s) && Allowed(s, Process(TX, accepted))
    ensures Conserved(Step(s, Process(TX, accepted)))
  {
    assert s.tx == s.tx[..accepted] + s.tx[accepted..];
  }

  lemma StepConserves(s: State, a: Action)
    requires Conserved(s) && Allowed(s, a)
    ensures Conserved(Step(s, a))
  {
    match a
    case Process(L2, n) => L2Conserves(s, n);
    case Process(TX, n) => TxConserves(s, n);
    case _ =>
  }

  lemma L2Sorts(s: State, accepted: nat)
    requires Sorted(s) && Allowed(s, Process(L2, accepted))
    ensures Sorted(Step(s, Process(L2, accepted)))
  {
    PickLengths(s.l2);
    PickIsPure(FamilyOf, V4, s.l2);
    PickIsPure(FamilyOf, V6, s.l2);
    PickIsPure(FamilyOf, Other, s.l2);
  }

  lemma IpSorts(s: State, node: Node, accepted: nat)
    requires Sorted(s) && (node == IPv4 || node == IPv6) && Allowed(s, Process(node, accepted))
    ensures Sorted(Step(s, Process(node, accepted)))
  {
    OtherNodeKeepsPick(Other, if node == IPv4 then V4 else V6, s.tx, Pending(s, node));
  }

  lemma TxSorts(s: State, accepted: nat)
    requires Sorted(s) && Allowed(s, Process(TX, accepted))
    ensures Sorted(Step(s, Process(TX, accepted)))
  {
    PickAppend(FamilyOf, Other, s.handed, s.tx);
    assert s.tx == s.tx[..accepted] + s.tx[accepted..];
  }

  lemma StepSorts(s: State, a: Action)
    requires Sorted(s) && Allowed(s, a)
    ensures Sorted(Step(s, a))
  {
    match a
    case Receive(_) =>
    case Process(L2, n) => L2Sorts(s, n);
    case Process(TX, n) => TxSorts(s, n);
    case Process(Drop, _) =>
    case Process(node, n) => IpSorts(s, node, n);
  }

  function Queue(f: Family, s: State): seq<Packet> {
    if f == V4 then s.ipv4 else s.ipv6
  }

  /** Within a family, from the card back to the source, packets are in the order received. */
  ghost predicate InOrder(f: Family, s: State) {
    Of(f, s.handed) + Of(f, s.tx) + Queue(f, s) + Of(f, s.l2) == Of(f, s.received)
  }

  lemma ReceiveKeepsOrder(s: State, burst: seq<Packet>, f: Family)
    requires InOrder(f, s) && Allowed(s, Receive(burst))
    ensures InOrder(f, Step(s, Receive(burst)))
  {
    PickAppend(FamilyOf, f, s.l2, burst);
    PickAppend(FamilyOf, f, s.received, burst);
    var front := Of(f, s.handed) + Of(f, s.tx) + Queue(f, s);
    assert front + (Of(f, s.l2) + Of(f, burst)) == front + Of(f, s.l2) + Of(f, burst);
  }

  lemma L2KeepsOrder(s: State, f: Family, accepted: nat)
    requires InOrder(f, s) && Allowed(s, Process(L2, accepted)) && f != Other
    ensures InOrder(f, Step(s, Process(L2, accepted)))
  {
    var front := Of(f, s.handed) + Of(f, s.tx);
    assert front + (Queue(f, s) + Of(f, s.l2)) + [] == front + Queue(f, s) + Of(f, s.l2);
  }

  /** The node of family f moves f's queue behind what TX already holds of f. */
  lemma OwnNodeExtendsPick(f: Family, tx: seq<Packet>, q: seq<Packet>)
    requires All(f, q)
    ensures Of(f, tx + q) == Of(f, tx) + q
  {
    PickAppend(FamilyOf, f, tx, q);
    PickAll(FamilyOf, f, f, q);
  }

  lemma MoveUp<T>(a: seq<T>, b: seq<T>, c: seq<T>, d: seq<T>)
    ensures a + (b + c) + [] + d == a + b + c + d
  {
  }

  /** The other node adds nothing of f. */
  lemma OtherNodeKeepsPick(f: Family, g: Family, tx: seq<Packet>, q: seq<Packet>)
    requires f != g && All(g, q)
    ensures Of(f, tx + q) == Of(f, tx)
  {
    PickAppend(FamilyOf, f, tx, q);
    PickAll(FamilyOf, f, g, q);
    assert Of(f, tx) + [] == Of(f, tx);
  }

  lemma IpKeepsOrder(s: State, f: Family, node: Node, accepted: nat)
    requires Sorted(s) && InOrder(f, s) && f != Other && (node == IPv4 || node == IPv6)
    requires Allowed(s, Process(node, accepted))
    ensures InOrder(f, Step(s, Process(node, accepted)))
  {
    if (f == V4) == (node == IPv4) {
      OwnNodeExtendsPick(f, s.tx, Queue(f, s));
      MoveUp(Of(f, s.handed), Of(f, s.tx), Queue(f, s), Of(f, s.l2));
    } else {
      OtherNodeKeepsPick(f, if node == IPv4 then V4 else V6, s.tx, Pending(s, node));
    }
  }

  lemma TxKeepsOrder(s: State, f: Family, accepted: nat)
    requires InOrder(f, s) && Allowed(s, Process(TX, accepted))
    ensures InOrder(f, Step(s, Process(TX, accepted)))
  {
    PickAppend(FamilyOf, f, s.handed, s.tx);
    assert (Of(f, s.handed) + Of(f, s.tx)) + [] == Of(f, s.handed) + Of(f, s.tx);
  }

  lemma StepKeepsOrder(s: State, a: Action, f: Family)
    requires Sorted(s) && InOrder(f, s) && Allowed(s, a) && f != Other
    ensures InOrder(f, Step(s, a))
  {
    match a
    case Receive(burst) => ReceiveKeepsOrder(s, burst, f);
    case Process(L2, n) => L2KeepsOrder(s, f, n);
    case Process(TX, n) => TxKeepsOrder(s, f, n);
    case Process(Drop, _) =>
    case Process(node, n) => IpKeepsOrder(s, f, node, n);
  }

  lemma {:induction false} RunKeepsInv(states: seq<State>, actions: seq<Action>, k: nat)
    requires IsRun(states, actions) && k < |states|
    ensures Inv(states[k])
  {
    if k > 0 {
      RunKeepsInv(states, actions, k - 1);
      StepConserves(states[k - 1], actions[k - 1]);
      StepSorts(states[k - 1], actions[k - 1]);
      StepKeepsOrder(states[k - 1], actions[k - 1], V4);
      StepKeepsOrder(states[k - 1], actions[k - 1], V6);
    }
  }

  // ---------------------------------------------------------------- by the numbers on the packets

  function TypeOf(p: Packet): u16 {
    p.etherType
  }

  predicate NotIp(p: Packet) {
    p.etherType != 0x0800 && p.etherType != 0x86DD
  }

  /** The packets with this number, in order. */
  function Typed(t: u16, ps: seq<Packet>): seq<Packet> {
    Pick(TypeOf, t, ps)
  }

  lemma {:induction false} OfIsTyped(ps: seq<Packet>)
    ensures Of(V4, ps) == Typed(0x0800, ps) && Of(V6, ps) == Typed(0x86DD, ps) && Of(Other, ps) == Pick(NotIp, true, ps)
    decreases |ps|
  {
    if ps != [] {
      OfIsTyped(ps[..|ps| - 1]);
    }
  }

  /** L2 sends ether type 0x0800 to the IPv4 node, 0x86DD to the IPv6 node and everything else to the drop
      node, each behind what is already pending there and in the order of arrival. */
  lemma L2SortsByNumber(s: State, accepted: nat)
    requires Allowed(s, Process(L2, accepted))
    ensures var u := Step(s, Process(L2, accepted));
      && u.ipv4 == s.ipv4 + Typed(0x0800, s.l2)
      && u.ipv6 == s.ipv6 + Typed(0x86DD, s.l2)
      && u.drop == s.drop + Pick(NotIp, true, s.l2)
      && u == s.(l2 := [], ipv4 := u.ipv4, ipv6 := u.ipv6, drop := u.drop)
  {
    OfIsTyped(s.l2);
  }

  lemma IdleDelivers(s: State)
    requires Inv(s) && Idle(s)
    ensures multiset(s.sent) + multiset(s.freed) == multiset(s.received)
    ensures Of(V4, s.handed) == Of(V4, s.received) && Of(V6, s.handed) == Of(V6, s.received)
  {
    assert Of(V4, s.handed) + [] + [] + [] == Of(V4, s.handed);
    assert Of(V6, s.handed) + [] + [] + [] == Of(V6, s.handed);
  }

  lemma NoneOfOther(ps: seq<Packet>, p: Packet)
    requires Of(Other, ps) == [] && p in ps
    ensures p.etherType == 0x0800 || p.etherType == 0x86DD
  {
    PickCounts(FamilyOf, Other, ps, p);
  }

  /** Whenever a walk has ended, every received packet was transmitted or freed exactly once; exactly the
      packets with ether type 0x0800 or 0x86DD reached the card, each type in the order of arrival. */
  lemma WalkDelivers(states: seq<State>, actions: seq<Action>, k: nat)
    requires IsRun(states, actions) && k < |states| && Idle(states[k])
    ensures var s := states[k];
      && multiset(s.sent) + multiset(s.freed) == multiset(s.received)
      && Typed(0x0800, s.handed) == Typed(0x0800, s.received)
      && Typed(0x86DD, s.handed) == Typed(0x86DD, s.received)
      && (forall p :: p in s.handed ==> p.etherType == 0x0800 || p.etherType == 0x86DD)
      && multiset(s.sent) <= multiset(s.handed)
  {
    RunKeepsInv(states, actions, k);
    IdleDelivers(states[k]);
    OfIsTyped(states[k].handed);
    OfIsTyped(states[k].received);
    forall p | p in states[k].handed
      ensures p.etherType == 0x0800 || p.etherType == 0x86DD
    {
      NoneOfOther(states[k].handed, p);
    }
  }

  predicate Transmits(a: Action) {
    a.Process? && a.node == TX
  }

  /** What the card accepted, call by call: of each call a prefix. */
  function Accepted(states: seq<State>, actions: seq<Action>, k: nat): seq<Packet>
    requires k <= |actions| < |states|
    requires forall j :: 0 <= j < |actions| ==> Allowed(states[j], actions[j])
  {
    if k == 0 then []
    else
      Accepted(states, actions, k - 1)
      + if Transmits(actions[k - 1]) then states[k - 1].tx[..actions[k - 1].accepted] else []
  }

  lemma StepSends(s: State, a: Action)
    requires Allowed(s, a)
    ensures Step(s, a).sent == s.sent + if Transmits(a) then s.tx[..a.accepted] else []
    ensures Transmits(a) && a.accepted == |s.tx| ==>
              Step(s, a).sent == s.sent + s.tx && Step(s, a).handed == s.handed + s.tx
    ensures !Transmits(a) ==> Step(s, a).sent == s.sent && Step(s, a).handed == s.handed
  {
    assert s.tx[..|s.tx|] == s.tx;
    assert s.sent + [] == s.sent;
  }

  /** What was sent is what the card accepted, in the order of the calls. */
  lemma {:induction false} SentIsAccepted(states: seq<State>, actions: seq<Action>, k: nat)
    requires IsRun(states, actions) && k <= |actions|
    ensures states[k].sent == Accepted(states, actions, k)
  {
    if k > 0 {
      SentIsAccepted(states, actions, k - 1);
      StepSends(states[k - 1], actions[k - 1]);
    }
  }

  /** If the card accepts everything, everything handed to it was sent. */
  lemma {:induction false} AllAccepted(states: seq<State>, actions: seq<Action>, k: nat)
    requires IsRun(states, actions) && k <= |actions|
    requires forall j :: 0 <= j < k && Transmits(actions[j]) ==> actions[j].accepted == |states[j].tx|
    ensures states[k].sent == states[k].handed
  {
    if k > 0 {
      AllAccepted(states, actions, k - 1);
      StepSends(states[k - 1], actions[k - 1]);
    }
  }

  /** Under every schedule the L2 node is given at most 32 packets, so none of its arrays overruns. */
  lemma L2NeverOverruns(states: seq<State>, actions: seq<Action>, k: nat)
    requires IsRun(states, actions) && k < |states|
    ensures |states[k].l2| <= 32
    ensures forall f :: |Of(f, states[k].l2)| <= 32
  {
    RunKeepsInv(states, actions, k);
    PickLengths(states[k].l2);
  }

  /** A bound on the node runs still needed: what is pending at L2 may need all five other runs. */
  function Work(s: State): nat {
    (if s.l2 != [] then 6 else 0) + (if s.ipv4 != [] then 2 else 0) + (if s.ipv6 != [] then 2 else 0)
    + (if s.tx != [] then 1 else 0) + (if s.drop != [] then 1 else 0)
  }

  lemma ProcessingLowersWork(s: State, node: Node, accepted: nat)
    requires Allowed(s, Process(node, accepted))
    ensures Work(Step(s, Process(node, accepted))) < Work(s)
  {
  }

  /** A walk ends whichever pending nodes are picked: after the source, at most six nodes run, and when
      no more work is left nothing is pending. */
  lemma {:induction false} WalkEnds(states: seq<State>, actions: seq<Action>, lo: nat, hi: nat)
    requires IsRun(states, actions) && lo < hi <= |actions| && actions[lo].Receive?
    requires forall j :: lo < j < hi ==> actions[j].Process?
    ensures hi - lo - 1 + Work(states[hi]) <= 6
    ensures Work(states[hi]) == 0 <==> Idle(states[hi])
    decreases hi
  {
    if hi == lo + 1 {
      assert Idle(states[lo]);
    } else {
      WalkEnds(states, actions, lo, hi - 1);
      ProcessingLowersWork(states[hi - 1], actions[hi - 1].node, actions[hi - 1].accepted);
    }
  }

  /** The nodes' process callbacks on the graph's queues. */
  class Graph {
    var l2: seq<Packet>
    var ipv4: seq<Packet>
    var ipv6: seq<Packet>
    var tx: seq<Packet>
    var drop: seq<Packet>
    ghost var received: seq<Packet>
    ghost var handed: seq<Packet>
    var sent: seq<Packet>
    var freed: seq<Packet>

    ghost function View(): State
      reads this
    {
      State(l2, ipv4, ipv6, tx, drop, received, handed, sent, freed)
    }

    constructor ()
      ensures View() == Init()
    {
      l2, ipv4, ipv6, tx, drop, received, handed, sent, freed := [], [], [], [], [], [], [], [], [];
    }

    method RxNodeProcess(burst: seq<Packet>)
      requires Allowed(View(), Receive(burst))
      modifies this
      ensures View() == Step(old(View()), Receive(burst))
    {
      received := received + burst;
      if |burst| > 0 {
        l2 := l2 + burst;
      }
    }

    /** a[n++] = m */
    method Append(a: array<Packet>, n: nat, m: Packet) returns (next: nat)
      requires n < a.Length
      modifies a
      ensures next == n + 1 && a[..next] == old(a[..n]) + [m]
    {
      a[n] := m;
      next := n + 1;
    }

    /** The burst is split into three local arrays of BURST entries each; r holds what they contain. */
    method Classify(objs: seq<Packet>) returns (r: (seq<Packet>, seq<Packet>, seq<Packet>))
      requires |objs| <= BURST
      ensures r == (Of(V4, objs), Of(V6, objs), Of(Other, objs))
      ensures r == (Typed(0x0800, objs), Typed(0x86DD, objs), Pick(NotIp, true, objs))
    {
      OfIsTyped(objs);
      var v4s, v6s, drops := new Packet[BURST], new Packet[BURST], new Packet[BURST];
      var v4, v6, d := 0, 0, 0;
      for i := 0 to |objs|
        invariant v4 + v6 + d == i
        invariant AreParts(objs[..i], v4s[..v4], v6s[..v6], drops[..d])
      {
        NextPart(objs, i, v4s[..v4], v6s[..v6], drops[..d]);
        match FamilyOf(objs[i])
        case V4 => v4 := Append(v4s, v4, objs[i]);
        case V6 => v6 := Append(v6s, v6, objs[i]);
        case Other => d := Append(drops, d, objs[i]);
      }
      assert objs[..|objs|] == objs;
      r := (v4s[..v4], v6s[..v6], drops[..d]);
    }

    method L2NodeProcess()
      requires Allowed(View(), Process(L2, 0)) && |l2| <= BURST
      modifies this
      ensures View() == Step(old(View()), Process(L2, 0))
      ensures ipv4 == old(ipv4) + Typed(0x0800, old(l2)) && ipv6 == old(ipv6) + Typed(0x86DD, old(l2))
      ensures drop == old(drop) + Pick(NotIp, true, old(l2))
    {
      var r := Classify(l2);
      l2 := [];
      if |r.0| > 0 {
        ipv4 := ipv4 + r.0;
      }
      if |r.1| > 0 {
        ipv6 := ipv6 + r.1;
      }
      if |r.2| > 0 {
        drop := drop + r.2;
      }
    }

    method Ipv4NodeProcess()
      requires Allowed(View(), Process(IPv4, 0))
      modifies this
      ensures View() == Step(old(View()), Process(IPv4, 0))
    {
      tx, ipv4 := tx + ipv4, [];
    }

    method Ipv6NodeProcess()
      requires Allowed(View(), Process(IPv6, 0))
      modifies this
      ensures View() == Step(old(View()), Process(IPv6, 0))
    {
      tx, ipv6 := tx + ipv6, [];
    }

    method TxNodeProcess(accepted: nat)
      requires Allowed(View(), Process(TX, accepted))
      modifies this
      ensures View() == Step(old(View()), Process(TX, accepted))
    {
      var objs := tx;
      tx := [];
      handed := handed + objs;
      sent := sent + objs[..accepted];
      freed := FreeFrom(freed, objs, accepted);
    }

    method DropNodeProcess()
      requires Allowed(View(), Process(Drop, 0))
      modifies this
      ensures View() == Step(old(View()), Process(Drop, 0))
    {
      var objs := drop;
      drop := [];
      freed := FreeFrom(freed, objs, 0);
    }
  }
}
