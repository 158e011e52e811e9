/** The RX -> parser -> TX threads of thread_parsing/threaded_project. Every ring or device call,
    test of force_quit and unchecked enqueue is one step of its thread; packets a thread holds
    between two steps are part of its position. The network card chooses the packets it delivers
    and how many of a burst it transmits. */
module Pipeline {
  import opened Bursts

  const BURST_SIZE: nat := 32
  const RX_LIMIT: nat := 10
  /** Rings of size 1024 hold 1023 packets. */
  const RING_CAPACITY: nat := 1023

  datatype RxPc<P> = RxTop | RxPoll | RxFill(left: seq<P>) | RxCheck | RxDone
  datatype ParserPc<P> = PaTop | PaDequeue | PaForward(held: seq<P>) | PaDone
  datatype TxPc<P> = TxTop | TxDequeue | TxSend(held: seq<P>) | TxDone

  /** received, handed, sent and freed are histories: packets delivered by rx_burst, packets passed
      to tx_burst, packets it accepted, packets freed by TX because it did not. leaked are packets
      an unchecked enqueue refused, dropped those the parser freed because the ring was full. */
  datatype State<P> = State(
    rx: RxPc<P>, pa: ParserPc<P>, tx: TxPc<P>,
    toParser: seq<P>, toTx: seq<P>, quit: bool,
    rxCount: nat, parserCount: nat, txCount: nat,
    received: seq<P>, handed: seq<P>, sent: seq<P>, freed: seq<P>,
    leaked: seq<P>, dropped: seq<P>)

  function Init<P>(): State<P> {
    State(RxTop, PaTop, TxTop, [], [], false, 0, 0, 0, [], [], [], [], [], [])
  }

  /** One step of one thread, with the card's answer where it asks the card. */
  datatype Action<P> = Rx(burst: seq<P>) | Parser | Tx(accepted: nat)

  /** rx_burst delivers at most a full array; tx_burst accepts a prefix of what it is given. */
  predicate Allowed<P>(t: State<P>, a: Action<P>) {
    match a
    case Rx(burst) => |burst| <= BURST_SIZE
    case Parser => true
    case Tx(accepted) => t.tx.TxSend? ==> accepted <= |t.tx.held|
  }

  function RxStep<P>(t: State<P>, burst: seq<P>): State<P> {
    match t.rx
    case RxTop => t.(rx := if t.quit then RxDone else RxPoll)
    case RxPoll => t.(rx := RxFill(burst), rxCount := t.rxCount + |burst|, received := t.received + burst)
    case RxFill(left) =>
      if left == [] then t.(rx := RxCheck)
      else if |t.toParser| < RING_CAPACITY then t.(rx := RxFill(left[1..]), toParser := t.toParser + [left[0]])
      else t.(rx := RxFill(left[1..]), leaked := t.leaked + [left[0]])
    case RxCheck => if t.rxCount >= RX_LIMIT then t.(rx := RxDone, quit := true) else t.(rx := RxTop)
    case RxDone => t
  }

  function ParserStep<P>(t: State<P>): State<P> {
    match t.pa
    case PaTop => t.(pa := if t.quit then PaDone else PaDequeue)
    case PaDequeue =>
      var n := Min(BURST_SIZE, |t.toParser|);
      if n == 0 then t.(pa := PaTop)
      else t.(pa := PaForward(t.toParser[..n]), toParser := t.toParser[n..], parserCount := t.parserCount + n)
    case PaForward(held) =>
      var m := Min(|held|, if |t.toTx| <= RING_CAPACITY then RING_CAPACITY - |t.toTx| else 0);
      t.(pa := PaTop, toTx := t.toTx + held[..m], dropped := t.dropped + held[m..])
    case PaDone => t
  }

  function TxStep<P>(t: State<P>, accepted: nat): State<P>
    requires t.tx.TxSend? ==> accepted <= |t.tx.held|
  {
    match t.tx
    case TxTop => t.(tx := if t.quit then TxDone else TxDequeue)
    case TxDequeue =>
      var n := Min(BURST_SIZE, |t.toTx|);
      if n == 0 then t.(tx := TxTop)
      else t.(tx := TxSend(t.toTx[..n]), toTx := t.toTx[n..], txCount := t.txCount + n)
    case TxSend(held) =>
      t.(tx := TxTop, handed := t.handed + held, sent := t.sent + held[..accepted], freed := t.freed + held[accepted..])
    case TxDone => t
  }

  function Step<P>(t: State<P>, a: Action<P>): State<P>
    requires Allowed(t, a)
  {
    match a
    case Rx(burst) => RxStep(t, burst)
    case Parser => ParserStep(t)
    case Tx(accepted) => TxStep(t, accepted)
  }

  /** states is what the three threads go through when they interleave as in actions. */
  ghost predicate IsRun<P>(states: seq<State<P>>, actions: seq<Action<P>>) {
    && |states| == |actions| + 1
    && states[0] == Init()
    && forall k :: 0 <= k < |actions| ==> Allowed(states[k], actions[k]) && states[k + 1] == Step(states[k], actions[k])
  }

  function HeldRx<P>(t: State<P>): seq<P> { if t.rx.RxFill? then t.rx.left else [] }
  function HeldParser<P>(t: State<P>): seq<P> { if t.pa.PaForward? then t.pa.held else [] }
  function HeldTx<P>(t: State<P>): seq<P> { if t.tx.TxSend? then t.tx.held else [] }

  /** Front to back, the pipeline contains exactly the received packets in the order received. */
  ghost predicate InOrder<P>(t: State<P>) {
    t.handed + HeldTx(t) + t.toTx + HeldParser(t) + t.toParser + HeldRx(t) == t.received
  }

  ghost predicate Counted<P>(t: State<P>) {
    && t.rxCount == |t.received|
    && t.parserCount == |t.handed| + |HeldTx(t)| + |t.toTx| + |HeldParser(t)|
    && t.txCount == |t.handed| + |HeldTx(t)|
    && t.leaked == t.dropped == []
  }

  ghost predicate Settled<P>(t: State<P>) {
    && |t.handed| == |t.sent| + |t.freed|
    && multiset(t.handed) == multiset(t.sent) + multiset(t.freed)
  }

  ghost predicate Bounded<P>(t: State<P>) {
    && (t.rx.RxTop? || t.rx.RxPoll? ==> t.rxCount < RX_LIMIT)
    && t.rxCount < RX_LIMIT + BURST_SIZE
    && (t.rx.RxDone? <==> t.quit)
    && (t.quit ==> t.rxCount >= RX_LIMIT)
    && (t.pa.PaDone? || t.tx.TxDone? ==> t.quit)
  }

  ghost predicate Inv<P>(t: State<P>) {
    InOrder(t) && Counted(t) && Settled(t) && Bounded(t)
  }

  /** With at most 41 packets inside, no enqueue can find its ring full. */
  lemma RoomEverywhere<P>(t: State<P>)
    requires Inv(t)
    ensures |t.toParser| + |HeldRx(t)| < RX_LIMIT + BURST_SIZE
    ensures |t.toTx| + |HeldParser(t)| < RX_LIMIT + BURST_SIZE
  {
    assert |t.received| == |t.handed| + |HeldTx(t)| + |t.toTx| + |HeldParser(t)| + |t.toParser| + |HeldRx(t)|;
  }

  lemma Split<P>(x: seq<P>, y: seq<P>, n: nat)
    requires n <= |y|
    ensures x + y[..n] + y[n..] == x + y
  {
  }

  lemma RxOrder<P>(t: State<P>, burst: seq<P>)
    requires InOrder(t) && (t.rx.RxFill? ==> |t.toParser| < RING_CAPACITY)
    ensures InOrder(RxStep(t, burst))
  {
    var front := t.handed + HeldTx(t) + t.toTx + HeldParser(t);
    match t.rx
    case RxPoll =>
      assert front + t.toParser + [] + burst == front + t.toParser + burst;
    case RxFill(left) =>
      if left != [] {
        Split(front + t.toParser, left, 1);
        assert front + (t.toParser + [left[0]]) == front + t.toParser + left[..1];
      }
    case _ =>
  }

  lemma ParserOrder<P>(t: State<P>)
    requires InOrder(t) && |t.toTx| + |HeldParser(t)| <= RING_CAPACITY
    ensures InOrder(ParserStep(t))
  {
    var front := t.handed + HeldTx(t);
    match t.pa
    case PaDequeue =>
      Split(front + t.toTx, t.toParser, Min(BURST_SIZE, |t.toParser|));
      assert front + t.toTx + [] == front + t.toTx;
    case PaForward(held) =>
      assert front + (t.toTx + held) + [] == front + t.toTx + held;
      assert held[..|held|] == held;
    case _ =>
  }

  lemma TxOrder<P>(t: State<P>, accepted: nat)
    requires InOrder(t) && Allowed(t, Tx(accepted))
    ensures InOrder(TxStep(t, accepted))
  {
    match t.tx
    case TxDequeue =>
      Split(t.handed, t.toTx, Min(BURST_SIZE, |t.toTx|));
      assert t.handed + [] == t.handed;
    case TxSend(held) =>
      assert (t.handed + held) + [] == t.handed + held;
    case _ =>
  }

  lemma RxCounts<P>(t: State<P>, burst: seq<P>)
    requires Counted(t) && |t.toParser| < RING_CAPACITY
    ensures Counted(RxStep(t, burst))
  {
  }

  lemma ParserCounts<P>(t: State<P>)
    requires Counted(t) && |t.toTx| + |HeldParser(t)| <= RING_CAPACITY
    ensures Counted(ParserStep(t))
  {
  }

  lemma TxCounts<P>(t: State<P>, accepted: nat)
    requires Counted(t) && Allowed(t, Tx(accepted))
    ensures Counted(TxStep(t, accepted))
  {
  }

  lemma TxSettles<P>(t: State<P>, accepted: nat)
    requires Settled(t) && t.tx.TxSend? && accepted <= |t.tx.held|
    ensures Settled(TxStep(t, accepted))
  {
    var held := t.tx.held;
    assert held == held[..accepted] + held[accepted..];
  }

  lemma StepSettles<P>(t: State<P>, a: Action<P>)
    requires Settled(t) && Allowed(t, a)
    ensures Settled(Step(t, a))
  {
    if a.Tx? && t.tx.TxSend? {
      TxSettles(t, a.accepted);
    } else {
      var u := Step(t, a);
      assert u.handed == t.handed && u.sent == t.sent && u.freed == t.freed;
    }
  }

  lemma StepBounds<P>(t: State<P>, a: Action<P>)
    requires Bounded(t) && Allowed(t, a)
    ensures Bounded(Step(t, a))
  {
  }

  lemma StepKeepsInv<P>(t: State<P>, a: Action<P>)
    requires Inv(t) && Allowed(t, a)
    ensures Inv(Step(t, a))
  {
    RoomEverywhere(t);
    StepBounds(t, a);
    StepSettles(t, a);
    match a
    case Rx(burst) => RxOrder(t, burst); RxCounts(t, burst);
    case Parser => ParserOrder(t); ParserCounts(t);
    case Tx(accepted) => TxOrder(t, accepted); TxCounts(t, accepted);
  }

  lemma {:induction false} RunKeepsInv<P>(states: seq<State<P>>, actions: seq<Action<P>>, k: nat)
    requires IsRun(states, actions) && k < |states|
    ensures Inv(states[k])
  {
    if k > 0 {
      RunKeepsInv(states, actions, k - 1);
      StepKeepsInv(states[k - 1], actions[k - 1]);
    }
  }

  /** Under every interleaving the packets passed to tx_burst are, in order, a prefix of those received:
      none is skipped, duplicated or overtaken. */
  lemma NothingOvertakes<P>(states: seq<State<P>>, actions: seq<Action<P>>, k: nat)
    requires IsRun(states, actions) && k < |states|
    ensures states[k].handed <= states[k].received
    ensures multiset(states[k].handed) == multiset(states[k].sent) + multiset(states[k].freed)
  {
    RunKeepsInv(states, actions, k);
  }

  /** The stop limit plus one burst bounds what is ever inside, so both rings always have room: the
      unchecked enqueue never leaks and the parser's drop loop never frees. */
  lemma RingsNeverFill<P>(states: seq<State<P>>, actions: seq<Action<P>>, k: nat)
    requires IsRun(states, actions) && k < |states|
    ensures states[k].rxCount <= 41
    ensures |states[k].toParser| <= 41 && |states[k].toTx| <= 41
    ensures states[k].leaked == states[k].dropped == []
  {
    RunKeepsInv(states, actions, k);
    RoomEverywhere(states[k]);
  }

  // ---------------------------------------------------------------- progress

  /** Three steps of the parser alone, from the top of its loop before the stop: the first 32 packets, or
      all if there are fewer, move from the end of one ring's queue to the end of the other's and are counted.
      With an empty ring the third step is already the next look at it. */
  lemma ParserRound<P>(t: State<P>)
    requires Inv(t) && !t.quit && t.pa == PaTop
    ensures var n := if |t.toParser| < 32 then |t.toParser| else 32;
      ParserStep(ParserStep(ParserStep(t)))
      == t.(toParser := t.toParser[n..], toTx := t.toTx + t.toParser[..n], parserCount := t.parserCount + n,
            pa := if n == 0 then PaDequeue else PaTop)
  {
    RoomEverywhere(t);
    var n := if |t.toParser| < 32 then |t.toParser| else 32;
    var held := t.toParser[..n];
    assert n > 0 ==> ParserStep(ParserStep(t)).pa == PaForward(held) && held[..n] == held && held[n..] == [];
    assert t.dropped + [] == t.dropped;
  }

  /** Likewise for TX: the first 32 packets of its ring are handed to the card, which sends a prefix of
      them; the rest is freed. */
  lemma TxRound<P>(t: State<P>, accepted: nat)
    requires Inv(t) && !t.quit && t.tx == TxTop && accepted <= |t.toTx| && accepted <= 32
    ensures var n := if |t.toTx| < 32 then |t.toTx| else 32;
      var t2 := TxStep(TxStep(t, accepted), accepted);
      && (t2.tx.TxSend? ==> accepted <= |t2.tx.held|)
      && TxStep(t2, accepted)
         == t.(toTx := t.toTx[n..], handed := t.handed + t.toTx[..n], txCount := t.txCount + n,
               sent := t.sent + t.toTx[..accepted], freed := t.freed + t.toTx[accepted..n],
               tx := if n == 0 then TxDequeue else TxTop)
  {
    var n := if |t.toTx| < 32 then |t.toTx| else 32;
    var held := t.toTx[..n];
    assert held[..accepted] == t.toTx[..accepted] && held[accepted..] == t.toTx[accepted..n];
  }

  function RxSteps<P>(t: State<P>, n: nat): State<P> {
    if n == 0 then t else RxStep(RxSteps(t, n - 1), [])
  }

  /** How many of n packets still enter a ring that holds so many. */
  function Fitting(held: nat, n: nat): nat
    requires held <= 1023
  {
    if n < 1023 - held then n else 1023 - held
  }

  /** After n packets of the burst: they entered the ring in order while it had room, the rest leaked. */
  function Filled<P>(t: State<P>, n: nat): State<P>
    requires t.rx.RxFill? && n <= |t.rx.left| && |t.toParser| <= 1023
  {
    var left, k := t.rx.left, Fitting(|t.toParser|, n);
    t.(rx := RxFill(left[n..]), toParser := t.toParser + left[..k], leaked := t.leaked + left[k..n])
  }

  lemma RxFillsNext<P>(t: State<P>, n: nat)
    requires t.rx.RxFill? && n < |t.rx.left| && |t.toParser| <= 1023
    ensures RxStep(Filled(t, n), []) == Filled(t, n + 1)
  {
    var left, k := t.rx.left, Fitting(|t.toParser|, n);
    assert left[n..][0] == left[n] && left[n..][1..] == left[n + 1..];
    if n < 1023 - |t.toParser| {
      assert t.toParser + left[..n] + [left[n]] == t.toParser + left[..n + 1];
      assert left[n..n] == left[n + 1..n + 1] == [];
    } else {
      assert t.leaked + left[k..n] + [left[n]] == t.leaked + left[k..n + 1];
    }
  }

  /** The enqueue loop of RX from any state, full ring or not: the packets of the burst enter the ring in
      order as long as it has room for 1023, and the rest leaks. */
  lemma {:induction false} RxFillsWhatFits<P>(t: State<P>, n: nat)
    requires t.rx.RxFill? && n <= |t.rx.left| && |t.toParser| <= 1023
    ensures RxSteps(t, n) == Filled(t, n)
  {
    if n == 0 {
      assert t.rx.left[0..] == t.rx.left && t.toParser + [] == t.toParser && t.leaked + [] == t.leaked;
    } else {
      RxFillsWhatFits(t, n - 1);
      RxFillsNext(t, n - 1);
    }
  }

  /** The parser's forward from any state: as many packets as fit under 1023, and the rest is freed. */
  lemma ForwardTakesWhatFits<P>(t: State<P>)
    requires t.pa.PaForward? && |t.toTx| <= 1023
    ensures var all := t.toTx + t.pa.held;
      var k := if |all| < 1023 then |all| else 1023;
      ParserStep(t) == t.(pa := PaTop, toTx := all[..k], dropped := t.dropped + all[k..])
  {
    var all, held := t.toTx + t.pa.held, t.pa.held;
    var m := Min(|held|, 1023 - |t.toTx|);
    assert all[..|t.toTx| + m] == t.toTx + held[..m] && all[|t.toTx| + m..] == held[m..];
  }

  /** Rounds it takes to empty a ring. */
  function RoundsFor(n: nat): nat {
    (n + 31) / 32
  }

  /** Steps of the parser until it and its ring are empty, if nothing comes in and no stop. */
  function ParserWork<P>(t: State<P>): nat {
    var r := RoundsFor(|t.toParser|);
    match t.pa
    case PaTop => 3 * r
    case PaDequeue => if r == 0 then 0 else 3 * r - 1
    case PaForward(_) => 3 * r + 1
    case PaDone => 0
  }

  function TxWork<P>(t: State<P>): nat {
    var r := RoundsFor(|t.toTx|);
    match t.tx
    case TxTop => 3 * r
    case TxDequeue => if r == 0 then 0 else 3 * r - 1
    case TxSend(_) => 3 * r + 1
    case TxDone => 0
  }

  lemma RoundsDrop(n: nat)
    requires n > 0
    ensures RoundsFor(n - Min(32, n)) == RoundsFor(n) - 1
  {
  }

  lemma ParserWorks<P>(t: State<P>)
    requires !t.quit && !t.pa.PaDone?
    ensures ParserWork(ParserStep(t)) == if ParserWork(t) == 0 then 0 else ParserWork(t) - 1
  {
    if |t.toParser| > 0 {
      RoundsDrop(|t.toParser|);
    }
  }

  lemma TxWorks<P>(t: State<P>, accepted: nat)
    requires !t.quit && !t.tx.TxDone? && Allowed(t, Tx(accepted))
    ensures TxWork(TxStep(t, accepted)) == if TxWork(t) == 0 then 0 else TxWork(t) - 1
  {
    if |t.toTx| > 0 {
      RoundsDrop(|t.toTx|);
    }
  }

  /** Nothing waits in front of the parser. */
  predicate ParserDrained<P>(t: State<P>) {
    |t.toParser| == |HeldParser(t)| == 0
  }

  lemma WorkBound<P>(t: State<P>)
    requires Inv(t)
    ensures ParserWork(t) <= 7 && TxWork(t) <= 7
    ensures !t.quit && ParserWork(t) == 0 ==> ParserDrained(t)
    ensures !t.quit && TxWork(t) == 0 ==> t.toTx == HeldTx(t) == []
  {
    assert |t.received| == |t.handed| + |HeldTx(t)| + |t.toTx| + |HeldParser(t)| + |t.toParser| + |HeldRx(t)|;
  }

  /** RX is between two bursts: nothing it has received still has to enter the first ring. */
  ghost predicate RxQuiet<P>(t: State<P>, a: Action<P>) {
    HeldRx(t) == [] && (a.Rx? && t.rx.RxPoll? ==> a.burst == [])
  }

  lemma QuietStep<P>(t: State<P>, a: Action<P>)
    requires Allowed(t, a) && RxQuiet(t, a) && !t.quit && !t.pa.PaDone? && !t.tx.TxDone?
    ensures HeldRx(Step(t, a)) == [] && Step(t, a).received == t.received
    ensures ParserWork(Step(t, a)) == if a.Parser? && ParserWork(t) > 0 then ParserWork(t) - 1 else ParserWork(t)
  {
    if a.Parser? {
      ParserWorks(t);
    }
  }

  lemma DrainedStep<P>(t: State<P>, a: Action<P>)
    requires Allowed(t, a) && RxQuiet(t, a) && ParserDrained(t) && !t.quit && !t.pa.PaDone? && !t.tx.TxDone?
    ensures ParserDrained(Step(t, a))
    ensures TxWork(Step(t, a)) == if a.Tx? && TxWork(t) > 0 then TxWork(t) - 1 else TxWork(t)
  {
    if a.Tx? {
      TxWorks(t, a.accepted);
    } else if a.Parser? {
      assert t.toParser[..0] == [];
    }
  }

  lemma StepKeepsQuit<P>(t: State<P>, a: Action<P>)
    requires t.quit && Allowed(t, a)
    ensures Step(t, a).quit
  {
  }

  lemma {:induction false} QuitStays<P>(states: seq<State<P>>, actions: seq<Action<P>>, lo: nat, k: nat)
    requires IsRun(states, actions) && lo <= k <= |actions| && states[lo].quit
    ensures states[k].quit
  {
    if lo < k {
      QuitStays(states, actions, lo, k - 1);
      StepKeepsQuit(states[k - 1], actions[k - 1]);
    }
  }

  /** How many of the actions between lo and hi are steps of one thread. */
  function StepsOf<P>(actions: seq<Action<P>>, thread: Action<P> -> bool, lo: nat, hi: nat): nat
    requires lo <= hi <= |actions|
    decreases hi
  {
    if lo == hi then 0 else StepsOf(actions, thread, lo, hi - 1) + if thread(actions[hi - 1]) then 1 else 0
  }

  predicate OfRx<P>(a: Action<P>) { a.Rx? }
  predicate OfParser<P>(a: Action<P>) { a.Parser? }
  predicate OfTx<P>(a: Action<P>) { a.Tx? }

  /** Between lo and hi no packet comes in, and the stop has not come by hi. */
  ghost predicate Calm<P>(states: seq<State<P>>, actions: seq<Action<P>>, lo: nat, hi: nat)
    requires lo <= hi <= |actions| < |states|
  {
    !states[hi].quit && HeldRx(states[hi]) == []
    && forall k :: lo <= k < hi ==> RxQuiet(states[k], actions[k])
  }

  lemma CalmAt<P>(states: seq<State<P>>, actions: seq<Action<P>>, lo: nat, k: nat, hi: nat)
    requires IsRun(states, actions) && lo <= k <= hi <= |actions| && Calm(states, actions, lo, hi)
    ensures !states[k].quit && !states[k].pa.PaDone? && !states[k].tx.TxDone? && HeldRx(states[k]) == []
    ensures ParserWork(states[k]) <= 7 && TxWork(states[k]) <= 7
    ensures ParserWork(states[k]) == 0 ==> ParserDrained(states[k])
    ensures TxWork(states[k]) == 0 ==> states[k].toTx == HeldTx(states[k]) == []
  {
    if states[k].quit {
      QuitStays(states, actions, k, hi);
    }
    RunKeepsInv(states, actions, k);
    WorkBound(states[k]);
    assert k < hi ==> RxQuiet(states[k], actions[k]);
  }

  lemma CalmStep<P>(states: seq<State<P>>, actions: seq<Action<P>>, lo: nat, k: nat, hi: nat)
    requires IsRun(states, actions) && lo <= k < hi <= |actions| && Calm(states, actions, lo, hi)
    ensures var t, u := states[k], states[k + 1];
      && (ParserWork(u) == if actions[k].Parser? && ParserWork(t) > 0 then ParserWork(t) - 1 else ParserWork(t))
      && (ParserDrained(t) ==>
            && ParserDrained(u)
            && TxWork(u) == if actions[k].Tx? && TxWork(t) > 0 then TxWork(t) - 1 else TxWork(t))
  {
    CalmAt(states, actions, lo, k, hi);
    assert RxQuiet(states[k], actions[k]);
    QuietStep(states[k], actions[k]);
    if ParserDrained(states[k]) {
      DrainedStep(states[k], actions[k]);
    }
  }

  /** Work that each step of a thread lowers by one is done after as many of its steps. */
  lemma {:induction false} WorkRunsOut<P>(work: seq<nat>, actions: seq<Action<P>>, thread: Action<P> -> bool,
                                          lo: nat, hi: nat)
    requires lo <= hi <= |actions| < |work|
    requires forall k :: lo <= k < hi ==>
               work[k + 1] == if thread(actions[k]) && work[k] > 0 then work[k] - 1 else work[k]
    ensures work[hi] == 0 || work[hi] + StepsOf(actions, thread, lo, hi) <= work[lo]
    decreases hi
  {
    if lo < hi {
      WorkRunsOut(work, actions, thread, lo, hi - 1);
    }
  }

  lemma ParserDrains<P>(states: seq<State<P>>, actions: seq<Action<P>>, lo: nat, hi: nat)
    requires IsRun(states, actions) && lo <= hi <= |actions| && Calm(states, actions, lo, hi)
    requires StepsOf(actions, OfParser, lo, hi) >= 7
    ensures ParserDrained(states[hi])
  {
    var work: seq<nat> := seq(|states|, k requires 0 <= k < |states| => ParserWork(states[k]));
    forall k | lo <= k < hi
      ensures work[k + 1] == if OfParser(actions[k]) && work[k] > 0 then work[k] - 1 else work[k]
    {
      CalmStep(states, actions, lo, k, hi);
    }
    WorkRunsOut(work, actions, OfParser, lo, hi);
    CalmAt(states, actions, lo, lo, hi);
    CalmAt(states, actions, lo, hi, hi);
  }

  lemma DrainedNext<P>(states: seq<State<P>>, actions: seq<Action<P>>, lo: nat, k: nat, hi: nat)
    requires IsRun(states, actions) && lo <= k < hi <= |actions| && Calm(states, actions, lo, hi)
    requires ParserDrained(states[k])
    ensures ParserDrained(states[k + 1])
  {
    CalmStep(states, actions, lo, k, hi);
  }

  lemma {:induction false} StaysDrained<P>(states: seq<State<P>>, actions: seq<Action<P>>, lo: nat, k: nat, hi: nat)
    requires IsRun(states, actions) && lo <= k <= hi <= |actions| && Calm(states, actions, lo, hi)
    requires ParserDrained(states[lo])
    ensures ParserDrained(states[k])
    decreases k
  {
    if lo < k {
      StaysDrained(states, actions, lo, k - 1, hi);
      DrainedNext(states, actions, lo, k - 1, hi);
    }
  }

  lemma TxDrains<P>(states: seq<State<P>>, actions: seq<Action<P>>, lo: nat, hi: nat)
    requires IsRun(states, actions) && lo <= hi <= |actions| && Calm(states, actions, lo, hi)
    requires ParserDrained(states[lo]) && StepsOf(actions, OfTx, lo, hi) >= 7
    ensures TxWork(states[hi]) == 0
  {
    var work: seq<nat> := seq(|states|, k requires 0 <= k < |states| => TxWork(states[k]));
    forall k | lo <= k < hi
      ensures work[k + 1] == if OfTx(actions[k]) && work[k] > 0 then work[k] - 1 else work[k]
    {
      StaysDrained(states, actions, lo, k, hi);
      CalmStep(states, actions, lo, k, hi);
    }
    WorkRunsOut(work, actions, OfTx, lo, hi);
    CalmAt(states, actions, lo, lo, hi);
  }

  lemma EmptyIsHanded<P>(t: State<P>)
    requires Inv(t) && ParserDrained(t) && t.toTx == HeldTx(t) == HeldRx(t) == []
    ensures t.handed == t.received && t.rxCount == t.parserCount == t.txCount == |t.handed|
  {
    assert t.handed + [] + [] + [] + [] + [] == t.handed;
  }

  /** Everything gets through: if no packet comes in for a while and the stop has not come, seven steps of
      the parser and after them seven of TX, interleaved with anything, hand every packet received to the card. */
  lemma PipelineDrains<P>(states: seq<State<P>>, actions: seq<Action<P>>, lo: nat, mid: nat, hi: nat)
    requires IsRun(states, actions) && lo <= mid <= hi <= |actions| && Calm(states, actions, lo, hi)
    requires StepsOf(actions, OfParser, lo, mid) >= 7 && StepsOf(actions, OfTx, mid, hi) >= 7
    ensures states[hi].handed == states[hi].received
    ensures states[hi].rxCount == states[hi].parserCount == states[hi].txCount == |states[hi].handed|
  {
    CalmAt(states, actions, lo, mid, hi);
    assert mid < hi ==> RxQuiet(states[mid], actions[mid]);
    assert Calm(states, actions, lo, mid) && Calm(states, actions, mid, hi);
    ParserDrains(states, actions, lo, mid);
    StaysDrained(states, actions, mid, hi, hi);
    TxDrains(states, actions, mid, hi);
    CalmAt(states, actions, mid, hi, hi);
    RunKeepsInv(states, actions, hi);
    EmptyIsHanded(states[hi]);
  }

  /** Steps RX can still take if every poll delivers something. */
  function RxWork<P>(t: State<P>): int {
    var again := 41 - t.rxCount + 4 * (10 - t.rxCount);
    var check := if t.rxCount >= 10 then 1 else 1 + again;
    match t.rx
    case RxTop => again
    case RxPoll => again - 1
    case RxFill(left) => |left| + 1 + check
    case RxCheck => check
    case RxDone => 0
  }

  lemma RxWorks<P>(t: State<P>, a: Action<P>)
    requires Bounded(t) && Allowed(t, a) && (a.Rx? && t.rx.RxPoll? ==> |a.burst| > 0)
    ensures RxWork(t) >= 0 && (RxWork(t) == 0 <==> t.quit)
    ensures RxWork(Step(t, a)) <= RxWork(t) - if a.Rx? && !t.quit then 1 else 0
  {
  }

  /** RX stops: if every poll delivers at least one packet, 81 steps of RX under any schedule set force_quit. */
  lemma {:induction false} RxStops<P>(states: seq<State<P>>, actions: seq<Action<P>>, k: nat)
    requires IsRun(states, actions) && k <= |actions|
    requires forall j :: 0 <= j < k && actions[j].Rx? && states[j].rx.RxPoll? ==> |actions[j].burst| > 0
    ensures states[k].quit || StepsOf(actions, OfRx, 0, k) + RxWork(states[k]) <= 81
    ensures StepsOf(actions, OfRx, 0, k) >= 81 ==> states[k].quit
  {
    RunKeepsInv(states, actions, k);
    if k > 0 {
      RxStops(states, actions, k - 1);
      RunKeepsInv(states, actions, k - 1);
      RxWorks(states[k - 1], actions[k - 1]);
    }
    RxWorks(states[k], Parser);
  }

  ghost predicate AllReturned<P>(t: State<P>) {
    t.rx.RxDone? && t.pa.PaDone? && t.tx.TxDone?
  }

  /** The three totals main prints, and where the packets went. Packets may be left in the rings; all
      were handed to the card exactly when both rings are empty. */
  lemma FinalAccounts<P>(states: seq<State<P>>, actions: seq<Action<P>>, k: nat)
    requires IsRun(states, actions) && k < |states| && AllReturned(states[k])
    ensures var t := states[k];
      && 10 <= t.rxCount <= 41
      && t.rxCount == t.parserCount + |t.toParser|
      && t.parserCount == t.txCount + |t.toTx|
      && t.txCount == |t.sent| + |t.freed|
      && t.received == t.handed + t.toTx + t.toParser
      && (t.handed == t.received <==> t.toParser == [] && t.toTx == [])
  {
    RunKeepsInv(states, actions, k);
    var t := states[k];
    assert t.handed + [] + t.toTx + [] + t.toParser + [] == t.handed + t.toTx + t.toParser;
  }

  /** Steps left to the parser and TX once force_quit is set; RX has then returned. */
  function ShutdownSteps<P>(t: State<P>): nat {
    (match t.pa case PaDequeue => 3 case PaForward(_) => 2 case PaTop => 1 case PaDone => 0)
    + (match t.tx case TxDequeue => 3 case TxSend(_) => 2 case TxTop => 1 case TxDone => 0)
  }

  predicate Returned<P>(t: State<P>, a: Action<P>) {
    match a case Rx(_) => t.rx.RxDone? case Parser => t.pa.PaDone? case Tx(_) => t.tx.TxDone?
  }

  lemma ShutdownStep<P>(t: State<P>, a: Action<P>)
    requires Bounded(t) && t.quit && Allowed(t, a)
    ensures Step(t, a).quit
    ensures if Returned(t, a) then Step(t, a) == t else ShutdownSteps(Step(t, a)) < ShutdownSteps(t)
    ensures AllReturned(t) <==> ShutdownSteps(t) == 0
  {
  }

  function Live<P>(t: State<P>, a: Action<P>): nat {
    if Returned(t, a) then 0 else 1
  }

  /** How many of the actions between lo and hi are steps of a thread that has not returned. */
  function LiveSteps<P>(states: seq<State<P>>, actions: seq<Action<P>>, lo: nat, hi: nat): nat
    requires lo <= hi <= |actions| < |states|
    decreases hi
  {
    if lo == hi then 0 else LiveSteps(states, actions, lo, hi - 1) + Live(states[hi - 1], actions[hi - 1])
  }

  ghost predicate Falls<P>(states: seq<State<P>>, actions: seq<Action<P>>, k: nat)
    requires k < |actions| < |states|
  {
    ShutdownSteps(states[k + 1]) + Live(states[k], actions[k]) <= ShutdownSteps(states[k])
  }

  lemma {:induction false} FallingAddsUp<P>(states: seq<State<P>>, actions: seq<Action<P>>, lo: nat, hi: nat)
    requires lo <= hi <= |actions| < |states| && forall k :: lo <= k < hi ==> Falls(states, actions, k)
    ensures LiveSteps(states, actions, lo, hi) + ShutdownSteps(states[hi]) <= ShutdownSteps(states[lo])
    decreases hi
  {
    if lo < hi {
      FallingAddsUp(states, actions, lo, hi - 1);
      assert Falls(states, actions, hi - 1);
    }
  }

  /** Once force_quit is set, at most six more steps are taken under any schedule, whatever the rings
      still hold: no thread waits for another to drain a ring. */
  lemma ShutdownIsPrompt<P>(states: seq<State<P>>, actions: seq<Action<P>>, lo: nat, hi: nat)
    requires IsRun(states, actions) && lo <= hi <= |actions| && states[lo].quit
    ensures LiveSteps(states, actions, lo, hi) + ShutdownSteps(states[hi]) <= 6
    ensures ShutdownSteps(states[hi]) == 0 <==> AllReturned(states[hi])
  {
    forall k | lo <= k < hi
      ensures Falls(states, actions, k)
    {
      QuitStays(states, actions, lo, k);
      RunKeepsInv(states, actions, k);
      ShutdownStep(states[k], actions[k]);
    }
    FallingAddsUp(states, actions, lo, hi);
    QuitStays(states, actions, lo, hi);
    RunKeepsInv(states, actions, hi);
    ShutdownStep(states[hi], Parser);
  }

  /** The program's globals and the three threads' positions, stepped in place. */
  class Threads<P> {
    var rx: RxPc<P>
    var pa: ParserPc<P>
    var tx: TxPc<P>
    var toParser: seq<P>
    var toTx: seq<P>
    var quit: bool
    var rxCount: nat
    var parserCount: nat
    var txCount: nat
    ghost var received: seq<P>
    ghost var handed: seq<P>
    var sent: seq<P>
    var freed: seq<P>
    ghost var leaked: seq<P>
    var dropped: seq<P>

    ghost function View(): State<P>
      reads this
    {
      State(rx, pa, tx, toParser, toTx, quit, rxCount, parserCount, txCount,
            received, handed, sent, freed, leaked, dropped)
    }

    constructor ()
      ensures View() == Init()
    {
      rx, pa, tx, toParser, toTx, quit := RxTop, PaTop, TxTop, [], [], false;
      rxCount, parserCount, txCount := 0, 0, 0;
      received, handed, sent, freed, leaked, dropped := [], [], [], [], [], [];
    }

    method StepRx(burst: seq<P>)
      requires |burst| <= BURST_SIZE
      modifies this
      ensures View() == RxStep(old(View()), burst)
    {
      match rx
      case RxTop => rx := if quit then RxDone else RxPoll;
      case RxPoll =>
        rxCount := rxCount + |burst|;
        received := received + burst;
        rx := RxFill(burst);
      case RxFill(left) =>
        if left == [] {
          rx := RxCheck;
        } else {
          if |toParser| < RING_CAPACITY {
            toParser := toParser + [left[0]];
          } else {
            leaked := leaked + [left[0]];
          }
          rx := RxFill(left[1..]);
        }
      case RxCheck =>
        if rxCount >= RX_LIMIT {
          quit := true;
          rx := RxDone;
        } else {
          rx := RxTop;
        }
      case RxDone =>
    }

    method StepParser()
      modifies this
      ensures View() == ParserStep(old(View()))
    {
      match pa
      case PaTop => pa := if quit then PaDone else PaDequeue;
      case PaDequeue =>
        var n := Min(BURST_SIZE, |toParser|);
        if n > 0 {
          parserCount := parserCount + n;
          pa := PaForward(toParser[..n]);
          toParser := toParser[n..];
        } else {
          pa := PaTop;
        }
      case PaForward(held) =>
        var m := Min(|held|, if |toTx| <= RING_CAPACITY then RING_CAPACITY - |toTx| else 0);
        toTx := toTx + held[..m];
        dropped := FreeFrom(dropped, held, m);
        pa := PaTop;
      case PaDone =>
    }

    method StepTx(accepted: nat)
      requires tx.TxSend? ==> accepted <= |tx.held|
      modifies this
      ensures View() == TxStep(old(View()), accepted)
    {
      match tx
      case TxTop => tx := if quit then TxDone else TxDequeue;
      case TxDequeue =>
        var n := Min(BURST_SIZE, |toTx|);
        if n > 0 {
          txCount := txCount + n;
          tx := TxSend(toTx[..n]);
          toTx := toTx[n..];
        } else {
          tx := TxTop;
        }
      case TxSend(held) =>
        handed := handed + held;
        sent := sent + held[..accepted];
        freed := FreeFrom(freed, held, accepted);
        tx := TxTop;
      case TxDone =>
    }
  }
}
