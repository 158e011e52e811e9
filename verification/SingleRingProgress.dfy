/** When the single-ring programs make progress. A message can be picked up by its own sender and put
    back, so unlike in the two-ring protocol it is not enough that both processes keep running: what
    counts is the parity of the sender's steps at the moments when the receiver runs. */
module SingleRingProgress {
  import opened MessageTrace
  import T = TwoRing
  import opened SingleRing
  import opened SingleRingInvariant
  import opened RingRefinement

  function Other(who: Process): Process {
    if who == Primary then Secondary else Primary
  }

  function Address(who: Process): int {
    if who == Primary then PROC_A else PROC_B
  }

  /** The schedule has an odd number of steps of who. */
  predicate Odd(who: Process, schedule: seq<Process>) {
    schedule != [] && Odd(who, schedule[..|schedule| - 1]) != (schedule[|schedule| - 1] == who)
  }

  lemma {:induction false} OddAppend(who: Process, a: seq<Process>, b: seq<Process>)
    ensures Odd(who, a + b) == (Odd(who, a) != Odd(who, b))
    decreases |b|
  {
    if b == [] {
      assert a + b == a;
    } else {
      assert (a + b)[..|a + b| - 1] == a + b[..|b| - 1];
      OddAppend(who, a, b[..|b| - 1]);
    }
  }

  /** A message for who is in the ring, both processes poll, and either may take it next. */
  predicate Waits(t: State, who: Process) {
    t.p.PPoll? && t.s.SPoll? && |t.ring| == 1 && t.ring[0].dst == Address(who)
  }

  /** who holds a message that is meant for it. */
  predicate Receives(t: State, who: Process) {
    if who == Primary then t.p.PGot? && t.p.r.dst == PROC_A else t.s.SGot? && t.s.m.dst == PROC_B
  }

  /** These are the phases Requested and Answered with the message in the ring. */
  lemma WaitsArePhases(n: nat, t: State, ph: Phase, who: Process)
    requires Place(n, t, ph)
    ensures Waits(t, who) <==> t.ring != [] && if who == Secondary then ph.Requested? else ph.Answered?
  {
  }

  /** The two states of a wait: the message is in the ring, or held by its sender. */
  function Detour(n: nat, t: State, who: Process, held: bool): State {
    if held then Step(n, t, Other(who)) else t
  }

  lemma DetourSteps(n: nat, t: State, who: Process, held: bool)
    requires Waits(t, who)
    ensures Step(n, Detour(n, t, who, held), Other(who)) == Detour(n, t, who, !held)
    ensures !Receives(Detour(n, t, who, held), who)
    ensures held ==> Step(n, Detour(n, t, who, held), who) == Detour(n, t, who, held)
    ensures Receives(Step(n, t, who), who)
  {
    var u := Step(n, t, Other(who));
    assert t.ring == [t.ring[0]] && u.ring == [];
    assert Step(n, u, Other(who)).ring == t.ring;
  }

  /** Step j of the block is one of who, and the sender's steps before it leave the message in the ring. */
  predicate ServesAt(block: seq<Process>, who: Process, held: bool, j: nat)
    requires j < |block|
  {
    block[j] == who && Odd(Other(who), block[..j]) == held
  }

  ghost predicate Served(block: seq<Process>, who: Process, held: bool) {
    exists j :: 0 <= j < |block| && ServesAt(block, who, held, j)
  }

  lemma ServesAppend(a: seq<Process>, b: seq<Process>, who: Process, held: bool, j: nat)
    requires j < |a + b|
    ensures ServesAt(a + b, who, held, j) ==
            if j < |a| then ServesAt(a, who, held, j)
            else ServesAt(b, who, held != Odd(Other(who), a), j - |a|)
  {
    if j < |a| {
      assert (a + b)[..j] == a[..j];
    } else {
      assert (a + b)[..j] == a + b[..j - |a|];
      OddAppend(Other(who), a, b[..j - |a|]);
    }
  }

  lemma ServedAppend(a: seq<Process>, b: seq<Process>, who: Process, held: bool)
    ensures Served(a + b, who, held) <==> Served(a, who, held) || Served(b, who, held != Odd(Other(who), a))
  {
    forall j | 0 <= j < |a + b|
      ensures ServesAt(a + b, who, held, j) ==
              if j < |a| then ServesAt(a, who, held, j)
              else ServesAt(b, who, held != Odd(Other(who), a), j - |a|)
    {
      ServesAppend(a, b, who, held, j);
    }
    var later := held != Odd(Other(who), a);
    if j :| 0 <= j < |b| && ServesAt(b, who, later, j) {
      assert ServesAt(a + b, who, held, |a| + j);
    }
  }

  lemma ServedByLast(block: seq<Process>, who: Process, held: bool)
    requires block != []
    ensures var last := |block| - 1;
      Served(block, who, held) <==> Served(block[..last], who, held) || ServesAt(block, who, held, last)
  {
    var last := |block| - 1;
    assert block == block[..last] + [block[last]];
    ServedAppend(block[..last], [block[last]], who, held);
    ServesAppend(block[..last], [block[last]], who, held, last);
    assert Served([block[last]], who, held != Odd(Other(who), block[..last]))
      <==> ServesAt([block[last]], who, held != Odd(Other(who), block[..last]), 0);
  }

  lemma {:induction false} UnservedStays(n: nat, t: State, who: Process, held: bool, block: seq<Process>)
    requires Waits(t, who) && !Served(block, who, held)
    ensures Run(n, Detour(n, t, who, held), block) == Detour(n, t, who, held != Odd(Other(who), block))
    decreases |block|
  {
    if block != [] {
      var before := block[..|block| - 1];
      ServedByLast(block, who, held);
      UnservedStays(n, t, who, held, before);
      DetourSteps(n, t, who, held != Odd(Other(who), before));
    }
  }

  /** The first step that serves the wait finds the message in the ring. */
  lemma {:induction false} FirstServing(n: nat, t: State, who: Process, held: bool, block: seq<Process>)
    returns (j: nat)
    requires Waits(t, who) && Served(block, who, held)
    ensures j < |block| && block[j] == who && Run(n, Detour(n, t, who, held), block[..j]) == t
    decreases |block|
  {
    var last := |block| - 1;
    ServedByLast(block, who, held);
    if Served(block[..last], who, held) {
      j := FirstServing(n, t, who, held, block[..last]);
      assert block[..last][..j] == block[..j];
    } else {
      UnservedStays(n, t, who, held, block[..last]);
      j := last;
    }
  }

  /** At some point of the block who gets its message. */
  ghost predicate Delivered(n: nat, t: State, block: seq<Process>, who: Process) {
    exists j :: 0 <= j <= |block| && Receives(Run(n, t, block[..j]), who)
  }

  /** The exact condition, on the schedule alone: a waiting message reaches its receiver during a block
      if and only if some receiver step in it is preceded by an even number of sender steps (an odd
      number if the sender holds the message at the start). Otherwise the block leaves the wait as it
      was, with the message in the ring or with its sender by parity. */
  lemma DeliveredIff(n: nat, t: State, who: Process, held: bool, block: seq<Process>)
    requires Waits(t, who)
    ensures Delivered(n, Detour(n, t, who, held), block, who) <==> Served(block, who, held)
    ensures !Served(block, who, held) ==>
              Run(n, Detour(n, t, who, held), block) == Detour(n, t, who, held != Odd(Other(who), block))
  {
    if Served(block, who, held) {
      var j := FirstServing(n, t, who, held, block);
      DetourSteps(n, t, who, held);
      assert block[..j + 1][..j] == block[..j];
      assert Receives(Run(n, Detour(n, t, who, held), block[..j + 1]), who);
    } else {
      UnservedStays(n, t, who, held, block);
      forall j | 0 <= j <= |block|
        ensures !Receives(Run(n, Detour(n, t, who, held), block[..j]), who)
      {
        assert block == block[..j] + block[j..];
        ServedAppend(block[..j], block[j..], who, held);
        UnservedStays(n, t, who, held, block[..j]);
        DetourSteps(n, t, who, held != Odd(Other(who), block[..j]));
      }
    }
  }

  /** Two steps of who in the block with an odd number of the other process's steps between them. */
  ghost predicate MixesFor(block: seq<Process>, who: Process) {
    exists a, b :: 0 <= a < b < |block| && block[a] == who && block[b] == who && Odd(Other(who), block[a..b])
  }

  lemma OddBetween(who: Process, block: seq<Process>, a: nat, b: nat)
    requires a <= b <= |block|
    ensures Odd(who, block[a..b]) == (Odd(who, block[..a]) != Odd(who, block[..b]))
  {
    assert block[..b] == block[..a] + block[a..b];
    OddAppend(who, block[..a], block[a..b]);
  }

  lemma MixesServesBoth(block: seq<Process>, who: Process)
    ensures MixesFor(block, who) <==> Served(block, who, false) && Served(block, who, true)
  {
    if MixesFor(block, who) {
      var a, b :| 0 <= a < b < |block| && block[a] == who && block[b] == who && Odd(Other(who), block[a..b]);
      OddBetween(Other(who), block, a, b);
      assert ServesAt(block, who, Odd(Other(who), block[..a]), a);
      assert ServesAt(block, who, Odd(Other(who), block[..b]), b);
    }
    if Served(block, who, false) && Served(block, who, true) {
      var x :| 0 <= x < |block| && ServesAt(block, who, false, x);
      var y :| 0 <= y < |block| && ServesAt(block, who, true, y);
      var a, b := if x < y then x else y, if x < y then y else x;
      OddBetween(Other(who), block, a, b);
      assert block[a] == who && block[b] == who && Odd(Other(who), block[a..b]);
    }
  }

  /** A block delivers a waiting message wherever the detour stands if and only if it mixes. */
  lemma MixingIff(n: nat, t: State, who: Process, block: seq<Process>)
    requires Waits(t, who)
    ensures MixesFor(block, who) <==>
              Delivered(n, t, block, who) && Delivered(n, Step(n, t, Other(who)), block, who)
  {
    MixesServesBoth(block, who);
    DeliveredIff(n, t, who, false, block);
    DeliveredIff(n, t, who, true, block);
  }

  function Repeat(block: seq<Process>, k: nat): seq<Process> {
    if k == 0 then [] else Repeat(block, k - 1) + block
  }

  lemma {:induction false} UnservedRepeats(block: seq<Process>, who: Process, held: bool, m: nat)
    requires !Served(block, who, held)
    requires who !in block || !Odd(Other(who), block)
    ensures !Served(Repeat(block, m), who, held)
    ensures !Odd(Other(who), block) ==> !Odd(Other(who), Repeat(block, m))
  {
    if m > 0 {
      UnservedRepeats(block, who, held, m - 1);
      ServedAppend(Repeat(block, m - 1), block, who, held);
      OddAppend(Other(who), Repeat(block, m - 1), block);
    }
  }

  lemma ServedTheSecondTime(block: seq<Process>, who: Process, held: bool)
    requires who in block && Odd(Other(who), block)
    ensures Served(block + block, who, held)
  {
    var j :| 0 <= j < |block| && block[j] == who;
    ServedAppend(block, block, who, held);
    assert ServesAt(block, who, Odd(Other(who), block[..j]), j);
  }

  /** A block repeated forever delivers a waiting message if and only if it does so the first time, or it
      holds receiver steps and an odd number of sender steps (and then the second time suffices). If it
      does neither and the number is even, every repetition restores the state. */
  lemma CyclicDelivery(n: nat, t: State, who: Process, held: bool, block: seq<Process>)
    requires Waits(t, who)
    ensures (exists m: nat :: Delivered(n, Detour(n, t, who, held), Repeat(block, m), who))
            <==> Served(block, who, held) || (who in block && Odd(Other(who), block))
    ensures !Served(block, who, held) && !Odd(Other(who), block) ==>
              forall m: nat :: Run(n, Detour(n, t, who, held), Repeat(block, m)) == Detour(n, t, who, held)
  {
    var u := Detour(n, t, who, held);
    if !Served(block, who, held) && (who !in block || !Odd(Other(who), block)) {
      forall m: nat
        ensures !Delivered(n, u, Repeat(block, m), who)
        ensures !Odd(Other(who), block) ==> Run(n, u, Repeat(block, m)) == u
      {
        UnservedRepeats(block, who, held, m);
        DeliveredIff(n, t, who, held, Repeat(block, m));
      }
    } else {
      var m: nat := 2;
      assert Repeat(block, m - 1) == Repeat(block, 0) + block == block;
      assert Repeat(block, m) == block + block;
      ServedAppend(block, block, who, held);
      if !Served(block, who, held) {
        ServedTheSecondTime(block, who, held);
      }
      DeliveredIff(n, t, who, held, Repeat(block, m));
      assert Delivered(n, u, Repeat(block, m), who);
      assert exists m: nat :: Delivered(n, u, Repeat(block, m), who);
    }
  }

  lemma {:induction false} UsefulAppend(n: nat, a: seq<Process>, b: seq<Process>)
    ensures |Useful(n, a)| <= |Useful(n, a + b)|
    decreases |b|
  {
    if b == [] {
      assert a + b == a;
    } else {
      assert (a + b)[..|a + b| - 1] == a + b[..|b| - 1];
      UsefulAppend(n, a, b[..|b| - 1]);
    }
  }

  /** A process holds the other one's message. */
  predicate Misplaced(t: State) {
    (t.p.PGot? && t.p.r.dst != PROC_A) || (t.s.SGot? && t.s.m.dst != PROC_B)
  }

  /** The process whose next step helps. */
  function Turn(t: State): Process {
    if t.p.PGot? then Primary
    else if t.s.SGot? || t.s.SSend? then Secondary
    else if t.ring != [] then if t.ring[0].dst == PROC_A then Primary else Secondary
    else Primary
  }

  lemma TurnHelps(n: nat, t: State, ph: Phase)
    requires Place(n, t, ph) && ph != Over
    ensures Stutters(t, Turn(t)) <==> Misplaced(t)
    ensures !Misplaced(Step(n, t, Turn(t)))
  {
  }

  /** Outside the waits only one process can move. */
  lemma OnlyTurnMoves(n: nat, t: State, ph: Phase)
    requires Place(n, t, ph) && ph != Over && !Misplaced(t) && !Waits(t, Turn(t))
    ensures Step(n, t, Other(Turn(t))) == t
  {
  }

  /** A held message is one step of its holder away from the wait it was taken from. */
  lemma MisplacedIsDetour(n: nat, t: State, ph: Phase)
    requires Place(n, t, ph) && Misplaced(t)
    ensures var w := Step(n, t, Turn(t)); Waits(w, Other(Turn(t))) && Step(n, w, Turn(t)) == t
  {
  }

  lemma {:induction false} FirstStepOf(n: nat, t: State, who: Process, block: seq<Process>) returns (j: nat)
    requires Step(n, t, Other(who)) == t && who in block
    ensures j < |block| && block[j] == who && Run(n, t, block[..j]) == t
    decreases |block|
  {
    var before := block[..|block| - 1];
    if who in before {
      j := FirstStepOf(n, t, who, before);
      assert before[..j] == block[..j];
    } else {
      NothingMoves(n, t, who, before);
      j := |before|;
    }
  }

  lemma {:induction false} NothingMoves(n: nat, t: State, who: Process, block: seq<Process>)
    requires Step(n, t, Other(who)) == t && who !in block
    ensures Run(n, t, block) == t
    decreases |block|
  {
    if block != [] {
      NothingMoves(n, t, who, block[..|block| - 1]);
    }
  }

  /** For either process the block has two of its steps with an odd number of the other's in between. */
  ghost predicate Mixes(block: seq<Process>) {
    MixesFor(block, Primary) && MixesFor(block, Secondary)
  }

  /** A mixed block contains a useful step, wherever it starts. */
  lemma MixedBlockHelps(n: nat, t: State, ph: Phase, block: seq<Process>) returns (j: nat)
    requires Place(n, t, ph) && ph != Over && Mixes(block)
    ensures j < |block| && !Stutters(Run(n, t, block[..j]), block[j])
  {
    var who := Turn(t);
    MixesServesBoth(block, Primary);
    MixesServesBoth(block, Secondary);
    if Misplaced(t) {
      MisplacedIsDetour(n, t, ph);
      j := FirstServing(n, Step(n, t, who), Other(who), true, block);
    } else if Waits(t, who) {
      j := FirstServing(n, t, who, false, block);
    } else {
      TurnHelps(n, t, ph);
      OnlyTurnMoves(n, t, ph);
      j := FirstStepOf(n, t, who, block);
    }
  }

  function Join(blocks: seq<seq<Process>>): seq<Process> {
    if blocks == [] then [] else Join(blocks[..|blocks| - 1]) + blocks[|blocks| - 1]
  }

  lemma {:induction false} FinishedStays(n: nat, t: State, block: seq<Process>)
    requires Finished(t)
    ensures Run(n, t, block) == t
    decreases |block|
  {
    if block != [] {
      FinishedStays(n, t, block[..|block| - 1]);
    }
  }

  lemma FinishedIffAllUseful(n: nat, schedule: seq<Process>)
    ensures Finished(Run(n, Init(), schedule)) <==> |Useful(n, schedule)| == 7 * n + 4
  {
    UsefulStepsAddUp(n, schedule);
    T.StepLowersRank(n, Abs(Run(n, Init(), schedule)), Primary);
  }

  lemma UsefulStepCounts(n: nat, all: seq<Process>, j: nat)
    requires j < |all| && !Stutters(Run(n, Init(), all[..j]), all[j])
    ensures |Useful(n, all)| > |Useful(n, all[..j])|
  {
    assert all[..j + 1][..j] == all[..j];
    assert all == all[..j + 1] + all[j + 1..];
    UsefulAppend(n, all[..j + 1], all[j + 1..]);
  }

  lemma UsefulStepAfter(n: nat, before: seq<Process>, block: seq<Process>, j: nat)
    requires j < |block| && !Stutters(Run(n, Run(n, Init(), before), block[..j]), block[j])
    ensures |Useful(n, before + block)| > |Useful(n, before + block[..j])|
  {
    var all, i := before + block, |before| + j;
    assert all[..i] == before + block[..j] && all[i] == block[j];
    RunAppend(n, Init(), before, block[..j]);
    UsefulStepCounts(n, all, i);
  }

  lemma MixedBlockMoves(n: nat, before: seq<Process>, block: seq<Process>) returns (j: nat)
    requires Mixes(block) && !Finished(Run(n, Init(), before))
    ensures j < |block| && !Stutters(Run(n, Run(n, Init(), before), block[..j]), block[j])
  {
    InitInv(n);
    RunKeepsInv(n, Init(), before);
    var ph :| At(n, Run(n, Init(), before), ph);
    j := MixedBlockHelps(n, Run(n, Init(), before), ph, block);
  }

  /** A mixed block after any run that is not finished adds a useful step. */
  lemma MixedBlockCounts(n: nat, before: seq<Process>, block: seq<Process>)
    requires Mixes(block) && !Finished(Run(n, Init(), before))
    ensures |Useful(n, before + block)| > |Useful(n, before)|
  {
    var j := MixedBlockMoves(n, before, block);
    UsefulStepAfter(n, before, block, j);
    UsefulAppend(n, before, block[..j]);
  }

  lemma {:induction false} MixedBlocksCount(n: nat, before: seq<Process>, blocks: seq<seq<Process>>)
    requires forall k :: 0 <= k < |blocks| ==> Mixes(blocks[k])
    ensures var all := before + Join(blocks);
      Finished(Run(n, Init(), all)) || |Useful(n, all)| >= |blocks|
    decreases |blocks|
  {
    if blocks != [] {
      var front, last := blocks[..|blocks| - 1], blocks[|blocks| - 1];
      var early := before + Join(front);
      assert before + Join(blocks) == early + last;
      MixedBlocksCount(n, before, front);
      if Finished(Run(n, Init(), early)) {
        RunAppend(n, Init(), early, last);
        FinishedStays(n, Run(n, Init(), early), last);
      } else {
        MixedBlockCounts(n, early, last);
      }
    }
  }

  /** After any run the single-ring programs finish under every schedule that can be cut into enough mixed
      blocks: seven for each request and four to stop, whatever else the blocks contain. */
  lemma MixedRunsFinish(n: nat, before: seq<Process>, blocks: seq<seq<Process>>)
    requires forall k :: 0 <= k < |blocks| ==> Mixes(blocks[k])
    requires |blocks| >= 7 * n + 4
    ensures Finished(Run(n, Init(), before + Join(blocks)))
  {
    var all := before + Join(blocks);
    MixedBlocksCount(n, before, blocks);
    UsefulStepsAddUp(n, all);
    T.StepLowersRank(n, Abs(Run(n, Init(), all)), Primary);
    FinishedIffAllUseful(n, all);
  }

  lemma FirstRequest(n: nat)
    requires n > 0
    ensures At(n, Run(n, Init(), [Primary, Primary]), Requested(0))
    ensures var t := Run(n, Init(), [Primary, Primary]); t.p == PPoll(0) && t.ring == [Request(0, 0)]
  {
    var one: seq<Process> := [Primary];
    assert one[..0] == [] && [Primary, Primary][..1] == one;
    assert Run(n, Init(), one) == PrimaryStep(n, Init());
    StepAt(n, Init(), Idle(0), Primary);
    StepAt(n, Run(n, Init(), one), Asking(0), Primary);
  }

  lemma FirstReply(n: nat)
    requires n > 0
    ensures Waits(Run(n, Init(), [Primary, Primary] + [Secondary, Secondary, Secondary]), Primary)
  {
    var t := Run(n, Init(), [Primary, Primary]);
    FirstRequest(n);
    RunAppend(n, Init(), [Primary, Primary], [Secondary, Secondary, Secondary]);
    var t1, t2 := SecondaryStep(t), SecondaryStep(SecondaryStep(t));
    var three := [Secondary, Secondary, Secondary];
    assert three[..2][..1][..0] == [] && three[..2][..1] == three[..1];
    assert Run(n, t, three[..1]) == t1;
    assert Run(n, t, three[..2]) == t2;
    StepAt(n, t, Requested(0), Secondary);
    StepAt(n, t1, Requested(0), Secondary);
    StepAt(n, t2, Answering(0), Secondary);
  }

  /** Either process can be made to wait, with the message where one likes. */
  lemma SomeWait(n: nat, who: Process, held: bool) returns (before: seq<Process>, t: State)
    requires n > 0
    ensures Waits(t, who) && Run(n, Init(), before) == Detour(n, t, who, held)
  {
    FirstRequest(n);
    FirstReply(n);
    before := [Primary, Primary] + if who == Primary then [Secondary, Secondary, Secondary] else [];
    t := Run(n, Init(), before);
    assert [Primary, Primary] + [] == [Primary, Primary];
    if held {
      assert (before + [Other(who)])[..|before|] == before;
      before := before + [Other(who)];
    }
  }

  ghost predicate FinishesOnRepeat(n: nat, before: seq<Process>, block: seq<Process>) {
    exists m: nat :: Finished(Run(n, Init(), before + Repeat(block, m)))
  }

  lemma {:induction false} JoinCopies(block: seq<Process>, k: nat)
    ensures Join(seq(k, _ => block + block)) == Repeat(block, 2 * k)
  {
    if k > 0 {
      JoinCopies(block, k - 1);
      var all := seq(k, _ => block + block);
      assert all[..k - 1] == seq(k - 1, _ => block + block) && all[k - 1] == block + block;
      assert Repeat(block, 2 * k) == Repeat(block, 2 * k - 2) + block + block;
      assert Join(all) == Repeat(block, 2 * k - 2) + (block + block);
    }
  }

  lemma UnmixedGetsStuck(n: nat, block: seq<Process>, who: Process) returns (before: seq<Process>)
    requires n > 0 && !MixesFor(block + block, who)
    ensures !FinishesOnRepeat(n, before, block)
  {
    MixesServesBoth(block + block, who);
    var held := Served(block + block, who, false);
    var t;
    before, t := SomeWait(n, who, held);
    ServedAppend(block, block, who, held);
    if who in block && Odd(Other(who), block) {
      ServedTheSecondTime(block, who, held);
    }
    forall m: nat
      ensures !Finished(Run(n, Init(), before + Repeat(block, m)))
    {
      UnservedRepeats(block, who, held, m);
      UnservedStays(n, t, who, held, Repeat(block, m));
      RunAppend(n, Init(), before, Repeat(block, m));
    }
  }

  /** Which cyclic schedules are safe: repeating a block finishes the protocol from every state it can be
      in if and only if the block and its repetition, taken together, mix. */
  lemma CyclicFinishIff(n: nat, block: seq<Process>)
    requires n > 0
    ensures (forall before :: FinishesOnRepeat(n, before, block)) <==> Mixes(block + block)
  {
    if Mixes(block + block) {
      forall before
        ensures FinishesOnRepeat(n, before, block)
      {
        var k := 7 * n + 4;
        MixedRunsFinish(n, before, seq(k, _ => block + block));
        JoinCopies(block, k);
        assert Finished(Run(n, Init(), before + Repeat(block, 2 * k)));
      }
    } else {
      var who := if MixesFor(block + block, Primary) then Secondary else Primary;
      var before := UnmixedGetsStuck(n, block, who);
      assert !FinishesOnRepeat(n, before, block);
    }
  }

  lemma ThreeTurns()
    ensures !Served([Primary, Secondary, Primary], Secondary, false)
    ensures !Odd(Primary, [Primary, Secondary, Primary])
  {
    var block := [Primary, Secondary, Primary];
    assert Odd(Primary, block[..1]) by {
      assert block[..1][..0] == [];
    }
    assert block[..2][..1] == block[..1];
    assert Odd(Primary, block[..2]);
    assert block[..|block| - 1] == block[..2];
  }

  /** Running both processes again and again does not guarantee progress: with the first request in the
      ring, the primary can pick it up, the secondary poll in vain and the primary put it back, for
      any number of rounds, and the protocol is exactly where it was. */
  lemma BothRunYetNothingMoves(n: nat, k: nat)
    requires n > 0
    ensures var sent := Run(n, Init(), [Primary, Primary]);
      && Run(n, Init(), [Primary, Primary] + Repeat([Primary, Secondary, Primary], k)) == sent
      && !Finished(sent)
  {
    var block := [Primary, Secondary, Primary];
    FirstRequest(n);
    RunAppend(n, Init(), [Primary, Primary], Repeat(block, k));
    ThreeTurns();
    CyclicDelivery(n, Run(n, Init(), [Primary, Primary]), Secondary, false, block);
  }

  /** Between two rounds of strict alternation, no message waits where its own sender could take it. */
  predicate InTurn(t: State) {
    !Misplaced(t) && (t.s.SPoll? && t.ring != [] ==> t.ring[0].dst == PROC_A)
  }

  lemma AlternatingRound(n: nat, t: State, ph: Phase)
    requires Place(n, t, ph) && InTurn(t)
    ensures InTurn(SecondaryStep(PrimaryStep(n, t)))
    ensures ph != Over ==> !Stutters(t, Primary) || !Stutters(PrimaryStep(n, t), Secondary)
  {
  }

  lemma OneRound(n: nat, before: seq<Process>)
    requires InTurn(Run(n, Init(), before))
    ensures InTurn(Run(n, Init(), before + [Primary, Secondary]))
    ensures Finished(Run(n, Init(), before)) ==> Finished(Run(n, Init(), before + [Primary, Secondary]))
    ensures Finished(Run(n, Init(), before)) || |Useful(n, before + [Primary, Secondary])| > |Useful(n, before)|
  {
    var first, all := before + [Primary], before + [Primary, Secondary];
    var t := Run(n, Init(), before);
    assert first[..|before|] == before && all[..|first|] == first;
    InitInv(n);
    RunKeepsInv(n, Init(), before);
    var ph :| At(n, t, ph);
    AlternatingRound(n, t, ph);
  }

  lemma {:induction false} AlternationWorks(n: nat, k: nat)
    ensures var schedule := Repeat([Primary, Secondary], k);
      && InTurn(Run(n, Init(), schedule))
      && (Finished(Run(n, Init(), schedule)) || |Useful(n, schedule)| >= k)
  {
    if k > 0 {
      var before := Repeat([Primary, Secondary], k - 1);
      AlternationWorks(n, k - 1);
      OneRound(n, before);
      assert Repeat([Primary, Secondary], k) == before + [Primary, Secondary];
    }
  }

  predicate Alternates(schedule: seq<Process>) {
    forall k :: 0 < k < |schedule| ==> schedule[k] != schedule[k - 1]
  }

  lemma {:induction false} AlternatesIsRepeat(schedule: seq<Process>, k: nat)
    requires Alternates(schedule) && 2 * k <= |schedule| && (k > 0 ==> schedule[0] == Primary)
    ensures schedule[..2 * k] == Repeat([Primary, Secondary], k)
    ensures 2 * k < |schedule| && k > 0 ==> schedule[2 * k] == Primary
  {
    if k > 0 {
      AlternatesIsRepeat(schedule, k - 1);
      assert schedule[..2 * k] == schedule[..2 * (k - 1)] + [schedule[2 * k - 2], schedule[2 * k - 1]];
    }
  }

  lemma RepeatFinishes(n: nat, k: nat)
    requires k >= 7 * n + 4
    ensures Finished(Run(n, Init(), Repeat([Primary, Secondary], k)))
  {
    var schedule := Repeat([Primary, Secondary], k);
    AlternationWorks(n, k);
    UsefulStepsAddUp(n, schedule);
    T.StepLowersRank(n, Abs(Run(n, Init(), schedule)), Primary);
    FinishedIffAllUseful(n, schedule);
  }

  lemma PrimaryFirstFinishes(n: nat, schedule: seq<Process>)
    requires Alternates(schedule) && |schedule| >= 2 * (7 * n + 4) && schedule[0] == Primary
    ensures Finished(Run(n, Init(), schedule))
  {
    var k := 7 * n + 4;
    var front, rest := schedule[..2 * k], schedule[2 * k..];
    AlternatesIsRepeat(schedule, k);
    RepeatFinishes(n, k);
    assert schedule == front + rest;
    RunAppend(n, Init(), front, rest);
    FinishedStays(n, Run(n, Init(), front), rest);
  }

  /** If no process runs twice in a row the detours disappear: whichever starts, the protocol finishes
      within one turn of each process for each useful step, and one idle poll if the secondary starts. */
  lemma AlternationFinishes(n: nat, schedule: seq<Process>)
    requires Alternates(schedule) && |schedule| >= 2 * (7 * n + 4)
    requires schedule[0] == Secondary ==> |schedule| > 2 * (7 * n + 4)
    ensures Finished(Run(n, Init(), schedule))
  {
    if schedule[0] == Primary {
      PrimaryFirstFinishes(n, schedule);
    } else {
      assert schedule == [Secondary] + schedule[1..];
      RunAppend(n, Init(), [Secondary], schedule[1..]);
      assert Run(n, Init(), [Secondary]) == Init();
      PrimaryFirstFinishes(n, schedule[1..]);
    }
  }

  lemma OddPair(x: Process, y: Process)
    requires x != y
    ensures Odd(y, [x, y])
  {
    assert [x, y][..1] == [x] && [x][..0] == [];
  }

  /** Four turns without a repeated process are a mixed block. */
  lemma AlternatingFourMix(block: seq<Process>)
    requires Alternates(block) && |block| == 4
    ensures Mixes(block)
  {
    assert block[0] == block[2] == Other(block[1]) && block[1] == block[3];
    OddPair(block[0], block[1]);
    OddPair(block[1], block[2]);
    assert block[0..2] == [block[0], block[1]] && block[1..3] == [block[1], block[2]];
    assert MixesFor(block, block[0]) && MixesFor(block, block[1]);
  }

  /** Useful steps still to come, and one for a pending put-back. */
  function Distance(n: nat, t: State): int {
    T.Rank(n, Abs(t)) + if Misplaced(t) then 1 else 0
  }

  lemma TurnShortens(n: nat, schedule: seq<Process>)
    ensures var t := Run(n, Init(), schedule);
      && Distance(n, t) >= 0
      && (Distance(n, t) == 0 ==> Finished(t))
      && (Distance(n, t) > 0 ==> Distance(n, Run(n, Init(), schedule + [Turn(t)])) == Distance(n, t) - 1)
  {
    var t := Run(n, Init(), schedule);
    UsefulStepsAddUp(n, schedule);
    T.StepLowersRank(n, Abs(t), Primary);
    InitInv(n);
    RunKeepsInv(n, Init(), schedule);
    var ph :| At(n, t, ph);
    if Distance(n, t) > 0 {
      var next := schedule + [Turn(t)];
      assert next[..|next| - 1] == schedule;
      UsefulStepsAddUp(n, next);
      TurnHelps(n, t, ph);
    }
  }

  /** The protocol never gets stuck: after any run, some continuation ends with both processes
      returned, and it needs no more than the remaining useful steps and one put-back. */
  lemma {:induction false} AlwaysCanFinish(n: nat, schedule: seq<Process>) returns (more: seq<Process>)
    ensures Finished(Run(n, Init(), schedule + more))
    ensures |more| == Distance(n, Run(n, Init(), schedule))
    decreases Distance(n, Run(n, Init(), schedule))
  {
    var t := Run(n, Init(), schedule);
    TurnShortens(n, schedule);
    if Distance(n, t) == 0 {
      assert schedule + [] == schedule;
      return [];
    }
    var rest := AlwaysCanFinish(n, schedule + [Turn(t)]);
    assert (schedule + [Turn(t)]) + rest == schedule + ([Turn(t)] + rest);
    return [Turn(t)] + rest;
  }
}
