/** The token invariant of the single-ring protocol: every reachable state is in one of eight
    phases, and in each of them at most one message exists. */
module SingleRingInvariant {
  import opened MessageTrace
  import opened SingleRing

  datatype Phase =
    | Idle(i: nat)        // between rounds
    | Asking(i: nat)      // the primary holds request i
    | Requested(i: nat)   // request i is in flight
    | Answering(i: nat)   // the secondary holds reply i
    | Answered(i: nat)    // reply i is in flight
    | Stopping            // the primary holds the exit message
    | Stopped             // the exit message is in flight
    | Over

  /** Apart from m there is no message: m is in the ring, or the primary dequeued it while waiting
      for reply i, or the secondary dequeued it. Either may be the wrong process. */
  ghost predicate OnlyMessage(t: State, waiting: PrimaryPc, m: Msg) {
    || (t.p == waiting && t.s == SPoll && t.ring == [m])
    || (waiting.PPoll? && t.p == PGot(waiting.i, m) && t.s == SPoll && t.ring == [])
    || (t.p == waiting && t.s == SGot(m) && t.ring == [])
  }

  /** Where the processes and the one message are. */
  ghost predicate Place(n: nat, t: State, ph: Phase) {
    match ph
    case Idle(i) => i <= n && t.p == PAlloc(i) && t.s == SPoll && t.ring == []
    case Asking(i) => i < n && t.p == PSend(i, Request(2 * i, i)) && t.s == SPoll && t.ring == []
    case Requested(i) => i < n && OnlyMessage(t, PPoll(i), Request(2 * i, i))
    case Answering(i) => i < n && t.p == PPoll(i) && t.s == SSend(Response(2 * i + 1, i * 10)) && t.ring == []
    case Answered(i) => i < n && OnlyMessage(t, PPoll(i), Response(2 * i + 1, i * 10))
    case Stopping => t.p == PExit(ExitMsg(2 * n)) && t.s == SPoll && t.ring == []
    case Stopped => OnlyMessage(t, PDone, ExitMsg(2 * n))
    case Over => t.p == PDone && t.s == SDone && t.ring == []
  }

  /** What has been allocated and freed, and the events so far. */
  ghost predicate Books(n: nat, t: State, ph: Phase) {
    && t.lost == []
    && match ph
       case Idle(i) => t.nextId == 2 * i && t.freed == Upto(2 * i) && t.trace == Rounds(i)
       case Asking(i) => t.nextId == 2 * i + 1 && t.freed == Upto(2 * i) && t.trace == Rounds(i)
       case Requested(i) => t.nextId == 2 * i + 1 && t.freed == Upto(2 * i) && t.trace == Rounds(i) + Round(i)[..1]
       case Answering(i) => t.nextId == 2 * i + 2 && t.freed == Upto(2 * i + 1) && t.trace == Rounds(i) + Round(i)[..2]
       case Answered(i) => t.nextId == 2 * i + 2 && t.freed == Upto(2 * i + 1) && t.trace == Rounds(i) + Round(i)[..3]
       case Stopping => t.nextId == 2 * n + 1 && t.freed == Upto(2 * n) && t.trace == Rounds(n)
       case Stopped => t.nextId == 2 * n + 1 && t.freed == Upto(2 * n) && t.trace == Rounds(n) + [PrimaryDone]
       case Over => t.nextId == 2 * n + 1 && t.freed == Upto(2 * n + 1) && t.trace == Conversation(n)
  }

  ghost predicate At(n: nat, t: State, ph: Phase) {
    Place(n, t, ph) && Books(n, t, ph)
  }

  ghost predicate Inv(n: nat, t: State) {
    exists ph :: At(n, t, ph)
  }

  /** The phase after a step of who. */
  function NextPhase(n: nat, t: State, ph: Phase, who: Process): Phase {
    match ph
    case Idle(i) => if who == Secondary then ph else if i < n then Asking(i) else Stopping
    case Asking(i) => if who == Primary then Requested(i) else ph
    case Requested(i) => if who == Secondary && t.s.SGot? then Answering(i) else ph
    case Answering(i) => if who == Secondary then Answered(i) else ph
    case Answered(i) => if who == Primary && t.p.PGot? then Idle(i + 1) else ph
    case Stopping => if who == Primary then Stopped else ph
    case Stopped => if who == Secondary && t.s.SGot? then Over else ph
    case Over => ph
  }

  lemma StepPlace(n: nat, t: State, ph: Phase, who: Process)
    requires Place(n, t, ph)
    requires ph.Idle? && who == Primary ==> t.nextId == 2 * ph.i
    requires ph.Requested? && who == Secondary && t.s.SGot? ==> t.nextId == 2 * ph.i + 1
    ensures Place(n, Step(n, t, who), NextPhase(n, t, ph, who))
  {
  }

  lemma PrimaryBooks(n: nat, t: State, ph: Phase)
    requires At(n, t, ph)
    ensures Books(n, PrimaryStep(n, t), NextPhase(n, t, ph, Primary))
  {
  }

  lemma SecondaryBooks(n: nat, t: State, ph: Phase)
    requires At(n, t, ph)
    ensures Books(n, SecondaryStep(t), NextPhase(n, t, ph, Secondary))
  {
  }

  lemma StepAt(n: nat, t: State, ph: Phase, who: Process)
    requires At(n, t, ph)
    ensures At(n, Step(n, t, who), NextPhase(n, t, ph, who))
  {
    StepPlace(n, t, ph, who);
    PrimaryBooks(n, t, ph);
    SecondaryBooks(n, t, ph);
  }

  lemma {:induction false} RunKeepsInv(n: nat, t: State, schedule: seq<Process>)
    requires Inv(n, t)
    ensures Inv(n, Run(n, t, schedule))
    decreases |schedule|
  {
    if schedule != [] {
      RunKeepsInv(n, t, schedule[..|schedule| - 1]);
      var u := Run(n, t, schedule[..|schedule| - 1]);
      var ph :| At(n, u, ph);
      StepAt(n, u, ph, schedule[|schedule| - 1]);
    }
  }

  lemma InitInv(n: nat)
    ensures Inv(n, Init())
  {
    assert At(n, Init(), Idle(0));
  }

  /** Messages in the ring or held by a process between two steps. */
  function Tokens(t: State): seq<Msg> {
    t.ring
    + (match t.p case PSend(_, m) => [m] case PGot(_, r) => [r] case PExit(m) => [m] case _ => [])
    + (match t.s case SGot(m) => [m] case SSend(r) => [r] case _ => [])
  }

  ghost predicate Finished(t: State) {
    t.p == PDone && t.s == SDone
  }

  lemma PhaseTrace(n: nat, t: State, ph: Phase)
    requires At(n, t, ph)
    ensures t.trace <= Conversation(n)
  {
    match ph
    case Idle(i) => RoundsMonotone(i, n);
    case Asking(i) => PartialRoundFits(i, n, 0);
    case Requested(i) => PartialRoundFits(i, n, 1);
    case Answering(i) => PartialRoundFits(i, n, 2);
    case Answered(i) => PartialRoundFits(i, n, 3);
    case _ =>
  }

  lemma InvIsSafe(n: nat, t: State)
    requires Inv(n, t)
    ensures |Tokens(t)| <= 1 && t.lost == [] && t.trace <= Conversation(n)
    ensures Finished(t) ==>
              t.trace == Conversation(n) && t.ring == [] && t.nextId == 2 * n + 1 && t.freed == Upto(2 * n + 1)
  {
    var ph :| At(n, t, ph);
    PhaseTrace(n, t, ph);
  }

  /** Every run, under any schedule and for any number of requests: at most one message exists, so
      the put-backs and the exit message, whose enqueue is not checked, never get lost; the events are
      a prefix of the one conversation, so the reply accepted in round i is 10*i; and once both sides
      have returned the ring is empty and every message was freed exactly once, in allocation order. */
  lemma SingleRingSafety(n: nat, schedule: seq<Process>)
    ensures var t := Run(n, Init(), schedule);
      && |Tokens(t)| <= 1
      && t.lost == []
      && t.trace <= Conversation(n)
      && (Finished(t) ==> t.trace == Conversation(n) && t.ring == []
                          && t.nextId == 2 * n + 1 && t.freed == Upto(t.nextId)
                          && EachOnce(t.freed, t.nextId))
  {
    UptoEachOnce(2 * n + 1);
    InitInv(n);
    RunKeepsInv(n, Init(), schedule);
    InvIsSafe(n, Run(n, Init(), schedule));
  }

  /** A process that picks up the other side's message changes nothing in the end: whatever the other
      process does meanwhile, putting the message back restores the very state it was taken from. */
  lemma {:induction false} PutBackUndoesPickUp(n: nat, t: State, who: Process, polls: seq<Process>)
    requires Inv(n, t) && t.ring != []
    requires if who == Primary then t.p.PPoll? && t.ring[0].dst != PROC_A
             else t.s.SPoll? && t.ring[0].dst != PROC_B
    requires forall k :: 0 <= k < |polls| ==> polls[k] != who
    ensures Step(n, Run(n, Step(n, t, who), polls), who) == t
    decreases |polls|
  {
    var ph :| At(n, t, ph);
    var held := Step(n, t, who);
    assert Run(n, held, polls) == held by {
      OthersOnlyPoll(n, held, who, polls);
    }
  }

  lemma {:induction false} OthersOnlyPoll(n: nat, held: State, who: Process, polls: seq<Process>)
    requires held.ring == []
    requires if who == Primary then held.s == SPoll else held.p.PPoll? || held.p.PDone?
    requires forall k :: 0 <= k < |polls| ==> polls[k] != who
    ensures Run(n, held, polls) == held
    decreases |polls|
  {
    if polls != [] {
      OthersOnlyPoll(n, held, who, polls[..|polls| - 1]);
    }
  }

  lemma {:induction false} RunAppend(n: nat, t: State, a: seq<Process>, b: seq<Process>)
    ensures Run(n, t, a + b) == Run(n, Run(n, t, a), b)
    decreases |b|
  {
    if b == [] {
      assert a + b == a;
    } else {
      assert (a + b)[..|a + b| - 1] == a + b[..|b| - 1];
      RunAppend(n, t, a, b[..|b| - 1]);
    }
  }

  lemma PhaseValues(n: nat, t: State, ph: Phase, m: Msg)
    requires At(n, t, ph) && m in Tokens(t)
    ensures 0 <= m.value <= 10 * (n - 1) || m == ExitMsg(2 * n)
  {
  }

  /** Every int the programs store fits 32 bits as long as ten times the largest request does. */
  lemma ValuesFit(n: nat, schedule: seq<Process>, m: Msg)
    requires 10 * (n - 1) < 0x8000_0000
    requires m in Tokens(Run(n, Init(), schedule))
    ensures 0 <= m.value < 0x8000_0000
  {
    InitInv(n);
    RunKeepsInv(n, Init(), schedule);
    var t := Run(n, Init(), schedule);
    var ph :| At(n, t, ph);
    PhaseValues(n, t, ph, m);
  }
}
