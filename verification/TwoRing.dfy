/** The lockstep protocol of inter_process_comm/ring_full_duplex: requests travel on one ring,
    replies on the other. Every ring operation is one step; a message held between two steps
    is part of the process's program counter. The program's 10 rounds are the parameter n. */
module TwoRing {
  import opened MessageTrace

  /** An int allocated with rte_malloc; id numbers the allocations. */
  datatype Cell = Cell(id: nat, value: int)

  datatype PrimaryPc =
    | PAlloc(i: nat)             // top of the loop, or past it when i == n
    | PSend(i: nat, m: Cell)     // retrying the request enqueue
    | PWait(i: nat)              // polling for the reply
    | PGot(i: nat, r: Cell)      // reply dequeued, not yet freed
    | PStop(m: Cell)             // about to enqueue the stop value, unchecked
    | PDone

  datatype SecondaryPc =
    | SWait
    | SGot(m: Cell)
    | SSend(r: Cell)
    | SDone

  /** freed lists the rte_free calls, lost the messages an unchecked enqueue dropped. */
  datatype State = State(requests: seq<Cell>, replies: seq<Cell>, p: PrimaryPc, s: SecondaryPc,
                         nextId: nat, freed: seq<nat>, lost: seq<nat>, trace: seq<Event>)

  const STOP: int := -1

  function Init(): State {
    State([], [], PAlloc(0), SWait, 0, [], [], [])
  }

  function PrimaryStep(n: nat, t: State): State {
    match t.p
    case PAlloc(i) =>
      if i < n then t.(p := PSend(i, Cell(t.nextId, i)), nextId := t.nextId + 1)
      else t.(p := PStop(Cell(t.nextId, STOP)), nextId := t.nextId + 1)
    case PSend(i, m) =>
      if |t.requests| < RING_CAPACITY
      then t.(p := PWait(i), requests := t.requests + [m], trace := t.trace + [PrimarySent(i)])
      else t
    case PWait(i) =>
      if t.replies == [] then t
      else t.(p := PGot(i, t.replies[0]), replies := t.replies[1..])
    case PGot(i, r) =>
      t.(p := PAlloc(i + 1), freed := t.freed + [r.id], trace := t.trace + [PrimaryReceived(r.value)])
    case PStop(m) =>
      var t' := t.(p := PDone, trace := t.trace + [PrimaryDone]);
      if |t.requests| < RING_CAPACITY then t'.(requests := t.requests + [m])
      else t'.(lost := t.lost + [m.id])
    case PDone => t
  }

  function SecondaryStep(t: State): State {
    match t.s
    case SWait =>
      if t.requests == [] then t
      else t.(s := SGot(t.requests[0]), requests := t.requests[1..])
    case SGot(m) =>
      if m.value == STOP then
        t.(s := SDone, freed := t.freed + [m.id], trace := t.trace + [SecondaryExit])
      else
        t.(s := SSend(Cell(t.nextId, m.value * 10)), nextId := t.nextId + 1,
           freed := t.freed + [m.id], trace := t.trace + [SecondaryReceived(m.value)])
    case SSend(r) =>
      if |t.replies| < RING_CAPACITY
      then t.(s := SWait, replies := t.replies + [r], trace := t.trace + [SecondarySent(r.value)])
      else t
    case SDone => t
  }

  function Step(n: nat, t: State, who: Process): State {
    if who == Primary then PrimaryStep(n, t) else SecondaryStep(t)
  }

  function Run(n: nat, t: State, schedule: seq<Process>): State
    decreases |schedule|
  {
    if schedule == [] then t
    else Step(n, Run(n, t, schedule[..|schedule| - 1]), schedule[|schedule| - 1])
  }

  /** The two processes over their shared memory, each method one scheduling step in place. */
  class Programs {
    const rounds: nat
    var requests: seq<Cell>
    var replies: seq<Cell>
    var p: PrimaryPc
    var s: SecondaryPc
    var nextId: nat
    var freed: seq<nat>
    var lost: seq<nat>
    var trace: seq<Event>

    ghost function View(): State
      reads this
    {
      State(requests, replies, p, s, nextId, freed, lost, trace)
    }

    constructor (n: nat)
      ensures rounds == n && View() == Init()
    {
      rounds, requests, replies, p, s, nextId, freed, lost, trace := n, [], [], PAlloc(0), SWait, 0, [], [], [];
    }

    method StepPrimary()
      modifies this
      ensures View() == PrimaryStep(rounds, old(View()))
    {
      match p
      case PAlloc(i) =>
        p := if i < rounds then PSend(i, Cell(nextId, i)) else PStop(Cell(nextId, STOP));
        nextId := nextId + 1;
      case PSend(i, m) =>
        if |requests| < RING_CAPACITY {
          requests := requests + [m];
          trace := trace + [PrimarySent(i)];
          p := PWait(i);
        }
      case PWait(i) =>
        if replies != [] {
          p, replies := PGot(i, replies[0]), replies[1..];
        }
      case PGot(i, r) =>
        trace := trace + [PrimaryReceived(r.value)];
        freed := freed + [r.id];
        p := PAlloc(i + 1);
      case PStop(m) =>
        if |requests| < RING_CAPACITY {
          requests := requests + [m];
        } else {
          lost := lost + [m.id];
        }
        trace := trace + [PrimaryDone];
        p := PDone;
      case PDone =>
    }

    method StepSecondary()
      modifies this
      ensures View() == SecondaryStep(old(View()))
    {
      match s
      case SWait =>
        if requests != [] {
          s, requests := SGot(requests[0]), requests[1..];
        }
      case SGot(m) =>
        if m.value == STOP {
          freed := freed + [m.id];
          trace := trace + [SecondaryExit];
          s := SDone;
        } else {
          trace := trace + [SecondaryReceived(m.value)];
          freed := freed + [m.id];
          s := SSend(Cell(nextId, m.value * 10));
          nextId := nextId + 1;
        }
      case SSend(r) =>
        if |replies| < RING_CAPACITY {
          replies := replies + [r];
          trace := trace + [SecondarySent(r.value)];
          s := SWait;
        }
      case SDone =>
    }

    /** Both programs running concurrently under an arbitrary schedule. */
    method Execute(schedule: seq<Process>)
      modifies this
      ensures View() == Run(rounds, old(View()), schedule)
    {
      assert schedule[..0] == [];
      for k := 0 to |schedule|
        invariant View() == Run(rounds, old(View()), schedule[..k])
      {
        assert schedule[..k + 1][..k] == schedule[..k];
        if schedule[k] == Primary {
          StepPrimary();
        } else {
          StepSecondary();
        }
      }
      assert schedule[..|schedule|] == schedule;
    }
  }

  /** Where the protocol stands: allocations, frees and events are functions of it. */
  ghost predicate Book(t: State, allocations: nat, freedSoFar: nat, trace: seq<Event>) {
    t.nextId == allocations && t.freed == Upto(freedSoFar) && t.lost == [] && t.trace == trace
  }

  ghost predicate Inv(n: nat, t: State) {
    match t.p
    case PAlloc(i) =>
      i <= n && t.requests == t.replies == [] && t.s == SWait && Book(t, 2 * i, 2 * i, Rounds(i))
    case PSend(i, m) =>
      && i < n && m == Cell(2 * i, i) && t.requests == t.replies == [] && t.s == SWait
      && Book(t, 2 * i + 1, 2 * i, Rounds(i))
    case PWait(i) =>
      && i < n
      && (match t.s
          case SWait =>
            || (t.requests == [Cell(2 * i, i)] && t.replies == []
                && Book(t, 2 * i + 1, 2 * i, Rounds(i) + Round(i)[..1]))
            || (t.requests == [] && t.replies == [Cell(2 * i + 1, 10 * i)]
                && Book(t, 2 * i + 2, 2 * i + 1, Rounds(i) + Round(i)[..3]))
          case SGot(m) =>
            m == Cell(2 * i, i) && t.requests == t.replies == []
            && Book(t, 2 * i + 1, 2 * i, Rounds(i) + Round(i)[..1])
          case SSend(r) =>
            r == Cell(2 * i + 1, 10 * i) && t.requests == t.replies == []
            && Book(t, 2 * i + 2, 2 * i + 1, Rounds(i) + Round(i)[..2])
          case SDone => false)
    case PGot(i, r) =>
      && i < n && r == Cell(2 * i + 1, 10 * i) && t.requests == t.replies == [] && t.s == SWait
      && Book(t, 2 * i + 2, 2 * i + 1, Rounds(i) + Round(i)[..3])
    case PStop(m) =>
      m == Cell(2 * n, STOP) && t.requests == t.replies == [] && t.s == SWait && Book(t, 2 * n + 1, 2 * n, Rounds(n))
    case PDone =>
      && t.replies == []
      && (match t.s
          case SWait => t.requests == [Cell(2 * n, STOP)] && Book(t, 2 * n + 1, 2 * n, Rounds(n) + [PrimaryDone])
          case SGot(m) =>
            m == Cell(2 * n, STOP) && t.requests == [] && Book(t, 2 * n + 1, 2 * n, Rounds(n) + [PrimaryDone])
          case SSend(_) => false
          case SDone => t.requests == [] && Book(t, 2 * n + 1, 2 * n + 1, Conversation(n)))
  }

  lemma StepKeepsInv(n: nat, t: State, who: Process)
    requires Inv(n, t)
    ensures Inv(n, Step(n, t, who))
  {
  }

  lemma {:induction false} RunKeepsInv(n: nat, t: State, schedule: seq<Process>)
    requires Inv(n, t)
    ensures Inv(n, Run(n, t, schedule))
    decreases |schedule|
  {
    if schedule != [] {
      RunKeepsInv(n, t, schedule[..|schedule| - 1]);
      StepKeepsInv(n, Run(n, t, schedule[..|schedule| - 1]), schedule[|schedule| - 1]);
    }
  }

  /** Messages in either ring or held by a process between two steps. */
  function Live(t: State): seq<Cell> {
    t.requests + t.replies
    + (match t.p case PSend(_, m) => [m] case PGot(_, r) => [r] case PStop(m) => [m] case _ => [])
    + (match t.s case SGot(m) => [m] case SSend(r) => [r] case _ => [])
  }

  ghost predicate Finished(t: State) {
    t.p == PDone && t.s == SDone
  }

  /** Steps of actual work still to be done: seven a round and four to stop. */
  function Rank(n: nat, t: State): int {
    match t.p
    case PAlloc(i) => 7 * (n - i) + 4
    case PSend(i, _) => 7 * (n - i) + 3
    case PWait(i) =>
      7 * (n - i) + (match t.s
                     case SWait => if t.requests != [] then 2 else -1
                     case SGot(_) => 1
                     case SSend(_) => 0
                     case SDone => 0)
    case PGot(i, _) => 7 * (n - i) - 2
    case PStop(_) => 3
    case PDone => match t.s case SWait => 2 case SGot(_) => 1 case SSend(_) => 0 case SDone => 0
  }

  lemma StepLowersRank(n: nat, t: State, who: Process)
    requires Inv(n, t)
    ensures Rank(n, t) >= 0
    ensures Step(n, t, who) == t || Rank(n, Step(n, t, who)) == Rank(n, t) - 1
    ensures Rank(n, t) == 0 <==> Finished(t)
  {
  }

  /** The one process that can do something; the other one polls in vain or has returned. */
  function Mover(t: State): Process {
    match t.p
    case PWait(_) => if t.replies != [] then Primary else Secondary
    case PDone => Secondary
    case _ => Primary
  }

  lemma OnlyMoverMoves(n: nat, t: State, who: Process)
    requires Inv(n, t) && !Finished(t)
    ensures if who == Mover(t) then Rank(n, Step(n, t, who)) == Rank(n, t) - 1 else Step(n, t, who) == t
  {
  }

  lemma {:induction false} OthersWait(n: nat, t: State, block: seq<Process>)
    requires Inv(n, t) && !Finished(t) && Mover(t) !in block
    ensures Run(n, t, block) == t
    decreases |block|
  {
    if block != [] {
      OthersWait(n, t, block[..|block| - 1]);
      OnlyMoverMoves(n, t, block[|block| - 1]);
    }
  }

  lemma {:induction false} BlockProgress(n: nat, t: State, block: seq<Process>)
    requires Inv(n, t) && !Finished(t) && Mover(t) in block
    ensures Inv(n, Run(n, t, block)) && 0 <= Rank(n, Run(n, t, block)) < Rank(n, t)
    decreases |block|
  {
    var before, who := block[..|block| - 1], block[|block| - 1];
    RunKeepsInv(n, t, before);
    RunKeepsInv(n, t, block);
    StepLowersRank(n, Run(n, t, block), who);
    if Mover(t) in before {
      BlockProgress(n, t, before);
      StepLowersRank(n, Run(n, t, before), who);
    } else {
      OthersWait(n, t, before);
      OnlyMoverMoves(n, t, who);
    }
  }

  lemma {:induction false} FinishedStays(n: nat, t: State, block: seq<Process>)
    requires Finished(t)
    ensures Run(n, t, block) == t
    decreases |block|
  {
    if block != [] {
      FinishedStays(n, t, block[..|block| - 1]);
    }
  }

  function RunBlocks(n: nat, blocks: seq<seq<Process>>): State
    decreases |blocks|
  {
    if blocks == [] then Init() else Run(n, RunBlocks(n, blocks[..|blocks| - 1]), blocks[|blocks| - 1])
  }

  lemma {:induction false} BlocksProgress(n: nat, blocks: seq<seq<Process>>)
    requires forall k :: 0 <= k < |blocks| ==> Primary in blocks[k] && Secondary in blocks[k]
    ensures var t := RunBlocks(n, blocks);
      Inv(n, t) && Rank(n, t) >= 0 && (Finished(t) || |blocks| + Rank(n, t) <= 7 * n + 4)
    decreases |blocks|
  {
    if blocks != [] {
      var before, last := RunBlocks(n, blocks[..|blocks| - 1]), blocks[|blocks| - 1];
      BlocksProgress(n, blocks[..|blocks| - 1]);
      if Finished(before) {
        FinishedStays(n, before, last);
      } else {
        BlockProgress(n, before, last);
      }
    }
  }

  /** Every fair schedule finishes: cut into pieces in which both processes run, however often and in
      whatever order, it needs no more than seven pieces a round and four to stop. */
  lemma FairRunsFinish(n: nat, blocks: seq<seq<Process>>)
    requires forall k :: 0 <= k < |blocks| ==> Primary in blocks[k] && Secondary in blocks[k]
    requires |blocks| >= 7 * n + 4
    ensures Finished(RunBlocks(n, blocks))
  {
    BlocksProgress(n, blocks);
    StepLowersRank(n, RunBlocks(n, blocks), Primary);
  }

  lemma InvTrace(n: nat, t: State)
    requires Inv(n, t)
    ensures t.trace <= Conversation(n)
  {
    match t.p
    case PAlloc(i) => RoundsMonotone(i, n);
    case PSend(i, _) => PartialRoundFits(i, n, 0);
    case PWait(i) => PartialRoundFits(i, n, 1); PartialRoundFits(i, n, 2); PartialRoundFits(i, n, 3);
    case PGot(i, _) => PartialRoundFits(i, n, 3);
    case _ =>
  }

  /** Every run of the two-ring programs, under any schedule and for any number of rounds: at most
      one message is live, nothing is lost, the events are a prefix of the one conversation,
      and when both sides have returned it is complete, the rings are empty and every allocated
      message was freed exactly once, in allocation order. */
  lemma TwoRingSafety(n: nat, schedule: seq<Process>)
    ensures var t := Run(n, Init(), schedule);
      && |Live(t)| <= 1
      && t.lost == []
      && t.trace <= Conversation(n)
      && (Finished(t) ==> t.trace == Conversation(n) && t.requests == t.replies == []
                          && t.nextId == 2 * n + 1 && t.freed == Upto(t.nextId)
                          && EachOnce(t.freed, t.nextId))
  {
    UptoEachOnce(2 * n + 1);
    RunKeepsInv(n, Init(), schedule);
    InvTrace(n, Run(n, Init(), schedule));
  }

  /** The stop value is never a request and no request follows it: a cell carrying -1 on the request
      side exists only once the primary has finished its rounds, it is then the only live message,
      and it is taken for a stop exactly then. */
  lemma StopIsUnambiguous(n: nat, schedule: seq<Process>, c: Cell)
    requires c in Live(Run(n, Init(), schedule))
    ensures var t := Run(n, Init(), schedule);
      && Live(t) == [c]
      && (c.value == STOP <==> t.p.PStop? || t.p.PDone?)
      && (c.value == STOP <==> c.id == 2 * n)
  {
    RunKeepsInv(n, Init(), schedule);
  }
}
