/** The single-ring programs implement the two-ring protocol: picking up one's own message and
    putting it back are invisible, every other step is the two-ring step of the same process. */
module RingRefinement {
  import opened MessageTrace
  import T = TwoRing
  import opened SingleRing
  import opened SingleRingInvariant

  /** What the two-ring programs would have allocated: an exit message becomes the stop value. */
  function ToCell(m: Msg): T.Cell {
    T.Cell(m.id, if m.kind == Exit then T.STOP else m.value)
  }

  /** The messages addressed to dst, in order. */
  function Toward(ms: seq<Msg>, dst: int): seq<T.Cell> {
    if ms == [] then []
    else (if ms[0].dst == dst then [ToCell(ms[0])] else []) + Toward(ms[1..], dst)
  }

  /** The ring, and behind it a message its own sender dequeued and is about to put back. */
  function InFlight(t: State): seq<Msg> {
    var foreign :=
      if t.p.PGot? && t.p.r.dst != PROC_A then [t.p.r]
      else if t.s.SGot? && t.s.m.dst != PROC_B then [t.s.m]
      else [];
    t.ring + foreign
  }

  function AbsPrimary(p: PrimaryPc): T.PrimaryPc {
    match p
    case PAlloc(i) => T.PAlloc(i)
    case PSend(i, m) => T.PSend(i, ToCell(m))
    case PPoll(i) => T.PWait(i)
    case PGot(i, r) => if r.dst == PROC_A then T.PGot(i, ToCell(r)) else T.PWait(i)
    case PExit(m) => T.PStop(ToCell(m))
    case PDone => T.PDone
  }

  function AbsSecondary(s: SecondaryPc): T.SecondaryPc {
    match s
    case SPoll => T.SWait
    case SGot(m) => if m.dst == PROC_B then T.SGot(ToCell(m)) else T.SWait
    case SSend(r) => T.SSend(ToCell(r))
    case SDone => T.SDone
  }

  /** The refinement mapping: one ring is split by destination. */
  function Abs(t: State): T.State {
    T.State(Toward(InFlight(t), PROC_B), Toward(InFlight(t), PROC_A),
            AbsPrimary(t.p), AbsSecondary(t.s), t.nextId, t.freed, t.lost, t.trace)
  }

  lemma TowardOne(ms: seq<Msg>, dst: int)
    requires |ms| <= 1
    ensures Toward(ms, dst) == if ms == [] || ms[0].dst != dst then [] else [ToCell(ms[0])]
  {
  }

  /** The message in flight in each phase, until the process it is meant for has dequeued it. */
  function Flying(n: nat, t: State, ph: Phase): seq<Msg> {
    match ph
    case Requested(i) => if t.s.SGot? then [] else [Request(2 * i, i)]
    case Stopped => if t.s.SGot? then [] else [ExitMsg(2 * n)]
    case Answered(i) => if t.p.PGot? then [] else [Response(2 * i + 1, i * 10)]
    case _ => []
  }

  lemma InFlightIsFlying(n: nat, t: State, ph: Phase)
    requires Place(n, t, ph)
    ensures InFlight(t) == Flying(n, t, ph)
  {
  }

  lemma AbsRings(n: nat, t: State, ph: Phase)
    requires Place(n, t, ph)
    ensures Abs(t).requests == if ph.Answered? || Flying(n, t, ph) == [] then [] else [ToCell(Flying(n, t, ph)[0])]
    ensures Abs(t).replies == if ph.Answered? && Flying(n, t, ph) != [] then [ToCell(Flying(n, t, ph)[0])] else []
  {
    InFlightIsFlying(n, t, ph);
    TowardOne(Flying(n, t, ph), PROC_A);
    TowardOne(Flying(n, t, ph), PROC_B);
  }

  /** The step is one the two-ring protocol does not see: polling in vain, picking up one's own
      message, putting it back, or nothing because the process has returned. */
  predicate Stutters(t: State, who: Process) {
    if who == Primary then
      || (t.p.PPoll? && (t.ring == [] || t.ring[0].dst != PROC_A))
      || (t.p.PGot? && t.p.r.dst != PROC_A)
      || t.p.PDone?
    else
      || (t.s.SPoll? && (t.ring == [] || t.ring[0].dst != PROC_B))
      || (t.s.SGot? && t.s.m.dst != PROC_B)
      || t.s.SDone?
  }

  lemma PrimaryStutter(n: nat, t: State, ph: Phase)
    requires Place(n, t, ph) && Stutters(t, Primary)
    ensures Abs(PrimaryStep(n, t)) == Abs(t)
  {
    assert InFlight(PrimaryStep(n, t)) == InFlight(t);
  }

  lemma SecondaryStutter(n: nat, t: State, ph: Phase)
    requires Place(n, t, ph) && Stutters(t, Secondary)
    ensures Abs(SecondaryStep(t)) == Abs(t)
  {
    assert InFlight(SecondaryStep(t)) == InFlight(t);
  }

  /** The primary allocates, or frees a reply: the ring stays empty. */
  lemma PrimaryLocalStep(n: nat, t: State, ph: Phase)
    requires Place(n, t, ph) && (t.p.PAlloc? || (t.p.PGot? && t.p.r.dst == PROC_A))
    ensures Abs(PrimaryStep(n, t)) == T.PrimaryStep(n, Abs(t))
  {
    assert InFlight(t) == InFlight(PrimaryStep(n, t)) == [];
  }

  /** The primary enqueues its request or the exit message. */
  lemma PrimaryEnqueues(n: nat, t: State, ph: Phase)
    requires Place(n, t, ph) && (t.p.PSend? || t.p.PExit?)
    ensures Abs(PrimaryStep(n, t)) == T.PrimaryStep(n, Abs(t))
  {
    var m := t.p.m;
    assert InFlight(t) == [] && InFlight(PrimaryStep(n, t)) == [m];
    TowardOne([m], PROC_A);
    TowardOne([m], PROC_B);
  }

  /** The primary dequeues its reply. */
  lemma PrimaryDequeues(n: nat, t: State, ph: Phase)
    requires Place(n, t, ph) && !Stutters(t, Primary) && t.p.PPoll?
    ensures Abs(PrimaryStep(n, t)) == T.PrimaryStep(n, Abs(t))
  {
    assert InFlight(t) == [t.ring[0]] && InFlight(PrimaryStep(n, t)) == [];
    TowardOne(InFlight(t), PROC_A);
    TowardOne(InFlight(t), PROC_B);
  }

  lemma SecondaryLocalStep(n: nat, t: State, ph: Phase)
    requires Place(n, t, ph) && t.s.SGot? && t.s.m.dst == PROC_B
    ensures Abs(SecondaryStep(t)) == T.SecondaryStep(Abs(t))
  {
    assert InFlight(t) == InFlight(SecondaryStep(t)) == [];
  }

  lemma SecondaryEnqueues(n: nat, t: State, ph: Phase)
    requires Place(n, t, ph) && t.s.SSend?
    ensures Abs(SecondaryStep(t)) == T.SecondaryStep(Abs(t))
  {
    assert InFlight(t) == [] && InFlight(SecondaryStep(t)) == [t.s.r];
    TowardOne([t.s.r], PROC_A);
    TowardOne([t.s.r], PROC_B);
  }

  lemma SecondaryDequeues(n: nat, t: State, ph: Phase)
    requires Place(n, t, ph) && !Stutters(t, Secondary) && t.s.SPoll?
    ensures Abs(SecondaryStep(t)) == T.SecondaryStep(Abs(t))
  {
    assert InFlight(t) == [t.ring[0]] && InFlight(SecondaryStep(t)) == [];
    TowardOne(InFlight(t), PROC_A);
    TowardOne(InFlight(t), PROC_B);
  }

  /** A step of the single-ring programs is invisible to the two-ring protocol or is its step. */
  lemma StepRefines(n: nat, t: State, ph: Phase, who: Process)
    requires Place(n, t, ph)
    ensures Abs(Step(n, t, who)) == if Stutters(t, who) then Abs(t) else T.Step(n, Abs(t), who)
  {
    if who == Primary {
      if Stutters(t, who) { PrimaryStutter(n, t, ph); }
      else if t.p.PAlloc? || t.p.PGot? { PrimaryLocalStep(n, t, ph); }
      else if t.p.PPoll? { PrimaryDequeues(n, t, ph); }
      else { PrimaryEnqueues(n, t, ph); }
    } else {
      if Stutters(t, who) { SecondaryStutter(n, t, ph); }
      else if t.s.SGot? { SecondaryLocalStep(n, t, ph); }
      else if t.s.SPoll? { SecondaryDequeues(n, t, ph); }
      else { SecondaryEnqueues(n, t, ph); }
    }
  }

  /** The part of a schedule that the two-ring programs take part in. */
  function Useful(n: nat, schedule: seq<Process>): seq<Process>
    decreases |schedule|
  {
    if schedule == [] then []
    else
      var before, who := schedule[..|schedule| - 1], schedule[|schedule| - 1];
      Useful(n, before) + if Stutters(Run(n, Init(), before), who) then [] else [who]
  }

  /** Refinement over whole runs: whatever the single-ring programs do under a schedule, the two-ring
      programs do under its useful part, with the same events, allocations and frees. */
  lemma {:induction false} SingleRefinesTwo(n: nat, schedule: seq<Process>)
    ensures Abs(Run(n, Init(), schedule)) == T.Run(n, T.Init(), Useful(n, schedule))
    decreases |schedule|
  {
    if schedule != [] {
      var before, who := schedule[..|schedule| - 1], schedule[|schedule| - 1];
      SingleRefinesTwo(n, before);
      InitInv(n);
      RunKeepsInv(n, Init(), before);
      var t := Run(n, Init(), before);
      var ph :| At(n, t, ph);
      StepRefines(n, t, ph, who);
      if Stutters(t, who) {
        assert Useful(n, schedule) == Useful(n, before);
      } else {
        var useful := Useful(n, schedule);
        assert useful[..|useful| - 1] == Useful(n, before);
      }
    }
  }

  lemma UsefulStepMoves(n: nat, t: State, ph: Phase, who: Process)
    requires Place(n, t, ph) && !Stutters(t, who)
    ensures T.Step(n, Abs(t), who) != Abs(t)
  {
    AbsRings(n, t, ph);
  }

  /** The useful steps of a run and the ones still to come always add up to seven a round and four to
      stop: each useful step brings the end closer by one, no detour moves it away. */
  lemma {:induction false} UsefulStepsAddUp(n: nat, schedule: seq<Process>)
    ensures |Useful(n, schedule)| + T.Rank(n, Abs(Run(n, Init(), schedule))) == 7 * n + 4
    ensures T.Inv(n, Abs(Run(n, Init(), schedule)))
    decreases |schedule|
  {
    SingleRefinesTwo(n, schedule);
    T.RunKeepsInv(n, T.Init(), Useful(n, schedule));
    if schedule != [] {
      var before, who := schedule[..|schedule| - 1], schedule[|schedule| - 1];
      UsefulStepsAddUp(n, before);
      InitInv(n);
      RunKeepsInv(n, Init(), before);
      var t := Run(n, Init(), before);
      var ph :| At(n, t, ph);
      StepRefines(n, t, ph, who);
      if !Stutters(t, who) {
        UsefulStepMoves(n, t, ph, who);
        T.StepLowersRank(n, Abs(t), who);
      }
    }
  }
}
