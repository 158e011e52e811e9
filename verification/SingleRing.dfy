/** The full-duplex protocol of inter_process_comm/single_ring_full_duplex: both directions share
    one ring, so a process can dequeue its own message and has to put it back with an enqueue whose
    result nobody checks. Steps, schedules and events are those of the two-ring model. */
module SingleRing {
  import opened MessageTrace

  const PROC_A: int := 1
  const PROC_B: int := 2

  datatype MsgType = Req | Resp | Exit

  /** struct msg, with the number of its rte_malloc as identity. */
  datatype Msg = Msg(id: nat, src: int, dst: int, kind: MsgType, value: int)

  datatype PrimaryPc =
    | PAlloc(i: nat)           // top of the request loop, or past it when i == n
    | PSend(i: nat, m: Msg)    // retrying the request enqueue
    | PPoll(i: nat)            // the inner for (;;), before its dequeue
    | PGot(i: nat, r: Msg)     // something dequeued, not yet looked at
    | PExit(m: Msg)            // about to enqueue the exit message, unchecked
    | PDone

  datatype SecondaryPc =
    | SPoll
    | SGot(m: Msg)
    | SSend(r: Msg)
    | SDone

  /** lost lists the messages dropped by an unchecked enqueue or ignored without being freed. */
  datatype State = State(ring: seq<Msg>, p: PrimaryPc, s: SecondaryPc,
                         nextId: nat, freed: seq<nat>, lost: seq<nat>, trace: seq<Event>)

  function Init(): State {
    State([], PAlloc(0), SPoll, 0, [], [], [])
  }

  function Request(id: nat, i: int): Msg { Msg(id, PROC_A, PROC_B, Req, i) }
  function Response(id: nat, v: int): Msg { Msg(id, PROC_B, PROC_A, Resp, v) }
  function ExitMsg(id: nat): Msg { Msg(id, PROC_A, PROC_B, Exit, 0) }

  /** An enqueue whose return value is ignored. */
  function EnqueueUnchecked(t: State, m: Msg): State {
    if |t.ring| < RING_CAPACITY then t.(ring := t.ring + [m]) else t.(lost := t.lost + [m.id])
  }

  function PrimaryStep(n: nat, t: State): State {
    match t.p
    case PAlloc(i) =>
      if i < n then t.(p := PSend(i, Request(t.nextId, i)), nextId := t.nextId + 1)
      else t.(p := PExit(ExitMsg(t.nextId)), nextId := t.nextId + 1)
    case PSend(i, m) =>
      if |t.ring| < RING_CAPACITY
      then t.(p := PPoll(i), ring := t.ring + [m], trace := t.trace + [PrimarySent(i)])
      else t
    case PPoll(i) =>
      if t.ring == [] then t else t.(p := PGot(i, t.ring[0]), ring := t.ring[1..])
    case PGot(i, r) =>
      if r.dst != PROC_A then EnqueueUnchecked(t, r).(p := PPoll(i))
      else if r.kind == Resp then
        t.(p := PAlloc(i + 1), freed := t.freed + [r.id], trace := t.trace + [PrimaryReceived(r.value)])
      else t.(p := PPoll(i), lost := t.lost + [r.id])
    case PExit(m) =>
      EnqueueUnchecked(t, m).(p := PDone, trace := t.trace + [PrimaryDone])
    case PDone => t
  }

  function SecondaryStep(t: State): State {
    match t.s
    case SPoll =>
      if t.ring == [] then t else t.(s := SGot(t.ring[0]), ring := t.ring[1..])
    case SGot(m) =>
      if m.dst != PROC_B then EnqueueUnchecked(t, m).(s := SPoll)
      else if m.kind == Exit then
        t.(s := SDone, freed := t.freed + [m.id], trace := t.trace + [SecondaryExit])
      else if m.kind == Req then
        t.(s := SSend(Response(t.nextId, m.value * 10)), nextId := t.nextId + 1,
           freed := t.freed + [m.id], trace := t.trace + [SecondaryReceived(m.value)])
      else t.(s := SPoll, lost := t.lost + [m.id])
    case SSend(r) =>
      if |t.ring| < RING_CAPACITY
      then t.(s := SPoll, ring := t.ring + [r], trace := t.trace + [SecondarySent(r.value)])
      else t
    case SDone => t
  }

  function Step(n: nat, t: State, who: Process): State {
    if who == Primary then PrimaryStep(n, t) else SecondaryStep(t)
  }

  function Run(n: nat, t: State, schedule: seq<Process>): State
    decreases |schedule|
  {
    if schedule == [] then t
    else Step(n, Run(n, t, schedule[..|schedule| - 1]), schedule[|schedule| - 1])
  }

  /** The two processes over their shared memory: the ring, the heap accounting and each process's
      position. Each method performs one scheduling step of a process in place. */
  class Programs {
    const rounds: nat
    var ring: seq<Msg>
    var p: PrimaryPc
    var s: SecondaryPc
    var nextId: nat
    var freed: seq<nat>
    var lost: seq<nat>
    var trace: seq<Event>

    ghost function View(): State
      reads this
    {
      State(ring, p, s, nextId, freed, lost, trace)
    }

    constructor (n: nat)
      ensures rounds == n && View() == Init()
    {
      rounds, ring, p, s, nextId, freed, lost, trace := n, [], PAlloc(0), SPoll, 0, [], [], [];
    }

    method Enqueue(m: Msg) returns (ok: bool)
      modifies this`ring
      ensures ok == (|old(ring)| < RING_CAPACITY)
      ensures ring == if ok then old(ring) + [m] else old(ring)
    {
      ok := |ring| < RING_CAPACITY;
      if ok {
        ring := ring + [m];
      }
    }

    method Dequeue() returns (ok: bool, m: Msg)
      modifies this`ring
      ensures ok == (old(ring) != [])
      ensures if ok then old(ring) == [m] + ring else ring == old(ring)
    {
      ok := ring != [];
      if ok {
        m, ring := ring[0], ring[1..];
      } else {
        m := ExitMsg(0);
      }
    }

    method Malloc() returns (id: nat)
      modifies this`nextId
      ensures id == old(nextId) && nextId == id + 1
    {
      id, nextId := nextId, nextId + 1;
    }

    method StepPrimary()
      modifies this
      ensures View() == PrimaryStep(rounds, old(View()))
    {
      match p
      case PAlloc(i) =>
        var id := Malloc();
        if i < rounds {
          p := PSend(i, Msg(id, PROC_A, PROC_B, Req, i));
        } else {
          p := PExit(Msg(id, PROC_A, PROC_B, Exit, 0));
        }
      case PSend(i, m) =>
        var ok := Enqueue(m);
        if ok {
          trace := trace + [PrimarySent(i)];
          p := PPoll(i);
        }
      case PPoll(i) =>
        var ok, r := Dequeue();
        if ok {
          p := PGot(i, r);
        }
      case PGot(i, r) =>
        if r.dst != PROC_A {
          var ok := Enqueue(r);
          lost := if ok then lost else lost + [r.id];
          p := PPoll(i);
        } else if r.kind == Resp {
          trace := trace + [PrimaryReceived(r.value)];
          freed := freed + [r.id];
          p := PAlloc(i + 1);
        } else {
          lost := lost + [r.id];
          p := PPoll(i);
        }
      case PExit(m) =>
        var ok := Enqueue(m);
        lost := if ok then lost else lost + [m.id];
        trace := trace + [PrimaryDone];
        p := PDone;
      case PDone =>
    }

    method StepSecondary()
      modifies this
      ensures View() == SecondaryStep(old(View()))
    {
      match s
      case SPoll =>
        var ok, m := Dequeue();
        if ok {
          s := SGot(m);
        }
      case SGot(m) =>
        if m.dst != PROC_B {
          var ok := Enqueue(m);
          lost := if ok then lost else lost + [m.id];
          s := SPoll;
        } else if m.kind == Exit {
          freed := freed + [m.id];
          trace := trace + [SecondaryExit];
          s := SDone;
        } else if m.kind == Req {
          trace := trace + [SecondaryReceived(m.value)];
          var id := Malloc();
          freed := freed + [m.id];
          s := SSend(Msg(id, PROC_B, PROC_A, Resp, m.value * 10));
        } else {
          lost := lost + [m.id];
          s := SPoll;
        }
      case SSend(r) =>
        var ok := Enqueue(r);
        if ok {
          trace := trace + [SecondarySent(r.value)];
          s := SPoll;
        }
      case SDone =>
    }

    /** Both programs running concurrently under an arbitrary schedule. */
    method Execute(schedule: seq<Process>)
      modifies this
      ensures View() == Run(rounds, old(View()), schedule)
    {
      assert schedule[..0] == [];
      for k := 0 to |schedule|
        invariant View() == Run(rounds, old(View()), schedule[..k])
      {
        assert schedule[..k + 1][..k] == schedule[..k];
        if schedule[k] == Primary {
          StepPrimary();
        } else {
          StepSecondary();
        }
      }
      assert schedule[..|schedule|] == schedule;
    }
  }
}
