/** The main loop of control_data_segregation/main.c: classify a burst into two rings, then drain each
    ring once and hand what came out to the card. A frame is its bytes. */
module Segregation {
  import opened Bursts
  import opened Bytes
  import opened HeaderWalkers

  type Frame = seq<byte>

  const BURST_SIZE: nat := 32
  /** Rings of size 2048 hold 2047 packets. */
  const RING_CAPACITY: nat := 2047

  /** freed lists the frames a full ring refused, calls the bursts passed to tx_burst, in order. */
  datatype State = State(control: seq<Frame>, data: seq<Frame>, controlCount: nat, dataCount: nat,
                         freed: seq<Frame>, calls: seq<seq<Frame>>)

  function Init(): State {
    State([], [], 0, 0, [], [])
  }

  function Enter(s: State, m: Frame): State {
    if Control(m) then
      if |s.control| < RING_CAPACITY then s.(control := s.control + [m], controlCount := s.controlCount + 1)
      else s.(freed := s.freed + [m])
    else
      if |s.data| < RING_CAPACITY then s.(data := s.data + [m], dataCount := s.dataCount + 1)
      else s.(freed := s.freed + [m])
  }

  function EnterAll(s: State, bufs: seq<Frame>): State {
    if bufs == [] then s else Enter(EnterAll(s, bufs[..|bufs| - 1]), bufs[|bufs| - 1])
  }

  function Drain(s: State): State {
    var n := Min(BURST_SIZE, |s.control|);
    var k := Min(BURST_SIZE, |s.data|);
    s.(control := s.control[n..], data := s.data[k..],
       calls := s.calls + (if n > 0 then [s.control[..n]] else []) + if k > 0 then [s.data[..k]] else [])
  }

  /** One pass through the endless loop. */
  function Iterate(s: State, bufs: seq<Frame>): State {
    Drain(EnterAll(s, bufs))
  }

  function IterateAll(bursts: seq<seq<Frame>>): State {
    if bursts == [] then Init() else Iterate(IterateAll(bursts[..|bursts| - 1]), bursts[|bursts| - 1])
  }

  lemma {:induction false} PickLengths(ms: seq<Frame>)
    ensures |Pick(Control, true, ms)| + |Pick(Control, false, ms)| == |ms|
  {
    if ms != [] {
      PickLengths(ms[..|ms| - 1]);
    }
  }

  /** Splitting a burst loses and duplicates nothing. */
  lemma PickPartitions(ms: seq<Frame>)
    ensures multiset(Pick(Control, true, ms)) + multiset(Pick(Control, false, ms)) == multiset(ms)
  {
    forall m: Frame
      ensures multiset(Pick(Control, true, ms))[m] + multiset(Pick(Control, false, ms))[m] == multiset(ms)[m]
    {
      PickCounts(Control, true, ms, m);
      PickCounts(Control, false, ms, m);
    }
  }

  /** What the loop is meant to pass to the card for one burst: control frames first, no empty calls. */
  function Expected(bufs: seq<Frame>): seq<seq<Frame>> {
    (if Pick(Control, true, bufs) != [] then [Pick(Control, true, bufs)] else [])
    + if Pick(Control, false, bufs) != [] then [Pick(Control, false, bufs)] else []
  }

  function ExpectedAll(bursts: seq<seq<Frame>>): seq<seq<Frame>> {
    if bursts == [] then [] else ExpectedAll(bursts[..|bursts| - 1]) + Expected(bursts[|bursts| - 1])
  }

  /** All frames of a list of bursts, in order. */
  function Flat(bursts: seq<seq<Frame>>): seq<Frame> {
    if bursts == [] then [] else Flat(bursts[..|bursts| - 1]) + bursts[|bursts| - 1]
  }

  lemma {:induction false} FlatAppend(a: seq<seq<Frame>>, b: seq<seq<Frame>>)
    ensures Flat(a + b) == Flat(a) + Flat(b)
    decreases |b|
  {
    if b == [] {
      assert a + b == a;
    } else {
      assert (a + b)[..|a + b| - 1] == a + b[..|b| - 1];
      FlatAppend(a, b[..|b| - 1]);
    }
  }

  lemma FlatCall(ms: seq<Frame>)
    ensures Flat(if ms != [] then [ms] else []) == ms
  {
    assert [ms][..0] == [];
    assert [] + ms == ms;
  }

  lemma FlatExpected(bufs: seq<Frame>)
    ensures Flat(Expected(bufs)) == Pick(Control, true, bufs) + Pick(Control, false, bufs)
  {
    var c, d := Pick(Control, true, bufs), Pick(Control, false, bufs);
    FlatAppend(if c != [] then [c] else [], if d != [] then [d] else []);
    FlatCall(c);
    FlatCall(d);
  }

  /** From empty rings every frame of a burst finds room in its ring. */
  lemma {:induction false} EnterAllSorts(s: State, bufs: seq<Frame>)
    requires s.control == s.data == [] && |bufs| <= 32
    ensures EnterAll(s, bufs) == s.(control := Pick(Control, true, bufs), data := Pick(Control, false, bufs),
                                    controlCount := s.controlCount + |Pick(Control, true, bufs)|,
                                    dataCount := s.dataCount + |Pick(Control, false, bufs)|)
    decreases |bufs|
  {
    if bufs != [] {
      EnterAllSorts(s, bufs[..|bufs| - 1]);
      PickLengths(bufs[..|bufs| - 1]);
    }
  }

  function First(n: nat, ms: seq<Frame>): seq<Frame> {
    ms[..Min(n, |ms|)]
  }

  lemma FirstGrows(n: nat, ms: seq<Frame>, m: Frame)
    ensures First(n, ms + [m]) == if |ms| < n then First(n, ms) + [m] else First(n, ms)
    ensures |First(n, ms)| == Min(n, |ms|)
  {
    if |ms| < n {
      assert First(n, ms) == ms && First(n, ms + [m]) == ms + [m];
    }
  }

  lemma PickLast(control: bool, bufs: seq<Frame>)
    requires bufs != []
    ensures var front, m := bufs[..|bufs| - 1], bufs[|bufs| - 1];
      Pick(Control, control, bufs) == Pick(Control, control, front) + if Control(m) == control then [m] else []
  {
  }

  /** Whatever the rings hold and however many frames come: each ring takes the frames of its class in order
      until it holds 2047, and its counter counts those. */
  lemma {:induction false} RingsTakeWhatFits(s: State, bufs: seq<Frame>)
    requires |s.control| <= 2047 && |s.data| <= 2047
    ensures var t := EnterAll(s, bufs);
      && t.control == First(2047, s.control + Pick(Control, true, bufs))
      && t.data == First(2047, s.data + Pick(Control, false, bufs))
      && t.controlCount + |s.control| == s.controlCount + |t.control|
      && t.dataCount + |s.data| == s.dataCount + |t.data|
      && t.calls == s.calls
    decreases |bufs|
  {
    if bufs == [] {
      assert s.control + [] == s.control && s.data + [] == s.data;
    } else {
      var front, m := bufs[..|bufs| - 1], bufs[|bufs| - 1];
      RingsTakeWhatFits(s, front);
      PickLast(Control(m), bufs);
      PickLast(!Control(m), bufs);
      var ring, more := if Control(m) then s.control else s.data, Pick(Control, Control(m), front);
      FirstGrows(2047, ring + more, m);
      assert ring + (more + [m]) == (ring + more) + [m];
      var other, rest := if Control(m) then s.data else s.control, Pick(Control, !Control(m), front);
      assert other + (rest + []) == other + rest;
    }
  }

  /** How often m is in a ring, freed, or passed to the card. */
  ghost function Copies(s: State, m: Frame): nat {
    multiset(s.control)[m] + multiset(s.data)[m] + multiset(s.freed)[m] + multiset(Flat(s.calls))[m]
  }

  lemma OneMore(ms: seq<Frame>, x: Frame, m: Frame)
    ensures multiset(ms + [x])[m] == multiset(ms)[m] + if x == m then 1 else 0
  {
  }

  lemma EnterConserves(s: State, x: Frame, m: Frame)
    ensures Copies(Enter(s, x), m) == Copies(s, m) + if x == m then 1 else 0
  {
    OneMore(s.control, x, m);
    OneMore(s.data, x, m);
    OneMore(s.freed, x, m);
    var t := Enter(s, x);
    assert t == s.(control := s.control + [x], controlCount := t.controlCount)
        || t == s.(data := s.data + [x], dataCount := t.dataCount)
        || t == s.(freed := s.freed + [x]);
  }

  lemma {:induction false} EnteringConserves(s: State, bufs: seq<Frame>, m: Frame)
    ensures Copies(EnterAll(s, bufs), m) == Copies(s, m) + multiset(bufs)[m]
    decreases |bufs|
  {
    if bufs != [] {
      var front, x := bufs[..|bufs| - 1], bufs[|bufs| - 1];
      EnteringConserves(s, front, m);
      OneMore(front, x, m);
      assert bufs == front + [x];
      EnterConserves(EnterAll(s, front), x, m);
    }
  }

  lemma SplitCounts(ms: seq<Frame>, n: nat, m: Frame)
    requires n <= |ms|
    ensures multiset(ms[..n])[m] + multiset(ms[n..])[m] == multiset(ms)[m]
  {
    assert ms == ms[..n] + ms[n..];
  }

  lemma CallCounts(calls: seq<seq<Frame>>, ms: seq<Frame>, m: Frame)
    ensures multiset(Flat(calls + if |ms| > 0 then [ms] else []))[m] == multiset(Flat(calls))[m] + multiset(ms)[m]
  {
    if |ms| > 0 {
      assert (calls + [ms])[..|calls|] == calls;
    } else {
      assert calls + [] == calls;
    }
  }

  lemma DrainConserves(s: State, m: Frame)
    ensures Copies(Drain(s), m) == Copies(s, m)
  {
    var n, k := Min(BURST_SIZE, |s.control|), Min(BURST_SIZE, |s.data|);
    var c, d := s.control[..n], s.data[..k];
    SplitCounts(s.control, n, m);
    SplitCounts(s.data, k, m);
    CallCounts(s.calls, c, m);
    CallCounts(s.calls + (if |c| > 0 then [c] else []), d, m);
  }

  /** One pass of the loop from any state, for a burst of any size: every frame is then in a ring, freed or
      passed to the card as often as it was there before or has come in. */
  lemma IterationConserves(s: State, bufs: seq<Frame>, m: Frame)
    ensures Copies(Iterate(s, bufs), m) == Copies(s, m) + multiset(bufs)[m]
  {
    EnteringConserves(s, bufs, m);
    DrainConserves(EnterAll(s, bufs), m);
  }

  lemma IterateDelivers(s: State, bufs: seq<Frame>)
    requires s.control == s.data == [] && |bufs| <= 32
    ensures Iterate(s, bufs) == s.(controlCount := s.controlCount + |Pick(Control, true, bufs)|,
                                   dataCount := s.dataCount + |Pick(Control, false, bufs)|,
                                   calls := s.calls + Expected(bufs))
  {
    EnterAllSorts(s, bufs);
    PickLengths(bufs);
    var t := EnterAll(s, bufs);
    assert t.control[..|t.control|] == t.control && t.data[..|t.data|] == t.data;
    assert s.calls + (if t.control != [] then [t.control] else []) + (if t.data != [] then [t.data] else [])
        == s.calls + Expected(bufs);
  }

  /** For every sequence of bursts the card delivers: both rings are empty at the head of every
      iteration, no enqueue fails, the two counters add up to the packets received, and each burst is
      passed to the card as its control frames in arrival order, then its data frames. */
  lemma {:induction false} LoopDelivers(bursts: seq<seq<Frame>>)
    requires forall k :: 0 <= k < |bursts| ==> |bursts[k]| <= 32
    ensures var s := IterateAll(bursts);
      && s.control == s.data == s.freed == []
      && s.controlCount + s.dataCount == |Flat(bursts)|
      && s.calls == ExpectedAll(bursts)
    decreases |bursts|
  {
    if bursts != [] {
      LoopDelivers(bursts[..|bursts| - 1]);
      IterateDelivers(IterateAll(bursts[..|bursts| - 1]), bursts[|bursts| - 1]);
      PickLengths(bursts[|bursts| - 1]);
    }
  }

  /** Every frame received is passed to the card exactly once. */
  lemma {:induction false} EveryFrameIsHandedOver(bursts: seq<seq<Frame>>)
    ensures multiset(Flat(ExpectedAll(bursts))) == multiset(Flat(bursts))
    decreases |bursts|
  {
    if bursts != [] {
      var front, last := bursts[..|bursts| - 1], bursts[|bursts| - 1];
      EveryFrameIsHandedOver(front);
      FlatAppend(ExpectedAll(front), Expected(last));
      FlatExpected(last);
      PickPartitions(last);
    }
  }

  /** The program's rings and counters. */
  class Segregator {
    var control: seq<Frame>
    var data: seq<Frame>
    var controlCount: nat
    var dataCount: nat
    var freed: seq<Frame>
    var calls: seq<seq<Frame>>

    ghost function View(): State
      reads this
    {
      State(control, data, controlCount, dataCount, freed, calls)
    }

    constructor ()
      ensures View() == Init()
    {
      control, data, controlCount, dataCount, freed, calls := [], [], 0, 0, [], [];
    }

    method Iteration(bufs: seq<Frame>)
      modifies this
      ensures View() == Iterate(old(View()), bufs)
    {
      assert bufs[..0] == [];
      for i := 0 to |bufs|
        invariant View() == EnterAll(old(View()), bufs[..i])
      {
        assert bufs[..i + 1][..i] == bufs[..i];
        EnterFrame(bufs[i]);
      }
      assert bufs[..|bufs|] == bufs;
      var n := Min(BURST_SIZE, |control|);
      var out := control[..n];
      control := control[n..];
      if n > 0 {
        calls := calls + [out];
      }
      n := Min(BURST_SIZE, |data|);
      out := data[..n];
      data := data[n..];
      if n > 0 {
        calls := calls + [out];
      }
    }

    method EnterFrame(m: Frame)
      modifies this
      ensures View() == Enter(old(View()), m)
    {
      var isControl := ClassifyPacket(m);
      if isControl {
        if |control| < RING_CAPACITY {
          control := control + [m];
          controlCount := controlCount + 1;
        } else {
          freed := freed + [m];
        }
      } else {
        if |data| < RING_CAPACITY {
          data := data + [m];
          dataCount := dataCount + 1;
        } else {
          freed := freed + [m];
        }
      }
    }
  }
}
