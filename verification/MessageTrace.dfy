/** What both request/reply programs have in common: the ring's usable capacity, the two
    processes, the events of a run, and the one order in which they may happen. An event is
    recorded at the ring operation it is about, which may be before the program prints it. */
module MessageTrace {

  /** rte_ring_create with size 1024 and without RING_F_EXACT_SZ keeps one slot free. */
  const RING_CAPACITY: nat := 1023

  datatype Process = Primary | Secondary

  datatype Event =
    | PrimarySent(value: int)
    | PrimaryReceived(value: int)
    | SecondaryReceived(value: int)
    | SecondarySent(value: int)
    | PrimaryDone
    | SecondaryExit

  function Round(i: nat): seq<Event> {
    [PrimarySent(i), SecondaryReceived(i), SecondarySent(10 * i), PrimaryReceived(10 * i)]
  }

  function Rounds(n: nat): seq<Event> {
    if n == 0 then [] else Rounds(n - 1) + Round(n - 1)
  }

  /** The conversation both programs are meant to produce for n requests. */
  function Conversation(n: nat): seq<Event> {
    Rounds(n) + [PrimaryDone, SecondaryExit]
  }

  /** The identifiers 0, 1, ..., k-1 in this order. */
  function Upto(k: nat): seq<nat> {
    if k == 0 then [] else Upto(k - 1) + [k - 1]
  }

  /** Each of the identifiers 0, ..., k-1 occurs once in the list and nothing else occurs. */
  ghost predicate EachOnce(ids: seq<nat>, k: nat) {
    forall id: nat :: multiset(ids)[id] == if id < k then 1 else 0
  }

  lemma {:induction false} UptoEachOnce(k: nat)
    ensures EachOnce(Upto(k), k)
  {
    if k > 0 {
      UptoEachOnce(k - 1);
    }
  }

  lemma {:induction false} RoundsMonotone(i: nat, n: nat)
    requires i <= n
    ensures Rounds(i) <= Rounds(n)
    decreases n
  {
    if i < n {
      RoundsMonotone(i, n - 1);
    }
  }

  /** A completed round, a partial round and the end of the conversation all stay inside it. */
  lemma PartialRoundFits(i: nat, n: nat, k: nat)
    requires i < n && k <= 4
    ensures Rounds(i) + Round(i)[..k] <= Conversation(n)
  {
    RoundsMonotone(i + 1, n);
    assert Rounds(i) + Round(i)[..k] <= Rounds(i + 1);
  }
}
