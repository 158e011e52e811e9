/** The Internet checksum of section 1 of RFC 1071 over the first k 16-bit words of h. The program
    adds words as its little-endian host loads them; receivers add them in network byte order. */
module Checksum {
  import opened Bytes

  /** One's-complement addition: the carry out of 16 bits is added back in. */
  function OnesAdd(a: u16, b: u16): u16 {
    if a + b > 0xFFFF then a + b - 0xFFFF else a + b
  }

  function HostSum(h: seq<byte>, k: nat): u16
    requires 2 * k <= |h|
  {
    if k == 0 then 0 else OnesAdd(HostSum(h, k - 1), Load16(h, 2 * k - 2))
  }

  function NetSum(h: seq<byte>, k: nat): u16
    requires 2 * k <= |h|
  {
    if k == 0 then 0 else OnesAdd(NetSum(h, k - 1), Net16(h, 2 * k - 2))
  }

  /** The plain integer sum of the words on the wire. */
  function Total(h: seq<byte>, k: nat): nat
    requires 2 * k <= |h|
  {
    if k == 0 then 0 else Total(h, k - 1) + 0x100 * h[2 * k - 2] as int + h[2 * k - 1] as int
  }

  /** A header verifies when its words, checksum field included, add up to a positive multiple of 0xFFFF:
      their one's-complement sum is then all ones. */
  ghost predicate Verifies(h: seq<byte>, k: nat)
    requires 2 * k <= |h|
  {
    Total(h, k) > 0 && Total(h, k) % 0xFFFF == 0
  }

  lemma {:induction false} CarriesOut(h: seq<byte>, k: nat) returns (q: nat)
    requires 2 * k <= |h|
    ensures Total(h, k) == NetSum(h, k) as int + 0xFFFF * q
    ensures NetSum(h, k) == 0 <==> Total(h, k) == 0
  {
    if k == 0 {
      q := 0;
    } else {
      q := CarriesOut(h, k - 1);
      if NetSum(h, k - 1) + Net16(h, 2 * k - 2) > 0xFFFF {
        q := q + 1;
      }
    }
  }

  lemma {:induction false} ModShift(s: nat, q: nat)
    ensures (s + 0xFFFF * q) % 0xFFFF == s % 0xFFFF
  {
    if q > 0 {
      ModShift(s, q - 1);
      assert s + 0xFFFF * q == (s + 0xFFFF * (q - 1)) + 0xFFFF;
    }
  }

  /** One's-complement addition is addition modulo 0xFFFF, with zero only as the sum of zeros. */
  lemma SumIsTotal(h: seq<byte>, k: nat)
    requires 2 * k <= |h|
    ensures NetSum(h, k) % 0xFFFF == Total(h, k) % 0xFFFF
    ensures NetSum(h, k) == 0 <==> Total(h, k) == 0
  {
    var q := CarriesOut(h, k);
    ModShift(NetSum(h, k), q);
  }

  lemma VerifiesBySum(h: seq<byte>, k: nat)
    requires 2 * k <= |h|
    ensures Verifies(h, k) <==> NetSum(h, k) == 0xFFFF
  {
    SumIsTotal(h, k);
  }

  lemma SwapIsTimes256(x: u16)
    ensures Swap16(x) as int == 0x100 * x as int - 0xFFFF * (x / 0x100) as int
    ensures Swap16(x) == 0 <==> x == 0
  {
  }

  lemma Congruent(x: u16, y: u16, q: int)
    requires x as int - y as int == 0xFFFF * q && (x == 0 <==> y == 0)
    ensures x == y
  {
  }

  lemma SwapAdd(a: u16, b: u16)
    ensures Swap16(OnesAdd(a, b)) == OnesAdd(Swap16(a), Swap16(b))
  {
    var s := OnesAdd(a, b);
    var sa, sb, ss := Swap16(a), Swap16(b), Swap16(s);
    SwapIsTimes256(a);
    SwapIsTimes256(b);
    SwapIsTimes256(s);
    var carry: int := if a as int + b as int > 0xFFFF then 1 else 0;
    var carry': int := if sa as int + sb as int > 0xFFFF then 1 else 0;
    Congruent(ss, OnesAdd(sa, sb),
              (a / 0x100) as int + (b / 0x100) as int - (s / 0x100) as int - 0x100 * carry + carry');
  }

  /** Byte-order independence: summing on a little-endian host gives the swapped network sum. */
  lemma {:induction false} SumsAreSwapped(h: seq<byte>, k: nat)
    requires 2 * k <= |h|
    ensures NetSum(h, k) == Swap16(HostSum(h, k))
  {
    if k > 0 {
      SumsAreSwapped(h, k - 1);
      SwapAdd(HostSum(h, k - 1), Load16(h, 2 * k - 2));
      SwapLoad16(h, 2 * k - 2);
    }
  }

  lemma VerifiesOnHost(h: seq<byte>, k: nat)
    requires 2 * k <= |h|
    ensures Verifies(h, k) <==> HostSum(h, k) == 0xFFFF
  {
    VerifiesBySum(h, k);
    SumsAreSwapped(h, k);
    SwapTwice16(HostSum(h, k));
    assert Swap16(0xFFFF) == 0xFFFF;
  }

  /** Replacing a zero word c by x adds x to the sum, wherever the word stands. */
  lemma {:induction false} FillWord(h: seq<byte>, k: nat, c: nat, g: seq<byte>)
    requires 2 * k <= |h| == |g| && c < k && Load16(h, 2 * c) == 0
    requires forall i :: 0 <= i < 2 * k && i != 2 * c && i != 2 * c + 1 ==> g[i] == h[i]
    ensures HostSum(g, k) == OnesAdd(HostSum(h, k), Load16(g, 2 * c))
  {
    if c == k - 1 {
      SameSum(h, g, k - 1);
    } else {
      FillWord(h, k - 1, c, g);
    }
  }

  lemma {:induction false} SameSum(h: seq<byte>, g: seq<byte>, k: nat)
    requires 2 * k <= |h| && 2 * k <= |g| && forall i :: 0 <= i < 2 * k ==> g[i] == h[i]
    ensures HostSum(g, k) == HostSum(h, k)
  {
    if k > 0 {
      SameSum(h, g, k - 1);
    }
  }

  lemma {:induction false} SameTotal(h: seq<byte>, g: seq<byte>, k: nat)
    requires 2 * k <= |h| && 2 * k <= |g| && forall i :: 0 <= i < 2 * k ==> g[i] == h[i]
    ensures Total(g, k) == Total(h, k)
  {
    if k > 0 {
      SameTotal(h, g, k - 1);
    }
  }

  /** Writing a number into a zero word adds it to the total, if the word is among those added up. */
  lemma {:induction false} FillTotal(h: seq<byte>, k: nat, c: nat, g: seq<byte>)
    requires 2 * k <= |h| == |g| && 2 * c + 2 <= |h| && h[2 * c] == h[2 * c + 1] == 0
    requires forall i :: 0 <= i < |h| && i != 2 * c && i != 2 * c + 1 ==> g[i] == h[i]
    ensures Total(g, k) == Total(h, k) + if c < k then Net16(g, 2 * c) as int else 0
  {
    if k <= c {
      SameTotal(h, g, k);
    } else if c == k - 1 {
      SameTotal(h, g, k - 1);
    } else {
      FillTotal(h, k - 1, c, g);
    }
  }

  /** The number that makes up for rest: congruent to -rest, and all ones only for an empty sum. */
  predicate MakesUp(x: u16, rest: int) {
    rest >= 0 && (x + rest) % 0xFFFF == 0 && (x == 0xFFFF <==> rest == 0)
  }

  /** The complement of the host's sum, as it reads on the wire, makes up for the total. */
  lemma ComplementMakesUp(h: seq<byte>, k: nat)
    requires 2 * k <= |h|
    ensures MakesUp(Swap16(0xFFFF - HostSum(h, k)), Total(h, k))
  {
    SwapComplement16(HostSum(h, k));
    SumsAreSwapped(h, k);
    var q := CarriesOut(h, k);
    assert (0xFFFF - NetSum(h, k)) + Total(h, k) == 0 + 0xFFFF * (q + 1);
    ModShift(0, q + 1);
  }

  /** A checksum field that lies in the summed words and holds the complement of the sum taken with
      the field zero makes the header verify. */
  lemma ComplementVerifies(h: seq<byte>, k: nat, c: nat, g: seq<byte>)
    requires 2 * k <= |h| == |g| && c < k && Load16(h, 2 * c) == 0
    requires forall i :: 0 <= i < 2 * k && i != 2 * c && i != 2 * c + 1 ==> g[i] == h[i]
    requires Load16(g, 2 * c) == 0xFFFF - HostSum(h, k)
    ensures Verifies(g, k)
  {
    FillWord(h, k, c, g);
    VerifiesOnHost(g, k);
  }
}
