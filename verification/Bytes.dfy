/** Bytes of a frame and the integers C code on a little-endian host makes of them. */
module Bytes {

  type byte = x: int | 0 <= x < 0x100
  type u16 = x: int | 0 <= x < 0x1_0000
  type u32 = x: int | 0 <= x < 0x1_0000_0000

  /** What a uint16_t or uint32_t load at offset i yields. */
  function Load16(f: seq<byte>, i: nat): u16
    requires i + 2 <= |f|
  {
    f[i] as int + 0x100 * f[i + 1] as int
  }

  function Load32(f: seq<byte>, i: nat): u32
    requires i + 4 <= |f|
  {
    Load16(f, i) + 0x1_0000 * Load16(f, i + 2)
  }

  /** The same bytes as a number in network byte order. */
  function Net16(f: seq<byte>, i: nat): u16
    requires i + 2 <= |f|
  {
    0x100 * f[i] as int + f[i + 1] as int
  }

  function Net32(f: seq<byte>, i: nat): u32
    requires i + 4 <= |f|
  {
    0x1_0000 * Net16(f, i) + Net16(f, i + 2)
  }

  /** rte_be_to_cpu_16 and rte_cpu_to_be_16; likewise for 32 bits. */
  function Swap16(x: u16): u16 {
    0x100 * (x % 0x100) + x / 0x100
  }

  function Swap32(x: u32): u32 {
    0x1_0000 * Swap16(x % 0x1_0000) + Swap16(x / 0x1_0000)
  }

  /** The bytes of a number in network byte order. */
  function Bytes16(x: u16): (b: seq<byte>)
    ensures |b| == 2 && Net16(b, 0) == x
  {
    [x / 0x100, x % 0x100]
  }

  function Bytes32(x: u32): (b: seq<byte>)
    ensures |b| == 4 && Net32(b, 0) == x
  {
    Bytes16(x / 0x1_0000) + Bytes16(x % 0x1_0000)
  }

  lemma SwapLoad16(f: seq<byte>, i: nat)
    requires i + 2 <= |f|
    ensures Swap16(Load16(f, i)) == Net16(f, i)
  {
  }

  lemma SwapHalves(lo: u16, hi: u16)
    ensures Swap32(lo + 0x1_0000 * hi) == 0x1_0000 * Swap16(lo) + Swap16(hi)
  {
    var x: u32 := lo + 0x1_0000 * hi;
    assert x % 0x1_0000 == lo && x / 0x1_0000 == hi;
  }

  lemma SwapLoad32(f: seq<byte>, i: nat)
    requires i + 4 <= |f|
    ensures Swap32(Load32(f, i)) == Net32(f, i)
  {
    SwapHalves(Load16(f, i), Load16(f, i + 2));
    SwapLoad16(f, i);
    SwapLoad16(f, i + 2);
  }

  lemma Swap16Parts(x: u16)
    ensures Swap16(x) % 0x100 == x / 0x100 && Swap16(x) / 0x100 == x % 0x100
  {
  }

  lemma Swap32Parts(x: u32)
    ensures Swap32(x) % 0x1_0000 == Swap16(x / 0x1_0000) && Swap32(x) / 0x1_0000 == Swap16(x % 0x1_0000)
  {
  }

  lemma SwapTwice16(x: u16)
    ensures Swap16(Swap16(x)) == x
  {
    Swap16Parts(x);
  }

  lemma SwapComplement16(x: u16)
    ensures Swap16(0xFFFF - x) == 0xFFFF - Swap16(x)
  {
    assert (0xFFFF - x) % 0x100 == 0xFF - x % 0x100;
    assert (0xFFFF - x) / 0x100 == 0xFF - x / 0x100;
  }

  lemma SwapTwice32(x: u32)
    ensures Swap32(Swap32(x)) == x
  {
    Swap32Parts(x);
    SwapTwice16(x % 0x1_0000);
    SwapTwice16(x / 0x1_0000);
  }

  /** Equal numbers in network byte order come from equal bytes. */
  lemma Net32Injective(f: seq<byte>, i: nat, g: seq<byte>, j: nat)
    requires i + 4 <= |f| && j + 4 <= |g| && Net32(f, i) == Net32(g, j)
    ensures f[i..i + 4] == g[j..j + 4]
  {
    assert Net16(f, i) == Net16(g, j) && Net16(f, i + 2) == Net16(g, j + 2);
    assert f[i] == g[j] && f[i + 1] == g[j + 1] && f[i + 2] == g[j + 2] && f[i + 3] == g[j + 3];
  }

  /** A uint16_t store. */
  method Store16(m: array<byte>, i: nat, x: u16)
    requires i + 2 <= m.Length
    modifies m
    ensures m[i] == x % 0x100 && m[i + 1] == x / 0x100
    ensures forall j :: 0 <= j < m.Length && j != i && j != i + 1 ==> m[j] == old(m[j])
  {
    m[i] := x % 0x100;
    m[i + 1] := x / 0x100;
  }

  /** The bytes b stand at offset i of the buffer. */
  ghost predicate Holds(m: array<byte>, i: nat, b: seq<byte>)
    reads m
  {
    i + |b| <= m.Length && forall j :: i <= j < i + |b| ==> m[j] == b[j - i]
  }

  /** The buffer differs from what it was only between lo and hi. */
  twostate predicate OnlyChanges(m: array<byte>, lo: nat, hi: nat)
    reads m
  {
    forall j :: 0 <= j < m.Length && !(lo <= j < hi) ==> m[j] == old(m[j])
  }

  /** Storing rte_cpu_to_be_16(x), and rte_cpu_to_be_32(x). */
  method StoreNet16(m: array<byte>, i: nat, x: u16)
    requires i + 2 <= m.Length
    modifies m
    ensures Holds(m, i, Bytes16(x)) && OnlyChanges(m, i, i + 2)
  {
    Swap16Parts(x);
    Store16(m, i, Swap16(x));
  }

  method StoreNet32(m: array<byte>, i: nat, x: u32)
    requires i + 4 <= m.Length
    modifies m
    ensures Holds(m, i, Bytes32(x)) && OnlyChanges(m, i, i + 4)
  {
    Swap32Parts(x);
    Swap16Parts(x % 0x1_0000);
    Swap16Parts(x / 0x1_0000);
    Store16(m, i, Swap32(x) % 0x1_0000);
    Store16(m, i + 2, Swap32(x) / 0x1_0000);
  }

  method CopyBytes(m: array<byte>, i: nat, b: seq<byte>)
    requires i + |b| <= m.Length
    modifies m
    ensures Holds(m, i, b) && OnlyChanges(m, i, i + |b|)
  {
    for k := 0 to |b|
      invariant forall j :: i <= j < i + k ==> m[j] == b[j - i]
      invariant OnlyChanges(m, i, i + k)
    {
      m[i + k] := b[k];
    }
  }

  /** Neighbouring pieces make one piece. */
  lemma HoldsJoin(m: array<byte>, i: nat, a: seq<byte>, b: seq<byte>)
    requires Holds(m, i, a) && Holds(m, i + |a|, b)
    ensures Holds(m, i, a + b)
  {
  }

  lemma HoldsSlice(m: array<byte>, i: nat, b: seq<byte>)
    requires Holds(m, i, b)
    ensures m[i..i + |b|] == b
  {
  }
}
