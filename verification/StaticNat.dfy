/** simulate_nat of NAT/static_nat/main.c: rewrites the addresses of an untagged IPv4 frame in place
    and recomputes the header checksum (section 2.1 of RFC 3022, section 3.1 of RFC 791). */
module StaticNat {
  import opened Bytes
  import opened Checksum
  import opened Ethernet

  const PRIVATE_IP: u32 := 0xAC16_7446   // 172.22.116.70
  const PUBLIC_IP: u32 := 0xCB00_710A    // 203.0.113.10

  const CHECKSUM: nat := 24   // hdr_checksum, src_addr and dst_addr
  const SRC: nat := 26
  const DST: nat := 30

  predicate IsIpv4(f: seq<byte>)
    requires ETH_LEN <= |f|
  {
    Net16(f, 12) == ETHER_TYPE_IPV4
  }

  /** 16-bit words in the IP header, by its length field. */
  function HeaderWords(f: seq<byte>): nat
    requires ETH_LEN < |f|
  {
    (f[ETH_LEN] % 16) as nat * 2
  }

  /** The frame holds every byte simulate_nat touches: the code itself checks no length. */
  predicate Complete(f: seq<byte>) {
    ETH_LEN <= |f| && (IsIpv4(f) ==> ETH_LEN + 20 <= |f| && ETH_LEN + 2 * HeaderWords(f) <= |f|)
  }

  function Src(f: seq<byte>): u32 requires SRC + 4 <= |f| { Net32(f, SRC) }
  function Dst(f: seq<byte>): u32 requires DST + 4 <= |f| { Net32(f, DST) }

  function Put(f: seq<byte>, i: nat, b: seq<byte>): (g: seq<byte>)
    requires i + |b| <= |f|
    ensures |g| == |f|
    ensures g[i..i + |b|] == b && forall j :: 0 <= j < |f| && !(i <= j < i + |b|) ==> g[j] == f[j]
  {
    f[..i] + b + f[i + |b|..]
  }

  /** The addresses after translation: the source first, then the destination. */
  function Translate(f: seq<byte>): (g: seq<byte>)
    requires ETH_LEN + 20 <= |f|
    ensures |g| == |f|
  {
    var g := if Src(f) == PRIVATE_IP then Put(f, SRC, Bytes32(PUBLIC_IP)) else f;
    if Dst(g) == PUBLIC_IP then Put(g, DST, Bytes32(PRIVATE_IP)) else g
  }

  /** hdr_checksum = 0; hdr_checksum = rte_ipv4_cksum(ip_hdr). */
  function FixChecksum(f: seq<byte>): (g: seq<byte>)
    requires Complete(f) && IsIpv4(f)
    ensures |g| == |f|
  {
    var z := Put(f, CHECKSUM, [0, 0]);
    Put(z, CHECKSUM, Bytes16(Swap16(0xFFFF - HostSum(z[ETH_LEN..], HeaderWords(z)))))
  }

  lemma FixChecksumIs(f: seq<byte>, k: nat, sum: u16)
    requires Complete(f) && IsIpv4(f) && HeaderWords(f) == k
    requires HostSum(Put(f, CHECKSUM, [0, 0])[ETH_LEN..], k) == sum
    ensures FixChecksum(f) == Put(Put(f, CHECKSUM, [0, 0]), CHECKSUM, Bytes16(Swap16(0xFFFF - sum)))
  {
  }

  lemma PutBack(f: seq<byte>, i: nat, b: seq<byte>)
    requires i + 2 <= |f| && |b| == 2 && f[i..i + 2] == b
    ensures Put(Put(f, i, [0, 0]), i, b) == f
  {
    assert b[0] == f[i..i + 2][0] && b[1] == f[i..i + 2][1];
  }

  lemma FixedPoint(f: seq<byte>, k: nat, sum: u16)
    requires Complete(f) && IsIpv4(f) && HeaderWords(f) == k
    requires HostSum(Put(f, CHECKSUM, [0, 0])[ETH_LEN..], k) == sum
    requires f[CHECKSUM..CHECKSUM + 2] == Bytes16(Swap16(0xFFFF - sum))
    ensures FixChecksum(f) == f
  {
    FixChecksumIs(f, k, sum);
    PutBack(f, CHECKSUM, Bytes16(Swap16(0xFFFF - sum)));
  }

  function Nat(f: seq<byte>): (g: seq<byte>)
    requires Complete(f)
    ensures |g| == |f|
  {
    if !IsIpv4(f) then f
    else
      TranslateKeepsComplete(f);
      FixChecksum(Translate(f))
  }

  lemma TranslateKeepsComplete(f: seq<byte>)
    requires Complete(f) && IsIpv4(f)
    ensures Complete(Translate(f)) && IsIpv4(Translate(f))
    ensures forall j :: 0 <= j < |f| && !(SRC <= j < DST + 4) ==> Translate(f)[j] == f[j]
  {
  }

  lemma PutReads32(f: seq<byte>, i: nat, x: u32)
    requires i + 4 <= |f|
    ensures Net32(Put(f, i, Bytes32(x)), i) == x
  {
    var g := Put(f, i, Bytes32(x));
    var b := g[i..i + 4];
    assert b[0] == g[i] && b[1] == g[i + 1] && b[2] == g[i + 2] && b[3] == g[i + 3];
  }

  lemma TranslatedAddresses(f: seq<byte>)
    requires ETH_LEN + 20 <= |f|
    ensures Src(Translate(f)) == if Src(f) == PRIVATE_IP then PUBLIC_IP else Src(f)
    ensures Dst(Translate(f)) == if Dst(f) == PUBLIC_IP then PRIVATE_IP else Dst(f)
  {
    PutReads32(f, SRC, PUBLIC_IP);
    var g := if Src(f) == PRIVATE_IP then Put(f, SRC, Bytes32(PUBLIC_IP)) else f;
    PutReads32(g, DST, PRIVATE_IP);
  }

  lemma FixChecksumTouchesTwoBytes(f: seq<byte>)
    requires Complete(f) && IsIpv4(f)
    ensures forall j :: 0 <= j < |f| && j != CHECKSUM && j != CHECKSUM + 1 ==> FixChecksum(f)[j] == f[j]
  {
  }

  /** The rewritten addresses, and nothing else of the frame but the checksum. */
  lemma NatRewritesOnlyAddresses(f: seq<byte>)
    requires Complete(f)
    ensures !IsIpv4(f) ==> Nat(f) == f
    ensures forall j :: 0 <= j < |f| && !(CHECKSUM <= j < DST + 4) ==> Nat(f)[j] == f[j]
    ensures Complete(Nat(f)) && IsIpv4(Nat(f)) == IsIpv4(f)
    ensures IsIpv4(f) ==>
      && HeaderWords(Nat(f)) == HeaderWords(f)
      && Src(Nat(f)) == (if Src(f) == PRIVATE_IP then PUBLIC_IP else Src(f))
      && Dst(Nat(f)) == (if Dst(f) == PUBLIC_IP then PRIVATE_IP else Dst(f))
  {
    if IsIpv4(f) {
      TranslateKeepsComplete(f);
      TranslatedAddresses(f);
      FixChecksumTouchesTwoBytes(Translate(f));
    }
  }

  lemma FixedChecksumVerifies(f: seq<byte>)
    requires Complete(f) && IsIpv4(f) && HeaderWords(f) >= 6
    ensures HeaderWords(FixChecksum(f)) == HeaderWords(f)
    ensures Verifies(FixChecksum(f)[ETH_LEN..], HeaderWords(f))
  {
    var k := HeaderWords(f);
    var z := Put(f, CHECKSUM, [0, 0]);
    var g := FixChecksum(f);
    FixChecksumTouchesTwoBytes(f);
    var c: u16 := 0xFFFF - HostSum(z[ETH_LEN..], k);
    assert g[CHECKSUM..CHECKSUM + 2] == Bytes16(Swap16(c));
    assert g[CHECKSUM] == g[CHECKSUM..CHECKSUM + 2][0] && g[CHECKSUM + 1] == g[CHECKSUM..CHECKSUM + 2][1];
    assert z[CHECKSUM] == z[CHECKSUM..CHECKSUM + 2][0] && z[CHECKSUM + 1] == z[CHECKSUM..CHECKSUM + 2][1];
    SwapLoad16(g, CHECKSUM);
    SwapTwice16(c);
    SwapTwice16(Load16(g, CHECKSUM));
    ComplementVerifies(z[ETH_LEN..], k, 5, g[ETH_LEN..]);
  }

  /** After simulate_nat the header verifies, whatever its options and its checksum on arrival. A
      length field below three, which RFC 791 does not allow, leaves the checksum outside the
      summed words; then the header verifies if and only if it did before. */
  lemma NatHeaderVerifies(f: seq<byte>)
    requires Complete(f) && IsIpv4(f)
    ensures Verifies(Nat(f)[ETH_LEN..], HeaderWords(f))
            <==> HeaderWords(f) >= 6 || Verifies(f[ETH_LEN..], HeaderWords(f))
  {
    TranslateKeepsComplete(f);
    NatRewritesOnlyAddresses(f);
    var k := HeaderWords(f);
    if k >= 6 {
      FixedChecksumVerifies(Translate(f));
    } else {
      SameSum(f[ETH_LEN..], Nat(f)[ETH_LEN..], k);
      VerifiesOnHost(f[ETH_LEN..], k);
      VerifiesOnHost(Nat(f)[ETH_LEN..], k);
    }
  }

  lemma StoredWord(f: seq<byte>, i: nat, x: u16)
    requires i + 2 <= |f|
    ensures Net16(Put(f, i, Bytes16(x)), i) == x
  {
    var g := Put(f, i, Bytes16(x));
    assert g[i] == g[i..i + 2][0] && g[i + 1] == g[i..i + 2][1];
  }

  lemma FixedChecksumExact(f: seq<byte>)
    requires Complete(f) && IsIpv4(f)
    ensures var g, k := FixChecksum(f), HeaderWords(f);
      MakesUp(Net16(g, CHECKSUM), Total(g[ETH_LEN..], k) - if k >= 6 then Net16(g, CHECKSUM) as int else 0)
  {
    var k := HeaderWords(f);
    var z, g := Put(f, CHECKSUM, [0, 0]), FixChecksum(f);
    var h := z[ETH_LEN..];
    FixChecksumIs(f, k, HostSum(h, k));
    FixChecksumTouchesTwoBytes(f);
    assert z[CHECKSUM..CHECKSUM + 2] == [0, 0];
    StoredWord(f, CHECKSUM, 0);
    StoredWord(z, CHECKSUM, Swap16(0xFFFF - HostSum(h, k)));
    ComplementMakesUp(h, k);
    FillTotal(h, k, 5, g[ETH_LEN..]);
  }

  lemma SliceIsNumber(f: seq<byte>, i: nat, b: seq<byte>)
    requires i + 4 <= |f| && |b| == 4
    ensures f[i..i + 4] == b <==> Net32(f, i) == Net32(b, 0)
  {
    if Net32(f, i) == Net32(b, 0) {
      Net32Injective(f, i, b, 0);
      assert b[0..4] == b;
    }
    if f[i..i + 4] == b {
      assert b[0] == f[i] && b[1] == f[i + 1] && b[2] == f[i + 2] && b[3] == f[i + 3];
    }
  }

  lemma AddressBytes(f: seq<byte>, g: seq<byte>, i: nat, old4: seq<byte>, new4: seq<byte>)
    requires i + 4 <= |f| && i + 4 <= |g| && |old4| == |new4| == 4
    requires Net32(g, i) == if Net32(f, i) == Net32(old4, 0) then Net32(new4, 0) else Net32(f, i)
    ensures g[i..i + 4] == if f[i..i + 4] == old4 then new4 else f[i..i + 4]
  {
    SliceIsNumber(f, i, old4);
    SliceIsNumber(g, i, new4);
    if f[i..i + 4] != old4 {
      Net32Injective(g, i, f, i);
    }
  }

  /** The frame is left alone, or holds every byte the program touches. */
  predicate TouchedBytesPresent(f: seq<byte>) {
    14 <= |f| && (f[12] == 0x08 && f[13] == 0x00 ==> 34 <= |f| && 14 + 4 * (f[14] % 16) as int <= |f|)
  }

  lemma NatAddressBytes(f: seq<byte>)
    requires Complete(f) && IsIpv4(f)
    ensures var g := Nat(f);
      && g[26..30] == (if f[26..30] == [172, 22, 116, 70] then [203, 0, 113, 10] else f[26..30])
      && g[30..34] == (if f[30..34] == [203, 0, 113, 10] then [172, 22, 116, 70] else f[30..34])
  {
    NatRewritesOnlyAddresses(f);
    AddressBytes(f, Nat(f), 26, [172, 22, 116, 70], [203, 0, 113, 10]);
    AddressBytes(f, Nat(f), 30, [203, 0, 113, 10], [172, 22, 116, 70]);
  }

  lemma NatKeepsOutside(f: seq<byte>)
    requires Complete(f) && DST + 4 <= |f|
    ensures Nat(f)[..24] == f[..24] && Nat(f)[34..] == f[34..]
  {
    NatRewritesOnlyAddresses(f);
  }

  /** Byte by byte: only untagged IPv4 frames are touched; 172.22.116.70 as source becomes 203.0.113.10,
      203.0.113.10 as destination becomes 172.22.116.70, and the rest stays but for the checksum. */
  lemma NatOnBytes(f: seq<byte>)
    requires TouchedBytesPresent(f)
    ensures Complete(f)
    ensures !(f[12] == 0x08 && f[13] == 0x00) ==> Nat(f) == f
    ensures f[12] == 0x08 && f[13] == 0x00 ==>
      var g := Nat(f);
      && |g| == |f| && g[..24] == f[..24] && g[34..] == f[34..]
      && g[26..30] == (if f[26..30] == [172, 22, 116, 70] then [203, 0, 113, 10] else f[26..30])
      && g[30..34] == (if f[30..34] == [203, 0, 113, 10] then [172, 22, 116, 70] else f[30..34])
  {
    if IsIpv4(f) {
      NatAddressBytes(f);
      NatKeepsOutside(f);
    }
  }

  /** The checksum is the one of RFC 1071: it makes up for the other words the length field covers. */
  lemma NatChecksumExact(f: seq<byte>)
    requires TouchedBytesPresent(f) && f[12] == 0x08 && f[13] == 0x00
    ensures Complete(f)
    ensures var g, words := Nat(f), 2 * (f[14] % 16) as nat;
      var checksum := 0x100 * g[24] as int + g[25] as int;
      MakesUp(checksum, Total(g[14..], words) - if words >= 6 then checksum else 0)
  {
    TranslateKeepsComplete(f);
    FixedChecksumExact(Translate(f));
  }

  /** An otherwise empty IPv4 frame whose header length field is n. */
  function ShortHeader(n: byte): (f: seq<byte>)
    requires n < 3
    ensures |f| == ETH_LEN + 20
  {
    seq(12, _ => 0) + [0x08, 0x00, 0x40 + n] + seq(19, _ => 0)
  }

  lemma {:induction false} SumOfOneByte(h: seq<byte>, k: nat)
    requires 2 * k <= |h| && forall j :: 0 < j < 2 * k ==> h[j] == 0
    ensures Total(h, k) == if k == 0 then 0 else 0x100 * h[0] as int
  {
    if k > 0 {
      SumOfOneByte(h, k - 1);
    }
  }

  lemma ShortHeaderShape(n: byte)
    requires n < 3
    ensures var f := ShortHeader(n);
      && Net16(f, 12) == ETHER_TYPE_IPV4 && f[ETH_LEN] == 0x40 + n
      && forall j :: 0 < j < 20 ==> f[ETH_LEN..][j] == 0
  {
  }

  /** With each of these length fields there is a complete frame that simulate_nat leaves with a header
      that does not verify. */
  lemma ShortHeaderStaysWrong(n: byte)
    requires n < 3
    ensures var f := ShortHeader(n);
      Complete(f) && IsIpv4(f) && HeaderWords(f) == 2 * n && !Verifies(Nat(f)[ETH_LEN..], HeaderWords(f))
  {
    var f := ShortHeader(n);
    ShortHeaderShape(n);
    assert HeaderWords(f) == 2 * n;
    SumOfOneByte(f[ETH_LEN..], 2 * n);
    assert 0 <= Total(f[ETH_LEN..], 2 * n) < 0xFFFF;
    assert !Verifies(f[ETH_LEN..], HeaderWords(f));
    NatHeaderVerifies(f);
  }

  /** The checksum on arrival does not matter. */
  lemma FixChecksumForgets(f: seq<byte>, g: seq<byte>)
    requires Complete(f) && IsIpv4(f) && |g| == |f|
    requires forall j :: 0 <= j < |f| && j != CHECKSUM && j != CHECKSUM + 1 ==> g[j] == f[j]
    ensures Complete(g) && IsIpv4(g) && FixChecksum(g) == FixChecksum(f)
  {
    assert Put(g, CHECKSUM, [0, 0]) == Put(f, CHECKSUM, [0, 0]);
  }

  lemma NatIsIdempotent(f: seq<byte>)
    requires Complete(f)
    ensures Complete(Nat(f)) && Nat(Nat(f)) == Nat(f)
  {
    NatRewritesOnlyAddresses(f);
    if IsIpv4(f) {
      var t := Translate(f);
      TranslateKeepsComplete(f);
      FixChecksumTouchesTwoBytes(t);
      assert Translate(Nat(f)) == Nat(f);
      FixChecksumForgets(t, Nat(f));
    }
  }

  /** The same frame with source and destination exchanged: what the peer sends back. */
  function Reply(f: seq<byte>): (g: seq<byte>)
    requires ETH_LEN + 20 <= |f|
    ensures |g| == |f|
    ensures forall j :: 0 <= j < |f| && !(SRC <= j < DST + 4) ==> g[j] == f[j]
    ensures Src(g) == Dst(f) && Dst(g) == Src(f)
  {
    var g := Put(f, SRC, Bytes32(Dst(f)));
    PutReads32(f, SRC, Dst(f));
    PutReads32(g, DST, Src(f));
    Put(g, DST, Bytes32(Src(f)))
  }

  /** Outbound and back: a frame from the private host reaches its peer from the public address and
      the peer's reply reaches the private host from the peer, if and only if the peer is neither of
      the two NAT addresses. */
  lemma NatRoundTrip(f: seq<byte>)
    requires Complete(f) && IsIpv4(f) && Src(f) == PRIVATE_IP
    ensures Complete(Nat(f)) && Complete(Reply(Nat(f)))
    ensures
      var out, back := Nat(f), Nat(Reply(Nat(f)));
      (Src(out) == PUBLIC_IP && Dst(out) == Dst(f) && Src(back) == Dst(f) && Dst(back) == PRIVATE_IP)
      <==> Dst(f) != PRIVATE_IP && Dst(f) != PUBLIC_IP
  {
    NatRewritesOnlyAddresses(f);
    NatRewritesOnlyAddresses(Reply(Nat(f)));
  }

  lemma SameAddressBytes(f: seq<byte>, g: seq<byte>, j: nat)
    requires DST + 4 <= |f| && DST + 4 <= |g| && Src(f) == Src(g) && Dst(f) == Dst(g)
    requires SRC <= j < DST + 4
    ensures f[j] == g[j]
  {
    Net32Injective(f, SRC, g, SRC);
    Net32Injective(f, DST, g, DST);
    if j < DST {
      assert f[j] == f[SRC..SRC + 4][j - SRC] && g[j] == g[SRC..SRC + 4][j - SRC];
    } else {
      assert f[j] == f[DST..DST + 4][j - DST] && g[j] == g[DST..DST + 4][j - DST];
    }
  }

  /** For such a peer the delivered reply is, byte for byte, the reply to the untranslated frame with a
      fresh checksum: the translation leaves no trace. */
  lemma NatLeavesNoTrace(f: seq<byte>)
    requires Complete(f) && IsIpv4(f) && Src(f) == PRIVATE_IP && Dst(f) != PRIVATE_IP && Dst(f) != PUBLIC_IP
    ensures Complete(Reply(Nat(f))) && Complete(Reply(f)) && IsIpv4(Reply(f))
    ensures Nat(Reply(Nat(f))) == FixChecksum(Reply(f))
  {
    NatRewritesOnlyAddresses(f);
    var r := Reply(Nat(f));
    NatRewritesOnlyAddresses(r);
    TranslateKeepsComplete(r);
    TranslatedAddresses(r);
    var t, d := Translate(r), Reply(f);
    forall j | 0 <= j < |f| && j != CHECKSUM && j != CHECKSUM + 1
      ensures t[j] == d[j]
    {
      if SRC <= j < DST + 4 {
        SameAddressBytes(t, d, j);
      }
    }
    FixChecksumForgets(d, t);
  }

  /** simulate_nat on the packet buffer. */
  method SimulateNat(m: array<byte>)
    requires Complete(m[..])
    modifies m
    ensures m[..] == Nat(old(m[..]))
  {
    TypeTest(m[..]);
    if Load16(m[..], 12) != Swap16(ETHER_TYPE_IPV4) {
      return;
    }
    TranslateKeepsComplete(m[..]);
    RewriteAddress(m, SRC, PRIVATE_IP, PUBLIC_IP);
    RewriteAddress(m, DST, PUBLIC_IP, PRIVATE_IP);
    RefreshChecksum(m);
  }

  /** One of the two address tests with its store. */
  method RewriteAddress(m: array<byte>, i: nat, oldIp: u32, newIp: u32)
    requires i + 4 <= m.Length
    modifies m
    ensures m[..] == if Net32(old(m[..]), i) == oldIp then Put(old(m[..]), i, Bytes32(newIp)) else old(m[..])
  {
    AddressTest(m[..], i, oldIp);
    if Load32(m[..], i) == Swap32(oldIp) {
      ghost var f := m[..];
      StoreNet32(m, i, newIp);
      PutByElements(f, m[..], i, Bytes32(newIp));
    }
  }

  method RefreshChecksum(m: array<byte>)
    requires Complete(m[..]) && IsIpv4(m[..])
    modifies m
    ensures m[..] == FixChecksum(old(m[..]))
  {
    ghost var f := m[..];
    StoreNet16(m, CHECKSUM, 0);
    PutByElements(f, m[..], CHECKSUM, Bytes16(0));
    ghost var z := m[..];
    assert z == Put(f, CHECKSUM, [0, 0]);
    var sum := HostSum(m[..][ETH_LEN..], (m[ETH_LEN] % 16) as nat * 2);
    StoreNet16(m, CHECKSUM, Swap16(0xFFFF - sum));
    PutByElements(z, m[..], CHECKSUM, Bytes16(Swap16(0xFFFF - sum)));
    FixChecksumIs(f, HeaderWords(f), sum);
  }

  lemma PutByElements(f: seq<byte>, g: seq<byte>, i: nat, b: seq<byte>)
    requires i + |b| <= |f| == |g|
    requires forall j :: i <= j < i + |b| ==> g[j] == b[j - i]
    requires forall j :: 0 <= j < |f| && !(i <= j < i + |b|) ==> g[j] == f[j]
    ensures g == Put(f, i, b)
  {
  }

  lemma TypeTest(f: seq<byte>)
    requires ETH_LEN <= |f|
    ensures Load16(f, 12) == Swap16(ETHER_TYPE_IPV4) <==> IsIpv4(f)
  {
    SwapLoad16(f, 12);
    SwapTwice16(ETHER_TYPE_IPV4);
    SwapTwice16(Load16(f, 12));
  }

  /** Comparing a loaded address with a swapped constant compares the network-order numbers. */
  lemma AddressTest(f: seq<byte>, i: nat, a: u32)
    requires i + 4 <= |f|
    ensures Load32(f, i) == Swap32(a) <==> Net32(f, i) == a
  {
    SwapLoad32(f, i);
    SwapTwice32(a);
    SwapTwice32(Load32(f, i));
  }
}
