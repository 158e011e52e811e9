/** build_udp_packet of tranmit_packet/packet_creation/simple_tx.c for any addresses, ports and
    payload (the program fixes them), and what the parser, the classifier and the NAT make of it. */
module UdpBuilder {
  import opened Bytes
  import opened Checksum
  import opened Ethernet
  import W = HeaderWalkers
  import A = WalkerAgreement
  import N = StaticNat
  import X = WireFormat

  /** Where the headers and the payload of a frame begin. */
  const IP_AT: nat := ETH_LEN
  const UDP_AT: nat := IP_AT + W.IPV4_LEN
  const DATA_AT: nat := UDP_AT + W.UDP_LEN
  const MAX_PAYLOAD: nat := 0xFFFF - DATA_AT

  datatype Fields = Fields(dstMac: seq<byte>, srcMac: seq<byte>, srcIp: u32, dstIp: u32,
                           srcPort: u16, dstPort: u16, payload: seq<byte>)

  /** Addresses have six bytes, and pkt_len fits its uint16_t. */
  predicate Fits(u: Fields) {
    |u.dstMac| == |u.srcMac| == 6 && |u.payload| <= MAX_PAYLOAD
  }

  function EthHeader(u: Fields): (h: seq<byte>)
    requires Fits(u)
    ensures |h| == 14
  {
    u.dstMac + u.srcMac + [0x08, 0x00]
  }

  /** The IPv4 header around two checksum bytes. */
  function IpHeader(u: Fields, checksum: seq<byte>): (h: seq<byte>)
    requires Fits(u) && |checksum| == 2
    ensures |h| == 20
  {
    [0x45, 0] + Bytes16(20 + 8 + |u.payload|) + [0, 0, 0, 0, 64, 17] + checksum + Bytes32(u.srcIp) + Bytes32(u.dstIp)
  }

  function IpChecksum(u: Fields): seq<byte>
    requires Fits(u)
  {
    Bytes16(Swap16(0xFFFF - HostSum(IpHeader(u, [0, 0]), 10)))
  }

  function UdpHeader(u: Fields): (h: seq<byte>)
    requires Fits(u)
    ensures |h| == 8
  {
    Bytes16(u.srcPort) + Bytes16(u.dstPort) + Bytes16(8 + |u.payload|) + [0, 0]
  }

  function Frame(u: Fields): (f: seq<byte>)
    requires Fits(u)
    ensures |f| == DATA_AT + |u.payload|
  {
    EthHeader(u) + IpHeader(u, IpChecksum(u)) + UdpHeader(u) + u.payload
  }

  /** The same frame in wire order: no options, time to live 64, no UDP checksum. */
  function AsWritten(u: Fields): X.Fields
    requires Fits(u)
  {
    X.Fields(u.dstMac, u.srcMac, W.Untagged,
             X.Ip4(4, [0] + Bytes16(28 + |u.payload|) + [0, 0, 0, 0, 64], IpChecksum(u),
                   Bytes32(u.srcIp), Bytes32(u.dstIp), []),
             X.UdpHeader(u.srcPort, u.dstPort, Bytes16(8 + |u.payload|) + [0, 0]), u.payload)
  }

  lemma BuiltIsWritten(u: Fields)
    requires Fits(u)
    ensures X.Fits(AsWritten(u)) && X.Encode(AsWritten(u)) == Frame(u)
  {
    var x := AsWritten(u);
    assert X.Link(x) == EthHeader(u);
    assert X.NetHeader(x.net, x.tag, 17) == IpHeader(u, IpChecksum(u));
    assert X.UpperHeader(x.upper) == UdpHeader(u);
  }

  lemma FrameParts(u: Fields)
    requires Fits(u)
    ensures var f := Frame(u);
      && f[..IP_AT] == EthHeader(u) && f[IP_AT..UDP_AT] == IpHeader(u, IpChecksum(u))
      && f[UDP_AT..DATA_AT] == UdpHeader(u) && f[DATA_AT..] == u.payload
  {
  }

  lemma NetInSlice(f: seq<byte>, lo: nat, hi: nat, i: nat)
    requires lo + i + 2 <= hi <= |f|
    ensures Net16(f[lo..hi], i) == Net16(f, lo + i)
  {
  }

  lemma SliceOfSlice(f: seq<byte>, lo: nat, hi: nat, i: nat, j: nat)
    requires i <= j && lo + j <= hi <= |f|
    ensures f[lo..hi][i..j] == f[lo + i..lo + j]
  {
    assert forall k :: 0 <= k < j - i ==> f[lo..hi][i..j][k] == f[lo + i..lo + j][k];
  }

  /** The fields the builder writes, at the places the standards give them. */
  lemma FrameFields(u: Fields)
    requires Fits(u)
    ensures var f := Frame(u);
      && f[0..6] == u.dstMac && f[6..12] == u.srcMac && Net16(f, 12) == ETHER_TYPE_IPV4
      && f[IP_AT] == 0x45 && f[IP_AT + 9] == 17
      && f[IP_AT + 12..IP_AT + 16] == Bytes32(u.srcIp) && f[IP_AT + 16..IP_AT + 20] == Bytes32(u.dstIp)
      && Net16(f, UDP_AT) == u.srcPort && Net16(f, UDP_AT + 2) == u.dstPort
  {
    var f := Frame(u);
    FrameParts(u);
    var ip := IpHeader(u, IpChecksum(u));
    assert ip[12..16] == Bytes32(u.srcIp) && ip[16..20] == Bytes32(u.dstIp);
    assert ip[0] == 0x45 && ip[9] == 17;
    SliceOfSlice(f, IP_AT, UDP_AT, 12, 16);
    SliceOfSlice(f, IP_AT, UDP_AT, 16, 20);
    NetInSlice(f, UDP_AT, DATA_AT, 0);
    NetInSlice(f, UDP_AT, DATA_AT, 2);
    assert f[0..6] == f[..IP_AT][0..6] && f[6..12] == f[..IP_AT][6..12];
    assert f[IP_AT] == f[IP_AT..UDP_AT][0] && f[IP_AT + 9] == f[IP_AT..UDP_AT][9];
  }

  /** An untagged frame with a 20-byte IPv4 header, as the walkers and the NAT see it. */
  lemma Ipv4Layout(f: seq<byte>)
    requires UDP_AT <= |f| && Net16(f, 12) == ETHER_TYPE_IPV4 && f[IP_AT] == 0x45
    ensures W.HasIpv4(f) && !W.Tagged(f) && W.L3(f) == IP_AT && W.L4(f) == UDP_AT
    ensures N.Complete(f) && N.IsIpv4(f) && N.HeaderWords(f) == 10
  {
  }

  /** Parsing undoes building: every field comes back, and the final offset is the payload's. */
  lemma ParseUndoesBuild(u: Fields)
    requires Fits(u)
    ensures W.Parsable(Frame(u))
    ensures W.Parse(Frame(u))
            == W.Parsed(u.srcMac, u.dstMac, W.Untagged,
                        W.V4(Bytes32(u.srcIp), Bytes32(u.dstIp), 17, W.Udp(u.srcPort, u.dstPort)), DATA_AT)
    ensures Frame(u)[W.Parse(Frame(u)).offset..] == u.payload
  {
    BuiltIsWritten(u);
    X.ParseUndoesEncode(AsWritten(u));
    FrameParts(u);
  }

  /** The bytes that are the same in every built frame. */
  lemma ConstantBytes(u: Fields)
    requires Fits(u)
    ensures var f := Frame(u);
      && f[12] == 0x08 && f[13] == 0x00 && f[14] == 0x45 && f[15] == 0 && f[18..22] == [0, 0, 0, 0]
      && f[22] == 64 && f[23] == 17 && f[40] == 0 && f[41] == 0
  {
    var f := Frame(u);
    FrameParts(u);
    assert f[12] == f[..IP_AT][12] && f[13] == f[..IP_AT][13];
    assert f[14] == f[IP_AT..UDP_AT][0] && f[15] == f[IP_AT..UDP_AT][1];
    SliceOfSlice(f, IP_AT, UDP_AT, 4, 8);
    assert IpHeader(u, IpChecksum(u))[4..8] == [0, 0, 0, 0];
    assert f[22] == f[IP_AT..UDP_AT][8] && f[23] == f[IP_AT..UDP_AT][9];
    assert f[40] == f[UDP_AT..DATA_AT][6] && f[41] == f[UDP_AT..DATA_AT][7];
  }

  lemma WrittenConstants(m: seq<byte>, u: Fields)
    requires Fits(u) && Frame(u) <= m
    ensures m[14] == 0x45 && m[15] == 0 && m[18..22] == [0, 0, 0, 0] && m[22] == 64 && m[23] == 17
    ensures m[40] == 0 && m[41] == 0
  {
    ConstantBytes(u);
    var f := Frame(u);
    assert m[18..22] == f[18..22];
  }

  lemma BuiltHeaderVerifies(u: Fields)
    requires Fits(u)
    ensures Verifies(IpHeader(u, IpChecksum(u)), 10)
  {
    var z, h := IpHeader(u, [0, 0]), IpHeader(u, IpChecksum(u));
    var c: u16 := 0xFFFF - HostSum(z, 10);
    assert h[10] == IpChecksum(u)[0] && h[11] == IpChecksum(u)[1];
    SwapLoad16(h, 10);
    SwapTwice16(c);
    SwapTwice16(Load16(h, 10));
    ComplementVerifies(z, 10, 5, h);
  }

  /** The length fields agree with the frame, and the header checksum verifies. */
  lemma BuiltLengthsAndChecksum(u: Fields)
    requires Fits(u)
    ensures Net16(Frame(u), IP_AT + 2) as int == |Frame(u)| - IP_AT
    ensures Net16(Frame(u), UDP_AT + 4) as int == |Frame(u)| - UDP_AT
    ensures Verifies(Frame(u)[IP_AT..UDP_AT], 10)
  {
    var f := Frame(u);
    FrameParts(u);
    NetInSlice(f, IP_AT, UDP_AT, 2);
    NetInSlice(f, UDP_AT, DATA_AT, 4);
    BuiltHeaderVerifies(u);
  }

  /** The classifier sends a built frame to the control ring exactly for the control UDP ports. */
  lemma BuiltFrameClass(u: Fields)
    requires Fits(u)
    ensures W.Control(Frame(u)) <==> u.dstPort in {53, 67, 68, 123, 161}
  {
    BuiltIsWritten(u);
    X.WholeVerdict(AsWritten(u));
  }

  // ---------------------------------------------------------------- building, then translating

  /** The fields of a frame after address translation. */
  function Translated(u: Fields): Fields {
    u.(srcIp := if u.srcIp == N.PRIVATE_IP then N.PUBLIC_IP else u.srcIp,
       dstIp := if u.dstIp == N.PUBLIC_IP then N.PRIVATE_IP else u.dstIp)
  }

  lemma FrameAddresses(u: Fields)
    requires Fits(u)
    ensures N.Src(Frame(u)) == u.srcIp && N.Dst(Frame(u)) == u.dstIp
  {
    FrameFields(u);
    A.NetOfSlice(Frame(u), N.SRC);
    A.NetOfSlice(Frame(u), N.DST);
  }

  lemma FrameIsComplete(u: Fields)
    requires Fits(u)
    ensures N.Complete(Frame(u)) && N.IsIpv4(Frame(u)) && N.HeaderWords(Frame(u)) == 10
  {
    FrameFields(u);
    Ipv4Layout(Frame(u));
  }

  lemma ZeroedHeader(u: Fields, i: nat)
    requires Fits(u) && i < 20
    ensures N.Put(Frame(u), N.CHECKSUM, [0, 0])[IP_AT + i] == IpHeader(u, [0, 0])[i]
  {
    var f, h := Frame(u), IpHeader(u, IpChecksum(u));
    var z := N.Put(f, N.CHECKSUM, [0, 0]);
    FrameParts(u);
    assert f[IP_AT..UDP_AT][i] == f[IP_AT + i] == h[i];
    if i == 10 || i == 11 {
      assert z[IP_AT + i] == z[N.CHECKSUM..N.CHECKSUM + 2][i - 10];
    }
  }

  lemma ZeroedSum(u: Fields)
    requires Fits(u)
    ensures HostSum(N.Put(Frame(u), N.CHECKSUM, [0, 0])[ETH_LEN..], 10) == HostSum(IpHeader(u, [0, 0]), 10)
  {
    var z := N.Put(Frame(u), N.CHECKSUM, [0, 0]);
    forall i | 0 <= i < 20
      ensures z[ETH_LEN..][i] == IpHeader(u, [0, 0])[i]
    {
      ZeroedHeader(u, i);
    }
    SameSum(IpHeader(u, [0, 0]), z[ETH_LEN..], 10);
  }

  lemma ChecksumInFrame(u: Fields)
    requires Fits(u)
    ensures Frame(u)[N.CHECKSUM..N.CHECKSUM + 2] == IpChecksum(u)
  {
    FrameParts(u);
    SliceOfSlice(Frame(u), IP_AT, UDP_AT, 10, 12);
    assert IpHeader(u, IpChecksum(u))[10..12] == IpChecksum(u);
  }

  /** The builder's checksum is the one the NAT would compute. */
  lemma BuiltChecksumIsFixed(u: Fields)
    requires Fits(u)
    ensures N.Complete(Frame(u)) && N.IsIpv4(Frame(u)) && N.FixChecksum(Frame(u)) == Frame(u)
  {
    FrameIsComplete(u);
    ZeroedSum(u);
    ChecksumInFrame(u);
    N.FixedPoint(Frame(u), 10, HostSum(IpHeader(u, [0, 0]), 10));
  }

  /** The header checksum of a built frame is the one of RFC 1071, over the bytes of the frame. */
  lemma BuiltChecksumExact(u: Fields)
    requires Fits(u)
    ensures var f := Frame(u);
      var checksum := 0x100 * f[24] as int + f[25] as int;
      MakesUp(checksum, Total(f[14..34], 10) - checksum)
  {
    var f := Frame(u);
    BuiltChecksumIsFixed(u);
    FrameIsComplete(u);
    N.FixedChecksumExact(f);
    SameTotal(f[ETH_LEN..], f[14..34], 10);
  }

  lemma SameOutsideAddresses(u: Fields, v: Fields, j: nat)
    requires Fits(u) && Fits(v) && v == u.(srcIp := v.srcIp, dstIp := v.dstIp)
    requires j < |Frame(u)| && !(N.CHECKSUM <= j < N.DST + 4)
    ensures Frame(u)[j] == Frame(v)[j]
  {
    FrameParts(u);
    FrameParts(v);
    if IP_AT <= j < UDP_AT {
      assert Frame(u)[j] == Frame(u)[IP_AT..UDP_AT][j - IP_AT] && Frame(v)[j] == Frame(v)[IP_AT..UDP_AT][j - IP_AT];
    }
  }

  /** Translating a built frame is building the frame with translated addresses, checksum included. */
  lemma NatOfBuilt(u: Fields)
    requires Fits(u)
    ensures N.Complete(Frame(u)) && N.Nat(Frame(u)) == Frame(Translated(u))
  {
    var v := Translated(u);
    var f, g := Frame(u), Frame(v);
    FrameIsComplete(u);
    FrameAddresses(u);
    FrameAddresses(v);
    BuiltChecksumIsFixed(v);
    N.TranslateKeepsComplete(f);
    N.TranslatedAddresses(f);
    var t := N.Translate(f);
    forall j | 0 <= j < |f| && j != N.CHECKSUM && j != N.CHECKSUM + 1
      ensures t[j] == g[j]
    {
      if N.SRC <= j < N.DST + 4 {
        N.SameAddressBytes(t, g, j);
      } else {
        SameOutsideAddresses(u, v, j);
      }
    }
    N.FixChecksumForgets(g, t);
  }

  // ---------------------------------------------------------------- the builder on its buffer

  method WriteEthernet(m: array<byte>, u: Fields)
    requires Fits(u) && DATA_AT + |u.payload| <= m.Length
    modifies m
    ensures Holds(m, 0, EthHeader(u)) && OnlyChanges(m, 0, IP_AT)
  {
    CopyBytes(m, 0, u.dstMac);
    CopyBytes(m, 6, u.srcMac);
    StoreNet16(m, 12, ETHER_TYPE_IPV4);
    HoldsJoin(m, 0, u.dstMac, u.srcMac);
    HoldsJoin(m, 0, u.dstMac + u.srcMac, Bytes16(ETHER_TYPE_IPV4));
  }

  /** Version, type of service and total length. */
  method WriteIpv4Length(m: array<byte>, u: Fields)
    requires Fits(u) && DATA_AT + |u.payload| <= m.Length
    modifies m
    ensures Holds(m, IP_AT, [0x45, 0] + Bytes16(20 + 8 + |u.payload|)) && OnlyChanges(m, IP_AT, IP_AT + 4)
  {
    m[IP_AT], m[IP_AT + 1] := 0x45, 0;
    StoreNet16(m, IP_AT + 2, 20 + 8 + |u.payload|);
    HoldsJoin(m, IP_AT, [0x45, 0], Bytes16(20 + 8 + |u.payload|));
  }

  /** Identification, fragment offset, time to live, protocol, and the checksum zeroed. */
  method WriteIpv4Constants(m: array<byte>)
    requires DATA_AT <= m.Length
    modifies m
    ensures Holds(m, IP_AT + 4, [0, 0, 0, 0, 64, 17, 0, 0]) && OnlyChanges(m, IP_AT + 4, IP_AT + 12)
  {
    m[IP_AT + 4], m[IP_AT + 5], m[IP_AT + 6], m[IP_AT + 7] := 0, 0, 0, 0;
    m[IP_AT + 8], m[IP_AT + 9] := 64, 17;
    m[IP_AT + 10], m[IP_AT + 11] := 0, 0;
  }

  method WriteIpv4Addresses(m: array<byte>, u: Fields)
    requires Fits(u) && DATA_AT + |u.payload| <= m.Length
    modifies m
    ensures Holds(m, IP_AT + 12, Bytes32(u.srcIp) + Bytes32(u.dstIp)) && OnlyChanges(m, IP_AT + 12, UDP_AT)
  {
    StoreNet32(m, IP_AT + 12, u.srcIp);
    StoreNet32(m, IP_AT + 16, u.dstIp);
    HoldsJoin(m, IP_AT + 12, Bytes32(u.srcIp), Bytes32(u.dstIp));
  }

  method WriteIpv4Zeroed(m: array<byte>, u: Fields)
    requires Fits(u) && DATA_AT + |u.payload| <= m.Length
    modifies m
    ensures Holds(m, IP_AT, IpHeader(u, [0, 0])) && OnlyChanges(m, IP_AT, UDP_AT)
  {
    var a := [0x45, 0] + Bytes16(20 + 8 + |u.payload|);
    var b := [0, 0, 0, 0, 64, 17, 0, 0];
    var c := Bytes32(u.srcIp) + Bytes32(u.dstIp);
    WriteIpv4Length(m, u);
    WriteIpv4Constants(m);
    WriteIpv4Addresses(m, u);
    HoldsJoin(m, IP_AT, a, b);
    HoldsJoin(m, IP_AT, a + b, c);
    assert IpHeader(u, [0, 0]) == a + b + c;
  }

  method WriteIpv4(m: array<byte>, u: Fields)
    requires Fits(u) && DATA_AT + |u.payload| <= m.Length
    modifies m
    ensures Holds(m, IP_AT, IpHeader(u, IpChecksum(u))) && OnlyChanges(m, IP_AT, UDP_AT)
  {
    WriteIpv4Zeroed(m, u);
    HoldsSlice(m, IP_AT, IpHeader(u, [0, 0]));
    var c: u16 := 0xFFFF - HostSum(m[IP_AT..UDP_AT], 10);
    assert IpChecksum(u) == Bytes16(Swap16(c));
    StoreNet16(m, IP_AT + 10, Swap16(c));
    HeaderAround(u);
  }

  /** The checksum bytes are the only ones IpHeader takes from its argument. */
  lemma HeaderAround(u: Fields)
    requires Fits(u)
    ensures IpHeader(u, IpChecksum(u)) == IpHeader(u, [0, 0])[..10] + IpChecksum(u) + IpHeader(u, [0, 0])[12..]
  {
  }

  method WriteUdp(m: array<byte>, u: Fields)
    requires Fits(u) && DATA_AT + |u.payload| <= m.Length
    modifies m
    ensures Holds(m, UDP_AT, UdpHeader(u)) && OnlyChanges(m, UDP_AT, DATA_AT)
  {
    StoreNet16(m, UDP_AT, u.srcPort);
    StoreNet16(m, UDP_AT + 2, u.dstPort);
    HoldsJoin(m, UDP_AT, Bytes16(u.srcPort), Bytes16(u.dstPort));
    StoreNet16(m, UDP_AT + 4, 8 + |u.payload|);
    StoreNet16(m, UDP_AT + 6, 0);
    HoldsJoin(m, UDP_AT + 4, Bytes16(8 + |u.payload|), Bytes16(0));
    HoldsJoin(m, UDP_AT, Bytes16(u.srcPort) + Bytes16(u.dstPort), Bytes16(8 + |u.payload|) + Bytes16(0));
    assert UdpHeader(u) == Bytes16(u.srcPort) + Bytes16(u.dstPort) + (Bytes16(8 + |u.payload|) + Bytes16(0));
  }

  /** Writes the frame into the packet buffer and returns pkt_len. Bytes behind the frame stay. */
  method BuildUdpPacket(m: array<byte>, u: Fields) returns (pktLen: u16)
    requires Fits(u) && DATA_AT + |u.payload| <= m.Length
    modifies m
    ensures pktLen as int == |Frame(u)| && m[..pktLen] == Frame(u)
    ensures OnlyChanges(m, 0, pktLen)
    ensures m[14] == 0x45 && m[15] == 0 && m[18..22] == [0, 0, 0, 0] && m[22] == 64 && m[23] == 17
    ensures m[40] == 0 && m[41] == 0
  {
    pktLen := 14 + 20 + 8 + |u.payload|;
    WriteEthernet(m, u);
    WriteIpv4(m, u);
    HoldsJoin(m, 0, EthHeader(u), IpHeader(u, IpChecksum(u)));
    WriteUdp(m, u);
    HoldsJoin(m, 0, EthHeader(u) + IpHeader(u, IpChecksum(u)), UdpHeader(u));
    CopyBytes(m, DATA_AT, u.payload);
    HoldsJoin(m, 0, EthHeader(u) + IpHeader(u, IpChecksum(u)) + UdpHeader(u), u.payload);
    HoldsSlice(m, 0, Frame(u));
    WrittenConstants(m[..], u);
  }
}
