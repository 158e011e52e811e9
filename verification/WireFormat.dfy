/** Frames written field by field in wire order (IEEE 802.3 and 802.1Q, RFC 791, 8200, 768, 9293, 792):
    what the three header walkers must find in the bytes, stated without any of their functions. */
module WireFormat {
  import opened Bytes
  import W = HeaderWalkers

  type nibble = x: int | 0 <= x < 16

  /** head: the bytes in front of the protocol number; options: four bytes each, at most ten. */
  datatype Net =
    | Ip4(version: nibble, head: seq<byte>, checksum: seq<byte>, src: seq<byte>, dst: seq<byte>, options: seq<byte>)
    | Ip6(head: seq<byte>, hopLimit: byte, src: seq<byte>, dst: seq<byte>)
    | NotIp(etherType: u16)

  /** tail: the bytes of the header that no walker looks at. */
  datatype Upper =
    | UdpHeader(srcPort: u16, dstPort: u16, tail: seq<byte>)
    | TcpHeader(srcPort: u16, dstPort: u16, seqNum: u32, ackNum: u32,
                dataOffset: nibble, reserved: nibble, flags: byte, tail: seq<byte>)
    | IcmpHeader(kind: byte, code: byte, tail: seq<byte>)
    | OtherProtocol(proto: byte)

  datatype Fields = Fields(dstMac: seq<byte>, srcMac: seq<byte>, tag: W.Tag, net: Net, upper: Upper, payload: seq<byte>)

  predicate NetFits(n: Net, tag: W.Tag) {
    match n
    case Ip4(_, head, checksum, src, dst, options) =>
      |head| == 8 && |checksum| == 2 && |src| == |dst| == 4 && |options| % 4 == 0 && |options| <= 40
    case Ip6(head, _, src, dst) => |head| == 6 && |src| == |dst| == 16
    case NotIp(t) => t != 0x0800 && t != 0x86DD && (tag.Untagged? ==> t != 0x8100)
  }

  predicate UpperFits(u: Upper) {
    match u
    case UdpHeader(_, _, tail) => |tail| == 4
    case TcpHeader(_, _, _, _, _, _, _, tail) => |tail| == 6
    case IcmpHeader(_, _, tail) => |tail| == 6
    case OtherProtocol(p) => p != 17 && p != 6 && p != 1
  }

  predicate Fits(x: Fields) {
    && |x.dstMac| == |x.srcMac| == 6 && NetFits(x.net, x.tag) && UpperFits(x.upper)
    && (x.net.NotIp? ==> x.upper.OtherProtocol?)
  }

  function Protocol(u: Upper): byte {
    match u case UdpHeader(_, _, _) => 17 case TcpHeader(_, _, _, _, _, _, _, _) => 6
            case IcmpHeader(_, _, _) => 1 case OtherProtocol(p) => p
  }

  function Link(x: Fields): (b: seq<byte>)
    requires Fits(x)
    ensures |b| == if x.tag.Untagged? then 14 else 18
  {
    x.dstMac + x.srcMac
    + (match x.tag case Untagged => [] case Tci(tci) => [0x81, 0x00] + Bytes16(tci))
    + (match x.net case Ip4(_, _, _, _, _, _) => [0x08, 0x00] case Ip6(_, _, _, _) => [0x86, 0xDD]
                   case NotIp(t) => Bytes16(t))
  }

  function NetHeader(n: Net, tag: W.Tag, proto: byte): (b: seq<byte>)
    requires NetFits(n, tag)
    ensures |b| == match n case Ip4(_, _, _, _, _, o) => 20 + |o| case Ip6(_, _, _, _) => 40 case NotIp(_) => 0
  {
    match n
    case Ip4(version, head, checksum, src, dst, options) =>
      [16 * version + 5 + |options| / 4] + head + [proto] + checksum + src + dst + options
    case Ip6(head, hopLimit, src, dst) => head + [proto, hopLimit] + src + dst
    case NotIp(_) => []
  }

  function UpperHeader(u: Upper): (b: seq<byte>)
    requires UpperFits(u)
    ensures |b| == match u case UdpHeader(_, _, _) => 8 case TcpHeader(_, _, _, _, _, _, _, _) => 20
                           case IcmpHeader(_, _, _) => 8 case OtherProtocol(_) => 0
  {
    match u
    case UdpHeader(srcPort, dstPort, tail) => Bytes16(srcPort) + Bytes16(dstPort) + tail
    case TcpHeader(srcPort, dstPort, seqNum, ackNum, dataOffset, reserved, flags, tail) =>
      Bytes16(srcPort) + Bytes16(dstPort) + Bytes32(seqNum) + Bytes32(ackNum)
      + [16 * dataOffset + reserved, flags] + tail
    case IcmpHeader(kind, code, tail) => [kind, code] + tail
    case OtherProtocol(_) => []
  }

  function Encode(x: Fields): seq<byte>
    requires Fits(x)
  {
    Link(x) + NetHeader(x.net, x.tag, Protocol(x.upper)) + UpperHeader(x.upper) + x.payload
  }

  /** Where the network header ends. */
  function UpperAt(x: Fields): nat
    requires Fits(x)
  {
    |Link(x)| + |NetHeader(x.net, x.tag, Protocol(x.upper))|
  }

  // ---------------------------------------------------------------- bytes inside a longer sequence

  /** q stands in f at offset i. */
  ghost predicate Stands(f: seq<byte>, i: nat, q: seq<byte>) {
    i + |q| <= |f| && forall j :: i <= j < i + |q| ==> f[j] == q[j - i]
  }

  lemma MiddleStands(a: seq<byte>, q: seq<byte>, c: seq<byte>)
    ensures Stands(a + q + c, |a|, q)
  {
  }

  lemma Regroup(a: seq<byte>, b: seq<byte>, c: seq<byte>, d: seq<byte>)
    ensures a + b + c + d == [] + a + (b + c + d) == a + b + (c + d)
  {
  }

  lemma PartsStand(x: Fields)
    requires Fits(x)
    ensures var f := Encode(x);
      && Stands(f, 0, Link(x))
      && Stands(f, |Link(x)|, NetHeader(x.net, x.tag, Protocol(x.upper)))
      && Stands(f, UpperAt(x), UpperHeader(x.upper))
      && |f| == UpperAt(x) + |UpperHeader(x.upper)| + |x.payload|
  {
    var a, b, c, d := Link(x), NetHeader(x.net, x.tag, Protocol(x.upper)), UpperHeader(x.upper), x.payload;
    Regroup(a, b, c, d);
    MiddleStands([], a, b + c + d);
    MiddleStands(a, b, c + d);
    MiddleStands(a + b, c, d);
  }

  lemma StandsAt(f: seq<byte>, i: nat, q: seq<byte>, j: nat)
    requires Stands(f, i, q) && j < |q|
    ensures f[i + j] == q[j]
  {
  }

  lemma Stands16(f: seq<byte>, i: nat, q: seq<byte>, j: nat)
    requires Stands(f, i, q) && j + 2 <= |q|
    ensures Net16(f, i + j) == Net16(q, j) && Load16(f, i + j) == Load16(q, j)
  {
    StandsAt(f, i, q, j);
    StandsAt(f, i, q, j + 1);
  }

  lemma Stands32(f: seq<byte>, i: nat, q: seq<byte>, j: nat)
    requires Stands(f, i, q) && j + 4 <= |q|
    ensures Net32(f, i + j) == Net32(q, j) && Load32(f, i + j) == Load32(q, j)
  {
    Stands16(f, i, q, j);
    Stands16(f, i, q, j + 2);
  }

  lemma StandsSlice(f: seq<byte>, i: nat, q: seq<byte>, lo: nat, hi: nat)
    requires Stands(f, i, q) && lo <= hi <= |q|
    ensures f[i + lo..i + hi] == q[lo..hi]
  {
    forall j | 0 <= j < hi - lo
      ensures f[i + lo..i + hi][j] == q[lo..hi][j]
    {
      StandsAt(f, i, q, lo + j);
    }
  }

  // ---------------------------------------------------------------- what the walkers find

  function TypeOf(n: Net): u16 {
    match n case Ip4(_, _, _, _, _, _) => 0x0800 case Ip6(_, _, _, _) => 0x86DD case NotIp(t) => t
  }

  lemma LinkWords(x: Fields)
    requires Fits(x)
    ensures var q := Link(x);
      && q[0..6] == x.dstMac && q[6..12] == x.srcMac
      && Net16(q, |q| - 2) == TypeOf(x.net)
      && (x.tag.Tci? ==> q[12] == 0x81 && q[13] == 0 && Net16(q, 14) == x.tag.tci)
  {
  }

  /** The link layer of a sequence that starts with these headers. */
  lemma LinkLayout(g: seq<byte>, x: Fields)
    requires Fits(x) && Stands(g, 0, Link(x))
    ensures W.HasLink(g) && (W.Tagged(g) <==> x.tag.Tci?)
    ensures W.L3(g) == |Link(x)| && W.NetType(g) == TypeOf(x.net)
    ensures g[0..6] == x.dstMac && g[6..12] == x.srcMac
    ensures x.tag.Tci? ==> Net16(g, 14) == x.tag.tci
  {
    var q := Link(x);
    LinkWords(x);
    StandsSlice(g, 0, q, 0, 6);
    StandsSlice(g, 0, q, 6, 12);
    Stands16(g, 0, q, 12);
    Stands16(g, 0, q, |q| - 2);
    if x.tag.Tci? {
      Stands16(g, 0, q, 14);
    }
  }

  lemma Ip4Words(n: Net, tag: W.Tag, proto: byte)
    requires n.Ip4? && NetFits(n, tag)
    ensures var q := NetHeader(n, tag, proto);
      && q[0] % 16 == 5 + |n.options| / 4 && q[9] == proto
      && q[12..16] == n.src && q[16..20] == n.dst
  {
  }

  /** The network layer of a sequence with an IPv4 header, options included, or at least its first
      twenty bytes. */
  lemma Ip4Layout(g: seq<byte>, x: Fields)
    requires Fits(x) && x.net.Ip4? && Stands(g, 0, Link(x))
    requires Stands(g, |Link(x)|, NetHeader(x.net, x.tag, Protocol(x.upper))[..20])
    ensures W.HasIpv4(g) && W.Proto(g) == Protocol(x.upper) && W.L4(g) == UpperAt(x)
    ensures g[W.L3(g) + 12..W.L3(g) + 16] == x.net.src && g[W.L3(g) + 16..W.L3(g) + 20] == x.net.dst
  {
    var whole := NetHeader(x.net, x.tag, Protocol(x.upper));
    var q := whole[..20];
    var i := |Link(x)|;
    LinkLayout(g, x);
    Ip4Words(x.net, x.tag, Protocol(x.upper));
    StandsAt(g, i, q, 0);
    StandsAt(g, i, q, 9);
    StandsSlice(g, i, q, 12, 16);
    StandsSlice(g, i, q, 16, 20);
    assert q[12..16] == whole[12..16] && q[16..20] == whole[16..20];
  }

  lemma UpperWords(u: Upper)
    requires UpperFits(u)
    ensures var q := UpperHeader(u);
      && (u.UdpHeader? || u.TcpHeader? ==> Net16(q, 0) == u.srcPort && Net16(q, 2) == u.dstPort)
      && (u.TcpHeader? ==> && Net32(q, 4) == u.seqNum && Net32(q, 8) == u.ackNum
                           && q[12] / 16 == u.dataOffset && q[13] == u.flags)
      && (u.IcmpHeader? ==> q[0] == u.kind && q[1] == u.code)
  {
    if u.TcpHeader? {
      Bytes32Reads(u.seqNum);
      Bytes32Reads(u.ackNum);
      var q := UpperHeader(u);
      assert q[4..8] == Bytes32(u.seqNum) && q[8..12] == Bytes32(u.ackNum);
      SliceReads(q, 4);
      SliceReads(q, 8);
    }
  }

  lemma Bytes32Reads(x: u32)
    ensures Net32(Bytes32(x), 0) == x
  {
  }

  lemma SliceReads(q: seq<byte>, i: nat)
    requires i + 4 <= |q|
    ensures Net32(q, i) == Net32(q[i..i + 4], 0)
  {
    var b := q[i..i + 4];
    assert b[0] == q[i] && b[1] == q[i + 1] && b[2] == q[i + 2] && b[3] == q[i + 3];
  }

  /** What parse_packet prints of the transport header, and how far it moves on, below IPv4. */
  function Transport4(u: Upper): (W.Transport, nat) {
    match u
    case UdpHeader(srcPort, dstPort, _) => (W.Udp(srcPort, dstPort), 8)
    case TcpHeader(srcPort, dstPort, seqNum, ackNum, dataOffset, _, flags, _) =>
      (W.Tcp(srcPort, dstPort, seqNum, ackNum, flags), 4 * dataOffset)
    case IcmpHeader(kind, code, _) => (W.Icmp(kind, code), 8)
    case OtherProtocol(_) => (W.NoTransport, 0)
  }

  /** Below IPv6 it prints the ports only, and takes a TCP header for twenty bytes long. */
  function Transport6(u: Upper): (W.Transport, nat) {
    match u
    case UdpHeader(srcPort, dstPort, _) => (W.Udp(srcPort, dstPort), 8)
    case TcpHeader(srcPort, dstPort, _, _, _, _, _, _) => (W.Tcp(srcPort, dstPort, 0, 0, 0), 20)
    case _ => (W.NoTransport, 0)
  }

  lemma PortsStand(g: seq<byte>, t: nat, u: Upper)
    requires UpperFits(u) && Stands(g, t, UpperHeader(u)) && (u.UdpHeader? || u.TcpHeader?)
    ensures t + 4 <= |g| && Net16(g, t) == u.srcPort && Net16(g, t + 2) == u.dstPort
  {
    UpperWords(u);
    Stands16(g, t, UpperHeader(u), 0);
    Stands16(g, t, UpperHeader(u), 2);
  }

  lemma UpperLayout(g: seq<byte>, t: nat, u: Upper)
    requires UpperFits(u) && Stands(g, t, UpperHeader(u))
    ensures W.HasTransport(g, t, Protocol(u)) && W.ParseTransport(g, t, Protocol(u)) == Transport4(u)
  {
    var q := UpperHeader(u);
    UpperWords(u);
    if u.UdpHeader? || u.TcpHeader? {
      Stands16(g, t, q, 0);
      Stands16(g, t, q, 2);
    }
    if u.TcpHeader? {
      Stands32(g, t, q, 4);
      Stands32(g, t, q, 8);
      StandsAt(g, t, q, 12);
      StandsAt(g, t, q, 13);
    }
    if u.IcmpHeader? {
      StandsAt(g, t, q, 0);
      StandsAt(g, t, q, 1);
    }
  }

  lemma Ip6Words(n: Net, tag: W.Tag, proto: byte)
    requires n.Ip6? && NetFits(n, tag)
    ensures var q := NetHeader(n, tag, proto); q[6] == proto && q[8..24] == n.src && q[24..40] == n.dst
  {
  }

  lemma Ip6Layout(g: seq<byte>, x: Fields)
    requires Fits(x) && x.net.Ip6? && Stands(g, 0, Link(x))
    requires Stands(g, |Link(x)|, NetHeader(x.net, x.tag, Protocol(x.upper)))
    ensures UpperAt(x) == W.L3(g) + 40 <= |g| && g[W.L3(g) + 6] == Protocol(x.upper)
    ensures g[W.L3(g) + 8..W.L3(g) + 24] == x.net.src && g[W.L3(g) + 24..W.L3(g) + 40] == x.net.dst
  {
    var i, q := |Link(x)|, NetHeader(x.net, x.tag, Protocol(x.upper));
    LinkLayout(g, x);
    Ip6Words(x.net, x.tag, Protocol(x.upper));
    StandsAt(g, i, q, 6);
    StandsSlice(g, i, q, 8, 24);
    StandsSlice(g, i, q, 24, 40);
  }

  /** What parse_packet prints of the network layer and above. */
  function Printed(x: Fields): (W.Network, nat) {
    match x.net
    case Ip4(_, _, _, src, dst, _) => (W.V4(src, dst, Protocol(x.upper), Transport4(x.upper).0), Transport4(x.upper).1)
    case Ip6(_, _, src, dst) => (W.V6(src, dst, Protocol(x.upper), Transport6(x.upper).0), Transport6(x.upper).1)
    case NotIp(_) => (W.NoNetwork, 0)
  }

  lemma Parse4(g: seq<byte>, x: Fields)
    requires Fits(x) && x.net.Ip4? && Stands(g, 0, Link(x))
    requires Stands(g, |Link(x)|, NetHeader(x.net, x.tag, Protocol(x.upper)))
    requires Stands(g, UpperAt(x), UpperHeader(x.upper))
    ensures W.Parsable(g) && W.NetType(g) == 0x0800 && W.ParseV4(g) == (Printed(x).0, UpperAt(x) + Printed(x).1)
  {
    LinkLayout(g, x);
    Ip4Layout(g, x);
    UpperLayout(g, UpperAt(x), x.upper);
  }

  lemma Parse6(g: seq<byte>, x: Fields)
    requires Fits(x) && x.net.Ip6? && Stands(g, 0, Link(x))
    requires Stands(g, |Link(x)|, NetHeader(x.net, x.tag, Protocol(x.upper)))
    requires Stands(g, UpperAt(x), UpperHeader(x.upper))
    ensures W.Parsable(g) && W.NetType(g) == 0x86DD && W.ParseV6(g) == (Printed(x).0, UpperAt(x) + Printed(x).1)
  {
    LinkLayout(g, x);
    Ip6Layout(g, x);
    if x.upper.UdpHeader? || x.upper.TcpHeader? {
      PortsStand(g, UpperAt(x), x.upper);
    }
  }

  /** parse_packet undoes writing: for all fields, tagged or not, IPv4 with any options, IPv6 or neither,
      UDP, TCP, ICMP or another protocol, it prints these fields and ends behind the headers. */
  lemma ParseUndoesEncode(x: Fields)
    requires Fits(x)
    ensures W.Parsable(Encode(x))
    ensures W.Parse(Encode(x)) == W.Parsed(x.srcMac, x.dstMac, x.tag, Printed(x).0, UpperAt(x) + Printed(x).1)
  {
    PartsStand(x);
    LinkLayout(Encode(x), x);
    match x.net
    case Ip4(_, _, _, _, _, _) => Parse4(Encode(x), x);
    case Ip6(_, _, _, _) => Parse6(Encode(x), x);
    case NotIp(_) =>
  }

  lemma AddressLoads(g: seq<byte>, i: nat, b: seq<byte>)
    requires i + 4 <= |g| && g[i..i + 4] == b
    ensures Load32(g, i) == Load32(b, 0)
  {
    assert b[0] == g[i] && b[1] == g[i + 1] && b[2] == g[i + 2] && b[3] == g[i + 3];
  }

  /** The flow key of a frame with these fields: protocol and addresses, and the ports of UDP and TCP, as a
      little-endian host loads them; frames other than IPv4 are freed. */
  function ExpectedKey(x: Fields): W.KeyResult
    requires Fits(x)
  {
    if !x.net.Ip4? then W.Freed
    else
      var ports := x.upper.UdpHeader? || x.upper.TcpHeader?;
      W.Extracted(W.Key(Protocol(x.upper), Load32(x.net.src, 0), Load32(x.net.dst, 0),
                        if ports then Swap16(x.upper.srcPort) else 0,
                        if ports then Swap16(x.upper.dstPort) else 0))
  }

  lemma Key4(g: seq<byte>, x: Fields)
    requires Fits(x) && x.net.Ip4? && Stands(g, 0, Link(x))
    requires Stands(g, |Link(x)|, NetHeader(x.net, x.tag, Protocol(x.upper)))
    requires Stands(g, UpperAt(x), UpperHeader(x.upper))
    ensures W.Keyable(g) && W.FlowKey(g) == ExpectedKey(x)
  {
    LinkLayout(g, x);
    Ip4Layout(g, x);
    AddressLoads(g, W.L3(g) + 12, x.net.src);
    AddressLoads(g, W.L3(g) + 16, x.net.dst);
    if x.upper.UdpHeader? || x.upper.TcpHeader? {
      UpperWords(x.upper);
      RawPort(g, UpperAt(x), UpperHeader(x.upper), 0, x.upper.srcPort);
      RawPort(g, UpperAt(x), UpperHeader(x.upper), 2, x.upper.dstPort);
    }
  }

  lemma KeyOfEncode(x: Fields)
    requires Fits(x)
    ensures W.Keyable(Encode(x)) && W.FlowKey(Encode(x)) == ExpectedKey(x)
  {
    PartsStand(x);
    if x.net.Ip4? {
      Key4(Encode(x), x);
    } else {
      LinkLayout(Encode(x), x);
    }
  }

  lemma RawPort(f: seq<byte>, t: nat, q: seq<byte>, j: nat, port: u16)
    requires Stands(f, t, q) && j + 2 <= |q| && Net16(q, j) == port
    ensures t + j + 2 <= |f| && Load16(f, t + j) == Swap16(port)
  {
    Stands16(f, t, q, j);
    SwapLoad16(q, j);
    SwapTwice16(Load16(q, j));
  }

  /** The destination ports of the control protocols. */
  predicate ControlPort(u: Upper) {
    (u.UdpHeader? && u.dstPort in {53, 67, 68, 123, 161}) || (u.TcpHeader? && u.dstPort in {22, 53, 179, 389})
  }

  /** The bytes the classifier wants to see before it decides: the fixed IPv4 header for ICMP and OSPF,
      the transport header as well for UDP and TCP. */
  function Needed(x: Fields): nat
    requires Fits(x) && x.net.Ip4?
  {
    if x.upper.UdpHeader? || x.upper.TcpHeader? then UpperAt(x) + |UpperHeader(x.upper)| else |Link(x)| + 20
  }

  lemma PrefixStands(f: seq<byte>, k: nat, i: nat, q: seq<byte>)
    requires k <= |f| && Stands(f, i, q) && i + |q| <= k
    ensures Stands(f[..k], i, q)
  {
  }

  lemma TooShort(x: Fields, k: nat)
    requires Fits(x) && k <= |Encode(x)| && k < |Link(x)| + 20
    ensures !W.HasIpv4(Encode(x)[..k])
  {
    var f, g := Encode(x), Encode(x)[..k];
    PartsStand(x);
    LinkLayout(f, x);
    if 14 <= k {
      assert Net16(g, 12) == Net16(f, 12);
    }
  }

  lemma LongEnough(x: Fields, k: nat)
    requires Fits(x) && x.net.Ip4? && |Link(x)| + 20 <= k <= |Encode(x)|
    ensures var g := Encode(x)[..k]; W.HasIpv4(g) && W.Proto(g) == Protocol(x.upper) && W.L4(g) == UpperAt(x)
  {
    var f, whole := Encode(x), NetHeader(x.net, x.tag, Protocol(x.upper));
    PartsStand(x);
    assert Stands(f, |Link(x)|, whole[..20]);
    PrefixStands(f, k, 0, Link(x));
    PrefixStands(f, k, |Link(x)|, whole[..20]);
    Ip4Layout(f[..k], x);
  }

  /** The verdict on every prefix of every written frame: control exactly if it is IPv4, carries ICMP, OSPF
      or a control port, and the prefix holds the headers this takes. */
  lemma VerdictOfPrefix(x: Fields, k: nat)
    requires Fits(x) && k <= |Encode(x)|
    ensures W.Control(Encode(x)[..k]) <==>
            && x.net.Ip4? && k >= Needed(x)
            && (x.upper.IcmpHeader? || x.upper == OtherProtocol(89) || ControlPort(x.upper))
  {
    var f, g := Encode(x), Encode(x)[..k];
    if k < |Link(x)| + 20 {
      TooShort(x, k);
    } else if x.net.Ip4? {
      LongEnough(x, k);
      if (x.upper.UdpHeader? || x.upper.TcpHeader?) && k >= Needed(x) {
        PartsStand(x);
        PrefixStands(f, k, UpperAt(x), UpperHeader(x.upper));
        UpperWords(x.upper);
        Stands16(g, UpperAt(x), UpperHeader(x.upper), 2);
      }
    } else {
      PartsStand(x);
      PrefixStands(f, k, 0, Link(x));
      LinkLayout(g, x);
    }
  }

  lemma WholeVerdict(x: Fields)
    requires Fits(x)
    ensures W.Control(Encode(x)) <==>
            x.net.Ip4? && (x.upper.IcmpHeader? || x.upper == OtherProtocol(89) || ControlPort(x.upper))
  {
    VerdictOfPrefix(x, |Encode(x)|);
    assert Encode(x)[..|Encode(x)|] == Encode(x);
    PartsStand(x);
  }

  /** IPv4 options do not matter to any walker: exchanging them changes no field, no key and no verdict, and
      moves the parser's offset by the difference in length. */
  lemma OptionsDoNotMatter(x: Fields, y: Fields)
    requires Fits(x) && Fits(y) && x.net.Ip4? && y.net.Ip4?
    requires y == x.(net := x.net.(options := y.net.options))
    ensures W.Parsable(Encode(x)) && W.Parsable(Encode(y)) && W.Keyable(Encode(x)) && W.Keyable(Encode(y))
    ensures W.Parse(Encode(y)) == W.Parse(Encode(x)).(offset := W.Parse(Encode(y)).offset)
    ensures W.Parse(Encode(y)).offset - |y.net.options| == W.Parse(Encode(x)).offset - |x.net.options|
    ensures W.FlowKey(Encode(y)) == W.FlowKey(Encode(x))
    ensures W.Control(Encode(y)) <==> W.Control(Encode(x))
  {
    ParseUndoesEncode(x);
    ParseUndoesEncode(y);
    KeyOfEncode(x);
    KeyOfEncode(y);
    WholeVerdict(x);
    WholeVerdict(y);
  }

  // ---------------------------------------------------------------- every frame is a written one

  /** Headers of the sizes the standards give them, by the numbers in the frame. */
  predicate UpperPresent(f: seq<byte>, t: nat, proto: byte) {
    t + (if proto == 17 || proto == 1 then 8 else if proto == 6 then 20 else 0) <= |f|
  }

  predicate NetPresent(f: seq<byte>, i: nat)
    requires 2 <= i <= |f|
  {
    && (f[i - 2] == 0x08 && f[i - 1] == 0x00 ==>
          && i + 20 <= |f| && f[i] % 16 >= 5
          && UpperPresent(f, i + 4 * (f[i] % 16) as int, f[i + 9]))
    && (f[i - 2] == 0x86 && f[i - 1] == 0xDD ==> i + 40 <= |f| && UpperPresent(f, i + 40, f[i + 6]))
  }

  predicate HeadersPresent(f: seq<byte>) {
    && 14 <= |f|
    && if f[12] == 0x81 && f[13] == 0x00 then 18 <= |f| && NetPresent(f, 18) else NetPresent(f, 14)
  }

  lemma WordsBack(f: seq<byte>, i: nat)
    requires i + 2 <= |f|
    ensures Bytes16(Net16(f, i)) == f[i..i + 2]
    ensures i + 4 <= |f| ==> Bytes32(Net32(f, i)) == f[i..i + 4]
  {
    assert Net16(f, i) / 0x100 == f[i] && Net16(f, i) % 0x100 == f[i + 1];
    if i + 4 <= |f| {
      assert Net16(f, i + 2) / 0x100 == f[i + 2] && Net16(f, i + 2) % 0x100 == f[i + 3];
      assert Net32(f, i) / 0x1_0000 == Net16(f, i) && Net32(f, i) % 0x1_0000 == Net16(f, i + 2);
    }
  }

  function ReadUpper(f: seq<byte>, t: nat, proto: byte): (u: Upper)
    requires UpperPresent(f, t, proto)
    ensures UpperFits(u) && Protocol(u) == proto
  {
    if proto == 17 then UdpHeader(Net16(f, t), Net16(f, t + 2), f[t + 4..t + 8])
    else if proto == 6 then
      TcpHeader(Net16(f, t), Net16(f, t + 2), Net32(f, t + 4), Net32(f, t + 8),
                f[t + 12] / 16, f[t + 12] % 16, f[t + 13], f[t + 14..t + 20])
    else if proto == 1 then IcmpHeader(f[t], f[t + 1], f[t + 2..t + 8])
    else OtherProtocol(proto)
  }

  lemma Cut(f: seq<byte>, lo: nat, mid: nat, hi: nat)
    requires lo <= mid <= hi <= |f|
    ensures f[lo..hi] == f[lo..mid] + f[mid..hi]
  {
  }

  lemma TcpFromSlices(f: seq<byte>, t: nat, u: Upper)
    requires t + 20 <= |f| && UpperFits(u) && u.TcpHeader?
    requires Bytes16(u.srcPort) == f[t..t + 2] && Bytes16(u.dstPort) == f[t + 2..t + 4]
    requires Bytes32(u.seqNum) == f[t + 4..t + 8] && Bytes32(u.ackNum) == f[t + 8..t + 12]
    requires [16 * u.dataOffset + u.reserved, u.flags] == f[t + 12..t + 14] && u.tail == f[t + 14..t + 20]
    ensures UpperHeader(u) == f[t..t + 20]
  {
    Cut(f, t, t + 2, t + 4);
    Cut(f, t, t + 4, t + 8);
    Cut(f, t, t + 8, t + 12);
    Cut(f, t, t + 12, t + 14);
    Cut(f, t, t + 14, t + 20);
  }

  lemma ReadTcpBack(f: seq<byte>, t: nat)
    requires t + 20 <= |f|
    ensures UpperHeader(ReadUpper(f, t, 6)) == f[t..t + 20]
  {
    WordsBack(f, t);
    WordsBack(f, t + 2);
    WordsBack(f, t + 4);
    WordsBack(f, t + 8);
    assert 16 * (f[t + 12] / 16) + f[t + 12] % 16 == f[t + 12];
    TcpFromSlices(f, t, ReadUpper(f, t, 6));
  }

  lemma ReadUdpBack(f: seq<byte>, t: nat)
    requires t + 8 <= |f|
    ensures UpperHeader(ReadUpper(f, t, 17)) == f[t..t + 8]
  {
    WordsBack(f, t);
    WordsBack(f, t + 2);
    Cut(f, t, t + 2, t + 4);
    Cut(f, t, t + 4, t + 8);
  }

  lemma ReadUpperBack(f: seq<byte>, t: nat, proto: byte)
    requires UpperPresent(f, t, proto)
    ensures var u := ReadUpper(f, t, proto); UpperHeader(u) == f[t..t + |UpperHeader(u)|]
  {
    if proto == 6 {
      ReadTcpBack(f, t);
    } else if proto == 17 {
      ReadUdpBack(f, t);
    }
  }

  lemma Ip4FromSlices(f: seq<byte>, i: nat, end: nat, n: Net, tag: W.Tag)
    requires i + 20 <= end <= |f| && n.Ip4? && NetFits(n, tag)
    requires 16 * n.version + 5 + |n.options| / 4 == f[i]
    requires n.head == f[i + 1..i + 9] && n.checksum == f[i + 10..i + 12]
    requires n.src == f[i + 12..i + 16] && n.dst == f[i + 16..i + 20] && n.options == f[i + 20..end]
    ensures NetHeader(n, tag, f[i + 9]) == f[i..end]
  {
    assert [f[i]] == f[i..i + 1] && [f[i + 9]] == f[i + 9..i + 10];
    Cut(f, i, i + 1, i + 9);
    Cut(f, i, i + 9, i + 10);
    Cut(f, i, i + 10, i + 12);
    Cut(f, i, i + 12, i + 16);
    Cut(f, i, i + 16, i + 20);
    Cut(f, i, i + 20, end);
  }

  lemma ReadIp4(f: seq<byte>, i: nat, tag: W.Tag) returns (n: Net)
    requires i + 20 <= |f| && f[i] % 16 >= 5 && i + 4 * (f[i] % 16) as int <= |f|
    ensures n.Ip4? && NetFits(n, tag) && NetHeader(n, tag, f[i + 9]) == f[i..i + 4 * (f[i] % 16) as int]
  {
    var end := i + 4 * (f[i] % 16) as int;
    n := Ip4(f[i] / 16, f[i + 1..i + 9], f[i + 10..i + 12], f[i + 12..i + 16], f[i + 16..i + 20], f[i + 20..end]);
    assert |n.options| == 4 * (f[i] % 16 - 5) as int;
    assert 16 * n.version + 5 + |n.options| / 4 == f[i];
    Ip4FromSlices(f, i, end, n, tag);
  }

  lemma ReadIp6(f: seq<byte>, i: nat, tag: W.Tag) returns (n: Net)
    requires i + 40 <= |f|
    ensures n.Ip6? && NetFits(n, tag) && NetHeader(n, tag, f[i + 6]) == f[i..i + 40]
  {
    n := Ip6(f[i..i + 6], f[i + 7], f[i + 8..i + 24], f[i + 24..i + 40]);
  }

  lemma ReadLink(f: seq<byte>, x: Fields, i: nat)
    requires Fits(x) && 14 <= i <= |f| && |Link(x)| == i
    requires x.dstMac == f[0..6] && x.srcMac == f[6..12] && TypeOf(x.net) == Net16(f, i - 2)
    requires x.tag.Tci? ==> f[12..14] == [0x81, 0x00] && Bytes16(x.tag.tci) == f[14..16]
    ensures Link(x) == f[..i]
  {
    WordsBack(f, i - 2);
    assert Bytes16(0x0800) == [0x08, 0x00] && Bytes16(0x86DD) == [0x86, 0xDD];
    var front := x.dstMac + x.srcMac;
    assert front == f[..12];
    assert Link(x) == front + (if x.tag.Tci? then [0x81, 0x00] + Bytes16(x.tag.tci) else []) + Bytes16(TypeOf(x.net));
    if x.tag.Tci? {
      Cut(f, 12, 14, 16);
      Cut(f, 0, 12, 16);
      Cut(f, 0, 16, 18);
    } else {
      assert front + [] == front;
      Cut(f, 0, 12, 14);
    }
  }

  lemma ReadNet(f: seq<byte>, i: nat, tag: W.Tag) returns (n: Net, end: nat, proto: byte)
    requires 14 <= i <= |f| && NetPresent(f, i) && (tag.Untagged? ==> !(f[i - 2] == 0x81 && f[i - 1] == 0x00))
    ensures NetFits(n, tag) && TypeOf(n) == Net16(f, i - 2)
    ensures i <= end <= |f| && NetHeader(n, tag, proto) == f[i..end]
    ensures UpperPresent(f, end, proto) && (n.NotIp? ==> proto == 0)
  {
    if f[i - 2] == 0x08 && f[i - 1] == 0x00 {
      n := ReadIp4(f, i, tag);
      end, proto := i + 4 * (f[i] % 16) as int, f[i + 9];
    } else if f[i - 2] == 0x86 && f[i - 1] == 0xDD {
      n := ReadIp6(f, i, tag);
      end, proto := i + 40, f[i + 6];
    } else {
      n, end, proto := NotIp(Net16(f, i - 2)), i, 0;
    }
  }

  /** Writing is onto: every frame whose headers are complete and whose IPv4 length field is at least
      five is one of those above, so the laws above speak about all such frames. */
  lemma EveryFrameIsWritten(f: seq<byte>) returns (x: Fields)
    requires HeadersPresent(f)
    ensures Fits(x) && Encode(x) == f
  {
    var tagged := f[12] == 0x81 && f[13] == 0x00;
    var i := if tagged then 18 else 14;
    var tag := if tagged then W.Tci(Net16(f, 14)) else W.Untagged;
    var n, end, proto := ReadNet(f, i, tag);
    var u := ReadUpper(f, end, proto);
    ReadUpperBack(f, end, proto);
    x := Fields(f[0..6], f[6..12], tag, n, u, f[end + |UpperHeader(u)|..]);
    if tagged {
      WordsBack(f, 14);
    }
    ReadLink(f, x, i);
    Cut(f, 0, i, end);
    Cut(f, 0, end, end + |UpperHeader(u)|);
    Cut(f, 0, end + |UpperHeader(u)|, |f|);
    assert f[0..|f|] == f && f[..i] == f[0..i];
  }

  /** Also with a length field below five, which RFC 791 rules out: all three walkers take the ports from
      four times the length field behind the start of the IPv4 header. The key holds addresses and ports as
      a little-endian host loads them. */
  lemma PortsByLengthField(f: seq<byte>, i: nat)
    requires i + 20 <= |f|
    requires || (i == 14 && f[12] == 0x08 && f[13] == 0x00)
             || (i == 18 && f[12] == 0x81 && f[13] == 0x00 && f[16] == 0x08 && f[17] == 0x00)
    requires W.Parsable(f) && f[i + 9] in {6, 17}
    ensures W.Keyable(f)
    ensures var t, p, r, key := i + 4 * (f[i] % 16) as int, f[i + 9], W.Parse(f), W.FlowKey(f);
      && t + 4 <= |f| && r.net.V4? && key.Extracted?
      && (p == 17 ==>
            r.net.l4 == W.Udp(0x100 * f[t] as int + f[t + 1] as int, 0x100 * f[t + 2] as int + f[t + 3] as int))
      && (p == 6 ==> r.net.l4.Tcp? && r.net.l4.srcPort == 0x100 * f[t] as int + f[t + 1] as int
                     && r.net.l4.dstPort == 0x100 * f[t + 2] as int + f[t + 3] as int)
      && key.key.srcIp == f[i + 12] as int + 0x100 * f[i + 13] as int + 0x1_0000 * f[i + 14] as int
                          + 0x100_0000 * f[i + 15] as int
      && key.key.dstIp == f[i + 16] as int + 0x100 * f[i + 17] as int + 0x1_0000 * f[i + 18] as int
                          + 0x100_0000 * f[i + 19] as int
      && key.key.srcPort == f[t] as int + 0x100 * f[t + 1] as int
      && key.key.dstPort == f[t + 2] as int + 0x100 * f[t + 3] as int
      && var port := 0x100 * f[t + 2] as int + f[t + 3] as int;
         W.Control(f) <==> || (p == 17 && t + 8 <= |f| && port in {53, 67, 68, 123, 161})
                           || (p == 6 && t + 20 <= |f| && port in {22, 53, 179, 389})
  {
    assert W.L3(f) == i && W.Proto(f) == f[i + 9] && W.L4(f) == i + 4 * (f[i] % 16) as int;
  }
}
