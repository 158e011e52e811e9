/** Three independent walkers of Ethernet / 802.1Q / IPv4 / L4 headers: parse_packet, the flow-key
    extraction of the ACL program, and classify_packet. Only the last one checks lengths. */
module HeaderWalkers {
  import opened Bytes
  import opened Ethernet

  const ICMP: int := 1
  const TCP: int := 6
  const UDP: int := 17
  const OSPF: int := 89

  const IPV4_LEN: nat := 20
  const IPV6_LEN: nat := 40
  const UDP_LEN: nat := 8
  const TCP_LEN: nat := 20
  const ICMP_LEN: nat := 8

  // ---------------------------------------------------------------- where headers are

  predicate Tagged(f: seq<byte>)
    requires ETH_LEN <= |f|
  {
    Net16(f, 12) == ETHER_TYPE_VLAN
  }

  /** The frame holds its link-layer headers. */
  predicate HasLink(f: seq<byte>) {
    ETH_LEN <= |f| && (Tagged(f) ==> ETH_LEN + VLAN_LEN <= |f|)
  }

  /** Offset of the network header. */
  function L3(f: seq<byte>): nat
    requires HasLink(f)
  {
    if Tagged(f) then ETH_LEN + VLAN_LEN else ETH_LEN
  }

  /** The ether type in front of the network header. */
  function NetType(f: seq<byte>): u16
    requires HasLink(f)
  {
    Net16(f, L3(f) - 2)
  }

  predicate HasIpv4(f: seq<byte>) {
    HasLink(f) && NetType(f) == ETHER_TYPE_IPV4 && L3(f) + IPV4_LEN <= |f|
  }

  function Proto(f: seq<byte>): byte
    requires HasIpv4(f)
  {
    f[L3(f) + 9]
  }

  /** Offset of the transport header, by the length field. */
  function L4(f: seq<byte>): nat
    requires HasIpv4(f)
  {
    L3(f) + (f[L3(f)] % 16) as nat * 4
  }

  // ---------------------------------------------------------------- parse_packet

  datatype Transport =
    | NoTransport
    | Udp(srcPort: u16, dstPort: u16)
    | Tcp(srcPort: u16, dstPort: u16, seqNum: u32, ackNum: u32, flags: byte)
    | Icmp(kind: byte, code: byte)

  datatype Network =
    | NoNetwork
    | V4(src: seq<byte>, dst: seq<byte>, proto: byte, l4: Transport)
    | V6(src: seq<byte>, dst: seq<byte>, proto: byte, l4: Transport)

  datatype Tag = Untagged | Tci(tci: u16)

  /** Everything parse_packet prints, and its final offset. */
  datatype Parsed = Parsed(srcMac: seq<byte>, dstMac: seq<byte>, tag: Tag, net: Network, offset: nat)

  /** The transport fields parse_packet prints for protocol p at offset t of an IPv4 packet are there. */
  predicate HasTransport(f: seq<byte>, t: nat, p: byte) {
    (p == UDP ==> t + 4 <= |f|) && (p == TCP ==> t + 14 <= |f|) && (p == ICMP ==> t + 2 <= |f|)
  }

  /** The bytes parse_packet reads are there; it checks none of this itself. */
  predicate Parsable(f: seq<byte>) {
    && HasLink(f)
    && (NetType(f) == ETHER_TYPE_IPV4 ==>
          L3(f) + IPV4_LEN <= |f| && HasTransport(f, L4(f), Proto(f)))
    && (NetType(f) == ETHER_TYPE_IPV6 ==>
          && L3(f) + IPV6_LEN <= |f|
          && (f[L3(f) + 6] == UDP || f[L3(f) + 6] == TCP ==> L3(f) + IPV6_LEN + 4 <= |f|))
  }

  /** The decoded transport header and the length the offset moves over it. */
  function ParseTransport(f: seq<byte>, t: nat, p: byte): (Transport, nat)
    requires HasTransport(f, t, p)
  {
    if p == UDP then (Udp(Net16(f, t), Net16(f, t + 2)), UDP_LEN)
    else if p == TCP then
      (Tcp(Net16(f, t), Net16(f, t + 2), Net32(f, t + 4), Net32(f, t + 8), f[t + 13]), (f[t + 12] / 16) as nat * 4)
    else if p == ICMP then (Icmp(f[t], f[t + 1]), ICMP_LEN)
    else (NoTransport, 0)
  }

  function ParseV4(f: seq<byte>): (Network, nat)
    requires Parsable(f) && NetType(f) == ETHER_TYPE_IPV4
  {
    var (l4, len) := ParseTransport(f, L4(f), Proto(f));
    (V4(f[L3(f) + 12..L3(f) + 16], f[L3(f) + 16..L3(f) + 20], Proto(f), l4), L4(f) + len)
  }

  function ParseV6(f: seq<byte>): (Network, nat)
    requires Parsable(f) && NetType(f) == ETHER_TYPE_IPV6
  {
    var ip := L3(f);
    var (t, p) := (ip + IPV6_LEN, f[ip + 6]);
    var (l4, len) :=
      if p == UDP then (Udp(Net16(f, t), Net16(f, t + 2)), UDP_LEN)
      else if p == TCP then (Tcp(Net16(f, t), Net16(f, t + 2), 0, 0, 0), TCP_LEN)
      else (NoTransport, 0);
    (V6(f[ip + 8..ip + 24], f[ip + 24..ip + 40], p, l4), t + len)
  }

  function Parse(f: seq<byte>): Parsed
    requires Parsable(f)
  {
    var (net, offset) :=
      if NetType(f) == ETHER_TYPE_IPV4 then ParseV4(f)
      else if NetType(f) == ETHER_TYPE_IPV6 then ParseV6(f)
      else (NoNetwork, L3(f));
    Parsed(f[6..12], f[0..6], if Tagged(f) then Tci(Net16(f, 14)) else Untagged, net, offset)
  }

  method ParsePacket(pkt: seq<byte>) returns (r: Parsed)
    requires Parsable(pkt)
    ensures r == Parse(pkt)
  {
    SwapLoad16(pkt, 12);
    var ethType := Swap16(Load16(pkt, 12));
    var offset := ETH_LEN;
    var tag := Untagged;
    if ethType == ETHER_TYPE_VLAN {
      SwapLoad16(pkt, offset);
      SwapLoad16(pkt, offset + 2);
      tag := Tci(Swap16(Load16(pkt, offset)));
      ethType := Swap16(Load16(pkt, offset + 2));
      offset := offset + VLAN_LEN;
    }
    var net := NoNetwork;
    if ethType == ETHER_TYPE_IPV4 {
      net, offset := ParseIpv4(pkt, offset);
    } else if ethType == ETHER_TYPE_IPV6 {
      net, offset := ParseIpv6(pkt, offset);
    }
    r := Parsed(pkt[6..12], pkt[0..6], tag, net, offset);
  }

  method ParseIpv4(pkt: seq<byte>, ip: nat) returns (net: Network, offset: nat)
    requires Parsable(pkt) && NetType(pkt) == ETHER_TYPE_IPV4 && ip == L3(pkt)
    ensures (net, offset) == ParseV4(pkt)
  {
    var proto := pkt[ip + 9];
    offset := ip + (pkt[ip] % 16) as nat * 4;
    var l4, len := DecodeTransport(pkt, offset, proto);
    offset := offset + len;
    net := V4(pkt[ip + 12..ip + 16], pkt[ip + 16..ip + 20], proto, l4);
  }

  method DecodeTransport(pkt: seq<byte>, t: nat, proto: byte) returns (l4: Transport, len: nat)
    requires HasTransport(pkt, t, proto)
    ensures (l4, len) == ParseTransport(pkt, t, proto)
  {
    l4, len := NoTransport, 0;
    if proto == UDP {
      SwapLoad16(pkt, t);
      SwapLoad16(pkt, t + 2);
      l4, len := Udp(Swap16(Load16(pkt, t)), Swap16(Load16(pkt, t + 2))), UDP_LEN;
    } else if proto == TCP {
      SwapLoad16(pkt, t);
      SwapLoad16(pkt, t + 2);
      SwapLoad32(pkt, t + 4);
      SwapLoad32(pkt, t + 8);
      l4 := Tcp(Swap16(Load16(pkt, t)), Swap16(Load16(pkt, t + 2)),
                Swap32(Load32(pkt, t + 4)), Swap32(Load32(pkt, t + 8)), pkt[t + 13]);
      len := (pkt[t + 12] / 16) as nat * 4;
    } else if proto == ICMP {
      l4, len := Icmp(pkt[t], pkt[t + 1]), ICMP_LEN;
    }
  }

  method ParseIpv6(pkt: seq<byte>, ip: nat) returns (net: Network, offset: nat)
    requires Parsable(pkt) && NetType(pkt) == ETHER_TYPE_IPV6 && ip == L3(pkt)
    ensures (net, offset) == ParseV6(pkt)
  {
    var proto := pkt[ip + 6];
    offset := ip + IPV6_LEN;
    var l4 := NoTransport;
    if proto == UDP {
      SwapLoad16(pkt, offset);
      SwapLoad16(pkt, offset + 2);
      l4 := Udp(Swap16(Load16(pkt, offset)), Swap16(Load16(pkt, offset + 2)));
      offset := offset + UDP_LEN;
    } else if proto == TCP {
      SwapLoad16(pkt, offset);
      SwapLoad16(pkt, offset + 2);
      l4 := Tcp(Swap16(Load16(pkt, offset)), Swap16(Load16(pkt, offset + 2)), 0, 0, 0);
      offset := offset + TCP_LEN;
    }
    net := V6(pkt[ip + 8..ip + 24], pkt[ip + 24..ip + 40], proto, l4);
  }

  // ---------------------------------------------------------------- the ACL flow key

  /** struct pkt_key: addresses and ports stay as loaded, in network byte order. */
  datatype Key = Key(proto: byte, srcIp: u32, dstIp: u32, srcPort: u16, dstPort: u16)
  datatype KeyResult = Freed | Extracted(key: Key)

  predicate Keyable(f: seq<byte>) {
    && HasLink(f)
    && (NetType(f) == ETHER_TYPE_IPV4 ==>
          L3(f) + IPV4_LEN <= |f| && (Proto(f) == UDP || Proto(f) == TCP ==> L4(f) + 4 <= |f|))
  }

  function FlowKey(f: seq<byte>): KeyResult
    requires Keyable(f)
  {
    if NetType(f) != ETHER_TYPE_IPV4 then Freed
    else
      var (ip, t, p) := (L3(f), L4(f), Proto(f));
      var hasPorts := p == TCP || p == UDP;
      Extracted(Key(p, Load32(f, ip + 12), Load32(f, ip + 16),
                    if hasPorts then Load16(f, t) else 0, if hasPorts then Load16(f, t + 2) else 0))
  }

  method ExtractKey(pkt: seq<byte>) returns (r: KeyResult)
    requires Keyable(pkt)
    ensures r == FlowKey(pkt)
  {
    var ethType := Load16(pkt, 12);
    var ptr := ETH_LEN;
    RawTypeTest(pkt, 12, ETHER_TYPE_VLAN);
    if ethType == Swap16(ETHER_TYPE_VLAN) {
      ptr := ptr + VLAN_LEN;
      ethType := Load16(pkt, ptr - 2);
    }
    RawTypeTest(pkt, ptr - 2, ETHER_TYPE_IPV4);
    if ethType != Swap16(ETHER_TYPE_IPV4) {
      return Freed;
    }
    var key := Key(pkt[ptr + 9], Load32(pkt, ptr + 12), Load32(pkt, ptr + 16), 0, 0);
    var l4 := ptr + (pkt[ptr] % 16) as nat * 4;
    if key.proto == TCP {
      key := key.(srcPort := Load16(pkt, l4), dstPort := Load16(pkt, l4 + 2));
    } else if key.proto == UDP {
      key := key.(srcPort := Load16(pkt, l4), dstPort := Load16(pkt, l4 + 2));
    }
    return Extracted(key);
  }

  /** Comparing a loaded type with a swapped constant compares the network-order numbers. */
  lemma RawTypeTest(f: seq<byte>, i: nat, t: u16)
    requires i + 2 <= |f|
    ensures Load16(f, i) == Swap16(t) <==> Net16(f, i) == t
  {
    SwapLoad16(f, i);
    SwapTwice16(t);
    SwapTwice16(Load16(f, i));
  }

  // ---------------------------------------------------------------- classify_packet

  predicate IsControlTcpPort(port: u16) { port == 22 || port == 53 || port == 179 || port == 389 }
  predicate IsControlUdpPort(port: u16) { port == 53 || port == 67 || port == 68 || port == 123 || port == 161 }

  /** Control traffic: ICMP and OSPF by protocol, UDP and TCP by destination port, provided the frame
      holds the whole transport header. Short frames and everything else are data. */
  predicate Control(f: seq<byte>) {
    && HasIpv4(f)
    && (|| Proto(f) == ICMP
        || Proto(f) == OSPF
        || (Proto(f) == UDP && L4(f) + UDP_LEN <= |f| && IsControlUdpPort(Net16(f, L4(f) + 2)))
        || (Proto(f) == TCP && L4(f) + TCP_LEN <= |f| && IsControlTcpPort(Net16(f, L4(f) + 2))))
  }

  /** No precondition: every read is below the data length, whatever the frame. */
  method ClassifyPacket(pkt: seq<byte>) returns (control: bool)
    ensures control == Control(pkt)
  {
    if |pkt| < ETH_LEN {
      return false;
    }
    SwapLoad16(pkt, 12);
    var ethType := Swap16(Load16(pkt, 12));
    var offset := ETH_LEN;
    if ethType == ETHER_TYPE_VLAN {
      if |pkt| < offset + VLAN_LEN {
        return false;
      }
      SwapLoad16(pkt, offset + 2);
      ethType := Swap16(Load16(pkt, offset + 2));
      offset := offset + VLAN_LEN;
    }
    if ethType != ETHER_TYPE_IPV4 {
      return false;
    }
    if |pkt| < offset + IPV4_LEN {
      return false;
    }
    var proto := pkt[offset + 9];
    offset := offset + (pkt[offset] % 16) as nat * 4;
    if proto == ICMP {
      return true;
    }
    if proto == OSPF {
      return true;
    }
    if proto == UDP {
      if |pkt| < offset + UDP_LEN {
        return false;
      }
      SwapLoad16(pkt, offset + 2);
      return IsControlUdpPort(Swap16(Load16(pkt, offset + 2)));
    }
    if proto == TCP {
      if |pkt| < offset + TCP_LEN {
        return false;
      }
      SwapLoad16(pkt, offset + 2);
      return IsControlTcpPort(Swap16(Load16(pkt, offset + 2)));
    }
    return false;
  }
}
