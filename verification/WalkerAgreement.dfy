/** What the three header walkers have to do with one another, and with the frame's tag and length. */
module WalkerAgreement {
  import opened Bytes
  import opened Ethernet
  import opened HeaderWalkers

  /** The port and protocol table of the classifier, applied to decoded fields. */
  predicate TableSaysControl(n: Network) {
    && n.V4?
    && (|| n.proto == ICMP
        || n.proto == OSPF
        || (n.l4.Udp? && IsControlUdpPort(n.l4.dstPort))
        || (n.l4.Tcp? && IsControlTcpPort(n.l4.dstPort)))
  }

  lemma NetOfSlice(f: seq<byte>, i: nat)
    requires i + 4 <= |f|
    ensures Net32(f[i..i + 4], 0) == Net32(f, i)
  {
    var b := f[i..i + 4];
    assert b[0] == f[i] && b[1] == f[i + 1] && b[2] == f[i + 2] && b[3] == f[i + 3];
  }

  ghost predicate SamePorts(k: Key, l4: Transport) {
    && (l4.Udp? || l4.Tcp? ==> Swap16(k.srcPort) == l4.srcPort && Swap16(k.dstPort) == l4.dstPort)
    && (!l4.Udp? && !l4.Tcp? ==> k.srcPort == k.dstPort == 0)
  }

  lemma PortsAgree(f: seq<byte>)
    requires Parsable(f) && NetType(f) == ETHER_TYPE_IPV4
    ensures SamePorts(FlowKey(f).key, ParseV4(f).0.l4)
  {
    if Proto(f) == UDP || Proto(f) == TCP {
      SwapLoad16(f, L4(f));
      SwapLoad16(f, L4(f) + 2);
    }
  }

  /** parse_packet and the ACL program read the same flow from every frame that holds the bytes they
      read, tagged or not and for any header length: same protocol, addresses and ports. */
  lemma ParserAndKeyAgree(f: seq<byte>)
    requires Parsable(f)
    ensures Keyable(f)
    ensures FlowKey(f).Extracted? <==> Parse(f).net.V4?
    ensures FlowKey(f).Extracted? ==>
      var (k, n) := (FlowKey(f).key, Parse(f).net);
      && k.proto == n.proto && SamePorts(k, n.l4)
      && |n.src| == |n.dst| == 4
      && Swap32(k.srcIp) == Net32(n.src, 0) && Swap32(k.dstIp) == Net32(n.dst, 0)
  {
    if NetType(f) == ETHER_TYPE_IPV4 {
      PortsAgree(f);
      SwapLoad32(f, L3(f) + 12);
      SwapLoad32(f, L3(f) + 16);
      NetOfSlice(f, L3(f) + 12);
      NetOfSlice(f, L3(f) + 16);
      assert Parse(f).net == ParseV4(f).0;
    }
  }

  /** The parser's uint16_t offset never wraps: 14 + 4 link bytes, 60 of IPv4, 60 of TCP. */
  lemma OffsetFits(f: seq<byte>)
    requires Parsable(f)
    ensures ETH_LEN <= Parse(f).offset <= 138
  {
    if NetType(f) == ETHER_TYPE_IPV4 {
      assert Parse(f).offset == L4(f) + ParseTransport(f, L4(f), Proto(f)).1;
    }
  }

  /** classify_packet is its table applied to what parse_packet decodes, except that it also asks for
      the whole UDP or TCP header before it looks at a port. */
  lemma ClassifierIsTableOfParser(f: seq<byte>)
    requires Parsable(f)
    ensures Control(f) <==>
      && TableSaysControl(Parse(f).net)
      && (Parse(f).net.l4.Udp? ==> L4(f) + UDP_LEN <= |f|)
      && (Parse(f).net.l4.Tcp? ==> L4(f) + TCP_LEN <= |f|)
  {
  }

  /** An 802.1Q tag put in front of the ether type. */
  function InsertTag(f: seq<byte>, tci: u16): (g: seq<byte>)
    requires 12 <= |f|
    ensures |g| == |f| + VLAN_LEN
    ensures forall j :: 0 <= j < 12 ==> g[j] == f[j]
    ensures Net16(g, 12) == ETHER_TYPE_VLAN && Net16(g, 14) == tci
    ensures forall j :: 12 <= j < |f| ==> g[j + VLAN_LEN] == f[j]
  {
    f[..12] + [0x81, 0x00] + Bytes16(tci) + f[12..]
  }

  lemma TagShifts(f: seq<byte>, tci: u16, i: nat)
    requires 12 <= i && i + 2 <= |f|
    ensures Net16(InsertTag(f, tci), i + VLAN_LEN) == Net16(f, i)
  {
    var g := InsertTag(f, tci);
    assert g[i + VLAN_LEN] == f[i] && g[i + 1 + VLAN_LEN] == f[i + 1];
  }

  /** The classifier does not see one tag: inserting it changes the verdict if and only if the frame was
      tagged control traffic before, since a second tag is not looked through. */
  lemma TagDoesNotMatter(f: seq<byte>, tci: u16)
    requires 12 <= |f|
    ensures Control(InsertTag(f, tci)) <==> Control(f) && !Tagged(f)
  {
    var g := InsertTag(f, tci);
    if ETH_LEN <= |f| {
      TagShifts(f, tci, 12);
      if !Tagged(f) && HasIpv4(f) {
        assert g[L3(g) + 9] == f[L3(f) + 9] && g[L3(g)] == f[L3(f)];
        if L4(f) + 4 <= |f| {
          TagShifts(f, tci, L4(f) + 2);
        }
      }
    }
  }

  lemma TagShiftsWord(f: seq<byte>, tci: u16, i: nat)
    requires 12 <= i && i + 4 <= |f|
    ensures Net32(InsertTag(f, tci), i + VLAN_LEN) == Net32(f, i)
    ensures InsertTag(f, tci)[i + VLAN_LEN..i + VLAN_LEN + 4] == f[i..i + 4]
  {
    TagShifts(f, tci, i);
    TagShifts(f, tci, i + 2);
    Net32Injective(InsertTag(f, tci), i + VLAN_LEN, f, i);
  }

  lemma TagKeepsLayout(f: seq<byte>, tci: u16)
    requires HasIpv4(f) && !Tagged(f)
    ensures var g := InsertTag(f, tci);
      HasIpv4(g) && L3(g) == L3(f) + VLAN_LEN && L4(g) == L4(f) + VLAN_LEN && Proto(g) == Proto(f)
  {
    var g := InsertTag(f, tci);
    TagShifts(f, tci, 12);
    assert g[ETH_LEN + VLAN_LEN] == f[ETH_LEN] && g[ETH_LEN + 9 + VLAN_LEN] == f[ETH_LEN + 9];
  }

  lemma TagShiftsByte(f: seq<byte>, tci: u16, i: nat)
    requires 12 <= i < |f|
    ensures InsertTag(f, tci)[i + VLAN_LEN] == f[i]
  {
  }

  lemma TransportSeesThroughTag(f: seq<byte>, tci: u16, t: nat, p: byte)
    requires HasTransport(f, t, p) && 12 <= t && 12 <= |f|
    ensures HasTransport(InsertTag(f, tci), t + VLAN_LEN, p)
    ensures ParseTransport(InsertTag(f, tci), t + VLAN_LEN, p) == ParseTransport(f, t, p)
  {
    if p == UDP || p == TCP {
      TagShifts(f, tci, t);
      TagShifts(f, tci, t + 2);
    }
    if p == TCP {
      TagShiftsWord(f, tci, t + 4);
      TagShiftsWord(f, tci, t + 8);
      TagShiftsByte(f, tci, t + 12);
      TagShiftsByte(f, tci, t + 13);
    }
    if p == ICMP {
      TagShiftsByte(f, tci, t);
      TagShiftsByte(f, tci, t + 1);
    }
  }

  lemma ParseV4FromParts(f: seq<byte>, g: seq<byte>)
    requires HasIpv4(f) && HasIpv4(g)
    requires L4(g) == L4(f) + VLAN_LEN && Proto(g) == Proto(f)
    requires f[L3(f) + 12..L3(f) + 16] == g[L3(g) + 12..L3(g) + 16]
    requires f[L3(f) + 16..L3(f) + 20] == g[L3(g) + 16..L3(g) + 20]
    requires HasTransport(f, L4(f), Proto(f)) && HasTransport(g, L4(g), Proto(g))
    requires ParseTransport(g, L4(g), Proto(g)) == ParseTransport(f, L4(f), Proto(f))
    ensures ParseV4(g) == (ParseV4(f).0, ParseV4(f).1 + VLAN_LEN)
  {
  }

  lemma ParseV4SeesThroughTag(f: seq<byte>, tci: u16)
    requires Parsable(f) && !Tagged(f) && NetType(f) == ETHER_TYPE_IPV4
    ensures Parsable(InsertTag(f, tci)) && NetType(InsertTag(f, tci)) == ETHER_TYPE_IPV4
    ensures ParseV4(InsertTag(f, tci)) == (ParseV4(f).0, ParseV4(f).1 + VLAN_LEN)
  {
    TagKeepsLayout(f, tci);
    TagShiftsWord(f, tci, L3(f) + 12);
    TagShiftsWord(f, tci, L3(f) + 16);
    TransportSeesThroughTag(f, tci, L4(f), Proto(f));
    ParseV4FromParts(f, InsertTag(f, tci));
  }

  lemma ParseV6SeesThroughTag(f: seq<byte>, tci: u16)
    requires Parsable(f) && !Tagged(f) && NetType(f) == ETHER_TYPE_IPV6
    ensures Parsable(InsertTag(f, tci)) && NetType(InsertTag(f, tci)) == ETHER_TYPE_IPV6
    ensures ParseV6(InsertTag(f, tci)) == (ParseV6(f).0, ParseV6(f).1 + VLAN_LEN)
  {
    var g := InsertTag(f, tci);
    TagShifts(f, tci, 12);
    var ip := ETH_LEN;
    assert g[ip + 6 + VLAN_LEN] == f[ip + 6];
    assert g[ip + 8 + VLAN_LEN..ip + 24 + VLAN_LEN] == f[ip + 8..ip + 24];
    assert g[ip + 24 + VLAN_LEN..ip + 40 + VLAN_LEN] == f[ip + 24..ip + 40];
    if f[ip + 6] == UDP || f[ip + 6] == TCP {
      TagShifts(f, tci, ip + IPV6_LEN);
      TagShifts(f, tci, ip + IPV6_LEN + 2);
    }
  }

  /** Likewise for the parser: an untagged frame and its tagged copy decode alike. */
  lemma ParserSeesThroughTag(f: seq<byte>, tci: u16)
    requires Parsable(f) && !Tagged(f)
    ensures Parsable(InsertTag(f, tci))
    ensures Parse(InsertTag(f, tci)) == Parse(f).(tag := Tci(tci), offset := Parse(f).offset + VLAN_LEN)
  {
    var g := InsertTag(f, tci);
    TagShifts(f, tci, 12);
    if NetType(f) == ETHER_TYPE_IPV4 {
      ParseV4SeesThroughTag(f, tci);
    } else if NetType(f) == ETHER_TYPE_IPV6 {
      ParseV6SeesThroughTag(f, tci);
    }
    assert g[6..12] == f[6..12] && g[0..6] == f[0..6];
  }

  /** Appending bytes to control traffic leaves it control. */
  lemma ControlIsPrefixMonotone(f: seq<byte>, more: seq<byte>)
    requires Control(f)
    ensures Control(f + more)
  {
    var g := f + more;
    assert forall j :: 0 <= j < |f| ==> g[j] == f[j];
    assert Net16(g, 12) == Net16(f, 12) && L3(g) == L3(f) && NetType(g) == NetType(f);
    assert Proto(g) == Proto(f) && L4(g) == L4(f);
  }

  /** Conversely, bytes behind the longest possible headers never decide: 14 + 4 link bytes, 60 of IPv4
      and 20 of TCP. */
  lemma VerdictNeedsOnly98Bytes(f: seq<byte>)
    requires 98 <= |f|
    ensures Control(f) <==> Control(f[..98])
  {
    var g := f[..98];
    if Control(g) {
      ControlIsPrefixMonotone(g, f[98..]);
      assert g + f[98..] == f;
    }
    if Control(f) {
      assert Net16(g, 12) == Net16(f, 12) && L3(g) == L3(f) && NetType(g) == NetType(f);
      assert Proto(g) == Proto(f) && L4(g) == L4(f);
    }
  }
}
