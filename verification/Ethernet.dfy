/** The link-layer constants every packet program uses. */
module Ethernet {
  import opened Bytes

  const ETHER_TYPE_VLAN: u16 := 0x8100
  const ETHER_TYPE_IPV4: u16 := 0x0800
  const ETHER_TYPE_IPV6: u16 := 0x86DD

  /** sizeof(struct rte_ether_hdr), and of the 802.1Q tag behind it. */
  const ETH_LEN: nat := 14
  const VLAN_LEN: nat := 4
}
