/*
 * The relay decisions of udpfwd_xmit.c: a BOOTREQUEST is stamped (hops,
 * giaddr) and sent to every DHCP server of the receiving interface, a
 * BOOTREPLY is sent to the client on the interface that giaddr names
 * (section 4.1 of RFC 1542).
 *
 * The packet is the receive buffer, updated in place; the in_pktinfo the
 * sends carry is an object whose fields the relay rewrites. Sends are
 * returned as events. The interface lookups (if_indextoname,
 * getIpAddressfromIfname, getIfIndexfromIpAddress) are parameters.
 */
module RelayXmit {
  import opened Common
  import opened DhcpLayout
  import opened OptionScan
  import opened ServerTables
  import opened UdpfwdConfig

  /** `(uint32_t)-1`, the index no interface has. */
  const NO_IFINDEX: u32 := 0xFFFF_FFFF

  /** struct in_pktinfo: interface index, local (source) address and the
      destination address of the received datagram. */
  datatype Info = Info(ifindex: u32, specDst: IPv4, addr: IPv4)

  class PktInfo {
    var ifindex: u32
    var specDst: IPv4
    var addr: IPv4

    constructor (info: Info)
      ensures Value() == info
    {
      ifindex, specDst, addr := info.ifindex, info.specDst, info.addr;
    }

    function Value(): Info
      reads this
    {
      Info(ifindex, specDst, addr)
    }
  }

  /** One sendmsg: destination address and UDP port, and the packet info
      passed with it. */
  datatype Send = Send(to: IPv4, port: u16, info: Info)

  /** if_indextoname after the `-1` check. */
  function IfName(ifName: u32 -> Option<string>, idx: u32): Option<string>
  {
    if idx == NO_IFINDEX then None else ifName(idx)
  }

  // ---------------------------------------------------------------------
  // Requests.

  /** The servers with UDP port 67 among the slots, in slot order. */
  function DhcpServers(slots: seq<Option<ServerKey>>): (r: seq<IPv4>)
    ensures |r| <= |slots|
  {
    if slots == [] then []
    else
      DhcpServers(slots[..|slots| - 1]) +
        match slots[|slots| - 1]
        case Some(k) => if k.udpPort == DHCPS_PORT then [k.ip] else []
        case None => []
  }

  /** A server is sent the request exactly when one of the slots holds it
      with port 67. */
  lemma {:induction false} DhcpServersExact(slots: seq<Option<ServerKey>>, ip: IPv4)
    ensures ip in DhcpServers(slots) <==> exists i :: 0 <= i < |slots| && slots[i] == Some(ServerKey(ip, DHCPS_PORT))
  {
    if slots != [] {
      var init, last := slots[..|slots| - 1], slots[|slots| - 1];
      DhcpServersExact(init, ip);
      var tail := match last
        case Some(k) => if k.udpPort == DHCPS_PORT then [k.ip] else []
        case None => [];
      assert DhcpServers(slots) == DhcpServers(init) + tail;
      assert ip in tail <==> last == Some(ServerKey(ip, DHCPS_PORT));
      if ip in DhcpServers(init) {
        var i :| 0 <= i < |init| && init[i] == Some(ServerKey(ip, DHCPS_PORT));
        assert slots[i] == init[i];
      } else if last != Some(ServerKey(ip, DHCPS_PORT)) {
        forall i | 0 <= i < |slots|
          ensures slots[i] != Some(ServerKey(ip, DHCPS_PORT))
        {
          if i < |init| {
            assert init[i] == slots[i];
          }
        }
      }
    }
  }

  /** The packet info after the relay prepared a send to a server: index 0
      and, for a datagram received without a destination address, the
      interface address as the source. */
  function Stamped(info: Info, interfaceIp: IPv4): Info
  {
    Info(0, if info.addr == 0 then interfaceIp else info.specDst, info.addr)
  }

  /** One send to port 67 for each address, in order. */
  function ServerSends(ips: seq<IPv4>, info: Info): seq<Send>
  {
    seq(|ips|, i requires 0 <= i < |ips| => Send(ips[i], DHCPS_PORT, info))
  }

  /** What udpfwd_relay_to_dhcp_server leaves: the verdict, the packet,
      the packet info and the sends. */
  datatype ServerRelay = ServerRelay(ok: bool, buf: seq<byte>, info: Info, sends: seq<Send>)

  /** The packet with the hop count incremented as an 8-bit field. */
  function Hopped(buf: seq<byte>): seq<byte>
    requires |buf| >= OFF_OPTIONS
  {
    buf[OFF_HOPS := (buf[OFF_HOPS] as int + 1) % 0x100]
  }

  /** The packet with giaddr set to `ip` when it was 0.0.0.0; a giaddr
      another relay has set is kept. */
  function WithGiaddr(buf: seq<byte>, ip: IPv4): (r: seq<byte>)
    requires |buf| >= OFF_OPTIONS
    ensures |r| == |buf| && Giaddr(r) == if Giaddr(buf) == 0 then ip else Giaddr(buf)
    ensures forall i :: 0 <= i < |buf| && !(OFF_GIADDR <= i < OFF_GIADDR + 4) ==> r[i] == buf[i]
  {
    if Giaddr(buf) == 0 then SetField32(buf, OFF_GIADDR, ip) else buf
  }

  /** udpfwd_relay_to_dhcp_server on values. The hop count is incremented
      before it is tested, so a discarded request also has it incremented. */
  function ToServer(buf: seq<byte>, info: Info, t: map<string, IntfNode<ServerKey>>,
                    ifName: u32 -> Option<string>, ipOf: string -> IPv4): (r: ServerRelay)
    requires |buf| >= OFF_OPTIONS
    ensures |r.buf| == |buf|
    ensures IfName(ifName, info.ifindex).None? || ipOf(IfName(ifName, info.ifindex).value) == 0
      ==> r == ServerRelay(false, buf, info, [])
    ensures IfName(ifName, info.ifindex).Some? && ipOf(IfName(ifName, info.ifindex).value) != 0 ==>
      (r.buf[OFF_HOPS] == (buf[OFF_HOPS] as int + 1) % 0x100 &&
       (buf[OFF_HOPS] > UDPFWD_DHCP_MAX_HOPS ==> !r.ok && r.sends == [] && r.info == info))
    ensures r.ok ==> buf[OFF_HOPS] <= UDPFWD_DHCP_MAX_HOPS && r.buf[OFF_HOPS] == buf[OFF_HOPS] + 1
    ensures r.ok ==> var ip := ipOf(IfName(ifName, info.ifindex).value);
      ip != 0 && Giaddr(r.buf) == if Giaddr(buf) == 0 then ip else Giaddr(buf)
    ensures forall i :: 0 <= i < |buf| && i != OFF_HOPS && !(OFF_GIADDR <= i < OFF_GIADDR + 4) ==> r.buf[i] == buf[i]
    ensures !r.ok ==> r.sends == [] && r.info == info
  {
    match IfName(ifName, info.ifindex)
    case None => ServerRelay(false, buf, info, [])
    case Some(name) =>
      var ip := ipOf(name);
      if ip == 0 then ServerRelay(false, buf, info, [])
      else
        var buf1 := Hopped(buf);
        if buf[OFF_HOPS] > UDPFWD_DHCP_MAX_HOPS then ServerRelay(false, buf1, info, [])
        else
          assert Giaddr(buf1) == Giaddr(buf);
          var buf2 := WithGiaddr(buf1, ip);
          if name !in t then ServerRelay(false, buf2, info, [])
          else
            var servers := DhcpServers(Slots(t[name]));
            ServerRelay(true, buf2, if servers == [] then info else Stamped(info, ip), ServerSends(servers, Stamped(info, ip)))
  }

  /** A relayed request goes, once each and in slot order, to the port-67
      servers of the receiving interface, and to nothing else. */
  lemma ToServerSendsToDhcpServers(buf: seq<byte>, info: Info, t: map<string, IntfNode<ServerKey>>,
                                   ifName: u32 -> Option<string>, ipOf: string -> IPv4, ip: IPv4)
    requires |buf| >= OFF_OPTIONS
    ensures var r := ToServer(buf, info, t, ifName, ipOf);
      r.ok ==> var name := IfName(ifName, info.ifindex).value;
        name in t &&
        (forall s :: s in r.sends ==> s.port == DHCPS_PORT && s.info.ifindex == 0) &&
        ((exists s :: s in r.sends && s.to == ip) <==>
          exists i :: 0 <= i < |Slots(t[name])| && Slots(t[name])[i] == Some(ServerKey(ip, DHCPS_PORT)))
  {
    var r := ToServer(buf, info, t, ifName, ipOf);
    if r.ok {
      var name := IfName(ifName, info.ifindex).value;
      var servers := DhcpServers(Slots(t[name]));
      DhcpServersExact(Slots(t[name]), ip);
      if ip in servers {
        var k :| 0 <= k < |servers| && servers[k] == ip;
        assert r.sends[k] in r.sends;
      }
    }
  }

  /** The post-increment of pkt_dhcp->hops. */
  method IncrementHops(pkt: array<byte>)
    requires pkt.Length >= OFF_OPTIONS
    modifies pkt
    ensures pkt[..] == Hopped(old(pkt[..]))
  {
    pkt[OFF_HOPS] := (pkt[OFF_HOPS] as int + 1) % 0x100;
  }

  /** The giaddr stamp of udpfwd_relay_to_dhcp_server. */
  method StampGiaddr(pkt: array<byte>, interfaceIp: IPv4)
    requires pkt.Length >= OFF_OPTIONS
    modifies pkt
    ensures pkt[..] == WithGiaddr(old(pkt[..]), interfaceIp)
  {
    if Giaddr(pkt[..]) == 0 {
      ghost var before := pkt[..];
      var o := Octets(interfaceIp);
      pkt[OFF_GIADDR] := o[0];
      pkt[OFF_GIADDR + 1] := o[1];
      pkt[OFF_GIADDR + 2] := o[2];
      pkt[OFF_GIADDR + 3] := o[3];
      assert pkt[..] == SetField32(before, OFF_GIADDR, interfaceIp);
    }
  }

  /** The send loop of udpfwd_relay_to_dhcp_server: each slot in use whose
      server has port 67 is sent the packet, with the packet info stamped
      first. */
  method SendToServers(intfNode: IntfNode<ServerKey>, info: PktInfo, interfaceIp: IPv4)
    returns (sends: seq<Send>)
    requires NodeOk(intfNode, MAX_UDP_BCAST_SERVER_PER_INTERFACE)
    modifies info
    ensures var servers := DhcpServers(Slots(intfNode));
      sends == ServerSends(servers, Stamped(old(info.Value()), interfaceIp)) &&
      info.Value() == if servers == [] then old(info.Value()) else Stamped(old(info.Value()), interfaceIp)
  {
    ghost var slots := Slots(intfNode);
    ghost var info0 := info.Value();
    sends := [];
    ghost var ips: seq<IPv4> := [];
    var iter := 0;
    while iter < intfNode.addrCount
      invariant iter <= intfNode.addrCount
      invariant ips == DhcpServers(slots[..iter])
      invariant sends == ServerSends(ips, Stamped(info0, interfaceIp))
      invariant info.Value() == if ips == [] then info0 else Stamped(info0, interfaceIp)
    {
      assert slots[iter] == intfNode.serverArray.value[iter];
      var server := intfNode.serverArray.value[iter].value;
      DhcpServersStep(slots, iter);
      sends, ips := SendIfDhcp(server, info, interfaceIp, info0, sends, ips);
      iter := iter + 1;
    }
    assert slots[..iter] == slots;
  }

  /** One turn of the send loop: a server on port 67 gets the stamped packet
      info and a send; any other server is skipped. */
  method SendIfDhcp(server: ServerKey, info: PktInfo, interfaceIp: IPv4, ghost info0: Info,
                    sends: seq<Send>, ghost ips: seq<IPv4>)
    returns (sends': seq<Send>, ghost ips': seq<IPv4>)
    requires sends == ServerSends(ips, Stamped(info0, interfaceIp))
    requires info.Value() == if ips == [] then info0 else Stamped(info0, interfaceIp)
    modifies info
    ensures ips' == ips + (if server.udpPort == DHCPS_PORT then [server.ip] else [])
    ensures sends' == ServerSends(ips', Stamped(info0, interfaceIp))
    ensures info.Value() == if ips' == [] then info0 else Stamped(info0, interfaceIp)
  {
    sends', ips' := sends, ips;
    if server.udpPort == DHCPS_PORT {
      StampInfo(info, interfaceIp);
      ServerSendsSnoc(ips, server.ip, Stamped(info0, interfaceIp));
      sends' := sends + [Send(server.ip, DHCPS_PORT, info.Value())];
      ips' := ips + [server.ip];
    }
  }

  /** The packet info as the send loop sets it before each send. */
  method StampInfo(info: PktInfo, interfaceIp: IPv4)
    modifies info
    ensures info.Value() == Stamped(old(info.Value()), interfaceIp)
  {
    if info.addr == 0 {
      info.specDst := interfaceIp;
    }
    info.ifindex := 0;
  }

  lemma DhcpServersStep(slots: seq<Option<ServerKey>>, iter: nat)
    requires iter < |slots| && slots[iter].Some?
    ensures DhcpServers(slots[..iter + 1]) == DhcpServers(slots[..iter]) +
      (if slots[iter].value.udpPort == DHCPS_PORT then [slots[iter].value.ip] else [])
  {
    assert slots[..iter + 1][..iter] == slots[..iter];
  }

  lemma ServerSendsSnoc(ips: seq<IPv4>, ip: IPv4, info: Info)
    ensures ServerSends(ips + [ip], info) == ServerSends(ips, info) + [Send(ip, DHCPS_PORT, info)]
  {
    var r := ServerSends(ips + [ip], info);
    assert forall i :: 0 <= i < |ips| ==> r[i] == ServerSends(ips, info)[i];
  }

  /** udpfwd_relay_to_dhcp_server. */
  method RelayToDhcpServer(pkt: array<byte>, info: PktInfo, tables: Tables<ServerKey>,
                           ifName: u32 -> Option<string>, ipOf: string -> IPv4)
    returns (ok: bool, sends: seq<Send>)
    requires pkt.Length >= OFF_OPTIONS && tables.Valid()
    requires tables.capacity == MAX_UDP_BCAST_SERVER_PER_INTERFACE
    modifies pkt, info
    ensures var r := ToServer(old(pkt[..]), old(info.Value()), tables.intfHashTable, ifName, ipOf);
      ok == r.ok && pkt[..] == r.buf && info.Value() == r.info && sends == r.sends
  {
    var idx := info.ifindex;
    if idx == NO_IFINDEX || ifName(idx).None? {
      return false, [];
    }
    var name := ifName(idx).value;
    var interfaceIp := ipOf(name);
    if interfaceIp == 0 {
      return false, [];
    }
    var hops := pkt[OFF_HOPS];
    IncrementHops(pkt);
    if hops > UDPFWD_DHCP_MAX_HOPS {
      return false, [];
    }
    StampGiaddr(pkt, interfaceIp);
    if name !in tables.intfHashTable {
      return false, [];
    }
    var intfNode := tables.intfHashTable[name];
    sends := SendToServers(intfNode, info, interfaceIp);
    ok := true;
  }

  // ---------------------------------------------------------------------
  // Replies.

  /** The DHCP message type: the body byte of the option that dhcpPickupOpt
      finds (with overload 3 searching both fields). */
  function MessageType(buf: seq<byte>, size: int): Option<byte>
  {
    match PickupOptBothFields(buf, size, DHCP_MSGTYPE)
    case Some(p) => Some(At(buf, p + 2))
    case None => None
  }

  /** The broadcast bit of the flags field (bit 15 of a 16-bit value). */
  predicate BroadcastFlag(buf: seq<byte>)
  {
    Flags(buf) >= UDPFWD_DHCP_BROADCAST_FLAG
  }

  /** Where a reply is sent, None when it is not relayed. */
  function ReplyDestination(buf: seq<byte>, size: int): (r: Option<IPv4>)
    ensures BroadcastFlag(buf) || MessageType(buf, size) == Some(DHCPNAK) ==> r == Some(IP_ADDRESS_BCAST)
    ensures !(BroadcastFlag(buf) || MessageType(buf, size) == Some(DHCPNAK)) ==>
      (r.None? <==> MessageType(buf, size) == Some(DHCPACK) && Yiaddr(buf) == 0 && Ciaddr(buf) == 0)
    ensures !(BroadcastFlag(buf) || MessageType(buf, size) == Some(DHCPNAK)) && Yiaddr(buf) != 0 ==> r == Some(Yiaddr(buf))
    ensures r.Some? && r.value == 0 ==> Yiaddr(buf) == 0 && MessageType(buf, size) != Some(DHCPACK)
  {
    var mt := MessageType(buf, size);
    if BroadcastFlag(buf) || mt == Some(DHCPNAK) then Some(IP_ADDRESS_BCAST)
    else if mt == Some(DHCPACK) && Yiaddr(buf) == 0 then
      if Ciaddr(buf) != 0 then Some(Ciaddr(buf)) else None
    else Some(Yiaddr(buf))
  }

  /** What udpfwd_relay_to_dhcp_client leaves: the verdict, the packet info
      and the sends. */
  datatype ClientRelay = ClientRelay(ok: bool, info: Info, sends: seq<Send>)

  /** udpfwd_relay_to_dhcp_client on values: the reply goes out of the
      interface that owns giaddr, to port 68. */
  function ToClient(buf: seq<byte>, size: int, info: Info,
                    ifIndexOf: IPv4 -> u32, ifName: u32 -> Option<string>): (r: ClientRelay)
    ensures !r.ok ==> r.info == info && r.sends == []
    ensures r.ok <==> IfName(ifName, ifIndexOf(Giaddr(buf))).Some? && ReplyDestination(buf, size).Some?
    ensures r.ok ==> (r.info == Info(ifIndexOf(Giaddr(buf)), 0, info.addr) &&
      r.sends == [Send(ReplyDestination(buf, size).value, DHCPC_PORT, r.info)])
  {
    var idx := ifIndexOf(Giaddr(buf));
    if IfName(ifName, idx).None? then ClientRelay(false, info, [])
    else
      match ReplyDestination(buf, size)
      case None => ClientRelay(false, info, [])
      case Some(dest) =>
        var info' := Info(idx, 0, info.addr);
        ClientRelay(true, info', [Send(dest, DHCPC_PORT, info')])
  }

  /** udpfwd_relay_to_dhcp_client. */
  method RelayToDhcpClient(pkt: array<byte>, size: int, info: PktInfo,
                           ifIndexOf: IPv4 -> u32, ifName: u32 -> Option<string>)
    returns (ok: bool, sends: seq<Send>)
    modifies info
    ensures var r := ToClient(pkt[..], size, old(info.Value()), ifIndexOf, ifName);
      ok == r.ok && info.Value() == r.info && sends == r.sends
  {
    var ifIndex := ifIndexOf(Giaddr(pkt[..]));
    if ifIndex == NO_IFINDEX || ifName(ifIndex).None? {
      return false, [];
    }
    var option := DhcpPickupOptBothFields(pkt[..], size, DHCP_MSGTYPE);
    var nakReply := option.Some? && At(pkt[..], option.value + 2) == DHCPNAK;
    var dest: IPv4;
    if Flags(pkt[..]) >= UDPFWD_DHCP_BROADCAST_FLAG || nakReply {
      dest := IP_ADDRESS_BCAST;
    } else {
      dest := Yiaddr(pkt[..]);
      if option.Some? && At(pkt[..], option.value + 2) == DHCPACK {
        if Yiaddr(pkt[..]) == 0 {
          if Ciaddr(pkt[..]) != 0 {
            dest := Ciaddr(pkt[..]);
          } else {
            return false, [];
          }
        }
      }
    }
    info.ifindex := ifIndex;
    info.specDst := 0;
    sends := [Send(dest, DHCPC_PORT, info.Value())];
    ok := true;
  }
}
