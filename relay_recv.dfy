/*
 * The dispatch of a received datagram (udpfwd_ctrl in udpfwd_recv.c):
 * DHCP ports only, only while the DHCP relay is enabled, and by the BOOTP
 * op code to the server or the client path. The receive loop and its
 * socket are not part of this model.
 */
module RelayRecv {
  import opened Common
  import opened DhcpLayout
  import opened ServerTables
  import opened UdpfwdConfig
  import opened RelayXmit

  datatype Route = NoAction | ToServers | ToClients

  /** A DHCP datagram that the relay handles: a payload and packet info,
      sent to port 67 or 68, while the relay is enabled. */
  predicate Relayable(payload: Option<seq<byte>>, hasInfo: bool, dstPort: u16, relayEnabled: bool)
  {
    payload.Some? && hasInfo && relayEnabled && (dstPort == DHCPS_PORT || dstPort == DHCPC_PORT)
  }

  /** The branch udpfwd_ctrl takes for a payload (None for NULL) with or
      without packet info, on the destination port, with the relay enabled
      or not. */
  function Dispatch(payload: Option<seq<byte>>, hasInfo: bool, dstPort: u16, relayEnabled: bool): Route
  {
    if payload.None? || !hasInfo then NoAction
    else if dstPort != DHCPS_PORT && dstPort != DHCPC_PORT then NoAction
    else if !relayEnabled then NoAction
    else if Op(payload.value) == BOOTREQUEST then ToServers
    else if Op(payload.value) == BOOTREPLY then ToClients
    else NoAction
  }

  /** udpfwd_ctrl: the relay path the dispatch picks runs on the payload
      and the packet info; on every other branch nothing changes. */
  method UdpfwdCtrl(payload: array?<byte>, size: int, dstPort: u16, info: PktInfo?, relayEnabled: bool,
                    tables: Tables<ServerKey>, ifName: u32 -> Option<string>, ipOf: string -> IPv4,
                    ifIndexOf: IPv4 -> u32)
    returns (sends: seq<Send>)
    requires payload != null && (dstPort == DHCPS_PORT || dstPort == DHCPC_PORT) ==> payload.Length >= OFF_OPTIONS
    requires tables.Valid() && tables.capacity == MAX_UDP_BCAST_SERVER_PER_INTERFACE
    modifies payload, info
    ensures payload == null || info == null ==> sends == []
    ensures payload != null && info != null ==>
      match Dispatch(Some(old(payload[..])), true, dstPort, relayEnabled)
      case NoAction => sends == [] && payload[..] == old(payload[..]) && info.Value() == old(info.Value())
      case ToServers =>
        var r := ToServer(old(payload[..]), old(info.Value()), tables.intfHashTable, ifName, ipOf);
        sends == r.sends && payload[..] == r.buf && info.Value() == r.info
      case ToClients =>
        var r := ToClient(old(payload[..]), size, old(info.Value()), ifIndexOf, ifName);
        sends == r.sends && payload[..] == old(payload[..]) && info.Value() == r.info
  {
    sends := [];
    if payload == null || info == null {
      return;
    }
    if dstPort != DHCPS_PORT && dstPort != DHCPC_PORT {
      return;
    }
    if !relayEnabled {
      return;
    }
    var op := At(payload[..], OFF_OP);
    if op == BOOTREQUEST {
      var _, s := RelayToDhcpServer(payload, info, tables, ifName, ipOf);
      sends := s;
    } else if op == BOOTREPLY {
      var _, s := RelayToDhcpClient(payload, size, info, ifIndexOf, ifName);
      sends := s;
    }
  }
}
