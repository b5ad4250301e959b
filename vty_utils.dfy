// CLI helpers of the UDP broadcast forwarder and DHCP relay: validation of
// the `ip forward-protocol udp` / `ip helper-address` arguments, lookup of a
// server address in a row, the per-interface address limit and the edit of a
// row's server list.

module VtyUtils {
  import opened Common
  import UdpfwdConfig

  /** The feature a CLI command configures. */
  datatype Feature = UdpBcastForwarder | DhcpRelay

  /** Which of the two features the CLI was compiled with
      (`FTR_UDP_BCAST_FWD`, `FTR_DHCP_RELAY`). */
  datatype Features = Features(udpBcastFwd: bool, dhcpRelay: bool)

  /** One entry of the table of UDP protocols that may be forwarded. */
  datatype Protocol = Protocol(name: string, number: int)

  const MAX_UDP_PROTOCOL := 11

  const UdpProtocols: seq<Protocol> := [
    Protocol("dns", 53), Protocol("ntp", 123), Protocol("netbios-ns", 137),
    Protocol("netbios-dgm", 138), Protocol("radius", 1812),
    Protocol("radius-old", 1645), Protocol("rip", 520), Protocol("snmp", 161),
    Protocol("snmp-trap", 162), Protocol("tftp", 69), Protocol("timep", 37)]

  /** The user's server argument as the CLI records it. */
  datatype Server = Server(ipAddr: string, udpPort: int)

  /** What the classification macros say about an address already parsed by
      `inet_pton`: a usable unicast address, the limited broadcast address,
      a subnet-directed broadcast. */
  datatype AddressClass = AddressClass(valid: bool, broadcast: bool, subnetBroadcast: bool)

  /** Outcome of validating the CLI arguments: the verdict, the server record
      as the call leaves it, and the lines written to the terminal. */
  datatype Decoded = Decoded(ok: bool, server: Server, messages: seq<string>)

  const INVALID_IPV4 := "Invalid IPv4 address."
  const BCAST_NOT_ALLOWED := "Broadcast, multicast and loopback addresses are not allowed."
  const MCAST_NOT_ALLOWED := "Multicast and loopback addresses are not allowed."
  const INVALID_PORT := "Invalid UDP portname/portnumber entered. "

  /** C `isalpha` in the C locale. */
  predicate IsAlpha(c: char)
  {
    'a' <= c <= 'z' || 'A' <= c <= 'Z'
  }

  /** The first character of a C string: the terminating NUL when empty. */
  function FirstChar(s: string): char
  {
    if s == [] then '\0' else s[0]
  }

  /** The port of the first table entry called `name`. */
  function PortOfName(table: seq<Protocol>, name: string): (r: Option<int>)
    ensures r.Some? <==> exists i :: 0 <= i < |table| && table[i].name == name
    ensures r.Some? ==> exists i :: 0 <= i < |table| && table[i] == Protocol(name, r.value)
  {
    if table == [] then None
    else if table[0].name == name then Some(table[0].number)
    else
      var r := PortOfName(table[1..], name);
      assert forall i :: 1 <= i < |table| ==> table[i] == table[1..][i - 1];
      r
  }

  /** The number itself when some table entry carries it. */
  function PortOfNumber(table: seq<Protocol>, n: int): (r: Option<int>)
    ensures r.Some? <==> exists i :: 0 <= i < |table| && table[i].number == n
    ensures r.Some? ==> r.value == n
  {
    if table == [] then None
    else if table[0].number == n then Some(n)
    else
      var r := PortOfNumber(table[1..], n);
      assert forall i :: 1 <= i < |table| ==> table[i] == table[1..][i - 1];
      r
  }

  /** Whether an address that parsed is refused for the given feature. */
  function ClassRefusal(kind: Feature, ftr: Features, c: AddressClass): Option<string>
  {
    if c.valid then None
    else if kind == UdpBcastForwarder && ftr.udpBcastFwd && (c.broadcast || !c.subnetBroadcast) then
      Some(BCAST_NOT_ALLOWED)
    else if kind == DhcpRelay && ftr.dhcpRelay && (!c.broadcast || !c.subnetBroadcast) then
      Some(MCAST_NOT_ALLOWED)
    else None
  }

  /** The port the argument names: by table name when it starts with a
      letter, else by `atoi` against the table numbers. */
  function PortOfArgument(arg: string): Option<int>
  {
    if IsAlpha(FirstChar(arg)) then PortOfName(UdpProtocols, arg)
    else PortOfNumber(UdpProtocols, Atoi(arg))
  }

  /** Reference definition of the argument check. `inetPton` and `classify`
      stand for the C library's parser and the address-class macros. */
  function Decode(server: Server, ipArg: string, portArg: string, kind: Feature, ftr: Features,
                  inetPton: string -> Option<IPv4>, classify: IPv4 -> AddressClass): Decoded
  {
    match inetPton(ipArg)
    case None => Decoded(false, server, [INVALID_IPV4])
    case Some(addr) =>
      match ClassRefusal(kind, ftr, classify(addr))
      case Some(msg) => Decoded(false, server, [msg])
      case None =>
        var s := server.(ipAddr := ipArg);
        if kind == DhcpRelay && ftr.dhcpRelay then Decoded(true, s, [])
        else if !ftr.udpBcastFwd then Decoded(false, s, [INVALID_PORT])
        else match PortOfArgument(portArg)
          case Some(p) => Decoded(true, s.(udpPort := p), [])
          case None => Decoded(false, s, [INVALID_PORT])
  }

  /** `decode_server_param`: validates the address, then (forwarder only)
      resolves the port by scanning the protocol table. */
  method DecodeServerParam(server: Server, ipArg: string, portArg: string, kind: Feature, ftr: Features,
                           inetPton: string -> Option<IPv4>, classify: IPv4 -> AddressClass)
    returns (ok: bool, out: Server, messages: seq<string>)
    ensures Decoded(ok, out, messages) == Decode(server, ipArg, portArg, kind, ftr, inetPton, classify)
  {
    out := server;
    messages := [];
    ok := false;
    var parsed := inetPton(ipArg);
    if parsed.None? {
      messages := [INVALID_IPV4];
      return;
    }
    var c := classify(parsed.value);
    if !c.valid {
      if ftr.udpBcastFwd && kind == UdpBcastForwarder && (c.broadcast || !c.subnetBroadcast) {
        messages := [BCAST_NOT_ALLOWED];
        return;
      }
      if ftr.dhcpRelay && kind == DhcpRelay && (!c.broadcast || !c.subnetBroadcast) {
        messages := [MCAST_NOT_ALLOWED];
        return;
      }
    }
    out := out.(ipAddr := ipArg);
    if ftr.dhcpRelay && kind == DhcpRelay {
      ok := true;
      return;
    }
    if ftr.udpBcastFwd {
      var byName := IsAlpha(FirstChar(portArg));
      var found, port := ScanProtocols(UdpProtocols, byName, portArg, if byName then 0 else Atoi(portArg));
      if found {
        out := out.(udpPort := port);
        ok := true;
        return;
      }
    }
    messages := [INVALID_PORT];
  }

  /** The table-scan loop of `decode_server_param`: the first entry whose
      name (`byName`) or number equals the argument. */
  method ScanProtocols(table: seq<Protocol>, byName: bool, name: string, pNum: int)
    returns (found: bool, port: int)
    ensures var r := if byName then PortOfName(table, name) else PortOfNumber(table, pNum);
            found == r.Some? && (found ==> port == r.value)
  {
    found, port := false, 0;
    for i := 0 to |table|
      invariant forall j :: 0 <= j < i ==> if byName then table[j].name != name else table[j].number != pNum
    {
      if (byName && name == table[i].name) || (!byName && pNum == table[i].number) {
        if byName {
          NameLookupAt(table, name, i);
        }
        return true, table[i].number;
      }
    }
  }

  /** The name lookup returns the first entry with that name. */
  lemma {:induction false} NameLookupAt(table: seq<Protocol>, name: string, i: nat)
    requires i < |table| && table[i].name == name
    requires forall j :: 0 <= j < i ==> table[j].name != name
    ensures PortOfName(table, name) == Some(table[i].number)
  {
    if i > 0 {
      NameLookupAt(table[1..], name, i - 1);
    }
  }

  /** No two table entries share a name, and every name starts with a
      letter. */
  lemma TableFacts()
    ensures |UdpProtocols| == MAX_UDP_PROTOCOL
    ensures forall i, j :: 0 <= i < j < |UdpProtocols| ==> UdpProtocols[i].name != UdpProtocols[j].name
    ensures forall i :: 0 <= i < |UdpProtocols| ==> IsAlpha(FirstChar(UdpProtocols[i].name))
    ensures forall i :: 0 <= i < |UdpProtocols| ==> UdpProtocols[i].number >= 0
  {
    forall i, j | 0 <= i < j < |UdpProtocols|
      ensures UdpProtocols[i].name != UdpProtocols[j].name
    {
      var a, b := UdpProtocols[i].name, UdpProtocols[j].name;
      assert a[0] != b[0] || |a| != |b| || a[1] != b[1] || a[|a| - 1] != b[|b| - 1];
    }
  }

  /** Every entry's name resolves to its own number, and so does the number
      written in decimal: both spellings of a protocol are accepted alike. */
  lemma TableResolves(i: nat)
    requires i < |UdpProtocols|
    ensures PortOfArgument(UdpProtocols[i].name) == Some(UdpProtocols[i].number)
    ensures UdpProtocols[i].number >= 0 &&
            PortOfArgument(NatToDecimal(UdpProtocols[i].number)) == Some(UdpProtocols[i].number)
  {
    TableFacts();
    var e := UdpProtocols[i];
    NameResolves(UdpProtocols, i);
    var digits := NatToDecimal(e.number);
    assert !IsAlpha(FirstChar(digits)) by {
      assert IsDigit(digits[0]);
    }
    AtoiOfDecimal(e.number);
  }

  /** In a table with distinct names, an entry's name finds that entry. */
  lemma NameResolves(table: seq<Protocol>, i: nat)
    requires i < |table|
    requires forall j, k :: 0 <= j < k < |table| ==> table[j].name != table[k].name
    ensures PortOfName(table, table[i].name) == Some(table[i].number)
  {
    NameLookupAt(table, table[i].name, i);
  }

  /** An accepted port is a number of the table, and a name that starts with
      a letter is accepted exactly when it is one of the table's names. */
  lemma AcceptedPorts(arg: string)
    ensures PortOfArgument(arg).Some? ==>
              exists i :: 0 <= i < |UdpProtocols| && UdpProtocols[i].number == PortOfArgument(arg).value
    ensures IsAlpha(FirstChar(arg)) ==>
              (PortOfArgument(arg).Some? <==> exists i :: 0 <= i < |UdpProtocols| && UdpProtocols[i].name == arg)
  {
  }

  /** Port 81 is not in the table and is refused. */
  lemma Port81Refused(a: string)
    requires a == "81"
    ensures PortOfArgument(a).None?
  {
    AtoiOf81(a);
    NoEntryNumbered(81);
  }

  /** "81" is read as the number 81. */
  lemma AtoiOf81(a: string)
    requires a == "81"
    ensures !IsAlpha(FirstChar(a)) && Atoi(a) == 81
  {
    assert NatToDecimal(81) == [DigitChar(8)] + [DigitChar(1)] == a;
    AtoiOfDecimal(81);
  }

  /** No table entry carries port 81. */
  lemma NoEntryNumbered(n: int)
    requires n == 81
    ensures PortOfNumber(UdpProtocols, n).None?
  {
    var numbers := [53, 123, 137, 138, 1812, 1645, 520, 161, 162, 69, 37];
    assert |UdpProtocols| == |numbers|;
    forall i | 0 <= i < |UdpProtocols|
      ensures UdpProtocols[i].number == numbers[i]
    {
    }
    assert n !in numbers;
  }

  /** The name "invalidUDP" is not in the table and is refused. */
  lemma InvalidNameRefused(b: string)
    requires b == "invalidUDP"
    ensures PortOfArgument(b).None?
  {
    assert IsAlpha(FirstChar(b));
    forall i | 0 <= i < |UdpProtocols|
      ensures UdpProtocols[i].name != b
    {
      var n := UdpProtocols[i].name;
      assert |n| != |b| || n[0] != b[0];
    }
  }

  /** An address `inet_pton` refuses is reported before anything else, and
      the record is left untouched. */
  lemma UnparsableAddressFirst(server: Server, ipArg: string, portArg: string, kind: Feature, ftr: Features,
                               inetPton: string -> Option<IPv4>, classify: IPv4 -> AddressClass)
    requires inetPton(ipArg).None?
    ensures Decode(server, ipArg, portArg, kind, ftr, inetPton, classify)
              == Decoded(false, server, [INVALID_IPV4])
  {
  }

  /** The two commands refuse different address classes with different
      messages; a usable unicast address is never refused on its class. */
  lemma ClassMessages(server: Server, ipArg: string, portArg: string, kind: Feature, ftr: Features,
                      inetPton: string -> Option<IPv4>, classify: IPv4 -> AddressClass)
    requires inetPton(ipArg).Some?
    ensures var c := classify(inetPton(ipArg).value);
            var d := Decode(server, ipArg, portArg, kind, ftr, inetPton, classify);
            && (kind == UdpBcastForwarder && ftr.udpBcastFwd ==>
                  (d.messages == [BCAST_NOT_ALLOWED] <==> !c.valid && (c.broadcast || !c.subnetBroadcast)))
            && (kind == DhcpRelay && ftr.dhcpRelay ==>
                  (d.messages == [MCAST_NOT_ALLOWED] <==> !c.valid && (!c.broadcast || !c.subnetBroadcast)))
  {
  }

  /** A helper address is accepted as soon as its address is: the port
      argument is not looked at. */
  lemma HelperAddressAccepted(server: Server, ipArg: string, portArg: string, ftr: Features,
                              inetPton: string -> Option<IPv4>, classify: IPv4 -> AddressClass)
    requires ftr.dhcpRelay && inetPton(ipArg).Some?
    requires ClassRefusal(DhcpRelay, ftr, classify(inetPton(ipArg).value)).None?
    ensures Decode(server, ipArg, portArg, DhcpRelay, ftr, inetPton, classify)
              == Decoded(true, server.(ipAddr := ipArg), [])
  {
  }

  /** A forwarder entry is accepted exactly when the address passes and the
      port resolves; it then carries the address and that port. */
  lemma ForwarderAccepted(server: Server, ipArg: string, portArg: string, ftr: Features,
                          inetPton: string -> Option<IPv4>, classify: IPv4 -> AddressClass)
    requires ftr.udpBcastFwd
    ensures var d := Decode(server, ipArg, portArg, UdpBcastForwarder, ftr, inetPton, classify);
            d.ok <==> (inetPton(ipArg).Some?
                       && ClassRefusal(UdpBcastForwarder, ftr, classify(inetPton(ipArg).value)).None?
                       && PortOfArgument(portArg).Some?)
    ensures var d := Decode(server, ipArg, portArg, UdpBcastForwarder, ftr, inetPton, classify);
            d.ok ==> d.server == Server(ipArg, PortOfArgument(portArg).value) && d.messages == []
  {
  }

  /** `find_udpfwd_server_ip`: whether one of the first `count` addresses of
      a row is the same string as `ip`. */
  function FindServerIp(servers: seq<string>, count: nat, ip: string): (r: bool)
    requires count <= |servers|
    ensures r <==> exists i :: 0 <= i < count && servers[i] == ip
    ensures r <==> ip in servers[..count]
  {
    if count == 0 then false
    else
      var r := FindServerIp(servers, count - 1, ip) || servers[count - 1] == ip;
      assert servers[..count] == servers[..count - 1] + [servers[count - 1]];
      r
  }

  /** A row of the forwarder or relay table as the address limit sees it:
      the port it belongs to (possibly unset) and its number of addresses. */
  datatype ServerRow = ServerRow(port: Option<string>, serverCount: nat)

  /** Addresses held by the rows of port `name`. */
  function PortTotal(rows: seq<ServerRow>, name: string): nat
  {
    if rows == [] then 0
    else
      var last := rows[|rows| - 1];
      PortTotal(rows[..|rows| - 1], name) + (if last.port == Some(name) then last.serverCount else 0)
  }

  /** Adding rows never lowers the total. */
  lemma {:induction false} PortTotalGrows(rows: seq<ServerRow>, k: nat, name: string)
    requires k <= |rows|
    ensures PortTotal(rows[..k], name) <= PortTotal(rows, name)
  {
    if k < |rows| {
      assert rows[..|rows| - 1][..k] == rows[..k];
      PortTotalGrows(rows[..|rows| - 1], k, name);
    } else {
      assert rows[..k] == rows;
    }
  }

  /** The per-interface limit of the given feature. */
  function Limit(kind: Feature): nat
  {
    match kind
    case UdpBcastForwarder => UdpfwdConfig.MAX_UDPFWD
    case DhcpRelay => UdpfwdConfig.MAX_HELPER
  }

  /** `server_address_maxcount_reached`: sums the address counts of the
      port's rows of the feature's table and stops once the limit is met. */
  method MaxcountReached(portname: string, kind: Feature, ftr: Features,
                         udpRows: seq<ServerRow>, relayRows: seq<ServerRow>)
    returns (reached: bool)
    ensures reached <==> (match kind
                          case UdpBcastForwarder => ftr.udpBcastFwd && PortTotal(udpRows, portname) >= 8
                          case DhcpRelay => ftr.dhcpRelay && PortTotal(relayRows, portname) >= 8)
  {
    var rows := if kind == UdpBcastForwarder then udpRows else relayRows;
    if (kind == UdpBcastForwarder && !ftr.udpBcastFwd) || (kind == DhcpRelay && !ftr.dhcpRelay) {
      return false;
    }
    var entries := 0;
    for i := 0 to |rows|
      invariant entries == PortTotal(rows[..i], portname) < Limit(kind)
    {
      assert rows[..i + 1][..i] == rows[..i];
      if rows[i].port.Some? && rows[i].port.value == portname {
        entries := entries + rows[i].serverCount;
        if entries >= Limit(kind) {
          PortTotalGrows(rows, i + 1, portname);
          return true;
        }
      }
    }
    assert rows[..|rows|] == rows;
    return false;
  }

  /** `servers` without the entries equal to `ip`, in their order. */
  function Without(servers: seq<string>, ip: string): (r: seq<string>)
    ensures |r| <= |servers|
  {
    if servers == [] then []
    else
      var last := servers[|servers| - 1];
      Without(servers[..|servers| - 1], ip) + (if last == ip then [] else [last])
  }

  /** Removal keeps every other address, once per occurrence, and drops
      every copy of `ip`. */
  lemma {:induction false} WithoutCounts(servers: seq<string>, ip: string)
    ensures multiset(Without(servers, ip)) == multiset(servers)[ip := 0]
  {
    if servers != [] {
      var init, last := servers[..|servers| - 1], servers[|servers| - 1];
      assert servers == init + [last];
      WithoutCounts(init, ip);
    }
  }

  /** Removal drops exactly the entries equal to `ip`. */
  lemma WithoutMembers(servers: seq<string>, ip: string, x: string)
    ensures x in Without(servers, ip) <==> x in servers && x != ip
  {
    WithoutCounts(servers, ip);
    assert x in Without(servers, ip) <==> x in multiset(Without(servers, ip));
    assert x in servers <==> x in multiset(servers);
  }

  /** A present address leaves at least one slot free after removal. */
  lemma {:induction false} WithoutShorter(servers: seq<string>, ip: string)
    requires ip in servers
    ensures |Without(servers, ip)| < |servers|
  {
    var init, last := servers[..|servers| - 1], servers[|servers| - 1];
    assert servers == init + [last];
    if last != ip {
      WithoutShorter(init, ip);
    }
  }

  /** Removal keeps the relative order of the survivors: removing from a
      concatenation removes from each part. */
  lemma {:induction false} WithoutAppend(a: seq<string>, b: seq<string>, ip: string)
    ensures Without(a + b, ip) == Without(a, ip) + Without(b, ip)
  {
    if b == [] {
      assert a + b == a;
    } else {
      var init, last := b[..|b| - 1], b[|b| - 1];
      assert (a + b)[..|a + b| - 1] == a + init;
      WithoutAppend(a, init, ip);
    }
  }

  /** `udpfwd_serverupdate`: the row's new address list. Adding copies the
      old list into a buffer one longer and puts `ip` last; removing copies
      the other addresses into a buffer one shorter. That buffer holds them
      only when `ip` is in the list, which the callers check first. */
  method ServerUpdate(serverArray: seq<string>, add: bool, ip: string) returns (servers: seq<string>)
    requires !add ==> ip in serverArray
    ensures add ==> servers == serverArray + [ip]
    ensures !add ==> servers == Without(serverArray, ip)
  {
    var serverCount := |serverArray|;
    if add {
      var buf := new string[serverCount + 1];
      for i := 0 to serverCount
        invariant buf[..i] == serverArray[..i]
      {
        buf[i] := serverArray[i];
      }
      buf[serverCount] := ip;
      assert buf[..serverCount] == serverArray;
      servers := buf[..];
    } else {
      var buf := new string[serverCount - 1];
      WithoutShorter(serverArray, ip);
      var n := 0;
      for i := 0 to serverCount
        invariant n <= buf.Length && buf[..n] == Without(serverArray[..i], ip)
      {
        assert serverArray[..i + 1][..i] == serverArray[..i];
        if serverArray[i] != ip {
          RoomLeft(serverArray, i, ip);
          buf[n] := serverArray[i];
          n := n + 1;
        }
      }
      assert serverArray[..serverCount] == serverArray;
      servers := buf[..n];
    }
  }

  /** A surviving entry still to be copied has a place in the result. */
  lemma RoomLeft(servers: seq<string>, i: nat, ip: string)
    requires i < |servers| && servers[i] != ip
    ensures |Without(servers[..i], ip)| < |Without(servers, ip)|
  {
    assert servers[..i + 1][..i] == servers[..i];
    assert servers == servers[..i + 1] + servers[i + 1..];
    WithoutAppend(servers[..i + 1], servers[i + 1..], ip);
  }

  /** After an add the address is found in the row. */
  lemma FoundAfterAdd(servers: seq<string>, ip: string)
    ensures FindServerIp(servers + [ip], |servers| + 1, ip)
  {
    assert (servers + [ip])[|servers|] == ip;
  }

  /** After a remove the address is no longer found, and every other
      address found before still is. */
  lemma FoundAfterRemove(servers: seq<string>, ip: string, other: string)
    ensures var r := Without(servers, ip);
            !FindServerIp(r, |r|, ip)
            && (other != ip ==> (FindServerIp(r, |r|, other) <==> FindServerIp(servers, |servers|, other)))
  {
    var r := Without(servers, ip);
    WithoutMembers(servers, ip, ip);
    WithoutMembers(servers, ip, other);
    assert r[..|r|] == r;
    assert servers[..|servers|] == servers;
  }
}
