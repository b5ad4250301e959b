/*
 * The text of the daemon's `udpfwd/dump` command (udpfwd_interfaces_dump
 * and udpfwd_interface_dump in both copies of udpfwd.c): the global
 * feature lines, then one block per interface (all of them in the
 * interface hash table's iteration order, or the one asked for), each
 * listing its servers, optionally only those on one UDP port.
 *
 * The output buffer (`struct ds`) is a string the methods append to. The
 * relay copy's per-interface statistics and bootp gateway, which the
 * server tables do not hold, are a parameter.
 */
module DaemonDump {
  import opened Common
  import opened FeatureFlags
  import opened ServerTables
  import opened UdpfwdConfig
  import opened DaemonConfig

  /** A list of lines as text, each line ended by a newline. */
  function Text(lines: seq<string>): string
    decreases |lines|
  {
    if lines == [] then "" else Text(lines[..|lines| - 1]) + lines[|lines| - 1] + "\n"
  }

  lemma {:induction false} TextAppend(a: seq<string>, b: seq<string>)
    ensures Text(a + b) == Text(a) + Text(b)
    decreases |b|
  {
    if b == [] {
      assert a + b == a;
    } else {
      var last := |b| - 1;
      assert (a + b)[..|a + b| - 1] == a + b[..last];
      TextAppend(a, b[..last]);
      calc {
        Text(a + b);
        Text(a + b[..last]) + b[last] + "\n";
        Text(a) + Text(b[..last]) + b[last] + "\n";
        Text(a) + (Text(b[..last]) + b[last] + "\n");
        Text(a) + Text(b);
      }
    }
  }

  /** printf "%d" of a FEATURE_STATUS (DISABLE is 0, ENABLE is 1). */
  function StatusText(st: Status): string
  {
    match st
    case Enable => "1"
    case Disable => "0"
  }

  /** printf "%d" of a uint32_t counter: values from 2^31 up print negative. */
  function CounterText(c: u32): string
  {
    IntToDecimal(if c >= 0x8000_0000 then c - 0x1_0000_0000 else c)
  }

  /** The relay copy's per-interface data that the dump prints besides the
      servers: the eight DHCP relay counters and the bootp gateway. */
  datatype IntfStats = IntfStats(
    clientDrops: u32, clientValids: u32, servDrops: u32, servValids: u32,
    clientDropsWithOption82: u32, clientValidsWithOption82: u32,
    servDropsWithOption82: u32, servValidsWithOption82: u32,
    bootpGw: IPv4)

  // ---------------------------------------------------------------------
  // The global lines.

  /** The statuses the global lines print, read from the feature bitmap. */
  datatype Statuses = Statuses(udp: Status, relay: Status, hop: Status, option82: Status, validate: Status)

  function StatusesOf(b: Build, config: FeatureMap): Statuses
  {
    Statuses(GetFeatureStatus(b, config, UdpBcastForwarder), GetFeatureStatus(b, config, DhcpRelay),
             GetFeatureStatus(b, config, HopCountIncrement), GetFeatureStatus(b, config, Option82),
             GetFeatureStatus(b, config, Option82Validate))
  }

  /** The UDP broadcast forwarder line (under FTR_UDP_BCAST_FWD in the relay
      copy). */
  function UdpLines(b: Build, st: Statuses): seq<string>
  {
    if CompiledIn(b, UdpBcastForwarder) then ["UDP Bcast Forwarder : " + StatusText(st.udp)] else []
  }

  /** The six DHCP relay lines (under FTR_DHCP_RELAY in the relay copy). */
  function RelayLines(b: Build, st: Statuses, policy: Policy, remoteId: RemoteId): seq<string>
  {
    if CompiledIn(b, DhcpRelay) then
      ["DHCP Relay : " + StatusText(st.relay),
       "DHCP Relay hop-count-increment : " + StatusText(st.hop),
       "DHCP Relay Option82 : " + StatusText(st.option82),
       "DHCP Relay Option82 validate : " + StatusText(st.validate),
       "DHCP Relay Option82 policy : " + PolicyName(policy),
       "DHCP Relay Option82 remote-id : " + RemoteIdName(remoteId)]
    else []
  }

  function GlobalLines(b: Build, s: Settings): seq<string>
  {
    var st := StatusesOf(b, s.config);
    UdpLines(b, st) + RelayLines(b, st, s.policy, s.remoteId)
  }

  /** With every feature compiled in there are seven global lines; each
      feature prints 1 exactly when it is enabled, and the policy and
      remote-id lines carry names that parse back to the configured
      values. */
  lemma GlobalLinesReadBack(b: Build, s: Settings)
    requires CompiledIn(b, UdpBcastForwarder) && CompiledIn(b, DhcpRelay)
    ensures var g := GlobalLines(b, s);
      |g| == 7 &&
      (g[0] == "UDP Bcast Forwarder : 1" <==> GetFeatureStatus(b, s.config, UdpBcastForwarder) == Enable) &&
      (g[1] == "DHCP Relay : 1" <==> GetFeatureStatus(b, s.config, DhcpRelay) == Enable) &&
      (g[1] == "DHCP Relay : 0" <==> GetFeatureStatus(b, s.config, DhcpRelay) == Disable) &&
      (exists w :: g[5] == "DHCP Relay Option82 policy : " + w && ParsePolicy(Some(w)) == s.policy) &&
      (exists w :: g[6] == "DHCP Relay Option82 remote-id : " + w && ParseRemoteId(Some(w)) == s.remoteId)
  {
    var g := GlobalLines(b, s);
    var prefixU := "UDP Bcast Forwarder : ";
    var prefixR := "DHCP Relay : ";
    var u := StatusText(GetFeatureStatus(b, s.config, UdpBcastForwarder));
    var r := StatusText(GetFeatureStatus(b, s.config, DhcpRelay));
    assert g[0] == prefixU + u;
    assert g[1] == prefixR + r;
    assert g[0] == prefixU + "1" ==> u == "1" by {
      if g[0] == prefixU + "1" {
        assert u == g[0][|prefixU|..];
      }
    }
    assert g[1] == prefixR + "1" ==> r == "1" by {
      if g[1] == prefixR + "1" {
        assert r == g[1][|prefixR|..];
      }
    }
    assert g[1] == prefixR + "0" ==> r == "0" by {
      if g[1] == prefixR + "0" {
        assert r == g[1][|prefixR|..];
      }
    }
    ParseNames(s.policy, s.remoteId);
    assert g[5] == "DHCP Relay Option82 policy : " + PolicyName(s.policy);
    assert g[6] == "DHCP Relay Option82 remote-id : " + RemoteIdName(s.remoteId);
  }

  // ---------------------------------------------------------------------
  // One interface.

  /** Every slot in use is set, as the table invariant guarantees. */
  predicate AllSet(slots: seq<Option<ServerKey>>)
  {
    forall i :: 0 <= i < |slots| ==> slots[i].Some?
  }

  /** The filter of udpfwd_interface_dump: port 0 shows every server. */
  predicate Shown(slot: Option<ServerKey>, udpPort: u16)
  {
    slot.Some? && (udpPort == 0 || slot.value.udpPort == udpPort)
  }

  /** `found`: some server of the interface passes the filter. */
  predicate AnyShown(slots: seq<Option<ServerKey>>, udpPort: u16)
  {
    exists i :: 0 <= i < |slots| && Shown(slots[i], udpPort)
  }

  /** The entry's ref_count as printed: a uint16_t. */
  function RefCount(servers: map<ServerKey, nat>, k: ServerKey): nat
  {
    if k in servers then servers[k] % 0x1_0000 else 0
  }

  /** The lines printed for one server: three labelled lines in the udpfwd
      copy, one "Port <p> - <ip>,<ref_count>" line in the relay copy. */
  function ServerEntry(b: Build, k: ServerKey, refCount: nat): seq<string>
  {
    if b.Udpfwd? then
      ["Port no : " + NatToDecimal(k.udpPort),
       "Server IP Address : " + DottedQuad(k.ip),
       "Server Ip ref count :" + NatToDecimal(refCount)]
    else [RelayServerLine(k, refCount)]
  }

  /** The relay copy's line for one server. */
  function RelayServerLine(k: ServerKey, refCount: nat): string
  {
    "Port " + NatToDecimal(k.udpPort) + " - " + DottedQuad(k.ip) + "," + NatToDecimal(refCount)
  }

  /** The lines for one slot: its server's entry if it passes the filter.
      (A slot in use is never empty in a valid table; an empty one would
      print nothing.) */
  function SlotLines(b: Build, slot: Option<ServerKey>, servers: map<ServerKey, nat>, udpPort: u16): seq<string>
  {
    if Shown(slot, udpPort) then ServerEntry(b, slot.value, RefCount(servers, slot.value)) else []
  }

  /** The lines `f` gives each element, one element after another. */
  function Concat<A>(xs: seq<A>, f: A -> seq<string>): seq<string>
    decreases |xs|
  {
    if xs == [] then []
    else
      var last := |xs| - 1;
      Concat(xs[..last], f) + f(xs[last])
  }

  /** SlotLines as a function value, for Concat. */
  function SlotPrinter(b: Build, servers: map<ServerKey, nat>, udpPort: u16): Option<ServerKey> -> seq<string>
  {
    slot => SlotLines(b, slot, servers, udpPort)
  }

  /** The server lines of an interface, slot by slot, through the filter. */
  function ServerLines(b: Build, slots: seq<Option<ServerKey>>, servers: map<ServerKey, nat>, udpPort: u16): seq<string>
  {
    Concat(slots, SlotPrinter(b, servers, udpPort))
  }

  lemma ConcatStep<A>(xs: seq<A>, f: A -> seq<string>, i: nat)
    requires i < |xs|
    ensures Concat(xs[..i + 1], f) == Concat(xs[..i], f) + f(xs[i])
  {
    assert xs[..i + 1][..i] == xs[..i];
  }

  /** Nothing is printed exactly when every element prints nothing. */
  lemma {:induction false} ConcatEmpty<A>(xs: seq<A>, f: A -> seq<string>)
    ensures Concat(xs, f) == [] <==> forall i :: 0 <= i < |xs| ==> f(xs[i]) == []
    decreases |xs|
  {
    if xs != [] {
      var last := |xs| - 1;
      var front := xs[..last];
      ConcatEmpty(front, f);
      assert forall i :: 0 <= i < last ==> front[i] == xs[i];
    }
  }

  /** When every element prints `n` lines, n * |xs| lines are printed. */
  lemma {:induction false} ConcatLength<A>(xs: seq<A>, f: A -> seq<string>, n: nat)
    requires forall i :: 0 <= i < |xs| ==> |f(xs[i])| == n
    ensures |Concat(xs, f)| == n * |xs|
    decreases |xs|
  {
    if xs != [] {
      var last := |xs| - 1;
      var front := xs[..last];
      assert forall i :: 0 <= i < last ==> front[i] == xs[i];
      ConcatLength(front, f, n);
      assert n * |xs| == n * last + n;
    }
  }

  /** When every element prints the one line `g` gives it, the lines are
      those of `g`, in order. */
  lemma {:induction false} ConcatOneEach<A>(xs: seq<A>, f: A -> seq<string>, g: A -> string)
    requires forall i :: 0 <= i < |xs| ==> f(xs[i]) == [g(xs[i])]
    ensures var r := Concat(xs, f);
      |r| == |xs| && forall i :: 0 <= i < |xs| ==> r[i] == g(xs[i])
    decreases |xs|
  {
    if xs != [] {
      var last := |xs| - 1;
      var front := xs[..last];
      assert forall i :: 0 <= i < last ==> front[i] == xs[i];
      ConcatOneEach(front, f, g);
    }
  }

  /** Printing through a port filter prints what printing the servers on
      that port does. */
  lemma {:induction false} ConcatOnPort(slots: seq<Option<ServerKey>>, udpPort: u16, f: Option<ServerKey> -> seq<string>, g: Option<ServerKey> -> seq<string>)
    requires forall x :: f(x) == (if Shown(x, udpPort) then g(x) else [])
    ensures Concat(slots, f) == Concat(OnPort(slots, udpPort), g)
    decreases |slots|
  {
    if slots != [] {
      var last := |slots| - 1;
      var front := OnPort(slots[..last], udpPort);
      ConcatOnPort(slots[..last], udpPort, f, g);
      if Shown(slots[last], udpPort) {
        var r := front + [slots[last]];
        assert r[..|r| - 1] == front;
      } else {
        assert front + [] == front;
        assert Concat(slots[..last], f) + [] == Concat(slots[..last], f);
      }
    }
  }

  /** A slot prints nothing exactly when it does not pass the filter. */
  lemma SlotLinesEmpty(b: Build, slot: Option<ServerKey>, servers: map<ServerKey, nat>, udpPort: u16)
    ensures SlotLines(b, slot, servers, udpPort) == [] <==> !Shown(slot, udpPort)
  {
  }

  /** No server line is printed exactly when no server passes the filter,
      which is when "No IP address associated with this port" follows. */
  lemma ServerLinesEmpty(b: Build, slots: seq<Option<ServerKey>>, servers: map<ServerKey, nat>, udpPort: u16)
    ensures ServerLines(b, slots, servers, udpPort) == [] <==> !AnyShown(slots, udpPort)
  {
    var f := SlotPrinter(b, servers, udpPort);
    ConcatEmpty(slots, f);
    forall i | 0 <= i < |slots|
      ensures f(slots[i]) == [] <==> !Shown(slots[i], udpPort)
    {
      SlotLinesEmpty(b, slots[i], servers, udpPort);
    }
  }

  /** The servers on one port, in slot order. */
  function OnPort(slots: seq<Option<ServerKey>>, udpPort: u16): (r: seq<Option<ServerKey>>)
    ensures AllSet(r) && |r| <= |slots|
    decreases |slots|
  {
    if slots == [] then []
    else
      var last := |slots| - 1;
      OnPort(slots[..last], udpPort) + (if Shown(slots[last], udpPort) then [slots[last]] else [])
  }

  /** The servers on one port are exactly the slots of the interface that
      the port filter shows. */
  lemma {:induction false} OnPortSelects(slots: seq<Option<ServerKey>>, udpPort: u16)
    ensures forall x :: x in OnPort(slots, udpPort) <==> x in slots && Shown(x, udpPort)
    decreases |slots|
  {
    if slots != [] {
      var last := |slots| - 1;
      OnPortSelects(slots[..last], udpPort);
      assert slots == slots[..last] + [slots[last]];
    }
  }

  /** Dumping with a port filter prints what dumping the servers on that
      port without a filter prints. */
  lemma FilterIsSelection(b: Build, slots: seq<Option<ServerKey>>, servers: map<ServerKey, nat>, udpPort: u16)
    ensures ServerLines(b, slots, servers, udpPort) == ServerLines(b, OnPort(slots, udpPort), servers, 0)
  {
    var f := SlotPrinter(b, servers, udpPort);
    var g := SlotPrinter(b, servers, 0);
    forall x
      ensures f(x) == (if Shown(x, udpPort) then g(x) else [])
    {
    }
    ConcatOnPort(slots, udpPort, f, g);
  }

  /** Without a filter the relay copy prints exactly one line per server,
      "Port <p> - <ip>,<ref_count>", in slot order. */
  lemma RelayLinePerServer(b: Build, slots: seq<Option<ServerKey>>, servers: map<ServerKey, nat>)
    requires b.Relay? && AllSet(slots)
    ensures var r := ServerLines(b, slots, servers, 0);
      |r| == |slots| &&
      forall i :: 0 <= i < |slots| ==> r[i] == RelayServerLine(slots[i].value, RefCount(servers, slots[i].value))
  {
    var f := SlotPrinter(b, servers, 0);
    var g: Option<ServerKey> -> string := (slot: Option<ServerKey>) => if slot.Some? then RelayServerLine(slot.value, RefCount(servers, slot.value)) else "";
    forall i | 0 <= i < |slots|
      ensures f(slots[i]) == [g(slots[i])]
    {
    }
    ConcatOneEach(slots, f, g);
  }

  /** Without a filter the udpfwd copy prints three lines per server. */
  lemma UdpfwdLinesPerServer(b: Build, slots: seq<Option<ServerKey>>, servers: map<ServerKey, nat>)
    requires b.Udpfwd? && AllSet(slots)
    ensures |ServerLines(b, slots, servers, 0)| == 3 * |slots|
  {
    var f := SlotPrinter(b, servers, 0);
    forall i | 0 <= i < |slots|
      ensures |f(slots[i])| == 3
    {
    }
    ConcatLength(slots, f, 3);
  }

  /** The block header: "Interface : <name>" in the udpfwd copy; in the
      relay copy "Interface <name>: <addrCount>", followed under
      FTR_DHCP_RELAY by the eight counters and the bootp gateway. */
  function HeaderLines(b: Build, name: string, node: IntfNode<ServerKey>, st: IntfStats): seq<string>
  {
    if b.Udpfwd? then ["Interface : " + name]
    else
      ["Interface " + name + ": " + NatToDecimal(node.addrCount)] +
      (if b.ftrDhcpRelay then
         ["client request dropped packets = " + CounterText(st.clientDrops),
          "client request valid packets = " + CounterText(st.clientValids),
          "server request dropped packets = " + CounterText(st.servDrops),
          "server request valid packets = " + CounterText(st.servValids),
          "client request dropped packets with option 82 = " + CounterText(st.clientDropsWithOption82),
          "client request valid packets with option 82 = " + CounterText(st.clientValidsWithOption82),
          "server request dropped packets with option 82 = " + CounterText(st.servDropsWithOption82),
          "server request valid packets with option 82 = " + CounterText(st.servValidsWithOption82),
          DottedQuad(st.bootpGw)]
       else [])
  }

  /** The line printed when a port filter matches no server. */
  function NoAddressLines(slots: seq<Option<ServerKey>>, udpPort: u16): seq<string>
  {
    if !AnyShown(slots, udpPort) && udpPort != 0 then
      ["No IP address associated with this port: " + NatToDecimal(udpPort)]
    else []
  }

  /** udpfwd_interface_dump's lines for the interface `name`. */
  function InterfaceLines(b: Build, name: string, node: IntfNode<ServerKey>, servers: map<ServerKey, nat>, udpPort: u16, st: IntfStats): seq<string>
  {
    HeaderLines(b, name, node, st) + ServerLines(b, Slots(node), servers, udpPort) + NoAddressLines(Slots(node), udpPort)
  }

  /** udpfwd_interface_dump, appending to `ds`, which holds the text of
      `lines` after `base`. */
  method InterfaceDump(ds: string, ghost base: string, ghost lines: seq<string>, b: Build, name: string,
                       node: IntfNode<ServerKey>, servers: map<ServerKey, nat>, udpPort: u16, st: IntfStats)
    returns (out: string)
    requires NodeOk(node, MAX_UDP_BCAST_SERVER_PER_INTERFACE)
    requires ds == base + Text(lines)
    ensures out == base + Text(lines + InterfaceLines(b, name, node, servers, udpPort, st))
  {
    var header := HeaderLines(b, name, node, st);
    out := PutLines(ds, base, lines, header);
    var found;
    out, found := PutServers(out, base, lines + header, b, node, servers, udpPort);
    ghost var shown := ServerLines(b, Slots(node), servers, udpPort);
    ghost var tail: seq<string> := [];
    if !found && udpPort != 0 {
      out := Put(out, base, lines + header + shown, "No IP address associated with this port: " + NatToDecimal(udpPort));
      tail := ["No IP address associated with this port: " + NatToDecimal(udpPort)];
    } else {
      AppendEmpty(lines + header + shown);
    }
    assert tail == NoAddressLines(Slots(node), udpPort);
    Assoc(lines, header, shown, tail);
  }

  lemma AppendEmpty(x: seq<string>)
    ensures x + [] == x
  {
  }

  lemma Assoc(a: seq<string>, b: seq<string>, c: seq<string>, d: seq<string>)
    ensures a + b + c + d == a + (b + c + d)
  {
  }

  /** The loop of udpfwd_interface_dump over the interface's servers;
      `found` tells whether any of them passed the port filter. */
  method PutServers(ds: string, ghost base: string, ghost lines: seq<string>, b: Build,
                    node: IntfNode<ServerKey>, servers: map<ServerKey, nat>, udpPort: u16)
    returns (out: string, found: bool)
    requires NodeOk(node, MAX_UDP_BCAST_SERVER_PER_INTERFACE)
    requires ds == base + Text(lines)
    ensures out == base + Text(lines + ServerLines(b, Slots(node), servers, udpPort))
    ensures found <==> AnyShown(Slots(node), udpPort)
  {
    ghost var slots := Slots(node);
    out := ds;
    found := false;
    var iter := 0;
    AppendEmpty(lines);
    while iter < node.addrCount
      invariant iter <= node.addrCount == |slots|
      invariant out == base + Text(lines + ServerLines(b, slots[..iter], servers, udpPort))
      invariant found <==> AnyShown(slots[..iter], udpPort)
    {
      var slot := node.serverArray.value[iter];
      var server := slot.value;
      assert slots[iter] == slot;
      ghost var done := ServerLines(b, slots[..iter], servers, udpPort);
      ServerLinesStep(b, slots, servers, udpPort, iter);
      if !(udpPort != 0 && udpPort != server.udpPort) {
        found := true;
        out := PutLines(out, base, lines + done, SlotLines(b, slot, servers, udpPort));
        AssocSnoc(lines, done, SlotLines(b, slot, servers, udpPort));
      } else {
        AppendEmpty(done);
      }
      ShownStep(slots, iter, udpPort);
      iter := iter + 1;
    }
    assert slots[..iter] == slots;
  }

  lemma AssocSnoc(a: seq<string>, b: seq<string>, c: seq<string>)
    ensures a + b + c == a + (b + c)
  {
  }

  /** ServerLines after one more slot. */
  lemma ServerLinesStep(b: Build, slots: seq<Option<ServerKey>>, servers: map<ServerKey, nat>, udpPort: u16, iter: nat)
    requires iter < |slots|
    ensures ServerLines(b, slots[..iter + 1], servers, udpPort)
         == ServerLines(b, slots[..iter], servers, udpPort) + SlotLines(b, slots[iter], servers, udpPort)
  {
    ConcatStep(slots, SlotPrinter(b, servers, udpPort), iter);
  }

  /** `found` after one more slot. */
  lemma ShownStep(slots: seq<Option<ServerKey>>, iter: nat, udpPort: u16)
    requires iter < |slots|
    ensures AnyShown(slots[..iter + 1], udpPort) <==> AnyShown(slots[..iter], udpPort) || Shown(slots[iter], udpPort)
  {
    if AnyShown(slots[..iter + 1], udpPort) && !Shown(slots[iter], udpPort) {
      var i :| 0 <= i < iter + 1 && Shown(slots[..iter + 1][i], udpPort);
      assert i < iter && slots[..iter][i] == slots[..iter + 1][i];
    }
    if AnyShown(slots[..iter], udpPort) {
      var i :| 0 <= i < iter && Shown(slots[..iter][i], udpPort);
      assert slots[..iter + 1][i] == slots[..iter][i];
    }
    if Shown(slots[iter], udpPort) {
      assert slots[..iter + 1][iter] == slots[iter];
    }
  }

  /** One ds_put_format of a whole line onto `ds`, which holds the text of
      `lines` after `base`. */
  method Put(ds: string, ghost base: string, ghost lines: seq<string>, line: string) returns (out: string)
    requires ds == base + Text(lines)
    ensures out == base + Text(lines + [line])
  {
    out := ds + line + "\n";
    assert (lines + [line])[..|lines|] == lines;
  }

  /** The ds_put_format calls for the lines `more`, one after the other. */
  method PutLines(ds: string, ghost base: string, ghost lines: seq<string>, more: seq<string>) returns (out: string)
    requires ds == base + Text(lines)
    ensures out == base + Text(lines + more)
  {
    out := ds;
    var i := 0;
    assert lines + more[..0] == lines;
    while i < |more|
      invariant i <= |more|
      invariant out == base + Text(lines + more[..i])
    {
      out := Put(out, base, lines + more[..i], more[i]);
      assert lines + more[..i] + [more[i]] == lines + more[..i + 1];
      i := i + 1;
    }
    assert more[..i] == more;
  }

  /** The line of the component test that shares the helper 10.10.10.1
      (port 67) between four interfaces: the relay copy prints it as
      "Port 67 - 10.10.10.1,4". */
  lemma SharedHelperLine(k: ServerKey)
    requires k == ServerKey(0x0A0A_0A01, 67)
    ensures RelayServerLine(k, 4) == "Port " + "67" + " - " + "10.10.10.1" + "," + "4"
  {
    SmallDecimals();
    HelperAddressText();
    var p := NatToDecimal(k.udpPort);
    var ip := DottedQuad(k.ip);
    assert p == "67" && ip == "10.10.10.1";
  }

  /** inet_ntoa of the helper address 10.10.10.1. */
  lemma HelperAddressText()
    ensures DottedQuad(0x0A0A_0A01) == "10.10.10.1"
  {
    SmallDecimals();
    assert Octets(0x0A0A_0A01) == [10, 10, 10, 1];
  }

  lemma SmallDecimals()
    ensures NatToDecimal(1) == "1" && NatToDecimal(4) == "4"
    ensures NatToDecimal(10) == "10" && NatToDecimal(67) == "67"
  {
    assert NatToDecimal(1) == [DigitChar(1)];
    assert NatToDecimal(4) == [DigitChar(4)];
    assert NatToDecimal(10) == [DigitChar(1)] + [DigitChar(0)];
    assert NatToDecimal(67) == [DigitChar(6)] + [DigitChar(7)];
  }

  // ---------------------------------------------------------------------
  // The whole dump.

  /** `order` is the iteration order of the interface hash table: every
      interface exactly once. */
  predicate Listing(order: seq<string>, t: map<string, IntfNode<ServerKey>>)
  {
    (forall i :: 0 <= i < |order| ==> order[i] in t) &&
    (forall n :: n in t ==> n in order) &&
    (forall i, j :: 0 <= i < j < |order| ==> order[i] != order[j])
  }

  /** The blocks of the interfaces in `order`. */
  function AllInterfaces(b: Build, t: map<string, IntfNode<ServerKey>>, servers: map<ServerKey, nat>,
                         stats: string -> IntfStats, udpPort: u16, order: seq<string>): seq<string>
    requires forall i :: 0 <= i < |order| ==> order[i] in t
    decreases |order|
  {
    if order == [] then []
    else
      var last := |order| - 1;
      AllInterfaces(b, t, servers, stats, udpPort, order[..last]) + InterfaceLines(b, order[last], t[order[last]], servers, udpPort, stats(order[last]))
  }

  /** The lines of udpfwd_interfaces_dump: the global lines, then every
      interface (no name given), the named one, or the message for a name
      the table does not hold. */
  function DumpLines(b: Build, s: Settings, t: map<string, IntfNode<ServerKey>>, servers: map<ServerKey, nat>,
                     stats: string -> IntfStats, ifName: Option<string>, udpPort: u16, order: seq<string>): seq<string>
    requires ifName.None? ==> Listing(order, t)
  {
    GlobalLines(b, s) +
    match ifName
    case None => AllInterfaces(b, t, servers, stats, udpPort, order)
    case Some(name) =>
      if name in t then InterfaceLines(b, name, t[name], servers, udpPort, stats(name))
      else ["No servers are configured on this interface :" + name]
  }

  /** Asking for an interface the table does not hold prints the global
      lines and then only the "No servers are configured" message; asking
      for one it holds prints that interface's block after the global
      lines. */
  lemma NamedInterface(b: Build, s: Settings, t: map<string, IntfNode<ServerKey>>, servers: map<ServerKey, nat>,
                       stats: string -> IntfStats, name: string, udpPort: u16, order: seq<string>)
    ensures var d := DumpLines(b, s, t, servers, stats, Some(name), udpPort, order);
      d[..|GlobalLines(b, s)|] == GlobalLines(b, s) &&
      (name !in t ==> d[|GlobalLines(b, s)|..] == ["No servers are configured on this interface :" + name]) &&
      (name in t ==> d[|GlobalLines(b, s)|..][0] == (if b.Udpfwd? then "Interface : " + name else "Interface " + name + ": " + NatToDecimal(t[name].addrCount)))
  {
    var g := GlobalLines(b, s);
    var d := DumpLines(b, s, t, servers, stats, Some(name), udpPort, order);
    assert d[..|g|] == g;
    if name in t {
      var block := InterfaceLines(b, name, t[name], servers, udpPort, stats(name));
      assert d[|g|..] == block;
      assert block[0] == HeaderLines(b, name, t[name], stats(name))[0];
    }
  }

  /** Every interface of a valid table is well formed. */
  lemma ValidNodes(capacity: nat, servers: map<ServerKey, nat>, t: map<string, IntfNode<ServerKey>>)
    requires Consistent(capacity, servers, t)
    ensures forall n :: n in t ==> NodeOk(t[n], capacity)
  {
  }

  /** SHASH_FOR_EACH over the interface table: every interface of `order`
      dumped in turn. */
  method PutAllInterfaces(ds: string, ghost base: string, ghost lines: seq<string>, b: Build,
                          t: map<string, IntfNode<ServerKey>>, servers: map<ServerKey, nat>,
                          stats: string -> IntfStats, udpPort: u16, order: seq<string>)
    returns (out: string)
    requires forall i :: 0 <= i < |order| ==> order[i] in t && NodeOk(t[order[i]], MAX_UDP_BCAST_SERVER_PER_INTERFACE)
    requires ds == base + Text(lines)
    ensures out == base + Text(lines + AllInterfaces(b, t, servers, stats, udpPort, order))
  {
    out := ds;
    var iter := 0;
    AppendEmpty(lines);
    while iter < |order|
      invariant iter <= |order|
      invariant out == base + Text(lines + AllInterfaces(b, t, servers, stats, udpPort, order[..iter]))
    {
      var name := order[iter];
      ghost var done := AllInterfaces(b, t, servers, stats, udpPort, order[..iter]);
      out := InterfaceDump(out, base, lines + done, b, name, t[name], servers, udpPort, stats(name));
      AllInterfacesStep(b, t, servers, stats, udpPort, order, iter);
      AssocSnoc(lines, done, InterfaceLines(b, name, t[name], servers, udpPort, stats(name)));
      iter := iter + 1;
    }
    assert order[..iter] == order;
  }

  /** AllInterfaces after one more interface. */
  lemma AllInterfacesStep(b: Build, t: map<string, IntfNode<ServerKey>>, servers: map<ServerKey, nat>,
                          stats: string -> IntfStats, udpPort: u16, order: seq<string>, iter: nat)
    requires forall i :: 0 <= i < |order| ==> order[i] in t
    requires iter < |order|
    ensures AllInterfaces(b, t, servers, stats, udpPort, order[..iter + 1])
         == AllInterfaces(b, t, servers, stats, udpPort, order[..iter])
            + InterfaceLines(b, order[iter], t[order[iter]], servers, udpPort, stats(order[iter]))
  {
    assert order[..iter + 1][..iter] == order[..iter];
  }

  /** udpfwd_interfaces_dump on the control block and the server tables,
      for the interface `ifName` (None: all of them, visited in `order`)
      and the port filter `udpPort` (0: none). */
  method InterfacesDump(cb: ControlBlock, tables: Tables<ServerKey>, stats: string -> IntfStats,
                        ifName: Option<string>, udpPort: u16, order: seq<string>)
    returns (ds: string)
    requires tables.Valid() && tables.capacity == MAX_UDP_BCAST_SERVER_PER_INTERFACE
    requires ifName.None? ==> Listing(order, tables.intfHashTable)
    ensures ds == Text(DumpLines(cb.build, cb.Value(), tables.intfHashTable, tables.serverHashMap, stats, ifName, udpPort, order))
  {
    var t := tables.intfHashTable;
    var servers := tables.serverHashMap;
    ValidNodes(tables.capacity, servers, t);
    var g := GlobalLines(cb.build, cb.Value());
    assert "" == "" + Text([]);
    ds := PutLines("", "", [], g);
    assert [] + g == g;
    ghost var rest: seq<string>;
    if ifName.None? {
      ds := PutAllInterfaces(ds, "", g, cb.build, t, servers, stats, udpPort, order);
      rest := AllInterfaces(cb.build, t, servers, stats, udpPort, order);
    } else {
      var name := ifName.value;
      if name !in t {
        ds := Put(ds, "", g, "No servers are configured on this interface :" + name);
        rest := ["No servers are configured on this interface :" + name];
      } else {
        ds := InterfaceDump(ds, "", g, cb.build, name, t[name], servers, udpPort, stats(name));
        rest := InterfaceLines(cb.build, name, t[name], servers, udpPort, stats(name));
      }
    }
    assert g + rest == DumpLines(cb.build, cb.Value(), t, servers, stats, ifName, udpPort, order);
    assert "" + ds == ds;
  }
}
