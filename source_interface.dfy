// Source-interface selection: which address or interface the TFTP, TACACS
// and RADIUS clients use as their source, stored in the default VRF row, the
// CLI commands that set and clear it, and its running-config lines.

module SourceInterface {
  import opened Common

  // `SOURCE_INTERFACE_PROTOCOL`: the protocols, indexed as in the C enum.
  const TFTP_PROTOCOL := 0
  const TACACS_PROTOCOL := 1
  const RADIUS_PROTOCOL := 2
  const ALL_PROTOCOL := 3
  const PROTOCOL_MAX := 4

  /** `protocol_keys`: the key of each protocol in the VRF row's maps. */
  function ProtocolKey(t: nat): string
    requires t < PROTOCOL_MAX
  {
    if t == TFTP_PROTOCOL then "tftp"
    else if t == TACACS_PROTOCOL then "tacacs"
    else if t == RADIUS_PROTOCOL then "radius"
    else "all"
  }

  datatype ConfigType = SourceIp | SourceInterface

  /** A protocol's source and how it was configured. */
  datatype ProtoSource = ProtoSource(source: string, configType: ConfigType)

  /** One entry of the VRF row's `source_interface` column: a protocol key
      and the port it names. */
  datatype Binding = Binding(key: string, port: string)

  /** A row of the Port table: its name, primary address and secondary
      addresses, each address in `A.B.C.D/len` form. */
  datatype PortRow = PortRow(name: string, ip4Address: Option<string>, secondary: seq<string>)

  datatype CmdResult = CmdSuccess | CmdOvsdbFailure

  /** Outcome of committing the configuration transaction. */
  datatype TxnStatus = TxnSuccess | TxnUnchanged | TxnFailed

  const VRF_ERROR := "Error: Could not fetch default VRF data."
  const IP_NOT_CONFIGURED := "Specified IP address is not configured on any interface."
  const NO_IP_ON_INTERFACE := "No IP address is configured on the specified interface."
  const UNKNOWN_PROTOCOL := "Spefied type is unknown protocol."

  /** The default VRF row: its `source_ip` map and `source_interface`
      entries, rewritten by the CLI commands. */
  class VrfRow {
    var sourceIp: map<string, string>
    var sourceInterface: seq<Binding>

    constructor (ips: map<string, string>, bindings: seq<Binding>)
      ensures sourceIp == ips && sourceInterface == bindings
    {
      sourceIp := ips;
      sourceInterface := bindings;
    }

    /** `update_protocol_source_ip`: sets or removes the protocol's
        source-IP entry. */
    method UpdateSourceIp(source: string, key: string, add: bool)
      modifies this
      ensures sourceIp == if add then old(sourceIp)[key := source] else old(sourceIp) - {key}
      ensures sourceInterface == old(sourceInterface)
    {
      if add {
        sourceIp := sourceIp[key := source];
      } else {
        sourceIp := sourceIp - {key};
      }
    }

    /** `update_protocol_source_interface`: adding copies the entries into
        arrays one longer and puts the new pair last. Removing copies the
        entries whose key does not start with `key` into arrays one shorter,
        except that a single entry is always cleared. The shorter arrays hold
        the survivors only when exactly one entry matches, which the callers
        ensure by looking the key up first. */
    method UpdateSourceInterface(port: string, key: string, add: bool)
      requires !add ==> |sourceInterface| == 1 || MatchCount(sourceInterface, key) == 1
      modifies this
      ensures add ==> sourceInterface == old(sourceInterface) + [Binding(key, port)]
      ensures !add ==> sourceInterface == if |old(sourceInterface)| == 1 then [] else Unbound(old(sourceInterface), key)
      ensures sourceIp == old(sourceIp)
    {
      var n := |sourceInterface|;
      if add {
        sourceInterface := CopyAppended(sourceInterface, Binding(key, port));
      } else if n == 1 {
        sourceInterface := [];
      } else {
        sourceInterface := CopyUnbound(sourceInterface, key);
      }
    }
  }

  // ---------------------------------------------------------------------
  // Entries of the source_interface column.

  /** Number of entries whose key starts with `key`. */
  function MatchCount(bs: seq<Binding>, key: string): nat
  {
    if bs == [] then 0
    else MatchCount(bs[..|bs| - 1], key) + (if IsPrefix(key, bs[|bs| - 1].key) then 1 else 0)
  }

  /** The entries whose key does not start with `key`, in their order. */
  function Unbound(bs: seq<Binding>, key: string): (r: seq<Binding>)
    ensures forall i :: 0 <= i < |r| ==> !IsPrefix(key, r[i].key)
  {
    if bs == [] then []
    else
      var last := bs[|bs| - 1];
      Unbound(bs[..|bs| - 1], key) + (if IsPrefix(key, last.key) then [] else [last])
  }

  /** Every entry is either kept or counted as a match. */
  /** The copy into an array one longer, the new pair last. */
  method CopyAppended(bs: seq<Binding>, b: Binding) returns (r: seq<Binding>)
    ensures r == bs + [b]
  {
    var n := |bs|;
    var lists := new Binding[n + 1];
    for i := 0 to n
      modifies lists
      invariant lists[..i] == bs[..i]
    {
      lists[i] := bs[i];
    }
    lists[n] := b;
    assert lists[..n] == bs;
    r := lists[..];
  }

  /** The copy into an array one shorter of the entries whose key does not
      start with `key`; it has room for them when exactly one entry matches. */
  method CopyUnbound(bs: seq<Binding>, key: string) returns (r: seq<Binding>)
    requires MatchCount(bs, key) == 1
    ensures r == Unbound(bs, key)
  {
    var n := |bs|;
    var lists := new Binding[n - 1];
    UnboundCount(bs, key);
    var k := 0;
    for i := 0 to n
      modifies lists
      invariant k <= lists.Length && lists[..k] == Unbound(bs[..i], key)
    {
      assert bs[..i + 1][..i] == bs[..i];
      if !IsPrefix(key, bs[i].key) {
        UnboundRoom(bs, i, key);
        lists[k] := bs[i];
        k := k + 1;
      }
    }
    assert bs[..n] == bs;
    r := lists[..k];
  }

  lemma {:induction false} UnboundCount(bs: seq<Binding>, key: string)
    ensures |Unbound(bs, key)| + MatchCount(bs, key) == |bs|
  {
    if bs != [] {
      UnboundCount(bs[..|bs| - 1], key);
    }
  }

  /** Removing from a concatenation removes from each part. */
  lemma {:induction false} UnboundAppend(a: seq<Binding>, b: seq<Binding>, key: string)
    ensures Unbound(a + b, key) == Unbound(a, key) + Unbound(b, key)
    ensures MatchCount(a + b, key) == MatchCount(a, key) + MatchCount(b, key)
  {
    if b == [] {
      assert a + b == a;
    } else {
      assert (a + b)[..|a + b| - 1] == a + b[..|b| - 1];
      UnboundAppend(a, b[..|b| - 1], key);
    }
  }

  /** A survivor still to be copied has a place in the result. */
  lemma UnboundRoom(bs: seq<Binding>, i: nat, key: string)
    requires i < |bs| && !IsPrefix(key, bs[i].key)
    ensures |Unbound(bs[..i], key)| < |Unbound(bs, key)|
  {
    assert bs[..i + 1][..i] == bs[..i];
    assert bs == bs[..i + 1] + bs[i + 1..];
    UnboundAppend(bs[..i + 1], bs[i + 1..], key);
  }

  /** The removal keeps every entry of another key, once per occurrence. */
  lemma {:induction false} UnboundKeeps(bs: seq<Binding>, key: string)
    ensures forall b: Binding :: !IsPrefix(key, b.key) ==> multiset(Unbound(bs, key))[b] == multiset(bs)[b]
    ensures forall b: Binding :: IsPrefix(key, b.key) ==> b !in Unbound(bs, key)
  {
    if bs != [] {
      assert bs == bs[..|bs| - 1] + [bs[|bs| - 1]];
      UnboundKeeps(bs[..|bs| - 1], key);
    }
  }

  /** No entry matches exactly when the count is zero. */
  lemma {:induction false} MatchCountZero(bs: seq<Binding>, key: string)
    ensures MatchCount(bs, key) == 0 <==> forall j :: 0 <= j < |bs| ==> !IsPrefix(key, bs[j].key)
  {
    if bs != [] {
      MatchCountZero(bs[..|bs| - 1], key);
      assert forall j :: 0 <= j < |bs| - 1 ==> bs[..|bs| - 1][j] == bs[j];
    }
  }

  /** Index of the first entry whose key starts with `key`. */
  function FirstBinding(bs: seq<Binding>, key: string): (r: Option<nat>)
    ensures r.Some? ==> r.value < |bs| && IsPrefix(key, bs[r.value].key)
                        && forall j :: 0 <= j < r.value ==> !IsPrefix(key, bs[j].key)
    ensures r.None? <==> forall j :: 0 <= j < |bs| ==> !IsPrefix(key, bs[j].key)
  {
    if bs == [] then None
    else if IsPrefix(key, bs[0].key) then Some(0)
    else
      var r := FirstBinding(bs[1..], key);
      assert forall j :: 1 <= j < |bs| ==> bs[j] == bs[1..][j - 1];
      if r.Some? then Some(r.value + 1) else None
  }

  /** What the two updates do to the number of entries of a key: an append
      adds one, a removal leaves none. */
  lemma {:induction false} MatchCountSteps(bs: seq<Binding>, key: string, port: string)
    ensures MatchCount(bs + [Binding(key, port)], key) == MatchCount(bs, key) + 1
    ensures MatchCount(Unbound(bs, key), key) == 0
  {
    assert (bs + [Binding(key, port)])[..|bs|] == bs;
    assert IsPrefix(key, Binding(key, port).key) by {
      assert key[..|key|] == key;
    }
    MatchCountZero(Unbound(bs, key), key);
  }

  /** Setting a protocol's source interface twice appends a second entry of
      its key, and the lookup still finds the first one. */
  lemma ReSetKeepsFirst(bs: seq<Binding>, key: string, first: string, second: string)
    requires MatchCount(bs, key) == 0
    ensures MatchCount(bs + [Binding(key, first)] + [Binding(key, second)], key) == 2
    ensures FirstBinding(bs + [Binding(key, first)] + [Binding(key, second)], key) == Some(|bs|)
  {
    var once := bs + [Binding(key, first)];
    var twice := once + [Binding(key, second)];
    MatchCountSteps(bs, key, first);
    MatchCountSteps(once, key, second);
    MatchCountZero(bs, key);
    assert forall j :: 0 <= j < |bs| ==> twice[j] == bs[j];
    assert IsPrefix(key, twice[|bs|].key) by {
      assert twice[|bs|].key[..|key|] == key;
    }
    FirstBindingAt(twice, key, |bs|);
  }

  /** After removal no entry of the key is left. */
  lemma NoneLeftAfterRemoval(bs: seq<Binding>, key: string)
    ensures FirstBinding(Unbound(bs, key), key).None?
  {
  }

  /** An appended entry is found when no earlier entry has its key. */
  lemma {:induction false} FirstBindingAppended(bs: seq<Binding>, key: string, port: string)
    requires FirstBinding(bs, key).None?
    ensures FirstBinding(bs + [Binding(key, port)], key) == Some(|bs|)
  {
    var s := bs + [Binding(key, port)];
    assert IsPrefix(key, s[|bs|].key) by {
      assert s[|bs|].key[..|key|] == key;
    }
    assert forall j :: 0 <= j < |bs| ==> s[j] == bs[j];
  }

  // ---------------------------------------------------------------------
  // Reading the configuration.

  /** What `get_configured_protocol_source_local` reports for protocol `t`
      on a VRF row (null when the VRF lookup fails). */
  function ConfiguredSource(t: nat, vrf: VrfRow?): (r: Option<ProtoSource>)
    reads vrf
    ensures (r.Some? && r.value.configType == SourceIp)
              <==> t < PROTOCOL_MAX && vrf != null && ProtocolKey(t) in vrf.sourceIp
    ensures r.Some? && r.value.configType == SourceIp ==> r.value.source == vrf.sourceIp[ProtocolKey(t)]
    ensures (r.Some? && r.value.configType == SourceInterface)
              <==> t < PROTOCOL_MAX && vrf != null && ProtocolKey(t) !in vrf.sourceIp
                   && exists i :: 0 <= i < |vrf.sourceInterface| && IsPrefix(ProtocolKey(t), vrf.sourceInterface[i].key)
    ensures r.Some? && r.value.configType == SourceInterface ==>
              exists i :: 0 <= i < |vrf.sourceInterface| && IsPrefix(ProtocolKey(t), vrf.sourceInterface[i].key)
                          && vrf.sourceInterface[i].port == r.value.source
  {
    if t >= PROTOCOL_MAX || vrf == null then None
    else
      var key := ProtocolKey(t);
      if key in vrf.sourceIp then Some(ProtoSource(vrf.sourceIp[key], SourceIp))
      else match FirstBinding(vrf.sourceInterface, key)
        case Some(i) => Some(ProtoSource(vrf.sourceInterface[i].port, SourceInterface))
        case None => None
  }

  /** A protocol has a configuration exactly when it has a source-IP entry
      or a source-interface entry. */
  lemma ConfiguredParts(t: nat, vrf: VrfRow)
    requires t < PROTOCOL_MAX
    ensures ConfiguredSource(t, vrf).None? <==>
              ProtocolKey(t) !in vrf.sourceIp && FirstBinding(vrf.sourceInterface, ProtocolKey(t)).None?
  {
  }

  /** `get_configured_protocol_source_local`: the source-IP entry if there is
      one, else the first source-interface entry of the protocol. */
  method GetConfiguredProtocolSource(t: nat, vrf: VrfRow?) returns (r: Option<ProtoSource>)
    ensures r == ConfiguredSource(t, vrf)
  {
    if t >= PROTOCOL_MAX || vrf == null {
      return None;
    }
    var key := ProtocolKey(t);
    if key in vrf.sourceIp {
      return Some(ProtoSource(vrf.sourceIp[key], SourceIp));
    }
    var bs := vrf.sourceInterface;
    for i := 0 to |bs|
      invariant forall j :: 0 <= j < i ==> !IsPrefix(key, bs[j].key)
    {
      if IsPrefix(key, bs[i].key) {
        assert FirstBinding(bs, key) == Some(i) by {
          FirstBindingAt(bs, key, i);
        }
        return Some(ProtoSource(bs[i].port, SourceInterface));
      }
    }
    return None;
  }

  /** The first match is unique. */
  lemma FirstBindingAt(bs: seq<Binding>, key: string, i: nat)
    requires i < |bs| && IsPrefix(key, bs[i].key)
    requires forall j :: 0 <= j < i ==> !IsPrefix(key, bs[j].key)
    ensures FirstBinding(bs, key) == Some(i)
  {
  }

  /** What `get_protocol_source_local` reports: the protocol's own source,
      else (for a specific protocol) the source configured for all. Both come
      from the default VRF whatever VRF the caller names. */
  function ProtocolSource(t: nat, defaultVrf: VrfRow?): (r: Option<ProtoSource>)
    reads defaultVrf
  {
    match ConfiguredSource(t, defaultVrf)
    case Some(s) => Some(s)
    case None => if t != ALL_PROTOCOL then ConfiguredSource(ALL_PROTOCOL, defaultVrf) else None
  }

  /** `get_protocol_source_local`. */
  method GetProtocolSourceLocal(t: nat, defaultVrf: VrfRow?) returns (r: Option<ProtoSource>)
    ensures r == ProtocolSource(t, defaultVrf)
  {
    r := GetConfiguredProtocolSource(t, defaultVrf);
    if r.Some? {
      return;
    }
    if t != ALL_PROTOCOL {
      r := GetConfiguredProtocolSource(ALL_PROTOCOL, defaultVrf);
    }
  }

  /** A protocol's own configuration wins over the common one; without one
      a specific protocol falls back to the common one, and the common
      protocol itself has no fallback. */
  lemma FallbackToAll(t: nat, vrf: VrfRow?)
    ensures ConfiguredSource(t, vrf).Some? ==> ProtocolSource(t, vrf) == ConfiguredSource(t, vrf)
    ensures ConfiguredSource(t, vrf).None? && t != ALL_PROTOCOL ==>
              ProtocolSource(t, vrf) == ConfiguredSource(ALL_PROTOCOL, vrf)
    ensures ProtocolSource(ALL_PROTOCOL, vrf) == ConfiguredSource(ALL_PROTOCOL, vrf)
    ensures t >= PROTOCOL_MAX || vrf == null ==> ProtocolSource(t, vrf) == ConfiguredSource(ALL_PROTOCOL, vrf)
  {
  }

  /** `source_interface_lookup`: whether some source-interface entry's key
      starts with `key`. */
  method SourceInterfaceLookup(vrf: VrfRow?, key: string) returns (found: bool, messages: seq<string>)
    ensures vrf == null ==> !found && messages == [VRF_ERROR]
    ensures vrf != null ==> messages == [] && (found <==> FirstBinding(vrf.sourceInterface, key).Some?)
  {
    if vrf == null {
      return false, [VRF_ERROR];
    }
    found, messages := false, [];
    var bs := vrf.sourceInterface;
    for i := 0 to |bs|
      invariant forall j :: 0 <= j < i ==> !IsPrefix(key, bs[j].key)
    {
      if IsPrefix(key, bs[i].key) {
        return true, [];
      }
    }
  }

  /** `get_protocol_by_name`: the first of TFTP, TACACS and RADIUS whose key
      starts with the name, and the common protocol otherwise. */
  function ProtocolByName(name: string): nat
  {
    if IsPrefix(name, ProtocolKey(TFTP_PROTOCOL)) then TFTP_PROTOCOL
    else if IsPrefix(name, ProtocolKey(TACACS_PROTOCOL)) then TACACS_PROTOCOL
    else if IsPrefix(name, ProtocolKey(RADIUS_PROTOCOL)) then RADIUS_PROTOCOL
    else ALL_PROTOCOL
  }

  /** Each protocol's own key selects that protocol. */
  lemma ProtocolByOwnKey(t: nat)
    requires t < PROTOCOL_MAX
    ensures ProtocolByName(ProtocolKey(t)) == t
  {
    var k := ProtocolKey(t);
    if t != TFTP_PROTOCOL {
      assert k[0] != 't' || k[1] != 'f';
      assert !IsPrefix(k, ProtocolKey(TFTP_PROTOCOL));
    }
    if t != TACACS_PROTOCOL {
      assert k[0] != 't' || k[1] != 'a';
      assert !IsPrefix(k, ProtocolKey(TACACS_PROTOCOL));
    }
    if t != RADIUS_PROTOCOL {
      assert k[0] != 'r';
      assert !IsPrefix(k, ProtocolKey(RADIUS_PROTOCOL));
    }
    assert IsPrefix(k, k);
  }

  // ---------------------------------------------------------------------
  // Addresses configured on ports.

  /** Position of the first '/' in an address. */
  function MaskPosition(a: string): (n: nat)
    requires '/' in a
    ensures n < |a| && a[n] == '/' && '/' !in a[..n]
  {
    if a[0] == '/' then 0
    else
      var n := 1 + MaskPosition(a[1..]);
      assert a[..n] == [a[0]] + a[1..][..n - 1];
      n
  }

  /** Every address of every port carries a prefix length. */
  predicate CidrForm(ports: seq<PortRow>)
  {
    forall i :: 0 <= i < |ports| ==>
      (ports[i].ip4Address.Some? ==> '/' in ports[i].ip4Address.value) &&
      (forall j :: 0 <= j < |ports[i].secondary| ==> '/' in ports[i].secondary[j])
  }

  /** The address without its prefix length. */
  function AddressPart(a: string): string
    requires '/' in a
  {
    a[..MaskPosition(a)]
  }

  /** The address is the primary address of the port, or, for a port with
      no primary address, one of its secondary addresses. */
  predicate PortHasAddress(p: PortRow, source: string)
    requires p.ip4Address.Some? ==> '/' in p.ip4Address.value
    requires forall j :: 0 <= j < |p.secondary| ==> '/' in p.secondary[j]
  {
    match p.ip4Address
    case Some(a) => source == AddressPart(a)
    case None => exists j :: 0 <= j < |p.secondary| && source == AddressPart(p.secondary[j])
  }

  /** The comparison `isIpConfigured` makes: only the first `maskPosition`
      characters of the source are compared, so a source that extends the
      configured address also passes. */
  predicate PortHasAddressAsWritten(p: PortRow, source: string)
    requires p.ip4Address.Some? ==> '/' in p.ip4Address.value
    requires forall j :: 0 <= j < |p.secondary| ==> '/' in p.secondary[j]
  {
    match p.ip4Address
    case Some(a) => StrnEq(source, a, MaskPosition(a))
    case None => exists j :: 0 <= j < |p.secondary| &&
                   StrnEq(source, p.secondary[j], MaskPosition(p.secondary[j]))
  }

  /** `isIpConfigured` as written. */
  predicate IpConfiguredAsWritten(source: string, ports: seq<PortRow>)
    requires CidrForm(ports)
  {
    exists i :: 0 <= i < |ports| && PortHasAddressAsWritten(ports[i], source)
  }

  /** Exact comparison of the address part is what the prefix comparison
      means whenever the source has the address's length. */
  lemma ExactIsStrnEq(source: string, a: string)
    requires '/' in a
    ensures source == AddressPart(a) ==> StrnEq(source, a, MaskPosition(a))
  {
  }

  /** A source that extends the address part of a port's primary address
      passes the comparison as written but is not that address. */
  lemma {:induction false} AsWrittenAcceptsExtension(p: PortRow, source: string)
    requires p.ip4Address.Some? && '/' in p.ip4Address.value && p.secondary == []
    requires |source| > MaskPosition(p.ip4Address.value)
    requires source[..MaskPosition(p.ip4Address.value)] == AddressPart(p.ip4Address.value)
    ensures PortHasAddressAsWritten(p, source) && !PortHasAddress(p, source)
  {
  }

  /** "10.0.0.12" passes as configured when a port has 10.0.0.1/24, although
      no port has that address. */
  lemma AsWrittenAcceptsLongerAddress(ports: seq<PortRow>, source: string)
    requires ports == [PortRow("1", Some("10.0.0.1/24"), [])] && source == "10.0.0.12"
    ensures CidrForm(ports)
    ensures IpConfiguredAsWritten(source, ports)
    ensures forall i :: 0 <= i < |ports| ==> !PortHasAddress(ports[i], source)
  {
    var a := ports[0].ip4Address.value;
    MaskOfAddress(a);
    assert source[..8] == a[..8];
    AsWrittenAcceptsExtension(ports[0], source);
  }

  /** The mask of 10.0.0.1/24 sits after its eight address characters. */
  lemma MaskOfAddress(a: string)
    requires a == "10.0.0.1/24"
    ensures '/' in a && MaskPosition(a) == 8
  {
    assert a[8] == '/';
    var n := MaskPosition(a);
    assert '/' !in a[..8];
  }

  /** The secondary addresses of the port: the loop over
      `ip4_address_secondary`. */
  method SecondaryHas(p: PortRow, source: string) returns (found: bool)
    requires forall j :: 0 <= j < |p.secondary| ==> '/' in p.secondary[j]
    ensures found <==> exists j :: 0 <= j < |p.secondary| && source == AddressPart(p.secondary[j])
  {
    for j := 0 to |p.secondary|
      invariant forall k :: 0 <= k < j ==> source != AddressPart(p.secondary[k])
    {
      var a := p.secondary[j];
      var maskPosition := MaskPosition(a);
      if source == a[..maskPosition] {
        return true;
      }
    }
    return false;
  }

  /** `isIpConfigured`, comparing the whole address part: whether some
      port has the source as its primary address, or, having none, as a
      secondary address. */
  method IsIpConfigured(source: string, ports: seq<PortRow>) returns (configured: bool)
    requires CidrForm(ports)
    ensures configured <==> exists i :: 0 <= i < |ports| && PortHasAddress(ports[i], source)
  {
    for i := 0 to |ports|
      invariant forall k :: 0 <= k < i ==> !PortHasAddress(ports[k], source)
    {
      var p := ports[i];
      if p.ip4Address.Some? {
        var a := p.ip4Address.value;
        var maskPosition := MaskPosition(a);
        if source == a[..maskPosition] {
          return true;
        }
      } else {
        var found := SecondaryHas(p, source);
        if found {
          return true;
        }
      }
    }
    return false;
  }

  /** A port carries an address. */
  predicate HasAddress(p: PortRow)
  {
    p.ip4Address.Some? || |p.secondary| >= 1
  }

  /** The port `getPort` should return: the first port of that name with an
      address. */
  function PortNamed(ports: seq<PortRow>, ifName: string): (r: Option<PortRow>)
    ensures r.Some? ==> r.value in ports && r.value.name == ifName && HasAddress(r.value)
    ensures r.None? <==> forall i :: 0 <= i < |ports| ==> ports[i].name != ifName || !HasAddress(ports[i])
  {
    if ports == [] then None
    else if ports[0].name == ifName && HasAddress(ports[0]) then Some(ports[0])
    else
      var r := PortNamed(ports[1..], ifName);
      assert forall i :: 1 <= i < |ports| ==> ports[i] == ports[1..][i - 1];
      r
  }

  /** `getPort` as written: the first port with an address whose name merely
      starts with the requested name. */
  function PortNamedAsWritten(ports: seq<PortRow>, ifName: string): (r: Option<PortRow>)
    ensures r.Some? ==> r.value in ports && IsPrefix(ifName, r.value.name) && HasAddress(r.value)
  {
    if ports == [] then None
    else if IsPrefix(ifName, ports[0].name) && HasAddress(ports[0]) then Some(ports[0])
    else PortNamedAsWritten(ports[1..], ifName)
  }

  /** Asking for interface "1" yields port "10" when that port comes first. */
  lemma AsWrittenPicksLongerName(ports: seq<PortRow>, ifName: string)
    requires ports == [PortRow("10", Some("10.0.0.1/24"), []), PortRow("1", Some("10.0.1.1/24"), [])]
    requires ifName == "1"
    ensures PortNamedAsWritten(ports, ifName) == Some(ports[0])
    ensures PortNamed(ports, ifName) == Some(ports[1])
  {
    assert IsPrefix(ifName, ports[0].name) by {
      assert ports[0].name[..1] == ifName;
    }
    assert ports[0].name != ifName by {
      assert |ports[0].name| == 2;
    }
    assert ports[1..][0] == ports[1];
  }

  /** `getPort`: the first port of that name that has an address. */
  method GetPort(ifName: string, ports: seq<PortRow>) returns (r: Option<PortRow>)
    ensures r == PortNamed(ports, ifName)
  {
    for i := 0 to |ports|
      invariant PortNamed(ports, ifName) == PortNamed(ports[i..], ifName)
    {
      assert ports[i..][1..] == ports[i + 1..];
      if ports[i].name != ifName {
        continue;
      }
      if HasAddress(ports[i]) {
        return Some(ports[i]);
      }
    }
    assert ports[|ports|..] == [];
    return None;
  }

  // ---------------------------------------------------------------------
  // The CLI commands.

  /** The command's return code once the transaction is committed. */
  function Committed(finish: TxnStatus): CmdResult
  {
    if finish == TxnSuccess || finish == TxnUnchanged then CmdSuccess else CmdOvsdbFailure
  }

  /** At most one source-interface entry per protocol, as the removal's
      buffer sizing assumes. */
  predicate KeyedOnce(vrf: VrfRow, key: string)
    reads vrf
  {
    MatchCount(vrf.sourceInterface, key) <= 1
  }

  /** `set_source_ip`: an address configured on some port becomes the
      protocol's source; its source-interface entry, if any, is removed. */
  method SetSourceIp(source: string, t: nat, vrf: VrfRow?, ports: seq<PortRow>,
                     txnStarted: bool, finish: TxnStatus)
    returns (code: CmdResult, messages: seq<string>)
    requires t < PROTOCOL_MAX && CidrForm(ports)
    requires vrf != null ==> KeyedOnce(vrf, ProtocolKey(t))
    modifies vrf
    ensures !txnStarted ==> code == CmdOvsdbFailure && messages == []
    ensures txnStarted && vrf == null ==> code == CmdOvsdbFailure && messages == [VRF_ERROR]
    ensures vrf != null && (!txnStarted || !exists i :: 0 <= i < |ports| && PortHasAddress(ports[i], source)) ==>
              vrf.sourceIp == old(vrf.sourceIp) && vrf.sourceInterface == old(vrf.sourceInterface)
    ensures txnStarted && vrf != null && !(exists i :: 0 <= i < |ports| && PortHasAddress(ports[i], source)) ==>
              code == CmdSuccess && messages == [IP_NOT_CONFIGURED]
    ensures txnStarted && vrf != null && (exists i :: 0 <= i < |ports| && PortHasAddress(ports[i], source)) ==>
              && code == Committed(finish) && messages == []
              && vrf.sourceIp == old(vrf.sourceIp)[ProtocolKey(t) := source]
              && vrf.sourceInterface == Unbound(old(vrf.sourceInterface), ProtocolKey(t))
              && ConfiguredSource(t, vrf) == Some(ProtoSource(source, SourceIp))
    ensures vrf != null ==> KeyedOnce(vrf, ProtocolKey(t))
  {
    if !txnStarted {
      return CmdOvsdbFailure, [];
    }
    if vrf == null {
      return CmdOvsdbFailure, [VRF_ERROR];
    }
    var isAddrMatch := IsIpConfigured(source, ports);
    if !isAddrMatch {
      return CmdSuccess, [IP_NOT_CONFIGURED];
    }
    var key := ProtocolKey(t);
    var match_, _ := SourceInterfaceLookup(vrf, key);
    if match_ {
      MatchCountZero(vrf.sourceInterface, key);
      vrf.UpdateSourceInterface("", key, false);
      UnboundCount(old(vrf.sourceInterface), key);
      if |old(vrf.sourceInterface)| == 1 {
        assert Unbound(old(vrf.sourceInterface), key) == [];
      }
      MatchCountSteps(old(vrf.sourceInterface), key, "");
    } else {
      UnboundNoMatch(vrf.sourceInterface, key);
    }
    vrf.UpdateSourceIp(source, key, true);
    return Committed(finish), [];
  }

  /** Without a matching entry the removal keeps everything. */
  lemma {:induction false} UnboundNoMatch(bs: seq<Binding>, key: string)
    requires FirstBinding(bs, key).None?
    ensures Unbound(bs, key) == bs
  {
    if bs != [] {
      assert FirstBinding(bs[..|bs| - 1], key).None?;
      UnboundNoMatch(bs[..|bs| - 1], key);
    }
  }

  /** `set_source_interface`: a port with an address becomes the protocol's
      source; its source-IP entry, if any, is removed and the pair is
      appended to the source-interface entries. */
  method SetSourceInterface(source: string, t: nat, vrf: VrfRow?, ports: seq<PortRow>,
                            txnStarted: bool, finish: TxnStatus)
    returns (code: CmdResult, messages: seq<string>)
    requires t < PROTOCOL_MAX
    modifies vrf
    ensures !txnStarted ==> code == CmdOvsdbFailure && messages == []
    ensures txnStarted && vrf == null ==> code == CmdOvsdbFailure && messages == [VRF_ERROR]
    ensures vrf != null && (!txnStarted || PortNamed(ports, source).None?) ==>
              vrf.sourceIp == old(vrf.sourceIp) && vrf.sourceInterface == old(vrf.sourceInterface)
    ensures txnStarted && vrf != null && PortNamed(ports, source).None? ==>
              code == CmdSuccess && messages == [NO_IP_ON_INTERFACE]
    ensures txnStarted && vrf != null && PortNamed(ports, source).Some? ==>
              && code == Committed(finish) && messages == []
              && vrf.sourceIp == old(vrf.sourceIp) - {ProtocolKey(t)}
              && vrf.sourceInterface == old(vrf.sourceInterface)
                                        + [Binding(ProtocolKey(t), PortNamed(ports, source).value.name)]
    ensures txnStarted && vrf != null && PortNamed(ports, source).Some?
            && FirstBinding(old(vrf.sourceInterface), ProtocolKey(t)).None? ==>
              ConfiguredSource(t, vrf) == Some(ProtoSource(PortNamed(ports, source).value.name, SourceInterface))
    ensures txnStarted && vrf != null && PortNamed(ports, source).Some? ==>
              MatchCount(vrf.sourceInterface, ProtocolKey(t)) == old(MatchCount(vrf.sourceInterface, ProtocolKey(t))) + 1
    ensures vrf != null && old(MatchCount(vrf.sourceInterface, ProtocolKey(t))) == 0 ==> KeyedOnce(vrf, ProtocolKey(t))
  {
    if !txnStarted {
      return CmdOvsdbFailure, [];
    }
    if vrf == null {
      return CmdOvsdbFailure, [VRF_ERROR];
    }
    var port := GetPort(source, ports);
    if port.None? {
      return CmdSuccess, [NO_IP_ON_INTERFACE];
    }
    var key := ProtocolKey(t);
    if key in vrf.sourceIp {
      vrf.UpdateSourceIp(source, key, false);
    } else {
      assert vrf.sourceIp - {key} == vrf.sourceIp;
    }
    vrf.UpdateSourceInterface(port.value.name, key, true);
    MatchCountSteps(old(vrf.sourceInterface), key, port.value.name);
    if FirstBinding(old(vrf.sourceInterface), key).None? {
      FirstBindingAppended(old(vrf.sourceInterface), key, port.value.name);
    }
    return Committed(finish), [];
  }

  /** The message `reset_source_interface` prints for a protocol that had
      nothing configured. */
  function NotConfiguredMessage(t: nat): string
    requires t < PROTOCOL_MAX
  {
    if t == ALL_PROTOCOL then "Common source interface is not configured."
    else if t == TFTP_PROTOCOL then "TFTP Source interface is not configured."
    else if t == TACACS_PROTOCOL then "TACACS Source interface is not configured."
    else "RADIUS Source interface is not configured."
  }

  /** `reset_source_interface`: removes both kinds of entry of the protocol,
      and says so when there was neither. */
  method ResetSourceInterface(t: nat, vrf: VrfRow?, txnStarted: bool, finish: TxnStatus)
    returns (code: CmdResult, messages: seq<string>)
    requires vrf != null && t < PROTOCOL_MAX ==> KeyedOnce(vrf, ProtocolKey(t))
    modifies vrf
    ensures !txnStarted ==> code == CmdOvsdbFailure && messages == []
    ensures txnStarted && vrf == null ==> code == CmdOvsdbFailure && messages == [VRF_ERROR]
    ensures txnStarted && vrf != null && t >= PROTOCOL_MAX ==> code == CmdOvsdbFailure && messages == [UNKNOWN_PROTOCOL]
    ensures vrf != null && (!txnStarted || t >= PROTOCOL_MAX) ==>
              vrf.sourceIp == old(vrf.sourceIp) && vrf.sourceInterface == old(vrf.sourceInterface)
    ensures txnStarted && vrf != null && t < PROTOCOL_MAX ==>
              && code == Committed(finish)
              && vrf.sourceIp == old(vrf.sourceIp) - {ProtocolKey(t)}
              && vrf.sourceInterface == Unbound(old(vrf.sourceInterface), ProtocolKey(t))
              && ConfiguredSource(t, vrf).None?
              && (messages == [NotConfiguredMessage(t)] <==> old(ConfiguredSource(t, vrf)).None?)
              && (messages == [] <==> old(ConfiguredSource(t, vrf)).Some?)
    ensures vrf != null && t < PROTOCOL_MAX ==> KeyedOnce(vrf, ProtocolKey(t))
  {
    if !txnStarted {
      return CmdOvsdbFailure, [];
    }
    if vrf == null {
      return CmdOvsdbFailure, [VRF_ERROR];
    }
    if t >= PROTOCOL_MAX {
      return CmdOvsdbFailure, [UNKNOWN_PROTOCOL];
    }
    var errorMessage := NotConfiguredMessage(t);
    var key := ProtocolKey(t);
    ConfiguredParts(t, vrf);
    var buff := key in vrf.sourceIp;
    if buff {
      vrf.UpdateSourceIp("", key, false);
    } else {
      assert vrf.sourceIp - {key} == vrf.sourceIp;
    }
    var match_, _ := SourceInterfaceLookup(vrf, key);
    if match_ {
      MatchCountZero(vrf.sourceInterface, key);
      vrf.UpdateSourceInterface("", key, false);
      UnboundCount(old(vrf.sourceInterface), key);
      if |old(vrf.sourceInterface)| == 1 {
        assert Unbound(old(vrf.sourceInterface), key) == [];
      }
      MatchCountSteps(old(vrf.sourceInterface), key, "");
    } else {
      UnboundNoMatch(vrf.sourceInterface, key);
    }
    ConfiguredParts(t, vrf);
    messages := if !buff && !match_ then [errorMessage] else [];
    return Committed(finish), messages;
  }

  // ---------------------------------------------------------------------
  // Running configuration.

  /** The running-config line of protocol `t`, when it has its own
      configuration. */
  function ConfigLine(t: nat, vrf: VrfRow?): (r: seq<string>)
    requires t < PROTOCOL_MAX
    reads vrf
    ensures |r| <= 1 && (r == [] <==> ConfiguredSource(t, vrf).None?)
  {
    match ConfiguredSource(t, vrf)
    case None => []
    case Some(ProtoSource(source, SourceIp)) =>
      ["ip source-interface " + ProtocolKey(t) + " " + source]
    case Some(ProtoSource(source, SourceInterface)) =>
      ["ip source-interface " + ProtocolKey(t) + " interface " + source]
  }

  /** `vtysh_source_interface_context_clientcallback`: nothing without a VRF
      row, else the lines of TFTP, TACACS, RADIUS and the common protocol. */
  function RunningConfig(anyVrf: bool, defaultVrf: VrfRow?): (lines: seq<string>)
    reads defaultVrf
    ensures !anyVrf ==> lines == []
    ensures |lines| <= PROTOCOL_MAX
  {
    if !anyVrf then []
    else ConfigLine(TFTP_PROTOCOL, defaultVrf) + ConfigLine(TACACS_PROTOCOL, defaultVrf)
         + ConfigLine(RADIUS_PROTOCOL, defaultVrf) + ConfigLine(ALL_PROTOCOL, defaultVrf)
  }

  /** A source address shows as `ip source-interface <protocol> <address>`,
      a source interface as `ip source-interface <protocol> interface <name>`. */
  lemma ConfigLineForms(t: nat, vrf: VrfRow?)
    requires t < PROTOCOL_MAX && vrf != null
    ensures ProtocolKey(t) in vrf.sourceIp ==>
              ConfigLine(t, vrf) == ["ip source-interface " + ProtocolKey(t) + " " + vrf.sourceIp[ProtocolKey(t)]]
    ensures ProtocolKey(t) !in vrf.sourceIp && FirstBinding(vrf.sourceInterface, ProtocolKey(t)).Some? ==>
              ConfigLine(t, vrf) == ["ip source-interface " + ProtocolKey(t) + " interface "
                                     + vrf.sourceInterface[FirstBinding(vrf.sourceInterface, ProtocolKey(t)).value].port]
  {
  }

  /** The running config shows no line for a protocol that only inherits the
      common source, although that source is what the protocol uses. */
  lemma NoInheritedLine(t: nat, vrf: VrfRow?)
    requires t < ALL_PROTOCOL
    requires ConfiguredSource(t, vrf).None? && ConfiguredSource(ALL_PROTOCOL, vrf).Some?
    ensures ConfigLine(t, vrf) == []
    ensures ProtocolSource(t, vrf) == ConfiguredSource(ALL_PROTOCOL, vrf)
  {
  }

  /** The running config lists one line per protocol with its own
      configuration. */
  lemma {:induction false} RunningConfigCount(vrf: VrfRow?)
    ensures |RunningConfig(true, vrf)| ==
              (if ConfiguredSource(TFTP_PROTOCOL, vrf).Some? then 1 else 0)
              + (if ConfiguredSource(TACACS_PROTOCOL, vrf).Some? then 1 else 0)
              + (if ConfiguredSource(RADIUS_PROTOCOL, vrf).Some? then 1 else 0)
              + (if ConfiguredSource(ALL_PROTOCOL, vrf).Some? then 1 else 0)
  {
  }

  /** After `ip source-interface tftp 2.2.2.2` the TFTP line reads
      `ip source-interface tftp 2.2.2.2`. */
  lemma TftpAddressLine(vrf: VrfRow, source: string)
    requires ConfiguredSource(TFTP_PROTOCOL, vrf) == Some(ProtoSource(source, SourceIp))
    ensures ConfigLine(TFTP_PROTOCOL, vrf) == ["ip source-interface tftp " + source]
  {
    assert ConfigLine(TFTP_PROTOCOL, vrf) == ["ip source-interface " + "tftp" + " " + source];
    assert "ip source-interface " + "tftp" + " " == "ip source-interface tftp ";
  }
}
