/*
 * The Relay Agent Information option (option 82, section 2.0 of RFC 3046)
 * as the relay builds and checks it (udpfwd/src/dhcp_options.c): a
 * circuit-id sub-option (code 1) carrying the 32-bit interface index and a
 * remote-id sub-option (code 2) carrying either the interface MAC address or
 * an IPv4 address.
 */
module AgentOption {
  import opened Common
  import opened FeatureFlags
  import opened DhcpLayout

  const RAI_CIRCUIT_ID: byte := 1
  const RAI_REMOTE_ID: byte := 2
  const OPTION_HEADER_LENGTH := 2
  const MAC_HEADER_LENGTH := 6

  type MacAddr = s: seq<byte> | |s| == 6 witness [0, 0, 0, 0, 0, 0]

  /** DHCP_OPTION_82_OPTIONS: what a valid reply option tells the relay. */
  datatype Option82Info = Option82Info(circuitId: u32, ipAddr: IPv4)

  /** The three outcomes of dhcp_relay_validate_agent_option
      (DHCP_RELAY_INVALID_OPTION_82, _MISMATCH and _OK); Ok carries the
      circuit id and, for an IP remote id, the address that was accepted. */
  datatype Validation = Invalid | Mismatch | Ok(circuitId: u32, ipAddr: Option<IPv4>)

  datatype SubOption = SubOption(code: byte, value: seq<byte>)

  /** dhcp_relay_get_option82_len: the whole option, header included. */
  function Option82Len(rid: RemoteId): (n: nat)
    ensures n <= 255
    ensures rid == RemoteIdMac ==> n == 16
    ensures rid == RemoteIdIp ==> n == 14
  {
    var circuit := OPTION_HEADER_LENGTH + OPTION_HEADER_LENGTH + 4;
    match rid
    case RemoteIdMac => circuit + OPTION_HEADER_LENGTH + MAC_HEADER_LENGTH
    case RemoteIdIp => circuit + OPTION_HEADER_LENGTH + 4
  }

  /** The remote-id value the relay sends: the MAC address, or the address
      in network order. */
  function RemoteIdValue(rid: RemoteId, mac: MacAddr, ip: IPv4): seq<byte>
  {
    match rid
    case RemoteIdMac => mac
    case RemoteIdIp => Octets(ip)
  }

  /** The option the relay appends to a request: code, length, the
      circuit-id sub-option holding `circuit` big-endian, the remote-id
      sub-option. */
  function AgentOptionBytes(circuit: u32, rid: RemoteId, mac: MacAddr, ip: IPv4): (r: seq<byte>)
    ensures |r| == Option82Len(rid)
    ensures r[0] == DHCP_AGENT_OPTIONS && r[1] == |r| - OPTION_HEADER_LENGTH
  {
    var remote := RemoteIdValue(rid, mac, ip);
    [DHCP_AGENT_OPTIONS, Option82Len(rid) - OPTION_HEADER_LENGTH, RAI_CIRCUIT_ID, 4] + Octets(circuit)
      + [RAI_REMOTE_ID, |remote|] + remote
  }

  /** The sub-options of an option body from offset `i`, in order; None when
      one runs past the body or has a code other than 1 or 2. A single byte
      left at the end is ignored. */
  function SubOptions(buf: seq<byte>, i: nat): Option<seq<SubOption>>
    decreases |buf| - i
  {
    if i + 1 >= |buf| then Some([])
    else
      var next := i + 2 + buf[i + 1];
      if next > |buf| then None
      else if buf[i] != RAI_CIRCUIT_ID && buf[i] != RAI_REMOTE_ID then None
      else
        match SubOptions(buf, next)
        case None => None
        case Some(rest) => Some([SubOption(buf[i], buf[i + 2..next])] + rest)
  }

  function Or<T>(a: Option<T>, b: Option<T>): Option<T>
  {
    if a.Some? then a else b
  }

  /** The value of the last sub-option with this code. */
  function LastValue(subs: seq<SubOption>, code: byte): Option<seq<byte>>
  {
    if subs == [] then None
    else Or(LastValue(subs[1..], code), if subs[0].code == code then Some(subs[0].value) else None)
  }

  /** The verdict on a body whose last circuit id and remote id are given. */
  function Judge(circuit: Option<seq<byte>>, remote: Option<seq<byte>>, mac: MacAddr,
                 ipExists: IPv4 -> bool, rid: RemoteId): Validation
  {
    if circuit.None? || remote.None? then Mismatch
    else if |circuit.value| != 4 then Invalid
    else
      var cid := BigEndian32(circuit.value);
      match rid
      case RemoteIdMac =>
        if |remote.value| != MAC_HEADER_LENGTH || remote.value != mac then Mismatch else Ok(cid, None)
      case RemoteIdIp =>
        if |remote.value| != 4 then Mismatch
        else if !ipExists(BigEndian32(remote.value)) then Mismatch
        else Ok(cid, Some(BigEndian32(remote.value)))
  }

  /** What the validator decides about the body `buf` of a received option 82,
      given the MAC of the interface and which addresses exist on it. */
  function Validate(buf: seq<byte>, mac: MacAddr, ipExists: IPv4 -> bool, rid: RemoteId): Validation
  {
    match SubOptions(buf, 0)
    case None => Invalid
    case Some(subs) => Judge(LastValue(subs, RAI_CIRCUIT_ID), LastValue(subs, RAI_REMOTE_ID), mac, ipExists, rid)
  }

  /** dhcp_relay_validate_agent_option */
  method ValidateAgentOption(buf: seq<byte>, mac: MacAddr, ipExists: IPv4 -> bool, rid: RemoteId)
    returns (v: Validation)
    ensures v == Validate(buf, mac, ipExists, rid)
  {
    var iter := 0;
    var circuit: Option<seq<byte>> := None;
    var remote: Option<seq<byte>> := None;
    while iter < |buf| - 1
      invariant 0 <= iter <= |buf|
      invariant SubOptions(buf, 0).Some? <==> SubOptions(buf, iter).Some?
      invariant SubOptions(buf, iter).Some? ==>
        LastValue(SubOptions(buf, 0).value, RAI_CIRCUIT_ID) == Or(LastValue(SubOptions(buf, iter).value, RAI_CIRCUIT_ID), circuit) &&
        LastValue(SubOptions(buf, 0).value, RAI_REMOTE_ID) == Or(LastValue(SubOptions(buf, iter).value, RAI_REMOTE_ID), remote)
      decreases |buf| - iter
    {
      var opttype := buf[iter];
      var optlen := buf[iter + 1];
      var next := iter + 2 + optlen;
      if next > |buf| {
        return Invalid;
      }
      if opttype == RAI_CIRCUIT_ID {
        circuit := Some(buf[iter + 2..next]);
      } else if opttype == RAI_REMOTE_ID {
        remote := Some(buf[iter + 2..next]);
      } else {
        return Invalid;
      }
      ghost var rest := SubOptions(buf, next);
      if rest.Some? {
        assert SubOptions(buf, iter).value[1..] == rest.value;
      }
      iter := next;
    }
    if circuit.None? || remote.None? {
      return Mismatch;
    }
    if |circuit.value| != 4 {
      return Invalid;
    }
    var circuitId := BigEndian32(circuit.value);
    match rid {
      case RemoteIdMac =>
        if |remote.value| != MAC_HEADER_LENGTH || remote.value != mac {
          return Mismatch;
        }
        v := Ok(circuitId, None);
      case RemoteIdIp =>
        if |remote.value| != 4 {
          return Mismatch;
        }
        var addr := BigEndian32(remote.value);
        if !ipExists(addr) {
          return Mismatch;
        }
        v := Ok(circuitId, Some(addr));
    }
  }

  /** pkt_info after a validation: the circuit id (and the accepted address)
      are stored only on Ok. */
  function UpdateInfo(info: Option82Info, v: Validation): (r: Option82Info)
    ensures !v.Ok? ==> r == info
    ensures v.Ok? ==> r.circuitId == v.circuitId
  {
    match v
    case Ok(c, Some(ip)) => Option82Info(c, ip)
    case Ok(c, None) => info.(circuitId := c)
    case _ => info
  }

  /** The relay recognises its own option: validating the body of the option
      it appends, with the same MAC address or an address that exists on the
      interface, yields Ok with the circuit id it wrote. */
  lemma ValidateOwnOption(circuit: u32, rid: RemoteId, mac: MacAddr, ip: IPv4, ipExists: IPv4 -> bool)
    requires rid == RemoteIdIp ==> ipExists(ip)
    ensures Validate(AgentOptionBytes(circuit, rid, mac, ip)[2..], mac, ipExists, rid)
      == Ok(circuit, if rid == RemoteIdIp then Some(ip) else None)
  {
    var body := AgentOptionBytes(circuit, rid, mac, ip)[2..];
    var remote := RemoteIdValue(rid, mac, ip);
    var head := [RAI_CIRCUIT_ID, 4] + Octets(circuit);
    var mid := [RAI_REMOTE_ID, |remote| as byte];
    assert body == head + mid + remote;
    assert |head| == 6 && |mid| == 2;
    assert body[2..6] == Octets(circuit);
    assert body[8..] == remote;
    assert body[6] == RAI_REMOTE_ID && body[7] == |remote|;
    assert SubOptions(body, 8 + |remote|) == Some([]);
    assert SubOptions(body, 6) == Some([SubOption(RAI_REMOTE_ID, remote)]) by {
      assert 6 + 2 + body[7] == 8 + |remote| <= |body|;
      assert body[8..8 + |remote|] == remote;
      assert [SubOption(RAI_REMOTE_ID, remote)] + [] == [SubOption(RAI_REMOTE_ID, remote)];
    }
    var subs := [SubOption(RAI_CIRCUIT_ID, Octets(circuit)), SubOption(RAI_REMOTE_ID, remote)];
    assert SubOptions(body, 0) == Some(subs) by {
      assert 0 + 2 + body[1] == 6 && body[0] == RAI_CIRCUIT_ID;
      assert [SubOption(RAI_CIRCUIT_ID, Octets(circuit))] + [SubOption(RAI_REMOTE_ID, remote)] == subs;
    }
    assert subs[1..] == [SubOption(RAI_REMOTE_ID, remote)];
    assert subs[1..][1..] == [];
    assert LastValue(subs[1..][1..], RAI_CIRCUIT_ID) == None;
    assert LastValue(subs[1..], RAI_CIRCUIT_ID) == None;
    assert LastValue(subs, RAI_CIRCUIT_ID) == Some(Octets(circuit));
    assert LastValue(subs[1..], RAI_REMOTE_ID) == Some(remote);
    assert LastValue(subs, RAI_REMOTE_ID) == Some(remote);
    if rid == RemoteIdIp {
      assert BigEndian32(remote) == ip;
    }
  }

  /** When a body repeats a sub-option, the last occurrence decides. */
  lemma {:induction false} LastOccurrenceWins(subs: seq<SubOption>, later: seq<SubOption>, code: byte, value: seq<byte>)
    requires forall k :: 0 <= k < |later| ==> later[k].code != code
    ensures LastValue(subs + [SubOption(code, value)] + later, code) == Some(value)
  {
    if subs == [] {
      assert [SubOption(code, value)] + later == [SubOption(code, value)] + later;
      assert ([SubOption(code, value)] + later)[1..] == later;
      NoneWithoutCode(later, code);
    } else {
      assert (subs + [SubOption(code, value)] + later)[1..] == subs[1..] + [SubOption(code, value)] + later;
      LastOccurrenceWins(subs[1..], later, code, value);
    }
  }

  lemma {:induction false} NoneWithoutCode(subs: seq<SubOption>, code: byte)
    requires forall k :: 0 <= k < |subs| ==> subs[k].code != code
    ensures LastValue(subs, code) == None
  {
    if subs != [] {
      NoneWithoutCode(subs[1..], code);
    }
  }
}
