/*
 * The feature bitmap of the UDP forwarder / DHCP relay daemon and the
 * policy and remote-id name tables (udpfwd_util.c in both daemon copies,
 * constants from udpfwd_common.h).
 *
 * The relay/ copy compiles each feature's cases only when its FTR_* flag is
 * defined; a `Build` value says which copy is modelled and with which flags.
 */
module FeatureFlags {

  /** feature_bmap: a 16-bit configuration bitmap. */
  type FeatureMap = bv16

  const UDP_BCAST_FORWARDER_BIT: FeatureMap := 0x0001
  const DHCP_RELAY_BIT: FeatureMap := 0x0002
  const DHCP_RELAY_HOP_COUNT_INCR_BIT: FeatureMap := 0x0004
  const DHCP_RELAY_OPTION82_BIT: FeatureMap := 0x0008
  const DHCP_RELAY_OPTION82_VALIDATE_BIT: FeatureMap := 0x0020

  /** UDPFWD_FEATURE; `OtherFeature` stands for any value outside the enum. */
  datatype Feature =
    | UdpBcastForwarder
    | DhcpRelay
    | HopCountIncrement
    | Option82
    | Option82Validate
    | OtherFeature

  datatype Status = Disable | Enable

  /** DHCP_RELAY_OPTION82_POLICY */
  datatype Policy = Keep | Drop | Replace

  /** DHCP_RELAY_OPTION82_REMOTE_ID */
  datatype RemoteId = RemoteIdIp | RemoteIdMac

  /** Which daemon copy: udpfwd/ has every feature; relay/ compiles the UDP
      broadcast forwarder under FTR_UDP_BCAST_FWD and the four DHCP relay
      features under FTR_DHCP_RELAY. */
  datatype Build = Udpfwd | Relay(ftrUdpBcastFwd: bool, ftrDhcpRelay: bool)

  /** Whether the switch statements of this build have a case for `f`. */
  predicate CompiledIn(b: Build, f: Feature)
  {
    match f
    case OtherFeature => false
    case UdpBcastForwarder => b.Udpfwd? || b.ftrUdpBcastFwd
    case _ => b.Udpfwd? || b.ftrDhcpRelay
  }

  /** The bit a feature occupies in the bitmap (none for a value outside the enum). */
  function FeatureBit(f: Feature): (r: FeatureMap)
    ensures f != OtherFeature ==> r != 0 && r & (r - 1) == 0
  {
    match f
    case UdpBcastForwarder => UDP_BCAST_FORWARDER_BIT
    case DhcpRelay => DHCP_RELAY_BIT
    case HopCountIncrement => DHCP_RELAY_HOP_COUNT_INCR_BIT
    case Option82 => DHCP_RELAY_OPTION82_BIT
    case Option82Validate => DHCP_RELAY_OPTION82_VALIDATE_BIT
    case OtherFeature => 0
  }

  /** Two different features never share a bit. */
  lemma FeatureBitsDistinct(f: Feature, g: Feature)
    requires f != g
    ensures FeatureBit(f) & FeatureBit(g) == 0
  {
  }

  /** get_feature_status */
  function GetFeatureStatus(b: Build, value: FeatureMap, f: Feature): (s: Status)
    ensures s == Enable <==> CompiledIn(b, f) && value & FeatureBit(f) != 0
  {
    if !CompiledIn(b, f) then Disable
    else
      match f
      case UdpBcastForwarder => if value & UDP_BCAST_FORWARDER_BIT != 0 then Enable else Disable
      case DhcpRelay => if value & DHCP_RELAY_BIT != 0 then Enable else Disable
      case HopCountIncrement => if value & DHCP_RELAY_HOP_COUNT_INCR_BIT != 0 then Enable else Disable
      case Option82 => if value & DHCP_RELAY_OPTION82_BIT != 0 then Enable else Disable
      case Option82Validate => if value & DHCP_RELAY_OPTION82_VALIDATE_BIT != 0 then Enable else Disable
      case OtherFeature => Disable
  }

  /** The bitmap that set_feature_status leaves behind: the feature's bit set
      for Enable and cleared otherwise; a feature without a case leaves the
      bitmap as it was. */
  function SetFeatureStatus(b: Build, value: FeatureMap, f: Feature, s: Status): (r: FeatureMap)
    ensures CompiledIn(b, f) ==> GetFeatureStatus(b, r, f) == s
    ensures !CompiledIn(b, f) ==> r == value
  {
    if !CompiledIn(b, f) then value else SetBit(value, FeatureBit(f), s)
  }

  /** `*value |= bit` for Enable, `*value &= ~bit` otherwise. */
  function SetBit(value: FeatureMap, bit: FeatureMap, s: Status): (r: FeatureMap)
    requires bit != 0
    ensures (r & bit != 0) <==> s == Enable
    ensures r & !bit == value & !bit
  {
    if s == Enable then value | bit else value & !bit
  }

  /** Setting a feature changes no bit of the bitmap other than its own. */
  lemma SetTouchesOnlyItsBit(b: Build, value: FeatureMap, f: Feature, s: Status)
    ensures SetFeatureStatus(b, value, f, s) & !FeatureBit(f) == value & !FeatureBit(f)
  {
    if CompiledIn(b, f) {
      var bit := FeatureBit(f);
      assert SetFeatureStatus(b, value, f, s) == SetBit(value, bit, s);
    }
  }

  /** Setting a feature leaves every other feature's status as it was. */
  lemma SetKeepsOtherFeatures(b: Build, value: FeatureMap, f: Feature, s: Status, g: Feature)
    requires g != f
    ensures GetFeatureStatus(b, SetFeatureStatus(b, value, f, s), g) == GetFeatureStatus(b, value, g)
  {
    FeatureBitsDistinct(f, g);
  }

  /** set_feature_status is idempotent. */
  lemma SetIdempotent(b: Build, value: FeatureMap, f: Feature, s: Status)
    ensures SetFeatureStatus(b, SetFeatureStatus(b, value, f, s), f, s) == SetFeatureStatus(b, value, f, s)
  {
    if CompiledIn(b, f) {
      SetBitIdempotent(value, FeatureBit(f), s);
    }
  }

  lemma SetBitIdempotent(value: FeatureMap, bit: FeatureMap, s: Status)
    requires bit != 0
    ensures SetBit(SetBit(value, bit, s), bit, s) == SetBit(value, bit, s)
  {
    if s == Enable {
      assert (value | bit) | bit == value | bit;
    } else {
      assert (value & !bit) & !bit == value & !bit;
    }
  }

  /** Setting a feature to the status it already has changes nothing, which
      is why update_feature_state may skip the call. */
  lemma SetSameStatus(b: Build, value: FeatureMap, f: Feature, s: Status)
    requires GetFeatureStatus(b, value, f) == s
    ensures SetFeatureStatus(b, value, f, s) == value
  {
    if CompiledIn(b, f) {
      SetBitSame(value, FeatureBit(f), s);
    }
  }

  /** Setting a single bit that is already set, or clearing one that is
      already clear, gives back the same bitmap. */
  lemma SetBitSame(value: FeatureMap, bit: FeatureMap, st: Status)
    requires bit == 1 || bit == 2 || bit == 4 || bit == 8 || bit == 0x20
    requires st == Enable <==> value & bit != 0
    ensures SetBit(value, bit, st) == value
  {
    BitSame(value, bit);
  }

  lemma BitSame(value: FeatureMap, bit: FeatureMap)
    requires bit == 1 || bit == 2 || bit == 4 || bit == 8 || bit == 0x20
    ensures value & bit != 0 ==> value | bit == value
    ensures value & bit == 0 ==> value & !bit == value
  {
    if bit == 1 {
    } else if bit == 2 {
    } else if bit == 4 {
    } else if bit == 8 {
    }
  }

  /** A feature the build does not compile reads Disable whatever the bitmap. */
  lemma UncompiledReadsDisable(b: Build, value: FeatureMap, f: Feature)
    requires !CompiledIn(b, f)
    ensures GetFeatureStatus(b, value, f) == Disable
  {
  }

  /** policy_name */
  function PolicyName(p: Policy): (r: string)
    ensures |r| > 0
  {
    match p
    case Keep => "keep"
    case Drop => "drop"
    case Replace => "replace"
  }

  /** remote_id_name */
  function RemoteIdName(r: RemoteId): (n: string)
    ensures |n| > 0
  {
    match r
    case RemoteIdIp => "ip"
    case RemoteIdMac => "mac"
  }

  /** Both name tables are one-to-one. */
  lemma NamesInjective(p: Policy, q: Policy, r: RemoteId, t: RemoteId)
    ensures PolicyName(p) == PolicyName(q) ==> p == q
    ensures RemoteIdName(r) == RemoteIdName(t) ==> r == t
  {
  }
}
