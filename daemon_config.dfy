/*
 * The daemon control block and its configuration processing (udpfwd.c in
 * both daemon copies): the default configuration, the feature-state and
 * option-82 updates, the processing of the System row's dhcp_config and
 * other_config columns, the dhcp_relay table walk and udpfwd_reconfigure.
 *
 * OVSDB is replaced by values: the System row is the result of each
 * smap_get (None for a missing key), and the IDL's "row / column / table
 * modified since the cached seqno" tests are boolean parameters.
 */
module DaemonConfig {
  import opened Common
  import opened FeatureFlags
  import opened ServerTables
  import opened UdpfwdConfig

  /** STATS_UPDATE_DEFAULT_INTERVAL (relay copy), in milliseconds. */
  const STATS_UPDATE_DEFAULT_INTERVAL: int := 5000

  /** The configuration held in the control block: feature_config (bitmap,
      option-82 policy and remote-id) and stats_interval, which only the
      relay copy has (it stays at its initial value in the udpfwd copy). */
  datatype Settings = Settings(config: FeatureMap, policy: Policy, remoteId: RemoteId, statsInterval: int)

  /** The control block after udpfwd_module_init's memset: KEEP and
      REMOTE_ID_IP are the zero values of their enumerations. */
  const Zeroed := Settings(0, Keep, RemoteIdIp, 0)

  /** The settings with feature `f` set to `st` through set_feature_status. */
  function WithFeature(b: Build, s: Settings, f: Feature, st: Status): (r: Settings)
    ensures CompiledIn(b, f) ==> GetFeatureStatus(b, r.config, f) == st
    ensures r.policy == s.policy && r.remoteId == s.remoteId && r.statsInterval == s.statsInterval
  {
    s.(config := SetFeatureStatus(b, s.config, f, st))
  }

  /** Setting one feature leaves the status of every other feature alone. */
  lemma WithFeatureKeeps(b: Build, s: Settings, f: Feature, st: Status, g: Feature)
    requires g != f
    ensures GetFeatureStatus(b, WithFeature(b, s, f, st).config, g) == GetFeatureStatus(b, s.config, g)
  {
    SetKeepsOtherFeatures(b, s.config, f, st, g);
  }

  /** udpfwd_set_default_config applied to settings `s`. The relay copy sets
      the UDP broadcast forwarder under FTR_UDP_BCAST_FWD and everything
      else under FTR_DHCP_RELAY; its default policy is REPLACE where the
      udpfwd copy's is KEEP. */
  function Defaults(b: Build, s: Settings): (r: Settings)
    ensures CompiledIn(b, DhcpRelay) ==> r.remoteId == RemoteIdMac && r.policy == (if b.Udpfwd? then Keep else Replace)
    ensures !CompiledIn(b, DhcpRelay) ==> r.policy == s.policy && r.remoteId == s.remoteId
    ensures r.statsInterval == if b.Relay? && b.ftrDhcpRelay then STATS_UPDATE_DEFAULT_INTERVAL else s.statsInterval
  {
    var s1 := if CompiledIn(b, UdpBcastForwarder) then WithFeature(b, s, UdpBcastForwarder, Disable) else s;
    if !CompiledIn(b, DhcpRelay) then s1
    else
      var s2 := WithFeature(b, s1, DhcpRelay, Enable);
      var s3 := WithFeature(b, s2, HopCountIncrement, Enable);
      var s4 := WithFeature(b, s3, Option82, Disable);
      var s5 := WithFeature(b, s4, Option82Validate, Disable);
      if b.Udpfwd? then s5.(policy := Keep, remoteId := RemoteIdMac)
      else s5.(policy := Replace, remoteId := RemoteIdMac, statsInterval := STATS_UPDATE_DEFAULT_INTERVAL)
  }

  /** After the defaults the relay and hop-count increment are enabled when
      the build compiles them, and the other three features are disabled,
      whatever the bitmap held before. */
  lemma {:induction false} DefaultStatuses(b: Build, s: Settings)
    ensures var r := Defaults(b, s);
      GetFeatureStatus(b, r.config, UdpBcastForwarder) == Disable &&
      (GetFeatureStatus(b, r.config, DhcpRelay) == Enable <==> CompiledIn(b, DhcpRelay)) &&
      (GetFeatureStatus(b, r.config, HopCountIncrement) == Enable <==> CompiledIn(b, HopCountIncrement)) &&
      GetFeatureStatus(b, r.config, Option82) == Disable &&
      GetFeatureStatus(b, r.config, Option82Validate) == Disable
  {
    var s1 := if CompiledIn(b, UdpBcastForwarder) then WithFeature(b, s, UdpBcastForwarder, Disable) else s;
    if CompiledIn(b, DhcpRelay) {
      var s2 := WithFeature(b, s1, DhcpRelay, Enable);
      var s3 := WithFeature(b, s2, HopCountIncrement, Enable);
      var s4 := WithFeature(b, s3, Option82, Disable);
      WithFeatureKeeps(b, s1, DhcpRelay, Enable, UdpBcastForwarder);
      WithFeatureKeeps(b, s2, HopCountIncrement, Enable, UdpBcastForwarder);
      WithFeatureKeeps(b, s2, HopCountIncrement, Enable, DhcpRelay);
      WithFeatureKeeps(b, s3, Option82, Disable, UdpBcastForwarder);
      WithFeatureKeeps(b, s3, Option82, Disable, DhcpRelay);
      WithFeatureKeeps(b, s3, Option82, Disable, HopCountIncrement);
      WithFeatureKeeps(b, s4, Option82Validate, Disable, UdpBcastForwarder);
      WithFeatureKeeps(b, s4, Option82Validate, Disable, DhcpRelay);
      WithFeatureKeeps(b, s4, Option82Validate, Disable, HopCountIncrement);
      WithFeatureKeeps(b, s4, Option82Validate, Disable, Option82);
    }
  }

  /** The default configuration of each copy as the daemon starts it: relay
      and hop-count increment on, everything else off; policy keep (udpfwd
      copy) or replace with a 5000 ms statistics interval (relay copy with
      both features compiled in); remote-id mac. */
  lemma StartupDefaults()
    ensures Defaults(Udpfwd, Zeroed) == Settings(DHCP_RELAY_BIT | DHCP_RELAY_HOP_COUNT_INCR_BIT, Keep, RemoteIdMac, 0)
    ensures Defaults(Relay(true, true), Zeroed)
         == Settings(DHCP_RELAY_BIT | DHCP_RELAY_HOP_COUNT_INCR_BIT, Replace, RemoteIdMac, STATS_UPDATE_DEFAULT_INTERVAL)
  {
  }

  // ---------------------------------------------------------------------
  // Parsing the System row.

  /** A value counts as "true" when it is a prefix of "true": strncmp over
      the value's own length, so the empty string counts too. */
  predicate IsTrue(value: Option<string>)
  {
    value.Some? && IsPrefix(value.value, "true")
  }

  /** The status a "...disabled" key gives: DISABLE when it is true,
      ENABLE otherwise, including when the key is absent. */
  function FromDisabledKey(value: Option<string>): Status
  {
    if IsTrue(value) then Disable else Enable
  }

  /** The status an "...enabled" key gives: ENABLE when it is true, DISABLE
      otherwise, including when the key is absent. */
  function FromEnabledKey(value: Option<string>): Status
  {
    if IsTrue(value) then Enable else Disable
  }

  /** The key semantics at the boundaries: an absent key is never true, the
      empty string and every prefix of "true" are, "yes" is not. */
  lemma KeyBoundaries()
    ensures FromDisabledKey(None) == Enable && FromEnabledKey(None) == Disable
    ensures FromDisabledKey(Some("")) == Disable && FromEnabledKey(Some("")) == Enable
    ensures FromEnabledKey(Some("t")) == Enable && FromEnabledKey(Some("true")) == Enable
    ensures FromEnabledKey(Some("truex")) == Disable && FromEnabledKey(Some("yes")) == Disable
  {
    assert "yes"[0] != "true"[0];
  }

  /** The policy update_option82_policy computes: a prefix of "replace"
      (so also "") gives REPLACE, else a prefix of "drop" gives DROP, and
      anything else, or no value, gives KEEP. */
  function ParsePolicy(value: Option<string>): Policy
  {
    if value.Some? && IsPrefix(value.value, "replace") then Replace
    else if value.Some? && IsPrefix(value.value, "drop") then Drop
    else Keep
  }

  /** The remote-id update_option82_remote_id computes: a prefix of "ip"
      (so also "") gives IP; anything else, or no value, gives MAC. */
  function ParseRemoteId(value: Option<string>): RemoteId
  {
    if value.Some? && IsPrefix(value.value, "ip") then RemoteIdIp else RemoteIdMac
  }

  /** The parsers read back every name of the name tables. */
  lemma ParseNames(p: Policy, r: RemoteId)
    ensures ParsePolicy(Some(PolicyName(p))) == p
    ensures ParseRemoteId(Some(RemoteIdName(r))) == r
  {
    assert "keep"[0] != "replace"[0] && "keep"[0] != "drop"[0];
    assert "drop"[0] != "replace"[0];
  }

  /** Abbreviations are accepted: "r" and "rep" give REPLACE, "d" gives DROP,
      "i" gives IP, and "" gives REPLACE and IP. */
  lemma ParseAbbreviations()
    ensures ParsePolicy(Some("r")) == Replace && ParsePolicy(Some("rep")) == Replace
    ensures ParsePolicy(Some("d")) == Drop && ParsePolicy(Some("")) == Replace && ParsePolicy(None) == Keep
    ensures ParseRemoteId(Some("i")) == RemoteIdIp && ParseRemoteId(Some("")) == RemoteIdIp
    ensures ParseRemoteId(None) == RemoteIdMac
  {
    assert "d"[0] != "replace"[0];
  }

  /** The policy left in the control block by update_option82_policy as each
      copy is written: the udpfwd copy only logs the change and never stores
      the parsed policy; the relay copy stores it when it differs. */
  function PolicyAfterAsWritten(b: Build, current: Policy, value: Option<string>): Policy
  {
    if b.Udpfwd? then current
    else if ParsePolicy(value) != current then ParsePolicy(value) else current
  }

  /** The same for update_option82_remote_id. */
  function RemoteIdAfterAsWritten(b: Build, current: RemoteId, value: Option<string>): RemoteId
  {
    if b.Udpfwd? then current
    else if ParseRemoteId(value) != current then ParseRemoteId(value) else current
  }

  /** In the udpfwd copy the configured policy and remote-id never take
      effect: from the defaults (keep, mac), configuring "drop" and "ip"
      leaves keep and mac in the control block. */
  lemma UdpfwdOption82NeverStored()
    ensures ParsePolicy(Some("drop")) == Drop && PolicyAfterAsWritten(Udpfwd, Keep, Some("drop")) == Keep
    ensures ParseRemoteId(Some("ip")) == RemoteIdIp && RemoteIdAfterAsWritten(Udpfwd, RemoteIdMac, Some("ip")) == RemoteIdMac
  {
    assert "drop"[0] != "replace"[0];
  }

  /** In the relay copy the stored value is always the parsed one: this is
      the behaviour the model gives both copies. */
  lemma RelayCopyStores(b: Build, policy: Policy, remoteId: RemoteId, value: Option<string>)
    requires b.Relay?
    ensures PolicyAfterAsWritten(b, policy, value) == ParsePolicy(value)
    ensures RemoteIdAfterAsWritten(b, remoteId, value) == ParseRemoteId(value)
  {
  }

  /** The dhcp_config column of the System row: the value of each key it
      reads, None when the key is absent. */
  datatype DhcpConfig = DhcpConfig(
    relayDisabled: Option<string>,
    hopCountIncrementDisabled: Option<string>,
    option82Enabled: Option<string>,
    option82ValidationEnabled: Option<string>,
    option82Policy: Option<string>,
    option82RemoteId: Option<string>)

  /** The other_config column: the UDP broadcast forwarder key and the
      statistics interval key (read by the relay copy only). */
  datatype OtherConfig = OtherConfig(udpBcastFwdEnabled: Option<string>, statsUpdateInterval: Option<string>)

  datatype SystemRow = SystemRow(dhcpConfig: DhcpConfig, otherConfig: OtherConfig)

  /** The dhcp_config part of udpfwd_process_globalconfig_update (compiled
      only under FTR_DHCP_RELAY in the relay copy). */
  function DhcpUpdate(b: Build, s: Settings, d: DhcpConfig): Settings
  {
    if !CompiledIn(b, DhcpRelay) then s
    else
      var s1 := WithFeature(b, s, DhcpRelay, FromDisabledKey(d.relayDisabled));
      var s2 := WithFeature(b, s1, HopCountIncrement, FromDisabledKey(d.hopCountIncrementDisabled));
      var s3 := WithFeature(b, s2, Option82, FromEnabledKey(d.option82Enabled));
      var s4 := WithFeature(b, s3, Option82Validate, FromEnabledKey(d.option82ValidationEnabled));
      s4.(policy := ParsePolicy(d.option82Policy), remoteId := ParseRemoteId(d.option82RemoteId))
  }

  /** The other_config part: the UDP broadcast forwarder under
      FTR_UDP_BCAST_FWD, the statistics interval under FTR_DHCP_RELAY and
      only when the key is present. */
  function OtherUpdate(b: Build, s: Settings, o: OtherConfig): Settings
  {
    var s1 := if CompiledIn(b, UdpBcastForwarder) then WithFeature(b, s, UdpBcastForwarder, FromEnabledKey(o.udpBcastFwdEnabled)) else s;
    if b.Relay? && b.ftrDhcpRelay && o.statsUpdateInterval.Some? then s1.(statsInterval := Atoi(o.statsUpdateInterval.value))
    else s1
  }

  /** udpfwd_process_globalconfig_update on the System row `row` (None when
      there is none), given which of the row and its two columns changed. */
  function GlobalUpdate(b: Build, s: Settings, row: Option<SystemRow>, rowModified: bool, dhcpModified: bool, otherModified: bool): Settings
  {
    if row.None? || !rowModified then s
    else
      var s1 := if dhcpModified then DhcpUpdate(b, s, row.value.dhcpConfig) else s;
      if otherModified then OtherUpdate(b, s1, row.value.otherConfig) else s1
  }

  /** The dhcp_config part sets each DHCP relay feature from its key and
      parses the policy and remote-id. */
  lemma {:induction false} DhcpUpdateStatuses(b: Build, s: Settings, d: DhcpConfig)
    requires CompiledIn(b, DhcpRelay)
    ensures var r := DhcpUpdate(b, s, d);
      GetFeatureStatus(b, r.config, DhcpRelay) == FromDisabledKey(d.relayDisabled) &&
      GetFeatureStatus(b, r.config, HopCountIncrement) == FromDisabledKey(d.hopCountIncrementDisabled) &&
      GetFeatureStatus(b, r.config, Option82) == FromEnabledKey(d.option82Enabled) &&
      GetFeatureStatus(b, r.config, Option82Validate) == FromEnabledKey(d.option82ValidationEnabled) &&
      r.policy == ParsePolicy(d.option82Policy) && r.remoteId == ParseRemoteId(d.option82RemoteId)
  {
    var s1 := WithFeature(b, s, DhcpRelay, FromDisabledKey(d.relayDisabled));
    var s2 := WithFeature(b, s1, HopCountIncrement, FromDisabledKey(d.hopCountIncrementDisabled));
    var s3 := WithFeature(b, s2, Option82, FromEnabledKey(d.option82Enabled));
    WithFeatureKeeps(b, s1, HopCountIncrement, FromDisabledKey(d.hopCountIncrementDisabled), DhcpRelay);
    WithFeatureKeeps(b, s2, Option82, FromEnabledKey(d.option82Enabled), DhcpRelay);
    WithFeatureKeeps(b, s2, Option82, FromEnabledKey(d.option82Enabled), HopCountIncrement);
    WithFeatureKeeps(b, s3, Option82Validate, FromEnabledKey(d.option82ValidationEnabled), DhcpRelay);
    WithFeatureKeeps(b, s3, Option82Validate, FromEnabledKey(d.option82ValidationEnabled), HopCountIncrement);
    WithFeatureKeeps(b, s3, Option82Validate, FromEnabledKey(d.option82ValidationEnabled), Option82);
  }

  /** What a change of dhcp_config does: each DHCP relay feature follows its
      key (relay and hop-count through "disabled" keys, option 82 and its
      validation through "enabled" keys), policy and remote-id are parsed;
      without the change all of them keep their values. */
  lemma {:induction false} GlobalUpdateDhcp(b: Build, s: Settings, row: Option<SystemRow>, rowModified: bool, dhcpModified: bool, otherModified: bool)
    requires CompiledIn(b, DhcpRelay)
    ensures var r := GlobalUpdate(b, s, row, rowModified, dhcpModified, otherModified);
      if row.Some? && rowModified && dhcpModified then
        var d := row.value.dhcpConfig;
        GetFeatureStatus(b, r.config, DhcpRelay) == FromDisabledKey(d.relayDisabled) &&
        GetFeatureStatus(b, r.config, HopCountIncrement) == FromDisabledKey(d.hopCountIncrementDisabled) &&
        GetFeatureStatus(b, r.config, Option82) == FromEnabledKey(d.option82Enabled) &&
        GetFeatureStatus(b, r.config, Option82Validate) == FromEnabledKey(d.option82ValidationEnabled) &&
        r.policy == ParsePolicy(d.option82Policy) && r.remoteId == ParseRemoteId(d.option82RemoteId)
      else
        (forall f :: f != UdpBcastForwarder ==> GetFeatureStatus(b, r.config, f) == GetFeatureStatus(b, s.config, f)) &&
        r.policy == s.policy && r.remoteId == s.remoteId
  {
    if row.Some? && rowModified {
      var s1 := if dhcpModified then DhcpUpdate(b, s, row.value.dhcpConfig) else s;
      if dhcpModified {
        DhcpUpdateStatuses(b, s, row.value.dhcpConfig);
      }
      OtherKeepsDhcp(b, s1, row.value.otherConfig, otherModified);
    }
  }

  /** The other_config part never touches the DHCP relay features, the
      policy or the remote-id. */
  lemma OtherKeepsDhcp(b: Build, s: Settings, o: OtherConfig, otherModified: bool)
    ensures var r := if otherModified then OtherUpdate(b, s, o) else s;
      (forall f :: f != UdpBcastForwarder ==> GetFeatureStatus(b, r.config, f) == GetFeatureStatus(b, s.config, f)) &&
      r.policy == s.policy && r.remoteId == s.remoteId
  {
    forall f | f != UdpBcastForwarder
      ensures GetFeatureStatus(b, WithFeature(b, s, UdpBcastForwarder, FromEnabledKey(o.udpBcastFwdEnabled)).config, f)
           == GetFeatureStatus(b, s.config, f)
    {
      WithFeatureKeeps(b, s, UdpBcastForwarder, FromEnabledKey(o.udpBcastFwdEnabled), f);
    }
  }

  /** What a change of other_config does: the UDP broadcast forwarder
      follows its "enabled" key and, in the relay copy, a present interval
      key is read with atoi; without the change both keep their values. */
  lemma {:induction false} GlobalUpdateOther(b: Build, s: Settings, row: Option<SystemRow>, rowModified: bool, dhcpModified: bool, otherModified: bool)
    requires CompiledIn(b, UdpBcastForwarder)
    ensures var r := GlobalUpdate(b, s, row, rowModified, dhcpModified, otherModified);
      if row.Some? && rowModified && otherModified then
        var o := row.value.otherConfig;
        GetFeatureStatus(b, r.config, UdpBcastForwarder) == FromEnabledKey(o.udpBcastFwdEnabled) &&
        r.statsInterval == (if b.Relay? && b.ftrDhcpRelay && o.statsUpdateInterval.Some? then Atoi(o.statsUpdateInterval.value) else s.statsInterval)
      else
        GetFeatureStatus(b, r.config, UdpBcastForwarder) == GetFeatureStatus(b, s.config, UdpBcastForwarder) &&
        r.statsInterval == s.statsInterval
  {
    if row.Some? && rowModified && dhcpModified {
      DhcpKeepsOther(b, s, row.value.dhcpConfig);
    }
  }

  /** The dhcp_config part never touches the UDP broadcast forwarder or the
      statistics interval. */
  lemma {:induction false} DhcpKeepsOther(b: Build, s: Settings, d: DhcpConfig)
    ensures var r := DhcpUpdate(b, s, d);
      GetFeatureStatus(b, r.config, UdpBcastForwarder) == GetFeatureStatus(b, s.config, UdpBcastForwarder) &&
      r.statsInterval == s.statsInterval
  {
    if CompiledIn(b, DhcpRelay) {
      var s1 := WithFeature(b, s, DhcpRelay, FromDisabledKey(d.relayDisabled));
      var s2 := WithFeature(b, s1, HopCountIncrement, FromDisabledKey(d.hopCountIncrementDisabled));
      var s3 := WithFeature(b, s2, Option82, FromEnabledKey(d.option82Enabled));
      WithFeatureKeeps(b, s, DhcpRelay, FromDisabledKey(d.relayDisabled), UdpBcastForwarder);
      WithFeatureKeeps(b, s1, HopCountIncrement, FromDisabledKey(d.hopCountIncrementDisabled), UdpBcastForwarder);
      WithFeatureKeeps(b, s2, Option82, FromEnabledKey(d.option82Enabled), UdpBcastForwarder);
      WithFeatureKeeps(b, s3, Option82Validate, FromEnabledKey(d.option82ValidationEnabled), UdpBcastForwarder);
    }
  }

  // ---------------------------------------------------------------------
  // The dhcp_relay table walk.

  /** The dhcp_relay table as the IDL presents it: the rows in iteration
      order, whether each was inserted or modified since the cached seqno,
      and whether any row was inserted, deleted or modified. */
  datatype RelayTableChange = RelayTableChange(
    rows: seq<DhcpRelayRow>, touched: seq<bool>, anyInserted: bool, anyDeleted: bool, anyModified: bool)

  /** The inserted or modified rows applied in table order through
      udpfwd_handle_dhcp_relay_config_change. */
  function ApplyChanges(capacity: nat, servers: map<ServerKey, nat>, t: map<string, IntfNode<ServerKey>>,
                        rows: seq<DhcpRelayRow>, touched: seq<bool>, aton: string -> Option<IPv4>)
    : (r: (map<ServerKey, nat>, map<string, IntfNode<ServerKey>>))
    requires |touched| == |rows|
    requires forall n :: n in t ==> Shaped(t[n], capacity)
    ensures forall n :: n in r.1 ==> Shaped(r.1[n], capacity)
    ensures t.Keys <= r.1.Keys
    ensures forall n :: n in t && (forall i :: 0 <= i < |rows| && touched[i] ==> rows[i].port != Some(n)) ==> r.1[n] == t[n]
    decreases |rows|
  {
    if rows == [] then (servers, t)
    else
      var last := |rows| - 1;
      var p := ApplyChanges(capacity, servers, t, rows[..last], touched[..last], aton);
      if touched[last] then ConfigChange(capacity, p.0, p.1, Some(rows[last]), aton) else p
  }

  /** Applying the changed rows keeps the table invariant. */
  lemma {:induction false} ApplyChangesConsistent(capacity: nat, servers: map<ServerKey, nat>, t: map<string, IntfNode<ServerKey>>,
                                                  rows: seq<DhcpRelayRow>, touched: seq<bool>, aton: string -> Option<IPv4>)
    requires |touched| == |rows| && Consistent(capacity, servers, t)
    ensures var r := ApplyChanges(capacity, servers, t, rows, touched, aton);
      Consistent(capacity, r.0, r.1)
    decreases |rows|
  {
    if rows != [] {
      var last := |rows| - 1;
      ApplyChangesConsistent(capacity, servers, t, rows[..last], touched[..last], aton);
      var p := ApplyChanges(capacity, servers, t, rows[..last], touched[..last], aton);
      if touched[last] {
        ConfigChangeConsistent(capacity, p.0, p.1, Some(rows[last]), aton);
      }
    }
  }

  /** The tables after the walk of dhcp_relay_server_config_update, from
      `s0`, `t0`: an empty table deletes the servers of every interface (the
      last row went away); a table with no change leaves everything alone;
      with changes but no deletion, the changed rows are applied in order.
      After a deletion only the invariant is stated. */
  ghost predicate ServerUpdateDone(capacity: nat, s0: map<ServerKey, nat>, t0: map<string, IntfNode<ServerKey>>,
                                   s1: map<ServerKey, nat>, t1: map<string, IntfNode<ServerKey>>,
                                   change: RelayTableChange, aton: string -> Option<IPv4>)
    requires |change.touched| == |change.rows| && Consistent(capacity, s0, t0)
  {
    Consistent(capacity, s1, t1) &&
    (change.rows == [] ==>
      (forall n :: n in t1 <==> n in t0 && t0[n].addrCount == 0) && (forall n :: n in t1 ==> t1[n] == t0[n])) &&
    (change.rows != [] && !change.anyInserted && !change.anyDeleted && !change.anyModified ==> s1 == s0 && t1 == t0) &&
    (change.rows != [] && !change.anyDeleted && (change.anyInserted || change.anyModified) ==>
      (s1, t1) == ApplyChanges(capacity, s0, t0, change.rows, change.touched, aton))
  }

  /** Applies the inserted or modified rows in order. */
  method ApplyChangedRows(tables: Tables<ServerKey>, rows: seq<DhcpRelayRow>, touched: seq<bool>, aton: string -> Option<IPv4>)
    requires |touched| == |rows|
    requires tables.Valid() && tables.capacity == MAX_UDP_BCAST_SERVER_PER_INTERFACE
    modifies tables
    ensures tables.Valid()
    ensures (tables.serverHashMap, tables.intfHashTable)
      == ApplyChanges(tables.capacity, old(tables.serverHashMap), old(tables.intfHashTable), rows, touched, aton)
  {
    ghost var s0, t0 := tables.serverHashMap, tables.intfHashTable;
    var iter := 0;
    while iter < |rows|
      invariant iter <= |rows| && tables.Valid()
      invariant (tables.serverHashMap, tables.intfHashTable) == ApplyChanges(tables.capacity, s0, t0, rows[..iter], touched[..iter], aton)
    {
      assert rows[..iter + 1][..iter] == rows[..iter];
      assert touched[..iter + 1][..iter] == touched[..iter];
      if touched[iter] {
        HandleDhcpRelayConfigChange(tables, Some(rows[iter]), aton);
      }
      iter := iter + 1;
    }
    assert rows[..iter] == rows && touched[..iter] == touched;
  }

  /** dhcp_relay_server_config_update. */
  method DhcpRelayServerConfigUpdate(tables: Tables<ServerKey>, change: RelayTableChange, aton: string -> Option<IPv4>, ifnameLen: nat)
    requires |change.touched| == |change.rows|
    requires tables.Valid() && tables.capacity == MAX_UDP_BCAST_SERVER_PER_INTERFACE
    modifies tables
    ensures ServerUpdateDone(tables.capacity, old(tables.serverHashMap), old(tables.intfHashTable),
                             tables.serverHashMap, tables.intfHashTable, change, aton)
  {
    if change.rows == [] {
      HandleDhcpRelayRowDelete(tables, [], ifnameLen);
      return;
    }
    if !change.anyInserted && !change.anyDeleted && !change.anyModified {
      return;
    }
    if change.anyDeleted {
      HandleDhcpRelayRowDelete(tables, change.rows, ifnameLen);
    }
    ApplyChangedRows(tables, change.rows, change.touched, aton);
  }

  // ---------------------------------------------------------------------
  // The control block.

  class ControlBlock {
    /** Which daemon copy runs, with which FTR_* flags. */
    const build: Build
    var config: FeatureMap
    var policy: Policy
    var remoteId: RemoteId
    var statsInterval: int
    /** idl_seqno: the IDL sequence number last processed. */
    var idlSeqno: int

    function Value(): Settings
      reads this
    {
      Settings(config, policy, remoteId, statsInterval)
    }

    /** udpfwd_module_init's memset of the control block followed by
        udpfwd_set_default_config. */
    constructor (build: Build)
      ensures this.build == build && idlSeqno == 0
      ensures Value() == Defaults(build, Zeroed)
    {
      this.build := build;
      config, policy, remoteId, statsInterval := 0, Keep, RemoteIdIp, 0;
      idlSeqno := 0;
      new;
      SetDefaultConfig();
    }

    /** udpfwd_set_default_config. */
    method SetDefaultConfig()
      modifies this
      ensures Value() == Defaults(build, old(Value())) && idlSeqno == old(idlSeqno)
    {
      if CompiledIn(build, UdpBcastForwarder) {
        SetFeature(UdpBcastForwarder, Disable);
      }
      if CompiledIn(build, DhcpRelay) {
        SetFeature(DhcpRelay, Enable);
        SetFeature(HopCountIncrement, Enable);
        SetFeature(Option82, Disable);
        SetFeature(Option82Validate, Disable);
        policy := if build.Udpfwd? then Keep else Replace;
        remoteId := RemoteIdMac;
        if build.Relay? {
          statsInterval := STATS_UPDATE_DEFAULT_INTERVAL;
        }
      }
    }

    /** set_feature_status on the control block's bitmap. */
    method SetFeature(f: Feature, state: Status)
      modifies this
      ensures Value() == WithFeature(build, old(Value()), f, state) && idlSeqno == old(idlSeqno)
    {
      config := SetFeatureStatus(build, config, f, state);
    }

    /** update_feature_state: the bitmap is written only when the status
        changes, which leaves it as set_feature_status would. */
    method UpdateFeatureState(f: Feature, state: Status)
      modifies this
      ensures Value() == WithFeature(build, old(Value()), f, state) && idlSeqno == old(idlSeqno)
    {
      var prevState := GetFeatureStatus(build, config, f);
      if state != prevState {
        SetFeature(f, state);
      } else {
        SetSameStatus(build, config, f, state);
      }
    }

    /** update_option82_policy, storing the parsed policy when it differs
        (the relay copy's behaviour). */
    method UpdateOption82Policy(value: Option<string>)
      modifies this
      ensures Value() == old(Value()).(policy := ParsePolicy(value)) && idlSeqno == old(idlSeqno)
    {
      var p := Keep;
      if value.Some? && IsPrefix(value.value, "replace") {
        p := Replace;
      } else if value.Some? && IsPrefix(value.value, "drop") {
        p := Drop;
      }
      if p != policy {
        policy := p;
      }
    }

    /** update_option82_remote_id, storing the parsed remote-id when it
        differs (the relay copy's behaviour). */
    method UpdateOption82RemoteId(value: Option<string>)
      modifies this
      ensures Value() == old(Value()).(remoteId := ParseRemoteId(value)) && idlSeqno == old(idlSeqno)
    {
      var r := RemoteIdMac;
      if value.Some? && IsPrefix(value.value, "ip") {
        r := RemoteIdIp;
      }
      if r != remoteId {
        remoteId := r;
      }
    }

    /** update_stats_refresh_interval (relay copy): the interval becomes
        atoi of the value. */
    method UpdateStatsRefreshInterval(value: string)
      modifies this
      ensures Value() == old(Value()).(statsInterval := Atoi(value)) && idlSeqno == old(idlSeqno)
    {
      if Atoi(value) != statsInterval {
        statsInterval := Atoi(value);
      }
    }

    /** udpfwd_process_globalconfig_update. */
    method ProcessGlobalConfigUpdate(row: Option<SystemRow>, rowModified: bool, dhcpModified: bool, otherModified: bool)
      modifies this
      ensures Value() == GlobalUpdate(build, old(Value()), row, rowModified, dhcpModified, otherModified)
      ensures idlSeqno == old(idlSeqno)
    {
      if row.None? || !rowModified {
        return;
      }
      var systemRow := row.value;
      if dhcpModified && CompiledIn(build, DhcpRelay) {
        var d := systemRow.dhcpConfig;
        UpdateFeatureState(DhcpRelay, FromDisabledKey(d.relayDisabled));
        UpdateFeatureState(HopCountIncrement, FromDisabledKey(d.hopCountIncrementDisabled));
        UpdateFeatureState(Option82, FromEnabledKey(d.option82Enabled));
        UpdateFeatureState(Option82Validate, FromEnabledKey(d.option82ValidationEnabled));
        UpdateOption82Policy(d.option82Policy);
        UpdateOption82RemoteId(d.option82RemoteId);
      }
      if otherModified {
        var o := systemRow.otherConfig;
        if CompiledIn(build, UdpBcastForwarder) {
          UpdateFeatureState(UdpBcastForwarder, FromEnabledKey(o.udpBcastFwdEnabled));
        }
        if build.Relay? && build.ftrDhcpRelay && o.statsUpdateInterval.Some? {
          UpdateStatsRefreshInterval(o.statsUpdateInterval.value);
        }
      }
    }

    /** udpfwd_reconfigure. The udpfwd copy does nothing when the IDL
        sequence number is the one it last processed, and caches the new
        one afterwards; the relay copy has no such check and leaves the
        cached number alone. The dhcp_relay table is walked when the DHCP
        relay is compiled in. */
    method Reconfigure(newSeqno: int, row: Option<SystemRow>, rowModified: bool, dhcpModified: bool, otherModified: bool,
                       tables: Tables<ServerKey>, change: RelayTableChange, aton: string -> Option<IPv4>, ifnameLen: nat)
      requires |change.touched| == |change.rows|
      requires tables.Valid() && tables.capacity == MAX_UDP_BCAST_SERVER_PER_INTERFACE
      modifies this, tables
      ensures tables.Valid()
      ensures build.Udpfwd? && newSeqno == old(idlSeqno) ==>
        Value() == old(Value()) && idlSeqno == old(idlSeqno) &&
        tables.serverHashMap == old(tables.serverHashMap) && tables.intfHashTable == old(tables.intfHashTable)
      ensures !(build.Udpfwd? && newSeqno == old(idlSeqno)) ==>
        Value() == GlobalUpdate(build, old(Value()), row, rowModified, dhcpModified, otherModified) &&
        idlSeqno == (if build.Udpfwd? then newSeqno else old(idlSeqno))
      ensures !(build.Udpfwd? && newSeqno == old(idlSeqno)) && CompiledIn(build, DhcpRelay) ==>
        ServerUpdateDone(tables.capacity, old(tables.serverHashMap), old(tables.intfHashTable),
                         tables.serverHashMap, tables.intfHashTable, change, aton)
      ensures !CompiledIn(build, DhcpRelay) ==>
        tables.serverHashMap == old(tables.serverHashMap) && tables.intfHashTable == old(tables.intfHashTable)
    {
      if build.Udpfwd? && newSeqno == idlSeqno {
        return;
      }
      ProcessGlobalConfigUpdate(row, rowModified, dhcpModified, otherModified);
      if CompiledIn(build, DhcpRelay) {
        DhcpRelayServerConfigUpdate(tables, change, aton, ifnameLen);
      }
      if build.Udpfwd? {
        idlSeqno := newSeqno;
      }
    }
  }
}
