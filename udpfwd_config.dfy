/*
 * The IPv4 relay's helper-address tables (udpfwd/src/udpfwd_config.c):
 * server entries keyed by address and UDP port, interfaces holding up to
 * MAX_UDP_BCAST_SERVER_PER_INTERFACE of them, and the two handlers that
 * apply the DHCP_Relay table of the configuration database to them.
 */
module UdpfwdConfig {
  import opened Common
  import opened DhcpLayout
  import opened ServerTables

  const MAX_HELPER := 8
  const MAX_UDPFWD := 8
  /** Helper addresses and UDP forward-protocol entries share one array. */
  const MAX_UDP_BCAST_SERVER_PER_INTERFACE := MAX_HELPER + MAX_UDPFWD

  /** A server entry is identified by its address and UDP port. */
  datatype ServerKey = ServerKey(ip: IPv4, udpPort: u16)

  /** A row of the DHCP_Relay table: the port and VRF references (None when
      NULL) and the helper addresses as text. */
  datatype DhcpRelayRow = DhcpRelayRow(port: Option<string>, vrf: Option<string>, ipv4UcastServer: seq<string>)

  /** A helper address is relayed to on the DHCP server port. */
  function DhcpKey(ip: IPv4): ServerKey
  {
    ServerKey(ip, DHCPS_PORT)
  }

  /** The address inet_aton (a parameter: None when it rejects the text)
      reads from one row entry, unless it is 0.0.0.0. */
  function Usable(aton: string -> Option<IPv4>, text: string): Option<IPv4>
  {
    match aton(text)
    case Some(a) => if a != 0 then Some(a) else None
    case None => None
  }

  /** The helper addresses a row configures, in row order; the entries
      inet_aton rejects and 0.0.0.0 are skipped. */
  function RowAddresses(aton: string -> Option<IPv4>, texts: seq<string>): (r: seq<IPv4>)
    ensures forall a :: a in r <==> exists i :: 0 <= i < |texts| && Usable(aton, texts[i]) == Some(a)
    ensures 0 !in r
  {
    if texts == [] then []
    else
      var init := texts[..|texts| - 1];
      assert forall i :: 0 <= i < |init| ==> init[i] == texts[i];
      RowAddresses(aton, init) + (match Usable(aton, texts[|texts| - 1]) case Some(a) => [a] case None => [])
  }

  /** The address of a slot. */
  function IpOf(slot: Option<ServerKey>): IPv4
  {
    if slot.Some? then slot.value.ip else 0
  }

  /** The addresses of the slots, whatever their ports. */
  function SlotIps(s: seq<Option<ServerKey>>): seq<IPv4>
  {
    seq(|s|, i requires 0 <= i < |s| => IpOf(s[i]))
  }

  /** The removal list: the address of every slot, in slot order, that the
      row no longer lists. */
  function Stale(s: seq<Option<ServerKey>>, valid: seq<IPv4>): (r: seq<IPv4>)
    ensures forall a :: a in r ==> a !in valid
    ensures forall a :: a !in valid ==> multiset(r)[a] == multiset(SlotIps(s))[a]
  {
    if s == [] then []
    else
      var last := IpOf(s[|s| - 1]);
      assert SlotIps(s) == SlotIps(s[..|s| - 1]) + [last];
      Stale(s[..|s| - 1], valid) + (if last in valid then [] else [last])
  }

  /** The addition list: the row's addresses, in row order, that no slot
      holds whatever its port. */
  function Fresh(valid: seq<IPv4>, held: seq<IPv4>): (r: seq<IPv4>)
    ensures forall a :: a in r <==> a in valid && a !in held
  {
    if valid == [] then []
    else
      var last := valid[|valid| - 1];
      assert valid == valid[..|valid| - 1] + [last];
      Fresh(valid[..|valid| - 1], held) + (if last in held then [] else [last])
  }

  /** The removal loop: udpfwd_remove_address of each address with the DHCP
      server port, in order. An interface freed by an earlier removal holds
      no servers any more, so the later removals find nothing. */
  function RemoveAll(capacity: nat, servers: map<ServerKey, nat>, t: map<string, IntfNode<ServerKey>>, name: string, ips: seq<IPv4>)
    : (r: (map<ServerKey, nat>, map<string, IntfNode<ServerKey>>))
    requires name in t ==> Shaped(t[name], capacity)
    ensures r.1.Keys <= t.Keys && (name in r.1 ==> Shaped(r.1[name], capacity))
    ensures forall n :: n in t && n != name ==> n in r.1 && r.1[n] == t[n]
  {
    if ips == [] then (servers, t)
    else
      var prev := RemoveAll(capacity, servers, t, name, ips[..|ips| - 1]);
      if name in prev.1 then
        var r := Remove(capacity, prev.0, prev.1, name, Matches(DhcpKey(ips[|ips| - 1])));
        (r.1, r.2)
      else prev
  }

  /** The store loop: udpfwd_store_address of each address with the DHCP
      server port, in order. */
  function StoreAll(capacity: nat, servers: map<ServerKey, nat>, t: map<string, IntfNode<ServerKey>>, name: string, ips: seq<IPv4>)
    : (r: (map<ServerKey, nat>, map<string, IntfNode<ServerKey>>))
    requires name in t && Shaped(t[name], capacity)
    ensures r.1.Keys == t.Keys && Shaped(r.1[name], capacity)
    ensures forall n :: n in t && n != name ==> r.1[n] == t[n]
  {
    if ips == [] then (servers, t)
    else
      var prev := StoreAll(capacity, servers, t, name, ips[..|ips| - 1]);
      var r := Store(capacity, prev.0, prev.1, name, DhcpKey(ips[|ips| - 1]));
      (r.1, r.2)
  }

  /** A row the handler acts on: a row with a port and a VRF. */
  predicate Applies(rec: Option<DhcpRelayRow>)
  {
    rec.Some? && rec.value.port.Some? && rec.value.vrf.Some?
  }

  /** The first half of udpfwd_handle_dhcp_relay_config_change: the node
      of `name` is found or created, and its servers whose address `valid`
      does not list are removed with the DHCP server port. The node is
      looked up again (and created if the removals deleted it). */
  function Prune(capacity: nat, servers: map<ServerKey, nat>, t: map<string, IntfNode<ServerKey>>, name: string, valid: seq<IPv4>)
    : (r: (map<ServerKey, nat>, map<string, IntfNode<ServerKey>>))
    requires forall n :: n in t ==> Shaped(t[n], capacity)
    ensures name in r.1 && r.1.Keys == t.Keys + {name}
    ensures forall n :: n in r.1 ==> Shaped(r.1[n], capacity)
    ensures forall n :: n in t && n != name ==> r.1[n] == t[n]
  {
    var t1 := WithNode(t, name);
    var removed := RemoveAll(capacity, servers, t1, name, Stale(Slots(t1[name]), valid));
    var t2 := WithNode(removed.1, name);
    PruneShaped(capacity, t, t1, removed.1, t2, name);
    (removed.0, t2)
  }

  lemma PruneShaped(capacity: nat, t: map<string, IntfNode<ServerKey>>, t1: map<string, IntfNode<ServerKey>>,
                    t2: map<string, IntfNode<ServerKey>>, t3: map<string, IntfNode<ServerKey>>, name: string)
    requires forall n :: n in t ==> Shaped(t[n], capacity)
    requires t1 == WithNode(t, name)
    requires t2.Keys <= t1.Keys && (name in t2 ==> Shaped(t2[name], capacity))
    requires forall n :: n in t1 && n != name ==> n in t2 && t2[n] == t1[n]
    requires t3 == WithNode(t2, name)
    ensures name in t3 && t3.Keys == t.Keys + {name}
    ensures forall n :: n in t3 ==> Shaped(t3[n], capacity)
    ensures forall n :: n in t && n != name ==> t3[n] == t[n]
  {
    assert t3.Keys == t.Keys + {name} by {
      assert forall n :: n in t && n != name ==> n in t2;
    }
  }

  /** The second half: the addresses of `valid` that no slot of `name`
      holds are stored with the DHCP server port. */
  function Extend(capacity: nat, servers: map<ServerKey, nat>, t: map<string, IntfNode<ServerKey>>, name: string, valid: seq<IPv4>)
    : (r: (map<ServerKey, nat>, map<string, IntfNode<ServerKey>>))
    requires name in t && forall n :: n in t ==> Shaped(t[n], capacity)
    ensures r.1.Keys == t.Keys
    ensures forall n :: n in r.1 ==> Shaped(r.1[n], capacity)
    ensures forall n :: n in t && n != name ==> r.1[n] == t[n]
  {
    StoreAll(capacity, servers, t, name, Fresh(valid, SlotIps(Slots(t[name]))))
  }

  /** udpfwd_handle_dhcp_relay_config_change on values: the interface's
      servers whose address the row no longer lists are removed (with the
      DHCP server port), then the row's addresses the interface does not
      hold are stored with that port. The interface node is looked up again
      before the stores, since the removals may have deleted it. */
  function ConfigChange(capacity: nat, servers: map<ServerKey, nat>, t: map<string, IntfNode<ServerKey>>,
                        rec: Option<DhcpRelayRow>, aton: string -> Option<IPv4>)
    : (r: (map<ServerKey, nat>, map<string, IntfNode<ServerKey>>))
    requires forall n :: n in t ==> Shaped(t[n], capacity)
    ensures forall n :: n in r.1 ==> Shaped(r.1[n], capacity)
    ensures !Applies(rec) ==> r == (servers, t)
    ensures Applies(rec) ==> r.1.Keys == t.Keys + {rec.value.port.value}
    ensures forall n :: n in t && !(Applies(rec) && n == rec.value.port.value) ==> r.1[n] == t[n]
  {
    if !Applies(rec) then (servers, t)
    else
      var name := rec.value.port.value;
      var valid := RowAddresses(aton, rec.value.ipv4UcastServer);
      var pruned := Prune(capacity, servers, t, name, valid);
      Extend(capacity, pruned.0, pruned.1, name, valid)
  }

  /** udpfwd_handle_dhcp_relay_config_change as written: when the removals
      freed the interface node, the handler goes on with the freed node
      (read here as it was left: no servers, no array). The stores then
      create or count server entries for a node the interface table no
      longer holds. */
  function ConfigChangeAsWritten(capacity: nat, servers: map<ServerKey, nat>, t: map<string, IntfNode<ServerKey>>,
                                 rec: Option<DhcpRelayRow>, aton: string -> Option<IPv4>)
    : (r: (map<ServerKey, nat>, map<string, IntfNode<ServerKey>>))
    requires forall n :: n in t ==> Shaped(t[n], capacity)
    ensures Applies(rec) && rec.value.port.value in r.1 ==> r == ConfigChange(capacity, servers, t, rec, aton)
  {
    if !Applies(rec) then (servers, t)
    else
      var name := rec.value.port.value;
      var valid := RowAddresses(aton, rec.value.ipv4UcastServer);
      var t1 := WithNode(t, name);
      var removed := RemoveAll(capacity, servers, t1, name, Stale(Slots(t1[name]), valid));
      if name in removed.1 then
        StoreAll(capacity, removed.0, removed.1, name, Fresh(valid, SlotIps(Slots(removed.1[name]))))
      else
        var detached := map[name := IntfNode(0, None)];
        (StoreAll(capacity, removed.0, detached, name, Fresh(valid, [])).0, removed.1)
  }

  // ---------------------------------------------------------------------
  // What applying a row promises.

  lemma {:induction false} RemoveAllConsistent(capacity: nat, servers: map<ServerKey, nat>, t: map<string, IntfNode<ServerKey>>, name: string, ips: seq<IPv4>)
    requires Consistent(capacity, servers, t)
    ensures var r := RemoveAll(capacity, servers, t, name, ips);
      Consistent(capacity, r.0, r.1)
  {
    if ips != [] {
      RemoveAllConsistent(capacity, servers, t, name, ips[..|ips| - 1]);
      var prev := RemoveAll(capacity, servers, t, name, ips[..|ips| - 1]);
      if name in prev.1 {
        RemoveConsistent(capacity, prev.0, prev.1, name, Matches(DhcpKey(ips[|ips| - 1])));
      }
    }
  }

  lemma {:induction false} StoreAllConsistent(capacity: nat, servers: map<ServerKey, nat>, t: map<string, IntfNode<ServerKey>>, name: string, ips: seq<IPv4>)
    requires Consistent(capacity, servers, t) && name in t
    ensures var r := StoreAll(capacity, servers, t, name, ips);
      Consistent(capacity, r.0, r.1)
  {
    if ips != [] {
      StoreAllConsistent(capacity, servers, t, name, ips[..|ips| - 1]);
      var prev := StoreAll(capacity, servers, t, name, ips[..|ips| - 1]);
      StoreConsistent(capacity, prev.0, prev.1, name, DhcpKey(ips[|ips| - 1]));
    }
  }

  lemma WithNodeConsistent(capacity: nat, servers: map<ServerKey, nat>, t: map<string, IntfNode<ServerKey>>, name: string)
    requires Consistent(capacity, servers, t)
    ensures Consistent(capacity, servers, WithNode(t, name))
  {
    if name !in t {
      AddEmptyConsistent(capacity, servers, t, name);
    }
  }

  /** Applying a row keeps the reference counts exact. */
  lemma ConfigChangeConsistent(capacity: nat, servers: map<ServerKey, nat>, t: map<string, IntfNode<ServerKey>>,
                               rec: Option<DhcpRelayRow>, aton: string -> Option<IPv4>)
    requires Consistent(capacity, servers, t)
    ensures var r := ConfigChange(capacity, servers, t, rec, aton);
      Consistent(capacity, r.0, r.1)
  {
    if Applies(rec) {
      var name := rec.value.port.value;
      var valid := RowAddresses(aton, rec.value.ipv4UcastServer);
      var t1 := WithNode(t, name);
      WithNodeConsistent(capacity, servers, t, name);
      var removed := RemoveAll(capacity, servers, t1, name, Stale(Slots(t1[name]), valid));
      RemoveAllConsistent(capacity, servers, t1, name, Stale(Slots(t1[name]), valid));
      var t2 := WithNode(removed.1, name);
      WithNodeConsistent(capacity, removed.0, removed.1, name);
      StoreAllConsistent(capacity, removed.0, t2, name, Fresh(valid, SlotIps(Slots(t2[name]))));
    }
  }

  /** The stores only append: the slots before them stay a prefix, and each
      stored address ends up in a slot unless the interface is full. */
  lemma {:induction false} StoreAllAppends(capacity: nat, servers: map<ServerKey, nat>, t: map<string, IntfNode<ServerKey>>, name: string, ips: seq<IPv4>)
    requires name in t && Shaped(t[name], capacity)
    ensures var after := StoreAll(capacity, servers, t, name, ips).1[name];
      Slots(t[name]) <= Slots(after) &&
      forall a :: a in ips ==> Some(DhcpKey(a)) in Slots(after) || after.addrCount == capacity
  {
    if ips != [] {
      var init := ips[..|ips| - 1];
      var last := ips[|ips| - 1];
      StoreAllAppends(capacity, servers, t, name, init);
      var prev := StoreAll(capacity, servers, t, name, init);
      var r := Store(capacity, prev.0, prev.1, name, DhcpKey(last));
      assert StoreAll(capacity, servers, t, name, ips) == (r.1, r.2);
      StoreSlots(capacity, prev.0, prev.1, name, DhcpKey(last));
      var before := prev.1[name];
      var after := r.2[name];
      assert Slots(before) <= Slots(after);
      forall a | a in ips
        ensures Some(DhcpKey(a)) in Slots(after) || after.addrCount == capacity
      {
        if a != last {
          assert a in init;
        }
      }
    }
  }

  /** The stores leave every address of `valid` in a slot of `name`,
      unless the interface is full. */
  lemma ExtendHolds(capacity: nat, servers: map<ServerKey, nat>, t: map<string, IntfNode<ServerKey>>, name: string, valid: seq<IPv4>)
    requires name in t && forall n :: n in t ==> Shaped(t[n], capacity)
    ensures var after := Extend(capacity, servers, t, name, valid).1[name];
      forall a :: a in valid ==> a in SlotIps(Slots(after)) || after.addrCount == capacity
  {
    var before := Slots(t[name]);
    var held := SlotIps(before);
    StoreAllAppends(capacity, servers, t, name, Fresh(valid, held));
    var after := Extend(capacity, servers, t, name, valid).1[name];
    forall a | a in valid
      ensures a in SlotIps(Slots(after)) || after.addrCount == capacity
    {
      if a in held {
        var i :| 0 <= i < |held| && held[i] == a;
        assert Slots(after)[i] == before[i];
        assert SlotIps(Slots(after))[i] == a;
      } else if after.addrCount < capacity {
        var i :| 0 <= i < |Slots(after)| && Slots(after)[i] == Some(DhcpKey(a));
        assert SlotIps(Slots(after))[i] == a;
      }
    }
  }

  /** After a row is applied the interface holds every address the row
      lists, unless it is full. */
  lemma ConfigChangeHoldsRow(capacity: nat, servers: map<ServerKey, nat>, t: map<string, IntfNode<ServerKey>>,
                             rec: Option<DhcpRelayRow>, aton: string -> Option<IPv4>)
    requires forall n :: n in t ==> Shaped(t[n], capacity)
    requires Applies(rec)
    ensures var name := rec.value.port.value;
      var after := ConfigChange(capacity, servers, t, rec, aton).1[name];
      forall a :: a in RowAddresses(aton, rec.value.ipv4UcastServer) ==>
        a in SlotIps(Slots(after)) || after.addrCount == capacity
  {
    var name := rec.value.port.value;
    var valid := RowAddresses(aton, rec.value.ipv4UcastServer);
    var pruned := Prune(capacity, servers, t, name, valid);
    ExtendHolds(capacity, pruned.0, pruned.1, name, valid);
  }

  /** Every slot in use whose address is `a` counts once among the slots'
      addresses, whatever its port. */
  lemma {:induction false} DhcpSlotsCounted(s: seq<Option<ServerKey>>, a: IPv4)
    ensures multiset(SlotIps(s))[a] >= multiset(s)[Some(DhcpKey(a))]
  {
    if s != [] {
      DhcpSlotsCounted(s[..|s| - 1], a);
      assert s == s[..|s| - 1] + [s[|s| - 1]];
      assert SlotIps(s) == SlotIps(s[..|s| - 1]) + [IpOf(s[|s| - 1])];
    }
  }

  /** Each removal in the list takes away one slot with that address and
      the DHCP server port, as long as there is one. */
  lemma {:induction false} RemoveAllCount(capacity: nat, servers: map<ServerKey, nat>, t: map<string, IntfNode<ServerKey>>, name: string, ips: seq<IPv4>, a: IPv4)
    requires name in t ==> Shaped(t[name], capacity)
    ensures var after := RemoveAll(capacity, servers, t, name, ips).1;
      var before := CountIn(t, name, DhcpKey(a));
      CountIn(after, name, DhcpKey(a)) == if before <= multiset(ips)[a] then 0 else before - multiset(ips)[a]
  {
    if ips != [] {
      var init := ips[..|ips| - 1];
      var last := ips[|ips| - 1];
      assert ips == init + [last];
      RemoveAllCount(capacity, servers, t, name, init, a);
      var prev := RemoveAll(capacity, servers, t, name, init);
      if name in prev.1 {
        RemoveCount(capacity, prev.0, prev.1, name, Matches(DhcpKey(last)), DhcpKey(a));
        var s := Slots(prev.1[name]);
        if last == a && Some(DhcpKey(a)) in multiset(s) {
          assert Matches(DhcpKey(last))(DhcpKey(a));
        }
      }
    }
  }

  /** Stores of other addresses leave the count of a key alone. */
  lemma {:induction false} StoreAllCount(capacity: nat, servers: map<ServerKey, nat>, t: map<string, IntfNode<ServerKey>>, name: string, ips: seq<IPv4>, a: IPv4)
    requires name in t && Shaped(t[name], capacity) && a !in ips
    ensures CountIn(StoreAll(capacity, servers, t, name, ips).1, name, DhcpKey(a)) == CountIn(t, name, DhcpKey(a))
  {
    if ips != [] {
      var init := ips[..|ips| - 1];
      assert ips == init + [ips[|ips| - 1]];
      StoreAllCount(capacity, servers, t, name, init, a);
      var prev := StoreAll(capacity, servers, t, name, init);
      StoreCount(capacity, prev.0, prev.1, name, DhcpKey(ips[|ips| - 1]), DhcpKey(a));
    }
  }

  /** After a row is applied, every slot of the interface with the DHCP
      server port holds an address the row lists. */
  lemma ConfigChangeDropsStale(capacity: nat, servers: map<ServerKey, nat>, t: map<string, IntfNode<ServerKey>>,
                               rec: Option<DhcpRelayRow>, aton: string -> Option<IPv4>)
    requires forall n :: n in t ==> Shaped(t[n], capacity)
    requires Applies(rec)
    ensures var name := rec.value.port.value;
      var s := Slots(ConfigChange(capacity, servers, t, rec, aton).1[name]);
      forall i :: 0 <= i < |s| && s[i].Some? && s[i].value.udpPort == DHCPS_PORT ==>
        s[i].value.ip in RowAddresses(aton, rec.value.ipv4UcastServer)
  {
    var name := rec.value.port.value;
    var valid := RowAddresses(aton, rec.value.ipv4UcastServer);
    var t1 := WithNode(t, name);
    var stale := Stale(Slots(t1[name]), valid);
    var removed := RemoveAll(capacity, servers, t1, name, stale);
    var t2 := WithNode(removed.1, name);
    var added := Fresh(valid, SlotIps(Slots(t2[name])));
    var s := Slots(ConfigChange(capacity, servers, t, rec, aton).1[name]);
    forall i | 0 <= i < |s| && s[i].Some? && s[i].value.udpPort == DHCPS_PORT
      ensures s[i].value.ip in valid
    {
      var a := s[i].value.ip;
      assert s[i] == Some(DhcpKey(a));
      assert s[i] in multiset(s);
      if a !in valid {
        DhcpSlotsCounted(Slots(t1[name]), a);
        RemoveAllCount(capacity, servers, t1, name, stale, a);
        assert CountIn(t2, name, DhcpKey(a)) == 0;
        StoreAllCount(capacity, removed.0, t2, name, added, a);
        assert false;
      }
    }
  }

  // ---------------------------------------------------------------------
  // The configuration handlers as the daemon runs them.

  lemma RowAddressesStep(aton: string -> Option<IPv4>, texts: seq<string>, i: nat)
    requires i < |texts|
    ensures RowAddresses(aton, texts[..i + 1])
      == RowAddresses(aton, texts[..i]) + (match Usable(aton, texts[i]) case Some(a) => [a] case None => [])
  {
    assert texts[..i + 1][..i] == texts[..i];
  }

  lemma StaleStep(s: seq<Option<ServerKey>>, valid: seq<IPv4>, i: nat)
    requires i < |s|
    ensures Stale(s[..i + 1], valid) == Stale(s[..i], valid) + (if IpOf(s[i]) in valid then [] else [IpOf(s[i])])
  {
    assert s[..i + 1][..i] == s[..i];
  }

  lemma FreshStep(aton: string -> Option<IPv4>, texts: seq<string>, i: nat, held: seq<IPv4>)
    requires i < |texts|
    ensures Fresh(RowAddresses(aton, texts[..i + 1]), held) == Fresh(RowAddresses(aton, texts[..i]), held)
      + (match Usable(aton, texts[i]) case Some(a) => (if a in held then [] else [a]) case None => [])
  {
    var valid := RowAddresses(aton, texts[..i]);
    RowAddressesStep(aton, texts, i);
    if Usable(aton, texts[i]).Some? {
      var a := Usable(aton, texts[i]).value;
      assert (valid + [a])[..|valid|] == valid;
    } else {
      assert valid + [] == valid;
    }
  }

  /** The inner loop of the first collection: whether a usable row entry
      names `ipaddress`. Entries that do not parse, or parse to 0.0.0.0, are
      skipped. */
  method InRow(ipaddress: IPv4, texts: seq<string>, aton: string -> Option<IPv4>) returns (found: bool)
    ensures found <==> ipaddress in RowAddresses(aton, texts)
  {
    found := false;
    var iter1 := 0;
    while iter1 < |texts|
      invariant iter1 <= |texts|
      invariant ipaddress !in RowAddresses(aton, texts[..iter1])
    {
      RowAddressesStep(aton, texts, iter1);
      var id := aton(texts[iter1]);
      assert Usable(aton, texts[iter1]) == if id.Some? && id.value != 0 then Some(id.value) else None;
      if id.Some? && id.value != 0 {
        if ipaddress == id.value {
          found := true;
          assert Usable(aton, texts[iter1]) == Some(ipaddress);
          return;
        }
      }
      iter1 := iter1 + 1;
    }
    assert texts[..iter1] == texts;
  }

  /** The inner loop of the second collection: whether a slot in use holds
      `ip`. */
  method HoldsIp(intfNode: IntfNode<ServerKey>, ip: IPv4) returns (found: bool)
    requires NodeOk(intfNode, MAX_UDP_BCAST_SERVER_PER_INTERFACE)
    ensures found <==> ip in SlotIps(Slots(intfNode))
  {
    ghost var held := SlotIps(Slots(intfNode));
    found := false;
    var iter1 := 0;
    while iter1 < intfNode.addrCount
      invariant iter1 <= intfNode.addrCount
      invariant forall j :: 0 <= j < iter1 ==> held[j] != ip
    {
      if intfNode.serverArray.value[iter1].value.ip == ip {
        found := true;
        assert held[iter1] == ip;
        return;
      }
      iter1 := iter1 + 1;
    }
  }

  /** The first collection loop of udpfwd_handle_dhcp_relay_config_change:
      the address of each slot in use that no usable row entry matches. */
  method CollectRemoved(intfNode: IntfNode<ServerKey>, texts: seq<string>, aton: string -> Option<IPv4>)
    returns (servers: seq<IPv4>)
    requires NodeOk(intfNode, MAX_UDP_BCAST_SERVER_PER_INTERFACE)
    ensures servers == Stale(Slots(intfNode), RowAddresses(aton, texts))
  {
    ghost var s := Slots(intfNode);
    ghost var valid := RowAddresses(aton, texts);
    servers := [];
    var iter := 0;
    while iter < intfNode.addrCount
      invariant iter <= intfNode.addrCount
      invariant servers == Stale(s[..iter], valid)
    {
      assert s[iter] == intfNode.serverArray.value[iter];
      var ipaddress := intfNode.serverArray.value[iter].value.ip;
      StaleStep(s, valid, iter);
      var found := InRow(ipaddress, texts, aton);
      if !found {
        servers := servers + [ipaddress];
      }
      iter := iter + 1;
    }
    assert s[..iter] == s;
  }

  /** The second collection loop: the usable row addresses, in row order,
      that no slot in use holds. */
  method CollectAdded(intfNode: IntfNode<ServerKey>, texts: seq<string>, aton: string -> Option<IPv4>)
    returns (servers: seq<IPv4>)
    requires NodeOk(intfNode, MAX_UDP_BCAST_SERVER_PER_INTERFACE)
    ensures servers == Fresh(RowAddresses(aton, texts), SlotIps(Slots(intfNode)))
  {
    ghost var held := SlotIps(Slots(intfNode));
    servers := [];
    var iter := 0;
    while iter < |texts|
      invariant iter <= |texts|
      invariant servers == Fresh(RowAddresses(aton, texts[..iter]), held)
    {
      FreshStep(aton, texts, iter, held);
      var id := aton(texts[iter]);
      if id.Some? && id.value != 0 {
        var found := HoldsIp(intfNode, id.value);
        if !found {
          servers := servers + [id.value];
        }
      }
      iter := iter + 1;
    }
    assert texts[..iter] == texts;
  }

  lemma RemoveAllStep(capacity: nat, servers: map<ServerKey, nat>, t: map<string, IntfNode<ServerKey>>, name: string,
                      ips: seq<IPv4>, iter: nat)
    requires name in t ==> Shaped(t[name], capacity)
    requires iter < |ips|
    ensures var prev := RemoveAll(capacity, servers, t, name, ips[..iter]);
      RemoveAll(capacity, servers, t, name, ips[..iter + 1])
        == if name in prev.1 then
             var r := Remove(capacity, prev.0, prev.1, name, Matches(DhcpKey(ips[iter])));
             (r.1, r.2)
           else prev
  {
    assert ips[..iter + 1][..iter] == ips[..iter];
  }

  lemma StoreAllStep(capacity: nat, servers: map<ServerKey, nat>, t: map<string, IntfNode<ServerKey>>, name: string,
                     ips: seq<IPv4>, iter: nat)
    requires name in t && Shaped(t[name], capacity)
    requires iter < |ips|
    ensures var prev := StoreAll(capacity, servers, t, name, ips[..iter]);
      var r := Store(capacity, prev.0, prev.1, name, DhcpKey(ips[iter]));
      StoreAll(capacity, servers, t, name, ips[..iter + 1]) == (r.1, r.2)
  {
    assert ips[..iter + 1][..iter] == ips[..iter];
  }

  /** The removal loop: each collected address is removed from the
      interface with the DHCP server port. Once the interface node is gone
      there is nothing left to remove. */
  method RemoveServers(tables: Tables<ServerKey>, portName: string, servers: seq<IPv4>)
    requires tables.Valid()
    modifies tables
    ensures tables.Valid()
    ensures (tables.serverHashMap, tables.intfHashTable)
      == RemoveAll(tables.capacity, old(tables.serverHashMap), old(tables.intfHashTable), portName, servers)
  {
    ghost var s0, t0 := tables.serverHashMap, tables.intfHashTable;
    var iter := 0;
    while iter < |servers|
      invariant iter <= |servers| && tables.Valid()
      invariant (tables.serverHashMap, tables.intfHashTable) == RemoveAll(tables.capacity, s0, t0, portName, servers[..iter])
    {
      RemoveAllStep(tables.capacity, s0, t0, portName, servers, iter);
      if portName in tables.intfHashTable {
        var removed := tables.RemoveAddress(portName, Matches(DhcpKey(servers[iter])));
      }
      iter := iter + 1;
    }
    assert servers[..iter] == servers;
  }

  /** The store loop: each collected address is stored on the interface
      with the DHCP server port. */
  method StoreServers(tables: Tables<ServerKey>, portName: string, servers: seq<IPv4>)
    requires tables.Valid() && portName in tables.intfHashTable
    modifies tables
    ensures tables.Valid()
    ensures (tables.serverHashMap, tables.intfHashTable)
      == StoreAll(tables.capacity, old(tables.serverHashMap), old(tables.intfHashTable), portName, servers)
  {
    ghost var s0, t0 := tables.serverHashMap, tables.intfHashTable;
    var iter := 0;
    while iter < |servers|
      invariant iter <= |servers| && tables.Valid() && portName in tables.intfHashTable
      invariant (tables.serverHashMap, tables.intfHashTable) == StoreAll(tables.capacity, s0, t0, portName, servers[..iter])
    {
      StoreAllStep(tables.capacity, s0, t0, portName, servers, iter);
      var stored := tables.StoreAddress(portName, DhcpKey(servers[iter]));
      iter := iter + 1;
    }
    assert servers[..iter] == servers;
  }

  /** Finds the node of `portName`, creating an empty one when there is
      none. */
  method LookupOrCreate(tables: Tables<ServerKey>, portName: string) returns (intfNode: IntfNode<ServerKey>)
    requires tables.Valid()
    modifies tables
    ensures tables.Valid()
    ensures tables.intfHashTable == WithNode(old(tables.intfHashTable), portName)
    ensures tables.serverHashMap == old(tables.serverHashMap)
    ensures intfNode == tables.intfHashTable[portName]
  {
    if portName !in tables.intfHashTable {
      AddEmptyConsistent(tables.capacity, tables.serverHashMap, tables.intfHashTable, portName);
      tables.intfHashTable := tables.intfHashTable[portName := IntfNode(0, None)];
    }
    intfNode := tables.intfHashTable[portName];
  }

  /** udpfwd_handle_dhcp_relay_config_change, with the interface node looked
      up again before the stores. */
  method HandleDhcpRelayConfigChange(tables: Tables<ServerKey>, rec: Option<DhcpRelayRow>, aton: string -> Option<IPv4>)
    requires tables.Valid() && tables.capacity == MAX_UDP_BCAST_SERVER_PER_INTERFACE
    modifies tables
    ensures tables.Valid()
    ensures (tables.serverHashMap, tables.intfHashTable)
      == ConfigChange(tables.capacity, old(tables.serverHashMap), old(tables.intfHashTable), rec, aton)
  {
    if rec.None? || rec.value.port.None? || rec.value.vrf.None? {
      return;
    }
    var row := rec.value;
    var portName := row.port.value;
    ghost var valid := RowAddresses(aton, row.ipv4UcastServer);
    ghost var s0, t0 := tables.serverHashMap, tables.intfHashTable;
    assert forall n :: n in t0 ==> Shaped(t0[n], tables.capacity);
    ghost var pruned := Prune(tables.capacity, s0, t0, portName, valid);
    ghost var result := Extend(tables.capacity, pruned.0, pruned.1, portName, valid);
    assert result == ConfigChange(tables.capacity, s0, t0, rec, aton);
    var intfNode := LookupOrCreate(tables, portName);
    var servers := CollectRemoved(intfNode, row.ipv4UcastServer, aton);
    RemoveServers(tables, portName, servers);
    intfNode := LookupOrCreate(tables, portName);
    assert (tables.serverHashMap, tables.intfHashTable) == pruned;
    servers := CollectAdded(intfNode, row.ipv4UcastServer, aton);
    StoreServers(tables, portName, servers);
    assert (tables.serverHashMap, tables.intfHashTable) == result;
  }

  // ---------------------------------------------------------------------
  // Deleted rows.

  /** Some row of the table names the interface: the port name agrees with
      the interface name on its first `ifnameLen` characters. */
  predicate Listed(rows: seq<DhcpRelayRow>, name: string, ifnameLen: nat)
  {
    exists i :: 0 <= i < |rows| && rows[i].port.Some? && StrnEq(rows[i].port.value, name, ifnameLen)
  }

  /** The search of udpfwd_handle_dhcp_relay_row_delete for a row naming the
      interface; rows without a port are skipped. */
  method FindRow(rows: seq<DhcpRelayRow>, name: string, ifnameLen: nat) returns (found: bool)
    ensures found <==> Listed(rows, name, ifnameLen)
  {
    found := false;
    var iter := 0;
    while iter < |rows|
      invariant iter <= |rows|
      invariant forall i :: 0 <= i < iter ==> !(rows[i].port.Some? && StrnEq(rows[i].port.value, name, ifnameLen))
    {
      var rec := rows[iter];
      if rec.port.Some? && StrnEq(rec.port.value, name, ifnameLen) {
        found := true;
        return;
      }
      iter := iter + 1;
    }
  }

  /** An interface survives a row deletion when some row still names it or
      it holds no server. */
  predicate Kept(t: map<string, IntfNode<ServerKey>>, rows: seq<DhcpRelayRow>, ifnameLen: nat, name: string)
  {
    name in t && (Listed(rows, name, ifnameLen) || t[name].addrCount == 0)
  }

  /** udpfwd_handle_dhcp_relay_row_delete, with the corrected inner loop:
      every interface that no remaining row names loses all its servers and
      with them its node; the reference counts follow from Valid. */
  method HandleDhcpRelayRowDelete(tables: Tables<ServerKey>, rows: seq<DhcpRelayRow>, ifnameLen: nat)
    requires tables.Valid()
    modifies tables
    ensures tables.Valid()
    ensures forall n :: n in tables.intfHashTable <==> Kept(old(tables.intfHashTable), rows, ifnameLen, n)
    ensures forall n :: n in tables.intfHashTable ==> n in old(tables.intfHashTable) && tables.intfHashTable[n] == old(tables.intfHashTable)[n]
  {
    ghost var t0 := tables.intfHashTable;
    var names := tables.intfHashTable.Keys;
    while names != {}
      invariant names <= t0.Keys && tables.Valid()
      invariant forall n :: n in tables.intfHashTable <==> n in names || Kept(t0, rows, ifnameLen, n)
      invariant forall n :: n in tables.intfHashTable ==> n in t0 && tables.intfHashTable[n] == t0[n]
      decreases |names|
    {
      var name :| name in names;
      var found := FindRow(rows, name, ifnameLen);
      if !found {
        RemoveInterfaceServers(tables, name);
      }
      names := names - {name};
    }
  }

  /** The tables of the use-after-free example: interface 1/1/1 holding
      the single server 0.0.0.1 on the DHCP server port. */
  const strandedName := "1/1/1"
  const strandedNode := IntfNode(1, Some([Some(DhcpKey(1))] + seq(MAX_UDP_BCAST_SERVER_PER_INTERFACE - 1, _ => None)))
  const strandedTable := map[strandedName := strandedNode]
  const strandedServers := map[DhcpKey(1) := 1]

  /** The row that reconfigures 1/1/1 to the single server 0.0.0.2, read
      with an inet_aton that accepts only that text. */
  const strandedRow := Some(DhcpRelayRow(Some(strandedName), Some("vrf_default"), ["0.0.0.2"]))
  function StrandedAton(text: string): Option<IPv4>
  {
    if text == "0.0.0.2" then Some(2) else None
  }

  lemma StrandedStartConsistent()
    ensures Consistent(MAX_UDP_BCAST_SERVER_PER_INTERFACE, strandedServers, strandedTable)
  {
    assert Slots(strandedNode) == [Some(DhcpKey(1))];
    forall k
      ensures Refs(strandedTable, k) == if k == DhcpKey(1) then 1 else 0
    {
      RefsInPick(strandedTable.Keys, strandedTable, k, strandedName);
      assert strandedTable.Keys - {strandedName} == {};
    }
  }

  lemma StrandedRemoval()
    ensures RemoveAll(MAX_UDP_BCAST_SERVER_PER_INTERFACE, strandedServers, strandedTable, strandedName, [1]) == (map[], map[])
  {
    var cap := MAX_UDP_BCAST_SERVER_PER_INTERFACE;
    assert Slots(strandedNode) == [Some(DhcpKey(1))];
    assert FirstMatch(Slots(strandedNode), Matches(DhcpKey(1))) == 0;
    assert Remove(cap, strandedServers, strandedTable, strandedName, Matches(DhcpKey(1))) == (true, map[], map[]) by {
      assert strandedTable - {strandedName} == map[];
      assert strandedServers - {DhcpKey(1)} == map[];
    }
    var ones: seq<IPv4> := [1];
    assert ones[..0] == [] && ones[0] == 1;
    assert RemoveAll(cap, strandedServers, strandedTable, strandedName, ones[..0]) == (strandedServers, strandedTable);
  }

  lemma StrandedStore()
    ensures StoreAll(MAX_UDP_BCAST_SERVER_PER_INTERFACE, map[], map[strandedName := IntfNode(0, None)], strandedName, [2]).0
      == map[DhcpKey(2) := 1]
  {
    var cap := MAX_UDP_BCAST_SERVER_PER_INTERFACE;
    var detached := map[strandedName := IntfNode(0, None)];
    assert Store(cap, map[], detached, strandedName, DhcpKey(2)).1 == map[DhcpKey(2) := 1];
    var twos: seq<IPv4> := [2];
    assert twos[..0] == [] && twos[0] == 2;
    assert StoreAll(cap, map[], detached, strandedName, twos[..0]) == (map[], detached);
  }

  lemma StrandedAddresses()
    ensures RowAddresses(StrandedAton, strandedRow.value.ipv4UcastServer) == [2]
  {
    var texts := strandedRow.value.ipv4UcastServer;
    assert texts[..0] == [];
  }

  lemma StrandedStale()
    ensures Stale(Slots(strandedNode), [2]) == [1]
  {
    assert Slots(strandedNode) == [Some(DhcpKey(1))];
    assert Slots(strandedNode)[..0] == [];
  }

  /** The use after free of udpfwd_handle_dhcp_relay_config_change: an
      interface holding only 0.0.0.1, reconfigured to 0.0.0.2, loses its node
      with the removal, and the store then goes to the detached node. The
      entry for 0.0.0.2 is left with a reference that no interface holds,
      where the corrected handler keeps the interface with that server. */
  lemma ConfigChangeAsWrittenStrandsEntry()
    ensures Consistent(MAX_UDP_BCAST_SERVER_PER_INTERFACE, strandedServers, strandedTable)
    ensures var r := ConfigChangeAsWritten(MAX_UDP_BCAST_SERVER_PER_INTERFACE, strandedServers, strandedTable, strandedRow, StrandedAton);
      strandedName !in r.1 && DhcpKey(2) in r.0 && !Consistent(MAX_UDP_BCAST_SERVER_PER_INTERFACE, r.0, r.1)
  {
    var cap := MAX_UDP_BCAST_SERVER_PER_INTERFACE;
    StrandedStartConsistent();
    StrandedAddresses();
    StrandedStale();
    StrandedRemoval();
    assert Fresh([2], []) == [2];
    StrandedStore();
    var r := ConfigChangeAsWritten(cap, strandedServers, strandedTable, strandedRow, StrandedAton);
    assert r == (map[DhcpKey(2) := 1], map[]);
    assert Refs(r.1, DhcpKey(2)) == 0;
  }

  // ---------------------------------------------------------------------
  // The `servers` buffer of the configuration-change handler.

  /** The local `uint32_t servers[MAX_UDP_BCAST_SERVER_PER_INTERFACE]` after
      the memset and a collection loop that wrote `collected` from index 0.
      None when a write falls past the end of the array. */
  function ServersBuffer(collected: seq<IPv4>): Option<seq<IPv4>>
  {
    if |collected| <= MAX_UDP_BCAST_SERVER_PER_INTERFACE
    then Some(collected + seq(MAX_UDP_BCAST_SERVER_PER_INTERFACE - |collected|, _ => 0))
    else None
  }

  /** The entries `for (iter = 0; servers[iter] != 0; iter++)` visits: those
      before the first 0. None when no entry is 0, so that the loop reads
      past the end of the array. */
  function SentinelRun(a: seq<IPv4>): Option<seq<IPv4>>
  {
    if a == [] then None
    else if a[0] == 0 then Some([])
    else match SentinelRun(a[1..])
      case Some(rest) => Some([a[0]] + rest)
      case None => None
  }

  /** The addresses the removal loop or the store loop of the handler, as
      written, passes on for the list a collection loop built; None when
      the collection or the loop leaves the array. */
  function SentinelLoop(collected: seq<IPv4>): Option<seq<IPv4>>
  {
    match ServersBuffer(collected)
    case Some(a) => SentinelRun(a)
    case None => None
  }

  /** The loop stops at the first 0 after entries that are not 0. */
  lemma {:induction false} SentinelRunStops(xs: seq<IPv4>, rest: seq<IPv4>)
    requires 0 !in xs && rest != [] && rest[0] == 0
    ensures SentinelRun(xs + rest) == Some(xs)
  {
    if xs == [] {
      assert xs + rest == rest;
    } else {
      assert (xs + rest)[1..] == xs[1..] + rest;
      SentinelRunStops(xs[1..], rest);
      assert [xs[0]] + xs[1..] == xs;
    }
  }

  /** Without a 0 entry the loop runs off the end. */
  lemma {:induction false} SentinelRunOverruns(a: seq<IPv4>)
    requires 0 !in a
    ensures SentinelRun(a) == None
  {
    if a != [] {
      assert forall x :: x in a[1..] ==> x in a;
      SentinelRunOverruns(a[1..]);
    }
  }

  /** The handler as written agrees with the list the model iterates over
      while fewer than MAX_UDP_BCAST_SERVER_PER_INTERFACE addresses are
      collected; with that many the loop reads past `servers`, and with
      more the collection already wrote past it. The collected addresses
      are never 0: the stores skip 0.0.0.0. */
  lemma SentinelLoopBound(collected: seq<IPv4>)
    requires 0 !in collected
    ensures |collected| < MAX_UDP_BCAST_SERVER_PER_INTERFACE ==> SentinelLoop(collected) == Some(collected)
    ensures |collected| >= MAX_UDP_BCAST_SERVER_PER_INTERFACE ==> SentinelLoop(collected) == None
  {
    var n := |collected|;
    if n < MAX_UDP_BCAST_SERVER_PER_INTERFACE {
      var pad := seq(MAX_UDP_BCAST_SERVER_PER_INTERFACE - n, _ => 0);
      SentinelRunStops(collected, pad);
    } else if n == MAX_UDP_BCAST_SERVER_PER_INTERFACE {
      assert collected + seq(0, _ => 0) == collected;
      SentinelRunOverruns(collected);
    }
  }

  /** A full interface: eight helper addresses 0.0.0.1 to 0.0.0.8 on the
      DHCP server port and eight forwarded addresses 0.0.0.9 to 0.0.0.16 on
      the DNS port. */
  const fullNode := IntfNode(MAX_UDP_BCAST_SERVER_PER_INTERFACE,
    Some(seq(MAX_UDP_BCAST_SERVER_PER_INTERFACE, i requires 0 <= i < MAX_UDP_BCAST_SERVER_PER_INTERFACE =>
      Some(ServerKey(i + 1, if i < MAX_HELPER then DHCPS_PORT else 53)))))

  /** The overrun of udpfwd_handle_dhcp_relay_config_change: a row that
      lists none of the addresses of a full interface makes all sixteen
      slots stale, so the removal loop finds no 0 entry in `servers` and
      reads past its end, where the list-based handler removes the eight
      helper addresses. */
  lemma EmptiedRowOverruns(aton: string -> Option<IPv4>)
    ensures var stale := Stale(Slots(fullNode), RowAddresses(aton, []));
      |stale| == MAX_UDP_BCAST_SERVER_PER_INTERFACE && SentinelLoop(stale) == None
  {
    var s := Slots(fullNode);
    assert |s| == MAX_UDP_BCAST_SERVER_PER_INTERFACE;
    assert RowAddresses(aton, []) == [];
    var ips, stale := SlotIps(s), Stale(s, []);
    assert 0 !in ips by {
      forall i | 0 <= i < |s|
        ensures ips[i] != 0
      {
        assert s[i] == fullNode.serverArray.value[i];
      }
    }
    // With a row that lists nothing, every slot address is stale.
    assert multiset(stale) == multiset(ips);
    assert |stale| == |multiset(ips)| == |s|;
    assert 0 !in stale by {
      assert multiset(stale)[0] == multiset(ips)[0] == 0;
    }
    SentinelLoopBound(stale);
  }
}
