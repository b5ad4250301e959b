/*
 * The DHCPv6 relay's server tables and configuration handlers
 * (relay/dhcpv6r/src/dhcpv6_relay_config.c). The tables are the same
 * reference-counted structure as the IPv4 relay's, keyed by the server's
 * IPv6 address text and its egress interface name; unicast servers have no
 * egress name. Servers are compared with compare_server, which takes a
 * string prefix for a match.
 */
module Dhcpv6RelayConfig {
  import opened Common
  import opened ServerTables

  const MAX_SERVERS_PER_INTERFACE := 8

  /** DHCPV6_RELAY_SERVER_T without its reference count: the address text
      and the egress interface (None when NULL). */
  datatype V6Key = V6Key(address: string, egress: Option<string>)

  /** A row of the DHCP_Relay table as the IPv6 handlers read it. */
  datatype Dhcpv6RelayRow = Dhcpv6RelayRow(port: Option<string>, vrf: Option<string>, ipv6UcastServer: seq<string>)

  /** A unicast server: no egress interface. */
  function Ucast(address: string): V6Key
  {
    V6Key(address, None)
  }

  /** compare_server: `ip1` is a prefix of `ip2`, and the egress names are
      both NULL or are both present with `ifName1` a prefix of `ifName2`. */
  predicate CompareServer(ip1: string, ip2: string, ifName1: Option<string>, ifName2: Option<string>)
  {
    IsPrefix(ip1, ip2) &&
    match (ifName1, ifName2)
    case (None, None) => true
    case (Some(n1), Some(n2)) => IsPrefix(n1, n2)
    case _ => false
  }

  /** compare_server accepts every server for itself, and rejects a pair
      of which exactly one has an egress interface. */
  lemma CompareServerFacts(k: V6Key, ip2: string, egress: string)
    ensures CompareServer(k.address, k.address, k.egress, k.egress)
    ensures !CompareServer(k.address, ip2, None, Some(egress)) && !CompareServer(k.address, ip2, Some(egress), None)
  {
    assert k.address[..|k.address|] == k.address;
    if k.egress.Some? {
      assert k.egress.value[..|k.egress.value|] == k.egress.value;
    }
  }

  /** The search of dhcpv6r_remove_server_ref_entry for the server `q`: the
      first slot whose server compare_server relates to `q`. */
  function Hits(q: V6Key): V6Key -> bool
  {
    (k: V6Key) => CompareServer(k.address, q.address, k.egress, q.egress)
  }

  /** The test the unicast handlers apply to a slot's address and a row
      entry, as written: compare_server with both egress names NULL. */
  function PrefixOf(): (string, string) -> bool
  {
    (x: string, y: string) => CompareServer(x, y, None, None)
  }

  /** The same test comparing the whole address. */
  function SameText(): (string, string) -> bool
  {
    (x: string, y: string) => x == y
  }

  /** Some slot in use holds an address that `same` relates to `a`. */
  predicate Held(s: seq<Option<V6Key>>, a: string, same: (string, string) -> bool)
  {
    exists j :: 0 <= j < |s| && s[j].Some? && same(s[j].value.address, a)
  }

  // ---------------------------------------------------------------------
  // The unicast handlers on values.

  /** dhcpv6r_get_ucast_entries_added: each row entry, in row order, that
      no slot holds (under `same`) at the time it is reached is stored as a
      unicast server; a store on a full interface is skipped. */
  function AddedFold(capacity: nat, servers: map<V6Key, nat>, t: map<string, IntfNode<V6Key>>, name: string,
                     texts: seq<string>, same: (string, string) -> bool)
    : (r: (map<V6Key, nat>, map<string, IntfNode<V6Key>>))
    requires name in t && Shaped(t[name], capacity)
    ensures r.1.Keys == t.Keys && Shaped(r.1[name], capacity)
    ensures forall n :: n in t && n != name ==> r.1[n] == t[n]
  {
    if texts == [] then (servers, t)
    else
      var prev := AddedFold(capacity, servers, t, name, texts[..|texts| - 1], same);
      AddOne(capacity, prev.0, prev.1, name, texts[|texts| - 1], same)
  }

  /** One step of dhcpv6r_get_ucast_entries_added: the row entry `a` is
      stored unless a slot holds it. */
  function AddOne(capacity: nat, servers: map<V6Key, nat>, t: map<string, IntfNode<V6Key>>, name: string,
                  a: string, same: (string, string) -> bool)
    : (r: (map<V6Key, nat>, map<string, IntfNode<V6Key>>))
    requires name in t && Shaped(t[name], capacity)
    ensures r.1.Keys == t.Keys && Shaped(r.1[name], capacity)
    ensures forall n :: n in t && n != name ==> r.1[n] == t[n]
  {
    if Held(Slots(t[name]), a, same) then (servers, t)
    else
      var r := Store(capacity, servers, t, name, Ucast(a));
      (r.1, r.2)
  }

  /** A removal by the exact key of a slot in use takes that slot or an
      earlier one, so the interface loses one server. */
  lemma RemoveShrinks(capacity: nat, servers: map<V6Key, nat>, t: map<string, IntfNode<V6Key>>, name: string, i: nat)
    requires name in t && Shaped(t[name], capacity) && i < |Slots(t[name])| && Slots(t[name])[i].Some?
    ensures var r := Remove(capacity, servers, t, name, Matches(Slots(t[name])[i].value));
      r.0 && (name in r.2 ==> r.2[name].addrCount == t[name].addrCount - 1)
  {
    var s := Slots(t[name]);
    assert FirstMatch(s, Matches(s[i].value)) <= i;
  }

  /** dhcpv6r_flush_removed_ucast_entries corrected: from slot `iter` on,
      a slot whose address the row does not list is removed (by its own
      key) and the slot that moves into its place is examined next; a slot
      the row lists is kept. */
  function FlushFrom(capacity: nat, servers: map<V6Key, nat>, t: map<string, IntfNode<V6Key>>, name: string,
                     texts: seq<string>, iter: nat)
    : (r: (map<V6Key, nat>, map<string, IntfNode<V6Key>>))
    requires name in t ==> Shaped(t[name], capacity)
    ensures r.1.Keys <= t.Keys && (name in r.1 ==> Shaped(r.1[name], capacity))
    ensures forall n :: n in t && n != name ==> n in r.1 && r.1[n] == t[n]
    decreases if name in t && iter <= t[name].addrCount then t[name].addrCount - iter + 1 else 0
  {
    if name !in t || iter >= t[name].addrCount then (servers, t)
    else
      var s := Slots(t[name]);
      if s[iter].None? then FlushFrom(capacity, servers, t, name, texts, iter + 1)
      else if s[iter].value.address in texts then FlushFrom(capacity, servers, t, name, texts, iter + 1)
      else
        RemoveShrinks(capacity, servers, t, name, iter);
        var r := Remove(capacity, servers, t, name, Matches(s[iter].value));
        FlushFrom(capacity, r.1, r.2, name, texts, iter)
  }

  /** dhcpv6r_flush_removed_ucast_entries as written: slot `iter` is
      compared with row entry `iter` (not with each entry in turn), and
      `iter` advances after a removal, past the slot that moved into the
      hole. None when it reads past the row's list, an empty slot or a
      freed node. */
  function FlushAsWritten(capacity: nat, servers: map<V6Key, nat>, t: map<string, IntfNode<V6Key>>, name: string,
                          texts: seq<string>, iter: nat)
    : Option<(map<V6Key, nat>, map<string, IntfNode<V6Key>>)>
    requires name in t ==> Shaped(t[name], capacity)
    decreases capacity - iter
  {
    if name !in t then None
    else if iter >= t[name].addrCount then Some((servers, t))
    else
      var s := Slots(t[name]);
      if s[iter].None? || (|texts| > 0 && iter >= |texts|) then None
      else
        var address := s[iter].value.address;
        if |texts| > 0 && CompareServer(address, texts[iter], None, None) then
          FlushAsWritten(capacity, servers, t, name, texts, iter + 1)
        else
          var r := Remove(capacity, servers, t, name, Hits(Ucast(address)));
          FlushAsWritten(capacity, r.1, r.2, name, texts, iter + 1)
  }

  /** A row the handler acts on: a row with a port and a VRF. */
  predicate Applies(rec: Option<Dhcpv6RelayRow>)
  {
    rec.Some? && rec.value.port.Some? && rec.value.vrf.Some?
  }

  /** dhcpv6r_handle_config_change, corrected: the node of the port is
      found or created; when the unicast column changed, the row's new
      servers are stored and then the servers it no longer lists are
      flushed, both comparing whole addresses. */
  function ConfigChange(capacity: nat, servers: map<V6Key, nat>, t: map<string, IntfNode<V6Key>>,
                        rec: Option<Dhcpv6RelayRow>, ucastModified: bool)
    : (r: (map<V6Key, nat>, map<string, IntfNode<V6Key>>))
    requires forall n :: n in t ==> Shaped(t[n], capacity)
    ensures !Applies(rec) ==> r == (servers, t)
    ensures Applies(rec) && !ucastModified ==> r == (servers, WithNode(t, rec.value.port.value))
    ensures forall n :: n in t && !(Applies(rec) && n == rec.value.port.value) ==> n in r.1 && r.1[n] == t[n]
    ensures forall n :: n in r.1 ==> Shaped(r.1[n], capacity)
  {
    if !Applies(rec) then (servers, t)
    else
      var name := rec.value.port.value;
      var t1 := WithNode(t, name);
      if !ucastModified then (servers, t1)
      else
        var added := AddedFold(capacity, servers, t1, name, rec.value.ipv6UcastServer, SameText());
        FlushFrom(capacity, added.0, added.1, name, rec.value.ipv6UcastServer, 0)
  }

  /** dhcpv6r_handle_config_change as written: both steps compare with
      compare_server, and the flush is the one of FlushAsWritten. */
  function ConfigChangeAsWritten(capacity: nat, servers: map<V6Key, nat>, t: map<string, IntfNode<V6Key>>,
                                 rec: Option<Dhcpv6RelayRow>, ucastModified: bool)
    : Option<(map<V6Key, nat>, map<string, IntfNode<V6Key>>)>
    requires forall n :: n in t ==> Shaped(t[n], capacity)
  {
    if !Applies(rec) then Some((servers, t))
    else
      var name := rec.value.port.value;
      var t1 := WithNode(t, name);
      if !ucastModified then Some((servers, t1))
      else
        var added := AddedFold(capacity, servers, t1, name, rec.value.ipv6UcastServer, PrefixOf());
        FlushAsWritten(capacity, added.0, added.1, name, rec.value.ipv6UcastServer, 0)
  }

  // ---------------------------------------------------------------------
  // What the corrected handlers promise.

  lemma {:induction false} AddedFoldConsistent(capacity: nat, servers: map<V6Key, nat>, t: map<string, IntfNode<V6Key>>,
                                               name: string, texts: seq<string>, same: (string, string) -> bool)
    requires Consistent(capacity, servers, t) && name in t
    ensures var r := AddedFold(capacity, servers, t, name, texts, same);
      Consistent(capacity, r.0, r.1)
  {
    if texts != [] {
      AddedFoldConsistent(capacity, servers, t, name, texts[..|texts| - 1], same);
      var prev := AddedFold(capacity, servers, t, name, texts[..|texts| - 1], same);
      StoreConsistent(capacity, prev.0, prev.1, name, Ucast(texts[|texts| - 1]));
    }
  }

  /** The stores keep the interface's node well formed. */
  lemma {:induction false} AddedFoldOk(capacity: nat, servers: map<V6Key, nat>, t: map<string, IntfNode<V6Key>>,
                                       name: string, texts: seq<string>, same: (string, string) -> bool)
    requires name in t && NodeOk(t[name], capacity)
    ensures NodeOk(AddedFold(capacity, servers, t, name, texts, same).1[name], capacity)
  {
    if texts != [] {
      AddedFoldOk(capacity, servers, t, name, texts[..|texts| - 1], same);
      var prev := AddedFold(capacity, servers, t, name, texts[..|texts| - 1], same);
      var node := prev.1[name];
      if !Held(Slots(node), texts[|texts| - 1], same) && node.addrCount < capacity {
        AppendSlotCount(node, Ucast(texts[|texts| - 1]), capacity, Ucast(texts[|texts| - 1]));
      }
    }
  }

  lemma {:induction false} FlushFromConsistent(capacity: nat, servers: map<V6Key, nat>, t: map<string, IntfNode<V6Key>>,
                                               name: string, texts: seq<string>, iter: nat)
    requires Consistent(capacity, servers, t)
    ensures var r := FlushFrom(capacity, servers, t, name, texts, iter);
      Consistent(capacity, r.0, r.1)
    decreases if name in t && iter <= t[name].addrCount then t[name].addrCount - iter + 1 else 0
  {
    if name in t && iter < t[name].addrCount {
      var s := Slots(t[name]);
      if s[iter].None? || s[iter].value.address in texts {
        FlushFromConsistent(capacity, servers, t, name, texts, iter + 1);
      } else {
        RemoveShrinks(capacity, servers, t, name, iter);
        RemoveConsistent(capacity, servers, t, name, Matches(s[iter].value));
        var r := Remove(capacity, servers, t, name, Matches(s[iter].value));
        FlushFromConsistent(capacity, r.1, r.2, name, texts, iter);
      }
    }
  }

  /** A slot sequence that only grows keeps every address it held. */
  lemma HeldGrows(s: seq<Option<V6Key>>, s': seq<Option<V6Key>>, a: string, same: (string, string) -> bool)
    requires s <= s' && Held(s, a, same)
    ensures Held(s', a, same)
  {
    var j :| 0 <= j < |s| && s[j].Some? && same(s[j].value.address, a);
    assert s'[j] == s[j];
  }

  /** One store step keeps the slots in place and leaves the entry held,
      unless the interface is full, in which case nothing changes. */
  lemma AddOneHolds(capacity: nat, servers: map<V6Key, nat>, t: map<string, IntfNode<V6Key>>, name: string, a: string)
    requires name in t && Shaped(t[name], capacity)
    ensures var r := AddOne(capacity, servers, t, name, a, SameText());
      Slots(t[name]) <= Slots(r.1[name]) &&
      (Held(Slots(r.1[name]), a, SameText()) || r.1[name].addrCount == capacity) &&
      (t[name].addrCount == capacity ==> r == (servers, t))
  {
    if !Held(Slots(t[name]), a, SameText()) {
      StoreSlots(capacity, servers, t, name, Ucast(a));
      var r := AddOne(capacity, servers, t, name, a, SameText());
      if t[name].addrCount < capacity {
        assert Slots(r.1[name])[|Slots(t[name])|] == Some(Ucast(a));
      }
    }
  }

  /** After the stores every row entry is held by a slot with that very
      address, unless the interface filled up; the slots held before are
      kept in place. */
  lemma {:induction false} AddedFoldHolds(capacity: nat, servers: map<V6Key, nat>, t: map<string, IntfNode<V6Key>>,
                                          name: string, texts: seq<string>)
    requires name in t && Shaped(t[name], capacity)
    ensures var after := AddedFold(capacity, servers, t, name, texts, SameText()).1[name];
      Slots(t[name]) <= Slots(after) &&
      forall a :: a in texts ==> Held(Slots(after), a, SameText()) || after.addrCount == capacity
  {
    if texts != [] {
      var init := texts[..|texts| - 1];
      var a := texts[|texts| - 1];
      AddedFoldHolds(capacity, servers, t, name, init);
      var prev := AddedFold(capacity, servers, t, name, init, SameText());
      AddOneHolds(capacity, prev.0, prev.1, name, a);
      var r := AddOne(capacity, prev.0, prev.1, name, a, SameText());
      assert AddedFold(capacity, servers, t, name, texts, SameText()) == r;
      var before, after := prev.1[name], r.1[name];
      assert Slots(t[name]) <= Slots(before) <= Slots(after);
      forall b | b in texts
        ensures Held(Slots(after), b, SameText()) || after.addrCount == capacity
      {
        if b != a {
          assert b in init by {
            var i :| 0 <= i < |texts| && texts[i] == b;
            assert init[i] == b;
          }
          if Held(Slots(before), b, SameText()) {
            HeldGrows(Slots(before), Slots(after), b, SameText());
          } else {
            assert before.addrCount == capacity;
          }
        }
      }
    }
  }

  /** The corrected flush leaves only slots whose address the row lists. */
  lemma {:induction false} FlushOnlyRow(capacity: nat, servers: map<V6Key, nat>, t: map<string, IntfNode<V6Key>>,
                                        name: string, texts: seq<string>, iter: nat)
    requires name in t ==> NodeOk(t[name], capacity)
    requires name in t ==> (iter <= t[name].addrCount &&
      forall j :: 0 <= j < iter ==> Slots(t[name])[j].Some? && Slots(t[name])[j].value.address in texts)
    ensures var r := FlushFrom(capacity, servers, t, name, texts, iter);
      name in r.1 ==> forall j :: 0 <= j < |Slots(r.1[name])| ==> Slots(r.1[name])[j].Some? && Slots(r.1[name])[j].value.address in texts
    decreases if name in t && iter <= t[name].addrCount then t[name].addrCount - iter + 1 else 0
  {
    if name in t {
      var s := Slots(t[name]);
      if iter < t[name].addrCount {
        assert s[iter].Some?;
        if s[iter].value.address in texts {
          FlushKeepStep(capacity, servers, t, name, texts, iter);
          assert forall j :: 0 <= j < iter + 1 ==> s[j].Some? && s[j].value.address in texts;
          FlushOnlyRow(capacity, servers, t, name, texts, iter + 1);
        } else {
          RemoveKeepsListedPrefix(capacity, servers, t, name, texts, iter);
          FlushDropStep(capacity, servers, t, name, texts, iter);
          var r := Remove(capacity, servers, t, name, Matches(s[iter].value));
          FlushOnlyRow(capacity, r.1, r.2, name, texts, iter);
        }
      }
    }
  }

  /** A slot the row lists is kept and the flush goes on from the next one. */
  lemma FlushKeepStep(capacity: nat, servers: map<V6Key, nat>, t: map<string, IntfNode<V6Key>>,
                      name: string, texts: seq<string>, iter: nat)
    requires name in t && Shaped(t[name], capacity) && iter < t[name].addrCount
    requires Slots(t[name])[iter].None? || Slots(t[name])[iter].value.address in texts
    ensures FlushFrom(capacity, servers, t, name, texts, iter) == FlushFrom(capacity, servers, t, name, texts, iter + 1)
  {
  }

  /** A slot the row does not list is removed and the flush goes on from the
      same slot, which now holds the server moved into it. */
  lemma FlushDropStep(capacity: nat, servers: map<V6Key, nat>, t: map<string, IntfNode<V6Key>>,
                      name: string, texts: seq<string>, iter: nat)
    requires name in t && Shaped(t[name], capacity) && iter < t[name].addrCount
    requires Slots(t[name])[iter].Some? && Slots(t[name])[iter].value.address !in texts
    ensures var r := Remove(capacity, servers, t, name, Matches(Slots(t[name])[iter].value));
      FlushFrom(capacity, servers, t, name, texts, iter) == FlushFrom(capacity, r.1, r.2, name, texts, iter)
  {
  }

  /** Removing an unlisted slot at `iter` keeps the listed slots before it. */
  lemma RemoveKeepsListedPrefix(capacity: nat, servers: map<V6Key, nat>, t: map<string, IntfNode<V6Key>>,
                                name: string, texts: seq<string>, iter: nat)
    requires name in t && NodeOk(t[name], capacity) && iter < t[name].addrCount
    requires forall j :: 0 <= j < iter ==> Slots(t[name])[j].Some? && Slots(t[name])[j].value.address in texts
    requires Slots(t[name])[iter].value.address !in texts
    ensures var r := Remove(capacity, servers, t, name, Matches(Slots(t[name])[iter].value));
      name in r.2 ==>
        (NodeOk(r.2[name], capacity) && iter <= r.2[name].addrCount &&
         forall j :: 0 <= j < iter ==> Slots(r.2[name])[j].Some? && Slots(r.2[name])[j].value.address in texts)
  {
    var s := Slots(t[name]);
    var key := s[iter].value;
    assert FirstMatch(s, Matches(key)) == iter by {
      assert FirstMatch(s, Matches(key)) <= iter;
      assert forall j :: 0 <= j < iter ==> s[j] != Some(key);
    }
    RemoveSlots(capacity, servers, t, name, Matches(key));
  }

  /** The corrected flush keeps every reference to a server whose address
      the row lists. */
  lemma {:induction false} FlushKeepsRow(capacity: nat, servers: map<V6Key, nat>, t: map<string, IntfNode<V6Key>>,
                                         name: string, texts: seq<string>, iter: nat, k: V6Key)
    requires name in t ==> Shaped(t[name], capacity)
    requires k.address in texts
    ensures CountIn(FlushFrom(capacity, servers, t, name, texts, iter).1, name, k) == CountIn(t, name, k)
    decreases if name in t && iter <= t[name].addrCount then t[name].addrCount - iter + 1 else 0
  {
    if name in t && iter < t[name].addrCount {
      var s := Slots(t[name]);
      if s[iter].None? || s[iter].value.address in texts {
        FlushKeepStep(capacity, servers, t, name, texts, iter);
        FlushKeepsRow(capacity, servers, t, name, texts, iter + 1, k);
      } else {
        var servers', t' := FlushRemoveStep(capacity, servers, t, name, texts, iter, k);
        FlushKeepsRow(capacity, servers', t', name, texts, iter, k);
      }
    }
  }

  /** A removal step of the corrected flush: the flush goes on from the same
      slot, one slot fewer, and a server the row lists keeps its references. */
  lemma FlushRemoveStep(capacity: nat, servers: map<V6Key, nat>, t: map<string, IntfNode<V6Key>>,
                        name: string, texts: seq<string>, iter: nat, k: V6Key)
    returns (servers': map<V6Key, nat>, t': map<string, IntfNode<V6Key>>)
    requires name in t && Shaped(t[name], capacity) && iter < t[name].addrCount
    requires Slots(t[name])[iter].Some? && Slots(t[name])[iter].value.address !in texts
    requires k.address in texts
    ensures (true, servers', t') == Remove(capacity, servers, t, name, Matches(Slots(t[name])[iter].value))
    ensures FlushFrom(capacity, servers, t, name, texts, iter) == FlushFrom(capacity, servers', t', name, texts, iter)
    ensures CountIn(t', name, k) == CountIn(t, name, k)
    ensures name in t' ==> Shaped(t'[name], capacity) && t'[name].addrCount == t[name].addrCount - 1
  {
    var r := Remove(capacity, servers, t, name, Matches(Slots(t[name])[iter].value));
    servers', t' := r.1, r.2;
    var s := Slots(t[name]);
    var key := s[iter].value;
    RemoveShrinks(capacity, servers, t, name, iter);
    RemoveCount(capacity, servers, t, name, Matches(key), k);
    var i := FirstMatch(s, Matches(key));
    assert !(i < |s| && s[i] == Some(k));
  }

  lemma ConfigChangeConsistent(capacity: nat, servers: map<V6Key, nat>, t: map<string, IntfNode<V6Key>>,
                               rec: Option<Dhcpv6RelayRow>, ucastModified: bool)
    requires Consistent(capacity, servers, t)
    ensures var r := ConfigChange(capacity, servers, t, rec, ucastModified);
      Consistent(capacity, r.0, r.1)
  {
    if Applies(rec) {
      var name := rec.value.port.value;
      var texts := rec.value.ipv6UcastServer;
      if name !in t {
        AddEmptyConsistent(capacity, servers, t, name);
      }
      var t1 := WithNode(t, name);
      if ucastModified {
        AddedFoldConsistent(capacity, servers, t1, name, texts, SameText());
        var added := AddedFold(capacity, servers, t1, name, texts, SameText());
        FlushFromConsistent(capacity, added.0, added.1, name, texts, 0);
      }
    }
  }

  /** After a change of the unicast column every server the row lists is
      held by the interface, unless the stores found the interface full. */
  lemma ConfigChangeHoldsRow(capacity: nat, servers: map<V6Key, nat>, t: map<string, IntfNode<V6Key>>,
                             rec: Option<Dhcpv6RelayRow>)
    requires Consistent(capacity, servers, t) && Applies(rec)
    ensures var name := rec.value.port.value;
      var texts := rec.value.ipv6UcastServer;
      var r := ConfigChange(capacity, servers, t, rec, true);
      var added := AddedFold(capacity, servers, WithNode(t, name), name, texts, SameText());
      forall a :: a in texts ==> (name in r.1 && Held(Slots(r.1[name]), a, SameText())) || added.1[name].addrCount == capacity
  {
    var name := rec.value.port.value;
    var texts := rec.value.ipv6UcastServer;
    if name !in t {
      AddEmptyConsistent(capacity, servers, t, name);
    }
    var t1 := WithNode(t, name);
    AddedFoldConsistent(capacity, servers, t1, name, texts, SameText());
    AddedFoldHolds(capacity, servers, t1, name, texts);
    var added := AddedFold(capacity, servers, t1, name, texts, SameText());
    var r := FlushFrom(capacity, added.0, added.1, name, texts, 0);
    forall a | a in texts && Held(Slots(added.1[name]), a, SameText())
      ensures name in r.1 && Held(Slots(r.1[name]), a, SameText())
    {
      var s := Slots(added.1[name]);
      var j :| 0 <= j < |s| && s[j].Some? && SameText()(s[j].value.address, a);
      var k := s[j].value;
      assert s[j] in multiset(s);
      FlushKeepsRow(capacity, added.0, added.1, name, texts, 0, k);
      assert name in r.1;
      var s' := Slots(r.1[name]);
      assert Some(k) in multiset(s');
      var j' :| 0 <= j' < |s'| && s'[j'] == Some(k);
    }
  }

  /** After a change of the unicast column the interface holds only
      servers the row lists. */
  lemma ConfigChangeDropsStale(capacity: nat, servers: map<V6Key, nat>, t: map<string, IntfNode<V6Key>>,
                               rec: Option<Dhcpv6RelayRow>)
    requires (forall n :: n in t ==> Shaped(t[n], capacity) && NodeOk(t[n], capacity)) && Applies(rec)
    ensures var name := rec.value.port.value;
      var r := ConfigChange(capacity, servers, t, rec, true);
      name in r.1 ==> forall j :: 0 <= j < |Slots(r.1[name])| ==>
        Slots(r.1[name])[j].Some? && Slots(r.1[name])[j].value.address in rec.value.ipv6UcastServer
  {
    var name := rec.value.port.value;
    var texts := rec.value.ipv6UcastServer;
    var t1 := WithNode(t, name);
    assert NodeOk(t1[name], capacity);
    AddedFoldOk(capacity, servers, t1, name, texts, SameText());
    var added := AddedFold(capacity, servers, t1, name, texts, SameText());
    assert ConfigChange(capacity, servers, t, rec, true) == FlushFrom(capacity, added.0, added.1, name, texts, 0);
    FlushOnlyRow(capacity, added.0, added.1, name, texts, 0);
  }

  // ---------------------------------------------------------------------
  // The handlers as the daemon runs them (corrected).

  /** dhcpv6r_create_intferface_node: a calloc'ed node without servers is
      added under the port name. */
  method CreateInterfaceNode(tables: Tables<V6Key>, pname: string)
    requires tables.Valid() && pname !in tables.intfHashTable
    modifies tables
    ensures tables.Valid()
    ensures tables.intfHashTable == old(tables.intfHashTable)[pname := IntfNode(0, None)]
    ensures tables.serverHashMap == old(tables.serverHashMap)
  {
    AddEmptyConsistent(tables.capacity, tables.serverHashMap, tables.intfHashTable, pname);
    tables.intfHashTable := tables.intfHashTable[pname := IntfNode(0, None)];
  }

  /** The inner loop of dhcpv6r_get_ucast_entries_added, comparing whole
      addresses: whether a slot in use holds `address`. */
  method HoldsAddress(intfNode: IntfNode<V6Key>, address: string) returns (found: bool)
    requires NodeOk(intfNode, MAX_SERVERS_PER_INTERFACE)
    ensures found <==> Held(Slots(intfNode), address, SameText())
  {
    ghost var s := Slots(intfNode);
    found := false;
    var iter1 := 0;
    while iter1 < intfNode.addrCount
      invariant iter1 <= intfNode.addrCount
      invariant forall j :: 0 <= j < iter1 ==> s[j].value.address != address
    {
      if intfNode.serverArray.value[iter1].value.address == address {
        found := true;
        assert s[iter1].Some? && SameText()(s[iter1].value.address, address);
        return;
      }
      iter1 := iter1 + 1;
    }
  }

  /** dhcpv6r_get_ucast_entries_added: each row entry that the interface
      does not hold is stored as a unicast server. */
  method GetUcastEntriesAdded(tables: Tables<V6Key>, name: string, texts: seq<string>)
    requires tables.Valid() && name in tables.intfHashTable && tables.capacity == MAX_SERVERS_PER_INTERFACE
    modifies tables
    ensures tables.Valid()
    ensures (tables.serverHashMap, tables.intfHashTable)
      == AddedFold(tables.capacity, old(tables.serverHashMap), old(tables.intfHashTable), name, texts, SameText())
  {
    ghost var s0, t0 := tables.serverHashMap, tables.intfHashTable;
    var iter := 0;
    while iter < |texts|
      invariant iter <= |texts| && tables.Valid() && name in tables.intfHashTable
      invariant (tables.serverHashMap, tables.intfHashTable) == AddedFold(tables.capacity, s0, t0, name, texts[..iter], SameText())
    {
      assert texts[..iter + 1][..iter] == texts[..iter];
      assert AddedFold(tables.capacity, s0, t0, name, texts[..iter + 1], SameText())
          == AddOne(tables.capacity, tables.serverHashMap, tables.intfHashTable, name, texts[iter], SameText());
      var intfNode := tables.intfHashTable[name];
      var found := HoldsAddress(intfNode, texts[iter]);
      if !found {
        var stored := tables.StoreAddress(name, Ucast(texts[iter]));
      }
      iter := iter + 1;
    }
    assert texts[..iter] == texts;
  }

  /** The inner loop of dhcpv6r_flush_removed_ucast_entries, corrected to
      compare with each row entry in turn. */
  method InRow(address: string, texts: seq<string>) returns (found: bool)
    ensures found <==> address in texts
  {
    found := false;
    var iter1 := 0;
    while iter1 < |texts|
      invariant iter1 <= |texts|
      invariant forall j :: 0 <= j < iter1 ==> texts[j] != address
    {
      if texts[iter1] == address {
        found := true;
        return;
      }
      iter1 := iter1 + 1;
    }
  }

  /** dhcpv6r_flush_removed_ucast_entries, corrected: a slot whose address
      the row does not list is removed and its index examined again. */
  method FlushRemovedUcastEntries(tables: Tables<V6Key>, name: string, texts: seq<string>)
    requires tables.Valid() && name in tables.intfHashTable
    modifies tables
    ensures tables.Valid()
    ensures (tables.serverHashMap, tables.intfHashTable)
      == FlushFrom(tables.capacity, old(tables.serverHashMap), old(tables.intfHashTable), name, texts, 0)
  {
    ghost var s0, t0 := tables.serverHashMap, tables.intfHashTable;
    var iter := 0;
    while name in tables.intfHashTable && iter < tables.intfHashTable[name].addrCount
      invariant tables.Valid()
      invariant name in tables.intfHashTable ==> iter <= tables.intfHashTable[name].addrCount
      invariant FlushFrom(tables.capacity, tables.serverHashMap, tables.intfHashTable, name, texts, iter)
        == FlushFrom(tables.capacity, s0, t0, name, texts, 0)
      decreases if name in tables.intfHashTable && iter <= tables.intfHashTable[name].addrCount
        then tables.intfHashTable[name].addrCount - iter + 1 else 0
    {
      var intfNode := tables.intfHashTable[name];
      assert NodeOk(intfNode, tables.capacity);
      ghost var s := Slots(intfNode);
      assert s[iter] == intfNode.serverArray.value[iter];
      var key := intfNode.serverArray.value[iter].value;
      var found := InRow(key.address, texts);
      if found {
        iter := iter + 1;
      } else {
        RemoveShrinks(tables.capacity, tables.serverHashMap, tables.intfHashTable, name, iter);
        var removed := tables.RemoveAddress(name, Matches(key));
      }
    }
  }

  /** dhcpv6r_handle_config_change with the corrected unicast handlers;
      whether the unicast column changed is a parameter. */
  method HandleConfigChange(tables: Tables<V6Key>, rec: Option<Dhcpv6RelayRow>, ucastModified: bool)
    requires tables.Valid() && tables.capacity == MAX_SERVERS_PER_INTERFACE
    modifies tables
    ensures tables.Valid()
    ensures (tables.serverHashMap, tables.intfHashTable)
      == ConfigChange(tables.capacity, old(tables.serverHashMap), old(tables.intfHashTable), rec, ucastModified)
  {
    if rec.None? || rec.value.port.None? || rec.value.vrf.None? {
      return;
    }
    var portName := rec.value.port.value;
    if portName !in tables.intfHashTable {
      CreateInterfaceNode(tables, portName);
    }
    if ucastModified {
      GetUcastEntriesAdded(tables, portName, rec.value.ipv6UcastServer);
      FlushRemovedUcastEntries(tables, portName, rec.value.ipv6UcastServer);
    }
  }

  // ---------------------------------------------------------------------
  // Deleted rows.

  /** The test of dhcpv6r_handle_row_delete: some row's port name is a
      prefix of the interface name. */
  predicate Listed(rows: seq<Dhcpv6RelayRow>, name: string)
  {
    exists i :: 0 <= i < |rows| && rows[i].port.Some? && IsPrefix(rows[i].port.value, name)
  }

  method FindRow(rows: seq<Dhcpv6RelayRow>, name: string) returns (found: bool)
    ensures found <==> Listed(rows, name)
  {
    found := false;
    var iter := 0;
    while iter < |rows|
      invariant iter <= |rows|
      invariant forall i :: 0 <= i < iter ==> !(rows[i].port.Some? && IsPrefix(rows[i].port.value, name))
    {
      var rec := rows[iter];
      if rec.port.Some? && IsPrefix(rec.port.value, name) {
        found := true;
        return;
      }
      iter := iter + 1;
    }
  }

  /** An interface survives a row deletion when some row still names it or
      it holds no server. */
  predicate Kept(t: map<string, IntfNode<V6Key>>, rows: seq<Dhcpv6RelayRow>, name: string)
  {
    name in t && (Listed(rows, name) || t[name].addrCount == 0)
  }

  /** dhcpv6r_handle_row_delete, with the corrected inner loop. */
  method HandleRowDelete(tables: Tables<V6Key>, rows: seq<Dhcpv6RelayRow>)
    requires tables.Valid()
    modifies tables
    ensures tables.Valid()
    ensures forall n :: n in tables.intfHashTable <==> Kept(old(tables.intfHashTable), rows, n)
    ensures forall n :: n in tables.intfHashTable ==> n in old(tables.intfHashTable) && tables.intfHashTable[n] == old(tables.intfHashTable)[n]
  {
    ghost var t0 := tables.intfHashTable;
    var names := tables.intfHashTable.Keys;
    while names != {}
      invariant names <= t0.Keys && tables.Valid()
      invariant forall n :: n in tables.intfHashTable <==> n in names || Kept(t0, rows, n)
      invariant forall n :: n in tables.intfHashTable ==> n in t0 && tables.intfHashTable[n] == t0[n]
      decreases |names|
    {
      var name :| name in names;
      var found := FindRow(rows, name);
      if !found {
        RemoveInterfaceServers(tables, name);
      }
      names := names - {name};
    }
  }

  /** The comparison dhcpv6r_remove_address applies when the row-delete
      loop removes the server of a slot. */
  function SameServer(): (V6Key, V6Key) -> bool
  {
    (k: V6Key, q: V6Key) => CompareServer(k.address, q.address, k.egress, q.egress)
  }

  /** The row-delete loop as written reads an emptied slot on an interface
      with two servers. */
  lemma RowDeleteAsWrittenFails(capacity: nat, servers: map<V6Key, nat>, t: map<string, IntfNode<V6Key>>, name: string)
    requires Consistent(capacity, servers, t) && name in t && t[name].addrCount == 2
    ensures RowDeleteAsWritten(capacity, servers, t, name, 0, 2, SameServer()) == None
  {
    forall k: V6Key
      ensures SameServer()(k, k)
    {
      CompareServerFacts(k, "", "");
    }
    RowDeleteTwoServers(capacity, servers, t, name, SameServer());
  }

  // ---------------------------------------------------------------------
  // Two reconfigurations that the handlers as written get wrong.

  const exampleName := "1/1/1"
  const serverOne := "2001::1"
  const serverTwo := "2001::2"
  const serverTen := "2001::10"

  /** An interface whose one slot holds the unicast server `a`. */
  function Holding(a: string): IntfNode<V6Key>
  {
    IntfNode(1, Some([Some(Ucast(a))] + seq(MAX_SERVERS_PER_INTERFACE - 1, _ => None)))
  }

  function RowOf(texts: seq<string>): Option<Dhcpv6RelayRow>
  {
    Some(Dhcpv6RelayRow(Some(exampleName), Some("vrf_default"), texts))
  }

  lemma ExampleAddressesDiffer()
    ensures !IsPrefix(serverTwo, serverOne) && !IsPrefix(serverOne, serverTwo)
    ensures IsPrefix(serverOne, serverTen) && IsPrefix(serverTwo, serverTwo)
  {
    assert serverOne[6] != serverTwo[6];
    assert serverTen[..|serverOne|] == serverOne;
    assert serverTwo[..|serverTwo|] == serverTwo;
  }

  /** The add stage on the interface holding 2001::2 and the row
      [2001::1, 2001::2]: 2001::1 is appended behind 2001::2. */
  lemma AddsBehind()
    ensures var added := AddedFold(MAX_SERVERS_PER_INTERFACE, map[Ucast(serverTwo) := 1],
                                   map[exampleName := Holding(serverTwo)], exampleName, [serverOne, serverTwo], PrefixOf());
      exampleName in added.1 && Shaped(added.1[exampleName], MAX_SERVERS_PER_INTERFACE)
      && Slots(added.1[exampleName]) == [Some(Ucast(serverTwo)), Some(Ucast(serverOne))]
  {
    var cap := MAX_SERVERS_PER_INTERFACE;
    var s0 := map[Ucast(serverTwo) := 1];
    var t0 := map[exampleName := Holding(serverTwo)];
    var texts := [serverOne, serverTwo];
    ExampleAddressesDiffer();
    assert texts[..1][..0] == [] && texts[..1] == [serverOne] && texts[..2] == texts;
    assert Slots(Holding(serverTwo)) == [Some(Ucast(serverTwo))];
    assert !Held(Slots(t0[exampleName]), serverOne, PrefixOf());
    var one := AddedFold(cap, s0, t0, exampleName, texts[..1], PrefixOf());
    assert AddedFold(cap, s0, t0, exampleName, texts[..1][..0], PrefixOf()) == (s0, t0);
    var node := one.1[exampleName];
    assert Slots(node) == [Some(Ucast(serverTwo)), Some(Ucast(serverOne))];
    assert PrefixOf()(Slots(node)[0].value.address, serverTwo);
    assert Held(Slots(node), serverTwo, PrefixOf());
  }

  /** The flush stage after it: slot 0 (2001::2) is compared with row
      entry 0 (2001::1), is removed, and 2001::1 moves into slot 0 where the
      loop no longer looks. */
  lemma FlushDropsListed(servers: map<V6Key, nat>, t: map<string, IntfNode<V6Key>>)
    requires exampleName in t && Shaped(t[exampleName], MAX_SERVERS_PER_INTERFACE)
    requires Slots(t[exampleName]) == [Some(Ucast(serverTwo)), Some(Ucast(serverOne))]
    ensures var r := FlushAsWritten(MAX_SERVERS_PER_INTERFACE, servers, t, exampleName, [serverOne, serverTwo], 0);
      r.Some? && exampleName in r.value.1 && Slots(r.value.1[exampleName]) == [Some(Ucast(serverOne))]
  {
    var cap := MAX_SERVERS_PER_INTERFACE;
    var texts := [serverOne, serverTwo];
    ExampleAddressesDiffer();
    var node := t[exampleName];
    assert node.addrCount == 2;
    assert !CompareServer(serverTwo, texts[0], None, None);
    assert FirstMatch(Slots(node), Hits(Ucast(serverTwo))) == 0;
    var r := Remove(cap, servers, t, exampleName, Hits(Ucast(serverTwo)));
    assert r.2[exampleName] == RemoveAt(node, 0);
    assert Slots(r.2[exampleName]) == [Some(Ucast(serverOne))];
  }

  /** Finding: an interface holding 2001::2 reconfigured to the row
      [2001::1, 2001::2] ends with 2001::1 alone, although the row still
      lists 2001::2; the corrected handler keeps both (ConfigChangeHoldsRow). */
  lemma ConfigChangeAsWrittenDropsListed()
    ensures var r := ConfigChangeAsWritten(MAX_SERVERS_PER_INTERFACE, map[Ucast(serverTwo) := 1],
                                           map[exampleName := Holding(serverTwo)], RowOf([serverOne, serverTwo]), true);
      r.Some? && exampleName in r.value.1 && Slots(r.value.1[exampleName]) == [Some(Ucast(serverOne))]
      && !Held(Slots(r.value.1[exampleName]), serverTwo, SameText())
  {
    var t0 := map[exampleName := Holding(serverTwo)];
    assert WithNode(t0, exampleName) == t0;
    AddsBehind();
    var added := AddedFold(MAX_SERVERS_PER_INTERFACE, map[Ucast(serverTwo) := 1], t0, exampleName, [serverOne, serverTwo], PrefixOf());
    FlushDropsListed(added.0, added.1);
    ExampleAddressesDiffer();
  }

  /** Finding: an interface holding 2001::1 reconfigured to the row
      [2001::10] is left unchanged, because 2001::1 is a prefix of 2001::10;
      the server the row names is never stored. */
  lemma ConfigChangeAsWrittenIgnoresLonger()
    ensures var t := map[exampleName := Holding(serverOne)];
      var r := ConfigChangeAsWritten(MAX_SERVERS_PER_INTERFACE, map[Ucast(serverOne) := 1], t, RowOf([serverTen]), true);
      r == Some((map[Ucast(serverOne) := 1], t)) && !Held(Slots(t[exampleName]), serverTen, SameText())
  {
    var cap := MAX_SERVERS_PER_INTERFACE;
    var s0 := map[Ucast(serverOne) := 1];
    var t0 := map[exampleName := Holding(serverOne)];
    var texts := [serverTen];
    ExampleAddressesDiffer();
    assert WithNode(t0, exampleName) == t0;
    assert Slots(Holding(serverOne)) == [Some(Ucast(serverOne))];
    assert PrefixOf()(Slots(t0[exampleName])[0].value.address, serverTen);
    assert texts[..0] == [];
    assert AddedFold(cap, s0, t0, exampleName, texts[..0], PrefixOf()) == (s0, t0);
    assert AddedFold(cap, s0, t0, exampleName, texts, PrefixOf()) == (s0, t0);
    assert CompareServer(serverOne, texts[0], None, None);
    assert FlushAsWritten(cap, s0, t0, exampleName, texts, 1) == Some((s0, t0));
    assert serverOne != serverTen;
  }
}
