/*
 * The reference-counted server tables of the relay (udpfwd_config.c, and
 * its DHCPv6 twin dhcpv6_relay_config.c, which differs only in the key of
 * a server entry, the capacity of an interface and how a removal matches).
 *
 * The daemon keeps two tables: a hash map of server entries, each with a
 * reference count, and a hash table of interface nodes, each holding a
 * fixed-capacity array of pointers to server entries and the count of
 * pointers in use. A server entry is unique per key, so a pointer is
 * modelled by the key of the entry it points at, and the hash map by a map
 * from key to reference count.
 *
 * The table invariant (`Consistent`): every interface node holds at most
 * `capacity` servers, all of its first `addrCount` slots are set, and each
 * reference count equals the number of slots, over all interfaces, that
 * point at the entry; an entry exists exactly while some slot points at it.
 */
module ServerTables {
  import opened Common

  /** An interface node: the number of configured servers and the server
      array, None while it is NULL. */
  datatype IntfNode<K> = IntfNode(addrCount: nat, serverArray: Option<seq<Option<K>>>)

  /** The slots in use, `serverArray[0..addrCount)`. */
  function Slots<K>(node: IntfNode<K>): (s: seq<Option<K>>)
    ensures node.serverArray.Some? && node.addrCount <= |node.serverArray.value| ==> |s| == node.addrCount
  {
    match node.serverArray
    case None => []
    case Some(a) => if node.addrCount <= |a| then a[..node.addrCount] else a
  }

  /** How many slots in use point at the entry `k`. */
  function Count<K(==,!new)>(node: IntfNode<K>, k: K): nat
  {
    multiset(Slots(node))[Some(k)]
  }

  /** The count is within the capacity and the array, when allocated, has
      the capacity's length. */
  predicate Shaped<K>(node: IntfNode<K>, capacity: nat)
  {
    node.addrCount <= capacity &&
    match node.serverArray
    case None => node.addrCount == 0
    case Some(a) => |a| == capacity
  }

  ghost predicate NodeOk<K>(node: IntfNode<K>, capacity: nat)
  {
    node.addrCount <= capacity &&
    match node.serverArray
    case None => node.addrCount == 0
    case Some(a) => |a| == capacity && forall i :: 0 <= i < node.addrCount ==> a[i].Some?
  }

  /** The references to `k` from the interfaces named in `names`. */
  ghost function RefsIn<K(!new)>(names: set<string>, t: map<string, IntfNode<K>>, k: K): nat
    requires names <= t.Keys
  {
    if names == {} then 0
    else
      var n :| n in names;
      Count(t[n], k) + RefsIn(names - {n}, t, k)
  }

  /** The references to `k` from every interface. */
  ghost function Refs<K(!new)>(t: map<string, IntfNode<K>>, k: K): nat
  {
    RefsIn(t.Keys, t, k)
  }

  /** The table invariant. */
  ghost predicate Consistent<K(!new)>(capacity: nat, servers: map<K, nat>, t: map<string, IntfNode<K>>)
  {
    (forall n :: n in t ==> NodeOk(t[n], capacity)) &&
    (forall k :: k in servers <==> Refs(t, k) > 0) &&
    (forall k :: k in servers ==> servers[k] == Refs(t, k))
  }

  /** The reference count after one reference to `k` is dropped: the entry
      goes when its count reaches 0. */
  function Deref<K>(servers: map<K, nat>, k: K): (r: map<K, nat>)
    ensures r.Keys <= servers.Keys
  {
    if k !in servers then servers
    else if servers[k] <= 1 then servers - {k}
    else servers[k := servers[k] - 1]
  }

  /** The reference count after one more reference to `k`: an existing entry
      is incremented, a new one starts at 1. */
  function AddRef<K>(servers: map<K, nat>, k: K): (r: map<K, nat>)
    ensures k in r && r.Keys == servers.Keys + {k}
  {
    if k in servers then servers[k := servers[k] + 1] else servers[k := 1]
  }

  /** A freshly allocated server array: every slot empty. */
  function NoSlots<K>(capacity: nat): seq<Option<K>>
  {
    seq(capacity, _ => None)
  }

  /** The node after `k` is stored at index addrCount; a NULL array is first
      allocated with every slot empty. */
  function AppendSlot<K>(node: IntfNode<K>, k: K, capacity: nat): (r: IntfNode<K>)
    requires Shaped(node, capacity) && node.addrCount < capacity
    ensures Shaped(r, capacity) && r.addrCount == node.addrCount + 1
  {
    var a := if node.serverArray.None? then NoSlots(capacity) else node.serverArray.value;
    IntfNode(node.addrCount + 1, Some(a[node.addrCount := Some(k)]))
  }

  /** The node after the slot at `i` is removed: the count goes down by one
      and the former last slot fills the hole. */
  function RemoveAt<K>(node: IntfNode<K>, i: nat): (r: IntfNode<K>)
    requires node.serverArray.Some? && i < node.addrCount <= |node.serverArray.value|
    ensures r.addrCount == node.addrCount - 1 && r.serverArray.Some?
    ensures |r.serverArray.value| == |node.serverArray.value|
  {
    var a := node.serverArray.value;
    var last := node.addrCount - 1;
    IntfNode(last, Some(a[i := a[last]][last := None]))
  }

  /** The index of the first slot in use whose entry `target` accepts, or
      |s| when there is none. */
  function FirstMatch<K>(s: seq<Option<K>>, target: K -> bool): (i: nat)
    ensures i <= |s|
    ensures i < |s| ==> s[i].Some? && target(s[i].value)
    ensures forall j :: 0 <= j < i ==> !(s[j].Some? && target(s[j].value))
  {
    if s == [] then 0
    else if s[0].Some? && target(s[0].value) then 0
    else 1 + FirstMatch(s[1..], target)
  }

  /** udpfwd_store_address on values: the outcome and the new tables. */
  function Store<K(==,!new)>(capacity: nat, servers: map<K, nat>, t: map<string, IntfNode<K>>, name: string, k: K)
    : (r: (bool, map<K, nat>, map<string, IntfNode<K>>))
    requires name in t && Shaped(t[name], capacity)
    ensures r.2.Keys == t.Keys && Shaped(r.2[name], capacity)
    ensures forall n :: n in t && n != name ==> r.2[n] == t[n]
  {
    var node := t[name];
    if node.addrCount >= capacity then (false, servers, t)
    else (true, AddRef(servers, k), t[name := AppendSlot(node, k, capacity)])
  }

  /** udpfwd_remove_address on values: the first slot in use that `target`
      accepts is removed and its entry loses a reference; an interface left
      without servers is deleted from the interface table. */
  function Remove<K(==,!new)>(capacity: nat, servers: map<K, nat>, t: map<string, IntfNode<K>>, name: string, target: K -> bool)
    : (r: (bool, map<K, nat>, map<string, IntfNode<K>>))
    requires name in t && Shaped(t[name], capacity)
    ensures r.2.Keys <= t.Keys && (name in r.2 ==> Shaped(r.2[name], capacity))
    ensures forall n :: n in t && n != name ==> n in r.2 && r.2[n] == t[n]
  {
    var node := t[name];
    var s := Slots(node);
    var i := FirstMatch(s, target);
    if i == |s| then (false, servers, t)
    else
      var t' := if node.addrCount == 1 then t - {name} else t[name := RemoveAt(node, i)];
      (true, Deref(servers, s[i].value), t')
  }

  /** The interface table alone fixes the server table of a consistent
      pair: every entry's count is the number of slots that point at it. */
  lemma ConsistentServersUnique<K(!new)>(capacity: nat, servers: map<K, nat>, servers': map<K, nat>, t: map<string, IntfNode<K>>)
    requires Consistent(capacity, servers, t) && Consistent(capacity, servers', t)
    ensures servers == servers'
  {
  }

  // ---------------------------------------------------------------------
  // Counting references.

  lemma {:induction false} RefsInPick<K(!new)>(names: set<string>, t: map<string, IntfNode<K>>, k: K, n: string)
    requires n in names && names <= t.Keys
    ensures RefsIn(names, t, k) == Count(t[n], k) + RefsIn(names - {n}, t, k)
    decreases |names|
  {
    var m :| m in names && RefsIn(names, t, k) == Count(t[m], k) + RefsIn(names - {m}, t, k);
    if m != n {
      RefsInPick(names - {m}, t, k, n);
      RefsInPick(names - {n}, t, k, m);
      assert names - {m} - {n} == names - {n} - {m};
    }
  }

  lemma {:induction false} RefsInFrame<K(!new)>(names: set<string>, t: map<string, IntfNode<K>>, u: map<string, IntfNode<K>>, k: K)
    requires names <= t.Keys && names <= u.Keys
    requires forall n :: n in names ==> Count(t[n], k) == Count(u[n], k)
    ensures RefsIn(names, t, k) == RefsIn(names, u, k)
    decreases |names|
  {
    if names != {} {
      var n :| n in names;
      RefsInPick(names, t, k, n);
      RefsInPick(names, u, k, n);
      RefsInFrame(names - {n}, t, u, k);
    }
  }

  /** Replacing one interface node changes the references by the difference
      of its own. */
  lemma RefsUpdate<K(!new)>(t: map<string, IntfNode<K>>, name: string, node: IntfNode<K>, k: K)
    requires name in t
    ensures Refs(t[name := node], k) == Refs(t, k) - Count(t[name], k) + Count(node, k)
  {
    var u := t[name := node];
    assert u.Keys == t.Keys;
    RefsInPick(t.Keys, t, k, name);
    RefsInPick(u.Keys, u, k, name);
    RefsInFrame(t.Keys - {name}, t, u, k);
  }

  /** Deleting an interface node drops its references. */
  lemma RefsDelete<K(!new)>(t: map<string, IntfNode<K>>, name: string, k: K)
    requires name in t
    ensures Refs(t - {name}, k) == Refs(t, k) - Count(t[name], k)
  {
    var u := t - {name};
    assert u.Keys == t.Keys - {name};
    RefsInPick(t.Keys, t, k, name);
    RefsInFrame(t.Keys - {name}, t, u, k);
  }

  /** Adding an interface node adds its references. */
  lemma RefsInsert<K(!new)>(t: map<string, IntfNode<K>>, name: string, node: IntfNode<K>, k: K)
    requires name !in t
    ensures Refs(t[name := node], k) == Refs(t, k) + Count(node, k)
  {
    var u := t[name := node];
    assert u.Keys - {name} == t.Keys;
    RefsInPick(u.Keys, u, k, name);
    RefsInFrame(t.Keys, t, u, k);
  }

  lemma AppendSlotCount<K(!new)>(node: IntfNode<K>, k: K, capacity: nat, j: K)
    requires Shaped(node, capacity) && node.addrCount < capacity
    ensures NodeOk(node, capacity) ==> NodeOk(AppendSlot(node, k, capacity), capacity)
    ensures Count(AppendSlot(node, k, capacity), j) == Count(node, j) + (if j == k then 1 else 0)
  {
    var r := AppendSlot(node, k, capacity);
    var a := if node.serverArray.None? then NoSlots(capacity) else node.serverArray.value;
    assert Slots(r) == a[..node.addrCount] + [Some(k)];
    assert a[..node.addrCount] == Slots(node);
  }

  lemma RemoveAtCount<K(!new)>(node: IntfNode<K>, i: nat, capacity: nat, j: K)
    requires node.serverArray.Some? && i < node.addrCount <= |node.serverArray.value|
    ensures NodeOk(node, capacity) ==> NodeOk(RemoveAt(node, i), capacity)
    ensures Count(RemoveAt(node, i), j) == Count(node, j) - (if Slots(node)[i] == Some(j) then 1 else 0)
  {
    var a := node.serverArray.value;
    var s := Slots(node);
    var last := node.addrCount - 1;
    var r := RemoveAt(node, i);
    assert s == s[..last] + [s[last]];
    if i == last {
      assert Slots(r) == s[..last];
    } else {
      assert Slots(r) == s[i := s[last]][..last];
      assert s[i := s[last]] == s[i := s[last]][..last] + [s[last]];
      assert multiset(s[i := s[last]]) == multiset(s) - multiset{s[i]} + multiset{s[last]};
    }
  }

  /** A new interface node without servers (calloc'ed, as the configuration
      handlers create one) keeps the table invariant. */
  lemma AddEmptyConsistent<K(!new)>(capacity: nat, servers: map<K, nat>, t: map<string, IntfNode<K>>, name: string)
    requires Consistent(capacity, servers, t) && name !in t
    ensures Consistent(capacity, servers, t[name := IntfNode(0, None)])
  {
    forall k
      ensures Refs(t[name := IntfNode(0, None)], k) == Refs(t, k)
    {
      RefsInsert(t, name, IntfNode(0, None), k);
    }
  }

  // ---------------------------------------------------------------------
  // What storing and removing promise.

  /** The references to `k` from the interface `name`; none once it is gone. */
  ghost function CountIn<K(!new)>(t: map<string, IntfNode<K>>, name: string, k: K): nat
  {
    if name in t then Count(t[name], k) else 0
  }

  /** A store adds one reference from `name`, to the stored entry, exactly
      when it succeeds. */
  lemma StoreCount<K(!new)>(capacity: nat, servers: map<K, nat>, t: map<string, IntfNode<K>>, name: string, k: K, j: K)
    requires name in t && Shaped(t[name], capacity)
    ensures var r := Store(capacity, servers, t, name, k);
      CountIn(r.2, name, j) == CountIn(t, name, j) + (if r.0 && j == k then 1 else 0)
  {
    if t[name].addrCount < capacity {
      AppendSlotCount(t[name], k, capacity, j);
    }
  }

  /** A removal takes one reference from `name`, to the entry of the slot
      it removes; an entry no slot of `name` holds is never removed. */
  lemma RemoveCount<K(!new)>(capacity: nat, servers: map<K, nat>, t: map<string, IntfNode<K>>, name: string, target: K -> bool, j: K)
    requires name in t && Shaped(t[name], capacity)
    ensures var s := Slots(t[name]);
      var i := FirstMatch(s, target);
      CountIn(Remove(capacity, servers, t, name, target).2, name, j)
        == CountIn(t, name, j) - (if i < |s| && s[i] == Some(j) then 1 else 0)
    ensures var s := Slots(t[name]);
      Some(j) in s && target(j) ==> FirstMatch(s, target) < |s|
  {
    var node := t[name];
    var s := Slots(node);
    var i := FirstMatch(s, target);
    if i < |s| {
      RemoveAtCount(node, i, capacity, j);
      if node.addrCount == 1 {
        assert Slots(RemoveAt(node, i)) == [];
      }
    }
  }


  /** A store appends to the slots of `name` when the interface has room;
      a full interface is left as it is. */
  lemma StoreSlots<K(!new)>(capacity: nat, servers: map<K, nat>, t: map<string, IntfNode<K>>, name: string, k: K)
    requires name in t && Shaped(t[name], capacity)
    ensures var r := Store(capacity, servers, t, name, k);
      (r.0 <==> t[name].addrCount < capacity) &&
      (r.0 ==> Slots(r.2[name]) == Slots(t[name]) + [Some(k)]) &&
      (!r.0 ==> r.2 == t && r.1 == servers)
  {
    var node := t[name];
    if node.addrCount < capacity {
      var a := if node.serverArray.None? then NoSlots(capacity) else node.serverArray.value;
      assert Slots(AppendSlot(node, k, capacity)) == a[..node.addrCount] + [Some(k)];
      assert a[..node.addrCount] == Slots(node);
    }
  }

  /** Storing keeps the table invariant. */
  lemma StoreConsistent<K(!new)>(capacity: nat, servers: map<K, nat>, t: map<string, IntfNode<K>>, name: string, k: K)
    requires Consistent(capacity, servers, t) && name in t
    ensures var (_, servers', t') := Store(capacity, servers, t, name, k);
      Consistent(capacity, servers', t')
  {
    var node := t[name];
    if node.addrCount < capacity {
      var (_, servers', t') := Store(capacity, servers, t, name, k);
      forall j
        ensures Refs(t', j) == Refs(t, j) + (if j == k then 1 else 0)
      {
        AppendSlotCount(node, k, capacity, j);
        RefsUpdate(t, name, AppendSlot(node, k, capacity), j);
      }
      AppendSlotCount(node, k, capacity, k);
    }
  }

  /** A full interface refuses the server and nothing changes; otherwise
      the server lands at index addrCount, the slots below keep their
      entries, and the entry gains exactly one reference. */
  lemma StoreOutcome<K(!new)>(capacity: nat, servers: map<K, nat>, t: map<string, IntfNode<K>>, name: string, k: K)
    requires Consistent(capacity, servers, t) && name in t
    ensures var (ok, servers', t') := Store(capacity, servers, t, name, k);
      (ok <==> t[name].addrCount < capacity) &&
      (!ok ==> servers' == servers && t' == t) &&
      (ok ==> name in t' && t'[name].addrCount == t[name].addrCount + 1 &&
              Slots(t'[name]) == Slots(t[name]) + [Some(k)] &&
              (forall n :: n in t && n != name ==> n in t' && t'[n] == t[n]) &&
              k in servers' && servers'[k] == Refs(t, k) + 1)
  {
    var node := t[name];
    if node.addrCount < capacity {
      var r := AppendSlot(node, k, capacity);
      var a := if node.serverArray.None? then NoSlots(capacity) else node.serverArray.value;
      assert Slots(r) == a[..node.addrCount] + [Some(k)];
      assert a[..node.addrCount] == Slots(node);
    }
  }

  /** The interface table after slot `i` of `name` is removed (and the
      node deleted when it was the last slot). */
  function RemovedTable<K>(t: map<string, IntfNode<K>>, name: string, i: nat): map<string, IntfNode<K>>
    requires name in t && t[name].serverArray.Some? && i < t[name].addrCount <= |t[name].serverArray.value|
  {
    if t[name].addrCount == 1 then t - {name} else t[name := RemoveAt(t[name], i)]
  }

  /** Removing slot `i` takes one reference from the entry it held and
      none from any other. */
  lemma RemoveSlotRefs<K(!new)>(capacity: nat, t: map<string, IntfNode<K>>, name: string, i: nat, j: K)
    requires name in t && NodeOk(t[name], capacity) && i < t[name].addrCount
    ensures Refs(RemovedTable(t, name, i), j) == Refs(t, j) - (if Slots(t[name])[i] == Some(j) then 1 else 0)
  {
    var node := t[name];
    RemoveAtCount(node, i, capacity, j);
    if node.addrCount == 1 {
      RefsDelete(t, name, j);
      assert Count(RemoveAt(node, i), j) == 0;
    } else {
      RefsUpdate(t, name, RemoveAt(node, i), j);
    }
  }

  /** Nodes stay well formed when a slot is removed. */
  lemma RemoveSlotOk<K(!new)>(capacity: nat, t: map<string, IntfNode<K>>, name: string, i: nat)
    requires forall n :: n in t ==> NodeOk(t[n], capacity)
    requires name in t && NodeOk(t[name], capacity) && i < t[name].addrCount
    ensures forall n :: n in RemovedTable(t, name, i) ==> NodeOk(RemovedTable(t, name, i)[n], capacity)
  {
    RemoveAtCount(t[name], i, capacity, Slots(t[name])[i].value);
  }

  /** Taking one reference from `k` in a consistent pair, on both sides,
      keeps the pair consistent. */
  lemma DropConsistent<K(!new)>(capacity: nat, servers: map<K, nat>, t: map<string, IntfNode<K>>, t': map<string, IntfNode<K>>, k: K)
    requires Consistent(capacity, servers, t) && Refs(t, k) >= 1
    requires forall n :: n in t' ==> NodeOk(t'[n], capacity)
    requires forall j :: Refs(t', j) == Refs(t, j) - (if j == k then 1 else 0)
    ensures Consistent(capacity, Deref(servers, k), t')
  {
  }

  /** Removing keeps the table invariant. */
  lemma RemoveConsistent<K(!new)>(capacity: nat, servers: map<K, nat>, t: map<string, IntfNode<K>>, name: string, target: K -> bool)
    requires Consistent(capacity, servers, t) && name in t
    ensures var (_, servers', t') := Remove(capacity, servers, t, name, target);
      Consistent(capacity, servers', t')
  {
    var node := t[name];
    var s := Slots(node);
    var i := FirstMatch(s, target);
    if i < |s| {
      assert NodeOk(node, capacity);
      var k := s[i].value;
      var t' := RemovedTable(t, name, i);
      forall j
        ensures Refs(t', j) == Refs(t, j) - (if j == k then 1 else 0)
      {
        RemoveSlotRefs(capacity, t, name, i, j);
      }
      RemoveSlotOk(capacity, t, name, i);
      SlotReferenced(capacity, servers, t, name, i);
      DropConsistent(capacity, servers, t, t', k);
      assert Remove(capacity, servers, t, name, target) == (true, Deref(servers, k), t');
    }
  }

  /** A slot in use points at an entry that exists, whose reference count
      counts that slot. */
  lemma SlotReferenced<K(!new)>(capacity: nat, servers: map<K, nat>, t: map<string, IntfNode<K>>, name: string, i: nat)
    requires Consistent(capacity, servers, t) && name in t && i < |Slots(t[name])|
    ensures Slots(t[name])[i].Some?
    ensures Slots(t[name])[i].value in servers && servers[Slots(t[name])[i].value] >= Count(t[name], Slots(t[name])[i].value) >= 1
  {
    var s := Slots(t[name]);
    assert NodeOk(t[name], capacity);
    var k := s[i].value;
    assert s[i] in multiset(s);
    RefsInPick(t.Keys, t, k, name);
  }

  /** Every slot in use of `node` names an entry of `servers`. */
  ghost predicate Referenced<K>(servers: map<K, nat>, node: IntfNode<K>)
  {
    forall i :: 0 <= i < |Slots(node)| ==> Slots(node)[i].Some? && Slots(node)[i].value in servers
  }

  /** In a consistent pair every interface's slots in use name entries of
      the server table. */
  lemma NodeReferenced<K(!new)>(capacity: nat, servers: map<K, nat>, t: map<string, IntfNode<K>>, name: string)
    requires Consistent(capacity, servers, t) && name in t
    ensures NodeOk(t[name], capacity) && Referenced(servers, t[name])
  {
    forall i | 0 <= i < |Slots(t[name])|
      ensures Slots(t[name])[i].Some? && Slots(t[name])[i].value in servers
    {
      SlotReferenced(capacity, servers, t, name, i);
    }
  }

  /** Removing a server the interface does not hold changes nothing, and a
      removal happens exactly when some slot in use matches. */
  lemma RemoveMissing<K(!new)>(capacity: nat, servers: map<K, nat>, t: map<string, IntfNode<K>>, name: string, target: K -> bool)
    requires name in t && Shaped(t[name], capacity)
    ensures var s := Slots(t[name]);
      Remove(capacity, servers, t, name, target).0 <==> exists i :: 0 <= i < |s| && s[i].Some? && target(s[i].value)
    ensures !Remove(capacity, servers, t, name, target).0 ==> Remove(capacity, servers, t, name, target) == (false, servers, t)
  {
  }

  /** A removal drops the first matching slot and lets the former last slot
      take its place, takes one reference from the entry (deleting it with
      its last reference), deletes the interface with its last server and
      leaves every other interface alone. */
  lemma RemoveFound<K(!new)>(capacity: nat, servers: map<K, nat>, t: map<string, IntfNode<K>>, name: string, target: K -> bool)
    requires Consistent(capacity, servers, t) && name in t
    requires FirstMatch(Slots(t[name]), target) < |Slots(t[name])|
    ensures var s := Slots(t[name]);
      var i := FirstMatch(s, target);
      var t' := Remove(capacity, servers, t, name, target).2;
      (|s| == 1 ==> name !in t') &&
      (|s| > 1 ==> name in t' && Slots(t'[name]) == s[i := s[|s| - 1]][..|s| - 1]) &&
      (forall n :: n in t && n != name ==> n in t' && t'[n] == t[n])
    ensures var s := Slots(t[name]);
      var k := s[FirstMatch(s, target)].value;
      var servers' := Remove(capacity, servers, t, name, target).1;
      (k in servers' <==> Refs(t, k) > 1) &&
      (k in servers' ==> servers'[k] == Refs(t, k) - 1) &&
      (forall j :: j != k ==> (j in servers' <==> j in servers) && (j in servers ==> servers'[j] == servers[j]))
  {
    var node := t[name];
    var s := Slots(node);
    var i := FirstMatch(s, target);
    SlotReferenced(capacity, servers, t, name, i);
    assert NodeOk(node, capacity);
    if |s| > 1 {
      assert Slots(RemoveAt(node, i)) == s[i := s[|s| - 1]][..|s| - 1];
    }
  }

  /** Removing the first matching slot of a well-formed node moves the last
      slot in use into the gap and keeps the node well-formed. */
  lemma RemoveSlots<K(!new)>(capacity: nat, servers: map<K, nat>, t: map<string, IntfNode<K>>, name: string, target: K -> bool)
    requires name in t && NodeOk(t[name], capacity)
    requires FirstMatch(Slots(t[name]), target) < |Slots(t[name])|
    ensures var s := Slots(t[name]);
      var t' := Remove(capacity, servers, t, name, target).2;
      (|s| == 1 ==> name !in t') &&
      (|s| > 1 ==> name in t' && NodeOk(t'[name], capacity) &&
                   Slots(t'[name]) == s[FirstMatch(s, target) := s[|s| - 1]][..|s| - 1])
  {
    var node := t[name];
    var s := Slots(node);
    var i := FirstMatch(s, target);
    if |s| > 1 {
      assert Slots(RemoveAt(node, i)) == s[i := s[|s| - 1]][..|s| - 1];
    }
  }

  /** The state right after udpfwd_remove_server_ref_entry found the
      server: the first matching slot is emptied and its entry lost one
      reference. */
  ghost predicate EmptiedSlot<K(!new)>(servers: map<K, nat>, t: map<string, IntfNode<K>>, name: string, target: K -> bool,
                                      servers': map<K, nat>, t': map<string, IntfNode<K>>, i: nat)
    requires name in t
  {
    var node := t[name];
    var s := Slots(node);
    i == FirstMatch(s, target) && i < |s| && node.serverArray.Some? &&
    servers' == Deref(servers, s[i].value) &&
    t' == t[name := node.(serverArray := Some(node.serverArray.value[i := None]))]
  }

  /** Emptying slot `i`, then moving the slot at the new count `last` into
      it (skipped when both are 0) leaves the array RemoveAt describes. */
  lemma PushMatchesRemoveAt<T>(a: seq<Option<T>>, i: nat, last: nat)
    requires i <= last < |a|
    ensures var e := a[i := None];
      (if i == 0 && last == 0 then e else e[i := None][last := None][i := e[last]])
        == a[i := a[last]][last := None]
  {
  }

  // ---------------------------------------------------------------------
  // The tables as the daemon keeps them.

  /** The interface table with a node for `name`, calloc'ed empty when it
      has none. */
  function WithNode<K>(t: map<string, IntfNode<K>>, name: string): (r: map<string, IntfNode<K>>)
    ensures name in r && r.Keys == t.Keys + {name}
    ensures forall n :: n in t ==> r[n] == t[n]
    ensures name !in t ==> r[name] == IntfNode(0, None)
  {
    if name in t then t else t[name := IntfNode(0, None)]
  }

  /** The search condition of a removal by key: the entry itself. */
  function Matches<K(==)>(key: K): K -> bool
  {
    k => k == key
  }

  /** The inner loop of the row-delete handlers as written: step `iter`
      removes the server that slot `iter` points at (found again with the
      handler's comparison `same`), although the removals before it have
      moved the former last slots down and emptied the slots above the
      count. None when a step reads an empty slot or a freed node. */
  function RowDeleteAsWritten<K(==,!new)>(capacity: nat, servers: map<K, nat>, t: map<string, IntfNode<K>>,
                                          name: string, iter: nat, addrCount: nat, same: (K, K) -> bool)
    : Option<(map<K, nat>, map<string, IntfNode<K>>)>
    requires name in t ==> Shaped(t[name], capacity)
    decreases addrCount - iter
  {
    if iter >= addrCount then Some((servers, t))
    else if name !in t then None
    else
      var node := t[name];
      if node.serverArray.None? || iter >= |node.serverArray.value| || node.serverArray.value[iter].None? then None
      else
        var key := node.serverArray.value[iter].value;
        var removed := Remove(capacity, servers, t, name, k => same(k, key));
        RowDeleteAsWritten(capacity, removed.1, removed.2, name, iter + 1, addrCount, same)
  }

  /** With two servers on the interface, the first removal moves the second
      server into slot 0 and empties slot 1, which the second step then
      reads. */
  lemma RowDeleteTwoServers<K(!new)>(capacity: nat, servers: map<K, nat>, t: map<string, IntfNode<K>>, name: string,
                                     same: (K, K) -> bool)
    requires Consistent(capacity, servers, t) && name in t && t[name].addrCount == 2
    requires forall k :: same(k, k)
    ensures RowDeleteAsWritten(capacity, servers, t, name, 0, 2, same) == None
  {
    var node := t[name];
    assert NodeOk(node, capacity);
    var a := node.serverArray.value;
    var key := a[0].value;
    var s := Slots(node);
    assert s[0] == a[0];
    var target := k => same(k, key);
    assert FirstMatch(s, target) == 0;
    var removed := Remove(capacity, servers, t, name, target);
    assert removed.2 == t[name := RemoveAt(node, 0)];
    assert removed.2[name].serverArray.value[1] == None;
  }

  class Tables<K(==,!new)> {
    /** MAX_UDP_BCAST_SERVER_PER_INTERFACE or MAX_SERVERS_PER_INTERFACE. */
    const capacity: nat
    /** The server hash map: the reference count of each entry. */
    var serverHashMap: map<K, nat>
    /** The interface hash table. */
    var intfHashTable: map<string, IntfNode<K>>

    ghost predicate Valid()
      reads this
    {
      Consistent(capacity, serverHashMap, intfHashTable)
    }

    constructor (capacity: nat)
      ensures Valid() && this.capacity == capacity
      ensures serverHashMap == map[] && intfHashTable == map[]
    {
      this.capacity := capacity;
      serverHashMap := map[];
      intfHashTable := map[];
    }

    /** udpfwd_get_server_entry: the reference count of the entry with key
        `k`, if there is one. */
    function GetServerEntry(k: K): Option<nat>
      reads this
    {
      if k in serverHashMap then Some(serverHashMap[k]) else None
    }

    /** In a valid pair of tables the entry found for `k` carries exactly
        the number of slots that point at `k`, and there is none when no
        slot does. */
    lemma ServerEntryCountsRefs(k: K)
      requires Valid()
      ensures GetServerEntry(k).Some? <==> Refs(intfHashTable, k) > 0
      ensures GetServerEntry(k).Some? ==> GetServerEntry(k).value == Refs(intfHashTable, k)
    {
    }

    /** udpfwd_add_server_entry: a new entry with reference count 1. */
    method AddServerEntry(k: K)
      requires k !in serverHashMap
      modifies this
      ensures serverHashMap == old(serverHashMap)[k := 1]
      ensures intfHashTable == old(intfHashTable)
    {
      serverHashMap := serverHashMap[k := 1];
    }

    /** udpfwd_store_address: the table updates below keep the tables
        consistent. */
    method StoreAddress(name: string, k: K) returns (ok: bool)
      requires Valid() && name in intfHashTable
      modifies this
      ensures (ok, serverHashMap, intfHashTable) == Store(capacity, old(serverHashMap), old(intfHashTable), name, k)
      ensures Valid()
    {
      StoreConsistent(capacity, serverHashMap, intfHashTable, name, k);
      ok := AppendServer(name, k);
    }

    /** The body of udpfwd_store_address: a full interface refuses the
        server; otherwise a NULL array is allocated, the entry gains a
        reference (or is created) and the server goes to slot addrCount. */
    method AppendServer(name: string, k: K) returns (ok: bool)
      requires name in intfHashTable && Shaped(intfHashTable[name], capacity)
      modifies this
      ensures (ok, serverHashMap, intfHashTable) == Store(capacity, old(serverHashMap), old(intfHashTable), name, k)
    {
      var node := intfHashTable[name];
      if node.addrCount >= capacity {
        return false;
      }
      ghost var appended := AppendSlot(node, k, capacity);
      if node.serverArray.None? {
        node := IntfNode(0, Some(NoSlots(capacity)));
      }
      var found := GetServerEntry(k);
      if found.Some? {
        serverHashMap := serverHashMap[k := found.value + 1];
      } else {
        AddServerEntry(k);
      }
      var arr := node.serverArray.value[node.addrCount := Some(k)];
      assert IntfNode(node.addrCount + 1, Some(arr)) == appended;
      intfHashTable := intfHashTable[name := IntfNode(node.addrCount + 1, Some(arr))];
      return true;
    }

    /** udpfwd_remove_server_ref_entry: finds the first slot in use that
        `target` accepts, takes a reference from its entry (deleting the
        entry at zero) and empties the slot. */
    method RemoveServerRefEntry(name: string, target: K -> bool) returns (found: bool, deletedIndex: nat)
      requires name in intfHashTable && NodeOk(intfHashTable[name], capacity)
      requires Referenced(serverHashMap, intfHashTable[name])
      modifies this
      ensures var s := Slots(old(intfHashTable[name]));
        found <==> FirstMatch(s, target) < |s|
      ensures !found ==> serverHashMap == old(serverHashMap) && intfHashTable == old(intfHashTable)
      ensures found ==> EmptiedSlot(old(serverHashMap), old(intfHashTable), name, target, serverHashMap, intfHashTable, deletedIndex)
    {
      var node := intfHashTable[name];
      ghost var s := Slots(node);
      assert NodeOk(node, capacity);
      var index := 0;
      while index < node.addrCount
        invariant index <= node.addrCount
        invariant forall j :: 0 <= j < index ==> !(s[j].Some? && target(s[j].value))
        invariant serverHashMap == old(serverHashMap) && intfHashTable == old(intfHashTable)
      {
        var server := node.serverArray.value[index];
        assert server == s[index];
        if target(server.value) {
          var k := server.value;
          var refCount := serverHashMap[k] as int - 1;
          if refCount <= 0 {
            serverHashMap := serverHashMap - {k};
          } else {
            serverHashMap := serverHashMap[k := refCount];
          }
          intfHashTable := intfHashTable[name := node.(serverArray := Some(node.serverArray.value[index := None]))];
          return true, index;
        }
        index := index + 1;
      }
      return false, 0;
    }

    /** udpfwd_push_deleted_server_ref_to_end: after the count went down,
        the slot at the new count moves into the emptied slot. */
    method PushDeletedServerRefToEnd(name: string, deletedIndex: nat)
      requires name in intfHashTable && intfHashTable[name].serverArray.Some?
      requires deletedIndex <= intfHashTable[name].addrCount < |intfHashTable[name].serverArray.value|
      modifies this
      ensures var node := old(intfHashTable[name]);
        var a := node.serverArray.value;
        var last := node.addrCount;
        intfHashTable == old(intfHashTable)[name := node.(serverArray := Some(a[deletedIndex := None][last := None][deletedIndex := a[last]]))]
      ensures serverHashMap == old(serverHashMap)
    {
      var node := intfHashTable[name];
      var a := node.serverArray.value;
      var currentAddrCount := node.addrCount;
      var server := a[currentAddrCount];
      a := a[deletedIndex := None][currentAddrCount := None];
      a := a[deletedIndex := server];
      intfHashTable := intfHashTable[name := node.(serverArray := Some(a))];
    }

    /** udpfwd_remove_address */
    method RemoveAddress(name: string, target: K -> bool) returns (ok: bool)
      requires Valid() && name in intfHashTable
      modifies this
      ensures (ok, serverHashMap, intfHashTable) == Remove(capacity, old(serverHashMap), old(intfHashTable), name, target)
      ensures Valid()
    {
      RemoveConsistent(capacity, serverHashMap, intfHashTable, name, target);
      NodeReferenced(capacity, serverHashMap, intfHashTable, name);
      ghost var t0 := intfHashTable;
      var found, deletedIndex := RemoveServerRefEntry(name, target);
      if !found {
        return false;
      }
      CloseGap(name, deletedIndex, t0);
      return true;
    }

    /** The rest of udpfwd_remove_address once the slot at `deletedIndex`
        was emptied: the count goes down, the last slot fills the gap and an
        interface left without servers is freed and deleted. */
    method CloseGap(name: string, deletedIndex: nat, ghost t0: map<string, IntfNode<K>>)
      requires name in t0 && t0[name].serverArray.Some?
      requires deletedIndex < t0[name].addrCount <= |t0[name].serverArray.value|
      requires intfHashTable == t0[name := t0[name].(serverArray := Some(t0[name].serverArray.value[deletedIndex := None]))]
      modifies this
      ensures intfHashTable == if t0[name].addrCount == 1 then t0 - {name} else t0[name := RemoveAt(t0[name], deletedIndex)]
      ensures serverHashMap == old(serverHashMap)
    {
      ghost var a0 := t0[name].serverArray.value;
      var node := intfHashTable[name];
      node := node.(addrCount := node.addrCount - 1);
      intfHashTable := intfHashTable[name := node];
      assert intfHashTable == t0[name := node];
      if !(deletedIndex == 0 && node.addrCount == 0) {
        PushDeletedServerRefToEnd(name, deletedIndex);
      }
      node := intfHashTable[name];
      assert intfHashTable == t0[name := node];
      PushMatchesRemoveAt(a0, deletedIndex, node.addrCount);
      assert node == RemoveAt(t0[name], deletedIndex);
      if node.serverArray.value[0].None? && node.addrCount == 0 {
        intfHashTable := intfHashTable - {name};
        assert t0[name := node] - {name} == t0 - {name};
      }
    }
  }

  /** One step of the corrected row-delete loop: the server in slot 0 is
      removed. */
  method RemoveFirstServer<K(==,!new)>(tables: Tables<K>, name: string)
    requires tables.Valid() && name in tables.intfHashTable && tables.intfHashTable[name].addrCount > 0
    modifies tables
    ensures tables.Valid()
    ensures old(tables.intfHashTable[name].addrCount) == 1 ==> name !in tables.intfHashTable
    ensures old(tables.intfHashTable[name].addrCount) > 1 ==>
      name in tables.intfHashTable && tables.intfHashTable[name].addrCount == old(tables.intfHashTable[name].addrCount) - 1
    ensures tables.intfHashTable - {name} == old(tables.intfHashTable) - {name}
  {
    var intf := tables.intfHashTable[name];
    assert NodeOk(intf, tables.capacity);
    var key := intf.serverArray.value[0].value;
    ghost var s := Slots(intf);
    assert s[0] == intf.serverArray.value[0];
    assert FirstMatch(s, Matches(key)) == 0;
    RemoveFound(tables.capacity, tables.serverHashMap, tables.intfHashTable, name, Matches(key));
    var removed := tables.RemoveAddress(name, Matches(key));
  }

  /** The corrected row-delete loop: the server in slot 0 is removed once
      per server the interface held, which empties and deletes the
      interface. */
  method RemoveInterfaceServers<K(==,!new)>(tables: Tables<K>, name: string)
    requires tables.Valid() && name in tables.intfHashTable
    modifies tables
    ensures tables.Valid()
    ensures tables.intfHashTable
      == if old(tables.intfHashTable[name].addrCount) == 0 then old(tables.intfHashTable) else old(tables.intfHashTable) - {name}
  {
    ghost var t0 := tables.intfHashTable;
    var addrCount := tables.intfHashTable[name].addrCount;
    var iter := 0;
    while iter < addrCount
      invariant iter <= addrCount && tables.Valid()
      invariant iter < addrCount ==> name in tables.intfHashTable && tables.intfHashTable[name].addrCount == addrCount - iter
      invariant 0 < iter ==> tables.intfHashTable - {name} == t0 - {name}
      invariant 0 < addrCount == iter ==> name !in tables.intfHashTable
      invariant iter == 0 ==> tables.intfHashTable == t0
    {
      RemoveFirstServer(tables, name);
      iter := iter + 1;
    }
    if addrCount > 0 {
      assert tables.intfHashTable == tables.intfHashTable - {name};
    }
  }
}
