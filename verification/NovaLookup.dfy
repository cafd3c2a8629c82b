/** `GetVMIDThruNova` and the two indexes it builds (pkg/utils/util.go), for every order of map
    iteration. */
module NovaLookup {
  import opened MapOrder
  import opened Text

  /** A server, the hypervisor it runs on and the address lists of its networks, in the order in which
      they are visited. */
  datatype Server = Server(id: string, host: string, networks: seq<seq<string>>)

  type IpIndex = map<string, Server>
  type IdIndex = map<string, seq<string>>

  predicate Owns(vm: Server, ip: string) {
    exists n | 0 <= n < |vm.networks| :: ip in vm.networks[n]
  }

  function PutAll(index: IpIndex, ips: seq<string>, vm: Server): IpIndex {
    if ips == [] then index else PutAll(index, ips[..|ips| - 1], vm)[ips[|ips| - 1] := vm]
  }

  function PutNetworks(index: IpIndex, networks: seq<seq<string>>, vm: Server): IpIndex {
    if networks == [] then index
    else PutAll(PutNetworks(index, networks[..|networks| - 1], vm), networks[|networks| - 1], vm)
  }

  /** The index from addresses to servers. */
  function IpIndexOf(vms: seq<Server>): IpIndex {
    if vms == [] then map[]
    else PutNetworks(IpIndexOf(vms[..|vms| - 1]), vms[|vms| - 1].networks, vms[|vms| - 1])
  }

  /** The index from IDs to addresses. An assignment replaces the list that was there. */
  function IdIndexOf(ips: IpIndex, order: seq<string>): IdIndex
    requires forall k :: k in order ==> k in ips
  {
    if order == [] then map[]
    else
      var last := order[|order| - 1];
      IdIndexOf(ips, order[..|order| - 1])[ips[last].id := [last]]
  }

  /** The search with its early return. */
  function Search(ids: IdIndex, order: seq<string>, ip: string): string
    requires forall k :: k in order ==> k in ids
  {
    if order == [] then ""
    else if ip in ids[order[0]] then order[0]
    else Search(ids, order[1..], ip)
  }

  // ----- the loops of the source

  /** CreateVMIPToVMDetailsMap; a nil list hides an error. */
  method CreateVMIPToVMDetailsMap(vms: Option<seq<Server>>, failed: bool) returns (index: Option<IpIndex>, err: bool)
    ensures index == if vms.Some? && !failed then Some(IpIndexOf(vms.value)) else None
    ensures err <==> vms.Some? && failed
  {
    if vms.None? {
      return None, false;
    } else if failed {
      return None, true;
    }
    var list := vms.value;
    var m: IpIndex := map[];
    for k := 0 to |list|
      invariant m == IpIndexOf(list[..k])
    {
      var vm := list[k];
      ghost var before := m;
      for n := 0 to |vm.networks|
        invariant m == PutNetworks(before, vm.networks[..n], vm)
      {
        ghost var outer := m;
        for i := 0 to |vm.networks[n]|
          invariant m == PutAll(outer, vm.networks[n][..i], vm)
        {
          m := m[vm.networks[n][i] := vm];
          assert vm.networks[n][..i + 1][..i] == vm.networks[n][..i];
        }
        assert vm.networks[n][..|vm.networks[n]|] == vm.networks[n];
        assert vm.networks[..n + 1][..n] == vm.networks[..n];
      }
      assert vm.networks[..|vm.networks|] == vm.networks;
      assert list[..k + 1][..k] == list[..k];
    }
    assert list[..|list|] == list;
    return Some(m), false;
  }

  /** CreateVMIDToIPMap, which asks whether the first index is nil before it looks at the error. */
  method CreateVMIDToIPMap(vms: Option<seq<Server>>, failed: bool, order: seq<string>)
    returns (index: Option<IdIndex>, err: bool)
    requires vms.Some? ==> IsOrder(order, IpIndexOf(vms.value).Keys)
    ensures index == if vms.Some? && !failed then Some(IdIndexOf(IpIndexOf(vms.value), order)) else None
    ensures !err
  {
    var ips, e := CreateVMIPToVMDetailsMap(vms, failed);
    if ips.None? {
      return None, false;
    } else if e {
      return None, true;
    }
    var m: IdIndex := map[];
    for k := 0 to |order|
      invariant m == IdIndexOf(ips.value, order[..k])
    {
      assert order[k] in order;
      m := m[ips.value[order[k]].id := [order[k]]];
      assert order[..k + 1][..k] == order[..k];
    }
    assert order[..|order|] == order;
    return Some(m), false;
  }

  /** The value that the lookup returns. */
  function Lookup(vms: seq<Server>, order: seq<string>, idOrder: seq<string>, ip: string): string
    requires forall k :: k in order ==> k in IpIndexOf(vms)
    requires forall k :: k in idOrder ==> k in IdIndexOf(IpIndexOf(vms), order)
  {
    Search(IdIndexOf(IpIndexOf(vms), order), idOrder, ip)
  }

  /** GetVMIDThruNova. It never reports an error: one from the cloud is lost on the way. */
  method GetVMIDThruNova(vms: Option<seq<Server>>, failed: bool, order: seq<string>, idOrder: seq<string>, vmIP: string)
    returns (id: string, err: bool)
    requires vms.Some? ==> IsOrder(order, IpIndexOf(vms.value).Keys)
                           && IsOrder(idOrder, IdIndexOf(IpIndexOf(vms.value), order).Keys)
    ensures !err
    ensures id == if vms.Some? && !failed then Lookup(vms.value, order, idOrder, vmIP) else ""
  {
    var ids, e := CreateVMIDToIPMap(vms, failed, order);
    if e {
      return "", true;
    }
    if ids.None? {
      return "", false;
    }
    for k := 0 to |idOrder|
      invariant Search(ids.value, idOrder[k..], vmIP) == Search(ids.value, idOrder, vmIP)
    {
      assert idOrder[k] in idOrder;
      assert idOrder[k..][1..] == idOrder[k + 1..];
      var vmIPs := ids.value[idOrder[k]];
      for i := 0 to |vmIPs|
        invariant vmIP !in vmIPs[..i]
      {
        if vmIPs[i] == vmIP {
          return idOrder[k], false;
        }
      }
      assert vmIPs[..|vmIPs|] == vmIPs;
    }
    return "", false;
  }

  // ----- what the indexes hold

  lemma {:induction false} PutAllHolds(index: IpIndex, ips: seq<string>, vm: Server, ip: string)
    ensures ip in PutAll(index, ips, vm) <==> ip in ips || ip in index
    ensures ip in PutAll(index, ips, vm) ==> PutAll(index, ips, vm)[ip] == if ip in ips then vm else index[ip]
  {
    if ips == [] {
    } else {
      var front, last := ips[..|ips| - 1], ips[|ips| - 1];
      assert ips == front + [last];
      PutAllHolds(index, front, vm, ip);
    }
  }

  lemma {:induction false} PutNetworksHolds(index: IpIndex, networks: seq<seq<string>>, vm: Server, ip: string)
    ensures var owned := exists n :: 0 <= n < |networks| && ip in networks[n];
            var after := PutNetworks(index, networks, vm);
            && (ip in after <==> owned || ip in index)
            && (ip in after ==> after[ip] == if owned then vm else index[ip])
  {
    if networks == [] {
    } else {
      var front, last := networks[..|networks| - 1], networks[|networks| - 1];
      assert networks == front + [last];
      PutNetworksHolds(index, front, vm, ip);
      PutAllHolds(PutNetworks(index, front, vm), last, vm, ip);
      if n :| 0 <= n < |front| && ip in front[n] { assert ip in networks[n]; }
      assert forall n :: 0 <= n < |networks| && ip in networks[n] ==> n == |front| || ip in front[n];
    }
  }

  lemma PutServerHolds(index: IpIndex, vm: Server, ip: string)
    ensures var after := PutNetworks(index, vm.networks, vm);
            && (ip in after <==> Owns(vm, ip) || ip in index)
            && (ip in after ==> after[ip] == if Owns(vm, ip) then vm else index[ip])
  {
    PutNetworksHolds(index, vm.networks, vm, ip);
  }

  /** The last listed server that owns the address. */
  ghost predicate IsLastOwner(vms: seq<Server>, k: int, ip: string) {
    0 <= k < |vms| && Owns(vms[k], ip) && forall j :: k < j < |vms| ==> !Owns(vms[j], ip)
  }

  lemma LastOwnerOfSnoc(front: seq<Server>, last: Server, k: int, ip: string)
    ensures IsLastOwner(front + [last], k, ip) <==>
            if Owns(last, ip) then k == |front| else IsLastOwner(front, k, ip)
  {
    hide Owns;
    var vms := front + [last];
    assert vms[|front|] == last;
    assert forall j :: 0 <= j < |front| ==> vms[j] == front[j];
  }

  /** An address is in the index exactly when some listed server owns it, and leads to the last one. */
  lemma {:induction false} LastOwnerWins(vms: seq<Server>, ip: string)
    ensures ip in IpIndexOf(vms) <==> exists k :: IsLastOwner(vms, k, ip)
    ensures forall k :: IsLastOwner(vms, k, ip) ==> ip in IpIndexOf(vms) && IpIndexOf(vms)[ip] == vms[k]
  {
    hide Owns, PutNetworks, IsLastOwner;
    if vms == [] {
      NobodyOwns(ip);
    } else {
      var front, last := vms[..|vms| - 1], vms[|vms| - 1];
      assert vms == front + [last];
      LastOwnerWins(front, ip);
      PutServerHolds(IpIndexOf(front), last, ip);
      forall k ensures IsLastOwner(vms, k, ip) <==> if Owns(last, ip) then k == |front| else IsLastOwner(front, k, ip) {
        LastOwnerOfSnoc(front, last, k, ip);
      }
      assert Owns(last, ip) ==> IsLastOwner(vms, |front|, ip);
      forall k | IsLastOwner(front, k, ip) ensures 0 <= k < |front| && vms[k] == front[k] {
        OwnerIsListed(front, k, ip);
      }
    }
  }

  lemma NobodyOwns(ip: string)
    ensures forall k :: !IsLastOwner([], k, ip)
  {
  }

  lemma OwnerIsListed(vms: seq<Server>, k: int, ip: string)
    requires IsLastOwner(vms, k, ip)
    ensures 0 <= k < |vms|
  {
  }

  /** Every ID of the address index keeps exactly one address, one of its own: the last visited. */
  lemma {:induction false} IdIndexHolds(ips: IpIndex, order: seq<string>, id: string)
    requires forall k :: k in order ==> k in ips
    ensures var index := IdIndexOf(ips, order);
            && (id in index <==> exists k :: 0 <= k < |order| && ips[order[k]].id == id)
            && (id in index ==> exists k :: 0 <= k < |order| && ips[order[k]].id == id && index[id] == [order[k]])
  {
    if order == [] {
    } else {
      var front, last := order[..|order| - 1], order[|order| - 1];
      assert order == front + [last];
      IdIndexHolds(ips, front, id);
      if id in IdIndexOf(ips, front) {
        var k :| 0 <= k < |front| && ips[front[k]].id == id && IdIndexOf(ips, front)[id] == [front[k]];
        assert order[k] == front[k];
      }
      assert ips[order[|order| - 1]].id == ips[last].id;
      assert forall k :: 0 <= k < |order| && ips[order[k]].id == id ==> k == |front| || ips[front[k]].id == id;
    }
  }

  lemma {:induction false} SearchFinds(ids: IdIndex, order: seq<string>, ip: string)
    requires forall k :: k in order ==> k in ids
    ensures var r := Search(ids, order, ip);
            if exists k :: 0 <= k < |order| && ip in ids[order[k]] then r in order && ip in ids[r] else r == ""
  {
    if order != [] && ip !in ids[order[0]] {
      SearchFinds(ids, order[1..], ip);
      if k :| 0 <= k < |order| && ip in ids[order[k]] { assert order[1..][k - 1] == order[k]; }
      assert forall k :: 0 <= k < |order[1..]| ==> order[1..][k] == order[k + 1];
    }
  }

  // ----- main results: for every list of servers and every order of iteration

  ghost predicate IsVisit(vms: seq<Server>, order: seq<string>, idOrder: seq<string>) {
    && IsOrder(order, IpIndexOf(vms).Keys)
    && (forall k :: k in order ==> k in IpIndexOf(vms))
    && IsOrder(idOrder, IdIndexOf(IpIndexOf(vms), order).Keys)
  }

  function Direct(vms: seq<Server>, ip: string): string {
    if ip in IpIndexOf(vms) then IpIndexOf(vms)[ip].id else ""
  }

  /** The lookup returns the ID that the address index holds, if that ID kept this very address, and
      the empty string otherwise. */
  lemma LookupExactly(vms: seq<Server>, order: seq<string>, idOrder: seq<string>, ip: string)
    requires IsVisit(vms, order, idOrder)
    ensures var ips := IpIndexOf(vms);
            var ids := IdIndexOf(ips, order);
            && (ip in ips ==> ips[ip].id in ids)
            && Lookup(vms, order, idOrder, ip) ==
               if ip in ips && ids[ips[ip].id] == [ip] then ips[ip].id else ""
  {
    hide IpIndexOf, IdIndexOf;
    var ips := IpIndexOf(vms);
    var ids := IdIndexOf(ips, order);
    SearchFinds(ids, idOrder, ip);
    if ip in ips {
      assert ip in order;
      var k :| 0 <= k < |order| && order[k] == ip;
      IdIndexHolds(ips, order, ips[ip].id);
      assert ips[ip].id in idOrder;
    }
    var r := Search(ids, idOrder, ip);
    if k :| 0 <= k < |idOrder| && ip in ids[idOrder[k]] {
      IdIndexHolds(ips, order, r);
      assert ids[r] == [ip];
    }
  }

  /** The lookup returns the empty string or the ID of the last listed server with that address. */
  lemma LookupIsSound(vms: seq<Server>, order: seq<string>, idOrder: seq<string>, ip: string)
    requires IsVisit(vms, order, idOrder)
    ensures var id := Lookup(vms, order, idOrder, ip);
            id == "" || exists k :: IsLastOwner(vms, k, ip) && id == vms[k].id
  {
    LookupExactly(vms, order, idOrder, ip);
    LastOwnerWins(vms, ip);
  }

  /** Of the addresses in the index that belong to one ID exactly one resolves to it. */
  lemma OneAddressResolves(vms: seq<Server>, order: seq<string>, idOrder: seq<string>, owned: string)
    requires IsVisit(vms, order, idOrder)
    requires owned in IpIndexOf(vms) && IpIndexOf(vms)[owned].id != ""
    ensures var id := IpIndexOf(vms)[owned].id;
            exists ip :: Lookup(vms, order, idOrder, ip) == id
                         && forall other :: Lookup(vms, order, idOrder, other) == id ==> other == ip
  {
    hide Lookup, IpIndexOf, IdIndexOf;
    var ips := IpIndexOf(vms);
    var id := ips[owned].id;
    LookupExactly(vms, order, idOrder, owned);
    IdIndexHolds(ips, order, id);
    var k :| 0 <= k < |order| && ips[order[k]].id == id && IdIndexOf(ips, order)[id] == [order[k]];
    var ip := order[k];
    assert ip in order;
    LookupExactly(vms, order, idOrder, ip);
    forall other | Lookup(vms, order, idOrder, other) == id ensures other == ip {
      LookupExactly(vms, order, idOrder, other);
      assert [other][0] == [ip][0];
    }
  }

  /** No ID owns two entries of the address index. */
  ghost predicate OwnSingleEntries(ips: IpIndex) {
    forall a, b :: a in ips && b in ips && ips[a].id == ips[b].id && ips[a].id != "" ==> a == b
  }

  ghost predicate AgreesAt(vms: seq<Server>, order: seq<string>, idOrder: seq<string>, ip: string)
    requires IsVisit(vms, order, idOrder)
  {
    Lookup(vms, order, idOrder, ip) == Direct(vms, ip)
  }

  lemma SingleEntryIsFound(vms: seq<Server>, order: seq<string>, idOrder: seq<string>, ip: string)
    requires IsVisit(vms, order, idOrder) && OwnSingleEntries(IpIndexOf(vms))
    ensures AgreesAt(vms, order, idOrder, ip)
  {
    hide Lookup, IpIndexOf, IdIndexOf;
    var ips := IpIndexOf(vms);
    LookupExactly(vms, order, idOrder, ip);
    if ip in ips && ips[ip].id != "" {
      IdIndexHolds(ips, order, ips[ip].id);
      var k :| 0 <= k < |order| && ips[order[k]].id == ips[ip].id && IdIndexOf(ips, order)[ips[ip].id] == [order[k]];
      assert order[k] in order;
      assert order[k] == ip;
    }
  }

  lemma FoundEntriesAreOne(vms: seq<Server>, order: seq<string>, idOrder: seq<string>, a: string, b: string)
    requires IsVisit(vms, order, idOrder) && AgreesAt(vms, order, idOrder, a) && AgreesAt(vms, order, idOrder, b)
    requires a in IpIndexOf(vms) && b in IpIndexOf(vms)
    requires IpIndexOf(vms)[a].id == IpIndexOf(vms)[b].id && IpIndexOf(vms)[a].id != ""
    ensures a == b
  {
    hide Lookup, IpIndexOf, IdIndexOf;
    LookupExactly(vms, order, idOrder, a);
    LookupExactly(vms, order, idOrder, b);
    assert [a][0] == [b][0];
  }

  /** The lookup agrees with the address index on all addresses if and only if no ID owns two of its
      entries. */
  lemma AgreesExactlyWhenSingle(vms: seq<Server>, order: seq<string>, idOrder: seq<string>)
    requires IsVisit(vms, order, idOrder)
    ensures (forall ip :: AgreesAt(vms, order, idOrder, ip)) <==> OwnSingleEntries(IpIndexOf(vms))
  {
    hide AgreesAt, IpIndexOf, IsVisit;
    if forall ip :: AgreesAt(vms, order, idOrder, ip) {
      var ips := IpIndexOf(vms);
      forall a, b | a in ips && b in ips && ips[a].id == ips[b].id && ips[a].id != "" ensures a == b {
        FoundEntriesAreOne(vms, order, idOrder, a, b);
      }
    }
    if OwnSingleEntries(IpIndexOf(vms)) {
      forall ip ensures AgreesAt(vms, order, idOrder, ip) {
        SingleEntryIsFound(vms, order, idOrder, ip);
      }
    }
  }
}
