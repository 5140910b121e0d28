/**
 BackendRouter of src/simple-dnsd/backend/router.cpp over any list of backends.
 */
module Router {
  import opened DnsNames
  import opened NameCodec
  import opened Records
  import opened Store
  import opened MemoryBackends

  // ---- The router ---------------------------------------------------------------

  predicate AllKeyed(zs: seq<Zones>) {
    forall i :: 0 <= i < |zs| ==> Keyed(zs[i])
  }

  /** The loop of findZone: a later backend wins only with strictly more labels. */
  function RouterFound(zs: seq<Zones>, q: Name): Option<ZoneInfo> {
    if zs == [] then None
    else
      var best := RouterFound(zs[..|zs| - 1], q);
      var z := FoundZone(zs[|zs| - 1], q);
      if z.None? || (best.Some? && |z.value.info.name| <= |best.value.name|) then best else Some(z.value.info)
  }

  /** Whether a backend lists a zone equal to name. */
  predicate Lists(zones: Zones, name: Name) {
    exists k :: k in zones && Same(zones[k].info.name, name)
  }

  /** The first backend that lists the zone; |zs| when there is none. */
  function OwnerIndex(zs: seq<Zones>, name: Name): (i: nat)
    ensures i <= |zs|
    ensures i < |zs| ==> Lists(zs[i], name)
    ensures forall j :: 0 <= j < i ==> !Lists(zs[j], name)
  {
    if zs == [] || Lists(zs[0], name) then 0 else 1 + OwnerIndex(zs[1..], name)
  }

  /** The records of the zone in the backend that owns it. */
  function OwnedRecords(zs: seq<Zones>, info: ZoneInfo): Rrs {
    var i := OwnerIndex(zs, info.name);
    if i == |zs| then [] else RecordsOf(zs[i], info)
  }

  /** The zone found for q, with the records that its owner holds. */
  function View(zs: seq<Zones>, q: Name): Option<MemZone> {
    var r := RouterFound(zs, q);
    if r.None? then None else Some(MemZone(r.value, OwnedRecords(zs, r.value)))
  }

  class BackendRouter {
    var backends: seq<MemoryBackend>

    ghost function Tables(): (zs: seq<Zones>)
      reads this, backends
      ensures |zs| == |backends|
      ensures forall i :: 0 <= i < |zs| ==> zs[i] == backends[i].zones
    {
      seq(|backends|, i requires 0 <= i < |backends| reads this, backends => backends[i].zones)
    }

    constructor ()
      ensures backends == []
    {
      backends := [];
    }

    method Add(b: MemoryBackend)
      modifies this
      ensures backends == old(backends) + [b]
    {
      backends := backends + [b];
    }

    method FindZone(q: Name) returns (best: Option<ZoneInfo>)
      requires AllKeyed(Tables())
      ensures best == RouterFound(Tables(), q)
    {
      hide FoundZone, Keyed;
      best := None;
      for i := 0 to |backends|
        invariant best == RouterFound(Tables()[..i], q)
      {
        assert Tables()[..i + 1][..i] == Tables()[..i] && Tables()[..i + 1][i] == backends[i].zones;
        var z := backends[i].FindZone(q);
        if z.Some? {
          if best.None? || |z.value.name| > |best.value.name| {
            best := z;
          }
        }
      }
      assert Tables()[..|backends|] == Tables();
    }

    method OwnerOf(info: ZoneInfo) returns (i: nat)
      ensures i == OwnerIndex(Tables(), info.name)
    {
      hide Lists, OwnerIndex;
      for k := 0 to |backends|
        invariant forall j :: 0 <= j < k ==> !Lists(Tables()[j], info.name)
      {
        var listed := ListedBy(backends[k], info.name);
        if listed {
          FirstIsOwner(Tables(), info.name, k);
          return k;
        }
      }
      FirstIsOwner(Tables(), info.name, |backends|);
      return |backends|;
    }

    static method ListedBy(b: MemoryBackend, name: Name) returns (r: bool)
      ensures r == Lists(b.zones, name)
    {
      var zones := b.ListZones();
      for n := 0 to |zones|
        invariant forall m :: 0 <= m < n ==> !Same(zones[m].name, name)
      {
        var same := Equals(zones[n].name, name);
        if same {
          assert zones[n] in zones;
          return true;
        }
      }
      forall k | k in b.zones ensures !Same(b.zones[k].info.name, name) {
        assert b.zones[k].info in zones;
      }
      return false;
    }

    /** The delegating searches: nothing when no backend owns the zone. */
    method Lookup(info: ZoneInfo, q: Name, t: U16) returns (out: Rrs)
      ensures out == LookedUp(OwnedRecords(Tables(), info), q, t)
    {
      hide Key, OwnerIndex;
      var i := OwnerOf(info);
      if i == |backends| {
        return [];
      }
      out := backends[i].Lookup(info, q, t);
    }

    method ListZone(info: ZoneInfo) returns (out: Rrs)
      ensures out == OwnedRecords(Tables(), info)
    {
      hide Key, OwnerIndex;
      var i := OwnerOf(info);
      out := if i == |backends| then [] else RecordsOf(backends[i].zones, info);
    }

    method NameExists(info: ZoneInfo, q: Name) returns (r: bool)
      ensures r == NameOwned(OwnedRecords(Tables(), info), q)
    {
      hide Key, OwnerIndex;
      var i := OwnerOf(info);
      if i == |backends| {
        return false;
      }
      r := backends[i].NameExists(info, q);
    }

    method FindDelegation(info: ZoneInfo, q: Name) returns (r: Option<Name>)
      ensures var i := OwnerIndex(Tables(), info.name);
              r == if i < |backends| && Key(info.name) in backends[i].zones
                   then Cut(OwnedRecords(Tables(), info), info.name, q) else None
    {
      hide Key, OwnerIndex;
      var i := OwnerOf(info);
      if i == |backends| {
        return None;
      }
      r := backends[i].FindDelegation(info, q);
    }
  }

  lemma {:induction false} FirstIsOwner(zs: seq<Zones>, name: Name, k: nat)
    requires k <= |zs| && forall j :: 0 <= j < k ==> !Lists(zs[j], name)
    requires k < |zs| ==> Lists(zs[k], name)
    ensures OwnerIndex(zs, name) == k
  {
    hide Lists;
    var i := OwnerIndex(zs, name);
    assert i < |zs| ==> Lists(zs[i], name);
  }

  /** The backend at i supplied r: it found r, and every other result has fewer labels, or as few and comes later. */
  ghost predicate Supplies(zs: seq<Zones>, q: Name, r: ZoneInfo, i: nat) {
    && i < |zs| && InfoOf(FoundZone(zs[i], q)) == Some(r)
    && (forall j :: 0 <= j < |zs| && FoundZone(zs[j], q).Some? ==>
          |FoundZone(zs[j], q).value.info.name| <= |r.name|)
    && (forall j :: 0 <= j < i && FoundZone(zs[j], q).Some? ==>
          |FoundZone(zs[j], q).value.info.name| < |r.name|)
  }

  lemma {:induction false} RouterSupplier(zs: seq<Zones>, q: Name)
    ensures var r := RouterFound(zs, q);
      if r.None? then forall j :: 0 <= j < |zs| ==> FoundZone(zs[j], q).None?
      else exists i: nat :: Supplies(zs, q, r.value, i)
  {
    hide FoundZone;
    if zs != [] {
      var n := |zs| - 1;
      var init := zs[..n];
      RouterSupplier(init, q);
      var best, z := RouterFound(init, q), FoundZone(zs[n], q);
      if best.Some? {
        var i: nat :| Supplies(init, q, best.value, i);
        assert init[i] == zs[i];
        if z.Some? && |z.value.info.name| > |best.value.name| {
          assert Supplies(zs, q, z.value.info, n);
        } else {
          assert Supplies(zs, q, best.value, i);
        }
      } else if z.Some? {
        assert Supplies(zs, q, z.value.info, n);
      }
    }
  }

  /** A backend that lists an equal name cannot find less than that name. */
  lemma ListedIsFound(zones: Zones, q: Name, name: Name)
    requires Keyed(zones) && Lists(zones, name) && IsSubdomainOf(q, name)
    ensures FoundZone(zones, q).Some? && |FoundZone(zones, q).value.info.name| >= |name|
  {
    hide Key, FoundZone;
    FoundIsLongest(zones, q);
    var k :| k in zones && Same(zones[k].info.name, name);
    var own := zones[k].info.name;
    assert |own| == |LowerName(own)| == |LowerName(name)| == |name|;
    assert IsSubdomainOf(q, own);
  }

  /**
   Router consistency: the zone found is the longest match over all zones of all backends,
   and the backend that ownerOf picks for it is the very one that supplied it.
   */
  lemma OwnerIsSupplier(zs: seq<Zones>, q: Name)
    requires AllKeyed(zs)
    ensures var r := RouterFound(zs, q);
      && (forall i, k :: 0 <= i < |zs| && k in zs[i] && IsSubdomainOf(q, zs[i][k].info.name) ==>
            r.Some? && |zs[i][k].info.name| <= |r.value.name|)
      && (r.Some? ==>
            && IsSubdomainOf(q, r.value.name)
            && OwnerIndex(zs, r.value.name) < |zs|
            && Supplies(zs, q, r.value, OwnerIndex(zs, r.value.name))
            && Stored(zs[OwnerIndex(zs, r.value.name)], r.value) == FoundZone(zs[OwnerIndex(zs, r.value.name)], q))
  {
    hide Key, FoundZone, Keyed, Lists, IsSubdomainOf;
    RouterSupplier(zs, q);
    var r := RouterFound(zs, q);
    forall i, k | 0 <= i < |zs| && k in zs[i] && IsSubdomainOf(q, zs[i][k].info.name)
      ensures r.Some? && |zs[i][k].info.name| <= |r.value.name|
    {
      FoundIsLongest(zs[i], q);
    }
    if r.Some? {
      var i: nat :| Supplies(zs, q, r.value, i);
      FoundIsLongest(zs[i], q);
      FoundIsListed(zs[i], q);
      forall j | 0 <= j < i ensures !Lists(zs[j], r.value.name) {
        if Lists(zs[j], r.value.name) { ListedIsFound(zs[j], q, r.value.name); }
      }
      FirstIsOwner(zs, r.value.name, i);
      StoredIsFound(zs[i], q);
    }
  }

  /** So all the searches of one query read the zone that was found, in one backend. */
  lemma ViewIsSupplied(zs: seq<Zones>, q: Name)
    requires AllKeyed(zs) && View(zs, q).Some?
    ensures var i := OwnerIndex(zs, View(zs, q).value.info.name);
      && i < |zs| && FoundZone(zs[i], q) == View(zs, q) && Stored(zs[i], View(zs, q).value.info) == View(zs, q)
      && IsSubdomainOf(q, View(zs, q).value.info.name)
  {
    hide Key, FoundZone, Keyed, Lists, IsSubdomainOf, OwnerIndex;
    OwnerIsSupplier(zs, q);
  }

  lemma FoundIsListed(zones: Zones, q: Name)
    requires Keyed(zones) && FoundZone(zones, q).Some?
    ensures Lists(zones, FoundZone(zones, q).value.info.name)
  {
    hide FoundZone, Key;
    FoundIsLongest(zones, q);
    var name := FoundZone(zones, q).value.info.name;
    assert Same(zones[Key(name)].info.name, name);
  }
}
