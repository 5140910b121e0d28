/**
 MemoryBackend of src/simple-dnsd/backend/memory.cpp: its loops, proved equal to the
 searches of Store, and its changes to the zone table.
 */
module MemoryBackends {
  import opened DnsNames
  import opened NameCodec
  import opened Records
  import opened Numbers
  import opened Rdata
  import opened Store

  // ---- Changes to the zone table ----------------------------------------------

  datatype Change = Change(zones: Zones, ok: bool)

  /** A record whose rdata is missing gets it from its text; whether that works is not checked. */
  function Filled(ntop: Ntop, pton: Pton, rr: ResourceRecord): Outcome<ResourceRecord> {
    if rr.rdata != [] then Returns(rr)
    else
      match ContentToRdata(ntop, pton, rr)
      case Throws => Throws
      case Returns(c) => Returns(c.rr)
  }

  /** createZone: a zone of that name must not exist; the new one holds its SOA record alone. */
  function Created(ntop: Ntop, pton: Pton, zones: Zones, info: ZoneInfo, soa: ResourceRecord): Outcome<Change> {
    if Key(info.name) in zones then Returns(Change(zones, false))
    else
      match Filled(ntop, pton, soa.(name := info.name, rtype := TYPE_SOA))
      case Throws => Throws
      case Returns(s) =>
        Returns(Change(zones[Key(info.name) := MemZone(info.(id := |zones| + 1), [s])], true))
  }

  /** Creating and deleting keep every zone under its own key and leave the other zones alone. */
  lemma CreatedKeepsOthers(ntop: Ntop, pton: Pton, zones: Zones, info: ZoneInfo, soa: ResourceRecord, q: Name)
    requires Keyed(zones)
    ensures var c := Created(ntop, pton, zones, info, soa);
      c.Returns? ==>
        && Keyed(c.value.zones)
        && (!IsSubdomainOf(q, info.name) ==> FoundZone(c.value.zones, q) == FoundZone(zones, q))
        && (c.value.ok ==> FoundZone(c.value.zones, info.name).Some?
                           && FoundZone(c.value.zones, info.name).value.info.name == info.name)
  {
    hide Key, Filled, IsSubdomainOf;
    var c := Created(ntop, pton, zones, info, soa);
    if c.Returns? && c.value.ok && !IsSubdomainOf(q, info.name) {
      UnrelatedZone(zones, c.value.zones, info.name, q);
    }
  }

  lemma {:induction false} UnrelatedZone(zones: Zones, more: Zones, name: Name, q: Name)
    requires Key(name) !in zones && more.Keys == zones.Keys + {Key(name)}
    requires forall k :: k in zones ==> more[k] == zones[k]
    requires more[Key(name)].info.name == name && !IsSubdomainOf(q, name)
    ensures FoundZone(more, q) == FoundZone(zones, q)
    decreases |q|
  {
    hide Key;
    if Key(q) == Key(name) && Same(name, q) {
      SameSymmetric(name, q);
      EqualIsSubdomain(q, name);
    }
    if q != ROOT {
      NotBelow(q, name);
      UnrelatedZone(zones, more, name, q[1..]);
    }
  }

  lemma NotBelow(q: Name, name: Name)
    requires q != ROOT && !IsSubdomainOf(q, name)
    ensures !IsSubdomainOf(q[1..], name)
  {
    var up := q[1..];
    if |up| >= |name| { assert q[|q| - |name|..] == up[|up| - |name|..]; }
  }

  function InfoOf(z: Option<MemZone>): Option<ZoneInfo> {
    if z.None? then None else Some(z.value.info)
  }

  /** get(zone). */
  function Stored(zones: Zones, info: ZoneInfo): Option<MemZone> {
    if Key(info.name) in zones then Some(zones[Key(info.name)]) else None
  }

  function RecordsOf(zones: Zones, info: ZoneInfo): Rrs {
    if Key(info.name) in zones then zones[Key(info.name)].records else []
  }

  /** The zone a search found is the one that get finds again. */
  lemma StoredIsFound(zones: Zones, q: Name)
    requires Keyed(zones) && FoundZone(zones, q).Some?
    ensures Stored(zones, FoundZone(zones, q).value.info) == FoundZone(zones, q)
  {
    hide Key;
    FoundIsLongest(zones, q);
  }

  class MemoryBackend {
    var zones: Zones

    constructor ()
      ensures zones == map[] && Keyed(zones)
    {
      zones := map[];
    }

    /** The scan, in whatever order the zones come, finds the longest match. */
    method FindZone(q: Name) returns (r: Option<ZoneInfo>)
      requires Keyed(zones)
      ensures r == InfoOf(FoundZone(zones, q))
    {
      hide Key, FoundZone, IsSubdomainOf;
      var best: Option<MemZone> := None;
      var bestLabels := 0;
      var rest := zones.Keys;
      while rest != {}
        invariant rest <= zones.Keys
        invariant best.None? ==> bestLabels == 0
        invariant best.None? ==> forall k :: k in zones && k !in rest ==> !IsSubdomainOf(q, zones[k].info.name)
        invariant best.Some? ==> bestLabels == |best.value.info.name| && IsSubdomainOf(q, best.value.info.name)
        invariant best.Some? ==> Key(best.value.info.name) in zones && zones[Key(best.value.info.name)] == best.value
        invariant forall k :: k in zones && k !in rest && IsSubdomainOf(q, zones[k].info.name)
                              ==> |zones[k].info.name| <= bestLabels
        decreases |rest|
      {
        var key :| key in rest;
        rest := rest - {key};
        var z := zones[key];
        var below := CheckSubdomain(q, z.info.name);
        if below && |z.info.name| >= bestLabels {
          bestLabels := |z.info.name|;
          best := Some(z);
        }
      }
      FoundIsLongest(zones, q);
      LongestIsUnique(zones, q, best, FoundZone(zones, q));
      return InfoOf(best);
    }

    method ListZones() returns (out: seq<ZoneInfo>)
      ensures forall z :: z in out <==> (exists k :: k in zones && zones[k].info == z)
    {
      out := [];
      var rest := zones.Keys;
      while rest != {}
        invariant rest <= zones.Keys
        invariant forall z :: z in out <==> (exists k :: k in zones && k !in rest && zones[k].info == z)
        decreases |rest|
      {
        var key :| key in rest;
        rest := rest - {key};
        out := out + [zones[key].info];
      }
    }

    method Lookup(info: ZoneInfo, q: Name, t: U16) returns (out: Rrs)
      ensures out == LookedUp(RecordsOf(zones, info), q, t)
    {
      hide Key;
      out := [];
      var rrs := RecordsOf(zones, info);
      ghost var p := (rr: ResourceRecord) => Answers(rr, q, t);
      for i := 0 to |rrs|
        invariant out == Kept(rrs[..i], p)
      {
        assert rrs[..i + 1][..i] == rrs[..i] && rrs[..i + 1][i] == rrs[i];
        var same := Equals(rrs[i].name, q);
        if !rrs[i].disabled && same && (t == TYPE_ANY || rrs[i].rtype == t) {
          out := out + [rrs[i]];
        }
      }
      assert rrs[..|rrs|] == rrs;
      KeptSame(rrs, p, rr => Answers(rr, q, t));
    }

    method NameExists(info: ZoneInfo, q: Name) returns (r: bool)
      ensures r == NameOwned(RecordsOf(zones, info), q)
    {
      hide Key;
      var rrs := RecordsOf(zones, info);
      for i := 0 to |rrs|
        invariant forall k :: 0 <= k < i ==> !IsSubdomainOf(rrs[k].name, q)
      {
        var same := Equals(rrs[i].name, q);
        if same {
          EqualIsSubdomain(rrs[i].name, q);
          return true;
        }
        var below := CheckSubdomain(rrs[i].name, q);
        if below {
          return true;
        }
      }
      return false;
    }

    method FindDelegation(info: ZoneInfo, q: Name) returns (r: Option<Name>)
      ensures r == if Key(info.name) in zones then Cut(RecordsOf(zones, info), info.name, q) else None
    {
      hide Key, HasNs;
      if Key(info.name) !in zones {
        return None;
      }
      var rrs := RecordsOf(zones, info);
      var cur := q;
      var apex := Equals(cur, info.name);
      while !apex && cur != ROOT
        invariant apex == Same(cur, info.name)
        invariant Cut(rrs, info.name, q) == Cut(rrs, info.name, cur)
        decreases |cur|
      {
        var has := HasNsRecord(rrs, cur);
        if has {
          return Some(cur);
        }
        assert Parent(cur) == cur[1..];
        cur := Parent(cur);
        apex := Equals(cur, info.name);
      }
      return None;
    }

    static method HasNsRecord(rrs: Rrs, q: Name) returns (r: bool)
      ensures r == HasNs(rrs, q)
    {
      for i := 0 to |rrs|
        invariant forall k :: 0 <= k < i ==> !(rrs[k].rtype == TYPE_NS && Same(rrs[k].name, q))
      {
        var same := Equals(rrs[i].name, q);
        if same && rrs[i].rtype == TYPE_NS {
          return true;
        }
      }
      return false;
    }

    /** `threw` stands for an exception of the conversion, which leaves the table alone. */
    method CreateZone(ntop: Ntop, pton: Pton, info: ZoneInfo, soa: ResourceRecord) returns (ok: bool, threw: bool)
      modifies this
      ensures match Created(ntop, pton, old(zones), info, soa)
              case Throws => threw && zones == old(zones)
              case Returns(c) => !threw && ok == c.ok && zones == c.zones
    {
      hide Key, ContentToRdata;
      ok, threw := false, false;
      if Key(info.name) in zones {
        return;
      }
      var s := soa.(name := info.name, rtype := TYPE_SOA);
      if s.rdata == [] {
        match ContentToRdata(ntop, pton, s) {
          case Throws => return false, true;
          case Returns(c) => s := c.rr;
        }
      }
      zones := zones[Key(info.name) := MemZone(info.(id := |zones| + 1), [s])];
      ok := true;
    }

    method DeleteZone(info: ZoneInfo) returns (ok: bool)
      requires Keyed(zones)
      modifies this
      ensures zones == old(zones) - {Key(info.name)} && Keyed(zones)
      ensures ok == (Key(info.name) in old(zones))
    {
      hide Key;
      ok := Key(info.name) in zones;
      zones := zones - {Key(info.name)};
    }
  }
}
