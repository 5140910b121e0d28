/**
 BackendRouter::copyZone of src/simple-dnsd/backend/router.cpp into a memory backend.
 */
module CopyZone {
  import opened DnsNames
  import opened Records
  import opened Numbers
  import opened Rdata
  import opened Store
  import opened MemoryBackends
  import opened Transactions
  import opened Router
  import opened Transfer
  import opened Replication

  /** The first SOA record of the listing, or a blank one. */
  function FirstSoa(rrs: Rrs): ResourceRecord {
    if rrs == [] then BLANK else if IsSoa(rrs[0]) then rrs[0] else FirstSoa(rrs[1..])
  }

  /** Create the zone with its SOA, then add everything else in a transaction. */
  function Copied(ntop: Ntop, pton: Pton, rrs: Rrs, from: ZoneInfo, dest: Zones): Outcome<Change> {
    match Created(ntop, pton, dest, from.(id := -1), FirstSoa(rrs))
    case Throws => Throws
    case Returns(c) =>
      if !c.ok then Returns(c)
      else
        var z := FoundZone(c.zones, from.name);
        if z.None? then Returns(Change(c.zones, false))
        else
          var name := z.value.info.name;
          var u := Committed(ntop, pton, name, z.value.records, QueuedAll(NOTHING, AddsFor(NotSoa(rrs))));
          if u.threw then Throws
          else Returns(Change(c.zones[Key(name) := z.value.(records := u.records)], true))
  }

  method Copy(ntop: Ntop, pton: Pton, router: BackendRouter, from: ZoneInfo, dest: MemoryBackend)
    returns (ok: bool, threw: bool)
    requires Keyed(dest.zones) && dest !in router.backends
    modifies dest
    ensures match Copied(ntop, pton, OwnedRecords(router.Tables(), from), from, old(dest.zones))
            case Throws => threw
            case Returns(c) => !threw && ok == c.ok && dest.zones == c.zones
  {
    hide Key, OwnedRecords, Created, FoundZone, Committed, QueuedAll, Keyed;
    var rrs := router.ListZone(from);
    var soa := FindFirstSoa(rrs);
    CreatedKeepsOthers(ntop, pton, dest.zones, from.(id := -1), soa, from.name);
    ok, threw := dest.CreateZone(ntop, pton, from.(id := -1), soa);
    if threw || !ok {
      return;
    }
    var z := dest.FindZone(from.name);
    if z.None? {
      return false, false;
    }
    StoredIsFound(dest.zones, from.name);
    var tx := new MemoryTransaction(dest, Key(z.value.name));
    var rest := DropSoas(rrs);
    QueueAdds(tx, rest);
    threw := tx.Commit(ntop, pton);
  }

  method FindFirstSoa(rrs: Rrs) returns (soa: ResourceRecord)
    ensures soa == FirstSoa(rrs)
  {
    for i := 0 to |rrs|
      invariant FirstSoa(rrs) == FirstSoa(rrs[i..])
    {
      assert rrs[i..][0] == rrs[i] && rrs[i..][1..] == rrs[i + 1..];
      if rrs[i].rtype == TYPE_SOA {
        return rrs[i];
      }
    }
    return BLANK;
  }

  method DropSoas(rrs: Rrs) returns (rest: Rrs)
    ensures rest == NotSoa(rrs)
  {
    var soa;
    soa, rest := SplitSoa(rrs);
  }

  lemma {:induction false} FirstSoaIn(rrs: Rrs)
    ensures SoaCount(rrs) > 0 ==> FirstSoa(rrs) in Kept(rrs, IsSoa)
    ensures SoaCount(rrs) == 0 ==> FirstSoa(rrs) == BLANK
    decreases |rrs|
  {
    hide IsSoa;
    if rrs != [] {
      FirstSoaIn(rrs[1..]);
      KeptHead(rrs, IsSoa);
    }
  }

  /** The copy as a list: the SOA under the zone's name, then all that is no SOA. */
  function CopyOf(name: Name, rrs: Rrs): Rrs {
    [FirstSoa(rrs).(name := name, rtype := TYPE_SOA)] + NotSoa(rrs)
  }

  /**
   Copying into a backend that has the zone already changes nothing; otherwise it throws exactly
   if some record of the copy cannot be filled, and else leaves the filled copy and all other
   zones as they were.
   */
  lemma CopyExactly(ntop: Ntop, pton: Pton, rrs: Rrs, from: ZoneInfo, dest: Zones)
    requires Keyed(dest)
    ensures var c := Copied(ntop, pton, rrs, from, dest);
      if Key(from.name) in dest then c == Returns(Change(dest, false))
      else
        && (c.Throws? <==> SomeUnfillable(ntop, pton, CopyOf(from.name, rrs)))
        && (c.Returns? ==>
              && c.value.ok && c.value.zones.Keys == dest.Keys + {Key(from.name)}
              && FilledInto(ntop, pton, CopyOf(from.name, rrs), c.value.zones[Key(from.name)].records)
              && (forall k :: k in dest ==> c.value.zones[k] == dest[k]))
  {
    hide Key, FoundZone, Committed, QueuedAll, FirstSoa, NotSoa, Filled, FilledInto, SomeUnfillable;
    if Key(from.name) !in dest {
      var soa := FirstSoa(rrs).(name := from.name, rtype := TYPE_SOA);
      UnfillableIn(ntop, pton, soa, NotSoa(rrs));
      var c := Created(ntop, pton, dest, from.(id := -1), FirstSoa(rrs));
      if c.Returns? {
        CreatedKeepsOthers(ntop, pton, dest, from.(id := -1), FirstSoa(rrs), from.name);
        FoundIsLongest(c.value.zones, from.name);
        var z := FoundZone(c.value.zones, from.name).value;
        CopyCommitted(ntop, pton, z.info.name, z.records[0], soa, rrs);
      }
    }
  }

  lemma CopyCommitted(ntop: Ntop, pton: Pton, zone: Name, first: ResourceRecord, soa: ResourceRecord, rrs: Rrs)
    requires Filled(ntop, pton, soa) == Returns(first)
    ensures var u := Committed(ntop, pton, zone, [first], QueuedAll(NOTHING, AddsFor(NotSoa(rrs))));
      && (u.threw <==> SomeUnfillable(ntop, pton, NotSoa(rrs)))
      && (!u.threw ==> FilledInto(ntop, pton, [soa] + NotSoa(rrs), u.records))
  {
    hide QueuedAll, NotSoa, Extended, SomeUnfillable, WithoutAll, Filled, FilledInto;
    var rest := NotSoa(rrs);
    AddsQueued(rest);
    NothingDeleted([first]);
    ExtendedFills(ntop, pton, [first], rest);
    var e := Extended(ntop, pton, [first], rest);
    if !e.threw {
      assert e.records == [first] + e.records[1..];
      FilledBehind(ntop, pton, soa, first, rest, e.records[1..]);
    }
  }

  lemma AddsQueued(rest: Rrs)
    ensures QueuedAll(NOTHING, AddsFor(rest)) == Pending(rest, [], false, None)
  {
    hide QueuedAll, AllAdds, AllDeletions;
    AddsForAll(rest);
    QueuedIsAll(NOTHING, AddsFor(rest));
    assert [] + rest == rest;
  }

  lemma FilledBehind(ntop: Ntop, pton: Pton, soa: ResourceRecord, first: ResourceRecord, rest: Rrs, filled: Rrs)
    requires Filled(ntop, pton, soa) == Returns(first) && FilledInto(ntop, pton, rest, filled)
    ensures FilledInto(ntop, pton, [soa] + rest, [first] + filled)
  {
    hide Filled;
  }

  /**
   The list that is copied is a permutation of the source if and only if the source has one
   SOA and owns it by the zone's very name; records that carry rdata are copied as they are.
   */
  lemma CopyIsPermutation(ntop: Ntop, pton: Pton, rrs: Rrs, name: Name)
    ensures multiset(CopyOf(name, rrs)) == multiset(rrs) <==> SoaCount(rrs) == 1 && FirstSoa(rrs).name == name
    ensures forall filled: Rrs :: HasRdata(CopyOf(name, rrs)) && FilledInto(ntop, pton, CopyOf(name, rrs), filled)
              ==> filled == CopyOf(name, rrs)
  {
    hide Kept, FirstSoa, NotSoa, ContentToRdata;
    SoaSplit(rrs);
    FirstSoaIn(rrs);
    var soa := FirstSoa(rrs);
    var copy := soa.(name := name, rtype := TYPE_SOA);
    var l := CopyOf(name, rrs);
    assert multiset(l) == multiset{copy} + multiset(NotSoa(rrs));
    if SoaCount(rrs) == 1 {
      KeptIn(rrs, IsSoa, soa);
      assert Kept(rrs, IsSoa) == [soa];
      assert multiset(rrs) == multiset{soa} + multiset(NotSoa(rrs));
      OneSwapped(copy, soa, multiset(NotSoa(rrs)));
    } else {
      assert |multiset(l)| == |l| != |rrs| == |multiset(rrs)|;
    }
  }

  lemma OneSwapped(a: ResourceRecord, b: ResourceRecord, m: multiset<ResourceRecord>)
    ensures multiset{a} + m == multiset{b} + m <==> a == b
  {
    if a != b {
      assert (multiset{a} + m)[a] == m[a] + 1 && (multiset{b} + m)[a] == m[a];
    }
  }
}
