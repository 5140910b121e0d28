/**
 What a dynamic update does to the records of a zone, told by the update records themselves:
 which old records go, which stay, and what stands behind them.
 */
module UpdateEffects {
  import opened Text
  import opened DnsNames
  import opened NameCodec
  import opened Records
  import opened Numbers
  import opened Rdata
  import opened Serials
  import opened Store
  import opened MemoryBackends
  import opened Transactions
  import opened Updates

  // ---- What an update record asks for -------------------------------------------------

  /** Class ANY with type ANY takes every record of the name; a type, or class NONE, takes the set of the type. */
  predicate Takes(u: ResourceRecord, rr: ResourceRecord) {
    && Same(rr.name, u.name)
    && ((u.rclass == 255 && u.rdata == [] && (u.rtype == 255 || u.rtype == rr.rtype))
        || (u.rclass == 254 && u.rtype == rr.rtype))
  }

  predicate TakenByAny(updates: Rrs, rr: ResourceRecord) {
    exists i :: 0 <= i < |updates| && Takes(updates[i], rr)
  }

  /** The records that no update takes, in their order. */
  function Staying(updates: Rrs, rrs: Rrs): Rrs {
    if rrs == [] then []
    else (if TakenByAny(updates, rrs[0]) then [] else [rrs[0]]) + Staying(updates, rrs[1..])
  }

  /** The updates that take nothing, in their order. */
  function Arriving(updates: Rrs): Rrs {
    if updates == [] then []
    else
      var u := updates[0];
      (if u.rclass == 254 || (u.rclass == 255 && u.rdata == []) then [] else [u]) + Arriving(updates[1..])
  }

  // ---- The same through the transaction -------------------------------------------------

  lemma DeletionTakes(u: ResourceRecord, rr: ResourceRecord)
    ensures HitByAny(DeletionsOf(OpOf(u)), rr) <==> Takes(u, rr)
  {
    hide Same;
    var ds := DeletionsOf(OpOf(u));
    assert |ds| <= 1;
    if ds != [] { assert HitByAny(ds, rr) <==> Hits(ds[0], rr); }
  }

  lemma HitByEither(ds: seq<Deletion>, es: seq<Deletion>, rr: ResourceRecord)
    ensures HitByAny(ds + es, rr) <==> HitByAny(ds, rr) || HitByAny(es, rr)
  {
    hide Hits;
    var all := ds + es;
    assert forall i :: 0 <= i < |ds| ==> all[i] == ds[i];
    assert forall i :: 0 <= i < |es| ==> all[|ds| + i] == es[i];
    if HitByAny(all, rr) {
      var i :| 0 <= i < |all| && Hits(all[i], rr);
      if i >= |ds| { assert all[i] == es[i - |ds|]; }
    }
  }

  lemma {:induction false} DeletionsTake(updates: Rrs, rr: ResourceRecord)
    ensures HitByAny(AllDeletions(OpsOf(updates)), rr) <==> TakenByAny(updates, rr)
  {
    hide HitByAny, Takes, OpOf, DeletionsOf;
    if updates == [] {
      NothingHits(rr);
    } else {
      var rest := updates[1..];
      var ops := OpsOf(updates);
      assert ops[0] == OpOf(updates[0]) && ops[1..] == OpsOf(rest);
      DeletionTakes(updates[0], rr);
      HitByEither(DeletionsOf(ops[0]), AllDeletions(ops[1..]), rr);
      DeletionsTake(rest, rr);
      TakenFirst(updates, rr);
    }
  }

  lemma TakenFirst(updates: Rrs, rr: ResourceRecord)
    requires updates != []
    ensures TakenByAny(updates, rr) <==> Takes(updates[0], rr) || TakenByAny(updates[1..], rr)
  {
    hide Takes;
    assert forall i :: 0 < i < |updates| ==> updates[1..][i - 1] == updates[i];
  }

  lemma {:induction false} AddsArrive(updates: Rrs)
    ensures AllAdds(OpsOf(updates)) == Arriving(updates)
  {
    if updates != [] {
      var ops := OpsOf(updates);
      assert ops[0] == OpOf(updates[0]) && ops[1..] == OpsOf(updates[1..]);
      AddsArrive(updates[1..]);
    }
  }

  lemma {:induction false} KeptStays(updates: Rrs, rrs: Rrs, p: ResourceRecord -> bool)
    requires forall i :: 0 <= i < |rrs| ==> (p(rrs[i]) <==> !TakenByAny(updates, rrs[i]))
    ensures Kept(rrs, p) == Staying(updates, rrs)
  {
    hide TakenByAny;
    if rrs != [] {
      KeptHead(rrs, p);
      KeptStays(updates, rrs[1..], p);
    }
  }

  lemma LeftStays(updates: Rrs, rrs: Rrs)
    ensures WithoutAll(rrs, AllDeletions(OpsOf(updates))) == Staying(updates, rrs)
  {
    hide HitByAny, TakenByAny, OpsOf, AllDeletions, WithoutAll;
    var ds := AllDeletions(OpsOf(updates));
    WithoutAllIsFilter(rrs, ds);
    forall i | 0 <= i < |rrs| ensures HitByAny(ds, rrs[i]) <==> TakenByAny(updates, rrs[i]) {
      DeletionsTake(updates, rrs[i]);
    }
    KeptStays(updates, rrs, rr => !HitByAny(ds, rr));
  }

  // ---- The records after an update -------------------------------------------------------

  /** The same record; only an SOA of the zone may have other text, rdata and priority. */
  predicate Stands(zone: Name, before: ResourceRecord, after: ResourceRecord) {
    after == before || (before.rtype == 6 && Same(before.name, zone) && SameButText(after, before))
  }

  /** Each of the records stands, in order. */
  predicate AllStand(zone: Name, before: Rrs, after: Rrs) {
    |after| == |before| && forall i :: 0 <= i < |before| ==> Stands(zone, before[i], after[i])
  }

  lemma ShownKeeps(ntop: Ntop, rr: ResourceRecord)
    ensures SameButText(Shown(ntop, rr), rr)
  {
    ContentKeeps(ntop, rr);
  }

  lemma NumberingStands(ntop: Ntop, pton: Pton, rr: ResourceRecord, serial: U32)
    ensures SameButText(WithSerial(ntop, pton, rr, serial).rr, rr)
  {
    hide Words, Spaced, ContentToRdata, RdataToContent;
    ShownKeeps(ntop, rr);
    var s := Shown(ntop, rr);
    if |Words(s.content)| >= 7 {
      ConvertedKeeps(ntop, pton, s.(content := Spaced(Words(s.content)[2 := Decimal(serial)]), rdata := []));
    }
  }

  lemma StandsTwice(zone: Name, a: ResourceRecord, b: ResourceRecord, c: ResourceRecord)
    requires a.rtype == 6 && Same(a.name, zone) && SameButText(b, a) && Stands(zone, b, c)
    ensures Stands(zone, a, c)
  {
    hide Same;
  }

  lemma {:induction false} NumberedStand(ntop: Ntop, pton: Pton, zone: Name, rrs: Rrs, i: nat, serial: U32)
    requires i <= |rrs|
    ensures AllStand(zone, rrs, Renumbered(ntop, pton, rrs, i, AtApex(zone), serial).records)
    decreases |rrs| - i
  {
    hide WithSerial, Same, SameButText;
    if i < |rrs| {
      var e := WithSerial(ntop, pton, rrs[i], serial);
      NumberingStands(ntop, pton, rrs[i], serial);
      if !AtApex(zone)(rrs[i]) {
        NumberedStand(ntop, pton, zone, rrs, i + 1, serial);
      } else if !e.threw {
        NumberedStand(ntop, pton, zone, rrs[i := e.rr], i + 1, serial);
        StandsTwice(zone, rrs[i], e.rr, Renumbered(ntop, pton, rrs, i, AtApex(zone), serial).records[i]);
      }
    }
  }

  /** What the update adds is stored with rdata made from the text of a record that has none. */
  predicate Stored(ntop: Ntop, pton: Pton, u: ResourceRecord, stored: ResourceRecord) {
    && SameButText(stored, u)
    && (u.rdata != [] ==> stored == u)
    && (u.rdata == [] ==>
          var c := ContentToRdata(ntop, pton, u); c.Returns? && stored == c.value.rr)
  }

  lemma FillingStores(ntop: Ntop, pton: Pton, u: ResourceRecord)
    requires Filled(ntop, pton, u).Returns?
    ensures Stored(ntop, pton, u, Filled(ntop, pton, u).value)
  {
    hide ContentToRdata;
    ConvertedKeeps(ntop, pton, u);
  }

  /** Each update of the list was stored. */
  predicate AllStored(ntop: Ntop, pton: Pton, updates: Rrs, stored: Rrs) {
    |stored| == |updates| && forall i :: 0 <= i < |updates| ==> Stored(ntop, pton, updates[i], stored[i])
  }

  lemma AddingStores(ntop: Ntop, pton: Pton, rrs: Rrs, adds: Rrs)
    requires !Extended(ntop, pton, rrs, adds).threw
    ensures var all := Extended(ntop, pton, rrs, adds).records;
      rrs <= all && AllStored(ntop, pton, adds, all[|rrs|..])
  {
    hide Extended, Filled, Stored;
    ExtendedFills(ntop, pton, rrs, adds);
    var all := Extended(ntop, pton, rrs, adds).records;
    assert |all| == |rrs| + |adds|;
    var more := all[|rrs|..];
    forall i | 0 <= i < |adds| ensures Stored(ntop, pton, adds[i], more[i]) {
      FillingStores(ntop, pton, adds[i]);
    }
  }

  /**
   An update that does not throw leaves exactly the old records that no update record takes,
   in their order, and behind them exactly the updates that take nothing, in theirs.  Only
   an SOA of the zone may be renumbered, and only if the zone shows one before.
   */
  lemma UpdateExactly(ntop: Ntop, pton: Pton, zone: Name, rrs: Rrs, updates: Rrs)
    requires !UpdatedRecords(ntop, pton, zone, rrs, updates).threw
    ensures var after := UpdatedRecords(ntop, pton, zone, rrs, updates).records;
      && (exists more: Rrs ::
            && AllStored(ntop, pton, Arriving(updates), more)
            && AllStand(zone, Staying(updates, rrs) + more, after)
            && (LookedUp(rrs, zone, 6) == [] ==> after == Staying(updates, rrs) + more))
  {
    hide WithoutAll, Extended, OpsOf, AllAdds, AllDeletions, Renumbered, QueuedAll, LookedUp, Staying, Arriving,
         AllStored, AllStand, SoaSerial;
    var ops := OpsOf(updates);
    QueuedIsAll(NOTHING, ops);
    assert [] + AllAdds(ops) == AllAdds(ops) && [] + AllDeletions(ops) == AllDeletions(ops);
    LeftStays(updates, rrs);
    AddsArrive(updates);
    var left := Staying(updates, rrs);
    var all := Extended(ntop, pton, left, Arriving(updates));
    AddingStores(ntop, pton, left, Arriving(updates));
    var more := all.records[|left|..];
    assert all.records == left + more;
    if LookedUp(rrs, zone, 6) == [] {
      AllStandStill(zone, all.records);
    } else {
      NumberedStand(ntop, pton, zone, all.records, 0, Bumped(SoaSerial(ntop, LookedUp(rrs, zone, 6)[0])));
    }
  }

  lemma AllStandStill(zone: Name, rrs: Rrs)
    ensures AllStand(zone, rrs, rrs)
  {
  }
}
