/**
 Dynamic updates: the record-level logic of handleUpdate of src/simple-dnsd/core/engine.cpp,
 and what runs of updates do to the SOA serial.
 */
module Updates {
  import opened Text
  import opened DnsNames
  import opened NameCodec
  import opened Records
  import opened Numbers
  import opened Rdata
  import opened Serials
  import opened Store
  import opened MemoryBackends
  import opened Transactions
  import opened Router

  // ---- One update ---------------------------------------------------------------------

  /** What an update record asks for; class NONE deletes the whole record set. */
  function OpOf(rr: ResourceRecord): Op {
    if rr.rclass == CLASS_ANY && rr.rdata == [] then
      if rr.rtype == TYPE_ANY then DeleteName(rr.name) else DeleteRrset(rr.name, rr.rtype)
    else if rr.rclass == CLASS_NONE then DeleteRrset(rr.name, rr.rtype)
    else Add(rr)
  }

  function OpsOf(rrs: Rrs): (ops: seq<Op>)
    ensures |ops| == |rrs|
  {
    if rrs == [] then [] else [OpOf(rrs[0])] + OpsOf(rrs[1..])
  }

  /** The transaction of an update; the serial is bumped if the apex has an SOA that is not disabled. */
  function Requested(ntop: Ntop, zone: Name, rrs: Rrs, updates: Rrs): Pending {
    var p := QueuedAll(NOTHING, OpsOf(updates));
    var soa := LookedUp(rrs, zone, TYPE_SOA);
    if soa == [] then p else p.(serial := Some(Bumped(SoaSerial(ntop, soa[0]))))
  }

  /** The records of a zone after an update. */
  function UpdatedRecords(ntop: Ntop, pton: Pton, zone: Name, rrs: Rrs, updates: Rrs): Outgoing {
    Committed(ntop, pton, zone, rrs, Requested(ntop, zone, rrs, updates))
  }

  /** What the access lists and the TSIG check say about an update. */
  datatype Gate = Gate(allowed: bool, verified: bool)

  datatype Carried = Carried(zs: seq<Zones>, response: Message, committed: bool)

  function Replied(query: Message, rcode: Byte): Message {
    var r := MakeResponse(query);
    r.(header := r.header.(rcode := rcode))
  }

  /** handleUpdate; an exception in the commit leaves it. */
  function Updated(ntop: Ntop, pton: Pton, zs: seq<Zones>, query: Message, gate: Gate): Outcome<Carried> {
    if query.questions == [] then Returns(Carried(zs, Replied(query, FORMERR), false))
    else
      var found := View(zs, query.questions[0].qname);
      if found.None? then Returns(Carried(zs, Replied(query, NOTAUTH), false))
      else if !gate.allowed then Returns(Carried(zs, Replied(query, REFUSED), false))
      else if query.tsig.Some? && !gate.verified then Returns(Carried(zs, Replied(query, NOTAUTH), false))
      else
        var name := found.value.info.name;
        var u := UpdatedRecords(ntop, pton, name, found.value.records, query.authority);
        if u.threw then Throws
        else Returns(Carried(WithRecords(zs, found.value, u.records), Replied(query, NOERROR), true))
  }

  /** The tables with new records for a zone, in the backend that owns it. */
  function WithRecords(zs: seq<Zones>, z: MemZone, records: Rrs): seq<Zones> {
    var i := OwnerIndex(zs, z.info.name);
    if i == |zs| then zs else zs[i := zs[i][Key(z.info.name) := z.(records := records)]]
  }

  /** An update keeps every table in order. */
  lemma UpdatedKeyed(ntop: Ntop, pton: Pton, zs: seq<Zones>, query: Message, gate: Gate)
    requires AllKeyed(zs)
    ensures Updated(ntop, pton, zs, query, gate).Returns? ==>
              AllKeyed(Updated(ntop, pton, zs, query, gate).value.zs)
    ensures var u := Updated(ntop, pton, zs, query, gate); u.Returns? && !u.value.committed ==> u.value.zs == zs
  {
    hide Key, UpdatedRecords, View, OwnerIndex;
  }

  // ---- The apex SOA ---------------------------------------------------------------------

  /** The zone has one apex SOA record, which is enabled and well-formed with this serial. */
  predicate OneSoa(ntop: Ntop, zone: Name, rrs: Rrs, serial: U32) {
    var soas := Kept(rrs, AtApex(zone));
    |soas| == 1 && !soas[0].disabled && WellFormed(ntop, soas[0], serial)
  }

  /** The apex SOA says the serial in its text and in its rdata. */
  predicate SoaAgrees(zone: Name, rrs: Rrs, serial: U32) {
    var soas := Kept(rrs, AtApex(zone));
    |soas| == 1 && RdataAgrees(soas[0], serial)
  }

  predicate TakesSoa(zone: Name, d: Deletion) {
    Same(zone, d.name) && (d.all || d.rtype == TYPE_SOA)
  }

  /** The operations neither delete nor add an apex SOA. */
  predicate SparesSoa(zone: Name, ops: seq<Op>) {
    && (forall i :: 0 <= i < |AllDeletions(ops)| ==> !TakesSoa(zone, AllDeletions(ops)[i]))
    && (forall i :: 0 <= i < |AllAdds(ops)| ==> !ApexSoa(zone, AllAdds(ops)[i]))
  }

  lemma {:induction false} KeptAbsorbs(rrs: Rrs, p: ResourceRecord -> bool, q: ResourceRecord -> bool)
    requires forall i :: 0 <= i < |rrs| && p(rrs[i]) ==> q(rrs[i])
    ensures Kept(Kept(rrs, q), p) == Kept(rrs, p)
  {
    if rrs != [] {
      var n := |rrs| - 1;
      KeptAbsorbs(rrs[..n], p, q);
      KeptConcat(Kept(rrs[..n], q), if q(rrs[n]) then [rrs[n]] else [], p);
      assert [rrs[n]][..0] == [];
    }
  }

  lemma {:induction false} KeptNone(rrs: Rrs, p: ResourceRecord -> bool)
    ensures Kept(rrs, p) == [] <==> forall i :: 0 <= i < |rrs| ==> !p(rrs[i])
  {
    if rrs != [] {
      KeptNone(rrs[..|rrs| - 1], p);
    }
  }

  lemma SoaIsLookedUp(ntop: Ntop, zone: Name, rrs: Rrs, serial: U32)
    requires OneSoa(ntop, zone, rrs, serial)
    ensures LookedUp(rrs, zone, TYPE_SOA) == Kept(rrs, AtApex(zone))
  {
    hide WellFormed;
    var soas := Kept(rrs, AtApex(zone));
    var asked := (rr: ResourceRecord) => Answers(rr, zone, TYPE_SOA);
    KeptAbsorbs(rrs, asked, AtApex(zone));
    KeptIn(rrs, AtApex(zone), soas[0]);
    assert soas[..0] == [] && Kept([], asked) == [];
    assert Kept(soas, asked) == [] + [soas[0]];
    KeptSame(rrs, asked, rr => Answers(rr, zone, TYPE_SOA));
  }

  lemma {:induction false} SparedByDeletions(zone: Name, rrs: Rrs, ds: seq<Deletion>)
    requires forall i :: 0 <= i < |ds| ==> !TakesSoa(zone, ds[i])
    ensures Kept(WithoutAll(rrs, ds), AtApex(zone)) == Kept(rrs, AtApex(zone))
    decreases |ds|
  {
    if ds != [] {
      var d := ds[0];
      assert !TakesSoa(zone, d);
      KeptAbsorbs(rrs, AtApex(zone), rr => !Hits(d, rr));
      SparedByDeletions(zone, Without(rrs, d), ds[1..]);
    }
  }

  /** Conversions change neither owner nor type. */
  lemma FilledKeeps(ntop: Ntop, pton: Pton, rr: ResourceRecord)
    ensures var f := Filled(ntop, pton, rr);
      f.Returns? ==> f.value.name == rr.name && f.value.rtype == rr.rtype
  {
    hide ContentToRdata;
    ConvertedKeeps(ntop, pton, rr);
  }

  lemma {:induction false} SparedByAdds(ntop: Ntop, pton: Pton, zone: Name, rrs: Rrs, adds: Rrs)
    requires forall i :: 0 <= i < |adds| ==> !ApexSoa(zone, adds[i])
    ensures Kept(Extended(ntop, pton, rrs, adds).records, AtApex(zone)) == Kept(rrs, AtApex(zone))
    decreases |adds|
  {
    hide Filled;
    if adds != [] {
      var f := Filled(ntop, pton, adds[0]);
      FilledKeeps(ntop, pton, adds[0]);
      if f.Returns? {
        assert !ApexSoa(zone, adds[0]);
        var more := rrs + [f.value];
        assert more[..|more| - 1] == rrs;
        assert Kept(more, AtApex(zone)) == Kept(rrs, AtApex(zone)) + [];
        SparedByAdds(ntop, pton, zone, more, adds[1..]);
      }
    }
  }

  lemma {:induction false} NothingToNumber(ntop: Ntop, pton: Pton, rrs: Rrs, i: nat, p: ResourceRecord -> bool,
                                           serial: U32)
    requires i <= |rrs| && Kept(rrs[i..], p) == []
    ensures Renumbered(ntop, pton, rrs, i, p, serial) == Outgoing(rrs, false)
    decreases |rrs| - i
  {
    hide WithSerial;
    KeptNone(rrs[i..], p);
    if i < |rrs| {
      KeptHead(rrs[i..], p);
      assert rrs[i..][1..] == rrs[i + 1..];
      NothingToNumber(ntop, pton, rrs, i + 1, p, serial);
    }
  }

  lemma OneReplaced(rrs: Rrs, i: nat, rr: ResourceRecord, p: ResourceRecord -> bool)
    requires i < |rrs| && Kept(rrs[..i], p) == [] && Kept(rrs[i + 1..], p) == [] && p(rr)
    ensures Kept(rrs[i := rr], p) == [rr]
  {
    hide Kept;
    var tail := [rr] + rrs[i + 1..];
    assert rrs[i := rr] == rrs[..i] + tail;
    KeptConcat(rrs[..i], tail, p);
    KeptHead(tail, p);
    assert tail[1..] == rrs[i + 1..];
  }

  /** With one record chosen, numbering changes that record alone. */
  lemma {:induction false} OneNumbered(ntop: Ntop, pton: Pton, rrs: Rrs, i: nat, p: ResourceRecord -> bool, serial: U32)
    requires i <= |rrs| && Kept(rrs[..i], p) == [] && |Kept(rrs[i..], p)| == 1
    requires var e := WithSerial(ntop, pton, Kept(rrs[i..], p)[0], serial); !e.threw && p(e.rr)
    ensures var r := Renumbered(ntop, pton, rrs, i, p, serial);
      && !r.threw && |r.records| == |rrs|
      && Kept(r.records, p) == [WithSerial(ntop, pton, Kept(rrs[i..], p)[0], serial).rr]
    decreases |rrs| - i
  {
    hide WithSerial;
    var rest := rrs[i..];
    assert i == |rrs| ==> rest == [];
    if i < |rrs| {
      KeptHead(rest, p);
      assert rest[0] == rrs[i] && rest[1..] == rrs[i + 1..];
      if p(rrs[i]) {
        var e := WithSerial(ntop, pton, rrs[i], serial);
        assert Kept(rest, p)[0] == rrs[i] && Kept(rrs[i + 1..], p) == [];
        assert rrs[i := e.rr][i + 1..] == rrs[i + 1..];
        NothingToNumber(ntop, pton, rrs[i := e.rr], i + 1, p, serial);
        OneReplaced(rrs, i, e.rr, p);
      } else {
        assert rrs[..i + 1] == rrs[..i] + [rrs[i]];
        KeptConcat(rrs[..i], [rrs[i]], p);
        assert [rrs[i]][..0] == [] && Kept([], p) == [];
        OneNumbered(ntop, pton, rrs, i + 1, p, serial);
      }
    }
  }

  /** One update that spares the apex SOA and does not throw adds one to its serial. */
  lemma UpdateBumps(ntop: Ntop, pton: Pton, zone: Name, rrs: Rrs, updates: Rrs, serial: U32)
    requires OneSoa(ntop, zone, rrs, serial) && SparesSoa(zone, OpsOf(updates))
    ensures var u := UpdatedRecords(ntop, pton, zone, rrs, updates);
      && (!u.threw ==> OneSoa(ntop, zone, u.records, Bumped(serial)) && SoaAgrees(zone, u.records, Bumped(serial)))
      && (HasRdata(AllAdds(OpsOf(updates))) ==> !u.threw)
  {
    hide WithSerial, Kept, WithoutAll, Extended, OpsOf, AllAdds, AllDeletions, Renumbered, WellFormed, RdataAgrees,
         SoaSerial, QueuedAll, HasRdata, LookedUp;
    var ops := OpsOf(updates);
    QueuedIsAll(NOTHING, ops);
    assert [] + AllAdds(ops) == AllAdds(ops) && [] + AllDeletions(ops) == AllDeletions(ops);
    SoaIsLookedUp(ntop, zone, rrs, serial);
    var soa := Kept(rrs, AtApex(zone))[0];
    SerialRead(ntop, soa, serial);
    var left := WithoutAll(rrs, AllDeletions(ops));
    SparedByDeletions(zone, rrs, AllDeletions(ops));
    SparedByAdds(ntop, pton, zone, left, AllAdds(ops));
    var all := Extended(ntop, pton, left, AllAdds(ops));
    if HasRdata(AllAdds(ops)) { ExtendedWithRdata(ntop, pton, left, AllAdds(ops)); }
    if !all.threw {
      SoaNumbered(ntop, pton, zone, all.records, serial, Bumped(serial));
    }
  }

  lemma SerialRead(ntop: Ntop, soa: ResourceRecord, serial: U32)
    requires WellFormed(ntop, soa, serial)
    ensures SoaSerial(ntop, soa) == serial
  {
    hide Words, Stoul, DomainRdata, Fields32;
    ShownTwice(ntop, soa);
  }

  lemma ShownTwice(ntop: Ntop, rr: ResourceRecord)
    ensures |Words(rr.content)| >= 3 ==> Shown(ntop, rr) == rr
  {
    hide RdataToContent;
  }

  lemma SoaNumbered(ntop: Ntop, pton: Pton, zone: Name, rrs: Rrs, prior: U32, serial: U32)
    requires OneSoa(ntop, zone, rrs, prior)
    ensures var r := Renumbered(ntop, pton, rrs, 0, AtApex(zone), serial);
      !r.threw && OneSoa(ntop, zone, r.records, serial) && SoaAgrees(zone, r.records, serial)
  {
    hide WithSerial, Renumbered, WellFormed, RdataAgrees;
    var soa := Kept(rrs, AtApex(zone))[0];
    KeptIn(rrs, AtApex(zone), soa);
    SerialIsSet(ntop, pton, soa, prior, serial);
    assert rrs[0..] == rrs && rrs[..0] == [];
    OneNumbered(ntop, pton, rrs, 0, AtApex(zone), serial);
  }

  // ---- Runs of updates --------------------------------------------------------------------

  /** The records after a run of updates, the last one applied to what the others left. */
  function UpdatedBy(ntop: Ntop, pton: Pton, zone: Name, rrs: Rrs, run: seq<Rrs>): Outgoing
    decreases |run|
  {
    if run == [] then Outgoing(rrs, false)
    else
      var u := UpdatedBy(ntop, pton, zone, rrs, run[..|run| - 1]);
      if u.threw then u else UpdatedRecords(ntop, pton, zone, u.records, run[|run| - 1])
  }

  predicate AllSpare(zone: Name, run: seq<Rrs>) {
    forall i :: 0 <= i < |run| ==> SparesSoa(zone, OpsOf(run[i]))
  }

  lemma {:induction false} RunKeepsSoa(ntop: Ntop, pton: Pton, zone: Name, rrs: Rrs, run: seq<Rrs>, serial: U32)
    requires OneSoa(ntop, zone, rrs, serial) && AllSpare(zone, run)
    requires !UpdatedBy(ntop, pton, zone, rrs, run).threw
    ensures var u := UpdatedBy(ntop, pton, zone, rrs, run).records;
      && OneSoa(ntop, zone, u, (serial + |run|) % 0x1_0000_0000)
      && (|run| > 0 ==> SoaAgrees(zone, u, (serial + |run|) % 0x1_0000_0000))
    decreases |run|
  {
    hide OneSoa, SoaAgrees, UpdatedRecords, SparesSoa;
    if run != [] {
      var n := |run| - 1;
      RunKeepsSoa(ntop, pton, zone, rrs, run[..n], serial);
      var before := UpdatedBy(ntop, pton, zone, rrs, run[..n]).records;
      var s := (serial + n) % 0x1_0000_0000;
      UpdateBumps(ntop, pton, zone, before, run[n], s);
      BumpedSum(serial, n);
    }
  }

  lemma BumpedSum(serial: U32, n: nat)
    ensures Bumped((serial + n) % 0x1_0000_0000) == (serial + n + 1) % 0x1_0000_0000
  {
  }

  /** Adding 1 to 2^31 - 1 makes a serial greater; adding more does not. */
  lemma AddedIsGreater(serial: U32, k: nat)
    requires 0 < k <= 0x8000_0000
    ensures SerialGreater((serial + k) % 0x1_0000_0000, serial) <==> k < 0x8000_0000
  {
  }

  /**
   After k successful updates that do not touch the one well-formed apex SOA, its serial is
   s0 + k modulo 2^32, in the text and in the rdata alike, and greater than s0 in the sense
   of section 3.2 of RFC 1982 whenever 0 < k < 2^31.
   */
  lemma SerialAfterRun(ntop: Ntop, pton: Pton, zone: Name, rrs: Rrs, run: seq<Rrs>, s0: U32)
    requires OneSoa(ntop, zone, rrs, s0) && AllSpare(zone, run)
    requires !UpdatedBy(ntop, pton, zone, rrs, run).threw
    ensures var u := UpdatedBy(ntop, pton, zone, rrs, run).records; var soa := LookedUp(u, zone, TYPE_SOA);
      && |soa| == 1 && SoaSerial(ntop, soa[0]) == (s0 + |run|) % 0x1_0000_0000
      && (|run| > 0 ==> RdataAgrees(soa[0], SoaSerial(ntop, soa[0])))
      && (0 < |run| < 0x8000_0000 ==> SerialGreater(SoaSerial(ntop, soa[0]), s0))
  {
    hide UpdatedBy, WellFormed, RdataAgrees, SoaSerial, LookedUp, Kept, AllSpare;
    RunKeepsSoa(ntop, pton, zone, rrs, run, s0);
    var u := UpdatedBy(ntop, pton, zone, rrs, run).records;
    var s := (s0 + |run|) % 0x1_0000_0000;
    SoaIsLookedUp(ntop, zone, u, s);
    SerialRead(ntop, LookedUp(u, zone, TYPE_SOA)[0], s);
    if 0 < |run| < 0x8000_0000 { AddedIsGreater(s0, |run|); }
  }

  /** When every added record carries its rdata, no update of such a run throws. */
  lemma {:induction false} RunSucceeds(ntop: Ntop, pton: Pton, zone: Name, rrs: Rrs, run: seq<Rrs>, s0: U32)
    requires OneSoa(ntop, zone, rrs, s0) && AllSpare(zone, run)
    requires forall i :: 0 <= i < |run| ==> HasRdata(AllAdds(OpsOf(run[i])))
    ensures !UpdatedBy(ntop, pton, zone, rrs, run).threw
    decreases |run|
  {
    hide OneSoa, SoaAgrees, UpdatedRecords, SparesSoa, HasRdata, AllAdds, OpsOf;
    if run != [] {
      var n := |run| - 1;
      RunSucceeds(ntop, pton, zone, rrs, run[..n], s0);
      RunKeepsSoa(ntop, pton, zone, rrs, run[..n], s0);
      UpdateBumps(ntop, pton, zone, UpdatedBy(ntop, pton, zone, rrs, run[..n]).records, run[n],
                  (s0 + n) % 0x1_0000_0000);
    }
  }
}
