/**
 The two transaction implementations: the memory backend queues its changes and applies
 all deletes and then all adds when it commits (src/simple-dnsd/backend/memory.cpp); the
 bind-file backend edits a copy of the records at once (src/simple-dnsd/backend/bindfile.cpp).
 */
module Transactions {
  import opened Text
  import opened DnsNames
  import opened NameCodec
  import opened Records
  import opened Numbers
  import opened Rdata
  import opened Serials
  import opened Store
  import opened MemoryBackends

  // ---- Operations -----------------------------------------------------------

  /** What a deletion takes away: the records of one type at a name, or all records at it. */
  datatype Deletion = Deletion(name: Name, rtype: U16, all: bool)

  datatype Op =
    | Add(rr: ResourceRecord)
    | Replace(name: Name, rtype: U16, rrs: Rrs)
    | DeleteRrset(name: Name, rtype: U16)
    | DeleteName(name: Name)

  predicate Hits(d: Deletion, rr: ResourceRecord) {
    Same(rr.name, d.name) && (d.all || rr.rtype == d.rtype)
  }

  function Without(rrs: Rrs, d: Deletion): Rrs {
    Kept(rrs, rr => !Hits(d, rr))
  }

  function WithoutAll(rrs: Rrs, ds: seq<Deletion>): Rrs
    decreases |ds|
  {
    if ds == [] then rrs else WithoutAll(Without(rrs, ds[0]), ds[1..])
  }

  /** The erase-remove idiom. */
  method Erase(rrs: Rrs, d: Deletion) returns (left: Rrs)
    ensures left == Without(rrs, d)
  {
    left := [];
    ghost var p := (rr: ResourceRecord) => !Hits(d, rr);
    for i := 0 to |rrs|
      invariant left == Kept(rrs[..i], p)
    {
      assert rrs[..i + 1][..i] == rrs[..i] && rrs[..i + 1][i] == rrs[i];
      var same := Equals(rrs[i].name, d.name);
      if !(same && (d.all || rrs[i].rtype == d.rtype)) {
        left := left + [rrs[i]];
      }
    }
    assert rrs[..|rrs|] == rrs;
    KeptSame(rrs, p, rr => !Hits(d, rr));
  }

  // ---- The deferred transaction -----------------------------------------------

  datatype Pending = Pending(adds: Rrs, deletes: seq<Deletion>, drop: bool, serial: Option<U32>)

  const NOTHING := Pending([], [], false, None)

  function DeletionsOf(op: Op): seq<Deletion> {
    match op
    case Add(_) => []
    case Replace(name, t, _) => [Deletion(name, t, false)]
    case DeleteRrset(name, t) => [Deletion(name, t, false)]
    case DeleteName(name) => [Deletion(name, TYPE_ANY, true)]
  }

  function AddsOf(op: Op): Rrs {
    match op
    case Add(rr) => [rr]
    case Replace(_, _, rrs) => rrs
    case _ => []
  }

  function Queued(p: Pending, op: Op): Pending {
    p.(adds := p.adds + AddsOf(op), deletes := p.deletes + DeletionsOf(op))
  }

  function QueuedAll(p: Pending, ops: seq<Op>): Pending
    decreases |ops|
  {
    if ops == [] then p else QueuedAll(Queued(p, ops[0]), ops[1..])
  }

  /** Records after a commit that an exception may have cut short. */
  datatype Outgoing = Outgoing(records: Rrs, threw: bool)

  /** The adding loop: records without rdata are converted as they go in. */
  function Extended(ntop: Ntop, pton: Pton, rrs: Rrs, adds: Rrs): Outgoing
    decreases |adds|
  {
    if adds == [] then Outgoing(rrs, false)
    else
      match Filled(ntop, pton, adds[0])
      case Throws => Outgoing(rrs, true)
      case Returns(rr) => Extended(ntop, pton, rrs + [rr], adds[1..])
  }

  /** Each record is the one of the list with its rdata filled in. */
  predicate FilledInto(ntop: Ntop, pton: Pton, rrs: Rrs, filled: Rrs) {
    |filled| == |rrs| && forall i :: 0 <= i < |rrs| ==> Filled(ntop, pton, rrs[i]) == Returns(filled[i])
  }

  predicate SomeUnfillable(ntop: Ntop, pton: Pton, rrs: Rrs) {
    exists i :: 0 <= i < |rrs| && Filled(ntop, pton, rrs[i]).Throws?
  }

  lemma UnfillableIn(ntop: Ntop, pton: Pton, soa: ResourceRecord, rest: Rrs)
    ensures SomeUnfillable(ntop, pton, [soa] + rest)
            <==> Filled(ntop, pton, soa).Throws? || SomeUnfillable(ntop, pton, rest)
  {
    hide Filled;
    var l := [soa] + rest;
    assert l[0] == soa && forall i :: 0 <= i < |rest| ==> rest[i] == l[i + 1];
  }

  lemma {:induction false} ExtendedFills(ntop: Ntop, pton: Pton, rrs: Rrs, adds: Rrs)
    ensures var e := Extended(ntop, pton, rrs, adds);
      && (e.threw <==> SomeUnfillable(ntop, pton, adds))
      && (!e.threw ==> rrs <= e.records && FilledInto(ntop, pton, adds, e.records[|rrs|..]))
    decreases |adds|
  {
    hide Filled;
    if adds != [] {
      UnfillableIn(ntop, pton, adds[0], adds[1..]);
      assert [adds[0]] + adds[1..] == adds;
      var f := Filled(ntop, pton, adds[0]);
      if f.Returns? { ExtendedFills(ntop, pton, rrs + [f.value], adds[1..]); }
    }
  }

  /** The serial loop from record i: every apex SOA gets the serial. */
  function Renumbered(ntop: Ntop, pton: Pton, rrs: Rrs, i: nat, chosen: ResourceRecord -> bool, serial: U32): Outgoing
    requires i <= |rrs|
    decreases |rrs| - i
  {
    if i == |rrs| then Outgoing(rrs, false)
    else if !chosen(rrs[i]) then Renumbered(ntop, pton, rrs, i + 1, chosen, serial)
    else
      var e := WithSerial(ntop, pton, rrs[i], serial);
      if e.threw then Outgoing(rrs[i := e.rr], true)
      else Renumbered(ntop, pton, rrs[i := e.rr], i + 1, chosen, serial)
  }

  predicate ApexSoa(zone: Name, rr: ResourceRecord) {
    rr.rtype == TYPE_SOA && Same(rr.name, zone)
  }

  function AtApex(zone: Name): ResourceRecord -> bool {
    rr => ApexSoa(zone, rr)
  }

  predicate IsSoa(rr: ResourceRecord) {
    rr.rtype == TYPE_SOA
  }

  /** MemoryTransaction::commit. */
  function Committed(ntop: Ntop, pton: Pton, zone: Name, rrs: Rrs, p: Pending): Outgoing {
    if p.drop then Outgoing([], false)
    else
      var added := Extended(ntop, pton, WithoutAll(rrs, p.deletes), p.adds);
      if added.threw || p.serial.None? then added
      else Renumbered(ntop, pton, added.records, 0, AtApex(zone), p.serial.value)
  }

  class MemoryTransaction {
    const backend: MemoryBackend
    const key: Str
    var adds: Rrs
    var deletes: seq<Deletion>
    var drop: bool
    var serial: Option<U32>

    ghost function State(): Pending
      reads this
    {
      Pending(adds, deletes, drop, serial)
    }

    constructor (backend: MemoryBackend, key: Str)
      ensures this.backend == backend && this.key == key && State() == NOTHING
    {
      this.backend := backend;
      this.key := key;
      adds, deletes, drop, serial := [], [], false, None;
    }

    method AddRecord(rr: ResourceRecord)
      modifies this
      ensures State() == Queued(old(State()), Add(rr))
    {
      adds := adds + [rr];
    }

    method ReplaceRrset(name: Name, rtype: U16, rrs: Rrs)
      modifies this
      ensures State() == Queued(old(State()), Replace(name, rtype, rrs))
    {
      DeleteRrset(name, rtype);
      for i := 0 to |rrs|
        invariant State() == old(State()).(adds := old(adds) + rrs[..i],
                                           deletes := old(deletes) + [Deletion(name, rtype, false)])
      {
        assert rrs[..i + 1] == rrs[..i] + [rrs[i]];
        AddRecord(rrs[i]);
      }
      assert rrs[..|rrs|] == rrs;
    }

    method DeleteRrset(name: Name, rtype: U16)
      modifies this
      ensures State() == Queued(old(State()), Op.DeleteRrset(name, rtype))
    {
      deletes := deletes + [Deletion(name, rtype, false)];
    }

    method DeleteName(name: Name)
      modifies this
      ensures State() == Queued(old(State()), Op.DeleteName(name))
    {
      deletes := deletes + [Deletion(name, TYPE_ANY, true)];
    }

    method DeleteZone()
      modifies this
      ensures State() == old(State()).(drop := true)
    {
      drop := true;
    }

    method SetSoaSerial(value: U32)
      modifies this
      ensures State() == old(State()).(serial := Some(value))
    {
      serial := Some(value);
    }

    /** A requested serial or zone drop survives a rollback. */
    method Rollback()
      modifies this
      ensures State() == old(State()).(adds := [], deletes := [])
    {
      adds, deletes := [], [];
    }

    method SetRecords(rrs: Rrs)
      requires key in backend.zones
      modifies backend
      ensures backend.zones == old(backend.zones)[key := old(backend.zones)[key].(records := rrs)]
    {
      backend.zones := backend.zones[key := backend.zones[key].(records := rrs)];
    }

    method Commit(ntop: Ntop, pton: Pton) returns (threw: bool)
      requires key in backend.zones
      modifies backend
      ensures var z := old(backend.zones)[key];
              var c := Committed(ntop, pton, z.info.name, z.records, State());
              backend.zones == old(backend.zones)[key := z.(records := c.records)] && threw == c.threw
    {
      hide Filled, WithSerial, ApexSoa;
      var zone := backend.zones[key].info.name;
      if drop {
        SetRecords([]);
        return false;
      }
      var rrs := EraseAll(backend.zones[key].records, deletes);
      rrs, threw := AppendAll(ntop, pton, rrs, adds);
      if !threw && serial.Some? {
        rrs, threw := RenumberApex(ntop, pton, zone, rrs, serial.value);
      }
      SetRecords(rrs);
    }

    static method EraseAll(rrs: Rrs, ds: seq<Deletion>) returns (left: Rrs)
      ensures left == WithoutAll(rrs, ds)
    {
      hide Without;
      left := rrs;
      for i := 0 to |ds|
        invariant WithoutAll(rrs, ds) == WithoutAll(left, ds[i..])
      {
        assert ds[i..][1..] == ds[i + 1..];
        left := Erase(left, ds[i]);
      }
    }

    static method AppendAll(ntop: Ntop, pton: Pton, rrs: Rrs, adds: Rrs) returns (out: Rrs, threw: bool)
      ensures Outgoing(out, threw) == Extended(ntop, pton, rrs, adds)
    {
      hide ContentToRdata;
      out, threw := rrs, false;
      for i := 0 to |adds|
        invariant !threw && Extended(ntop, pton, rrs, adds) == Extended(ntop, pton, out, adds[i..])
      {
        assert adds[i..][1..] == adds[i + 1..];
        var rr := adds[i];
        if rr.rdata == [] {
          match ContentToRdata(ntop, pton, rr) {
            case Throws => return out, true;
            case Returns(c) => rr := c.rr;
          }
        }
        out := out + [rr];
      }
    }

    static method RenumberApex(ntop: Ntop, pton: Pton, zone: Name, rrs: Rrs, serial: U32)
      returns (out: Rrs, threw: bool)
      ensures Outgoing(out, threw) == Renumbered(ntop, pton, rrs, 0, AtApex(zone), serial)
    {
      hide WithSerial;
      ghost var chosen := AtApex(zone);
      out, threw := rrs, false;
      for i := 0 to |rrs|
        invariant !threw && |out| == |rrs|
        invariant Renumbered(ntop, pton, rrs, 0, chosen, serial) == Renumbered(ntop, pton, out, i, chosen, serial)
      {
        var apex := Equals(out[i].name, zone);
        if out[i].rtype == TYPE_SOA && apex {
          var e := WithSerial(ntop, pton, out[i], serial);
          out := out[i := e.rr];
          if e.threw {
            threw := true;
            return;
          }
        }
      }
    }
  }

  /** No chosen record from i on makes the renumbering throw. */
  predicate AllRenumber(ntop: Ntop, pton: Pton, rrs: Rrs, i: nat, chosen: ResourceRecord -> bool, serial: U32) {
    forall k :: i <= k < |rrs| && chosen(rrs[k]) ==> !WithSerial(ntop, pton, rrs[k], serial).threw
  }

  /** Unless it throws, the serial loop renumbers the chosen records one by one and keeps the others. */
  lemma {:induction false} RenumberedOneByOne(ntop: Ntop, pton: Pton, rrs: Rrs, i: nat,
                                              chosen: ResourceRecord -> bool, serial: U32)
    requires i <= |rrs|
    ensures var r := Renumbered(ntop, pton, rrs, i, chosen, serial);
      && |r.records| == |rrs|
      && (AllRenumber(ntop, pton, rrs, i, chosen, serial) ==>
            && !r.threw
            && forall k :: 0 <= k < |rrs| ==>
                 r.records[k]
                 == if k >= i && chosen(rrs[k]) then WithSerial(ntop, pton, rrs[k], serial).rr else rrs[k])
    decreases |rrs| - i
  {
    hide WithSerial;
    if i < |rrs| {
      if chosen(rrs[i]) {
        var e := WithSerial(ntop, pton, rrs[i], serial);
        if !e.threw {
          RenumberedOneByOne(ntop, pton, rrs[i := e.rr], i + 1, chosen, serial);
        }
      } else {
        RenumberedOneByOne(ntop, pton, rrs, i + 1, chosen, serial);
      }
    }
  }

  // ---- The eager transaction ----------------------------------------------------

  function Applied(rrs: Rrs, op: Op): Rrs {
    match op
    case Add(rr) => rrs + [rr]
    case Replace(name, t, more) => Without(rrs, Deletion(name, t, false)) + more
    case DeleteRrset(name, t) => Without(rrs, Deletion(name, t, false))
    case DeleteName(name) => Without(rrs, Deletion(name, TYPE_ANY, true))
  }

  function AppliedAll(rrs: Rrs, ops: seq<Op>): Rrs
    decreases |ops|
  {
    if ops == [] then rrs else AppliedAll(Applied(rrs, ops[0]), ops[1..])
  }

  class BindTransaction {
    var records: Rrs

    constructor (records: Rrs)
      ensures this.records == records
    {
      this.records := records;
    }

    method AddRecord(rr: ResourceRecord)
      modifies this
      ensures records == Applied(old(records), Add(rr))
    {
      records := records + [rr];
    }

    method ReplaceRrset(name: Name, rtype: U16, rrs: Rrs)
      modifies this
      ensures records == Applied(old(records), Replace(name, rtype, rrs))
    {
      DeleteRrset(name, rtype);
      records := records + rrs;
    }

    method DeleteRrset(name: Name, rtype: U16)
      modifies this
      ensures records == Applied(old(records), Op.DeleteRrset(name, rtype))
    {
      records := Erase(records, Deletion(name, rtype, false));
    }

    method DeleteName(name: Name)
      modifies this
      ensures records == Applied(old(records), Op.DeleteName(name))
    {
      records := Erase(records, Deletion(name, TYPE_ANY, true));
    }

    method SetSoaSerial(ntop: Ntop, pton: Pton, serial: U32) returns (threw: bool)
      modifies this
      ensures Outgoing(records, threw) == Renumbered(ntop, pton, old(records), 0, IsSoa, serial)
    {
      hide WithSerial;
      threw := false;
      for i := 0 to |records|
        invariant !threw && |records| == |old(records)|
        invariant Renumbered(ntop, pton, old(records), 0, IsSoa, serial)
                  == Renumbered(ntop, pton, records, i, IsSoa, serial)
      {
        if records[i].rtype == TYPE_SOA {
          var e := WithSerial(ntop, pton, records[i], serial);
          records := records[i := e.rr];
          if e.threw {
            return true;
          }
        }
      }
    }

    /** Fails when the zone has gone in the meantime. */
    method Commit(zones: Zones, key: Str) returns (after: Zones, ok: bool)
      ensures ok == (key in zones)
      ensures after == if ok then zones[key := zones[key].(records := records)] else zones
    {
      if key !in zones {
        return zones, false;
      }
      return zones[key := zones[key].(records := records)], true;
    }
  }

  // ---- When the two agree -------------------------------------------------------

  function AllDeletions(ops: seq<Op>): seq<Deletion> {
    if ops == [] then [] else DeletionsOf(ops[0]) + AllDeletions(ops[1..])
  }

  function AllAdds(ops: seq<Op>): Rrs {
    if ops == [] then [] else AddsOf(ops[0]) + AllAdds(ops[1..])
  }

  /** Of the added records, those that no later operation deletes. */
  function Survivors(ops: seq<Op>): Rrs {
    if ops == [] then []
    else WithoutAll(AddsOf(ops[0]), AllDeletions(ops[1..])) + Survivors(ops[1..])
  }

  predicate HitByAny(ds: seq<Deletion>, rr: ResourceRecord) {
    exists i :: 0 <= i < |ds| && Hits(ds[i], rr)
  }

  predicate AnyHit(ds: seq<Deletion>, rrs: Rrs) {
    exists i :: 0 <= i < |rrs| && HitByAny(ds, rrs[i])
  }

  /** No delete or replace matches a record that an earlier operation added. */
  predicate NoLateHit(ops: seq<Op>) {
    ops == [] || (!AnyHit(AllDeletions(ops[1..]), AddsOf(ops[0])) && NoLateHit(ops[1..]))
  }

  predicate HasRdata(rrs: Rrs) {
    forall i :: 0 <= i < |rrs| ==> rrs[i].rdata != []
  }

  lemma {:induction false} QueuedIsAll(p: Pending, ops: seq<Op>)
    ensures QueuedAll(p, ops) == p.(adds := p.adds + AllAdds(ops), deletes := p.deletes + AllDeletions(ops))
    decreases |ops|
  {
    hide AddsOf, DeletionsOf;
    if ops == [] {
      assert p.adds + [] == p.adds && p.deletes + [] == p.deletes;
    } else {
      var q := Queued(p, ops[0]);
      QueuedIsAll(q, ops[1..]);
      assert p.adds + AddsOf(ops[0]) + AllAdds(ops[1..]) == p.adds + AllAdds(ops);
      assert p.deletes + DeletionsOf(ops[0]) + AllDeletions(ops[1..]) == p.deletes + AllDeletions(ops);
    }
  }

  lemma {:induction false} ExtendedWithRdata(ntop: Ntop, pton: Pton, rrs: Rrs, adds: Rrs)
    requires HasRdata(adds)
    ensures Extended(ntop, pton, rrs, adds) == Outgoing(rrs + adds, false)
    decreases |adds|
  {
    hide ContentToRdata;
    if adds == [] {
      assert rrs + [] == rrs;
    } else {
      ExtendedWithRdata(ntop, pton, rrs + [adds[0]], adds[1..]);
      assert rrs + [adds[0]] + adds[1..] == rrs + adds;
    }
  }

  lemma {:induction false} WithoutAllConcat(a: Rrs, b: Rrs, ds: seq<Deletion>)
    ensures WithoutAll(a + b, ds) == WithoutAll(a, ds) + WithoutAll(b, ds)
    decreases |ds|
  {
    if ds != [] {
      KeptConcat(a, b, rr => !Hits(ds[0], rr));
      WithoutAllConcat(Without(a, ds[0]), Without(b, ds[0]), ds[1..]);
    }
  }

  lemma {:induction false} WithoutAllChain(rrs: Rrs, ds: seq<Deletion>, es: seq<Deletion>)
    ensures WithoutAll(rrs, ds + es) == WithoutAll(WithoutAll(rrs, ds), es)
    decreases |ds|
  {
    hide Without;
    if ds == [] {
      assert ds + es == es;
    } else {
      assert (ds + es)[1..] == ds[1..] + es;
      WithoutAllChain(Without(rrs, ds[0]), ds[1..], es);
    }
  }

  lemma AppliedIsDeleteThenAdd(rrs: Rrs, op: Op)
    ensures Applied(rrs, op) == WithoutAll(rrs, DeletionsOf(op)) + AddsOf(op)
  {
    hide Without;
    if DeletionsOf(op) != [] {
      var d := DeletionsOf(op)[0];
      assert WithoutAll(rrs, [d]) == WithoutAll(Without(rrs, d), [d][1..]) == Without(rrs, d);
    }
    assert Applied(rrs, op) + [] == Applied(rrs, op);
  }

  /** The eager result: the old records that no deletion takes, then the adds that survive. */
  lemma {:induction false} AppliedIsSurvivors(rrs: Rrs, ops: seq<Op>)
    ensures AppliedAll(rrs, ops) == WithoutAll(rrs, AllDeletions(ops)) + Survivors(ops)
    decreases |ops|
  {
    hide Applied, Without, WithoutAll, DeletionsOf, AddsOf;
    if ops == [] {
      NothingDeleted(rrs);
      assert rrs + [] == rrs;
    } else {
      var ds, adds, later := DeletionsOf(ops[0]), AddsOf(ops[0]), AllDeletions(ops[1..]);
      AppliedIsDeleteThenAdd(rrs, ops[0]);
      AppliedIsSurvivors(Applied(rrs, ops[0]), ops[1..]);
      AppliedStep(rrs, ds, adds, later);
      var a, b, c := WithoutAll(rrs, ds + later), WithoutAll(adds, later), Survivors(ops[1..]);
      assert a + b + c == a + (b + c);
    }
  }

  lemma NothingDeleted(rrs: Rrs)
    ensures WithoutAll(rrs, []) == rrs
  {
  }

  lemma AppliedStep(rrs: Rrs, ds: seq<Deletion>, adds: Rrs, later: seq<Deletion>)
    ensures WithoutAll(WithoutAll(rrs, ds) + adds, later) == WithoutAll(rrs, ds + later) + WithoutAll(adds, later)
  {
    hide WithoutAll;
    WithoutAllConcat(WithoutAll(rrs, ds), adds, later);
    WithoutAllChain(rrs, ds, later);
  }

  lemma {:induction false} KeptLength(rrs: Rrs, p: ResourceRecord -> bool)
    ensures |Kept(rrs, p)| <= |rrs|
    ensures |Kept(rrs, p)| == |rrs| <==> forall i :: 0 <= i < |rrs| ==> p(rrs[i])
    ensures |Kept(rrs, p)| == |rrs| ==> Kept(rrs, p) == rrs
  {
    if rrs != [] {
      var n := |rrs| - 1;
      KeptLength(rrs[..n], p);
      assert rrs == rrs[..n] + [rrs[n]];
      assert forall i :: 0 <= i < n ==> rrs[..n][i] == rrs[i];
    }
  }

  lemma HitByFirst(ds: seq<Deletion>, rr: ResourceRecord)
    requires ds != []
    ensures HitByAny(ds, rr) <==> Hits(ds[0], rr) || HitByAny(ds[1..], rr)
  {
    hide Hits;
    if HitByAny(ds, rr) && !Hits(ds[0], rr) {
      var i :| 0 <= i < |ds| && Hits(ds[i], rr);
      assert ds[1..][i - 1] == ds[i];
    }
    if HitByAny(ds[1..], rr) {
      var i :| 0 <= i < |ds[1..]| && Hits(ds[1..][i], rr);
      assert ds[i + 1] == ds[1..][i];
    }
  }

  lemma {:induction false} WithoutAllLength(rrs: Rrs, ds: seq<Deletion>)
    ensures |WithoutAll(rrs, ds)| <= |rrs|
    ensures |WithoutAll(rrs, ds)| == |rrs| <==> !AnyHit(ds, rrs)
    ensures |WithoutAll(rrs, ds)| == |rrs| ==> WithoutAll(rrs, ds) == rrs
    decreases |ds|
  {
    hide Hits, HitByAny;
    if ds == [] {
      forall i | 0 <= i < |rrs| ensures !HitByAny(ds, rrs[i]) { NothingHits(rrs[i]); }
    } else {
      var d := ds[0];
      var left := Without(rrs, d);
      KeptLength(rrs, rr => !Hits(d, rr));
      WithoutAllLength(left, ds[1..]);
      forall i | 0 <= i < |rrs| ensures HitByAny(ds, rrs[i]) <==> Hits(d, rrs[i]) || HitByAny(ds[1..], rrs[i]) {
        HitByFirst(ds, rrs[i]);
      }
    }
  }

  lemma NothingHits(rr: ResourceRecord)
    ensures !HitByAny([], rr)
  {
  }

  lemma {:induction false} SurvivorsLength(ops: seq<Op>)
    ensures |Survivors(ops)| <= |AllAdds(ops)|
    ensures |Survivors(ops)| == |AllAdds(ops)| <==> NoLateHit(ops)
    ensures NoLateHit(ops) ==> Survivors(ops) == AllAdds(ops)
  {
    hide AnyHit, WithoutAll;
    if ops != [] {
      WithoutAllLength(AddsOf(ops[0]), AllDeletions(ops[1..]));
      SurvivorsLength(ops[1..]);
    }
  }

  /**
   The deferred commit leaves the old records filtered by all deletes, followed by all adds;
   the eager transaction gives the same list exactly when no delete or replace matches a
   record added earlier in the transaction.
   */
  lemma DeferredIsEager(ntop: Ntop, pton: Pton, zone: Name, rrs: Rrs, ops: seq<Op>)
    requires HasRdata(AllAdds(ops))
    ensures var c := Committed(ntop, pton, zone, rrs, QueuedAll(NOTHING, ops));
      && c == Outgoing(WithoutAll(rrs, AllDeletions(ops)) + AllAdds(ops), false)
      && (c.records == AppliedAll(rrs, ops) <==> NoLateHit(ops))
  {
    hide WithoutAll, AllAdds, AllDeletions, Survivors, Extended, NoLateHit, HasRdata, AppliedAll;
    QueuedIsAll(NOTHING, ops);
    assert [] + AllAdds(ops) == AllAdds(ops) && [] + AllDeletions(ops) == AllDeletions(ops);
    ExtendedWithRdata(ntop, pton, WithoutAll(rrs, AllDeletions(ops)), AllAdds(ops));
    AppliedIsSurvivors(rrs, ops);
    SurvivorsLength(ops);
  }

  /** What the deletions leave: the records that none of them hits, in their order. */
  lemma {:induction false} WithoutAllIsFilter(rrs: Rrs, ds: seq<Deletion>)
    ensures WithoutAll(rrs, ds) == Kept(rrs, rr => !HitByAny(ds, rr))
    decreases |ds|
  {
    hide Hits, HitByAny;
    if ds == [] {
      forall i | 0 <= i < |rrs| ensures !HitByAny(ds, rrs[i]) { NothingHits(rrs[i]); }
      KeptLength(rrs, rr => !HitByAny(ds, rr));
    } else {
      WithoutAllIsFilter(Without(rrs, ds[0]), ds[1..]);
      KeptTwice(rrs, rr => !Hits(ds[0], rr), rr => !HitByAny(ds[1..], rr), rr => !HitByAny(ds, rr), ds);
    }
  }

  lemma {:induction false} KeptTwice(rrs: Rrs, p: ResourceRecord -> bool, q: ResourceRecord -> bool,
                                     both: ResourceRecord -> bool, ds: seq<Deletion>)
    requires ds != []
    requires forall rr :: p(rr) == !Hits(ds[0], rr) && q(rr) == !HitByAny(ds[1..], rr) && both(rr) == !HitByAny(ds, rr)
    ensures Kept(Kept(rrs, p), q) == Kept(rrs, both)
  {
    hide Hits, HitByAny;
    if rrs != [] {
      var last := rrs[|rrs| - 1];
      KeptTwice(rrs[..|rrs| - 1], p, q, both, ds);
      HitByFirst(ds, last);
      KeptConcat(Kept(rrs[..|rrs| - 1], p), if p(last) then [last] else [], q);
      assert [last][..0] == [];
    }
  }

  // ---- With a serial at the end ---------------------------------------------------

  /** Renumbering would leave every SOA that does not stand at the apex as it is. */
  predicate OthersNumbered(ntop: Ntop, pton: Pton, zone: Name, rrs: Rrs, serial: U32) {
    forall i :: 0 <= i < |rrs| && IsSoa(rrs[i]) && !ApexSoa(zone, rrs[i])
      ==> WithSerial(ntop, pton, rrs[i], serial).rr == rrs[i]
  }

  lemma ApexOrEverySoa(ntop: Ntop, pton: Pton, zone: Name, rrs: Rrs, serial: U32)
    requires AllRenumber(ntop, pton, rrs, 0, IsSoa, serial)
    ensures Renumbered(ntop, pton, rrs, 0, AtApex(zone), serial) == Renumbered(ntop, pton, rrs, 0, IsSoa, serial)
            <==> OthersNumbered(ntop, pton, zone, rrs, serial)
  {
    hide WithSerial, Renumbered, Same;
    RenumberedOneByOne(ntop, pton, rrs, 0, AtApex(zone), serial);
    RenumberedOneByOne(ntop, pton, rrs, 0, IsSoa, serial);
    var a := Renumbered(ntop, pton, rrs, 0, AtApex(zone), serial).records;
    var b := Renumbered(ntop, pton, rrs, 0, IsSoa, serial).records;
    if OthersNumbered(ntop, pton, zone, rrs, serial) {
      forall k | 0 <= k < |rrs| ensures a[k] == b[k] {}
    } else {
      var k :| 0 <= k < |rrs| && IsSoa(rrs[k]) && !ApexSoa(zone, rrs[k])
               && WithSerial(ntop, pton, rrs[k], serial).rr != rrs[k];
      assert a[k] != b[k];
    }
  }

  /**
   With a serial at the end, and where no renumbering throws, the two agree exactly when no
   delete hits an earlier add and the SOA records away from the apex carry the serial already
   or have no text to put it in.
   */
  lemma NumberedAlike(ntop: Ntop, pton: Pton, zone: Name, rrs: Rrs, ops: seq<Op>, serial: U32)
    requires HasRdata(AllAdds(ops)) && AllRenumber(ntop, pton, AppliedAll(rrs, ops), 0, IsSoa, serial)
    ensures Committed(ntop, pton, zone, rrs, QueuedAll(NOTHING, ops).(serial := Some(serial)))
            == Renumbered(ntop, pton, AppliedAll(rrs, ops), 0, IsSoa, serial)
            <==> NoLateHit(ops) && OthersNumbered(ntop, pton, zone, AppliedAll(rrs, ops), serial)
  {
    hide WithoutAll, AllAdds, AllDeletions, Survivors, NoLateHit, HasRdata, AppliedAll, Renumbered, Extended, QueuedAll,
         AllRenumber, OthersNumbered;
    DeferredIsEager(ntop, pton, zone, rrs, ops);
    QueuedIsAll(NOTHING, ops);
    var all := AppliedAll(rrs, ops);
    if NoLateHit(ops) {
      ApexOrEverySoa(ntop, pton, zone, all, serial);
    } else {
      AppliedIsSurvivors(rrs, ops);
      SurvivorsLength(ops);
      RenumberedOneByOne(ntop, pton, all, 0, IsSoa, serial);
      RenumberedOneByOne(ntop, pton, WithoutAll(rrs, AllDeletions(ops)) + AllAdds(ops), 0, AtApex(zone), serial);
    }
  }
}
