/**
 Replication over the wire: a secondary's query, the primary's transfer, and the refresh
 transaction together copy the zone (section 2.2 of RFC 5936).
 */
module Replication {
  import opened DnsNames
  import opened NameCodec
  import opened Compression
  import opened Records
  import opened Numbers
  import opened Rdata
  import opened MessageCodec
  import opened MessageRoundTrip
  import opened MessagePrefix
  import opened Store
  import opened MemoryBackends
  import opened Transactions
  import opened Router
  import opened AnswerProperties
  import opened Updates
  import opened Transfer

  // ---- The transfer as a permutation --------------------------------------------------------

  function SoaCount(rrs: Rrs): nat {
    |Kept(rrs, IsSoa)|
  }

  lemma {:induction false} SoaSplit(rrs: Rrs)
    ensures multiset(Kept(rrs, IsSoa)) + multiset(NotSoa(rrs)) == multiset(rrs)
    ensures SoaCount(rrs) + |NotSoa(rrs)| == |rrs|
    ensures SoaCount(rrs) > 0 ==> LastSoa(rrs) == Kept(rrs, IsSoa)[SoaCount(rrs) - 1]
  {
    hide IsSoa, NotSoa, Kept, LastSoa;
    if rrs == [] {
      SplitNothing();
    } else {
      var n := |rrs| - 1;
      SoaSplit(rrs[..n]);
      SplitLast(rrs);
      SortedIn(rrs[..n], rrs[n], Kept(rrs[..n], IsSoa), NotSoa(rrs[..n]), IsSoa(rrs[n]));
      assert rrs == rrs[..n] + [rrs[n]];
    }
  }

  /** One more record on one side of a split. */
  lemma SortedIn(rrs: Rrs, rr: ResourceRecord, a: Rrs, b: Rrs, first: bool)
    requires multiset(a) + multiset(b) == multiset(rrs)
    ensures multiset(a + (if first then [rr] else [])) + multiset(b + (if first then [] else [rr]))
            == multiset(rrs + [rr])
  {
    assert a + [] == a && b + [] == b;
  }

  lemma SplitNothing()
    ensures Kept([], IsSoa) == [] && NotSoa([]) == []
  {
  }

  lemma SplitLast(rrs: Rrs)
    requires rrs != []
    ensures var n := |rrs| - 1;
      && NotSoa(rrs) == NotSoa(rrs[..n]) + (if IsSoa(rrs[n]) then [] else [rrs[n]])
      && Kept(rrs, IsSoa) == Kept(rrs[..n], IsSoa) + (if IsSoa(rrs[n]) then [rrs[n]] else [])
      && LastSoa(rrs) == if IsSoa(rrs[n]) then rrs[n] else LastSoa(rrs[..n])
  {
    hide IsSoa;
    var p := (rr: ResourceRecord) => !IsSoa(rr);
    KeptSame(rrs, p, rr => !IsSoa(rr));
    KeptSame(rrs[..|rrs| - 1], p, rr => !IsSoa(rr));
  }

  lemma {:induction false} LastSoaIn(rrs: Rrs)
    requires SoaCount(rrs) > 0
    ensures IsSoa(LastSoa(rrs)) && LastSoa(rrs) in rrs
  {
    SoaSplit(rrs);
    KeptIn(rrs, IsSoa, LastSoa(rrs));
  }

  /**
   The transferred list without its last record is a permutation of the zone exactly if the
   zone has one SOA; with none it is longer by a blank record, with more it is shorter.
   */
  lemma TransferIsPermutation(rrs: Rrs)
    ensures |[LastSoa(rrs)] + NotSoa(rrs)| == |rrs| + 1 - SoaCount(rrs)
    ensures multiset([LastSoa(rrs)] + NotSoa(rrs)) == multiset(rrs) <==> SoaCount(rrs) == 1
  {
    hide Kept, LastSoa;
    SoaSplit(rrs);
    var l := [LastSoa(rrs)] + NotSoa(rrs);
    if SoaCount(rrs) == 1 {
      assert Kept(rrs, IsSoa) == [LastSoa(rrs)];
    } else {
      assert |multiset(l)| == |l| != |rrs| == |multiset(rrs)|;
    }
  }

  lemma {:induction false} NoLastSoa(rrs: Rrs)
    requires SoaCount(rrs) == 0
    ensures LastSoa(rrs) == BLANK
  {
    hide IsSoa, Kept;
    if rrs != [] {
      SplitLast(rrs);
      NoLastSoa(rrs[..|rrs| - 1]);
    }
  }

  // ---- The refresh transaction ----------------------------------------------------------------

  lemma {:induction false} AllOfConcat(a: seq<Op>, b: seq<Op>)
    ensures AllDeletions(a + b) == AllDeletions(a) + AllDeletions(b)
    ensures AllAdds(a + b) == AllAdds(a) + AllAdds(b)
  {
    hide DeletionsOf, AddsOf;
    if a == [] {
      assert a + b == b;
    } else {
      assert (a + b)[1..] == a[1..] + b;
      AllOfConcat(a[1..], b);
    }
  }

  lemma AllOfOne(op: Op)
    ensures AllDeletions([op]) == DeletionsOf(op) && AllAdds([op]) == AddsOf(op)
  {
    assert [op][1..] == [];
    assert AllDeletions([op]) == DeletionsOf(op) + AllDeletions([]);
    assert AllAdds([op]) == AddsOf(op) + AllAdds([]);
  }

  lemma NoOps()
    ensures AllDeletions([]) == [] && AllAdds([]) == []
  {
  }

  lemma {:induction false} AddsForAll(rrs: Rrs)
    ensures AllAdds(AddsFor(rrs)) == rrs && AllDeletions(AddsFor(rrs)) == []
  {
    hide AllAdds, AllDeletions;
    NoOps();
    if rrs != [] {
      var n := |rrs| - 1;
      AddsForAll(rrs[..n]);
      AllOfConcat(AddsFor(rrs[..n]), [Add(rrs[n])]);
      AllOfOne(Add(rrs[n]));
    }
  }

  lemma {:induction false} DeletesForAll(existing: Rrs)
    ensures AllAdds(DeletesFor(existing)) == []
    ensures |AllDeletions(DeletesFor(existing))| == |existing|
    ensures forall i :: 0 <= i < |existing| ==>
              AllDeletions(DeletesFor(existing))[i] == Deletion(existing[i].name, TYPE_ANY, true)
  {
    hide AllAdds, AllDeletions;
    NoOps();
    if existing != [] {
      var n := |existing| - 1;
      var init := existing[..n];
      DeletesForAll(init);
      AllOfConcat(DeletesFor(init), [DeleteName(existing[n].name)]);
      AllOfOne(DeleteName(existing[n].name));
      DeletionsSnoc(AllDeletions(DeletesFor(init)), existing);
    }
  }

  lemma DeletionsSnoc(ds: seq<Deletion>, existing: Rrs)
    requires existing != [] && |ds| == |existing| - 1
    requires forall i :: 0 <= i < |ds| ==> ds[i] == Deletion(existing[..|existing| - 1][i].name, TYPE_ANY, true)
    ensures var all := ds + [Deletion(existing[|existing| - 1].name, TYPE_ANY, true)];
      |all| == |existing|
      && forall i :: 0 <= i < |existing| ==> all[i] == Deletion(existing[i].name, TYPE_ANY, true)
  {
  }

  /** Deleting every name that is there leaves nothing. */
  lemma NothingLeft(existing: Rrs)
    ensures WithoutAll(existing, AllDeletions(DeletesFor(existing))) == []
  {
    hide WithoutAll, Hits;
    var ds := AllDeletions(DeletesFor(existing));
    DeletesForAll(existing);
    WithoutAllIsFilter(existing, ds);
    forall i | 0 <= i < |existing| ensures HitByAny(ds, existing[i]) { OwnNameHits(ds, existing[i], i); }
    KeptNone(existing, rr => !HitByAny(ds, rr));
  }

  lemma OwnNameHits(ds: seq<Deletion>, rr: ResourceRecord, i: nat)
    requires i < |ds| && ds[i] == Deletion(rr.name, TYPE_ANY, true)
    ensures HitByAny(ds, rr)
  {
    assert Hits(ds[i], rr);
  }

  /** Whatever was there before, a refresh adds what came without the closing SOA to nothing. */
  lemma RefreshReplaces(ntop: Ntop, pton: Pton, zone: Name, existing: Rrs, rrs: Rrs)
    requires rrs != []
    ensures Committed(ntop, pton, zone, existing, QueuedAll(NOTHING, RefreshOps(existing, rrs)))
            == Extended(ntop, pton, [], rrs[..|rrs| - 1])
  {
    hide WithoutAll, AllAdds, AllDeletions, QueuedAll, DeletesFor, AddsFor, Extended;
    var arriving := rrs[..|rrs| - 1];
    AllOfConcat(DeletesFor(existing), AddsFor(arriving));
    AddsForAll(arriving);
    DeletesForAll(existing);
    QueuedIsAll(NOTHING, RefreshOps(existing, rrs));
    assert [] + ([] + arriving) == arriving;
    assert [] + (AllDeletions(DeletesFor(existing)) + []) == AllDeletions(DeletesFor(existing));
    NothingLeft(existing);
  }

  // ---- The stream --------------------------------------------------------------------------------

  /** What the receiver takes for the first message: as many bytes as the length modulo 65536 says. */
  lemma FrameRead(wire: Bytes, maxSize: nat)
    ensures var n := |wire| % 0x1_0000;
      NextMessage(Framed(wire), 0, maxSize) == if n == 0 || n > maxSize then Fail else Got(wire[..n], 2 + n)
  {
    hide Put16, Get16;
    var s, n := Framed(wire), |wire| % 0x1_0000;
    assert s[0..2] == Put16(n);
    Get16Put(s, 0, n);
    assert s[2..2 + n] == wire[..n];
  }

  /** A message that the sender can frame and the receiver accepts. */
  predicate Fits(wire: Bytes, maxSize: nat) {
    |wire| < 0x1_0000 && |wire| <= maxSize
  }

  lemma DecodedIsLong(ntop: Ntop, wire: Bytes)
    requires DecodedMessage(ntop, wire).Some?
    ensures |wire| >= HEADER_SIZE
  {
  }

  lemma StreamEnds(ntop: Ntop, wire: Bytes, maxSize: nat, rrs: Rrs)
    ensures Received(ntop, Framed(wire), |Framed(wire)|, maxSize, rrs) == rrs
  {
  }

  /**
   The answers of the one message on the stream are received if it fits, and otherwise nothing:
   a longer message is cut by its own length field, and what is left of it does not decode.
   */
  lemma ReplyReceived(ntop: Ntop, r: Message, maxSize: nat)
    requires Encodable(r) && !r.header.tc
    requires var d := DecodedMessage(ntop, EncodedMessage(r, 0).bytes);
      d.Some? ==> d.value.answers == [] || Complete(d.value.answers)
    ensures var wire := EncodedMessage(r, 0).bytes; var d := DecodedMessage(ntop, wire);
      d.Some? && Received(ntop, Framed(wire), 0, maxSize, []) == if Fits(wire, maxSize) then d.value.answers else []
  {
    hide DecodedMessage, EncodedMessage, Framed, Encodable, NextMessage, Complete, Received;
    var wire := EncodedMessage(r, 0).bytes;
    RoundTrip(ntop, r);
    DecodedIsLong(ntop, wire);
    FrameRead(wire, maxSize);
    if |wire| < 0x1_0000 {
      assert wire[..|wire|] == wire;
      FramedLength(wire);
      StreamEnds(ntop, wire, maxSize, []);
      FirstReceived(ntop, Framed(wire), maxSize, wire);
    } else {
      var n := |wire| % 0x1_0000;
      CutWireIsRefused(ntop, r, n);
      FirstReceived(ntop, Framed(wire), maxSize, wire[..n]);
    }
  }

  /** One step of the receiver: it stops at a message that cannot be taken or decoded, or at a whole transfer. */
  lemma FirstReceived(ntop: Ntop, stream: Bytes, maxSize: nat, wire: Bytes)
    ensures var m := NextMessage(stream, 0, maxSize); var d := DecodedMessage(ntop, wire);
      var r := Received(ntop, stream, 0, maxSize, []);
      && (m.Fail? ==> r == [])
      && (m.Got? && m.value == wire && d.None? ==> r == [])
      && (m.Got? && m.value == wire && d.Some? && Complete(d.value.answers) ==> r == d.value.answers)
      && (m.Got? && m.value == wire && d.Some? && d.value.answers == [] ==>
            r == Received(ntop, stream, m.next, maxSize, []))
  {
    hide DecodedMessage, NextMessage;
    var d := DecodedMessage(ntop, wire);
    if d.Some? { assert [] + d.value.answers == d.value.answers; }
  }

  lemma FramedLength(wire: Bytes)
    ensures |Framed(wire)| == 2 + |wire|
  {
  }

  // ---- The query ---------------------------------------------------------------------------------

  function PullQuery(zone: Name): Message {
    MakeQuery(zone, TYPE_AXFR, 1, false)
  }

  /** What the primary makes of the query as it arrives. */
  function PullReply(ntop: Ntop, zs: seq<Zones>, zone: Name, gate: Gate): Message {
    var q := DecodedMessage(ntop, EncodedMessage(PullQuery(zone), 0).bytes);
    AxfrReply(zs, if q.Some? then q.value else PullQuery(zone), true, gate)
  }

  /** A whole pull: query, reply, and the records of the secondary afterwards. */
  function Pulled(ntop: Ntop, pton: Pton, zs: seq<Zones>, zone: Name, gate: Gate, existing: Rrs,
                  maxSize: nat): Outgoing {
    Refreshed(ntop, pton, zone, existing, Framed(EncodedMessage(PullReply(ntop, zs, zone, gate), 0).bytes), maxSize)
  }

  lemma QueryArrives(ntop: Ntop, zone: Name)
    requires PlainName(zone) && |zone| <= MAX_JUMPS
    ensures var d := DecodedMessage(ntop, EncodedMessage(PullQuery(zone), 0).bytes);
      && d.Some? && |d.value.questions| == 1 && Same(d.value.questions[0].qname, zone)
      && d.value.tsig == None && d.value.header.opcode == OPCODE_QUERY
  {
    hide DecodedMessage, EncodedMessage, PlainName;
    var q := PullQuery(zone);
    assert PlainQuestions(q.questions);
    RoundTrip(ntop, q);
    var d := DecodedMessage(ntop, EncodedMessage(q, 0).bytes).value;
    assert Trailer(q) == [];
    assert |TsigList(d.tsig)| == 0;
    assert SameQuestion(d.questions[0], q.questions[0]);
  }

  // ---- The theorem -------------------------------------------------------------------------------

  /** The records can travel: their names are plain, and their number leaves room for the SOA twice. */
  predicate Transferable(rrs: Rrs) {
    PlainRecords(rrs) && |rrs| < 0xFFFF
  }

  /** The last SOA has rdata or text; without either the transfer is a server failure. */
  predicate SoaSpeaks(rrs: Rrs) {
    LastSoa(rrs).rdata != [] || LastSoa(rrs).content != []
  }

  /** The answers of the reply: none where the transfer fails. */
  function Sent(rrs: Rrs): Rrs {
    if SoaSpeaks(rrs) then Transferred(rrs) else []
  }

  /** The zone that the primary is asked for is there, under a name that can travel, and may be transferred. */
  predicate Offered(zs: seq<Zones>, zone: Name, gate: Gate, z: MemZone) {
    && PlainName(zone) && |zone| <= MAX_JUMPS && gate.allowed
    && View(zs, zone) == Some(z) && Same(z.info.name, zone) && Transferable(z.records)
  }

  lemma ReplyIsTransfer(ntop: Ntop, zs: seq<Zones>, zone: Name, gate: Gate, z: MemZone)
    requires Offered(zs, zone, gate, z)
    ensures var r := PullReply(ntop, zs, zone, gate);
      Encodable(r) && !r.header.tc && r.answers == Sent(z.records)
  {
    hide DecodedMessage, EncodedMessage, PlainName, PlainRecords, View, Transferred, SoaCount, LastSoa;
    QueryArrives(ntop, zone);
    var q := DecodedMessage(ntop, EncodedMessage(PullQuery(zone), 0).bytes).value;
    ViewSame(zs, q.questions[0].qname, zone);
    SameTriangle(z.info.name, zone, q.questions[0].qname);
    PlainArrives(zone, q);
    NonePlain();
    if SoaSpeaks(z.records) { TransferPlain(z.records); }
  }

  lemma NonePlain()
    ensures PlainRecords([])
  {
  }

  lemma SameTriangle(a: Name, b: Name, c: Name)
    requires Same(a, b) && Same(c, b)
    ensures Same(a, c)
  {
  }

  lemma PlainArrives(zone: Name, q: Message)
    requires PlainName(zone) && |zone| <= MAX_JUMPS
    requires |q.questions| == 1 && Same(q.questions[0].qname, zone)
    ensures PlainQuestions(q.questions)
  {
    SameSymmetric(q.questions[0].qname, zone);
    PlainSame(zone, q.questions[0].qname);
    SameLabelCount(zone, q.questions[0].qname);
  }

  lemma SoaIsThere(rrs: Rrs)
    requires SoaSpeaks(rrs)
    ensures SoaCount(rrs) > 0
  {
    hide SoaCount;
    if SoaCount(rrs) == 0 { NoLastSoa(rrs); }
  }

  lemma TransferPlain(rrs: Rrs)
    requires Transferable(rrs) && SoaSpeaks(rrs)
    ensures PlainRecords(Transferred(rrs)) && |Transferred(rrs)| < 0x1_0000 && Complete(Transferred(rrs))
    ensures forall rr :: rr in Transferred(rrs) ==> rr in rrs
  {
    hide Kept, PlainRecord, LastSoa;
    SoaIsThere(rrs);
    LastSoaIn(rrs);
    SoaSplit(rrs);
    var soa, rest := LastSoa(rrs), NotSoa(rrs);
    forall i | 0 <= i < |rest| ensures rest[i] in rrs { KeptIn(rrs, rr => !IsSoa(rr), rest[i]); }
    assert forall rr :: rr in Transferred(rrs) ==> rr in rrs;
  }

  /** What the secondary decodes: the transfer, names up to case, from one message. */
  lemma ReplyArrives(ntop: Ntop, r: Message, rrs: Rrs)
    requires Encodable(r) && !r.header.tc && r.answers == Sent(rrs) && Transferable(rrs)
    ensures var d := DecodedMessage(ntop, EncodedMessage(r, 0).bytes);
      && d.Some? && SameRecords(ntop, d.value.answers, Sent(rrs))
      && (SoaSpeaks(rrs) ==> Complete(d.value.answers))
  {
    hide DecodedMessage, EncodedMessage, Encodable, Transferable, Transferred, SoaSpeaks, SameQuestions, EdnsOf,
         NonTsig, LastTsig, SameRecord;
    RoundTrip(ntop, r);
    if SoaSpeaks(rrs) {
      var d := DecodedMessage(ntop, EncodedMessage(r, 0).bytes).value;
      TransferPlain(rrs);
      SameEnds(ntop, d.answers, Transferred(rrs));
    }
  }

  lemma SameEnds(ntop: Ntop, a: Rrs, b: Rrs)
    requires SameRecords(ntop, a, b) && Complete(b)
    ensures Complete(a)
  {
    hide Arrived;
    forall i | 0 <= i < |a| ensures a[i].rtype == b[i].rtype {
      assert SameRecord(ntop, a[i], b[i]);
      ArrivedFields(ntop, a[i].name, b[i]);
    }
  }

  /** The bytes of the primary's reply. */
  function PullWire(ntop: Ntop, zs: seq<Zones>, zone: Name, gate: Gate): Bytes {
    EncodedMessage(PullReply(ntop, zs, zone, gate), 0).bytes
  }

  /** The records that arrive, without the closing SOA. */
  function Arriving(ntop: Ntop, zs: seq<Zones>, zone: Name, gate: Gate): Rrs {
    var d := DecodedMessage(ntop, PullWire(ntop, zs, zone, gate));
    if d.None? || d.value.answers == [] then [] else d.value.answers[..|d.value.answers| - 1]
  }

  /** What a pull leaves: the transfer if there is one and the message fits, and otherwise what was there. */
  lemma PullBrings(ntop: Ntop, pton: Pton, zs: seq<Zones>, zone: Name, gate: Gate, z: MemZone, existing: Rrs,
                   maxSize: nat)
    requires Offered(zs, zone, gate, z)
    ensures Pulled(ntop, pton, zs, zone, gate, existing, maxSize)
            == if SoaSpeaks(z.records) && Fits(PullWire(ntop, zs, zone, gate), maxSize)
               then Extended(ntop, pton, [], Arriving(ntop, zs, zone, gate)) else Outgoing(existing, false)
    ensures SoaSpeaks(z.records) ==>
              SameRecords(ntop, Arriving(ntop, zs, zone, gate), [LastSoa(z.records)] + NotSoa(z.records))
  {
    hide DecodedMessage, EncodedMessage, Encodable, Transferable, Transferred, SoaSpeaks, PlainName, View, Same,
         SameRecord, Received, Committed, QueuedAll, RefreshOps, Framed, AxfrReply, PullQuery, Fits, Extended,
         LastSoa, NotSoa;
    ReplyIsTransfer(ntop, zs, zone, gate, z);
    var r := PullReply(ntop, zs, zone, gate);
    ReplyArrives(ntop, r, z.records);
    ReplyReceived(ntop, r, maxSize);
    var d := DecodedMessage(ntop, PullWire(ntop, zs, zone, gate)).value;
    if SoaSpeaks(z.records) {
      RefreshReplaces(ntop, pton, zone, existing, d.answers);
      WholeTransfer(z.records);
      SameWithoutLast(ntop, d.answers, Transferred(z.records));
    }
  }

  lemma SameWithoutLast(ntop: Ntop, a: Rrs, b: Rrs)
    requires SameRecords(ntop, a, b) && b != []
    ensures |a| == |b| && SameRecords(ntop, a[..|a| - 1], b[..|b| - 1])
  {
    hide SameRecord;
  }

  lemma WholeTransfer(rrs: Rrs)
    ensures Transferred(rrs) != [] && Transferred(rrs)[..|Transferred(rrs)| - 1] == [LastSoa(rrs)] + NotSoa(rrs)
  {
  }

  // ---- Records without rdata ----------------------------------------------------------------------

  /** A record without rdata as it arrives: its text is made from nothing. */
  function Bare(ntop: Ntop, rr: ResourceRecord): ResourceRecord {
    Arrived(ntop, rr.name, rr.rtype, rr.rclass, rr.ttl, [])
  }

  /** A record that the secondary stores as it arrives: it has rdata, or filling it in leaves it empty. */
  predicate Travels(ntop: Ntop, pton: Pton, rr: ResourceRecord) {
    rr.rdata != [] || Filled(ntop, pton, Bare(ntop, rr)) == Returns(Bare(ntop, rr))
  }

  predicate AllTravel(ntop: Ntop, pton: Pton, rrs: Rrs) {
    forall i :: 0 <= i < |rrs| ==> Travels(ntop, pton, rrs[i])
  }

  lemma BareUnderName(ntop: Ntop, rr: ResourceRecord, name: Name)
    ensures Arrived(ntop, name, rr.rtype, rr.rclass, rr.ttl, []) == Bare(ntop, rr).(name := name)
    ensures Bare(ntop, rr).rdata == []
  {
    hide DomainText, TxtText, SoaText, GenericText, Spaced, Decimal;
  }

  /** An arrived record is stored as it is exactly if the record that was sent travels. */
  lemma TravelsIff(ntop: Ntop, pton: Pton, a: ResourceRecord, b: ResourceRecord)
    requires SameRecord(ntop, a, b)
    ensures Filled(ntop, pton, a) == Returns(a) <==> Travels(ntop, pton, b)
    ensures a.rdata == b.rdata && a.rtype == b.rtype && (b.rdata == [] ==> a == Bare(ntop, b).(name := a.name))
  {
    hide Arrived, ContentToRdata, Bare;
    ArrivedFields(ntop, a.name, b);
    if b.rdata == [] {
      BareUnderName(ntop, b, a.name);
      NameIsIrrelevant(ntop, pton, Bare(ntop, b), a.name);
      ConvertedKeeps(ntop, pton, Bare(ntop, b));
      ArrivedFields(ntop, b.name, b);
    }
  }

  /** How many records have no rdata. */
  function BareCount(rrs: Rrs): nat {
    if rrs == [] then 0 else BareCount(rrs[..|rrs| - 1]) + if rrs[|rrs| - 1].rdata == [] then 1 else 0
  }

  lemma {:induction false} BareConcat(a: Rrs, b: Rrs)
    ensures BareCount(a + b) == BareCount(a) + BareCount(b)
  {
    if b == [] {
      assert a + b == a;
    } else {
      assert (a + b)[..|a + b| - 1] == a + b[..|b| - 1];
      BareConcat(a, b[..|b| - 1]);
    }
  }

  function Removed(rrs: Rrs, j: nat): Rrs
    requires j < |rrs|
  {
    rrs[..j] + rrs[j + 1..]
  }

  lemma RemovedParts(rrs: Rrs, j: nat)
    requires j < |rrs|
    ensures multiset(Removed(rrs, j)) == multiset(rrs) - multiset{rrs[j]}
  {
    assert rrs == rrs[..j] + [rrs[j]] + rrs[j + 1..];
  }

  lemma BareRemoved(rrs: Rrs, j: nat)
    requires j < |rrs|
    ensures BareCount(rrs) == BareCount(Removed(rrs, j)) + BareCount([rrs[j]])
  {
    hide BareCount;
    assert rrs == rrs[..j] + ([rrs[j]] + rrs[j + 1..]);
    BareConcat(rrs[..j], [rrs[j]] + rrs[j + 1..]);
    BareConcat([rrs[j]], rrs[j + 1..]);
    BareConcat(rrs[..j], rrs[j + 1..]);
  }

  lemma {:induction false} BarePermuted(a: Rrs, b: Rrs)
    requires multiset(a) == multiset(b)
    ensures BareCount(a) == BareCount(b)
    decreases |a|
  {
    hide BareCount, Removed;
    assert |a| == |multiset(a)| == |multiset(b)| == |b|;
    if a == [] {
      assert b == [];
    } else {
      assert a[0] in multiset(b);
      var j :| 0 <= j < |b| && b[j] == a[0];
      RemovedParts(a, 0);
      RemovedParts(b, j);
      RemovedLess(a, 0);
      BarePermuted(Removed(a, 0), Removed(b, j));
      BareRemoved(a, 0);
      BareRemoved(b, j);
    }
  }

  lemma RemovedLess(rrs: Rrs, j: nat)
    requires j < |rrs|
    ensures |Removed(rrs, j)| < |rrs|
  {
  }

  /** If filling never empties rdata, and as many are empty after as before, they are the same ones. */
  lemma {:induction false} BareStay(a: Rrs, filled: Rrs)
    requires |a| == |filled| && forall i :: 0 <= i < |a| ==> (filled[i].rdata == [] ==> a[i].rdata == [])
    ensures BareCount(filled) <= BareCount(a)
    ensures BareCount(filled) == BareCount(a)
            ==> forall i :: 0 <= i < |a| ==> (filled[i].rdata == [] <==> a[i].rdata == [])
  {
    if a != [] {
      var n := |a| - 1;
      BareStay(a[..n], filled[..n]);
      if BareCount(filled) == BareCount(a) {
        forall i | 0 <= i < |a| ensures filled[i].rdata == [] <==> a[i].rdata == [] {
          if i < n { assert filled[i] == filled[..n][i] && a[i] == a[..n][i]; }
        }
      }
    }
  }

  lemma {:induction false} BareAlike(a: Rrs, b: Rrs)
    requires |a| == |b| && forall i :: 0 <= i < |a| ==> a[i].rdata == b[i].rdata
    ensures BareCount(a) == BareCount(b)
  {
    if a != [] { BareAlike(a[..|a| - 1], b[..|b| - 1]); }
  }

  // ---- The exact condition ------------------------------------------------------------------------

  /** result holds the records of the zone in some order, as they arrive over the wire. */
  ghost predicate Replicates(ntop: Ntop, result: Rrs, rrs: Rrs) {
    exists order: Rrs :: multiset(order) == multiset(rrs) && SameRecords(ntop, result, order)
  }

  lemma ReplicatesLength(ntop: Ntop, result: Rrs, rrs: Rrs)
    requires Replicates(ntop, result, rrs)
    ensures |result| == |rrs|
  {
    hide SameRecord;
    var order: Rrs :| multiset(order) == multiset(rrs) && SameRecords(ntop, result, order);
    assert |order| == |multiset(order)| == |multiset(rrs)| == |rrs|;
  }

  lemma SameRdata(ntop: Ntop, a: Rrs, b: Rrs)
    requires SameRecords(ntop, a, b)
    ensures BareCount(a) == BareCount(b)
  {
    hide Arrived;
    forall i | 0 <= i < |a| ensures a[i].rdata == b[i].rdata {
      assert SameRecord(ntop, a[i], b[i]);
      ArrivedFields(ntop, a[i].name, b[i]);
    }
    BareAlike(a, b);
  }

  /** What filling leaves of one record that arrived. */
  lemma FilledOne(ntop: Ntop, pton: Pton, a: ResourceRecord, f: ResourceRecord)
    requires Filled(ntop, pton, a) == Returns(f)
    ensures f.name == a.name && f.rtype == a.rtype && f.rclass == a.rclass && f.ttl == a.ttl
    ensures a.rdata != [] ==> f == a
  {
    hide ContentToRdata;
    ConvertedKeeps(ntop, pton, a);
  }

  /** A filled record that is still empty and still looks as it would have arrived is unchanged. */
  lemma FilledUnchanged(ntop: Ntop, a: ResourceRecord, b: ResourceRecord, f: ResourceRecord, o: ResourceRecord)
    requires SameRecord(ntop, a, b) && SameRecord(ntop, f, o) && a.rdata == [] && f.rdata == []
    requires f.name == a.name && f.rtype == a.rtype && f.rclass == a.rclass && f.ttl == a.ttl
    ensures f == a
  {
    hide Arrived;
    ArrivedFields(ntop, a.name, b);
    ArrivedFields(ntop, f.name, o);
  }

  /** If the filled records are those of the zone again, every one of them was stored as it arrived. */
  lemma ReplicatedTravel(ntop: Ntop, pton: Pton, a: Rrs, b: Rrs, filled: Rrs, rrs: Rrs)
    requires SameRecords(ntop, a, b) && FilledInto(ntop, pton, a, filled)
    requires multiset(b) == multiset(rrs) && Replicates(ntop, filled, rrs)
    ensures AllTravel(ntop, pton, b)
  {
    hide SameRecord, Filled, Travels, BareCount;
    var order: Rrs :| multiset(order) == multiset(rrs) && SameRecords(ntop, filled, order);
    SameRdata(ntop, filled, order);
    SameRdata(ntop, a, b);
    BarePermuted(order, b);
    forall i | 0 <= i < |a| ensures filled[i].rdata == [] ==> a[i].rdata == [] {
      FilledOne(ntop, pton, a[i], filled[i]);
    }
    BareStay(a, filled);
    forall i | 0 <= i < |b| ensures Travels(ntop, pton, b[i]) {
      FilledOne(ntop, pton, a[i], filled[i]);
      if a[i].rdata == [] { FilledUnchanged(ntop, a[i], b[i], filled[i], order[i]); }
      TravelsIff(ntop, pton, a[i], b[i]);
    }
  }

  /** If all records travel they are stored as they arrived. */
  lemma TravelledFilled(ntop: Ntop, pton: Pton, a: Rrs, b: Rrs)
    requires SameRecords(ntop, a, b) && AllTravel(ntop, pton, b)
    ensures Extended(ntop, pton, [], a) == Outgoing(a, false)
  {
    hide SameRecord, Filled, Travels, Extended;
    ExtendedFills(ntop, pton, [], a);
    forall i | 0 <= i < |a| ensures Filled(ntop, pton, a[i]) == Returns(a[i]) { TravelsIff(ntop, pton, a[i], b[i]); }
    var e := Extended(ntop, pton, [], a);
    assert e.records[0..] == e.records;
    forall i | 0 <= i < |a| ensures e.records[i] == a[i] {}
  }

  lemma TravelPermuted(ntop: Ntop, pton: Pton, a: Rrs, b: Rrs)
    requires multiset(a) == multiset(b) && AllTravel(ntop, pton, a)
    ensures AllTravel(ntop, pton, b)
  {
    hide Travels;
    forall i | 0 <= i < |b| ensures Travels(ntop, pton, b[i]) {
      assert b[i] in multiset(b) && b[i] in a;
    }
  }

  /** What the secondary stores replicates the zone exactly if it has one SOA and all its records travel. */
  lemma StoredReplicates(ntop: Ntop, pton: Pton, a: Rrs, rrs: Rrs)
    requires SameRecords(ntop, a, [LastSoa(rrs)] + NotSoa(rrs))
    ensures var e := Extended(ntop, pton, [], a);
      !e.threw && Replicates(ntop, e.records, rrs) <==> SoaCount(rrs) == 1 && AllTravel(ntop, pton, rrs)
  {
    hide SameRecord, SoaCount, LastSoa, NotSoa, Extended, AllTravel, Replicates;
    var b := [LastSoa(rrs)] + NotSoa(rrs);
    var e := Extended(ntop, pton, [], a);
    TransferIsPermutation(rrs);
    ExtendedFills(ntop, pton, [], a);
    assert !e.threw ==> e.records[0..] == e.records;
    if !e.threw && Replicates(ntop, e.records, rrs) {
      ReplicatesLength(ntop, e.records, rrs);
      ReplicatedTravel(ntop, pton, a, b, e.records, rrs);
      TravelPermuted(ntop, pton, b, rrs);
    }
    if SoaCount(rrs) == 1 && AllTravel(ntop, pton, rrs) {
      TravelPermuted(ntop, pton, rrs, b);
      TravelledFilled(ntop, pton, a, b);
      assert Replicates(ntop, a, rrs) by { OrderReplicates(ntop, a, b, rrs); }
    }
  }

  lemma OrderReplicates(ntop: Ntop, result: Rrs, order: Rrs, rrs: Rrs)
    requires multiset(order) == multiset(rrs) && SameRecords(ntop, result, order)
    ensures Replicates(ntop, result, rrs)
  {
    hide SameRecord;
  }

  /** What a pull leaves, against the zone; pulling again does the same, whatever the first pull did. */
  lemma PullReplicates(ntop: Ntop, pton: Pton, zs: seq<Zones>, zone: Name, gate: Gate, z: MemZone, existing: Rrs,
                       maxSize: nat)
    requires Offered(zs, zone, gate, z)
    ensures var r := Pulled(ntop, pton, zs, zone, gate, existing, maxSize);
      && (if Fits(PullWire(ntop, zs, zone, gate), maxSize) && SoaSpeaks(z.records)
          then !r.threw && Replicates(ntop, r.records, z.records)
               <==> SoaCount(z.records) == 1 && AllTravel(ntop, pton, z.records)
          else r == Outgoing(existing, false))
      && Pulled(ntop, pton, zs, zone, gate, r.records, maxSize) == r
  {
    hide Offered, SoaCount, SameRecords, Pulled, PullWire, Replicates, NotSoa, LastSoa, Fits, SoaSpeaks, AllTravel,
         Extended, Arriving;
    PullBrings(ntop, pton, zs, zone, gate, z, existing, maxSize);
    var r := Pulled(ntop, pton, zs, zone, gate, existing, maxSize);
    PullBrings(ntop, pton, zs, zone, gate, z, r.records, maxSize);
    if SoaSpeaks(z.records) { StoredReplicates(ntop, pton, Arriving(ntop, zs, zone, gate), z.records); }
  }

  /**
   Replication: a pull leaves a permutation of the primary's records, whatever the secondary
   held before, exactly if the primary has one SOA, with rdata or text; every record has rdata
   or is stored without it as it arrives; and the reply is neither larger than the secondary
   accepts nor too long for the two bytes in front of it.
   */
  lemma ReplicationExactly(ntop: Ntop, pton: Pton, zs: seq<Zones>, zone: Name, gate: Gate, z: MemZone, maxSize: nat)
    requires Offered(zs, zone, gate, z)
    ensures (forall existing ::
               var r := Pulled(ntop, pton, zs, zone, gate, existing, maxSize);
               !r.threw && Replicates(ntop, r.records, z.records))
            <==> (&& SoaCount(z.records) == 1 && SoaSpeaks(z.records) && AllTravel(ntop, pton, z.records)
                  && Fits(PullWire(ntop, zs, zone, gate), maxSize))
  {
    hide Offered, SoaCount, Pulled, PullWire, Replicates, Fits, SoaSpeaks, AllTravel;
    if && SoaCount(z.records) == 1 && SoaSpeaks(z.records) && AllTravel(ntop, pton, z.records)
       && Fits(PullWire(ntop, zs, zone, gate), maxSize) {
      forall existing: Rrs
        ensures var r := Pulled(ntop, pton, zs, zone, gate, existing, maxSize);
          !r.threw && Replicates(ntop, r.records, z.records)
      {
        PullReplicates(ntop, pton, zs, zone, gate, z, existing, maxSize);
      }
    } else {
      var other := if z.records == [] then [BLANK] else [];
      PullReplicates(ntop, pton, zs, zone, gate, z, other, maxSize);
      var r := Pulled(ntop, pton, zs, zone, gate, other, maxSize);
      if Replicates(ntop, r.records, z.records) { ReplicatesLength(ntop, r.records, z.records); }
    }
  }
}
