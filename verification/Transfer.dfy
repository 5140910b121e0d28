/**
 Zone transfer: handleAxfr of src/simple-dnsd/core/engine.cpp on a primary, the length
 framing of src/simple-dnsd/utils/net.cpp, and the record-level logic of
 refreshSecondaries of src/simple-dnsd/core/server.cpp on a secondary.
 */
module Transfer {
  import opened Text
  import opened DnsNames
  import opened NameCodec
  import opened Records
  import opened Rdata
  import opened MessageCodec
  import opened Store
  import opened MemoryBackends
  import opened Transactions
  import opened Router
  import opened Updates

  // ---- The primary ------------------------------------------------------------------------

  /** A default-constructed record. */
  const BLANK := ResourceRecord(ROOT, TYPE_A, CLASS_IN, 3600, [], [], 0, false, true)

  /** The last SOA record of the listing, or a blank one. */
  function LastSoa(rrs: Rrs): ResourceRecord {
    if rrs == [] then BLANK
    else if IsSoa(rrs[|rrs| - 1]) then rrs[|rrs| - 1]
    else LastSoa(rrs[..|rrs| - 1])
  }

  function NotSoa(rrs: Rrs): Rrs {
    Kept(rrs, rr => !IsSoa(rr))
  }

  /** The answer section of a transfer: the SOA, everything that is no SOA, the SOA again. */
  function Transferred(rrs: Rrs): Rrs {
    [LastSoa(rrs)] + NotSoa(rrs) + [LastSoa(rrs)]
  }

  /** handleAxfr, which always answers with one message. */
  function AxfrReply(zs: seq<Zones>, query: Message, tcp: bool, gate: Gate): Message {
    if !tcp || query.questions == [] then Replied(query, FORMERR)
    else
      var found := View(zs, query.questions[0].qname);
      if found.None? || !Same(found.value.info.name, query.questions[0].qname) then Replied(query, REFUSED)
      else if !gate.allowed && query.tsig.None? then Replied(query, REFUSED)
      else if query.tsig.Some? && !gate.verified then Replied(query, NOTAUTH)
      else
        var soa := LastSoa(found.value.records);
        if soa.rdata == [] && soa.content == [] then
          var r := Replied(query, SERVFAIL);
          r.(header := r.header.(aa := true))
        else
          var r := Replied(query, NOERROR);
          r.(header := r.header.(aa := true), answers := Transferred(found.value.records))
  }

  method HandleAxfr(router: BackendRouter, query: Message, tcp: bool, gate: Gate) returns (r: Message)
    requires AllKeyed(router.Tables())
    ensures r == AxfrReply(router.Tables(), query, tcp, gate)
  {
    hide Key, AllKeyed, RouterFound, OwnedRecords;
    r := MakeResponse(query);
    if !tcp || query.questions == [] {
      return Replied(query, FORMERR);
    }
    var zone := router.FindZone(query.questions[0].qname);
    if zone.None? {
      return Replied(query, REFUSED);
    }
    var same := Equals(zone.value.name, query.questions[0].qname);
    if !same || (!gate.allowed && query.tsig.None?) {
      return Replied(query, REFUSED);
    }
    if query.tsig.Some? && !gate.verified {
      return Replied(query, NOTAUTH);
    }
    var rrs := router.ListZone(zone.value);
    var soa, rest := SplitSoa(rrs);
    r := r.(header := r.header.(aa := true));
    if soa.rdata == [] && soa.content == [] {
      r := r.(header := r.header.(rcode := SERVFAIL));
    } else {
      r := r.(answers := [soa] + rest + [soa]);
    }
  }

  /** The loop that sets the SOA aside. */
  method SplitSoa(rrs: Rrs) returns (soa: ResourceRecord, rest: Rrs)
    ensures soa == LastSoa(rrs) && rest == NotSoa(rrs)
  {
    soa, rest := BLANK, [];
    ghost var p := (rr: ResourceRecord) => !IsSoa(rr);
    for i := 0 to |rrs|
      invariant soa == LastSoa(rrs[..i]) && rest == Kept(rrs[..i], p)
    {
      assert rrs[..i + 1][..i] == rrs[..i] && rrs[..i + 1][i] == rrs[i];
      if rrs[i].rtype == TYPE_SOA {
        soa := rrs[i];
      } else {
        rest := rest + [rrs[i]];
      }
    }
    assert rrs[..|rrs|] == rrs;
    KeptSame(rrs, p, rr => !IsSoa(rr));
  }

  // ---- The stream -----------------------------------------------------------------------------

  /** sendDnsMessage: the length, modulo 65536, in front. */
  function Framed(wire: Bytes): Bytes {
    Put16(|wire| % 0x1_0000) + wire
  }

  /** recvDnsMessage at offset off of what the peer sent. */
  function NextMessage(stream: Bytes, off: nat, maxSize: nat): (r: Read<Bytes>)
    ensures r.Got? ==> off < r.next <= |stream|
  {
    var len := Get16(stream, off);
    if len.Fail? || len.value == 0 || len.value > maxSize || len.next + len.value > |stream| then Fail
    else Got(stream[len.next..len.next + len.value], len.next + len.value)
  }

  // ---- The secondary ----------------------------------------------------------------------------

  /** The transfer is complete when an SOA stands at both ends. */
  predicate Complete(rrs: Rrs) {
    |rrs| >= 2 && IsSoa(rrs[0]) && IsSoa(rrs[|rrs| - 1])
  }

  /** The receive loop. */
  function Received(ntop: Ntop, stream: Bytes, off: nat, maxSize: nat, rrs: Rrs): Rrs
    requires off <= |stream|
    decreases |stream| - off
  {
    var m := NextMessage(stream, off, maxSize);
    if m.Fail? then rrs
    else
      var d := DecodedMessage(ntop, m.value);
      if d.None? then rrs
      else
        var more := rrs + d.value.answers;
        if Complete(more) then more else Received(ntop, stream, m.next, maxSize, more)
  }

  function DeletesFor(existing: Rrs): seq<Op> {
    if existing == [] then [] else DeletesFor(existing[..|existing| - 1]) + [DeleteName(existing[|existing| - 1].name)]
  }

  function AddsFor(rrs: Rrs): seq<Op> {
    if rrs == [] then [] else AddsFor(rrs[..|rrs| - 1]) + [Add(rrs[|rrs| - 1])]
  }

  /** The transaction of a refresh: delete every name there is, add all that came but the last record. */
  function RefreshOps(existing: Rrs, rrs: Rrs): seq<Op>
    requires rrs != []
  {
    DeletesFor(existing) + AddsFor(rrs[..|rrs| - 1])
  }

  /** The records of a secondary zone after one pull; fewer than two records received change nothing. */
  function Refreshed(ntop: Ntop, pton: Pton, zone: Name, existing: Rrs, stream: Bytes, maxSize: nat): Outgoing {
    var rrs := Received(ntop, stream, 0, maxSize, []);
    if |rrs| < 2 then Outgoing(existing, false)
    else Committed(ntop, pton, zone, existing, QueuedAll(NOTHING, RefreshOps(existing, rrs)))
  }

  method Receive(ntop: Ntop, stream: Bytes, maxSize: nat) returns (rrs: Rrs)
    ensures rrs == Received(ntop, stream, 0, maxSize, [])
  {
    hide DecodedMessage, NextMessage;
    rrs := [];
    var off := 0;
    while true
      invariant off <= |stream|
      invariant Received(ntop, stream, 0, maxSize, []) == Received(ntop, stream, off, maxSize, rrs)
      decreases |stream| - off
    {
      var m := NextMessage(stream, off, maxSize);
      if m.Fail? {
        break;
      }
      var d := DecodeMessage(ntop, m.value);
      if d.None? {
        break;
      }
      rrs := rrs + d.value.answers;
      off := m.next;
      if Complete(rrs) {
        break;
      }
    }
  }

  method QueueDeletes(tx: MemoryTransaction, existing: Rrs)
    modifies tx
    ensures tx.State() == QueuedAll(old(tx.State()), DeletesFor(existing))
  {
    hide Queued;
    for i := 0 to |existing|
      invariant tx.State() == QueuedAll(old(tx.State()), DeletesFor(existing[..i]))
    {
      assert existing[..i + 1][..i] == existing[..i] && existing[..i + 1][i] == existing[i];
      tx.DeleteName(existing[i].name);
      QueuedSnoc(old(tx.State()), DeletesFor(existing[..i]), DeleteName(existing[i].name));
    }
    assert existing[..|existing|] == existing;
  }

  method QueueAdds(tx: MemoryTransaction, rrs: Rrs)
    modifies tx
    ensures tx.State() == QueuedAll(old(tx.State()), AddsFor(rrs))
  {
    hide Queued;
    for i := 0 to |rrs|
      invariant tx.State() == QueuedAll(old(tx.State()), AddsFor(rrs[..i]))
    {
      assert rrs[..i + 1][..i] == rrs[..i] && rrs[..i + 1][i] == rrs[i];
      tx.AddRecord(rrs[i]);
      QueuedSnoc(old(tx.State()), AddsFor(rrs[..i]), Add(rrs[i]));
    }
    assert rrs[..|rrs|] == rrs;
  }

  lemma {:induction false} QueuedChain(p: Pending, a: seq<Op>, b: seq<Op>)
    ensures QueuedAll(p, a + b) == QueuedAll(QueuedAll(p, a), b)
    decreases |a|
  {
    hide Queued;
    if a == [] {
      assert a + b == b;
    } else {
      assert (a + b)[1..] == a[1..] + b;
      QueuedChain(Queued(p, a[0]), a[1..], b);
    }
  }

  lemma QueuedSnoc(p: Pending, ops: seq<Op>, op: Op)
    ensures QueuedAll(p, ops + [op]) == Queued(QueuedAll(p, ops), op)
  {
    hide Queued;
    QueuedChain(p, ops, [op]);
    assert [op][1..] == [];
  }

  /** One zone of refreshSecondaries; `applied` tells whether the cache is to be invalidated. */
  method RefreshZone(ntop: Ntop, pton: Pton, backend: MemoryBackend, key: Str, stream: Bytes, maxSize: nat)
    returns (threw: bool, applied: bool)
    requires key in backend.zones
    modifies backend
    ensures var z := old(backend.zones)[key];
            var r := Refreshed(ntop, pton, z.info.name, z.records, stream, maxSize);
            backend.zones == old(backend.zones)[key := z.(records := r.records)] && threw == r.threw
    ensures applied == (|Received(ntop, stream, 0, maxSize, [])| >= 2)
  {
    hide Received, Committed, QueuedAll;
    var rrs := Receive(ntop, stream, maxSize);
    if |rrs| < 2 {
      return false, false;
    }
    applied := true;
    var tx := new MemoryTransaction(backend, key);
    var existing := backend.zones[key].records;
    QueueDeletes(tx, existing);
    QueueAdds(tx, rrs[..|rrs| - 1]);
    QueuedChain(NOTHING, DeletesFor(existing), AddsFor(rrs[..|rrs| - 1]));
    threw := tx.Commit(ntop, pton);
  }
}
