/**
 Replies that say no, and updates that are seen: which requests are turned away with which
 code, and what the zones look like to every later query once an update went through.
 */
module Replies {
  import opened DnsNames
  import opened Records
  import opened Numbers
  import opened Store
  import opened MemoryBackends
  import opened Transactions
  import opened Router
  import opened Updates
  import opened Transfer
  import opened Cache
  import opened Engine
  import R = RateLimiter

  // ---- Replies without records -------------------------------------------------------------

  /** A reply with this code that carries the questions back and no record. */
  predicate Bare(query: Message, r: Message, code: int) {
    && r.header.id == query.header.id && r.header.opcode == query.header.opcode && r.header.rd == query.header.rd
    && r.header.qr && r.header.rcode == code && !r.header.tc && !r.header.ra && !r.header.ad && !r.header.cd
    && r.questions == query.questions && r.answers == [] && r.authority == [] && r.additional == []
    && r.edns == query.edns && r.tsig.None?
  }

  /** Nothing but the request counts of the peers changed. */
  predicate Untouched(st: State, after: State) {
    after.zs == st.zs && after.entries == st.entries
  }

  predicate TurnedAway(st: State, c: Call, h: Outcome<Reply>, code: int) {
    h.Returns? && Bare(c.query, h.value.response, code) && !h.value.response.header.aa && Untouched(st, h.value.state)
  }

  /**
   What is answered before any zone is looked at: 5 over the rate, then 0 for a notification,
   4 for an opcode that is not implemented and 1 for a query without a question.
   */
  lemma EarlyReplies(env: Env, st: State, c: Call)
    ensures var h := Handled(env, st, c); var code := c.query.header.opcode;
      if !R.Decided(env.rate, st.buckets, c.peer, c.now).allowed then TurnedAway(st, c, h, 5)
      else
        && (code == 4 ==> TurnedAway(st, c, h, 0))
        && (code !in {0, 4, 5} ==> TurnedAway(st, c, h, 4))
        && (code == 0 && c.query.questions == [] ==> TurnedAway(st, c, h, 1))
  {
    hide Updated, AxfrReply, AnswerCached, R.Decided;
  }

  // ---- Updates -----------------------------------------------------------------------------

  /** The code of an update that is turned away: without a question, zone, permission or valid TSIG. */
  function UpdateRefusal(zs: seq<Zones>, query: Message, gate: Gate): Option<int> {
    if query.questions == [] then Some(1)
    else if View(zs, query.questions[0].qname).None? then Some(9)
    else if !gate.allowed then Some(5)
    else if query.tsig.Some? && !gate.verified then Some(9)
    else None
  }

  /** The tables hold the same zones; only their records may differ. */
  predicate SameInfos(a: Zones, b: Zones) {
    a.Keys == b.Keys && forall k :: k in a ==> a[k].info == b[k].info
  }

  predicate AllSameInfos(zs: seq<Zones>, after: seq<Zones>) {
    |zs| == |after| && forall i :: 0 <= i < |zs| ==> SameInfos(zs[i], after[i])
  }

  lemma {:induction false} SameFound(a: Zones, b: Zones, q: Name)
    requires SameInfos(a, b)
    ensures InfoOf(FoundZone(a, q)) == InfoOf(FoundZone(b, q))
  {
    hide Key, Same;
    if q != ROOT { SameFound(a, b, q[1..]); }
  }

  lemma {:induction false} SameRouterFound(zs: seq<Zones>, after: seq<Zones>, q: Name)
    requires AllSameInfos(zs, after)
    ensures RouterFound(zs, q) == RouterFound(after, q)
  {
    hide FoundZone, SameInfos;
    if zs != [] {
      var n := |zs| - 1;
      SameRouterFound(zs[..n], after[..n], q);
      SameFound(zs[n], after[n], q);
    }
  }

  lemma SameLists(a: Zones, b: Zones, name: Name)
    requires SameInfos(a, b)
    ensures Lists(a, name) == Lists(b, name)
  {
    hide Same;
  }

  lemma {:induction false} SameOwner(zs: seq<Zones>, after: seq<Zones>, name: Name)
    requires AllSameInfos(zs, after)
    ensures OwnerIndex(zs, name) == OwnerIndex(after, name)
  {
    hide Lists, SameInfos;
    if zs != [] {
      SameLists(zs[0], after[0], name);
      SameOwner(zs[1..], after[1..], name);
    }
  }

  /** What is seen for a name once the zone has other records. */
  function Seen(v: Option<MemZone>, zone: MemZone, r: Rrs): Option<MemZone> {
    if v.Some? && v.value.info == zone.info then Some(MemZone(zone.info, r)) else v
  }

  /** New records in the table of the owner are seen by every search, and nothing else changes. */
  lemma WrittenIsSeen(zs: seq<Zones>, q0: Name, r: Rrs, q: Name)
    requires AllKeyed(zs) && View(zs, q0).Some?
    ensures View(WithRecords(zs, View(zs, q0).value, r), q) == Seen(View(zs, q), View(zs, q0).value, r)
  {
    hide Key, OwnerIndex, RouterFound, AllKeyed;
    var z := View(zs, q0).value;
    var after := WithRecords(zs, z, r);
    OwnedBy(zs, q0);
    SameRouterFound(zs, after, q);
    if View(zs, q).Some? {
      var v := View(zs, q).value;
      OwnedBy(zs, q);
      SameOwner(zs, after, v.info.name);
    }
  }

  /**
   An update is turned away with its code and changes nothing, or it is carried out: then the
   cache is empty, and every name sees its zone as before, except that the zone of the update
   holds the updated records.
   */
  lemma UpdateIsSeen(env: Env, st: State, c: Call, q: Name)
    requires AllKeyed(st.zs) && c.query.header.opcode == 5
    requires R.Decided(env.rate, st.buckets, c.peer, c.now).allowed
    ensures var h := Handled(env, st, c); var no := UpdateRefusal(st.zs, c.query, c.gate);
      if no.Some? then TurnedAway(st, c, h, no.value)
      else
        var zone := View(st.zs, c.query.questions[0].qname).value;
        var u := UpdatedRecords(env.ntop, env.pton, zone.info.name, zone.records, c.query.authority);
        && (h.Throws? <==> u.threw)
        && (h.Returns? ==>
              && Bare(c.query, h.value.response, 0) && h.value.state.entries == map[]
              && View(h.value.state.zs, q) == Seen(View(st.zs, q), zone, u.records))
  {
    hide View, WithRecords, AllKeyed, UpdatedRecords, R.Decided, Seen;
    if UpdateRefusal(st.zs, c.query, c.gate).None? {
      var qname := c.query.questions[0].qname;
      var zone := View(st.zs, qname).value;
      var u := UpdatedRecords(env.ntop, env.pton, zone.info.name, zone.records, c.query.authority);
      WrittenIsSeen(st.zs, qname, u.records, q);
    }
  }

  // ---- Transfers ---------------------------------------------------------------------------

  /**
   The code of a transfer that is refused: over UDP or without a question, no zone of exactly
   that name, a peer that is neither listed nor signs, a TSIG that does not verify, no SOA.
   */
  function TransferRefusal(zs: seq<Zones>, query: Message, tcp: bool, gate: Gate): Option<int> {
    if !tcp || query.questions == [] then Some(1)
    else
      var v := View(zs, query.questions[0].qname);
      if v.None? || !Same(v.value.info.name, query.questions[0].qname) then Some(5)
      else if !gate.allowed && query.tsig.None? then Some(5)
      else if query.tsig.Some? && !gate.verified then Some(9)
      else None
  }

  /** The SOA of a transfer is the last one of the zone, or a record without data. */
  lemma {:induction false} LastSoaIsLast(rrs: Rrs)
    ensures var soa := LastSoa(rrs);
      || (soa.rdata == [] && soa.content == [] && forall i :: 0 <= i < |rrs| ==> rrs[i].rtype != 6)
      || exists i :: 0 <= i < |rrs| && rrs[i] == soa && soa.rtype == 6
                     && forall k :: i < k < |rrs| ==> rrs[k].rtype != 6
  {
    if rrs != [] {
      var n := |rrs| - 1;
      LastSoaIsLast(rrs[..n]);
      if IsSoa(rrs[n]) {
        assert LastSoa(rrs) == rrs[n];
      } else {
        assert forall i :: 0 <= i < n ==> rrs[..n][i] == rrs[i];
      }
    }
  }

  /** A transfer hands out records exactly when nothing refuses it and the zone has an SOA with data. */
  lemma TransferIffAllowed(zs: seq<Zones>, query: Message, tcp: bool, gate: Gate)
    ensures var r := AxfrReply(zs, query, tcp, gate); var no := TransferRefusal(zs, query, tcp, gate);
      && (no.Some? ==> Bare(query, r, no.value) && !r.header.aa)
      && (no.None? ==>
            var soa := LastSoa(View(zs, query.questions[0].qname).value.records);
            && r.header.aa && (r.answers == [] <==> soa.rdata == [] && soa.content == [])
            && if r.answers == [] then Bare(query, r, 2) else Bare(query, r.(answers := []), 0))
  {
    hide View, Same, LastSoa, NotSoa;
  }

  // ---- Where a query goes --------------------------------------------------------------------

  /** A query for 251 or 252 is a transfer and leaves the state alone; one for another type is a question. */
  lemma QueriesAreRouted(env: Env, st: State, c: Call)
    requires R.Decided(env.rate, st.buckets, c.peer, c.now).allowed
    requires c.query.header.opcode == 0 && c.query.questions != []
    ensures var h := Handled(env, st, c);
      if c.query.questions[0].qtype in {251, 252}
      then h.Returns? && h.value.response == AxfrReply(st.zs, c.query, c.tcp, c.gate) && Untouched(st, h.value.state)
      else
        var s := AnswerCached(env.ntop, env.cfg, st.zs, st.entries, c.query, c.tcp, c.now);
        h.Returns? && h.value.response == s.response && h.value.state.zs == st.zs && h.value.state.entries == s.entries
  {
    hide Updated, AxfrReply, AnswerCached, R.Decided;
  }
}
