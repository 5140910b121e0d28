/**
 The answers that tables of plain records give: how many records they can hold, and that they
 can be put on the wire and decode, whatever name is asked for.
 */
module PlainAnswers {
  import opened DnsNames
  import opened NameCodec
  import opened Compression
  import opened Records
  import opened Rdata
  import opened MessageCodec
  import opened MessageRoundTrip
  import opened FirstNames
  import opened Store
  import opened Router
  import opened Answering
  import opened AnswerSoundness

  /** The most records of one owner and type with which no section can overflow its count; see AnswerLimits. */
  const MAX_RRSET := 181

  /** No name owns more than limit enabled records of one type. */
  ghost predicate SmallSets(rrs: Rrs, limit: nat) {
    forall q: Name, t: U16 :: t != TYPE_ANY ==> |LookedUp(rrs, q, t)| <= limit
  }

  /** A query whose first name fits the wire and whose further names are plain. */
  predicate Askable(query: Message) {
    && query.questions != [] && |query.questions| < 0x1_0000 && query.header.opcode < 16
    && WireName(query.questions[0].qname) && PlainQuestions(query.questions[1..])
  }

  /** The zone that is found for the name, if any, has plain records and small record sets. */
  ghost predicate PlainZone(zs: seq<Zones>, q: Name) {
    var z := View(zs, q);
    z.Some? ==> PlainRecords(z.value.records) && SmallSets(z.value.records, MAX_RRSET)
  }

  ghost predicate PlainAsked(zs: seq<Zones>, query: Message) {
    Askable(query) && PlainZone(zs, query.questions[0].qname)
  }

  /** The first name also survives its own text, so that it comes back from the wire. */
  ghost predicate SurvivorAsked(zs: seq<Zones>, query: Message) {
    PlainAsked(zs, query) && SurvivesText(query.questions[0].qname)
  }

  // ---- How many records ---------------------------------------------------------------------

  lemma {:induction false} GlueLength(ntop: Ntop, rrs: Rrs, zone: Name, nsset: Rrs, limit: nat)
    requires SmallSets(rrs, limit)
    ensures |Glue(ntop, rrs, zone, nsset)| <= 2 * limit * |nsset|
  {
    hide Target, LookedUp, IsSubdomainOf;
    if nsset != [] {
      var n := |nsset| - 1;
      GlueLength(ntop, rrs, zone, nsset[..n], limit);
      assert 2 * limit * |nsset| == 2 * limit * n + 2 * limit;
    }
  }

  lemma {:induction false} ChaseLength(ntop: Ntop, rrs: Rrs, zone: Name, t: U16, at: Name, hops: nat, limit: nat)
    requires SmallSets(rrs, limit) && t != TYPE_ANY
    ensures var w := Chased(ntop, rrs, zone, t, at, hops);
      |w.answers| <= hops * limit && (w.end.Matched? ==> |w.end.found| <= limit)
    decreases hops
  {
    hide Target, LookedUp, IsSubdomainOf;
    if hops > 0 {
      assert hops * limit == (hops - 1) * limit + limit;
      var cname := LookedUp(rrs, at, TYPE_CNAME);
      if cname != [] { ChaseLength(ntop, rrs, zone, t, Target(ntop, cname[0]), hops - 1, limit); }
    }
  }

  lemma {:induction false} ClimbLength(rrs: Rrs, zone: Name, t: U16, parent: Name, limit: nat)
    requires SmallSets(rrs, limit) && t != TYPE_ANY
    ensures var w := WildcardRecords(rrs, zone, t, parent); w.Some? ==> |w.value| <= limit
    decreases |parent|
  {
    hide LookedUp, IsSubdomainOf, Same, Wildcard;
    if parent != ROOT { ClimbLength(rrs, zone, t, parent[1..], limit); }
  }

  lemma SquareGrows(n: nat, limit: nat)
    requires n <= limit
    ensures 2 * limit * n <= 2 * limit * limit
  {
  }

  /** The sections of a response: at most nine sets of answers, one of authority, and their glue. */
  lemma BodyLength(ntop: Ntop, z: MemZone, q: Name, t: U16, limit: nat)
    requires SmallSets(z.records, limit) && limit > 0
    ensures var b := BodyFor(ntop, Some(z), q, t);
      |b.answers| <= 9 * limit && |b.authority| <= limit && |b.additional| <= 2 * limit * limit
  {
    hide Glue, LookedUp, Cut, Chased, WildcardRecords, NameOwned, Same;
    var rrs, zone := z.records, z.info.name;
    var cut := Cut(rrs, zone, q);
    if Refers(cut, q, t) {
      var ns := LookedUp(rrs, cut.value, TYPE_NS);
      GlueLength(ntop, rrs, zone, ns, limit);
      SquareGrows(|ns|, limit);
    } else if t != TYPE_ANY {
      ChaseLength(ntop, rrs, zone, t, q, MAX_HOPS, limit);
      ClimbLength(rrs, zone, t, Parent(q), limit);
      var w := Chased(ntop, rrs, zone, t, q, MAX_HOPS);
      if w.end.Matched? {
        GlueLength(ntop, rrs, zone, w.end.found, limit);
        SquareGrows(|w.end.found|, limit);
      }
    }
  }

  // ---- That they are plain -------------------------------------------------------------------

  lemma PlainMember(rrs: Rrs, part: Rrs)
    requires PlainRecords(rrs) && forall i :: 0 <= i < |part| ==> part[i] in rrs
    ensures PlainRecords(part)
  {
    hide PlainRecord;
  }

  lemma PlainLookedUp(rrs: Rrs, q: Name, t: U16)
    requires PlainRecords(rrs)
    ensures PlainRecords(LookedUp(rrs, q, t))
  {
    hide LookedUp, PlainRecords;
    forall i | 0 <= i < |LookedUp(rrs, q, t)| ensures LookedUp(rrs, q, t)[i] in rrs { LookedUpIn(rrs, q, t, i); }
    PlainMember(rrs, LookedUp(rrs, q, t));
  }

  lemma PlainGlue(ntop: Ntop, rrs: Rrs, zone: Name, nsset: Rrs)
    requires PlainRecords(rrs)
    ensures PlainRecords(Glue(ntop, rrs, zone, nsset))
  {
    hide Glue, PlainRecords, Target;
    var g := Glue(ntop, rrs, zone, nsset);
    forall i | 0 <= i < |g| ensures g[i] in rrs { GlueExactly(ntop, rrs, zone, nsset, g[i]); }
    PlainMember(rrs, g);
  }

  lemma PlainJoined(a: Rrs, b: Rrs)
    requires PlainRecords(a) && PlainRecords(b)
    ensures PlainRecords(a + b)
  {
    hide PlainRecord;
  }

  lemma {:induction false} PlainChase(ntop: Ntop, rrs: Rrs, zone: Name, t: U16, at: Name, hops: nat)
    requires PlainRecords(rrs)
    ensures var w := Chased(ntop, rrs, zone, t, at, hops);
      PlainRecords(w.answers) && (w.end.Matched? ==> PlainRecords(w.end.found))
    decreases hops
  {
    hide Target, LookedUp, IsSubdomainOf, PlainRecord;
    if hops > 0 {
      var cname := LookedUp(rrs, at, TYPE_CNAME);
      PlainLookedUp(rrs, at, TYPE_CNAME);
      PlainLookedUp(rrs, at, t);
      if cname != [] {
        var next := Target(ntop, cname[0]);
        PlainChase(ntop, rrs, zone, t, next, hops - 1);
        PlainJoined(cname, Chased(ntop, rrs, zone, t, next, hops - 1).answers);
      }
    }
  }

  lemma {:induction false} PlainClimb(rrs: Rrs, zone: Name, t: U16, parent: Name)
    requires PlainRecords(rrs)
    ensures var w := WildcardRecords(rrs, zone, t, parent); w.Some? ==> PlainRecords(w.value)
    decreases |parent|
  {
    hide LookedUp, IsSubdomainOf, Same, Wildcard, PlainRecords;
    PlainLookedUp(rrs, Wildcard(parent), t);
    PlainLookedUp(rrs, Wildcard(parent), TYPE_CNAME);
    if parent != ROOT { PlainClimb(rrs, zone, t, parent[1..]); }
  }

  lemma PlainIsSendable(f: Name, rrs: Rrs)
    requires PlainRecords(rrs)
    ensures AllSendable(f, rrs)
  {
    hide PlainRecord;
  }

  lemma RenamedSendable(rrs: Rrs, q: Name)
    requires PlainRecords(rrs)
    ensures AllSendable(q, Renamed(rrs, q))
  {
    hide PlainName;
  }

  lemma SendableJoined(f: Name, a: Rrs, b: Rrs)
    requires AllSendable(f, a) && AllSendable(f, b)
    ensures AllSendable(f, a + b)
  {
    hide Sendable;
  }

  lemma SendableParts(q: Name)
    ensures PlainRecords([]) && AllSendable(q, [Hinfo(q)]) && AllSendable(q, [])
    ensures forall size: U16 :: AllSendable(q, [OptRecord(size)])
  {
    assert PlainName(ROOT);
  }

  lemma BodySendable(ntop: Ntop, z: MemZone, q: Name, t: U16)
    requires PlainRecords(z.records)
    ensures var b := BodyFor(ntop, Some(z), q, t);
      AllSendable(q, b.answers) && PlainRecords(b.authority) && PlainRecords(b.additional)
  {
    hide Glue, LookedUp, Cut, Chased, WildcardRecords, NameOwned, Same, PlainRecords, Renamed, Hinfo, AllSendable;
    var rrs, zone := z.records, z.info.name;
    var cut := Cut(rrs, zone, q);
    SendableParts(q);
    if Refers(cut, q, t) {
      PlainLookedUp(rrs, cut.value, TYPE_NS);
      PlainGlue(ntop, rrs, zone, LookedUp(rrs, cut.value, TYPE_NS));
    } else if t != TYPE_ANY {
      PlainChase(ntop, rrs, zone, t, q, MAX_HOPS);
      PlainClimb(rrs, zone, t, Parent(q));
      PlainLookedUp(rrs, zone, TYPE_SOA);
      var w := Chased(ntop, rrs, zone, t, q, MAX_HOPS);
      PlainIsSendable(q, w.answers);
      if w.end.Matched? { PlainGlue(ntop, rrs, zone, w.end.found); }
      var wild := WildcardRecords(rrs, zone, t, Parent(q));
      if wild.Some? {
        RenamedSendable(wild.value, q);
        SendableJoined(q, w.answers, Renamed(wild.value, q));
      }
    }
  }

  // ---- That they have no TSIG ------------------------------------------------------------------

  lemma {:induction false} GlueHasNoTsig(ntop: Ntop, rrs: Rrs, zone: Name, nsset: Rrs)
    ensures NoTsigIn(Glue(ntop, rrs, zone, nsset))
  {
    hide Target, IsSubdomainOf;
    if nsset != [] {
      GlueHasNoTsig(ntop, rrs, zone, nsset[..|nsset| - 1]);
      AddressesOnly(rrs, zone, Target(ntop, nsset[|nsset| - 1]));
    }
  }

  lemma AddressesOnly(rrs: Rrs, zone: Name, target: Name)
    ensures NoTsigIn(GlueFor(rrs, zone, target))
  {
    hide LookedUp, IsSubdomainOf, Same;
    var a, b := LookedUp(rrs, target, TYPE_A), LookedUp(rrs, target, TYPE_AAAA);
    forall i | 0 <= i < |a| ensures !IsTsig(a[i]) { LookedUpIn(rrs, target, TYPE_A, i); }
    forall i | 0 <= i < |b| ensures !IsTsig(b[i]) { LookedUpIn(rrs, target, TYPE_AAAA, i); }
  }

  lemma BodyHasNoTsig(ntop: Ntop, found: Option<MemZone>, q: Name, t: U16)
    ensures NoTsigIn(BodyFor(ntop, found, q, t).additional)
  {
    hide Glue, LookedUp, Cut, Chased, WildcardRecords, NameOwned;
    if found.Some? {
      var rrs, zone := found.value.records, found.value.info.name;
      var cut := Cut(rrs, zone, q);
      if cut.Some? { GlueHasNoTsig(ntop, rrs, zone, LookedUp(rrs, cut.value, TYPE_NS)); }
      var w := Chased(ntop, rrs, zone, t, q, MAX_HOPS);
      if w.end.Matched? { GlueHasNoTsig(ntop, rrs, zone, w.end.found); }
    }
  }

  // ---- The answer --------------------------------------------------------------------------------

  /** Any name asked of plain records gets an answer that can be put on the wire and decodes. */
  lemma SendableAnswer(ntop: Ntop, cfg: Config, zs: seq<Zones>, query: Message)
    requires PlainAsked(zs, query)
    ensures FirstSendable(Answered(ntop, cfg, View(zs, query.questions[0].qname), query))
  {
    hide View, BodyFor, PlainRecords, PlainQuestions, WireName, SmallSets, OptRecord, AllSendable, NoTsigIn;
    var q := query.questions[0];
    var z := View(zs, q.qname);
    var b := BodyFor(ntop, z, q.qname, q.qtype);
    SendableParts(q.qname);
    if z.Some? {
      BodySendable(ntop, z.value, q.qname, q.qtype);
      BodyLength(ntop, z.value, q.qname, q.qtype, MAX_RRSET);
    } else {
      NoBody(ntop, q.qname, q.qtype);
    }
    PlainIsSendable(q.qname, b.authority);
    PlainIsSendable(q.qname, b.additional);
    OptSendable(q.qname, b.additional, cfg.ednsBufsize % 0x1_0000);
    BodyHasNoTsig(ntop, z, q.qname, q.qtype);
    OptIsNoTsig(b.additional, cfg.ednsBufsize % 0x1_0000);
    BodyCode(ntop, z, q.qname, q.qtype);
  }

  lemma OptSendable(f: Name, rrs: Rrs, size: U16)
    requires AllSendable(f, rrs)
    ensures AllSendable(f, rrs + [OptRecord(size)]) && AllSendable(f, rrs + [])
  {
    hide Sendable, OptRecord;
    SendableParts(f);
    assert Sendable(f, [OptRecord(size)][0]);
    assert rrs + [] == rrs;
  }

  lemma OptIsNoTsig(rrs: Rrs, size: U16)
    requires NoTsigIn(rrs)
    ensures NoTsigIn(rrs + [OptRecord(size)]) && NoTsigIn(rrs + [])
  {
    assert rrs + [] == rrs;
  }

  lemma NoBody(ntop: Ntop, q: Name, t: U16)
    ensures var b := BodyFor(ntop, None, q, t); b.answers == [] && b.authority == [] && b.additional == []
  {
  }

  lemma BodyCode(ntop: Ntop, z: Option<MemZone>, q: Name, t: U16)
    ensures BodyFor(ntop, z, q, t).rcode < 16
  {
    hide Glue, LookedUp, Cut, Chased, WildcardRecords, NameOwned, Same;
  }
}
