/**
 How large record sets may get: the exact number of records of one owner and type up to which
 every answer can be put on the wire and decodes.
 */
module AnswerLimits {
  import opened DnsNames
  import opened NameCodec
  import opened Compression
  import opened Records
  import opened Rdata
  import opened MessageRoundTrip
  import opened FirstNames
  import opened Store
  import opened Router
  import opened Answering
  import opened PlainAnswers
  import opened SmallZones

  // ---- A record repeated -------------------------------------------------------------------

  /** The same record n times. */
  function Repeated(rr: ResourceRecord, n: nat): Rrs {
    if n == 0 then [] else Repeated(rr, n - 1) + [rr]
  }

  lemma {:induction false} RepeatedAre(rr: ResourceRecord, n: nat)
    ensures |Repeated(rr, n)| == n && forall i :: 0 <= i < n ==> Repeated(rr, n)[i] == rr
  {
    if n > 0 { RepeatedAre(rr, n - 1); }
  }

  lemma {:induction false} KeptRepeated(rr: ResourceRecord, n: nat, p: ResourceRecord -> bool)
    ensures Kept(Repeated(rr, n), p) == if p(rr) then Repeated(rr, n) else []
  {
    if n > 0 {
      KeptRepeated(rr, n - 1, p);
      RepeatedAre(rr, n - 1);
      assert Repeated(rr, n)[..n - 1] == Repeated(rr, n - 1);
    }
  }

  // ---- A crowded zone -----------------------------------------------------------------------

  const CUT_NAME: Name := [[99]]
  const HOST_NAME: Name := [[116]]

  /** A delegation of the name c to the host t. */
  function CrowdNs(): ResourceRecord {
    WireRecord(CUT_NAME, TYPE_NS, CLASS_IN, 3600, [0]).(content := [116])
  }

  function CrowdA(): ResourceRecord {
    WireRecord(HOST_NAME, TYPE_A, CLASS_IN, 3600, [0])
  }

  function CrowdAaaa(): ResourceRecord {
    WireRecord(HOST_NAME, TYPE_AAAA, CLASS_IN, 3600, [0])
  }

  /** The delegation and both addresses of its host, n times each. */
  function Crowd(n: nat): Rrs {
    Repeated(CrowdNs(), n) + (Repeated(CrowdA(), n) + Repeated(CrowdAaaa(), n))
  }

  function IfKept(keep: bool, rr: ResourceRecord, n: nat): Rrs {
    if keep then Repeated(rr, n) else []
  }

  lemma CrowdKept(n: nat, p: ResourceRecord -> bool)
    ensures Kept(Crowd(n), p)
            == IfKept(p(CrowdNs()), CrowdNs(), n)
               + (IfKept(p(CrowdA()), CrowdA(), n) + IfKept(p(CrowdAaaa()), CrowdAaaa(), n))
  {
    hide Repeated, Kept;
    KeptConcat(Repeated(CrowdNs(), n), Repeated(CrowdA(), n) + Repeated(CrowdAaaa(), n), p);
    KeptConcat(Repeated(CrowdA(), n), Repeated(CrowdAaaa(), n), p);
    KeptRepeated(CrowdNs(), n, p);
    KeptRepeated(CrowdA(), n, p);
    KeptRepeated(CrowdAaaa(), n, p);
  }

  lemma CrowdLookedUp(n: nat, q: Name, t: U16)
    ensures LookedUp(Crowd(n), q, t)
            == IfKept(Answers(CrowdNs(), q, t), CrowdNs(), n)
               + (IfKept(Answers(CrowdA(), q, t), CrowdA(), n) + IfKept(Answers(CrowdAaaa(), q, t), CrowdAaaa(), n))
  {
    hide IfKept, Crowd, Answers;
    CrowdKept(n, rr => Answers(rr, q, t));
  }

  lemma CrowdIsSmall(n: nat)
    ensures SmallSets(Crowd(n), n) && PlainRecords(Crowd(n))
  {
    hide LookedUp, Repeated, Same;
    forall q: Name, t: U16 | t != TYPE_ANY ensures |LookedUp(Crowd(n), q, t)| <= n {
      CrowdLookedUp(n, q, t);
      RepeatedAre(CrowdNs(), n);
      RepeatedAre(CrowdA(), n);
      RepeatedAre(CrowdAaaa(), n);
    }
    RepeatedAre(CrowdNs(), n);
    RepeatedAre(CrowdA(), n);
    RepeatedAre(CrowdAaaa(), n);
    CrowdPlain();
  }

  lemma CrowdPlain()
    ensures PlainRecord(CrowdNs()) && PlainRecord(CrowdA()) && PlainRecord(CrowdAaaa())
  {
  }

  lemma NamesDiffer()
    ensures !Same(CUT_NAME, HOST_NAME) && !Same(HOST_NAME, CUT_NAME)
  {
    assert LowerName(CUT_NAME)[0] == CUT_NAME[0] && LowerName(HOST_NAME)[0] == HOST_NAME[0];
  }

  lemma OneMore(k: nat, size: nat)
    requires k > 0
    ensures k * size == (k - 1) * size + size
  {
  }

  /** Each copy of the delegation brings both sets of addresses. */
  lemma {:induction false} CrowdGlue(ntop: Ntop, n: nat, k: nat)
    ensures |Glue(ntop, Crowd(n), ROOT, Repeated(CrowdNs(), k))| == k * (2 * n)
  {
    hide Crowd, Target, Glue, GlueFor, CrowdNs;
    NoGlue(ntop, Crowd(n), ROOT);
    if k > 0 {
      RepeatedAre(CrowdNs(), k - 1);
      GlueSnoc(ntop, Crowd(n), ROOT, Repeated(CrowdNs(), k - 1), CrowdNs());
      CrowdGlue(ntop, n, k - 1);
      OneShare(ntop, n);
      OneMore(k, 2 * n);
    }
  }

  lemma OneShare(ntop: Ntop, n: nat)
    ensures |GlueFor(Crowd(n), ROOT, Target(ntop, CrowdNs()))| == 2 * n
  {
    hide LookedUp, Crowd, Target, CrowdNs, IsSubdomainOf;
    CrowdTarget(ntop);
    CrowdAddresses(n);
    RootContains(HOST_NAME);
  }

  lemma CrowdTarget(ntop: Ntop)
    ensures Target(ntop, CrowdNs()) == HOST_NAME
  {
    hide ParsedName, RdataToContent;
    SpacelessParsed(HOST_NAME);
  }

  lemma CrowdAddresses(n: nat)
    ensures |LookedUp(Crowd(n), HOST_NAME, TYPE_A)| == n && |LookedUp(Crowd(n), HOST_NAME, TYPE_AAAA)| == n
    ensures LookedUp(Crowd(n), CUT_NAME, TYPE_NS) == Repeated(CrowdNs(), n)
  {
    hide LookedUp, Repeated, Crowd, Same;
    NamesDiffer();
    SameItself(HOST_NAME);
    SameItself(CUT_NAME);
    CrowdLookedUp(n, HOST_NAME, TYPE_A);
    CrowdLookedUp(n, HOST_NAME, TYPE_AAAA);
    CrowdLookedUp(n, CUT_NAME, TYPE_NS);
    RepeatedAre(CrowdA(), n);
    RepeatedAre(CrowdAaaa(), n);
  }

  lemma CrowdReferral(ntop: Ntop, n: nat)
    requires n > 0
    ensures |BodyFor(ntop, Some(RootZone(Crowd(n))), CUT_NAME, TYPE_A).additional| == n * (2 * n)
  {
    hide LookedUp, Crowd, Same, Glue;
    CrowdHasNs(n);
    SameItself(CUT_NAME);
    LengthDiffers(CUT_NAME, ROOT);
    CrowdAddresses(n);
    CrowdGlue(ntop, n, n);
  }

  lemma CrowdHasNs(n: nat)
    requires n > 0
    ensures HasNs(Crowd(n), CUT_NAME)
  {
    hide Repeated, Same;
    RepeatedAre(CrowdNs(), n);
    SameItself(CUT_NAME);
    assert Crowd(n)[0] == CrowdNs();
  }

  // ---- The exact limit ------------------------------------------------------------------------

  /** A plain zone whose record sets have at most so many records. */
  ghost predicate Bounded(zs: seq<Zones>, q: Name, limit: nat) {
    var z := View(zs, q);
    z.Some? ==> PlainRecords(z.value.records) && SmallSets(z.value.records, limit)
  }

  lemma SmallerSets(rrs: Rrs, limit: nat, more: nat)
    requires SmallSets(rrs, limit) && limit <= more
    ensures SmallSets(rrs, more)
  {
    hide LookedUp;
  }

  /** The question for the delegated name. */
  function CrowdQuery(): Message {
    MakeQuery(CUT_NAME, TYPE_A, 0, false)
  }

  lemma CrowdOverflows(ntop: Ntop, cfg: Config, limit: nat)
    requires limit > MAX_RRSET
    ensures var zs := [RootTable(Crowd(limit))];
      && Bounded(zs, CUT_NAME, limit) && Askable(CrowdQuery())
      && !FirstSendable(Answered(ntop, cfg, View(zs, CUT_NAME), CrowdQuery()))
  {
    hide View, Crowd, SmallSets, BodyFor, AllSendable, PlainRecords;
    RootViews(Crowd(limit), CUT_NAME);
    CrowdIsSmall(limit);
    CrowdReferral(ntop, limit);
    TooMany(limit);
  }

  lemma TooMany(n: nat)
    requires n > MAX_RRSET
    ensures n * (2 * n) >= 0x1_0000
  {
    assert n * (2 * n) >= 182 * (2 * 182);
  }

  /**
   The exact limit: every query whose first name fits the wire and whose further names are
   plain gets a sendable answer from all plain zones with at most so many records of one owner
   and type, if and only if that is at most 181.
   */
  lemma SetLimitExactly(ntop: Ntop, cfg: Config, limit: nat)
    ensures (forall zs, query :: Askable(query) && Bounded(zs, query.questions[0].qname, limit) ==>
               FirstSendable(Answered(ntop, cfg, View(zs, query.questions[0].qname), query)))
            <==> limit <= 181
  {
    hide View, WireName, PlainQuestions, FirstSendable, SmallSets, Answered;
    if limit <= MAX_RRSET {
      forall zs, query | Askable(query) && Bounded(zs, query.questions[0].qname, limit)
        ensures FirstSendable(Answered(ntop, cfg, View(zs, query.questions[0].qname), query))
      {
        var z := View(zs, query.questions[0].qname);
        if z.Some? { SmallerSets(z.value.records, limit, MAX_RRSET); }
        SendableAnswer(ntop, cfg, zs, query);
      }
    } else {
      CrowdOverflows(ntop, cfg, limit);
      assert CrowdQuery().questions[0].qname == CUT_NAME;
    }
  }
}
