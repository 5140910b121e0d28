/**
 What is found at the end of CNAME chains: a chain of up to seven CNAMEs inside the zone is
 followed to the records asked for, one of up to eight out of the zone, and no further.
 */
module Chases {
  import opened DnsNames
  import opened NameCodec
  import opened Records
  import opened Rdata
  import opened Serials
  import opened Store
  import opened Answering
  import opened AnswerProperties
  import opened AnswerSoundness

  /** The name that the text of a record reads as. */
  function NamedByText(ntop: Ntop, rr: ResourceRecord): Name {
    ParsedName(Shown(ntop, rr).content)
  }

  /** The name owns one CNAME, whose text reads as the next name. */
  ghost predicate Link(ntop: Ntop, rrs: Rrs, from: Name, to: Name) {
    var cname := LookedUp(rrs, from, TYPE_CNAME);
    |cname| == 1 && NamedByText(ntop, cname[0]) == to
  }

  /** Each name owns one CNAME, whose text is the next name; all after the first but the last lie in the zone. */
  ghost predicate CnameChainOf(ntop: Ntop, z: MemZone, q: Name, at: seq<Name>) {
    && at != [] && at[0] == q
    && (forall i :: 0 <= i < |at| - 1 ==> Link(ntop, z.records, at[i], at[i + 1]))
    && (forall i :: 0 < i < |at| - 1 ==> IsSubdomainOf(at[i], z.info.name))
  }

  /** The CNAME records of a chain. */
  function CnamesOf(rrs: Rrs, at: seq<Name>): Rrs {
    if |at| <= 1 then [] else LookedUp(rrs, at[0], TYPE_CNAME) + CnamesOf(rrs, at[1..])
  }

  /** Nothing refers the name elsewhere, and the type is neither ANY nor CNAME. */
  ghost predicate Chaseable(z: MemZone, q: Name, t: U16) {
    && IsSubdomainOf(q, z.info.name) && t != 255 && t != 5
    && forall k: nat :: !RefersAt(z, q, t, k)
  }

  lemma ChainTail(ntop: Ntop, z: MemZone, at: seq<Name>)
    requires |at| > 1 && CnameChainOf(ntop, z, at[0], at)
    ensures CnameChainOf(ntop, z, at[1], at[1..])
    ensures LookedUp(z.records, at[0], TYPE_CNAME) == [LookedUp(z.records, at[0], TYPE_CNAME)[0]]
    ensures Target(ntop, LookedUp(z.records, at[0], TYPE_CNAME)[0]) == at[1]
    ensures |at| > 2 ==> IsSubdomainOf(at[1], z.info.name)
  {
    hide LookedUp, NamedByText, IsSubdomainOf;
    assert Link(ntop, z.records, at[0], at[1]);
    LinksOfTail(ntop, z, at);
    TargetIsText(ntop, LookedUp(z.records, at[0], TYPE_CNAME)[0]);
  }

  lemma LinksOfTail(ntop: Ntop, z: MemZone, at: seq<Name>)
    requires |at| > 1 && CnameChainOf(ntop, z, at[0], at)
    ensures CnameChainOf(ntop, z, at[1], at[1..])
  {
    hide Link, IsSubdomainOf;
    var rest := at[1..];
    forall i | 0 <= i < |rest| - 1 ensures Link(ntop, z.records, rest[i], rest[i + 1]) {
      assert Link(ntop, z.records, at[i + 1], at[i + 2]);
    }
  }

  lemma TargetIsText(ntop: Ntop, rr: ResourceRecord)
    ensures Target(ntop, rr) == NamedByText(ntop, rr)
  {
  }

  /** One hop along a link. */
  lemma OneHop(ntop: Ntop, z: MemZone, t: U16, at: Name, cname: Rrs, next: Name, hops: nat)
    requires hops > 0 && t != 5 && LookedUp(z.records, at, TYPE_CNAME) == cname != []
    requires Target(ntop, cname[0]) == next
    ensures Chased(ntop, z.records, z.info.name, t, at, hops)
            == if !IsSubdomainOf(next, z.info.name) then Walk(cname, LeftZone)
               else Following(cname, Chased(ntop, z.records, z.info.name, t, next, hops - 1))
  {
    hide LookedUp, Target, IsSubdomainOf;
  }

  lemma LastHop(ntop: Ntop, z: MemZone, t: U16, at: Name, hops: nat)
    requires hops > 0 && LookedUp(z.records, at, TYPE_CNAME) == [] && LookedUp(z.records, at, t) != []
    ensures var data := LookedUp(z.records, at, t);
      Chased(ntop, z.records, z.info.name, t, at, hops) == Walk(data, Matched(data))
  {
    hide LookedUp, Target, IsSubdomainOf;
  }

  /** A chain inside the zone that the hops reach: its CNAMEs, then what is found at its end. */
  lemma {:induction false} ChasedToEnd(ntop: Ntop, z: MemZone, t: U16, at: seq<Name>, hops: nat)
    requires at != [] && CnameChainOf(ntop, z, at[0], at) && t != 5 && |at| <= hops
    requires |at| > 1 ==> IsSubdomainOf(at[|at| - 1], z.info.name)
    requires LookedUp(z.records, at[|at| - 1], TYPE_CNAME) == [] && LookedUp(z.records, at[|at| - 1], t) != []
    ensures var data := LookedUp(z.records, at[|at| - 1], t);
      Chased(ntop, z.records, z.info.name, t, at[0], hops) == Walk(CnamesOf(z.records, at) + data, Matched(data))
    decreases |at|
  {
    hide LookedUp, Target, IsSubdomainOf, CnameChainOf, Chased, CnamesOf;
    var data := LookedUp(z.records, at[|at| - 1], t);
    CnamesStep(z.records, at, data);
    if |at| == 1 {
      LastHop(ntop, z, t, at[0], hops);
    } else {
      var rest := at[1..];
      assert rest[0] == at[1] && rest[|rest| - 1] == at[|at| - 1];
      ChainTail(ntop, z, at);
      ChasedToEnd(ntop, z, t, rest, hops - 1);
      OneHop(ntop, z, t, at[0], LookedUp(z.records, at[0], TYPE_CNAME), at[1], hops);
    }
  }

  lemma CnamesStep(rrs: Rrs, at: seq<Name>, data: Rrs)
    requires at != []
    ensures CnamesOf(rrs, at) + data
            == if |at| == 1 then data else LookedUp(rrs, at[0], TYPE_CNAME) + (CnamesOf(rrs, at[1..]) + data)
  {
    hide LookedUp;
    assert [] + data == data;
    if |at| > 1 {
      var cname, rest := LookedUp(rrs, at[0], TYPE_CNAME), CnamesOf(rrs, at[1..]);
      assert cname + (rest + data) == cname + rest + data;
    }
  }

  /** A chain whose last target lies outside. */
  lemma {:induction false} ChasedOut(ntop: Ntop, z: MemZone, t: U16, at: seq<Name>, hops: nat)
    requires at != [] && CnameChainOf(ntop, z, at[0], at) && t != 5 && 1 < |at| <= hops + 1
    requires !IsSubdomainOf(at[|at| - 1], z.info.name)
    ensures Chased(ntop, z.records, z.info.name, t, at[0], hops) == Walk(CnamesOf(z.records, at), LeftZone)
    decreases |at|
  {
    hide LookedUp, Target, IsSubdomainOf, CnameChainOf, Chased;
    ChainTail(ntop, z, at);
    var cname := LookedUp(z.records, at[0], TYPE_CNAME);
    OneHop(ntop, z, t, at[0], cname, at[1], hops);
    if |at| == 2 {
      assert CnamesOf(z.records, at[1..]) == [] && cname + [] == cname;
    } else {
      ChasedOut(ntop, z, t, at[1..], hops - 1);
    }
  }

  /** A chain inside the zone that is as long as there are hops is given up. */
  lemma {:induction false} ChasedAway(ntop: Ntop, z: MemZone, t: U16, at: seq<Name>, hops: nat)
    requires at != [] && CnameChainOf(ntop, z, at[0], at) && t != 5 && |at| == hops + 1
    requires |at| > 1 ==> IsSubdomainOf(at[|at| - 1], z.info.name)
    ensures Chased(ntop, z.records, z.info.name, t, at[0], hops) == Walk(CnamesOf(z.records, at), Fell)
    decreases |at|
  {
    hide LookedUp, Target, IsSubdomainOf, CnameChainOf;
    if |at| > 1 {
      ChainTail(ntop, z, at);
      OneHop(ntop, z, t, at[0], LookedUp(z.records, at[0], TYPE_CNAME), at[1], hops);
      ChasedAway(ntop, z, t, at[1..], hops - 1);
    }
  }

  lemma {:induction false} CnamesAre(ntop: Ntop, z: MemZone, at: seq<Name>)
    requires at != [] && CnameChainOf(ntop, z, at[0], at)
    ensures var c := CnamesOf(z.records, at);
      |c| == |at| - 1
      && forall i :: 0 <= i < |at| - 1 ==>
           var own := LookedUp(z.records, at[i], TYPE_CNAME); own != [] && c[i] == own[0]
    decreases |at|
  {
    hide LookedUp, Target, IsSubdomainOf, CnameChainOf;
    if |at| > 1 {
      ChainTail(ntop, z, at);
      CnamesAre(ntop, z, at[1..]);
    }
  }

  /** What stands in the answer section of a response that follows a chain. */
  ghost predicate FollowsChain(z: MemZone, at: seq<Name>, answers: Rrs, data: Rrs) {
    && at != [] && |answers| == |at| - 1 + |data|
    && (forall i :: 0 <= i < |at| - 1 ==> LookedUp(z.records, at[i], TYPE_CNAME) != [])
    && (forall i :: 0 <= i < |at| - 1 ==> answers[i] == LookedUp(z.records, at[i], TYPE_CNAME)[0])
    && answers[|at| - 1..] == data
  }

  lemma BodyInZone(ntop: Ntop, z: MemZone, q: Name, t: U16)
    requires IsSubdomainOf(q, z.info.name) && t != 255 && forall k: nat :: !RefersAt(z, q, t, k)
    ensures BodyFor(ntop, Some(z), q, t) == InZone(ntop, z.records, z.info.name, q, t)
  {
    hide InZone, RefersAt, Refers, Cut, IsSubdomainOf;
    CutRefersExactly(z, q, t);
  }

  /**
   The chase reaches the data: up to seven CNAMEs inside the zone are followed, and the answer
   is exactly them and then the records of the type at the last name.  Additional addresses are
   given exactly for NS and MX, and exactly those of the in-zone names that the texts read as.
   */
  lemma ChainReachesData(ntop: Ntop, cfg: Config, z: MemZone, query: Message, at: seq<Name>)
    requires query.questions != [] && Chaseable(z, query.questions[0].qname, query.questions[0].qtype)
    requires 1 <= |at| <= 8 && CnameChainOf(ntop, z, query.questions[0].qname, at)
    requires |at| > 1 ==> IsSubdomainOf(at[|at| - 1], z.info.name)
    requires LookedUp(z.records, at[|at| - 1], TYPE_CNAME) == []
    requires LookedUp(z.records, at[|at| - 1], query.questions[0].qtype) != []
    ensures var t := query.questions[0].qtype; var data := LookedUp(z.records, at[|at| - 1], t);
      var r := Answered(ntop, cfg, Some(z), query);
      && r.header.rcode == 0 && r.header.aa && r.authority == [] && FollowsChain(z, at, r.answers, data)
      && forall rr: ResourceRecord :: rr.rtype != 41 ==>
           (rr in r.additional
            <==> (t == 2 || t == 15)
                 && exists i :: 0 <= i < |data| && AddressOf(z.records, z.info.name, NamedByText(ntop, data[i]), rr))
  {
    hide LookedUp, IsSubdomainOf, Chased, WildcardRecords, NameOwned, Glue, CnameChainOf, AddressOf, Target, RefersAt;
    var q, t := query.questions[0].qname, query.questions[0].qtype;
    var data := LookedUp(z.records, at[|at| - 1], t);
    FirstOfChain(ntop, z, q, at);
    BodyInZone(ntop, z, q, t);
    ChasedToEnd(ntop, z, t, at, MAX_HOPS);
    CnamesAre(ntop, z, at);
    forall rr: ResourceRecord | rr.rtype != 41
      ensures rr in Answered(ntop, cfg, Some(z), query).additional
              <==> (t == 2 || t == 15)
                   && exists i :: 0 <= i < |data| && AddressOf(z.records, z.info.name, NamedByText(ntop, data[i]), rr)
    {
      GlueExactly(ntop, z.records, z.info.name, data, rr);
      forall i | 0 <= i < |data| ensures Target(ntop, data[i]) == NamedByText(ntop, data[i]) {
        TargetIsText(ntop, data[i]);
      }
    }
  }

  lemma FirstOfChain(ntop: Ntop, z: MemZone, q: Name, at: seq<Name>)
    requires CnameChainOf(ntop, z, q, at)
    ensures at != [] && at[0] == q
  {
    hide LookedUp;
  }

  /** A chain that leaves the zone after up to eight CNAMEs is answered with exactly these. */
  lemma ChainLeavesZone(ntop: Ntop, cfg: Config, z: MemZone, query: Message, at: seq<Name>)
    requires query.questions != [] && Chaseable(z, query.questions[0].qname, query.questions[0].qtype)
    requires 1 < |at| <= 9 && CnameChainOf(ntop, z, query.questions[0].qname, at)
    requires !IsSubdomainOf(at[|at| - 1], z.info.name)
    ensures var r := Answered(ntop, cfg, Some(z), query);
      && r.header.rcode == 0 && r.header.aa && r.authority == [] && FollowsChain(z, at, r.answers, [])
  {
    hide LookedUp, IsSubdomainOf, Chased, WildcardRecords, NameOwned, Glue, CnameChainOf, RefersAt;
    var q, t := query.questions[0].qname, query.questions[0].qtype;
    FirstOfChain(ntop, z, q, at);
    BodyInZone(ntop, z, q, t);
    ChasedOut(ntop, z, t, at, MAX_HOPS);
    CnamesAre(ntop, z, at);
  }

  /**
   Eight CNAMEs inside the zone, a loop among them, are given up: where no wildcard answers, the
   answer is exactly these, without what the last name owns, and with the SOA.
   */
  lemma ChainGivenUp(ntop: Ntop, cfg: Config, z: MemZone, query: Message, at: seq<Name>)
    requires query.questions != [] && Chaseable(z, query.questions[0].qname, query.questions[0].qtype)
    requires |at| == 9 && CnameChainOf(ntop, z, query.questions[0].qname, at)
    requires IsSubdomainOf(at[8], z.info.name)
    requires forall k: nat :: WildcardOwner(z.info.name, query.questions[0].qname, k) ==>
               NoWildcard(z.records, query.questions[0].qtype, query.questions[0].qname[k..])
    ensures var r := Answered(ntop, cfg, Some(z), query);
      && r.header.aa && FollowsChain(z, at, r.answers, [])
      && r.authority == LookedUp(z.records, z.info.name, TYPE_SOA)
  {
    hide LookedUp, IsSubdomainOf, Chased, WildcardRecords, NameOwned, Glue, CnameChainOf, RefersAt, NoWildcard,
         WildcardOwner;
    var q, t := query.questions[0].qname, query.questions[0].qtype;
    FirstOfChain(ntop, z, q, at);
    BodyInZone(ntop, z, q, t);
    WildcardsExactly(z.records, z.info.name, t, q);
    ChasedAway(ntop, z, t, at, MAX_HOPS);
    CnamesAre(ntop, z, at);
  }

  // ---- EDNS in replies ----------------------------------------------------------------------------

  /** A reply ends in an OPT record with the configured size exactly if the query had EDNS; it has no other. */
  lemma ReplyOpt(ntop: Ntop, cfg: Config, found: Option<MemZone>, query: Message)
    requires query.questions != []
    ensures var r := Answered(ntop, cfg, found, query); var n := |r.additional|;
      if query.edns.present
      then n > 0 && (forall i :: 0 <= i < n - 1 ==> r.additional[i].rtype != 41)
           && var opt := r.additional[n - 1];
              opt.name == ROOT && opt.rtype == 41 && opt.rclass == cfg.ednsBufsize % 0x1_0000 && opt.ttl == 0
              && opt.rdata == []
      else forall i :: 0 <= i < n ==> r.additional[i].rtype != 41
  {
    hide LookedUp, IsSubdomainOf, Chased, WildcardRecords, NameOwned, Glue, Cut, Refers;
    var q := query.questions[0];
    BodyAddresses(ntop, found, q.qname, q.qtype);
  }

  /** Address records only. */
  predicate Addresses(rrs: Rrs) {
    forall i :: 0 <= i < |rrs| ==> rrs[i].rtype in {1, 28}
  }

  lemma BodyAddresses(ntop: Ntop, found: Option<MemZone>, q: Name, t: U16)
    ensures Addresses(BodyFor(ntop, found, q, t).additional)
  {
    hide LookedUp, IsSubdomainOf, Chased, WildcardRecords, NameOwned, Glue, Cut, Same, Addresses;
    assert Addresses([]) by { NoAddresses(); }
    if found.Some? {
      var rrs, zone := found.value.records, found.value.info.name;
      var cut := Cut(rrs, zone, q);
      if cut.Some? { GlueAddresses(ntop, rrs, zone, LookedUp(rrs, cut.value, TYPE_NS)); }
      var w := Chased(ntop, rrs, zone, t, q, MAX_HOPS);
      if w.end.Matched? { GlueAddresses(ntop, rrs, zone, w.end.found); }
    }
  }

  lemma NoAddresses()
    ensures Addresses([])
  {
  }

  lemma GlueAddresses(ntop: Ntop, rrs: Rrs, zone: Name, nsset: Rrs)
    ensures Addresses(Glue(ntop, rrs, zone, nsset))
  {
    hide Glue, Target, IsSubdomainOf;
    var g := Glue(ntop, rrs, zone, nsset);
    forall i | 0 <= i < |g| ensures g[i].rtype in {1, 28} { GlueExactly(ntop, rrs, zone, nsset, g[i]); }
  }

  // ---- ANY ------------------------------------------------------------------------------------------

  /** A question for ANY that nothing refers gets one HINFO record under its name, with the text RFC8482 (RFC 8482). */
  lemma AnyReply(ntop: Ntop, cfg: Config, z: MemZone, query: Message)
    requires query.questions != [] && query.questions[0].qtype == 255
    requires IsSubdomainOf(query.questions[0].qname, z.info.name)
    requires forall k: nat :: !RefersAt(z, query.questions[0].qname, 255, k)
    ensures var r := Answered(ntop, cfg, Some(z), query);
      && r.header.rcode == 0 && r.header.aa && |r.answers| == 1 && r.authority == []
      && r.answers[0].name == query.questions[0].qname && r.answers[0].rtype == 13 && r.answers[0].rclass == 1
      && r.answers[0].ttl == 3600 && r.answers[0].rdata == [7, 82, 70, 67, 56, 52, 56, 50, 0]
  {
    hide InZone, RefersAt, Refers, Cut, IsSubdomainOf;
    CutRefersExactly(z, query.questions[0].qname, 255);
  }
}
