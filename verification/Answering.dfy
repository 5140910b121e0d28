/**
 The answer algorithm: answerQuery of src/simple-dnsd/core/engine.cpp (section 4.3.2 of
 RFC 1034, with the departures the code has).
 */
module Answering {
  import opened Text
  import opened DnsNames
  import opened NameCodec
  import opened Records
  import opened Rdata
  import opened Serials
  import opened Store
  import opened Router

  /** The configuration that answers and the cache depend on. */
  datatype Config = Config(ednsBufsize: U32, cacheSize: U32, cacheTtl: U32)

  const MAX_HOPS := 8

  // ---- Parts of a response --------------------------------------------------------

  /** "RFC8482" as a character string followed by an empty one. */
  const HINFO_RDATA: Bytes := [7, 82, 70, 67, 56, 52, 56, 50, 0]
  const HINFO_TEXT: Str := [34, 82, 70, 67, 56, 52, 56, 50, 34, 32, 34, 34]

  /** makeHinfo: the answer to every ANY query (RFC 8482). */
  function Hinfo(name: Name): ResourceRecord {
    ResourceRecord(name, TYPE_HINFO, CLASS_IN, 3600, HINFO_RDATA, HINFO_TEXT, 0, false, true)
  }

  function OptRecord(udpSize: U16): ResourceRecord {
    ResourceRecord(ROOT, TYPE_OPT, udpSize, 0, [], [], 0, false, true)
  }

  /** The name in the text of a record, given or made from its rdata. */
  function Target(ntop: Ntop, rr: ResourceRecord): Name {
    ParsedName(Shown(ntop, rr).content)
  }

  /** addGlue: the addresses of the in-zone targets. */
  function Glue(ntop: Ntop, rrs: Rrs, zone: Name, nsset: Rrs): Rrs {
    if nsset == [] then []
    else
      Glue(ntop, rrs, zone, nsset[..|nsset| - 1]) + GlueFor(rrs, zone, Target(ntop, nsset[|nsset| - 1]))
  }

  function GlueFor(rrs: Rrs, zone: Name, target: Name): Rrs {
    if !IsSubdomainOf(target, zone) then []
    else LookedUp(rrs, target, TYPE_A) + LookedUp(rrs, target, TYPE_AAAA)
  }

  lemma NoGlue(ntop: Ntop, rrs: Rrs, zone: Name)
    ensures Glue(ntop, rrs, zone, []) == []
  {
  }

  lemma GlueSnoc(ntop: Ntop, rrs: Rrs, zone: Name, nsset: Rrs, ns: ResourceRecord)
    ensures Glue(ntop, rrs, zone, nsset + [ns]) == Glue(ntop, rrs, zone, nsset) + GlueFor(rrs, zone, Target(ntop, ns))
  {
    hide GlueFor, Target;
    assert (nsset + [ns])[..|nsset|] == nsset;
  }

  // ---- The CNAME chase --------------------------------------------------------------

  datatype End = LeftZone | Matched(found: Rrs) | Fell

  /** What the chase loop appends, and how it ends. */
  datatype Walk = Walk(answers: Rrs, end: End)

  /** The chase from name `at` with so many hops left. */
  function Chased(ntop: Ntop, rrs: Rrs, zone: Name, t: U16, at: Name, hops: nat): Walk
    decreases hops
  {
    if hops == 0 then Walk([], Fell)
    else
      var cname := LookedUp(rrs, at, TYPE_CNAME);
      var found := LookedUp(rrs, at, t);
      if t != TYPE_CNAME && cname != [] then
        var next := Target(ntop, cname[0]);
        if !IsSubdomainOf(next, zone) then Walk(cname, LeftZone)
        else Following(cname, Chased(ntop, rrs, zone, t, next, hops - 1))
      else if found != [] then Walk(found, Matched(found))
      else Walk([], Fell)
  }

  function Following(rrs: Rrs, w: Walk): Walk {
    w.(answers := rrs + w.answers)
  }

  // ---- The wildcard climb -----------------------------------------------------------

  /** The records of the first wildcard owner with the type, or else a CNAME, on the way up. */
  function WildcardRecords(rrs: Rrs, zone: Name, t: U16, parent: Name): Option<Rrs>
    decreases |parent|
  {
    if !IsSubdomainOf(parent, zone) && parent != ROOT then None
    else
      var wild := LookedUp(rrs, Wildcard(parent), t);
      var cname := LookedUp(rrs, Wildcard(parent), TYPE_CNAME);
      if wild != [] || cname != [] then Some(if wild == [] then cname else wild)
      else if Same(parent, zone) || parent == ROOT then None
      else WildcardRecords(rrs, zone, t, parent[1..])
  }

  /** Records under another owner name. */
  function Renamed(rrs: Rrs, name: Name): (r: Rrs)
    ensures |r| == |rrs| && forall i :: 0 <= i < |rrs| ==> r[i] == rrs[i].(name := name)
  {
    seq(|rrs|, i requires 0 <= i < |rrs| => rrs[i].(name := name))
  }

  // ---- answerQuery --------------------------------------------------------------------

  /** A response without the parts that come from the query. */
  datatype Body = Body(rcode: Byte, aa: bool, answers: Rrs, authority: Rrs, additional: Rrs)

  function Referral(ntop: Ntop, rrs: Rrs, zone: Name, cut: Name): Body {
    var ns := LookedUp(rrs, cut, TYPE_NS);
    Body(NOERROR, false, [], ns, Glue(ntop, rrs, zone, ns))
  }

  /** NS and DS at the cut itself are answered, not referred. */
  predicate Refers(cut: Option<Name>, q: Name, t: U16) {
    cut.Some? && (!Same(cut.value, q) || (t != TYPE_NS && t != TYPE_DS))
  }

  /** The part after the delegation and ANY checks. */
  function InZone(ntop: Ntop, rrs: Rrs, zone: Name, q: Name, t: U16): Body {
    var w := Chased(ntop, rrs, zone, t, q, MAX_HOPS);
    match w.end
    case LeftZone => Body(NOERROR, true, w.answers, [], [])
    case Matched(found) =>
      Body(NOERROR, true, w.answers, [], if t == TYPE_NS || t == TYPE_MX then Glue(ntop, rrs, zone, found) else [])
    case Fell =>
      var wild := WildcardRecords(rrs, zone, t, Parent(q));
      if wild.Some? then Body(NOERROR, true, w.answers + Renamed(wild.value, q), [], [])
      else
        Body(if NameOwned(rrs, q) then NOERROR else NXDOMAIN, true, w.answers, LookedUp(rrs, zone, TYPE_SOA), [])
  }

  function BodyFor(ntop: Ntop, found: Option<MemZone>, q: Name, t: U16): Body {
    if found.None? then Body(REFUSED, false, [], [], [])
    else
      var rrs, zone := found.value.records, found.value.info.name;
      var cut := Cut(rrs, zone, q);
      if Refers(cut, q, t) then Referral(ntop, rrs, zone, cut.value)
      else if t == TYPE_ANY then Body(NOERROR, true, [Hinfo(q)], [], [])
      else InZone(ntop, rrs, zone, q, t)
  }

  /** makeResponse and addEdns around a body. */
  function Response(cfg: Config, query: Message, b: Body): Message {
    var r := MakeResponse(query);
    var size := cfg.ednsBufsize % 0x1_0000;
    r.(header := r.header.(rcode := b.rcode, aa := b.aa), answers := b.answers, authority := b.authority,
       additional := b.additional + (if query.edns.present then [OptRecord(size)] else []),
       edns := if query.edns.present then r.edns.(udpSize := size) else r.edns)
  }

  function Answered(ntop: Ntop, cfg: Config, found: Option<MemZone>, query: Message): Message
    requires query.questions != []
  {
    Response(cfg, query, BodyFor(ntop, found, query.questions[0].qname, query.questions[0].qtype))
  }

  // ---- The imperative form --------------------------------------------------------------

  class Answerer {
    const router: BackendRouter
    const cfg: Config
    const ntop: Ntop

    constructor (router: BackendRouter, cfg: Config, ntop: Ntop)
      ensures this.router == router && this.cfg == cfg && this.ntop == ntop
    {
      this.router := router;
      this.cfg := cfg;
      this.ntop := ntop;
    }

    method AddGlue(additional: Rrs, info: ZoneInfo, nsset: Rrs) returns (out: Rrs)
      ensures out == additional + Glue(ntop, OwnedRecords(router.Tables(), info), info.name, nsset)
    {
      hide Target, OwnedRecords, LookedUp, IsSubdomainOf, Glue;
      out := additional;
      NoGlue(ntop, OwnedRecords(router.Tables(), info), info.name);
      for i := 0 to |nsset|
        invariant out == additional + Glue(ntop, OwnedRecords(router.Tables(), info), info.name, nsset[..i])
      {
        GlueSnoc(ntop, OwnedRecords(router.Tables(), info), info.name, nsset[..i], nsset[i]);
        assert nsset[..i + 1] == nsset[..i] + [nsset[i]];
        var target := Target(ntop, nsset[i]);
        var below := CheckSubdomain(target, info.name);
        if below {
          var a := router.Lookup(info, target, TYPE_A);
          var aaaa := router.Lookup(info, target, TYPE_AAAA);
          out := out + a + aaaa;
        }
      }
      assert nsset[..|nsset|] == nsset;
    }

    /** The chase loop. */
    method Chase(info: ZoneInfo, q: Name, t: U16) returns (answers: Rrs, end: End)
      ensures Walk(answers, end) == Chased(ntop, OwnedRecords(router.Tables(), info), info.name, t, q, MAX_HOPS)
    {
      hide Target, OwnedRecords, LookedUp, IsSubdomainOf, Chased;
      ghost var rrs := OwnedRecords(router.Tables(), info);
      answers := [];
      var chase := q;
      for hop := 0 to MAX_HOPS
        invariant Chased(ntop, rrs, info.name, t, q, MAX_HOPS)
                  == Following(answers, Chased(ntop, rrs, info.name, t, chase, MAX_HOPS - hop))
      {
        var cname := router.Lookup(info, chase, TYPE_CNAME);
        var found := router.Lookup(info, chase, t);
        ChaseStep(ntop, rrs, info.name, t, chase, MAX_HOPS - hop, answers);
        if t != TYPE_CNAME && cname != [] {
          answers := answers + cname;
          chase := Target(ntop, cname[0]);
          var below := CheckSubdomain(chase, info.name);
          if !below {
            return answers, LeftZone;
          }
        } else if found != [] {
          answers := answers + found;
          return answers, Matched(found);
        } else {
          return answers, Fell;
        }
      }
      ChaseEnds(ntop, rrs, info.name, t, chase, answers);
      return answers, Fell;
    }

    /** The wildcard loop. */
    method ClimbWildcards(info: ZoneInfo, q: Name, t: U16) returns (r: Option<Rrs>)
      ensures r == WildcardRecords(OwnedRecords(router.Tables(), info), info.name, t, Parent(q))
    {
      hide OwnedRecords, LookedUp, IsSubdomainOf;
      ghost var rrs := OwnedRecords(router.Tables(), info);
      var parent := Parent(q);
      var below := CheckSubdomain(parent, info.name);
      while below || parent == ROOT
        invariant below == IsSubdomainOf(parent, info.name)
        invariant WildcardRecords(rrs, info.name, t, Parent(q)) == WildcardRecords(rrs, info.name, t, parent)
        decreases |parent|
      {
        var wild := router.Lookup(info, Wildcard(parent), t);
        var cname := router.Lookup(info, Wildcard(parent), TYPE_CNAME);
        if wild != [] || cname != [] {
          return Some(if wild == [] then cname else wild);
        }
        var apex := Equals(parent, info.name);
        if apex || parent == ROOT {
          return None;
        }
        assert Parent(parent) == parent[1..];
        parent := Parent(parent);
        below := CheckSubdomain(parent, info.name);
      }
      return None;
    }

    method AnswerQuery(query: Message) returns (resp: Message)
      requires query.questions != [] && AllKeyed(router.Tables())
      ensures resp == Answered(ntop, cfg, View(router.Tables(), query.questions[0].qname), query)
    {
      hide AllKeyed, OwnedRecords, OwnerIndex, RouterFound, FoundZone, LookedUp, Cut, Glue, Chased, WildcardRecords,
           NameOwned, Key, IsSubdomainOf, Target;
      var q, t := query.questions[0].qname, query.questions[0].qtype;
      var zone := router.FindZone(q);
      if zone.None? {
        return Response(cfg, query, Body(REFUSED, false, [], [], []));
      }
      var info := zone.value;
      ViewIsSupplied(router.Tables(), q);
      var cut := router.FindDelegation(info, q);
      if cut.Some? {
        var here := Equals(cut.value, q);
        if !here || (t != TYPE_NS && t != TYPE_DS) {
          var ns := router.Lookup(info, cut.value, TYPE_NS);
          var additional := AddGlue([], info, ns);
          assert additional == Glue(ntop, OwnedRecords(router.Tables(), info), info.name, ns);
          return Response(cfg, query, Body(NOERROR, false, [], ns, additional));
        }
      }
      if t == TYPE_ANY {
        return Response(cfg, query, Body(NOERROR, true, [Hinfo(q)], [], []));
      }
      var body := AnswerInZone(info, q, t);
      return Response(cfg, query, body);
    }

    method AnswerInZone(info: ZoneInfo, q: Name, t: U16) returns (b: Body)
      ensures b == InZone(ntop, OwnedRecords(router.Tables(), info), info.name, q, t)
    {
      hide OwnedRecords, LookedUp, Glue, Chased, WildcardRecords, NameOwned, IsSubdomainOf, Target;
      var answers, end := Chase(info, q, t);
      if end.LeftZone? {
        return Body(NOERROR, true, answers, [], []);
      }
      if end.Matched? {
        var additional: Rrs := [];
        if t == TYPE_NS || t == TYPE_MX {
          additional := AddGlue(additional, info, end.found);
        }
        return Body(NOERROR, true, answers, [], additional);
      }
      var wild := ClimbWildcards(info, q, t);
      if wild.Some? {
        answers := AppendRenamed(answers, wild.value, q);
        return Body(NOERROR, true, answers, [], []);
      }
      var owned := router.NameExists(info, q);
      var soa := router.Lookup(info, info.name, TYPE_SOA);
      return Body(if owned then NOERROR else NXDOMAIN, true, answers, soa, []);
    }

    /** The synthesis loop. */
    static method AppendRenamed(answers: Rrs, synth: Rrs, q: Name) returns (out: Rrs)
      ensures out == answers + Renamed(synth, q)
    {
      out := answers;
      for i := 0 to |synth|
        invariant out == answers + Renamed(synth, q)[..i]
      {
        var rr := synth[i];
        rr := rr.(name := q);
        out := out + [rr];
      }
      assert Renamed(synth, q)[..|synth|] == Renamed(synth, q);
    }
  }

  lemma FollowingTwice(a: Rrs, b: Rrs, w: Walk)
    ensures Following(a, Following(b, w)) == Following(a + b, w)
  {
    assert a + (b + w.answers) == a + b + w.answers;
  }

  /** One hop of the chase, with what was collected before it. */
  lemma ChaseStep(ntop: Ntop, rrs: Rrs, zone: Name, t: U16, at: Name, hops: nat, answers: Rrs)
    requires hops > 0
    ensures var cname, found := LookedUp(rrs, at, TYPE_CNAME), LookedUp(rrs, at, t);
      Following(answers, Chased(ntop, rrs, zone, t, at, hops)) ==
        if t != TYPE_CNAME && cname != [] then
          if !IsSubdomainOf(Target(ntop, cname[0]), zone) then Walk(answers + cname, LeftZone)
          else Following(answers + cname, Chased(ntop, rrs, zone, t, Target(ntop, cname[0]), hops - 1))
        else if found != [] then Walk(answers + found, Matched(found))
        else Walk(answers, Fell)
  {
    hide Target, LookedUp, IsSubdomainOf;
    var cname := LookedUp(rrs, at, TYPE_CNAME);
    assert answers + [] == answers;
    if cname != [] {
      FollowingTwice(answers, cname, Chased(ntop, rrs, zone, t, Target(ntop, cname[0]), hops - 1));
    }
  }

  lemma ChaseEnds(ntop: Ntop, rrs: Rrs, zone: Name, t: U16, at: Name, answers: Rrs)
    ensures Following(answers, Chased(ntop, rrs, zone, t, at, 0)) == Walk(answers, Fell)
  {
    assert answers + [] == answers;
  }
}
