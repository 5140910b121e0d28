/**
 Cache transparency: over every sequential run of calls and zone refreshes, what the cache
 serves is what answerQuery would say about the records of the moment.
 */
module CacheRuns {
  import opened Text
  import opened DnsNames
  import opened NameCodec
  import opened Records
  import opened Numbers
  import opened Rdata
  import opened MessageCodec
  import opened MessageRoundTrip
  import opened FirstNames
  import opened Store
  import opened Router
  import opened Answering
  import opened AnswerProperties
  import opened PlainAnswers
  import opened Updates
  import opened Transfer
  import opened Cache
  import opened Engine

  // ---- Runs ---------------------------------------------------------------------------------

  /** A step: one call of handle, or one secondary zone refreshed from what its primary sent. */
  datatype Step =
    | Calling(call: Call)
    | Refreshing(backend: nat, key: Str, stream: Bytes, maxSize: nat)

  /** A refresh that received a transfer changes one zone and invalidates the cache. */
  function AfterRefresh(env: Env, st: State, backend: nat, key: Str, stream: Bytes, maxSize: nat): Outcome<State> {
    if backend >= |st.zs| || key !in st.zs[backend] then Returns(st)
    else
      var z := st.zs[backend][key];
      var r := Refreshed(env.ntop, env.pton, z.info.name, z.records, stream, maxSize);
      if r.threw then Throws
      else if |Received(env.ntop, stream, 0, maxSize, [])| < 2 then Returns(st)
      else Returns(st.(zs := st.zs[backend := st.zs[backend][key := z.(records := r.records)]], entries := map[]))
  }

  /** An exception ends the process and with it the run. */
  function AfterStep(env: Env, st: State, step: Step): Outcome<State> {
    match step
    case Calling(c) =>
      var h := Handled(env, st, c);
      if h.Throws? then Throws else Returns(h.value.state)
    case Refreshing(b, k, s, m) => AfterRefresh(env, st, b, k, s, m)
  }

  function AfterRun(env: Env, st: State, run: seq<Step>): Outcome<State>
    decreases |run|
  {
    if run == [] then Returns(st)
    else
      var s := AfterRun(env, st, run[..|run| - 1]);
      if s.Throws? then Throws else AfterStep(env, s.value, run[|run| - 1])
  }

  // ---- The invariant --------------------------------------------------------------------------

  /** What answerQuery says about a query now. */
  function Fresh(env: Env, zs: seq<Zones>, query: Message): Message
    requires query.questions != []
  {
    Answered(env.ntop, env.cfg, View(zs, query.questions[0].qname), query)
  }

  /** The entry holds the encoded answer to some query with this key on the records of now. */
  ghost predicate EntryIsFresh(env: Env, zs: seq<Zones>, key: Str, wire: Bytes) {
    exists query: Message, tcp ::
      && query.questions != [] && key == KeyOf(query, tcp)
      && Returnable(Fresh(env, zs, query))
      && wire == EncodedMessage(Fresh(env, zs, query), 0).bytes
  }

  /** What the cache holds under the key, if anything, is fresh. */
  ghost predicate KeyFresh(env: Env, st: State, key: Str) {
    AllKeyed(st.zs) && (key in st.entries ==> EntryIsFresh(env, st.zs, key, st.entries[key].wire))
  }

  /** A query under the key, if this step is one, asks for a name that survives, in a zone of plain records. */
  ghost predicate SurvivorUnder(st: State, step: Step, key: Str) {
    (step.Calling? && Asks(step.call.query) && KeyOf(step.call.query, step.call.tcp) == key)
    ==> SurvivorAsked(st.zs, step.call.query)
  }

  // ---- A fresh answer on the wire ---------------------------------------------------------------

  /** What decodeMessage later makes of a fresh answer: the same header codes and the same sections. */
  lemma FreshComesBack(env: Env, zs: seq<Zones>, query: Message)
    requires query.questions != [] && Returnable(Fresh(env, zs, query))
    ensures var f := Fresh(env, zs, query); var d := DecodedMessage(env.ntop, EncodedMessage(f, 0).bytes);
      && d.Some? && d.value.header.rcode == f.header.rcode && d.value.header.aa == f.header.aa
      && SameRecords(env.ntop, d.value.answers, f.answers)
      && SameRecords(env.ntop, d.value.authority, f.authority)
      && SameRecords(env.ntop, d.value.additional, f.additional)
  {
    hide DecodedMessage, EncodedMessage, FirstSendable, BodyFor, View, SameRecords, SameQuestions, EdnsOf, SurvivesText;
    var f := Fresh(env, zs, query);
    SurvivorRoundTrip(env.ntop, f);
    FirstCounts(f);
    NonTsigKeepsAll(f.additional);
  }

  // ---- Agreement ------------------------------------------------------------------------------------

  /** Equal on the wire, owner names up to case. */
  predicate SameOnWire(a: Rrs, b: Rrs) {
    && |a| == |b|
    && forall i :: 0 <= i < |a| ==>
         && Same(a[i].name, b[i].name) && a[i].rtype == b[i].rtype && a[i].rclass == b[i].rclass
         && a[i].ttl == b[i].ttl && a[i].rdata == b[i].rdata
  }

  /** What a client can rely on in a served answer. */
  predicate AgreesWith(served: Message, expected: Message) {
    && served.header.id == expected.header.id && served.header.rcode == expected.header.rcode
    && served.header.aa == expected.header.aa
    && SameOnWire(served.answers, expected.answers) && SameOnWire(served.authority, expected.authority)
    && SameOnWire(served.additional, expected.additional)
  }

  lemma ArrivedAgrees(ntop: Ntop, a: Rrs, b: Rrs, c: Rrs)
    requires SameRecords(ntop, a, b) && Alike(b, c)
    ensures SameOnWire(a, c)
  {
    hide Arrived;
    forall i | 0 <= i < |a|
      ensures Same(a[i].name, c[i].name) && a[i].rtype == c[i].rtype && a[i].rclass == c[i].rclass
              && a[i].ttl == c[i].ttl && a[i].rdata == c[i].rdata
    {
      assert SameRecord(ntop, a[i], b[i]);
      ArrivedFields(ntop, a[i].name, b[i]);
    }
  }

  /** Two queries with one key have fresh answers that differ in the case of owner names at most. */
  lemma FreshAlike(env: Env, zs: seq<Zones>, a: Message, b: Message)
    requires a.questions != [] && b.questions != []
    requires Same(a.questions[0].qname, b.questions[0].qname) && a.questions[0].qtype == b.questions[0].qtype
    requires a.edns.present == b.edns.present
    ensures var f, g := Fresh(env, zs, a), Fresh(env, zs, b);
      && f.header.rcode == g.header.rcode && f.header.aa == g.header.aa
      && Alike(f.answers, g.answers) && f.authority == g.authority && f.additional == g.additional
  {
    hide BodyFor, View, Alike;
    ViewSame(zs, a.questions[0].qname, b.questions[0].qname);
    BodyAlike(env.ntop, View(zs, a.questions[0].qname), a.questions[0].qname, b.questions[0].qname,
        a.questions[0].qtype);
  }

  lemma AskedSurvives(env: Env, zs: seq<Zones>, query: Message)
    requires query.questions != [] && Returnable(Fresh(env, zs, query))
    ensures ProperName(query.questions[0].qname) && SurvivesText(query.questions[0].qname)
  {
    hide BodyFor, View, FirstSendable, SurvivesText;
    FirstProper(Fresh(env, zs, query));
  }

  /** An entry under the key of a query decodes, and to a message that agrees with a fresh answer. */
  lemma HitAgrees(env: Env, zs: seq<Zones>, query: Message, tcp: bool, wire: Bytes)
    requires query.questions != [] && Returnable(Fresh(env, zs, query))
    requires EntryIsFresh(env, zs, KeyOf(query, tcp), wire)
    ensures var d := DecodedMessage(env.ntop, wire);
      d.Some? && AgreesWith(d.value.(header := d.value.header.(id := query.header.id)), Fresh(env, zs, query))
  {
    hide DecodedMessage, EncodedMessage, Returnable, BodyFor, View, CacheKey, SameRecords, Alike, SameOnWire, Fresh,
         Same, SurvivesText, Key;
    var first: Message, tcp' :|
      && first.questions != [] && KeyOf(query, tcp) == KeyOf(first, tcp')
      && Returnable(Fresh(env, zs, first)) && wire == EncodedMessage(Fresh(env, zs, first), 0).bytes;
    AskedSurvives(env, zs, query);
    AskedSurvives(env, zs, first);
    CacheKeyParts(first.questions[0], query.questions[0], tcp', first.edns.present, tcp, query.edns.present);
    SameKeyReparsed(first.questions[0].qname, query.questions[0].qname);
    FreshAlike(env, zs, first, query);
    FreshComesBack(env, zs, first);
    HitFields(env, zs, first, query, DecodedMessage(env.ntop, wire).value);
  }

  lemma HitFields(env: Env, zs: seq<Zones>, first: Message, query: Message, d: Message)
    requires first.questions != [] && query.questions != []
    requires var f := Fresh(env, zs, first); var g := Fresh(env, zs, query);
      && d.header.rcode == f.header.rcode && d.header.aa == f.header.aa
      && SameRecords(env.ntop, d.answers, f.answers) && SameRecords(env.ntop, d.authority, f.authority)
      && SameRecords(env.ntop, d.additional, f.additional)
      && f.header.rcode == g.header.rcode && f.header.aa == g.header.aa
      && Alike(f.answers, g.answers) && f.authority == g.authority && f.additional == g.additional
    ensures AgreesWith(d.(header := d.header.(id := query.header.id)), Fresh(env, zs, query))
  {
    hide SameRecords, Alike, SameOnWire, Fresh;
    var f := Fresh(env, zs, first);
    var g := Fresh(env, zs, query);
    ArrivedAgrees(env.ntop, d.answers, f.answers, g.answers);
    AlikeRefl(f.authority);
    ArrivedAgrees(env.ntop, d.authority, f.authority, g.authority);
    AlikeRefl(f.additional);
    ArrivedAgrees(env.ntop, d.additional, f.additional, g.additional);
    FreshId(env, zs, query);
  }

  lemma FreshId(env: Env, zs: seq<Zones>, query: Message)
    requires query.questions != []
    ensures Fresh(env, zs, query).header.id == query.header.id
  {
    hide BodyFor, View;
  }

  lemma AgreesRefl(m: Message)
    ensures AgreesWith(m, m)
  {
  }

  // ---- Steps keep the invariant -----------------------------------------------------------------------

  /** Serving from the cache: the answer agrees with a fresh one, and the entry stays fresh. */
  lemma ServedAgrees(env: Env, zs: seq<Zones>, entries: Entries, query: Message, tcp: bool, now: nat)
    requires SurvivorAsked(zs, query)
    requires var key := KeyOf(query, tcp); key in entries ==> EntryIsFresh(env, zs, key, entries[key].wire)
    ensures var s := AnswerCached(env.ntop, env.cfg, zs, entries, query, tcp, now); var key := KeyOf(query, tcp);
      && AgreesWith(s.response, Fresh(env, zs, query))
      && (key in s.entries ==> EntryIsFresh(env, zs, key, s.entries[key].wire))
  {
    hide DecodedMessage, EncodedMessage, Returnable, Answered, View, CacheKey, AgreesWith, EntryIsFresh, MinTtl, KeyOf,
         SurvivorAsked;
    SurvivorIsServed(env, zs, query);
    var key := KeyOf(query, tcp);
    AgreesRefl(Fresh(env, zs, query));
    if key in entries { HitAgrees(env, zs, query, tcp, entries[key].wire); }
    OwnAnswerIsFresh(env, zs, query, tcp);
  }

  lemma SurvivorIsServed(env: Env, zs: seq<Zones>, query: Message)
    requires SurvivorAsked(zs, query)
    ensures query.questions != [] && Returnable(Fresh(env, zs, query))
  {
    hide BodyFor, View, FirstSendable, PlainQuestions, PlainZone, WireName, SurvivesText;
    SendableAnswer(env.ntop, env.cfg, zs, query);
  }

  lemma OwnAnswerIsFresh(env: Env, zs: seq<Zones>, query: Message, tcp: bool)
    requires query.questions != [] && Returnable(Fresh(env, zs, query))
    ensures EntryIsFresh(env, zs, KeyOf(query, tcp), EncodedMessage(Fresh(env, zs, query), 0).bytes)
  {
    hide Returnable, Fresh, EncodedMessage, KeyOf;
  }

  /** A query under another key can drop the entry, but neither make nor change one. */
  lemma OtherKeyKept(env: Env, zs: seq<Zones>, entries: Entries, query: Message, tcp: bool, now: nat, key: Str)
    requires query.questions != [] && KeyOf(query, tcp) != key
    ensures var s := AnswerCached(env.ntop, env.cfg, zs, entries, query, tcp, now);
      key in s.entries ==> key in entries && s.entries[key] == entries[key]
  {
    hide DecodedMessage, EncodedMessage, Answered, View, KeyOf, MinTtl;
  }

  lemma StepKeepsFresh(env: Env, st: State, step: Step, key: Str)
    requires KeyFresh(env, st, key) && SurvivorUnder(st, step, key) && AfterStep(env, st, step).Returns?
    ensures KeyFresh(env, AfterStep(env, st, step).value, key)
  {
    hide EntryIsFresh, AnswerCached, Fresh, Updated, Refreshed, Received, AxfrReply, Key, KeyOf, SurvivorAsked;
    match step
    case Calling(c) =>
      UpdatedKeyed(env.ntop, env.pton, st.zs, c.query, c.gate);
      if Asks(c.query) {
        if KeyOf(c.query, c.tcp) == key {
          ServedAgrees(env, st.zs, st.entries, c.query, c.tcp, c.now);
        } else {
          OtherKeyKept(env, st.zs, st.entries, c.query, c.tcp, c.now, key);
        }
      }
    case Refreshing(_, _, _, _) =>
  }

  /** Every reply to an asked query that the rate limiter lets through agrees with a fresh answer. */
  lemma ReplyAgrees(env: Env, st: State, c: Call)
    requires Asks(c.query) && KeyFresh(env, st, KeyOf(c.query, c.tcp)) && SurvivorAsked(st.zs, c.query)
    requires R.Decided(env.rate, st.buckets, c.peer, c.now).allowed
    ensures var h := Handled(env, st, c);
            h.Returns? && AgreesWith(h.value.response, Fresh(env, st.zs, c.query))
  {
    hide EntryIsFresh, AnswerCached, Fresh, Updated, AxfrReply, AgreesWith, KeyOf, SurvivorAsked;
    ServedAgrees(env, st.zs, st.entries, c.query, c.tcp, c.now);
  }

  /** Each query of the run under the key asks for a survivor when its turn comes; all others may be anything. */
  ghost predicate SurvivorRun(env: Env, st: State, run: seq<Step>, key: Str)
    decreases |run|
  {
    run == []
    || (&& SurvivorRun(env, st, run[..|run| - 1], key)
        && (AfterRun(env, st, run[..|run| - 1]).Returns? ==>
              SurvivorUnder(AfterRun(env, st, run[..|run| - 1]).value, run[|run| - 1], key)))
  }

  lemma {:induction false} RunKeepsFresh(env: Env, st: State, run: seq<Step>, key: Str)
    requires KeyFresh(env, st, key) && SurvivorRun(env, st, run, key) && AfterRun(env, st, run).Returns?
    ensures KeyFresh(env, AfterRun(env, st, run).value, key)
    decreases |run|
  {
    hide KeyFresh, SurvivorUnder, AfterStep;
    if run != [] {
      RunKeepsFresh(env, st, run[..|run| - 1], key);
      StepKeepsFresh(env, AfterRun(env, st, run[..|run| - 1]).value, run[|run| - 1], key);
    }
  }

  /**
   Cache transparency: after every run of calls and refreshes from an empty cache, the reply
   to the next query, cached or not, has the id of the query and the code, authority bit,
   answers, authority and additional records that answerQuery gives on the current records,
   owner names up to case.  Only the queries under the key of this one must ask for names
   that survive their text, in zones of plain records.
   */
  lemma CacheIsTransparent(env: Env, zs: seq<Zones>, buckets: R.Buckets, run: seq<Step>, c: Call)
    requires AllKeyed(zs) && Asks(c.query)
    requires var st := State(zs, map[], buckets);
      && SurvivorRun(env, st, run + [Calling(c)], KeyOf(c.query, c.tcp)) && AfterRun(env, st, run).Returns?
      && R.Decided(env.rate, AfterRun(env, st, run).value.buckets, c.peer, c.now).allowed
    ensures var after := AfterRun(env, State(zs, map[], buckets), run).value; var h := Handled(env, after, c);
      h.Returns? && AgreesWith(h.value.response, Fresh(env, after.zs, c.query))
  {
    hide KeyFresh, AfterRun, Handled, AgreesWith, R.Decided, KeyOf, SurvivorAsked;
    var st := State(zs, map[], buckets);
    var key := KeyOf(c.query, c.tcp);
    assert (run + [Calling(c)])[..|run|] == run;
    EmptyIsFresh(env, zs, buckets, key);
    RunKeepsFresh(env, st, run, key);
    ReplyAgrees(env, AfterRun(env, st, run).value, c);
  }

  lemma EmptyIsFresh(env: Env, zs: seq<Zones>, buckets: R.Buckets, key: Str)
    requires AllKeyed(zs)
    ensures KeyFresh(env, State(zs, map[], buckets), key)
  {
  }

  // ---- The size of the cache ------------------------------------------------------------------------------

  /** No step lets the cache grow beyond its limit. */
  lemma StepKeepsBound(env: Env, st: State, step: Step)
    requires |st.entries| <= env.cfg.cacheSize && AfterStep(env, st, step).Returns?
    ensures |AfterStep(env, st, step).value.entries| <= env.cfg.cacheSize
  {
    hide DecodedMessage, EncodedMessage, Answered, View, Updated, Refreshed, Received, AxfrReply, Key, KeyOf, MinTtl,
         R.Decided;
    if step.Calling? && Asks(step.call.query) {
      ServedBound(env, st, step.call);
    }
  }

  lemma ServedBound(env: Env, st: State, c: Call)
    requires |st.entries| <= env.cfg.cacheSize && c.query.questions != []
    ensures var s := AnswerCached(env.ntop, env.cfg, st.zs, st.entries, c.query, c.tcp, c.now);
            |s.entries| <= env.cfg.cacheSize
  {
    hide DecodedMessage, EncodedMessage, Answered, View, KeyOf, MinTtl;
    var key := KeyOf(c.query, c.tcp);
    var looked := GetFrom(st.entries, key, c.now).entries;
    assert looked.Keys <= st.entries.Keys;
    SubsetSize(looked.Keys, st.entries.Keys);
  }

  lemma SubsetSize(a: set<Str>, b: set<Str>)
    requires a <= b
    ensures |a| <= |b|
  {
    assert b == a + (b - a);
  }

  /** Over every run the cache holds at most as many entries as it is configured for. */
  lemma {:induction false} CacheStaysBounded(env: Env, st: State, run: seq<Step>)
    requires |st.entries| <= env.cfg.cacheSize && AfterRun(env, st, run).Returns?
    ensures |AfterRun(env, st, run).value.entries| <= env.cfg.cacheSize
    decreases |run|
  {
    hide AfterStep;
    if run != [] {
      CacheStaysBounded(env, st, run[..|run| - 1]);
      StepKeepsBound(env, AfterRun(env, st, run[..|run| - 1]).value, run[|run| - 1]);
    }
  }
}
