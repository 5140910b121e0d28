/**
 Cache hits: what the reply takes from the query that filled the entry, and exactly when one
 query can be given the entry of another.
 */
module CacheHits {
  import opened Text
  import opened DnsNames
  import opened NameCodec
  import opened Compression
  import opened Records
  import opened Rdata
  import opened MessageCodec
  import opened MessageRoundTrip
  import opened FirstNames
  import opened Store
  import opened Router
  import opened Answering
  import opened AnswerProperties
  import opened PlainAnswers
  import opened Cache
  import opened Engine
  import opened SmallZones
  import opened CacheRuns
  import Gsql

  // ---- Two queries -----------------------------------------------------------------------------

  /** The answer to a query is kept, and its entry still alive at a later time. */
  predicate KeptUntil(env: Env, zs: seq<Zones>, query: Message, now: nat, later: nat)
    requires query.questions != []
  {
    var f := Fresh(env, zs, query);
    && env.cfg.cacheSize > 0 && f.header.rcode in {NOERROR, NXDOMAIN} && CacheTtl(env.cfg, f) > 0
    && later <= now + CacheTtl(env.cfg, f) * 1000
  }

  /** The reply to the second of two queries on an empty cache. */
  function SecondReply(env: Env, zs: seq<Zones>, first: Call, second: Call): Message
    requires first.query.questions != [] && second.query.questions != []
  {
    var s := AnswerCached(env.ntop, env.cfg, zs, map[], first.query, first.tcp, first.now);
    AnswerCached(env.ntop, env.cfg, zs, s.entries, second.query, second.tcp, second.now).response
  }

  /** Two queries under one key; names that come from the wire have no empty labels. */
  predicate ShareKey(first: Call, second: Call) {
    && Asks(first.query) && Asks(second.query) && ProperName(second.query.questions[0].qname)
    && KeyOf(first.query, first.tcp) == KeyOf(second.query, second.tcp)
  }

  /** What the entry of a query decodes to: always something, whatever its name is. */
  lemma SecondIsHit(env: Env, zs: seq<Zones>, first: Call, second: Call)
    requires ShareKey(first, second) && PlainAsked(zs, first.query)
    requires KeptUntil(env, zs, first.query, first.now, second.now)
    ensures var f := Fresh(env, zs, first.query); var d := DecodedMessage(env.ntop, EncodedMessage(f, 0).bytes);
      && f.questions == first.query.questions && d.Some? && FirstArrives(env.ntop, d.value, f)
      && SecondReply(env, zs, first, second)
         == d.value.(header := d.value.header.(id := second.query.header.id))
  {
    hide DecodedMessage, EncodedMessage, Answered, View, KeyOf, PlainAsked, CacheTtl, FirstArrives, FirstSendable;
    FirstIsSent(env, zs, first.query);
    FreshFlags(env, zs, first.query);
    FirstMessageArrives(env.ntop, Fresh(env, zs, first.query));
  }

  lemma FirstIsSent(env: Env, zs: seq<Zones>, query: Message)
    requires PlainAsked(zs, query)
    ensures query.questions != [] && FirstSendable(Fresh(env, zs, query))
  {
    hide BodyFor, View, FirstSendable, PlainQuestions, PlainZone, WireName;
    SendableAnswer(env.ntop, env.cfg, zs, query);
  }

  /** Where nothing is kept, or no longer, the second query is answered afresh. */
  lemma SecondIsFresh(env: Env, zs: seq<Zones>, first: Call, second: Call)
    requires ShareKey(first, second) && !KeptUntil(env, zs, first.query, first.now, second.now)
    ensures SecondReply(env, zs, first, second) == Fresh(env, zs, second.query)
  {
    hide Answered, View, KeyOf, EncodedMessage, DecodedMessage, CacheTtl;
  }

  lemma FreshFlags(env: Env, zs: seq<Zones>, query: Message)
    requires Asks(query)
    ensures var f := Fresh(env, zs, query);
      && f.header == QUERY_HEADER.(id := query.header.id, qr := true, rd := query.header.rd, aa := f.header.aa,
                                   rcode := f.header.rcode)
      && f.questions == query.questions
  {
    hide BodyFor, View;
  }

  // ---- What a hit takes from the query that filled the entry --------------------------------------

  /** The header, section counts apart, and the questions of an answer. */
  predicate Echoes(served: Message, expected: Message) {
    && served.header.(qdcount := 0, ancount := 0, nscount := 0, arcount := 0)
       == expected.header.(qdcount := 0, ancount := 0, nscount := 0, arcount := 0)
    && SameQuestions(served.questions, expected.questions)
  }

  /**
   The header and the questions of a hit are those of an answer of its own exactly if the query
   that filled the entry has the same RD bit and the same questions.
   */
  lemma HitEchoes(env: Env, zs: seq<Zones>, first: Call, second: Call)
    requires ShareKey(first, second) && SurvivorAsked(zs, first.query)
    requires KeptUntil(env, zs, first.query, first.now, second.now)
    ensures Echoes(SecondReply(env, zs, first, second), Fresh(env, zs, second.query))
            <==> first.query.header.rd == second.query.header.rd
                 && SameQuestions(first.query.questions, second.query.questions)
  {
    hide DecodedMessage, EncodedMessage, Fresh, View, CacheKey, PlainAsked, KeptUntil, SecondReply, Alike, Returnable,
         SameQuestions, SameRecords, SurvivesText, EdnsOf, NonTsig, LastTsig, FirstArrives;
    SecondIsHit(env, zs, first, second);
    SurvivorIsServed(env, zs, first.query);
    SurvivorRoundTrip(env.ntop, Fresh(env, zs, first.query));
    FreshFlags(env, zs, first.query);
    FreshFlags(env, zs, second.query);
    CacheKeyParts(first.query.questions[0], second.query.questions[0], first.tcp, first.query.edns.present,
        second.tcp, second.query.edns.present);
    if SameQuestions(first.query.questions, second.query.questions) {
      FirstSameQuestion(first.query.questions, second.query.questions);
      FreshAlike(env, zs, first.query, second.query);
    }
    var d := DecodedMessage(env.ntop, EncodedMessage(Fresh(env, zs, first.query), 0).bytes).value;
    SameQuestionsTriangle(d.questions, first.query.questions, second.query.questions);
  }

  lemma FirstSameQuestion(a: seq<Question>, b: seq<Question>)
    requires a != [] && SameQuestions(a, b)
    ensures b != [] && Same(a[0].qname, b[0].qname)
  {
    assert SameQuestion(a[0], b[0]);
  }

  lemma SameQuestionsTriangle(d: seq<Question>, a: seq<Question>, b: seq<Question>)
    requires SameQuestions(d, a)
    ensures SameQuestions(d, b) <==> SameQuestions(a, b)
  {
    if SameQuestions(d, b) {
      forall i | 0 <= i < |a| ensures SameQuestion(a[i], b[i]) {
        assert SameQuestion(d[i], a[i]) && SameQuestion(d[i], b[i]);
      }
    }
    if SameQuestions(a, b) {
      forall i | 0 <= i < |a| ensures SameQuestion(d[i], b[i]) {
        assert SameQuestion(d[i], a[i]) && SameQuestion(a[i], b[i]);
      }
    }
  }

  // ---- Names that share a key ---------------------------------------------------------------------

  lemma SuffixTextShorter(n: Name, k: nat)
    requires 0 < k <= |n| && ProperName(n)
    ensures |Key(n[k..])| < |Key(n)|
  {
    LabelKeyLonger(n);
    if k > 1 {
      assert n[1..][k - 1..] == n[k..];
      SuffixTextShorter(n[1..], k - 1);
    }
  }

  lemma LabelKeyLonger(n: Name)
    requires n != [] && n[0] != []
    ensures |Key(n[1..])| < |Key(n)|
  {
  }

  /** Another name with the same key lies outside. */
  lemma OutsideOwnKey(a: Name, b: Name)
    requires Key(a) == Key(b) && !Same(a, b) && ProperName(a)
    ensures !IsSubdomainOf(a, b)
  {
    hide Key, Same;
    assert a[0..] == a;
    if IsSubdomainOf(a, b) && |a| > |b| {
      var k := |a| - |b|;
      SuffixTextShorter(a, k);
      SameKeyText(a[k..], b);
    }
  }

  lemma RootKeyIsOwn(n: Name)
    requires ProperName(n) && Key(n) == Key(ROOT)
    ensures n == ROOT
  {
    hide Key;
    if n != ROOT {
      assert n[|n|..] == ROOT;
      SuffixTextShorter(n, |n|);
    }
  }

  /** A label with a dot inside shares its key with the two labels that the dot would divide. */
  lemma DottedLabelSharesKey(x: Str, y: Str, rest: Name)
    ensures Key([x + [DOT] + y] + rest) == Key([x, y] + rest)
    ensures !Same([x + [DOT] + y] + rest, [x, y] + rest)
  {
    var one, two := [x + [DOT] + y] + rest, [x, y] + rest;
    assert two[1..] == [y] + rest && one[1..] == rest && ([y] + rest)[1..] == rest;
    assert |LowerName(one)| != |LowerName(two)|;
    if rest == [] {
      assert Joined(one, [DOT]) == x + [DOT] + y && Joined([y], [DOT]) == y;
    } else {
      assert Joined([y] + rest, [DOT]) == y + [DOT] + Joined(rest, [DOT]);
      assert Joined(one, [DOT]) == x + [DOT] + y + [DOT] + Joined(rest, [DOT]);
    }
    assert Joined(two, [DOT]) == x + [DOT] + Joined([y] + rest, [DOT]);
    assert Joined(one, [DOT]) == Joined(two, [DOT]);
  }

  // ---- One half: survivors agree ------------------------------------------------------------------

  /** For a name that survives, asked again in any case, the second reply agrees with a fresh answer. */
  lemma SurvivorAgrees(env: Env, zs: seq<Zones>, first: Call, second: Call)
    requires ShareKey(first, second) && SurvivorAsked(zs, first.query)
    requires Same(second.query.questions[0].qname, first.query.questions[0].qname)
    ensures AgreesWith(SecondReply(env, zs, first, second), Fresh(env, zs, second.query))
  {
    hide DecodedMessage, EncodedMessage, Fresh, View, CacheKey, PlainAsked, SecondReply, SameRecords, SurvivesText,
         AgreesWith, Same, KeptUntil, Returnable, FirstArrives;
    if KeptUntil(env, zs, first.query, first.now, second.now) {
      SecondIsHit(env, zs, first, second);
      SurvivorIsServed(env, zs, first.query);
      SameSymmetric(second.query.questions[0].qname, first.query.questions[0].qname);
      CacheKeyParts(first.query.questions[0], second.query.questions[0], first.tcp, first.query.edns.present,
          second.tcp, second.query.edns.present);
      FreshAlike(env, zs, first.query, second.query);
      FreshComesBack(env, zs, first.query);
      HitFields(env, zs, first.query, second.query,
          DecodedMessage(env.ntop, EncodedMessage(Fresh(env, zs, first.query), 0).bytes).value);
    } else {
      SecondIsFresh(env, zs, first, second);
      AgreesRefl(Fresh(env, zs, second.query));
    }
  }

  // ---- The other half: tables where the replies differ ---------------------------------------------

  lemma OneTtl(cfg: Config, m: Message, rr: ResourceRecord)
    requires rr.rtype != TYPE_OPT && rr.ttl == 3600
    requires (m.answers == [rr] && m.authority == []) || (m.answers == [] && m.authority == [rr])
    ensures CacheTtl(cfg, m) > 0
  {
    assert [rr][..0] == [] && MinTtl([], 0) == 0 && MinTtl([], 3600) == 3600;
  }

  /** The reply to ANY for another name differs in a zone of the first name. */
  lemma AnyDisagrees(env: Env, first: Call, second: Call)
    requires ShareKey(first, second) && Askable(first.query) && env.cfg.cacheSize > 0 && second.now == first.now
    requires first.query.questions[0].qtype == TYPE_ANY
    requires var f, s := first.query.questions[0].qname, second.query.questions[0].qname;
      Key(s) == Key(f) && !Same(s, f)
    ensures var zs := [OneZone(first.query.questions[0].qname)];
      && AllKeyed(zs) && PlainAsked(zs, first.query)
      && !AgreesWith(SecondReply(env, zs, first, second), Fresh(env, zs, second.query))
  {
    hide DecodedMessage, EncodedMessage, View, CacheKey, SecondReply, Key, Askable, BodyFor, SameOnWire, Same,
         AllArrive, SameQuestions, CacheTtl, EdnsOf, Arrives, LookedUp;
    var f, s := first.query.questions[0].qname, second.query.questions[0].qname;
    var zs := [OneZone(f)];
    OutsideOwnKey(s, f);
    OneZoneViews(f, s);
    SmallTable([]);
    EmptyZoneBody(env.ntop, View(zs, f).value.info, f, TYPE_ANY);
    NoZoneBody(env.ntop, s, second.query.questions[0].qtype);
    OneTtl(env.cfg, Fresh(env, zs, first.query), Hinfo(f));
    assert PlainAsked(zs, first.query);
    SecondIsHit(env, zs, first, second);
  }

  /** The name error of the first name differs from that of another name that is a zone of its own. */
  lemma DenialDisagrees(env: Env, first: Call, second: Call)
    requires ShareKey(first, second) && Askable(first.query) && env.cfg.cacheSize > 0 && second.now == first.now
    requires first.query.questions[0].qtype != TYPE_ANY
    requires second.query.questions[0].qtype == first.query.questions[0].qtype
    requires var f, s := first.query.questions[0].qname, second.query.questions[0].qname;
      Key(s) == Key(f) && !Same(s, f) && ProperName(f)
    ensures var zs := [RootAndZone([RootSoa()], second.query.questions[0].qname)];
      && AllKeyed(zs) && PlainAsked(zs, first.query)
      && !AgreesWith(SecondReply(env, zs, first, second), Fresh(env, zs, second.query))
  {
    hide DecodedMessage, EncodedMessage, View, CacheKey, SecondReply, Key, Askable, BodyFor, Same,
         SameQuestions, CacheTtl, EdnsOf, Arrives, LookedUp, PlainRecord;
    var f, s := first.query.questions[0].qname, second.query.questions[0].qname;
    var zs := [RootAndZone([RootSoa()], s)];
    SameTurned(f, s);
    OutsideOwnKey(f, s);
    KeyBelowRoot(f, s);
    RootAndZoneViews([RootSoa()], s, f);
    SmallRecordsPlain();
    OnePlain(RootSoa());
    RootDenies(env.ntop, f, first.query.questions[0].qtype);
    EmptyZoneBody(env.ntop, View(zs, s).value.info, s, second.query.questions[0].qtype);
    OneTtl(env.cfg, Fresh(env, zs, first.query), RootSoa());
    assert PlainAsked(zs, first.query);
    SecondIsHit(env, zs, first, second);
  }

  lemma KeyBelowRoot(f: Name, s: Name)
    requires ProperName(f) && ProperName(s) && Key(f) == Key(s) && !Same(s, f)
    ensures f != ROOT && Key(s) != Key(ROOT)
  {
    hide Key;
    if Key(s) == Key(ROOT) {
      RootKeyIsOwn(s);
      RootKeyIsOwn(f);
    }
  }

  /** The table in which a name that does not survive comes back as another owner. */
  lemma LostOwnerDisagrees(env: Env, first: Call, second: Call)
    requires ShareKey(first, second) && Askable(first.query) && env.cfg.cacheSize > 0 && second.now == first.now
    requires second.query.questions[0].qtype == first.query.questions[0].qtype
    requires second.query.edns.present == first.query.edns.present
    requires var f, s := first.query.questions[0].qname, second.query.questions[0].qname;
      Same(s, f) && ProperName(f) && !SurvivesText(f)
    ensures var zs := [RootTable([RootWildcard()])];
      && AllKeyed(zs) && PlainAsked(zs, first.query)
      && !AgreesWith(SecondReply(env, zs, first, second), Fresh(env, zs, second.query))
  {
    hide DecodedMessage, EncodedMessage, View, CacheKey, SecondReply, Key, Askable, BodyFor, Same, KeyOf, SurvivesText,
         SameQuestions, CacheTtl, EdnsOf, LookedUp, PlainRecord, Twice, Arrived, SameOnWire;
    var f, s := first.query.questions[0].qname, second.query.questions[0].qname;
    var t := first.query.questions[0].qtype;
    var zs := [RootTable([RootWildcard()])];
    RootViews([RootWildcard()], f);
    SmallRecordsPlain();
    OnePlain(RootWildcard());
    LostIsNotWildcard(f);
    var rr := LostAnswer(f, t);
    LostBody(env.ntop, f, t);
    OneTtl(env.cfg, Fresh(env, zs, first.query), rr);
    assert PlainAsked(zs, first.query);
    SecondIsHit(env, zs, first, second);
    SameTurned(s, f);
    FreshAlike(env, zs, first.query, second.query);
    LostNotPlain(rr);
    TwiceIffSurvives(f);
    var d := DecodedMessage(env.ntop, EncodedMessage(Fresh(env, zs, first.query), 0).bytes).value;
    var g := Fresh(env, zs, second.query);
    assert Arrives(env.ntop, f, d.answers[0], rr);
    SameTurned(g.answers[0].name, f);
    OwnersDiffer(f, d.answers, g.answers);
  }

  /** The one answer there: the wildcard under the name, or the reply to ANY. */
  function LostAnswer(f: Name, t: U16): ResourceRecord {
    if t == TYPE_ANY then Hinfo(f) else RootWildcard().(name := f)
  }

  lemma LostBody(ntop: Ntop, f: Name, t: U16)
    requires !Same(Wildcard(ROOT), f)
    ensures BodyFor(ntop, Some(RootZone([RootWildcard()])), f, t) == Body(NOERROR, true, [LostAnswer(f, t)], [], [])
  {
    hide LookedUp, IsSubdomainOf, Same, Wildcard;
    if t == TYPE_ANY {
      NoNsNoCut([RootWildcard()], ROOT, f);
    } else {
      WildcardAnswers(ntop, f, t);
    }
  }

  lemma LostIsNotWildcard(f: Name)
    requires !SurvivesText(f)
    ensures !Same(Wildcard(ROOT), f)
  {
    if Same(Wildcard(ROOT), f) {
      PlainSame(Wildcard(ROOT), f);
    }
  }

  lemma LostNotPlain(rr: ResourceRecord)
    requires !SurvivesText(rr.name)
    ensures !PlainRecord(rr)
  {
  }

  lemma OwnersDiffer(f: Name, a: Rrs, b: Rrs)
    requires |a| == |b| == 1 && a[0].name == Twice(f) && !Same(Twice(f), f) && Same(b[0].name, f)
    ensures !SameOnWire(a, b)
  {
    hide Twice;
  }

  // ---- The exact condition ------------------------------------------------------------------------

  /**
   When a query can be given the entry of another, exactly: whatever the tables of plain records
   and however much later it comes, the second reply agrees with a fresh answer if and only if
   nothing is cached at all, or the two names differ in case at most and survive their text.
   */
  lemma SharedKeyExactly(env: Env, first: Call, second: Call)
    requires ShareKey(first, second) && Askable(first.query)
    ensures (forall zs, now: nat :: AllKeyed(zs) && PlainZone(zs, first.query.questions[0].qname) ==>
               AgreesWith(SecondReply(env, zs, first, second.(now := now)), Fresh(env, zs, second.query)))
            <==> env.cfg.cacheSize == 0
                 || (&& Same(second.query.questions[0].qname, first.query.questions[0].qname)
                     && SurvivesText(first.query.questions[0].qname))
  {
    hide Key, AgreesWith, SecondReply, Fresh, PlainZone, Askable, CacheKey, Same, AllKeyed, SurvivesText;
    var f, s := first.query.questions[0].qname, second.query.questions[0].qname;
    if env.cfg.cacheSize == 0 || (Same(s, f) && SurvivesText(f)) {
      forall zs, now: nat | AllKeyed(zs) && PlainZone(zs, f)
        ensures AgreesWith(SecondReply(env, zs, first, second.(now := now)), Fresh(env, zs, second.query))
      {
        if env.cfg.cacheSize == 0 {
          SecondIsFresh(env, zs, first, second.(now := now));
          AgreesRefl(Fresh(env, zs, second.query));
        } else {
          SurvivorAgrees(env, zs, first, second.(now := now));
        }
      }
    } else {
      SomeTableDisagrees(env, first, second.(now := first.now));
    }
  }

  lemma SomeTableDisagrees(env: Env, first: Call, second: Call)
    requires ShareKey(first, second) && Askable(first.query) && env.cfg.cacheSize > 0 && second.now == first.now
    requires var f, s := first.query.questions[0].qname, second.query.questions[0].qname;
      !(Same(s, f) && SurvivesText(f))
    ensures exists zs :: AllKeyed(zs) && PlainZone(zs, first.query.questions[0].qname)
                         && !AgreesWith(SecondReply(env, zs, first, second), Fresh(env, zs, second.query))
  {
    hide Key, AgreesWith, SecondReply, Fresh, PlainZone, CacheKey, Same, AllKeyed, SurvivesText, PlainQuestions;
    var f, s := first.query.questions[0].qname, second.query.questions[0].qname;
    WireIsWritten(f);
    CacheKeyParts(first.query.questions[0], second.query.questions[0], first.tcp, first.query.edns.present,
        second.tcp, second.query.edns.present);
    if Same(s, f) {
      LostOwnerDisagrees(env, first, second);
    } else if first.query.questions[0].qtype == TYPE_ANY {
      AnyDisagrees(env, first, second);
    } else {
      DenialDisagrees(env, first, second);
    }
  }

  // ---- A plain name denied by another ---------------------------------------------------------------

  /** An address record at the name a.b. */
  function PairAddress(): ResourceRecord {
    WireRecord(Gsql.PAIR, TYPE_A, CLASS_IN, 3600, [1, 2, 3, 4])
  }

  /**
   A plain name that exists, denied: after a question for the one label a.b, the question for
   the name a.b is answered with its name error, whatever the configured ttl.
   */
  lemma DottedHidesPair(env: Env, first: Call, second: Call)
    requires ShareKey(first, second) && Askable(first.query) && env.cfg.cacheSize > 0 && second.now == first.now
    requires first.query.questions[0].qname == Gsql.DOTTED && second.query.questions[0].qname == Gsql.PAIR
    requires first.query.questions[0].qtype == second.query.questions[0].qtype == TYPE_A
    ensures var zs := [RootTable([RootSoa(), PairAddress()])];
      && AllKeyed(zs) && PlainAsked(zs, first.query)
      && SecondReply(env, zs, first, second).header.rcode == NXDOMAIN
      && Fresh(env, zs, second.query).header.rcode == NOERROR
      && Fresh(env, zs, second.query).answers == [PairAddress()]
  {
    hide DecodedMessage, EncodedMessage, View, CacheKey, SecondReply, Key, Askable, BodyFor, SameQuestions, CacheTtl,
         EdnsOf, Arrives, LookedUp, PlainRecord;
    var rrs := [RootSoa(), PairAddress()];
    var zs := [RootTable(rrs)];
    RootViews(rrs, Gsql.DOTTED);
    RootViews(rrs, Gsql.PAIR);
    PairIsPlain();
    SmallTable(rrs);
    DottedDenied(env.ntop);
    PairAnswered(env.ntop);
    OneTtl(env.cfg, Fresh(env, zs, first.query), RootSoa());
    assert PlainAsked(zs, first.query);
    SecondIsHit(env, zs, first, second);
  }

  lemma PairIsPlain()
    ensures PlainRecords([RootSoa(), PairAddress()])
  {
    SmallRecordsPlain();
  }

  lemma DottedDenied(ntop: Ntop)
    ensures BodyFor(ntop, Some(RootZone([RootSoa(), PairAddress()])), Gsql.DOTTED, TYPE_A)
            == Body(NXDOMAIN, true, [], [RootSoa()], [])
  {
    hide LookedUp, Wildcard;
    var rrs := [RootSoa(), PairAddress()];
    LengthDiffers(ROOT, Gsql.DOTTED);
    LengthDiffers(Gsql.PAIR, Gsql.DOTTED);
    NotOwned(rrs, Gsql.DOTTED, TYPE_A);
    NotOwned(rrs, Gsql.DOTTED, TYPE_CNAME);
    NoNsNoCut(rrs, ROOT, Gsql.DOTTED);
    NoWildcard(rrs, TYPE_A);
    SoaAmongTwo();
    DottedNotOwned();
  }

  lemma NoWildcard(rrs: Rrs, t: U16)
    requires rrs == [RootSoa(), PairAddress()]
    ensures WildcardRecords(rrs, ROOT, t, ROOT).None?
  {
    hide LookedUp;
    LengthDiffers(ROOT, Wildcard(ROOT));
    LengthDiffers(Gsql.PAIR, Wildcard(ROOT));
    NotOwned(rrs, Wildcard(ROOT), t);
    NotOwned(rrs, Wildcard(ROOT), TYPE_CNAME);
  }

  lemma SoaAmongTwo()
    ensures LookedUp([RootSoa(), PairAddress()], ROOT, TYPE_SOA) == [RootSoa()]
    ensures LookedUp([RootSoa(), PairAddress()], Gsql.PAIR, TYPE_A) == [PairAddress()]
    ensures LookedUp([RootSoa(), PairAddress()], Gsql.PAIR, TYPE_CNAME) == []
  {
    assert [RootSoa(), PairAddress()][..1] == [RootSoa()] && [RootSoa()][..0] == [];
  }

  lemma DottedNotOwned()
    ensures !NameOwned([RootSoa(), PairAddress()], Gsql.DOTTED)
  {
    var q := Gsql.PAIR;
    assert Lowered(q[1]) == q[1] && Lowered(Gsql.DOTTED[0]) == Gsql.DOTTED[0];
    assert q[1..] == [q[1]];
    assert LowerName(q[1..])[0] != LowerName(Gsql.DOTTED)[0];
  }

  lemma PairAnswered(ntop: Ntop)
    ensures BodyFor(ntop, Some(RootZone([RootSoa(), PairAddress()])), Gsql.PAIR, TYPE_A)
            == Body(NOERROR, true, [PairAddress()], [], [])
  {
    hide LookedUp, Wildcard;
    NoNsNoCut([RootSoa(), PairAddress()], ROOT, Gsql.PAIR);
    SoaAmongTwo();
  }
}
