/**
 handleUdpQuery of src/simple-dnsd/core/server.cpp: decode, handle, and encode within the
 size that the client can take.
 */
module Udp {
  import opened Text
  import opened NameCodec
  import opened Records
  import opened Rdata
  import opened Numbers
  import opened DnsNames
  import opened Compression
  import opened MessageCodec
  import opened MessageRoundTrip
  import opened MessageLimits
  import opened FirstNames
  import opened Store
  import opened Answering
  import opened PlainAnswers
  import opened Updates
  import opened Transfer
  import opened Router
  import opened Cache
  import opened Engine
  import opened CacheRuns

  const UDP_MIN_SIZE := 512

  /** 512 bytes, or what both the EDNS of the query and the server allow. */
  function UdpLimit(cfg: Config, query: Message): nat {
    if !query.edns.present then UDP_MIN_SIZE
    else if query.edns.udpSize < cfg.ednsBufsize then query.edns.udpSize else cfg.ednsBufsize
  }

  /** What is sent back, and whether it was truncated; nothing for a datagram that does not decode. */
  datatype Datagram = NoReply | Sent(wire: Bytes, truncated: bool)

  function UdpReply(env: Env, st: State, data: Bytes, peer: Str, now: nat, gate: Gate): Outcome<(Datagram, State)> {
    var query := DecodedMessage(env.ntop, data);
    if query.None? then Returns((NoReply, st))
    else
      match Handled(env, st, Call(query.value, peer, false, now, gate))
      case Throws => Throws
      case Returns(r) =>
        var w := EncodedMessage(r.response, UdpLimit(env.cfg, query.value));
        Returns((Sent(w.bytes, w.truncated), r.state))
  }

  method HandleUdpQuery(engine: AuthoritativeEngine, data: Bytes, peer: Str, now: nat, gate: Gate)
    returns (d: Datagram, threw: bool)
    requires engine.Valid()
    modifies engine.cache, engine.limiter, set b | b in engine.router.backends
    ensures var u := UdpReply(engine.Environment(), old(engine.Current()), data, peer, now, gate);
            if threw then u.Throws? else u == Returns((d, engine.Current()))
  {
    hide DecodedMessage, EncodedMessage, Handled, AllKeyed;
    var query := DecodeMessage(engine.answerer.ntop, data);
    if query.None? {
      return NoReply, false;
    }
    var resp;
    resp, threw := engine.Handle(Call(query.value, peer, false, now, gate));
    if threw {
      return NoReply, true;
    }
    var wire, truncated := EncodeMessage(resp, UdpLimit(engine.answerer.cfg, query.value));
    d := Sent(wire, truncated);
  }

  lemma NeverTruncated(msg: Message)
    ensures !EncodedMessage(msg, 0).truncated
  {
    hide EncodedSections, HeaderBytes;
  }

  /** Within its limit a message is sent whole, and otherwise it is reported as cut. */
  lemma CutAtLimit(msg: Message, limit: nat)
    ensures var w := EncodedMessage(msg, limit); var full := EncodedMessage(msg, 0).bytes;
      && (w.truncated <==> limit > 0 && |full| > limit) && (!w.truncated ==> w.bytes == full)
  {
    hide EncodedSections, HeaderBytes, Extends;
    SectionsContinue(msg, true);
    PatchedExtends(HeaderBytes(msg, msg.header.tc), EncodedSections(msg, true));
    NeverTruncated(msg);
  }

  lemma DecodedCodes(ntop: Ntop, data: Bytes)
    requires DecodedMessage(ntop, data).Some?
    ensures var h := DecodedMessage(ntop, data).value.header; h.opcode < 16 && h.rcode < 16
  {
    hide DecodedQuestions, DecodedRrs, Get16, Shr;
  }

  /** The questions of a reply come back if those of the query do; a hit has those that filled its entry. */
  lemma ReplyQuestions(env: Env, st: State, c: Call)
    requires Handled(env, st, c).Returns?
    requires c.query.header.opcode < 16 && SurvivorQuestions(c.query.questions)
    requires Asks(c.query) ==> KeyFresh(env, st, KeyOf(c.query, c.tcp))
    ensures var r := Handled(env, st, c).value.response;
      r.header.opcode < 16 && r.header.rcode < 16 && SurvivorQuestions(r.questions)
  {
    hide SurvivorQuestions, KeyFresh, AnswerCached, Updated, AxfrReply, KeyOf, R.Decided;
    UpdateReplies(env, st, c);
    TransferReplies(env, st, c);
    if Asks(c.query) { ServedQuestions(env, st, c); }
  }

  lemma UpdateReplies(env: Env, st: State, c: Call)
    ensures var u := Updated(env.ntop, env.pton, st.zs, c.query, c.gate);
      u.Returns? ==> var r := u.value.response;
                     r.header.opcode == c.query.header.opcode && r.header.rcode < 16 && r.questions == c.query.questions
  {
    hide View, OwnerIndex, UpdatedRecords;
  }

  lemma TransferReplies(env: Env, st: State, c: Call)
    ensures var r := AxfrReply(st.zs, c.query, c.tcp, c.gate);
      r.header.opcode == c.query.header.opcode && r.header.rcode < 16 && r.questions == c.query.questions
  {
    hide View;
  }

  lemma ServedQuestions(env: Env, st: State, c: Call)
    requires Asks(c.query) && SurvivorQuestions(c.query.questions) && KeyFresh(env, st, KeyOf(c.query, c.tcp))
    ensures var r := AnswerCached(env.ntop, env.cfg, st.zs, st.entries, c.query, c.tcp, c.now).response;
      r.header.opcode < 16 && r.header.rcode < 16 && SurvivorQuestions(r.questions)
  {
    hide SurvivorQuestions, DecodedMessage, EncodedMessage, View, BodyFor, KeyOf, CacheTtl, Returnable, AllKeyed;
    var key := KeyOf(c.query, c.tcp);
    BodyCode(env.ntop, View(st.zs, c.query.questions[0].qname), c.query.questions[0].qname, c.query.questions[0].qtype);
    if key in st.entries { EntryQuestions(env, st.zs, key, st.entries[key].wire); }
  }

  lemma EntryQuestions(env: Env, zs: seq<Zones>, key: Str, wire: Bytes)
    requires EntryIsFresh(env, zs, key, wire)
    ensures var d := DecodedMessage(env.ntop, wire);
      d.Some? && d.value.header.opcode < 16 && d.value.header.rcode < 16 && SurvivorQuestions(d.value.questions)
  {
    hide DecodedMessage, EncodedMessage, Fresh, KeyOf, SurvivesText, AllSendable, FirstArrives;
    var query: Message, tcp :|
      && query.questions != [] && key == KeyOf(query, tcp)
      && Returnable(Fresh(env, zs, query)) && wire == EncodedMessage(Fresh(env, zs, query), 0).bytes;
    var f := Fresh(env, zs, query);
    FirstMessageArrives(env.ntop, f);
    DecodedCodes(env.ntop, wire);
    ArrivedQuestions(env.ntop, DecodedMessage(env.ntop, wire).value, f);
  }

  lemma ArrivedQuestions(ntop: Ntop, a: Message, b: Message)
    requires Returnable(b) && FirstArrives(ntop, a, b)
    ensures SurvivorQuestions(a.questions)
  {
    hide SurvivesText, AllSendable, AllArrive, Reparsed, PlainName, Same;
    var f := b.questions[0].qname;
    WireIsWritten(f);
    SurvivorIsReparsed(f);
    forall i | 0 <= i < |a.questions[1..]| ensures PlainQuestion(a.questions[1..][i]) {
      assert SameQuestion(a.questions[1..][i], b.questions[1..][i]) && PlainQuestion(b.questions[1..][i]);
      SameTurned(a.questions[1..][i].qname, b.questions[1..][i].qname);
      PlainSame(b.questions[1..][i].qname, a.questions[1..][i].qname);
      SameLabelCount(a.questions[1..][i].qname, b.questions[1..][i].qname);
    }
  }

  /** More than 512 bytes without EDNS; with it, more than either side allows, unless one of them says zero. */
  predicate TooLong(cfg: Config, query: Message, size: nat) {
    if !query.edns.present then size > 512
    else query.edns.udpSize > 0 && cfg.ednsBufsize > 0 && (size > query.edns.udpSize || size > cfg.ednsBufsize)
  }

  /**
   A reply is cut exactly if it is too long for its query, and is else sent whole.  What is
   cut is header and questions with TC set, which decodes to the same questions and no records,
   if the questions of the query come back and what the cache holds for it is fresh, as it is
   after every run.
   */
  lemma UdpReplyFits(env: Env, st: State, data: Bytes, peer: Str, now: nat, gate: Gate)
    requires DecodedMessage(env.ntop, data).Some?
    requires Handled(env, st, Call(DecodedMessage(env.ntop, data).value, peer, false, now, gate)).Returns?
    ensures var query := DecodedMessage(env.ntop, data).value;
      var resp := Handled(env, st, Call(query, peer, false, now, gate)).value.response;
      var sent := UdpReply(env, st, data, peer, now, gate).value.0;
      && (sent.truncated <==> TooLong(env.cfg, query, |EncodedMessage(resp, 0).bytes|))
      && (!sent.truncated ==> sent.wire == EncodedMessage(resp, 0).bytes)
      && (sent.truncated && SurvivorQuestions(query.questions)
          && (Asks(query) ==> KeyFresh(env, st, KeyOf(query, false))) ==>
            var d := DecodedMessage(env.ntop, sent.wire);
            d.Some? && d.value.header.tc && SameQuestions(d.value.questions, resp.questions) && NoRecords(d.value))
  {
    hide DecodedMessage, EncodedMessage, Handled, SameQuestions, KeyFresh, KeyOf, SurvivorQuestions;
    var query := DecodedMessage(env.ntop, data).value;
    var c := Call(query, peer, false, now, gate);
    var resp := Handled(env, st, c).value.response;
    var limit := UdpLimit(env.cfg, query);
    CutAtLimit(resp, limit);
    DecodedCodes(env.ntop, data);
    if SurvivorQuestions(query.questions) && (Asks(query) ==> KeyFresh(env, st, KeyOf(query, false))) {
      ReplyQuestions(env, st, c);
      if EncodedMessage(resp, limit).truncated { TruncatedArrives(env.ntop, resp, limit); }
    }
  }
}
