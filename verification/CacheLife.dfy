/**
 How long an answer lives in the packet cache: it is kept for the shortest ttl of its answer
 and authority records, served until then, and made afresh afterwards.
 */
module CacheLife {
  import opened NameCodec
  import opened Records
  import opened Rdata
  import opened MessageCodec
  import opened Store
  import opened Router
  import opened Answering
  import opened Cache

  // ---- The shortest ttl ----------------------------------------------------------------------

  /** ttl is the least of the ttls of the records that are no OPT records, or 0 without any. */
  predicate IsShortest(ttl: int, rrs: Rrs) {
    && (forall i :: 0 <= i < |rrs| && rrs[i].rtype != 41 ==> ttl <= rrs[i].ttl)
    && ((ttl == 0 && forall i :: 0 <= i < |rrs| ==> rrs[i].rtype == 41)
        || exists i :: 0 <= i < |rrs| && rrs[i].rtype != 41 && rrs[i].ttl == ttl)
  }

  predicate NoZeroTtl(rrs: Rrs) {
    forall i :: 0 <= i < |rrs| && rrs[i].rtype != 41 ==> rrs[i].ttl > 0
  }

  lemma {:induction false} MinTtlFrom(before: Rrs, start: U32, rrs: Rrs)
    requires NoZeroTtl(before + rrs) && IsShortest(start, before)
    ensures IsShortest(MinTtl(rrs, start), before + rrs)
    decreases |rrs|
  {
    if rrs == [] {
      assert before + rrs == before;
    } else {
      var n := |rrs| - 1;
      var init := before + rrs[..n];
      assert before + rrs == init + [rrs[n]];
      assert forall i :: 0 <= i < |init| ==> init[i] == (before + rrs)[i];
      MinTtlFrom(before, start, rrs[..n]);
      ShortestStep(MinTtl(rrs[..n], start), init, rrs[n]);
    }
  }

  lemma ShortestStep(ttl: U32, init: Rrs, rr: ResourceRecord)
    requires IsShortest(ttl, init) && NoZeroTtl(init + [rr])
    ensures IsShortest(if rr.rtype == 41 then ttl else if ttl == 0 || rr.ttl < ttl then rr.ttl else ttl, init + [rr])
  {
    var all := init + [rr];
    assert all[|init|] == rr && forall i :: 0 <= i < |init| ==> all[i] == init[i];
    if exists i :: 0 <= i < |init| && init[i].rtype != 41 && init[i].ttl == ttl {
      var i :| 0 <= i < |init| && init[i].rtype != 41 && init[i].ttl == ttl;
      assert all[i].rtype != 41 && all[i].ttl == ttl && ttl > 0;
    }
  }

  /** Unless the configuration says otherwise, an answer lives as long as its shortest-lived record. */
  lemma ShortestTtlCounts(cfg: Config, resp: Message)
    requires NoZeroTtl(resp.answers + resp.authority)
    ensures CacheTtl(cfg, resp) == cfg.cacheTtl
            || (cfg.cacheTtl == 0 && IsShortest(CacheTtl(cfg, resp), resp.answers + resp.authority))
  {
    hide MinTtl;
    if cfg.cacheTtl == 0 {
      assert [] + resp.answers == resp.answers;
      var all := resp.answers + resp.authority;
      assert forall i :: 0 <= i < |resp.answers| ==> resp.answers[i] == all[i];
      MinTtlFrom([], 0, resp.answers);
      MinTtlFrom(resp.answers, MinTtl(resp.answers, 0), resp.authority);
    }
  }

  /** A ttl of zero does not keep an answer out of the cache if a record with another ttl follows. */
  lemma ZeroTtlIsKept(cfg: Config, resp: Message, a: ResourceRecord, b: ResourceRecord)
    requires cfg.cacheTtl == 0 && resp.answers == [a, b] && resp.authority == []
    requires a.rtype != 41 && b.rtype != 41 && a.ttl == 0
    ensures CacheTtl(cfg, resp) == b.ttl
  {
    assert MinTtl([a][..0], 0) == 0;
    assert [a, b][..1] == [a] && MinTtl([a], 0) == 0;
    assert MinTtl(resp.answers, 0) == b.ttl;
  }

  // ---- From one query to the next ---------------------------------------------------------------

  /**
   An answer that was not in the cache is kept exactly if the cache is in use, its code is 0
   or 3 and its ttl is not zero; the next query with the same key is served from what was
   kept up to ttl seconds later, whatever the zones hold then, and afresh from there on.
   */
  lemma KeptUntilExpiry(ntop: Ntop, cfg: Config, zs: seq<Zones>, entries: Entries, query: Message, tcp: bool, now: nat,
                        zs': seq<Zones>, again: Message, later: nat)
    requires query.questions != [] && again.questions != [] && KeyOf(again, tcp) == KeyOf(query, tcp)
    requires KeyOf(query, tcp) !in entries
    ensures var fresh1 := Answered(ntop, cfg, View(zs, query.questions[0].qname), query);
      var fresh2 := Answered(ntop, cfg, View(zs', again.questions[0].qname), again);
      var first := AnswerCached(ntop, cfg, zs, entries, query, tcp, now);
      var second := AnswerCached(ntop, cfg, zs', first.entries, again, tcp, later);
      var ttl := CacheTtl(cfg, fresh1);
      var kept := DecodedMessage(ntop, EncodedMessage(fresh1, 0).bytes);
      && first.response == fresh1
      && (KeyOf(query, tcp) in first.entries <==> cfg.cacheSize > 0 && fresh1.header.rcode in {0, 3} && ttl > 0)
      && if KeyOf(query, tcp) in first.entries && kept.Some? && later <= now + ttl * 1000
         then second.response == kept.value.(header := kept.value.header.(id := again.header.id))
         else second.response == fresh2
  {
    hide DecodedMessage, EncodedMessage, Answered, View, KeyOf, CacheTtl;
  }
}
