/**
 AuthoritativeEngine of src/simple-dnsd/core/engine.cpp: one call of handle as one step
 over the zone tables, the packet cache and the rate limiter.
 */
module Engine {
  import opened Text
  import opened DnsNames
  import opened NameCodec
  import opened Records
  import opened Numbers
  import opened Rdata
  import opened MessageCodec
  import opened Store
  import opened MemoryBackends
  import opened Serials
  import opened Transactions
  import opened Router
  import opened Answering
  import opened Updates
  import opened Transfer
  import opened Cache
  import R = RateLimiter

  /** What stays the same over a run. */
  datatype Env = Env(ntop: Ntop, pton: Pton, cfg: Config, rate: nat)

  datatype State = State(zs: seq<Zones>, entries: Entries, buckets: R.Buckets)

  /** A query with its circumstances: peer, transport, clock, and what the access checks say. */
  datatype Call = Call(query: Message, peer: Str, tcp: bool, now: nat, gate: Gate)

  datatype Reply = Reply(response: Message, state: State)

  predicate IsTransferType(t: U16) {
    t == TYPE_AXFR || t == TYPE_IXFR
  }

  /** The calls that reach answerCached once the rate limiter lets them through. */
  predicate Asks(query: Message) {
    query.header.opcode == OPCODE_QUERY && query.questions != [] && !IsTransferType(query.questions[0].qtype)
  }

  /** handle; an exception in an update leaves it. */
  function Handled(env: Env, st: State, c: Call): Outcome<Reply> {
    var d := R.Decided(env.rate, st.buckets, c.peer, c.now);
    var st := st.(buckets := d.buckets);
    if !d.allowed then Returns(Reply(Replied(c.query, REFUSED), st))
    else if c.query.header.opcode == OPCODE_UPDATE then
      match Updated(env.ntop, env.pton, st.zs, c.query, c.gate) {
        case Throws => Throws
        case Returns(h) =>
          Returns(Reply(h.response, st.(zs := h.zs, entries := if h.committed then map[] else st.entries)))
      }
    else if c.query.header.opcode == OPCODE_NOTIFY then Returns(Reply(Replied(c.query, NOERROR), st))
    else if c.query.header.opcode != OPCODE_QUERY then Returns(Reply(Replied(c.query, NOTIMP), st))
    else if c.query.questions == [] then Returns(Reply(Replied(c.query, FORMERR), st))
    else if IsTransferType(c.query.questions[0].qtype) then
      Returns(Reply(AxfrReply(st.zs, c.query, c.tcp, c.gate), st))
    else
      var s := AnswerCached(env.ntop, env.cfg, st.zs, st.entries, c.query, c.tcp, c.now);
      Returns(Reply(s.response, st.(entries := s.entries)))
  }

  class AuthoritativeEngine {
    const answerer: Answerer
    const router: BackendRouter
    const pton: Pton
    const cache: PacketCache
    const limiter: R.Limiter

    ghost predicate Valid()
      reads router, router.backends
    {
      && answerer.router == router
      && cache.maxEntries == answerer.cfg.cacheSize
      && AllKeyed(router.Tables())
      && forall i, j :: 0 <= i < j < |router.backends| ==> router.backends[i] != router.backends[j]
    }

    ghost function Environment(): Env {
      Env(answerer.ntop, pton, answerer.cfg, limiter.rate)
    }

    ghost function Current(): State
      reads router, router.backends, cache, limiter
    {
      State(router.Tables(), cache.entries, limiter.buckets)
    }

    constructor (router: BackendRouter, cfg: Config, ntop: Ntop, pton: Pton, rate: nat)
      requires AllKeyed(router.Tables())
      requires forall i, j :: 0 <= i < j < |router.backends| ==> router.backends[i] != router.backends[j]
      ensures Valid() && this.router == router && fresh(cache) && fresh(limiter)
      ensures Environment() == Env(ntop, pton, cfg, rate) && Current() == State(router.Tables(), map[], map[])
    {
      this.answerer := new Answerer(router, cfg, ntop);
      this.router := router;
      this.pton := pton;
      this.cache := new PacketCache(cfg.cacheSize);
      this.limiter := new R.Limiter(rate);
    }

    /** The first half of answerCached: look, and decode what is found. */
    method LookInCache(key: Str, now: nat) returns (cached: Option<Message>)
      requires Valid()
      modifies cache
      ensures (cached, cache.entries) == Cached(answerer.ntop, answerer.cfg, old(cache.entries), key, now)
    {
      hide DecodedMessage, AllKeyed;
      if answerer.cfg.cacheSize == 0 {
        return None;
      }
      var wire := cache.Get(key, now);
      if wire.None? {
        return None;
      }
      cached := DecodeMessage(answerer.ntop, wire.value);
    }

    /** The second half: keep a fresh answer for as long as its shortest ttl allows. */
    method Remember(key: Str, resp: Message, now: nat)
      requires Valid()
      modifies cache
      ensures cache.entries == Remembered(answerer.cfg, old(cache.entries), key, resp, now)
    {
      hide EncodedMessage, AllKeyed, MinTtl;
      var cfg := answerer.cfg;
      if cfg.cacheSize > 0 && (resp.header.rcode == NOERROR || resp.header.rcode == NXDOMAIN) {
        var ttl := cfg.cacheTtl;
        if ttl == 0 {
          ttl := ComputeMinTtl(resp.answers, ttl);
          ttl := ComputeMinTtl(resp.authority, ttl);
        }
        if ttl > 0 {
          var wire, truncated := EncodeMessage(resp, 0);
          cache.Put(key, wire, ttl, now);
        }
      }
    }

    method ServeCached(query: Message, tcp: bool, now: nat) returns (resp: Message)
      requires Valid() && query.questions != []
      modifies cache
      ensures Valid()
      ensures Served(resp, cache.entries)
              == AnswerCached(answerer.ntop, answerer.cfg, router.Tables(), old(cache.entries), query, tcp, now)
    {
      hide Answered, View, CacheKey, AllKeyed, Cached, Remembered;
      var key := CacheKey(query.questions[0], tcp, query.edns.present);
      var cached := LookInCache(key, now);
      if cached.Some? {
        return cached.value.(header := cached.value.header.(id := query.header.id));
      }
      resp := answerer.AnswerQuery(query);
      Remember(key, resp, now);
    }

    method HandleUpdate(query: Message, gate: Gate) returns (resp: Message, threw: bool)
      requires Valid()
      modifies cache, set b | b in router.backends
      ensures router.backends == old(router.backends)
      ensures var u := Updated(answerer.ntop, pton, old(router.Tables()), query, gate);
              if threw then u.Throws?
              else u.Returns? && resp == u.value.response && router.Tables() == u.value.zs
                   && cache.entries == (if u.value.committed then map[] else old(cache.entries))
      ensures !threw ==> Valid()
    {
      hide Key, AllKeyed, OwnerIndex, RouterFound, FoundZone, OwnedRecords, UpdatedRecords, LookedUp, IsSubdomainOf,
           Keyed, Lists, Stored, RecordsOf, Kept;
      threw := false;
      resp := MakeResponse(query);
      UpdatedKeyed(answerer.ntop, pton, router.Tables(), query, gate);
      if query.questions == [] {
        return Replied(query, FORMERR), false;
      }
      var zone := router.FindZone(query.questions[0].qname);
      if zone.None? {
        return Replied(query, NOTAUTH), false;
      }
      if !gate.allowed {
        return Replied(query, REFUSED), false;
      }
      if query.tsig.Some? && !gate.verified {
        return Replied(query, NOTAUTH), false;
      }
      var info := zone.value;
      OwnedBy(router.Tables(), query.questions[0].qname);
      var i := router.OwnerOf(info);
      var soa := router.Lookup(info, info.name, TYPE_SOA);
      ghost var before := router.Tables();
      threw := CommitUpdate(router.backends[i], info, query.authority, soa);
      if !threw {
        OneTableChanged(before, router.Tables(), i, router.backends[i].zones);
        cache.Invalidate();
        resp := Replied(query, NOERROR);
      }
    }

    method CommitUpdate(b: MemoryBackend, info: ZoneInfo, updates: Rrs, soa: Rrs) returns (threw: bool)
      requires Key(info.name) in b.zones && b.zones[Key(info.name)].info == info
      requires soa == LookedUp(b.zones[Key(info.name)].records, info.name, TYPE_SOA)
      modifies b
      ensures var z := old(b.zones)[Key(info.name)];
              var u := UpdatedRecords(answerer.ntop, pton, info.name, z.records, updates);
              threw == u.threw && b.zones == old(b.zones)[Key(info.name) := z.(records := u.records)]
    {
      hide Key, Committed, QueuedAll, SoaSerial, LookedUp, OpsOf;
      var tx := new MemoryTransaction(b, Key(info.name));
      QueueUpdates(tx, updates);
      if soa != [] {
        tx.SetSoaSerial(Bumped(SoaSerial(answerer.ntop, soa[0])));
      }
      threw := tx.Commit(answerer.ntop, pton);
    }

    static method QueueUpdates(tx: MemoryTransaction, updates: Rrs)
      modifies tx
      ensures tx.State() == QueuedAll(old(tx.State()), OpsOf(updates))
    {
      hide Queued;
      for i := 0 to |updates|
        invariant tx.State() == QueuedAll(old(tx.State()), OpsOf(updates[..i]))
      {
        var rr := updates[i];
        OpsSnoc(updates[..i], rr);
        assert updates[..i + 1] == updates[..i] + [rr];
        QueuedSnoc(old(tx.State()), OpsOf(updates[..i]), OpOf(rr));
        if rr.rclass == CLASS_ANY && rr.rdata == [] {
          if rr.rtype == TYPE_ANY {
            tx.DeleteName(rr.name);
          } else {
            tx.DeleteRrset(rr.name, rr.rtype);
          }
        } else if rr.rclass == CLASS_NONE {
          tx.DeleteRrset(rr.name, rr.rtype);
        } else {
          tx.AddRecord(rr);
        }
      }
      assert updates[..|updates|] == updates;
    }

    method Handle(c: Call) returns (resp: Message, threw: bool)
      requires Valid()
      modifies cache, limiter, set b | b in router.backends
      ensures var h := Handled(Environment(), old(Current()), c);
              if threw then h.Throws? else h == Returns(Reply(resp, Current()))
      ensures !threw ==> Valid()
    {
      hide Updated, AnswerCached, AxfrReply, AllKeyed, R.Decided;
      threw := false;
      var allowed := limiter.Allow(c.peer, c.now);
      if !allowed {
        return Replied(c.query, REFUSED), false;
      }
      if c.query.header.opcode == OPCODE_UPDATE {
        resp, threw := HandleUpdate(c.query, c.gate);
        return;
      }
      if c.query.header.opcode == OPCODE_NOTIFY {
        return Replied(c.query, NOERROR), false;
      }
      if c.query.header.opcode != OPCODE_QUERY {
        return Replied(c.query, NOTIMP), false;
      }
      if c.query.questions == [] {
        return Replied(c.query, FORMERR), false;
      }
      if IsTransferType(c.query.questions[0].qtype) {
        resp := HandleAxfr(router, c.query, c.tcp, c.gate);
        return;
      }
      resp := ServeCached(c.query, c.tcp, c.now);
    }
  }

  /** The zone that was found is an entry of its owner's table. */
  lemma OwnedBy(zs: seq<Zones>, q: Name)
    requires AllKeyed(zs) && View(zs, q).Some?
    ensures var z := View(zs, q).value; var i := OwnerIndex(zs, z.info.name);
      i < |zs| && Key(z.info.name) in zs[i] && zs[i][Key(z.info.name)] == z
  {
    hide Key, AllKeyed, OwnerIndex, View, FoundZone, IsSubdomainOf;
    ViewIsSupplied(zs, q);
  }

  lemma {:induction false} OpsSnoc(updates: Rrs, rr: ResourceRecord)
    ensures OpsOf(updates + [rr]) == OpsOf(updates) + [OpOf(rr)]
  {
    hide OpOf;
    if updates == [] {
      assert updates + [rr] == [rr] && [rr][1..] == [];
    } else {
      assert (updates + [rr])[1..] == updates[1..] + [rr];
      OpsSnoc(updates[1..], rr);
    }
  }

  lemma OneTableChanged(before: seq<Zones>, after: seq<Zones>, i: nat, table: Zones)
    requires i < |before| == |after| && after[i] == table
    requires forall j :: 0 <= j < |before| && j != i ==> after[j] == before[j]
    ensures after == before[i := table]
  {
  }
}
