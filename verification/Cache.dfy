/**
 PacketCache and answerCached of src/simple-dnsd/core/engine.cpp, with the clock as an
 argument.
 */
module Cache {
  import opened Text
  import opened DnsNames
  import opened NameCodec
  import opened Compression
  import opened Records
  import opened Rdata
  import opened MessageCodec
  import opened RrTypes
  import opened Store
  import opened Router
  import opened Answering

  // ---- The cache --------------------------------------------------------------------------

  datatype Entry = Entry(wire: Bytes, expires: nat)

  type Entries = map<Str, Entry>

  /** PacketCache::put: a full cache is emptied first; a ttl or size of zero stores nothing. */
  function PutIn(entries: Entries, maxEntries: nat, key: Str, wire: Bytes, ttl: U32, now: nat): Entries {
    if ttl == 0 || maxEntries == 0 then entries
    else (if |entries| >= maxEntries then map[] else entries)[key := Entry(wire, now + ttl * 1000)]
  }

  datatype Hit = Hit(wire: Option<Bytes>, entries: Entries)

  /** PacketCache::get: an expired entry is erased. */
  function GetFrom(entries: Entries, key: Str, now: nat): Hit {
    if key !in entries then Hit(None, entries)
    else if entries[key].expires < now then Hit(None, entries - {key})
    else Hit(Some(entries[key].wire), entries)
  }

  class PacketCache {
    const maxEntries: nat
    var entries: Entries

    constructor (maxEntries: nat)
      ensures this.maxEntries == maxEntries && entries == map[]
    {
      this.maxEntries := maxEntries;
      entries := map[];
    }

    method Put(key: Str, wire: Bytes, ttl: U32, now: nat)
      modifies this
      ensures entries == PutIn(old(entries), maxEntries, key, wire, ttl, now)
    {
      if ttl == 0 || maxEntries == 0 {
        return;
      }
      if |entries| >= maxEntries {
        entries := map[];
      }
      entries := entries[key := Entry(wire, now + ttl * 1000)];
    }

    method Get(key: Str, now: nat) returns (wire: Option<Bytes>)
      modifies this
      ensures Hit(wire, entries) == GetFrom(old(entries), key, now)
    {
      if key !in entries {
        return None;
      }
      var e := entries[key];
      if e.expires < now {
        entries := entries - {key};
        return None;
      }
      return Some(e.wire);
    }

    method Invalidate()
      modifies this
      ensures entries == map[]
    {
      entries := map[];
    }
  }

  // ---- The key ----------------------------------------------------------------------------

  const BAR: Byte := 124
  const LETTER_E: Byte := 101
  const LETTER_T: Byte := 116
  const LETTER_U: Byte := 117

  function Transport(tcp: bool): Byte {
    if tcp then LETTER_T else LETTER_U
  }

  /** Lower-case name, type, transport and EDNS, separated by bars. */
  function CacheKey(q: Question, tcp: bool, edns: bool): Str {
    Key(q.qname) + [BAR] + TypeText(q.qtype) + ([BAR, Transport(tcp)] + (if edns then [BAR, LETTER_E] else []))
  }

  lemma LastBar(a: Str, x: Str, b: Str, y: Str)
    requires a + [BAR] + x == b + [BAR] + y && NoByte(x, BAR) && NoByte(y, BAR)
    ensures a == b && x == y
  {
    BarAt(a, x);
    BarAt(b, y);
  }

  lemma BarAt(a: Str, x: Str)
    requires NoByte(x, BAR)
    ensures var s := a + [BAR] + x;
      s[|a|] == BAR && (forall k :: |a| < k < |s| ==> s[k] != BAR) && s[..|a|] == a && s[|a| + 1..] == x
  {
    var s := a + [BAR] + x;
    assert forall k :: |a| < k < |s| ==> s[k] == x[k - |a| - 1];
  }

  lemma TypeHasNoBar(t: U16)
    ensures NoByte(TypeText(t), BAR)
  {
    hide TypeText;
    TypeTextBytes(t);
  }

  function KeyEnd(tcp: bool, edns: bool): Str {
    [BAR, Transport(tcp)] + (if edns then [BAR, LETTER_E] else [])
  }

  lemma EndsDiffer(s: Str, r: Str, tcp: bool, edns: bool, tcp': bool, edns': bool)
    requires s + KeyEnd(tcp, edns) == r + KeyEnd(tcp', edns')
    ensures tcp == tcp' && edns == edns' && s == r
  {
    var a, b := s + KeyEnd(tcp, edns), r + KeyEnd(tcp', edns');
    assert a[|a| - 1] == (if edns then LETTER_E else Transport(tcp));
    assert b[|b| - 1] == (if edns' then LETTER_E else Transport(tcp'));
    assert |KeyEnd(tcp, edns)| == |KeyEnd(tcp', edns')|;
    assert a[|s| + 1] == Transport(tcp) && b[|r| + 1] == Transport(tcp');
    assert a[..|s|] == s && b[..|r|] == r;
  }

  /** The key tells exactly the lower-case text of the name, the type, the transport and EDNS. */
  lemma CacheKeyParts(a: Question, b: Question, tcp: bool, edns: bool, tcp': bool, edns': bool)
    ensures CacheKey(a, tcp, edns) == CacheKey(b, tcp', edns')
            <==> Key(a.qname) == Key(b.qname) && a.qtype == b.qtype && tcp == tcp' && edns == edns'
  {
    hide Key, TypeText, NoByte;
    if CacheKey(a, tcp, edns) == CacheKey(b, tcp', edns') {
      var s, r := Key(a.qname) + [BAR] + TypeText(a.qtype), Key(b.qname) + [BAR] + TypeText(b.qtype);
      EndsDiffer(s, r, tcp, edns, tcp', edns');
      TypeHasNoBar(a.qtype);
      TypeHasNoBar(b.qtype);
      LastBar(Key(a.qname), TypeText(a.qtype), Key(b.qname), TypeText(b.qtype));
      TypeTextInjective(a.qtype, b.qtype);
    }
  }

  /** For plain names the key tells exactly name up to case, type, transport and EDNS. */
  lemma CacheKeyInjective(a: Question, b: Question, tcp: bool, edns: bool, tcp': bool, edns': bool)
    requires PlainName(a.qname) && PlainName(b.qname)
    ensures CacheKey(a, tcp, edns) == CacheKey(b, tcp', edns')
            <==> Same(a.qname, b.qname) && a.qtype == b.qtype && tcp == tcp' && edns == edns'
  {
    hide Key, CacheKey, PlainName;
    KeyInjective(a.qname, b.qname);
    CacheKeyParts(a, b, tcp, edns, tcp', edns');
  }

  // ---- answerCached -------------------------------------------------------------------------

  /** The ttl loop; a running value of zero starts over. */
  function MinTtl(rrs: Rrs, start: U32): U32 {
    if rrs == [] then start
    else
      var ttl := MinTtl(rrs[..|rrs| - 1], start);
      var rr := rrs[|rrs| - 1];
      if rr.rtype == TYPE_OPT then ttl
      else if ttl == 0 || rr.ttl < ttl then rr.ttl else ttl
  }

  function CacheTtl(cfg: Config, resp: Message): U32 {
    if cfg.cacheTtl != 0 then cfg.cacheTtl else MinTtl(resp.authority, MinTtl(resp.answers, 0))
  }

  /** A fresh answer goes into the cache if it is a positive or negative one that may be kept. */
  function Remembered(cfg: Config, entries: Entries, key: Str, resp: Message, now: nat): Entries {
    if cfg.cacheSize > 0 && resp.header.rcode in {NOERROR, NXDOMAIN} && CacheTtl(cfg, resp) > 0
    then PutIn(entries, cfg.cacheSize, key, EncodedMessage(resp, 0).bytes, CacheTtl(cfg, resp), now)
    else entries
  }

  datatype Served = Served(response: Message, entries: Entries)

  function KeyOf(query: Message, tcp: bool): Str
    requires query.questions != []
  {
    CacheKey(query.questions[0], tcp, query.edns.present)
  }

  /** The cached message under the key, decoded, and the entries after the look. */
  function Cached(ntop: Ntop, cfg: Config, entries: Entries, key: Str, now: nat): (Option<Message>, Entries) {
    if cfg.cacheSize == 0 then (None, entries)
    else
      var hit := GetFrom(entries, key, now);
      (if hit.wire.None? then None else DecodedMessage(ntop, hit.wire.value), hit.entries)
  }

  /** answerCached. */
  function AnswerCached(ntop: Ntop, cfg: Config, zs: seq<Zones>, entries: Entries, query: Message, tcp: bool,
                        now: nat): Served
    requires query.questions != []
  {
    var key := KeyOf(query, tcp);
    var (cached, looked) := Cached(ntop, cfg, entries, key, now);
    if cached.Some? then
      Served(cached.value.(header := cached.value.header.(id := query.header.id)), looked)
    else
      var resp := Answered(ntop, cfg, View(zs, query.questions[0].qname), query);
      Served(resp, Remembered(cfg, looked, key, resp, now))
  }

  method ComputeMinTtl(rrs: Rrs, start: U32) returns (ttl: U32)
    ensures ttl == MinTtl(rrs, start)
  {
    ttl := start;
    for i := 0 to |rrs|
      invariant ttl == MinTtl(rrs[..i], start)
    {
      assert rrs[..i + 1][..i] == rrs[..i] && rrs[..i + 1][i] == rrs[i];
      if rrs[i].rtype != TYPE_OPT {
        ttl := if ttl == 0 || rrs[i].ttl < ttl then rrs[i].ttl else ttl;
      }
    }
    assert rrs[..|rrs|] == rrs;
  }
}
