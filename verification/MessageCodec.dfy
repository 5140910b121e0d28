/**
 encodeMessage and decodeMessage of src/simple-dnsd/protocol/dns.cpp (section 4.1 of
 RFC 1035): header, question section, three record sections and an optional TSIG record.
 */
module MessageCodec {
  import opened Text
  import opened DnsNames
  import opened NameCodec
  import opened Records
  import opened Rdata

  // ---- Sections, encoding -------------------------------------------------

  function QuestionTail(q: Question): Bytes {
    Put16(q.qtype) + Put16(q.qclass)
  }

  /** A question; a name that fails to encode is not noticed. */
  function EncodedQuestion(e: Enc, q: Question): Enc {
    Appended(EncodedName(e, q.qname).enc, QuestionTail(q))
  }

  function EncodedQuestions(e: Enc, qs: seq<Question>): Enc
    decreases |qs|
  {
    if qs == [] then e else EncodedQuestions(EncodedQuestion(e, qs[0]), qs[1..])
  }

  /** Everything of a record but its name; the length field wraps around at 65536. */
  function RrTail(rr: ResourceRecord): Bytes {
    Put16(rr.rtype) + Put16(rr.rclass) + Put32(rr.ttl) + Put16(|rr.rdata| % 0x1_0000) + rr.rdata
  }

  /** encodeRr: a record stops where its name fails to encode. */
  function EncodedRr(e: Enc, rr: ResourceRecord): Enc {
    var n := EncodedName(e, rr.name);
    if n.ok then Appended(n.enc, RrTail(rr)) else n.enc
  }

  function EncodedRrs(e: Enc, rrs: seq<ResourceRecord>): Enc
    decreases |rrs|
  {
    if rrs == [] then e else EncodedRrs(EncodedRr(e, rrs[0]), rrs[1..])
  }

  /** encodeRr without a compression table, for the TSIG record. */
  function EncodedTsig(e: Enc, tsig: Option<ResourceRecord>): Enc {
    match tsig
    case None => e
    case Some(rr) =>
      var (w, ok) := UncompressedName(rr.name);
      Appended(e, if ok then w + RrTail(rr) else w)
  }

  function EncodedRecords(e: Enc, msg: Message): Enc {
    EncodedRrs(EncodedRrs(EncodedRrs(e, msg.answers), msg.authority), msg.additional)
  }

  /** The sections after the header: all of them, or the questions alone. */
  function EncodedSections(msg: Message, records: bool): Enc {
    var e := EncodedQuestions(EMPTY, msg.questions);
    if records then EncodedTsig(EncodedRecords(e, msg), msg.tsig) else e
  }

  // ---- Header, encoding -----------------------------------------------------

  function Bit(b: bool, weight: nat): nat {
    if b then weight else 0
  }

  /** The first flag byte; bits of an opcode above 15 run into the response bit, or vanish. */
  function FlagsHigh(h: Header, tc: bool): Byte {
    Bit(h.qr || h.opcode / 16 % 2 == 1, 0x80) + h.opcode % 16 * 8 + Bit(h.aa, 4) + Bit(tc, 2) + Bit(h.rd, 1)
  }

  function FlagsLow(h: Header): Byte {
    Bit(h.ra, 0x80) + Bit(h.ad, 0x20) + Bit(h.cd, 0x10) + h.rcode % 16
  }

  function Flags(h: Header, tc: bool): U16 {
    Word(FlagsHigh(h, tc), FlagsLow(h))
  }

  function Wrap16(n: nat): U16 {
    n % 0x1_0000
  }

  function HeaderBytes(msg: Message, tc: bool): (r: Bytes)
    ensures |r| == HEADER_SIZE
  {
    Put16(msg.header.id) + Put16(Flags(msg.header, tc)) + Put16(Wrap16(|msg.questions|))
    + Put16(if tc then 0 else Wrap16(|msg.answers|))
    + Put16(if tc then 0 else Wrap16(|msg.authority|))
    + Put16(if tc then 0 else Wrap16(|msg.additional| + if msg.tsig.Some? then 1 else 0))
  }

  /** A message on the wire, and whether its records were dropped to respect the limit. */
  datatype Wire = Wire(bytes: Bytes, truncated: bool)

  /** The header patched over the first twelve bytes of the sections. */
  function Patched(header: Bytes, e: Enc): Bytes
    requires |header| == HEADER_SIZE && |e.out| >= HEADER_SIZE
  {
    header + e.out[HEADER_SIZE..]
  }

  /** b is a with more bytes appended. */
  predicate Continues(a: Bytes, b: Bytes) {
    |a| <= |b| && b[..|a|] == a
  }

  lemma ContinuesTransitive(a: Bytes, b: Bytes, c: Bytes)
    requires Continues(a, b) && Continues(b, c)
    ensures Continues(a, c)
  {
    assert c[..|a|] == c[..|b|][..|a|];
  }

  lemma {:induction false} QuestionsContinue(e: Enc, qs: seq<Question>)
    ensures Continues(e.out, EncodedQuestions(e, qs).out)
    decreases |qs|
  {
    if qs != [] {
      var e1 := EncodedQuestion(e, qs[0]);
      ContinuesTransitive(e.out, EncodedName(e, qs[0].qname).enc.out, e1.out);
      QuestionsContinue(e1, qs[1..]);
      ContinuesTransitive(e.out, e1.out, EncodedQuestions(e, qs).out);
    }
  }

  lemma {:induction false} RrsContinue(e: Enc, rrs: seq<ResourceRecord>)
    ensures Continues(e.out, EncodedRrs(e, rrs).out)
    decreases |rrs|
  {
    if rrs != [] {
      var e1 := EncodedRr(e, rrs[0]);
      ContinuesTransitive(e.out, EncodedName(e, rrs[0].name).enc.out, e1.out);
      RrsContinue(e1, rrs[1..]);
      ContinuesTransitive(e.out, e1.out, EncodedRrs(e, rrs).out);
    }
  }

  lemma SectionsContinue(msg: Message, records: bool)
    ensures Continues(EMPTY.out, EncodedSections(msg, records).out)
  {
    var e := EncodedQuestions(EMPTY, msg.questions);
    QuestionsContinue(EMPTY, msg.questions);
    if records {
      var an := EncodedRrs(e, msg.answers);
      var ns := EncodedRrs(an, msg.authority);
      var ar := EncodedRrs(ns, msg.additional);
      RrsContinue(e, msg.answers);
      RrsContinue(an, msg.authority);
      RrsContinue(ns, msg.additional);
      ContinuesTransitive(EMPTY.out, e.out, an.out);
      ContinuesTransitive(EMPTY.out, an.out, ns.out);
      ContinuesTransitive(EMPTY.out, ns.out, ar.out);
      ContinuesTransitive(EMPTY.out, ar.out, EncodedTsig(ar, msg.tsig).out);
    }
  }

  /** encodeMessage; a limit of zero is no limit. */
  function EncodedMessage(msg: Message, limit: nat): (w: Wire)
    ensures |w.bytes| >= HEADER_SIZE
  {
    SectionsContinue(msg, true);
    SectionsContinue(msg, false);
    var full := EncodedSections(msg, true);
    var truncate := limit > 0 && |full.out| > limit;
    Wire(Patched(HeaderBytes(msg, msg.header.tc || truncate),
                 if truncate then EncodedSections(msg, false) else full),
         truncate)
  }

  // ---- Decoding ---------------------------------------------------------------

  /** f >> k. */
  function Shr(f: nat, k: nat): nat {
    if k == 0 then f else Shr(f, k - 1) / 2
  }

  predicate Test(flags: U16, bit: nat) {
    Shr(flags, bit) % 2 == 1
  }

  /** The header of an input of at least twelve bytes. */
  function DecodedHeader(input: Bytes): Header
    requires |input| >= HEADER_SIZE
  {
    var flags := Get16(input, 2).value;
    Header(Get16(input, 0).value, Test(flags, 15), Shr(flags, 11) % 16, Test(flags, 10),
           Test(flags, 9), Test(flags, 8), Test(flags, 7), Test(flags, 5), Test(flags, 4),
           flags % 16, Get16(input, 4).value, Get16(input, 6).value, Get16(input, 8).value,
           Get16(input, 10).value)
  }

  /** Values read before the rest. */
  function After<T>(before: seq<T>, rest: Read<seq<T>>): Read<seq<T>> {
    if rest.Fail? then Fail else Got(before + rest.value, rest.next)
  }

  lemma AfterTwice<T>(a: seq<T>, b: seq<T>, rest: Read<seq<T>>)
    ensures After(a, After(b, rest)) == After(a + b, rest)
    ensures After([], rest) == rest
  {
    if rest.Got? {
      assert a + (b + rest.value) == a + b + rest.value;
      assert [] + rest.value == rest.value;
    }
  }

  function DecodedQuestion(input: Bytes, off: nat): (r: Read<Question>)
    ensures r.Got? ==> off + 5 <= r.next <= |input|
  {
    var name := DecodedName(input, off, 0);
    if name.Fail? then Fail else
    var t := Get16(input, name.next);
    if t.Fail? then Fail else
    var c := Get16(input, t.next);
    if c.Fail? then Fail else
    Got(Question(name.value, t.value, c.value), c.next)
  }

  function DecodedQuestions(input: Bytes, off: nat, n: nat): Read<seq<Question>>
    decreases n
  {
    if n == 0 then Got([], off)
    else
      var q := DecodedQuestion(input, off);
      if q.Fail? then Fail else
      After([q.value], DecodedQuestions(input, q.next, n - 1))
  }

  /** decodeRr; the text form is filled in when it can be, and a failure to do so is ignored. */
  function DecodedRr(ntop: Ntop, input: Bytes, off: nat): (r: Read<ResourceRecord>)
    ensures r.Got? ==> off + 11 <= r.next <= |input|
  {
    var name := DecodedName(input, off, 0);
    if name.Fail? then Fail else
    var t := Get16(input, name.next);
    if t.Fail? then Fail else
    var c := Get16(input, t.next);
    if c.Fail? then Fail else
    var ttl := Get32(input, c.next);
    if ttl.Fail? then Fail else
    var len := Get16(input, ttl.next);
    if len.Fail? || len.next + len.value > |input| then Fail else
    var end := len.next + len.value;
    Got(Arrived(ntop, name.value, t.value, c.value, ttl.value, input[len.next..end]), end)
  }

  /** The record that wire fields become. */
  function Arrived(ntop: Ntop, name: Name, rtype: U16, rclass: U16, ttl: U32, rdata: Bytes): ResourceRecord {
    RdataToContent(ntop, WireRecord(name, rtype, rclass, ttl, rdata)).rr
  }

  function DecodedRrs(ntop: Ntop, input: Bytes, off: nat, n: nat): Read<seq<ResourceRecord>>
    decreases n
  {
    if n == 0 then Got([], off)
    else
      var rr := DecodedRr(ntop, input, off);
      if rr.Fail? then Fail else
      After([rr.value], DecodedRrs(ntop, input, rr.next, n - 1))
  }

  // ---- The additional section -----------------------------------------------

  predicate IsTsig(rr: ResourceRecord) {
    rr.rtype == TYPE_TSIG
  }

  /** The records that stay in the additional section. */
  function NonTsig(rrs: seq<ResourceRecord>): seq<ResourceRecord> {
    if rrs == [] then []
    else NonTsig(rrs[..|rrs| - 1]) + (if IsTsig(rrs[|rrs| - 1]) then [] else [rrs[|rrs| - 1]])
  }

  function LastTsig(rrs: seq<ResourceRecord>): Option<ResourceRecord> {
    if rrs == [] then None
    else if IsTsig(rrs[|rrs| - 1]) then Some(rrs[|rrs| - 1])
    else LastTsig(rrs[..|rrs| - 1])
  }

  /** The EDNS data that an OPT record carries in its class and TTL. */
  function OptEdns(rr: ResourceRecord): Edns {
    Edns(true, rr.rclass, rr.ttl / 0x100_0000, rr.ttl / 0x1_0000 % 256, rr.ttl / 0x8000 % 2 == 1)
  }

  function EdnsOf(rrs: seq<ResourceRecord>): Edns {
    if rrs == [] then NO_EDNS
    else if rrs[|rrs| - 1].rtype == TYPE_OPT then OptEdns(rrs[|rrs| - 1])
    else EdnsOf(rrs[..|rrs| - 1])
  }

  function Assembled(header: Header, questions: seq<Question>, answers: seq<ResourceRecord>,
                     authority: seq<ResourceRecord>, ar: seq<ResourceRecord>): Message
  {
    Message(header, questions, answers, authority, NonTsig(ar), EdnsOf(ar), LastTsig(ar))
  }

  /** decodeMessage. */
  function DecodedMessage(ntop: Ntop, input: Bytes): Option<Message> {
    if |input| < HEADER_SIZE then None else
    var h := DecodedHeader(input);
    var qd := DecodedQuestions(input, HEADER_SIZE, h.qdcount);
    if qd.Fail? then None else
    var an := DecodedRrs(ntop, input, qd.next, h.ancount);
    if an.Fail? then None else
    var ns := DecodedRrs(ntop, input, an.next, h.nscount);
    if ns.Fail? then None else
    var ar := DecodedRrs(ntop, input, ns.next, h.arcount);
    if ar.Fail? then None else
    Some(Assembled(h, qd.value, an.value, ns.value, ar.value))
  }

  // ---- The imperative forms -------------------------------------------------

  method WriteQuestions(enc: Encoder, qs: seq<Question>)
    modifies enc
    ensures enc.State() == EncodedQuestions(old(enc.State()), qs)
  {
    for i := 0 to |qs|
      invariant EncodedQuestions(old(enc.State()), qs) == EncodedQuestions(enc.State(), qs[i..])
    {
      assert qs[i..][1..] == qs[i + 1..];
      ghost var before := enc.State();
      var ok := enc.EncodeName(qs[i].qname);
      enc.Append(Put16(qs[i].qtype) + Put16(qs[i].qclass));
      assert enc.State() == EncodedQuestion(before, qs[i]);
    }
  }

  method WriteRr(enc: Encoder, rr: ResourceRecord)
    modifies enc
    ensures enc.State() == EncodedRr(old(enc.State()), rr)
  {
    var ok := enc.EncodeName(rr.name);
    if ok {
      enc.Append(Put16(rr.rtype) + Put16(rr.rclass) + Put32(rr.ttl) + Put16(|rr.rdata| % 0x1_0000) + rr.rdata);
    }
  }

  method WriteRrs(enc: Encoder, rrs: seq<ResourceRecord>)
    modifies enc
    ensures enc.State() == EncodedRrs(old(enc.State()), rrs)
  {
    for i := 0 to |rrs|
      invariant EncodedRrs(old(enc.State()), rrs) == EncodedRrs(enc.State(), rrs[i..])
    {
      assert rrs[i..][1..] == rrs[i + 1..];
      WriteRr(enc, rrs[i]);
    }
  }

  /** The writeSections closure of encodeMessage. */
  method WriteSections(enc: Encoder, msg: Message, records: bool)
    requires Continues(EMPTY.out, enc.out)
    modifies enc
    ensures enc.State() == EncodedSections(msg, records)
  {
    enc.Restart();
    assert enc.State() == EMPTY;
    WriteQuestions(enc, msg.questions);
    if records {
      WriteRrs(enc, msg.answers);
      WriteRrs(enc, msg.authority);
      WriteRrs(enc, msg.additional);
      if msg.tsig.Some? {
        var w, ok := EncodeUncompressed(msg.tsig.value.name);
        enc.Append(if ok then w + RrTail(msg.tsig.value) else w);
      }
    }
  }

  method EncodeMessage(msg: Message, limit: nat) returns (wire: Bytes, truncated: bool)
    ensures Wire(wire, truncated) == EncodedMessage(msg, limit)
  {
    var enc := new Encoder();
    WriteSections(enc, msg, true);
    SectionsContinue(msg, true);
    SectionsContinue(msg, false);
    var tc := msg.header.tc;
    truncated := false;
    if limit > 0 && |enc.out| > limit {
      tc := true;
      truncated := true;
      WriteSections(enc, msg, false);
    }
    wire := HeaderBytes(msg, tc) + enc.out[HEADER_SIZE..];
  }

  method ReadQuestions(input: Bytes, start: nat, n: nat) returns (r: Read<seq<Question>>)
    ensures r == DecodedQuestions(input, start, n)
  {
    var qs: seq<Question> := [];
    var off := start;
    AfterTwice([], [], DecodedQuestions(input, start, n));
    for i := 0 to n
      invariant DecodedQuestions(input, start, n) == After(qs, DecodedQuestions(input, off, n - i))
    {
      var q := ReadQuestion(input, off);
      if q.Fail? {
        return Fail;
      }
      AfterTwice(qs, [q.value], DecodedQuestions(input, q.next, n - i - 1));
      qs := qs + [q.value];
      off := q.next;
    }
    assert qs + [] == qs;
    return Got(qs, off);
  }

  method ReadQuestion(input: Bytes, off: nat) returns (r: Read<Question>)
    ensures r == DecodedQuestion(input, off)
  {
    hide DecodedName;
    var name := DecodeName(input, off, 0);
    if name.Fail? {
      return Fail;
    }
    var t := Get16(input, name.next);
    if t.Fail? {
      return Fail;
    }
    var c := Get16(input, t.next);
    if c.Fail? {
      return Fail;
    }
    return Got(Question(name.value, t.value, c.value), c.next);
  }

  method ReadRr(ntop: Ntop, input: Bytes, off: nat) returns (r: Read<ResourceRecord>)
    ensures r == DecodedRr(ntop, input, off)
  {
    hide DecodedName, RdataToContent;
    var name := DecodeName(input, off, 0);
    if name.Fail? {
      return Fail;
    }
    var t := Get16(input, name.next);
    if t.Fail? {
      return Fail;
    }
    var c := Get16(input, t.next);
    if c.Fail? {
      return Fail;
    }
    var ttl := Get32(input, c.next);
    if ttl.Fail? {
      return Fail;
    }
    var len := Get16(input, ttl.next);
    if len.Fail? || len.next + len.value > |input| {
      return Fail;
    }
    var end := len.next + len.value;
    var rr := WireRecord(name.value, t.value, c.value, ttl.value, input[len.next..end]);
    return Got(RdataToContent(ntop, rr).rr, end);
  }

  method ReadRrs(ntop: Ntop, input: Bytes, start: nat, n: nat) returns (r: Read<seq<ResourceRecord>>)
    ensures r == DecodedRrs(ntop, input, start, n)
  {
    hide DecodedRr;
    var rrs: seq<ResourceRecord> := [];
    var off := start;
    AfterTwice([], [], DecodedRrs(ntop, input, start, n));
    for i := 0 to n
      invariant DecodedRrs(ntop, input, start, n) == After(rrs, DecodedRrs(ntop, input, off, n - i))
    {
      var rr := ReadRr(ntop, input, off);
      if rr.Fail? {
        return Fail;
      }
      AfterTwice(rrs, [rr.value], DecodedRrs(ntop, input, rr.next, n - i - 1));
      rrs := rrs + [rr.value];
      off := rr.next;
    }
    assert rrs + [] == rrs;
    return Got(rrs, off);
  }

  method DecodeMessage(ntop: Ntop, input: Bytes) returns (r: Option<Message>)
    ensures r == DecodedMessage(ntop, input)
  {
    if |input| < HEADER_SIZE {
      return None;
    }
    var h := DecodedHeader(input);
    var qd := ReadQuestions(input, HEADER_SIZE, h.qdcount);
    if qd.Fail? {
      return None;
    }
    var an := ReadRrs(ntop, input, qd.next, h.ancount);
    if an.Fail? {
      return None;
    }
    var ns := ReadRrs(ntop, input, an.next, h.nscount);
    if ns.Fail? {
      return None;
    }
    var ar := ReadRrs(ntop, input, ns.next, h.arcount);
    if ar.Fail? {
      return None;
    }
    var additional, edns, tsig := SortAdditional(ar.value);
    return Some(Message(h, qd.value, an.value, ns.value, additional, edns, tsig));
  }

  /** The last loop of decodeMessage. */
  method SortAdditional(ar: seq<ResourceRecord>)
    returns (additional: seq<ResourceRecord>, edns: Edns, tsig: Option<ResourceRecord>)
    ensures additional == NonTsig(ar) && edns == EdnsOf(ar) && tsig == LastTsig(ar)
  {
    additional, edns, tsig := [], NO_EDNS, None;
    for i := 0 to |ar|
      invariant additional == NonTsig(ar[..i]) && edns == EdnsOf(ar[..i]) && tsig == LastTsig(ar[..i])
    {
      ghost var upTo := ar[..i + 1];
      assert upTo[..i] == ar[..i] && upTo[i] == ar[i];
      if ar[i].rtype == TYPE_OPT {
        edns := OptEdns(ar[i]);
        additional := additional + [ar[i]];
      } else if ar[i].rtype == TYPE_TSIG {
        tsig := Some(ar[i]);
      } else {
        additional := additional + [ar[i]];
      }
    }
    assert ar[..|ar|] == ar;
  }
}
