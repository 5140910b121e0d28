/**
 The laws of the message codec: round trip, byte-for-byte re-encoding, truncation, and
 what every accepted input satisfies.
 */
module MessageRoundTrip {
  import opened DnsNames
  import opened NameCodec
  import opened Compression
  import opened NameRoundTrip
  import opened Records
  import opened Rdata
  import opened MessageCodec

  // ---- Header ---------------------------------------------------------------

  /** Reading one bit of a word that was built most significant bit first. */
  lemma BitRead(f: nat, k: nat, rest: nat, b: bool)
    requires Shr(f, k) == 2 * rest + Bit(b, 1)
    ensures Shr(f, k + 1) == rest && (Shr(f, k) % 2 == 1) == b
  {
  }

  /** The flag word from the recursion bit up. */
  function TopFlags(h: Header, tc: bool): nat {
    2 * (2 * (2 * (Bit(h.qr, 16) + h.opcode) + Bit(h.aa, 1)) + Bit(tc, 1)) + Bit(h.rd, 1)
  }

  /** The flag word above its low four bits, built bit by bit. */
  function HighFlags(h: Header, tc: bool): nat {
    2 * (2 * (2 * (2 * TopFlags(h, tc) + Bit(h.ra, 1)) + Bit(false, 1)) + Bit(h.ad, 1)) + Bit(h.cd, 1)
  }

  lemma FlagsSplit(h: Header, tc: bool)
    requires h.opcode < 16 && h.rcode < 16
    ensures Flags(h, tc) == 16 * HighFlags(h, tc) + h.rcode
  {
    FlagsHighSplit(h, tc);
    FlagsLowSplit(h);
    hide FlagsHigh, FlagsLow, TopFlags, Bit, BigEndian;
    BigEndianTwo(FlagsHigh(h, tc), FlagsLow(h));
    assert Bit(false, 1) == 0 by { NoBit(); }
  }

  lemma NoBit()
    ensures Bit(false, 1) == 0
  {
  }

  lemma FlagsHighSplit(h: Header, tc: bool)
    requires h.opcode < 16
    ensures FlagsHigh(h, tc) == TopFlags(h, tc)
  {
  }

  lemma FlagsLowSplit(h: Header)
    requires h.rcode < 16
    ensures FlagsLow(h) == 0x80 * Bit(h.ra, 1) + 0x20 * Bit(h.ad, 1) + 0x10 * Bit(h.cd, 1) + h.rcode
  {
  }

  lemma LowNibble(f: nat, high: nat, low: nat)
    requires low < 16 && f == 16 * high + low
    ensures f % 16 == low && Shr(f, 4) == high
  {
    Shifted(f, 0, f / 2);
    Shifted(f, 1, f / 4);
    Shifted(f, 2, f / 8);
    Shifted(f, 3, f / 16);
  }

  /** The flag word gives back every bit and code it was made of. */
  lemma FlagsRead(h: Header, tc: bool)
    requires h.opcode < 16 && h.rcode < 16
    ensures var f := Flags(h, tc);
      && Test(f, 15) == h.qr && Shr(f, 11) % 16 == h.opcode && Test(f, 10) == h.aa
      && Test(f, 9) == tc && Test(f, 8) == h.rd && Test(f, 7) == h.ra
      && Test(f, 5) == h.ad && Test(f, 4) == h.cd && f % 16 == h.rcode
  {
    hide Flags, Shr;
    var f := Flags(h, tc);
    FlagsSplit(h, tc);
    LowNibble(f, HighFlags(h, tc), h.rcode);
    HighFlagsRead(h, tc, f);
  }

  lemma HighFlagsRead(h: Header, tc: bool, f: nat)
    requires h.opcode < 16 && Shr(f, 4) == HighFlags(h, tc)
    ensures (Shr(f, 15) % 2 == 1) == h.qr && Shr(f, 11) % 16 == h.opcode
    ensures (Shr(f, 10) % 2 == 1) == h.aa && (Shr(f, 9) % 2 == 1) == tc && (Shr(f, 8) % 2 == 1) == h.rd
    ensures (Shr(f, 7) % 2 == 1) == h.ra && (Shr(f, 5) % 2 == 1) == h.ad && (Shr(f, 4) % 2 == 1) == h.cd
  {
    hide Shr, Bit;
    var top := TopFlags(h, tc);
    var ra := 2 * top + Bit(h.ra, 1);
    var zero := 2 * ra + Bit(false, 1);
    var ad := 2 * zero + Bit(h.ad, 1);
    BitRead(f, 4, ad, h.cd);
    BitRead(f, 5, zero, h.ad);
    BitRead(f, 6, ra, false);
    BitRead(f, 7, top, h.ra);
    TopFlagsRead(h, tc, f);
  }

  lemma TopFlagsRead(h: Header, tc: bool, f: nat)
    requires h.opcode < 16 && Shr(f, 8) == TopFlags(h, tc)
    ensures (Shr(f, 15) % 2 == 1) == h.qr && Shr(f, 11) % 16 == h.opcode
    ensures (Shr(f, 10) % 2 == 1) == h.aa && (Shr(f, 9) % 2 == 1) == tc && (Shr(f, 8) % 2 == 1) == h.rd
  {
    hide Shr, Bit;
    var code := Bit(h.qr, 16) + h.opcode;
    var aa := 2 * code + Bit(h.aa, 1);
    var tr := 2 * aa + Bit(tc, 1);
    BitRead(f, 8, tr, h.rd);
    BitRead(f, 9, aa, tc);
    BitRead(f, 10, code, h.aa);
    TopBits(f, code, h.qr, h.opcode);
  }

  lemma Shifted(f: nat, k: nat, half: nat)
    requires Shr(f, k) / 2 == half
    ensures Shr(f, k + 1) == half
  {
  }

  lemma TopBits(f: nat, top: nat, qr: bool, opcode: nat)
    requires opcode < 16 && top == Bit(qr, 16) + opcode && Shr(f, 11) == top
    ensures top % 16 == opcode && (Shr(f, 15) % 2 == 1) == qr
  {
    Shifted(f, 11, top / 2);
    Shifted(f, 12, top / 4);
    Shifted(f, 13, top / 8);
    Shifted(f, 14, top / 16);
  }

  /** The header gives back its fields, with the counts of the sections written. */
  lemma HeaderComesBack(msg: Message, tc: bool, buf: Bytes)
    requires msg.header.opcode < 16 && msg.header.rcode < 16
    requires At(buf, 0, HeaderBytes(msg, tc))
    ensures DecodedHeader(buf) == msg.header.(tc := tc, qdcount := Wrap16(|msg.questions|),
      ancount := if tc then 0 else Wrap16(|msg.answers|),
      nscount := if tc then 0 else Wrap16(|msg.authority|),
      arcount := if tc then 0 else Wrap16(|msg.additional| + if msg.tsig.Some? then 1 else 0))
  {
    hide Flags, Get16;
    FlagsRead(msg.header, tc);
    HeaderWords(msg, tc, buf);
    Get16Put(buf, 0, msg.header.id);
    Get16Put(buf, 2, Flags(msg.header, tc));
    Get16Put(buf, 4, Wrap16(|msg.questions|));
    Get16Put(buf, 6, if tc then 0 else Wrap16(|msg.answers|));
    Get16Put(buf, 8, if tc then 0 else Wrap16(|msg.authority|));
    Get16Put(buf, 10, if tc then 0 else Wrap16(|msg.additional| + if msg.tsig.Some? then 1 else 0));
  }

  lemma HeaderWords(msg: Message, tc: bool, buf: Bytes)
    requires At(buf, 0, HeaderBytes(msg, tc))
    ensures At(buf, 0, Put16(msg.header.id)) && At(buf, 2, Put16(Flags(msg.header, tc)))
    ensures At(buf, 4, Put16(Wrap16(|msg.questions|)))
    ensures At(buf, 6, Put16(if tc then 0 else Wrap16(|msg.answers|)))
    ensures At(buf, 8, Put16(if tc then 0 else Wrap16(|msg.authority|)))
    ensures At(buf, 10, Put16(if tc then 0 else Wrap16(|msg.additional| + if msg.tsig.Some? then 1 else 0)))
  {
    hide Flags, Put16;
    var w := HeaderBytes(msg, tc);
    assert buf[0..2] == buf[0..12][0..2] && buf[2..4] == buf[0..12][2..4] && buf[4..6] == buf[0..12][4..6];
    assert buf[6..8] == buf[0..12][6..8] && buf[8..10] == buf[0..12][8..10] && buf[10..12] == buf[0..12][10..12];
  }

  // ---- One item -------------------------------------------------------------

  predicate PlainQuestion(q: Question) {
    PlainName(q.qname) && |q.qname| <= MAX_JUMPS
  }

  predicate PlainRecord(rr: ResourceRecord) {
    PlainName(rr.name) && |rr.name| <= MAX_JUMPS && |rr.rdata| < 0x1_0000
  }

  /** The question that is read back. */
  function BackQuestion(e: Enc, q: Question): Question {
    q.(qname := ReadBack(e, q.qname))
  }

  /** The record that is read back: its wire fields, with the text made anew. */
  function BackRr(ntop: Ntop, e: Enc, rr: ResourceRecord): ResourceRecord {
    Arrived(ntop, ReadBack(e, rr.name), rr.rtype, rr.rclass, rr.ttl, rr.rdata)
  }

  /** What was appended stands where the output ended. */
  lemma AppendedAt(e: Enc, w: Bytes, buf: Bytes)
    requires HEADER_SIZE <= |e.out| && Extends(Appended(e, w).out, buf)
    ensures At(buf, |e.out|, w)
  {
    var out := Appended(e, w).out;
    forall i | 0 <= i < |w| ensures buf[|e.out|..|e.out| + |w|][i] == w[i] {
      assert out[|e.out| + i] == buf[|e.out| + i];
    }
  }

  lemma QuestionComesBack(e: Enc, q: Question, buf: Bytes)
    requires Settled(e) && PlainQuestion(q) && Extends(EncodedQuestion(e, q).out, buf)
    ensures Settled(EncodedQuestion(e, q)) && Extends(e.out, EncodedQuestion(e, q).out)
    ensures DecodedQuestion(buf, |e.out|) == Got(BackQuestion(e, q), |EncodedQuestion(e, q).out|)
    ensures Same(BackQuestion(e, q).qname, q.qname) && PlainName(BackQuestion(e, q).qname)
    ensures EncodedQuestion(e, BackQuestion(e, q)) == EncodedQuestion(e, q)
  {
    hide Raw, DecodedName, TableOk, Put16, Get16, ReadBack;
    var n := EncodedName(e, q.qname).enc;
    NameComesBack(e, q.qname, n.out);
    AppendedSettled(n, QuestionTail(q));
    ExtendsTransitive(e.out, n.out, EncodedQuestion(e, q).out);
    ExtendsTransitive(n.out, EncodedQuestion(e, q).out, buf);
    NameComesBack(e, q.qname, buf);
    AppendedAt(n, QuestionTail(q), buf);
    AtSplit(buf, |n.out|, Put16(q.qtype), Put16(q.qclass));
    Get16Put(buf, |n.out|, q.qtype);
    Get16Put(buf, |n.out| + 2, q.qclass);
    ReencodedName(e, q.qname, {});
  }

  lemma TailReads(buf: Bytes, off: nat, rr: ResourceRecord)
    requires |rr.rdata| < 0x1_0000 && At(buf, off, RrTail(rr))
    ensures Get16(buf, off) == Got(rr.rtype, off + 2)
    ensures Get16(buf, off + 2) == Got(rr.rclass, off + 4)
    ensures Get32(buf, off + 4) == Got(rr.ttl, off + 8)
    ensures Get16(buf, off + 8) == Got(|rr.rdata|, off + 10)
    ensures off + 10 + |rr.rdata| <= |buf| && buf[off + 10..off + 10 + |rr.rdata|] == rr.rdata
    ensures |RrTail(rr)| == 10 + |rr.rdata|
  {
    hide Put16, Put32, Get16, Get32;
    var t, c, l, n := Put16(rr.rtype), Put16(rr.rclass), Put32(rr.ttl), Put16(|rr.rdata| % 0x1_0000);
    AtSplit(buf, off, t + c + l + n, rr.rdata);
    AtSplit(buf, off, t + c + l, n);
    AtSplit(buf, off, t + c, l);
    AtSplit(buf, off, t, c);
    Get16Put(buf, off, rr.rtype);
    Get16Put(buf, off + 2, rr.rclass);
    Get32Put(buf, off + 4, rr.ttl);
    Get16Put(buf, off + 8, |rr.rdata|);
  }

  lemma RrComesBack(ntop: Ntop, e: Enc, rr: ResourceRecord, buf: Bytes)
    requires Settled(e) && PlainRecord(rr) && Extends(EncodedRr(e, rr).out, buf)
    ensures Settled(EncodedRr(e, rr)) && Extends(e.out, EncodedRr(e, rr).out)
    ensures DecodedRr(ntop, buf, |e.out|) == Got(BackRr(ntop, e, rr), |EncodedRr(e, rr).out|)
    ensures Same(BackRr(ntop, e, rr).name, rr.name) && PlainRecord(BackRr(ntop, e, rr))
    ensures EncodedRr(e, BackRr(ntop, e, rr)) == EncodedRr(e, rr)
  {
    hide Raw, DecodedName, TableOk, ReadBack, RrTail, Get16, Get32, Arrived, PlainName, Extends, Same, EncodedName;
    var n := EncodedName(e, rr.name).enc;
    NameComesBack(e, rr.name, n.out);
    AppendedSettled(n, RrTail(rr));
    ExtendsTransitive(e.out, n.out, EncodedRr(e, rr).out);
    ExtendsTransitive(n.out, EncodedRr(e, rr).out, buf);
    NameComesBack(e, rr.name, buf);
    AppendedAt(n, RrTail(rr), buf);
    TailReads(buf, |n.out|, rr);
    ReencodedName(e, rr.name, {});
    ArrivedFields(ntop, ReadBack(e, rr.name), rr);
    SameTail(rr, BackRr(ntop, e, rr));
    SameLabelCount(BackRr(ntop, e, rr).name, rr.name);
  }

  lemma SameTail(a: ResourceRecord, b: ResourceRecord)
    requires a.rtype == b.rtype && a.rclass == b.rclass && a.ttl == b.ttl && a.rdata == b.rdata
    ensures RrTail(a) == RrTail(b)
  {
  }

  lemma SameLabelCount(a: Name, b: Name)
    requires Same(a, b)
    ensures |a| == |b|
  {
    assert |a| == |LowerName(a)| == |LowerName(b)| == |b|;
  }

  // ---- Lists of items -------------------------------------------------------

  predicate PlainQuestions(qs: seq<Question>) {
    forall i :: 0 <= i < |qs| ==> PlainQuestion(qs[i])
  }

  predicate PlainRecords(rrs: seq<ResourceRecord>) {
    forall i :: 0 <= i < |rrs| ==> PlainRecord(rrs[i])
  }

  predicate SameQuestion(a: Question, b: Question) {
    Same(a.qname, b.qname) && a.qtype == b.qtype && a.qclass == b.qclass
  }

  /** a is b as it arrives: the name up to case, all wire fields, the text made from them. */
  predicate SameRecord(ntop: Ntop, a: ResourceRecord, b: ResourceRecord) {
    Same(a.name, b.name) && a == Arrived(ntop, a.name, b.rtype, b.rclass, b.ttl, b.rdata)
  }

  predicate SameQuestions(a: seq<Question>, b: seq<Question>) {
    |a| == |b| && forall i :: 0 <= i < |a| ==> SameQuestion(a[i], b[i])
  }

  predicate SameRecords(ntop: Ntop, a: seq<ResourceRecord>, b: seq<ResourceRecord>) {
    |a| == |b| && forall i :: 0 <= i < |a| ==> SameRecord(ntop, a[i], b[i])
  }

  function BackQuestions(e: Enc, qs: seq<Question>): seq<Question>
    decreases |qs|
  {
    if qs == [] then []
    else [BackQuestion(e, qs[0])] + BackQuestions(EncodedQuestion(e, qs[0]), qs[1..])
  }

  function BackRrs(ntop: Ntop, e: Enc, rrs: seq<ResourceRecord>): seq<ResourceRecord>
    decreases |rrs|
  {
    if rrs == [] then []
    else [BackRr(ntop, e, rrs[0])] + BackRrs(ntop, EncodedRr(e, rrs[0]), rrs[1..])
  }

  lemma {:induction false} QuestionsComeBack(e: Enc, qs: seq<Question>, buf: Bytes)
    requires Settled(e) && PlainQuestions(qs) && Extends(EncodedQuestions(e, qs).out, buf)
    ensures Settled(EncodedQuestions(e, qs)) && Extends(e.out, EncodedQuestions(e, qs).out)
    ensures DecodedQuestions(buf, |e.out|, |qs|) == Got(BackQuestions(e, qs), |EncodedQuestions(e, qs).out|)
    ensures SameQuestions(BackQuestions(e, qs), qs)
    ensures EncodedQuestions(e, BackQuestions(e, qs)) == EncodedQuestions(e, qs)
    decreases |qs|
  {
    hide Settled, PlainQuestion, Extends, DecodedQuestion, EncodedQuestion, BackQuestion;
    if qs != [] {
      var e1 := EncodedQuestion(e, qs[0]);
      var rest := BackQuestions(e1, qs[1..]);
      ExtendsRefl(e1.out);
      QuestionComesBack(e, qs[0], e1.out);
      QuestionsComeBack(e1, qs[1..], buf);
      ExtendsTransitive(e1.out, EncodedQuestions(e, qs).out, buf);
      ExtendsTransitive(e.out, e1.out, EncodedQuestions(e, qs).out);
      QuestionComesBack(e, qs[0], buf);
      assert BackQuestions(e, qs)[1..] == rest;
      BackQuestionFields(e, qs[0]);
    } else {
      ExtendsRefl(e.out);
    }
  }

  lemma BackQuestionFields(e: Enc, q: Question)
    ensures BackQuestion(e, q).qtype == q.qtype && BackQuestion(e, q).qclass == q.qclass
  {
  }

  lemma ExtendsRefl(a: Bytes)
    ensures Extends(a, a)
  {
  }

  lemma {:induction false} RrsComeBack(ntop: Ntop, e: Enc, rrs: seq<ResourceRecord>, buf: Bytes)
    requires Settled(e) && PlainRecords(rrs) && Extends(EncodedRrs(e, rrs).out, buf)
    ensures Settled(EncodedRrs(e, rrs)) && Extends(e.out, EncodedRrs(e, rrs).out)
    ensures DecodedRrs(ntop, buf, |e.out|, |rrs|) == Got(BackRrs(ntop, e, rrs), |EncodedRrs(e, rrs).out|)
    ensures SameRecords(ntop, BackRrs(ntop, e, rrs), rrs) && PlainRecords(BackRrs(ntop, e, rrs))
    ensures EncodedRrs(e, BackRrs(ntop, e, rrs)) == EncodedRrs(e, rrs)
    decreases |rrs|
  {
    hide Settled, PlainRecord, Extends, DecodedRr, EncodedRr, BackRr;
    if rrs != [] {
      var e1 := EncodedRr(e, rrs[0]);
      var rest := BackRrs(ntop, e1, rrs[1..]);
      ExtendsRefl(e1.out);
      RrComesBack(ntop, e, rrs[0], e1.out);
      RrsComeBack(ntop, e1, rrs[1..], buf);
      ExtendsTransitive(e1.out, EncodedRrs(e, rrs).out, buf);
      ExtendsTransitive(e.out, e1.out, EncodedRrs(e, rrs).out);
      RrComesBack(ntop, e, rrs[0], buf);
      assert BackRrs(ntop, e, rrs)[1..] == rest;
      BackRrFields(ntop, e, rrs[0]);
    } else {
      ExtendsRefl(e.out);
    }
  }

  lemma BackRrFields(ntop: Ntop, e: Enc, rr: ResourceRecord)
    ensures var b := BackRr(ntop, e, rr); b == Arrived(ntop, b.name, rr.rtype, rr.rclass, rr.ttl, rr.rdata)
  {
  }

  // ---- The TSIG record ------------------------------------------------------

  /** Its name is written uncompressed, so only its text must survive. */
  predicate PlainTsig(rr: ResourceRecord) {
    && ProperName(rr.name) && UncompressedName(rr.name).1 && SurvivesText(rr.name)
    && |rr.rdata| < 0x1_0000
  }

  function TsigList(tsig: Option<ResourceRecord>): seq<ResourceRecord> {
    if tsig.None? then [] else [tsig.value]
  }

  function BackTsig(ntop: Ntop, tsig: Option<ResourceRecord>): seq<ResourceRecord> {
    if tsig.None? then []
    else [Arrived(ntop, tsig.value.name, tsig.value.rtype, tsig.value.rclass, tsig.value.ttl, tsig.value.rdata)]
  }

  lemma TsigReads(ntop: Ntop, buf: Bytes, pos: nat, rr: ResourceRecord)
    requires PlainTsig(rr) && At(buf, pos, UncompressedName(rr.name).0 + RrTail(rr))
    ensures DecodedRr(ntop, buf, pos) == Got(Arrived(ntop, rr.name, rr.rtype, rr.rclass, rr.ttl, rr.rdata),
                                             pos + |UncompressedName(rr.name).0 + RrTail(rr)|)
  {
    hide DecodedName, RrTail, Get16, Get32, SurvivesText, UncompressedName, Arrived, At;
    var w := UncompressedName(rr.name).0;
    AtSplit(buf, pos, w, RrTail(rr));
    UncompressedRoundTrip(buf, pos, rr.name);
    TailReads(buf, pos + |w|, rr);
  }

  lemma OneRead(ntop: Ntop, buf: Bytes, pos: nat)
    requires DecodedRr(ntop, buf, pos).Got?
    ensures var d := DecodedRr(ntop, buf, pos); DecodedRrs(ntop, buf, pos, 1) == Got([d.value], d.next)
  {
    hide DecodedRr;
    var d := DecodedRr(ntop, buf, pos);
    assert DecodedRrs(ntop, buf, d.next, 0) == Got([], d.next);
    assert [d.value] + [] == [d.value];
  }

  lemma TsigComesBack(ntop: Ntop, e: Enc, tsig: Option<ResourceRecord>, buf: Bytes)
    requires Settled(e) && (tsig.Some? ==> PlainTsig(tsig.value)) && Extends(EncodedTsig(e, tsig).out, buf)
    ensures Extends(e.out, EncodedTsig(e, tsig).out)
    ensures DecodedRrs(ntop, buf, |e.out|, |TsigList(tsig)|) == Got(BackTsig(ntop, tsig), |EncodedTsig(e, tsig).out|)
  {
    hide DecodedRr, TableOk, RrTail, SurvivesText, UncompressedName, Arrived, Extends;
    if tsig.Some? {
      var rr := tsig.value;
      var w := UncompressedName(rr.name).0;
      AppendedSettled(e, w + RrTail(rr));
      AppendedAt(e, w + RrTail(rr), buf);
      TsigReads(ntop, buf, |e.out|, rr);
      OneRead(ntop, buf, |e.out|);
    } else {
      ExtendsRefl(e.out);
    }
  }

  lemma {:induction false} DecodedRrsSplit(ntop: Ntop, buf: Bytes, off: nat, n: nat, m: nat)
    requires DecodedRrs(ntop, buf, off, n).Got?
    ensures var first := DecodedRrs(ntop, buf, off, n);
            DecodedRrs(ntop, buf, off, n + m) == After(first.value, DecodedRrs(ntop, buf, first.next, m))
    decreases n
  {
    hide DecodedRr;
    var first := DecodedRrs(ntop, buf, off, n);
    if n == 0 {
      AfterTwice([], [], DecodedRrs(ntop, buf, off, m));
    } else {
      var rr := DecodedRr(ntop, buf, off);
      var rest := DecodedRrs(ntop, buf, rr.next, n - 1);
      DecodedRrsSplit(ntop, buf, rr.next, n - 1, m);
      AfterTwice([rr.value], rest.value, DecodedRrs(ntop, buf, first.next, m));
    }
  }

  // ---- Messages -------------------------------------------------------------

  /** The messages whose parts all fit their wire fields and whose names are plain. */
  predicate Encodable(msg: Message) {
    && msg.header.opcode < 16 && msg.header.rcode < 16
    && PlainQuestions(msg.questions) && |msg.questions| < 0x1_0000
    && PlainRecords(msg.answers) && |msg.answers| < 0x1_0000
    && PlainRecords(msg.authority) && |msg.authority| < 0x1_0000
    && PlainRecords(msg.additional) && |msg.additional| + |TsigList(msg.tsig)| < 0x1_0000
    && (msg.tsig.Some? ==> PlainTsig(msg.tsig.value))
  }

  /** The records that follow the authority section on the wire. */
  function Trailer(msg: Message): seq<ResourceRecord> {
    msg.additional + TsigList(msg.tsig)
  }

  /** The counts that the header of msg carries when its records are sent. */
  function Counted(h: Header, msg: Message): Header {
    h.(qdcount := Wrap16(|msg.questions|), ancount := Wrap16(|msg.answers|),
       nscount := Wrap16(|msg.authority|), arcount := Wrap16(|Trailer(msg)|))
  }

  /** What decoding the encoding of msg yields. */
  function BackMessage(ntop: Ntop, msg: Message): Message {
    var e := EncodedQuestions(EMPTY, msg.questions);
    var an := EncodedRrs(e, msg.answers);
    var ns := EncodedRrs(an, msg.authority);
    Assembled(Counted(msg.header, msg), BackQuestions(EMPTY, msg.questions), BackRrs(ntop, e, msg.answers),
              BackRrs(ntop, an, msg.authority), BackRrs(ntop, ns, msg.additional) + BackTsig(ntop, msg.tsig))
  }

  /**
   The same message up to the case of names: header bits, codes and sections agree, OPT is
   mirrored in the EDNS data, and TSIG records leave the additional section.
   */
  predicate SameMessage(ntop: Ntop, a: Message, b: Message) {
    && a.header == Counted(b.header, b)
    && SameQuestions(a.questions, b.questions)
    && SameRecords(ntop, a.answers, b.answers)
    && SameRecords(ntop, a.authority, b.authority)
    && SameRecords(ntop, a.additional, NonTsig(Trailer(b)))
    && a.edns == EdnsOf(Trailer(b))
    && SameRecords(ntop, TsigList(a.tsig), TsigList(LastTsig(Trailer(b))))
  }

  lemma PatchedExtends(header: Bytes, e: Enc)
    requires |header| == HEADER_SIZE && |e.out| >= HEADER_SIZE
    ensures Extends(e.out, Patched(header, e)) && |Patched(header, e)| == |e.out|
    ensures At(Patched(header, e), 0, header)
  {
    assert Patched(header, e)[0..HEADER_SIZE] == header;
  }

  /** All sections, read in sequence from any buffer that extends them. */
  lemma SectionsComeBack(ntop: Ntop, msg: Message, buf: Bytes)
    requires Encodable(msg) && Extends(EncodedSections(msg, true).out, buf)
    ensures var b := BackMessage(ntop, msg); var e := EncodedQuestions(EMPTY, msg.questions);
      var an := EncodedRrs(e, msg.answers); var ns := EncodedRrs(an, msg.authority);
      && DecodedQuestions(buf, HEADER_SIZE, |msg.questions|) == Got(b.questions, |e.out|)
      && DecodedRrs(ntop, buf, |e.out|, |msg.answers|) == Got(b.answers, |an.out|)
      && DecodedRrs(ntop, buf, |an.out|, |msg.authority|) == Got(b.authority, |ns.out|)
      && DecodedRrs(ntop, buf, |ns.out|, |Trailer(msg)|)
         == Got(BackRrs(ntop, ns, msg.additional) + BackTsig(ntop, msg.tsig), |EncodedSections(msg, true).out|)
  {
    hide Settled, Extends, PlainTsig, PlainRecord, PlainQuestion, NonTsig, LastTsig, EdnsOf, DecodedRrs,
         DecodedQuestions, EncodedQuestions, EncodedRrs, BackQuestions, BackRrs, BackTsig, SameRecords, SameQuestions,
         PlainRecords;
    var e := EncodedQuestions(EMPTY, msg.questions);
    var an := EncodedRrs(e, msg.answers);
    var ns := EncodedRrs(an, msg.authority);
    var ar := EncodedRrs(ns, msg.additional);
    SectionsSettled(ntop, msg);
    TsigComesBack(ntop, ar, msg.tsig, buf);
    ExtendsTransitive(ar.out, EncodedTsig(ar, msg.tsig).out, buf);
    RrsComeBack(ntop, ns, msg.additional, buf);
    ExtendsTransitive(ns.out, ar.out, buf);
    RrsComeBack(ntop, an, msg.authority, buf);
    ExtendsTransitive(an.out, ns.out, buf);
    RrsComeBack(ntop, e, msg.answers, buf);
    ExtendsTransitive(e.out, an.out, buf);
    QuestionsComeBack(EMPTY, msg.questions, buf);
    DecodedRrsSplit(ntop, buf, |ns.out|, |msg.additional|, |TsigList(msg.tsig)|);
  }

  lemma SectionsSettled(ntop: Ntop, msg: Message)
    requires Encodable(msg)
    ensures var e := EncodedQuestions(EMPTY, msg.questions);
      var an := EncodedRrs(e, msg.answers); var ns := EncodedRrs(an, msg.authority);
      Settled(EMPTY) && Settled(e) && Settled(an) && Settled(ns) && Settled(EncodedRrs(ns, msg.additional))
  {
    hide Settled, Extends, PlainRecords, PlainQuestions, PlainTsig, EncodedQuestions, EncodedRrs;
    var e := EncodedQuestions(EMPTY, msg.questions);
    var an := EncodedRrs(e, msg.answers);
    var ns := EncodedRrs(an, msg.authority);
    var ar := EncodedRrs(ns, msg.additional);
    EmptySettled();
    ExtendsRefl(e.out);
    QuestionsComeBack(EMPTY, msg.questions, e.out);
    ExtendsRefl(an.out);
    RrsComeBack(ntop, e, msg.answers, an.out);
    ExtendsRefl(ns.out);
    RrsComeBack(ntop, an, msg.authority, ns.out);
    ExtendsRefl(ar.out);
    RrsComeBack(ntop, ns, msg.additional, ar.out);
  }

  /** The wire form of a message with `tc` false decodes to BackMessage. */
  lemma MessageComesBack(ntop: Ntop, msg: Message)
    requires Encodable(msg) && !msg.header.tc
    ensures DecodedMessage(ntop, EncodedMessage(msg, 0).bytes) == Some(BackMessage(ntop, msg))
  {
    hide Extends, Encodable, DecodedRrs, DecodedQuestions, EncodedSections, HeaderBytes, BackQuestions, BackRrs,
         BackTsig, NonTsig, LastTsig, EdnsOf, DecodedHeader, EncodedQuestions, EncodedRrs;
    SectionsContinue(msg, true);
    SectionsContinue(msg, false);
    var e := EncodedSections(msg, true);
    var header := HeaderBytes(msg, false);
    var buf := Patched(header, e);
    PatchedExtends(header, e);
    EncodableCounts(msg);
    HeaderComesBack(msg, false, buf);
    SectionsComeBack(ntop, msg, buf);
    assert DecodedHeader(buf) == Counted(msg.header, msg);
  }

  lemma EncodableCounts(msg: Message)
    requires Encodable(msg)
    ensures msg.header.opcode < 16 && msg.header.rcode < 16
    ensures Wrap16(|msg.questions|) == |msg.questions| && Wrap16(|msg.answers|) == |msg.answers|
    ensures Wrap16(|msg.authority|) == |msg.authority| && Wrap16(|Trailer(msg)|) == |Trailer(msg)|
    ensures |Trailer(msg)| == |msg.additional| + if msg.tsig.Some? then 1 else 0
  {
  }

  lemma SameConcat(ntop: Ntop, a: seq<ResourceRecord>, b: seq<ResourceRecord>,
                   c: seq<ResourceRecord>, d: seq<ResourceRecord>)
    requires SameRecords(ntop, a, b) && SameRecords(ntop, c, d)
    ensures SameRecords(ntop, a + c, b + d)
  {
    hide SameRecord;
  }

  /** Sorting out TSIG and OPT sees only types, classes and TTLs, which arrive unchanged. */
  lemma {:induction false} SameSorted(ntop: Ntop, a: seq<ResourceRecord>, b: seq<ResourceRecord>)
    requires SameRecords(ntop, a, b)
    ensures SameRecords(ntop, NonTsig(a), NonTsig(b))
    ensures SameRecords(ntop, TsigList(LastTsig(a)), TsigList(LastTsig(b)))
    ensures EdnsOf(a) == EdnsOf(b)
    decreases |a|
  {
    hide Arrived;
    if a != [] {
      var n := |a| - 1;
      SameSorted(ntop, a[..n], b[..n]);
      assert SameRecord(ntop, a[n], b[n]);
      ArrivedFields(ntop, a[n].name, b[n]);
      if !IsTsig(a[n]) {
        SameConcat(ntop, NonTsig(a[..n]), NonTsig(b[..n]), [a[n]], [b[n]]);
      }
    }
  }

  lemma ArrivedFields(ntop: Ntop, name: Name, rr: ResourceRecord)
    ensures var a := Arrived(ntop, name, rr.rtype, rr.rclass, rr.ttl, rr.rdata);
      a.name == name && a.rtype == rr.rtype && a.rclass == rr.rclass && a.ttl == rr.ttl && a.rdata == rr.rdata
  {
  }

  /**
   Message round trip: every encodable message with `tc` false decodes to the same message,
   names up to case and everything else exactly.
   */
  lemma RoundTrip(ntop: Ntop, msg: Message)
    requires Encodable(msg) && !msg.header.tc
    ensures var d := DecodedMessage(ntop, EncodedMessage(msg, 0).bytes);
            d.Some? && SameMessage(ntop, d.value, msg)
  {
    MessageComesBack(ntop, msg);
    BackIsSame(ntop, msg);
  }

  lemma BackIsSame(ntop: Ntop, msg: Message)
    requires Encodable(msg)
    ensures SameMessage(ntop, BackMessage(ntop, msg), msg)
  {
    hide Settled, Extends, PlainRecords, PlainQuestions, PlainTsig, EncodedQuestions, EncodedRrs, SameRecord,
         NonTsig, LastTsig, EdnsOf, DecodedRrs, DecodedQuestions;
    var e := EncodedQuestions(EMPTY, msg.questions);
    var an := EncodedRrs(e, msg.answers);
    var ns := EncodedRrs(an, msg.authority);
    var ar := EncodedRrs(ns, msg.additional);
    SectionsSettled(ntop, msg);
    ExtendsRefl(e.out);
    QuestionsComeBack(EMPTY, msg.questions, e.out);
    ExtendsRefl(an.out);
    RrsComeBack(ntop, e, msg.answers, an.out);
    ExtendsRefl(ns.out);
    RrsComeBack(ntop, an, msg.authority, ns.out);
    ExtendsRefl(ar.out);
    RrsComeBack(ntop, ns, msg.additional, ar.out);
    TsigIsSame(ntop, msg.tsig);
    SameConcat(ntop, BackRrs(ntop, ns, msg.additional), msg.additional, BackTsig(ntop, msg.tsig), TsigList(msg.tsig));
    SameSorted(ntop, BackRrs(ntop, ns, msg.additional) + BackTsig(ntop, msg.tsig), Trailer(msg));
  }

  lemma TsigIsSame(ntop: Ntop, tsig: Option<ResourceRecord>)
    ensures SameRecords(ntop, BackTsig(ntop, tsig), TsigList(tsig))
  {
  }

  // ---- Re-encoding ----------------------------------------------------------

  predicate NoTsigIn(rrs: seq<ResourceRecord>) {
    forall i :: 0 <= i < |rrs| ==> !IsTsig(rrs[i])
  }

  /** TSIG stands only where it belongs. */
  predicate TsigInPlace(msg: Message) {
    NoTsigIn(msg.additional) && (msg.tsig.Some? ==> IsTsig(msg.tsig.value))
  }

  lemma {:induction false} NonTsigKeepsAll(rrs: seq<ResourceRecord>)
    requires NoTsigIn(rrs)
    ensures NonTsig(rrs) == rrs && LastTsig(rrs) == None
    decreases |rrs|
  {
    if rrs != [] {
      NonTsigKeepsAll(rrs[..|rrs| - 1]);
    }
  }

  lemma BackSections(ntop: Ntop, msg: Message)
    requires Encodable(msg) && TsigInPlace(msg)
    ensures var b := BackMessage(ntop, msg);
      var ns := EncodedRrs(EncodedRrs(EncodedQuestions(EMPTY, msg.questions), msg.answers), msg.authority);
      && b.additional == BackRrs(ntop, ns, msg.additional) && TsigList(b.tsig) == BackTsig(ntop, msg.tsig)
      && NoTsigIn(b.additional)
  {
    hide Settled, Extends, PlainRecords, PlainQuestions, PlainTsig, EncodedQuestions, EncodedRrs, Arrived;
    var e := EncodedQuestions(EMPTY, msg.questions);
    var ns := EncodedRrs(EncodedRrs(e, msg.answers), msg.authority);
    var ar := EncodedRrs(ns, msg.additional);
    SectionsSettled(ntop, msg);
    ExtendsRefl(ar.out);
    RrsComeBack(ntop, ns, msg.additional, ar.out);
    var back := BackRrs(ntop, ns, msg.additional);
    forall i | 0 <= i < |back| ensures !IsTsig(back[i]) {
      assert SameRecord(ntop, back[i], msg.additional[i]);
      ArrivedFields(ntop, back[i].name, msg.additional[i]);
    }
    NonTsigKeepsAll(back);
    if msg.tsig.Some? {
      ArrivedFields(ntop, msg.tsig.value.name, msg.tsig.value);
      var all := back + BackTsig(ntop, msg.tsig);
      assert all[..|all| - 1] == back;
    } else {
      assert back + [] == back;
    }
  }

  /**
   Re-encode stability: encoding the decoded message gives the same bytes, and the same
   bytes again when the TSIG record is taken off both.
   */
  lemma ReencodedMessage(ntop: Ntop, msg: Message)
    requires Encodable(msg) && TsigInPlace(msg) && !msg.header.tc
    ensures var d := DecodedMessage(ntop, EncodedMessage(msg, 0).bytes);
      && d.Some?
      && EncodedMessage(d.value, 0) == EncodedMessage(msg, 0)
      && EncodedMessage(d.value.(tsig := None), 0) == EncodedMessage(msg.(tsig := None), 0)
  {
    hide EncodedMessage, BackMessage, Encodable;
    MessageComesBack(ntop, msg);
    ReencodedBack(ntop, msg);
  }

  lemma ReencodedBack(ntop: Ntop, msg: Message)
    requires Encodable(msg) && TsigInPlace(msg)
    ensures var b := BackMessage(ntop, msg);
      && EncodedMessage(b, 0) == EncodedMessage(msg, 0)
      && EncodedMessage(b.(tsig := None), 0) == EncodedMessage(msg.(tsig := None), 0)
  {
    hide Settled, Extends, PlainRecords, PlainQuestions, PlainTsig, EncodedQuestions, EncodedRrs, Arrived,
         SameRecords, SameQuestions, BackRrs, BackQuestions, NonTsig, LastTsig, EdnsOf, Flags;
    var b := BackMessage(ntop, msg);
    var e := EncodedQuestions(EMPTY, msg.questions);
    var an := EncodedRrs(e, msg.answers);
    var ns := EncodedRrs(an, msg.authority);
    var ar := EncodedRrs(ns, msg.additional);
    SectionsSettled(ntop, msg);
    BackSections(ntop, msg);
    ExtendsRefl(e.out);
    QuestionsComeBack(EMPTY, msg.questions, e.out);
    ExtendsRefl(an.out);
    RrsComeBack(ntop, e, msg.answers, an.out);
    ExtendsRefl(ns.out);
    RrsComeBack(ntop, an, msg.authority, ns.out);
    ExtendsRefl(ar.out);
    RrsComeBack(ntop, ns, msg.additional, ar.out);
    assert EncodedRecords(EncodedQuestions(EMPTY, b.questions), b) == ar;
    ReencodedTsig(ntop, ar, msg.tsig, b.tsig);
    BackLengths(ntop, msg);
    assert Flags(b.header, false) == Flags(msg.header, false) by { SameFlags(b.header, msg.header, false); }
    assert Flags(b.header, true) == Flags(msg.header, true) by { SameFlags(b.header, msg.header, true); }
  }

  lemma SameFlags(a: Header, b: Header, tc: bool)
    requires a.qr == b.qr && a.opcode == b.opcode && a.aa == b.aa && a.rd == b.rd && a.ra == b.ra
    requires a.ad == b.ad && a.cd == b.cd && a.rcode == b.rcode
    ensures Flags(a, tc) == Flags(b, tc)
  {
  }

  lemma ReencodedTsig(ntop: Ntop, e: Enc, tsig: Option<ResourceRecord>, back: Option<ResourceRecord>)
    requires TsigList(back) == BackTsig(ntop, tsig)
    ensures EncodedTsig(e, back) == EncodedTsig(e, tsig)
  {
    if tsig.Some? {
      assert back.value == BackTsig(ntop, tsig)[0];
      ArrivedFields(ntop, tsig.value.name, tsig.value);
      SameTail(back.value, tsig.value);
    }
  }

  lemma BackLengths(ntop: Ntop, msg: Message)
    requires Encodable(msg) && TsigInPlace(msg)
    ensures var b := BackMessage(ntop, msg);
      && |b.questions| == |msg.questions| && |b.answers| == |msg.answers| && |b.authority| == |msg.authority|
      && |b.additional| == |msg.additional| && b.tsig.Some? == msg.tsig.Some?
  {
    hide Encodable, Arrived, Extends, BackMessage, NonTsig, SameRecord;
    BackIsSame(ntop, msg);
    NonTsigKeepsAll(msg.additional);
    BackSections(ntop, msg);
    var n := |msg.additional|;
    if msg.tsig.Some? {
      assert Trailer(msg)[..n] == msg.additional;
      assert |BackTsig(ntop, msg.tsig)| == 1;
    }
    TsigIsSame(ntop, msg.tsig);
    BackAdditionalLength(ntop, msg);
  }

  lemma BackAdditionalLength(ntop: Ntop, msg: Message)
    requires Encodable(msg) && TsigInPlace(msg)
    ensures |BackMessage(ntop, msg).additional| == |msg.additional|
  {
    hide Extends, Arrived, NonTsig, EncodedQuestions, EncodedRrs, PlainRecords, PlainQuestions;
    var ns := EncodedRrs(EncodedRrs(EncodedQuestions(EMPTY, msg.questions), msg.answers), msg.authority);
    var ar := EncodedRrs(ns, msg.additional);
    SectionsSettled(ntop, msg);
    BackSections(ntop, msg);
    ExtendsRefl(ar.out);
    RrsComeBack(ntop, ns, msg.additional, ar.out);
  }
}
