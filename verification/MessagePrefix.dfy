/**
 Cut wire forms: reading looks no further than where it ends, so what decodes from a prefix
 decodes in the same way from the whole, and no strict prefix of a wire form decodes.
 */
module MessagePrefix {
  import opened DnsNames
  import opened NameCodec
  import opened Records
  import opened Rdata
  import opened MessageCodec
  import opened MessageRoundTrip
  import opened MessageLimits

  lemma {:induction false} NamePrefix(a: Bytes, b: Bytes, pos: nat, labels: Name, jumps: nat)
    requires a <= b && jumps <= MAX_JUMPS && DecodedFrom(a, pos, labels, jumps).Got?
    ensures DecodedFrom(b, pos, labels, jumps) == DecodedFrom(a, pos, labels, jumps)
    decreases MAX_JUMPS - jumps, |a| - pos
  {
    hide Reparsed;
    var len := a[pos];
    if len >= 0xC0 {
      NamePrefix(a, b, Word(len - 0xC0, a[pos + 1]), [], jumps + 1);
    } else if len > 0 {
      assert a[pos + 1..pos + 1 + len] == b[pos + 1..pos + 1 + len];
      NamePrefix(a, b, pos + 1 + len, labels + [a[pos + 1..pos + 1 + len]], jumps);
    }
  }

  lemma DecodedNamePrefix(a: Bytes, b: Bytes, pos: nat)
    requires a <= b && DecodedName(a, pos, 0).Got?
    ensures DecodedName(b, pos, 0) == DecodedName(a, pos, 0)
  {
    hide DecodedFrom;
    NamePrefix(a, b, pos, [], 0);
  }

  lemma WordPrefix(a: Bytes, b: Bytes, off: nat)
    requires a <= b
    ensures Get16(a, off).Got? ==> Get16(b, off) == Get16(a, off)
    ensures Get32(a, off).Got? ==> Get32(b, off) == Get32(a, off)
  {
  }

  lemma QuestionPrefix(a: Bytes, b: Bytes, off: nat)
    requires a <= b && DecodedQuestion(a, off).Got?
    ensures DecodedQuestion(b, off) == DecodedQuestion(a, off)
  {
    hide DecodedName, Get16;
    DecodedNamePrefix(a, b, off);
    var next := DecodedName(a, off, 0).next;
    WordPrefix(a, b, next);
    WordPrefix(a, b, Get16(a, next).next);
  }

  lemma {:induction false} QuestionsPrefix(a: Bytes, b: Bytes, off: nat, n: nat)
    requires a <= b && DecodedQuestions(a, off, n).Got?
    ensures DecodedQuestions(b, off, n) == DecodedQuestions(a, off, n)
    decreases n
  {
    hide DecodedQuestion;
    if n > 0 {
      QuestionPrefix(a, b, off);
      QuestionsPrefix(a, b, DecodedQuestion(a, off).next, n - 1);
    }
  }

  lemma RrPrefix(ntop: Ntop, a: Bytes, b: Bytes, off: nat)
    requires a <= b && DecodedRr(ntop, a, off).Got?
    ensures DecodedRr(ntop, b, off) == DecodedRr(ntop, a, off)
  {
    hide DecodedName, Get16, Get32, Arrived;
    DecodedNamePrefix(a, b, off);
    var t := DecodedName(a, off, 0).next;
    WordPrefix(a, b, t);
    var c := Get16(a, t).next;
    WordPrefix(a, b, c);
    var ttl := Get16(a, c).next;
    WordPrefix(a, b, ttl);
    var len := Get32(a, ttl).next;
    WordPrefix(a, b, len);
    var start := Get16(a, len).next;
    var end := start + Get16(a, len).value;
    assert a[start..end] == b[start..end];
  }

  lemma {:induction false} RrsPrefix(ntop: Ntop, a: Bytes, b: Bytes, off: nat, n: nat)
    requires a <= b && DecodedRrs(ntop, a, off, n).Got?
    ensures DecodedRrs(ntop, b, off, n) == DecodedRrs(ntop, a, off, n)
    decreases n
  {
    hide DecodedRr;
    if n > 0 {
      RrPrefix(ntop, a, b, off);
      RrsPrefix(ntop, a, b, DecodedRr(ntop, a, off).next, n - 1);
    }
  }

  /** Where reading a message ends, if it can be read. */
  function MessageEnd(ntop: Ntop, input: Bytes): nat
    requires DecodedMessage(ntop, input).Some?
  {
    var h := DecodedHeader(input);
    var qd := DecodedQuestions(input, HEADER_SIZE, h.qdcount);
    var an := DecodedRrs(ntop, input, qd.next, h.ancount);
    var ns := DecodedRrs(ntop, input, an.next, h.nscount);
    DecodedRrs(ntop, input, ns.next, h.arcount).next
  }

  lemma HeaderPrefix(a: Bytes, b: Bytes)
    requires a <= b && |a| >= HEADER_SIZE
    ensures DecodedHeader(b) == DecodedHeader(a)
  {
    hide Get16, Shr;
    WordPrefix(a, b, 0);
    WordPrefix(a, b, 2);
    WordPrefix(a, b, 4);
    WordPrefix(a, b, 6);
    WordPrefix(a, b, 8);
    WordPrefix(a, b, 10);
  }

  /** What decodes from a prefix decodes in the same way from the whole, and ends inside the prefix. */
  lemma PrefixDecodes(ntop: Ntop, a: Bytes, b: Bytes)
    requires a <= b && DecodedMessage(ntop, a).Some?
    ensures DecodedMessage(ntop, b) == DecodedMessage(ntop, a)
    ensures MessageEnd(ntop, b) == MessageEnd(ntop, a) <= |a|
  {
    hide DecodedHeader, DecodedQuestions, DecodedRrs, Assembled;
    HeaderPrefix(a, b);
    var h := DecodedHeader(a);
    var qd := DecodedQuestions(a, HEADER_SIZE, h.qdcount);
    QuestionsPrefix(a, b, HEADER_SIZE, h.qdcount);
    QuestionsMoveOn(a, HEADER_SIZE, h.qdcount);
    var an := DecodedRrs(ntop, a, qd.next, h.ancount);
    RrsPrefix(ntop, a, b, qd.next, h.ancount);
    RrsMoveOn(ntop, a, qd.next, h.ancount);
    var ns := DecodedRrs(ntop, a, an.next, h.nscount);
    RrsPrefix(ntop, a, b, an.next, h.nscount);
    RrsMoveOn(ntop, a, an.next, h.nscount);
    RrsPrefix(ntop, a, b, ns.next, h.arcount);
    RrsMoveOn(ntop, a, ns.next, h.arcount);
  }

  /** The wire form of an encodable message is read to its very end. */
  lemma WireIsReadToTheEnd(ntop: Ntop, msg: Message)
    requires Encodable(msg) && !msg.header.tc
    ensures var wire := EncodedMessage(msg, 0).bytes;
      DecodedMessage(ntop, wire).Some? && MessageEnd(ntop, wire) == |wire|
  {
    hide Encodable, DecodedRrs, DecodedQuestions, EncodedSections, HeaderBytes, BackQuestions, BackRrs,
         BackTsig, NonTsig, LastTsig, EdnsOf, DecodedHeader, EncodedQuestions, EncodedRrs;
    MessageComesBack(ntop, msg);
    SectionsContinue(msg, true);
    SectionsContinue(msg, false);
    var e := EncodedSections(msg, true);
    var header := HeaderBytes(msg, false);
    var buf := Patched(header, e);
    PatchedExtends(header, e);
    EncodableCounts(msg);
    HeaderComesBack(msg, false, buf);
    SectionsComeBack(ntop, msg, buf);
  }

  /** No strict prefix of the wire form of an encodable message decodes. */
  lemma CutWireIsRefused(ntop: Ntop, msg: Message, n: nat)
    requires Encodable(msg) && !msg.header.tc && n < |EncodedMessage(msg, 0).bytes|
    ensures DecodedMessage(ntop, EncodedMessage(msg, 0).bytes[..n]).None?
  {
    hide Encodable, EncodedMessage, DecodedMessage, MessageEnd;
    var wire := EncodedMessage(msg, 0).bytes;
    WireIsReadToTheEnd(ntop, msg);
    if DecodedMessage(ntop, wire[..n]).Some? {
      PrefixDecodes(ntop, wire[..n], wire);
    }
  }
}
