/**
 Where the message codec ends: truncation, a preset TC bit, arbitrary input, and the label
 count at which compressed names stop coming back.
 */
module MessageLimits {
  import opened Text
  import opened DnsNames
  import opened NameCodec
  import opened Compression
  import opened NameRoundTrip
  import opened Records
  import opened Rdata
  import opened MessageCodec
  import opened MessageRoundTrip

  // ---- TC -------------------------------------------------------------------

  predicate NoRecords(msg: Message) {
    msg.answers == [] && msg.authority == [] && msg.additional == [] && msg.tsig == None
  }

  /** Header and questions with TC set: what truncation sends. */
  function QuestionsOnly(msg: Message): Message {
    Message(msg.header.(tc := true), msg.questions, [], [], [], NO_EDNS, None)
  }

  /** Any wire form that starts with the questions and a TC header yields the questions alone. */
  lemma TcComesBack(ntop: Ntop, msg: Message, e: Enc)
    requires Encodable(msg) && |e.out| >= HEADER_SIZE
    requires Extends(EncodedQuestions(EMPTY, msg.questions).out, e.out)
    ensures var d := DecodedMessage(ntop, Patched(HeaderBytes(msg, true), e));
      d.Some? && SameMessage(ntop, d.value, QuestionsOnly(msg)) && NoRecords(d.value)
  {
    hide Extends, DecodedRrs, DecodedQuestions, HeaderBytes, DecodedHeader, EncodedQuestions, PlainQuestions,
         PlainRecords, PlainTsig, SameQuestions, BackQuestions;
    var q := EncodedQuestions(EMPTY, msg.questions);
    var buf := Patched(HeaderBytes(msg, true), e);
    PatchedExtends(HeaderBytes(msg, true), e);
    ExtendsTransitive(q.out, e.out, buf);
    HeaderComesBack(msg, true, buf);
    EmptySettled();
    QuestionsComeBack(EMPTY, msg.questions, buf);
    NoRrs(ntop, buf, |q.out|);
    BareMessage(ntop, msg, DecodedQuestions(buf, HEADER_SIZE, |msg.questions|).value);
  }

  /** Header and questions without records are the same message as the questions alone. */
  lemma BareMessage(ntop: Ntop, msg: Message, questions: seq<Question>)
    requires Encodable(msg) && SameQuestions(questions, msg.questions)
    ensures var h := msg.header.(tc := true, qdcount := Wrap16(|msg.questions|), ancount := 0, nscount := 0,
                                 arcount := 0);
      SameMessage(ntop, Assembled(h, questions, [], [], []), QuestionsOnly(msg))
      && NoRecords(Assembled(h, questions, [], [], []))
  {
    hide SameQuestions, PlainQuestions, PlainRecords, PlainTsig;
  }

  lemma NoRrs(ntop: Ntop, buf: Bytes, off: nat)
    ensures DecodedRrs(ntop, buf, off, 0) == Got([], off)
  {
  }

  lemma NothingEncoded(e: Enc)
    ensures EncodedRrs(e, []) == e
  {
  }

  /**
   Truncation: the limit is exceeded exactly when `truncated` is reported; otherwise the
   full encoding is returned, and if so the wire form is that of header and questions with
   TC set, which decodes to the same questions and to empty sections.
   */
  lemma Truncation(ntop: Ntop, msg: Message, limit: nat)
    requires Encodable(msg) && !msg.header.tc && limit > 0
    ensures var w := EncodedMessage(msg, limit); var full := EncodedMessage(msg, 0).bytes;
      && (w.truncated <==> |full| > limit)
      && (!w.truncated ==> w.bytes == full && |w.bytes| <= limit)
      && (w.truncated ==>
            && w.bytes == EncodedMessage(QuestionsOnly(msg), 0).bytes
            && var d := DecodedMessage(ntop, w.bytes);
               d.Some? && SameMessage(ntop, d.value, QuestionsOnly(msg)) && NoRecords(d.value))
  {
    hide Extends, DecodedMessage, SameMessage, EncodedQuestions, EncodedRrs, Encodable, Flags;
    SectionsContinue(msg, true);
    SectionsContinue(msg, false);
    PatchedExtends(HeaderBytes(msg, false), EncodedSections(msg, true));
    var q := EncodedSections(msg, false);
    ExtendsRefl(q.out);
    TcComesBack(ntop, msg, q);
    NothingEncoded(q);
    assert EncodedSections(QuestionsOnly(msg), true) == q;
    SameFlags(QuestionsOnly(msg).header, msg.header, true);
  }

  /**
   A message comes back from its full encoding if and only if it has no records or its TC
   bit is clear: with TC set the counts are zero although the records are written.
   */
  lemma RoundTripIffNotTc(ntop: Ntop, msg: Message)
    requires Encodable(msg)
    ensures var d := DecodedMessage(ntop, EncodedMessage(msg, 0).bytes);
      && d.Some?
      && (SameMessage(ntop, d.value, msg) <==> !msg.header.tc || NoRecords(msg))
  {
    hide Extends, DecodedMessage, EncodedQuestions, EncodedRrs, Encodable, SameQuestions, SameRecord;
    SectionsContinue(msg, true);
    if msg.header.tc {
      TcSectionsExtend(ntop, msg);
      TcComesBack(ntop, msg, EncodedSections(msg, true));
      var d := DecodedMessage(ntop, EncodedMessage(msg, 0).bytes);
      if SameMessage(ntop, d.value, msg) {
        EncodableCounts(msg);
        assert d.value.header.ancount == |msg.answers| && d.value.header.nscount == |msg.authority|;
        assert d.value.header.arcount == |Trailer(msg)|;
      }
    } else {
      RoundTrip(ntop, msg);
    }
  }

  lemma TcSectionsExtend(ntop: Ntop, msg: Message)
    requires Encodable(msg)
    ensures Extends(EncodedQuestions(EMPTY, msg.questions).out, EncodedSections(msg, true).out)
  {
    var e := EncodedQuestions(EMPTY, msg.questions);
    var an := EncodedRrs(e, msg.answers);
    var ns := EncodedRrs(an, msg.authority);
    var ar := EncodedRrs(ns, msg.additional);
    RrsContinue(e, msg.answers);
    RrsContinue(an, msg.authority);
    RrsContinue(ns, msg.additional);
    ContinuesTransitive(e.out, an.out, ns.out);
    ContinuesTransitive(e.out, ns.out, ar.out);
    ContinuesTransitive(e.out, ar.out, EncodedTsig(ar, msg.tsig).out);
    PrefixExtends(e.out, EncodedTsig(ar, msg.tsig).out);
  }

  // ---- Arbitrary input ------------------------------------------------------

  lemma {:induction false} QuestionsMoveOn(input: Bytes, off: nat, n: nat)
    requires off <= |input| && DecodedQuestions(input, off, n).Got?
    ensures var r := DecodedQuestions(input, off, n); off + 5 * n <= r.next <= |input| && |r.value| == n
    decreases n
  {
    hide DecodedQuestion;
    if n > 0 {
      QuestionsMoveOn(input, DecodedQuestion(input, off).next, n - 1);
    }
  }

  lemma {:induction false} RrsMoveOn(ntop: Ntop, input: Bytes, off: nat, n: nat)
    requires off <= |input| && DecodedRrs(ntop, input, off, n).Got?
    ensures var r := DecodedRrs(ntop, input, off, n); off + 11 * n <= r.next <= |input| && |r.value| == n
    decreases n
  {
    hide DecodedRr;
    if n > 0 {
      RrsMoveOn(ntop, input, DecodedRr(ntop, input, off).next, n - 1);
    }
  }

  function CountTsig(rrs: seq<ResourceRecord>): nat {
    if rrs == [] then 0
    else CountTsig(rrs[..|rrs| - 1]) + if IsTsig(rrs[|rrs| - 1]) then 1 else 0
  }

  lemma {:induction false} NonTsigLength(rrs: seq<ResourceRecord>)
    ensures |NonTsig(rrs)| + CountTsig(rrs) == |rrs| && NoTsigIn(NonTsig(rrs))
    ensures LastTsig(rrs).Some? <==> CountTsig(rrs) > 0
    decreases |rrs|
  {
    if rrs != [] {
      NonTsigLength(rrs[..|rrs| - 1]);
    }
  }

  /**
   Every accepted input is large enough for its counts, its sections have the announced
   lengths, and TSIG records are counted in but not kept in the additional section.
   */
  lemma AcceptedFits(ntop: Ntop, input: Bytes)
    requires DecodedMessage(ntop, input).Some?
    ensures var m := DecodedMessage(ntop, input).value; var h := m.header;
      && HEADER_SIZE + 5 * h.qdcount + 11 * (h.ancount + h.nscount + h.arcount) <= |input|
      && |m.questions| == h.qdcount && |m.answers| == h.ancount && |m.authority| == h.nscount
      && |m.additional| <= h.arcount && NoTsigIn(m.additional)
      && (m.tsig.Some? <==> |m.additional| < h.arcount)
  {
    hide DecodedQuestions, DecodedRrs, NonTsig, LastTsig, EdnsOf, CountTsig;
    var h := DecodedHeader(input);
    var qd := DecodedQuestions(input, HEADER_SIZE, h.qdcount);
    var an := DecodedRrs(ntop, input, qd.next, h.ancount);
    QuestionsMoveOn(input, HEADER_SIZE, h.qdcount);
    RrsMoveOn(ntop, input, qd.next, h.ancount);
    var ns := DecodedRrs(ntop, input, an.next, h.nscount);
    RrsMoveOn(ntop, input, an.next, h.nscount);
    RrsMoveOn(ntop, input, ns.next, h.arcount);
    NonTsigLength(DecodedRrs(ntop, input, ns.next, h.arcount).value);
  }

  /**
   Offsets that only lead to one another: none of them holds the end of a name, pointers
   stay among them, and so does what follows a label.  Every cycle of pointers, with or
   without labels on the way, is such a set.
   */
  predicate LeadsNowhere(input: Bytes, offsets: set<nat>) {
    forall p :: p in offsets && p < |input| ==>
      && input[p] != 0
      && (input[p] >= 0xC0 && p + 1 < |input| ==> Word(input[p] - 0xC0, input[p + 1]) in offsets)
      && (input[p] < 0x40 ==> p + 1 + input[p] in offsets)
  }

  /** A name that runs into a cycle is refused, whatever labels were collected before. */
  lemma {:induction false} CycleRefused(input: Bytes, offsets: set<nat>, pos: nat, labels: Name, jumps: nat)
    requires LeadsNowhere(input, offsets) && pos in offsets && jumps <= MAX_JUMPS
    ensures DecodedFrom(input, pos, labels, jumps) == Fail
    decreases MAX_JUMPS - jumps, |input| - pos
  {
    hide Reparsed;
    if pos < |input| {
      var len := input[pos];
      if len >= 0xC0 && pos + 1 < |input| && jumps < MAX_JUMPS {
        CycleRefused(input, offsets, Word(len - 0xC0, input[pos + 1]), [], jumps + 1);
      } else if len < 0x40 && pos + 1 + len <= |input| {
        CycleRefused(input, offsets, pos + 1 + len, labels + [input[pos + 1..pos + 1 + len]], jumps);
      }
    }
  }

  lemma CyclicNameRefused(input: Bytes, offsets: set<nat>, pos: nat, jumps: nat)
    requires LeadsNowhere(input, offsets) && pos in offsets
    ensures DecodedName(input, pos, jumps) == Fail
  {
    if jumps <= MAX_JUMPS {
      CycleRefused(input, offsets, pos, [], jumps);
    }
  }

  // ---- The label limit ------------------------------------------------------

  const LETTER: Str := [97]

  /** The name a.a. ... .a of n labels. */
  function Copies(n: nat): (r: Name)
    ensures |r| == n && PlainName(r)
  {
    if n == 0 then [] else [LETTER] + Copies(n - 1)
  }

  /** Questions for a, a.a, and so on up to n labels. */
  function Ladder(n: nat): seq<Question> {
    if n == 0 then [] else Ladder(n - 1) + [Question(Copies(n), TYPE_A, CLASS_IN)]
  }

  /** The offset of the entry for k labels after encoding the ladder. */
  function Rung(k: nat): nat {
    if k <= 1 then HEADER_SIZE else 8 * k + 3
  }

  /** The table and the bytes that the ladder leaves behind. */
  ghost predicate LadderState(e: Enc, n: nat) {
    && |e.out| == Rung(n + 1)
    && (forall k: nat :: 1 <= k <= n ==> SuffixKey(Copies(k)) in e.table && e.table[SuffixKey(Copies(k))] == Rung(k))
    && (forall k: nat :: n < k ==> SuffixKey(Copies(k)) !in e.table)
    && Climbs(e.out, n)
  }

  /** Every rung above the first is one label followed by a pointer to the rung below. */
  predicate Climbs(buf: Bytes, n: nat) {
    forall k: nat :: 2 <= k <= n ==> RungAt(buf, k)
  }

  predicate RungAt(buf: Bytes, k: nat)
    requires k >= 2
  {
    && Rung(k) + 4 <= |buf| && buf[Rung(k)] == 1
    && buf[Rung(k) + 2] >= 0xC0 && Word(buf[Rung(k) + 2] - 0xC0, buf[Rung(k) + 3]) == Rung(k - 1)
  }

  lemma LadderKeys(a: nat, b: nat)
    requires SuffixKey(Copies(a)) == SuffixKey(Copies(b))
    ensures a == b
  {
    SuffixKeyInjective(Copies(a), Copies(b));
    SameLabelCount(Copies(a), Copies(b));
  }

  /** The keys after one more name of the ladder. */
  lemma LadderTable(e: Enc, n: nat)
    requires LadderState(e, n) && n <= 30
    ensures SuffixKey(Copies(n + 1)) !in e.table
    ensures var table := FirstLabel(e, Copies(n + 1)).table;
      && (forall k: nat :: 1 <= k <= n + 1 ==> SuffixKey(Copies(k)) in table && table[SuffixKey(Copies(k))] == Rung(k))
      && (forall k: nat :: n + 1 < k ==> SuffixKey(Copies(k)) !in table)
  {
    hide SuffixKey, Climbs;
    forall k: nat | 1 <= k <= n || n + 1 < k ensures SuffixKey(Copies(k)) != SuffixKey(Copies(n + 1)) {
      if SuffixKey(Copies(k)) == SuffixKey(Copies(n + 1)) { LadderKeys(k, n + 1); }
    }
  }

  lemma LadderStep(e: Enc, n: nat)
    requires LadderState(e, n) && n <= 30
    ensures LadderState(EncodedQuestion(e, Question(Copies(n + 1), TYPE_A, CLASS_IN)), n + 1)
  {
    hide SuffixKey, Climbs;
    var name := Copies(n + 1);
    assert name[0] == LETTER && name[1..] == Copies(n);
    LadderTable(e, n);
    var mid := FirstLabel(e, name);
    var end := if n > 0 then Put16(0xC000 + Rung(n)) else [0];
    assert EncodedName(e, name) == EncodedName(mid, Copies(n));
    assert n > 0 ==> Copies(n) != [] && mid.table[SuffixKey(Copies(n))] == Rung(n);
    assert EncodedName(mid, Copies(n)).enc == Appended(mid, end);
    var out := EncodedQuestion(e, Question(name, TYPE_A, CLASS_IN)).out;
    assert out == e.out + [1] + LETTER + end + (Put16(TYPE_A) + Put16(CLASS_IN));
    ClimbsOn(e.out, n, out);
  }

  lemma ClimbsOn(before: Bytes, n: nat, out: Bytes)
    requires Climbs(before, n) && |before| == Rung(n + 1) && n <= 30
    requires out == before + [1] + LETTER + (if n > 0 then Put16(0xC000 + Rung(n)) else [0])
                    + (Put16(TYPE_A) + Put16(CLASS_IN))
    ensures Climbs(out, n + 1)
  {
    if n > 0 {
      RungWritten(before, n + 1, out);
    }
    forall k: nat | 2 <= k <= n ensures RungAt(out, k) {
      assert RungAt(before, k);
    }
  }

  lemma RungWritten(before: Bytes, k: nat, out: Bytes)
    requires 2 <= k <= 31 && |before| == Rung(k)
    requires out == before + [1] + LETTER + Put16(0xC000 + Rung(k - 1)) + (Put16(TYPE_A) + Put16(CLASS_IN))
    ensures RungAt(out, k)
  {
    var p := Put16(0xC000 + Rung(k - 1));
    assert out[Rung(k)] == 1 && out[Rung(k) + 2] == p[0] && out[Rung(k) + 3] == p[1];
    BigEndianTwo(p[0] - 0xC0, p[1]);
  }

  lemma {:induction false} EncodedQuestionsSnoc(e: Enc, qs: seq<Question>, q: Question)
    ensures EncodedQuestions(e, qs + [q]) == EncodedQuestion(EncodedQuestions(e, qs), q)
    decreases |qs|
  {
    hide EncodedQuestion;
    if qs == [] {
      assert [q][1..] == [] && qs + [q] == [q];
    } else {
      assert (qs + [q])[1..] == qs[1..] + [q];
      EncodedQuestionsSnoc(EncodedQuestion(e, qs[0]), qs[1..], q);
    }
  }

  lemma {:induction false} LadderEncoded(n: nat)
    requires n <= 30
    ensures LadderState(EncodedQuestions(EMPTY, Ladder(n)), n)
  {
    if n > 0 {
      LadderEncoded(n - 1);
      EncodedQuestionsSnoc(EMPTY, Ladder(n - 1), Question(Copies(n), TYPE_A, CLASS_IN));
      LadderStep(EncodedQuestions(EMPTY, Ladder(n - 1)), n - 1);
    }
  }

  /** Starting k rungs up with j jumps made, the decoder gives up when j + k - 1 exceeds the limit. */
  lemma {:induction false} TooDeep(buf: Bytes, k: nat, labels: Name, jumps: nat)
    requires 1 <= k && Climbs(buf, k) && jumps <= MAX_JUMPS < jumps + k - 1
    ensures DecodedFrom(buf, Rung(k), labels, jumps) == Fail
    decreases k
  {
    hide Reparsed;
    assert RungAt(buf, k);
    DecodedLabel(buf, Rung(k), labels, jumps);
    if jumps < MAX_JUMPS {
      TooDeep(buf, k - 1, [], jumps + 1);
    }
  }

  lemma {:induction false} DecodedQuestionsSplit(buf: Bytes, off: nat, n: nat, m: nat)
    requires DecodedQuestions(buf, off, n).Got?
    ensures var first := DecodedQuestions(buf, off, n);
            DecodedQuestions(buf, off, n + m) == After(first.value, DecodedQuestions(buf, first.next, m))
    decreases n
  {
    hide DecodedQuestion;
    var first := DecodedQuestions(buf, off, n);
    if n == 0 {
      AfterTwice([], [], DecodedQuestions(buf, off, m));
    } else {
      var q := DecodedQuestion(buf, off);
      var rest := DecodedQuestions(buf, q.next, n - 1);
      DecodedQuestionsSplit(buf, q.next, n - 1, m);
      AfterTwice([q.value], rest.value, DecodedQuestions(buf, first.next, m));
    }
  }

  function Asking(qs: seq<Question>): Message {
    Message(QUERY_HEADER, qs, [], [], [], NO_EDNS, None)
  }

  /** The ladder up to 21 labels, and the longest name once more. */
  function TooTall(): seq<Question> {
    Ladder(MAX_JUMPS + 1) + [Question(Copies(MAX_JUMPS + 1), TYPE_A, CLASS_IN)]
  }

  lemma {:induction false} LadderPlain(n: nat)
    ensures |Ladder(n)| == n && forall i :: 0 <= i < n ==> Ladder(n)[i].qname == Copies(i + 1)
  {
    if n > 0 {
      LadderPlain(n - 1);
    }
  }

  /** The last two questions of the tall ladder cannot both be read. */
  lemma TooTallFails(buf: Bytes)
    requires Climbs(buf, MAX_JUMPS + 1)
    requires Rung(MAX_JUMPS + 2) + 2 <= |buf| && buf[Rung(MAX_JUMPS + 2)] >= 0xC0
    requires Word(buf[Rung(MAX_JUMPS + 2)] - 0xC0, buf[Rung(MAX_JUMPS + 2) + 1]) == Rung(MAX_JUMPS + 1)
    ensures DecodedQuestions(buf, Rung(MAX_JUMPS + 1), 2) == Fail
  {
    hide Reparsed;
    var top := MAX_JUMPS + 1;
    assert RungAt(buf, top);
    TooDeep(buf, top, [], 1);
    assert DecodedName(buf, Rung(top + 1), 0) == Fail;
    DecodedLabel(buf, Rung(top), [], 0);
    var q := DecodedQuestion(buf, Rung(top));
    assert q.Got? ==> q.next == Rung(top + 1);
    assert q.Got? ==> DecodedQuestions(buf, q.next, 1) == Fail;
  }

  lemma TooTallWire(buf: Bytes)
    requires Extends(EncodedQuestions(EMPTY, TooTall()).out, buf)
    ensures DecodedQuestions(buf, HEADER_SIZE, |TooTall()|) == Fail
  {
    hide Extends, DecodedQuestions, EncodedQuestions, EncodedQuestion, Ladder, Climbs;
    var n := MAX_JUMPS + 1;
    var last := Question(Copies(n), TYPE_A, CLASS_IN);
    var e := EncodedQuestions(EMPTY, Ladder(n));
    LadderEncoded(n);
    LadderPlain(n);
    EncodedQuestionsSnoc(EMPTY, Ladder(n), last);
    LastPointer(e, n, buf);
    LadderClimbs(e, n, buf);
    TooTallFails(buf);
    LowRungsRead(buf);
    DecodedQuestionsSplit(buf, HEADER_SIZE, n - 1, 2);
  }

  /** The questions of up to twenty labels are read, up to the rung of the first one that is not. */
  lemma LowRungsRead(buf: Bytes)
    requires Extends(EncodedQuestions(EMPTY, TooTall()).out, buf)
    ensures DecodedQuestions(buf, HEADER_SIZE, MAX_JUMPS).Got?
    ensures DecodedQuestions(buf, HEADER_SIZE, MAX_JUMPS).next == Rung(MAX_JUMPS + 1)
  {
    hide Extends, DecodedQuestions, EncodedQuestions, EncodedQuestion, Ladder, Settled, Climbs, SameQuestion;
    var n := MAX_JUMPS + 1;
    var last := Question(Copies(n), TYPE_A, CLASS_IN);
    var low := EncodedQuestions(EMPTY, Ladder(n - 1));
    LadderEncoded(n - 1);
    LadderPlain(n - 1);
    LadderSnoc(n);
    EncodedQuestionsSnoc(EMPTY, Ladder(n - 1), last);
    EncodedQuestionsSnoc(EMPTY, Ladder(n), last);
    LowExtends(low, last, EncodedQuestions(EMPTY, Ladder(n)), buf);
    EmptySettled();
    QuestionsComeBack(EMPTY, Ladder(n - 1), buf);
  }

  lemma LadderSnoc(n: nat)
    requires n > 0
    ensures Ladder(n) == Ladder(n - 1) + [Question(Copies(n), TYPE_A, CLASS_IN)]
  {
  }

  lemma LowExtends(low: Enc, q: Question, e: Enc, buf: Bytes)
    requires e == EncodedQuestion(low, q) && Extends(EncodedQuestion(e, q).out, buf)
    ensures Extends(low.out, buf)
  {
    var mid := EncodedName(low, q.qname).enc.out;
    ContinuesTransitive(low.out, mid, e.out);
    var top := EncodedName(e, q.qname).enc.out;
    ContinuesTransitive(low.out, e.out, top);
    ContinuesTransitive(low.out, top, EncodedQuestion(e, q).out);
    PrefixExtends(low.out, EncodedQuestion(e, q).out);
    ExtendsTransitive(low.out, EncodedQuestion(e, q).out, buf);
  }

  lemma KnownIsPointer(e: Enc, labels: Name)
    requires labels != [] && SuffixKey(labels) in e.table && e.table[SuffixKey(labels)] < OFFSET_LIMIT
    ensures EncodedName(e, labels).enc.out == e.out + Put16(0xC000 + e.table[SuffixKey(labels)])
  {
    hide SuffixKey, Put16;
  }

  lemma LastPointer(e: Enc, n: nat, buf: Bytes)
    requires 2 <= n <= 30 && LadderState(e, n)
    requires Extends(EncodedQuestion(e, Question(Copies(n), TYPE_A, CLASS_IN)).out, buf)
    ensures Rung(n + 1) + 2 <= |buf| && buf[Rung(n + 1)] >= 0xC0
    ensures Word(buf[Rung(n + 1)] - 0xC0, buf[Rung(n + 1) + 1]) == Rung(n)
  {
    hide SuffixKey, EncodedName, QuestionTail, BigEndian;
    var p := Put16(0xC000 + Rung(n));
    var out := EncodedQuestion(e, Question(Copies(n), TYPE_A, CLASS_IN)).out;
    assert SuffixKey(Copies(n)) in e.table && e.table[SuffixKey(Copies(n))] == Rung(n);
    KnownIsPointer(e, Copies(n));
    assert out[Rung(n + 1)] == p[0] && out[Rung(n + 1) + 1] == p[1];
    BigEndianTwo(p[0] - 0xC0, p[1]);
  }

  lemma LadderClimbs(e: Enc, n: nat, buf: Bytes)
    requires LadderState(e, n) && Extends(EncodedQuestion(e, Question(Copies(n), TYPE_A, CLASS_IN)).out, buf)
    ensures Climbs(buf, n)
  {
    hide Word, SuffixKey, EncodedName, QuestionTail, Extends;
    var q := Question(Copies(n), TYPE_A, CLASS_IN);
    PrefixExtends(e.out, EncodedQuestion(e, q).out);
    ExtendsTransitive(e.out, EncodedQuestion(e, q).out, buf);
    forall k: nat | 2 <= k <= n ensures RungAt(buf, k) { RungStays(e.out, buf, k); }
  }

  lemma RungStays(a: Bytes, b: Bytes, k: nat)
    requires k >= 2 && RungAt(a, k) && Extends(a, b)
    ensures RungAt(b, k)
  {
    hide Word;
  }

  predicate ShortNames(qs: seq<Question>, limit: nat) {
    |qs| < 0x1_0000 && forall i :: 0 <= i < |qs| ==> PlainName(qs[i].qname) && |qs[i].qname| <= limit
  }

  predicate Readable(ntop: Ntop, qs: seq<Question>) {
    DecodedMessage(ntop, EncodedMessage(Asking(qs), 0).bytes).Some?
  }

  /**
   Twenty labels is the exact limit: one jump per label is the worst the table can do, and
   the first limit above twenty already admits a message that cannot be read back.
   */
  lemma TwentyLabels(ntop: Ntop, limit: nat)
    ensures (forall qs :: ShortNames(qs, limit) ==> Readable(ntop, qs)) <==> limit <= 20
  {
    hide Readable;
    if limit <= MAX_JUMPS {
      forall qs | ShortNames(qs, limit) ensures Readable(ntop, qs) {
        ShortIsReadable(ntop, qs);
      }
    } else {
      TooTallRefused(ntop);
      TallNames();
      assert ShortNames(TooTall(), limit);
    }
  }

  lemma ShortIsReadable(ntop: Ntop, qs: seq<Question>)
    requires ShortNames(qs, MAX_JUMPS)
    ensures Readable(ntop, qs)
  {
    hide SameMessage;
    RoundTrip(ntop, Asking(qs));
  }

  lemma TallNames()
    ensures ShortNames(TooTall(), MAX_JUMPS + 1)
  {
    hide PlainName, Ladder;
    LadderPlain(MAX_JUMPS + 1);
  }

  lemma TooTallRefused(ntop: Ntop)
    ensures !Readable(ntop, TooTall())
  {
    hide Extends, DecodedQuestions, DecodedRrs, EncodedQuestions, Ladder, DecodedHeader, HeaderBytes;
    var msg := Asking(TooTall());
    LadderPlain(MAX_JUMPS + 1);
    SectionsContinue(msg, true);
    var e := EncodedQuestions(EMPTY, TooTall());
    NothingEncoded(e);
    assert EncodedSections(msg, true) == e;
    var header := HeaderBytes(msg, false);
    var buf := Patched(header, e);
    PatchedExtends(header, e);
    HeaderComesBack(msg, false, buf);
    TooTallWire(buf);
  }
}
