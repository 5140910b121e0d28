/**
 Messages whose first question asks for a name that need not be plain: what such a name
 becomes on its way, and that it does not disturb the plain names behind it.
 */
module FirstNames {
  import opened Text
  import opened DnsNames
  import opened NameCodec
  import opened Compression
  import opened NameRoundTrip
  import opened Records
  import opened Rdata
  import opened MessageCodec
  import opened MessageRoundTrip
  import opened Store

  // ---- Names on the wire --------------------------------------------------------------------

  /** Labels that fit the wire: not empty, and at most 63 bytes long. */
  predicate WireName(n: Name) {
    forall i :: 0 <= i < |n| ==> 1 <= |n[i]| <= MAX_LABEL
  }

  lemma WireIsWritten(n: Name)
    requires WireName(n)
    ensures ProperName(n) && UncompressedName(n).1
  {
    UncompressedOk(n);
  }

  /** One step at a literal label. */
  lemma RawLabel(buf: Bytes, pos: nat, first: Str, j: nat)
    requires 1 <= |first| <= MAX_LABEL && At(buf, pos, [|first|] + first)
    requires Raw(buf, pos + 1 + |first|, j).Got?
    ensures var rest := Raw(buf, pos + 1 + |first|, j);
      Raw(buf, pos, j) == Got([first] + rest.value, rest.next)
  {
    hide Word, Reparsed;
    LabelStands(buf, pos, first);
  }

  lemma RawEnd(buf: Bytes, pos: nat, j: nat)
    requires At(buf, pos, [0])
    ensures Raw(buf, pos, j) == Got([], pos + 1)
  {
    assert buf[pos..pos + 1][0] == 0;
  }

  /** The labels of an uncompressed name are what is collected where it stands. */
  lemma {:induction false} LiteralRaw(buf: Bytes, pos: nat, n: Name, j: nat)
    requires WireName(n) && At(buf, pos, UncompressedName(n).0)
    ensures Raw(buf, pos, j) == Got(n, pos + |UncompressedName(n).0|)
    decreases |n|
  {
    hide Raw, At;
    WireIsWritten(n);
    if n == [] {
      RawEnd(buf, pos, j);
    } else {
      var rest := UncompressedName(n[1..]).0;
      AtSplit(buf, pos, [|n[0]|] + n[0], rest);
      LiteralRaw(buf, pos + 1 + |n[0]|, n[1..], j);
      RawLabel(buf, pos, n[0], j);
      assert [n[0]] + n[1..] == n;
    }
  }

  // ---- Lower case ---------------------------------------------------------------------------

  lemma {:induction false} TrimLeftLower(s: Str)
    ensures TrimLeft(Lowered(s)) == Lowered(TrimLeft(s))
  {
    if s != [] && IsSpace(s[0]) {
      assert Lowered(s)[1..] == Lowered(s[1..]);
      TrimLeftLower(s[1..]);
    }
  }

  lemma {:induction false} TrimRightLower(s: Str)
    ensures TrimRight(Lowered(s)) == Lowered(TrimRight(s))
  {
    if s != [] && IsSpace(s[|s| - 1]) {
      assert Lowered(s)[..|s| - 1] == Lowered(s[..|s| - 1]);
      TrimRightLower(s[..|s| - 1]);
    }
  }

  lemma {:induction false} ScanLower(s: Str, cur: Str)
    ensures Scan(Lowered(s), Lowered(cur)) == LowerName(Scan(s, cur))
    decreases |s|
  {
    if s == [] {
    } else if s[0] == BACKSLASH && |s| > 1 {
      assert Lowered(s)[2..] == Lowered(s[2..]) && Lowered(cur + [s[1]]) == Lowered(cur) + [LowerByte(s[1])];
      ScanLower(s[2..], cur + [s[1]]);
    } else if s[0] == DOT {
      assert Lowered(s)[1..] == Lowered(s[1..]) && Lowered([]) == [];
      ScanLower(s[1..], []);
      LowerNameConcat(if cur == [] then [] else [cur], Scan(s[1..], []));
    } else {
      assert Lowered(s)[1..] == Lowered(s[1..]) && Lowered(cur + [s[0]]) == Lowered(cur) + [LowerByte(s[0])];
      ScanLower(s[1..], cur + [s[0]]);
    }
  }

  lemma TrimmedLower(s: Str)
    ensures Trimmed(Lowered(s)) == Lowered(Trimmed(s))
  {
    hide TrimLeft, TrimRight;
    TrimLeftLower(s);
    TrimRightLower(TrimLeft(s));
  }

  lemma LowerDots(t: Str)
    ensures Lowered(t) == [] <==> t == []
    ensures Lowered(t) == [DOT] <==> t == [DOT]
    ensures t != [] ==> Lowered(t)[|t| - 1] == LowerByte(t[|t| - 1])
    ensures t != [] ==> Lowered(t)[..|t| - 1] == Lowered(t[..|t| - 1])
  {
    if Lowered(t) == [DOT] {
      assert t[0] == DOT;
    }
  }

  /** Parsing commutes with lower case. */
  lemma ParsedLower(s: Str)
    ensures ParsedName(Lowered(s)) == LowerName(ParsedName(s))
  {
    hide Scan, Trimmed, Lowered;
    TrimmedLower(s);
    var t := Trimmed(s);
    LowerDots(t);
    LowerDots([]);
    if t != [] && t != [DOT] {
      ScanLower(if t[|t| - 1] == DOT then t[..|t| - 1] else t, []);
    }
  }

  lemma ReparsedLower(n: Name)
    ensures Reparsed(LowerName(n)) == LowerName(Reparsed(n))
  {
    hide ParsedName, Joined;
    LoweredJoined(n);
    LoweredConcat(Joined(n, [DOT]), [DOT]);
    assert Lowered([DOT]) == [DOT];
    ParsedLower(Joined(n, [DOT]) + [DOT]);
  }

  // ---- The first name is written ------------------------------------------------------------

  lemma KeyLabelsLower(n: Name)
    ensures KeyLabels(SuffixKey(n)) == LowerName(Reparsed(n))
  {
    ReparsedLower(n);
  }

  /** Where a name stands without pointers its key is a good entry, whether or not the name is plain. */
  lemma LiteralEntry(buf: Bytes, n: Name, o: nat)
    requires WireName(n) && At(buf, o, UncompressedName(n).0) && HEADER_SIZE <= o < OFFSET_LIMIT
    ensures EntryOk(buf, SuffixKey(n), o)
  {
    hide Raw, Reparsed, KeyLabels, SuffixKey, WireName;
    KeyLabelsLower(n);
    var lower := KeyLabels(SuffixKey(n));
    if PlainKey(SuffixKey(n)) {
      LiteralRaw(buf, o, n, |lower| - 1);
      LowerIsSame(Reparsed(n));
      PlainSame(LowerName(Reparsed(n)), Reparsed(n));
    }
  }

  lemma LowerIsSame(n: Name)
    ensures Same(LowerName(n), n)
  {
    LowerTwice(n);
  }

  lemma {:induction false} SuffixKeyLength(n: Name)
    requires n != [] && n[0] != []
    ensures |SuffixKey(n[1..])| < |SuffixKey(n)|
  {
    assert LowerName(n)[1..] == LowerName(n[1..]);
  }

  /** All keys of the table are longer texts than this. */
  predicate KeysBeyond(table: map<Str, nat>, length: nat) {
    forall key :: key in table ==> |key| > length
  }

  /** A name written with only longer keys in the table stands there without pointers, and the table stays good. */
  lemma {:induction false} FirstWritten(e: Enc, n: Name, pending: set<Str>)
    requires WireName(n) && HEADER_SIZE <= |e.out| && TableOk(e.out, e.table, pending)
    requires n != [] ==> KeysBeyond(e.table, |SuffixKey(n)|)
    ensures var r := EncodedName(e, n);
      r.ok && r.enc.out == e.out + UncompressedName(n).0 && TableOk(r.enc.out, r.enc.table, pending)
    ensures forall key :: key in e.table && e.table[key] < OFFSET_LIMIT
              ==> key in EncodedName(e, n).enc.table && EncodedName(e, n).enc.table[key] == e.table[key]
    decreases |n|
  {
    hide UncompressedName, TableOk, EntryOk, SuffixKey;
    var r := EncodedName(e, n);
    WireIsWritten(n);
    PrefixExtends(e.out, r.enc.out);
    if n == [] {
      TableExtends(e.out, r.enc.out, e.table, pending);
      RootWritten();
    } else {
      var key := SuffixKey(n);
      var mid := FirstLabel(e, n);
      var pending' := if |e.out| < OFFSET_LIMIT then pending + {key} else pending;
      PrefixExtends(e.out, mid.out);
      TableExtends(e.out, mid.out, e.table, pending);
      PendingAdded(e, n, pending, mid.out);
      SuffixKeyLength(n);
      FirstWritten(mid, n[1..], pending');
      LabelInFront(e.out, n);
      if |e.out| < OFFSET_LIMIT {
        LiteralEntry(r.enc.out, n, |e.out|);
        PendingDone(r.enc.out, r.enc.table, pending, key);
      }
    }
  }

  lemma RootWritten()
    ensures UncompressedName([]).0 == [0]
  {
  }

  lemma LabelInFront(before: Bytes, n: Name)
    requires n != [] && UncompressedName(n).1
    ensures UncompressedName(n).0 == [|n[0]|] + n[0] + UncompressedName(n[1..]).0
    ensures before + ([|n[0]|] + n[0]) + UncompressedName(n[1..]).0 == before + UncompressedName(n).0
    ensures before + [|n[0]|] + n[0] == before + ([|n[0]|] + n[0])
    ensures At(before + UncompressedName(n).0, |before|, UncompressedName(n).0)
  {
  }

  lemma PendingAdded(e: Enc, n: Name, pending: set<Str>, out: Bytes)
    requires n != [] && WireName(n) && TableOk(out, e.table, pending)
    ensures TableOk(out, FirstLabel(e, n).table,
                    if |e.out| < OFFSET_LIMIT then pending + {SuffixKey(n)} else pending)
  {
    hide EntryOk, SuffixKey;
  }

  lemma PendingDone(out: Bytes, table: map<Str, nat>, pending: set<Str>, key: Str)
    requires TableOk(out, table, pending + {key}) && (key in table ==> EntryOk(out, key, table[key]))
    ensures TableOk(out, table, pending)
  {
    hide EntryOk;
  }

  // ---- The first question -------------------------------------------------------------------

  /** The first name stands right behind the header, and its key leads there. */
  predicate FirstAt(e: Enc, f: Name) {
    f == []
    || (&& SuffixKey(f) in e.table && e.table[SuffixKey(f)] == HEADER_SIZE
        && Raw(e.out, HEADER_SIZE, 0).Got? && Raw(e.out, HEADER_SIZE, 0).value == f)
  }

  lemma {:induction false} EntryKept(e: Enc, n: Name, key: Str)
    requires key in e.table && e.table[key] < OFFSET_LIMIT
    ensures var t := EncodedName(e, n).enc.table; key in t && t[key] == e.table[key]
    decreases |n|
  {
    hide SuffixKey;
    if n != [] && (SuffixKey(n) !in e.table || e.table[SuffixKey(n)] >= OFFSET_LIMIT) && |n[0]| <= MAX_LABEL {
      EntryKept(FirstLabel(e, n), n[1..], key);
    }
  }

  lemma FirstKept(e: Enc, n: Name, w: Bytes, f: Name)
    requires FirstAt(e, f) && HEADER_SIZE <= |e.out|
    ensures FirstAt(Appended(EncodedName(e, n).enc, w), f)
  {
    hide SuffixKey, Raw, EncodedName;
    var r := Appended(EncodedName(e, n).enc, w);
    if f != [] {
      EntryKept(e, n, SuffixKey(f));
      assert r.out[..|e.out|] == EncodedName(e, n).enc.out[..|e.out|] == e.out;
      PrefixExtends(e.out, r.out);
      RawExtends(e.out, r.out, HEADER_SIZE, 0, 0);
    }
  }

  lemma FirstNameWritten(f: Name)
    requires WireName(f)
    ensures var e := EncodedName(EMPTY, f).enc;
      && EncodedName(EMPTY, f).ok && Settled(e) && FirstAt(e, f)
      && e.out == EMPTY.out + UncompressedName(f).0
  {
    hide Raw, SuffixKey, UncompressedName, EntryOk;
    FirstWritten(EMPTY, f, {});
    var e := EncodedName(EMPTY, f).enc;
    if f != [] {
      WireIsWritten(f);
      EntryKept(FirstLabel(EMPTY, f), f[1..], SuffixKey(f));
      assert At(e.out, HEADER_SIZE, UncompressedName(f).0);
      LiteralRaw(e.out, HEADER_SIZE, f, 0);
    }
  }

  lemma FirstQuestionSettled(q: Question)
    requires WireName(q.qname)
    ensures var n := EncodedName(EMPTY, q.qname).enc; var e := EncodedQuestion(EMPTY, q);
      && n.out == EMPTY.out + UncompressedName(q.qname).0
      && Settled(e) && FirstAt(e, q.qname) && Extends(n.out, e.out) && Extends(EMPTY.out, e.out)
  {
    hide Raw, TableOk, UncompressedName, EncodedName, QuestionTail, SuffixKey;
    var n := EncodedName(EMPTY, q.qname).enc;
    FirstNameWritten(q.qname);
    PrefixExtends(EMPTY.out, n.out);
    AppendedSettled(n, QuestionTail(q));
    AppendedFirst(n, QuestionTail(q), q.qname);
    ExtendsTransitive(EMPTY.out, n.out, EncodedQuestion(EMPTY, q).out);
  }

  lemma FirstQuestionArrives(q: Question, buf: Bytes)
    requires WireName(q.qname) && Extends(EncodedQuestion(EMPTY, q).out, buf)
    ensures var e := EncodedQuestion(EMPTY, q);
      && Settled(e) && FirstAt(e, q.qname) && Extends(EMPTY.out, e.out)
      && DecodedQuestion(buf, HEADER_SIZE) == Got(q.(qname := Reparsed(q.qname)), |e.out|)
  {
    hide Raw, Settled, FirstAt, Extends, Put16, Get16, UncompressedName, DecodedFrom, Reparsed, EncodedName, At;
    var f := q.qname;
    var n := EncodedName(EMPTY, f).enc;
    FirstQuestionSettled(q);
    ExtendsTransitive(n.out, EncodedQuestion(EMPTY, q).out, buf);
    AppendedAt(EMPTY, UncompressedName(f).0, buf);
    LiteralRaw(buf, HEADER_SIZE, f, 0);
    DecodedIsRaw(buf, HEADER_SIZE, [], 0, 0);
    assert [] + f == f;
    AppendedAt(n, QuestionTail(q), buf);
    AtSplit(buf, |n.out|, Put16(q.qtype), Put16(q.qclass));
    Get16Put(buf, |n.out|, q.qtype);
    Get16Put(buf, |n.out| + 2, q.qclass);
  }

  lemma AppendedFirst(e: Enc, w: Bytes, f: Name)
    requires FirstAt(e, f) && HEADER_SIZE <= |e.out|
    ensures FirstAt(Appended(e, w), f)
  {
    hide SuffixKey, Raw;
    PrefixExtends(e.out, e.out + w);
    if f != [] { RawExtends(e.out, e.out + w, HEADER_SIZE, 0, 0); }
  }

  // ---- Records ------------------------------------------------------------------------------

  /** A record that can follow: plain, or owned by the first name. */
  predicate Sendable(f: Name, rr: ResourceRecord) {
    PlainRecord(rr) || (rr.name == f && |rr.rdata| < 0x1_0000)
  }

  /** The first name as a record owner arrives: re-parsed where it stands, and again behind the pointer. */
  function Twice(f: Name): Name {
    Reparsed(Reparsed(f))
  }

  /** a is b as it arrives behind the first name f. */
  predicate Arrives(ntop: Ntop, f: Name, a: ResourceRecord, b: ResourceRecord) {
    && a == Arrived(ntop, a.name, b.rtype, b.rclass, b.ttl, b.rdata)
    && if PlainRecord(b) then Same(a.name, b.name) else a.name == Twice(f)
  }

  lemma OwnerWritten(e: Enc, f: Name, buf: Bytes)
    requires Settled(e) && FirstAt(e, f) && f != [] && Extends(EncodedName(e, f).enc.out, buf)
    ensures var r := EncodedName(e, f);
      && r.ok && Settled(r.enc) && Extends(e.out, r.enc.out)
      && DecodedName(buf, |e.out|, 0) == Got(Twice(f), |r.enc.out|)
  {
    hide SuffixKey, Raw, TableOk, DecodedFrom, Reparsed, Put16;
    var r := EncodedName(e, f).enc;
    AppendedSettled(e, Put16(0xC000 + HEADER_SIZE));
    RawExtends(e.out, r.out, HEADER_SIZE, 0, 0);
    RawPointer(r.out, |e.out|, HEADER_SIZE, 1);
    RawExtends(r.out, buf, |e.out|, 1, 1);
    DecodedIsRaw(buf, |e.out|, [], 0, 1);
    assert [] + Reparsed(f) == Reparsed(f);
  }

  lemma RrArrives(ntop: Ntop, e: Enc, f: Name, rr: ResourceRecord, buf: Bytes)
    requires Settled(e) && FirstAt(e, f) && Sendable(f, rr) && Extends(EncodedRr(e, rr).out, buf)
    ensures var r := EncodedRr(e, rr); var d := DecodedRr(ntop, buf, |e.out|);
      && Settled(r) && FirstAt(r, f) && Extends(e.out, r.out)
      && d.Got? && d.next == |r.out| && Arrives(ntop, f, d.value, rr)
  {
    hide Raw, DecodedName, TableOk, RrTail, Get16, Get32, Arrived, PlainName, Extends, Same, EncodedName, ReadBack,
         Twice, SuffixKey;
    FirstKept(e, rr.name, RrTail(rr), f);
    if PlainRecord(rr) {
      ExtendsRefl(EncodedName(e, rr.name).enc.out);
      NameComesBack(e, rr.name, EncodedName(e, rr.name).enc.out);
      RrComesBack(ntop, e, rr, buf);
      BackRrFields(ntop, e, rr);
    } else {
      RootIsPlain();
      var n := EncodedName(e, f).enc;
      OwnerWritten(e, f, n.out) by { ExtendsRefl(n.out); }
      AppendedSettled(n, RrTail(rr));
      ExtendsTransitive(e.out, n.out, EncodedRr(e, rr).out);
      ExtendsTransitive(n.out, EncodedRr(e, rr).out, buf);
      OwnerWritten(e, f, buf);
      AppendedAt(n, RrTail(rr), buf);
      TailReads(buf, |n.out|, rr);
      ArrivedFields(ntop, Twice(f), rr);
    }
  }

  lemma RootIsPlain()
    ensures PlainName([])
  {
  }

  predicate AllSendable(f: Name, rrs: seq<ResourceRecord>) {
    forall i :: 0 <= i < |rrs| ==> Sendable(f, rrs[i])
  }

  predicate AllArrive(ntop: Ntop, f: Name, a: seq<ResourceRecord>, b: seq<ResourceRecord>) {
    |a| == |b| && forall i :: 0 <= i < |a| ==> Arrives(ntop, f, a[i], b[i])
  }

  lemma {:induction false} RrsArrive(ntop: Ntop, e: Enc, f: Name, rrs: seq<ResourceRecord>, buf: Bytes)
    requires Settled(e) && FirstAt(e, f) && AllSendable(f, rrs) && Extends(EncodedRrs(e, rrs).out, buf)
    ensures var r := EncodedRrs(e, rrs); var d := DecodedRrs(ntop, buf, |e.out|, |rrs|);
      && Settled(r) && FirstAt(r, f) && Extends(e.out, r.out)
      && d.Got? && d.next == |r.out| && AllArrive(ntop, f, d.value, rrs)
    decreases |rrs|
  {
    hide Settled, Sendable, Arrives, Extends, DecodedRr, EncodedRr, FirstAt;
    if rrs != [] {
      var e1 := EncodedRr(e, rrs[0]);
      ExtendsRefl(e1.out);
      RrArrives(ntop, e, f, rrs[0], e1.out);
      RrsArrive(ntop, e1, f, rrs[1..], buf);
      ExtendsTransitive(e1.out, EncodedRrs(e, rrs).out, buf);
      ExtendsTransitive(e.out, e1.out, EncodedRrs(e, rrs).out);
      RrArrives(ntop, e, f, rrs[0], buf);
      ArriveInFront(ntop, f, DecodedRr(ntop, buf, |e.out|).value, rrs[0],
          DecodedRrs(ntop, buf, |e1.out|, |rrs| - 1).value, rrs[1..]);
      assert [rrs[0]] + rrs[1..] == rrs;
    } else {
      ExtendsRefl(e.out);
    }
  }

  lemma ArriveInFront(ntop: Ntop, f: Name, a: ResourceRecord, b: ResourceRecord, more: seq<ResourceRecord>,
                      rest: seq<ResourceRecord>)
    requires Arrives(ntop, f, a, b) && AllArrive(ntop, f, more, rest)
    ensures AllArrive(ntop, f, [a] + more, [b] + rest)
  {
    hide Arrives;
  }

  // ---- Messages -----------------------------------------------------------------------------

  /** A message without TSIG whose first question asks for any wire name, everything else being sendable behind it. */
  predicate FirstSendable(msg: Message) {
    && msg.header.opcode < 16 && msg.header.rcode < 16 && !msg.header.tc && msg.tsig == None
    && msg.questions != [] && |msg.questions| < 0x1_0000
    && WireName(msg.questions[0].qname) && PlainQuestions(msg.questions[1..])
    && AllSendable(msg.questions[0].qname, msg.answers) && |msg.answers| < 0x1_0000
    && AllSendable(msg.questions[0].qname, msg.authority) && |msg.authority| < 0x1_0000
    && AllSendable(msg.questions[0].qname, msg.additional) && |msg.additional| < 0x1_0000
    && NoTsigIn(msg.additional)
  }

  /** The message that arrives: the first name re-parsed, and its copies in the sections once more. */
  predicate FirstArrives(ntop: Ntop, a: Message, b: Message)
    requires b.questions != []
  {
    var f := b.questions[0].qname;
    && a.header == Counted(b.header, b) && a.tsig == None
    && |a.questions| == |b.questions| && a.questions[0] == b.questions[0].(qname := Reparsed(f))
    && SameQuestions(a.questions[1..], b.questions[1..])
    && AllArrive(ntop, f, a.answers, b.answers) && AllArrive(ntop, f, a.authority, b.authority)
    && AllArrive(ntop, f, a.additional, b.additional) && a.edns == EdnsOf(b.additional)
  }

  predicate SameKind(a: ResourceRecord, b: ResourceRecord) {
    a.rtype == b.rtype && a.rclass == b.rclass && a.ttl == b.ttl
  }

  /** Types, classes and TTLs say where OPT is and what it carries. */
  lemma {:induction false} KindsEdns(a: seq<ResourceRecord>, b: seq<ResourceRecord>)
    requires |a| == |b| && forall i :: 0 <= i < |a| ==> SameKind(a[i], b[i])
    ensures EdnsOf(a) == EdnsOf(b)
    decreases |a|
  {
    hide OptEdns;
    if a != [] {
      var n := |a| - 1;
      KindsEdns(a[..n], b[..n]);
      SameOpt(a[n], b[n]);
    }
  }

  lemma SameOpt(a: ResourceRecord, b: ResourceRecord)
    requires SameKind(a, b)
    ensures OptEdns(a) == OptEdns(b) && a.rtype == b.rtype
  {
  }

  lemma ArrivedSorted(ntop: Ntop, f: Name, a: seq<ResourceRecord>, b: seq<ResourceRecord>)
    requires AllArrive(ntop, f, a, b) && NoTsigIn(b)
    ensures NonTsig(a) == a && LastTsig(a) == None && EdnsOf(a) == EdnsOf(b)
  {
    hide Arrived, Twice, PlainRecord, NonTsig, LastTsig, EdnsOf, Same;
    forall i | 0 <= i < |a| ensures SameKind(a[i], b[i]) && !IsTsig(a[i]) {
      assert Arrives(ntop, f, a[i], b[i]);
      ArrivedFields(ntop, a[i].name, b[i]);
    }
    KindsEdns(a, b);
    NonTsigKeepsAll(a);
  }

  lemma FirstSections(ntop: Ntop, msg: Message, buf: Bytes)
    requires FirstSendable(msg) && Extends(EncodedSections(msg, true).out, buf)
    ensures var f := msg.questions[0].qname; var e := EncodedQuestions(EMPTY, msg.questions);
      var an := EncodedRrs(e, msg.answers); var ns := EncodedRrs(an, msg.authority);
      var qd := DecodedQuestions(buf, HEADER_SIZE, |msg.questions|);
      var a := DecodedRrs(ntop, buf, |e.out|, |msg.answers|);
      var b := DecodedRrs(ntop, buf, |an.out|, |msg.authority|);
      var c := DecodedRrs(ntop, buf, |ns.out|, |msg.additional|);
      && qd.Got? && qd.next == |e.out| && |qd.value| == |msg.questions|
      && qd.value[0] == msg.questions[0].(qname := Reparsed(f)) && SameQuestions(qd.value[1..], msg.questions[1..])
      && a.Got? && a.next == |an.out| && AllArrive(ntop, f, a.value, msg.answers)
      && b.Got? && b.next == |ns.out| && AllArrive(ntop, f, b.value, msg.authority)
      && c.Got? && c.next == |EncodedSections(msg, true).out| && AllArrive(ntop, f, c.value, msg.additional)
  {
    hide Settled, Extends, Sendable, PlainQuestion, DecodedRrs, EncodedRrs, FirstAt, EncodedQuestion, DecodedQuestion,
         Reparsed, Arrives, SameQuestion, BackQuestions, WireName;
    var qs := msg.questions;
    var f := qs[0].qname;
    var e1 := EncodedQuestion(EMPTY, qs[0]);
    var e := EncodedQuestions(EMPTY, qs);
    var an := EncodedRrs(e, msg.answers);
    var ns := EncodedRrs(an, msg.authority);
    var ar := EncodedRrs(ns, msg.additional);
    FirstSettled(ntop, msg);
    RrsArrive(ntop, ns, f, msg.additional, buf);
    ExtendsTransitive(ns.out, ar.out, buf);
    RrsArrive(ntop, an, f, msg.authority, buf);
    ExtendsTransitive(an.out, ns.out, buf);
    RrsArrive(ntop, e, f, msg.answers, buf);
    ExtendsTransitive(e.out, an.out, buf);
    QuestionsComeBack(e1, qs[1..], buf);
    ExtendsTransitive(e1.out, e.out, buf);
    FirstQuestionArrives(qs[0], buf);
  }

  lemma FirstSettled(ntop: Ntop, msg: Message)
    requires FirstSendable(msg)
    ensures var f := msg.questions[0].qname; var e1 := EncodedQuestion(EMPTY, msg.questions[0]);
      var e := EncodedQuestions(EMPTY, msg.questions);
      var an := EncodedRrs(e, msg.answers); var ns := EncodedRrs(an, msg.authority);
      var ar := EncodedRrs(ns, msg.additional);
      && e == EncodedQuestions(e1, msg.questions[1..]) && EncodedSections(msg, true) == ar
      && Settled(e1) && Extends(e1.out, e.out) && Settled(e) && FirstAt(e, f) && Extends(e.out, an.out)
      && Settled(an) && FirstAt(an, f) && Extends(an.out, ns.out)
      && Settled(ns) && FirstAt(ns, f) && Extends(ns.out, ar.out)
  {
    hide Settled, Extends, Sendable, PlainQuestion, DecodedRrs, EncodedRrs, FirstAt, EncodedQuestion, DecodedQuestion,
         Reparsed, Arrives, SameQuestion, BackQuestions, WireName;
    var qs := msg.questions;
    var f := qs[0].qname;
    var e1 := EncodedQuestion(EMPTY, qs[0]);
    var e := EncodedQuestions(EMPTY, qs);
    var an := EncodedRrs(e, msg.answers);
    var ns := EncodedRrs(an, msg.authority);
    var ar := EncodedRrs(ns, msg.additional);
    ExtendsRefl(e1.out);
    FirstQuestionArrives(qs[0], e1.out);
    ExtendsRefl(e.out);
    QuestionsComeBack(e1, qs[1..], e.out);
    QuestionsKeepFirst(e1, qs[1..], f);
    ExtendsRefl(an.out);
    RrsArrive(ntop, e, f, msg.answers, an.out);
    ExtendsRefl(ns.out);
    RrsArrive(ntop, an, f, msg.authority, ns.out);
    ExtendsRefl(ar.out);
    RrsArrive(ntop, ns, f, msg.additional, ar.out);
  }

  lemma {:induction false} QuestionsKeepFirst(e: Enc, qs: seq<Question>, f: Name)
    requires FirstAt(e, f) && HEADER_SIZE <= |e.out|
    ensures FirstAt(EncodedQuestions(e, qs), f)
    decreases |qs|
  {
    hide FirstAt, EncodedName, QuestionTail;
    if qs != [] {
      FirstKept(e, qs[0].qname, QuestionTail(qs[0]), f);
      QuestionsKeepFirst(EncodedQuestion(e, qs[0]), qs[1..], f);
    }
  }

  /**
   What becomes of a message whose first question asks for any name: it always decodes; plain
   names come back up to case, the first name comes back re-parsed, and as the owner of a
   record re-parsed twice.
   */
  lemma FirstMessageArrives(ntop: Ntop, msg: Message)
    requires FirstSendable(msg)
    ensures var d := DecodedMessage(ntop, EncodedMessage(msg, 0).bytes);
      d.Some? && FirstArrives(ntop, d.value, msg)
  {
    hide Extends, FirstSendable, DecodedRrs, DecodedQuestions, EncodedSections, HeaderBytes, NonTsig, LastTsig, EdnsOf,
         DecodedHeader, EncodedQuestions, EncodedRrs, AllArrive, Reparsed, SameQuestions;
    SectionsContinue(msg, true);
    SectionsContinue(msg, false);
    var e := EncodedSections(msg, true);
    var header := HeaderBytes(msg, false);
    var buf := Patched(header, e);
    PatchedExtends(header, e);
    FirstCounts(msg);
    HeaderComesBack(msg, false, buf);
    FirstSections(ntop, msg, buf);
    assert DecodedHeader(buf) == Counted(msg.header, msg);
    var ns := EncodedRrs(EncodedRrs(EncodedQuestions(EMPTY, msg.questions), msg.answers), msg.authority);
    ArrivedSorted(ntop, msg.questions[0].qname, DecodedRrs(ntop, buf, |ns.out|, |msg.additional|).value,
        msg.additional);
  }

  lemma FirstCounts(msg: Message)
    requires FirstSendable(msg)
    ensures msg.header.opcode < 16 && msg.header.rcode < 16 && !msg.header.tc && msg.questions != []
    ensures NoTsigIn(msg.additional) && Trailer(msg) == msg.additional
    ensures Wrap16(|msg.questions|) == |msg.questions| && Wrap16(|msg.answers|) == |msg.answers|
    ensures Wrap16(|msg.authority|) == |msg.authority| && Wrap16(|msg.additional|) == |msg.additional|
    ensures msg.tsig == None
  {
  }

  // ---- Names that survive --------------------------------------------------------------------

  lemma ParsedShrinks(j: Str)
    ensures |Joined(ParsedName(j + [DOT]), [DOT])| <= |j|
  {
    hide Scan, Joined, Trimmed;
    var t := Trimmed(j + [DOT]);
    TrimKeepsEnd(j + [DOT]);
    assert t[|t| - 1] == DOT;
    if t == [DOT] {
      NothingJoined();
    } else {
      ScanLength(t[..|t| - 1], []);
    }
  }

  lemma ReparsedShrinks(n: Name)
    ensures |Joined(Reparsed(n), [DOT])| <= |Joined(n, [DOT])|
  {
    hide Joined, ParsedName;
    ParsedShrinks(Joined(n, [DOT]));
  }

  /** A name comes back from two re-parsings, even only up to case, exactly if it survives one. */
  lemma TwiceIffSurvives(f: Name)
    requires ProperName(f)
    ensures Same(Twice(f), f) <==> SurvivesText(f)
    ensures SurvivesText(f) ==> Reparsed(f) == f && Twice(f) == f
  {
    hide Reparsed, SurvivesText;
    if SurvivesText(f) {
      SurvivorIsReparsed(f);
    } else if Same(Twice(f), f) {
      var g := Reparsed(f);
      ReparsedIsProper(f);
      SameLength(Twice(f), f);
      ReparsedShrinks(f);
      ReparsedShrinks(g);
      CutAtDots(f);
      KeptTextSurvives(g);
      SurvivorIsReparsed(g);
      ReparsedIffSurvives(f);
      assert false;
    }
  }

  lemma ReparsedIsProper(n: Name)
    ensures ProperName(Reparsed(n))
  {
    hide ParsedName;
    ParsedIsProper(Joined(n, [DOT]) + [DOT]);
  }

  /** If no byte of the text is lost, the name is only cut at its dots. */
  lemma CutAtDots(n: Name)
    requires ProperName(n) && |Joined(Reparsed(n), [DOT])| == |Joined(n, [DOT])|
    ensures NoDots(Reparsed(n))
  {
    if n == [] {
      NothingReparsed();
    } else {
      hide Trimmed;
      var j := Joined(n, [DOT]);
      JoinedFirst(n);
      ReparsedLength(j);
      ScanLength(j, []);
      ScanNoDots(j, []);
    }
  }

  lemma KeptTextSurvives(g: Name)
    requires ProperName(g) && NoDots(g) && |Joined(Reparsed(g), [DOT])| == |Joined(g, [DOT])|
    ensures SurvivesText(g)
  {
    if g != [] {
      var j := Joined(g, [DOT]);
      JoinedFirst(g);
      ReparsedLength(j);
      ScanLength(j, []);
      JoinedNoEscape(g);
    }
  }

  /** Messages that come back whole: the first name survives its text. */
  predicate Returnable(msg: Message) {
    FirstSendable(msg) && SurvivesText(msg.questions[0].qname)
  }

  /**
   The round trip for first names that survive: such a message decodes to itself, names up to
   case and everything else exactly.
   */
  lemma SurvivorRoundTrip(ntop: Ntop, msg: Message)
    requires Returnable(msg)
    ensures var d := DecodedMessage(ntop, EncodedMessage(msg, 0).bytes);
      d.Some? && SameMessage(ntop, d.value, msg)
  {
    hide DecodedMessage, EncodedMessage, SurvivesText, NonTsig, LastTsig, EdnsOf, FirstSendable, AllArrive, SameRecords,
         Twice;
    FirstMessageArrives(ntop, msg);
    FirstCounts(msg);
    FirstProper(msg);
    var f := msg.questions[0].qname;
    TwiceIffSurvives(f);
    NonTsigKeepsAll(msg.additional);
    var a := DecodedMessage(ntop, EncodedMessage(msg, 0).bytes).value;
    FirstSame(a.questions, msg.questions);
    SurvivorsArrive(ntop, f, a.answers, msg.answers);
    SurvivorsArrive(ntop, f, a.authority, msg.authority);
    SurvivorsArrive(ntop, f, a.additional, msg.additional);
    NoneSame(ntop);
  }

  lemma FirstProper(msg: Message)
    requires FirstSendable(msg)
    ensures ProperName(msg.questions[0].qname)
    ensures var f := msg.questions[0].qname;
      AllSendable(f, msg.answers) && AllSendable(f, msg.authority) && AllSendable(f, msg.additional)
  {
  }

  lemma NoneSame(ntop: Ntop)
    ensures SameRecords(ntop, [], [])
  {
  }

  lemma FirstSame(a: seq<Question>, b: seq<Question>)
    requires |a| == |b| > 0 && SameQuestion(a[0], b[0]) && SameQuestions(a[1..], b[1..])
    ensures SameQuestions(a, b)
  {
    forall i | 0 <= i < |a| ensures SameQuestion(a[i], b[i]) {
      if i > 0 { assert a[i] == a[1..][i - 1] && b[i] == b[1..][i - 1]; }
    }
  }

  lemma SurvivorsArrive(ntop: Ntop, f: Name, a: seq<ResourceRecord>, b: seq<ResourceRecord>)
    requires AllArrive(ntop, f, a, b) && AllSendable(f, b) && Twice(f) == f
    ensures SameRecords(ntop, a, b)
  {
    hide Arrived, PlainRecord;
    forall i | 0 <= i < |a| ensures SameRecord(ntop, a[i], b[i]) {
      assert Arrives(ntop, f, a[i], b[i]) && Sendable(f, b[i]);
      if !PlainRecord(b[i]) { assert a[i].name == f == b[i].name; }
    }
  }

  // ---- Keys -----------------------------------------------------------------------------------

  lemma KeyReparsed(n: Name)
    ensures ParsedName(Key(n)) == LowerName(Reparsed(n))
  {
    hide Joined, ParsedName;
    NothingJoined();
    assert Key(n) == Lowered(Joined(n, [DOT]) + [DOT]) by { assert [] + [DOT] == [DOT]; }
    ParsedLower(Joined(n, [DOT]) + [DOT]);
  }

  /** Names with one key are re-parsed to one name, and if both survive they are one name. */
  lemma SameKeyReparsed(a: Name, b: Name)
    requires Key(a) == Key(b)
    ensures Same(Reparsed(a), Reparsed(b))
    ensures ProperName(a) && ProperName(b) && SurvivesText(a) && SurvivesText(b) ==> Same(a, b)
  {
    hide Reparsed, Key, SurvivesText;
    KeyReparsed(a);
    KeyReparsed(b);
    if ProperName(a) && ProperName(b) && SurvivesText(a) && SurvivesText(b) {
      SurvivorIsReparsed(a);
      SurvivorIsReparsed(b);
    }
  }

  // ---- Truncated messages -----------------------------------------------------------------------

  /** Questions that come back: the first name survives, the others are plain. */
  predicate SurvivorQuestions(qs: seq<Question>) {
    && |qs| < 0x1_0000
    && (qs != [] ==> WireName(qs[0].qname) && SurvivesText(qs[0].qname) && PlainQuestions(qs[1..]))
  }

  lemma SurvivorQuestionsArrive(qs: seq<Question>, buf: Bytes)
    requires SurvivorQuestions(qs) && Extends(EncodedQuestions(EMPTY, qs).out, buf)
    ensures var qd := DecodedQuestions(buf, HEADER_SIZE, |qs|);
      qd.Got? && qd.next == |EncodedQuestions(EMPTY, qs).out| && SameQuestions(qd.value, qs)
  {
    hide Settled, Extends, PlainQuestion, FirstAt, EncodedQuestion, DecodedQuestion, Reparsed, BackQuestions,
         WireName, SurvivesText, SameQuestion;
    if qs != [] {
      var e1 := EncodedQuestion(EMPTY, qs[0]);
      ExtendsRefl(e1.out);
      FirstQuestionArrives(qs[0], e1.out);
      QuestionsComeBack(e1, qs[1..], buf);
      ExtendsTransitive(e1.out, EncodedQuestions(EMPTY, qs).out, buf);
      FirstQuestionArrives(qs[0], buf);
      WireIsWritten(qs[0].qname);
      SurvivorIsReparsed(qs[0].qname);
      QuestionIsSame(qs[0]);
      FirstSame(DecodedQuestions(buf, HEADER_SIZE, |qs|).value, qs);
    }
  }

  lemma QuestionIsSame(q: Question)
    ensures SameQuestion(q, q)
  {
  }

  /** What is sent of a message that is cut decodes to its questions, with TC set and no records. */
  lemma TruncatedArrives(ntop: Ntop, msg: Message, limit: nat)
    requires msg.header.opcode < 16 && msg.header.rcode < 16 && SurvivorQuestions(msg.questions)
    requires EncodedMessage(msg, limit).truncated
    ensures var d := DecodedMessage(ntop, EncodedMessage(msg, limit).bytes);
      && d.Some? && d.value.header.tc && SameQuestions(d.value.questions, msg.questions)
      && d.value.answers == [] && d.value.authority == [] && d.value.additional == [] && d.value.tsig == None
  {
    hide Extends, DecodedQuestions, EncodedQuestions, EncodedRecords, HeaderBytes, SurvivorQuestions, SameQuestions,
         DecodedHeader, EncodedTsig;
    SectionsContinue(msg, true);
    SectionsContinue(msg, false);
    var header := HeaderBytes(msg, true);
    var e := EncodedQuestions(EMPTY, msg.questions);
    var buf := Patched(header, e);
    PatchedExtends(header, e);
    HeaderComesBack(msg, true, buf);
    SurvivorQuestionsArrive(msg.questions, buf);
    QuestionCount(msg.questions);
  }

  lemma QuestionCount(qs: seq<Question>)
    requires SurvivorQuestions(qs)
    ensures Wrap16(|qs|) == |qs|
  {
  }
}
