/**
 The wire format octet by octet (sections 4.1.1 to 4.1.4 of RFC 1035 and section 6.1.3 of
 RFC 6891): what each field of a decoded message is, in terms of the octets it stands in.
 */
module WireFormat {
  import opened Text
  import opened DnsNames
  import opened NameCodec
  import opened Compression
  import opened NameRoundTrip
  import opened Records
  import opened Numbers
  import opened Rdata
  import opened MessageCodec
  import opened MessageRoundTrip

  // ---- The header -----------------------------------------------------------------------------

  /** Two octets as a number. */
  function Pair(hi: int, lo: int): int {
    hi * 256 + lo
  }

  /** Four octets as a number. */
  function Quad(a: int, b: int, c: int, d: int): int {
    ((a * 256 + b) * 256 + c) * 256 + d
  }

  lemma WordIs(input: Bytes, off: nat)
    ensures Get16(input, off)
            == if off + 2 <= |input| then Got(Pair(input[off], input[off + 1]), off + 2) else Fail
  {
    hide BigEndian;
    if off + 2 <= |input| { BigEndianTwo(input[off], input[off + 1]); }
  }

  /** The bits of the flag word, most significant first, by the power of two below them. */
  lemma FlagBits(f: nat)
    ensures Shr(f, 4) == f / 0x10 && Shr(f, 5) == f / 0x20 && Shr(f, 7) == f / 0x80 && Shr(f, 8) == f / 0x100
    ensures Shr(f, 9) == f / 0x200 && Shr(f, 10) == f / 0x400 && Shr(f, 11) == f / 0x800 && Shr(f, 15) == f / 0x8000
  {
    assert Shr(f, 1) == f / 2;
    assert Shr(f, 2) == f / 4;
    assert Shr(f, 3) == f / 8;
    assert Shr(f, 4) == f / 0x10;
    assert Shr(f, 5) == f / 0x20;
    assert Shr(f, 6) == f / 0x40;
    assert Shr(f, 7) == f / 0x80;
    assert Shr(f, 8) == f / 0x100;
    assert Shr(f, 9) == f / 0x200;
    assert Shr(f, 10) == f / 0x400;
    assert Shr(f, 11) == f / 0x800;
    assert Shr(f, 12) == f / 0x1000;
    assert Shr(f, 13) == f / 0x2000;
    assert Shr(f, 14) == f / 0x4000;
  }

  /** The twelve octets of the header. */
  lemma HeaderLayout(b: Bytes)
    requires |b| >= 12
    ensures var h := DecodedHeader(b);
      && h.id == Pair(b[0], b[1])
      && (h.qr <==> b[2] >= 128) && h.opcode == b[2] / 8 % 16 && (h.aa <==> b[2] / 4 % 2 == 1)
      && (h.tc <==> b[2] / 2 % 2 == 1) && (h.rd <==> b[2] % 2 == 1)
      && (h.ra <==> b[3] >= 128) && (h.ad <==> b[3] / 32 % 2 == 1) && (h.cd <==> b[3] / 16 % 2 == 1)
      && h.rcode == b[3] % 16
      && h.qdcount == Pair(b[4], b[5]) && h.ancount == Pair(b[6], b[7])
      && h.nscount == Pair(b[8], b[9]) && h.arcount == Pair(b[10], b[11])
  {
    hide Get16, Shr;
    WordIs(b, 0);
    WordIs(b, 2);
    WordIs(b, 4);
    WordIs(b, 6);
    WordIs(b, 8);
    WordIs(b, 10);
    FlagBits(Pair(b[2], b[3]));
    FlagOctets(b[2], b[3]);
  }

  lemma HighOctet(hi: Byte, lo: Byte)
    ensures var f := Pair(hi, lo);
      && f / 0x100 == hi && f / 0x200 == hi / 2 && f / 0x400 == hi / 4 && f / 0x800 == hi / 8 && f / 0x8000 == hi / 128
  {
    var f := Pair(hi, lo);
    Remainder(f, 0x100, hi, lo);
    Remainder(f, 0x200, hi / 2, hi % 2 * 256 + lo);
    Remainder(f, 0x400, hi / 4, hi % 4 * 256 + lo);
    Remainder(f, 0x800, hi / 8, hi % 8 * 256 + lo);
    Remainder(f, 0x8000, hi / 128, hi % 128 * 256 + lo);
  }

  lemma LowOctet(hi: Byte, lo: Byte)
    ensures var f := Pair(hi, lo);
      && f / 0x80 == 2 * hi + lo / 128 && f / 0x20 == 8 * hi + lo / 32 && f / 0x10 == 16 * hi + lo / 16
      && f % 16 == lo % 16
  {
    var f := Pair(hi, lo);
    Remainder(f, 0x80, 2 * hi + lo / 128, lo % 128);
    Remainder(f, 0x20, 8 * hi + lo / 32, lo % 32);
    Remainder(f, 0x10, 16 * hi + lo / 16, lo % 16);
  }

  lemma FlagOctets(hi: Byte, lo: Byte)
    ensures var f := Pair(hi, lo);
      && f / 0x8000 % 2 == hi / 128 && f / 0x800 % 16 == hi / 8 % 16 && f / 0x400 % 2 == hi / 4 % 2
      && f / 0x200 % 2 == hi / 2 % 2 && f / 0x100 % 2 == hi % 2
      && f / 0x80 % 2 == lo / 128 && f / 0x20 % 2 == lo / 32 % 2 && f / 0x10 % 2 == lo / 16 % 2 && f % 16 == lo % 16
  {
    hide Pair;
    HighOctet(hi, lo);
    LowOctet(hi, lo);
  }

  // ---- Questions and records --------------------------------------------------------------------

  /** Behind the name stand type and class, two octets each. */
  lemma QuestionLayout(b: Bytes, off: nat)
    ensures var name := DecodedName(b, off, 0);
      DecodedQuestion(b, off)
      == if name.Fail? || name.next + 4 > |b| then Fail
         else
           var n := name.next;
           Got(Question(name.value, Pair(b[n], b[n + 1]), Pair(b[n + 2], b[n + 3])), n + 4)
  {
    hide DecodedName, Get16;
    var name := DecodedName(b, off, 0);
    if name.Got? {
      WordIs(b, name.next);
      WordIs(b, name.next + 2);
    }
  }

  lemma LongIs(input: Bytes, off: nat)
    ensures Get32(input, off)
            == if off + 4 <= |input|
               then Got(Quad(input[off], input[off + 1], input[off + 2], input[off + 3]), off + 4)
               else Fail
  {
    hide BigEndian;
    if off + 4 <= |input| { BigEndianFour(input[off], input[off + 1], input[off + 2], input[off + 3]); }
  }

  /** Where a record's type, class, ttl, length and rdata stand behind its name at n. */
  predicate RecordAt(b: Bytes, n: nat, rr: ResourceRecord) {
    && n + 10 + |rr.rdata| <= |b|
    && rr.rtype == Pair(b[n], b[n + 1]) && rr.rclass == Pair(b[n + 2], b[n + 3])
    && rr.ttl == Quad(b[n + 4], b[n + 5], b[n + 6], b[n + 7])
    && |rr.rdata| == Pair(b[n + 8], b[n + 9]) && rr.rdata == b[n + 10..n + 10 + |rr.rdata|]
  }

  /** A record decodes exactly if its name does and all its octets are there, and ends behind its rdata. */
  lemma RecordLayout(ntop: Ntop, b: Bytes, off: nat)
    ensures var name := DecodedName(b, off, 0); var r := DecodedRr(ntop, b, off);
      && (name.Fail? ==> r.Fail?)
      && (name.Got? ==>
            var n := name.next;
            && (r.Got? <==> n + 10 <= |b| && n + 10 + Pair(b[n + 8], b[n + 9]) <= |b|)
            && (r.Got? ==> r.value.name == name.value && RecordAt(b, n, r.value)
                           && r.next == n + 10 + |r.value.rdata|))
  {
    hide DecodedName, Get16, Get32, RdataToContent;
    var name := DecodedName(b, off, 0);
    if name.Got? {
      WordIs(b, name.next);
      WordIs(b, name.next + 2);
      LongIs(b, name.next + 4);
      WordIs(b, name.next + 8);
    }
  }

  // ---- Names ------------------------------------------------------------------------------------

  /** A label of up to 63 octets stands behind its length. */
  lemma LabelLayout(b: Bytes, pos: nat, labels: Name, jumps: nat)
    requires jumps <= 20 && pos < |b| && 0 < b[pos] < 64
    ensures DecodedFrom(b, pos, labels, jumps)
            == if pos + 1 + b[pos] > |b| then Fail
               else DecodedFrom(b, pos + 1 + b[pos], labels + [b[pos + 1..pos + 1 + b[pos]]], jumps)
  {
  }

  /** Two octets from 192 up point to the offset in their low 14 bits; at most twenty pointers are followed. */
  lemma PointerLayout(b: Bytes, pos: nat, labels: Name, jumps: nat)
    requires jumps <= 20 && pos < |b| && b[pos] >= 64
    ensures var r := DecodedFrom(b, pos, labels, jumps);
      if b[pos] < 192 || pos + 1 >= |b| || jumps == 20 then r == Fail
      else
        var rest := DecodedFrom(b, Pair(b[pos] - 192, b[pos + 1]), [], jumps + 1);
        r == if rest.Fail? then Fail else Got(Reparsed(labels + rest.value), pos + 2)
  {
    hide Reparsed, BigEndian;
    if b[pos] >= 192 && pos + 1 < |b| { BigEndianTwo(b[pos] - 192, b[pos + 1]); }
  }

  /** Entries for names with more labels outlive the writing of a name. */
  lemma {:induction false} EntryStays(e: Enc, n: Name, longer: Name)
    requires PlainName(n) && PlainName(longer) && |longer| > |n| && SuffixKey(longer) in e.table
    ensures var t := EncodedName(e, n).enc.table;
      SuffixKey(longer) in t && t[SuffixKey(longer)] == e.table[SuffixKey(longer)]
    decreases |n|
  {
    hide SuffixKey, Same, PlainLabel;
    if n != [] {
      SuffixKeyInjective(n, longer);
      SameSizes(n, longer);
      var table := if |e.out| < OFFSET_LIMIT then e.table[SuffixKey(n) := |e.out|] else e.table;
      assert forall i :: 0 <= i < |n[1..]| ==> n[1..][i] == n[i + 1];
      if |n[0]| <= MAX_LABEL { EntryStays(Enc(e.out + [|n[0]|] + n[0], table), n[1..], longer); }
    }
  }

  /** A name that is first written at offset o is, in any case, two octets the second time: a pointer to o. */
  lemma SecondTimePoints(e: Enc, n: Name, again: Name)
    requires PlainName(n) && n != [] && Same(again, n)
    requires SuffixKey(n) !in e.table && |e.out| < 16384
    ensures var once := EncodedName(e, n).enc; var o := |e.out|;
      EncodedName(once, again) == Encoding(once.(out := once.out + [192 + o / 256, o % 256]), true)
  {
    hide EncodedName, Same;
    FirstTimeIsKept(e, n);
    SameLabelCount(again, n);
    SameKey(again, n);
    PointsThere(EncodedName(e, n).enc, again, |e.out|);
  }

  lemma FirstTimeIsKept(e: Enc, n: Name)
    requires PlainName(n) && n != [] && SuffixKey(n) !in e.table && |e.out| < 16384
    ensures var t := EncodedName(e, n).enc.table; SuffixKey(n) in t && t[SuffixKey(n)] == |e.out|
  {
    hide SuffixKey;
    assert PlainLabel(n[0]);
    assert forall i :: 0 <= i < |n[1..]| ==> n[1..][i] == n[i + 1];
    EntryStays(Enc(e.out + [|n[0]|] + n[0], e.table[SuffixKey(n) := |e.out|]), n[1..], n);
  }

  lemma PointsThere(e: Enc, n: Name, o: nat)
    requires n != [] && SuffixKey(n) in e.table && e.table[SuffixKey(n)] == o && o < 16384
    ensures EncodedName(e, n) == Encoding(e.(out := e.out + [192 + o / 256, o % 256]), true)
  {
    hide SuffixKey;
    assert Put16(0xC000 + o) == [192 + o / 256, o % 256];
  }

  function LabelPut(e: Enc, first: Str, table: map<Str, nat>): Enc
    requires |first| < 256
  {
    Enc(e.out + [|first|] + first, table)
  }

  lemma LabelInFront(e: Enc, n: Name, first: Str)
    requires PlainLabel(first) && SuffixKey([first] + n) !in e.table
    ensures var key := SuffixKey([first] + n);
      EncodedName(e, [first] + n)
      == EncodedName(LabelPut(e, first, if |e.out| < OFFSET_LIMIT then e.table[key := |e.out|] else e.table), n)
  {
    hide SuffixKey;
    assert ([first] + n)[1..] == n;
  }

  lemma OtherKey(n: Name, first: Str)
    requires PlainName(n) && PlainLabel(first)
    ensures |first| < 256 && SuffixKey([first] + n) != SuffixKey(n)
  {
    hide SuffixKey, Same;
    var all := [first] + n;
    assert PlainName(all);
    SuffixKeyInjective(all, n);
    SameSizes(all, n);
  }

  /** A name in front of one that was written before shares its end. */
  lemma EndIsShared(e: Enc, n: Name, first: Str)
    requires PlainName(n) && n != [] && PlainLabel(first)
    requires SuffixKey(n) !in e.table && |e.out| < 16384
    requires SuffixKey([first] + n) !in EncodedName(e, n).enc.table
    ensures var once := EncodedName(e, n).enc; var o := |e.out|;
      && EncodedName(once, [first] + n).ok
      && EncodedName(once, [first] + n).enc.out == once.out + [|first|] + first + [192 + o / 256, o % 256]
  {
    hide SuffixKey, EncodedName, PlainLabel, PlainName;
    var once := EncodedName(e, n).enc;
    FirstTimeIsKept(e, n);
    OtherKey(n, first);
    LabelInFront(once, n, first);
    var key := SuffixKey([first] + n);
    var put := LabelPut(once, first, if |once.out| < OFFSET_LIMIT then once.table[key := |once.out|] else once.table);
    assert SuffixKey(n) in put.table && put.table[SuffixKey(n)] == |e.out|;
    PointsThere(put, n, |e.out|);
  }

  lemma SameSizes(a: Name, b: Name)
    ensures |a| != |b| ==> !Same(a, b)
  {
    if Same(a, b) { SameLabelCount(a, b); }
  }

  // ---- EDNS ---------------------------------------------------------------------------------------

  /** The wire fields of an OPT record: class and ttl carry the EDNS data, z stands for the reserved bits. */
  predicate CarriesEdns(rr: ResourceRecord, e: Edns, z: nat) {
    && rr.rtype == 41 && e.present && z < 0x8000 && rr.rclass == e.udpSize
    && rr.ttl == e.extRcode * 0x100_0000 + e.version * 0x1_0000 + (if e.dnssecOk then 0x8000 else 0) + z
  }

  predicate NoOpt(rrs: seq<ResourceRecord>, from: nat) {
    forall j :: from <= j < |rrs| ==> rrs[j].rtype != 41
  }

  lemma OptIsEdns(rr: ResourceRecord, e: Edns, z: nat)
    requires CarriesEdns(rr, e, z)
    ensures OptEdns(rr) == e
  {
    var low := (if e.dnssecOk then 0x8000 else 0) + z;
    assert rr.ttl == e.extRcode * 0x100_0000 + e.version * 0x1_0000 + low && low < 0x1_0000;
    assert rr.ttl / 0x1_0000 == e.extRcode * 0x100 + e.version;
    assert rr.ttl / 0x8000 == (e.extRcode * 0x100 + e.version) * 2 + low / 0x8000;
  }

  lemma {:induction false} LastOptCounts(rrs: seq<ResourceRecord>, i: nat, e: Edns, z: nat)
    requires i < |rrs| && CarriesEdns(rrs[i], e, z) && NoOpt(rrs, i + 1)
    ensures EdnsOf(rrs) == e
    decreases |rrs|
  {
    hide OptEdns;
    var n := |rrs| - 1;
    if i == n {
      OptIsEdns(rrs[n], e, z);
    } else {
      LastOptCounts(rrs[..n], i, e, z);
    }
  }

  lemma {:induction false} WithoutOpt(rrs: seq<ResourceRecord>)
    requires NoOpt(rrs, 0)
    ensures EdnsOf(rrs) == Edns(false, 512, 0, 0, false)
  {
    if rrs != [] { WithoutOpt(rrs[..|rrs| - 1]); }
  }

  /**
   The EDNS data of a decoded message is what the wire fields of its last OPT record say: the
   UDP size is the class, and the ttl holds extended code, version and the DNSSEC bit from its
   most significant end.  Without an OPT record there is none, and the size is 512.
   */
  lemma EdnsComesBack(ntop: Ntop, msg: Message, i: nat, e: Edns, z: nat)
    requires Encodable(msg) && !msg.header.tc && TsigInPlace(msg)
    ensures var d := DecodedMessage(ntop, EncodedMessage(msg, 0).bytes);
      && d.Some?
      && (i < |msg.additional| && CarriesEdns(msg.additional[i], e, z) && NoOpt(msg.additional, i + 1)
          ==> d.value.edns == e)
      && (NoOpt(msg.additional, 0) ==> d.value.edns == Edns(false, 512, 0, 0, false))
  {
    hide DecodedMessage, EncodedMessage, Encodable, EdnsOf, NonTsig, LastTsig, SameRecords, SameQuestions;
    RoundTrip(ntop, msg);
    TrailerHasNoMoreOpt(msg);
    if i < |msg.additional| && CarriesEdns(msg.additional[i], e, z) && NoOpt(msg.additional, i + 1) {
      assert Trailer(msg)[i] == msg.additional[i];
      LastOptCounts(Trailer(msg), i, e, z);
    }
    if NoOpt(msg.additional, 0) { WithoutOpt(Trailer(msg)); }
  }

  lemma TrailerHasNoMoreOpt(msg: Message)
    requires TsigInPlace(msg)
    ensures forall from: nat :: NoOpt(msg.additional, from) ==> NoOpt(Trailer(msg), from)
  {
  }
}
