/**
 What a TSIG signature protects: the octets that the MAC covers (section 4.3 of RFC 8945), and
 that a change of the message, of the signed times or of the key's names is refused.
 */
module Tampering {
  import opened Text
  import opened DnsNames
  import opened NameCodec
  import opened NameRoundTrip
  import opened Records
  import opened Rdata
  import opened Numbers
  import opened MessageCodec
  import opened FirstNames
  import opened Tsig

  // ---- The octets ------------------------------------------------------------------------------

  /** A 48-bit value, most significant octet first. */
  function SixOctets(v: U48): Bytes {
    [v / 0x100_0000_0000, v / 0x1_0000_0000 % 256, v / 0x100_0000 % 256, v / 0x1_0000 % 256, v / 256 % 256, v % 256]
  }

  lemma ThirdOctet(hi: U16, lo: U32)
    ensures (hi * 0x1_0000_0000 + lo) / 0x100_0000 % 256 == lo / 0x100_0000
  {
    Remainder(hi * 0x1_0000_0000 + lo, 0x100_0000, hi * 256 + lo / 0x100_0000, lo % 0x100_0000);
    Remainder(hi * 256 + lo / 0x100_0000, 256, hi, lo / 0x100_0000);
  }

  lemma FourthOctet(hi: U16, lo: U32)
    ensures (hi * 0x1_0000_0000 + lo) / 0x1_0000 % 256 == lo / 0x1_0000 % 256
  {
    var x := lo / 0x1_0000;
    Remainder(hi * 0x1_0000_0000 + lo, 0x1_0000, hi * 0x1_0000 + x, lo % 0x1_0000);
    Remainder(hi * 0x1_0000 + x, 256, hi * 256 + x / 256, x % 256);
  }

  lemma FifthOctet(hi: U16, lo: U32)
    ensures (hi * 0x1_0000_0000 + lo) / 256 % 256 == lo / 256 % 256
  {
    var x := lo / 256;
    Remainder(hi * 0x1_0000_0000 + lo, 256, hi * 0x100_0000 + x, lo % 256);
    Remainder(hi * 0x100_0000 + x, 256, hi * 0x1_0000 + x / 256, x % 256);
  }

  lemma HighOctets(hi: U16, lo: U32)
    ensures var v: int := hi * 0x1_0000_0000 + lo; v / 0x1_0000_0000 == hi && v / 0x100_0000_0000 == hi / 256
  {
    var v: int := hi * 0x1_0000_0000 + lo;
    Remainder(v, 0x1_0000_0000, hi, lo);
    Remainder(v, 0x100_0000_0000, hi / 256, hi % 256 * 0x1_0000_0000 + lo);
  }

  lemma LastOctet(hi: U16, lo: U32)
    ensures (hi * 0x1_0000_0000 + lo) % 256 == lo % 256
  {
    Remainder(hi * 0x1_0000_0000 + lo, 256, hi * 0x100_0000 + lo / 256, lo % 256);
  }

  /** The six octets are those of the high 16 and the low 32 bits. */
  lemma SixParts(hi: U16, lo: U32)
    ensures SixOctets(hi * 0x1_0000_0000 + lo)
            == [hi / 256, hi % 256, lo / 0x100_0000, lo / 0x1_0000 % 256, lo / 256 % 256, lo % 256]
  {
    HighOctets(hi, lo);
    ThirdOctet(hi, lo);
    FourthOctet(hi, lo);
    FifthOctet(hi, lo);
    LastOctet(hi, lo);
  }

  lemma Put48Is(v: U48)
    ensures Put48(v) == SixOctets(v)
  {
    hide SixOctets;
    SixParts(v / 0x1_0000_0000, v % 0x1_0000_0000);
    assert v == v / 0x1_0000_0000 * 0x1_0000_0000 + v % 0x1_0000_0000;
  }

  function TwoOctets(v: U16): Bytes {
    [v / 256, v % 256]
  }

  /** The MAC of a signed message, which stands at the end of its rdata, before id, error and other length. */
  function MacOf(hmac: Hmac, msg: Message, key: TsigKey, fudge: U16, now: U48): Bytes {
    hmac(key.secret,
         EncodedMessage(msg.(tsig := None), 0).bytes + UncompressedName(key.name).0 + [0, 255, 0, 0, 0, 0]
         + UncompressedName(ParsedName(key.algorithm)).0 + SixOctets(now) + TwoOctets(fudge) + [0, 0, 0, 0])
  }

  /**
   What is signed, octet by octet: the message without TSIG, the name of the key, class ANY and
   ttl zero, the algorithm, the time, the fudge, no error and no other data; and where the
   fields stand in the rdata.
   */
  lemma SignedOctets(hmac: Hmac, ntop: Ntop, msg: Message, key: TsigKey, fudge: U16, now: U48)
    ensures var tsig := Signed(hmac, ntop, msg, key, fudge, now).0.tsig; var mac := MacOf(hmac, msg, key, fudge, now);
      && tsig.Some? && tsig.value.name == key.name && tsig.value.rtype == 250 && tsig.value.rclass == 255
      && tsig.value.ttl == 0
      && tsig.value.rdata
         == UncompressedName(ParsedName(key.algorithm)).0 + SixOctets(now) + TwoOctets(fudge)
            + TwoOctets(|mac| % 0x1_0000) + mac + TwoOctets(msg.header.id) + [0, 0, 0, 0]
  {
    hide EncodedMessage, UncompressedName, Put48, SixOctets, ParsedName, RdataToContent;
    Put48Is(now);
    SameOctets(EncodedMessage(msg.(tsig := None), 0).bytes, key, now, fudge);
    var mac := MacOf(hmac, msg, key, fudge, now);
    SameRdata(key, now, fudge, mac, msg.header.id);
  }

  lemma SameOctets(body: Bytes, key: TsigKey, time: U48, fudge: U16)
    ensures MacInput(body, key, time, fudge)
            == body + UncompressedName(key.name).0 + [0, 255, 0, 0, 0, 0]
               + UncompressedName(ParsedName(key.algorithm)).0 + SixOctets(time) + TwoOctets(fudge) + [0, 0, 0, 0]
  {
    hide UncompressedName, Put48, SixOctets, ParsedName;
    Put48Is(time);
    var a, b := body + UncompressedName(key.name).0, UncompressedName(ParsedName(key.algorithm)).0;
    var none: Bytes := [0, 0, 0, 0];
    assert Put16(CLASS_ANY) == [0, 255] && Put16(0) == [0, 0];
    assert a + [0, 255] + none == a + [0, 255, 0, 0, 0, 0];
    var c := a + [0, 255, 0, 0, 0, 0] + b + SixOctets(time) + TwoOctets(fudge);
    assert c + [0, 0] + [0, 0] == c + none;
  }

  lemma SameRdata(key: TsigKey, time: U48, fudge: U16, mac: Bytes, id: U16)
    ensures TsigRdata(key, time, fudge, mac, id)
            == UncompressedName(ParsedName(key.algorithm)).0 + SixOctets(time) + TwoOctets(fudge)
               + TwoOctets(|mac| % 0x1_0000) + mac + TwoOctets(id) + [0, 0, 0, 0]
  {
    hide UncompressedName, Put48, SixOctets, ParsedName;
    Put48Is(time);
    var a, b, c, d, e := UncompressedName(ParsedName(key.algorithm)).0, SixOctets(time), TwoOctets(fudge),
        TwoOctets(|mac| % 0x1_0000), TwoOctets(id);
    var none: Bytes := [0, 0, 0, 0];
    assert e + [0, 0] + [0, 0] == e + none;
    assert a + (b + (c + (d + (mac + (e + none))))) == a + b + c + d + mac + e + none;
  }

  // ---- Hashes without collisions ------------------------------------------------------------------

  /** The hash tells data apart under each secret, and its length fits its field. */
  ghost predicate Collisionless(hmac: Hmac) {
    && (forall secret, a, b :: hmac(secret, a) == hmac(secret, b) ==> a == b)
    && forall secret, a :: |hmac(secret, a)| < 0x1_0000
  }

  /** The receiver's clock is within the fudge. */
  predicate InTime(now: nat, time: nat, fudge: nat) {
    now <= time + fudge && time <= now + fudge
  }

  /** What a receiver makes of a record whose rdata is that of the signed message. */
  lemma SameRecordVerified(hmac: Hmac, ntop: Ntop, msg: Message, key: TsigKey, fudge: U16, now: U48,
                           m: Message, key': TsigKey, now': nat)
    requires Collisionless(hmac) && UncompressedName(ParsedName(key.algorithm)).1
    requires m.tsig == Signed(hmac, ntop, msg, key, fudge, now).0.tsig
    ensures Verified(hmac, m, key', now') == Accepted
            <==> InTime(now', now, fudge)
                 && hmac(key'.secret, MacInput(Unsigned(m), key', now, fudge))
                    == hmac(key.secret, MacInput(Unsigned(msg), key, now, fudge))
  {
    hide MacInput, EncodedMessage, TsigRdata, Fields, Verified, ParsedName, RdataToContent, Put48;
    var mac := hmac(key.secret, MacInput(Unsigned(msg), key, now, fudge));
    FieldsOf(key, now, fudge, mac, msg.header.id);
    ParsedIsProper(key.algorithm);
    UncompressedRoundTrip(m.tsig.value.rdata, 0, ParsedName(key.algorithm));
    FieldsVerified(hmac, m, key', now', now, fudge, mac);
  }

  // ---- Another message ------------------------------------------------------------------------------

  /**
   A changed message is refused: with the TSIG record of a signed message, and the same key, a
   message is accepted if and only if the clock is within the fudge and its wire form without
   TSIG is that of the signed message.
   */
  lemma TamperedMessageRefused(hmac: Hmac, ntop: Ntop, msg: Message, key: TsigKey, fudge: U16, now: U48,
                               m: Message, now': nat)
    requires Collisionless(hmac) && UncompressedName(ParsedName(key.algorithm)).1
    requires m.tsig == Signed(hmac, ntop, msg, key, fudge, now).0.tsig
    ensures Verified(hmac, m, key, now') == Accepted
            <==> InTime(now', now, fudge)
                 && EncodedMessage(m.(tsig := None), 0).bytes == EncodedMessage(msg.(tsig := None), 0).bytes
  {
    hide MacInput, EncodedMessage, Verified, Signed;
    SameRecordVerified(hmac, ntop, msg, key, fudge, now, m, key, now');
    BodiesTold(Unsigned(m), Unsigned(msg), key, now, fudge);
    if hmac(key.secret, MacInput(Unsigned(m), key, now, fudge))
       == hmac(key.secret, MacInput(Unsigned(msg), key, now, fudge)) {
      assert MacInput(Unsigned(m), key, now, fudge) == MacInput(Unsigned(msg), key, now, fudge);
    }
  }

  lemma SuffixCut(a: Bytes, b: Bytes, x: Bytes, y: Bytes)
    requires a + x == b + y && |x| == |y|
    ensures a == b && x == y
  {
    assert a == (a + x)[..|a|] && b == (b + y)[..|b|] && x == (a + x)[|a|..] && y == (b + y)[|b|..];
  }

  /** The variables behind the message. */
  function Variables(key: TsigKey, time: U48, fudge: U16): Bytes {
    UncompressedName(key.name).0
    + ([0, 255, 0, 0, 0, 0] + (UncompressedName(ParsedName(key.algorithm)).0
                               + (SixOctets(time) + TwoOctets(fudge) + [0, 0, 0, 0])))
  }

  lemma BodyThenVariables(body: Bytes, key: TsigKey, time: U48, fudge: U16)
    ensures MacInput(body, key, time, fudge) == body + Variables(key, time, fudge)
  {
    hide UncompressedName, SixOctets, ParsedName, MacInput;
    SameOctets(body, key, time, fudge);
    var a, b, c := UncompressedName(key.name).0, UncompressedName(ParsedName(key.algorithm)).0,
        SixOctets(time) + TwoOctets(fudge) + [0, 0, 0, 0];
    var x: Bytes := [0, 255, 0, 0, 0, 0];
    assert body + a + x + b + SixOctets(time) + TwoOctets(fudge) + [0, 0, 0, 0] == body + (a + (x + (b + c)));
  }

  lemma BodiesTold(a: Bytes, b: Bytes, key: TsigKey, time: U48, fudge: U16)
    ensures MacInput(a, key, time, fudge) == MacInput(b, key, time, fudge) <==> a == b
  {
    hide MacInput, Variables;
    BodyThenVariables(a, key, time, fudge);
    BodyThenVariables(b, key, time, fudge);
    if a + Variables(key, time, fudge) == b + Variables(key, time, fudge) {
      SuffixCut(a, b, Variables(key, time, fudge), Variables(key, time, fudge));
    }
  }

  // ---- Another key ------------------------------------------------------------------------------------

  /** Names whose labels fit are told apart by their octets, whatever follows. */
  lemma {:induction false} NamesEnd(a: Name, b: Name, x: Bytes, y: Bytes)
    requires WireName(a) && WireName(b) && UncompressedName(a).0 + x == UncompressedName(b).0 + y
    ensures a == b && x == y
  {
    WireIsWritten(a);
    WireIsWritten(b);
    var s, r := UncompressedName(a).0 + x, UncompressedName(b).0 + y;
    if a == [] || b == [] {
      assert s[0] == r[0];
      assert s[1..] == r[1..];
      assert a == b;
      assert x == s[1..] && y == r[1..];
    } else {
      LabelEnds(a[0], b[0], UncompressedName(a[1..]).0 + x, UncompressedName(b[1..]).0 + y, s, r);
      NamesEnd(a[1..], b[1..], x, y);
      assert a == [a[0]] + a[1..] && b == [b[0]] + b[1..];
    }
  }

  lemma LabelEnds(p: Str, q: Str, x: Bytes, y: Bytes, s: Bytes, r: Bytes)
    requires |p| < 256 && |q| < 256 && s == r
    requires s == [|p|] + p + x && r == [|q|] + q + y
    ensures p == q && x == y
  {
    assert s[0] == |p| && r[0] == |q|;
    assert s[1..1 + |p|] == p && r[1..1 + |q|] == q;
    assert s[1 + |p|..] == x && r[1 + |q|..] == y;
  }

  /** Which pairs of keys are told apart by the octets of their two names alone. */
  predicate NamesTold(a: TsigKey, b: TsigKey) {
    || (WireName(a.name) && WireName(b.name))
    || UncompressedName(a.name).0 == UncompressedName(b.name).0
    || UncompressedName(ParsedName(a.algorithm)).0 == UncompressedName(ParsedName(b.algorithm)).0
  }

  /**
   A key under another name is refused: with the same secret, the very message that was signed
   is accepted if and only if the clock is within the fudge and key name and algorithm encode
   to the same octets.
   */
  lemma OtherKeyRefused(hmac: Hmac, ntop: Ntop, msg: Message, key: TsigKey, fudge: U16, now: U48,
                        m: Message, key': TsigKey, now': nat)
    requires Collisionless(hmac) && UncompressedName(ParsedName(key.algorithm)).1
    requires m.tsig == Signed(hmac, ntop, msg, key, fudge, now).0.tsig
    requires EncodedMessage(m.(tsig := None), 0).bytes == EncodedMessage(msg.(tsig := None), 0).bytes
    requires key'.secret == key.secret && NamesTold(key, key')
    ensures Verified(hmac, m, key', now') == Accepted
            <==> && InTime(now', now, fudge)
                 && UncompressedName(key'.name).0 == UncompressedName(key.name).0
                 && UncompressedName(ParsedName(key'.algorithm)).0 == UncompressedName(ParsedName(key.algorithm)).0
  {
    hide MacInput, EncodedMessage, Verified, Signed, UncompressedName, ParsedName, NamesTold;
    SameRecordVerified(hmac, ntop, msg, key, fudge, now, m, key', now');
    KeysTold(Unsigned(msg), key, key', now, fudge);
    if hmac(key.secret, MacInput(Unsigned(m), key', now, fudge))
       == hmac(key.secret, MacInput(Unsigned(msg), key, now, fudge)) {
      assert MacInput(Unsigned(m), key', now, fudge) == MacInput(Unsigned(msg), key, now, fudge);
    }
  }

  lemma KeysTold(body: Bytes, a: TsigKey, b: TsigKey, time: U48, fudge: U16)
    requires NamesTold(a, b)
    ensures MacInput(body, a, time, fudge) == MacInput(body, b, time, fudge)
            <==> UncompressedName(a.name).0 == UncompressedName(b.name).0
                 && UncompressedName(ParsedName(a.algorithm)).0 == UncompressedName(ParsedName(b.algorithm)).0
  {
    hide MacInput, UncompressedName, ParsedName, SixOctets, WireName;
    BodyThenVariables(body, a, time, fudge);
    BodyThenVariables(body, b, time, fudge);
    var mid: Bytes := [0, 255, 0, 0, 0, 0];
    var tail := SixOctets(time) + TwoOctets(fudge) + [0, 0, 0, 0];
    var n, m := UncompressedName(a.name).0, UncompressedName(b.name).0;
    var v, w := UncompressedName(ParsedName(a.algorithm)).0, UncompressedName(ParsedName(b.algorithm)).0;
    if body + Variables(a, time, fudge) == body + Variables(b, time, fudge) {
      PrefixCut(body, Variables(a, time, fudge), Variables(b, time, fudge));
      if v == w {
        SuffixCut(n, m, mid + (v + tail), mid + (w + tail));
      } else {
        if WireName(a.name) && WireName(b.name) {
          NamesEnd(a.name, b.name, mid + (v + tail), mid + (w + tail));
        } else {
          PrefixCut(n, mid + (v + tail), mid + (w + tail));
        }
        PrefixCut(mid, v + tail, w + tail);
        SuffixCut(v, w, tail, tail);
      }
    }
  }

  lemma PrefixCut(a: Bytes, x: Bytes, y: Bytes)
    requires a + x == a + y
    ensures x == y
  {
    assert x == (a + x)[|a|..] && y == (a + y)[|a|..];
  }

  // ---- Other times ------------------------------------------------------------------------------------

  lemma FourDigitsBack(c: Byte, d: Byte, e: Byte, f: Byte)
    ensures var lo: int := ((c * 256 + d) * 256 + e) * 256 + f;
      && 0 <= lo < 0x1_0000_0000
      && lo / 0x100_0000 == c && lo / 0x1_0000 % 256 == d && lo / 256 % 256 == e && lo % 256 == f
  {
    var lo: int := ((c * 256 + d) * 256 + e) * 256 + f;
    assert lo / 256 == (c * 256 + d) * 256 + e;
    assert lo / 0x1_0000 == c * 256 + d;
  }

  lemma SixBack(b: Bytes, off: nat)
    requires off + 6 <= |b|
    ensures SixOctets(Get48(b, off)) == b[off..off + 6]
  {
    hide BigEndian, SixOctets;
    BigEndianTwo(b[off], b[off + 1]);
    BigEndianFour(b[off + 2], b[off + 3], b[off + 4], b[off + 5]);
    FourDigitsBack(b[off + 2], b[off + 3], b[off + 4], b[off + 5]);
    SixParts(Get16(b, off).value, Get32(b, off + 2).value);
  }

  lemma TwoBack(b: Bytes, off: nat)
    requires off + 2 <= |b|
    ensures TwoOctets(Get16(b, off).value) == b[off..off + 2]
  {
    hide BigEndian;
    BigEndianTwo(b[off], b[off + 1]);
  }

  /** The last octets that are hashed are the times. */
  lemma TimesTold(a: Bytes, key: TsigKey, t: U48, f: U16, b: Bytes, key': TsigKey, u: U48, g: U16)
    requires MacInput(a, key, t, f) == MacInput(b, key', u, g)
    ensures SixOctets(t) == SixOctets(u) && TwoOctets(f) == TwoOctets(g)
  {
    hide MacInput, UncompressedName, ParsedName;
    SameOctets(a, key, t, f);
    SameOctets(b, key', u, g);
    var x, y := a + UncompressedName(key.name).0 + [0, 255, 0, 0, 0, 0] + UncompressedName(ParsedName(key.algorithm)).0,
        b + UncompressedName(key'.name).0 + [0, 255, 0, 0, 0, 0] + UncompressedName(ParsedName(key'.algorithm)).0;
    SuffixCut(x + SixOctets(t) + TwoOctets(f), y + SixOctets(u) + TwoOctets(g), [0, 0, 0, 0], [0, 0, 0, 0]);
    SuffixCut(x + SixOctets(t), y + SixOctets(u), TwoOctets(f), TwoOctets(g));
    SuffixCut(x, y, SixOctets(t), SixOctets(u));
  }

  /**
   Changed times are refused: whatever the message and the clock, rdata in which the eight
   octets of time and fudge are not those that were signed is not accepted.
   */
  lemma AlteredTimesRefused(hmac: Hmac, ntop: Ntop, msg: Message, key: TsigKey, fudge: U16, now: U48,
                            m: Message, times: Bytes, now': nat)
    requires Collisionless(hmac) && UncompressedName(ParsedName(key.algorithm)).1
    requires m.tsig.Some? && |times| == 8 && times != SixOctets(now) + TwoOctets(fudge)
    requires var rdata := Signed(hmac, ntop, msg, key, fudge, now).0.tsig.value.rdata;
      var off := |UncompressedName(ParsedName(key.algorithm)).0|;
      off + 8 <= |rdata| && m.tsig.value.rdata == rdata[..off] + times + rdata[off + 8..]
    ensures Verified(hmac, m, key, now') != Accepted
  {
    hide MacInput, EncodedMessage, Fields, ParsedName, RdataToContent, Put48, Get48, SixOctets, DecodedName,
         UncompressedName, Put16;
    var alg := ParsedName(key.algorithm);
    var a := UncompressedName(alg).0;
    var off := |a|;
    var mac := hmac(key.secret, MacInput(Unsigned(msg), key, now, fudge));
    var rdata := TsigRdata(key, now, fudge, mac, msg.header.id);
    var other := m.tsig.value.rdata;
    FieldsOf(key, now, fudge, mac, msg.header.id);
    OtherFields(rdata, other, off, times, a, mac);
    ParsedIsProper(key.algorithm);
    UncompressedRoundTrip(other, 0, alg);
    SixBack(other, off);
    TwoBack(other, off + 6);
    var time, given := Get48(other, off), Get16(other, off + 6).value;
    assert times == other[off..off + 6] + other[off + 6..off + 8];
    if Verified(hmac, m, key, now') == Accepted {
      assert hmac(key.secret, MacInput(Unsigned(m), key, time, given)) == mac;
      TimesTold(Unsigned(m), key, time, given, Unsigned(msg), key, now, fudge);
    }
  }

  /** The fields around the times are found where they were. */
  lemma OtherFields(rdata: Bytes, other: Bytes, off: nat, times: Bytes, a: Bytes, mac: Bytes)
    requires off == |a| && off + 10 + |mac| <= |rdata| && |times| == 8 && |mac| < 0x1_0000
    requires other == rdata[..off] + times + rdata[off + 8..]
    requires At(rdata, 0, a) && At(rdata, off + 8, Put16(|mac| % 0x1_0000)) && At(rdata, off + 10, mac)
    ensures |other| == |rdata| && At(other, 0, a) && other[off..off + 6] + other[off + 6..off + 8] == times
    ensures Get16(other, off + 8).Got? && Get16(other, off + 8).value == |mac|
    ensures other[off + 10..off + 10 + |mac|] == mac
  {
    hide Get16, Put16;
    assert other[off + 8..] == rdata[off + 8..];
    assert other[off + 8..off + 10] == rdata[off + 8..off + 10];
    Get16Put(other, off + 8, |mac|);
    assert other[off + 10..off + 10 + |mac|] == rdata[off + 10..off + 10 + |mac|];
    assert other[..off] == rdata[..off];
    assert other[0..off] == rdata[0..off] == a;
  }
}
