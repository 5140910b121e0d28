/**
 TSIG signing and verification of src/simple-dnsd/protocol/tsig.cpp (section 3.4 of
 RFC 2845).  The keyed hash is the parameter `hmac` and the clock an argument.
 */
module Tsig {
  import opened Text
  import opened DnsNames
  import opened NameCodec
  import opened NameRoundTrip
  import opened Records
  import opened Rdata
  import opened MessageCodec
  import opened MessageRoundTrip

  type Hmac = (Bytes, Bytes) -> Bytes

  datatype TsigKey = TsigKey(name: Name, algorithm: Str, secret: Bytes)

  type U48 = n: int | 0 <= n < 0x1_0000_0000_0000

  function Put48(v: U48): (r: Bytes)
    ensures |r| == 6
  {
    Put16(v / 0x1_0000_0000) + Put32(v % 0x1_0000_0000)
  }

  function Get48(input: Bytes, off: nat): (v: U48)
    requires off + 6 <= |input|
  {
    Get16(input, off).value * 0x1_0000_0000 + Get32(input, off + 2).value
  }

  lemma Get48Put(buf: Bytes, off: nat, v: U48)
    requires At(buf, off, Put48(v))
    ensures Get48(buf, off) == v
  {
    hide Put16, Put32, Get16, Get32;
    AtSplit(buf, off, Put16(v / 0x1_0000_0000), Put32(v % 0x1_0000_0000));
    Get16Put(buf, off, v / 0x1_0000_0000);
    Get32Put(buf, off + 2, v % 0x1_0000_0000);
  }

  /** The octets that a name is encoded to, even when a label is too long. */
  function PlainOctets(n: Name): Bytes {
    UncompressedName(n).0
  }

  /** The octets that are hashed: the message without its TSIG, and the TSIG variables. */
  function MacInput(body: Bytes, key: TsigKey, time: U48, fudge: U16): Bytes {
    body + PlainOctets(key.name) + Put16(CLASS_ANY) + [0, 0, 0, 0] + PlainOctets(ParsedName(key.algorithm))
    + Put48(time) + Put16(fudge) + Put16(0) + Put16(0)
  }

  function Unsigned(msg: Message): Bytes {
    EncodedMessage(msg.(tsig := None), 0).bytes
  }

  function TsigRdata(key: TsigKey, time: U48, fudge: U16, mac: Bytes, id: U16): Bytes {
    PlainOctets(ParsedName(key.algorithm))
    + (Put48(time) + (Put16(fudge) + (Put16(|mac| % 0x1_0000) + (mac + (Put16(id) + Put16(0) + Put16(0))))))
  }

  function TsigRecord(ntop: Ntop, key: TsigKey, rdata: Bytes): ResourceRecord {
    RdataToContent(ntop, WireRecord(key.name, TYPE_TSIG, CLASS_ANY, 0, rdata)).rr
  }

  /** signMessage: the signed message, and whether there is a MAC or no secret. */
  function Signed(hmac: Hmac, ntop: Ntop, msg: Message, key: TsigKey, fudge: U16, now: nat): (Message, bool) {
    var time := now % 0x1_0000_0000_0000;
    var mac := hmac(key.secret, MacInput(Unsigned(msg), key, time, fudge));
    (msg.(tsig := Some(TsigRecord(ntop, key, TsigRdata(key, time, fudge, mac, msg.header.id)))),
     mac != [] || key.secret == [])
  }

  datatype Verdict = NoTsig | BadRdata | ShortTsig | ShortMac | BadTime | BadMac | Accepted

  function Distance(a: nat, b: nat): nat {
    if a > b then a - b else b - a
  }

  /** verifyMessage: the checks in their order. */
  function Verified(hmac: Hmac, msg: Message, key: TsigKey, now: nat): Verdict {
    if msg.tsig.None? then NoTsig else
    var rdata := msg.tsig.value.rdata;
    var alg := DecodedName(rdata, 0, 0);
    if alg.Fail? then BadRdata else
    var off := alg.next;
    if off + 10 > |rdata| then ShortTsig else
    var time := Get48(rdata, off);
    var fudge := Get16(rdata, off + 6).value;
    var size := Get16(rdata, off + 8).value;
    if off + 10 + size > |rdata| then ShortMac else
    if Distance(now, time) > fudge then BadTime else
    if hmac(key.secret, MacInput(Unsigned(msg), key, time, fudge)) != rdata[off + 10..off + 10 + size] then BadMac
    else Accepted
  }

  method WriteMacInput(body: Bytes, key: TsigKey, time: U48, fudge: U16) returns (w: Bytes)
    ensures w == MacInput(body, key, time, fudge)
  {
    hide Put16, Put48;
    var name, _ := EncodeUncompressed(key.name);
    var algorithm := Parse(key.algorithm);
    var alg, _ := EncodeUncompressed(algorithm);
    w := body + name + Put16(CLASS_ANY) + [0, 0, 0, 0] + alg;
    w := w + Put48(time) + Put16(fudge) + Put16(0) + Put16(0);
  }

  method SignMessage(hmac: Hmac, ntop: Ntop, msg: Message, key: TsigKey, fudge: U16, now: nat)
    returns (signed: Message, ok: bool)
    ensures (signed, ok) == Signed(hmac, ntop, msg, key, fudge, now)
  {
    hide EncodedMessage, Put16, Put48, MacInput;
    var wire, _ := EncodeMessage(msg.(tsig := None), 0);
    assert Wire(wire, EncodedMessage(msg.(tsig := None), 0).truncated) == EncodedMessage(msg.(tsig := None), 0);
    var time := now % 0x1_0000_0000_0000;
    var macInput := WriteMacInput(wire, key, time, fudge);
    var mac := hmac(key.secret, macInput);
    var algorithm := Parse(key.algorithm);
    var alg, _ := EncodeUncompressed(algorithm);
    var rdata := alg + (Put48(time) + (Put16(fudge) + (Put16(|mac| % 0x1_0000)
                 + (mac + (Put16(msg.header.id) + Put16(0) + Put16(0))))));
    var tsig := RdataToContent(ntop, WireRecord(key.name, TYPE_TSIG, CLASS_ANY, 0, rdata)).rr;
    signed := msg.(tsig := Some(tsig));
    ok := mac != [] || key.secret == [];
  }

  method VerifyMessage(hmac: Hmac, msg: Message, key: TsigKey, now: nat) returns (v: Verdict)
    ensures v == Verified(hmac, msg, key, now)
  {
    hide EncodedMessage, DecodedName, MacInput, Get48;
    if msg.tsig.None? {
      return NoTsig;
    }
    var rebuilt, _ := EncodeMessage(msg.(tsig := None), 0);
    assert Wire(rebuilt, EncodedMessage(msg.(tsig := None), 0).truncated) == EncodedMessage(msg.(tsig := None), 0);
    var rdata := msg.tsig.value.rdata;
    var alg := DecodeName(rdata, 0, 0);
    if alg.Fail? {
      return BadRdata;
    }
    var off := alg.next;
    if off + 6 + 2 + 2 > |rdata| {
      return ShortTsig;
    }
    var time := ReadTime(rdata, off);
    off := off + 6;
    var fudge := Get16(rdata, off).value;
    off := off + 2;
    var size := Get16(rdata, off).value;
    off := off + 2;
    if off + size > |rdata| {
      return ShortMac;
    }
    var mac := rdata[off..off + size];
    if Distance(now, time) > fudge {
      return BadTime;
    }
    var macInput := WriteMacInput(rebuilt, key, time, fudge);
    var own := hmac(key.secret, macInput);
    if own != mac {
      return BadMac;
    }
    return Accepted;
  }

  /** Six bytes shifted in one by one. */
  method ReadTime(rdata: Bytes, start: nat) returns (time: U48)
    requires start + 6 <= |rdata|
    ensures time == Get48(rdata, start)
  {
    var t: nat := 0;
    for i := 0 to 6
      invariant t == BigEndian(rdata[start..start + i])
    {
      assert rdata[start..start + i + 1] == rdata[start..start + i] + [rdata[start + i]];
      BigEndianSnoc(rdata[start..start + i], rdata[start + i]);
      t := t * 256 + rdata[start + i];
    }
    SixBytes(rdata, start);
    time := t;
  }

  lemma SixBytes(rdata: Bytes, start: nat)
    requires start + 6 <= |rdata|
    ensures BigEndian(rdata[start..start + 6]) == Get48(rdata, start)
  {
    hide BigEndian;
    var a, b, c, d, e, f := rdata[start], rdata[start + 1], rdata[start + 2], rdata[start + 3], rdata[start + 4],
        rdata[start + 5];
    assert rdata[start..start + 6] == [a, b, c, d] + [e] + [f];
    BigEndianSnoc([a, b, c, d], e);
    BigEndianSnoc([a, b, c, d] + [e], f);
    BigEndianFour(a, b, c, d);
    BigEndianTwo(a, b);
    BigEndianFour(c, d, e, f);
  }

  // ---- A signature verifies on the other side -----------------------------

  /** Where the fields of TSIG rdata stand. */
  predicate Fields(rdata: Bytes, off: nat, time: U48, fudge: U16, mac: Bytes) {
    && At(rdata, off, Put48(time)) && At(rdata, off + 6, Put16(fudge))
    && At(rdata, off + 8, Put16(|mac| % 0x1_0000)) && At(rdata, off + 10, mac)
  }

  lemma FieldsOf(key: TsigKey, time: U48, fudge: U16, mac: Bytes, id: U16)
    ensures var rdata := TsigRdata(key, time, fudge, mac, id); var a := PlainOctets(ParsedName(key.algorithm));
            At(rdata, 0, a) && Fields(rdata, |a|, time, fudge, mac)
  {
    hide Put16, Put48, PlainOctets;
    var a := PlainOctets(ParsedName(key.algorithm));
    var tail := Put16(id) + Put16(0) + Put16(0);
    var m := mac + tail;
    var s := Put16(|mac| % 0x1_0000) + m;
    var f := Put16(fudge) + s;
    var t := Put48(time) + f;
    var rdata := TsigRdata(key, time, fudge, mac, id);
    assert rdata == a + t && rdata[0..|rdata|] == rdata;
    AtSplit(rdata, 0, a, t);
    AtSplit(rdata, |a|, Put48(time), f);
    AtSplit(rdata, |a| + 6, Put16(fudge), s);
    AtSplit(rdata, |a| + 8, Put16(|mac| % 0x1_0000), m);
    AtSplit(rdata, |a| + 10, mac, tail);
  }

  lemma FieldsRead(rdata: Bytes, off: nat, time: U48, fudge: U16, mac: Bytes)
    requires Fields(rdata, off, time, fudge, mac) && |mac| < 0x1_0000
    ensures off + 10 + |mac| <= |rdata|
    ensures Get48(rdata, off) == time && Get16(rdata, off + 6).value == fudge
    ensures Get16(rdata, off + 8).value == |mac| && rdata[off + 10..off + 10 + |mac|] == mac
  {
    hide Put16, Put48, Get16, Get48;
    Get48Put(rdata, off, time);
    Get16Put(rdata, off + 6, fudge);
    Get16Put(rdata, off + 8, |mac| % 0x1_0000);
  }

  /** What the receiver concludes from rdata whose fields stand after the algorithm name. */
  lemma FieldsVerified(hmac: Hmac, msg: Message, key: TsigKey, now: nat, time: U48, fudge: U16, mac: Bytes)
    requires msg.tsig.Some? && |mac| < 0x1_0000
    requires var rdata := msg.tsig.value.rdata; var alg := DecodedName(rdata, 0, 0);
             alg.Got? && Fields(rdata, alg.next, time, fudge, mac)
    ensures Verified(hmac, msg, key, now) == Accepted
            <==> Distance(now, time) <= fudge && hmac(key.secret, MacInput(Unsigned(msg), key, time, fudge)) == mac
  {
    hide MacInput, DecodedName, Get48, Get16, Fields, EncodedMessage;
    var rdata := msg.tsig.value.rdata;
    FieldsRead(rdata, DecodedName(rdata, 0, 0).next, time, fudge, mac);
  }

  /**
   Sign, send, receive, verify, exactly: whatever the hash, the receiver accepts the wire
   form of a signed message if and only if its clock is within the fudge and its own key
   gives the sender's MAC over the message as it was sent.
   */
  lemma SignedMessageVerifies(hmac: Hmac, ntop: Ntop, msg: Message, key: TsigKey, fudge: U16, now: nat,
                              key': TsigKey, now': nat)
    requires now < 0x1_0000_0000_0000 && UncompressedName(ParsedName(key.algorithm)).1
    requires var s := Signed(hmac, ntop, msg, key, fudge, now).0;
             Encodable(s) && NoTsigIn(msg.additional) && !msg.header.tc
    ensures var s := Signed(hmac, ntop, msg, key, fudge, now).0;
      var d := DecodedMessage(ntop, EncodedMessage(s, 0).bytes);
      && d.Some?
      && (Verified(hmac, d.value, key', now') == Accepted <==>
          && Distance(now', now) <= fudge
          && hmac(key'.secret, MacInput(Unsigned(msg), key', now, fudge))
             == hmac(key.secret, MacInput(Unsigned(msg), key, now, fudge)))
  {
    hide Encodable, EncodedMessage, MacInput, DecodedName, DecodedMessage, TsigRdata, Fields, Verified, ParsedName,
         SurvivesText;
    var s := Signed(hmac, ntop, msg, key, fudge, now).0;
    var mac := hmac(key.secret, MacInput(Unsigned(msg), key, now, fudge));
    var rdata := TsigRdata(key, now, fudge, mac, msg.header.id);
    ReencodedMessage(ntop, s);
    SignedRdata(ntop, s);
    assert s.(tsig := None) == msg.(tsig := None);
    RdataIsSmall(key, now, fudge, mac, msg.header.id, s);
    FieldsOf(key, now, fudge, mac, msg.header.id);
    ParsedIsProper(key.algorithm);
    UncompressedRoundTrip(rdata, 0, ParsedName(key.algorithm));
    FieldsVerified(hmac, DecodedMessage(ntop, EncodedMessage(s, 0).bytes).value, key', now', now, fudge, mac);
  }

  lemma RdataIsSmall(key: TsigKey, time: U48, fudge: U16, mac: Bytes, id: U16, s: Message)
    requires Encodable(s) && s.tsig.Some? && s.tsig.value.rdata == TsigRdata(key, time, fudge, mac, id)
    ensures |mac| < 0x1_0000
  {
  }

  /** The TSIG record of an encodable message arrives with its rdata. */
  lemma SignedRdata(ntop: Ntop, s: Message)
    requires Encodable(s) && TsigInPlace(s) && !s.header.tc && s.tsig.Some?
    ensures var d := DecodedMessage(ntop, EncodedMessage(s, 0).bytes);
      d.Some? && d.value.tsig.Some? && d.value.tsig.value.rdata == s.tsig.value.rdata
  {
    hide Encodable, EncodedMessage, BackMessage, Arrived, DecodedMessage;
    MessageComesBack(ntop, s);
    BackSections(ntop, s);
    ArrivedFields(ntop, s.tsig.value.name, s.tsig.value);
    var b := BackMessage(ntop, s);
    assert TsigList(b.tsig) == BackTsig(ntop, s.tsig);
    assert TsigList(b.tsig)[0] == b.tsig.value;
  }

  /** With the same key, the signature is accepted exactly while the clocks agree. */
  lemma SameKeyVerifies(hmac: Hmac, ntop: Ntop, msg: Message, key: TsigKey, fudge: U16, now: nat, now': nat)
    requires now < 0x1_0000_0000_0000 && UncompressedName(ParsedName(key.algorithm)).1
    requires var s := Signed(hmac, ntop, msg, key, fudge, now).0;
             Encodable(s) && NoTsigIn(msg.additional) && !msg.header.tc
    ensures var s := Signed(hmac, ntop, msg, key, fudge, now).0;
      var d := DecodedMessage(ntop, EncodedMessage(s, 0).bytes);
      d.Some? && (Verified(hmac, d.value, key, now') == Accepted <==> Distance(now', now) <= fudge)
  {
    hide Verified, Encodable, EncodedMessage, DecodedMessage, Signed;
    SignedMessageVerifies(hmac, ntop, msg, key, fudge, now, key, now');
  }
}
