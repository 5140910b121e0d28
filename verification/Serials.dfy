/**
 SOA serials: soaSerial, setSoaSerial and bumpSerial of src/simple-dnsd/zone/zone.cpp.
 */
module Serials {
  import opened Text
  import opened NameCodec
  import opened Records
  import opened Numbers
  import opened Rdata

  /** The record with its text filled in from the rdata when it has none. */
  function Shown(ntop: Ntop, rr: ResourceRecord): ResourceRecord {
    if rr.content == [] then RdataToContent(ntop, rr).rr else rr
  }

  /** The third word as a 32-bit value; 0 when there is none or it is no number. */
  function SoaSerial(ntop: Ntop, soa: ResourceRecord): U32 {
    var own := Words(soa.content);
    var parts := if |own| < 3 then Words(Shown(ntop, soa).content) else own;
    if |parts| < 3 then 0
    else
      match Stoul(parts[2])
      case Throws => 0
      case Returns(v) => v % 0x1_0000_0000
  }

  /** A record after a change that an exception may have cut short. */
  datatype Edited = Edited(rr: ResourceRecord, threw: bool)

  /** setSoaSerial; text of fewer than seven words is left as it is. */
  function WithSerial(ntop: Ntop, pton: Pton, soa: ResourceRecord, serial: U32): Edited {
    var s := Shown(ntop, soa);
    var parts := Words(s.content);
    if |parts| < 7 then Edited(s, false)
    else
      var t := s.(content := Spaced(parts[2 := Decimal(serial)]), rdata := []);
      match ContentToRdata(ntop, pton, t)
      case Throws => Edited(t, true)
      case Returns(c) => Edited(c.rr, false)
  }

  function Bumped(serial: U32): U32 {
    (serial + 1) % 0x1_0000_0000
  }

  /** Section 3.2 of RFC 1982: a is greater than b in 32-bit serial arithmetic. */
  predicate SerialGreater(a: U32, b: U32) {
    (a < b && b - a > 0x8000_0000) || (a > b && a - b < 0x8000_0000)
  }

  // ---- A well-formed SOA ------------------------------------------------------

  /** Seven words: two names that can be encoded and five numbers, the first of them the serial. */
  predicate SoaWords(words: seq<Str>, serial: U32) {
    && |words| >= 7
    && DomainRdata(words[0]).Some? && DomainRdata(words[1]).Some?
    && Stoul(words[2]).Returns? && Stoul(words[2]).value % 0x1_0000_0000 == serial
    && Fields32(words[3..7]).Returns?
  }

  /** The text of the record, given or made from its rdata, is a well-formed SOA with this serial. */
  predicate WellFormed(ntop: Ntop, rr: ResourceRecord, serial: U32) {
    rr.rtype == TYPE_SOA && SoaWords(Words(Shown(ntop, rr).content), serial)
  }

  /** The rdata says what the text says, serial included. */
  predicate RdataAgrees(rr: ResourceRecord, serial: U32) {
    var w := Words(rr.content);
    && SoaWords(w, serial)
    && rr.rdata == DomainRdata(w[0]).value + DomainRdata(w[1]).value + Put32(serial) + Fields32(w[3..7]).value
  }

  /** Putting a serial in changes that word alone. */
  lemma SerialWords(content: Str, serial: U32)
    requires |Words(content)| >= 7
    ensures Words(Spaced(Words(content)[2 := Decimal(serial)])) == Words(content)[2 := Decimal(serial)]
    ensures Stoul(Decimal(serial)) == Returns(serial)
  {
    hide Words, Joined, IsWord, Stoul, Stoi, Recognised, Decimal;
    WordsAreWords(content);
    DecimalReadBack(serial);
    WordsOfJoined(Words(content)[2 := Decimal(serial)]);
  }

  lemma FieldsFrom(words: seq<Str>, serial: U32)
    requires |words| >= 7 && Stoul(words[2]) == Returns(serial) && Fields32(words[3..7]).Returns?
    ensures Fields32(words[2..7]) == Returns(Put32(serial) + Fields32(words[3..7]).value)
  {
    hide Stoul, Put32;
    assert words[2..7][0] == words[2] && words[2..7][1..] == words[3..7];
  }

  /** A well-formed SOA gets exactly the new serial, in its text and in its rdata. */
  lemma SerialIsSet(ntop: Ntop, pton: Pton, rr: ResourceRecord, prior: U32, serial: U32)
    requires WellFormed(ntop, rr, prior)
    ensures var e := WithSerial(ntop, pton, rr, serial);
      && !e.threw && WellFormed(ntop, e.rr, serial) && RdataAgrees(e.rr, serial) && SoaSerial(ntop, e.rr) == serial
      && e.rr.name == rr.name && e.rr.rclass == rr.rclass && e.rr.ttl == rr.ttl && e.rr.disabled == rr.disabled
      && e.rr.rtype == TYPE_SOA && e.rr.rdata != []
  {
    hide Words, Spaced, DomainRdata, Stoul, Fields32, Decimal, RdataToContent, SoaRdata, SoaWords;
    var s := Shown(ntop, rr);
    var parts := Words(s.content);
    SoaWordsLength(parts, prior);
    var words := parts[2 := Decimal(serial)];
    SerialWords(s.content, serial);
    var t := s.(content := Spaced(words), rdata := []);
    SoaParses(t.content, parts, prior, serial);
    SoaConverted(ntop, pton, t);
    SoaWordsLength(words, serial);
  }

  lemma SoaWordsLength(words: seq<Str>, serial: U32)
    requires SoaWords(words, serial)
    ensures |words| >= 7 && Stoul(words[2]).Returns? && Stoul(words[2]).value % 0x1_0000_0000 == serial
  {
  }

  lemma SoaConverted(ntop: Ntop, pton: Pton, t: ResourceRecord)
    requires t.rtype == TYPE_SOA && t.rdata == [] && SoaRdata(t.content).Returns? && SoaRdata(t.content).value.Some?
    ensures ContentToRdata(ntop, pton, t)
            == Returns(Converted(t.(rdata := SoaRdata(t.content).value.value), true))
  {
    hide SoaRdata, MxRdata, SrvRdata, CaaRdata, GenericRdata, TxtRdata, DomainRdata, RdataToContent;
  }

  lemma SoaParses(content: Str, parts: seq<Str>, prior: U32, serial: U32)
    requires SoaWords(parts, prior) && Words(content) == parts[2 := Decimal(serial)]
    requires Stoul(Decimal(serial)) == Returns(serial)
    ensures SoaWords(Words(content), serial)
    ensures content != []
    ensures var w := Words(content);
      && SoaRdata(content) == Returns(Some(DomainRdata(w[0]).value + DomainRdata(w[1]).value
                                           + Put32(serial) + Fields32(w[3..7]).value))
      && |Put32(serial)| == 4
  {
    hide Words, DomainRdata, Stoul, Fields32, Decimal, Put32;
    var w := Words(content);
    assert w[3..7] == parts[3..7];
    FieldsFrom(w, serial);
    if content == [] { NoWords(); }
    var a, b, c, d := DomainRdata(w[0]).value, DomainRdata(w[1]).value, Put32(serial), Fields32(w[3..7]).value;
    assert a + b + (c + d) == a + b + c + d;
  }
}
