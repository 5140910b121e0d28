/**
 Rdata and its text: contentToRdata and rdataToContent of
 src/simple-dnsd/protocol/dns.cpp.  The address conversions of the C library are the
 parameters `ntop` and `pton`; an exception that std::stoi or std::stoul would throw is
 the outcome `Throws`.
 */
module Rdata {
  import opened Text
  import opened Numbers
  import opened DnsNames
  import opened NameCodec
  import opened Records

  /** inet_ntop: 4 or 16 bytes to text. */
  type Ntop = Bytes -> Str
  /** inet_pton: text to an address of the given size, or nothing. */
  type Pton = (Str, nat) -> Option<Bytes>

  const GENERIC: Str := [BACKSLASH, HASH]

  // ---- rdataToContent -------------------------------------------------------

  /** A record after a conversion, and whether the conversion succeeded. */
  datatype Converted = Converted(rr: ResourceRecord, ok: bool)

  /** decodeDomainRdata: a name in rdata, as absolute text. */
  function DomainText(rdata: Bytes, off: nat): Read<Str> {
    var r := DecodedName(rdata, off, 0);
    if r.Fail? then Fail else Got(ToText(r.value, true), r.next)
  }

  /** The character strings of TXT rdata from offset off, concatenated. */
  function TxtText(rdata: Bytes, off: nat): Option<Str>
    requires off <= |rdata|
    decreases |rdata| - off
  {
    if off == |rdata| then Some([])
    else
      var n := rdata[off];
      if off + 1 + n > |rdata| then None
      else
        Prefixed(rdata[off + 1..off + 1 + n], TxtText(rdata, off + 1 + n))
  }

  function Prefixed(w: Bytes, rest: Option<Bytes>): Option<Bytes> {
    if rest.None? then None else Some(w + rest.value)
  }

  lemma PrefixedTwice(a: Bytes, b: Bytes, rest: Option<Bytes>)
    ensures Prefixed(a, Prefixed(b, rest)) == Prefixed(a + b, rest)
    ensures Prefixed([], rest) == rest
  {
    if rest.Some? {
      assert a + (b + rest.value) == a + b + rest.value;
      assert [] + rest.value == rest.value;
    }
  }

  function GenericHex(rdata: Bytes): Str {
    if rdata == [] then [] else [SPACE] + HexByte(rdata[0]) + GenericHex(rdata[1..])
  }

  /** The RFC 3597 form: backslash, hash, length, and the bytes in hexadecimal. */
  function GenericText(rdata: Bytes): Str {
    GENERIC + [SPACE] + Decimal(|rdata|) + GenericHex(rdata)
  }

  function Spaced(words: seq<Str>): Str {
    Joined(words, [SPACE])
  }

  function SoaText(rdata: Bytes): Option<Str> {
    var m := DomainText(rdata, 0);
    if m.Fail? then None else
    var r := DomainText(rdata, m.next);
    if r.Fail? then None else
    var serial := Get32(rdata, r.next);
    if serial.Fail? then None else
    var refresh := Get32(rdata, serial.next);
    if refresh.Fail? then None else
    var retry := Get32(rdata, refresh.next);
    if retry.Fail? then None else
    var expire := Get32(rdata, retry.next);
    if expire.Fail? then None else
    var minimum := Get32(rdata, expire.next);
    if minimum.Fail? then None else
    Some(Spaced([m.value, r.value, Decimal(serial.value), Decimal(refresh.value), Decimal(retry.value),
                 Decimal(expire.value), Decimal(minimum.value)]))
  }

  function MxContent(rr: ResourceRecord): Converted {
    var prio := Get16(rr.rdata, 0);
    if prio.Fail? then Converted(rr, false) else
    var host := DomainText(rr.rdata, prio.next);
    var rr := rr.(prio := prio.value);
    if host.Fail? then Converted(rr, false)
    else Converted(rr.(content := Spaced([Decimal(prio.value), host.value])), true)
  }

  function SrvContent(rr: ResourceRecord): Converted {
    var prio := Get16(rr.rdata, 0);
    if prio.Fail? then Converted(rr, false) else
    var weight := Get16(rr.rdata, prio.next);
    if weight.Fail? then Converted(rr, false) else
    var port := Get16(rr.rdata, weight.next);
    if port.Fail? then Converted(rr, false) else
    var target := DomainText(rr.rdata, port.next);
    var rr := rr.(prio := prio.value);
    if target.Fail? then Converted(rr, false)
    else Converted(rr.(content := Spaced([Decimal(prio.value), Decimal(weight.value), Decimal(port.value),
                                          target.value])), true)
  }

  function CaaContent(rr: ResourceRecord): Converted {
    if |rr.rdata| < 2 || 2 + rr.rdata[1] > |rr.rdata| then Converted(rr, false)
    else
      var taglen := rr.rdata[1];
      Converted(rr.(content := Spaced([Decimal(rr.rdata[0]), rr.rdata[2..2 + taglen],
                                       [QUOTE] + rr.rdata[2 + taglen..] + [QUOTE]])), true)
  }

  function SetContent(rr: ResourceRecord, text: Option<Str>): Converted {
    if text.None? then Converted(rr, false) else Converted(rr.(content := text.value), true)
  }

  function AddressContent(ntop: Ntop, rr: ResourceRecord, size: nat): Converted {
    var text := if |rr.rdata| == size then ntop(rr.rdata) else [];
    Converted(rr.(content := text), text != [])
  }

  /** rdataToContent. */
  function RdataToContent(ntop: Ntop, rr: ResourceRecord): (r: Converted)
    ensures r.rr.name == rr.name && r.rr.rtype == rr.rtype && r.rr.rclass == rr.rclass
    ensures r.rr.ttl == rr.ttl && r.rr.rdata == rr.rdata
    ensures r.rr.disabled == rr.disabled && r.rr.auth == rr.auth
  {
    if rr.rdata == [] && rr.content != [] then Converted(rr, true)
    else if rr.rtype == TYPE_A then AddressContent(ntop, rr, 4)
    else if rr.rtype == TYPE_AAAA then AddressContent(ntop, rr, 16)
    else if rr.rtype in {TYPE_NS, TYPE_CNAME, TYPE_PTR} then
      var d := DomainText(rr.rdata, 0);
      SetContent(rr, if d.Fail? then None else Some(d.value))
    else if rr.rtype == TYPE_MX then MxContent(rr)
    else if rr.rtype == TYPE_SOA then SetContent(rr, SoaText(rr.rdata))
    else if rr.rtype == TYPE_TXT then
      var text := TxtText(rr.rdata, 0);
      SetContent(rr, if text.None? then None else Some([QUOTE] + text.value + [QUOTE]))
    else if rr.rtype == TYPE_SRV then SrvContent(rr)
    else if rr.rtype == TYPE_CAA then CaaContent(rr)
    else SetContent(rr, Some(GenericText(rr.rdata)))
  }

  // ---- contentToRdata -------------------------------------------------------

  /** encodeDomainRdata. */
  function DomainRdata(text: Str): Option<Bytes> {
    var (w, ok) := UncompressedName(ParsedName(text));
    if ok then Some(w) else None
  }

  /** A text between two quotes, or the text itself. */
  function Unquoted(text: Str): Str {
    if |text| >= 2 && text[0] == QUOTE && text[|text| - 1] == QUOTE then text[1..|text| - 1] else text
  }

  /** A non-empty text cut into character strings of at most 255 bytes. */
  function Chunks(text: Str): Bytes {
    if text == [] then []
    else
      var n := ChunkSize(|text|);
      [n] + text[..n] + Chunks(text[n..])
  }

  function ChunkSize(left: nat): (n: Byte)
    ensures n <= left && (left > 0 ==> n > 0)
  {
    if left < 255 then left else 255
  }

  function TxtRdata(content: Str): Bytes {
    var text := Unquoted(content);
    if text == [] then [0] else Chunks(text)
  }

  function HexPairs(hex: Str): Outcome<Bytes>
    requires |hex| % 2 == 0
  {
    if hex == [] then Returns([])
    else
      match Stoi(hex[..2], 16)
      case Throws => Throws
      case Returns(b) =>
        Before([b % 256], HexPairs(hex[2..]))
  }

  function Before(w: Bytes, rest: Outcome<Bytes>): Outcome<Bytes> {
    if rest.Throws? then Throws else Returns(w + rest.value)
  }

  lemma BeforeTwice(a: Bytes, b: Bytes, rest: Outcome<Bytes>)
    ensures Before(a, Before(b, rest)) == Before(a + b, rest)
    ensures Before([], rest) == rest
  {
    if rest.Returns? {
      assert a + (b + rest.value) == a + b + rest.value;
      assert [] + rest.value == rest.value;
    }
  }

  function Concatenated(parts: seq<Str>): Str {
    Joined(parts, [])
  }

  /** A 32-bit field: static_cast of stoul. */
  function Fields32(words: seq<Str>): Outcome<Bytes> {
    if words == [] then Returns([])
    else
      match Stoul(words[0])
      case Throws => Throws
      case Returns(v) =>
        Before(Put32(v % 0x1_0000_0000), Fields32(words[1..]))
  }

  /** The rdata of SOA text, if it has seven words and encodable names. */
  function SoaRdata(content: Str): Outcome<Option<Bytes>> {
    var parts := Words(content);
    if |parts| < 7 then Returns(None)
    else
      var m := DomainRdata(parts[0]);
      var r := DomainRdata(parts[1]);
      if m.None? || r.None? then Returns(None)
      else
        match Fields32(parts[2..7])
        case Throws => Throws
        case Returns(w) => Returns(Some(m.value + r.value + w))
  }

  function Set(rr: ResourceRecord, rdata: Option<Bytes>): Outcome<Converted> {
    Returns(if rdata.None? then Converted(rr, false) else Converted(rr.(rdata := rdata.value), true))
  }

  /** The priority in MX text: the first of several words, if it is a number. */
  function MxNumber(content: Str): Outcome<int> {
    var parts := Words(content);
    if |parts| >= 2 then Stoi(parts[0], 10) else Throws
  }

  /** The host in MX text: the word behind the priority, or else the whole text. */
  function MxHost(content: Str): Str {
    if MxNumber(content).Returns? then Words(content)[1] else content
  }

  function MxRdata(rr: ResourceRecord): Outcome<Converted> {
    var p := MxNumber(rr.content);
    var prio := if p.Returns? then p.value % 0x1_0000 else rr.prio;
    Set(rr.(prio := prio), Prefixed(Put16(prio), DomainRdata(MxHost(rr.content))))
  }

  /** SRV text has four words, or three when the priority is kept in the record. */
  function SrvRdata(rr: ResourceRecord): Outcome<Converted> {
    var parts := Words(rr.content);
    if |parts| != 3 && |parts| != 4 then Returns(Converted(rr, false))
    else
      var k := |parts| - 3;
      var p := if k == 1 then Stoi(parts[0], 10) else Returns(rr.prio);
      var w := Stoi(parts[k], 10);
      var q := Stoi(parts[k + 1], 10);
      if p.Throws? || w.Throws? || q.Throws? then Throws
      else
        var prio := p.value % 0x1_0000;
        Set(rr.(prio := prio),
            Prefixed(Put16(prio) + Put16(w.value % 0x1_0000) + Put16(q.value % 0x1_0000), DomainRdata(parts[k + 2])))
  }

  function CaaBytes(flag: Byte, tag: Str, val: Str): Bytes {
    [flag, |tag| % 256] + tag + val
  }

  function CaaRdata(rr: ResourceRecord): Outcome<Converted> {
    var parts := Words(rr.content);
    if |parts| < 3 then Returns(Converted(rr, false))
    else
      match Stoi(parts[0], 10)
      case Throws => Throws
      case Returns(flag) =>
        Set(rr, Some(CaaBytes(flag % 256, parts[1], Unquoted(Spaced(parts[2..])))))
  }

  function GenericRdata(rr: ResourceRecord): Outcome<Converted> {
    if rr.rdata != [] then Returns(Converted(rr, true))
    else if |rr.content| < 2 || rr.content[..2] != GENERIC then Returns(Converted(rr, false))
    else
      var parts := Words(rr.content);
      if |parts| < 2 then Returns(Converted(rr, false))
      else
        var hex := Concatenated(parts[2..]);
        if |hex| % 2 != 0 then Returns(Converted(rr, false))
        else
          match HexPairs(hex)
          case Throws => Throws
          case Returns(w) => Set(rr, Some(w))
  }

  /** contentToRdata. */
  function ContentToRdata(ntop: Ntop, pton: Pton, rr: ResourceRecord): Outcome<Converted> {
    if rr.rdata != [] && rr.content == [] then Returns(RdataToContent(ntop, rr))
    else if rr.rtype == TYPE_A then Set(rr, pton(rr.content, 4))
    else if rr.rtype == TYPE_AAAA then Set(rr, pton(rr.content, 16))
    else if rr.rtype in {TYPE_NS, TYPE_CNAME, TYPE_PTR} then Set(rr, DomainRdata(rr.content))
    else if rr.rtype == TYPE_MX then MxRdata(rr)
    else if rr.rtype == TYPE_SOA then
      match SoaRdata(rr.content) {
        case Throws => Throws
        case Returns(w) => Set(rr, w)
      }
    else if rr.rtype == TYPE_TXT then Set(rr, Some(TxtRdata(rr.content)))
    else if rr.rtype == TYPE_SRV then SrvRdata(rr)
    else if rr.rtype == TYPE_CAA then CaaRdata(rr)
    else GenericRdata(rr)
  }

  /** The outcome of a conversion with another name on the record. */
  function Under(name: Name, o: Outcome<Converted>): Outcome<Converted> {
    match o
    case Throws => Throws
    case Returns(c) => Returns(Converted(c.rr.(name := name), c.ok))
  }

  /** The conversion of text does not look at the name. */
  lemma NameIsIrrelevant(ntop: Ntop, pton: Pton, rr: ResourceRecord, name: Name)
    requires rr.rdata == []
    ensures ContentToRdata(ntop, pton, rr.(name := name)) == Under(name, ContentToRdata(ntop, pton, rr))
  {
    hide DomainRdata, TxtRdata, SoaRdata, MxRdata, SrvRdata, CaaRdata, GenericRdata, RdataToContent;
    MxUnder(rr, name);
    SrvUnder(rr, name);
    CaaUnder(rr, name);
    GenericUnder(rr, name);
  }

  lemma MxUnder(rr: ResourceRecord, name: Name)
    ensures MxRdata(rr.(name := name)) == Under(name, MxRdata(rr))
  {
    hide DomainRdata, Words, Stoi, Prefixed;
  }

  lemma SrvUnder(rr: ResourceRecord, name: Name)
    ensures SrvRdata(rr.(name := name)) == Under(name, SrvRdata(rr))
  {
    hide DomainRdata, Words, Stoi, Prefixed;
  }

  lemma CaaUnder(rr: ResourceRecord, name: Name)
    ensures CaaRdata(rr.(name := name)) == Under(name, CaaRdata(rr))
  {
    hide Words, Stoi, Spaced, CaaBytes, Unquoted;
  }

  lemma GenericUnder(rr: ResourceRecord, name: Name)
    ensures GenericRdata(rr.(name := name)) == Under(name, GenericRdata(rr))
  {
    hide Words, Stoi, HexPairs, Concatenated;
  }

  /** A conversion changes rdata, content and priority only. */
  lemma ConvertedKeeps(ntop: Ntop, pton: Pton, rr: ResourceRecord)
    ensures var c := ContentToRdata(ntop, pton, rr);
      c.Returns? ==> SameButText(c.value.rr, rr)
  {
    hide DomainRdata, TxtRdata, SoaRdata, MxRdata, SrvRdata, CaaRdata, GenericRdata, RdataToContent;
    ContentKeeps(ntop, rr);
    HostsKeep(rr);
    OthersKeep(rr);
  }

  predicate SameButText(a: ResourceRecord, b: ResourceRecord) {
    a.(rdata := b.rdata, content := b.content, prio := b.prio) == b
  }

  lemma ContentKeeps(ntop: Ntop, rr: ResourceRecord)
    ensures SameButText(RdataToContent(ntop, rr).rr, rr)
  {
    hide DomainText, TxtText, SoaText, GenericText, Spaced, Decimal, Get16;
  }

  lemma HostsKeep(rr: ResourceRecord)
    ensures MxRdata(rr).Returns? ==> SameButText(MxRdata(rr).value.rr, rr)
    ensures SrvRdata(rr).Returns? ==> SameButText(SrvRdata(rr).value.rr, rr)
  {
    hide DomainRdata, Words, Stoi, Prefixed;
  }

  lemma OthersKeep(rr: ResourceRecord)
    ensures CaaRdata(rr).Returns? ==> SameButText(CaaRdata(rr).value.rr, rr)
    ensures GenericRdata(rr).Returns? ==> SameButText(GenericRdata(rr).value.rr, rr)
  {
    hide Words, Stoi, Spaced, HexPairs, Concatenated, CaaBytes, Unquoted;
  }

  // ---- The loops ------------------------------------------------------------

  /** The chunking loop of TXT text. */
  method ChunkText(text: Str) returns (out: Bytes)
    ensures out == if text == [] then [0] else Chunks(text)
  {
    hide Chunks;
    out := [];
    var i := 0;
    assert text[0..] == text;
    while i < |text|
      invariant 0 <= i <= |text|
      invariant Chunks(text) == out + Chunks(text[i..])
    {
      var n := ChunkSize(|text| - i);
      ChunkStep(text, i, out);
      out := out + [n];
      out := out + text[i..i + n];
      i := i + n;
    }
    assert text[i..] == [];
    NoChunks();
    if text == [] {
      out := out + [0];
    }
  }

  lemma NoChunks()
    ensures Chunks([]) == []
  {
  }

  lemma ChunkStep(text: Str, i: nat, out: Bytes)
    requires i < |text|
    ensures var n := ChunkSize(|text| - i);
            out + Chunks(text[i..]) == out + [n] + text[i..i + n] + Chunks(text[i + n..])
  {
    var n := ChunkSize(|text| - i);
    var rest := text[i..];
    assert rest[..n] == text[i..i + n] && rest[n..] == text[i + n..];
    assert Chunks(rest) == [n] + rest[..n] + Chunks(rest[n..]);
  }

  /** The collecting loop of TXT rdata. */
  method CollectText(rdata: Bytes) returns (text: Option<Str>)
    ensures text == TxtText(rdata, 0)
  {
    var s: Str := [];
    var off := 0;
    PrefixedTwice([], [], TxtText(rdata, 0));
    while off < |rdata|
      invariant 0 <= off <= |rdata|
      invariant TxtText(rdata, 0) == Prefixed(s, TxtText(rdata, off))
    {
      var n := rdata[off];
      off := off + 1;
      if off + n > |rdata| {
        return None;
      }
      PrefixedTwice(s, rdata[off..off + n], TxtText(rdata, off + n));
      s := s + rdata[off..off + n];
      off := off + n;
    }
    assert s + [] == s;
    return Some(s);
  }

  /** The printing loop of the generic form. */
  method PrintGeneric(rdata: Bytes) returns (text: Str)
    ensures text == GenericText(rdata)
  {
    text := GENERIC + [SPACE] + Decimal(|rdata|);
    for i := 0 to |rdata|
      invariant GenericText(rdata) == text + GenericHex(rdata[i..])
    {
      assert rdata[i..][1..] == rdata[i + 1..];
      text := text + [SPACE];
      text := text + HexByte(rdata[i]);
    }
  }

  /** The reading loop of the generic form. */
  method ReadHex(hex: Str) returns (out: Outcome<Bytes>)
    requires |hex| % 2 == 0
    ensures out == HexPairs(hex)
  {
    hide Stoi;
    var w: Bytes := [];
    var i := 0;
    BeforeTwice([], [], HexPairs(hex));
    assert hex[0..] == hex;
    while i < |hex|
      invariant 0 <= i <= |hex| && i % 2 == 0
      invariant HexPairs(hex) == Before(w, HexPairs(hex[i..]))
    {
      assert hex[i..][..2] == hex[i..i + 2] && hex[i..][2..] == hex[i + 2..];
      var b := Stoi(hex[i..i + 2], 16);
      if b.Throws? {
        return Throws;
      }
      BeforeTwice(w, [b.value % 256], HexPairs(hex[i + 2..]));
      w := w + [b.value % 256];
      i := i + 2;
    }
    assert w + [] == w;
    return Returns(w);
  }
}
