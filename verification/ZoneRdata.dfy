/**
 Records that are kept as rdata alone: for every type that has a text form the written text
 says all of the record, so that whole zones come back from their master files.
 */
module ZoneRdata {
  import opened Text
  import opened DnsNames
  import opened NameCodec
  import opened Compression
  import opened NameRoundTrip
  import opened Records
  import opened Numbers
  import opened Rdata
  import opened RdataRoundTrip
  import opened Store
  import opened ZoneText
  import opened ZoneTextRoundTrip
  import opened ZoneOwners

  // ---- Words of a content -------------------------------------------------------------------

  /** Bytes that can stand between quotes. */
  predicate QuotableText(s: Str) {
    NoByte(s, QUOTE) && NoByte(s, NEWLINE)
  }

  /** A column of a content: a plain word, or a text between quotes. */
  ghost predicate FileWord(w: Str) {
    PlainWord(w) || exists s: Str :: QuotableText(s) && w == Quoted(s)
  }

  ghost predicate FileWords(ws: seq<Str>) {
    forall i :: 0 <= i < |ws| ==> FileWord(ws[i])
  }

  lemma {:induction false} QuotedTaken(s: Str, rest: Str, cur: Str)
    requires NoByte(s, QUOTE)
    ensures TokensFrom(s + rest, cur, true) == TokensFrom(rest, cur + s, true)
  {
    if s == [] {
      assert s + rest == rest && cur + s == cur;
    } else {
      assert (s + rest)[1..] == s[1..] + rest;
      assert cur + [s[0]] + s[1..] == cur + s;
      QuotedTaken(s[1..], rest, cur + [s[0]]);
    }
  }

  lemma {:induction false} QuotedBytes(s: Str)
    requires QuotableText(s)
    ensures LineBytes(s, true) && QuotedAfter(s, true)
  {
    if s != [] { QuotedBytes(s[1..]); }
  }

  lemma QuoteByte(q: bool)
    ensures LineBytes([QUOTE], q) && QuotedAfter([QUOTE], q) == !q
  {
    assert [QUOTE][1..] == [];
  }

  lemma QuotedIsClean(s: Str)
    requires QuotableText(s)
    ensures Clean(Quoted(s))
  {
    hide LineBytes, QuotedAfter;
    QuotedBytes(s);
    QuoteByte(false);
    QuoteByte(true);
    LineBytesConcat([QUOTE], s, false);
    LineBytesConcat([QUOTE] + s, [QUOTE], false);
  }

  lemma QuoteOpens(rest: Str)
    ensures TokensFrom([QUOTE] + rest, [], false) == TokensFrom(rest, [QUOTE], true)
  {
    assert ([QUOTE] + rest)[1..] == rest && [] + [QUOTE] == [QUOTE];
  }

  lemma QuoteCloses(cur: Str, rest: Str)
    ensures TokensFrom([QUOTE] + rest, cur, true) == TokensFrom(rest, cur + [QUOTE], false)
  {
    assert ([QUOTE] + rest)[1..] == rest;
  }

  lemma FileWordTaken(w: Str, rest: Str)
    requires FileWord(w)
    ensures w != [] && TokensFrom(w + rest, [], false) == TokensFrom(rest, w, false)
  {
    hide TokensFrom;
    if PlainWord(w) {
      TokenTaken(w, rest, []);
      assert [] + w == w;
    } else {
      var s: Str :| QuotableText(s) && w == Quoted(s);
      assert w + rest == [QUOTE] + (s + ([QUOTE] + rest));
      QuoteOpens(s + ([QUOTE] + rest));
      QuotedTaken(s, [QUOTE] + rest, [QUOTE]);
      QuoteCloses([QUOTE] + s, rest);
    }
  }

  lemma FileWordIsClean(w: Str)
    requires FileWord(w)
    ensures Clean(w) && w != [] && !IsSpace(w[|w| - 1])
  {
    hide Clean;
    if PlainWord(w) {
      WordsAreClean(w);
    } else {
      var s: Str :| QuotableText(s) && w == Quoted(s);
      QuotedIsClean(s);
    }
  }

  lemma TokensEnd(cur: Str)
    requires cur != []
    ensures TokensFrom([], cur, false) == [cur]
  {
  }

  /** Words joined with blanks are clean text, and its tokens are the words. */
  lemma {:induction false} FileWordsAreTokens(ws: seq<Str>)
    requires ws != [] && FileWords(ws)
    ensures Tokens(Spaced(ws)) == ws && Clean(Spaced(ws))
    ensures Spaced(ws) != [] && !IsSpace(Spaced(ws)[|Spaced(ws)| - 1])
  {
    hide TokensFrom, Clean, FileWord;
    FileWordIsClean(ws[0]);
    if |ws| == 1 {
      FileWordTaken(ws[0], []);
      assert ws[0] + [] == ws[0];
      TokensEnd(ws[0]);
    } else {
      var rest := Spaced(ws[1..]);
      FileWordsAreTokens(ws[1..]);
      assert Spaced(ws) == ws[0] + [SPACE] + rest == ws[0] + ([SPACE] + rest);
      FileWordTaken(ws[0], [SPACE] + rest);
      BlankEnds(ws[0], SPACE, rest);
      CleanBlank();
      CleanConcat(ws[0], [SPACE]);
      CleanConcat(ws[0] + [SPACE], rest);
    }
  }

  /** The host columns of a content in words are absolute. */
  predicate HostWords(t: U16, ws: seq<Str>) {
    HasHost(t) ==>
      && ws != [] && ws[0] != AT
      && (HostIndex(t) < |ws| ==> IsAbsolute(ws[HostIndex(t)]))
      && (t == TYPE_SOA && |ws| > 1 ==> IsAbsolute(ws[1]))
      && forall i :: 0 <= i < |ws| ==> IsWord(ws[i])
  }

  // ---- One record -----------------------------------------------------------------------------

  /** The shown text of the record in words that can stand in a file, with the conversion back. */
  ghost predicate InWords(ntop: Ntop, pton: Pton, rr: ResourceRecord, ws: seq<Str>) {
    && ws != [] && FileWords(ws) && HostWords(rr.rtype, ws)
    && Serials.Shown(ntop, rr).content == Spaced(ws)
    && ContentToRdata(ntop, pton, TextRecord(rr.name, rr.rtype, rr.ttl, Spaced(ws)))
       == Returns(Converted(rr.(content := Spaced(ws)), true))
  }

  /** A record of the zone under a name of bytes that mean themselves. */
  predicate Placed(origin: Name, rr: ResourceRecord) {
    IsSubdomainOf(rr.name, origin) && (Relative(rr.name, origin) != ROOT ==> FileName(Relative(rr.name, origin)))
  }

  lemma InWordsDescribable(ntop: Ntop, pton: Pton, origin: Name, rr: ResourceRecord, ws: seq<Str>)
    requires Placed(origin, rr) && InWords(ntop, pton, rr, ws)
    ensures Describable(ntop, pton, origin, rr)
  {
    hide ContentToRdata, Serials.Shown, FileName, FileWords, Tokens, Words, Joined, Clean, IsSubdomainOf, Relative;
    FileWordsAreTokens(ws);
    if HasHost(rr.rtype) { WordsOfJoined(ws); }
  }

  /** An enabled Internet record that has rdata and no text yet. */
  predicate RdataOnly(rr: ResourceRecord) {
    rr.content == [] && rr.rclass == CLASS_IN && !rr.disabled && rr.auth
  }

  // ---- Names in the content ---------------------------------------------------------------------

  lemma FileNameIsTextName(n: Name)
    requires FileName(n)
    ensures TextName(n)
  {
    hide UncompressedName;
    assert forall i :: 0 <= i < |n| ==> PlainLabel(n[i]);
    UncompressedOk(n);
  }

  lemma HostWord(n: Name)
    requires FileName(n)
    ensures TextName(n)
    ensures var w := ToText(n, true); FileWord(w) && IsWord(w) && IsAbsolute(w) && w != AT
  {
    hide FileName, ToText, ParsedName, TextName, IsWord;
    FileNameIsTextName(n);
    OriginText(n);
    PlainIsWord(ToText(n, true));
  }

  lemma NumberWord(n: nat)
    ensures var w := Decimal(n); FileWord(w) && IsWord(w) && w != AT
  {
    hide Stoul, Stoi, Recognised;
    DecimalReadBack(n);
    assert PlainWord(Decimal(n));
    assert IsDigit(Decimal(n)[0]);
  }

  lemma NameInWords(ntop: Ntop, pton: Pton, rr: ResourceRecord, n: Name)
    requires rr.rtype in {TYPE_NS, TYPE_CNAME, TYPE_PTR} && RdataOnly(rr) && rr.prio == 0
    requires FileName(n) && rr.rdata == UncompressedName(n).0
    ensures InWords(ntop, pton, rr, [ToText(n, true)])
  {
    hide FileName, ToText, TextName, FileWord, UncompressedName, RdataToContent, ContentToRdata, IsWord, IsAbsolute;
    HostWord(n);
    NameRdataRoundTrip(ntop, pton, rr, n);
    NameShown(ntop, rr, n);
  }

  lemma MxInWords(ntop: Ntop, pton: Pton, rr: ResourceRecord, host: Name)
    requires rr.rtype == TYPE_MX && RdataOnly(rr) && FileName(host) && rr.rdata == MxBytes(rr.prio, host)
    ensures InWords(ntop, pton, rr, [Decimal(rr.prio), ToText(host, true)])
  {
    hide FileName, ToText, TextName, FileWord, UncompressedName, RdataToContent, ContentToRdata, IsWord, IsAbsolute,
         Decimal, Joined, MxBytes;
    HostWord(host);
    NumberWord(rr.prio);
    MxRoundTrip(ntop, pton, rr, rr.prio, host);
    MxPriority(ntop, pton, rr, host);
  }

  /** The priority of the record does not matter where the text gives one. */
  lemma {:induction false} MxPriority(ntop: Ntop, pton: Pton, rr: ResourceRecord, host: Name)
    requires rr.rtype == TYPE_MX && RdataOnly(rr) && FileName(host) && rr.rdata == MxBytes(rr.prio, host)
    ensures var text := Spaced([Decimal(rr.prio), ToText(host, true)]);
      ContentToRdata(ntop, pton, TextRecord(rr.name, rr.rtype, rr.ttl, text))
      == Returns(Converted(rr.(content := text), true))
  {
    hide FileName, ToText, TextName, RdataToContent, Decimal, Spaced, MxRdata, MxBytes;
    FileNameIsTextName(host);
    var text := Spaced([Decimal(rr.prio), ToText(host, true)]);
    MxParsed(TextRecord(rr.name, rr.rtype, rr.ttl, text), rr.prio, host);
  }

  lemma SrvInWords(ntop: Ntop, pton: Pton, rr: ResourceRecord, weight: U16, port: U16, target: Name)
    requires rr.rtype == TYPE_SRV && RdataOnly(rr) && FileName(target)
    requires rr.rdata == SrvBytes(rr.prio, weight, port, target)
    ensures InWords(ntop, pton, rr, SrvWords(rr.prio, weight, port, target))
  {
    hide FileName, ToText, TextName, FileWord, UncompressedName, RdataToContent, ContentToRdata, IsWord, IsAbsolute,
         Decimal, Joined, SrvBytes;
    HostWord(target);
    NumberWord(rr.prio);
    NumberWord(weight);
    NumberWord(port);
    SrvRoundTrip(ntop, pton, rr, rr.prio, weight, port, target);
    SrvPriority(ntop, pton, rr, weight, port, target);
  }

  lemma SrvPriority(ntop: Ntop, pton: Pton, rr: ResourceRecord, weight: U16, port: U16, target: Name)
    requires rr.rtype == TYPE_SRV && RdataOnly(rr) && FileName(target)
    requires rr.rdata == SrvBytes(rr.prio, weight, port, target)
    ensures var text := Spaced(SrvWords(rr.prio, weight, port, target));
      ContentToRdata(ntop, pton, TextRecord(rr.name, rr.rtype, rr.ttl, text))
      == Returns(Converted(rr.(content := text), true))
  {
    hide FileName, ToText, TextName, UncompressedName, RdataToContent, IsWord, Decimal, Joined, Words, Stoi,
         DomainRdata, Put16, FileWord;
    HostWord(target);
    SrvParsed(rr.prio, weight, port, target);
    assert Put16(rr.prio) + Put16(weight) + Put16(port) + UncompressedName(target).0 == rr.rdata;
  }

  lemma SoaInWords(ntop: Ntop, pton: Pton, rr: ResourceRecord, mname: Name, rname: Name, t: SoaTimers)
    requires rr.rtype == TYPE_SOA && RdataOnly(rr) && rr.prio == 0 && FileName(mname) && FileName(rname)
    requires rr.rdata == SoaBytes(mname, rname, t)
    ensures InWords(ntop, pton, rr, SoaWords(mname, rname, t))
  {
    hide FileName, ToText, TextName, FileWord, UncompressedName, RdataToContent, ContentToRdata, IsWord, IsAbsolute,
         Decimal, Joined, SoaBytes;
    HostWord(mname);
    HostWord(rname);
    NumberWord(t.serial);
    NumberWord(t.refresh);
    NumberWord(t.retry);
    NumberWord(t.expire);
    NumberWord(t.minimum);
    SoaRoundTrip(ntop, pton, rr, mname, rname, t);
    ShownHasPriority(ntop, rr);
  }

  /** Showing a record of a type without priority sets the text only. */
  lemma ShownHasPriority(ntop: Ntop, rr: ResourceRecord)
    requires rr.rtype != TYPE_MX && rr.rtype != TYPE_SRV
    ensures var s := RdataToContent(ntop, rr).rr; s == rr.(content := s.content)
  {
    hide DomainText, TxtText, SoaText, GenericText, Joined, Decimal;
  }

  // ---- Texts, addresses and bytes ------------------------------------------------------------------

  lemma QuotedWord(s: Str)
    requires QuotableText(s)
    ensures FileWord(Quoted(s))
  {
  }

  lemma TxtInWords(ntop: Ntop, pton: Pton, rr: ResourceRecord, text: Str)
    requires rr.rtype == TYPE_TXT && RdataOnly(rr) && rr.prio == 0
    requires CanonicalTxt(rr.rdata) && TxtText(rr.rdata, 0) == Some(text) && QuotableText(text)
    ensures InWords(ntop, pton, rr, [Quoted(text)])
  {
    hide CanonicalTxt, TxtText, TxtRdata, FileWord, QuotableText, MxContent, SrvContent, CaaContent, SoaText,
         GenericText, DomainText, MxRdata, SrvRdata, CaaRdata, SoaRdata, GenericRdata, DomainRdata;
    QuotedWord(text);
    TxtRdataIffCanonical(rr.rdata);
    assert Spaced([Quoted(text)]) == Quoted(text) == [QUOTE] + text + [QUOTE];
  }

  lemma CaaInWords(ntop: Ntop, pton: Pton, rr: ResourceRecord, flag: Byte, tag: Str, val: Str)
    requires rr.rtype == TYPE_CAA && RdataOnly(rr) && rr.prio == 0 && rr.rdata == CaaBytes(flag, tag, val)
    requires |tag| < 256 && PlainWord(tag) && QuotableText(val) && Spaced(Words(Quoted(val))) == Quoted(val)
    ensures InWords(ntop, pton, rr, [Decimal(flag), tag, Quoted(val)])
  {
    hide CaaBytes, FileWord, RdataToContent, ContentToRdata, Decimal, Joined, Words, PlainWord, QuotableText;
    QuotedWord(val);
    NumberWord(flag);
    PlainIsWord(tag);
    PlainIsFileWord(tag);
    CaaLayout(flag, tag, val);
    CaaRoundTrip(ntop, pton, rr, flag, tag, val);
    ShownHasPriority(ntop, rr);
  }

  lemma PlainIsFileWord(w: Str)
    requires PlainWord(w)
    ensures FileWord(w)
  {
  }

  lemma AddressInWords(ntop: Ntop, pton: Pton, rr: ResourceRecord, size: nat)
    requires (rr.rtype == TYPE_A && size == 4) || (rr.rtype == TYPE_AAAA && size == 16)
    requires RdataOnly(rr) && rr.prio == 0 && |rr.rdata| == size
    requires PlainWord(ntop(rr.rdata)) && pton(ntop(rr.rdata), size) == Some(rr.rdata)
    ensures InWords(ntop, pton, rr, [ntop(rr.rdata)])
  {
    hide FileWord, RdataToContent, ContentToRdata, PlainWord;
    PlainIsFileWord(ntop(rr.rdata));
    assert ntop(rr.rdata) != [] by { PlainIsWord(ntop(rr.rdata)); }
    AddressRoundTrip(ntop, pton, rr, size);
    ShownHasPriority(ntop, rr);
  }

  lemma {:induction false} HexWordsArePlain(rdata: Bytes)
    ensures forall i :: 0 <= i < |rdata| ==> FileWord(HexWords(rdata)[i])
  {
    hide FileWord;
    if rdata != [] {
      HexWordsArePlain(rdata[1..]);
      HexIsPlain(rdata[0]);
    }
  }

  lemma HexIsPlain(b: Byte)
    ensures FileWord(HexByte(b))
  {
    assert PlainWord(HexByte(b));
  }

  lemma GenericPlain()
    ensures FileWord(GENERIC)
  {
    assert PlainWord(GENERIC);
  }

  lemma GenericInWords(ntop: Ntop, pton: Pton, rr: ResourceRecord)
    requires rr.rtype !in KNOWN_TYPES && RdataOnly(rr) && rr.prio == 0
    ensures InWords(ntop, pton, rr, [GENERIC, Decimal(|rr.rdata|)] + HexWords(rr.rdata))
  {
    hide FileWord, RdataToContent, ContentToRdata, Decimal, HexWords, GenericText, Joined;
    GenericPlain();
    NumberWord(|rr.rdata|);
    HexWordsArePlain(rr.rdata);
    GenericSpaced(rr.rdata);
    GenericRoundTrip(ntop, pton, rr);
    ShownHasPriority(ntop, rr);
  }

  // ---- The rdata that a file keeps ------------------------------------------------------------------

  /** Rdata of one or more names. */
  ghost predicate HostRdata(rr: ResourceRecord) {
    if rr.rtype in {TYPE_NS, TYPE_CNAME, TYPE_PTR} then
      exists n :: FileName(n) && rr.prio == 0 && rr.rdata == UncompressedName(n).0
    else if rr.rtype == TYPE_MX then
      exists host :: FileName(host) && rr.rdata == MxBytes(rr.prio, host)
    else if rr.rtype == TYPE_SRV then
      exists weight: U16, port: U16, target ::
        FileName(target) && rr.rdata == SrvBytes(rr.prio, weight, port, target)
    else
      exists mname, rname, t ::
        FileName(mname) && FileName(rname) && rr.prio == 0 && rr.rdata == SoaBytes(mname, rname, t)
  }

  /** Rdata of addresses, texts and plain bytes. */
  ghost predicate DataRdata(ntop: Ntop, pton: Pton, rr: ResourceRecord) {
    if rr.rtype == TYPE_A || rr.rtype == TYPE_AAAA then
      var size := if rr.rtype == TYPE_A then 4 else 16;
      |rr.rdata| == size && PlainWord(ntop(rr.rdata)) && pton(ntop(rr.rdata), size) == Some(rr.rdata)
    else if rr.rtype == TYPE_TXT then
      CanonicalTxt(rr.rdata) && exists text :: TxtText(rr.rdata, 0) == Some(text) && QuotableText(text)
    else if rr.rtype == TYPE_CAA then
      exists flag: Byte, tag, val ::
        && rr.rdata == CaaBytes(flag, tag, val) && |tag| < 256 && PlainWord(tag)
        && QuotableText(val) && Spaced(Words(Quoted(val))) == Quoted(val)
    else true
  }

  /** Rdata that a file keeps: of every type, with a priority in the record only where the rdata has one. */
  ghost predicate FileRdata(ntop: Ntop, pton: Pton, rr: ResourceRecord) {
    RdataOnly(rr) && if HasHost(rr.rtype) then HostRdata(rr) else rr.prio == 0 && DataRdata(ntop, pton, rr)
  }

  lemma HostsInWords(ntop: Ntop, pton: Pton, rr: ResourceRecord)
    requires RdataOnly(rr) && HasHost(rr.rtype) && HostRdata(rr)
    ensures exists ws :: InWords(ntop, pton, rr, ws)
  {
    hide FileName, InWords, MxBytes, SrvBytes, SoaBytes, UncompressedName, RdataOnly, SrvWords, SoaWords;
    if rr.rtype in {TYPE_NS, TYPE_CNAME, TYPE_PTR} {
      var n :| FileName(n) && rr.prio == 0 && rr.rdata == UncompressedName(n).0;
      NameInWords(ntop, pton, rr, n);
    } else if rr.rtype == TYPE_MX {
      var host :| FileName(host) && rr.rdata == MxBytes(rr.prio, host);
      MxInWords(ntop, pton, rr, host);
    } else if rr.rtype == TYPE_SRV {
      var weight: U16, port: U16, target :| FileName(target) && rr.rdata == SrvBytes(rr.prio, weight, port, target);
      SrvInWords(ntop, pton, rr, weight, port, target);
    } else {
      var mname, rname, t :| FileName(mname) && FileName(rname) && rr.prio == 0
                             && rr.rdata == SoaBytes(mname, rname, t);
      SoaInWords(ntop, pton, rr, mname, rname, t);
    }
  }

  lemma DataInWords(ntop: Ntop, pton: Pton, rr: ResourceRecord)
    requires RdataOnly(rr) && !HasHost(rr.rtype) && rr.prio == 0 && DataRdata(ntop, pton, rr)
    ensures exists ws :: InWords(ntop, pton, rr, ws)
  {
    hide InWords, PlainWord, QuotableText, CaaBytes, CanonicalTxt, TxtText, RdataOnly, HexWords, Words, Joined, Decimal;
    if rr.rtype == TYPE_A || rr.rtype == TYPE_AAAA {
      AddressInWords(ntop, pton, rr, if rr.rtype == TYPE_A then 4 else 16);
    } else if rr.rtype == TYPE_TXT {
      var text :| TxtText(rr.rdata, 0) == Some(text) && QuotableText(text);
      TxtInWords(ntop, pton, rr, text);
    } else if rr.rtype == TYPE_CAA {
      var flag: Byte, tag, val :|
        && rr.rdata == CaaBytes(flag, tag, val) && |tag| < 256 && PlainWord(tag)
        && QuotableText(val) && Spaced(Words(Quoted(val))) == Quoted(val);
      CaaInWords(ntop, pton, rr, flag, tag, val);
    } else {
      GenericInWords(ntop, pton, rr);
    }
  }

  lemma RdataIsDescribable(ntop: Ntop, pton: Pton, origin: Name, rr: ResourceRecord)
    requires Placed(origin, rr) && FileRdata(ntop, pton, rr)
    ensures Describable(ntop, pton, origin, rr)
  {
    hide HostRdata, DataRdata, InWords, Placed, Describable, RdataOnly;
    if HasHost(rr.rtype) {
      HostsInWords(ntop, pton, rr);
    } else {
      DataInWords(ntop, pton, rr);
    }
    var ws :| InWords(ntop, pton, rr, ws);
    InWordsDescribable(ntop, pton, origin, rr, ws);
  }

  /**
   The zone kept as rdata, exactly: a zone of names that can stand in a file, whose records
   carry such rdata, comes back from its master file if and only if every owner column is safe.
   */
  lemma RdataZoneRoundTrip(ntop: Ntop, pton: Pton, origin: Name, rrs: Rrs, given: Name, defaultTtl: U32)
    requires FileName(origin)
    requires forall i :: 0 <= i < |rrs| ==> Placed(origin, rrs[i]) && FileRdata(ntop, pton, rrs[i])
    ensures var r := ParsedZone(ntop, pton, WrittenZone(ntop, origin, rrs), given, defaultTtl);
      r.Went? && AllComeBack(ntop, rrs, r.parser.records) <==> AllFit(origin, rrs)
  {
    hide FileRdata, Placed, Describable, ParsedZone, WrittenZone, AllComeBack, AllFit, FileName;
    forall i | 0 <= i < |rrs| ensures Describable(ntop, pton, origin, rrs[i]) {
      RdataIsDescribable(ntop, pton, origin, rrs[i]);
    }
    MasterFileRoundTrip(ntop, pton, origin, rrs, given, defaultTtl);
  }
}
