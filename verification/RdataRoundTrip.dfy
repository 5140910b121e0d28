/**
 Rdata and its text are inverse to each other where the source promises it: the generic
 form for all bytes, TXT text of any length, and SOA, MX, SRV and single-name rdata whose
 names can stand in text.
 */
module RdataRoundTrip {
  import opened Text
  import opened Numbers
  import opened DnsNames
  import opened NameCodec
  import opened NameRoundTrip
  import opened Records
  import opened Rdata
  import opened MessageRoundTrip

  // ---- The generic form (section 5 of RFC 3597) ---------------------------

  /** The types that have a text form of their own. */
  const KNOWN_TYPES: set<U16> :=
    {TYPE_A, TYPE_NS, TYPE_CNAME, TYPE_SOA, TYPE_PTR, TYPE_MX, TYPE_TXT, TYPE_AAAA, TYPE_SRV, TYPE_CAA}

  function HexWords(rdata: Bytes): (r: seq<Str>)
    ensures |r| == |rdata|
  {
    if rdata == [] then [] else [HexByte(rdata[0])] + HexWords(rdata[1..])
  }

  lemma {:induction false} HexWordsAreWords(rdata: Bytes)
    ensures forall i :: 0 <= i < |rdata| ==> IsWord(HexWords(rdata)[i]) && |HexWords(rdata)[i]| == 2
  {
    if rdata != [] {
      HexWordsAreWords(rdata[1..]);
      HexValue(rdata[0]);
    }
  }

  lemma {:induction false} GenericIsJoined(first: Str, rdata: Bytes)
    ensures first + GenericHex(rdata) == Spaced([first] + HexWords(rdata))
    decreases |rdata|
  {
    if rdata != [] {
      var h := HexByte(rdata[0]);
      GenericIsJoined(h, rdata[1..]);
      assert ([first] + HexWords(rdata))[1..] == [h] + HexWords(rdata[1..]);
      assert first + ([SPACE] + h + GenericHex(rdata[1..])) == first + [SPACE] + (h + GenericHex(rdata[1..]));
    }
  }

  lemma GenericSpaced(rdata: Bytes)
    ensures GenericText(rdata) == Spaced([GENERIC, Decimal(|rdata|)] + HexWords(rdata))
  {
    hide HexWords, GenericHex, Decimal, HexByte, Joined;
    var d := Decimal(|rdata|);
    GenericIsJoined(d, rdata);
    TwoJoined(GENERIC, d, HexWords(rdata), GenericHex(rdata));
  }

  lemma TwoJoined(a: Str, b: Str, rest: seq<Str>, tail: Str)
    requires b + tail == Spaced([b] + rest)
    ensures a + [SPACE] + b + tail == Spaced([a, b] + rest)
  {
    assert ([a, b] + rest)[1..] == [b] + rest;
    assert a + [SPACE] + b + tail == a + [SPACE] + (b + tail);
  }

  lemma GenericIsWord()
    ensures IsWord(GENERIC)
  {
  }

  lemma {:induction false} GenericWords(rdata: Bytes)
    ensures Words(GenericText(rdata)) == [GENERIC, Decimal(|rdata|)] + HexWords(rdata)
  {
    hide HexWords, GenericHex, Decimal, HexByte, Words, IsWord, Joined, GenericText, Recognised, Stoul, Stoi;
    var words := [GENERIC, Decimal(|rdata|)] + HexWords(rdata);
    HexWordsAreWords(rdata);
    DecimalReadBack(|rdata|);
    GenericIsWord();
    forall i | 0 <= i < |words| ensures IsWord(words[i]) {
      if i >= 2 { assert words[i] == HexWords(rdata)[i - 2]; }
    }
    WordsOfJoined(words);
    GenericSpaced(rdata);
  }

  lemma {:induction false} HexPairsOfWords(rdata: Bytes)
    ensures |Concatenated(HexWords(rdata))| == 2 * |rdata|
    ensures HexPairs(Concatenated(HexWords(rdata))) == Returns(rdata)
  {
    hide Stoi, HexByte, Concatenated;
    if rdata == [] {
      NoHex();
    } else {
      var h := HexByte(rdata[0]);
      var rest := HexWords(rdata[1..]);
      HexPairsOfWords(rdata[1..]);
      HexReadBack(rdata[0]);
      HexLength(rdata[0]);
      ConcatenatedCons(h, rest);
      var hex := Concatenated(HexWords(rdata));
      assert hex[..2] == h && hex[2..] == Concatenated(rest);
      assert [rdata[0]] + rdata[1..] == rdata;
    }
  }

  lemma NoHex()
    ensures Concatenated([]) == []
  {
  }

  lemma ConcatenatedCons(first: Str, rest: seq<Str>)
    ensures Concatenated([first] + rest) == first + Concatenated(rest)
  {
    assert ([first] + rest)[1..] == rest;
    assert first + [] + Concatenated(rest) == first + Concatenated(rest);
    assert first + [] == first;
  }

  lemma HexLength(b: Byte)
    ensures |HexByte(b)| == 2
  {
  }

  /** The generic text of any bytes parses back to those bytes. */
  lemma GenericRoundTrip(ntop: Ntop, pton: Pton, rr: ResourceRecord)
    requires rr.rtype !in KNOWN_TYPES && rr.content == []
    ensures var shown := RdataToContent(ntop, rr);
      && shown.ok && shown.rr.content == GenericText(rr.rdata)
      && ContentToRdata(ntop, pton, shown.rr.(rdata := [])) == Returns(Converted(shown.rr, true))
  {
    hide GenericText, HexPairs, Concatenated, Stoi;
    GenericWords(rr.rdata);
    GenericStarts(rr.rdata);
    HexPairsOfWords(rr.rdata);
    var parts := Words(GenericText(rr.rdata));
    assert parts[2..] == HexWords(rr.rdata);
  }

  lemma GenericStarts(rdata: Bytes)
    ensures |GenericText(rdata)| >= 2 && GenericText(rdata)[..2] == GENERIC
  {
  }

  // ---- TXT ------------------------------------------------------------------

  lemma {:induction false} ChunksComeBack(text: Str, before: Bytes)
    ensures TxtText(before + Chunks(text), |before|) == Some(text)
    decreases |text|
  {
    hide TxtText;
    if text == [] {
      TextEnds(before);
    } else {
      var n := ChunkSize(|text|);
      ChunksComeBack(text[n..], before + ([n] + text[..n]));
      ChunkReads(before, n, text[..n], Chunks(text[n..]), text[n..]);
      assert before + ([n] + text[..n] + Chunks(text[n..])) == before + ([n] + text[..n]) + Chunks(text[n..]);
      assert text[..n] + text[n..] == text;
    }
  }

  lemma TextEnds(before: Bytes)
    ensures TxtText(before + [], |before|) == Some([])
  {
  }

  lemma ChunkReads(before: Bytes, n: Byte, chunk: Bytes, rest: Bytes, tail: Str)
    requires |chunk| == n && TxtText(before + ([n] + chunk) + rest, |before| + 1 + n) == Some(tail)
    ensures TxtText(before + ([n] + chunk) + rest, |before|) == Some(chunk + tail)
  {
    var buf := before + ([n] + chunk) + rest;
    assert buf[|before|] == n && buf[|before| + 1..|before| + 1 + n] == chunk;
  }

  lemma EmptyTxt()
    ensures TxtText([0], 0) == Some([])
  {
    var zero: Bytes := [0];
    assert TxtText(zero, 1) == Some([]);
    assert zero[1..1] + [] == [];
  }

  /** TXT text of any length is cut into chunks whose concatenation is the text. */
  lemma TxtRoundTrip(content: Str)
    ensures TxtText(TxtRdata(content), 0) == Some(Unquoted(content))
  {
    hide Chunks;
    var text := Unquoted(content);
    if text != [] {
      ChunksComeBack(text, []);
      assert [] + Chunks(text) == Chunks(text);
    } else {
      EmptyTxt();
    }
  }

  /** Character strings as the writer makes them: full ones of 255 bytes, then one that is not empty. */
  predicate FullChunks(rdata: Bytes) {
    && rdata != [] && 0 < rdata[0] < |rdata|
    && (rdata[0] == |rdata| - 1 || (rdata[0] == 255 && FullChunks(rdata[256..])))
  }

  predicate CanonicalTxt(rdata: Bytes) {
    rdata == [0] || FullChunks(rdata)
  }

  lemma {:induction false} ChunksAreFull(text: Str)
    requires text != []
    ensures FullChunks(Chunks(text))
    decreases |text|
  {
    var n := ChunkSize(|text|);
    var w := Chunks(text);
    assert w[0] == n && w[1 + n..] == Chunks(text[n..]);
    if n < |text| {
      ChunksAreFull(text[n..]);
    } else {
      assert text[n..] == [];
    }
  }

  lemma {:induction false} FullChunksRebuilt(rdata: Bytes, off: nat)
    requires off <= |rdata| && FullChunks(rdata[off..])
    ensures var t := TxtText(rdata, off); t.Some? && t.value != [] && Chunks(t.value) == rdata[off..]
    decreases |rdata| - off
  {
    var rest := rdata[off..];
    var n: nat := rest[0];
    assert n == rdata[off] && rest[1..1 + n] == rdata[off + 1..off + 1 + n];
    if 1 + n == |rest| {
      assert TxtText(rdata, off + 1 + n) == Some([]);
      var text := rdata[off + 1..off + 1 + n];
      assert text + [] == text && ChunkSize(|text|) == n && text[..n] == text && text[n..] == [];
      assert Chunks(text) == [n] + text + [] == rest;
    } else {
      assert rest[256..] == rdata[off + 256..];
      FullChunksRebuilt(rdata, off + 256);
      var tail := TxtText(rdata, off + 256).value;
      var text := rdata[off + 1..off + 256] + tail;
      assert ChunkSize(|text|) == 255 && text[..255] == rdata[off + 1..off + 256] && text[255..] == tail;
      assert Chunks(text) == [255] + text[..255] + Chunks(tail);
      assert rest == [255] + rdata[off + 1..off + 256] + rdata[off + 256..];
    }
  }

  /** TXT rdata comes back from its quoted text exactly when it is chunked as the writer chunks. */
  lemma TxtRdataIffCanonical(rdata: Bytes)
    requires TxtText(rdata, 0).Some?
    ensures TxtRdata([QUOTE] + TxtText(rdata, 0).value + [QUOTE]) == rdata <==> CanonicalTxt(rdata)
  {
    hide Chunks, FullChunks;
    var text := TxtText(rdata, 0).value;
    var quoted := [QUOTE] + text + [QUOTE];
    assert quoted[1..|quoted| - 1] == text && quoted[0] == QUOTE && quoted[|quoted| - 1] == QUOTE;
    assert Unquoted(quoted) == text;
    assert rdata[0..] == rdata;
    if FullChunks(rdata) {
      FullChunksRebuilt(rdata, 0);
    } else if rdata == [0] {
      EmptyTxt();
    } else if text != [] {
      ChunksAreFull(text);
    }
  }

  // ---- Names in text --------------------------------------------------------

  /** Names whose text is one word and parses back: the names that can stand in content. */
  predicate TextName(n: Name) {
    && ProperName(n) && UncompressedName(n).1 && SurvivesText(n)
    && forall i, k :: 0 <= i < |n| && 0 <= k < |n[i]| ==> !IsSpace(n[i][k])
  }

  lemma {:induction false} JoinedHasNoSpace(n: Name)
    requires forall i, k :: 0 <= i < |n| && 0 <= k < |n[i]| ==> !IsSpace(n[i][k])
    ensures forall k :: 0 <= k < |Joined(n, [DOT])| ==> !IsSpace(Joined(n, [DOT])[k])
  {
    if |n| > 1 {
      forall i, k | 0 <= i < |n| - 1 && 0 <= k < |n[1..][i]| ensures !IsSpace(n[1..][i][k]) {
        assert n[1..][i] == n[i + 1];
      }
      JoinedHasNoSpace(n[1..]);
    } else if |n| == 1 {
      assert Joined(n, [DOT]) == n[0];
    }
  }

  lemma TextOfName(n: Name)
    requires TextName(n)
    ensures IsWord(ToText(n, true)) && ParsedName(ToText(n, true)) == n
    ensures DomainRdata(ToText(n, true)) == Some(UncompressedName(n).0)
  {
    hide ParsedName, SurvivesText, UncompressedName;
    if n == [] {
      RootParsed();
    } else {
      JoinedHasNoSpace(n);
      SurvivorIsReparsed(n);
    }
  }

  /** A text name standing in rdata is shown as its absolute text. */
  lemma DomainShown(rdata: Bytes, off: nat, n: Name)
    requires TextName(n) && At(rdata, off, UncompressedName(n).0)
    ensures DomainText(rdata, off) == Got(ToText(n, true), off + |UncompressedName(n).0|)
  {
    hide DecodedName, SurvivesText;
    UncompressedRoundTrip(rdata, off, n);
  }

  lemma NameShown(ntop: Ntop, rr: ResourceRecord, n: Name)
    requires rr.rtype in {TYPE_NS, TYPE_CNAME, TYPE_PTR} && rr.content == []
    requires TextName(n) && rr.rdata == UncompressedName(n).0
    ensures RdataToContent(ntop, rr) == Converted(rr.(content := ToText(n, true)), true)
  {
    hide TextName, DomainText, UncompressedName, ToText;
    assert rr.rdata[0..|rr.rdata|] == rr.rdata;
    DomainShown(rr.rdata, 0, n);
  }

  lemma {:induction false} NameParsed(ntop: Ntop, pton: Pton, rr: ResourceRecord, n: Name)
    requires rr.rtype in {TYPE_NS, TYPE_CNAME, TYPE_PTR} && rr.rdata == []
    requires TextName(n) && rr.content == ToText(n, true)
    ensures ContentToRdata(ntop, pton, rr) == Returns(Converted(rr.(rdata := UncompressedName(n).0), true))
  {
    hide TextName, UncompressedName, DomainRdata, ToText, RdataToContent, MxRdata, SoaRdata, SrvRdata, CaaRdata,
         GenericRdata, TxtRdata, ParsedName, IsWord;
    TextOfName(n);
  }

  /** NS, CNAME and PTR rdata survive the trip through text. */
  lemma NameRdataRoundTrip(ntop: Ntop, pton: Pton, rr: ResourceRecord, n: Name)
    requires rr.rtype in {TYPE_NS, TYPE_CNAME, TYPE_PTR} && rr.content == []
    requires TextName(n) && rr.rdata == UncompressedName(n).0
    ensures var shown := RdataToContent(ntop, rr);
      && shown.ok && shown.rr.content == ToText(n, true)
      && ContentToRdata(ntop, pton, shown.rr.(rdata := [])) == Returns(Converted(shown.rr, true))
  {
    hide TextName, UncompressedName, DomainRdata, ToText, RdataToContent, ContentToRdata;
    NameShown(ntop, rr, n);
    NameParsed(ntop, pton, rr.(content := ToText(n, true), rdata := []), n);
  }

  function MxBytes(prio: U16, host: Name): Bytes {
    Put16(prio) + UncompressedName(host).0
  }

  lemma {:induction false} MxShownAs(ntop: Ntop, rr: ResourceRecord, prio: U16, host: Name)
    requires rr.rtype == TYPE_MX && rr.content == [] && TextName(host) && rr.rdata == MxBytes(prio, host)
    ensures RdataToContent(ntop, rr)
            == Converted(rr.(prio := prio, content := Spaced([Decimal(prio), ToText(host, true)])), true)
  {
    hide TextName, DomainText, UncompressedName, ToText, Decimal, Put16, Get16, Spaced, SrvContent, CaaContent, SoaText,
         TxtText, GenericText;
    assert rr.rdata[0..|rr.rdata|] == rr.rdata;
    AtSplit(rr.rdata, 0, Put16(prio), UncompressedName(host).0);
    Get16Put(rr.rdata, 0, prio);
    DomainShown(rr.rdata, 2, host);
  }

  /** MX text of two words, a priority and a host, converted whatever priority the record has. */
  lemma {:induction false} MxParsed(rr: ResourceRecord, prio: U16, host: Name)
    requires TextName(host) && rr.content == Spaced([Decimal(prio), ToText(host, true)])
    ensures MxRdata(rr) == Returns(Converted(rr.(prio := prio, rdata := MxBytes(prio, host)), true))
  {
    hide TextName, UncompressedName, DomainRdata, ToText, Decimal, Stoi, Stoul, Recognised, Put16, Words, IsWord,
         Joined, ParsedName;
    TextOfName(host);
    DecimalReadBack(prio);
    WordsOfJoined([Decimal(prio), ToText(host, true)]);
  }

  lemma {:induction false} MxRoundTrip(ntop: Ntop, pton: Pton, rr: ResourceRecord, prio: U16, host: Name)
    requires rr.rtype == TYPE_MX && rr.content == [] && TextName(host) && rr.rdata == MxBytes(prio, host)
    ensures var shown := RdataToContent(ntop, rr);
      && shown.ok && shown.rr.content == Spaced([Decimal(prio), ToText(host, true)]) && shown.rr.prio == prio
      && ContentToRdata(ntop, pton, shown.rr.(rdata := [])) == Returns(Converted(shown.rr, true))
  {
    hide TextName, ToText, Decimal, Spaced, RdataToContent, MxRdata, MxBytes;
    MxShownAs(ntop, rr, prio, host);
    MxParsed(RdataToContent(ntop, rr).rr.(rdata := []), prio, host);
  }

  function SrvBytes(prio: U16, weight: U16, port: U16, target: Name): Bytes {
    Put16(prio) + (Put16(weight) + (Put16(port) + UncompressedName(target).0))
  }

  function SrvWords(prio: U16, weight: U16, port: U16, target: Name): seq<Str> {
    [Decimal(prio), Decimal(weight), Decimal(port), ToText(target, true)]
  }

  lemma SrvReads(rdata: Bytes, prio: U16, weight: U16, port: U16, target: Name)
    requires TextName(target) && rdata == SrvBytes(prio, weight, port, target)
    ensures Get16(rdata, 0) == Got(prio, 2) && Get16(rdata, 2) == Got(weight, 4) && Get16(rdata, 4) == Got(port, 6)
    ensures DomainText(rdata, 6) == Got(ToText(target, true), |rdata|)
  {
    hide TextName, DomainText, UncompressedName, ToText, Put16, Get16;
    var w := UncompressedName(target).0;
    assert rdata[0..|rdata|] == rdata;
    AtSplit(rdata, 0, Put16(prio), Put16(weight) + (Put16(port) + w));
    AtSplit(rdata, 2, Put16(weight), Put16(port) + w);
    AtSplit(rdata, 4, Put16(port), w);
    Get16Put(rdata, 0, prio);
    Get16Put(rdata, 2, weight);
    Get16Put(rdata, 4, port);
    DomainShown(rdata, 6, target);
  }

  lemma SrvParsed(prio: U16, weight: U16, port: U16, target: Name)
    requires TextName(target)
    ensures Words(Spaced(SrvWords(prio, weight, port, target))) == SrvWords(prio, weight, port, target)
    ensures Stoi(Decimal(prio), 10) == Returns(prio) && Stoi(Decimal(weight), 10) == Returns(weight)
    ensures Stoi(Decimal(port), 10) == Returns(port)
    ensures DomainRdata(ToText(target, true)) == Some(UncompressedName(target).0)
  {
    hide TextName, UncompressedName, DomainRdata, ToText, Decimal, Stoi, Stoul, Recognised, Words, IsWord, Joined;
    TextOfName(target);
    DecimalReadBack(prio);
    DecimalReadBack(weight);
    DecimalReadBack(port);
    WordsOfJoined(SrvWords(prio, weight, port, target));
  }

  lemma SrvRoundTrip(ntop: Ntop, pton: Pton, rr: ResourceRecord, prio: U16, weight: U16, port: U16, target: Name)
    requires rr.rtype == TYPE_SRV && rr.content == [] && TextName(target)
    requires rr.rdata == SrvBytes(prio, weight, port, target)
    ensures var shown := RdataToContent(ntop, rr);
      && shown.ok && shown.rr.content == Spaced(SrvWords(prio, weight, port, target)) && shown.rr.prio == prio
      && ContentToRdata(ntop, pton, shown.rr.(rdata := [])) == Returns(Converted(shown.rr, true))
  {
    hide TextName, DomainText, UncompressedName, DomainRdata, ToText, Decimal, Stoi, Put16, Get16, Words, Joined;
    var w := UncompressedName(target).0;
    SrvReads(rr.rdata, prio, weight, port, target);
    SrvParsed(prio, weight, port, target);
    assert Put16(prio) + Put16(weight) + Put16(port) + w == rr.rdata;
  }

  // ---- Priorities beside the text ---------------------------------------------

  /** MX text that is a host alone takes the priority of the record. */
  lemma MxFromRecord(ntop: Ntop, pton: Pton, rr: ResourceRecord, host: Name)
    requires rr.rtype == 15 && rr.rdata == [] && TextName(host) && rr.content == ToText(host, true)
    ensures ContentToRdata(ntop, pton, rr)
            == Returns(Converted(rr.(rdata := [rr.prio / 256, rr.prio % 256] + UncompressedName(host).0), true))
  {
    hide TextName, UncompressedName, DomainRdata, ToText, Stoi, Words, IsWord, ParsedName, SrvRdata, CaaRdata,
         GenericRdata, RdataToContent, SoaRdata, TxtRdata;
    TextOfName(host);
    WordsOfWord(rr.content, []);
    NoWords();
    assert rr.content + [] == rr.content;
    assert Put16(rr.prio) == [rr.prio / 256, rr.prio % 256];
  }

  /** SRV text of three words takes the priority of the record. */
  lemma SrvFromRecord(ntop: Ntop, pton: Pton, rr: ResourceRecord, weight: U16, port: U16, target: Name)
    requires rr.rtype == 33 && rr.rdata == [] && TextName(target)
    requires rr.content == Spaced([Decimal(weight), Decimal(port), ToText(target, true)])
    ensures ContentToRdata(ntop, pton, rr)
            == Returns(Converted(rr.(rdata := [rr.prio / 256, rr.prio % 256, weight / 256, weight % 256,
                                               port / 256, port % 256] + UncompressedName(target).0), true))
  {
    hide TextName, UncompressedName, DomainRdata, ToText, Decimal, Stoi, Stoul, Recognised, Words, IsWord, Joined,
         ParsedName, MxRdata, CaaRdata, GenericRdata, RdataToContent, SoaRdata, TxtRdata;
    TextOfName(target);
    DecimalReadBack(weight);
    DecimalReadBack(port);
    WordsOfJoined([Decimal(weight), Decimal(port), ToText(target, true)]);
    assert Put16(rr.prio) + Put16(weight) + Put16(port)
           == [rr.prio / 256, rr.prio % 256, weight / 256, weight % 256, port / 256, port % 256];
  }

  // ---- SOA ------------------------------------------------------------------

  datatype SoaTimers = SoaTimers(serial: U32, refresh: U32, retry: U32, expire: U32, minimum: U32)

  function TimerBytes(t: SoaTimers): Bytes {
    Put32(t.serial) + (Put32(t.refresh) + (Put32(t.retry) + (Put32(t.expire) + Put32(t.minimum))))
  }

  function TimerWords(t: SoaTimers): seq<Str> {
    [Decimal(t.serial), Decimal(t.refresh), Decimal(t.retry), Decimal(t.expire), Decimal(t.minimum)]
  }

  function SoaBytes(mname: Name, rname: Name, t: SoaTimers): Bytes {
    UncompressedName(mname).0 + (UncompressedName(rname).0 + TimerBytes(t))
  }

  function SoaWords(mname: Name, rname: Name, t: SoaTimers): seq<Str> {
    [ToText(mname, true), ToText(rname, true)] + TimerWords(t)
  }

  lemma TimersRead(buf: Bytes, off: nat, t: SoaTimers)
    requires At(buf, off, TimerBytes(t))
    ensures Get32(buf, off) == Got(t.serial, off + 4) && Get32(buf, off + 4) == Got(t.refresh, off + 8)
    ensures Get32(buf, off + 8) == Got(t.retry, off + 12) && Get32(buf, off + 12) == Got(t.expire, off + 16)
    ensures Get32(buf, off + 16) == Got(t.minimum, off + 20)
  {
    hide Put32, Get32;
    AtSplit(buf, off, Put32(t.serial), Put32(t.refresh) + (Put32(t.retry) + (Put32(t.expire) + Put32(t.minimum))));
    AtSplit(buf, off + 4, Put32(t.refresh), Put32(t.retry) + (Put32(t.expire) + Put32(t.minimum)));
    AtSplit(buf, off + 8, Put32(t.retry), Put32(t.expire) + Put32(t.minimum));
    AtSplit(buf, off + 12, Put32(t.expire), Put32(t.minimum));
    Get32Put(buf, off, t.serial);
    Get32Put(buf, off + 4, t.refresh);
    Get32Put(buf, off + 8, t.retry);
    Get32Put(buf, off + 12, t.expire);
    Get32Put(buf, off + 16, t.minimum);
  }

  lemma TimersParsed(t: SoaTimers)
    ensures Fields32(TimerWords(t)) == Returns(TimerBytes(t))
  {
    hide Put32, Decimal, Stoul, Recognised, IsWord, Fields32;
    DecimalReadBack(t.serial);
    DecimalReadBack(t.refresh);
    DecimalReadBack(t.retry);
    DecimalReadBack(t.expire);
    DecimalReadBack(t.minimum);
    var w := TimerWords(t);
    assert w[1..][0] == w[1] && w[2..][0] == w[2] && w[3..][0] == w[3];
    assert w[3..][1..] == [w[4]] && w[2..][1..] == w[3..] && w[1..][1..] == w[2..];
    LastField(w[4], t.minimum);
    FieldStep(w[3..], t.expire);
    FieldStep(w[2..], t.retry);
    FieldStep(w[1..], t.refresh);
    FieldStep(w, t.serial);
  }

  lemma TimersAreWords(t: SoaTimers)
    ensures forall i :: 0 <= i < 5 ==> IsWord(TimerWords(t)[i])
  {
    hide Decimal, Stoul, Stoi, Recognised, IsWord;
    DecimalReadBack(t.serial);
    DecimalReadBack(t.refresh);
    DecimalReadBack(t.retry);
    DecimalReadBack(t.expire);
    DecimalReadBack(t.minimum);
  }

  lemma LastField(word: Str, v: U32)
    requires Stoul(word) == Returns(v)
    ensures Fields32([word]) == Returns(Put32(v))
  {
    hide Stoul, Put32;
    assert [word][1..] == [];
    assert Put32(v) + [] == Put32(v);
  }

  lemma FieldStep(words: seq<Str>, v: U32)
    requires words != [] && Stoul(words[0]) == Returns(v)
    ensures Fields32(words) == Before(Put32(v), Fields32(words[1..]))
  {
    hide Stoul, Put32;
  }

  lemma FiveTimers(t: SoaTimers)
    ensures |TimerWords(t)| == 5
  {
  }

  lemma SoaShown(rdata: Bytes, mname: Name, rname: Name, t: SoaTimers)
    requires TextName(mname) && TextName(rname) && rdata == SoaBytes(mname, rname, t)
    ensures SoaText(rdata) == Some(Spaced(SoaWords(mname, rname, t)))
  {
    hide TextName, DomainText, UncompressedName, ToText, Decimal, Get32, TimerBytes;
    var m, r := UncompressedName(mname).0, UncompressedName(rname).0;
    assert rdata[0..|rdata|] == rdata;
    AtSplit(rdata, 0, m, r + TimerBytes(t));
    AtSplit(rdata, |m|, r, TimerBytes(t));
    DomainShown(rdata, 0, mname);
    DomainShown(rdata, |m|, rname);
    TimersRead(rdata, |m| + |r|, t);
    assert SoaWords(mname, rname, t)
           == [ToText(mname, true), ToText(rname, true), Decimal(t.serial), Decimal(t.refresh), Decimal(t.retry),
               Decimal(t.expire), Decimal(t.minimum)];
  }

  lemma {:induction false} SoaParsed(mname: Name, rname: Name, t: SoaTimers)
    requires TextName(mname) && TextName(rname)
    ensures Words(Spaced(SoaWords(mname, rname, t))) == SoaWords(mname, rname, t)
    ensures SoaRdata(Spaced(SoaWords(mname, rname, t))) == Returns(Some(SoaBytes(mname, rname, t)))
  {
    hide TextName, UncompressedName, DomainRdata, ToText, TimerBytes, TimerWords, Fields32, Words, IsWord, Joined,
         ParsedName, Recognised, Stoul;
    TextOfName(mname);
    TextOfName(rname);
    TimersParsed(t);
    TimersAreWords(t);
    var words := SoaWords(mname, rname, t);
    assert |TimerWords(t)| == 5 by { FiveTimers(t); }
    WordsOfJoined(words);
    assert words[2..7] == TimerWords(t);
    assert UncompressedName(mname).0 + UncompressedName(rname).0 + TimerBytes(t) == SoaBytes(mname, rname, t);
  }

  /** SOA rdata survives the trip through text. */
  lemma SoaRoundTrip(ntop: Ntop, pton: Pton, rr: ResourceRecord, mname: Name, rname: Name, t: SoaTimers)
    requires rr.rtype == TYPE_SOA && rr.content == [] && TextName(mname) && TextName(rname)
    requires rr.rdata == SoaBytes(mname, rname, t)
    ensures var shown := RdataToContent(ntop, rr);
      && shown.ok && shown.rr.content == Spaced(SoaWords(mname, rname, t))
      && ContentToRdata(ntop, pton, shown.rr.(rdata := [])) == Returns(Converted(shown.rr, true))
  {
    hide TextName, SoaText, SoaRdata, SoaWords, SoaBytes, Spaced;
    SoaShown(rr.rdata, mname, rname, t);
    SoaParsed(mname, rname, t);
  }

  // ---- Addresses and CAA ----------------------------------------------------

  /** A and AAAA rdata survive whenever inet_pton reads what inet_ntop printed. */
  lemma AddressRoundTrip(ntop: Ntop, pton: Pton, rr: ResourceRecord, size: nat)
    requires (rr.rtype == TYPE_A && size == 4) || (rr.rtype == TYPE_AAAA && size == 16)
    requires rr.content == [] && |rr.rdata| == size && ntop(rr.rdata) != []
    ensures var shown := RdataToContent(ntop, rr);
      && shown.ok && shown.rr.content == ntop(rr.rdata)
      && (ContentToRdata(ntop, pton, shown.rr.(rdata := [])) == Returns(Converted(shown.rr, true))
          <==> pton(ntop(rr.rdata), size) == Some(rr.rdata))
  {
    hide MxContent, SrvContent, CaaContent, SoaText, TxtText, GenericText, DomainText, MxRdata, SrvRdata, CaaRdata,
         SoaRdata, GenericRdata, TxtRdata, DomainRdata;
  }

  /** The value between quotes, as the writer prints it. */
  function Quoted(val: Str): Str {
    [QUOTE] + val + [QUOTE]
  }

  lemma SpacedThree(a: Str, b: Str, c: Str)
    ensures Spaced([a, b, c]) == a + ([SPACE] + (b + [SPACE] + c))
  {
    assert [a, b, c][1..] == [b, c] && [b, c][1..] == [c];
    assert Joined([b, c], [SPACE]) == b + [SPACE] + Joined([c], [SPACE]);
  }

  /** The words of the text of CAA rdata: the flag, and what white space makes of tag and value. */
  lemma CaaWords(flag: Byte, tag: Str, val: Str)
    ensures Words(Spaced([Decimal(flag), tag, Quoted(val)])) == [Decimal(flag)] + Words(tag + [SPACE] + Quoted(val))
  {
    hide IsWord, Decimal, Joined, Stoi, Stoul, Recognised, WordLength, Spaced;
    var rest := tag + [SPACE] + Quoted(val);
    DecimalReadBack(flag);
    SpacedThree(Decimal(flag), tag, Quoted(val));
    WordsOfWord(Decimal(flag), [SPACE] + rest);
    assert ([SPACE] + rest)[1..] == rest;
  }

  lemma WordTag(tag: Str, val: Str)
    requires IsWord(tag)
    ensures Words(tag + [SPACE] + Quoted(val)) == [tag] + Words(Quoted(val))
  {
    hide IsWord, WordLength;
    assert tag + [SPACE] + Quoted(val) == tag + ([SPACE] + Quoted(val));
    WordsOfWord(tag, [SPACE] + Quoted(val));
    assert ([SPACE] + Quoted(val))[1..] == Quoted(val);
  }

  /** A tag that is no word is not what the first word behind the flag gives back. */
  lemma OtherTag(flag: Byte, tag: Str, val: Str, u: Str)
    requires !IsWord(tag) && |tag| < 256
    ensures var ws := Words(tag + [SPACE] + Quoted(val));
      ws != [] ==> CaaBytes(flag, ws[0], u) != CaaBytes(flag, tag, val)
  {
    hide Words, IsWord, CaaBytes, Quoted, IsSpace;
    var ws := Words(tag + [SPACE] + Quoted(val));
    WordsAreWords(tag + [SPACE] + Quoted(val));
    assert tag + [SPACE] + Quoted(val) == tag + ([SPACE] + Quoted(val));
    assert [] + val == val && [] + [SPACE] + Quoted(val) == [SPACE] + Quoted(val);
    if ws != [] && CaaBytes(flag, ws[0], u) == CaaBytes(flag, tag, val) {
      BytesBehindHead(flag, ws[0], u, tag, val);
      if tag == [] {
        SpacePassed(Quoted(val));
        QuoteEndsWord(val, ws[0]);
      } else {
        SpacedTag(tag, [SPACE] + Quoted(val), u, val);
      }
    }
  }

  lemma SpacePassed(s: Str)
    ensures Words([SPACE] + s) == Words(s)
  {
    assert ([SPACE] + s)[1..] == s;
  }

  lemma SpacedTag(tag: Str, rest: Str, u: Str, val: Str)
    requires tag != [] && |tag| < 256 && !IsWord(tag)
    ensures var ws := Words(tag + rest); ws != [] && |ws[0]| % 256 == |tag| ==> ws[0] + u != tag + val
  {
    hide Words, WordLength;
    var ws := Words(tag + rest);
    WordsAreWords(tag + rest);
    if ws != [] {
      if IsSpace(tag[0]) {
        assert (ws[0] + u)[0] == ws[0][0] && (tag + val)[0] == tag[0];
      } else {
        ShorterWord(tag, rest);
      }
    }
  }

  lemma BytesBehindHead(flag: Byte, a: Str, u: Str, tag: Str, val: Str)
    requires CaaBytes(flag, a, u) == CaaBytes(flag, tag, val)
    ensures a + u == tag + val && |a| % 256 == |tag| % 256
  {
    assert CaaBytes(flag, a, u)[2..] == a + u && CaaBytes(flag, tag, val)[2..] == tag + val;
    assert CaaBytes(flag, a, u)[1] == CaaBytes(flag, tag, val)[1];
  }

  /** The first word of a quoted value does not start the value itself. */
  lemma QuoteEndsWord(val: Str, w: Str)
    requires Words(Quoted(val)) != [] && Words(Quoted(val))[0] == w && IsWord(w)
    ensures !(w <= val)
  {
    var q := Quoted(val);
    var n := WordLength(q);
    assert w == q[..n];
    if |w| <= |val| {
      assert IsSpace(q[n]) && q[n] == val[n - 1];
    }
  }

  /** Where a text has white space inside, its first word is shorter. */
  lemma ShorterWord(tag: Str, rest: Str)
    requires tag != [] && !IsWord(tag) && !IsSpace(tag[0])
    ensures var ws := Words(tag + rest); ws != [] && |ws[0]| < |tag|
  {
    var s := tag + rest;
    var n := WordLength(s);
    assert Words(s) == [s[..n]] + Words(s[n..]);
    if n >= |tag| {
      forall i | 0 <= i < |tag| ensures !IsSpace(tag[i]) { assert s[i] == tag[i]; }
    }
  }

  lemma {:induction false} WordsKeepEnds(s: Str)
    requires s != [] && !IsSpace(s[|s| - 1])
    ensures var ws := Words(s); ws != [] && ws[|ws| - 1] != [] && Last(ws[|ws| - 1]) == Last(s)
    ensures !IsSpace(s[0]) ==> Words(s)[0] != [] && Words(s)[0][0] == s[0]
    decreases |s|
  {
    if IsSpace(s[0]) {
      assert |s| > 1;
      WordsKeepEnds(s[1..]);
    } else {
      var n := WordLength(s);
      assert n > 0;
      if n == |s| {
        assert s[n..] == [];
      } else {
        WordsKeepEnds(s[n..]);
      }
    }
  }

  function Last(s: Str): Byte
    requires s != []
  {
    s[|s| - 1]
  }

  lemma {:induction false} JoinedKeepsEnds(ws: seq<Str>)
    requires ws != [] && ws[0] != [] && ws[|ws| - 1] != []
    ensures var s := Spaced(ws); s != [] && s[0] == ws[0][0] && Last(s) == Last(ws[|ws| - 1])
    ensures |ws| > 1 || |ws[0]| > 1 ==> |Spaced(ws)| > 1
  {
    if |ws| > 1 {
      JoinedKeepsEnd(ws);
    }
  }

  lemma {:induction false} JoinedKeepsEnd(ws: seq<Str>)
    requires ws != [] && ws[|ws| - 1] != []
    ensures Spaced(ws) != [] && Last(Spaced(ws)) == Last(ws[|ws| - 1])
  {
    if |ws| > 1 { JoinedKeepsEnd(ws[1..]); }
  }

  /** Splitting and joining a quoted value keeps the quotes, so that unquoting gives the value only for no change. */
  lemma QuotedComesBack(val: Str)
    ensures Words(Quoted(val)) != []
    ensures Unquoted(Spaced(Words(Quoted(val)))) == val <==> Spaced(Words(Quoted(val))) == Quoted(val)
  {
    hide Words, Joined, Spaced;
    var q := Quoted(val);
    var ws := Words(q);
    WordsKeepEnds(q);
    JoinedKeepsEnds(ws);
    UnquotedBack(val);
    QuoteAlone(val);
    var s := Spaced(ws);
    if |s| >= 2 && Unquoted(s) == val {
      assert s == [QUOTE] + s[1..|s| - 1] + [QUOTE];
    }
  }

  lemma QuoteAlone(val: Str)
    ensures |Words(Quoted(val))| == 1 ==> |Words(Quoted(val))[0]| > 1
  {
    var q := Quoted(val);
    WordsKeepEnds(q);
    var n := WordLength(q);
    assert Words(q) == [q[..n]] + Words(q[n..]);
    if n == 1 {
      assert Last(q[n..]) == QUOTE;
      WordsKeepEnds(q[n..]);
    }
  }

  /**
   CAA rdata comes back from its text exactly if its tag is a word and its value has no white
   space but single spaces inside.
   */
  lemma CaaRoundTrip(ntop: Ntop, pton: Pton, rr: ResourceRecord, flag: Byte, tag: Str, val: Str)
    requires rr.rtype == TYPE_CAA && rr.content == [] && |tag| < 256 && rr.rdata == [flag, |tag|] + tag + val
    ensures var shown := RdataToContent(ntop, rr);
      && shown.ok && shown.rr.content == Spaced([Decimal(flag), tag, Quoted(val)])
      && (ContentToRdata(ntop, pton, shown.rr.(rdata := [])) == Returns(Converted(shown.rr, true))
          <==> IsWord(tag) && Spaced(Words(Quoted(val))) == Quoted(val))
  {
    hide Words, IsWord, Decimal, Joined, Spaced, Stoi, RdataToContent, ContentToRdata, CaaBytes, Unquoted;
    CaaLayout(flag, tag, val);
    CaaShown(ntop, rr, flag, tag, val);
    var text := Spaced([Decimal(flag), tag, Quoted(val)]);
    CaaParsed(ntop, pton, rr.(content := text, rdata := []), flag, tag, val);
    QuotedComesBack(val);
    if IsWord(tag) {
      WordTag(tag, val);
      assert ([tag] + Words(Quoted(val)))[1..] == Words(Quoted(val));
      SameTag(flag, tag, Unquoted(Spaced(Words(Quoted(val)))), val);
    } else {
      var ws := Words(tag + [SPACE] + Quoted(val));
      if |ws| >= 2 { OtherTag(flag, tag, val, Unquoted(Spaced(ws[1..]))); }
    }
  }

  lemma CaaLayout(flag: Byte, tag: Str, val: Str)
    requires |tag| < 256
    ensures CaaBytes(flag, tag, val) == [flag, |tag|] + tag + val
  {
  }

  lemma SameTag(flag: Byte, tag: Str, u: Str, val: Str)
    ensures CaaBytes(flag, tag, u) == CaaBytes(flag, tag, val) <==> u == val
  {
    var a, b := CaaBytes(flag, tag, u), CaaBytes(flag, tag, val);
    if a == b {
      assert u == a[2 + |tag|..] && val == b[2 + |tag|..];
    }
  }

  lemma CaaShown(ntop: Ntop, rr: ResourceRecord, flag: Byte, tag: Str, val: Str)
    requires rr.rtype == TYPE_CAA && rr.content == [] && |tag| < 256 && rr.rdata == CaaBytes(flag, tag, val)
    ensures RdataToContent(ntop, rr)
            == Converted(rr.(content := Spaced([Decimal(flag), tag, Quoted(val)])), true)
  {
    hide Decimal, Joined, Spaced, MxContent, SrvContent, SoaText, TxtText, GenericText, DomainText;
    assert rr.rdata[2..2 + |tag|] == tag && rr.rdata[2 + |tag|..] == val;
  }

  /** What reading the text of CAA rdata gives, for any tag and value. */
  lemma CaaParsed(ntop: Ntop, pton: Pton, rr: ResourceRecord, flag: Byte, tag: Str, val: Str)
    requires rr.rtype == TYPE_CAA && rr.rdata == [] && rr.content == Spaced([Decimal(flag), tag, Quoted(val)])
    ensures var ws := Words(tag + [SPACE] + Quoted(val));
      ContentToRdata(ntop, pton, rr)
      == Returns(if |ws| < 2 then Converted(rr, false)
                 else Converted(rr.(rdata := CaaBytes(flag, ws[0], Unquoted(Spaced(ws[1..])))), true))
  {
    hide Words, IsWord, Decimal, Joined, Spaced, Stoi, Stoul, Recognised, MxRdata, SrvRdata, SoaRdata, GenericRdata,
         TxtRdata, DomainRdata, Unquoted, CaaBytes;
    CaaWords(flag, tag, val);
    DecimalReadBack(flag);
    var ws := Words(tag + [SPACE] + Quoted(val));
    if |ws| >= 2 {
      assert ([Decimal(flag)] + ws)[2..] == ws[1..] && ([Decimal(flag)] + ws)[1] == ws[0];
    }
  }

  lemma UnquotedBack(val: Str)
    ensures Unquoted(Quoted(val)) == val
  {
    assert Quoted(val)[1..|Quoted(val)| - 1] == val;
  }
}
