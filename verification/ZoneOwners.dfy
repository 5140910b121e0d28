/**
 Master files round trip, exactly: what writeZoneText wrote is read back if and only if the
 parser takes every owner column for an owner and for nothing else.
 */
module ZoneOwners {
  import opened Text
  import opened DnsNames
  import opened NameCodec
  import opened Compression
  import opened Records
  import opened Numbers
  import opened Rdata
  import opened RrTypes
  import opened Serials
  import opened Store
  import opened ZoneText
  import opened ZoneTextRoundTrip

  /** a is rr as it should come back: its owner name up to case, its text filled in. */
  predicate ComesBack(ntop: Ntop, rr: ResourceRecord, a: ResourceRecord) {
    Same(a.name, rr.name) && a == rr.(name := a.name, content := Shown(ntop, rr).content)
  }

  // ---- What the other columns are taken for -------------------------------------------------

  lemma ClassIsNoType()
    ensures TypeOf(IN_WORD).None?
  {
    var u := Lowered(IN_WORD);
    assert |u| == 2 && u[0] == 105;
    Shapes();
  }

  lemma TtlIsNoClass(ttl: U32)
    ensures !LooksLikeClass(Decimal(ttl))
  {
    hide Decimal;
    DigitsStay(Decimal(ttl));
    assert IsDigit(Decimal(ttl)[0]);
    forall i | 0 <= i < |CLASS_NAMES| ensures CLASS_NAMES[i][0] >= 97 {}
  }

  /** After a ttl or a class in the first column, the class column stands where the type should. */
  lemma ShiftedColumns(toks: seq<Str>, ttl: U32, before: U32)
    requires |toks| >= 4 && toks[1] == Decimal(ttl) && toks[2] == IN_WORD
    requires LooksLikeTtl(toks[0]) || LooksLikeClass(toks[0])
    ensures var f := TtlAndClass(toks, 0, before); f.Throws? || f == Returns(Field(2, ttl))
  {
    hide Stoul, LooksLikeTtl, LooksLikeClass, Decimal;
    TtlColumn(ttl);
    TtlIsNoClass(ttl);
  }

  /** An owner that reads as a ttl or a class makes the parser fail, and with it the file. */
  lemma TtlOrClassFails(ntop: Ntop, pton: Pton, p: Parser, toks: seq<Str>, ttl: U32)
    requires |toks| >= 4 && toks[1] == Decimal(ttl) && toks[2] == IN_WORD
    requires LooksLikeTtl(toks[0]) || LooksLikeClass(toks[0])
    requires toks[0] != AT
    ensures !RecordLine(ntop, pton, p, toks).Went?
  {
    hide LooksLikeTtl, LooksLikeClass, Decimal, TypeOf, ContentToRdata, HostsCompleted, TtlAndClass;
    ShiftedColumns(toks, ttl, p.ttl);
    ClassIsNoType();
  }

  // ---- An owner that reads as a type --------------------------------------------------------

  /** A conversion of text leaves the text. */
  lemma ContentStays(ntop: Ntop, pton: Pton, rr: ResourceRecord)
    requires rr.rdata == []
    ensures var c := ContentToRdata(ntop, pton, rr); c.Returns? ==> c.value.rr.content == rr.content
  {
    hide DomainRdata, TxtRdata, SoaRdata, MxRdata, SrvRdata, CaaRdata, GenericRdata, RdataToContent;
    HostContentStays(rr);
    OtherContentStays(rr);
  }

  lemma HostContentStays(rr: ResourceRecord)
    ensures MxRdata(rr).Returns? ==> MxRdata(rr).value.rr.content == rr.content
    ensures SrvRdata(rr).Returns? ==> SrvRdata(rr).value.rr.content == rr.content
  {
    hide DomainRdata, Words, Stoi, Prefixed;
  }

  lemma OtherContentStays(rr: ResourceRecord)
    ensures CaaRdata(rr).Returns? ==> CaaRdata(rr).value.rr.content == rr.content
    ensures GenericRdata(rr).Returns? ==> GenericRdata(rr).value.rr.content == rr.content
  {
    hide Words, Stoi, Spaced, HexPairs, Concatenated, CaaBytes, Unquoted;
  }

  lemma WordThenSpace(w: Str, s: Str)
    requires IsWord(w)
    ensures Words(w + [SPACE] + s) == [w] + Words(s)
  {
    hide WordLength, IsWord;
    WordsOfWord(w, [SPACE] + s);
    assert w + ([SPACE] + s) == w + [SPACE] + s && ([SPACE] + s)[1..] == s;
  }

  lemma PlainIsWord(s: Str)
    requires PlainWord(s)
    ensures IsWord(s)
  {
  }

  lemma ThreeInFront(a: Str, b: Str, c: Str, toks: seq<Str>)
    requires toks != [] && IsWord(a) && IsWord(b) && IsWord(c)
    ensures |Words(Spaced([a, b, c] + toks))| == 3 + |Words(Spaced(toks))|
  {
    hide Words, Joined, IsWord;
    SpacedInFront(c, toks);
    SpacedInFront(b, [c] + toks);
    SpacedInFront(a, [b] + ([c] + toks));
    assert [a] + ([b] + ([c] + toks)) == [a, b, c] + toks;
    WordThenSpace(c, Spaced(toks));
    WordThenSpace(b, Spaced([c] + toks));
    WordThenSpace(a, Spaced([b] + ([c] + toks)));
  }

  /** Taken for content, the other columns are three words more. */
  lemma ThreeMoreWords(ttl: U32, t: U16, toks: seq<Str>)
    requires toks != []
    ensures |Words(Spaced([Decimal(ttl), IN_WORD, TypeText(t)] + toks))| == 3 + |Words(Spaced(toks))|
  {
    hide Decimal, TypeText, Words, Spaced, IsWord, PlainWord, Stoul, TypeOf, LooksLikeTtl, LooksLikeClass;
    TtlColumn(ttl);
    ClassColumn();
    TypeColumn(t);
    PlainIsWord(Decimal(ttl));
    PlainIsWord(IN_WORD);
    PlainIsWord(TypeText(t));
    ThreeInFront(Decimal(ttl), IN_WORD, TypeText(t), toks);
  }

  lemma SpacedInFront(first: Str, rest: seq<Str>)
    requires rest != []
    ensures Spaced([first] + rest) == first + [SPACE] + Spaced(rest)
  {
    assert ([first] + rest)[1..] == rest;
  }

  lemma {:induction false} ScanSpaceless(s: Str, cur: Str)
    requires (forall i :: 0 <= i < |s| ==> !IsSpace(s[i])) && forall i :: 0 <= i < |cur| ==> !IsSpace(cur[i])
    ensures Spaceless(Scan(s, cur))
    decreases |s|
  {
    hide IsSpace;
    if s == [] {
    } else if s[0] == BACKSLASH && |s| > 1 {
      ScanSpaceless(s[2..], cur + [s[1]]);
    } else if s[0] == DOT {
      ScanSpaceless(s[1..], []);
    } else {
      ScanSpaceless(s[1..], cur + [s[0]]);
    }
  }

  lemma ParsedSpaceless(w: Str)
    requires IsWord(w)
    ensures Spaceless(ParsedName(w))
  {
    hide Scan;
    TrimmedNoop(w);
    ScanSpaceless(if w[|w| - 1] == DOT then w[..|w| - 1] else w, []);
  }

  lemma {:induction false} SpacelessText(n: Name)
    requires Spaceless(n)
    ensures forall k :: 0 <= k < |Joined(n, [DOT])| ==> !IsSpace(Joined(n, [DOT])[k])
  {
    if |n| > 1 {
      assert Spaceless(n[1..]) by {
        forall i, k | 0 <= i < |n[1..]| && 0 <= k < |n[1..][i]| ensures !IsSpace(n[1..][i][k]) {
          assert n[1..][i] == n[i + 1];
        }
      }
      SpacelessText(n[1..]);
    } else if |n| == 1 {
      assert Joined(n, [DOT]) == n[0];
    }
  }

  lemma CompletedIsWord(token: Str, origin: Name)
    requires IsWord(token) && Spaceless(origin)
    ensures IsWord(ToText(Completed(token, origin), true))
  {
    hide ParsedName, Joined;
    ParsedSpaceless(token);
    var n := Completed(token, origin);
    assert Spaceless(n);
    SpacelessText(n);
  }

  lemma AbsoluteWords(parts: seq<Str>, k: nat, origin: Name)
    requires Spaceless(origin) && forall i :: 0 <= i < |parts| ==> IsWord(parts[i])
    ensures forall i :: 0 <= i < |parts| ==> IsWord(Absolute(parts, k, origin)[i])
  {
    hide IsWord, Completed, ToText;
    if k < |parts| { CompletedIsWord(parts[k], origin); }
  }

  /** Completing host names keeps the number of words. */
  lemma CompletionKeepsCount(t: U16, content: Str, origin: Name)
    requires Spaceless(origin)
    ensures |Words(HostsCompleted(t, content, origin))| == |Words(content)|
  {
    hide Words, IsWord, Completed, ToText, Joined, Absolute;
    var parts := Words(content);
    if HasHost(t) && parts != [] {
      WordsAreWords(content);
      var first := Absolute(parts, HostIndex(t), origin);
      AbsoluteWords(parts, HostIndex(t), origin);
      var second := if t == TYPE_SOA then Absolute(first, 1, origin) else first;
      if t == TYPE_SOA { AbsoluteWords(first, 1, origin); }
      OriginIsWord(origin);
      var third := if second[0] == AT then second[0 := ToText(origin, true)] else second;
      WordsOfJoined(third);
      assert HostsCompleted(t, content, origin) == Spaced(third);
    }
  }

  lemma OriginIsWord(origin: Name)
    requires Spaceless(origin)
    ensures IsWord(ToText(origin, true))
  {
    hide Joined;
    SpacelessText(origin);
  }

  /** With the type's name in the first column, what is read is another text than the record's. */
  lemma TypeOwnerMisleads(ntop: Ntop, pton: Pton, p: Parser, rr: ResourceRecord, o: Str)
    requires Spaceless(p.origin) && o != AT && TypeOf(o).Some? && !LooksLikeTtl(o) && !LooksLikeClass(o)
    requires var c := Shown(ntop, rr).content; c != [] && Spaced(Tokens(c)) == c
    ensures var c := Shown(ntop, rr).content;
      var r := RecordLine(ntop, pton, p, [o, Decimal(rr.ttl), IN_WORD, TypeText(rr.rtype)] + Tokens(c));
      r.Went? ==> |r.parser.records| == |p.records| + 1 && r.parser.records[..|p.records|] == p.records
                  && !ComesBack(ntop, rr, r.parser.records[|p.records|])
  {
    hide ContentToRdata, HostsCompleted, LooksLikeTtl, LooksLikeClass, TypeOf, Joined, Completed, Decimal, TypeText,
         Tokens, Words, Shown, Same;
    var c := Shown(ntop, rr).content;
    var tail := [Decimal(rr.ttl), IN_WORD, TypeText(rr.rtype)] + Tokens(c);
    var toks := [o, Decimal(rr.ttl), IN_WORD, TypeText(rr.rtype)] + Tokens(c);
    assert toks[1..] == tail;
    var t := TypeOf(o).value;
    var content := HostsCompleted(t, Spaced(tail), p.origin);
    NoTokensNoText(c);
    ThreeMoreWords(rr.ttl, rr.rtype, Tokens(c));
    CompletionKeepsCount(t, Spaced(tail), p.origin);
    ContentStays(ntop, pton, TextRecord(p.lastOwner, t, p.ttl, content));
  }

  lemma NoTokensNoText(c: Str)
    requires c != [] && Spaced(Tokens(c)) == c
    ensures Tokens(c) != []
  {
    hide Tokens;
  }

  // ---- One line ------------------------------------------------------------------------------

  /** A parser step, if it goes on, keeps the records and adds at most one. */
  predicate AddsAtMostOne(p: Parser, r: Progress) {
    r.Went? ==> |r.parser.records| <= |p.records| + 1 && p.records <= r.parser.records
  }

  lemma LineAdds(ntop: Ntop, pton: Pton, p: Parser, toks: seq<Str>)
    ensures AddsAtMostOne(p, ParsedTokens(ntop, pton, p, toks))
  {
    hide ContentToRdata, HostsCompleted, LooksLikeTtl, LooksLikeClass, TypeOf, Joined, Completed, Stoul, TtlAndClass;
  }

  /** The line went on with exactly one record more, and that is rr come back. */
  predicate LineComesBack(ntop: Ntop, p: Parser, rr: ResourceRecord, r: Progress) {
    && r.Went? && |r.parser.records| == |p.records| + 1 && p.records <= r.parser.records
    && ComesBack(ntop, rr, r.parser.records[|p.records|])
  }

  /** The label "@" stands for the origin, which is another name. */
  lemma AtOwnerMisleads(ntop: Ntop, pton: Pton, p: Parser, rr: ResourceRecord, rest: seq<Str>)
    requires |rr.name| > |p.origin|
    ensures !LineComesBack(ntop, p, rr, RecordLine(ntop, pton, p, [AT] + rest))
  {
    hide ContentToRdata, HostsCompleted, TypeOf, Joined, TtlAndClass, Shown;
    var toks := [AT] + rest;
    var r := RecordLine(ntop, pton, p, toks);
    if r.Went? {
      var f := TtlAndClass(toks, 1, p.ttl).value;
      var t := TypeOf(toks[f.next]).value;
      ConvertedKeeps(ntop, pton, TextRecord(p.origin, t, f.ttl,
                                            HostsCompleted(t, Spaced(toks[f.next + 1..]), p.origin)));
      assert |LowerName(p.origin)| != |LowerName(rr.name)|;
    }
  }

  lemma RelativeLength(name: Name, origin: Name)
    requires IsSubdomainOf(name, origin)
    ensures |Relative(name, origin)| == |name| - |origin|
  {
  }

  lemma UnfitOwner(ntop: Ntop, pton: Pton, origin: Name, rr: ResourceRecord, p: Parser)
    requires FileName(origin) && Describable(ntop, pton, origin, rr) && p.origin == origin
    requires !OwnerFits(origin, rr.name)
    ensures !LineComesBack(ntop, p, rr, ParsedTokens(ntop, pton, p, LineTokens(RecordText(ntop, origin, rr))))
  {
    hide Clean, Tokens, TypeText, Decimal, Shown, LineTokens, ContentToRdata, IsSpace, FileName, IsSubdomainOf, Stoul,
         LooksLikeTtl, LooksLikeClass, TypeOf, RecordText, AbsoluteHosts, ToText, RecordLine, ComesBack, Spaced;
    var o, c := OwnerText(origin, rr.name), Shown(ntop, rr).content;
    var toks := [o, Decimal(rr.ttl), IN_WORD, TypeText(rr.rtype)] + Tokens(c);
    RecordTokens(ntop, pton, origin, rr);
    FileNameSpaceless(origin);
    if Lowered(o) !in [ORIGIN_WORD, TTL_WORD, INCLUDE_WORD] {
      if o == AT {
        assert toks == [AT] + toks[1..];
        RelativeLength(rr.name, origin);
        AtOwnerMisleads(ntop, pton, p, rr, toks[1..]);
      } else if LooksLikeTtl(o) || LooksLikeClass(o) {
        TtlOrClassFails(ntop, pton, p, toks, rr.ttl);
      } else {
        TypeOwnerMisleads(ntop, pton, p, rr, o);
      }
    }
  }

  /**
   One line, exactly: the line of a describable record adds that record and nothing else if
   and only if the parser takes the owner column for an owner; the record is then under its
   name relative to the origin, completed with the origin.
   */
  lemma OwnerComesBackIff(ntop: Ntop, pton: Pton, origin: Name, rr: ResourceRecord, p: Parser)
    requires FileName(origin) && Describable(ntop, pton, origin, rr) && p.origin == origin
    ensures var r := ParsedTokens(ntop, pton, p, LineTokens(RecordText(ntop, origin, rr)));
      && (LineComesBack(ntop, p, rr, r) <==> OwnerFits(origin, rr.name))
      && (r.Went? && r.parser.records == p.records + [BackRecord(ntop, origin, rr)] <==> OwnerFits(origin, rr.name))
      && (OwnerFits(origin, rr.name) ==> r.parser.origin == origin)
  {
    hide ParsedTokens, LineTokens, RecordText, Describable, OwnerFits, ComesBack, BackRecord, FileName;
    var r := ParsedTokens(ntop, pton, p, LineTokens(RecordText(ntop, origin, rr)));
    BackComesBack(ntop, pton, origin, rr);
    if OwnerFits(origin, rr.name) {
      RecordParsed(ntop, pton, origin, rr, p);
    } else {
      UnfitOwner(ntop, pton, origin, rr, p);
    }
  }

  lemma BackComesBack(ntop: Ntop, pton: Pton, origin: Name, rr: ResourceRecord)
    requires Describable(ntop, pton, origin, rr)
    ensures ComesBack(ntop, rr, BackRecord(ntop, origin, rr))
  {
    hide Canonical, AbsoluteHosts, ContentToRdata, Shown, FileName;
    RelativeQualified(rr.name, origin);
  }

  // ---- The file -------------------------------------------------------------------------------

  predicate AllFit(origin: Name, rrs: Rrs) {
    forall i :: 0 <= i < |rrs| ==> OwnerFits(origin, rrs[i].name)
  }

  predicate AllComeBack(ntop: Ntop, rrs: Rrs, a: Rrs) {
    |a| == |rrs| && forall i :: 0 <= i < |rrs| ==> ComesBack(ntop, rrs[i], a[i])
  }

  /** No line takes records away, and each adds at most one. */
  lemma {:induction false} LinesAdd(ntop: Ntop, pton: Pton, p: Parser, lines: seq<Str>)
    ensures var r := ParsedLines(ntop, pton, p, lines);
      r.Went? ==> p.records <= r.parser.records && |r.parser.records| <= |p.records| + |lines|
    decreases |lines|
  {
    hide ParsedTokens, LineTokens;
    if lines != [] {
      var r := ParsedTokens(ntop, pton, p, LineTokens(lines[0]));
      LineAdds(ntop, pton, p, LineTokens(lines[0]));
      if r.Went? { LinesAdd(ntop, pton, r.parser, lines[1..]); }
    }
  }

  /** The records of a run of lines are read back after those that the parser already had. */
  predicate LinesComeBack(ntop: Ntop, p: Parser, rrs: Rrs, r: Progress) {
    && r.Went? && p.records <= r.parser.records
    && AllComeBack(ntop, rrs, r.parser.records[|p.records|..])
  }

  lemma {:induction false} LinesOfRecords(ntop: Ntop, pton: Pton, origin: Name, rrs: Rrs)
    requires AllDescribable(ntop, pton, origin, rrs)
    ensures |Lines(RecordLines(ntop, origin, rrs))| == |rrs|
  {
    hide Describable, RecordText, LineTokens, Flattened, Lines, Clean, Tokens;
    if rrs == [] {
      NothingWritten();
    } else {
      RecordTokens(ntop, pton, origin, rrs[0]);
      FirstLine(RecordText(ntop, origin, rrs[0]), RecordLines(ntop, origin, rrs[1..]));
      LinesOfRecords(ntop, pton, origin, rrs[1..]);
    }
  }

  lemma {:induction false} RecordsComeBackIff(ntop: Ntop, pton: Pton, origin: Name, rrs: Rrs, p: Parser)
    requires FileName(origin) && AllDescribable(ntop, pton, origin, rrs) && p.origin == origin
    ensures LinesComeBack(ntop, p, rrs, ParsedLines(ntop, pton, p, Lines(RecordLines(ntop, origin, rrs))))
            <==> AllFit(origin, rrs)
    decreases |rrs|
  {
    hide Describable, RecordText, ParsedTokens, LineTokens, Flattened, Lines, Clean, ParsedLines, OwnerFits, ComesBack,
         FileName, BackRecord;
    if rrs == [] {
      NothingWritten();
      NoLines(ntop, pton, p);
      assert AllComeBack(ntop, [], p.records[|p.records|..]);
    } else {
      var line, rest := RecordText(ntop, origin, rrs[0]), RecordLines(ntop, origin, rrs[1..]);
      RecordTokens(ntop, pton, origin, rrs[0]);
      FirstLine(line, rest);
      LinesOfRecords(ntop, pton, origin, rrs[1..]);
      OwnerComesBackIff(ntop, pton, origin, rrs[0], p);
      LineAdds(ntop, pton, p, LineTokens(line));
      var first := ParsedTokens(ntop, pton, p, LineTokens(line));
      var all := ParsedLines(ntop, pton, p, [line] + Lines(rest));
      AllFitHead(origin, rrs);
      if first.Went? {
        LinesInFront(ntop, pton, p, line, Lines(rest), first.parser);
        LinesAdd(ntop, pton, first.parser, Lines(rest));
        if OwnerFits(origin, rrs[0].name) {
          RecordsComeBackIff(ntop, pton, origin, rrs[1..], first.parser);
        }
        RestComesBack(ntop, p, rrs, first, all);
      } else {
        LineStops(ntop, pton, p, line, Lines(rest));
      }
    }
  }

  lemma NoLines(ntop: Ntop, pton: Pton, p: Parser)
    ensures ParsedLines(ntop, pton, p, []) == Went(p)
  {
  }

  lemma AllFitHead(origin: Name, rrs: Rrs)
    requires rrs != []
    ensures AllFit(origin, rrs) <==> OwnerFits(origin, rrs[0].name) && AllFit(origin, rrs[1..])
  {
    hide OwnerFits;
    if AllFit(origin, rrs[1..]) && OwnerFits(origin, rrs[0].name) {
      forall i | 0 <= i < |rrs| ensures OwnerFits(origin, rrs[i].name) {
        if i > 0 { assert rrs[i] == rrs[1..][i - 1]; }
      }
    }
  }

  lemma LineStops(ntop: Ntop, pton: Pton, p: Parser, line: Str, rest: seq<Str>)
    requires !ParsedTokens(ntop, pton, p, LineTokens(line)).Went?
    ensures !ParsedLines(ntop, pton, p, [line] + rest).Went?
  {
    hide ParsedTokens, LineTokens;
  }

  /** All records come back if the first does from its line and the others do from the rest. */
  lemma RestComesBack(ntop: Ntop, p: Parser, rrs: Rrs, first: Progress, all: Progress)
    requires rrs != [] && first.Went? && AddsAtMostOne(p, first)
    requires all.Went? ==> first.parser.records <= all.parser.records
                           && |all.parser.records| <= |first.parser.records| + |rrs| - 1
    ensures LinesComeBack(ntop, p, rrs, all)
            <==> LineComesBack(ntop, p, rrs[0], first) && LinesComeBack(ntop, first.parser, rrs[1..], all)
  {
    hide ComesBack;
    if all.Went? {
      var n := |p.records|;
      var a, b := all.parser.records, first.parser.records;
      if |b| == n + 1 {
        assert a[n..] == [a[n]] + a[n + 1..] && a[n] == b[n];
        AllComeBackHead(ntop, rrs, a[n..]);
        assert a[n..][1..] == a[|b|..];
      }
    }
  }

  lemma AllComeBackHead(ntop: Ntop, rrs: Rrs, a: Rrs)
    requires rrs != [] && a != []
    ensures AllComeBack(ntop, rrs, a) <==> ComesBack(ntop, rrs[0], a[0]) && AllComeBack(ntop, rrs[1..], a[1..])
  {
    hide ComesBack;
    if ComesBack(ntop, rrs[0], a[0]) && AllComeBack(ntop, rrs[1..], a[1..]) {
      forall i | 0 <= i < |rrs| ensures ComesBack(ntop, rrs[i], a[i]) {
        if i > 0 { assert rrs[i] == rrs[1..][i - 1] && a[i] == a[1..][i - 1]; }
      }
    }
  }

  /**
   Master-file round trip, exactly: for describable records of a zone whose name can stand in
   a file, parsing the written text succeeds and returns the same records in the same order,
   owner names up to case, if and only if every owner column is safe: not "@", no ttl, no
   class, no type and no directive.  It does not matter what origin and ttl the parser is given.
   */
  lemma MasterFileRoundTrip(ntop: Ntop, pton: Pton, origin: Name, rrs: Rrs, given: Name, defaultTtl: U32)
    requires FileName(origin) && AllDescribable(ntop, pton, origin, rrs)
    ensures var r := ParsedZone(ntop, pton, WrittenZone(ntop, origin, rrs), given, defaultTtl);
      r.Went? && AllComeBack(ntop, rrs, r.parser.records) <==> AllFit(origin, rrs)
  {
    hide Describable, RecordLines, ParsedZone, ParsedLines, Lines, Flattened, FileName, ToText, ComesBack, OwnerFits;
    var p := Parser(origin, given, 3600, []);
    RecordsComeBackIff(ntop, pton, origin, rrs, p);
    RecordsFlat(ntop, pton, origin, rrs);
    HeadersParsed(ntop, pton, origin, RecordLines(ntop, origin, rrs), given, defaultTtl);
    var r := ParsedZone(ntop, pton, WrittenZone(ntop, origin, rrs), given, defaultTtl);
    if r.Went? { assert r.parser.records[0..] == r.parser.records; }
  }

  // ---- Hosts that are lost ------------------------------------------------------------------------

  const NS_LABEL: Str := [110, 115]
  const IN_LABEL: Str := [105, 110]
  const TEN_LABEL: Str := [49, 48]
  const NS_SUB: Str := [110, 115, 46, 115, 117, 98]

  /** Hosts called ns, in or 10 are lost; one called ns.sub is not. */
  lemma UnsafeHosts()
    ensures !OwnerIsSafe(NS_LABEL) && !OwnerIsSafe(IN_LABEL) && !OwnerIsSafe(TEN_LABEL) && OwnerIsSafe(NS_SUB)
  {
    assert Lowered(NS_LABEL) == Lowered(NAME_NS);
    Shapes();
    assert Lowered(IN_LABEL) == CLASS_NAMES[0];
    SubHostIsSafe();
  }

  lemma SubHostIsSafe()
    ensures OwnerIsSafe(NS_SUB)
  {
    hide KnownType, TypeOf;
    var u := Lowered(NS_SUB);
    assert |u| == 6 && u[0] == 110;
    SixLettersNoType(NS_SUB);
    assert forall i :: 0 <= i < |CLASS_NAMES| ==> |CLASS_NAMES[i]| <= 3;
    assert !IsDigit(NS_SUB[0]);
  }

  lemma SixLettersNoType(s: Str)
    requires |s| == 6 && Lowered(s)[0] == 110
    ensures TypeOf(s).None?
  {
    hide Stoi;
    Shapes();
    assert Lowered(s)[..4][0] != Lowered(NAME_TYPE)[0];
  }

  /** A TXT record at the host ns of the root zone. */
  function NsHost(): ResourceRecord {
    ResourceRecord([NS_LABEL], TYPE_TXT, CLASS_IN, 3600, [0], [QUOTE, QUOTE], 0, false, true)
  }

  /** The zone file of that one record does not give it back. */
  lemma NsHostIsLost(ntop: Ntop, pton: Pton, given: Name, defaultTtl: U32)
    ensures Describable(ntop, pton, ROOT, NsHost())
    ensures var r := ParsedZone(ntop, pton, WrittenZone(ntop, ROOT, [NsHost()]), given, defaultTtl);
            !(r.Went? && AllComeBack(ntop, [NsHost()], r.parser.records))
  {
    hide ParsedZone, WrittenZone, ComesBack, OwnerIsSafe, Describable;
    NsHostDescribable(ntop, pton);
    UnsafeHosts();
    assert ToText([NS_LABEL], false) == NS_LABEL + [] == NS_LABEL;
    assert Relative([NS_LABEL], ROOT) == [NS_LABEL] by {
      assert [NS_LABEL][1..] == [];
      assert [NS_LABEL][..1] == [NS_LABEL];
    }
    assert !OwnerFits(ROOT, [NsHost()][0].name);
    MasterFileRoundTrip(ntop, pton, ROOT, [NsHost()], given, defaultTtl);
  }

  const QUOTES: Str := [QUOTE, QUOTE]

  lemma QuotesAreCanonical()
    ensures Canonical(QUOTES)
  {
    var one: Str := [QUOTE];
    assert QUOTES[1..] == one && one[1..] == [] && [] + one == one && one + one == QUOTES;
    assert QuotedAfter(one, true) == QuotedAfter([], false);
    assert LineBytes(one, true) == LineBytes([], false);
    assert TokensFrom(QUOTES, [], false) == TokensFrom(one, one, true);
    assert TokensFrom(one, one, true) == TokensFrom([], QUOTES, false);
  }

  lemma NsHostDescribable(ntop: Ntop, pton: Pton)
    ensures Describable(ntop, pton, ROOT, NsHost())
  {
    hide RdataToContent, MxRdata, SrvRdata, SoaRdata, CaaRdata, GenericRdata, Canonical;
    assert [NS_LABEL][1..] == [] && [NS_LABEL][..1] == [NS_LABEL];
    QuotesAreCanonical();
    assert QUOTES[1..1] == [];
    assert Unquoted(QUOTES) == [];
  }
}
