/**
 Master files line by line: the text of a record is one clean line whose columns the parser reads back.
 */
module ZoneTextRoundTrip {
  import opened Text
  import opened DnsNames
  import opened NameCodec
  import opened Compression
  import opened Records
  import opened Numbers
  import opened Rdata
  import opened RrTypes
  import opened Serials
  import opened Store
  import opened ZoneText

  // ---- Clean text -----------------------------------------------------------------------------

  /** No newline, and no comment or parenthesis outside quotes; q is the quote state before s. */
  predicate LineBytes(s: Str, q: bool) {
    s == []
    || (&& s[0] != NEWLINE && (q || (s[0] != SEMICOLON && s[0] != OPEN && s[0] != CLOSE))
        && LineBytes(s[1..], Toggled(q, s[0])))
  }

  /** Text that stands in a line without being cut or flattened: its quotes are balanced. */
  predicate Clean(s: Str) {
    LineBytes(s, false) && !QuotedAfter(s, false)
  }

  lemma {:induction false} LineBytesConcat(a: Str, b: Str, q: bool)
    ensures LineBytes(a + b, q) <==> LineBytes(a, q) && LineBytes(b, QuotedAfter(a, q))
    ensures QuotedAfter(a + b, q) == QuotedAfter(b, QuotedAfter(a, q))
  {
    if a == [] {
      assert a + b == b;
    } else {
      assert (a + b)[1..] == a[1..] + b;
      LineBytesConcat(a[1..], b, Toggled(q, a[0]));
    }
  }

  lemma CleanConcat(a: Str, b: Str)
    requires Clean(a) && Clean(b)
    ensures Clean(a + b)
  {
    LineBytesConcat(a, b, false);
  }

  lemma CleanBlank()
    ensures Clean([TAB]) && Clean([SPACE])
  {
    assert [TAB][1..] == [] && [SPACE][1..] == [];
  }

  lemma {:induction false} UncommentedLine(s: Str, q: bool)
    requires LineBytes(s, q)
    ensures Uncommented(s, q) == s
  {
    if s != [] {
      UncommentedLine(s[1..], Toggled(q, s[0]));
      assert [s[0]] + s[1..] == s;
    }
  }

  lemma {:induction false} FlattenedLine(s: Str, rest: Str, q: bool)
    requires LineBytes(s, q)
    ensures Flattened(s + rest, 0, q) == s + Flattened(rest, 0, QuotedAfter(s, q))
  {
    if s == [] {
      assert s + rest == rest;
    } else {
      assert (s + rest)[1..] == s[1..] + rest;
      FlattenedLine(s[1..], rest, Toggled(q, s[0]));
      assert [s[0]] + (s[1..] + Flattened(rest, 0, QuotedAfter(s, q))) == s + Flattened(rest, 0, QuotedAfter(s, q));
    }
  }

  lemma {:induction false} LineHasNoNewline(s: Str, q: bool)
    requires LineBytes(s, q)
    ensures NoByte(s, NEWLINE)
  {
    if s != [] {
      LineHasNoNewline(s[1..], Toggled(q, s[0]));
      assert forall i :: 0 < i < |s| ==> s[i] == s[1..][i - 1];
    }
  }

  lemma {:induction false} LineLengthOf(s: Str, rest: Str)
    requires NoByte(s, NEWLINE)
    ensures LineLength(s + [NEWLINE] + rest) == |s|
  {
    var t := s + [NEWLINE] + rest;
    if s != [] {
      assert t[1..] == s[1..] + [NEWLINE] + rest;
      LineLengthOf(s[1..], rest);
    }
  }

  /** A clean line at the front of a text is flattened to itself and is the first line. */
  lemma FirstLine(line: Str, rest: Str)
    requires Clean(line)
    ensures Flattened(line + [NEWLINE] + rest, 0, false) == line + [NEWLINE] + Flattened(rest, 0, false)
    ensures Lines(line + [NEWLINE] + rest) == [line] + Lines(rest)
  {
    hide LineLength, Uncommented;
    var text := line + [NEWLINE] + rest;
    assert text == line + ([NEWLINE] + rest);
    FlattenedLine(line, [NEWLINE] + rest, false);
    assert ([NEWLINE] + rest)[1..] == rest;
    LineHasNoNewline(line, false);
    LineLengthOf(line, rest);
    assert text[..|line|] == line && text[|line| + 1..] == rest;
    assert line + ([NEWLINE] + Flattened(rest, 0, false)) == line + [NEWLINE] + Flattened(rest, 0, false);
  }

  // ---- Tokens ---------------------------------------------------------------------------------

  /** A byte that stands for itself in a token without quotes. */
  predicate WordByte(c: Byte) {
    !IsSpace(c) && c != QUOTE && c != SEMICOLON && c != OPEN && c != CLOSE
  }

  predicate PlainWord(s: Str) {
    s != [] && forall i :: 0 <= i < |s| ==> WordByte(s[i])
  }

  lemma {:induction false} WordsAreClean(s: Str)
    requires forall i :: 0 <= i < |s| ==> WordByte(s[i])
    ensures Clean(s)
  {
    if s != [] {
      WordsAreClean(s[1..]);
    }
  }

  lemma {:induction false} TokenTaken(t: Str, rest: Str, cur: Str)
    requires forall i :: 0 <= i < |t| ==> WordByte(t[i])
    ensures TokensFrom(t + rest, cur, false) == TokensFrom(rest, cur + t, false)
  {
    if t == [] {
      assert t + rest == rest && cur + t == cur;
    } else {
      assert (t + rest)[1..] == t[1..] + rest;
      assert cur + [t[0]] + t[1..] == cur + t;
      TokenTaken(t[1..], rest, cur + [t[0]]);
    }
  }

  /** A word and a blank in front of a text are one token more. */
  lemma WordInFront(t: Str, blank: Byte, rest: Str)
    requires PlainWord(t) && (blank == SPACE || blank == TAB)
    ensures Tokens(t + [blank] + rest) == [t] + Tokens(rest)
  {
    hide IsSpace;
    assert t + [blank] + rest == t + ([blank] + rest);
    TokenTaken(t, [blank] + rest, []);
    assert [] + t == t;
    BlankEnds(t, blank, rest);
  }

  lemma BlankEnds(t: Str, blank: Byte, rest: Str)
    requires t != [] && (blank == SPACE || blank == TAB)
    ensures TokensFrom([blank] + rest, t, false) == [t] + TokensFrom(rest, [], false)
  {
    assert ([blank] + rest)[1..] == rest;
  }

  lemma LastWord(t: Str)
    requires PlainWord(t)
    ensures Tokens(t) == [t]
  {
    TokenTaken(t, [], []);
    assert t + [] == t && [] + t == t;
  }

  // ---- Names in the text ------------------------------------------------------------------------

  /** Labels that can stand in a master file: plain, and made of bytes that mean themselves. */
  predicate FileName(n: Name) {
    PlainName(n) && forall i, k :: 0 <= i < |n| && 0 <= k < |n[i]| ==> WordByte(n[i][k])
  }

  lemma FileNameSpaceless(n: Name)
    requires FileName(n)
    ensures Spaceless(n)
  {
  }

  lemma {:induction false} FileNameText(n: Name)
    requires FileName(n) && n != []
    ensures PlainWord(Joined(n, [DOT]))
  {
    assert PlainLabel(n[0]);
    if |n| > 1 {
      assert FileName(n[1..]) by {
        assert PlainName(n[1..]);
        forall i, k | 0 <= i < |n[1..]| && 0 <= k < |n[1..][i]| ensures WordByte(n[1..][i][k]) {
          assert n[1..][i] == n[i + 1];
        }
      }
      FileNameText(n[1..]);
    }
  }

  /** A relative owner name is a word that parses to its labels and is not absolute. */
  lemma RelativeText(n: Name)
    requires FileName(n) && n != ROOT
    ensures var o := ToText(n, false);
      PlainWord(o) && ParsedName(o) == n && !IsAbsolute(o)
  {
    hide PlainName, ParsedName, PlainWord, Joined;
    FileNameText(n);
    FileNameSpaceless(n);
    JoinedLast(n);
    SpacelessParsed(n);
    assert Joined(n, [DOT]) + [] == Joined(n, [DOT]);
  }

  /** The origin is written as an absolute word that parses back to it. */
  lemma OriginText(n: Name)
    requires FileName(n)
    ensures var o := ToText(n, true);
      PlainWord(o) && ParsedName(o) == n && IsAbsolute(o) && o != AT
  {
    hide PlainName, ParsedName, Joined;
    if n == ROOT {
      RootParsed();
    } else {
      FileNameText(n);
      PlainIsReparsed(n);
    }
  }

  // ---- One record ---------------------------------------------------------------------------------

  /** Text that tokenizing, joining and trimming leave alone. */
  predicate Canonical(c: Str) {
    c != [] && Clean(c) && Spaced(Tokens(c)) == c && !IsSpace(c[|c| - 1])
  }

  /** Host names in the content are absolute, so that the origin is not put behind them. */
  predicate AbsoluteHosts(t: U16, c: Str) {
    HasHost(t) ==>
      var parts := Words(c);
      && parts != [] && Spaced(parts) == c && parts[0] != AT
      && (HostIndex(t) < |parts| ==> IsAbsolute(parts[HostIndex(t)]))
      && (t == TYPE_SOA && |parts| > 1 ==> IsAbsolute(parts[1]))
  }

  lemma HostsStay(t: U16, c: Str, origin: Name)
    requires AbsoluteHosts(t, c)
    ensures HostsCompleted(t, c, origin) == c
  {
    hide Words, Joined, Completed;
  }

  /** An owner column that the parser takes for an owner and for nothing else. */
  predicate OwnerIsSafe(o: Str) {
    && o != AT && !LooksLikeTtl(o) && !LooksLikeClass(o) && TypeOf(o).None?
    && Lowered(o) !in [ORIGIN_WORD, TTL_WORD, INCLUDE_WORD]
  }

  /** The record that the text of rr describes, under the given name. */
  function Described(ntop: Ntop, rr: ResourceRecord, name: Name): ResourceRecord {
    TextRecord(name, rr.rtype, rr.ttl, Shown(ntop, rr).content)
  }

  /** A record of the zone whose text says all of it, with an owner made of bytes that mean themselves. */
  predicate Describable(ntop: Ntop, pton: Pton, origin: Name, rr: ResourceRecord) {
    var rel := Relative(rr.name, origin);
    var c := Shown(ntop, rr).content;
    && IsSubdomainOf(rr.name, origin)
    && (rel != ROOT ==> FileName(rel))
    && Canonical(c) && AbsoluteHosts(rr.rtype, c)
    && ContentToRdata(ntop, pton, Described(ntop, rr, rr.name)) == Returns(Converted(rr.(content := c), true))
  }

  /** The owner column of the name is an owner to the parser. */
  predicate OwnerFits(origin: Name, name: Name) {
    var rel := Relative(name, origin);
    rel == ROOT || OwnerIsSafe(ToText(rel, false))
  }

  /** The name as it comes back: the suffix in the case of the origin. */
  function BackName(origin: Name, name: Name): Name {
    Qualified(Relative(name, origin), origin)
  }

  /** The record as it comes back. */
  function BackRecord(ntop: Ntop, origin: Name, rr: ResourceRecord): ResourceRecord {
    rr.(name := BackName(origin, rr.name), content := Shown(ntop, rr).content)
  }

  lemma DescribedBack(ntop: Ntop, pton: Pton, origin: Name, rr: ResourceRecord)
    requires Describable(ntop, pton, origin, rr)
    ensures ContentToRdata(ntop, pton, Described(ntop, rr, BackName(origin, rr.name)))
            == Returns(Converted(BackRecord(ntop, origin, rr), true))
  {
    hide ContentToRdata, Shown, Canonical, AbsoluteHosts, FileName, IsSubdomainOf, BackName;
    NameIsIrrelevant(ntop, pton, Described(ntop, rr, rr.name), BackName(origin, rr.name));
  }

  // ---- The columns of a line ------------------------------------------------------------------------

  lemma OwnerColumn(origin: Name, name: Name)
    requires Relative(name, origin) != ROOT ==> FileName(Relative(name, origin))
    ensures PlainWord(OwnerText(origin, name))
  {
    hide FileName, PlainWord, Relative, ParsedName;
    if Relative(name, origin) == ROOT {
      AtIsOwner();
    } else {
      RelativeText(Relative(name, origin));
    }
  }

  lemma OwnerRead(origin: Name, name: Name)
    requires Relative(name, origin) != ROOT ==> FileName(Relative(name, origin))
    requires OwnerFits(origin, name)
    ensures var o := OwnerText(origin, name);
      && Completed(o, origin) == BackName(origin, name)
      && (forall rest: seq<Str> :: StartsWithOwner([o] + rest))
      && Lowered(o) !in [ORIGIN_WORD, TTL_WORD, INCLUDE_WORD]
  {
    hide FileName, ParsedName, TypeOf, LooksLikeClass, LooksLikeTtl, Relative;
    var rel := Relative(name, origin);
    if rel == ROOT {
      assert [] + origin == origin;
      AtIsOwner();
    } else {
      RelativeText(rel);
    }
  }

  lemma AtIsOwner()
    ensures PlainWord(AT) && Lowered(AT) !in [ORIGIN_WORD, TTL_WORD, INCLUDE_WORD]
  {
    assert |Lowered(AT)| == 1;
  }

  lemma TtlColumn(ttl: U32)
    ensures PlainWord(Decimal(ttl)) && LooksLikeTtl(Decimal(ttl)) && Stoul(Decimal(ttl)) == Returns(ttl)
  {
    hide Stoul, Stoi, Recognised;
    DecimalReadBack(ttl);
  }

  lemma ClassColumn()
    ensures PlainWord(IN_WORD) && LooksLikeClass(IN_WORD)
  {
    assert Lowered(IN_WORD) == CLASS_NAMES[0];
  }

  lemma TypeColumn(t: U16)
    ensures PlainWord(TypeText(t)) && !LooksLikeTtl(TypeText(t)) && TypeOf(TypeText(t)) == Some(t)
  {
    hide TypeText, TypeOf;
    TypeTextBytes(t);
    TypeReadBack(t);
    forall i | 0 <= i < |TypeText(t)| ensures WordByte(TypeText(t)[i]) {
      assert TypeByte(TypeText(t)[i]);
    }
  }

  /** The tokens of a written line: four columns, then those of the content. */
  lemma ColumnTokens(o: Str, ttl: Str, t: Str, c: Str)
    requires PlainWord(o) && PlainWord(ttl) && PlainWord(t)
    ensures Tokens(o + [TAB] + (ttl + [TAB] + (IN_WORD + [TAB] + (t + [TAB] + c)))) == [o, ttl, IN_WORD, t] + Tokens(c)
  {
    hide Tokens, PlainWord;
    ClassColumn();
    WordInFront(t, TAB, c);
    WordInFront(IN_WORD, TAB, t + [TAB] + c);
    WordInFront(ttl, TAB, IN_WORD + [TAB] + (t + [TAB] + c));
    WordInFront(o, TAB, ttl + [TAB] + (IN_WORD + [TAB] + (t + [TAB] + c)));
  }

  lemma WordThenClean(t: Str, rest: Str)
    requires PlainWord(t) && Clean(rest)
    ensures Clean(t + [TAB] + rest)
  {
    hide Clean;
    WordsAreClean(t);
    CleanBlank();
    CleanConcat(t, [TAB]);
    CleanConcat(t + [TAB], rest);
  }

  lemma ColumnsAreClean(o: Str, ttl: Str, t: Str, c: Str)
    requires PlainWord(o) && PlainWord(ttl) && PlainWord(t) && Clean(c)
    ensures Clean(o + [TAB] + (ttl + [TAB] + (IN_WORD + [TAB] + (t + [TAB] + c))))
  {
    hide Clean, PlainWord;
    ClassColumn();
    WordThenClean(t, c);
    WordThenClean(IN_WORD, t + [TAB] + c);
    WordThenClean(ttl, IN_WORD + [TAB] + (t + [TAB] + c));
    WordThenClean(o, ttl + [TAB] + (IN_WORD + [TAB] + (t + [TAB] + c)));
  }

  /** Of a clean line that neither starts nor ends with white space, the parser sees all tokens. */
  lemma SeenTokens(line: Str)
    requires Clean(line) && line != [] && !IsSpace(line[0]) && !IsSpace(line[|line| - 1])
    ensures LineTokens(line) == Tokens(line)
  {
    hide Tokens;
    UncommentedLine(line, false);
    TrimmedNoop(line);
  }

  lemma RecordTokens(ntop: Ntop, pton: Pton, origin: Name, rr: ResourceRecord)
    requires Describable(ntop, pton, origin, rr)
    ensures var line := RecordText(ntop, origin, rr); var c := Shown(ntop, rr).content;
      && Clean(line)
      && LineTokens(line) == [OwnerText(origin, rr.name), Decimal(rr.ttl), IN_WORD, TypeText(rr.rtype)] + Tokens(c)
      && Spaced(Tokens(c)) == c
  {
    hide Clean, Tokens, TypeText, Decimal, OwnerText, Shown, LineTokens, AbsoluteHosts, ContentToRdata, Spaced, IsSpace,
         FileName, IsSubdomainOf, Stoul, LooksLikeTtl, TypeOf, Relative;
    var o, ttl, t, c := OwnerText(origin, rr.name), Decimal(rr.ttl), TypeText(rr.rtype), Shown(ntop, rr).content;
    OwnerColumn(origin, rr.name);
    TtlColumn(rr.ttl);
    TypeColumn(rr.rtype);
    ColumnTokens(o, ttl, t, c);
    ColumnsAreClean(o, ttl, t, c);
    var line := RecordText(ntop, origin, rr);
    assert line[0] == o[0] && WordByte(o[0]);
    assert line[|line| - 1] == c[|c| - 1];
    SeenTokens(line);
  }

  // ---- One line parsed ----------------------------------------------------------------------------------

  /** ttl and class in the columns where the writer puts them. */
  lemma ColumnsRead(toks: seq<Str>, ttl: U32, before: U32)
    requires |toks| >= 4 && toks[1] == Decimal(ttl) && toks[2] == IN_WORD && !LooksLikeTtl(toks[3])
    ensures TtlAndClass(toks, 1, before) == Returns(Field(3, ttl))
  {
    hide Stoul, LooksLikeTtl, LooksLikeClass, Decimal;
    TtlColumn(ttl);
    ClassColumn();
  }

  /** The line of a describable record with a fitting owner adds that record, under its completed name. */
  lemma RecordParsed(ntop: Ntop, pton: Pton, origin: Name, rr: ResourceRecord, p: Parser)
    requires Describable(ntop, pton, origin, rr) && OwnerFits(origin, rr.name) && p.origin == origin
    ensures var r := ParsedTokens(ntop, pton, p, LineTokens(RecordText(ntop, origin, rr)));
      r.Went? && r.parser.origin == origin && r.parser.records == p.records + [BackRecord(ntop, origin, rr)]
  {
    hide Clean, Tokens, TypeText, Decimal, OwnerText, Shown, LineTokens, ContentToRdata, Spaced, IsSpace,
         Completed, StartsWithOwner, FileName, OwnerFits, IsSubdomainOf, Stoul, LooksLikeTtl, TypeOf, TtlAndClass,
         Relative, RecordText, HostsCompleted, AbsoluteHosts, Canonical, BackName, PlainWord, BackRecord;
    var c := Shown(ntop, rr).content;
    var head := [OwnerText(origin, rr.name), Decimal(rr.ttl), IN_WORD, TypeText(rr.rtype)];
    var toks := head + Tokens(c);
    RecordTokens(ntop, pton, origin, rr);
    OwnerRead(origin, rr.name);
    TypeColumn(rr.rtype);
    ColumnsRead(toks, rr.ttl, p.ttl);
    HostsStay(rr.rtype, c, origin);
    DescribedBack(ntop, pton, origin, rr);
    assert toks[4..] == Tokens(c);
    assert toks == [toks[0]] + toks[1..];
  }

  predicate AllDescribable(ntop: Ntop, pton: Pton, origin: Name, rrs: Rrs) {
    forall i :: 0 <= i < |rrs| ==> Describable(ntop, pton, origin, rrs[i])
  }

  /** The text of the records has no parentheses to flatten. */
  lemma {:induction false} RecordsFlat(ntop: Ntop, pton: Pton, origin: Name, rrs: Rrs)
    requires AllDescribable(ntop, pton, origin, rrs)
    ensures Flattened(RecordLines(ntop, origin, rrs), 0, false) == RecordLines(ntop, origin, rrs)
  {
    hide Describable, RecordText, LineTokens, Flattened, Lines, Clean, Tokens;
    if rrs == [] {
      NothingWritten();
    } else {
      RecordTokens(ntop, pton, origin, rrs[0]);
      FirstLine(RecordText(ntop, origin, rrs[0]), RecordLines(ntop, origin, rrs[1..]));
      RecordsFlat(ntop, pton, origin, rrs[1..]);
    }
  }

  lemma NothingWritten()
    ensures Flattened([], 0, false) == [] && Lines([]) == []
  {
  }

  // ---- The two header lines -------------------------------------------------------------------------------

  lemma OriginLine(ntop: Ntop, pton: Pton, origin: Name, p: Parser)
    requires FileName(origin)
    ensures var line := ORIGIN_TEXT + [SPACE] + ToText(origin, true);
      && Clean(line) && ParsedTokens(ntop, pton, p, LineTokens(line)) == Went(p.(origin := origin))
  {
    hide ParsedName, PlainName, FileName, Tokens, LineTokens, Joined, RecordLine;
    var o := ToText(origin, true);
    OriginText(origin);
    OriginWordRead();
    HeaderTokens(ORIGIN_TEXT, o);
  }

  lemma OriginWordRead()
    ensures Lowered(ORIGIN_TEXT) == ORIGIN_WORD && PlainWord(ORIGIN_TEXT)
    ensures Lowered(TTL_TEXT) == TTL_WORD && PlainWord(TTL_TEXT) && TTL_WORD != ORIGIN_WORD
  {
    assert |TTL_WORD| != |ORIGIN_WORD|;
  }

  lemma HeaderTokens(word: Str, value: Str)
    requires PlainWord(word) && PlainWord(value)
    ensures var line := word + [SPACE] + value; Clean(line) && LineTokens(line) == [word, value]
  {
    hide Clean, Tokens, LineTokens;
    var line := word + [SPACE] + value;
    WordsAreClean(word);
    WordsAreClean(value);
    CleanBlank();
    CleanConcat(word, [SPACE]);
    CleanConcat(word + [SPACE], value);
    assert line[0] == word[0] && line[|line| - 1] == value[|value| - 1];
    SeenTokens(line);
    WordInFront(word, SPACE, value);
    LastWord(value);
  }

  lemma TtlValue()
    ensures Decimal(3600) == TTL_VALUE
  {
    assert Decimal(3) == [51];
    assert Decimal(36) == [51, 54];
    assert Decimal(360) == [51, 54, 48];
  }

  lemma TtlLine(ntop: Ntop, pton: Pton, p: Parser)
    ensures var line := TTL_TEXT + [SPACE] + TTL_VALUE;
      && Clean(line) && ParsedTokens(ntop, pton, p, LineTokens(line)) == Went(p.(ttl := 3600))
  {
    hide Tokens, LineTokens, RecordLine, Stoul, Decimal, Clean;
    OriginWordRead();
    TtlValue();
    TtlColumn(3600);
    HeaderTokens(TTL_TEXT, TTL_VALUE);
  }

  lemma HeadersParsed(ntop: Ntop, pton: Pton, origin: Name, records: Str, given: Name, defaultTtl: U32)
    requires FileName(origin) && Flattened(records, 0, false) == records
    ensures var text := (ORIGIN_TEXT + [SPACE] + ToText(origin, true)) + [NEWLINE]
                        + ((TTL_TEXT + [SPACE] + TTL_VALUE) + [NEWLINE] + records);
      ParsedZone(ntop, pton, text, given, defaultTtl)
      == ParsedLines(ntop, pton, Parser(origin, given, 3600, []), Lines(records))
  {
    hide ParsedTokens, LineTokens, Flattened, Lines, Clean, ToText, FileName;
    var first, second := ORIGIN_TEXT + [SPACE] + ToText(origin, true), TTL_TEXT + [SPACE] + TTL_VALUE;
    var p0 := Parser(given, given, defaultTtl, []);
    var p1 := p0.(origin := origin);
    OriginLine(ntop, pton, origin, p0);
    TtlLine(ntop, pton, p1);
    var rest := second + [NEWLINE] + records;
    FirstLine(second, records);
    FirstLine(first, rest);
    LinesInFront(ntop, pton, p0, first, Lines(rest), p1);
    LinesInFront(ntop, pton, p1, second, Lines(records), p1.(ttl := 3600));
  }

  lemma LinesInFront(ntop: Ntop, pton: Pton, p: Parser, line: Str, rest: seq<Str>, next: Parser)
    requires ParsedTokens(ntop, pton, p, LineTokens(line)) == Went(next)
    ensures ParsedLines(ntop, pton, p, [line] + rest) == ParsedLines(ntop, pton, next, rest)
  {
    hide ParsedTokens, LineTokens;
    assert ([line] + rest)[1..] == rest;
  }
}
