/**
 What one line of a master file says: its columns, and the host names in its content, which
 stand under the current origin unless they are absolute.
 */
module ZoneHosts {
  import opened Text
  import opened DnsNames
  import opened NameCodec
  import opened Compression
  import opened Records
  import opened Numbers
  import opened Rdata
  import opened RdataRoundTrip
  import opened RrTypes
  import opened ZoneText
  import opened ZoneTextRoundTrip
  import opened ZoneOwners
  import opened ZoneRdata

  // ---- The columns ---------------------------------------------------------------------------

  /** Decimal digits that std::stoul accepts; the value is cut to 32 bits. */
  predicate TtlWord(w: Str) {
    w != [] && (forall i :: 0 <= i < |w| ==> 48 <= w[i] <= 57) && Stoul(w).Returns?
  }

  function TtlSaid(w: Str): U32
    requires TtlWord(w)
  {
    Stoul(w).value % 0x1_0000_0000
  }

  /** "in", "ch", "hs" or "any", in any case. */
  predicate ClassWord(w: Str) {
    Lowered(w) in {[105, 110], [99, 104], [104, 115], [97, 110, 121]}
  }

  /** The name of a type, which is neither a ttl nor a class. */
  predicate TypeWord(w: Str, t: U16) {
    TypeOf(w) == Some(t) && !ClassWord(w)
  }

  /** "$origin", "$ttl" or "$include", in any case. */
  predicate Directive(w: Str) {
    Lowered(w) in {[36, 111, 114, 105, 103, 105, 110], [36, 116, 116, 108], [36, 105, 110, 99, 108, 117, 100, 101]}
  }

  /** "@", or a word that is no directive, ttl, class or type. */
  predicate OwnerWord(w: Str) {
    || w == [64]
    || (!Directive(w) && !ClassWord(w) && TypeOf(w).None? && exists i :: 0 <= i < |w| && !(48 <= w[i] <= 57))
  }

  /** The columns of a line before the type: owner, ttl, class and ttl again, each optional. */
  datatype Columns = Columns(owner: Option<Str>, first: Option<Str>, class_: Option<Str>, second: Option<Str>)

  function OptionalWord(w: Option<Str>): seq<Str> {
    if w.None? then [] else [w.value]
  }

  function ColumnWords(c: Columns): seq<Str> {
    OptionalWord(c.owner) + (OptionalWord(c.first) + (OptionalWord(c.class_) + OptionalWord(c.second)))
  }

  /** Each column holds what it should; a lone ttl is the first one. */
  predicate Proper(c: Columns) {
    && (c.second.Some? ==> c.first.Some? || c.class_.Some?)
    && (c.owner.Some? ==> OwnerWord(c.owner.value))
    && (c.first.Some? ==> TtlWord(c.first.value))
    && (c.class_.Some? ==> ClassWord(c.class_.value))
    && (c.second.Some? ==> TtlWord(c.second.value))
  }

  /** The later ttl of the line, or the one in force before it. */
  function GivenTtl(p: Parser, c: Columns): U32
    requires Proper(c)
  {
    if c.second.Some? then TtlSaid(c.second.value)
    else if c.first.Some? then TtlSaid(c.first.value)
    else p.ttl
  }

  /** "@" is the origin, a name with a final dot is absolute, and any other name stands under the origin. */
  function OwnerNamed(p: Parser, owner: Option<Str>): Name {
    if owner.None? then p.lastOwner
    else if owner.value == [64] then p.origin
    else if owner.value != [] && owner.value[|owner.value| - 1] == 46 then ParsedName(owner.value)
    else ParsedName(owner.value) + p.origin
  }

  lemma TypeWordStart(w: Str)
    requires TypeOf(w).Some?
    ensures w != [] && LowerByte(w[0]) >= 97
  {
    hide Stoi, Stoul, Recognised;
    Shapes();
    var u := Lowered(w);
    assert Lowered(NAME_TYPE)[0] == 116;
    if KnownType(u).None? {
      assert u[..4][0] == u[0];
    }
  }

  /** A type is neither a ttl nor a directive. */
  lemma TypeIsTaken(w: Str, t: U16)
    requires TypeWord(w, t)
    ensures !LooksLikeTtl(w) && !LooksLikeClass(w) && w != AT && Lowered(w) !in [ORIGIN_WORD, TTL_WORD, INCLUDE_WORD]
  {
    hide TypeOf;
    TypeWordStart(w);
    assert Lowered(w)[0] == LowerByte(w[0]);
  }

  lemma OwnerIsTaken(w: Str, rest: seq<Str>)
    requires OwnerWord(w)
    ensures StartsWithOwner([w] + rest) && Lowered(w) !in [ORIGIN_WORD, TTL_WORD, INCLUDE_WORD]
  {
    hide TypeOf;
    if w == AT { AtIsOwner(); }
  }

  lemma ClassIsTaken(w: Str)
    requires ClassWord(w)
    ensures w != [] && LooksLikeClass(w) && !LooksLikeTtl(w) && w != AT
    ensures Lowered(w) !in [ORIGIN_WORD, TTL_WORD, INCLUDE_WORD]
  {
    var u := Lowered(w);
    assert u[0] == LowerByte(w[0]) && u[0] >= 97;
    assert CLASS_NAMES == [[105, 110], [99, 104], [104, 115], [97, 110, 121]];
  }

  lemma TtlIsTaken(w: Str)
    requires TtlWord(w)
    ensures LooksLikeTtl(w) && !LooksLikeClass(w) && w != AT && Lowered(w) !in [ORIGIN_WORD, TTL_WORD, INCLUDE_WORD]
  {
    hide Stoul;
    DigitsStay(w);
    assert IsDigit(w[0]) && forall i :: 0 <= i < |CLASS_NAMES| ==> !IsDigit(CLASS_NAMES[i][0]);
    assert !IsDigit(AT[0]) && !IsDigit(ORIGIN_WORD[0]) && !IsDigit(TTL_WORD[0]) && !IsDigit(INCLUDE_WORD[0]);
  }

  // ---- A line with these columns ---------------------------------------------------------------

  /** What becomes of a line whose owner, type, ttl and completed content are these. */
  function Adding(ntop: Ntop, pton: Pton, p: Parser, owner: Name, t: U16, ttl: U32, content: Str): Progress {
    match ContentToRdata(ntop, pton, ResourceRecord(owner, t, 1, ttl, [], content, 0, false, true))
    case Throws => Threw
    case Returns(c) =>
      if c.ok then Went(p.(lastOwner := owner, records := p.records + [c.rr])) else Stopped(BadRdata)
  }

  function Line(c: Columns, word: Str, content: seq<Str>): seq<Str> {
    ColumnWords(c) + ([word] + content)
  }

  lemma TtlTaken(toks: seq<Str>, i: nat, ttl: U32, w: Option<Str>, rest: seq<Str>)
    requires i <= |toks| && toks[i..] == OptionalWord(w) + rest && rest != []
    requires if w.Some? then TtlWord(w.value) else !LooksLikeTtl(rest[0])
    ensures var j := i + |OptionalWord(w)|;
      && j < |toks| && toks[j..] == rest && toks[j] == rest[0]
      && TtlField(toks, i, ttl) == Returns(Field(j, if w.Some? then TtlSaid(w.value) else ttl))
  {
    hide LooksLikeTtl, Stoul;
    assert toks[i] == (OptionalWord(w) + rest)[0];
    assert rest[0] == (OptionalWord(w) + rest)[|OptionalWord(w)|] == toks[i + |OptionalWord(w)|];
    assert toks[i + |OptionalWord(w)|..] == toks[i..][|OptionalWord(w)|..];
    if w.Some? { TtlIsTaken(w.value); }
  }

  lemma ClassTaken(toks: seq<Str>, i: nat, w: Option<Str>, rest: seq<Str>)
    requires i <= |toks| && toks[i..] == OptionalWord(w) + rest && rest != []
    requires if w.Some? then ClassWord(w.value) else !LooksLikeClass(rest[0])
    ensures var j := i + |OptionalWord(w)|;
      && i < |toks| && j < |toks| && toks[j..] == rest
      && (LooksLikeClass(toks[i]) <==> w.Some?)
  {
    hide LooksLikeClass, ClassWord;
    assert toks[i] == (OptionalWord(w) + rest)[0];
    assert rest[0] == (OptionalWord(w) + rest)[|OptionalWord(w)|] == toks[i + |OptionalWord(w)|];
    assert toks[i + |OptionalWord(w)|..] == toks[i..][|OptionalWord(w)|..];
    if w.Some? { ClassIsTaken(w.value); }
  }

  predicate NoTtlOrClass(tail: seq<Str>) {
    tail != [] && !LooksLikeTtl(tail[0]) && !LooksLikeClass(tail[0])
  }

  /** No column is taken for one before it. */
  lemma ColumnsApart(c: Columns, tail: seq<Str>)
    requires Proper(c) && NoTtlOrClass(tail)
    ensures var third := OptionalWord(c.second) + tail; var second := OptionalWord(c.class_) + third;
      && third != [] && second != []
      && (c.first.None? ==> !LooksLikeTtl(second[0]))
      && (c.class_.None? ==> !LooksLikeClass(third[0]))
  {
    hide LooksLikeTtl, LooksLikeClass, TtlWord, ClassWord;
    if c.class_.Some? { ClassIsTaken(c.class_.value); }
    if c.second.Some? { TtlIsTaken(c.second.value); }
  }

  /** The parser finds the type behind the columns, and the ttl they give. */
  lemma TtlsRead(toks: seq<Str>, i: nat, p: Parser, c: Columns, tail: seq<Str>)
    requires Proper(c) && NoTtlOrClass(tail) && i <= |toks|
    requires toks[i..] == OptionalWord(c.first) + (OptionalWord(c.class_) + (OptionalWord(c.second) + tail))
    ensures var k := |toks| - |tail|;
      k >= 0 && toks[k..] == tail && TtlAndClass(toks, i, p.ttl) == Returns(Field(k, GivenTtl(p, c)))
  {
    hide LooksLikeTtl, LooksLikeClass, Stoul, TtlField, TtlWord, ClassWord, OwnerWord, OptionalWord;
    var third := OptionalWord(c.second) + tail;
    var second := OptionalWord(c.class_) + third;
    ColumnsApart(c, tail);
    TtlTaken(toks, i, p.ttl, c.first, second);
    var j := i + |OptionalWord(c.first)|;
    ClassTaken(toks, j, c.class_, third);
    var ttl := if c.first.Some? then TtlSaid(c.first.value) else p.ttl;
    var l := j + |OptionalWord(c.class_)|;
    TtlTaken(toks, l, ttl, c.second, tail);
    ClassSkipped(toks, j, c.class_);
  }

  lemma ClassSkipped(toks: seq<Str>, j: nat, w: Option<Str>)
    requires j < |toks| && (LooksLikeClass(toks[j]) <==> w.Some?)
    ensures (if LooksLikeClass(toks[j]) then j + 1 else j) == j + |OptionalWord(w)|
  {
  }

  /** Behind the columns the record is made of the type and the content. */
  lemma RecordRead(ntop: Ntop, pton: Pton, p: Parser, owner: Name, toks: seq<Str>, f: Field, word: Str, t: U16,
                   content: seq<Str>)
    requires f.next <= |toks| && toks[f.next..] == [word] + content && TypeWord(word, t)
    ensures RecordFrom(ntop, pton, p, owner, toks, f)
            == Adding(ntop, pton, p, owner, t, f.ttl, HostsCompleted(t, Spaced(content), p.origin))
  {
    hide TypeOf, HostsCompleted, Spaced, ContentToRdata, ClassWord;
    var k := f.next;
    assert toks[k] == toks[k..][0] == word && toks[k + 1..] == toks[k..][1..] == content;
  }

  lemma OwnerIsCompleted(p: Parser, owner: Str)
    ensures OwnerNamed(p, Some(owner)) == Completed(owner, p.origin)
  {
    hide ParsedName;
  }

  /** Columns and type are read as they stand; only the hosts in the content remain to be completed. */
  lemma LineRead(ntop: Ntop, pton: Pton, p: Parser, c: Columns, word: Str, t: U16, content: seq<Str>)
    requires Proper(c) && TypeWord(word, t)
    ensures ParsedTokens(ntop, pton, p, Line(c, word, content))
            == Adding(ntop, pton, p, OwnerNamed(p, c.owner), t, GivenTtl(p, c),
                      HostsCompleted(t, Spaced(content), p.origin))
  {
    hide TtlAndClass, TypeOf, LooksLikeTtl, LooksLikeClass, HostsCompleted, Spaced, ContentToRdata, Proper, GivenTtl,
         StartsWithOwner, OwnerWord, TypeWord, RecordFrom, Adding, Completed, Lowered;
    var toks := Line(c, word, content);
    var tail := [word] + content;
    var rest := OptionalWord(c.first) + (OptionalWord(c.class_) + (OptionalWord(c.second) + tail));
    assert toks == OptionalWord(c.owner) + rest;
    var i := |OptionalWord(c.owner)|;
    assert toks[i..] == rest;
    TypeIsTaken(word, t);
    TtlsRead(toks, i, p, c, tail);
    FirstToken(c, word, t, content);
    if c.owner.Some? { OwnerIsCompleted(p, c.owner.value); }
    RecordRead(ntop, pton, p, OwnerNamed(p, c.owner), toks, Field(|toks| - |tail|, GivenTtl(p, c)), word, t, content);
  }

  /** The first token is an owner exactly if the line has that column, and never a directive. */
  lemma FirstToken(c: Columns, word: Str, t: U16, content: seq<Str>)
    requires Proper(c) && TypeWord(word, t)
    ensures var toks := Line(c, word, content);
      && toks != [] && (StartsWithOwner(toks) <==> c.owner.Some?)
      && (c.owner.Some? ==> toks[0] == c.owner.value)
      && Lowered(toks[0]) !in [ORIGIN_WORD, TTL_WORD, INCLUDE_WORD]
  {
    hide TypeOf, LooksLikeTtl, LooksLikeClass, Stoul;
    var toks := Line(c, word, content);
    TypeIsTaken(word, t);
    if c.owner.Some? {
      OwnerIsTaken(c.owner.value, toks[1..]);
      assert toks == [c.owner.value] + toks[1..];
    } else if c.first.Some? {
      TtlIsTaken(c.first.value);
      assert toks[0] == c.first.value;
    } else if c.class_.Some? {
      ClassIsTaken(c.class_.value);
      assert toks[0] == c.class_.value;
    } else {
      assert toks[0] == word;
    }
  }

  // ---- Host names in the content ---------------------------------------------------------------

  /** Word k of the content is a host name: NS, CNAME, PTR 0; MX 1; SRV 3; SOA 0 and 1. */
  predicate HostColumn(t: U16, k: nat) {
    (t in {2, 5, 12} && k == 0) || (t == 15 && k == 1) || (t == 33 && k == 3) || (t == 6 && k < 2)
  }

  predicate WithHosts(t: U16) {
    t in {2, 5, 12, 15, 33, 6}
  }

  /** The absolute text of a name under the origin. */
  function UnderOrigin(h: Str, origin: Name): Str {
    ToText(ParsedName(h) + origin, true)
  }

  /** Neither "@" nor ended by a dot. */
  predicate RelativeWord(h: Str) {
    h != [64] && (h == [] || h[|h| - 1] != 46)
  }

  /** Word k of a content of this type as the parser takes it; "@" is the origin in the first word alone. */
  function WordTaken(t: U16, words: seq<Str>, k: nat, origin: Name): Str
    requires k < |words|
  {
    if HostColumn(t, k) && RelativeWord(words[k]) then UnderOrigin(words[k], origin)
    else if k == 0 && words[k] == [64] then ToText(origin, true)
    else words[k]
  }

  function WordsTaken(t: U16, words: seq<Str>, origin: Name): (r: seq<Str>)
    ensures |r| == |words|
    ensures forall k :: 0 <= k < |words| ==> r[k] == WordTaken(t, words, k, origin)
  {
    seq(|words|, k requires 0 <= k < |words| => WordTaken(t, words, k, origin))
  }

  lemma CompletedAbsolutely(h: Str, origin: Name)
    ensures (if !IsAbsolute(h) && h != AT then ToText(Completed(h, origin), true) else h)
            == if RelativeWord(h) then UnderOrigin(h, origin) else h
    ensures RelativeWord(h) ==> UnderOrigin(h, origin) != AT && IsAbsolute(UnderOrigin(h, origin))
  {
    hide ParsedName, Joined;
    var u := UnderOrigin(h, origin);
    assert u[|u| - 1] == DOT;
  }

  lemma WordsAreTaken(t: U16, content: Str, origin: Name)
    requires Words(content) != []
    ensures HostsCompleted(t, content, origin)
            == if WithHosts(t) then Spaced(WordsTaken(t, Words(content), origin)) else content
  {
    hide Words, Spaced, ToText, Completed, UnderOrigin, RelativeWord, IsAbsolute, Absolute;
    if WithHosts(t) {
      var parts := Words(content);
      var first := Absolute(parts, HostIndex(t), origin);
      var second := if t == TYPE_SOA then Absolute(first, 1, origin) else first;
      var third := if second[0] == AT then second[0 := ToText(origin, true)] else second;
      forall k | 0 <= k < |parts| ensures third[k] == WordTaken(t, parts, k, origin) {
        OneWordTaken(t, parts, k, origin);
      }
      assert third == WordsTaken(t, parts, origin);
    }
  }

  lemma OneWordTaken(t: U16, parts: seq<Str>, k: nat, origin: Name)
    requires WithHosts(t) && k < |parts|
    ensures var first := Absolute(parts, HostIndex(t), origin);
      var second := if t == TYPE_SOA then Absolute(first, 1, origin) else first;
      (if k == 0 && second[0] == AT then ToText(origin, true) else second[k]) == WordTaken(t, parts, k, origin)
  {
    hide ToText, Completed, UnderOrigin, RelativeWord, IsAbsolute;
    CompletedAbsolutely(parts[k], origin);
    AtIsNoRelative();
  }

  lemma AtIsNoRelative()
    ensures !RelativeWord(AT)
  {
  }

  /**
   A line with any columns, exactly: the record has the owner and the ttl that the columns
   give and, for NS, CNAME, PTR, MX, SRV and SOA, the content word by word with every
   relative host put under the origin.
   */
  lemma LineSays(ntop: Ntop, pton: Pton, p: Parser, c: Columns, word: Str, t: U16, content: seq<Str>)
    requires Proper(c) && TypeWord(word, t) && Words(Spaced(content)) != []
    ensures ParsedTokens(ntop, pton, p, Line(c, word, content))
            == Adding(ntop, pton, p, OwnerNamed(p, c.owner), t, GivenTtl(p, c),
                      if WithHosts(t) then Spaced(WordsTaken(t, Words(Spaced(content)), p.origin))
                      else Spaced(content))
  {
    hide ParsedTokens, Adding, HostsCompleted, Words, Spaced, Proper, GivenTtl, TypeWord, WordsTaken;
    LineRead(ntop, pton, p, c, word, t, content);
    WordsAreTaken(t, Spaced(content), p.origin);
  }

  predicate AllWords(content: seq<Str>) {
    forall i :: 0 <= i < |content| ==> IsWord(content[i])
  }

  lemma UnderIsWord(h: Str, origin: Name)
    requires IsWord(h) && Spaceless(origin)
    ensures IsWord(UnderOrigin(h, origin))
  {
    hide ParsedName, Joined;
    ParsedSpaceless(h);
    SpacelessText(ParsedName(h) + origin);
  }

  /** A line adds the same record with a relative host and with the absolute name of that host under the origin. */
  lemma RelativeHost(ntop: Ntop, pton: Pton, p: Parser, c: Columns, word: Str, t: U16, content: seq<Str>, k: nat)
    requires Proper(c) && TypeWord(word, t) && AllWords(content) && Spaceless(p.origin)
    requires k < |content| && HostColumn(t, k) && RelativeWord(content[k])
    ensures ParsedTokens(ntop, pton, p, Line(c, word, content))
            == ParsedTokens(ntop, pton, p, Line(c, word, content[k := ToText(ParsedName(content[k]) + p.origin, true)]))
  {
    hide ParsedTokens, Adding, HostsCompleted, Words, Joined, Proper, GivenTtl, TypeWord, IsWord, ToText,
         ParsedName, RelativeWord, IsAbsolute;
    var full := ToText(ParsedName(content[k]) + p.origin, true);
    var other := content[k := full];
    UnderIsWord(content[k], p.origin);
    CompletedAbsolutely(content[k], p.origin);
    AbsoluteIsKept(full);
    WordsOfJoined(content);
    WordsOfJoined(other);
    assert WordsTaken(t, content, p.origin) == WordsTaken(t, other, p.origin);
    LineSays(ntop, pton, p, c, word, t, content);
    LineSays(ntop, pton, p, c, word, t, other);
  }

  lemma AbsoluteIsKept(h: Str)
    ensures IsAbsolute(h) ==> !RelativeWord(h)
  {
  }

  /** "@" as the first word of a content with hosts is the origin. */
  lemma AtIsOrigin(ntop: Ntop, pton: Pton, p: Parser, c: Columns, word: Str, t: U16, content: seq<Str>)
    requires Proper(c) && TypeWord(word, t) && AllWords(content) && Spaceless(p.origin)
    requires content != [] && WithHosts(t) && content[0] == [64]
    ensures ParsedTokens(ntop, pton, p, Line(c, word, content))
            == ParsedTokens(ntop, pton, p, Line(c, word, content[0 := ToText(p.origin, true)]))
  {
    hide ParsedTokens, Adding, HostsCompleted, Words, Joined, Proper, GivenTtl, TypeWord, IsWord, ToText,
         ParsedName, RelativeWord, IsAbsolute;
    var full := ToText(p.origin, true);
    var other := content[0 := full];
    OriginIsWord(p.origin);
    OriginIsAbsolute(p.origin);
    AbsoluteIsKept(full);
    AtIsNoRelative();
    WordsOfJoined(content);
    WordsOfJoined(other);
    assert WordsTaken(t, content, p.origin) == WordsTaken(t, other, p.origin);
    LineSays(ntop, pton, p, c, word, t, content);
    LineSays(ntop, pton, p, c, word, t, other);
  }

  lemma OriginIsAbsolute(origin: Name)
    ensures IsAbsolute(ToText(origin, true))
  {
    hide Joined;
    var o := ToText(origin, true);
    assert o[|o| - 1] == DOT;
  }

  // ---- The rdata of a host ---------------------------------------------------------------------

  lemma BothFileNames(n: Name, origin: Name)
    requires FileName(n) && FileName(origin)
    ensures FileName(n + origin)
  {
    var all := n + origin;
    forall i | 0 <= i < |all|
      ensures PlainLabel(all[i]) && forall k :: 0 <= k < |all[i]| ==> WordByte(all[i][k])
    {
      if i < |n| {
        assert all[i] == n[i];
      } else {
        assert all[i] == origin[i - |n|];
      }
    }
  }

  lemma AtParsed()
    ensures ParsedName([64]) == [[64]]
  {
    hide ParsedName;
    SpacelessParsed([[64]]);
    assert Joined([[64]], [DOT]) == [64];
  }

  /** A name of bytes that mean themselves, other than the label "@", is read as a relative host. */
  lemma RelativeHostText(n: Name)
    requires FileName(n) && n != ROOT && n != [[64]]
    ensures var h := ToText(n, false); IsWord(h) && RelativeWord(h) && ParsedName(h) == n
  {
    hide FileName, ParsedName, ToText, PlainWord, IsWord;
    RelativeText(n);
    PlainIsWord(ToText(n, false));
    AtParsed();
  }

  /** The record of a line of these columns. */
  function LineRecord(p: Parser, c: Columns, t: U16, rdata: Bytes, content: Str, prio: U16): ResourceRecord
    requires Proper(c)
  {
    ResourceRecord(OwnerNamed(p, c.owner), t, 1, GivenTtl(p, c), rdata, content, prio, false, true)
  }

  /** NS, CNAME and PTR lines with a relative host add the uncompressed form of the host under the origin. */
  lemma NameLine(ntop: Ntop, pton: Pton, p: Parser, c: Columns, word: Str, t: U16, n: Name)
    requires Proper(c) && TypeWord(word, t) && t in {2, 5, 12}
    requires FileName(n) && n != ROOT && n != [[64]] && FileName(p.origin)
    ensures var full := n + p.origin; var r := ParsedTokens(ntop, pton, p, Line(c, word, [ToText(n, false)]));
      && r.Went? && r.parser.origin == p.origin && r.parser.ttl == p.ttl
      && r.parser.lastOwner == OwnerNamed(p, c.owner)
      && r.parser.records
         == p.records + [LineRecord(p, c, t, UncompressedName(full).0, ToText(full, true), 0)]
  {
    hide ParsedTokens, HostsCompleted, Words, Joined, Proper, GivenTtl, TypeWord, IsWord, ToText, FileName, TextName,
         ParsedName, RelativeWord, UncompressedName, ContentToRdata;
    var full := n + p.origin;
    var content := [ToText(n, false)];
    RelativeHostText(n);
    WordsOfJoined(content);
    LineSays(ntop, pton, p, c, word, t, content);
    assert WordsTaken(t, content, p.origin) == [ToText(full, true)];
    BothFileNames(n, p.origin);
    FileNameIsTextName(full);
    OneJoined(ToText(full, true));
    NameParsed(ntop, pton, LineRecord(p, c, t, [], ToText(full, true), 0), full);
  }

  lemma OneJoined(w: Str)
    ensures Spaced([w]) == w
  {
  }

  /** MX lines with a relative exchange add the priority and the exchange under the origin. */
  lemma MxLine(ntop: Ntop, pton: Pton, p: Parser, c: Columns, word: Str, prio: U16, n: Name)
    requires Proper(c) && TypeWord(word, 15)
    requires FileName(n) && n != ROOT && n != [[64]] && FileName(p.origin)
    ensures var full := n + p.origin;
      var r := ParsedTokens(ntop, pton, p, Line(c, word, [Decimal(prio), ToText(n, false)]));
      && r.Went? && r.parser.origin == p.origin && r.parser.ttl == p.ttl
      && r.parser.lastOwner == OwnerNamed(p, c.owner)
      && r.parser.records
         == p.records + [LineRecord(p, c, 15, [prio / 256, prio % 256] + UncompressedName(full).0,
                                    Spaced([Decimal(prio), ToText(full, true)]), prio)]
  {
    hide ParsedTokens, HostsCompleted, Words, Joined, Proper, GivenTtl, TypeWord, IsWord, ToText, FileName, TextName,
         ParsedName, RelativeWord, UncompressedName, ContentToRdata, Decimal, Stoi, Stoul, Recognised;
    var full := n + p.origin;
    var content := [Decimal(prio), ToText(n, false)];
    RelativeHostText(n);
    NumberIsKept(prio);
    WordsOfJoined(content);
    LineSays(ntop, pton, p, c, word, 15, content);
    assert WordsTaken(15, content, p.origin) == [Decimal(prio), ToText(full, true)];
    BothFileNames(n, p.origin);
    FileNameIsTextName(full);
    var rr := LineRecord(p, c, 15, [], Spaced([Decimal(prio), ToText(full, true)]), 0);
    MxParsed(rr, prio, full);
    MxIsConverted(ntop, pton, rr);
    assert Put16(prio) == [prio / 256, prio % 256];
  }

  lemma NumberIsKept(n: nat)
    ensures IsWord(Decimal(n)) && Decimal(n) != [64]
  {
    assert IsDigit(Decimal(n)[0]);
  }

  lemma MxIsConverted(ntop: Ntop, pton: Pton, rr: ResourceRecord)
    requires rr.rtype == 15 && rr.rdata == []
    ensures ContentToRdata(ntop, pton, rr) == MxRdata(rr)
  {
    hide MxRdata, SrvRdata, CaaRdata, GenericRdata, RdataToContent, SoaRdata, TxtRdata, DomainRdata;
  }

  lemma AtIsEncoded()
    ensures DomainRdata([64]) == Some([1, 64, 0])
  {
    hide ParsedName;
    AtParsed();
    var n: Name := [[64]];
    assert n[1..] == [] && UncompressedName([]) == ([0], true);
    var w: Bytes := [1] + [64] + [0];
    assert w == [1, 64, 0] && UncompressedName(n) == (w, true);
  }

  /** MX rdata for the host of the one label "@". */
  function AtHost(prio: U16): Bytes {
    [prio / 256, prio % 256, 1, 64, 0]
  }

  /** "@" as a mail exchange is no origin: the record is for a host of the one label "@". */
  lemma AtExchangeIsLabel(ntop: Ntop, pton: Pton, p: Parser, c: Columns, word: Str, prio: U16)
    requires Proper(c) && TypeWord(word, 15)
    ensures var content := [Decimal(prio), AT];
      var r := ParsedTokens(ntop, pton, p, Line(c, word, content));
      && r.Went? && r.parser.origin == p.origin && r.parser.ttl == p.ttl
      && r.parser.lastOwner == OwnerNamed(p, c.owner)
      && r.parser.records == p.records + [LineRecord(p, c, 15, AtHost(prio), Spaced(content), prio)]
  {
    hide ParsedTokens, HostsCompleted, Words, Joined, Proper, GivenTtl, TypeWord, IsWord, ToText,
         ParsedName, DomainRdata, ContentToRdata, Decimal, Stoi, Stoul, Recognised;
    var content := [Decimal(prio), [64]];
    NumberIsKept(prio);
    AtIsWord();
    WordsOfJoined(content);
    LineSays(ntop, pton, p, c, word, 15, content);
    AtIsNoRelative();
    assert WordsTaken(15, content, p.origin) == content;
    var rr := LineRecord(p, c, 15, [], Spaced(content), 0);
    DecimalReadBack(prio);
    AtIsEncoded();
    MxIsConverted(ntop, pton, rr);
    assert Put16(prio) + [1, 64, 0] == AtHost(prio);
    assert MxRdata(rr) == Returns(Converted(rr.(prio := prio, rdata := AtHost(prio)), true));
  }

  lemma AtIsWord()
    ensures IsWord([64])
  {
  }

  // ---- Directives --------------------------------------------------------------------------------

  /** "$ORIGIN" names the origin of the lines behind it, under the one before it unless it is absolute. */
  lemma OriginGiven(ntop: Ntop, pton: Pton, p: Parser, word: Str, name: Str, more: seq<Str>)
    requires Lowered(word) == [36, 111, 114, 105, 103, 105, 110]
    ensures ParsedTokens(ntop, pton, p, [word, name] + more)
            == Went(p.(origin := OwnerNamed(p, Some(name))))
  {
    hide ParsedName;
  }

  /** "$TTL" gives the ttl of the lines behind it that have none. */
  lemma TtlGiven(ntop: Ntop, pton: Pton, p: Parser, word: Str, value: Str, more: seq<Str>)
    requires Lowered(word) == [36, 116, 116, 108] && TtlWord(value)
    ensures ParsedTokens(ntop, pton, p, [word, value] + more) == Went(p.(ttl := TtlSaid(value)))
  {
    hide Stoul, RecordLine;
    var toks := [word, value] + more;
    assert |TTL_WORD| != |ORIGIN_WORD| && Lowered(toks[0]) == TTL_WORD && toks[1] == value;
  }
}
