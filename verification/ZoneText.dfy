/**
 Master-file text: parseZoneText and writeZoneText of src/simple-dnsd/zone/zone.cpp
 (section 5.1 of RFC 1035), without $INCLUDE.
 */
module ZoneText {
  import opened Text
  import opened DnsNames
  import opened NameCodec
  import opened Records
  import opened Numbers
  import opened Rdata
  import opened RrTypes
  import opened Serials
  import opened Store

  const SEMICOLON: Byte := 59
  const OPEN: Byte := 40
  const CLOSE: Byte := 41
  const AT: Str := [64]

  // ---- Scanners -----------------------------------------------------------------------------

  /** The quote state after a byte. */
  predicate Toggled(q: bool, c: Byte) {
    if c == QUOTE then !q else q
  }

  /** The quote state after a text. */
  predicate QuotedAfter(s: Str, q: bool) {
    if s == [] then q else QuotedAfter(s[1..], Toggled(q, s[0]))
  }

  /** stripComments: everything up to the first semicolon outside quotes. */
  function Uncommented(s: Str, q: bool): Str {
    if s == [] then []
    else
      var q := Toggled(q, s[0]);
      if s[0] == SEMICOLON && !q then [] else [s[0]] + Uncommented(s[1..], q)
  }

  /** tokenize with a token under construction: white space separates, but not inside quotes. */
  function TokensFrom(s: Str, cur: Str, q: bool): seq<Str>
    decreases |s|
  {
    if s == [] then (if cur == [] then [] else [cur])
    else if s[0] != QUOTE && !q && IsSpace(s[0]) then
      (if cur == [] then [] else [cur]) + TokensFrom(s[1..], [], q)
    else TokensFrom(s[1..], cur + [s[0]], Toggled(q, s[0]))
  }

  function Tokens(s: Str): seq<Str> {
    TokensFrom(s, [], false)
  }

  /** What flattenParens makes of a byte: q is the quote state after it. */
  function FlatByte(c: Byte, depth: nat, q: bool): Byte {
    if (!q && (c == OPEN || c == CLOSE)) || (c == NEWLINE && depth > 0) then SPACE else c
  }

  function FlatDepth(c: Byte, depth: nat, q: bool): nat {
    if !q && c == OPEN then depth + 1
    else if !q && c == CLOSE && depth > 0 then depth - 1
    else depth
  }

  /** flattenParens: parentheses outside quotes become spaces, and so do newlines between them. */
  function Flattened(s: Str, depth: nat, q: bool): Str {
    if s == [] then []
    else
      var q := Toggled(q, s[0]);
      [FlatByte(s[0], depth, q)] + Flattened(s[1..], FlatDepth(s[0], depth, q), q)
  }

  function LineLength(s: Str): (n: nat)
    ensures n <= |s| && NoByte(s[..n], NEWLINE) && (n < |s| ==> s[n] == NEWLINE)
  {
    if s == [] || s[0] == NEWLINE then 0 else 1 + LineLength(s[1..])
  }

  /** The lines that std::getline yields. */
  function Lines(s: Str): seq<Str>
    decreases |s|
  {
    if s == [] then []
    else
      var n := LineLength(s);
      [s[..n]] + (if n < |s| then Lines(s[n + 1..]) else [])
  }

  // ---- Small predicates -----------------------------------------------------------------------

  predicate IsAbsolute(s: Str) {
    s != [] && s[|s| - 1] == DOT
  }

  /** qualifyName. */
  function Completed(token: Str, origin: Name): Name {
    if token == AT then origin
    else if IsAbsolute(token) then ParsedName(token)
    else Qualified(ParsedName(token), origin)
  }

  predicate LooksLikeTtl(s: Str) {
    s != [] && forall i :: 0 <= i < |s| ==> IsDigit(s[i])
  }

  const CLASS_NAMES: seq<Str> := [[105, 110], [99, 104], [104, 115], [97, 110, 121]]

  /** "in", "ch", "hs" and "any", in any case. */
  predicate LooksLikeClass(s: Str) {
    Lowered(s) in CLASS_NAMES
  }

  const ORIGIN_WORD: Str := [36, 111, 114, 105, 103, 105, 110]
  const TTL_WORD: Str := [36, 116, 116, 108]
  const INCLUDE_WORD: Str := [36, 105, 110, 99, 108, 117, 100, 101]

  // ---- One line ---------------------------------------------------------------------------------

  datatype Failure = NoOriginName | NoTtlValue | NoIncludeFile | IncludesFile | NoType | UnknownType | BadRdata

  /** The parser between lines. */
  datatype Parser = Parser(origin: Name, lastOwner: Name, ttl: U32, records: Rrs)

  /** A step of the parser: it went on, stopped with an error, or an exception left it. */
  datatype Progress = Went(parser: Parser) | Stopped(failure: Failure) | Threw

  datatype Field = Field(next: nat, ttl: U32)

  /** A ttl at token i, if there is one. */
  function TtlField(toks: seq<Str>, i: nat, ttl: U32): Outcome<Field> {
    if i < |toks| && LooksLikeTtl(toks[i]) then
      match Stoul(toks[i]) {
        case Throws => Throws
        case Returns(v) => Returns(Field(i + 1, v % 0x1_0000_0000))
      }
    else Returns(Field(i, ttl))
  }

  /** ttl, class and ttl again, each optional. */
  function TtlAndClass(toks: seq<Str>, i: nat, ttl: U32): Outcome<Field> {
    match TtlField(toks, i, ttl)
    case Throws => Throws
    case Returns(f) =>
      var j := if f.next < |toks| && LooksLikeClass(toks[f.next]) then f.next + 1 else f.next;
      TtlField(toks, j, f.ttl)
  }

  /** The first token is an owner name unless it could be a ttl, a class or a type. */
  predicate StartsWithOwner(toks: seq<Str>)
    requires toks != []
  {
    toks[0] == AT || (!LooksLikeTtl(toks[0]) && !LooksLikeClass(toks[0]) && TypeOf(toks[0]).None?)
  }

  predicate HasHost(t: U16) {
    t in {TYPE_NS, TYPE_CNAME, TYPE_PTR, TYPE_MX, TYPE_SOA, TYPE_SRV}
  }

  function HostIndex(t: U16): nat {
    if t == TYPE_MX then 1 else if t == TYPE_SRV then 3 else 0
  }

  /** Word k made absolute, unless it is absolute or "@". */
  function Absolute(parts: seq<Str>, k: nat, origin: Name): (r: seq<Str>)
    ensures |r| == |parts|
  {
    if k < |parts| && !IsAbsolute(parts[k]) && parts[k] != AT
    then parts[k := ToText(Completed(parts[k], origin), true)]
    else parts
  }

  /** The host names of a content completed with the origin. */
  function HostsCompleted(t: U16, content: Str, origin: Name): Str {
    var parts := Words(content);
    if !HasHost(t) || parts == [] then content
    else
      var parts := Absolute(parts, HostIndex(t), origin);
      var parts := if t == TYPE_SOA then Absolute(parts, 1, origin) else parts;
      Spaced(if parts[0] == AT then parts[0 := ToText(origin, true)] else parts)
  }

  function TextRecord(name: Name, t: U16, ttl: U32, content: Str): ResourceRecord {
    ResourceRecord(name, t, CLASS_IN, ttl, [], content, 0, false, true)
  }

  /** The record of a line from its type token on. */
  function RecordFrom(ntop: Ntop, pton: Pton, p: Parser, owner: Name, toks: seq<Str>, f: Field): Progress {
    if f.next >= |toks| then Stopped(NoType)
    else
      match TypeOf(toks[f.next])
      case None => Stopped(UnknownType)
      case Some(t) =>
        var content := HostsCompleted(t, Spaced(toks[f.next + 1..]), p.origin);
        match ContentToRdata(ntop, pton, TextRecord(owner, t, f.ttl, content))
        case Throws => Threw
        case Returns(c) =>
          if !c.ok then Stopped(BadRdata)
          else Went(p.(lastOwner := owner, records := p.records + [c.rr]))
  }

  function RecordLine(ntop: Ntop, pton: Pton, p: Parser, toks: seq<Str>): Progress
    requires toks != []
  {
    var named := StartsWithOwner(toks);
    var owner := if named then Completed(toks[0], p.origin) else p.lastOwner;
    match TtlAndClass(toks, if named then 1 else 0, p.ttl)
    case Throws => Threw
    case Returns(f) => RecordFrom(ntop, pton, p, owner, toks, f)
  }

  /** The tokens of a line as the parser sees them. */
  function LineTokens(raw: Str): seq<Str> {
    Tokens(Trimmed(Uncommented(raw, false)))
  }

  function ParsedTokens(ntop: Ntop, pton: Pton, p: Parser, toks: seq<Str>): Progress {
    if toks == [] then Went(p)
    else
      var head := Lowered(toks[0]);
      if head == ORIGIN_WORD then
        if |toks| < 2 then Stopped(NoOriginName) else Went(p.(origin := Completed(toks[1], p.origin)))
      else if head == TTL_WORD then
        if |toks| < 2 then Stopped(NoTtlValue)
        else
          match Stoul(toks[1]) {
            case Throws => Threw
            case Returns(v) => Went(p.(ttl := v % 0x1_0000_0000))
          }
      else if head == INCLUDE_WORD then Stopped(if |toks| < 2 then NoIncludeFile else IncludesFile)
      else RecordLine(ntop, pton, p, toks)
  }

  function ParsedLines(ntop: Ntop, pton: Pton, p: Parser, lines: seq<Str>): Progress
    decreases |lines|
  {
    if lines == [] then Went(p)
    else
      match ParsedTokens(ntop, pton, p, LineTokens(lines[0]))
      case Went(next) => ParsedLines(ntop, pton, next, lines[1..])
      case Stopped(e) => Stopped(e)
      case Threw => Threw
  }

  /** parseZoneText; the line number of an error is not modelled. */
  function ParsedZone(ntop: Ntop, pton: Pton, text: Str, origin: Name, defaultTtl: U32): Progress {
    ParsedLines(ntop, pton, Parser(origin, origin, defaultTtl, []), Lines(Flattened(text, 0, false)))
  }

  // ---- Writing --------------------------------------------------------------------------------------

  const IN_WORD: Str := [73, 78]

  /** The owner column: the name relative to the origin, or "@". */
  function OwnerText(origin: Name, name: Name): Str {
    var rel := Relative(name, origin);
    if rel == ROOT then AT else ToText(rel, false)
  }

  function RecordText(ntop: Ntop, origin: Name, rr: ResourceRecord): Str {
    OwnerText(origin, rr.name) + [TAB] + (Decimal(rr.ttl) + [TAB] + (IN_WORD + [TAB] + (TypeText(rr.rtype) + [TAB]
    + Shown(ntop, rr).content)))
  }

  function RecordLines(ntop: Ntop, origin: Name, rrs: Rrs): Str {
    if rrs == [] then [] else RecordText(ntop, origin, rrs[0]) + [NEWLINE] + RecordLines(ntop, origin, rrs[1..])
  }

  const ORIGIN_TEXT: Str := [36, 79, 82, 73, 71, 73, 78]
  const TTL_TEXT: Str := [36, 84, 84, 76]
  const TTL_VALUE: Str := [51, 54, 48, 48]

  /** writeZoneText. */
  function WrittenZone(ntop: Ntop, origin: Name, rrs: Rrs): Str {
    (ORIGIN_TEXT + [SPACE] + ToText(origin, true)) + [NEWLINE]
    + ((TTL_TEXT + [SPACE] + TTL_VALUE) + [NEWLINE] + RecordLines(ntop, origin, rrs))
  }

  // ---- The loops --------------------------------------------------------------------------------------

  method StripComments(line: Str) returns (out: Str)
    ensures out == Uncommented(line, false)
  {
    out := [];
    var inQuote := false;
    for i := 0 to |line|
      invariant Uncommented(line, false) == out + Uncommented(line[i..], inQuote)
    {
      assert line[i..][0] == line[i] && line[i..][1..] == line[i + 1..];
      if line[i] == QUOTE {
        inQuote := !inQuote;
      }
      if line[i] == SEMICOLON && !inQuote {
        break;
      }
      out := out + [line[i]];
    }
  }

  method Tokenize(text: Str) returns (toks: seq<Str>)
    ensures toks == Tokens(text)
  {
    toks := [];
    var cur: Str := [];
    var inQuote := false;
    for i := 0 to |text|
      invariant Tokens(text) == toks + TokensFrom(text[i..], cur, inQuote)
    {
      assert text[i..][0] == text[i] && text[i..][1..] == text[i + 1..];
      if text[i] == QUOTE {
        cur := cur + [text[i]];
        inQuote := !inQuote;
      } else if !inQuote && IsSpace(text[i]) {
        if cur != [] {
          toks := toks + [cur];
          cur := [];
        }
      } else {
        cur := cur + [text[i]];
      }
    }
    if cur != [] {
      toks := toks + [cur];
    }
  }

  method FlattenParens(text: Str) returns (out: Str)
    ensures out == Flattened(text, 0, false)
  {
    hide Flattened;
    out := [];
    var depth: nat := 0;
    var inQuote := false;
    assert [] + Flattened(text[0..], 0, false) == Flattened(text, 0, false) by { assert text[0..] == text; }
    for i := 0 to |text|
      invariant Flattened(text, 0, false) == out + Flattened(text[i..], depth, inQuote)
    {
      FlatStep(out, text, i, depth, inQuote);
      var c := text[i];
      ghost var depthBefore := depth;
      ghost var outBefore := out;
      if c == QUOTE {
        inQuote := !inQuote;
      }
      if !inQuote && c == OPEN {
        depth := depth + 1;
        out := out + [SPACE];
      } else if !inQuote && c == CLOSE {
        if depth > 0 {
          depth := depth - 1;
        }
        out := out + [SPACE];
      } else if c == NEWLINE && depth > 0 {
        out := out + [SPACE];
      } else {
        out := out + [c];
      }
      assert out == outBefore + [FlatByte(c, depthBefore, inQuote)] && depth == FlatDepth(c, depthBefore, inQuote);
    }
    FlatEnd(out, text, depth, inQuote);
  }

  lemma FlatStep(out: Str, s: Str, i: nat, depth: nat, q: bool)
    requires i < |s|
    ensures var q' := Toggled(q, s[i]);
      out + Flattened(s[i..], depth, q)
      == out + [FlatByte(s[i], depth, q')] + Flattened(s[i + 1..], FlatDepth(s[i], depth, q'), q')
  {
    assert s[i..][0] == s[i] && s[i..][1..] == s[i + 1..];
  }

  lemma FlatEnd(out: Str, s: Str, depth: nat, q: bool)
    ensures out + Flattened(s[|s|..], depth, q) == out
  {
    assert s[|s|..] == [];
  }

  /** std::getline from position start. */
  method EndOfLine(s: Str, start: nat) returns (end: nat)
    requires start <= |s|
    ensures start <= end <= |s| && end - start == LineLength(s[start..])
  {
    end := start;
    while end < |s| && s[end] != NEWLINE
      invariant start <= end <= |s|
      invariant LineLength(s[start..]) == end - start + LineLength(s[end..])
    {
      assert s[end..][0] == s[end] && s[end..][1..] == s[end + 1..];
      end := end + 1;
    }
  }

  method ParseLine(ntop: Ntop, pton: Pton, p: Parser, raw: Str) returns (r: Progress)
    ensures r == ParsedTokens(ntop, pton, p, LineTokens(raw))
  {
    hide RecordLine, Stoul, Uncommented, Trimmed, TokensFrom, Completed;
    var stripped := StripComments(raw);
    var line := Trim(stripped);
    if line == [] {
      EmptyLine();
      return Went(p);
    }
    var toks := Tokenize(line);
    if toks == [] {
      return Went(p);
    }
    var head := ToLower(toks[0]);
    if head == ORIGIN_WORD {
      if |toks| < 2 {
        return Stopped(NoOriginName);
      }
      return Went(p.(origin := Completed(toks[1], p.origin)));
    }
    if head == TTL_WORD {
      if |toks| < 2 {
        return Stopped(NoTtlValue);
      }
      match Stoul(toks[1]) {
        case Throws => return Threw;
        case Returns(v) => return Went(p.(ttl := v % 0x1_0000_0000));
      }
    }
    if head == INCLUDE_WORD {
      return Stopped(if |toks| < 2 then NoIncludeFile else IncludesFile);
    }
    return RecordLine(ntop, pton, p, toks);
  }

  lemma EmptyLine()
    ensures Tokens([]) == []
  {
  }

  /** The main loop. */
  method ParseZoneText(ntop: Ntop, pton: Pton, text: Str, origin: Name, defaultTtl: U32) returns (r: Progress)
    ensures r == ParsedZone(ntop, pton, text, origin, defaultTtl)
  {
    hide ParsedTokens, LineTokens, Flattened, LineLength;
    var p := Parser(origin, origin, defaultTtl, []);
    var flat := FlattenParens(text);
    var pos := 0;
    assert flat[0..] == flat;
    while pos < |flat|
      invariant 0 <= pos <= |flat|
      invariant ParsedZone(ntop, pton, text, origin, defaultTtl) == ParsedLines(ntop, pton, p, Lines(flat[pos..]))
    {
      var end := EndOfLine(flat, pos);
      LinesStep(flat, pos, end);
      r := ParseLine(ntop, pton, p, flat[pos..end]);
      match r {
        case Went(next) => p := next;
        case _ => return;
      }
      pos := if end < |flat| then end + 1 else end;
    }
    return Went(p);
  }

  lemma {:induction false} LinesStep(s: Str, pos: nat, end: nat)
    requires pos < |s| && pos <= end <= |s| && end - pos == LineLength(s[pos..])
    ensures Lines(s[pos..]) == [s[pos..end]] + Lines(s[if end < |s| then end + 1 else end..])
    ensures Lines(s[pos..])[1..] == Lines(s[if end < |s| then end + 1 else end..])
  {
    hide Lines;
    FirstOfLines(s[pos..]);
    assert s[pos..][..end - pos] == s[pos..end];
    if end < |s| {
      assert s[pos..][end - pos + 1..] == s[end + 1..];
    } else {
      NoLines();
      assert s[end..] == [];
    }
  }

  lemma {:induction false} FirstOfLines(s: Str)
    requires s != []
    ensures var n := LineLength(s); Lines(s) == [s[..n]] + (if n < |s| then Lines(s[n + 1..]) else [])
  {
    hide LineLength;
  }

  lemma NoLines()
    ensures Lines([]) == []
  {
  }

  /** The output loop. */
  method WriteZoneText(ntop: Ntop, origin: Name, rrs: Rrs) returns (out: Str)
    ensures out == WrittenZone(ntop, origin, rrs)
  {
    hide RecordText;
    var head := ToString(origin, true);
    out := ORIGIN_TEXT + [SPACE] + head + [NEWLINE];
    out := out + ((TTL_TEXT + [SPACE] + TTL_VALUE) + [NEWLINE]);
    ghost var start := out;
    for i := 0 to |rrs|
      invariant start + RecordLines(ntop, origin, rrs) == out + RecordLines(ntop, origin, rrs[i..])
    {
      assert rrs[i..][0] == rrs[i] && rrs[i..][1..] == rrs[i + 1..];
      out := out + (RecordText(ntop, origin, rrs[i]) + [NEWLINE]);
    }
    assert out + [] == out;
    Regrouped(ORIGIN_TEXT + [SPACE] + head + [NEWLINE], (TTL_TEXT + [SPACE] + TTL_VALUE) + [NEWLINE],
              RecordLines(ntop, origin, rrs));
  }

  lemma Regrouped(a: Str, b: Str, c: Str)
    ensures a + b + c == a + (b + c)
  {
  }
}
