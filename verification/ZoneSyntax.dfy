/**
 Comments and parentheses in a master file (section 5.1 of RFC 1035): what they do to the
 records that the file stands for.
 */
module ZoneSyntax {
  import opened Text
  import opened DnsNames
  import opened NameCodec
  import opened Rdata
  import opened ZoneText
  import opened ZoneTextRoundTrip

  // ---- Comments ------------------------------------------------------------------------------

  /** The text of a comment: no newline, quote or parenthesis, which count even there. */
  predicate CommentText(s: Str) {
    forall i :: 0 <= i < |s| ==> s[i] !in {10, 34, 40, 41}
  }

  lemma {:induction false} CutAtSemicolon(line: Str, rest: Str, q: bool)
    requires LineBytes(line, q) && !QuotedAfter(line, q)
    ensures Uncommented(line + [59] + rest, q) == line
  {
    var all := line + [59] + rest;
    if line == [] {
      assert all[0] == 59;
    } else {
      assert all[0] == line[0] && all[1..] == line[1..] + [59] + rest;
      CutAtSemicolon(line[1..], rest, Toggled(q, line[0]));
      assert [line[0]] + line[1..] == line;
    }
  }

  lemma {:induction false} CommentIsFlat(s: Str, rest: Str)
    requires CommentText(s)
    ensures Flattened(s + rest, 0, false) == s + Flattened(rest, 0, false)
  {
    if s == [] {
      assert s + rest == rest;
    } else {
      assert (s + rest)[0] == s[0] && (s + rest)[1..] == s[1..] + rest;
      CommentIsFlat(s[1..], rest);
      assert [s[0]] + (s[1..] + Flattened(rest, 0, false)) == s + Flattened(rest, 0, false);
    }
  }

  lemma CommentedLine(line: Str, comment: Str, rest: Str)
    requires Clean(line) && CommentText(comment)
    ensures var cut := line + [59] + comment;
      && Flattened(cut + [10] + rest, 0, false) == cut + [10] + Flattened(rest, 0, false)
      && (forall tail :: Lines(cut + [10] + tail) == [cut] + Lines(tail))
      && LineTokens(cut) == LineTokens(line)
  {
    hide Flattened, Tokens, Lines, LineBytes, QuotedAfter, Uncommented, Trimmed;
    var cut := line + [59] + comment;
    CutAtSemicolon(line, comment, false);
    UncommentedLine(line, false);
    FlatComment(line, comment, rest);
    LineHasNoNewline(line, false);
    assert NoByte(cut, NEWLINE);
    forall tail ensures Lines(cut + [10] + tail) == [cut] + Lines(tail) {
      OneLine(cut, tail);
    }
  }

  lemma OneLine(line: Str, tail: Str)
    requires NoByte(line, NEWLINE)
    ensures Lines(line + [10] + tail) == [line] + Lines(tail)
  {
    hide LineLength;
    var text := line + [10] + tail;
    LineLengthOf(line, tail);
    assert text[..|line|] == line && text[|line| + 1..] == tail;
  }

  lemma NewlineIsFlat(rest: Str)
    ensures Flattened([10] + rest, 0, false) == [10] + Flattened(rest, 0, false)
  {
    assert ([10] + rest)[0] == 10 && ([10] + rest)[1..] == rest;
  }

  lemma SemicolonIsFlat(rest: Str)
    ensures Flattened([59] + rest, 0, false) == [59] + Flattened(rest, 0, false)
  {
    assert ([59] + rest)[0] == 59 && ([59] + rest)[1..] == rest;
  }

  lemma FlatComment(line: Str, comment: Str, rest: Str)
    requires Clean(line) && CommentText(comment)
    ensures var cut := line + [59] + comment;
      Flattened(cut + [10] + rest, 0, false) == cut + [10] + Flattened(rest, 0, false)
  {
    hide Flattened, LineBytes, QuotedAfter;
    var cut := line + [59] + comment;
    var end := [10] + rest;
    assert cut + [10] + rest == line + ([59] + (comment + end));
    FlattenedLine(line, [59] + (comment + end), false);
    SemicolonIsFlat(comment + end);
    CommentIsFlat(comment, end);
    NewlineIsFlat(rest);
    var f := Flattened(rest, 0, false);
    assert line + ([59] + (comment + ([10] + f))) == cut + [10] + f;
  }

  /** A comment behind a clean line means nothing: the file stands for the same records without it. */
  lemma CommentIsIgnored(ntop: Ntop, pton: Pton, line: Str, comment: Str, rest: Str, origin: Name, ttl: U32)
    requires Clean(line) && CommentText(comment)
    ensures ParsedZone(ntop, pton, line + [59] + comment + [10] + rest, origin, ttl)
            == ParsedZone(ntop, pton, line + [10] + rest, origin, ttl)
  {
    hide Flattened, Lines, Clean, CommentText, LineTokens, ParsedTokens;
    var cut := line + [59] + comment;
    CommentedLine(line, comment, rest);
    FirstLine(line, rest);
    var flat := Flattened(rest, 0, false);
    FirstLine(line, flat);
    assert ([cut] + Lines(flat))[1..] == Lines(flat) && ([line] + Lines(flat))[1..] == Lines(flat);
  }

  // ---- Parentheses -----------------------------------------------------------------------------

  /** No parenthesis outside quotes; q is the quote state before s. */
  predicate NoParens(s: Str, q: bool) {
    s == [] || ((q || (s[0] != 40 && s[0] != 41)) && NoParens(s[1..], Toggled(q, s[0])))
  }

  /** Every newline as a blank. */
  function Blanked(s: Str): (r: Str)
    ensures |r| == |s| && forall i :: 0 <= i < |s| ==> r[i] == if s[i] == 10 then 32 else s[i]
  {
    seq(|s|, i requires 0 <= i < |s| => if s[i] == 10 then 32 else s[i])
  }

  lemma FlatOne(c: Byte, rest: Str, depth: nat, q: bool)
    requires q || (c != 40 && c != 41)
    ensures Flattened([c] + rest, depth, q)
            == [if depth > 0 && c == 10 then 32 else c] + Flattened(rest, depth, Toggled(q, c))
  {
    assert ([c] + rest)[0] == c && ([c] + rest)[1..] == rest;
  }

  /** What becomes of text without parentheses: between parentheses its newlines are blanks. */
  function Between(s: Str, depth: nat): Str {
    if depth > 0 then Blanked(s) else s
  }

  lemma BetweenStep(s: Str, depth: nat, tail: Str)
    requires s != []
    ensures [if depth > 0 && s[0] == 10 then 32 else s[0]] + (Between(s[1..], depth) + tail) == Between(s, depth) + tail
  {
    if depth > 0 {
      assert Blanked(s) == [if s[0] == 10 then 32 else s[0]] + Blanked(s[1..]);
    } else {
      assert s == [s[0]] + s[1..];
    }
  }

  lemma {:induction false} FlatPart(s: Str, rest: Str, depth: nat, q: bool)
    requires NoParens(s, q)
    ensures Flattened(s + rest, depth, q) == Between(s, depth) + Flattened(rest, depth, QuotedAfter(s, q))
  {
    hide Flattened, Between, Blanked;
    if s == [] {
      assert s + rest == rest;
      NothingBetween(depth, Flattened(rest, depth, q));
    } else {
      assert s + rest == [s[0]] + (s[1..] + rest);
      FlatOne(s[0], s[1..] + rest, depth, q);
      FlatPart(s[1..], rest, depth, Toggled(q, s[0]));
      BetweenStep(s, depth, Flattened(rest, depth, QuotedAfter(s, q)));
    }
  }

  lemma NothingBetween(depth: nat, tail: Str)
    ensures Between([], depth) + tail == tail
  {
    assert Blanked([]) == [];
  }

  lemma {:induction false} BlankedParens(s: Str, q: bool)
    ensures NoParens(Blanked(s), q) == NoParens(s, q) && QuotedAfter(Blanked(s), q) == QuotedAfter(s, q)
  {
    if s != [] {
      assert Blanked(s)[1..] == Blanked(s[1..]);
      BlankedParens(s[1..], Toggled(q, s[0]));
    }
  }

  /** Parentheses outside quotes, and balanced quotes between and before them. */
  predicate OneGroup(before: Str, inside: Str) {
    && NoParens(before, false) && !QuotedAfter(before, false)
    && NoParens(inside, false) && !QuotedAfter(inside, false)
  }

  lemma ParensAreBlanks(rest: Str)
    ensures Flattened([40] + rest, 0, false) == [32] + Flattened(rest, 1, false)
    ensures Flattened([41] + rest, 1, false) == [32] + Flattened(rest, 0, false)
  {
    assert ([40] + rest)[0] == 40 && ([40] + rest)[1..] == rest;
    assert ([41] + rest)[0] == 41 && ([41] + rest)[1..] == rest;
  }

  lemma GroupIsFlat(before: Str, inside: Str, rest: Str)
    requires OneGroup(before, inside)
    ensures Flattened(before + [40] + inside + [41] + rest, 0, false)
            == before + ([32] + (Blanked(inside) + ([32] + Flattened(rest, 0, false))))
  {
    hide Flattened, NoParens, QuotedAfter, Blanked;
    var last := [41] + rest;
    var mid := inside + last;
    assert before + [40] + inside + [41] + rest == before + ([40] + mid);
    FlatPart(before, [40] + mid, 0, false);
    ParensAreBlanks(mid);
    FlatPart(inside, last, 1, false);
    ParensAreBlanks(rest);
  }

  lemma BlanksAreFlat(before: Str, inside: Str, rest: Str)
    requires OneGroup(before, inside)
    ensures Flattened(before + [32] + Blanked(inside) + [32] + rest, 0, false)
            == before + ([32] + (Blanked(inside) + ([32] + Flattened(rest, 0, false))))
  {
    hide Flattened, NoParens, QuotedAfter, Blanked;
    var last := [32] + rest;
    var mid := Blanked(inside) + last;
    assert before + [32] + Blanked(inside) + [32] + rest == before + ([32] + mid);
    FlatPart(before, [32] + mid, 0, false);
    FlatOne(32, mid, 0, false);
    BlankedParens(inside, false);
    FlatPart(Blanked(inside), last, 0, false);
    FlatOne(32, rest, 0, false);
  }

  /**
   A group in parentheses is one line: the file stands for the same records with blanks in
   place of the parentheses and of the newlines between them.
   */
  lemma GroupIsOneLine(ntop: Ntop, pton: Pton, before: Str, inside: Str, rest: Str, origin: Name, ttl: U32)
    requires OneGroup(before, inside)
    ensures ParsedZone(ntop, pton, before + [40] + inside + [41] + rest, origin, ttl)
            == ParsedZone(ntop, pton, before + [32] + Blanked(inside) + [32] + rest, origin, ttl)
  {
    hide Flattened, NoParens, QuotedAfter, Blanked, ParsedLines;
    GroupIsFlat(before, inside, rest);
    BlanksAreFlat(before, inside, rest);
  }
}
