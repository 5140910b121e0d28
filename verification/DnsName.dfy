/**
 DnsName of src/simple-dnsd/protocol/dns.cpp: a list of labels, its presentation text and
 its case-insensitive comparisons.
 */
module DnsNames {
  import opened Text

  /** The labels of a name, leftmost first; the root name has none. */
  type Name = seq<Str>

  const ROOT: Name := []

  // ---- Case-insensitive equality ------------------------------------------

  function LowerName(n: Name): (r: Name)
    ensures |r| == |n|
    ensures forall i :: 0 <= i < |n| ==> r[i] == Lowered(n[i])
  {
    seq(|n|, i requires 0 <= i < |n| => Lowered(n[i]))
  }

  /** DnsName::equals. */
  predicate Same(a: Name, b: Name) {
    LowerName(a) == LowerName(b)
  }

  method Equals(a: Name, b: Name) returns (r: bool)
    ensures r == Same(a, b)
  {
    if |a| != |b| {
      assert |LowerName(a)| != |LowerName(b)|;
      return false;
    }
    for i := 0 to |a|
      invariant forall k :: 0 <= k < i ==> Lowered(a[k]) == Lowered(b[k])
    {
      var x := ToLower(a[i]);
      var y := ToLower(b[i]);
      if x != y {
        assert LowerName(a)[i] != LowerName(b)[i];
        return false;
      }
    }
    return true;
  }

  /** DnsName::isSubdomainOf: zone is a case-insensitive suffix of n. */
  predicate IsSubdomainOf(n: Name, zone: Name) {
    |n| >= |zone| && Same(n[|n| - |zone|..], zone)
  }

  method CheckSubdomain(n: Name, zone: Name) returns (r: bool)
    ensures r == IsSubdomainOf(n, zone)
  {
    if |n| < |zone| {
      return false;
    }
    var off := |n| - |zone|;
    for i := 0 to |zone|
      invariant forall k :: 0 <= k < i ==> Lowered(n[off + k]) == Lowered(zone[k])
    {
      var x := ToLower(n[off + i]);
      var y := ToLower(zone[i]);
      if x != y {
        assert LowerName(n[off..])[i] != LowerName(zone)[i];
        return false;
      }
    }
    assert LowerName(n[off..]) == LowerName(zone);
    return true;
  }

  function Parent(n: Name): Name {
    if |n| > 1 then n[1..] else ROOT
  }

  const STAR: Str := [42]

  function Wildcard(parent: Name): Name {
    [STAR] + parent
  }

  /** DnsName::qualify. */
  function Qualified(n: Name, origin: Name): Name {
    n + origin
  }

  /** DnsName::makeRelative. */
  function Relative(n: Name, origin: Name): Name {
    if IsSubdomainOf(n, origin) then n[..|n| - |origin|] else n
  }

  lemma RootContains(q: Name)
    ensures IsSubdomainOf(q, ROOT)
  {
    assert q[|q|..] == ROOT;
  }

  lemma LowerTwice(n: Name)
    ensures LowerName(LowerName(n)) == LowerName(n)
  {
    forall i | 0 <= i < |n| ensures LowerName(LowerName(n))[i] == LowerName(n)[i] {
      LoweredTwice(n[i]);
    }
  }

  lemma SameSuffixes(a: Name, b: Name, k: nat)
    requires Same(a, b) && k <= |a|
    ensures |a| == |b| && Same(a[k..], b[k..]) && Same(a[..k], b[..k])
  {
    assert |a| == |LowerName(a)| == |LowerName(b)| == |b|;
    assert LowerName(a[k..]) == LowerName(a)[k..] && LowerName(b[k..]) == LowerName(b)[k..];
    assert LowerName(a[..k]) == LowerName(a)[..k] && LowerName(b[..k]) == LowerName(b)[..k];
  }

  lemma LowerNameConcat(a: Name, b: Name)
    ensures LowerName(a + b) == LowerName(a) + LowerName(b)
  {
  }

  /** Relative to its zone and qualified again, a name is itself up to case. */
  lemma RelativeQualified(n: Name, origin: Name)
    requires IsSubdomainOf(n, origin)
    ensures Same(Qualified(Relative(n, origin), origin), n)
  {
    var k := |n| - |origin|;
    assert n == n[..k] + n[k..];
    LowerNameConcat(n[..k], n[k..]);
    LowerNameConcat(n[..k], origin);
  }

  // ---- Presentation text ----------------------------------------------------

  /** DnsName::toString. */
  function ToText(n: Name, trailingDot: bool): Str {
    if n == ROOT then [DOT]
    else Joined(n, [DOT]) + (if trailingDot then [DOT] else [])
  }

  lemma NothingJoined()
    ensures Joined([], [DOT]) == []
  {
  }

  method ToString(n: Name, trailingDot: bool) returns (s: Str)
    ensures s == ToText(n, trailingDot)
  {
    hide Joined;
    if |n| == 0 {
      return [DOT];
    }
    s := [];
    NothingJoined();
    for i := 0 to |n|
      invariant s == Joined(n[..i], [DOT])
    {
      JoinedSnoc(n[..i], n[i], [DOT]);
      assert n[..i + 1] == n[..i] + [n[i]];
      if i != 0 {
        s := s + [DOT];
      }
      s := s + n[i];
    }
    assert n[..|n|] == n;
    if trailingDot {
      s := s + [DOT];
    }
  }

  /**
   The scanner of DnsName::parse from the state (rest of the text, label under
   construction): a backslash that is not the last byte takes the next byte literally, a
   dot ends a label and empty labels vanish.
   */
  function Scan(s: Str, cur: Str): Name
    decreases |s|
  {
    if s == [] then (if cur == [] then [] else [cur])
    else if s[0] == BACKSLASH && |s| > 1 then Scan(s[2..], cur + [s[1]])
    else if s[0] == DOT then (if cur == [] then [] else [cur]) + Scan(s[1..], [])
    else Scan(s[1..], cur + [s[0]])
  }

  /** DnsName::parse. */
  function ParsedName(presentation: Str): Name {
    var s := Trimmed(presentation);
    if s == [] || s == [DOT] then ROOT
    else Scan(if s[|s| - 1] == DOT then s[..|s| - 1] else s, [])
  }

  method Parse(presentation: Str) returns (n: Name)
    ensures n == ParsedName(presentation)
  {
    hide Scan, Trimmed;
    var s := Trim(presentation);
    if s == [] || s == [DOT] {
      return ROOT;
    }
    if s[|s| - 1] == DOT {
      s := s[..|s| - 1];
    }
    n := ScanLabels(s);
  }

  /** The loop of DnsName::parse. */
  method ScanLabels(s: Str) returns (n: Name)
    ensures n == Scan(s, [])
  {
    n := ROOT;
    var cur: Str := [];
    var i := 0;
    while i < |s|
      invariant 0 <= i <= |s|
      invariant Scan(s, []) == n + Scan(s[i..], cur)
    {
      ScanStep(s, i, cur);
      if s[i] == BACKSLASH && i + 1 < |s| {
        i := i + 1;
        cur := cur + [s[i]];
      } else if s[i] == DOT {
        if cur != [] {
          n := n + [cur];
          cur := [];
        }
      } else {
        cur := cur + [s[i]];
      }
      i := i + 1;
    }
    if cur != [] {
      n := n + [cur];
    }
  }

  lemma ScanStep(s: Str, i: nat, cur: Str)
    requires i < |s|
    ensures Scan(s[i..], cur) ==
            if s[i] == BACKSLASH && i + 1 < |s| then Scan(s[i + 2..], cur + [s[i + 1]])
            else if s[i] == DOT then (if cur == [] then [] else [cur]) + Scan(s[i + 1..], [])
            else Scan(s[i + 1..], cur + [s[i]])
  {
    var rest := s[i..];
    assert rest[0] == s[i] && rest[1..] == s[i + 1..];
    if i + 1 < |s| {
      assert rest[1] == s[i + 1] && rest[2..] == s[i + 2..];
    }
  }

  // ---- Names that survive their own text ----------------------------------

  /** Every label that a DnsName can hold is non-empty. */
  predicate ProperName(n: Name) {
    forall i :: 0 <= i < |n| ==> n[i] != []
  }

  /** What decodeName makes of the labels it has collected. */
  function Reparsed(n: Name): Name {
    ParsedName(Joined(n, [DOT]) + [DOT])
  }

  predicate NoByte(s: Str, b: Byte) {
    forall i :: 0 <= i < |s| ==> s[i] != b
  }

  /** No backslash in s escapes a byte: only the last byte may be one. */
  predicate NoEscape(s: Str) {
    forall i :: 0 <= i < |s| - 1 ==> s[i] != BACKSLASH
  }

  /** The last byte of the last label may be a backslash; no other byte of the name may. */
  predicate Unescaped(n: Name) {
    forall i :: 0 <= i < |n| ==> if i == |n| - 1 then NoEscape(n[i]) else NoByte(n[i], BACKSLASH)
  }

  predicate NoDots(n: Name) {
    forall i :: 0 <= i < |n| ==> NoByte(n[i], DOT)
  }

  /** Exactly the names whose text, with a final dot, parses back to them. */
  predicate SurvivesText(n: Name) {
    NoDots(n) && Unescaped(n) && (n != [] ==> n[0] != [] && !IsSpace(n[0][0]))
  }

  /** The scanner returns proper names only. */
  lemma {:induction false} ScanIsProper(s: Str, cur: Str)
    ensures ProperName(Scan(s, cur))
    decreases |s|
  {
    if s == [] {
    } else if s[0] == BACKSLASH && |s| > 1 {
      ScanIsProper(s[2..], cur + [s[1]]);
    } else if s[0] == DOT {
      ScanIsProper(s[1..], []);
    } else {
      ScanIsProper(s[1..], cur + [s[0]]);
    }
  }

  lemma ParsedIsProper(s: Str)
    ensures ProperName(ParsedName(s))
  {
    var t := Trimmed(s);
    if t != [] {
      ScanIsProper(if t[|t| - 1] == DOT then t[..|t| - 1] else t, []);
    }
  }

  /** Scanning a label that has no dot and no escape only extends the current label. */
  lemma {:induction false} ScanLabel(lab: Str, rest: Str, cur: Str)
    requires NoByte(lab, DOT)
    requires NoByte(lab, BACKSLASH) ||
             (rest == [] && NoEscape(lab))
    ensures Scan(lab + rest, cur) == Scan(rest, cur + lab)
  {
    if lab == [] {
      assert lab + rest == rest && cur + lab == cur;
    } else {
      assert (lab + rest)[1..] == lab[1..] + rest;
      assert cur + [lab[0]] + lab[1..] == cur + lab;
      ScanLabel(lab[1..], rest, cur + [lab[0]]);
    }
  }

  lemma {:induction false} ScanJoined(n: Name)
    requires n != [] && ProperName(n) && NoDots(n) && Unescaped(n)
    ensures Scan(Joined(n, [DOT]), []) == n
  {
    if |n| == 1 {
      ScanLabel(n[0], [], []);
      assert n[0] + [] == n[0] && [] + n[0] == n[0];
    } else {
      var tail := Joined(n[1..], [DOT]);
      assert Joined(n, [DOT]) == n[0] + ([DOT] + tail);
      ScanLabel(n[0], [DOT] + tail, []);
      assert [] + n[0] == n[0];
      assert ([DOT] + tail)[1..] == tail;
      ScanJoined(n[1..]);
      assert [n[0]] + n[1..] == n;
    }
  }

  lemma {:induction false} JoinedFirst(n: Name)
    requires n != [] && n[0] != []
    ensures Joined(n, [DOT]) != [] && Joined(n, [DOT])[0] == n[0][0]
  {
  }

  /** One half of the text round trip: a name that survives is parsed back exactly. */
  lemma SurvivorIsReparsed(n: Name)
    requires ProperName(n) && SurvivesText(n)
    ensures Reparsed(n) == n
  {
    if n != [] {
      var j := Joined(n, [DOT]);
      JoinedFirst(n);
      TrimmedNoop(j + [DOT]);
      assert (j + [DOT])[..|j|] == j;
      ScanJoined(n);
    }
  }

  /** A lone dot is the root. */
  lemma RootParsed()
    ensures ParsedName([DOT]) == ROOT
  {
    TrimmedNoop([DOT]);
  }

  // ---- Escapes ---------------------------------------------------------------

  /** Every byte behind a backslash. */
  function Escaped(s: Str): (r: Str)
    ensures |r| == 2 * |s|
  {
    if s == [] then [] else [92, s[0]] + Escaped(s[1..])
  }

  /** The labels, escaped, with dots between them. */
  function EscapedText(n: Name): Str {
    if n == [] then []
    else if |n| == 1 then Escaped(n[0])
    else Escaped(n[0]) + [46] + EscapedText(n[1..])
  }

  lemma EscapeTaken(c: Byte, rest: Str, cur: Str)
    ensures Scan([92, c] + rest, cur) == Scan(rest, cur + [c])
  {
    var t := [92, c] + rest;
    assert t[0] == BACKSLASH && t[1] == c && t[2..] == rest;
  }

  lemma {:induction false} ScanEscaped(s: Str, rest: Str, cur: Str)
    ensures Scan(Escaped(s) + rest, cur) == Scan(rest, cur + s)
  {
    hide Scan;
    if s == [] {
      assert Escaped(s) + rest == rest && cur + s == cur;
    } else {
      var more := Escaped(s[1..]) + rest;
      assert Escaped(s) + rest == [92, s[0]] + more;
      EscapeTaken(s[0], more, cur);
      ScanEscaped(s[1..], rest, cur + [s[0]]);
      assert cur + [s[0]] + s[1..] == cur + s;
    }
  }

  lemma DotEnds(cur: Str, rest: Str)
    requires cur != []
    ensures Scan([46] + rest, cur) == [cur] + Scan(rest, []) && Scan([], cur) == [cur]
  {
    assert ([46] + rest)[0] == DOT && ([46] + rest)[1..] == rest;
  }

  lemma {:induction false} ScanEscapedText(n: Name)
    requires n != [] && ProperName(n)
    ensures Scan(EscapedText(n), []) == n
  {
    hide Scan, Escaped;
    assert [] + n[0] == n[0];
    if |n| == 1 {
      ScanEscaped(n[0], [], []);
      assert Escaped(n[0]) + [] == Escaped(n[0]);
      DotEnds(n[0], []);
    } else {
      var tail := EscapedText(n[1..]);
      assert EscapedText(n) == Escaped(n[0]) + ([46] + tail);
      ScanEscaped(n[0], [46] + tail, []);
      DotEnds(n[0], tail);
      ScanEscapedText(n[1..]);
    }
  }

  /** Whatever bytes its labels hold, a name comes back from text in which every byte is escaped. */
  lemma EscapedParsed(n: Name)
    requires ProperName(n) && n != []
    ensures ParsedName(EscapedText(n) + [46]) == n
  {
    var t := EscapedText(n);
    assert n[0] != [] && t[0] == 92;
    TrimmedNoop(t + [46]);
    assert (t + [46])[..|t|] == t;
    ScanEscapedText(n);
  }

  /** Bytes that are not escapes, separators of empty labels, or dots are all kept. */
  lemma {:induction false} ScanLength(s: Str, cur: Str)
    ensures |Joined(Scan(s, cur), [DOT])| <= |cur| + |s|
    ensures !NoEscape(s) ==> |Joined(Scan(s, cur), [DOT])| < |cur| + |s|
    decreases |s|
  {
    if s == [] {
    } else if s[0] == BACKSLASH && |s| > 1 {
      ScanLength(s[2..], cur + [s[1]]);
    } else if s[0] == DOT {
      ScanLength(s[1..], []);
      NoEscapeTail(s);
      var rest := Scan(s[1..], []);
      if cur != [] {
        assert ([cur] + rest)[1..] == rest;
      } else {
        assert [] + rest == rest;
      }
    } else {
      ScanLength(s[1..], cur + [s[0]]);
      NoEscapeTail(s);
    }
  }

  lemma NoEscapeTail(s: Str)
    requires |s| > 0 && !(s[0] == BACKSLASH && |s| > 1)
    ensures NoEscape(s) <==> NoEscape(s[1..])
  {
    if NoEscape(s[1..]) {
      forall i | 0 <= i < |s| - 1 ensures s[i] != BACKSLASH {
        if i > 0 { assert s[i] == s[1..][i - 1]; }
      }
    }
  }

  /** Without escapes every scanned label is free of dots. */
  lemma {:induction false} ScanNoDots(s: Str, cur: Str)
    requires NoByte(cur, DOT)
    requires NoEscape(s)
    ensures NoDots(Scan(s, cur))
    decreases |s|
  {
    if s != [] {
      ScanNoDots(s[1..], if s[0] == DOT then [] else cur + [s[0]]);
    }
  }

  lemma {:induction false} JoinedNoEscape(n: Name)
    requires n != [] && ProperName(n)
    requires NoEscape(Joined(n, [DOT]))
    ensures Unescaped(n)
  {
    var j := Joined(n, [DOT]);
    if |n| > 1 {
      var tail := Joined(n[1..], [DOT]);
      JoinedFirst(n[1..]);
      assert j == n[0] + [DOT] + tail;
      forall i | 0 <= i < |tail| - 1 ensures tail[i] != BACKSLASH {
        assert tail[i] == j[|n[0]| + 1 + i];
      }
      forall i | 0 <= i < |n[0]| ensures n[0][i] != BACKSLASH {
        assert n[0][i] == j[i];
      }
      JoinedNoEscape(n[1..]);
      forall i | 0 < i < |n|
        ensures if i == |n| - 1 then NoEscape(n[i]) else NoByte(n[i], BACKSLASH)
      {
        assert n[i] == n[1..][i - 1];
      }
    }
  }

  lemma {:induction false} SameLength(a: Name, b: Name)
    requires Same(a, b)
    ensures |Joined(a, [DOT])| == |Joined(b, [DOT])|
    decreases |a|
  {
    assert |a| == |LowerName(a)| == |b|;
    if |a| > 0 {
      assert |a[0]| == |LowerName(a)[0]| == |LowerName(b)[0]| == |b[0]|;
      SameSuffixes(a, b, 1);
      SameLength(a[1..], b[1..]);
    }
  }

  /**
   The text round trip, exactly: the labels that decodeName collects come back from
   join-and-parse, even only up to case, if and only if they survive text.
   */
  lemma ReparsedIffSurvives(n: Name)
    requires ProperName(n)
    ensures Same(Reparsed(n), n) <==> SurvivesText(n)
    ensures Same(Reparsed(n), n) ==> Reparsed(n) == n
  {
    if SurvivesText(n) {
      SurvivorIsReparsed(n);
    } else if Same(Reparsed(n), n) {
      SameTextSurvives(n);
      assert false;
    }
  }

  lemma SameTextSurvives(n: Name)
    requires ProperName(n) && n != [] && Same(Reparsed(n), n)
    ensures SurvivesText(n)
  {
    var j := Joined(n, [DOT]);
    JoinedFirst(n);
    SameLength(Reparsed(n), n);
    ReparsedLength(j);
    SameScanSurvives(n, j);
  }

  lemma SameScanSurvives(n: Name, j: Str)
    requires ProperName(n) && n != [] && j == Joined(n, [DOT])
    requires Same(Scan(j, []), n)
    ensures NoDots(n) && Unescaped(n)
  {
    SameLength(Scan(j, []), n);
    ScanLength(j, []);
    ScanNoDots(j, []);
    JoinedNoEscape(n);
    SameNoDots(Scan(j, []), n);
  }

  /** Trimming loses bytes, so a text that keeps its length was not trimmed. */
  lemma ReparsedLength(j: Str)
    requires j != [] && |Joined(ParsedName(j + [DOT]), [DOT])| == |j|
    ensures !IsSpace(j[0])
    ensures ParsedName(j + [DOT]) == Scan(j, [])
  {
    var s := Trimmed(j + [DOT]);
    TrimKeepsEnd(j + [DOT]);
    assert s[|s| - 1] == DOT;
    ScanLength(s[..|s| - 1], []);
    assert s == j + [DOT];
    TrimmedStart(s);
    assert s[..|j|] == j;
  }

  lemma {:induction false} TrimKeepsEnd(s: Str)
    requires s != [] && !IsSpace(s[|s| - 1])
    ensures Trimmed(s) != [] && |Trimmed(s)| <= |s| && Trimmed(s) == s[|s| - |Trimmed(s)|..]
    decreases |s|
  {
    hide TrimRight, IsSpace;
    if IsSpace(s[0]) {
      assert |s| > 1 && s[1..][|s| - 2] == s[|s| - 1];
      TrimKeepsEnd(s[1..]);
      TrimmedRest(s);
      assert s[|s| - |Trimmed(s)|..] == s[1..][|s| - 1 - |Trimmed(s)|..];
    } else {
      TrimmedNoop(s);
      assert s[0..] == s;
    }
  }

  lemma TrimmedRest(s: Str)
    requires s != [] && IsSpace(s[0])
    ensures Trimmed(s) == Trimmed(s[1..])
  {
    hide TrimRight;
  }

  lemma {:induction false} TrimmedStart(s: Str)
    requires s != [] && Trimmed(s) == s
    ensures !IsSpace(s[0])
  {
    hide TrimRight;
    assert |TrimLeft(s)| == |s|;
  }

  lemma SameNoDots(a: Name, b: Name)
    requires Same(a, b) && NoDots(a)
    ensures NoDots(b)
  {
    assert |a| == |LowerName(a)| == |b|;
    forall i, k | 0 <= i < |b| && 0 <= k < |b[i]| ensures b[i][k] != DOT {
      assert LowerName(a)[i] == LowerName(b)[i];
      assert LowerByte(a[i][k]) == LowerByte(b[i][k]);
    }
  }
}
