/**
 The parent climbs of src/simple-dnsd/backend/gsql.cpp over an exact-name lookup, compared
 with the searches of the memory backend.
 */
module Gsql {
  import opened Text
  import opened DnsNames
  import opened NameCodec
  import opened Compression
  import opened Records
  import opened Store

  // ---- The gsql climb -------------------------------------------------------------

  /** A row of the domains table, as far as the search reads it. */
  datatype DomainRow = DomainRow(id: int, name: Str, master: Str, slave: bool)

  /** toLowerString(false): the text by which rows are selected. */
  function RowText(n: Name): Str {
    Lowered(ToText(n, false))
  }

  /** rowToZone. */
  function RowZone(row: DomainRow): ZoneInfo {
    ZoneInfo(row.id, ParsedName(row.name), row.slave, row.master)
  }

  /** The exact-name query: the first row of that name. */
  function Selected(rows: seq<DomainRow>, text: Str): Option<DomainRow> {
    if rows == [] then None
    else if rows[0].name == text then Some(rows[0])
    else Selected(rows[1..], text)
  }

  function Climbed(rows: seq<DomainRow>, q: Name): Option<ZoneInfo>
    decreases |q|
  {
    var row := Selected(rows, RowText(q));
    if row.Some? then Some(RowZone(row.value))
    else if q == ROOT then None
    else Climbed(rows, q[1..])
  }

  method ClimbToZone(rows: seq<DomainRow>, q: Name) returns (r: Option<ZoneInfo>)
    ensures r == Climbed(rows, q)
  {
    hide RowText, RowZone, Selected;
    var cur := q;
    while true
      invariant Climbed(rows, q) == Climbed(rows, cur)
      decreases |cur|
    {
      var row := Selected(rows, RowText(cur));
      if row.Some? {
        return Some(RowZone(row.value));
      }
      if cur == ROOT {
        break;
      }
      assert Parent(cur) == cur[1..];
      cur := Parent(cur);
    }
    return None;
  }

  lemma {:induction false} SelectedIn(rows: seq<DomainRow>, text: Str)
    ensures match Selected(rows, text)
            case None => forall i :: 0 <= i < |rows| ==> rows[i].name != text
            case Some(row) => row in rows && row.name == text
  {
    if rows != [] {
      SelectedIn(rows[1..], text);
      if Selected(rows, text).None? {
        forall i | 0 <= i < |rows| ensures rows[i].name != text {
          if i > 0 { assert rows[1..][i - 1] == rows[i]; }
        }
      }
    }
  }

  /** The rows hold exactly the zones of the table, in any order and case. */
  ghost predicate Tabled(zones: Zones, rows: seq<DomainRow>) {
    && (forall k :: k in zones ==> PlainName(zones[k].info.name) && Spaceless(zones[k].info.name))
    && (forall k :: k in zones ==> exists i :: 0 <= i < |rows| && rows[i].name == RowText(zones[k].info.name))
    && (forall i :: 0 <= i < |rows| ==> exists k :: k in zones && rows[i].name == RowText(zones[k].info.name))
  }

  /** The row text of a name parses back to its labels in lower case. */
  lemma RowTextParsed(n: Name)
    requires PlainName(n) && Spaceless(n)
    ensures ParsedName(RowText(n)) == LowerName(n)
  {
    hide Scan, Joined, PlainName, Spaceless, ParsedName;
    if n == ROOT {
      RootParsed();
      assert RowText(n) == [DOT];
    } else {
      LoweredJoined(n);
      PlainLower(n);
      SpacelessLower(n);
      SpacelessParsed(LowerName(n));
      assert Joined(n, [DOT]) + [] == Joined(n, [DOT]);
    }
  }

  lemma RowTextIsKey(n: Name)
    ensures n != ROOT ==> Key(n) == RowText(n) + [DOT]
  {
    hide Joined;
    if n != ROOT {
      LoweredConcat(Joined(n, [DOT]), [DOT]);
      assert Lowered([DOT]) == [DOT];
      assert Joined(n, [DOT]) + [] == Joined(n, [DOT]);
    }
  }

  lemma RowTextInjective(a: Name, b: Name)
    requires PlainName(a) && PlainName(b)
    ensures RowText(a) == RowText(b) <==> Same(a, b)
  {
    hide Key, RowText, PlainName;
    KeyInjective(a, b);
    if a == ROOT || b == ROOT {
      RootRow(a);
      RootRow(b);
    } else {
      RowTextIsKey(a);
      RowTextIsKey(b);
      if Key(a) == Key(b) { assert Key(a)[..|Key(a)| - 1] == RowText(a) && Key(b)[..|Key(b)| - 1] == RowText(b); }
    }
  }

  lemma RootRow(a: Name)
    requires PlainName(a)
    ensures RowText(a) == [DOT] <==> a == ROOT
    ensures Same(a, ROOT) <==> a == ROOT
  {
    hide PlainName, ParsedName;
    assert |a| == |LowerName(a)|;
    TwoDots();
    if a == ROOT {
      assert RowText(a) == [DOT];
    } else {
      RowTextIsKey(a);
      KeyParsed(a);
      assert RowText(a) == [DOT] ==> Key(a) == [DOT, DOT];
    }
  }

  lemma TwoDots()
    ensures ParsedName([DOT, DOT]) == ROOT
  {
    var s: Str := [DOT, DOT];
    TrimmedNoop(s);
    assert s[..1] == [DOT];
    assert Scan([DOT], []) == [] + Scan([DOT][1..], []);
    assert [DOT][1..] == [];
  }

  // ---- Climb and scan -------------------------------------------------------------------

  /** Equal names have equal row texts, whatever their labels hold. */
  lemma SameRowText(a: Name, b: Name)
    requires Same(a, b)
    ensures RowText(a) == RowText(b)
  {
    assert |a| == |LowerName(a)| == |LowerName(b)| == |b|;
    if a != ROOT {
      LoweredJoined(a);
      LoweredJoined(b);
      assert Joined(a, [DOT]) + [] == Joined(a, [DOT]) && Joined(b, [DOT]) + [] == Joined(b, [DOT]);
    }
  }

  /** The climb and the scan find the same zone at q, or none. */
  predicate AgreeAt(zones: Zones, rows: seq<DomainRow>, q: Name) {
    var c, s := Climbed(rows, q), FoundZone(zones, q);
    c.Some? == s.Some? && (c.Some? ==> Same(c.value.name, s.value.info.name))
  }

  /** If the text of this suffix of q is that of a name a zone can have, that name contains q. */
  predicate SuffixIsClear(q: Name, k: nat)
    requires k <= |q|
  {
    var n := ParsedName(RowText(q[k..]));
    PlainName(n) && Spaceless(n) && RowText(n) == RowText(q[k..]) ==> IsSubdomainOf(q, n)
  }

  /** No suffix of q is written like a zone that does not contain q. */
  predicate Unambiguous(q: Name) {
    forall k :: 0 <= k <= |q| ==> SuffixIsClear(q, k)
  }

  /** None of the first k suffixes of q has a row. */
  predicate NoRowBefore(rows: seq<DomainRow>, q: Name, k: nat)
    requires k <= |q| + 1
  {
    forall j :: 0 <= j < k ==> Selected(rows, RowText(q[j..])).None?
  }

  /** The suffix of q at k is the first that has a row, and that row is the zone z. */
  predicate StopsAt(rows: seq<DomainRow>, q: Name, k: nat, z: ZoneInfo) {
    && k <= |q| && NoRowBefore(rows, q, k)
    && var row := Selected(rows, RowText(q[k..])); row.Some? && z == RowZone(row.value)
  }

  lemma NoRowFurther(rows: seq<DomainRow>, q: Name, k: nat)
    requires q != ROOT && k <= |q| && Selected(rows, RowText(q)).None? && NoRowBefore(rows, q[1..], k)
    ensures NoRowBefore(rows, q, k + 1)
  {
    hide RowText, Selected;
    assert q[0..] == q;
    forall j | 0 <= j < k + 1 ensures Selected(rows, RowText(q[j..])).None? {
      if j > 0 { assert q[j..] == q[1..][j - 1..]; }
    }
  }

  /** The climb stops at the first suffix that has a row. */
  lemma {:induction false} ClimbStops(rows: seq<DomainRow>, q: Name)
    ensures match Climbed(rows, q)
      case None => NoRowBefore(rows, q, |q| + 1)
      case Some(z) => exists k: nat :: StopsAt(rows, q, k, z)
    decreases |q|
  {
    hide RowText, Selected, RowZone, NoRowBefore;
    assert q[0..] == q;
    assert NoRowBefore(rows, q, 0) by { NothingBefore(rows, q); }
    if Selected(rows, RowText(q)).Some? {
      assert StopsAt(rows, q, 0, Climbed(rows, q).value);
    } else if q != ROOT {
      var up := q[1..];
      ClimbStops(rows, up);
      if Climbed(rows, up).None? {
        NoRowFurther(rows, q, |up| + 1);
      } else {
        var k: nat :| StopsAt(rows, up, k, Climbed(rows, up).value);
        NoRowFurther(rows, q, k);
        assert q[k + 1..] == up[k..];
        assert StopsAt(rows, q, k + 1, Climbed(rows, q).value);
      }
    } else {
      RootHasNoRow(rows);
    }
  }

  lemma NothingBefore(rows: seq<DomainRow>, q: Name)
    ensures NoRowBefore(rows, q, 0)
  {
  }

  lemma RootHasNoRow(rows: seq<DomainRow>)
    requires Selected(rows, RowText(ROOT)).None?
    ensures NoRowBefore(rows, ROOT, 1)
  {
    hide RowText, Selected;
    assert ROOT[0..] == ROOT;
  }

  /** The text of a shorter suffix is shorter, unless it is the root's. */
  lemma {:induction false} ShorterText(q: Name, k: nat, m: nat)
    requires k < m < |q|
    ensures |Joined(q[m..], [DOT])| < |Joined(q[k..], [DOT])|
    decreases m - k
  {
    assert q[k..][1..] == q[k + 1..];
    if k + 1 < m { ShorterText(q, k + 1, m); }
  }

  lemma RowTextLength(q: Name, k: nat)
    requires k <= |q|
    ensures |RowText(q[k..])| == if k == |q| then 1 else |Joined(q[k..], [DOT])|
  {
    assert k < |q| ==> Joined(q[k..], [DOT]) + [] == Joined(q[k..], [DOT]);
  }

  lemma PlainTextLength(n: Name)
    requires PlainName(n)
    ensures |RowText(n)| >= 1
  {
    if n != ROOT {
      assert PlainLabel(n[0]);
      JoinedFirst(n);
      assert Joined(n, [DOT]) + [] == Joined(n, [DOT]);
    }
  }

  /**
   Two zone names that contain q: if the text of the longer one stands no earlier on the climb
   than that of the shorter, the two are equal.
   */
  lemma ClimbOrder(q: Name, k: nat, n: Name, longest: Name)
    requires k <= |q| && PlainName(n) && PlainName(longest)
    requires IsSubdomainOf(q, n) && IsSubdomainOf(q, longest) && |n| <= |longest|
    requires RowText(q[k..]) == RowText(n) && k <= |q| - |longest|
    ensures Same(n, longest)
  {
    hide RowText, PlainName, Key;
    var m, l := |q| - |n|, |q| - |longest|;
    SameRowText(q[m..], n);
    SameRowText(q[l..], longest);
    RowTextLength(q, k);
    RowTextLength(q, l);
    RowTextLength(q, m);
    PlainTextLength(longest);
    RowTextInjective(n, longest);
    if k < l < |q| { ShorterText(q, k, l); }
    if k < m < |q| { ShorterText(q, k, m); }
  }

  /** The row selected by the text stands for the zone under the key, whose name its text parses to. */
  predicate RowStandsFor(zones: Zones, rows: seq<DomainRow>, text: Str, key: Str) {
    && key in zones && Selected(rows, text).Some? && text == RowText(zones[key].info.name)
    && PlainName(zones[key].info.name) && Spaceless(zones[key].info.name)
    && RowZone(Selected(rows, text).value).name == LowerName(zones[key].info.name)
  }

  lemma RowIsZone(zones: Zones, rows: seq<DomainRow>, text: Str)
    requires Tabled(zones, rows) && Selected(rows, text).Some?
    ensures exists k :: RowStandsFor(zones, rows, text, k)
  {
    hide RowText, PlainName, Spaceless, ParsedName, Selected;
    SelectedIn(rows, text);
    var i :| 0 <= i < |rows| && rows[i] == Selected(rows, text).value;
    var k :| k in zones && rows[i].name == RowText(zones[k].info.name);
    RowTextParsed(zones[k].info.name);
    assert RowStandsFor(zones, rows, text, k);
  }

  lemma ZoneHasRow(zones: Zones, rows: seq<DomainRow>, key: Str)
    requires Tabled(zones, rows) && key in zones
    ensures PlainName(zones[key].info.name) && Selected(rows, RowText(zones[key].info.name)).Some?
  {
    hide RowText, PlainName, Spaceless, Selected;
    var text := RowText(zones[key].info.name);
    SelectedIn(rows, text);
    var i :| 0 <= i < |rows| && rows[i].name == text;
    assert rows[i].name == text;
  }

  /** The zone name found at a clear suffix contains q. */
  lemma ClearContains(q: Name, k: nat, n: Name)
    requires k <= |q| && SuffixIsClear(q, k) && PlainName(n) && Spaceless(n) && RowText(n) == RowText(q[k..])
    ensures IsSubdomainOf(q, n)
  {
    hide RowText, PlainName, Spaceless, ParsedName;
    RowTextParsed(n);
    PlainLower(n);
    SpacelessLower(n);
    LowerTwice(n);
    SameRowText(LowerName(n), n);
  }

  lemma ScanHasRow(zones: Zones, rows: seq<DomainRow>, q: Name)
    requires Keyed(zones) && Tabled(zones, rows) && FoundZone(zones, q).Some?
    ensures var name := FoundZone(zones, q).value.info.name;
      && IsSubdomainOf(q, name) && PlainName(name) && Selected(rows, RowText(q[|q| - |name|..])).Some?
  {
    hide Key, RowText, PlainName, Selected, FoundZone, Tabled;
    FoundIsLongest(zones, q);
    var name := FoundZone(zones, q).value.info.name;
    ZoneHasRow(zones, rows, Key(name));
    SameRowText(q[|q| - |name|..], name);
  }

  lemma UnambiguousAgrees(zones: Zones, rows: seq<DomainRow>, q: Name)
    requires Keyed(zones) && Tabled(zones, rows) && Unambiguous(q)
    ensures AgreeAt(zones, rows, q)
  {
    hide Key, RowText, Tabled, Selected, Keyed, RowZone, PlainName, Spaceless, FoundZone, Climbed, IsSubdomainOf,
         SuffixIsClear;
    ClimbStops(rows, q);
    FoundIsLongest(zones, q);
    if FoundZone(zones, q).Some? { ScanHasRow(zones, rows, q); ScanIsBelow(zones, q); }
    if Climbed(rows, q).Some? {
      var k: nat :| StopsAt(rows, q, k, Climbed(rows, q).value);
      ClimbedAgrees(zones, rows, q, k);
    }
  }

  lemma ScanIsBelow(zones: Zones, q: Name)
    requires Keyed(zones) && FoundZone(zones, q).Some?
    ensures |FoundZone(zones, q).value.info.name| <= |q|
  {
    hide Key, FoundZone;
    FoundIsLongest(zones, q);
  }

  lemma ClimbedAgrees(zones: Zones, rows: seq<DomainRow>, q: Name, k: nat)
    requires Keyed(zones) && Tabled(zones, rows) && Unambiguous(q)
    requires k <= |q| && Selected(rows, RowText(q[k..])).Some? && NoRowBefore(rows, q, k)
    ensures FoundZone(zones, q).Some?
    ensures Same(RowZone(Selected(rows, RowText(q[k..])).value).name, FoundZone(zones, q).value.info.name)
  {
    hide Key, RowText, Selected, RowZone, PlainName, Spaceless, FoundZone, IsSubdomainOf, SuffixIsClear, Keyed, Tabled,
         Same;
    RowIsZone(zones, rows, RowText(q[k..]));
    var key :| RowStandsFor(zones, rows, RowText(q[k..]), key);
    var n := zones[key].info.name;
    ClearContains(q, k, n);
    ScanIsLonger(zones, key, q);
    var longest := FoundZone(zones, q).value.info.name;
    ScanHasRow(zones, rows, q);
    ScanIsBelow(zones, q);
    assert |q| - |longest| >= k;
    ClimbOrder(q, k, n, longest);
    LowerSame(n, longest);
  }

  lemma ScanIsLonger(zones: Zones, key: Str, q: Name)
    requires Keyed(zones) && key in zones && IsSubdomainOf(q, zones[key].info.name)
    ensures FoundZone(zones, q).Some? && |zones[key].info.name| <= |FoundZone(zones, q).value.info.name|
  {
    hide Key, FoundZone, IsSubdomainOf;
    FoundIsLongest(zones, q);
  }

  lemma LowerSame(a: Name, b: Name)
    requires Same(a, b)
    ensures Same(LowerName(a), b)
  {
    LowerTwice(a);
  }

  // ---- One zone -----------------------------------------------------------------------------

  function OneRow(n: Name): seq<DomainRow> {
    [DomainRow(1, RowText(n), [], false)]
  }

  lemma OneTabled(n: Name)
    requires PlainName(n) && Spaceless(n)
    ensures Keyed(OneZone(n)) && Tabled(OneZone(n), OneRow(n))
  {
    hide Key, RowText, PlainName, Spaceless;
    assert OneRow(n)[0].name == RowText(OneZone(n)[Key(n)].info.name);
  }

  /** A suffix written like a zone that does not contain q misleads the climb. */
  lemma AmbiguousDisagrees(q: Name, k: nat)
    requires k <= |q| && !SuffixIsClear(q, k)
    ensures var n := ParsedName(RowText(q[k..]));
      && Keyed(OneZone(n)) && Tabled(OneZone(n), OneRow(n))
      && Climbed(OneRow(n), q).Some? && FoundZone(OneZone(n), q).None?
  {
    hide Key, RowText, PlainName, Spaceless, ParsedName, FoundZone, Tabled, IsSubdomainOf, Climbed;
    var n := ParsedName(RowText(q[k..]));
    OneTabled(n);
    FoundIsLongest(OneZone(n), q);
    assert forall key :: key in OneZone(n) ==> OneZone(n)[key].info.name == n;
    ClimbStops(OneRow(n), q);
    assert Selected(OneRow(n), RowText(q[k..])).Some?;
  }

  /**
   The parent climb over exact rows and the scan over all zones agree at q for every table of
   zones, if and only if no suffix of q is written like a zone name that does not contain q.
   */
  lemma ClimbIsScan(q: Name)
    ensures (forall zones: Zones, rows: seq<DomainRow> ::
               Keyed(zones) && Tabled(zones, rows) ==> AgreeAt(zones, rows, q))
            <==> Unambiguous(q)
  {
    hide Keyed, Tabled, Climbed, FoundZone, SuffixIsClear;
    if Unambiguous(q) {
      forall zones: Zones, rows: seq<DomainRow> | Keyed(zones) && Tabled(zones, rows) ensures AgreeAt(zones, rows, q) {
        UnambiguousAgrees(zones, rows, q);
      }
    } else {
      var k :| 0 <= k <= |q| && !SuffixIsClear(q, k);
      AmbiguousDisagrees(q, k);
      var n := ParsedName(RowText(q[k..]));
      assert !AgreeAt(OneZone(n), OneRow(n), q);
    }
  }

  /** Plain names are unambiguous. */
  lemma PlainIsUnambiguous(q: Name)
    requires PlainName(q)
    ensures Unambiguous(q)
  {
    hide RowText, Spaceless, ParsedName;
    forall k | 0 <= k <= |q| ensures SuffixIsClear(q, k) {
      var n := ParsedName(RowText(q[k..]));
      assert PlainName(q[k..]);
      if PlainName(n) && RowText(n) == RowText(q[k..]) {
        RowTextInjective(n, q[k..]);
        SuffixContains(q, k, n);
      }
    }
  }

  lemma SuffixContains(q: Name, k: nat, n: Name)
    requires k <= |q| && Same(n, q[k..])
    ensures IsSubdomainOf(q, n)
  {
    assert |n| == |LowerName(n)| == |LowerName(q[k..])| == |q| - k;
  }

  const PAIR: Name := [[97], [98]]
  const DOTTED: Name := [[97, 46, 98]]

  lemma PairText()
    ensures RowText(DOTTED) == RowText(PAIR) && PlainName(PAIR) && Spaceless(PAIR)
  {
    assert Joined(PAIR, [DOT]) == PAIR[0] + [DOT] + Joined(PAIR[1..], [DOT]) == PAIR[0] + [DOT] + PAIR[1] == DOTTED[0];
  }

  /** The one label a.b is taken for the name a.b, so the climb finds a zone that the scan does not. */
  lemma DottedLabelMisleads()
    ensures !Unambiguous(DOTTED)
    ensures Keyed(OneZone(PAIR)) && Tabled(OneZone(PAIR), OneRow(PAIR))
    ensures Climbed(OneRow(PAIR), DOTTED).Some? && FoundZone(OneZone(PAIR), DOTTED).None?
  {
    hide Key, RowText, PlainName, Spaceless, ParsedName, FoundZone, Tabled, Climbed;
    PairText();
    RowTextParsed(PAIR);
    assert Lowered(PAIR[0]) == PAIR[0] && Lowered(PAIR[1]) == PAIR[1];
    assert LowerName(PAIR) == PAIR;
    assert DOTTED[0..] == DOTTED && |DOTTED| == 1 && |PAIR| == 2;
    assert !IsSubdomainOf(DOTTED, PAIR);
    assert !SuffixIsClear(DOTTED, 0);
    AmbiguousDisagrees(DOTTED, 0);
  }

  /** Such a label arrives as four bytes on the wire: the decoder's re-parsing drops the backslash. */
  lemma DottedLabelArrives()
    ensures DecodedName([4, 97, BACKSLASH, DOT, 98, 0], 0, 0) == Got(DOTTED, 6)
  {
    hide Reparsed;
    var input: Bytes := [4, 97, BACKSLASH, DOT, 98, 0];
    var bytes: Str := [97, BACKSLASH, DOT, 98];
    assert input[1..5] == bytes && [] + [bytes] == [bytes];
    assert DecodedFrom(input, 5, [bytes], 0) == Got(Reparsed([bytes]), 6);
    EscapeReparsed();
  }

  lemma EscapeReparsed()
    ensures Reparsed([[97, BACKSLASH, DOT, 98]]) == DOTTED
  {
    hide Trimmed;
    var text: Str := [97, BACKSLASH, DOT, 98, DOT];
    var body: Str := [97, BACKSLASH, DOT, 98];
    assert Joined([body], [DOT]) + [DOT] == text && text[..4] == body;
    TrimmedNoop(text);
    var escape: Str := [BACKSLASH, DOT, 98];
    var last: Str := [98];
    assert body[1..] == escape && escape[2..] == last && last[1..] == [];
    assert Scan(body, []) == Scan(escape, [97]) by { assert [] + [body[0]] == [97]; }
    assert Scan(escape, [97]) == Scan(last, [97, DOT]) by { assert [97] + [escape[1]] == [97, DOT]; }
    assert Scan(last, [97, DOT]) == Scan([], [97, DOT, 98]) by { assert [97, DOT] + [last[0]] == [97, DOT, 98]; }
  }

  /**
   Sharing a row text with another name is not enough to mislead: the one label "." is written
   like the root, which contains every name.
   */
  lemma DotLabelIsHarmless()
    ensures RowText([[DOT]]) == RowText(ROOT) && !Same(ROOT, [[DOT]]) && Unambiguous([[DOT]])
  {
    hide PlainName, Spaceless, ParsedName;
    var q: Name := [[DOT]];
    assert |LowerName(ROOT)| != |LowerName(q)|;
    assert Joined(q, [DOT]) + [] == [DOT] && Lowered([DOT]) == [DOT];
    RootParsed();
    assert q[0..] == q && q[1..] == ROOT;
    RootContains(q);
  }

  // ---- The gsql delegation climb ----------------------------------------------------

  /** GsqlBackend::findDelegation; its lookup skips disabled records. */
  function GsqlCut(rrs: Rrs, zone: Name, q: Name): Option<Name>
    decreases |q|
  {
    if Same(q, zone) || q == ROOT then None
    else if LookedUp(rrs, q, TYPE_NS) != [] then Some(q)
    else GsqlCut(rrs, zone, q[1..])
  }

  method ClimbToDelegation(rrs: Rrs, zone: Name, q: Name) returns (r: Option<Name>)
    ensures r == GsqlCut(rrs, zone, q)
  {
    hide LookedUp;
    var cur := q;
    var apex := Equals(cur, zone);
    while !apex && cur != ROOT
      invariant apex == Same(cur, zone)
      invariant GsqlCut(rrs, zone, q) == GsqlCut(rrs, zone, cur)
      decreases |cur|
    {
      var ns := LookedUp(rrs, cur, TYPE_NS);
      if ns != [] {
        return Some(cur);
      }
      assert Parent(cur) == cur[1..];
      cur := Parent(cur);
      apex := Equals(cur, zone);
    }
    return None;
  }

  /** Every delegation in rrs below the apex has a record that is not disabled. */
  ghost predicate CutsEnabled(rrs: Rrs, zone: Name) {
    forall n: Name :: IsSubdomainOf(n, zone) && |n| > |zone| && HasNs(rrs, n) ==> LookedUp(rrs, n, TYPE_NS) != []
  }

  lemma NsFound(rrs: Rrs, n: Name)
    requires LookedUp(rrs, n, TYPE_NS) != []
    ensures HasNs(rrs, n)
  {
    LookedUpIn(rrs, n, TYPE_NS, 0);
    var rr := LookedUp(rrs, n, TYPE_NS)[0];
    var i :| 0 <= i < |rrs| && rrs[i] == rr;
  }

  lemma EnabledHere(rrs: Rrs, zone: Name, q: Name)
    requires CutsEnabled(rrs, zone) && IsSubdomainOf(q, zone) && |q| > |zone|
    ensures LookedUp(rrs, q, TYPE_NS) != [] <==> HasNs(rrs, q)
  {
    hide HasNs, LookedUp, IsSubdomainOf, Same;
    if LookedUp(rrs, q, TYPE_NS) != [] { NsFound(rrs, q); }
  }

  lemma BelowApex(zone: Name, q: Name)
    requires IsSubdomainOf(q, zone) && |q| > |zone|
    ensures !Same(q, zone) && IsSubdomainOf(q[1..], zone)
  {
    SuffixIsApex(zone, q, 0);
    assert q[0..] == q;
    assert q[1..][|q[1..]| - |zone|..] == q[|q| - |zone|..];
  }

  lemma {:induction false} EnabledCuts(rrs: Rrs, zone: Name, q: Name)
    requires CutsEnabled(rrs, zone) && IsSubdomainOf(q, zone)
    ensures GsqlCut(rrs, zone, q) == Cut(rrs, zone, q)
    decreases |q|
  {
    hide HasNs, LookedUp, IsSubdomainOf, CutsEnabled, Same;
    if |q| > |zone| {
      EnabledHere(rrs, zone, q);
      BelowApex(zone, q);
      EnabledCuts(rrs, zone, q[1..]);
    } else {
      ApexReached(q, zone);
    }
  }

  lemma ApexReached(q: Name, zone: Name)
    requires IsSubdomainOf(q, zone) && |q| <= |zone|
    ensures Same(q, zone)
  {
    assert q[0..] == q;
  }

  lemma {:induction false} GsqlCutShortens(rrs: Rrs, zone: Name, q: Name)
    ensures GsqlCut(rrs, zone, q).Some? ==> |GsqlCut(rrs, zone, q).value| <= |q|
    decreases |q|
  {
    if q != ROOT { GsqlCutShortens(rrs, zone, q[1..]); }
  }

  /** The two delegation searches agree on all names of a zone exactly when no cut is disabled. */
  lemma DelegationsAgree(rrs: Rrs, zone: Name)
    ensures (forall q: Name :: IsSubdomainOf(q, zone) ==> GsqlCut(rrs, zone, q) == Cut(rrs, zone, q))
            <==> CutsEnabled(rrs, zone)
  {
    hide HasNs, LookedUp, IsSubdomainOf;
    if CutsEnabled(rrs, zone) {
      forall q: Name | IsSubdomainOf(q, zone) ensures GsqlCut(rrs, zone, q) == Cut(rrs, zone, q) {
        EnabledCuts(rrs, zone, q);
      }
    } else {
      var n: Name :| IsSubdomainOf(n, zone) && |n| > |zone| && HasNs(rrs, n) && LookedUp(rrs, n, TYPE_NS) == [];
      SuffixIsApex(zone, n, 0);
      assert n[0..] == n;
      assert Cut(rrs, zone, n) == Some(n);
      GsqlCutShortens(rrs, zone, n[1..]);
      assert GsqlCut(rrs, zone, n) != Cut(rrs, zone, n);
    }
  }
}
