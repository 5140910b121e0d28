/**
 MX records and their glue: addGlue of src/simple-dnsd/core/engine.cpp reads the whole text of
 a record as a name, which for MX is the exchange only where the text gives no priority.
 */
module MxGlue {
  import opened Text
  import opened Numbers
  import opened DnsNames
  import opened NameCodec
  import opened Records
  import opened Rdata
  import opened Serials
  import opened Store
  import opened Answering

  // ---- Text made from rdata -----------------------------------------------------------------

  /** m is the name n with the text x in front of its first label, or as a label of its own. */
  predicate Carries(m: Name, x: Str, n: Name) {
    m == [x] + n || (n != [] && m == [x + n[0]] + n[1..])
  }

  lemma {:induction false} ScanCarries(s: Str, x: Str, cur: Str)
    requires x != []
    ensures Carries(Scan(s, x + cur), x, Scan(s, cur))
    decreases |s|
  {
    if s == [] {
      assert x + [] == x;
    } else if s[0] == BACKSLASH && |s| > 1 {
      assert x + cur + [s[1]] == x + (cur + [s[1]]);
      ScanCarries(s[2..], x, cur + [s[1]]);
    } else if s[0] == DOT {
      assert x + [] == x;
    } else {
      assert x + cur + [s[0]] == x + (cur + [s[0]]);
      ScanCarries(s[1..], x, cur + [s[0]]);
    }
  }

  lemma CarriesDiffers(m: Name, x: Str, n: Name)
    requires Carries(m, x, n) && x != []
    ensures !Same(m, n)
  {
    if |m| == |n| {
      assert |LowerName(m)[0]| == |x| + |LowerName(n)[0]|;
    }
  }

  lemma {:induction false} LeadingSpaces(s: Str)
    ensures forall i :: 0 <= i < |s| - |TrimLeft(s)| ==> IsSpace(s[i])
  {
    if s != [] && IsSpace(s[0]) { LeadingSpaces(s[1..]); }
  }

  lemma {:induction false} RightKeepsEnd(s: Str)
    requires s != [] && !IsSpace(s[|s| - 1])
    ensures TrimLeft(s) != [] && Trimmed(s) == TrimLeft(s)
  {
    if IsSpace(s[0]) {
      assert |s| > 1;
      RightKeepsEnd(s[1..]);
    }
  }

  /** A text without its final dot. */
  function Undotted(s: Str): Str {
    if s != [] && s[|s| - 1] == DOT then s[..|s| - 1] else s
  }

  lemma ParsedUndotted(s: Str)
    requires Trimmed(s) != []
    ensures ParsedName(s) == Scan(Undotted(Trimmed(s)), [])
  {
    hide Trimmed;
  }

  lemma UndottedBehind(x: Str, t: Str)
    requires t != []
    ensures Undotted(x + t) == x + Undotted(t)
  {
  }

  lemma ScanBehind(x: Str, body: Str)
    requires x != [] && NoByte(x, DOT) && NoByte(x, BACKSLASH)
    ensures Carries(Scan(x + body, []), x, Scan(body, []))
  {
    hide Scan, Carries;
    ScanLabel(x, body, []);
    assert [] + x == x && x + [] == x;
    ScanCarries(body, x, []);
  }

  lemma SpacesArePlain(s: Str)
    requires forall i :: 0 <= i < |s| ==> IsSpace(s[i])
    ensures NoByte(s, DOT) && NoByte(s, BACKSLASH)
  {
  }

  /** A name text behind a word and a space reads as a name that carries both in front. */
  lemma TextBehindWord(d: Str, w: Str)
    requires IsWord(d) && NoByte(d, DOT) && NoByte(d, BACKSLASH) && w != [] && !IsSpace(w[|w| - 1])
    ensures exists x :: d + [SPACE] <= x && Carries(ParsedName(d + [SPACE] + w), x, ParsedName(w))
  {
    hide Scan, Trimmed, TrimLeft, ParsedName, Undotted, Carries;
    var t := TrimLeft(w);
    var lead := w[..|w| - |t|];
    LeadingSpaces(w);
    SpacesArePlain(lead);
    RightKeepsEnd(w);
    var x := d + [SPACE] + lead;
    var s := d + [SPACE] + w;
    assert w == lead + t && s == x + t;
    TrimmedNoop(s);
    ParsedUndotted(s);
    ParsedUndotted(w);
    UndottedBehind(x, t);
    ScanBehind(x, Undotted(t));
  }

  lemma DigitsArePlain(s: Str)
    requires forall i :: 0 <= i < |s| ==> IsDigit(s[i])
    ensures NoByte(s, DOT) && NoByte(s, BACKSLASH)
  {
  }

  lemma TextEndsInDot(n: Name)
    ensures var t := ToText(n, true); t != [] && t[|t| - 1] == DOT
  {
    hide Joined;
  }

  lemma MxShown(ntop: Ntop, rr: ResourceRecord)
    requires rr.rtype == TYPE_MX && rr.content == [] && RdataToContent(ntop, rr).ok
    ensures var host := DomainText(rr.rdata, 2);
      host.Got? && Shown(ntop, rr).content == Decimal(Shown(ntop, rr).prio) + [SPACE] + host.value
  {
    hide DomainText, Decimal;
    var prio := Shown(ntop, rr).prio;
    SpacedTwo(Decimal(prio), DomainText(rr.rdata, 2).value);
  }

  lemma SpacedTwo(a: Str, b: Str)
    ensures Spaced([a, b]) == a + [SPACE] + b
  {
    assert [a, b][1..] == [b];
    assert Joined([b], [SPACE]) == b;
  }

  /**
   The target of an MX record whose text is made from its rdata is never its exchange: the
   priority stands in front of the first label, because the whole text is read as a name.
   */
  lemma MxTargetIsNotExchange(ntop: Ntop, rr: ResourceRecord)
    requires rr.rtype == TYPE_MX && rr.content == [] && RdataToContent(ntop, rr).ok
    ensures DomainText(rr.rdata, 2).Got?
    ensures var exchange := ParsedName(DomainText(rr.rdata, 2).value); var prio := Decimal(Shown(ntop, rr).prio);
      && (exists x :: prio + [SPACE] <= x && Carries(Target(ntop, rr), x, exchange))
      && !Same(Target(ntop, rr), exchange)
  {
    hide ParsedName, Decimal, Same, Carries, ToText, DecodedName, RdataToContent, Shown, IsWord;
    MxShown(ntop, rr);
    var w := DomainText(rr.rdata, 2).value;
    var prio := Shown(ntop, rr).prio;
    DecimalReadBack(prio);
    DigitsArePlain(Decimal(prio));
    TextEndsInDot(DecodedName(rr.rdata, 2, 0).value);
    TextBehindWord(Decimal(prio), w);
    assert Target(ntop, rr) == ParsedName(Decimal(prio) + [SPACE] + w);
    var x :| Decimal(prio) + [SPACE] <= x && Carries(Target(ntop, rr), x, ParsedName(w));
    CarriesDiffers(Target(ntop, rr), x, ParsedName(w));
  }

  // ---- Bytes of labels ------------------------------------------------------------------------

  /** The bytes of all labels of a name. */
  function Total(n: Name): nat {
    if n == [] then 0 else |n[0]| + Total(n[1..])
  }

  /** The bytes that scanning a text puts into labels. */
  function LabelBytes(s: Str): nat
    decreases |s|
  {
    if s == [] then 0
    else if s[0] == BACKSLASH && |s| > 1 then 1 + LabelBytes(s[2..])
    else if s[0] == DOT then LabelBytes(s[1..])
    else 1 + LabelBytes(s[1..])
  }

  lemma {:induction false} ScanTotal(s: Str, cur: Str)
    ensures Total(Scan(s, cur)) == |cur| + LabelBytes(s)
    decreases |s|
  {
    if s == [] {
    } else if s[0] == BACKSLASH && |s| > 1 {
      ScanTotal(s[2..], cur + [s[1]]);
    } else if s[0] == DOT {
      ScanTotal(s[1..], []);
      var rest := Scan(s[1..], []);
      assert cur != [] ==> ([cur] + rest)[1..] == rest;
      assert [] + rest == rest;
    } else {
      ScanTotal(s[1..], cur + [s[0]]);
    }
  }

  lemma {:induction false} SameTotal(a: Name, b: Name)
    requires Same(a, b)
    ensures Total(a) == Total(b)
    decreases |a|
  {
    assert |a| == |LowerName(a)| == |b|;
    if a != [] {
      assert |a[0]| == |LowerName(a)[0]| == |b[0]|;
      SameSuffixes(a, b, 1);
      SameTotal(a[1..], b[1..]);
    }
  }

  /** More text behind loses no bytes. */
  lemma {:induction false} BytesBefore(a: Str, b: Str)
    ensures LabelBytes(a + b) >= LabelBytes(a)
    decreases |a|
  {
    if a == [] {
    } else if a[0] == BACKSLASH && |a| > 1 {
      assert (a + b)[2..] == a[2..] + b;
      BytesBefore(a[2..], b);
    } else if a[0] == BACKSLASH {
    } else {
      assert (a + b)[1..] == a[1..] + b;
      BytesBefore(a[1..], b);
    }
  }

  /** A space is a byte of a label wherever it stands, and what follows it is scanned as if it stood alone. */
  lemma {:induction false} BytesBehindSpace(a: Str, b: Str)
    requires a != [] && IsSpace(a[|a| - 1])
    ensures LabelBytes(a + b) >= 1 + LabelBytes(b)
    decreases |a|
  {
    if |a| == 1 {
      assert (a + b)[1..] == b;
    } else if a[0] == BACKSLASH {
      assert (a + b)[2..] == a[2..] + b;
      if |a| == 2 {
        assert a[2..] + b == b;
      } else {
        BytesBehindSpace(a[2..], b);
      }
    } else {
      assert (a + b)[1..] == a[1..] + b;
      BytesBehindSpace(a[1..], b);
    }
  }

  // ---- The second word of a text ----------------------------------------------------------------

  /** Where word k of a text starts. */
  function WordStart(s: Str, k: nat): nat
    requires k < |Words(s)|
    decreases |s|
  {
    if IsSpace(s[0]) then 1 + WordStart(s[1..], k)
    else if k == 0 then 0
    else WordLength(s) + WordStart(s[WordLength(s)..], k - 1)
  }

  /** The word stands there, behind a space unless that is the front. */
  predicate StandsAt(s: Str, n: nat, w: Str) {
    n + |w| <= |s| && s[n..n + |w|] == w && (n > 0 ==> IsSpace(s[n - 1]))
  }

  lemma StandsBehind(s: Str, k: nat, m: nat, w: Str)
    requires 0 < k <= |s| && StandsAt(s[k..], m, w) && (m > 0 || IsSpace(s[k - 1]))
    ensures StandsAt(s, k + m, w)
  {
    hide IsSpace;
    assert s[k + m..k + m + |w|] == s[k..][m..m + |w|];
    assert m > 0 ==> s[k..][m - 1] == s[k + m - 1];
  }

  lemma {:induction false} WordStands(s: Str, k: nat)
    requires k < |Words(s)|
    ensures StandsAt(s, WordStart(s, k), Words(s)[k]) && (k > 0 ==> WordStart(s, k) > 0)
    decreases |s|
  {
    hide IsSpace, WordLength, StandsAt;
    if IsSpace(s[0]) {
      WordStands(s[1..], k);
      StandsBehind(s, 1, WordStart(s[1..], k), Words(s)[k]);
    } else {
      var n := WordLength(s);
      if k == 0 {
        FirstStands(s);
      } else {
        SpaceInFront(s[n..], k - 1);
        WordStands(s[n..], k - 1);
        StandsBehind(s, n, WordStart(s[n..], k - 1), Words(s)[k]);
      }
    }
  }

  lemma FirstStands(s: Str)
    ensures StandsAt(s, 0, s[..WordLength(s)])
  {
  }

  lemma SpaceInFront(s: Str, k: nat)
    requires k < |Words(s)| && IsSpace(s[0])
    ensures WordStart(s, k) > 0
  {
  }

  lemma {:induction false} WordsBeforeSpace(s: Str, c: Byte)
    requires IsSpace(c)
    ensures Words(s + [c]) == Words(s)
    decreases |s|
  {
    var more := s + [c];
    if s == [] {
      assert more[1..] == [];
    } else if IsSpace(s[0]) {
      assert more[1..] == s[1..] + [c];
      WordsBeforeSpace(s[1..], c);
    } else {
      var n := WordLength(s);
      assert s == s[..n] + s[n..] && more == s[..n] + (s[n..] + [c]);
      WordLengthOf(s[..n], s[n..] + [c]);
      assert more[..n] == s[..n] && more[n..] == s[n..] + [c];
      WordsBeforeSpace(s[n..], c);
    }
  }

  lemma {:induction false} WordsTrimmedRight(s: Str)
    ensures Words(TrimRight(s)) == Words(s)
  {
    hide Words;
    if s != [] && IsSpace(s[|s| - 1]) {
      WordsTrimmedRight(s[..|s| - 1]);
      WordsBeforeSpace(s[..|s| - 1], s[|s| - 1]);
      assert s == s[..|s| - 1] + [s[|s| - 1]];
    }
  }

  lemma {:induction false} WordsTrimmedLeft(s: Str)
    ensures Words(TrimLeft(s)) == Words(s)
  {
    if s != [] && IsSpace(s[0]) { WordsTrimmedLeft(s[1..]); }
  }

  // ---- The target against the exchange -----------------------------------------------------------

  lemma WordTotal(w: Str)
    requires IsWord(w)
    ensures Total(ParsedName(w)) == LabelBytes(Undotted(w))
  {
    hide Scan;
    TrimmedNoop(w);
    ParsedUndotted(w);
    ScanTotal(Undotted(w), []);
  }

  /** A word behind a space has fewer bytes by itself than in the text around it. */
  lemma BytesAround(a: Str, w: Str, b: Str)
    requires a != [] && IsSpace(a[|a| - 1]) && w != []
    ensures LabelBytes(Undotted(a + w + b)) > LabelBytes(Undotted(w))
  {
    hide LabelBytes, IsSpace;
    if b == [] {
      assert a + w + b == a + w;
      UndottedBehind(a, w);
      BytesBehindSpace(a, Undotted(w));
    } else {
      var body := Undotted(w);
      var tail := w[|body|..] + Undotted(b);
      UndottedBehind(a + w, b);
      assert w == body + w[|body|..];
      assert Undotted(a + w + b) == a + (body + tail);
      BytesBehindSpace(a, body + tail);
      BytesBefore(body, tail);
    }
  }

  /** A text of several words reads as a name with more bytes than its second word does. */
  lemma TextIsLonger(c: Str)
    requires |Words(c)| >= 2
    ensures !Same(ParsedName(c), ParsedName(Words(c)[1]))
  {
    hide Words, Scan, ParsedName, Trimmed, LabelBytes, IsSpace, Same, Total, WordStart, Undotted;
    var t, w := Trimmed(c), Words(c)[1];
    TrimmedHasWords(c);
    WordsAreWords(c);
    WordStands(t, 1);
    var n := WordStart(t, 1);
    assert t == t[..n] + w + t[n + |w|..];
    ParsedUndotted(c);
    ScanTotal(Undotted(t), []);
    WordTotal(w);
    BytesAround(t[..n], w, t[n + |w|..]);
    if Same(ParsedName(c), ParsedName(w)) { SameTotal(ParsedName(c), ParsedName(w)); }
  }

  lemma TrimmedHasWords(c: Str)
    ensures Words(Trimmed(c)) == Words(c)
    ensures |Words(c)| >= 2 ==> Trimmed(c) != []
  {
    WordsTrimmedLeft(c);
    WordsTrimmedRight(TrimLeft(c));
  }

  /**
   The glue of MX, exactly: the name that glue is looked up for is the exchange, the host that
   the text is converted to on the wire, if and only if the text gives no priority in front.
   */
  lemma MxTargetExactly(ntop: Ntop, rr: ResourceRecord)
    ensures var c := Shown(ntop, rr).content;
      Same(Target(ntop, rr), ParsedName(MxHost(c))) <==> MxNumber(c).Throws?
  {
    hide ParsedName, Words, Stoi, Same, Shown;
    var c := Shown(ntop, rr).content;
    if MxNumber(c).Returns? {
      TextIsLonger(c);
    } else {
      SameItself(ParsedName(c));
    }
  }
}
