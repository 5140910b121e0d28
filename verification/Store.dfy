/**
 The in-memory backend of src/simple-dnsd/backend/memory.cpp: zones keyed by the lower-case
 text of their name, records in insertion order, and the searches the engine asks for.
 */
module Store {
  import opened Text
  import opened DnsNames
  import opened NameCodec
  import opened Compression
  import opened Records

  type Rrs = seq<ResourceRecord>

  datatype ZoneInfo = ZoneInfo(id: int, name: Name, slave: bool, master: Str)

  datatype MemZone = MemZone(info: ZoneInfo, records: Rrs)

  /** std::map from toLowerString() of the zone name; the order of its keys is not modelled. */
  type Zones = map<Str, MemZone>

  // ---- Keys -----------------------------------------------------------------

  /** DnsName::toLowerString. */
  function Key(n: Name): Str {
    Lowered(ToText(n, true))
  }

  lemma {:induction false} LoweredJoined(n: Name)
    ensures Lowered(Joined(n, [DOT])) == Joined(LowerName(n), [DOT])
  {
    if |n| > 1 {
      LoweredJoined(n[1..]);
      assert LowerName(n)[1..] == LowerName(n[1..]);
      LoweredConcat(n[0], [DOT]);
      LoweredConcat(n[0] + [DOT], Joined(n[1..], [DOT]));
      assert Lowered([DOT]) == [DOT];
    }
  }

  lemma KeyIsSuffixKey(n: Name)
    ensures Key(n) == if n == ROOT then [DOT] else SuffixKey(n) + [DOT]
  {
    LoweredJoined(n);
    LoweredConcat(Joined(n, [DOT]), [DOT]);
    assert Lowered([DOT]) == [DOT];
  }

  /** Equal names share their key, whatever their labels hold. */
  lemma SameKeyText(a: Name, b: Name)
    requires Same(a, b)
    ensures Key(a) == Key(b)
  {
    KeyIsSuffixKey(a);
    KeyIsSuffixKey(b);
    assert |a| == |LowerName(a)| == |LowerName(b)| == |b|;
  }

  /** The key of a plain name parses back to its labels in lower case. */
  lemma KeyParsed(n: Name)
    requires PlainName(n)
    ensures ParsedName(Key(n)) == LowerName(n)
  {
    KeyIsSuffixKey(n);
    if n == ROOT {
      TrimmedNoop([DOT]);
    } else {
      KeyLabelsOfSuffix(n);
    }
  }

  /** Plain names share their key exactly when they are equal. */
  lemma KeyInjective(a: Name, b: Name)
    requires PlainName(a) && PlainName(b)
    ensures Key(a) == Key(b) <==> Same(a, b)
  {
    KeyParsed(a);
    KeyParsed(b);
    if Same(a, b) { SameKeyText(a, b); }
  }

  /** Every zone stands under its own key. */
  predicate Keyed(zones: Zones) {
    forall k :: k in zones ==> k == Key(zones[k].info.name)
  }

  /** A table with one zone and no records. */
  function OneZone(n: Name): Zones {
    map[Key(n) := MemZone(ZoneInfo(1, n, false, []), [])]
  }

  // ---- Searches over the records of a zone ------------------------------------

  /** The records that satisfy p, in order. */
  function Kept(rrs: Rrs, p: ResourceRecord -> bool): Rrs {
    if rrs == [] then []
    else Kept(rrs[..|rrs| - 1], p) + (if p(rrs[|rrs| - 1]) then [rrs[|rrs| - 1]] else [])
  }

  /** The records that a lookup of name q and type t returns. */
  predicate Answers(rr: ResourceRecord, q: Name, t: U16) {
    !rr.disabled && Same(rr.name, q) && (t == TYPE_ANY || rr.rtype == t)
  }

  /** Backend::lookup. */
  function LookedUp(rrs: Rrs, q: Name, t: U16): Rrs {
    Kept(rrs, rr => Answers(rr, q, t))
  }

  /** Backend::nameExists: some record, disabled or not, is owned at or below q. */
  predicate NameOwned(rrs: Rrs, q: Name) {
    exists i :: 0 <= i < |rrs| && IsSubdomainOf(rrs[i].name, q)
  }

  predicate HasNs(rrs: Rrs, q: Name) {
    exists i :: 0 <= i < |rrs| && rrs[i].rtype == TYPE_NS && Same(rrs[i].name, q)
  }

  /** Backend::findDelegation: the first name with an NS record on the way up from q to the apex. */
  function Cut(rrs: Rrs, zone: Name, q: Name): Option<Name> {
    if Same(q, zone) || q == ROOT then None
    else if HasNs(rrs, q) then Some(q)
    else Cut(rrs, zone, q[1..])
  }

  /** The zone whose name is the longest suffix of q that names a zone. */
  function FoundZone(zones: Zones, q: Name): Option<MemZone> {
    if Key(q) in zones && Same(zones[Key(q)].info.name, q) then Some(zones[Key(q)])
    else if q == ROOT then None
    else FoundZone(zones, q[1..])
  }

  // ---- What the searches find -------------------------------------------------

  lemma {:induction false} KeptIn(rrs: Rrs, p: ResourceRecord -> bool, rr: ResourceRecord)
    ensures rr in Kept(rrs, p) <==> rr in rrs && p(rr)
  {
    if rrs != [] {
      var init := rrs[..|rrs| - 1];
      KeptIn(init, p, rr);
      assert rrs == init + [rrs[|rrs| - 1]];
    }
  }

  lemma {:induction false} KeptSame(rrs: Rrs, p: ResourceRecord -> bool, q: ResourceRecord -> bool)
    requires forall i :: 0 <= i < |rrs| ==> p(rrs[i]) == q(rrs[i])
    ensures Kept(rrs, p) == Kept(rrs, q)
  {
    if rrs != [] {
      KeptSame(rrs[..|rrs| - 1], p, q);
    }
  }

  lemma {:induction false} KeptConcat(a: Rrs, b: Rrs, p: ResourceRecord -> bool)
    ensures Kept(a + b, p) == Kept(a, p) + Kept(b, p)
  {
    if b == [] {
      assert a + b == a;
    } else {
      var init := b[..|b| - 1];
      KeptConcat(a, init, p);
      assert (a + b)[..|a + b| - 1] == a + init;
    }
  }

  lemma KeptHead(rrs: Rrs, p: ResourceRecord -> bool)
    requires rrs != []
    ensures Kept(rrs, p) == (if p(rrs[0]) then [rrs[0]] else []) + Kept(rrs[1..], p)
  {
    assert rrs == [rrs[0]] + rrs[1..];
    KeptConcat([rrs[0]], rrs[1..], p);
    assert [rrs[0]][..0] == [];
    assert Kept([], p) == [];
  }

  /** Lookups do not see the case of the name. */
  lemma LookedUpSame(rrs: Rrs, a: Name, b: Name, t: U16)
    requires Same(a, b)
    ensures LookedUp(rrs, a, t) == LookedUp(rrs, b, t)
  {
    KeptSame(rrs, rr => Answers(rr, a, t), rr => Answers(rr, b, t));
  }

  lemma LookedUpIn(rrs: Rrs, q: Name, t: U16, i: nat)
    requires i < |LookedUp(rrs, q, t)|
    ensures LookedUp(rrs, q, t)[i] in rrs && Answers(LookedUp(rrs, q, t)[i], q, t)
  {
    KeptIn(rrs, rr => Answers(rr, q, t), LookedUp(rrs, q, t)[i]);
  }

  /** A lookup that finds something finds it at an owned name. */
  lemma FoundIsOwned(rrs: Rrs, q: Name, t: U16)
    requires LookedUp(rrs, q, t) != []
    ensures NameOwned(rrs, q)
  {
    var rr := LookedUp(rrs, q, t)[0];
    LookedUpIn(rrs, q, t, 0);
    var i :| 0 <= i < |rrs| && rrs[i] == rr;
    EqualIsSubdomain(rr.name, q);
  }

  lemma EqualIsSubdomain(n: Name, zone: Name)
    requires Same(n, zone)
    ensures IsSubdomainOf(n, zone)
  {
    assert |n| == |LowerName(n)| == |LowerName(zone)| == |zone|;
    assert n[0..] == n;
  }

  /** In a zone at or above q, only the apex suffix of q equals the zone. */
  lemma SuffixIsApex(zone: Name, q: Name, k: nat)
    requires IsSubdomainOf(q, zone) && k <= |q|
    ensures Same(q[k..], zone) <==> k == |q| - |zone|
  {
    if Same(q[k..], zone) {
      assert |q[k..]| == |LowerName(q[k..])| == |LowerName(zone)| == |zone|;
    }
  }

  /** findDelegation, exactly: the deepest NS owner strictly below the apex, if there is one. */
  lemma {:induction false} CutIsDeepest(rrs: Rrs, zone: Name, q: Name)
    requires IsSubdomainOf(q, zone)
    ensures Cut(rrs, zone, q).None? <==> forall k :: 0 <= k < |q| - |zone| ==> !HasNs(rrs, q[k..])
    ensures Cut(rrs, zone, q).Some? ==>
      (exists k :: 0 <= k < |q| - |zone| && Cut(rrs, zone, q).value == q[k..] && HasNs(rrs, q[k..])
                   && forall j :: 0 <= j < k ==> !HasNs(rrs, q[j..]))
    decreases |q|
  {
    hide HasNs;
    SuffixIsApex(zone, q, 0);
    assert q[0..] == q;
    if |q| > |zone| {
      var up := q[1..];
      assert up[|up| - |zone|..] == q[|q| - |zone|..];
      CutIsDeepest(rrs, zone, up);
      forall k | 0 <= k < |up| ensures up[k..] == q[k + 1..] {}
      if HasNs(rrs, q) {
      } else if Cut(rrs, zone, up).None? {
        forall k | 0 <= k < |q| - |zone| ensures !HasNs(rrs, q[k..]) {
          if k > 0 { assert q[k..] == up[k - 1..]; }
        }
      } else {
        DeeperCut(rrs, zone, q);
      }
    }
  }

  lemma DeeperCut(rrs: Rrs, zone: Name, q: Name)
    requires |q| > |zone| && !HasNs(rrs, q)
    requires var up := q[1..];
      (exists k :: 0 <= k < |up| - |zone| && Cut(rrs, zone, up).Some? && Cut(rrs, zone, up).value == up[k..]
                   && HasNs(rrs, up[k..]) && forall j :: 0 <= j < k ==> !HasNs(rrs, up[j..]))
    ensures var up := q[1..];
      (exists k :: 0 <= k < |q| - |zone| && Cut(rrs, zone, up).value == q[k..] && HasNs(rrs, q[k..])
                   && forall j :: 0 <= j < k ==> !HasNs(rrs, q[j..]))
  {
    hide HasNs, Cut;
    var up := q[1..];
    var k :| 0 <= k < |up| - |zone| && Cut(rrs, zone, up).value == up[k..]
             && HasNs(rrs, up[k..]) && forall j :: 0 <= j < k ==> !HasNs(rrs, up[j..]);
    assert up[k..] == q[k + 1..];
    forall j | 0 <= j < k + 1 ensures !HasNs(rrs, q[j..]) {
      if j > 0 { assert q[j..] == up[j - 1..]; } else { assert q[0..] == q; }
    }
  }

  lemma CutSame(rrs: Rrs, zone: Name, a: Name, b: Name)
    requires Same(a, b)
    ensures Cut(rrs, zone, a).Some? == Cut(rrs, zone, b).Some?
    ensures Cut(rrs, zone, a).Some? ==> Same(Cut(rrs, zone, a).value, Cut(rrs, zone, b).value)
    decreases |a|
  {
    assert |a| == |LowerName(a)| == |LowerName(b)| == |b|;
    if a != ROOT {
      SameSuffixes(a, b, 1);
      CutSame(rrs, zone, a[1..], b[1..]);
    }
  }

  // ---- Zone search --------------------------------------------------------------

  /** r is the zone with the most labels among those that contain q, and nothing if none does. */
  ghost predicate LongestMatch(zones: Zones, q: Name, r: Option<MemZone>) {
    match r
    case None => forall k :: k in zones ==> !IsSubdomainOf(q, zones[k].info.name)
    case Some(z) =>
      && Key(z.info.name) in zones && zones[Key(z.info.name)] == z && IsSubdomainOf(q, z.info.name)
      && forall k :: k in zones && IsSubdomainOf(q, zones[k].info.name) ==> |zones[k].info.name| <= |z.info.name|
  }

  lemma {:induction false} FoundIsLongest(zones: Zones, q: Name)
    requires Keyed(zones)
    ensures LongestMatch(zones, q, FoundZone(zones, q))
  {
    hide Key;
    assert q[0..] == q;
    if Key(q) in zones && Same(zones[Key(q)].info.name, q) {
      var z := zones[Key(q)];
      SameKeyText(z.info.name, q);
      SameSymmetric(z.info.name, q);
      EqualIsSubdomain(q, z.info.name);
    } else {
      forall k | k in zones && IsSubdomainOf(q, zones[k].info.name)
        ensures q != ROOT && IsSubdomainOf(q[1..], zones[k].info.name)
      {
        var name := zones[k].info.name;
        if |name| == |q| {
          assert Same(q, name);
          SameKeyText(q, name);
          SameSymmetric(q, name);
          assert false;
        }
        assert q[1..][|q[1..]| - |name|..] == q[|q| - |name|..];
      }
      if q != ROOT {
        FoundIsLongest(zones, q[1..]);
        var r := FoundZone(zones, q[1..]);
        if r.Some? {
          assert q[1..][|q[1..]| - |r.value.info.name|..] == q[|q| - |r.value.info.name|..];
        }
      }
    }
  }

  lemma SameItself(n: Name)
    ensures Same(n, n)
  {
  }

  lemma SameTurned(a: Name, b: Name)
    ensures Same(a, b) <==> Same(b, a)
  {
  }

  lemma SameSymmetric(a: Name, b: Name)
    requires Same(a, b)
    ensures Same(b, a)
  {
  }

  /** A zone is determined by having the most labels: two suffixes of q of one length are equal. */
  lemma LongestIsUnique(zones: Zones, q: Name, r: Option<MemZone>, s: Option<MemZone>)
    requires Keyed(zones) && LongestMatch(zones, q, r) && LongestMatch(zones, q, s)
    ensures r == s
  {
    hide Key;
    if r.Some? && s.Some? {
      var a, b := r.value.info.name, s.value.info.name;
      assert |a| == |b|;
      assert Same(a, b) by { assert LowerName(a) == LowerName(q[|q| - |a|..]) == LowerName(b); }
      SameKeyText(a, b);
    }
  }

  lemma FoundZoneSame(zones: Zones, a: Name, b: Name)
    requires Same(a, b)
    ensures FoundZone(zones, a) == FoundZone(zones, b)
    decreases |a|
  {
    hide Key;
    assert |a| == |LowerName(a)| == |LowerName(b)| == |b|;
    SameKeyText(a, b);
    if a != ROOT {
      SameSuffixes(a, b, 1);
      FoundZoneSame(zones, a[1..], b[1..]);
    }
  }
}
