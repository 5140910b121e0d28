/**
 Tables with one or two zones of few records, and what is answered from them: the inputs at
 which laws of the answer algorithm and of the cache end.
 */
module SmallZones {
  import opened DnsNames
  import opened NameCodec
  import opened Records
  import opened Rdata
  import opened MessageRoundTrip
  import opened Store
  import opened Router
  import opened Answering
  import opened PlainAnswers

  // ---- Tables of one backend ----------------------------------------------------------------------

  lemma ViewIsFound(zs: seq<Zones>, q: Name)
    requires AllKeyed(zs) && |zs| == 1
    ensures View(zs, q) == FoundZone(zs[0], q)
  {
    hide FoundZone, IsSubdomainOf, OwnerIndex, Keyed, OwnedRecords;
    assert zs[..0] == [];
    if View(zs, q).Some? { ViewIsSupplied(zs, q); }
  }

  lemma FoundItself(zones: Zones, name: Name)
    requires Key(name) in zones && zones[Key(name)].info.name == name
    ensures FoundZone(zones, name) == Some(zones[Key(name)])
  {
  }

  lemma OneZoneViews(name: Name, q: Name)
    ensures AllKeyed([OneZone(name)])
    ensures View([OneZone(name)], name) == Some(MemZone(ZoneInfo(1, name, false, []), []))
    ensures !IsSubdomainOf(q, name) ==> View([OneZone(name)], q).None?
  {
    hide Key, FoundZone, IsSubdomainOf;
    assert AllKeyed([OneZone(name)]);
    ViewIsFound([OneZone(name)], name);
    ViewIsFound([OneZone(name)], q);
    FoundItself(OneZone(name), name);
    FoundIsLongest(OneZone(name), q);
  }

  /** The root zone with these records, and below it perhaps an empty zone. */
  function RootZone(rrs: Rrs): MemZone {
    MemZone(ZoneInfo(1, ROOT, false, []), rrs)
  }

  function RootTable(rrs: Rrs): Zones {
    map[Key(ROOT) := RootZone(rrs)]
  }

  function RootAndZone(rrs: Rrs, name: Name): Zones {
    RootTable(rrs)[Key(name) := MemZone(ZoneInfo(2, name, false, []), [])]
  }

  lemma RootViews(rrs: Rrs, q: Name)
    ensures AllKeyed([RootTable(rrs)]) && View([RootTable(rrs)], q) == Some(RootZone(rrs))
  {
    hide Key, FoundZone, IsSubdomainOf;
    assert AllKeyed([RootTable(rrs)]);
    ViewIsFound([RootTable(rrs)], q);
    FoundIsLongest(RootTable(rrs), q);
    RootContains(q);
    assert Key(ROOT) in RootTable(rrs);
  }

  lemma RootAndZoneViews(rrs: Rrs, name: Name, q: Name)
    requires Key(name) != Key(ROOT) && !IsSubdomainOf(q, name)
    ensures var zs := [RootAndZone(rrs, name)];
      && AllKeyed(zs) && View(zs, q) == Some(RootZone(rrs))
      && View(zs, name) == Some(MemZone(ZoneInfo(2, name, false, []), []))
  {
    hide Key, FoundZone, IsSubdomainOf;
    var zones := RootAndZone(rrs, name);
    assert AllKeyed([zones]);
    ViewIsFound([zones], q);
    ViewIsFound([zones], name);
    FoundItself(zones, name);
    FoundIsLongest(zones, q);
    RootContains(q);
    assert Key(ROOT) in zones;
  }

  // ---- Answers from small zones -------------------------------------------------------------------

  lemma NotOwned(rrs: Rrs, q: Name, t: U16)
    requires forall i :: 0 <= i < |rrs| ==> !Same(rrs[i].name, q)
    ensures LookedUp(rrs, q, t) == []
  {
    hide LookedUp, Same;
    if LookedUp(rrs, q, t) != [] { LookedUpIn(rrs, q, t, 0); }
  }

  lemma NothingLookedUp()
    ensures forall q: Name, t: U16 :: LookedUp([], q, t) == []
  {
  }

  lemma {:induction false} NoNsNoCut(rrs: Rrs, zone: Name, q: Name)
    requires forall i :: 0 <= i < |rrs| ==> rrs[i].rtype != TYPE_NS
    ensures Cut(rrs, zone, q).None?
    decreases |q|
  {
    hide Same;
    if q != ROOT { NoNsNoCut(rrs, zone, q[1..]); }
  }

  /** A zone without records answers with authority, with no error or a name error, and but for ANY with no records. */
  lemma EmptyZoneBody(ntop: Ntop, info: ZoneInfo, q: Name, t: U16)
    ensures var b := BodyFor(ntop, Some(MemZone(info, [])), q, t);
      && b.aa && b.authority == []
      && if t == TYPE_ANY then b.rcode == NOERROR && b.answers == [Hinfo(q)] else b.rcode == NXDOMAIN && b.answers == []
  {
    hide LookedUp, Same, Wildcard;
    NothingLookedUp();
    NoNsNoCut([], info.name, q);
    EmptyClimb(info.name, t, Parent(q));
  }

  lemma {:induction false} EmptyClimb(zone: Name, t: U16, parent: Name)
    ensures WildcardRecords([], zone, t, parent).None?
    decreases |parent|
  {
    hide LookedUp, Same, Wildcard, IsSubdomainOf;
    NothingLookedUp();
    if parent != ROOT { EmptyClimb(zone, t, parent[1..]); }
  }

  lemma NoZoneBody(ntop: Ntop, q: Name, t: U16)
    ensures !BodyFor(ntop, None, q, t).aa
  {
  }

  /** The SOA record of the root. */
  function RootSoa(): ResourceRecord {
    WireRecord(ROOT, TYPE_SOA, CLASS_IN, 3600, [0])
  }

  /** A root zone with its SOA alone denies every name below. */
  lemma RootDenies(ntop: Ntop, q: Name, t: U16)
    requires q != ROOT && t != TYPE_ANY
    ensures BodyFor(ntop, Some(RootZone([RootSoa()])), q, t) == Body(NXDOMAIN, true, [], [RootSoa()], [])
  {
    hide LookedUp, Wildcard;
    var rrs := [RootSoa()];
    LengthDiffers(ROOT, q);
    NotOwned(rrs, q, t);
    NotOwned(rrs, q, TYPE_CNAME);
    NoNsNoCut(rrs, ROOT, q);
    RootClimb(rrs, t, Parent(q));
    SoaFound();
    assert !NameOwned(rrs, q);
  }

  lemma LengthDiffers(a: Name, b: Name)
    requires |a| != |b|
    ensures !Same(a, b)
  {
    assert |LowerName(a)| == |a| && |LowerName(b)| == |b|;
  }

  lemma SoaFound()
    ensures LookedUp([RootSoa()], ROOT, TYPE_SOA) == [RootSoa()]
  {
    assert [RootSoa()][..0] == [];
  }

  lemma {:induction false} RootClimb(rrs: Rrs, t: U16, parent: Name)
    requires rrs == [RootSoa()]
    ensures WildcardRecords(rrs, ROOT, t, parent).None?
    decreases |parent|
  {
    hide LookedUp, IsSubdomainOf, Same;
    LengthDiffers(ROOT, Wildcard(parent));
    NotOwned(rrs, Wildcard(parent), t);
    NotOwned(rrs, Wildcard(parent), TYPE_CNAME);
    if parent != ROOT { RootClimb(rrs, t, parent[1..]); }
  }

  /** A CNAME record at the wildcard of the root. */
  function RootWildcard(): ResourceRecord {
    WireRecord(Wildcard(ROOT), TYPE_CNAME, CLASS_IN, 3600, [0])
  }

  /** That wildcard is the answer to every question but ANY for a name that is not the wildcard itself. */
  lemma WildcardAnswers(ntop: Ntop, q: Name, t: U16)
    requires t != TYPE_ANY && !Same(Wildcard(ROOT), q)
    ensures BodyFor(ntop, Some(RootZone([RootWildcard()])), q, t)
            == Body(NOERROR, true, [RootWildcard().(name := q)], [], [])
  {
    hide LookedUp, IsSubdomainOf, Same, Wildcard;
    var rrs := [RootWildcard()];
    NotOwned(rrs, q, t);
    NotOwned(rrs, q, TYPE_CNAME);
    NoNsNoCut(rrs, ROOT, q);
    RootContains(q);
    WildcardClimb(rrs, t, Parent(q));
    assert Renamed(rrs, q) == [RootWildcard().(name := q)];
    assert [] + Renamed(rrs, q) == Renamed(rrs, q);
  }

  lemma {:induction false} WildcardClimb(rrs: Rrs, t: U16, parent: Name)
    requires rrs == [RootWildcard()] && t != TYPE_ANY
    ensures WildcardRecords(rrs, ROOT, t, parent) == Some(rrs)
    decreases |parent|
  {
    hide LookedUp, IsSubdomainOf;
    RootContains(parent);
    if parent == ROOT {
      WildcardFound(t);
    } else {
      LengthDiffers(Wildcard(ROOT), Wildcard(parent));
      NotOwned(rrs, Wildcard(parent), t);
      NotOwned(rrs, Wildcard(parent), TYPE_CNAME);
      LengthDiffers(parent, ROOT);
      WildcardClimb(rrs, t, parent[1..]);
    }
  }

  lemma WildcardFound(t: U16)
    ensures LookedUp([RootWildcard()], Wildcard(ROOT), TYPE_CNAME) == [RootWildcard()]
    ensures t != TYPE_ANY ==>
              LookedUp([RootWildcard()], Wildcard(ROOT), t) == if t == TYPE_CNAME then [RootWildcard()] else []
  {
    assert [RootWildcard()][..0] == [];
  }

  // ---- That they are small and plain ----------------------------------------------------------------

  lemma OnePlain(rr: ResourceRecord)
    requires PlainRecord(rr)
    ensures PlainRecords([rr]) && SmallSets([rr], MAX_RRSET)
  {
    SmallTable([rr]);
  }

  lemma SmallTable(rrs: Rrs)
    requires |rrs| <= MAX_RRSET
    ensures SmallSets(rrs, MAX_RRSET)
  {
    hide LookedUp;
    forall q: Name, t: U16 ensures |LookedUp(rrs, q, t)| <= MAX_RRSET { FewLookedUp(rrs, q, t); }
  }

  lemma {:induction false} FewLookedUp(rrs: Rrs, q: Name, t: U16)
    ensures |LookedUp(rrs, q, t)| <= |rrs|
  {
    KeptNoMore(rrs, rr => Answers(rr, q, t));
  }

  lemma {:induction false} KeptNoMore(rrs: Rrs, p: ResourceRecord -> bool)
    ensures |Kept(rrs, p)| <= |rrs|
  {
    if rrs != [] { KeptNoMore(rrs[..|rrs| - 1], p); }
  }

  lemma SmallRecordsPlain()
    ensures PlainRecord(RootSoa()) && PlainRecord(RootWildcard())
  {
  }
}
