/**
 What the answer algorithm promises: exactly when it denies a name, the shape of the CNAME
 chains it returns, and that the case of the question makes no difference.
 */
module AnswerProperties {
  import opened DnsNames
  import opened NameCodec
  import opened Records
  import opened Rdata
  import opened Store
  import opened Router
  import opened Answering

  // ---- NXDOMAIN -----------------------------------------------------------------------

  /**
   The wildcard names that are asked about q: one for each ancestor of q up to the apex.  A
   name that is itself the apex and has at most one label still asks about the wildcard of
   the root.
   */
  predicate WildcardOwner(zone: Name, q: Name, k: nat) {
    && k <= |q|
    && (1 <= k <= |q| - |zone| || (|q| == |zone| && |zone| <= 1 && k == |q|))
  }

  /** "*" in front of the parent owns neither the type nor a CNAME. */
  predicate NoWildcard(rrs: Rrs, t: U16, parent: Name) {
    LookedUp(rrs, [[42]] + parent, t) == [] && LookedUp(rrs, [[42]] + parent, TYPE_CNAME) == []
  }

  lemma SuffixBelow(zone: Name, q: Name, k: nat)
    requires IsSubdomainOf(q, zone) && k <= |q| - |zone|
    ensures IsSubdomainOf(q[k..], zone)
  {
    assert q[k..][|q[k..]| - |zone|..] == q[|q| - |zone|..];
  }

  /** One round of the wildcard loop. */
  lemma WildcardStep(rrs: Rrs, zone: Name, t: U16, parent: Name)
    requires IsSubdomainOf(parent, zone)
    ensures WildcardRecords(rrs, zone, t, parent).None? <==>
              NoWildcard(rrs, t, parent)
              && (Same(parent, zone) || parent == ROOT || WildcardRecords(rrs, zone, t, parent[1..]).None?)
  {
    hide LookedUp, IsSubdomainOf, Same;
  }

  lemma {:induction false} ClimbFindsNone(rrs: Rrs, zone: Name, t: U16, q: Name, k: nat)
    requires IsSubdomainOf(q, zone) && k <= |q| - |zone|
    ensures WildcardRecords(rrs, zone, t, q[k..]).None?
            <==> forall j :: k <= j <= |q| - |zone| ==> NoWildcard(rrs, t, q[j..])
    decreases |q| - k
  {
    hide LookedUp, IsSubdomainOf, Same, NoWildcard, WildcardRecords;
    var parent := q[k..];
    SuffixBelow(zone, q, k);
    SuffixIsApex(zone, q, k);
    WildcardStep(rrs, zone, t, parent);
    if k < |q| - |zone| {
      assert parent[1..] == q[k + 1..];
      ClimbFindsNone(rrs, zone, t, q, k + 1);
    }
  }

  /** The climb finds nothing exactly when no wildcard name it asks about owns the type or a CNAME. */
  lemma WildcardsExactly(rrs: Rrs, zone: Name, t: U16, q: Name)
    requires IsSubdomainOf(q, zone)
    ensures WildcardRecords(rrs, zone, t, Parent(q)).None?
            <==> forall k: nat :: WildcardOwner(zone, q, k) ==> NoWildcard(rrs, t, q[k..])
  {
    hide LookedUp, WildcardRecords, NoWildcard, Same;
    if |q| > |zone| {
      ClimbFindsNone(rrs, zone, t, q, 1);
      assert |q| > 1 ==> Parent(q) == q[1..];
      assert |q| == 1 ==> Parent(q) == q[1..];
      if forall k: nat :: WildcardOwner(zone, q, k) ==> NoWildcard(rrs, t, q[k..]) {
        forall j | 1 <= j <= |q| - |zone| ensures NoWildcard(rrs, t, q[j..]) {
          assert WildcardOwner(zone, q, j);
        }
      }
    } else if |q| <= 1 {
      assert Parent(q) == q[|q|..] && WildcardOwner(zone, q, |q|);
      AtRoot(rrs, zone, t);
    } else {
      NotBelowApex(rrs, zone, t, q);
    }
  }

  lemma AtRoot(rrs: Rrs, zone: Name, t: U16)
    ensures WildcardRecords(rrs, zone, t, ROOT).None? <==> NoWildcard(rrs, t, ROOT)
  {
    hide LookedUp;
  }

  lemma NotBelowApex(rrs: Rrs, zone: Name, t: U16, q: Name)
    requires 1 < |q| <= |zone|
    ensures WildcardRecords(rrs, zone, t, Parent(q)).None?
  {
    hide LookedUp;
  }

  /** Nothing that could answer q stands in the zone. */
  ghost predicate Denied(z: MemZone, q: Name, t: U16) {
    var rrs, zone := z.records, z.info.name;
    && (forall k :: 0 <= k < |q| - |zone| ==> !HasNs(rrs, q[k..]))
    && t != TYPE_ANY
    && !NameOwned(rrs, q)
    && (forall k: nat :: WildcardOwner(zone, q, k) ==> NoWildcard(rrs, t, q[k..]))
  }

  /** A name that owns nothing has nothing to chase. */
  lemma UnownedFalls(ntop: Ntop, rrs: Rrs, zone: Name, t: U16, q: Name)
    requires !NameOwned(rrs, q)
    ensures Chased(ntop, rrs, zone, t, q, MAX_HOPS) == Walk([], Fell)
  {
    hide LookedUp, NameOwned;
    if LookedUp(rrs, q, t) != [] { FoundIsOwned(rrs, q, t); }
    if LookedUp(rrs, q, TYPE_CNAME) != [] { FoundIsOwned(rrs, q, TYPE_CNAME); }
  }

  lemma NsIsOwned(rrs: Rrs, q: Name)
    requires HasNs(rrs, q)
    ensures NameOwned(rrs, q)
  {
    var i :| 0 <= i < |rrs| && rrs[i].rtype == TYPE_NS && Same(rrs[i].name, q);
    EqualIsSubdomain(rrs[i].name, q);
  }

  lemma NotCutHere(rrs: Rrs, zone: Name, q: Name)
    requires IsSubdomainOf(q, zone) && !HasNs(rrs, q)
    ensures Cut(rrs, zone, q).Some? ==> !Same(Cut(rrs, zone, q).value, q)
  {
    hide HasNs, IsSubdomainOf, Cut;
    var cut := Cut(rrs, zone, q);
    CutIsDeepest(rrs, zone, q);
    if cut.Some? {
      var k :| 0 <= k < |q| - |zone| && cut.value == q[k..] && HasNs(rrs, q[k..])
               && forall j :: 0 <= j < k ==> !HasNs(rrs, q[j..]);
      assert q[0..] == q;
      assert |LowerName(cut.value)| == |cut.value| < |q| == |LowerName(q)|;
    }
  }

  /** At an unowned name every cut refers, since it lies above the name. */
  lemma CutAtUnowned(z: MemZone, q: Name, t: U16)
    requires IsSubdomainOf(q, z.info.name) && !NameOwned(z.records, q)
    ensures var cut := Cut(z.records, z.info.name, q);
            Refers(cut, q, t) <==> cut.Some?
  {
    hide HasNs, NameOwned, IsSubdomainOf, Cut;
    if HasNs(z.records, q) { NsIsOwned(z.records, q); }
    NotCutHere(z.records, z.info.name, q);
  }

  lemma BodyDenies(ntop: Ntop, z: MemZone, q: Name, t: U16)
    requires IsSubdomainOf(q, z.info.name)
    ensures var b := BodyFor(ntop, Some(z), q, t);
      && (b.rcode == NXDOMAIN <==> Denied(z, q, t))
      && (b.rcode == NXDOMAIN ==>
            b == Body(NXDOMAIN, true, [], LookedUp(z.records, z.info.name, TYPE_SOA), []))
  {
    hide HasNs, NameOwned, IsSubdomainOf, LookedUp, Chased, WildcardRecords, Glue, WildcardOwner, NoWildcard, Cut;
    if !NameOwned(z.records, q) {
      CutAtUnowned(z, q, t);
      UnownedFalls(ntop, z.records, z.info.name, t, q);
      WildcardsExactly(z.records, z.info.name, t, q);
      CutIsDeepest(z.records, z.info.name, q);
    }
  }

  /**
   Negative answers, exactly: the code is NXDOMAIN if and only if a zone matches, no cut lies
   at or above the name, the type is not ANY, nothing is owned at or below the name, and no
   wildcard on the way to the apex owns the type or a CNAME; the answer section is then empty
   and the authority section holds the SOA.
   */
  lemma NxdomainExactly(ntop: Ntop, cfg: Config, zs: seq<Zones>, query: Message)
    requires query.questions != [] && AllKeyed(zs)
    ensures var q := query.questions[0]; var z := View(zs, q.qname); var r := Answered(ntop, cfg, z, query);
      && (r.header.rcode == 3 <==> z.Some? && Denied(z.value, q.qname, q.qtype))
      && (r.header.rcode == 3 ==>
            r.answers == [] && r.header.aa
            && r.authority == LookedUp(z.value.records, z.value.info.name, TYPE_SOA))
  {
    hide AllKeyed, View, BodyFor, Denied, LookedUp, IsSubdomainOf;
    var q := query.questions[0];
    var z := View(zs, q.qname);
    if z.Some? {
      ViewIsSupplied(zs, q.qname);
      BodyDenies(ntop, z.value, q.qname, q.qtype);
    } else {
      NoZoneRefused(ntop, q.qname, q.qtype);
    }
  }

  lemma NoZoneRefused(ntop: Ntop, q: Name, t: U16)
    ensures BodyFor(ntop, None, q, t).rcode == REFUSED
  {
  }

  // ---- CNAME chains ---------------------------------------------------------------------

  /** No name owns two enabled CNAME records. */
  ghost predicate UniqueCnames(rrs: Rrs) {
    forall n: Name :: |LookedUp(rrs, n, TYPE_CNAME)| <= 1
  }

  /** The name that link i of a chain stands for: the start, or the target of the link before. */
  function OwnerAt(ntop: Ntop, start: Name, answers: Rrs, i: nat): Name
    requires i <= |answers|
  {
    if i == 0 then start else Target(ntop, answers[i - 1])
  }

  /** The first n answers are CNAME records of the zone, each owned by the target of the one before. */
  ghost predicate Linked(ntop: Ntop, rrs: Rrs, start: Name, answers: Rrs, n: nat) {
    && n <= |answers|
    && forall i :: 0 <= i < n ==>
         answers[i] in rrs && Answers(answers[i], OwnerAt(ntop, start, answers, i), TYPE_CNAME)
  }

  /** A chain of n CNAMEs that leaves the zone at its last target and only there. */
  ghost predicate LeavesZone(ntop: Ntop, rrs: Rrs, zone: Name, start: Name, answers: Rrs, n: nat) {
    && n == |answers| && n > 0 && Linked(ntop, rrs, start, answers, n)
    && (forall i :: 0 < i < n ==> IsSubdomainOf(OwnerAt(ntop, start, answers, i), zone))
    && !IsSubdomainOf(OwnerAt(ntop, start, answers, n), zone)
  }

  /** A chain of n CNAMEs inside the zone, followed by exactly the records asked for at its end. */
  ghost predicate EndsInData(ntop: Ntop, rrs: Rrs, zone: Name, t: U16, start: Name, answers: Rrs, n: nat) {
    && n <= |answers| && Linked(ntop, rrs, start, answers, n)
    && (forall i :: 0 < i <= n ==> IsSubdomainOf(OwnerAt(ntop, start, answers, i), zone))
    && answers[n..] == LookedUp(rrs, OwnerAt(ntop, start, answers, n), t) && answers[n..] != []
  }

  ghost predicate ChainOf(ntop: Ntop, rrs: Rrs, zone: Name, t: U16, start: Name, w: Walk, n: nat) {
    match w.end
    case LeftZone => LeavesZone(ntop, rrs, zone, start, w.answers, n)
    case Matched(found) => EndsInData(ntop, rrs, zone, t, start, w.answers, n) && found == w.answers[n..]
    case Fell => n == |w.answers| && Linked(ntop, rrs, start, w.answers, n)
  }

  lemma OwnerShift(ntop: Ntop, start: Name, cn: ResourceRecord, answers: Rrs, i: nat)
    requires i <= |answers|
    ensures OwnerAt(ntop, start, [cn] + answers, i + 1) == OwnerAt(ntop, Target(ntop, cn), answers, i)
  {
    hide Target;
  }

  lemma LinkedInFront(ntop: Ntop, rrs: Rrs, start: Name, cn: ResourceRecord, answers: Rrs, n: nat)
    requires cn in rrs && Answers(cn, start, TYPE_CNAME) && Linked(ntop, rrs, Target(ntop, cn), answers, n)
    ensures Linked(ntop, rrs, start, [cn] + answers, n + 1)
  {
    hide Answers, Target, OwnerAt;
    var all := [cn] + answers;
    forall i | 0 <= i < n + 1 ensures all[i] in rrs && Answers(all[i], OwnerAt(ntop, start, all, i), TYPE_CNAME) {
      if i > 0 {
        OwnerShift(ntop, start, cn, answers, i - 1);
        assert all[i] == answers[i - 1];
      } else {
        FirstOwner(ntop, start, all);
      }
    }
  }

  lemma FirstOwner(ntop: Ntop, start: Name, answers: Rrs)
    ensures OwnerAt(ntop, start, answers, 0) == start
  {
  }

  lemma BelowInFront(ntop: Ntop, zone: Name, start: Name, cn: ResourceRecord, answers: Rrs, n: nat)
    requires n <= |answers| + 1 && IsSubdomainOf(Target(ntop, cn), zone)
    requires forall i :: 0 < i < n ==> IsSubdomainOf(OwnerAt(ntop, Target(ntop, cn), answers, i), zone)
    ensures forall i :: 0 < i < n + 1 ==> IsSubdomainOf(OwnerAt(ntop, start, [cn] + answers, i), zone)
  {
    hide Target, OwnerAt, IsSubdomainOf;
    forall i | 0 < i < n + 1 ensures IsSubdomainOf(OwnerAt(ntop, start, [cn] + answers, i), zone) {
      OwnerShift(ntop, start, cn, answers, i - 1);
      FirstOwner(ntop, Target(ntop, cn), answers);
    }
  }

  /** A CNAME in front of a chain makes a longer chain. */
  lemma LinkInFront(ntop: Ntop, rrs: Rrs, zone: Name, t: U16, start: Name, cn: ResourceRecord, w: Walk, n: nat)
    requires cn in rrs && Answers(cn, start, TYPE_CNAME) && IsSubdomainOf(Target(ntop, cn), zone)
    requires ChainOf(ntop, rrs, zone, t, Target(ntop, cn), w, n)
    ensures ChainOf(ntop, rrs, zone, t, start, Following([cn], w), n + 1)
  {
    hide LookedUp, Answers, Target, IsSubdomainOf, OwnerAt, Linked;
    assert n <= |w.answers| by { LinkedFits(ntop, rrs, Target(ntop, cn), w.answers, n); }
    LinkedInFront(ntop, rrs, start, cn, w.answers, n);
    match w.end {
      case LeftZone => BelowInFront(ntop, zone, start, cn, w.answers, n);
      case Matched(_) => BelowInFront(ntop, zone, start, cn, w.answers, n + 1);
      case Fell =>
    }
    OwnerShift(ntop, start, cn, w.answers, n);
    assert ([cn] + w.answers)[n + 1..] == w.answers[n..];
  }

  lemma LinkedFits(ntop: Ntop, rrs: Rrs, start: Name, answers: Rrs, n: nat)
    requires Linked(ntop, rrs, start, answers, n)
    ensures n <= |answers|
  {
  }

  lemma {:induction false} ChaseIsChain(ntop: Ntop, rrs: Rrs, zone: Name, t: U16, at: Name, hops: nat)
    requires UniqueCnames(rrs)
    ensures exists n: nat ::
      n <= hops && ChainOf(ntop, rrs, zone, t, at, Chased(ntop, rrs, zone, t, at, hops), n)
    decreases hops
  {
    hide LookedUp, Answers, Target, IsSubdomainOf;
    var w := Chased(ntop, rrs, zone, t, at, hops);
    if hops == 0 {
      assert ChainOf(ntop, rrs, zone, t, at, w, 0);
    } else {
      var cname := LookedUp(rrs, at, TYPE_CNAME);
      var found := LookedUp(rrs, at, t);
      if t != TYPE_CNAME && cname != [] {
        LookedUpIn(rrs, at, TYPE_CNAME, 0);
        assert cname == [cname[0]];
        var next := Target(ntop, cname[0]);
        if IsSubdomainOf(next, zone) {
          ChaseIsChain(ntop, rrs, zone, t, next, hops - 1);
          var rest := Chased(ntop, rrs, zone, t, next, hops - 1);
          var n: nat :| n <= hops - 1 && ChainOf(ntop, rrs, zone, t, next, rest, n);
          LinkInFront(ntop, rrs, zone, t, at, cname[0], rest, n);
        } else {
          assert ChainOf(ntop, rrs, zone, t, at, w, 1);
        }
      } else {
        assert w.answers[0..] == w.answers;
        assert ChainOf(ntop, rrs, zone, t, at, w, 0);
      }
    }
  }

  /** A response that the chase loop itself returned. */
  predicate FromChase(ntop: Ntop, z: MemZone, q: Name, t: U16) {
    && !Refers(Cut(z.records, z.info.name, q), q, t) && t != TYPE_ANY
    && !Chased(ntop, z.records, z.info.name, t, q, MAX_HOPS).end.Fell?
  }

  /**
   Every response returned from inside the chase loop is a linked chain from the question
   name, of at most eight CNAMEs, that ends at an out-of-zone target or in exactly the
   records of the type at the last target.
   */
  lemma CnameChain(ntop: Ntop, cfg: Config, z: MemZone, query: Message)
    requires query.questions != [] && UniqueCnames(z.records)
    requires FromChase(ntop, z, query.questions[0].qname, query.questions[0].qtype)
    ensures var q := query.questions[0]; var r := Answered(ntop, cfg, Some(z), query);
      && r.header.rcode == NOERROR && r.header.aa && r.authority == []
      && exists n: nat :: n <= MAX_HOPS
           && (LeavesZone(ntop, z.records, z.info.name, q.qname, r.answers, n)
               || EndsInData(ntop, z.records, z.info.name, q.qtype, q.qname, r.answers, n))
  {
    hide LookedUp, Answers, Target, IsSubdomainOf, Chased, Cut, UniqueCnames, LeavesZone, EndsInData, Glue;
    var q := query.questions[0];
    ChaseIsChain(ntop, z.records, z.info.name, q.qtype, q.qname, MAX_HOPS);
    var n: nat :| n <= MAX_HOPS && ChainOf(ntop, z.records, z.info.name, q.qtype, q.qname,
                                           Chased(ntop, z.records, z.info.name, q.qtype, q.qname, MAX_HOPS), n);
  }

  // ---- The case of the question -----------------------------------------------------------

  /** The same records, owner names up to case. */
  predicate Alike(a: Rrs, b: Rrs) {
    |a| == |b| && forall i :: 0 <= i < |a| ==> Same(a[i].name, b[i].name) && a[i] == b[i].(name := a[i].name)
  }

  lemma AlikeRefl(a: Rrs)
    ensures Alike(a, a)
  {
    forall i | 0 <= i < |a| ensures a[i] == a[i].(name := a[i].name) {}
  }

  lemma ChasedSame(ntop: Ntop, rrs: Rrs, zone: Name, t: U16, a: Name, b: Name, hops: nat)
    requires Same(a, b)
    ensures Chased(ntop, rrs, zone, t, a, hops) == Chased(ntop, rrs, zone, t, b, hops)
  {
    hide LookedUp;
    LookedUpSame(rrs, a, b, t);
    LookedUpSame(rrs, a, b, TYPE_CNAME);
  }

  lemma SubdomainSame(a: Name, b: Name, zone: Name)
    requires Same(a, b)
    ensures IsSubdomainOf(a, zone) == IsSubdomainOf(b, zone)
    ensures IsSubdomainOf(zone, a) == IsSubdomainOf(zone, b)
  {
    assert |a| == |LowerName(a)| == |LowerName(b)| == |b|;
    if |a| >= |zone| { SameSuffixes(a, b, |a| - |zone|); }
  }

  lemma {:induction false} WildcardsSame(rrs: Rrs, zone: Name, t: U16, a: Name, b: Name)
    requires Same(a, b)
    ensures WildcardRecords(rrs, zone, t, a) == WildcardRecords(rrs, zone, t, b)
    decreases |a|
  {
    hide LookedUp, IsSubdomainOf;
    SubdomainSame(a, b, zone);
    assert |a| == |LowerName(a)| == |LowerName(b)| == |b|;
    LowerNameConcat([STAR], a);
    LowerNameConcat([STAR], b);
    LookedUpSame(rrs, Wildcard(a), Wildcard(b), t);
    LookedUpSame(rrs, Wildcard(a), Wildcard(b), TYPE_CNAME);
    if a != ROOT {
      SameSuffixes(a, b, 1);
      WildcardsSame(rrs, zone, t, a[1..], b[1..]);
    }
  }

  lemma OwnedSame(rrs: Rrs, a: Name, b: Name)
    requires Same(a, b)
    ensures NameOwned(rrs, a) == NameOwned(rrs, b)
  {
    hide IsSubdomainOf;
    forall i | 0 <= i < |rrs| ensures IsSubdomainOf(rrs[i].name, a) == IsSubdomainOf(rrs[i].name, b) {
      SubdomainSame(a, b, rrs[i].name);
    }
  }

  lemma ParentSame(a: Name, b: Name)
    requires Same(a, b)
    ensures Same(Parent(a), Parent(b))
  {
    assert |a| == |LowerName(a)| == |LowerName(b)| == |b|;
    if |a| > 1 { SameSuffixes(a, b, 1); }
  }

  lemma RenamedAlike(pre: Rrs, rrs: Rrs, a: Name, b: Name)
    requires Same(a, b)
    ensures Alike(pre + Renamed(rrs, a), pre + Renamed(rrs, b))
  {
    var x, y := pre + Renamed(rrs, a), pre + Renamed(rrs, b);
    forall i | 0 <= i < |x| ensures Same(x[i].name, y[i].name) && x[i] == y[i].(name := x[i].name) {
      if i >= |pre| {
        assert x[i] == rrs[i - |pre|].(name := a) && y[i] == rrs[i - |pre|].(name := b);
      }
    }
  }

  /** The same body up to the case of the owner names. */
  predicate AlikeBody(a: Body, b: Body) {
    a.rcode == b.rcode && a.aa == b.aa && Alike(a.answers, b.answers)
    && a.authority == b.authority && a.additional == b.additional
  }

  lemma InZoneAlike(ntop: Ntop, rrs: Rrs, zone: Name, a: Name, b: Name, t: U16)
    requires Same(a, b)
    ensures AlikeBody(InZone(ntop, rrs, zone, a, t), InZone(ntop, rrs, zone, b, t))
  {
    hide LookedUp, Chased, WildcardRecords, NameOwned, Glue, Alike;
    ChasedSame(ntop, rrs, zone, t, a, b, MAX_HOPS);
    ParentSame(a, b);
    WildcardsSame(rrs, zone, t, Parent(a), Parent(b));
    OwnedSame(rrs, a, b);
    var w := Chased(ntop, rrs, zone, t, a, MAX_HOPS);
    AlikeRefl(w.answers);
    var wild := WildcardRecords(rrs, zone, t, Parent(a));
    if wild.Some? { RenamedAlike(w.answers, wild.value, a, b); }
  }

  /** The answer does not depend on the case of the question, except for the case it echoes. */
  lemma BodyAlike(ntop: Ntop, found: Option<MemZone>, a: Name, b: Name, t: U16)
    requires Same(a, b)
    ensures AlikeBody(BodyFor(ntop, found, a, t), BodyFor(ntop, found, b, t))
  {
    hide LookedUp, Chased, WildcardRecords, NameOwned, Glue, InZone, Cut;
    AlikeRefl([]);
    if found.Some? {
      var rrs, zone := found.value.records, found.value.info.name;
      CutSame(rrs, zone, a, b);
      var c, d := Cut(rrs, zone, a), Cut(rrs, zone, b);
      if c.Some? { LookedUpSame(rrs, c.value, d.value, TYPE_NS); }
      InZoneAlike(ntop, rrs, zone, a, b, t);
    }
  }

  lemma {:induction false} ViewSame(zs: seq<Zones>, a: Name, b: Name)
    requires Same(a, b)
    ensures View(zs, a) == View(zs, b)
  {
    RouterFoundSame(zs, a, b);
  }

  lemma {:induction false} RouterFoundSame(zs: seq<Zones>, a: Name, b: Name)
    requires Same(a, b)
    ensures RouterFound(zs, a) == RouterFound(zs, b)
  {
    hide FoundZone;
    if zs != [] {
      RouterFoundSame(zs[..|zs| - 1], a, b);
      FoundZoneSame(zs[|zs| - 1], a, b);
    }
  }
}
