/**
 Where the records of a response come from, and exactly when it is a referral or says that
 a name exists without data.
 */
module AnswerSoundness {
  import opened DnsNames
  import opened NameCodec
  import opened Records
  import opened Rdata
  import opened Store
  import opened Router
  import opened Answering
  import opened AnswerProperties

  // ---- Glue -----------------------------------------------------------------------------

  /** An enabled address record whose owner is the target, and the target lies in the zone. */
  predicate AddressOf(rrs: Rrs, zone: Name, target: Name, rr: ResourceRecord) {
    && rr in rrs && !rr.disabled && (rr.rtype == TYPE_A || rr.rtype == TYPE_AAAA)
    && Same(rr.name, target) && IsSubdomainOf(target, zone)
  }

  lemma GlueForExactly(rrs: Rrs, zone: Name, target: Name, rr: ResourceRecord)
    ensures rr in GlueFor(rrs, zone, target) <==> AddressOf(rrs, zone, target, rr)
  {
    KeptIn(rrs, r => Answers(r, target, TYPE_A), rr);
    KeptIn(rrs, r => Answers(r, target, TYPE_AAAA), rr);
  }

  /** The glue is exactly the in-zone addresses of the names that the whole texts of the records read as. */
  lemma {:induction false} GlueExactly(ntop: Ntop, rrs: Rrs, zone: Name, nsset: Rrs, rr: ResourceRecord)
    ensures rr in Glue(ntop, rrs, zone, nsset)
            <==> exists i :: 0 <= i < |nsset| && AddressOf(rrs, zone, Target(ntop, nsset[i]), rr)
  {
    hide AddressOf, Target, GlueFor;
    if nsset != [] {
      var n := |nsset| - 1;
      GlueExactly(ntop, rrs, zone, nsset[..n], rr);
      GlueForExactly(rrs, zone, Target(ntop, nsset[n]), rr);
      assert forall i :: 0 <= i < n ==> nsset[..n][i] == nsset[i];
    }
  }

  // ---- Referrals ------------------------------------------------------------------------

  /** q[k..] is the deepest name with NS records at or above q and strictly below the apex. */
  predicate DeepestCut(z: MemZone, q: Name, k: nat) {
    && k < |q| - |z.info.name| && HasNs(z.records, q[k..])
    && forall j :: 0 <= j < k ==> !HasNs(z.records, q[j..])
  }

  /** A cut that refers: above the name, or at it unless NS or DS are asked for. */
  predicate RefersAt(z: MemZone, q: Name, t: U16, k: nat) {
    k <= |q| && DeepestCut(z, q, k) && (k > 0 || (t != TYPE_NS && t != TYPE_DS))
  }

  lemma CutIsAt(z: MemZone, q: Name, t: U16, k: nat)
    requires IsSubdomainOf(q, z.info.name) && DeepestCut(z, q, k)
    ensures Cut(z.records, z.info.name, q) == Some(q[k..])
    ensures Refers(Some(q[k..]), q, t) <==> RefersAt(z, q, t, k)
  {
    hide HasNs, IsSubdomainOf, Cut, Same;
    CutIsDeepest(z.records, z.info.name, q);
    var cut := Cut(z.records, z.info.name, q);
    var m :| 0 <= m < |q| - |z.info.name| && cut.value == q[m..] && HasNs(z.records, q[m..])
             && forall j :: 0 <= j < m ==> !HasNs(z.records, q[j..]);
    assert m == k;
    SameOnlyAtZero(q, k);
  }

  lemma SameOnlyAtZero(q: Name, k: nat)
    requires k <= |q|
    ensures Same(q[k..], q) <==> k == 0
  {
    if k == 0 {
      assert q[0..] == q;
    } else {
      assert |LowerName(q[k..])| == |q| - k != |q| == |LowerName(q)|;
    }
  }

  lemma CutRefersExactly(z: MemZone, q: Name, t: U16)
    requires IsSubdomainOf(q, z.info.name)
    ensures Refers(Cut(z.records, z.info.name, q), q, t) <==> exists k: nat :: RefersAt(z, q, t, k)
  {
    hide HasNs, IsSubdomainOf, Cut, Same, Refers;
    var cut := Cut(z.records, z.info.name, q);
    CutIsDeepest(z.records, z.info.name, q);
    if cut.Some? {
      var m: nat :| m < |q| - |z.info.name| && cut.value == q[m..] && HasNs(z.records, q[m..])
               && forall j :: 0 <= j < m ==> !HasNs(z.records, q[j..]);
      assert DeepestCut(z, q, m);
      CutIsAt(z, q, t, m);
      forall k: nat | RefersAt(z, q, t, k) ensures k == m {}
    } else {
      NoCutNoReferral(cut, q, t);
    }
  }

  lemma NoCutNoReferral(cut: Option<Name>, q: Name, t: U16)
    requires cut.None?
    ensures !Refers(cut, q, t)
  {
  }

  /**
   Referrals, exactly: the response is not authoritative and has no error if and only if the
   deepest cut at or above the name refers; it then holds no answers, the NS records of that
   cut, and as glue exactly the in-zone addresses of their targets, before the OPT record.
   */
  lemma ReferralExactly(ntop: Ntop, cfg: Config, zs: seq<Zones>, query: Message)
    requires query.questions != [] && AllKeyed(zs)
    ensures var q := query.questions[0]; var z := View(zs, q.qname); var r := Answered(ntop, cfg, z, query);
      && (!r.header.aa && r.header.rcode == NOERROR
          <==> z.Some? && exists k: nat :: RefersAt(z.value, q.qname, q.qtype, k))
      && forall k: nat :: z.Some? && RefersAt(z.value, q.qname, q.qtype, k) ==>
           var ns := LookedUp(z.value.records, q.qname[k..], TYPE_NS);
           r.answers == [] && r.authority == ns
           && Glue(ntop, z.value.records, z.value.info.name, ns) <= r.additional
  {
    hide AllKeyed, View, LookedUp, IsSubdomainOf, Refers, DeepestCut, Cut, Glue, InZone;
    var q := query.questions[0];
    var z := View(zs, q.qname);
    if z.Some? {
      ViewIsSupplied(zs, q.qname);
      CutRefersExactly(z.value, q.qname, q.qtype);
      InZoneIsAuthoritative(ntop, z.value.records, z.value.info.name, q.qname, q.qtype);
      forall k: nat | RefersAt(z.value, q.qname, q.qtype, k)
        ensures Cut(z.value.records, z.value.info.name, q.qname) == Some(q.qname[k..])
      {
        RefersAtCut(z.value, q.qname, q.qtype, k);
      }
    }
  }

  lemma RefersAtCut(z: MemZone, q: Name, t: U16, k: nat)
    requires IsSubdomainOf(q, z.info.name) && RefersAt(z, q, t, k)
    ensures Cut(z.records, z.info.name, q) == Some(q[k..])
  {
    hide IsSubdomainOf, Cut, DeepestCut;
    CutIsAt(z, q, t, k);
  }

  lemma InZoneIsAuthoritative(ntop: Ntop, rrs: Rrs, zone: Name, q: Name, t: U16)
    ensures InZone(ntop, rrs, zone, q, t).aa
  {
    hide LookedUp, Chased, WildcardRecords, NameOwned, Glue;
  }

  // ---- No data --------------------------------------------------------------------------

  /** The name exists, but nothing answers for it. */
  ghost predicate BareName(z: MemZone, q: Name, t: U16) {
    var rrs, zone := z.records, z.info.name;
    && !(exists k: nat :: RefersAt(z, q, t, k))
    && t != TYPE_ANY
    && LookedUp(rrs, q, t) == [] && LookedUp(rrs, q, TYPE_CNAME) == []
    && (forall k: nat :: WildcardOwner(zone, q, k) ==> NoWildcard(rrs, t, q[k..]))
    && NameOwned(rrs, q)
  }

  /** The chase brings nothing exactly if the name owns neither the type nor a CNAME. */
  lemma EmptyChase(ntop: Ntop, rrs: Rrs, zone: Name, t: U16, q: Name)
    ensures var w := Chased(ntop, rrs, zone, t, q, MAX_HOPS);
      && (w.answers == [] <==> LookedUp(rrs, q, t) == [] && LookedUp(rrs, q, TYPE_CNAME) == [])
      && (w.answers == [] ==> w.end == Fell)
  {
    hide LookedUp, Target, IsSubdomainOf;
    ChaseStep(ntop, rrs, zone, t, q, MAX_HOPS, []);
    var w := Chased(ntop, rrs, zone, t, q, MAX_HOPS);
    assert [] + w.answers == w.answers;
    var cname := LookedUp(rrs, q, TYPE_CNAME);
    if cname != [] && t != TYPE_CNAME {
      assert |w.answers| >= |cname|;
    }
  }

  lemma {:induction false} WildcardsAreRecords(rrs: Rrs, zone: Name, t: U16, parent: Name)
    ensures WildcardRecords(rrs, zone, t, parent).Some? ==> WildcardRecords(rrs, zone, t, parent).value != []
    decreases |parent|
  {
    hide LookedUp, IsSubdomainOf, Same;
    if parent != ROOT { WildcardsAreRecords(rrs, zone, t, parent[1..]); }
  }

  /** NODATA, exactly: an authoritative empty answer without error is given to bare names only, with the SOA. */
  lemma NodataExactly(ntop: Ntop, cfg: Config, zs: seq<Zones>, query: Message)
    requires query.questions != [] && AllKeyed(zs)
    ensures var q := query.questions[0]; var z := View(zs, q.qname); var r := Answered(ntop, cfg, z, query);
      var nodata := r.header.rcode == NOERROR && r.header.aa && r.answers == [];
      && (nodata <==> z.Some? && BareName(z.value, q.qname, q.qtype))
      && (nodata ==> r.authority == LookedUp(z.value.records, z.value.info.name, TYPE_SOA))
  {
    hide AllKeyed, View, LookedUp, IsSubdomainOf, BodyFor, BareName;
    var q := query.questions[0];
    var z := View(zs, q.qname);
    if z.Some? {
      ViewIsSupplied(zs, q.qname);
      BodyIsBare(ntop, z.value, q.qname, q.qtype);
    } else {
      NoZoneRefused(ntop, q.qname, q.qtype);
    }
  }

  lemma BodyIsBare(ntop: Ntop, z: MemZone, q: Name, t: U16)
    requires IsSubdomainOf(q, z.info.name)
    ensures var b := BodyFor(ntop, Some(z), q, t);
      var nodata := b.rcode == NOERROR && b.aa && b.answers == [];
      && (nodata <==> BareName(z, q, t))
      && (nodata ==> b.authority == LookedUp(z.records, z.info.name, TYPE_SOA))
  {
    hide LookedUp, IsSubdomainOf, RefersAt, Refers, Cut, Glue, NameOwned, Chased, WildcardRecords, WildcardOwner,
         NoWildcard;
    CutRefersExactly(z, q, t);
    EmptyChase(ntop, z.records, z.info.name, t, q);
    WildcardsExactly(z.records, z.info.name, t, q);
    WildcardsAreRecords(z.records, z.info.name, t, Parent(q));
  }

  // ---- Where the records come from ------------------------------------------------------

  /** An enabled record of the zone. */
  predicate Enabled(rrs: Rrs, rr: ResourceRecord) {
    rr in rrs && !rr.disabled
  }

  /** rr is an enabled wildcard record on the way from q to the apex, under the name q. */
  ghost predicate Synthesized(z: MemZone, q: Name, rr: ResourceRecord) {
    exists w: ResourceRecord, k: nat ::
      Enabled(z.records, w) && WildcardOwner(z.info.name, q, k) && Same(w.name, Wildcard(q[k..]))
      && rr == w.(name := q)
  }

  lemma FoundIsEnabled(rrs: Rrs, q: Name, t: U16, rr: ResourceRecord)
    requires rr in LookedUp(rrs, q, t) && t != TYPE_ANY
    ensures Enabled(rrs, rr) && rr.rtype == t && Same(rr.name, q)
  {
    KeptIn(rrs, r => Answers(r, q, t), rr);
  }

  lemma {:induction false} ChaseIsEnabled(ntop: Ntop, rrs: Rrs, zone: Name, t: U16, at: Name, hops: nat,
                                          rr: ResourceRecord)
    requires rr in Chased(ntop, rrs, zone, t, at, hops).answers && t != TYPE_ANY
    ensures Enabled(rrs, rr) && (rr.rtype == t || rr.rtype == TYPE_CNAME)
    decreases hops
  {
    hide LookedUp, Target, IsSubdomainOf, Enabled;
    var cname := LookedUp(rrs, at, TYPE_CNAME);
    if t != TYPE_CNAME && cname != [] {
      if rr in cname {
        FoundIsEnabled(rrs, at, TYPE_CNAME, rr);
      } else {
        ChaseIsEnabled(ntop, rrs, zone, t, Target(ntop, cname[0]), hops - 1, rr);
      }
    } else {
      FoundIsEnabled(rrs, at, t, rr);
    }
  }

  lemma {:induction false} ClimbIsEnabled(z: MemZone, t: U16, q: Name, k: nat, rr: ResourceRecord)
    requires IsSubdomainOf(q, z.info.name) && 1 <= k <= |q| - |z.info.name| && t != TYPE_ANY
    requires var r := WildcardRecords(z.records, z.info.name, t, q[k..]); r.Some? && rr in r.value
    ensures Enabled(z.records, rr) && (rr.rtype == t || rr.rtype == TYPE_CNAME)
    ensures exists j: nat :: WildcardOwner(z.info.name, q, j) && Same(rr.name, Wildcard(q[j..]))
    decreases |q| - k
  {
    hide LookedUp, IsSubdomainOf, Same, Enabled;
    var rrs, zone, parent := z.records, z.info.name, q[k..];
    SuffixIsApex(zone, q, k);
    var wild, cname := LookedUp(rrs, Wildcard(parent), t), LookedUp(rrs, Wildcard(parent), TYPE_CNAME);
    if wild != [] || cname != [] {
      FoundIsEnabled(rrs, Wildcard(parent), if wild == [] then TYPE_CNAME else t, rr);
      assert WildcardOwner(zone, q, k);
    } else {
      assert parent[1..] == q[k + 1..];
      ClimbIsEnabled(z, t, q, k + 1, rr);
    }
  }

  lemma WildcardIsEnabled(z: MemZone, t: U16, q: Name, rr: ResourceRecord)
    requires IsSubdomainOf(q, z.info.name) && t != TYPE_ANY
    requires var r := WildcardRecords(z.records, z.info.name, t, Parent(q)); r.Some? && rr in r.value
    ensures Enabled(z.records, rr) && (rr.rtype == t || rr.rtype == TYPE_CNAME)
    ensures exists j: nat :: WildcardOwner(z.info.name, q, j) && Same(rr.name, Wildcard(q[j..]))
  {
    hide LookedUp, Same, Enabled, WildcardRecords, Wildcard;
    if |q| > |z.info.name| {
      assert |q| > 1 ==> Parent(q) == q[1..];
      assert |q| == 1 ==> Parent(q) == q[1..];
      ClimbIsEnabled(z, t, q, 1, rr);
    } else if |q| <= 1 {
      assert Parent(q) == q[|q|..] && WildcardOwner(z.info.name, q, |q|);
      RootIsEnabled(z, t, rr);
    } else {
      NotBelowApex(z.records, z.info.name, t, q);
    }
  }

  lemma RootIsEnabled(z: MemZone, t: U16, rr: ResourceRecord)
    requires t != TYPE_ANY
    requires var r := WildcardRecords(z.records, z.info.name, t, ROOT); r.Some? && rr in r.value
    ensures Enabled(z.records, rr) && (rr.rtype == t || rr.rtype == TYPE_CNAME) && Same(rr.name, Wildcard(ROOT))
  {
    hide LookedUp, Enabled, Same;
    var wild := LookedUp(z.records, Wildcard(ROOT), t);
    FoundIsEnabled(z.records, Wildcard(ROOT), if wild == [] then TYPE_CNAME else t, rr);
  }

  /** An answer that is neither stored nor synthesized is the HINFO record for ANY. */
  ghost predicate Accounted(z: MemZone, q: Name, t: U16, rr: ResourceRecord) {
    if t == TYPE_ANY then rr == Hinfo(q)
    else (rr.rtype == t || rr.rtype == TYPE_CNAME) && (Enabled(z.records, rr) || Synthesized(z, q, rr))
  }

  lemma InZoneAccounted(ntop: Ntop, z: MemZone, q: Name, t: U16, rr: ResourceRecord)
    requires IsSubdomainOf(q, z.info.name) && t != TYPE_ANY
    requires rr in InZone(ntop, z.records, z.info.name, q, t).answers
    ensures Accounted(z, q, t, rr)
  {
    hide LookedUp, IsSubdomainOf, Chased, WildcardRecords, NameOwned, Glue, Enabled, Same, WildcardOwner, Wildcard;
    var w := Chased(ntop, z.records, z.info.name, t, q, MAX_HOPS);
    if rr in w.answers {
      ChaseIsEnabled(ntop, z.records, z.info.name, t, q, MAX_HOPS, rr);
    } else {
      var wild := WildcardRecords(z.records, z.info.name, t, Parent(q));
      var i :| 0 <= i < |wild.value| && rr == wild.value[i].(name := q);
      WildcardIsEnabled(z, t, q, wild.value[i]);
    }
  }

  /**
   Soundness: every answer is of the type asked for or a CNAME, and is an enabled record of
   the zone, or one of a wildcard on the way to the apex under the question name; ANY gets
   the HINFO record alone.  Every authority record is an enabled NS or SOA record of the zone.
   */
  lemma AnswersAreAccounted(ntop: Ntop, cfg: Config, zs: seq<Zones>, query: Message, rr: ResourceRecord)
    requires query.questions != [] && AllKeyed(zs) && View(zs, query.questions[0].qname).Some?
    ensures var q := query.questions[0]; var z := View(zs, q.qname).value; var r := Answered(ntop, cfg, Some(z), query);
      && (rr in r.answers ==> Accounted(z, q.qname, q.qtype, rr))
      && (rr in r.authority ==> Enabled(z.records, rr) && (rr.rtype == TYPE_NS || rr.rtype == TYPE_SOA))
  {
    hide AllKeyed, View, LookedUp, IsSubdomainOf, Cut, InZone, Accounted, Enabled, Glue, Same;
    var q := query.questions[0];
    var z := View(zs, q.qname).value;
    var r := Answered(ntop, cfg, Some(z), query);
    ViewIsSupplied(zs, q.qname);
    var cut := Cut(z.records, z.info.name, q.qname);
    if Refers(cut, q.qname, q.qtype) {
      if rr in r.authority { FoundIsEnabled(z.records, cut.value, TYPE_NS, rr); }
    } else if q.qtype == TYPE_ANY {
      AnyIsAccounted(z, q.qname);
    } else {
      if rr in r.answers { InZoneAccounted(ntop, z, q.qname, q.qtype, rr); }
      InZoneAuthority(ntop, z.records, z.info.name, q.qname, q.qtype, rr);
    }
  }

  lemma AnyIsAccounted(z: MemZone, q: Name)
    ensures Accounted(z, q, TYPE_ANY, Hinfo(q))
  {
  }

  lemma InZoneAuthority(ntop: Ntop, rrs: Rrs, zone: Name, q: Name, t: U16, rr: ResourceRecord)
    ensures rr in InZone(ntop, rrs, zone, q, t).authority ==> Enabled(rrs, rr) && rr.rtype == TYPE_SOA
  {
    hide LookedUp, Chased, WildcardRecords, NameOwned, Glue, Enabled;
    if rr in LookedUp(rrs, zone, TYPE_SOA) { FoundIsEnabled(rrs, zone, TYPE_SOA, rr); }
  }
}
