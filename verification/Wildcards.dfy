/**
 What a wildcard answers: the records of the nearest one on the way to the apex, under the
 name that was asked for.
 */
module Wildcards {
  import opened DnsNames
  import opened NameCodec
  import opened Records
  import opened Rdata
  import opened Store
  import opened Answering
  import opened AnswerProperties
  import opened AnswerSoundness
  import opened Chases

  /** The wildcard k labels up owns the type or a CNAME, and no wildcard closer to q does. */
  ghost predicate Nearest(z: MemZone, q: Name, t: U16, k: nat) {
    && WildcardOwner(z.info.name, q, k) && !NoWildcard(z.records, t, q[k..])
    && forall j: nat :: j < k && WildcardOwner(z.info.name, q, j) ==> NoWildcard(z.records, t, q[j..])
  }

  /** The records of the type that the wildcard over a parent owns, or else its CNAMEs. */
  function Offered(rrs: Rrs, t: U16, parent: Name): Rrs {
    var wild := LookedUp(rrs, [[42]] + parent, t);
    if wild != [] then wild else LookedUp(rrs, [[42]] + parent, 5)
  }

  lemma {:induction false} ClimbFinds(rrs: Rrs, zone: Name, t: U16, q: Name, j: nat, k: nat)
    requires IsSubdomainOf(q, zone) && j <= k <= |q| - |zone|
    requires !NoWildcard(rrs, t, q[k..]) && forall i :: j <= i < k ==> NoWildcard(rrs, t, q[i..])
    ensures WildcardRecords(rrs, zone, t, q[j..]) == Some(Offered(rrs, t, q[k..]))
    decreases k - j
  {
    hide LookedUp, IsSubdomainOf, Same;
    SuffixBelow(zone, q, j);
    SuffixIsApex(zone, q, j);
    if j < k {
      assert q[j..][1..] == q[j + 1..];
      ClimbFinds(rrs, zone, t, q, j + 1, k);
    }
  }

  lemma NearestIsFound(z: MemZone, q: Name, t: U16, k: nat)
    requires IsSubdomainOf(q, z.info.name) && Nearest(z, q, t, k)
    ensures WildcardRecords(z.records, z.info.name, t, Parent(q)) == Some(Offered(z.records, t, q[k..]))
  {
    hide LookedUp, WildcardRecords, NoWildcard, Same;
    if |q| > |z.info.name| {
      assert Parent(q) == q[1..];
      forall i | 1 <= i < k ensures NoWildcard(z.records, t, q[i..]) {
        assert WildcardOwner(z.info.name, q, i);
      }
      ClimbFinds(z.records, z.info.name, t, q, 1, k);
    } else {
      assert Parent(q) == ROOT && q[k..] == ROOT;
      RootIsFound(z, t);
    }
  }

  lemma RootIsFound(z: MemZone, t: U16)
    requires !NoWildcard(z.records, t, ROOT)
    ensures WildcardRecords(z.records, z.info.name, t, ROOT) == Some(Offered(z.records, t, ROOT))
  {
    hide LookedUp;
  }

  /**
   A name that nothing refers and that owns neither the type nor a CNAME is answered with
   exactly the records of the nearest wildcard that owns one of them, in order and under the
   name itself; the type goes before the CNAME.
   */
  lemma NearestWildcardAnswers(ntop: Ntop, cfg: Config, z: MemZone, query: Message, k: nat)
    requires query.questions != [] && query.questions[0].qtype != 255
    requires var q := query.questions[0];
      && IsSubdomainOf(q.qname, z.info.name) && (forall i: nat :: !RefersAt(z, q.qname, q.qtype, i))
      && LookedUp(z.records, q.qname, q.qtype) == [] && LookedUp(z.records, q.qname, TYPE_CNAME) == []
      && Nearest(z, q.qname, q.qtype, k)
    ensures var q := query.questions[0]; var r := Answered(ntop, cfg, Some(z), query);
      var wild := Offered(z.records, q.qtype, q.qname[k..]);
      && r.header.rcode == 0 && r.header.aa && r.authority == [] && wild != [] && |r.answers| == |wild|
      && forall i :: 0 <= i < |wild| ==> r.answers[i] == wild[i].(name := q.qname)
  {
    hide LookedUp, IsSubdomainOf, WildcardRecords, RefersAt, NameOwned, Glue, WildcardOwner;
    var q := query.questions[0];
    BodyInZone(ntop, z, q.qname, q.qtype);
    NearestIsFound(z, q.qname, q.qtype, k);
    NothingChased(ntop, z, q.qname, q.qtype);
  }

  lemma NothingChased(ntop: Ntop, z: MemZone, q: Name, t: U16)
    requires LookedUp(z.records, q, t) == [] && LookedUp(z.records, q, TYPE_CNAME) == []
    ensures Chased(ntop, z.records, z.info.name, t, q, MAX_HOPS) == Walk([], Fell)
  {
    hide LookedUp;
  }
}
