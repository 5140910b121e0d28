/**
 Record types as text: rrTypeToString and rrTypeFromString of
 src/simple-dnsd/protocol/dns.cpp.
 */
module RrTypes {
  import opened Text
  import opened NameCodec
  import opened Records
  import opened Numbers

  const NAME_A: Str := [65]
  const NAME_NS: Str := [78, 83]
  const NAME_CNAME: Str := [67, 78, 65, 77, 69]
  const NAME_SOA: Str := [83, 79, 65]
  const NAME_PTR: Str := [80, 84, 82]
  const NAME_MX: Str := [77, 88]
  const NAME_TXT: Str := [84, 88, 84]
  const NAME_AAAA: Str := [65, 65, 65, 65]
  const NAME_SRV: Str := [83, 82, 86]
  const NAME_NAPTR: Str := [78, 65, 80, 84, 82]
  const NAME_OPT: Str := [79, 80, 84]
  const NAME_TSIG: Str := [84, 83, 73, 71]
  const NAME_IXFR: Str := [73, 88, 70, 82]
  const NAME_AXFR: Str := [65, 88, 70, 82]
  const NAME_ANY: Str := [65, 78, 89]
  const NAME_CAA: Str := [67, 65, 65]
  const NAME_DS: Str := [68, 83]
  const NAME_RRSIG: Str := [82, 82, 83, 73, 71]
  const NAME_NSEC: Str := [78, 83, 69, 67]
  const NAME_DNSKEY: Str := [68, 78, 83, 75, 69, 89]

  /** "TYPE", the prefix of types without a name (section 5 of RFC 3597). */
  const NAME_TYPE: Str := [84, 89, 80, 69]

  /** The upper-case name of a type that has one, or nothing. */
  function KnownName(t: U16): Str {
    if t == TYPE_A then NAME_A
    else if t == TYPE_NS then NAME_NS
    else if t == TYPE_CNAME then NAME_CNAME
    else if t == TYPE_SOA then NAME_SOA
    else if t == TYPE_PTR then NAME_PTR
    else if t == TYPE_MX then NAME_MX
    else if t == TYPE_TXT then NAME_TXT
    else if t == TYPE_AAAA then NAME_AAAA
    else if t == TYPE_SRV then NAME_SRV
    else if t == TYPE_NAPTR then NAME_NAPTR
    else if t == TYPE_OPT then NAME_OPT
    else if t == TYPE_TSIG then NAME_TSIG
    else if t == TYPE_IXFR then NAME_IXFR
    else if t == TYPE_AXFR then NAME_AXFR
    else if t == TYPE_ANY then NAME_ANY
    else if t == TYPE_CAA then NAME_CAA
    else if t == TYPE_DS then NAME_DS
    else if t == TYPE_RRSIG then NAME_RRSIG
    else if t == TYPE_NSEC then NAME_NSEC
    else if t == TYPE_DNSKEY then NAME_DNSKEY
    else []
  }

  /** rrTypeToString. */
  function TypeText(t: U16): Str {
    if KnownName(t) != [] then KnownName(t) else NAME_TYPE + Decimal(t)
  }

  /** The type that a name stands for, compared in lower case. */
  function KnownType(lower: Str): Option<U16> {
    if lower == Lowered(NAME_A) then Some(TYPE_A)
    else if lower == Lowered(NAME_NS) then Some(TYPE_NS)
    else if lower == Lowered(NAME_CNAME) then Some(TYPE_CNAME)
    else if lower == Lowered(NAME_SOA) then Some(TYPE_SOA)
    else if lower == Lowered(NAME_PTR) then Some(TYPE_PTR)
    else if lower == Lowered(NAME_MX) then Some(TYPE_MX)
    else if lower == Lowered(NAME_TXT) then Some(TYPE_TXT)
    else if lower == Lowered(NAME_AAAA) then Some(TYPE_AAAA)
    else if lower == Lowered(NAME_SRV) then Some(TYPE_SRV)
    else if lower == Lowered(NAME_NAPTR) then Some(TYPE_NAPTR)
    else if lower == Lowered(NAME_OPT) then Some(TYPE_OPT)
    else if lower == Lowered(NAME_TSIG) then Some(TYPE_TSIG)
    else if lower == Lowered(NAME_IXFR) then Some(TYPE_IXFR)
    else if lower == Lowered(NAME_AXFR) then Some(TYPE_AXFR)
    else if lower == Lowered(NAME_ANY) then Some(TYPE_ANY)
    else if lower == Lowered(NAME_CAA) then Some(TYPE_CAA)
    else if lower == Lowered(NAME_DS) then Some(TYPE_DS)
    else if lower == Lowered(NAME_RRSIG) then Some(TYPE_RRSIG)
    else if lower == Lowered(NAME_NSEC) then Some(TYPE_NSEC)
    else if lower == Lowered(NAME_DNSKEY) then Some(TYPE_DNSKEY)
    else None
  }

  /** rrTypeFromString; a number that is too large wraps around, one that does not parse is no type. */
  function TypeOf(name: Str): Option<U16> {
    var u := Lowered(name);
    if KnownType(u).Some? then KnownType(u)
    else if |u| >= 4 && u[..4] == Lowered(NAME_TYPE) then
      match Stoi(u[4..], 10)
      case Throws => None
      case Returns(v) => Some(v % 0x1_0000)
    else None
  }

  predicate IsUpper(c: Byte) {
    65 <= c <= 90
  }

  /** Capital letters and digits: what a type is written with. */
  predicate TypeByte(c: Byte) {
    IsUpper(c) || IsDigit(c)
  }

  lemma KnownNameBytes(t: U16)
    ensures forall i :: 0 <= i < |KnownName(t)| ==> IsUpper(KnownName(t)[i])
  {
  }

  /** Every type is written as a word of capital letters and digits. */
  lemma TypeTextBytes(t: U16)
    ensures TypeText(t) != [] && forall i :: 0 <= i < |TypeText(t)| ==> TypeByte(TypeText(t)[i])
    ensures IsUpper(TypeText(t)[0])
  {
    hide KnownName, Decimal;
    KnownNameBytes(t);
  }

  lemma DigitsStay(s: Str)
    requires forall i :: 0 <= i < |s| ==> IsDigit(s[i])
    ensures Lowered(s) == s
  {
  }

  /** No known name starts as the unnamed types do. */
  lemma NotKnown(u: Str)
    requires |u| >= 2 && u[0] == 116 && u[1] == 121
    ensures KnownType(u).None?
  {
  }

  /** A string of length n that starts with these bytes. */
  predicate Shape(s: Str, n: nat, first: Byte, second: Byte) {
    |s| == n && n > 0 && s[0] == first && (n > 1 ==> s[1] == second)
  }

  /** Length and first two bytes tell the known names apart. */
  lemma Shapes()
    ensures Shape(Lowered(NAME_A), 1, 97, 0)
    ensures Shape(Lowered(NAME_NS), 2, 110, 115)
    ensures Shape(Lowered(NAME_CNAME), 5, 99, 110)
    ensures Shape(Lowered(NAME_SOA), 3, 115, 111)
    ensures Shape(Lowered(NAME_PTR), 3, 112, 116)
    ensures Shape(Lowered(NAME_MX), 2, 109, 120)
    ensures Shape(Lowered(NAME_TXT), 3, 116, 120)
    ensures Shape(Lowered(NAME_AAAA), 4, 97, 97)
    ensures Shape(Lowered(NAME_SRV), 3, 115, 114)
    ensures Shape(Lowered(NAME_NAPTR), 5, 110, 97)
    ensures Shape(Lowered(NAME_OPT), 3, 111, 112)
    ensures Shape(Lowered(NAME_TSIG), 4, 116, 115)
    ensures Shape(Lowered(NAME_IXFR), 4, 105, 120)
    ensures Shape(Lowered(NAME_AXFR), 4, 97, 120)
    ensures Shape(Lowered(NAME_ANY), 3, 97, 110)
    ensures Shape(Lowered(NAME_CAA), 3, 99, 97)
    ensures Shape(Lowered(NAME_DS), 2, 100, 115)
    ensures Shape(Lowered(NAME_RRSIG), 5, 114, 114)
    ensures Shape(Lowered(NAME_NSEC), 4, 110, 115)
    ensures Shape(Lowered(NAME_DNSKEY), 6, 100, 110)
  {
  }

  lemma KnownBack(t: U16)
    requires KnownName(t) != []
    ensures KnownType(Lowered(KnownName(t))) == Some(t)
  {
    Shapes();
  }

  /** A type is read back from its text. */
  lemma TypeReadBack(t: U16)
    ensures TypeOf(TypeText(t)) == Some(t)
  {
    hide KnownName, KnownType, Stoi, Stoul, Recognised, Decimal;
    if KnownName(t) != [] {
      KnownBack(t);
    } else {
      var d := Decimal(t);
      LoweredConcat(NAME_TYPE, d);
      DigitsStay(d);
      var u := Lowered(NAME_TYPE) + d;
      NotKnown(u);
      assert u[..4] == Lowered(NAME_TYPE) && u[4..] == d;
      DecimalReadBack(t);
    }
  }

  lemma TypeTextInjective(a: U16, b: U16)
    ensures TypeText(a) == TypeText(b) <==> a == b
  {
    hide TypeText, TypeOf;
    TypeReadBack(a);
    TypeReadBack(b);
  }

  // ---- The numbers of the types --------------------------------------------------

  /** The bytes of a text in ASCII. */
  function Ascii(s: string): (r: Str)
    requires forall i :: 0 <= i < |s| ==> s[i] < 128 as char
    ensures |r| == |s| && forall i :: 0 <= i < |s| ==> r[i] == s[i] as int
  {
    seq(|s|, i requires 0 <= i < |s| => s[i] as int)
  }

  /** Types 1 to 250 that have names. */
  lemma LowTypes()
    ensures TypeText(1) == Ascii("A") && TypeText(2) == Ascii("NS") && TypeText(5) == Ascii("CNAME")
    ensures TypeText(6) == Ascii("SOA") && TypeText(12) == Ascii("PTR") && TypeText(15) == Ascii("MX")
    ensures TypeText(16) == Ascii("TXT") && TypeText(28) == Ascii("AAAA") && TypeText(33) == Ascii("SRV")
    ensures TypeText(35) == Ascii("NAPTR") && TypeText(41) == Ascii("OPT") && TypeText(43) == Ascii("DS")
  {
  }

  lemma HighTypes()
    ensures TypeText(46) == Ascii("RRSIG") && TypeText(47) == Ascii("NSEC") && TypeText(48) == Ascii("DNSKEY")
    ensures TypeText(250) == Ascii("TSIG") && TypeText(251) == Ascii("IXFR") && TypeText(252) == Ascii("AXFR")
    ensures TypeText(255) == Ascii("ANY") && TypeText(257) == Ascii("CAA")
  {
  }
}
