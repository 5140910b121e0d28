/**
 The compressing name codec of src/simple-dnsd/protocol/dns.cpp: encodeName keeps a table
 from the lower-case text of a suffix to its offset in the output buffer, and decodeName
 follows the pointers (section 4.1.4 of RFC 1035).
 */
module NameCodec {
  import opened Text
  import opened DnsNames

  const MAX_LABEL := 63
  const MAX_JUMPS := 20
  /** Offsets below this one fit into a pointer. */
  const OFFSET_LIMIT := 0x4000
  const HEADER_SIZE := 12

  type Bytes = seq<Byte>

  // ---- Integers on the wire ----------------------------------------------

  type U16 = n: int | 0 <= n < 0x1_0000
  type U32 = n: int | 0 <= n < 0x1_0000_0000

  function Put16(v: U16): (r: Bytes)
    ensures |r| == 2
  {
    [v / 256, v % 256]
  }

  function Put32(v: U32): (r: Bytes)
    ensures |r| == 4
  {
    [v / 0x100_0000, v / 0x1_0000 % 256, v / 256 % 256, v % 256]
  }

  /** The number that bytes stand for, the most significant first. */
  function BigEndian(s: Bytes): nat {
    if s == [] then 0 else BigEndian(s[..|s| - 1]) * 256 + s[|s| - 1]
  }

  lemma BigEndianOne(b: Byte)
    ensures BigEndian([b]) == b
  {
    assert [b][..0] == [];
  }

  lemma {:induction false} BigEndianSnoc(s: Bytes, b: Byte)
    ensures BigEndian(s + [b]) == BigEndian(s) * 256 + b
  {
    assert (s + [b])[..|s|] == s;
  }

  lemma BigEndianTwo(hi: Byte, lo: Byte)
    ensures BigEndian([hi, lo]) == hi * 256 + lo
  {
    assert [hi] + [lo] == [hi, lo];
    BigEndianOne(hi);
    BigEndianSnoc([hi], lo);
  }

  lemma BigEndianFour(a: Byte, b: Byte, c: Byte, d: Byte)
    ensures BigEndian([a, b, c, d]) == ((a * 256 + b) * 256 + c) * 256 + d
  {
    hide BigEndian;
    assert [a, b] + [c] == [a, b, c] && [a, b, c] + [d] == [a, b, c, d];
    BigEndianTwo(a, b);
    BigEndianSnoc([a, b], c);
    BigEndianSnoc([a, b, c], d);
  }

  function Word(hi: Byte, lo: Byte): U16 {
    BigEndianTwo(hi, lo);
    BigEndian([hi, lo])
  }

  function Long(a: Byte, b: Byte, c: Byte, d: Byte): U32 {
    BigEndianFour(a, b, c, d);
    BigEndian([a, b, c, d])
  }

  /** A reader moves an offset forward or fails. */
  datatype Read<+T> = Fail | Got(value: T, next: nat)

  function Get16(input: Bytes, off: nat): (r: Read<U16>)
    ensures r.Got? <==> off + 2 <= |input|
    ensures r.Got? ==> r.next == off + 2
  {
    if off + 2 > |input| then Fail
    else Got(Word(input[off], input[off + 1]), off + 2)
  }

  function Get32(input: Bytes, off: nat): (r: Read<U32>)
    ensures r.Got? <==> off + 4 <= |input|
    ensures r.Got? ==> r.next == off + 4
  {
    if off + 4 > |input| then Fail
    else Got(Long(input[off], input[off + 1], input[off + 2], input[off + 3]), off + 4)
  }

  /** The bytes w stand in buf at offset off. */
  predicate At(buf: Bytes, off: nat, w: Bytes) {
    off + |w| <= |buf| && buf[off..off + |w|] == w
  }

  lemma AtSplit(buf: Bytes, off: nat, a: Bytes, b: Bytes)
    requires At(buf, off, a + b)
    ensures At(buf, off, a) && At(buf, off + |a|, b)
  {
    var w := buf[off..off + |a + b|];
    assert buf[off..off + |a|] == w[..|a|] == a;
    assert buf[off + |a|..off + |a| + |b|] == w[|a|..] == b;
  }

  /** A label with its length byte, as it is found in place. */
  lemma LabelStands(buf: Bytes, pos: nat, first: Str)
    requires |first| < 256 && At(buf, pos, [|first|] + first)
    ensures pos + 1 + |first| <= |buf| && buf[pos] == |first| && buf[pos + 1..pos + 1 + |first|] == first
  {
    var w := [|first|] + first;
    assert buf[pos..pos + |w|][0] == |first| && buf[pos..pos + |w|][1..] == first;
  }

  lemma Get16Put(buf: Bytes, off: nat, v: U16)
    requires At(buf, off, Put16(v))
    ensures Get16(buf, off) == Got(v, off + 2)
  {
    assert buf[off] == buf[off..off + 2][0] && buf[off + 1] == buf[off..off + 2][1];
    BigEndianTwo(buf[off], buf[off + 1]);
  }

  lemma FourDigits(v: U32)
    ensures ((v / 0x100_0000 * 256 + v / 0x1_0000 % 256) * 256 + v / 256 % 256) * 256 + v % 256 == v
  {
    assert v / 0x1_0000 == v / 256 / 256 && v / 0x100_0000 == v / 0x1_0000 / 256;
  }

  lemma Get32Put(buf: Bytes, off: nat, v: U32)
    requires At(buf, off, Put32(v))
    ensures Get32(buf, off) == Got(v, off + 4)
  {
    hide BigEndian;
    var w := buf[off..off + 4];
    assert buf[off] == w[0] && buf[off + 1] == w[1] && buf[off + 2] == w[2] && buf[off + 3] == w[3];
    BigEndianFour(w[0], w[1], w[2], w[3]);
    FourDigits(v);
  }

  // ---- Encoding -------------------------------------------------------------

  /** The table key of a name: its dotted labels in lower case. */
  function SuffixKey(labels: Name): Str {
    Joined(LowerName(labels), [DOT])
  }

  method ComputeSuffixKey(labels: Name, from: nat) returns (key: Str)
    requires from <= |labels|
    ensures key == SuffixKey(labels[from..])
  {
    hide Joined, Lowered;
    key := [];
    ghost var lower := LowerName(labels[from..]);
    NothingJoined();
    for i := from to |labels|
      invariant key == Joined(lower[..i - from], [DOT])
    {
      ghost var k := i - from;
      JoinedSnoc(lower[..k], lower[k], [DOT]);
      assert lower[..k + 1] == lower[..k] + [lower[k]];
      if i != from {
        key := key + [DOT];
      }
      var low := ToLower(labels[i]);
      key := key + low;
    }
    assert lower[..|labels| - from] == lower;
  }

  /** The state of an encoder: the output so far and the compression table. */
  datatype Enc = Enc(out: Bytes, table: map<Str, nat>)

  datatype Encoding = Encoding(enc: Enc, ok: bool)

  /** encodeName with a compression table. */
  function EncodedName(e: Enc, labels: Name): (r: Encoding)
    ensures |r.enc.out| >= |e.out| && r.enc.out[..|e.out|] == e.out
    decreases |labels|
  {
    if labels == [] then Encoding(e.(out := e.out + [0]), true)
    else
      var key := SuffixKey(labels);
      if key in e.table && e.table[key] < OFFSET_LIMIT then
        Encoding(e.(out := e.out + Put16(0xC000 + e.table[key])), true)
      else
        var table := if |e.out| < OFFSET_LIMIT then e.table[key := |e.out|] else e.table;
        if |labels[0]| > MAX_LABEL then Encoding(e.(table := table), false)
        else EncodedName(Enc(e.out + [|labels[0]|] + labels[0], table), labels[1..])
  }

  /** encodeUncompressed: the bytes appended, and whether every label was short enough. */
  function UncompressedName(labels: Name): (Bytes, bool) {
    if labels == [] then ([0], true)
    else if |labels[0]| > MAX_LABEL then ([], false)
    else
      var (rest, ok) := UncompressedName(labels[1..]);
      ([|labels[0]|] + labels[0] + rest, ok)
  }

  method EncodeUncompressed(name: Name) returns (appended: Bytes, ok: bool)
    ensures (appended, ok) == UncompressedName(name)
  {
    hide UncompressedName;
    appended := [];
    for i := 0 to |name|
      invariant UncompressedName(name).0 == appended + UncompressedName(name[i..]).0
      invariant UncompressedName(name).1 == UncompressedName(name[i..]).1
    {
      UncompressedStep(appended, name, i);
      if |name[i]| > MAX_LABEL {
        return appended, false;
      }
      appended := appended + [|name[i]|];
      appended := appended + name[i];
    }
    UncompressedEnd(name);
    appended := appended + [0];
    ok := true;
  }

  lemma UncompressedStep(before: Bytes, name: Name, i: nat)
    requires i < |name|
    ensures var (rest, ok) := UncompressedName(name[i..]); var (next, more) := UncompressedName(name[i + 1..]);
      if |name[i]| > MAX_LABEL then before + rest == before && !ok
      else before + rest == before + [|name[i]|] + name[i] + next && ok == more
  {
    assert name[i..][0] == name[i] && name[i..][1..] == name[i + 1..];
    if |name[i]| <= MAX_LABEL {
      var next := UncompressedName(name[i + 1..]).0;
      assert before + ([|name[i]|] + name[i] + next) == before + [|name[i]|] + name[i] + next;
    } else {
      assert before + [] == before;
    }
  }

  lemma UncompressedEnd(name: Name)
    ensures UncompressedName(name[|name|..]) == ([0], true)
  {
  }

  // ---- Decoding ---------------------------------------------------------------

  /**
   decodeName from offset pos, with the labels collected so far.  A pointer hands over to
   a fresh decodeName one jump deeper, and every exit re-parses the joined labels.
   */
  function DecodedFrom(input: Bytes, pos: nat, labels: Name, jumps: nat): (r: Read<Name>)
    requires jumps <= MAX_JUMPS
    ensures r.Got? ==> pos < r.next <= |input|
    decreases MAX_JUMPS + 1 - jumps, 0, |input| - pos
  {
    if pos >= |input| then Fail
    else
      var len := input[pos];
      if len >= 0xC0 then
        if pos + 1 >= |input| then Fail
        else
          var rest := DecodedName(input, Word(len - 0xC0, input[pos + 1]), jumps + 1);
          if rest.Fail? then Fail else Got(Reparsed(labels + rest.value), pos + 2)
      else if len >= 0x40 then Fail
      else if len == 0 then Got(if labels == [] then ROOT else Reparsed(labels), pos + 1)
      else if pos + 1 + len > |input| then Fail
      else DecodedFrom(input, pos + 1 + len, labels + [input[pos + 1..pos + 1 + len]], jumps)
  }

  function DecodedName(input: Bytes, pos: nat, jumps: nat): (r: Read<Name>)
    ensures r.Got? ==> pos < r.next <= |input|
    decreases if jumps <= MAX_JUMPS then MAX_JUMPS + 1 - jumps else 0, 1, 0
  {
    if jumps > MAX_JUMPS then Fail else DecodedFrom(input, pos, [], jumps)
  }

  /** decodeName: scan labels up to the terminator or the first pointer. */
  method DecodeName(input: Bytes, offset: nat, jumps: nat) returns (r: Read<Name>)
    ensures r == DecodedName(input, offset, jumps)
    decreases if jumps <= MAX_JUMPS then MAX_JUMPS + 1 - jumps else 0
  {
    if jumps > MAX_JUMPS {
      return Fail;
    }
    var labels: Name := [];
    var pos := offset;
    while pos < |input|
      invariant DecodedName(input, offset, jumps) == DecodedFrom(input, pos, labels, jumps)
    {
      var len := input[pos];
      if len >= 0xC0 {
        if pos + 1 >= |input| {
          return Fail;
        }
        var rest := DecodeName(input, Word(len - 0xC0, input[pos + 1]), jumps + 1);
        if rest.Fail? {
          return Fail;
        }
        labels := labels + rest.value;
        var name := JoinAndParse(labels);
        return Got(name, pos + 2);
      }
      if len >= 0x40 {
        return Fail;
      }
      pos := pos + 1;
      if len == 0 {
        var name := ROOT;
        if labels != [] {
          name := JoinAndParse(labels);
        }
        return Got(name, pos);
      }
      if pos + len > |input| {
        return Fail;
      }
      labels := labels + [input[pos..pos + len]];
      pos := pos + len;
    }
    return Fail;
  }

  method JoinAndParse(labels: Name) returns (name: Name)
    ensures name == Reparsed(labels)
  {
    var text := Join(labels, [DOT]);
    name := Parse(text + [DOT]);
  }

  /** The output buffer and the compression table that encodeName updates in place. */
  class Encoder {
    var out: Bytes
    var compression: map<Str, nat>

    function State(): Enc
      reads this
    {
      Enc(out, compression)
    }

    /** out.resize(12) with an empty table. */
    constructor ()
      ensures State() == EMPTY
    {
      out := [0, 0, 0, 0, 0, 0, 0, 0, 0, 0, 0, 0];
      compression := map[];
    }

    /** Start the sections over: the header stays, the sections and the table go. */
    method Restart()
      requires |out| >= HEADER_SIZE
      modifies this
      ensures out == old(out[..HEADER_SIZE]) && compression == map[]
    {
      out := out[..HEADER_SIZE];
      compression := map[];
    }

    method Append(w: Bytes)
      modifies this`out
      ensures State() == Appended(old(State()), w)
    {
      out := out + w;
    }

    method EncodeName(name: Name) returns (ok: bool)
      modifies this
      ensures Encoding(State(), ok) == EncodedName(old(State()), name)
    {
      for i := 0 to |name|
        invariant EncodedName(old(State()), name) == EncodedName(State(), name[i..])
      {
        assert name[i..][0] == name[i] && name[i..][1..] == name[i + 1..];
        var key := ComputeSuffixKey(name, i);
        if key in compression && compression[key] < OFFSET_LIMIT {
          out := out + Put16(0xC000 + compression[key]);
          return true;
        }
        if |out| < OFFSET_LIMIT {
          compression := compression[key := |out|];
        }
        if |name[i]| > MAX_LABEL {
          return false;
        }
        out := out + [|name[i]|];
        out := out + name[i];
      }
      out := out + [0];
      return true;
    }
  }

  const EMPTY := Enc([0, 0, 0, 0, 0, 0, 0, 0, 0, 0, 0, 0], map[])

  function Appended(e: Enc, w: Bytes): Enc {
    e.(out := e.out + w)
  }
}
