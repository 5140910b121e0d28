/**
 Why compressed names come back: every entry of the encoder's table leads, within the
 jump budget of the suffix it stands for, to labels with that suffix's key, and nothing
 that is written later disturbs this.
 */
module Compression {
  import opened Text
  import opened DnsNames
  import opened NameCodec

  // ---- Plain names ---------------------------------------------------------

  /** Labels that decodeName's join-and-parse leaves alone wherever they stand. */
  predicate PlainLabel(s: Str) {
    1 <= |s| <= 63 && NoByte(s, DOT) && NoByte(s, BACKSLASH) && !IsSpace(s[0])
  }

  predicate PlainName(n: Name) {
    forall i :: 0 <= i < |n| ==> PlainLabel(n[i])
  }

  lemma PlainIsReparsed(n: Name)
    requires PlainName(n)
    ensures Reparsed(n) == n
  {
    SurvivorIsReparsed(n);
  }

  lemma PlainLower(n: Name)
    requires PlainName(n)
    ensures PlainName(LowerName(n))
  {
  }

  lemma PlainSame(a: Name, b: Name)
    requires Same(a, b) && PlainName(a)
    ensures PlainName(b)
  {
    assert |a| == |LowerName(a)| == |b|;
    forall i | 0 <= i < |b| ensures PlainLabel(b[i]) {
      assert LowerName(a)[i] == LowerName(b)[i];
      assert |a[i]| == |b[i]|;
      forall k | 0 <= k < |b[i]| ensures LowerByte(a[i][k]) == LowerByte(b[i][k]) {
        assert Lowered(a[i])[k] == Lowered(b[i])[k];
      }
    }
  }

  /** No white space anywhere in the name. */
  predicate Spaceless(n: Name) {
    forall i, k :: 0 <= i < |n| && 0 <= k < |n[i]| ==> !IsSpace(n[i][k])
  }

  lemma {:induction false} JoinedLast(n: Name)
    requires n != [] && PlainName(n) && Spaceless(n)
    ensures var j := Joined(n, [DOT]); j != [] && !IsSpace(j[0]) && !IsSpace(j[|j| - 1]) && j[|j| - 1] != DOT
  {
    var j := Joined(n, [DOT]);
    assert PlainLabel(n[0]);
    if |n| > 1 {
      JoinedLast(n[1..]);
    }
  }

  lemma PlainScanned(n: Name)
    requires n != [] && PlainName(n)
    ensures Scan(Joined(n, [DOT]), []) == n
  {
    ScanJoined(n);
  }

  lemma SpacelessLower(n: Name)
    requires Spaceless(n)
    ensures Spaceless(LowerName(n))
  {
  }

  /** Without white space the final dot can be left off. */
  lemma SpacelessParsed(n: Name)
    requires n != [] && PlainName(n) && Spaceless(n)
    ensures ParsedName(Joined(n, [DOT])) == n
  {
    hide Scan, Joined, PlainName, Spaceless, Trimmed;
    JoinedLast(n);
    TrimmedNoop(Joined(n, [DOT]));
    PlainScanned(n);
  }

  /** The labels that a table key stands for. */
  function KeyLabels(key: Str): Name {
    ParsedName(key + [DOT])
  }

  /** The key determines the labels up to case. */
  lemma KeyLabelsOfSuffix(labels: Name)
    requires PlainName(labels)
    ensures KeyLabels(SuffixKey(labels)) == LowerName(labels)
  {
    PlainLower(labels);
    PlainIsReparsed(LowerName(labels));
  }

  /** Two plain names share a table key exactly when they are the same name. */
  lemma SuffixKeyInjective(a: Name, b: Name)
    requires PlainName(a) && PlainName(b)
    ensures SuffixKey(a) == SuffixKey(b) <==> Same(a, b)
  {
    KeyLabelsOfSuffix(a);
    KeyLabelsOfSuffix(b);
  }

  // ---- Reading without re-parsing -----------------------------------------

  /**
   What decodeName collects from pos before it re-parses, with at most `jumps` pointers, all of
   them past the header: the labels that stand there, and the re-parsed name behind a pointer.
   */
  function Raw(buf: Bytes, pos: nat, jumps: nat): (r: Read<Name>)
    ensures r.Got? ==> pos < r.next <= |buf|
    decreases jumps, |buf| - pos
  {
    if pos >= |buf| then Fail
    else
      var len := buf[pos];
      if len >= 0xC0 then
        if pos + 1 >= |buf| || jumps == 0 || Word(len - 0xC0, buf[pos + 1]) < HEADER_SIZE then Fail
        else
          var rest := Raw(buf, Word(len - 0xC0, buf[pos + 1]), jumps - 1);
          if rest.Fail? then Fail else Got(Reparsed(rest.value), pos + 2)
      else if len >= 0x40 then Fail
      else if len == 0 then Got([], pos + 1)
      else if pos + 1 + len > |buf| then Fail
      else
        var rest := Raw(buf, pos + 1 + len, jumps);
        if rest.Fail? then Fail
        else Got([buf[pos + 1..pos + 1 + len]] + rest.value, rest.next)
  }

  /** b is a with more bytes appended, except that the header may differ. */
  predicate Extends(a: Bytes, b: Bytes) {
    |a| <= |b| && forall i :: HEADER_SIZE <= i < |a| ==> a[i] == b[i]
  }

  /** Appending and patching the header change nothing that was readable. */
  lemma {:induction false} RawExtends(a: Bytes, b: Bytes, pos: nat, j: nat, k: nat)
    requires Extends(a, b) && HEADER_SIZE <= pos && j <= k
    requires Raw(a, pos, j).Got?
    ensures Raw(b, pos, k) == Raw(a, pos, j)
    decreases j, |a| - pos
  {
    hide Word, Reparsed;
    var len := a[pos];
    if len >= 0xC0 {
      RawExtends(a, b, Word(len - 0xC0, a[pos + 1]), j - 1, k - 1);
    } else if len > 0 {
      RawExtends(a, b, pos + 1 + len, j, k);
      assert a[pos + 1..pos + 1 + len] == b[pos + 1..pos + 1 + len];
    }
  }

  /** One step of the decoder at a pointer. */
  lemma DecodedPointer(buf: Bytes, pos: nat, labels: Name, jumps: nat, rest: Name, end: nat)
    requires jumps < MAX_JUMPS && pos + 1 < |buf| && buf[pos] >= 0xC0
    requires DecodedFrom(buf, Word(buf[pos] - 0xC0, buf[pos + 1]), [], jumps + 1) == Got(rest, end)
    ensures DecodedFrom(buf, pos, labels, jumps) == Got(Reparsed(labels + rest), pos + 2)
  {
  }

  /** Within the jump limit decodeName re-parses exactly the labels that are collected. */
  lemma {:induction false} DecodedIsRaw(buf: Bytes, pos: nat, labels: Name, jumps: nat, j: nat)
    requires jumps + j <= MAX_JUMPS && Raw(buf, pos, j).Got?
    ensures DecodedFrom(buf, pos, labels, jumps)
            == Got(Reparsed(labels + Raw(buf, pos, j).value), Raw(buf, pos, j).next)
    decreases j, |buf| - pos
  {
    hide Reparsed, Word;
    var len := buf[pos];
    if len >= 0xC0 {
      var ptr := Word(len - 0xC0, buf[pos + 1]);
      var inner := Raw(buf, ptr, j - 1);
      assert [] + inner.value == inner.value;
      DecodedIsRaw(buf, ptr, [], jumps + 1, j - 1);
      DecodedPointer(buf, pos, labels, jumps, Reparsed(inner.value), inner.next);
    } else if len > 0 {
      var first := buf[pos + 1..pos + 1 + len];
      var rest := Raw(buf, pos + 1 + len, j).value;
      assert labels + ([first] + rest) == labels + [first] + rest;
      DecodedIsRaw(buf, pos + 1 + len, labels + [first], jumps, j);
    } else {
      assert labels + [] == labels;
      NothingReparsed();
    }
  }

  lemma NothingReparsed()
    ensures Reparsed([]) == ROOT
  {
    assert Joined([], [DOT]) + [DOT] == [DOT];
    RootParsed();
  }

  // ---- The table invariant ------------------------------------------------

  /** The name read at o is plain and is `lower` up to case, with fewer jumps than labels. */
  predicate SpellsAt(buf: Bytes, o: nat, lower: Name) {
    && lower != []
    && var r := Raw(buf, o, |lower| - 1);
       r.Got? && PlainName(Reparsed(r.value)) && LowerName(Reparsed(r.value)) == lower
  }

  /** A key that a plain name can have. */
  predicate PlainKey(key: Str) {
    KeyLabels(key) != [] && PlainName(KeyLabels(key))
  }

  /**
   An entry: its offset lies past the header and fits a pointer, and if a plain name can have
   its key, that name's labels are read there.
   */
  predicate EntryOk(buf: Bytes, key: Str, o: nat) {
    HEADER_SIZE <= o < OFFSET_LIMIT && (PlainKey(key) ==> SpellsAt(buf, o, KeyLabels(key)))
  }

  lemma EntryOfSuffix(buf: Bytes, labels: Name, o: nat)
    requires PlainName(labels) && labels != []
    ensures EntryOk(buf, SuffixKey(labels), o)
            <==> HEADER_SIZE <= o < OFFSET_LIMIT && SpellsAt(buf, o, LowerName(labels))
  {
    KeyLabelsOfSuffix(labels);
    PlainLower(labels);
  }

  /** All entries but those of the suffixes still being written. */
  predicate TableOk(buf: Bytes, table: map<Str, nat>, pending: set<Str>) {
    forall key :: key in table && key !in pending ==> EntryOk(buf, key, table[key])
  }

  lemma SpellsExtends(a: Bytes, b: Bytes, o: nat, lower: Name)
    requires Extends(a, b) && HEADER_SIZE <= o && SpellsAt(a, o, lower)
    ensures SpellsAt(b, o, lower)
  {
    RawExtends(a, b, o, |lower| - 1, |lower| - 1);
  }

  lemma TableExtends(a: Bytes, b: Bytes, table: map<Str, nat>, pending: set<Str>)
    requires Extends(a, b) && TableOk(a, table, pending)
    ensures TableOk(b, table, pending)
  {
    hide SpellsAt;
    forall key | key in table && key !in pending ensures EntryOk(b, key, table[key]) {
      if PlainKey(key) { SpellsExtends(a, b, table[key], KeyLabels(key)); }
    }
  }

  /** Entries are never overwritten or lost. */
  predicate Grows(a: map<Str, nat>, b: map<Str, nat>) {
    forall key :: key in a ==> key in b && b[key] == a[key]
  }

  /** The keys still being written belong to longer suffixes. */
  predicate Longer(pending: set<Str>, n: nat) {
    forall key :: key in pending ==> |KeyLabels(key)| > n
  }

  lemma PendingIsLonger(pending: set<Str>, labels: Name)
    requires PlainName(labels) && labels != [] && Longer(pending, |labels|)
    ensures SuffixKey(labels) !in pending
    ensures Longer(pending + {SuffixKey(labels)}, |labels| - 1)
  {
    KeyLabelsOfSuffix(labels);
  }

  /** What encodeName promises for a plain name. */
  predicate NameWritten(e: Enc, labels: Name, r: Encoding) {
    && r.ok
    && |e.out| < |r.enc.out| && r.enc.out[..|e.out|] == e.out
    && Grows(e.table, r.enc.table)
    && var raw := Raw(r.enc.out, |e.out|, |labels|);
       raw.Got? && raw.next == |r.enc.out| && PlainName(raw.value) && Same(raw.value, labels)
  }

  lemma PrefixExtends(a: Bytes, b: Bytes)
    requires |a| <= |b| && b[..|a|] == a
    ensures Extends(a, b)
  {
    forall i | HEADER_SIZE <= i < |a| ensures a[i] == b[i] {
      assert b[..|a|][i] == b[i];
    }
  }

  /** A pointer to a good entry spells the entry's labels, at one more jump. */
  lemma PointerWritten(e: Enc, labels: Name, o: nat)
    requires PlainName(labels) && labels != [] && HEADER_SIZE <= o < OFFSET_LIMIT
    requires SpellsAt(e.out, o, LowerName(labels))
    ensures NameWritten(e, labels, Encoding(e.(out := e.out + Put16(0xC000 + o)), true))
  {
    hide Raw, PlainName, Extends;
    var out := e.out + Put16(0xC000 + o);
    PrefixExtends(e.out, out);
    RawExtends(e.out, out, o, |labels| - 1, |labels| - 1);
    RawPointer(out, |e.out|, o, |labels|);
  }

  /** One step of reading at a pointer. */
  lemma RawPointer(buf: Bytes, pos: nat, o: nat, j: nat)
    requires HEADER_SIZE <= o < OFFSET_LIMIT && j > 0 && pos + 2 == |buf| && buf[pos..] == Put16(0xC000 + o)
    requires Raw(buf, o, j - 1).Got?
    ensures Raw(buf, pos, j) == Got(Reparsed(Raw(buf, o, j - 1).value), pos + 2)
  {
    assert buf[pos] == buf[pos..][0] == (0xC000 + o) / 256 && buf[pos + 1] == buf[pos..][1] == (0xC000 + o) % 256;
    BigEndianTwo(buf[pos] - 0xC0, buf[pos + 1]);
    assert Word(buf[pos] - 0xC0, buf[pos + 1]) == o;
  }

  /**
   The compression invariant: encodeName keeps every finished entry good, adds only good
   ones, and what it wrote spells the name with at most one jump per label.
   */
  lemma {:induction false} EncodedNameKeepsTable(e: Enc, labels: Name, pending: set<Str>)
    requires PlainName(labels) && HEADER_SIZE <= |e.out|
    requires TableOk(e.out, e.table, pending) && Longer(pending, |labels|)
    ensures NameWritten(e, labels, EncodedName(e, labels))
    ensures TableOk(EncodedName(e, labels).enc.out, EncodedName(e, labels).enc.table, pending)
    decreases |labels|
  {
    var r := EncodedName(e, labels);
    if labels == [] {
      PrefixExtends(e.out, r.enc.out);
      TableExtends(e.out, r.enc.out, e.table, pending);
    } else {
      var key := SuffixKey(labels);
      if key in e.table {
        PendingIsLonger(pending, labels);
        EntryOfSuffix(e.out, labels, e.table[key]);
        PointerWritten(e, labels, e.table[key]);
        PrefixExtends(e.out, r.enc.out);
        TableExtends(e.out, r.enc.out, e.table, pending);
      } else {
        LabelWritten(e, labels, pending);
      }
    }
  }

  /** The encoder after the first label of a name whose key is new. */
  function FirstLabel(e: Enc, labels: Name): Enc
    requires labels != [] && |labels[0]| <= MAX_LABEL
  {
    Enc(e.out + [|labels[0]|] + labels[0],
        if |e.out| < OFFSET_LIMIT then e.table[SuffixKey(labels) := |e.out|] else e.table)
  }

  lemma LabelWritten(e: Enc, labels: Name, pending: set<Str>)
    requires PlainName(labels) && labels != [] && HEADER_SIZE <= |e.out|
    requires TableOk(e.out, e.table, pending) && Longer(pending, |labels|)
    requires SuffixKey(labels) !in e.table
    ensures NameWritten(e, labels, EncodedName(e, labels))
    ensures TableOk(EncodedName(e, labels).enc.out, EncodedName(e, labels).enc.table, pending)
    decreases |labels|, 0
  {
    hide Raw, KeyLabels, SpellsAt;
    PendingIsLonger(pending, labels);
    assert PlainLabel(labels[0]);
    var mid := FirstLabel(e, labels);
    var pending' := if |e.out| < OFFSET_LIMIT then pending + {SuffixKey(labels)} else pending;
    PrefixExtends(e.out, mid.out);
    TableExtends(e.out, mid.out, e.table, pending);
    EncodedNameKeepsTable(mid, labels[1..], pending');
    LabelFinished(e, labels, pending, EncodedName(mid, labels[1..]));
  }

  /** When the rest of the name is written, the entry of its first label is good too. */
  lemma LabelFinished(e: Enc, labels: Name, pending: set<Str>, r: Encoding)
    requires PlainName(labels) && labels != [] && HEADER_SIZE <= |e.out|
    requires SuffixKey(labels) !in e.table
    requires PlainLabel(labels[0]) && NameWritten(FirstLabel(e, labels), labels[1..], r)
    requires TableOk(r.enc.out, r.enc.table,
                     if |e.out| < OFFSET_LIMIT then pending + {SuffixKey(labels)} else pending)
    ensures NameWritten(e, labels, r) && TableOk(r.enc.out, r.enc.table, pending)
  {
    hide Raw, KeyLabels, PlainName, SuffixKey, Reparsed;
    LabelReads(e.out, labels, FirstLabel(e, labels).out, r.enc.out);
    PlainIsReparsed(Raw(r.enc.out, |e.out|, |labels| - 1).value);
    EntryOfSuffix(r.enc.out, labels, |e.out|);
  }

  /** A label in front of a readable name makes a readable name, at no extra jump. */
  lemma LabelReads(before: Bytes, labels: Name, mid: Bytes, out: Bytes)
    requires labels != [] && PlainName(labels) && HEADER_SIZE <= |before|
    requires mid == before + [|labels[0]|] + labels[0]
    requires |mid| <= |out| && out[..|mid|] == mid
    requires var rest := Raw(out, |mid|, |labels| - 1);
             rest.Got? && rest.next == |out| && PlainName(rest.value) && Same(rest.value, labels[1..])
    ensures out[..|before|] == before
    ensures var raw := Raw(out, |before|, |labels| - 1);
            && raw == Got([labels[0]] + Raw(out, |mid|, |labels| - 1).value, |out|)
            && PlainName(raw.value) && Same(raw.value, labels)
            && Raw(out, |before|, |labels|) == raw
  {
    var n := |before|;
    var rest := Raw(out, |mid|, |labels| - 1).value;
    assert PlainLabel(labels[0]);
    assert out[n] == mid[n] == |labels[0]|;
    assert out[n + 1..n + 1 + |labels[0]|] == mid[n + 1..] == labels[0];
    assert out[..n] == mid[..n] == before;
    LowerNameConcat([labels[0]], rest);
    LowerNameConcat([labels[0]], labels[1..]);
    assert [labels[0]] + labels[1..] == labels;
    RawExtends(out, out, n, |labels| - 1, |labels|);
  }
}
