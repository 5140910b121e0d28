/**
 The laws of the name codec: what encodeName writes, decodeName reads back; writing the
 decoded name again gives the same bytes; and the limits of both, exactly.
 */
module NameRoundTrip {
  import opened Text
  import opened DnsNames
  import opened NameCodec
  import opened Compression

  /** The table of a fresh encoder, or of one that has finished its last name. */
  predicate Settled(e: Enc) {
    HEADER_SIZE <= |e.out| && TableOk(e.out, e.table, {})
  }

  lemma EmptySettled()
    ensures Settled(EMPTY)
  {
  }

  lemma AppendedSettled(e: Enc, w: Bytes)
    requires Settled(e)
    ensures Settled(Appended(e, w)) && Extends(e.out, Appended(e, w).out)
  {
    PrefixExtends(e.out, e.out + w);
    TableExtends(e.out, e.out + w, e.table, {});
  }

  lemma ExtendsTransitive(a: Bytes, b: Bytes, c: Bytes)
    requires Extends(a, b) && Extends(b, c)
    ensures Extends(a, c)
  {
  }

  /** The name that decodeName reads back where `labels` was written: same up to case. */
  function ReadBack(e: Enc, labels: Name): Name {
    var r := Raw(EncodedName(e, labels).enc.out, |e.out|, |labels|);
    if r.Got? then r.value else ROOT
  }

  /**
   Name round trip: after any finished names, a plain name of at most 20 labels decodes
   to itself up to case, ending where its encoding ends, whatever is appended later and
   whatever the header becomes.
   */
  lemma NameComesBack(e: Enc, labels: Name, buf: Bytes)
    requires Settled(e) && PlainName(labels) && |labels| <= MAX_JUMPS
    requires Extends(EncodedName(e, labels).enc.out, buf)
    ensures EncodedName(e, labels).ok && Settled(EncodedName(e, labels).enc)
    ensures Extends(e.out, EncodedName(e, labels).enc.out)
    ensures Same(ReadBack(e, labels), labels) && PlainName(ReadBack(e, labels))
    ensures DecodedName(buf, |e.out|, 0)
            == Got(ReadBack(e, labels), |EncodedName(e, labels).enc.out|)
  {
    var r := EncodedName(e, labels);
    EncodedNameKeepsTable(e, labels, {});
    PrefixExtends(e.out, r.enc.out);
    RawExtends(r.enc.out, buf, |e.out|, |labels|, |labels|);
    assert [] + ReadBack(e, labels) == ReadBack(e, labels);
    DecodedIsRaw(buf, |e.out|, [], 0, |labels|);
    PlainIsReparsed(ReadBack(e, labels));
  }

  /** Encoding the decoded name in place of the original changes neither bytes nor table. */
  lemma {:induction false} ReencodedName(e: Enc, labels: Name, pending: set<Str>)
    requires PlainName(labels) && HEADER_SIZE <= |e.out|
    requires TableOk(e.out, e.table, pending) && Longer(pending, |labels|)
    ensures EncodedName(e, ReadBack(e, labels)) == EncodedName(e, labels)
    decreases |labels|
  {
    hide Raw, SuffixKey, KeyLabels, Reparsed, PlainLabel, SpellsAt;
    EncodedNameKeepsTable(e, labels, pending);
    var back := ReadBack(e, labels);
    assert |back| == |LowerName(back)| == |LowerName(labels)| == |labels|;
    if labels != [] && SuffixKey(labels) !in e.table {
      PendingIsLonger(pending, labels);
      ShortLabel(labels);
      var mid := FirstLabel(e, labels);
      var pending' := if |e.out| < OFFSET_LIMIT then pending + {SuffixKey(labels)} else pending;
      PrefixExtends(e.out, mid.out);
      TableExtends(e.out, mid.out, e.table, pending);
      EncodedNameKeepsTable(mid, labels[1..], pending');
      ReencodedName(mid, labels[1..], pending');
      FirstLabelReadBack(e, labels);
      ReencodedLabel(e, labels, ReadBack(mid, labels[1..]));
    } else if labels != [] {
      PendingIsLonger(pending, labels);
      SameKey(back, labels);
    }
  }

  lemma ShortLabel(labels: Name)
    requires PlainName(labels) && labels != []
    ensures PlainLabel(labels[0]) && |labels[0]| <= MAX_LABEL
  {
  }

  lemma SameKey(a: Name, b: Name)
    requires Same(a, b)
    ensures SuffixKey(a) == SuffixKey(b)
  {
  }

  lemma ReencodedLabel(e: Enc, labels: Name, rest: Name)
    requires labels != [] && |labels[0]| <= MAX_LABEL && SuffixKey(labels) !in e.table
    requires Same([labels[0]] + rest, labels)
    requires EncodedName(FirstLabel(e, labels), rest) == EncodedName(FirstLabel(e, labels), labels[1..])
    ensures EncodedName(e, [labels[0]] + rest) == EncodedName(e, labels)
  {
    var back := [labels[0]] + rest;
    assert SuffixKey(back) == SuffixKey(labels) && back[1..] == rest;
    assert FirstLabel(e, back) == FirstLabel(e, labels);
  }

  lemma FirstLabelReadBack(e: Enc, labels: Name)
    requires PlainName(labels) && labels != [] && HEADER_SIZE <= |e.out|
    requires SuffixKey(labels) !in e.table && PlainLabel(labels[0])
    requires NameWritten(FirstLabel(e, labels), labels[1..], EncodedName(FirstLabel(e, labels), labels[1..]))
    ensures ReadBack(e, labels) == [labels[0]] + ReadBack(FirstLabel(e, labels), labels[1..])
  {
    var mid := FirstLabel(e, labels);
    var out := EncodedName(e, labels).enc.out;
    assert EncodedName(e, labels) == EncodedName(mid, labels[1..]);
    LabelReads(e.out, labels, mid.out, out);
  }

  // ---- Uncompressed names -------------------------------------------------

  lemma {:induction false} UncompressedOk(labels: Name)
    ensures UncompressedName(labels).1 <==> forall i :: 0 <= i < |labels| ==> |labels[i]| <= 63
  {
    if labels != [] {
      UncompressedOk(labels[1..]);
      if UncompressedName(labels).1 {
        forall i | 0 < i < |labels| ensures |labels[i]| <= MAX_LABEL {
          assert labels[i] == labels[1..][i - 1];
        }
      }
    }
  }

  /** One step of the decoder at a literal label. */
  lemma DecodedLabel(buf: Bytes, pos: nat, acc: Name, jumps: nat)
    requires jumps <= MAX_JUMPS && pos < |buf| && 0 < buf[pos] <= MAX_LABEL && pos + 1 + buf[pos] <= |buf|
    ensures DecodedFrom(buf, pos, acc, jumps)
            == DecodedFrom(buf, pos + 1 + buf[pos], acc + [buf[pos + 1..pos + 1 + buf[pos]]], jumps)
  {
  }

  /** Where an uncompressed name stands, decodeName collects its labels and re-parses them. */
  lemma {:induction false} UncompressedReads(buf: Bytes, pos: nat, acc: Name, labels: Name, jumps: nat)
    requires ProperName(labels) && UncompressedName(labels).1 && jumps <= MAX_JUMPS
    requires At(buf, pos, UncompressedName(labels).0)
    ensures DecodedFrom(buf, pos, acc, jumps)
            == Got(if acc + labels == [] then ROOT else Reparsed(acc + labels),
                   pos + |UncompressedName(labels).0|)
    decreases |labels|
  {
    hide Reparsed, DecodedFrom, At;
    if labels == [] {
      assert acc + labels == acc;
      DecodedEnd(buf, pos, acc, jumps);
    } else {
      var first, rest := labels[0], UncompressedName(labels[1..]).0;
      AtSplit(buf, pos, [|first|] + first, rest);
      LabelStands(buf, pos, first);
      assert acc + [first] + labels[1..] == acc + labels;
      DecodedLabel(buf, pos, acc, jumps);
      UncompressedReads(buf, pos + 1 + |first|, acc + [first], labels[1..], jumps);
    }
  }

  /** One step of the decoder at the terminator. */
  lemma DecodedEnd(buf: Bytes, pos: nat, acc: Name, jumps: nat)
    requires jumps <= MAX_JUMPS && At(buf, pos, [0])
    ensures DecodedFrom(buf, pos, acc, jumps) == Got(if acc == [] then ROOT else Reparsed(acc), pos + 1)
  {
    assert buf[pos..pos + 1][0] == 0;
  }

  /**
   Uncompressed round trip, exactly: a name whose labels fit decodes to itself, even only
   up to case, if and only if it survives its own text.
   */
  lemma UncompressedRoundTrip(buf: Bytes, pos: nat, labels: Name)
    requires ProperName(labels) && UncompressedName(labels).1
    requires At(buf, pos, UncompressedName(labels).0)
    ensures DecodedName(buf, pos, 0).Got?
    ensures DecodedName(buf, pos, 0).next == pos + |UncompressedName(labels).0|
    ensures Same(DecodedName(buf, pos, 0).value, labels) <==> SurvivesText(labels)
    ensures SurvivesText(labels) ==> DecodedName(buf, pos, 0).value == labels
  {
    UncompressedReads(buf, pos, [], labels, 0);
    assert [] + labels == labels;
    if labels != [] {
      ReparsedIffSurvives(labels);
    }
  }
}
