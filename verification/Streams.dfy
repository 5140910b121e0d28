/**
 A transfer over several messages: what the receiver collects from the stream of a primary
 that sends the zone in pieces (section 2.2 of RFC 5936).
 */
module Streams {
  import opened DnsNames
  import opened NameCodec
  import opened Rdata
  import opened MessageCodec
  import opened Store
  import opened Transfer
  import opened WireFormat
  import opened Transactions
  import U = UpdateEffects
  import P = Replication

  /** Every message behind its length in two octets. */
  function StreamOf(frames: seq<Bytes>): Bytes
    requires forall i :: 0 <= i < |frames| ==> |frames[i]| < 0x1_0000
  {
    if frames == [] then [] else [|frames[0]| / 256, |frames[0]| % 256] + frames[0] + StreamOf(frames[1..])
  }

  /** The messages fit the receiver and decode. */
  predicate Readable(ntop: Ntop, frames: seq<Bytes>, maxSize: nat) {
    forall i :: 0 <= i < |frames| ==>
      0 < |frames[i]| < 0x1_0000 && |frames[i]| <= maxSize && DecodedMessage(ntop, frames[i]).Some?
  }

  /** All answer sections, one behind the other. */
  function AllAnswers(ntop: Ntop, frames: seq<Bytes>): Rrs
    requires forall i :: 0 <= i < |frames| ==> DecodedMessage(ntop, frames[i]).Some?
  {
    if frames == [] then [] else DecodedMessage(ntop, frames[0]).value.answers + AllAnswers(ntop, frames[1..])
  }

  /** At least two records, the first and the last of them SOA records. */
  predicate BothEnds(rrs: Rrs) {
    |rrs| >= 2 && rrs[0].rtype == 6 && rrs[|rrs| - 1].rtype == 6
  }

  lemma FrameIsNext(stream: Bytes, off: nat, frame: Bytes, rest: Bytes, maxSize: nat)
    requires off <= |stream| && 0 < |frame| < 0x1_0000 && |frame| <= maxSize
    requires stream[off..] == [|frame| / 256, |frame| % 256] + frame + rest
    ensures NextMessage(stream, off, maxSize) == Got(frame, off + 2 + |frame|)
    ensures stream[off + 2 + |frame|..] == rest
  {
    hide Get16;
    var tail := stream[off..];
    var n := |frame|;
    assert stream[off] == tail[0] && stream[off + 1] == tail[1];
    WordIs(stream, off);
    assert stream[off + 2..off + 2 + n] == tail[2..2 + n] == frame;
    assert stream[off + 2 + n..] == tail[2 + n..] == rest;
  }

  lemma FirstAnswers(ntop: Ntop, frames: seq<Bytes>, k: nat, rrs: Rrs)
    requires k < |frames| && forall i :: 0 <= i < |frames| ==> DecodedMessage(ntop, frames[i]).Some?
    ensures rrs + AllAnswers(ntop, frames[..k + 1])
            == rrs + DecodedMessage(ntop, frames[0]).value.answers + AllAnswers(ntop, frames[1..][..k])
  {
    hide DecodedMessage;
    assert frames[..k + 1][1..] == frames[1..][..k];
  }

  lemma {:induction false} ReceivedFrom(ntop: Ntop, stream: Bytes, off: nat, frames: seq<Bytes>, rest: Bytes,
                                        maxSize: nat, rrs: Rrs)
    requires off <= |stream| && Readable(ntop, frames, maxSize) && stream[off..] == StreamOf(frames) + rest
    requires forall k :: 0 < k < |frames| ==> !BothEnds(rrs + AllAnswers(ntop, frames[..k]))
    requires rest == [] || (frames != [] && BothEnds(rrs + AllAnswers(ntop, frames)))
    ensures Received(ntop, stream, off, maxSize, rrs) == rrs + AllAnswers(ntop, frames)
    decreases |frames|
  {
    hide DecodedMessage, NextMessage, BothEnds;
    if frames == [] {
      assert rrs + [] == rrs;
      StreamEnds(stream, off, maxSize);
    } else {
      var more := rrs + DecodedMessage(ntop, frames[0]).value.answers;
      var later := StreamOf(frames[1..]) + rest;
      assert StreamOf(frames) + rest == [|frames[0]| / 256, |frames[0]| % 256] + frames[0] + later;
      FrameIsNext(stream, off, frames[0], later, maxSize);
      forall k | 0 <= k < |frames|
        ensures rrs + AllAnswers(ntop, frames[..k + 1]) == more + AllAnswers(ntop, frames[1..][..k])
      {
        FirstAnswers(ntop, frames, k, rrs);
      }
      assert frames[..|frames|] == frames && frames[1..][..|frames| - 1] == frames[1..];
      assert frames[1..][..0] == [] && more + AllAnswers(ntop, []) == more;
      assert rrs + AllAnswers(ntop, frames[..1]) == more;
      SameAsComplete(more);
      if BothEnds(more) {
        assert |frames| == 1;
      } else {
        ReceivedFrom(ntop, stream, off + 2 + |frames[0]|, frames[1..], rest, maxSize, more);
      }
    }
  }

  lemma StreamEnds(stream: Bytes, off: nat, maxSize: nat)
    requires off <= |stream| && stream[off..] == []
    ensures NextMessage(stream, off, maxSize) == Fail
  {
    assert off == |stream|;
  }

  lemma SameAsComplete(rrs: Rrs)
    ensures BothEnds(rrs) == Complete(rrs)
  {
  }

  /**
   The receiver collects the answers of all messages in order, up to the first message that
   brings the closing SOA, or up to the end of the stream; what stands behind is not read.
   */
  lemma ReceivedInOrder(ntop: Ntop, frames: seq<Bytes>, rest: Bytes, maxSize: nat)
    requires Readable(ntop, frames, maxSize)
    requires forall k :: 0 < k < |frames| ==> !BothEnds(AllAnswers(ntop, frames[..k]))
    requires rest == [] || BothEnds(AllAnswers(ntop, frames))
    ensures Received(ntop, StreamOf(frames) + rest, 0, maxSize, []) == AllAnswers(ntop, frames)
  {
    hide DecodedMessage;
    forall k | 0 < k < |frames| ensures !BothEnds([] + AllAnswers(ntop, frames[..k])) {
      assert [] + AllAnswers(ntop, frames[..k]) == AllAnswers(ntop, frames[..k]);
    }
    assert [] + AllAnswers(ntop, frames) == AllAnswers(ntop, frames);
    var stream := StreamOf(frames) + rest;
    assert frames[..|frames|] == frames && stream[0..] == stream;
    ReceivedFrom(ntop, stream, 0, frames, rest, maxSize, []);
  }

  /** A refresh that received these records. */
  lemma RefreshedBy(ntop: Ntop, pton: Pton, zone: Name, existing: Rrs, all: Rrs)
    requires |all| >= 2
    ensures var r := Committed(ntop, pton, zone, existing, QueuedAll(NOTHING, RefreshOps(existing, all)));
      var more := all[..|all| - 1];
      && (r.threw <==> SomeUnfillable(ntop, pton, more)) && (!r.threw ==> U.AllStored(ntop, pton, more, r.records))
  {
    hide U.AllStored, Extended, Committed, RefreshOps, QueuedAll, SomeUnfillable, FilledInto;
    var more := all[..|all| - 1];
    P.RefreshReplaces(ntop, pton, zone, existing, all);
    ExtendedFills(ntop, pton, [], more);
    var e := Extended(ntop, pton, [], more);
    if !e.threw {
      U.AddingStores(ntop, pton, [], more);
      assert e.records[0..] == e.records;
    }
  }

  /**
   A refresh from such a stream: fewer than two records change nothing, and otherwise the
   zone holds exactly what came without the closing record, in its order, whatever it held.
   */
  lemma RefreshedInOrder(ntop: Ntop, pton: Pton, zone: Name, existing: Rrs, frames: seq<Bytes>, rest: Bytes,
                         maxSize: nat)
    requires Readable(ntop, frames, maxSize)
    requires forall k :: 0 < k < |frames| ==> !BothEnds(AllAnswers(ntop, frames[..k]))
    requires rest == [] || BothEnds(AllAnswers(ntop, frames))
    ensures var all := AllAnswers(ntop, frames); var n := |all|;
      var r := Refreshed(ntop, pton, zone, existing, StreamOf(frames) + rest, maxSize);
      if n < 2 then r == Outgoing(existing, false)
      else
        && (r.threw <==> SomeUnfillable(ntop, pton, all[..n - 1]))
        && (!r.threw ==> U.AllStored(ntop, pton, all[..n - 1], r.records))
  {
    hide DecodedMessage, BothEnds, Received, StreamOf, U.AllStored, Committed, RefreshOps, QueuedAll, AllAnswers,
         SomeUnfillable;
    ReceivedInOrder(ntop, frames, rest, maxSize);
    var all := AllAnswers(ntop, frames);
    if |all| >= 2 { RefreshedBy(ntop, pton, zone, existing, all); }
  }
}
