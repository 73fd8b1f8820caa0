/** The steps the parties to a transfer take one by one, run until they stop, are
    the loops of the program: the receiver's steps end with a file to place exactly
    when the receiving loop would place one, and each daemon's steps relay exactly
    what the relay loop does. */
module Loops {
  import opened Basics
  import opened Delivery
  import opened Transfer
  import Frames
  import Receive
  import Relay

  /** What comes behind the message a link opens with, as frames. */
  function BodyOf(sent: seq<Packet>): (frames: seq<Frames.Frame>)
    requires sent != []
    ensures |frames| == |sent| - 1
    ensures forall i :: 0 <= i < |frames| ==> frames[i] == FrameOf(sent[i + 1])
  {
    FramesOf(sent)[1..]
  }

  // The receiving CLI

  /** The receiving CLI reads until there is nothing to read, or nothing it wants. */
  function RcRun(w: World): World
    decreases if w.rc.Receiving? && Unread(w.up3) then 1 + |w.up3.sent| - w.up3.got else 0
  {
    if w.rc.Receiving? && Unread(w.up3) then RcRun(RcHearsStep(w)) else w
  }

  /** Where the loop is after `i` frames. */
  predicate RcAt(w: World, frames: seq<Frames.Frame>, i: nat) {
    && w.up3.sent != [] && frames == BodyOf(w.up3.sent) && i <= Receive.BodyEnd(frames, 0)
    && w.rc.Receiving? && w.up3.got == i + 1
    && w.written == Receive.Payloads(frames, i) && |w.written| <= w.told
    && w.trailer == Receive.LastHash(frames, i)
  }

  lemma RcNext(w: World, frames: seq<Frames.Frame>, i: nat)
    requires RcAt(w, frames, i) && Unread(w.up3) && Receive.IsBody(frames[i]) && Acceptable(w, Next(w.up3))
    ensures RcAt(RcHearsStep(w), frames, i + 1)
    ensures RcHearsStep(w).told == w.told && RcHearsStep(w).digest == w.digest
  {
  }

  lemma RcStops(w: World, frames: seq<Frames.Frame>, i: nat)
    requires RcAt(w, frames, i) && Unread(w.up3) && !Acceptable(w, Next(w.up3))
    ensures !RcHearsStep(w).rc.Complete? && !RcHearsStep(w).rc.Receiving?
    ensures !Receive.IsWhole(frames, w.told, w.digest)
  {
    if frames[i].Data? {
      Receive.PayloadsGrow(frames, i + 1, Receive.BodyEnd(frames, 0));
    }
  }

  lemma {:induction false} RcRunFrom(w: World, frames: seq<Frames.Frame>, i: nat)
    requires RcAt(w, frames, i)
    ensures RcRun(w).rc.Complete? <==> Receive.IsWhole(frames, w.told, w.digest)
    ensures RcRun(w).rc.Complete? ==> RcRun(w).written == Receive.Payloads(frames, Receive.BodyEnd(frames, 0))
    decreases |frames| - i
  {
    if Unread(w.up3) {
      if !Acceptable(w, Next(w.up3)) {
        RcStops(w, frames, i);
      } else if Receive.IsBody(frames[i]) {
        RcNext(w, frames, i);
        RcRunFrom(RcHearsStep(w), frames, i + 1);
      } else {
        assert Receive.BodyEnd(frames, 0) == i;
      }
    }
  }

  /** The receiver's steps over what it is sent end with a verified file exactly when
      the frames are whole, and it is then the file the loop would have placed. */
  lemma ReceiverStepsAreItsLoop(w: World)
    requires w.rc.Receiving? && w.up3.got == 1 && w.up3.sent != [] && w.written == [] && w.trailer.None?
    ensures var frames := BodyOf(w.up3.sent);
            && (RcRun(w).rc.Complete? <==> Receive.IsWhole(frames, w.told, w.digest))
            && (RcRun(w).rc.Complete? ==>
                  RcRun(w).written == Receive.Payloads(frames, Receive.BodyEnd(frames, 0)))
  {
    RcRunFrom(w, BodyOf(w.up3.sent), 0);
  }

  // The sending daemon

  function SdRun(w: World): World
    decreases if w.sd.Relaying? && Unread(w.up1) then 1 + |w.up1.sent| - w.up1.got else 0
  {
    if w.sd.Relaying? && Unread(w.up1) then SdRun(SdRelaysStep(w)) else w
  }

  predicate SdAt(w: World, frames: seq<Frames.Frame>, i: nat) {
    && frames == FramesOf(w.up1.sent) && i <= Receive.BodyEnd(frames, 0)
    && w.sd.Relaying? && w.up1.got == i
    && w.relayed == |Receive.Payloads(frames, i)| <= w.size
  }

  /** What a relay has passed on: this many packets, as they came. */
  predicate Passed(before: seq<Packet>, after: seq<Packet>, from: seq<Packet>, i: nat, j: nat) {
    i <= j <= |from| && after == before + from[i..j]
  }

  lemma PassedOneMore(before: seq<Packet>, after: seq<Packet>, from: seq<Packet>, i: nat, j: nat)
    requires i < |from| && Passed(before + [from[i]], after, from, i + 1, j)
    ensures Passed(before, after, from, i, j)
  {
    assert from[i..j] == [from[i]] + from[i + 1..j];
  }

  lemma {:induction false} SdRunFrom(w: World, frames: seq<Frames.Frame>, i: nat)
    requires SdAt(w, frames, i)
    ensures var end := SdRun(w);
            && (end.sd.Confirming? <==> Relay.RunsToSize(frames, w.size))
            && Passed(w.up2.sent, end.up2.sent, w.up1.sent, i, end.up1.got)
            && end.up1.got <= Receive.BodyEnd(frames, 0) + 1
            && (end.sd.Confirming? <==> end.up1.got == Receive.BodyEnd(frames, 0) + 1)
    decreases |frames| - i
  {
    if !Unread(w.up1) {
      assert w.up1.sent[i..i] == [];
    } else if SdGoesOn(w, Next(w.up1)) {
      SdRunFrom(SdRelaysStep(w), frames, i + 1);
      PassedOneMore(w.up2.sent, SdRun(w).up2.sent, w.up1.sent, i, SdRun(w).up1.got);
    } else {
      SdRunStops(w, frames, i);
    }
  }

  predicate SdGoesOn(w: World, p: Packet) {
    match p
    case Data(data) => w.relayed + |data| <= w.size
    case Hash(_) => true
    case _ => false
  }

  lemma SdRunStops(w: World, frames: seq<Frames.Frame>, i: nat)
    requires SdAt(w, frames, i) && Unread(w.up1) && !SdGoesOn(w, Next(w.up1))
    ensures var end := SdRun(w);
            && (end.sd.Confirming? <==> Relay.RunsToSize(frames, w.size))
            && Passed(w.up2.sent, end.up2.sent, w.up1.sent, i, end.up1.got)
            && (end.sd.Confirming? <==> end.up1.got == Receive.BodyEnd(frames, 0) + 1)
            && end.up1.got <= Receive.BodyEnd(frames, 0) + 1
  {
    assert SdRun(w) == SdRelaysStep(w);
    assert w.up1.sent[i..i] == [] && w.up1.sent[i..i + 1] == [w.up1.sent[i]];
    if frames[i].Data? {
      Receive.PayloadsGrow(frames, i + 1, Receive.BodyEnd(frames, 0));
    } else {
      assert Receive.BodyEnd(frames, 0) == i;
    }
  }

  /** The sending daemon's steps pass on what the relay loop passes on, and reach the
      end exactly when it does. */
  lemma SenderStepsAreTheRelay(w: World)
    requires w.sd.Relaying? && w.up1.got == 0 && w.relayed == 0
    ensures var frames, end := FramesOf(w.up1.sent), SdRun(w);
            && (end.sd.Confirming? <==> Relay.RunsToSize(frames, w.size))
            && end.up1.got <= |w.up1.sent|
            && end.up2.sent == w.up2.sent + w.up1.sent[..end.up1.got]
            && Relay.Relays(frames, w.size, frames[..end.up1.got])
  {
    var frames := FramesOf(w.up1.sent);
    SdRunFrom(w, frames, 0);
    assert w.up1.sent[0..SdRun(w).up1.got] == w.up1.sent[..SdRun(w).up1.got];
  }

  // The receiving daemon

  function RdRun(w: World): World
    decreases if w.rd.Forwarding? && Unread(w.up2) then 1 + |w.up2.sent| - w.up2.got else 0
  {
    if w.rd.Forwarding? && Unread(w.up2) then RdRun(RdHearsStep(w)) else w
  }

  predicate RdAt(w: World, frames: seq<Frames.Frame>, i: nat) {
    && w.up2.sent != [] && frames == BodyOf(w.up2.sent) && i <= Receive.BodyEnd(frames, 0)
    && w.rd.Forwarding? && w.up2.got == i + 1
    && w.forwarded == |Receive.Payloads(frames, i)| <= w.offered
  }

  predicate RdGoesOn(w: World, p: Packet) {
    match p
    case Data(data) => w.forwarded + |data| <= w.offered
    case Hash(_) => true
    case _ => false
  }

  /** What the receiving daemon says once it stops: nothing more, or that it gave up. */
  predicate PassedOrGaveUp(before: seq<Packet>, after: seq<Packet>, from: seq<Packet>, i: nat, j: nat) {
    i <= j <= |from| && (after == before + from[i..j] || after == before + from[i..j] + [Error])
  }

  lemma PassedOrGaveUpOneMore(before: seq<Packet>, after: seq<Packet>, from: seq<Packet>, i: nat, j: nat)
    requires i < |from| && PassedOrGaveUp(before + [from[i]], after, from, i + 1, j)
    ensures PassedOrGaveUp(before, after, from, i, j)
  {
    assert from[i..j] == [from[i]] + from[i + 1..j];
  }

  lemma {:induction false} RdRunFrom(w: World, frames: seq<Frames.Frame>, i: nat)
    requires RdAt(w, frames, i)
    ensures var end := RdRun(w);
            && (end.rd.Judging? <==> Relay.RunsToSize(frames, w.offered))
            && PassedOrGaveUp(w.up3.sent, end.up3.sent, w.up2.sent, i + 1, end.up2.got)
            && end.up2.got <= Receive.BodyEnd(frames, 0) + 2
            && (end.rd.Judging? <==> end.up2.got == Receive.BodyEnd(frames, 0) + 2)
    decreases |frames| - i
  {
    if !Unread(w.up2) {
      assert w.up2.sent[i + 1..i + 1] == [];
    } else if RdGoesOn(w, Next(w.up2)) {
      RdRunFrom(RdHearsStep(w), frames, i + 1);
      PassedOrGaveUpOneMore(w.up3.sent, RdRun(w).up3.sent, w.up2.sent, i + 1, RdRun(w).up2.got);
    } else {
      RdRunStops(w, frames, i);
    }
  }

  lemma RdRunStops(w: World, frames: seq<Frames.Frame>, i: nat)
    requires RdAt(w, frames, i) && Unread(w.up2) && !RdGoesOn(w, Next(w.up2))
    ensures var end := RdRun(w);
            && (end.rd.Judging? <==> Relay.RunsToSize(frames, w.offered))
            && PassedOrGaveUp(w.up3.sent, end.up3.sent, w.up2.sent, i + 1, end.up2.got)
            && (end.rd.Judging? <==> end.up2.got == Receive.BodyEnd(frames, 0) + 2)
            && end.up2.got <= Receive.BodyEnd(frames, 0) + 2
  {
    assert RdRun(w) == RdHearsStep(w);
    assert w.up2.sent[i + 1..i + 1] == [] && w.up2.sent[i + 1..i + 2] == [w.up2.sent[i + 1]];
    if frames[i].Data? {
      Receive.PayloadsGrow(frames, i + 1, Receive.BodyEnd(frames, 0));
    } else {
      assert Receive.BodyEnd(frames, 0) == i;
    }
  }

  /** So do the receiving daemon's, which then says at most that it gave up. */
  lemma ReceiverDaemonStepsAreTheRelay(w: World)
    requires w.rd.Forwarding? && w.up2.sent != [] && w.up2.got == 1 && w.forwarded == 0
    ensures var frames, end := BodyOf(w.up2.sent), RdRun(w);
            && (end.rd.Judging? <==> Relay.RunsToSize(frames, w.offered))
            && 1 <= end.up2.got <= |w.up2.sent|
            && PassedOrGaveUp(w.up3.sent, end.up3.sent, w.up2.sent, 1, end.up2.got)
            && Relay.Relays(frames, w.offered, frames[..end.up2.got - 1])
  {
    RdRunFrom(w, BodyOf(w.up2.sent), 0);
  }
}
