/** End-to-end delivery: in every reachable state of the four-party transfer, each
    hop has seen a prefix of the hop before, and nothing is called delivered unless
    the receiver already has exactly the bytes the sender streamed. */
module Delivery {
  import opened Basics
  import opened Runs
  import opened Transfer
  import Frames
  import Receive

  // What a link has carried

  /** A packet as the frame it is on the wire; a message is a control frame. */
  function FrameOf(p: Packet): Frames.Frame {
    match p
    case Data(data) => Frames.Data(data)
    case Hash(hash) => Frames.Hash(hash)
    case End => Frames.End
    case Error => Frames.Error([])
    case _ => Frames.Control([])
  }

  function FramesOf(sent: seq<Packet>): (frames: seq<Frames.Frame>)
    ensures |frames| == |sent|
    ensures forall i :: 0 <= i < |sent| ==> frames[i] == FrameOf(sent[i])
  {
    seq(|sent|, i requires 0 <= i < |sent| => FrameOf(sent[i]))
  }

  function DataOf(p: Packet): seq<Byte> {
    if p.Data? then p.data else []
  }

  /** The bytes in the first `n` packets. */
  function Payload(sent: seq<Packet>, n: nat): seq<Byte>
    requires n <= |sent|
  {
    Receive.Payloads(FramesOf(sent), n)
  }

  /** The last hash in the first `n` packets. */
  function LastHash(sent: seq<Packet>, n: nat): Option<Digest>
    requires n <= |sent|
  {
    Receive.LastHash(FramesOf(sent), n)
  }

  /** The first `n` packets of two links are the same, up to the control message
      each starts with. */
  predicate Alike(a: seq<Packet>, b: seq<Packet>, n: nat) {
    && n <= |a| && n <= |b|
    && (forall i :: 1 <= i < n ==> a[i] == b[i])
  }

  predicate Opens(p: Packet) {
    p.Offer? || p.Incoming?
  }

  lemma OpeningIsEmpty(sent: seq<Packet>)
    requires sent != [] && Opens(sent[0])
    ensures Payload(sent, 1) == [] && LastHash(sent, 1) == None
  {
    var frames := FramesOf(sent);
    assert frames[0] == Frames.Control([]);
    assert Receive.Payloads(frames, 0) == [] && Receive.LastHash(frames, 0) == None;
  }

  lemma {:induction false} AlikePayload(a: seq<Packet>, b: seq<Packet>, n: nat)
    requires Alike(a, b, n) && n >= 1 && Opens(a[0]) && Opens(b[0])
    ensures Payload(a, n) == Payload(b, n) && LastHash(a, n) == LastHash(b, n)
  {
    if n > 1 {
      AlikePayload(a, b, n - 1);
    } else {
      OpeningIsEmpty(a);
      OpeningIsEmpty(b);
    }
  }

  /** `b` is `a` one place later, behind an opening message. */
  predicate Behind(a: seq<Packet>, b: seq<Packet>, n: nat) {
    && n <= |a| && |b| == n + 1 && Opens(b[0])
    && (forall i :: 0 <= i < n ==> b[i + 1] == a[i])
  }

  lemma {:induction false} BehindPayload(a: seq<Packet>, b: seq<Packet>, n: nat, k: nat)
    requires Behind(a, b, n) && k <= n
    ensures Payload(b, k + 1) == Payload(a, k) && LastHash(b, k + 1) == LastHash(a, k)
  {
    if k > 0 {
      BehindPayload(a, b, n, k - 1);
      assert b[k] == a[k - 1];
    } else {
      OpeningIsEmpty(b);
    }
  }

  lemma {:induction false} PayloadStays(sent: seq<Packet>, p: Packet, n: nat)
    requires n <= |sent|
    ensures Payload(sent + [p], n) == Payload(sent, n) && LastHash(sent + [p], n) == LastHash(sent, n)
  {
    if n > 0 {
      PayloadStays(sent, p, n - 1);
    }
  }

  // What holds of each hop

  /** An end on the first link closes the whole file, under its own hash. */
  predicate EndsFile(sent: seq<Packet>, i: nat, streamed: seq<Byte>, size: nat, hash: Digest)
    requires i < |sent|
  {
    sent[i].End? ==> Payload(sent, i) == streamed && |streamed| == size && LastHash(sent, i) == Some(hash)
  }

  /** The sending CLI has said exactly what it streamed. */
  ghost predicate ScGood(sc: SenderCli, sent: seq<Packet>, streamed: seq<Byte>, size: nat, hash: Digest) {
    && Payload(sent, |sent|) == streamed && |streamed| <= size
    && (forall i :: 0 <= i < |sent| ==> EndsFile(sent, i, streamed, size, hash))
    && (sc.Asking? || sc.Waiting? ==> sent == [])
    && (!Closed(sc) ==> forall i :: 0 <= i < |sent| ==> !sent[i].End?)
    && (sc.Hashed? ==> |streamed| == size && LastHash(sent, |sent|) == Some(hash))
  }

  /** The sending CLI streams nothing more. */
  predicate Closed(sc: SenderCli) {
    sc.Sent? || sc.ToldDelivered? || sc.ScGone?
  }

  /** The sending daemon has passed on all it has read, behind its offer. */
  predicate SdGood(sd: SenderDaemon, relayed: nat, up1: Link, sent: seq<Packet>, size: nat) {
    && relayed <= size
    && (sent == [] <==> sd.SdIdle? || (sd.SdGone? && sent == []))
    && (sent == [] ==> up1.got == 0)
    && (sent != [] ==> sent[0] == Offer(size) && Behind(up1.sent, sent, up1.got))
    && (sd.SdIdle? || sd.Offering? || sd.Pending? ==> up1.got == 0 && relayed == 0)
    && (sd.Relaying? ==> relayed == |Payload(up1.sent, up1.got)|)
  }

  /** The receiving daemon has forwarded all it has read, behind its own opening,
      and said nothing more but that it gave up. */
  predicate RdGood(rd: ReceiverDaemon, offered: nat, forwarded: nat, up2: Link, sent: seq<Packet>, size: nat) {
    && up2.got <= |up2.sent| && (up2.got > 0 ==> offered == size)
    && (rd.RdIdle? ==> up2.got == 0 && sent == [] && forwarded == 0)
    && (rd.Holding? ==> up2.got == 1 && sent == [] && forwarded == 0)
    && (rd.Forwarding? || rd.Judging? || rd.Finished? ==> sent != [] && |sent| == up2.got)
    && (sent != [] ==> sent[0] == Incoming(size) && up2.got >= 1 && Alike(up2.sent, sent, up2.got))
    && (forall i :: up2.got <= i < |sent| ==> sent[i].Error?)
    && (rd.Forwarding? ==> forwarded == |Payload(up2.sent, up2.got)|)
  }

  predicate Took(rc: ReceiverCli) {
    rc.Receiving? || rc.Complete? || rc.Placed? || rc.Told?
  }

  /** The receiving CLI has written exactly what it has read, and goes past an end
      only with the whole of it. */
  predicate RcGood(
    rc: ReceiverCli, told: nat, written: seq<Byte>, trailer: Option<Digest>, placed: Option<seq<Byte>>, up3: Link,
    size: nat, streamed: seq<Byte>, closed: bool)
  {
    && up3.got <= |up3.sent| && |written| <= told
    && (rc.RcIdle? || rc.Answering? ==> up3.got == 0 && written == [] && trailer.None?)
    && (Took(rc) ==> up3.got >= 1 && up3.sent[0] == Incoming(size) && told == size)
    && (Took(rc) ==> written == Payload(up3.sent, up3.got) && trailer == LastHash(up3.sent, up3.got))
    && (Took(rc) && !rc.Receiving? ==> |written| == size && written == streamed && closed)
    && (rc.Placed? || rc.Told? ==> placed == Some(written))
    && (placed.Some? ==> placed.value == streamed && |streamed| == size && closed)
  }

  /** No good news without the file in place. */
  predicate NewsGood(
    sc: SenderCli, sd: SenderDaemon, placed: bool, down1: seq<Packet>, down2: seq<Packet>, down3: seq<Packet>)
  {
    && (End in down3 ==> placed)
    && (Committed in down2 ==> placed)
    && (Delivered in down1 ==> sd.Done?)
    && (sd.Done? ==> placed)
    && (sc.ToldDelivered? ==> sd.Done?)
  }

  /** Nothing is streamed before the far user has said yes. */
  predicate ConsentGood(
    sc: SenderCli, rc: ReceiverCli, up1: seq<Packet>, down1: seq<Packet>, down2: seq<Packet>)
  {
    && (sc.Streaming? || sc.Hashed? || up1 != [] ==> Accepted in down1)
    && (Accepted in down1 ==> Accept in down2)
    && (Accept in down2 ==> !rc.RcIdle?)
  }

  ghost predicate Good(w: World) {
    && ScGood(w.sc, w.up1.sent, w.streamed, w.size, w.digest(w.streamed))
    && SdGood(w.sd, w.relayed, w.up1, w.up2.sent, w.size)
    && RdGood(w.rd, w.offered, w.forwarded, w.up2, w.up3.sent, w.size)
    && RcGood(w.rc, w.told, w.written, w.trailer, w.placed, w.up3, w.size, w.streamed, Closed(w.sc))
    && NewsGood(w.sc, w.sd, w.placed.Some?, w.down1.sent, w.down2.sent, w.down3.sent)
    && ConsentGood(w.sc, w.rc, w.up1.sent, w.down1.sent, w.down2.sent)
  }

  // More on a link, and the hop beyond it does not notice

  lemma SdUnmoved(sd: SenderDaemon, relayed: nat, up1: Link, sent: seq<Packet>, size: nat, p: Packet)
    requires SdGood(sd, relayed, up1, sent, size)
    ensures SdGood(sd, relayed, Say(up1, p), sent, size)
  {
    if up1.got <= |up1.sent| {
      PayloadStays(up1.sent, p, up1.got);
    }
  }

  lemma RdUnmoved(
    rd: ReceiverDaemon, offered: nat, forwarded: nat, up2: Link, sent: seq<Packet>, size: nat, p: Packet)
    requires RdGood(rd, offered, forwarded, up2, sent, size)
    ensures RdGood(rd, offered, forwarded, Say(up2, p), sent, size)
  {
    PayloadStays(up2.sent, p, up2.got);
  }

  lemma RcUnmoved(w: World, p: Packet)
    requires RcGood(w.rc, w.told, w.written, w.trailer, w.placed, w.up3, w.size, w.streamed, Closed(w.sc))
    ensures RcGood(w.rc, w.told, w.written, w.trailer, w.placed, Say(w.up3, p), w.size, w.streamed, Closed(w.sc))
  {
    PayloadStays(w.up3.sent, p, w.up3.got);
  }

  lemma NextWasSent(l: Link)
    requires Unread(l)
    ensures Next(l) in l.sent
  {
  }

  // The sending CLI's steps

  lemma ScSays(
    sc: SenderCli, sent: seq<Packet>, streamed: seq<Byte>, size: nat, hash: Digest,
    p: Packet, next: SenderCli, after: Digest)
    requires ScGood(sc, sent, streamed, size, hash) && (sc.Streaming? || sc.Hashed?)
    requires |streamed + DataOf(p)| <= size && (DataOf(p) == [] ==> after == hash)
    requires p.End? ==> sc.Hashed? && next.Sent?
    requires next.Hashed? ==> p == Hash(after) && |streamed| == size
    requires next.Streaming? || next.Hashed? || next.Sent? || next.ScGone?
    ensures ScGood(next, sent + [p], streamed + DataOf(p), size, after)
  {
    PayloadStays(sent, p, |sent|);
    forall i | 0 <= i < |sent + [p]|
      ensures EndsFile(sent + [p], i, streamed + DataOf(p), size, after)
    {
      assert i < |sent| ==> (sent + [p])[i] == sent[i];
    }
  }

  /** While the sending CLI still has something to say, nothing has been placed. */
  lemma ScSaysKeeps(w: World, p: Packet, sc: SenderCli)
    requires Good(w) && (w.sc.Streaming? || w.sc.Hashed?)
    requires |w.streamed + DataOf(p)| <= w.size
    requires p.End? ==> w.sc.Hashed? && sc.Sent?
    requires sc.Hashed? ==> p == Hash(w.digest(w.streamed)) && |w.streamed| == w.size
    requires sc == Streaming || sc.Hashed? || sc.Sent? || sc.ScGone?
    ensures Good(w.(up1 := Say(w.up1, p), streamed := w.streamed + DataOf(p), sc := sc))
  {
    assert DataOf(p) == [] ==> w.streamed + DataOf(p) == w.streamed;
    ScSays(w.sc, w.up1.sent, w.streamed, w.size, w.digest(w.streamed), p, sc, w.digest(w.streamed + DataOf(p)));
    SdUnmoved(w.sd, w.relayed, w.up1, w.up2.sent, w.size, p);
  }

  lemma ScSpeaksKeeps(w: World, step: Step)
    requires Good(w) && Enabled(w, step) && (step.ScChunk? || step.ScReadFails? || step.ScEndOfFile? || step.ScEnds?)
    ensures Good(Apply(w, step))
  {
    assert w.streamed + [] == w.streamed;
    match step
    case ScChunk(data) =>
      if |w.streamed| + |data| > w.size {
        ScSaysKeeps(w, Error, ScGone);
      } else {
        ScSaysKeeps(w, Data(data), Streaming);
      }
    case ScReadFails => ScSaysKeeps(w, Error, ScGone);
    case ScEndOfFile =>
      if |w.streamed| != w.size {
        ScSaysKeeps(w, Error, ScGone);
      } else {
        ScSaysKeeps(w, Hash(w.digest(w.streamed)), Hashed);
      }
    case ScEnds => ScSaysKeeps(w, End, Sent);
  }

  lemma ScTurns(w: World, sc: SenderCli, down1: Link)
    requires Good(w) && down1.sent == w.down1.sent
    requires || (w.sc.Asking? && sc.Waiting?)
             || (w.sc.Waiting? && sc.Streaming? && Accepted in down1.sent)
             || (w.sc.Sent? && sc.ToldDelivered? && Delivered in down1.sent)
             || sc.ScGone?
    ensures Good(w.(down1 := down1, sc := sc))
  {
  }

  lemma ScHearsKeeps(w: World)
    requires Good(w) && Enabled(w, ScHears)
    ensures Good(Apply(w, ScHears))
  {
    var p := Next(w.down1);
    NextWasSent(w.down1);
    if w.sc.Asking? && p.Offered? {
      ScTurns(w, Waiting, Read(w.down1));
    } else if w.sc.Waiting? && p.Accepted? {
      ScTurns(w, Streaming, Read(w.down1));
    } else if w.sc.Sent? && p.Delivered? {
      ScTurns(w, ToldDelivered, Read(w.down1));
    } else {
      ScTurns(w, ScGone, w.down1);
    }
  }

  // The sending daemon's steps

  lemma SdPasses(
    sd: SenderDaemon, relayed: nat, up1: Link, sent: seq<Packet>, size: nat, more: nat, next: SenderDaemon)
    requires SdGood(sd, relayed, up1, sent, size) && sd.Relaying? && Unread(up1)
    requires more == relayed + |DataOf(Next(up1))| && more <= size && (next.Relaying? || next.Confirming?)
    ensures SdGood(next, more, Read(up1), sent + [Next(up1)], size)
  {
  }

  /** The sending daemon moves on, having said something to its CLI. */
  lemma SdTurns(w: World, sd: SenderDaemon, p: Packet, down2: Link)
    requires Good(w) && down2.sent == w.down2.sent && w.up2.sent != []
    requires || (w.sd.Offering? && sd.Pending? && p.Offered?)
             || (w.sd.Pending? && sd.Relaying? && p.Accepted? && Accept in down2.sent)
             || (w.sd.Confirming? && sd.Done? && p.Delivered? && Committed in down2.sent)
             || (sd.SdGone? && !w.sd.Done? && (p.Error? || p.Rejected?))
    ensures Good(w.(down2 := down2, sd := sd, down1 := Say(w.down1, p)))
  {
    assert Payload(w.up1.sent, 0) == [];
  }

  lemma SdRelaysKeeps(w: World)
    requires Good(w) && Enabled(w, SdRelays)
    ensures Good(Apply(w, SdRelays))
  {
    var p := Next(w.up1);
    if p.Data? && w.relayed + |p.data| <= w.size {
      SdPassesKeeps(w, w.relayed + |p.data|, Relaying);
    } else if p.Hash? {
      SdPassesKeeps(w, w.relayed, Relaying);
    } else if p.End? && w.relayed == w.size {
      SdPassesKeeps(w, w.relayed, Confirming);
    } else if p.Error? {
      SdQuitsKeeps(w);
    } else {
      SdTurns(w, SdGone, Error, w.down2);
    }
  }

  lemma SdPassesKeeps(w: World, relayed: nat, sd: SenderDaemon)
    requires Good(w) && w.sd.Relaying? && Unread(w.up1)
    requires relayed == w.relayed + |DataOf(Next(w.up1))| && relayed <= w.size && (sd.Relaying? || sd.Confirming?)
    ensures Good(w.(up1 := Read(w.up1), up2 := Say(w.up2, Next(w.up1)), relayed := relayed, sd := sd))
  {
    RdUnmoved(w.rd, w.offered, w.forwarded, w.up2, w.up3.sent, w.size, Next(w.up1));
    SdPasses(w.sd, w.relayed, w.up1, w.up2.sent, w.size, relayed, sd);
  }

  lemma SdQuitsKeeps(w: World)
    requires Good(w) && !w.sd.Done?
    ensures Good(w.(sd := SdGone))
  {
  }

  lemma SdHearsKeeps(w: World)
    requires Good(w) && Enabled(w, SdHears)
    ensures Good(Apply(w, SdHears))
  {
    var p := Next(w.down2);
    NextWasSent(w.down2);
    if w.sd.Offering? && p.Queued? {
      SdTurns(w, Pending, Offered, Read(w.down2));
    } else if w.sd.Pending? && p.Accept? {
      SdTurns(w, Relaying, Accepted, Read(w.down2));
    } else if w.sd.Confirming? && p.Committed? {
      SdTurns(w, Done, Delivered, Read(w.down2));
    } else if w.sd.Pending? && p.Reject? {
      SdTurns(w, SdGone, Rejected, w.down2);
    } else {
      SdTurns(w, SdGone, Error, w.down2);
    }
  }

  lemma SdOffersKeeps(w: World)
    requires Good(w) && w.sd.SdIdle?
    ensures Good(Apply(w, SdOffers))
  {
    RdUnmoved(w.rd, w.offered, w.forwarded, w.up2, w.up3.sent, w.size, Offer(w.size));
  }

  // The receiving daemon's steps

  lemma RdPasses(
    rd: ReceiverDaemon, offered: nat, forwarded: nat, up2: Link, sent: seq<Packet>, size: nat, more: nat,
    next: ReceiverDaemon)
    requires RdGood(rd, offered, forwarded, up2, sent, size) && rd.Forwarding? && Unread(up2)
    requires more == forwarded + |DataOf(Next(up2))| && (next.Forwarding? || next.Judging?)
    ensures RdGood(next, offered, more, Read(up2), sent + [Next(up2)], size)
  {
  }

  lemma RdBreaksOff(
    rd: ReceiverDaemon, offered: nat, forwarded: nat, up2: Link, sent: seq<Packet>, size: nat)
    requires RdGood(rd, offered, forwarded, up2, sent, size) && rd.Forwarding?
    ensures RdGood(RdGone, offered, forwarded, up2, sent + [Error], size)
  {
  }

  lemma RdForwardsKeeps(w: World)
    requires Good(w) && Unread(w.up2) && w.rd.Forwarding?
    ensures Good(Apply(w, RdHears))
  {
    var p := Next(w.up2);
    if p.Data? && w.forwarded + |p.data| <= w.offered {
      RcUnmoved(w, p);
      RdPasses(w.rd, w.offered, w.forwarded, w.up2, w.up3.sent, w.size, w.forwarded + |p.data|, Forwarding);
    } else if p.Hash? {
      RcUnmoved(w, p);
      RdPasses(w.rd, w.offered, w.forwarded, w.up2, w.up3.sent, w.size, w.forwarded, Forwarding);
    } else if p.End? && w.forwarded == w.offered {
      RcUnmoved(w, p);
      RdPasses(w.rd, w.offered, w.forwarded, w.up2, w.up3.sent, w.size, w.forwarded, Judging);
    } else {
      RcUnmoved(w, Error);
      RdBreaksOff(w.rd, w.offered, w.forwarded, w.up2, w.up3.sent, w.size);
    }
  }

  lemma RdListensKeeps(w: World)
    requires Good(w) && Unread(w.up2) && w.rd.RdIdle?
    ensures Good(Apply(w, RdHears))
  {
  }

  lemma RdOpens(offered: nat, up2: Link, size: nat)
    requires RdGood(Holding, offered, 0, up2, [], size) && up2.sent[0].Offer?
    ensures RdGood(Forwarding, offered, 0, up2, [Incoming(offered)], size)
  {
    assert Payload(up2.sent, 1) == Payload(up2.sent, 0) + DataOf(up2.sent[0]);
  }

  lemma RdTakenKeeps(w: World)
    requires Good(w) && Enabled(w, RdTaken)
    ensures Good(Apply(w, RdTaken))
  {
    RcUnmoved(w, Incoming(w.offered));
    RdOpens(w.offered, w.up2, w.size);
    assert [] + [Incoming(w.offered)] == [Incoming(w.offered)];
  }

  /** The receiving daemon moves on, having said something to the other. */
  lemma RdTurns(w: World, rd: ReceiverDaemon, p: Packet, down3: Link)
    requires Good(w) && down3.sent == w.down3.sent
    requires || (w.rd.Judging? && rd.Finished? && p.Committed? && End in down3.sent)
             || (rd.RdGone? && (p.Error? || p.Reject?))
    ensures Good(w.(down3 := down3, rd := rd, down2 := Say(w.down2, p)))
  {
  }

  lemma RdQuitsKeeps(w: World)
    requires Good(w)
    ensures Good(w.(rd := RdGone))
  {
  }

  lemma RdVerdictKeeps(w: World)
    requires Good(w) && Enabled(w, RdVerdict)
    ensures Good(Apply(w, RdVerdict))
  {
    var p := Next(w.down3);
    NextWasSent(w.down3);
    if w.rd.Judging? && p.End? {
      RdTurns(w, Finished, Committed, Read(w.down3));
    } else if w.rd.Judging? && !p.Error? {
      RdQuitsKeeps(w);
    } else {
      RdTurns(w, RdGone, Error, w.down3);
    }
  }

  // The receiving CLI's steps

  /** An end that has come all the way down the three links closes the whole file:
      what came with it is what was streamed, under its own hash. */
  lemma EndReached(w: World, k: nat)
    requires Good(w) && 1 <= k < |w.up3.sent| && w.up3.sent[k].End?
    ensures Payload(w.up3.sent, k) == w.streamed && |w.streamed| == w.size
    ensures LastHash(w.up3.sent, k) == Some(w.digest(w.streamed))
    ensures Closed(w.sc)
  {
    assert k < w.up2.got;
    assert w.up2.sent[k] == w.up3.sent[k];
    assert w.up1.sent[k - 1] == w.up2.sent[k];
    AlikePayload(w.up2.sent, w.up3.sent, k);
    BehindPayload(w.up1.sent, w.up2.sent, w.up1.got, k - 1);
    assert EndsFile(w.up1.sent, k - 1, w.streamed, w.size, w.digest(w.streamed));
  }

  lemma RcReads(
    told: nat, written: seq<Byte>, trailer: Option<Digest>, placed: Option<seq<Byte>>, up3: Link,
    size: nat, streamed: seq<Byte>, closed: bool, rc: ReceiverCli)
    requires RcGood(Receiving, told, written, trailer, placed, up3, size, streamed, closed) && Unread(up3)
    requires |written + DataOf(Next(up3))| <= told
    requires rc.Receiving? || (rc.Complete? && Next(up3).End? && |written| == size && written == streamed && closed)
    ensures var p := Next(up3);
            RcGood(rc, told, written + DataOf(p), if p.Hash? then Some(p.hash) else trailer, placed, Read(up3),
                   size, streamed, closed)
  {
  }

  lemma RcReadsKeeps(w: World, rc: ReceiverCli)
    requires Good(w) && Unread(w.up3) && w.rc.Receiving?
    requires |w.written + DataOf(Next(w.up3))| <= w.told
    requires rc.Receiving? || (rc.Complete? && Next(w.up3).End?)
    ensures var p := Next(w.up3);
            Good(w.(up3 := Read(w.up3), rc := rc, written := w.written + DataOf(p),
                    trailer := if p.Hash? then Some(p.hash) else w.trailer))
  {
    if rc.Complete? {
      EndReached(w, w.up3.got);
    }
    RcReads(w.told, w.written, w.trailer, w.placed, w.up3, w.size, w.streamed, Closed(w.sc), rc);
    RdReadMore(w, Read(w.up3));
  }

  /** Reading on a link is no business of the hop before it. */
  lemma RdReadMore(w: World, up3: Link)
    requires Good(w) && up3.sent == w.up3.sent
    ensures RdGood(w.rd, w.offered, w.forwarded, w.up2, up3.sent, w.size)
  {
  }

  lemma RcTurns(w: World, rc: ReceiverCli, down3: Link)
    requires Good(w) && (rc.RcGone? || (w.rc.RcIdle? && rc.Answering?) || (w.rc.Placed? && rc.Told?))
    requires down3.sent == w.down3.sent || (down3 == Say(w.down3, Error) && rc.RcGone?)
             || (down3 == Say(w.down3, End) && rc.Told?)
    ensures Good(w.(rc := rc, down3 := down3))
  {
  }

  /** Whether the receiving CLI takes what it reads, rather than stopping there. */
  predicate Acceptable(w: World, p: Packet) {
    match p
    case Data(data) => |w.written| + |data| <= w.told
    case Hash(_) => true
    case End => |w.written| == w.told && w.trailer == Some(w.digest(w.written))
    case _ => false
  }

  lemma RcTakesKeeps(w: World)
    requires Good(w) && Unread(w.up3) && w.rc.Receiving? && Acceptable(w, Next(w.up3))
    ensures Good(RcHearsStep(w))
  {
    assert w.written + [] == w.written;
    RcReadsKeeps(w, if Next(w.up3).End? then Complete else Receiving);
  }

  lemma RcStopsKeeps(w: World)
    requires Good(w) && Unread(w.up3) && w.rc.Receiving? && !Acceptable(w, Next(w.up3))
    ensures Good(RcHearsStep(w))
  {
    if Next(w.up3).Error? {
      RcTurns(w, RcGone, w.down3);
    } else {
      RcTurns(w, RcGone, Say(w.down3, Error));
    }
  }

  lemma RcHearsBody(w: World)
    requires Good(w) && Unread(w.up3) && w.rc.Receiving?
    ensures Good(RcHearsStep(w))
  {
    if Acceptable(w, Next(w.up3)) {
      RcTakesKeeps(w);
    } else {
      RcStopsKeeps(w);
    }
  }

  lemma RcStarts(told: nat, placed: Option<seq<Byte>>, up3: Link, size: nat, streamed: seq<Byte>, closed: bool)
    requires RcGood(Answering, told, [], None, placed, up3, size, streamed, closed) && Unread(up3)
    requires Next(up3) == Incoming(size)
    ensures RcGood(Receiving, size, [], None, placed, Read(up3), size, streamed, closed)
  {
    assert Payload(up3.sent, 1) == Payload(up3.sent, 0) + DataOf(up3.sent[0]);
    assert LastHash(up3.sent, 1) == LastHash(up3.sent, 0);
  }

  lemma RcStartsKeeps(w: World)
    requires Good(w) && Unread(w.up3) && w.rc.Answering?
    ensures Good(Apply(w, RcHears))
  {
    if Next(w.up3).Incoming? {
      RcStarts(w.told, w.placed, w.up3, w.size, w.streamed, Closed(w.sc));
    } else {
      RcTurns(w, RcGone, w.down3);
    }
  }

  lemma RcPlacesKeeps(w: World)
    requires Good(w) && w.rc.Complete?
    ensures Good(w.(rc := Placed, placed := Some(w.written)))
  {
  }

  predicate AtReceiver(step: Step) {
    || step.RdHears? || step.RdRefuses? || step.RdTaken? || step.RdRejected? || step.RdVerdict? || step.RdQuits?
    || step.RcAnswers? || step.RcHears? || step.RcDiskFails? || step.RcPlaces? || step.RcTells? || step.RcQuits?
  }

  lemma SenderKeeps(w: World, step: Step)
    requires Good(w) && Enabled(w, step) && !AtReceiver(step)
    ensures Good(Apply(w, step))
  {
    match step
    case ScHears => ScHearsKeeps(w);
    case ScQuits => ScTurns(w, ScGone, w.down1);
    case SdOffers => SdOffersKeeps(w);
    case SdHears => SdHearsKeeps(w);
    case SdQuits => SdQuitsKeeps(w);
    case SdRelays => SdRelaysKeeps(w);
    case _ => ScSpeaksKeeps(w, step);
  }

  lemma ReceiverKeeps(w: World, step: Step)
    requires Good(w) && Enabled(w, step) && AtReceiver(step)
    ensures Good(Apply(w, step))
  {
    match step
    case RdHears =>
      if w.rd.RdIdle? {
        RdListensKeeps(w);
      } else {
        RdForwardsKeeps(w);
      }
    case RdTaken => RdTakenKeeps(w);
    case RdRefuses => RdTurns(w, RdGone, Reject, w.down3);
    case RdRejected => RdTurns(w, RdGone, Reject, w.down3);
    case RdVerdict => RdVerdictKeeps(w);
    case RdQuits => RdQuitsKeeps(w);
    case RcHears =>
      if w.rc.Receiving? {
        RcHearsBody(w);
      } else {
        RcStartsKeeps(w);
      }
    case RcAnswers => RcTurns(w, Answering, w.down3);
    case RcDiskFails => RcTurns(w, RcGone, Say(w.down3, Error));
    case RcPlaces(ok) =>
      if ok {
        RcPlacesKeeps(w);
      } else {
        RcTurns(w, RcGone, Say(w.down3, Error));
      }
    case RcTells => RcTurns(w, Told, Say(w.down3, End));
    case RcQuits => RcTurns(w, RcGone, w.down3);
  }

  lemma ApplyKeeps(w: World, step: Step)
    requires Good(w) && Enabled(w, step)
    ensures Good(Apply(w, step))
  {
    if AtReceiver(step) {
      ReceiverKeeps(w, step);
    } else {
      SenderKeeps(w, step);
    }
  }

  lemma StartsGood(size: nat, digest: seq<Byte> -> Digest)
    ensures Good(Start(size, digest))
  {
  }

  /** Any transfer at all, of any size, by any digest. */
  ghost predicate Happened(states: seq<World>, steps: seq<Step>) {
    IsRun(Apply, Enabled, states, steps) && states[0] == Start(states[0].size, states[0].digest)
  }

  lemma RunIsGood(states: seq<World>, steps: seq<Step>, n: nat)
    requires Happened(states, steps) && n < |states|
    ensures Good(states[n])
  {
    StartsGood(states[0].size, states[0].digest);
    forall w, step | Good(w) && Enabled(w, step)
      ensures Good(Apply(w, step))
    {
      ApplyKeeps(w, step);
    }
    Keeps(Apply, Enabled, w => Good(w), states, steps, n);
  }

  // What it comes to

  /** In every reachable state, whatever anyone gave up on and whenever: if the
      sender's offer is done, or its CLI was told so, the receiving CLI has already
      placed a file of the offered size holding exactly the bytes streamed. */
  lemma DeliveredMeansPlaced(states: seq<World>, steps: seq<Step>, n: nat)
    requires Happened(states, steps) && n < |states|
    requires var w := states[n];
             w.sd.Done? || w.sc.ToldDelivered? || Delivered in w.down1.sent
    ensures var w := states[n];
            w.placed == Some(w.streamed) && |w.streamed| == w.size
  {
    RunIsGood(states, steps, n);
  }

  /** A file the receiver keeps is right even when the sender never hears of it:
      whatever has been placed is exactly what was streamed, in full. */
  lemma PlacedMeansWhole(states: seq<World>, steps: seq<Step>, n: nat)
    requires Happened(states, steps) && n < |states|
    ensures var w := states[n];
            w.placed.Some? ==> w.placed.value == w.streamed && |w.streamed| == w.size
  {
    RunIsGood(states, steps, n);
  }

  /** Each hop has passed on a prefix of what it was told, byte counts included:
      what has been written is a prefix of what was forwarded, that of what was
      relayed, and that of what was streamed, never more than was offered. */
  lemma EachHopIsAPrefix(states: seq<World>, steps: seq<Step>, n: nat)
    requires Happened(states, steps) && n < |states|
    ensures var w := states[n];
            && Payload(w.up2.sent, |w.up2.sent|) <= w.streamed
            && Payload(w.up3.sent, |w.up3.sent|) <= Payload(w.up2.sent, |w.up2.sent|)
            && (w.rc.Receiving? ==> w.written <= Payload(w.up3.sent, |w.up3.sent|))
            && |w.streamed| <= w.size
            && (w.sd.Relaying? ==> w.relayed == |Payload(w.up2.sent, |w.up2.sent|)|)
            && (w.rd.Forwarding? ==> w.forwarded == |Payload(w.up3.sent, |w.up3.sent|)|)
  {
    RunIsGood(states, steps, n);
    HopsAreOrdered(states[n]);
  }

  lemma {:induction false} ErrorsCarryNothing(sent: seq<Packet>, m: nat, n: nat)
    requires m <= n <= |sent| && forall i :: m <= i < n ==> sent[i].Error?
    ensures Payload(sent, n) == Payload(sent, m)
  {
    if m < n {
      ErrorsCarryNothing(sent, m, n - 1);
    }
  }

  lemma HopsAreOrdered(w: World)
    requires Good(w)
    ensures Payload(w.up2.sent, |w.up2.sent|) <= w.streamed
    ensures Payload(w.up3.sent, |w.up3.sent|) <= Payload(w.up2.sent, |w.up2.sent|)
    ensures w.rc.Receiving? ==> w.written <= Payload(w.up3.sent, |w.up3.sent|)
    ensures w.sd.Relaying? ==> w.relayed == |Payload(w.up2.sent, |w.up2.sent|)|
    ensures w.rd.Forwarding? ==> w.forwarded == |Payload(w.up3.sent, |w.up3.sent|)|
  {
    if w.up2.sent != [] {
      BehindPayload(w.up1.sent, w.up2.sent, w.up1.got, w.up1.got);
      Receive.PayloadsGrow(FramesOf(w.up1.sent), w.up1.got, |w.up1.sent|);
    }
    if w.up3.sent != [] {
      AlikePayload(w.up2.sent, w.up3.sent, w.up2.got);
      ErrorsCarryNothing(w.up3.sent, w.up2.got, |w.up3.sent|);
      Receive.PayloadsGrow(FramesOf(w.up2.sent), w.up2.got, |w.up2.sent|);
      Receive.PayloadsGrow(FramesOf(w.up3.sent), w.up3.got, |w.up3.sent|);
    }
  }

  lemma EndIsTaken(w: World)
    requires Good(w) && w.rc.Receiving? && Unread(w.up3) && Next(w.up3).End?
    ensures RcHearsStep(w).rc.Complete?
  {
    EndReached(w, w.up3.got);
  }

  /** A transfer that nobody gives up on is never refused for its contents: a
      receiver that reads the end has the offered size, under the right hash. */
  lemma EndIsNeverRefused(states: seq<World>, steps: seq<Step>, n: nat)
    requires Happened(states, steps) && n < |states|
    requires var w := states[n];
             w.rc.Receiving? && Unread(w.up3) && Next(w.up3).End?
    ensures RcHearsStep(states[n]).rc.Complete?
  {
    RunIsGood(states, steps, n);
    EndIsTaken(states[n]);
  }

  /** Nothing of the file leaves the sender until the receiving user has said yes: by
      then the receiving daemon has passed the answer on, and its CLI had asked. */
  lemma NothingBeforeConsent(states: seq<World>, steps: seq<Step>, n: nat)
    requires Happened(states, steps) && n < |states|
    ensures states[n].up1.sent != [] || states[n].streamed != [] ==> Accept in states[n].down2.sent
    ensures Accept in states[n].down2.sent ==> exists k :: 0 <= k < n && steps[k].RdTaken? && states[k].rc.Answering?
  {
    RunIsGood(states, steps, n);
    if Accept in states[n].down2.sent {
      AcceptWasTaken(states, steps, n);
    }
  }

  /** Only taking an offer for a CLI that is answering it says yes to the sender. */
  lemma OnlyTakenAccepts(w: World, step: Step)
    requires Enabled(w, step) && Accept in Apply(w, step).down2.sent && Accept !in w.down2.sent
    ensures step.RdTaken? && w.rc.Answering?
  {
  }

  lemma {:induction false} AcceptWasTaken(states: seq<World>, steps: seq<Step>, n: nat)
    requires Happened(states, steps) && n < |states| && Accept in states[n].down2.sent
    ensures exists k :: 0 <= k < n && steps[k].RdTaken? && states[k].rc.Answering?
  {
    assert n > 0;
    var w, step := states[n - 1], steps[n - 1];
    if Accept in w.down2.sent {
      AcceptWasTaken(states, steps, n - 1);
    } else {
      OnlyTakenAccepts(w, step);
    }
  }
}
