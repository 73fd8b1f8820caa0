/** One file transfer as four parties see it: sending CLI, sending daemon, receiving
    daemon and receiving CLI, joined by three two-way FIFO links, any of them free
    to give up at any moment (daemon/src/files/transfer.rs,
    cli/src/commands/file/send.rs, cli/src/commands/file/receive.rs). */
module Transfer {
  import opened Basics
  import Frames

  type Digest = Frames.Digest

  /** Everything said on a link: the frames of a body, or a control message. */
  datatype Packet =
    | Data(data: seq<Byte>)
    | Hash(hash: Digest)
    | End
    | Error
    // Between the daemons
    | Offer(size: nat)
    | Queued
    | Accept
    | Reject
    | Committed
    // Between a daemon and its CLI
    | Incoming(size: nat)
    | Offered
    | Accepted
    | Rejected
    | Delivered

  /** One direction of a link: what was sent on it, and how much has been read. */
  datatype Link = Link(sent: seq<Packet>, got: nat)

  datatype SenderCli = Asking | Waiting | Streaming | Hashed | Sent | ToldDelivered | ScGone
  datatype SenderDaemon = SdIdle | Offering | Pending | Relaying | Confirming | Done | SdGone
  datatype ReceiverDaemon = RdIdle | Holding | Forwarding | Judging | Finished | RdGone
  datatype ReceiverCli = RcIdle | Answering | Receiving | Complete | Placed | Told | RcGone

  datatype World = World(
    size: nat,
    digest: seq<Byte> -> Digest,
    // The sending CLI, and what it has read of its file
    sc: SenderCli,
    streamed: seq<Byte>,
    // The sending daemon, and how many bytes it has relayed
    sd: SenderDaemon,
    relayed: nat,
    // The receiving daemon, the size it was offered and the bytes it has forwarded
    rd: ReceiverDaemon,
    offered: nat,
    forwarded: nat,
    // The receiving CLI: the size it was told, what it has written, and the file
    // it has put in place
    rc: ReceiverCli,
    told: nat,
    written: seq<Byte>,
    trailer: Option<Digest>,
    placed: Option<seq<Byte>>,
    up1: Link, up2: Link, up3: Link,
    down1: Link, down2: Link, down3: Link)

  const Quiet := Link([], 0)

  function Start(size: nat, digest: seq<Byte> -> Digest): World {
    World(size, digest, Asking, [], SdIdle, 0, RdIdle, 0, 0, RcIdle, 0, [], None, None,
          Quiet, Quiet, Quiet, Quiet, Quiet, Quiet)
  }

  function Say(l: Link, p: Packet): Link {
    l.(sent := l.sent + [p])
  }

  predicate Unread(l: Link) {
    l.got < |l.sent|
  }

  function Next(l: Link): Packet
    requires Unread(l)
  {
    l.sent[l.got]
  }

  function Read(l: Link): Link {
    l.(got := l.got + 1)
  }

  datatype Step =
    // Sending CLI
    | ScHears | ScChunk(data: seq<Byte>) | ScReadFails | ScEndOfFile | ScEnds | ScQuits
    // Sending daemon
    | SdOffers | SdHears | SdRelays | SdQuits
    // Receiving daemon
    | RdHears | RdRefuses | RdTaken | RdRejected | RdVerdict | RdQuits
    // Receiving CLI
    | RcAnswers | RcHears | RcDiskFails | RcPlaces(ok: bool) | RcTells | RcQuits

  // The sending CLI

  function ScHearsStep(w: World): World {
    if !Unread(w.down1) then w
    else
      var p, read := Next(w.down1), w.(down1 := Read(w.down1));
      match w.sc
      case Asking => if p.Offered? then read.(sc := Waiting) else w.(sc := ScGone)
      case Waiting => if p.Accepted? then read.(sc := Streaming) else w.(sc := ScGone)
      case Sent => if p.Delivered? then read.(sc := ToldDelivered) else w.(sc := ScGone)
      case _ => w
  }

  function ScChunkStep(w: World, data: seq<Byte>): World {
    if |w.streamed| + |data| > w.size then w.(up1 := Say(w.up1, Error), sc := ScGone)
    else w.(up1 := Say(w.up1, Data(data)), streamed := w.streamed + data)
  }

  function ScEndOfFileStep(w: World): World {
    if |w.streamed| != w.size then w.(up1 := Say(w.up1, Error), sc := ScGone)
    else w.(up1 := Say(w.up1, Hash(w.digest(w.streamed))), sc := Hashed)
  }

  // The sending daemon

  function SdHearsStep(w: World): World {
    if !Unread(w.down2) then w
    else
      var p, read := Next(w.down2), w.(down2 := Read(w.down2));
      match w.sd
      case Offering =>
        if p.Queued? then read.(sd := Pending, down1 := Say(w.down1, Offered))
        else w.(sd := SdGone, down1 := Say(w.down1, Error))
      case Pending =>
        if p.Accept? then read.(sd := Relaying, down1 := Say(w.down1, Accepted))
        else if p.Reject? then w.(sd := SdGone, down1 := Say(w.down1, Rejected))
        else w.(sd := SdGone, down1 := Say(w.down1, Error))
      case Relaying => w.(sd := SdGone, down1 := Say(w.down1, Error))
      case Confirming =>
        if p.Committed? then read.(sd := Done, down1 := Say(w.down1, Delivered))
        else w.(sd := SdGone, down1 := Say(w.down1, Error))
      case _ => w
  }

  function SdFails(w: World): World {
    w.(sd := SdGone, down1 := Say(w.down1, Error))
  }

  function SdRelaysStep(w: World): World {
    if !Unread(w.up1) then w
    else
      var p, read := Next(w.up1), w.(up1 := Read(w.up1), up2 := Say(w.up2, Next(w.up1)));
      match p
      case Data(data) => if w.relayed + |data| > w.size then SdFails(w) else read.(relayed := w.relayed + |data|)
      case Hash(_) => read
      case End => if w.relayed != w.size then SdFails(w) else read.(sd := Confirming)
      case Error => w.(sd := SdGone)
      case _ => SdFails(w)
  }

  // The receiving daemon

  function RdHearsStep(w: World): World {
    if !Unread(w.up2) then w
    else
      var p := Next(w.up2);
      match w.rd
      case RdIdle =>
        if p.Offer?
        then w.(up2 := Read(w.up2), rd := Holding, offered := p.size, down2 := Say(w.down2, Queued))
        else w.(rd := RdGone)
      case Forwarding => RdForwards(w, p)
      case _ => w
  }

  function RdFails(w: World): World {
    w.(rd := RdGone, up3 := Say(w.up3, Error))
  }

  function RdForwards(w: World, p: Packet): World {
    var read := w.(up2 := Read(w.up2), up3 := Say(w.up3, p));
    match p
    case Data(data) =>
      if w.forwarded + |data| > w.offered then RdFails(w) else read.(forwarded := w.forwarded + |data|)
    case Hash(_) => read
    case End => if w.forwarded != w.offered then RdFails(w) else read.(rd := Judging)
    case _ => RdFails(w)
  }

  function RdVerdictStep(w: World): World {
    if !Unread(w.down3) then w
    else
      var p, read := Next(w.down3), w.(down3 := Read(w.down3));
      if w.rd.Forwarding? then w.(rd := RdGone, down2 := Say(w.down2, Error))
      else if w.rd.Judging? then
        if p.End? then read.(rd := Finished, down2 := Say(w.down2, Committed))
        else if p.Error? then w.(rd := RdGone, down2 := Say(w.down2, Error))
        else w.(rd := RdGone)
      else w
  }

  // The receiving CLI

  function RcRefuses(w: World): World {
    w.(rc := RcGone, down3 := Say(w.down3, Error))
  }

  function RcHearsStep(w: World): World {
    if !Unread(w.up3) then w
    else
      var p, read := Next(w.up3), w.(up3 := Read(w.up3));
      match w.rc
      case Answering => if p.Incoming? then read.(rc := Receiving, told := p.size) else w.(rc := RcGone)
      case Receiving =>
        (match p
         case Data(data) =>
           if |w.written| + |data| > w.told then RcRefuses(w) else read.(written := w.written + data)
         case Hash(hash) => read.(trailer := Some(hash))
         case End =>
           if |w.written| != w.told || w.trailer != Some(w.digest(w.written)) then RcRefuses(w)
           else read.(rc := Complete)
         case Error => w.(rc := RcGone)
         case _ => RcRefuses(w))
      case _ => w
  }

  /** Each step as its party takes it. A write that fails is its party giving up,
      before the step if nothing got through and after it if something did. */
  function Apply(w: World, step: Step): World {
    match step
    case ScHears => ScHearsStep(w)
    case ScChunk(data) => ScChunkStep(w, data)
    case ScReadFails => w.(up1 := Say(w.up1, Error), sc := ScGone)
    case ScEndOfFile => ScEndOfFileStep(w)
    case ScEnds => w.(up1 := Say(w.up1, End), sc := Sent)
    case ScQuits => w.(sc := ScGone)
    case SdOffers => w.(sd := Offering, up2 := Say(w.up2, Offer(w.size)))
    case SdHears => SdHearsStep(w)
    case SdRelays => SdRelaysStep(w)
    case SdQuits => w.(sd := SdGone)
    case RdHears => RdHearsStep(w)
    case RdRefuses => w.(rd := RdGone, down2 := Say(w.down2, Reject))
    case RdTaken => w.(rd := Forwarding, down2 := Say(w.down2, Accept), up3 := Say(w.up3, Incoming(w.offered)))
    case RdRejected => w.(rd := RdGone, down2 := Say(w.down2, Reject))
    case RdVerdict => RdVerdictStep(w)
    case RdQuits => w.(rd := RdGone)
    case RcAnswers => w.(rc := Answering)
    case RcHears => RcHearsStep(w)
    case RcDiskFails => RcRefuses(w)
    case RcPlaces(ok) => if ok then w.(rc := Placed, placed := Some(w.written)) else RcRefuses(w)
    case RcTells => w.(rc := Told, down3 := Say(w.down3, End))
    case RcQuits => w.(rc := RcGone)
  }

  /** When a party can take a step. Giving up covers a hang-up at either end of a
      link, Ctrl+C, an expired window, a timeout and a roster that no longer has
      the peer: a party can do it at any time, unless it has already finished. */
  predicate Enabled(w: World, step: Step) {
    match step
    case ScHears => Unread(w.down1) && (w.sc.Asking? || w.sc.Waiting? || w.sc.Sent?)
    case ScChunk(data) => w.sc.Streaming? && data != []
    case ScReadFails => w.sc.Streaming?
    case ScEndOfFile => w.sc.Streaming?
    case ScEnds => w.sc.Hashed?
    case ScQuits => !w.sc.ToldDelivered?
    case SdOffers => w.sd.SdIdle?
    case SdHears => Unread(w.down2) && (w.sd.Offering? || w.sd.Pending? || w.sd.Relaying? || w.sd.Confirming?)
    case SdRelays => Unread(w.up1) && w.sd.Relaying?
    case SdQuits => !w.sd.Done?
    case RdHears => Unread(w.up2) && (w.rd.RdIdle? || w.rd.Forwarding?)
    case RdRefuses => w.rd.RdIdle?
    case RdTaken => w.rd.Holding? && w.rc.Answering?
    case RdRejected => w.rd.Holding?
    case RdVerdict => Unread(w.down3) && (w.rd.Forwarding? || w.rd.Judging?)
    case RdQuits => !w.rd.Finished?
    case RcAnswers => w.rc.RcIdle?
    case RcHears => Unread(w.up3) && (w.rc.Answering? || w.rc.Receiving?)
    case RcDiskFails => w.rc.Receiving?
    case RcPlaces(_) => w.rc.Complete?
    case RcTells => w.rc.Placed?
    case RcQuits => !w.rc.Told?
  }
}
