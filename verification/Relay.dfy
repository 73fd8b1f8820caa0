/** The daemons' relay loops: frames from one side passed to the other, counted
    against the offered size (`send` and `accept` in daemon/src/files/transfer.rs). */
module Relay {
  import opened Basics
  import opened Frames
  import opened Receive
  import Send

  /** How a relay ends: everything passed on, or why it stopped. */
  datatype Ending = Passed | TooMuch | TooLittle | GaveUp | BrokeProtocol | Stopped | HungUp

  /** A body that runs to its end and is as long as was offered. */
  predicate RunsToSize(frames: seq<Frame>, size: nat) {
    var k := BodyEnd(frames, 0);
    k < |frames| && frames[k].End? && |Payloads(frames, k)| == size
  }

  /** The relay is left to pass on the first `n` frames: no write fails, and the side
      it writes to says nothing. */
  predicate Undisturbed(disturbed: nat -> bool, n: nat) {
    forall j :: 0 <= j < n ==> !disturbed(j)
  }

  /** Passes frames on until the end, or until something is wrong; `disturbed` says of
      each frame whether passing it on fails, or the far side speaks up first. What is
      passed is a prefix of what came; it includes the end exactly when the body was
      complete and nothing disturbed it; and it never carries more than was offered. */
  method RelayBody(frames: seq<Frame>, size: nat, disturbed: nat -> bool)
    returns (passed: seq<Frame>, ending: Ending)
    ensures passed <= frames
    ensures ending.Passed? <==> RunsToSize(frames, size) && Undisturbed(disturbed, BodyEnd(frames, 0) + 1)
    ensures ending.Passed? ==> passed == frames[..BodyEnd(frames, 0) + 1]
    ensures !ending.Passed? ==> forall j :: 0 <= j < |passed| ==> IsBody(passed[j])
    ensures |Payloads(passed, |passed|)| <= size
  {
    var counted: nat := 0;
    passed := [];
    var i := 0;
    while i < |frames|
      invariant i <= BodyEnd(frames, 0) <= |frames| && passed == frames[..i]
      invariant forall j :: 0 <= j < i ==> IsBody(frames[j])
      invariant counted == |Payloads(frames, i)| <= size && Undisturbed(disturbed, i)
    {
      PayloadsOfPrefix(frames, i);
      match frames[i] {
        case Data(data) =>
          counted := counted + |data|;
          if counted > size {
            PayloadsGrow(frames, i + 1, BodyEnd(frames, 0));
            return passed, TooMuch;
          }
        case Hash(_) =>
        case End =>
          if counted != size {
            return passed, TooLittle;
          }
          if disturbed(i) {
            return passed, Stopped;
          }
          PayloadsOfPrefix(frames, i + 1);
          return passed + [End], Passed;
        case Error(_) => return passed, GaveUp;
        case Control(_) => return passed, BrokeProtocol;
      }
      if disturbed(i) {
        return passed, Stopped;
      }
      passed := passed + [frames[i]];
      i := i + 1;
    }
    PayloadsOfPrefix(frames, i);
    ending := HungUp;
  }

  lemma PayloadsOfPrefix(frames: seq<Frame>, n: nat)
    requires n <= |frames|
    ensures Payloads(frames[..n], n) == Payloads(frames, n) && LastHash(frames[..n], n) == LastHash(frames, n)
  {
    PrefixOfPrefix(frames, n, n);
  }

  lemma {:induction false} PrefixOfPrefix(frames: seq<Frame>, n: nat, k: nat)
    requires k <= n <= |frames|
    ensures Payloads(frames[..n], k) == Payloads(frames, k) && LastHash(frames[..n], k) == LastHash(frames, k)
  {
    if k > 0 {
      PrefixOfPrefix(frames, n, k - 1);
    }
  }

  /** What a relay passes on for these frames. */
  ghost predicate Relays(frames: seq<Frame>, size: nat, passed: seq<Frame>) {
    && (RunsToSize(frames, size) ==> passed == frames[..BodyEnd(frames, 0) + 1])
    && (!RunsToSize(frames, size) ==> forall j :: 0 <= j < |passed| ==> IsBody(passed[j]))
  }

  /** A relay neither spoils a file nor rescues one: the receiver keeps what was
      passed on if and only if it would have kept what was sent, and then it is the
      same file. */
  lemma RelayIsTransparent(frames: seq<Frame>, size: nat, passed: seq<Frame>, digest: seq<Byte> -> Digest)
    requires Relays(frames, size, passed)
    ensures IsWhole(passed, size, digest) <==> IsWhole(frames, size, digest)
    ensures IsWhole(frames, size, digest) ==>
              Payloads(passed, BodyEnd(passed, 0)) == Payloads(frames, BodyEnd(frames, 0))
  {
    var k := BodyEnd(frames, 0);
    if RunsToSize(frames, size) {
      PrefixOfPrefix(frames, k + 1, k);
      assert passed[k] == frames[k];
      assert forall j :: 0 <= j < k ==> passed[j] == frames[j];
      assert BodyEnd(passed, 0) == k;
    } else {
      assert BodyEnd(passed, 0) == |passed|;
    }
  }

  /** A disturbed relay can spoil a file, but never rescue one. */
  lemma StoppedRelayKeepsNothing(passed: seq<Frame>, size: nat, digest: seq<Byte> -> Digest)
    requires forall j :: 0 <= j < |passed| ==> IsBody(passed[j])
    ensures !IsWhole(passed, size, digest)
  {
    assert BodyEnd(passed, 0) == |passed|;
  }

  /** The file through both daemons: what reaches the receiving CLI is whole exactly
      when the file was unchanged and every frame got through all three links, and it
      is then the file that was read. */
  method Deliver(
    chunks: seq<Send.Read>, size: nat, digest: seq<Byte> -> Digest,
    link: nat -> bool, sending: nat -> bool, receiving: nat -> bool)
    returns (arrived: seq<Frame>, ok: bool)
    ensures var n := Send.FileEnd(chunks, 0) + 2;
            ok <==> Send.Unchanged(chunks, size) && Send.Takes(link, n)
                    && Undisturbed(sending, n) && Undisturbed(receiving, n)
    ensures ok <==> IsWhole(arrived, size, digest)
    ensures ok ==> Payloads(arrived, BodyEnd(arrived, 0)) == Send.Contents(chunks, Send.FileEnd(chunks, 0))
  {
    var sent, streamed := Send.Stream(chunks, size, digest, link);
    var relayed, first := RelayBody(sent, size, sending);
    assert sent[..|sent|] == sent;
    if !streamed {
      BrokenOffRelays(sent, size);
    }
    if !first.Passed? {
      BodyDoesNotRun(relayed, size);
    }
    var second;
    arrived, second := RelayBody(relayed, size, receiving);
    if !second.Passed? {
      StoppedRelayKeepsNothing(arrived, size, digest);
    }
    ok := second.Passed?;
  }

  lemma BrokenOffRelays(sent: seq<Frame>, size: nat)
    requires Send.BrokenOff(sent, size)
    ensures !RunsToSize(sent, size)
  {
  }

  lemma BodyDoesNotRun(passed: seq<Frame>, size: nat)
    requires forall j :: 0 <= j < |passed| ==> IsBody(passed[j])
    ensures !RunsToSize(passed, size)
  {
    assert BodyEnd(passed, 0) == |passed|;
  }
}
