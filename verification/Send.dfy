/** The originating end of a transfer: a file read once, hashed as it goes, and
    sent as data, the hash and an end frame (`stream` in
    cli/src/commands/file/send.rs). */
module Send {
  import opened Basics
  import opened Frames
  import opened Receive

  const GREW := "file grew"
  const SHRANK := "file shrank"
  const UNREADABLE := "read failed"

  /** What one read of the file gives: some bytes, none at its end, or a failure. */
  datatype Read = Bytes(data: seq<Byte>) | ReadFailed

  /** The first read from `i` on that gives no bytes, or the end. */
  function FileEnd(chunks: seq<Read>, i: nat): (k: nat)
    requires i <= |chunks|
    ensures i <= k <= |chunks|
    ensures k < |chunks| ==> chunks[k].ReadFailed? || chunks[k].data == []
    ensures forall j :: i <= j < k ==> chunks[j].Bytes? && chunks[j].data != []
    decreases |chunks| - i
  {
    if i < |chunks| && chunks[i].Bytes? && chunks[i].data != [] then FileEnd(chunks, i + 1) else i
  }

  /** The bytes of the first `n` chunks. */
  function Contents(chunks: seq<Read>, n: nat): seq<Byte>
    requires n <= |chunks|
  {
    if n == 0 then []
    else Contents(chunks, n - 1) + if chunks[n - 1].Bytes? then chunks[n - 1].data else []
  }

  lemma {:induction false} ContentsGrow(chunks: seq<Read>, m: nat, n: nat)
    requires m <= n <= |chunks|
    ensures Contents(chunks, m) <= Contents(chunks, n)
  {
    if m < n {
      ContentsGrow(chunks, m, n - 1);
    }
  }

  /** The file could be read to its end, and was as long as it had been. */
  predicate Unchanged(chunks: seq<Read>, size: nat) {
    var k := FileEnd(chunks, 0);
    (k < |chunks| ==> chunks[k].Bytes?) && |Contents(chunks, k)| == size
  }

  predicate AllData(frames: seq<Frame>) {
    forall j :: 0 <= j < |frames| ==> frames[j].Data?
  }

  lemma {:induction false} PayloadsPrefix(a: seq<Frame>, b: seq<Frame>, n: nat)
    requires n <= |a|
    ensures Payloads(a + b, n) == Payloads(a, n) && LastHash(a + b, n) == LastHash(a, n)
  {
    if n > 0 {
      PayloadsPrefix(a, b, n - 1);
    }
  }

  /** Data, its own hash and an end: frames a receiver will keep. */
  lemma TrailerMakesWhole(frames: seq<Frame>, digest: seq<Byte> -> Digest)
    requires AllData(frames)
    ensures var data := Payloads(frames, |frames|);
            var sent := frames + [Hash(digest(data)), End];
            && IsWhole(sent, |data|, digest)
            && BodyEnd(sent, 0) == |frames| + 1 && Payloads(sent, |frames| + 1) == data
  {
    var data := Payloads(frames, |frames|);
    var sent := frames + [Hash(digest(data)), End];
    PayloadsPrefix(frames, [Hash(digest(data)), End], |frames|);
    assert sent[|frames|] == Hash(digest(data)) && sent[|frames| + 1] == End;
    assert forall j :: 0 <= j < |frames| ==> sent[j] == frames[j];
    assert Payloads(sent, |frames| + 1) == data;
    assert LastHash(sent, |frames| + 1) == Some(digest(data));
  }

  /** Data and an error: frames no receiver keeps, whatever follows. */
  lemma ErrorSpoils(frames: seq<Frame>, message: string, more: seq<Frame>, size: nat, digest: seq<Byte> -> Digest)
    requires AllData(frames)
    ensures !IsWhole(frames + [Error(message)] + more, size, digest)
  {
    var sent := frames + [Error(message)] + more;
    assert sent[|frames|] == Error(message);
    assert forall j :: 0 <= j < |frames| ==> sent[j] == frames[j];
    assert BodyEnd(sent, 0) == |frames|;
  }

  /** Frames that stop short: no end among them, and no more than was offered. */
  predicate BrokenOff(frames: seq<Frame>, size: nat) {
    (forall j :: 0 <= j < |frames| ==> !frames[j].End?) && |Payloads(frames, |frames|)| <= size
  }

  /** Frames that stop short are never kept. */
  lemma BrokenOffIsNotWhole(frames: seq<Frame>, size: nat, digest: seq<Byte> -> Digest)
    requires BrokenOff(frames, size)
    ensures !IsWhole(frames, size, digest)
  {
  }

  /** Data, and the reason for giving up if the link still takes it. */
  function GivenUp(sent: seq<Frame>, message: string, link: nat -> bool): seq<Frame> {
    if link(|sent|) then sent + [Error(message)] else sent
  }

  lemma GivenUpBreaksOff(frames: seq<Frame>, message: string, link: nat -> bool, size: nat)
    requires AllData(frames) && |Payloads(frames, |frames|)| <= size
    ensures BrokenOff(GivenUp(frames, message, link), size)
  {
    PayloadsPrefix(frames, [Error(message)], |frames|);
  }

  /** A file that went out but for its end. */
  lemma HashBreaksOff(frames: seq<Frame>, hash: Digest, size: nat)
    requires AllData(frames) && |Payloads(frames, |frames|)| <= size
    ensures BrokenOff(frames + [Hash(hash)], size)
  {
    PayloadsPrefix(frames, [Hash(hash)], |frames|);
  }

  /** The link takes the first `n` frames. */
  predicate Takes(link: nat -> bool, n: nat) {
    forall j :: 0 <= j < n ==> link(j)
  }

  lemma OneMorePayload(frames: seq<Frame>, data: seq<Byte>)
    ensures Payloads(frames + [Data(data)], |frames| + 1) == Payloads(frames, |frames|) + data
  {
    PayloadsPrefix(frames, [Data(data)], |frames|);
  }

  /** The body of a stream: the file as data, for as long as it can be read, is no
      longer than offered, and gets through. */
  method StreamBody(chunks: seq<Read>, size: nat, link: nat -> bool)
    returns (sent: seq<Frame>, content: seq<Byte>, whole: bool)
    ensures whole <==> Unchanged(chunks, size) && Takes(link, FileEnd(chunks, 0))
    ensures whole ==> AllData(sent) && |sent| == FileEnd(chunks, 0)
    ensures whole ==> content == Contents(chunks, FileEnd(chunks, 0)) == Payloads(sent, |sent|)
    ensures !whole ==> BrokenOff(sent, size)
  {
    sent, content := [], [];
    var i := 0;
    while i < |chunks| && chunks[i].Bytes? && chunks[i].data != []
      invariant i <= FileEnd(chunks, 0) && AllData(sent) && |sent| == i
      invariant content == Contents(chunks, i) == Payloads(sent, |sent|)
      invariant |content| <= size && Takes(link, i)
    {
      var data := chunks[i].data;
      if |content| + |data| > size {
        ContentsGrow(chunks, i + 1, FileEnd(chunks, 0));
        GivenUpBreaksOff(sent, GREW, link, size);
        return GivenUp(sent, GREW, link), content, false;
      }
      if !link(i) {
        return sent, content, false;
      }
      OneMorePayload(sent, data);
      sent := sent + [Data(data)];
      content := content + data;
      i := i + 1;
    }
    if i < |chunks| && chunks[i].ReadFailed? {
      GivenUpBreaksOff(sent, UNREADABLE, link, size);
      return GivenUp(sent, UNREADABLE, link), content, false;
    }
    if |content| != size {
      GivenUpBreaksOff(sent, SHRANK, link, size);
      return GivenUp(sent, SHRANK, link), content, false;
    }
    whole := true;
  }

  /** Sends the file; `link` says of each frame whether it gets through. It succeeds
      exactly when the file could be read to its end, was neither longer nor shorter
      than offered, and every frame got through; what it sent is then whole for a
      receiver expecting that size, and carries exactly the file. Otherwise it stops
      short, and no receiver keeps what it sent. */
  method Stream(chunks: seq<Read>, size: nat, digest: seq<Byte> -> Digest, link: nat -> bool)
    returns (sent: seq<Frame>, ok: bool)
    ensures ok <==> Unchanged(chunks, size) && Takes(link, FileEnd(chunks, 0) + 2)
    ensures ok <==> IsWhole(sent, size, digest)
    ensures ok ==> |sent| == FileEnd(chunks, 0) + 2 == BodyEnd(sent, 0) + 1
    ensures ok ==> Payloads(sent, BodyEnd(sent, 0)) == Contents(chunks, FileEnd(chunks, 0))
    ensures !ok ==> BrokenOff(sent, size)
  {
    var content, whole;
    sent, content, whole := StreamBody(chunks, size, link);
    var n := |sent|;
    if !whole || !link(n) {
      BrokenOffIsNotWhole(sent, size, digest);
      return sent, false;
    }
    if !link(n + 1) {
      HashBreaksOff(sent, digest(content), size);
      sent := sent + [Hash(digest(content))];
      BrokenOffIsNotWhole(sent, size, digest);
      return sent, false;
    }
    TrailerMakesWhole(sent, digest);
    sent := sent + [Hash(digest(content)), End];
    ok := true;
  }
}
