/** The receiving end of a transfer: frames written to a hidden partial file,
    verified, and put in place under the first free name -- or nothing left behind
    (cli/src/commands/file/receive.rs). */
module Receive {
  import opened Basics
  import opened Frames
  import FileName

  const MAX_SUFFIX := 9999

  // What the frames amount to

  /** The data in the first `n` frames. */
  function Payloads(frames: seq<Frame>, n: nat): seq<Byte>
    requires n <= |frames|
  {
    if n == 0 then []
    else Payloads(frames, n - 1) + if frames[n - 1].Data? then frames[n - 1].data else []
  }

  /** The last hash among the first `n` frames. */
  function LastHash(frames: seq<Frame>, n: nat): Option<Digest>
    requires n <= |frames|
  {
    if n == 0 then None
    else if frames[n - 1].Hash? then Some(frames[n - 1].hash)
    else LastHash(frames, n - 1)
  }

  predicate IsBody(f: Frame) {
    f.Data? || f.Hash?
  }

  /** The first frame from `i` on that is neither data nor a hash, or the end. */
  function BodyEnd(frames: seq<Frame>, i: nat): (k: nat)
    requires i <= |frames|
    ensures i <= k <= |frames| && (k < |frames| ==> !IsBody(frames[k]))
    ensures forall j :: i <= j < k ==> IsBody(frames[j])
    decreases |frames| - i
  {
    if i < |frames| && IsBody(frames[i]) then BodyEnd(frames, i + 1) else i
  }

  lemma {:induction false} PayloadsGrow(frames: seq<Frame>, m: nat, n: nat)
    requires m <= n <= |frames|
    ensures Payloads(frames, m) <= Payloads(frames, n)
  {
    if m < n {
      PayloadsGrow(frames, m, n - 1);
    }
  }

  /** Everything before the first end is data or hashes, the data is exactly as
      long as was offered, and the last hash is the data's. */
  predicate IsWhole(frames: seq<Frame>, size: nat, digest: seq<Byte> -> Digest) {
    var k := BodyEnd(frames, 0);
    && k < |frames| && frames[k].End?
    && |Payloads(frames, k)| == size
    && LastHash(frames, k) == Some(digest(Payloads(frames, k)))
  }

  // Where it goes

  /** The names tried for a file, in turn. */
  function Candidates(name: string): nat -> string {
    (n: nat) => if n == 0 then name else FileName.Numbered(name, n)
  }

  /** What is outside this program's hands: whether the disk writes frame `i`, flushes
      the file, and renames it to a name that is free; and the files of everyone else,
      who go on using the directory, as they are when candidate `n` is tried. */
  datatype Disk = Disk(
    writes: nat -> bool, syncs: bool, renames: string -> bool, others: nat -> map<string, seq<Byte>>)

  /** The disk takes the data in the first `n` frames. */
  predicate Writes(disk: Disk, frames: seq<Frame>, n: nat)
    requires n <= |frames|
  {
    forall i :: 0 <= i < n && frames[i].Data? ==> disk.writes(i)
  }

  /** Something has this name when candidate `n` is tried. */
  predicate IsTaken(disk: Disk, temp: string, target: string, n: nat) {
    target == temp || target in disk.others(n)
  }

  /** Each candidate before this one was taken when it was tried, and this one is free. */
  ghost predicate IsFirstFree(disk: Disk, temp: string, names: nat -> string, n: nat) {
    && n <= MAX_SUFFIX && !IsTaken(disk, temp, names(n), n)
    && forall j :: 0 <= j < n ==> IsTaken(disk, temp, names(j), j)
  }

  /** Some candidate is free when it is tried, and the disk moves the file to the first. */
  ghost predicate CanFinish(disk: Disk, temp: string, names: nat -> string) {
    disk.syncs && exists n :: IsFirstFree(disk, temp, names, n) && disk.renames(names(n))
  }

  /** The file is under the first free candidate, beside all that others had by then,
      and the partial file is gone. */
  ghost predicate IsPlaced(
    disk: Disk, temp: string, names: nat -> string, data: seq<Byte>, target: string, files: map<string, seq<Byte>>)
  {
    exists n ::
      && IsFirstFree(disk, temp, names, n) && target == names(n)
      && files == (disk.others(n) - {temp})[target := data]
  }

  /** Only others' files are there: those of before, or those of some later moment. */
  ghost predicate IsLeftAlone(disk: Disk, temp: string, before: map<string, seq<Byte>>, files: map<string, seq<Byte>>) {
    files == before - {temp} || exists n :: 0 <= n <= MAX_SUFFIX && files == disk.others(n) - {temp}
  }

  // The partial file

  /** How a rename that refuses to replace anything ends. */
  datatype Rename = Moved | Exists | Failed

  class Directory {
    var files: map<string, seq<Byte>>

    constructor (initial: map<string, seq<Byte>>)
      ensures files == initial
    {
      files := initial;
    }

    /** Everyone else's files become these; the partial file is this program's alone. */
    method Meanwhile(others: map<string, seq<Byte>>, temp: string)
      requires temp in files
      modifies this
      ensures files == (others - {temp})[temp := old(files)[temp]]
    {
      files := (others - {temp})[temp := files[temp]];
    }

    method RenameNoReplace(disk: Disk, from: string, to: string) returns (r: Rename)
      requires from in files
      modifies this
      ensures r.Exists? <==> to in old(files)
      ensures r.Moved? <==> to !in old(files) && disk.renames(to)
      ensures r.Moved? ==> files == (old(files) - {from})[to := old(files)[from]]
      ensures !r.Moved? ==> files == old(files)
    {
      if to in files {
        return Exists;
      }
      if !disk.renames(to) {
        return Failed;
      }
      files := (files - {from})[to := files[from]];
      r := Moved;
    }
  }

  class PartFile {
    const dir: Directory
    const temp: string

    ghost predicate Open()
      reads dir
    {
      temp in dir.files
    }

    function Contents(): seq<Byte>
      requires Open()
      reads dir
    {
      dir.files[temp]
    }

    constructor (dir: Directory, temp: string)
      requires temp !in dir.files
      modifies dir
      ensures this.dir == dir && this.temp == temp
      ensures dir.files == old(dir.files)[temp := []]
    {
      this.dir, this.temp := dir, temp;
      new;
      dir.files := dir.files[temp := []];
    }

    method Write(data: seq<Byte>)
      requires Open()
      modifies dir
      ensures dir.files == old(dir.files)[temp := old(Contents()) + data]
    {
      dir.files := dir.files[temp := dir.files[temp] + data];
    }

    /** Dropped without being kept: the partial file goes. */
    method Drop()
      modifies dir
      ensures dir.files == old(dir.files) - {temp}
    {
      dir.files := dir.files - {temp};
    }

    /** Tries one candidate, in whatever directory others have left by then. */
    method Attempt(disk: Disk, names: nat -> string, n: nat) returns (r: Rename)
      requires Open()
      modifies dir
      ensures r.Exists? <==> IsTaken(disk, temp, names(n), n)
      ensures r.Moved? ==> disk.renames(names(n))
      ensures r.Failed? ==> !disk.renames(names(n))
      ensures dir.files == (disk.others(n) - {temp})[if r.Moved? then names(n) else temp := old(Contents())]
    {
      dir.Meanwhile(disk.others(n), temp);
      r := dir.RenameNoReplace(disk, temp, names(n));
      Gone(disk.others(n), temp, old(Contents()));
    }

    /** Tries the candidates in turn, up to the first that is free when it is tried. */
    method TryAll(disk: Disk, names: nat -> string) returns (saved: Option<string>)
      requires Open()
      modifies dir
      ensures saved.Some? <==> exists n :: IsFirstFree(disk, temp, names, n) && disk.renames(names(n))
      ensures saved.Some? ==> IsPlaced(disk, temp, names, old(Contents()), saved.value, dir.files)
      ensures saved.None? ==> IsLeftAlone(disk, temp, old(dir.files), dir.files - {temp})
    {
      var n := 0;
      while n <= MAX_SUFFIX
        invariant n <= MAX_SUFFIX + 1 && Open() && Contents() == old(Contents())
        invariant n > 0 ==> dir.files == (disk.others(n - 1) - {temp})[temp := old(Contents())]
        invariant forall j :: 0 <= j < n ==> IsTaken(disk, temp, names(j), j)
      {
        var moved := Attempt(disk, names, n);
        if moved.Moved? {
          return Some(names(n));
        }
        if moved.Failed? {
          OnlyFirst(disk, temp, names, n);
          Gone(disk.others(n), temp, old(Contents()));
          return None;
        }
        n := n + 1;
      }
      Gone(disk.others(n - 1), temp, old(Contents()));
      saved := None;
    }

    /** Flushes the file and moves it to the first candidate that is free when it is
        tried, or drops it: when it cannot be flushed, when every candidate is taken,
        or when the first free one is refused for any other reason. */
    method Finish(disk: Disk, name: string) returns (saved: Option<string>)
      requires Open()
      modifies dir
      ensures saved.Some? <==> CanFinish(disk, temp, Candidates(name))
      ensures saved.Some? ==> IsPlaced(disk, temp, Candidates(name), old(Contents()), saved.value, dir.files)
      ensures saved.None? ==> IsLeftAlone(disk, temp, old(dir.files), dir.files)
    {
      saved := None;
      if disk.syncs {
        saved := TryAll(disk, Candidates(name));
      }
      if saved.None? {
        Drop();
      }
    }
  }

  lemma Gone(others: map<string, seq<Byte>>, temp: string, data: seq<Byte>)
    ensures (others - {temp})[temp := data] - {temp} == others - {temp}
  {
  }

  /** There is only one first free candidate. */
  lemma OnlyFirst(disk: Disk, temp: string, names: nat -> string, n: nat)
    requires IsFirstFree(disk, temp, names, n)
    ensures forall m :: IsFirstFree(disk, temp, names, m) ==> m == n
  {
    forall m: nat | IsFirstFree(disk, temp, names, m)
      ensures m == n
    {
      assert n < m ==> IsTaken(disk, temp, names(n), n);
      assert m < n ==> IsTaken(disk, temp, names(m), m);
    }
  }

  /** Whatever others had when the file was placed is there still. */
  lemma PlacedHarmsNobody(
    disk: Disk, temp: string, names: nat -> string, data: seq<Byte>, target: string, files: map<string, seq<Byte>>)
    requires IsPlaced(disk, temp, names, data, target, files)
    ensures exists n ::
              && IsFirstFree(disk, temp, names, n) && target !in disk.others(n) && files[target] == data
              && forall other :: other in disk.others(n) && other != temp ==>
                   other in files && files[other] == disk.others(n)[other]
  {
    var n :| IsFirstFree(disk, temp, names, n) && target == names(n)
             && files == (disk.others(n) - {temp})[target := data];
    assert !IsTaken(disk, temp, target, n);
  }

  // Receiving

  /** What the sender's side is told: the end frame, an error frame, or nothing. */
  datatype Verdict = Kept(target: string) | Refused | Abandoned

  /** Writes the data that comes before anything else does, unless it is more than was
      offered or the disk does not take it. */
  method TakeBody(part: PartFile, frames: seq<Frame>, size: nat, disk: Disk)
    returns (trailer: Option<Digest>, written: seq<Byte>, taken: bool)
    requires part.Open() && part.Contents() == []
    modifies part.dir
    ensures part.dir.files == old(part.dir.files)[part.temp := written]
    ensures |written| <= size && written <= Payloads(frames, |frames|)
    ensures var k := BodyEnd(frames, 0);
            && (taken <==> |Payloads(frames, k)| <= size && Writes(disk, frames, k))
            && (taken ==> written == Payloads(frames, k) && trailer == LastHash(frames, k))
  {
    ghost var before := part.dir.files;
    var received: nat := 0;
    trailer, written := None, [];
    var i := 0;
    while i < |frames| && IsBody(frames[i])
      invariant i <= BodyEnd(frames, 0)
      invariant part.dir.files == before[part.temp := written]
      invariant written == Payloads(frames, i) && trailer == LastHash(frames, i)
      invariant received == |written| <= size && Writes(disk, frames, i)
    {
      if frames[i].Data? {
        received := received + |frames[i].data|;
        if received > size {
          PayloadsGrow(frames, i + 1, BodyEnd(frames, 0));
          PayloadsGrow(frames, i, |frames|);
          return trailer, written, false;
        }
        if !disk.writes(i) {
          PayloadsGrow(frames, i, |frames|);
          return trailer, written, false;
        }
        part.Write(frames[i].data);
        written := written + frames[i].data;
      } else {
        trailer := Some(frames[i].hash);
      }
      i := i + 1;
    }
    PayloadsGrow(frames, i, |frames|);
    taken := true;
  }

  /** The end of a file that has been received: kept only if it is exactly what was
      offered and exactly what the sender read. */
  method Keep(
    part: PartFile, trailer: Option<Digest>, name: string, size: nat, digest: seq<Byte> -> Digest, disk: Disk)
    returns (verdict: Verdict)
    requires part.Open()
    modifies part.dir
    ensures !verdict.Abandoned?
    ensures verdict.Kept? <==>
              && |old(part.Contents())| == size && trailer == Some(digest(old(part.Contents())))
              && CanFinish(disk, part.temp, Candidates(name))
    ensures verdict.Kept? ==>
              IsPlaced(disk, part.temp, Candidates(name), old(part.Contents()), verdict.target, part.dir.files)
    ensures !verdict.Kept? ==> IsLeftAlone(disk, part.temp, old(part.dir.files), part.dir.files)
  {
    if |part.Contents()| != size || trailer != Some(digest(part.Contents())) {
      part.Drop();
      return Refused;
    }
    var saved := part.Finish(disk, name);
    verdict := if saved.None? then Refused else Kept(saved.value);
  }

  /** Receives one file. `frames` is what arrives before the link goes quiet. The
      file is placed if and only if the frames are whole, the disk takes them, and it
      moves the file to the first candidate free when tried; it holds exactly the data;
      nobody else's file has been touched, and the partial file is gone; and no more
      than the offered size is ever written. */
  method ReceiveFile(
    part: PartFile, frames: seq<Frame>, name: string, size: nat, digest: seq<Byte> -> Digest, disk: Disk)
    returns (verdict: Verdict, written: seq<Byte>)
    requires part.Open() && part.Contents() == []
    modifies part.dir
    ensures verdict.Kept? <==>
              && IsWhole(frames, size, digest) && Writes(disk, frames, BodyEnd(frames, 0))
              && CanFinish(disk, part.temp, Candidates(name))
    ensures verdict.Kept? ==>
              && |written| == size && written == Payloads(frames, BodyEnd(frames, 0))
              && IsPlaced(disk, part.temp, Candidates(name), written, verdict.target, part.dir.files)
    ensures !verdict.Kept? ==> IsLeftAlone(disk, part.temp, old(part.dir.files), part.dir.files)
    ensures verdict.Abandoned? <==>
              var k := BodyEnd(frames, 0);
              && |Payloads(frames, k)| <= size && Writes(disk, frames, k)
              && (k == |frames| || frames[k].Error?)
    ensures |written| <= size && written <= Payloads(frames, |frames|)
  {
    var trailer, taken;
    trailer, written, taken := TakeBody(part, frames, size, disk);
    var k := BodyEnd(frames, 0);
    if taken && k < |frames| && frames[k].End? {
      verdict := Keep(part, trailer, name, size, digest, disk);
      return;
    }
    part.Drop();
    verdict := if taken && (k == |frames| || frames[k].Error?) then Abandoned else Refused;
  }
}
