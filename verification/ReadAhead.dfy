/** The read-ahead frame reader (proto/src/frame.rs): a task that decodes frames
    into a bounded channel, and a consumer that may abandon any wait on it. */
module ReadAhead {
  import opened Basics
  import opened Frames
  import opened Runs

  const READ_AHEAD := 4

  type Item = Result<Frame, Failure>

  /** What successive reads return on a stream of these bytes that then stops. */
  function Items(wire: seq<Byte>): (items: seq<Item>)
    ensures |items| == |DecodeAll(wire).0| + 1
    ensures forall i :: 0 <= i < |items| ==>
              items[i] == if i < |items| - 1 then Ok(DecodeAll(wire).0[i]) else Err(DecodeAll(wire).1)
  {
    var all := DecodeAll(wire);
    seq(|all.0| + 1, i requires 0 <= i <= |all.0| => if i < |all.0| then Ok(all.0[i]) else Err(all.1))
  }

  /** `read` counts what the decoding task has read; `held` is what it is waiting to
      send; `taken` counts what the consumer took off the channel; `results` is
      everything `next` has returned. */
  datatype Reader = Reader(
    read: nat,
    held: Option<Item>,
    channel: seq<Item>,
    running: bool,
    taken: nat,
    results: seq<Item>)

  const Spawned := Reader(0, None, [], true, 0, [])

  datatype Step =
    | Decode     // the decoding task finishes reading one frame
    | Send       // the channel has room for what it holds
    | Next       // the consumer's wait ends with what is at the front
    | NextClosed // the channel is empty and its sender gone
    | Abandon    // the consumer drops the wait, having raced it against something

  predicate Enabled(items: seq<Item>, r: Reader, step: Step) {
    match step
    case Decode => r.running && r.held.None? && r.read < |items|
    case Send => r.running && r.held.Some? && |r.channel| < READ_AHEAD
    case Next => r.channel != []
    case NextClosed => r.channel == [] && !r.running
    case Abandon => true
  }

  function Apply(items: seq<Item>, r: Reader, step: Step): Reader {
    if !Enabled(items, r, step) then r else
    match step
    case Decode => r.(held := Some(items[r.read]), read := r.read + 1)
    // A failure is sent like a frame, and ends the decoding task.
    case Send => r.(channel := r.channel + [r.held.value], held := None, running := r.held.value.Ok?)
    case Next => r.(channel := r.channel[1..], taken := r.taken + 1, results := r.results + [r.channel[0]])
    case NextClosed => r.(results := r.results + [Err(UnexpectedEof)])
    case Abandon => r
  }

  /** Any interleaving at all, on a stream of these bytes. */
  ghost predicate Happened(wire: seq<Byte>, states: seq<Reader>, steps: seq<Step>) {
    var items := Items(wire);
    && IsRun((r, step) => Apply(items, r, step), (r, step) => Enabled(items, r, step), states, steps)
    && states[0] == Spawned
  }

  function Holding(r: Reader): seq<Item> {
    r.channel + if r.held.Some? then [r.held.value] else []
  }

  /** Nothing is lost, repeated or reordered between the stream and the consumer. */
  predicate Inv(wire: seq<Byte>, r: Reader) {
    var items := Items(wire);
    && |r.channel| <= READ_AHEAD
    && r.taken <= r.read <= |items|
    && items[r.taken..r.read] == Holding(r)
    && r.taken <= |r.results| && r.results[..r.taken] == items[..r.taken]
    && (forall i :: r.taken <= i < |r.results| ==> r.results[i] == Err(UnexpectedEof))
    && (|r.results| > r.taken ==> !r.running && r.taken == |items|)
    && (!r.running ==> r.read == |items| && r.held.None?)
  }

  lemma NextKeepsInv(wire: seq<Byte>, r: Reader)
    requires Inv(wire, r) && r.channel != []
    ensures Inv(wire, Apply(Items(wire), r, Next))
  {
    var items := Items(wire);
    var r' := Apply(items, r, Next);
    assert items[r.taken..r.read][1..] == items[r'.taken..r'.read];
    assert Holding(r') == Holding(r)[1..];
    assert items[r.taken] == Holding(r)[0];
    assert items[..r'.taken] == items[..r.taken] + [items[r.taken]];
    assert r.results == r.results[..r.taken];
    assert r'.results[..r'.taken] == r'.results;
  }

  lemma StepKeepsInv(wire: seq<Byte>, r: Reader, step: Step)
    requires Inv(wire, r) && Enabled(Items(wire), r, step)
    ensures Inv(wire, Apply(Items(wire), r, step))
  {
    var items := Items(wire);
    var r' := Apply(items, r, step);
    match step
    case Decode =>
      assert items[r'.taken..r'.read] == items[r.taken..r.read] + [items[r.read]];
    case Send =>
      assert Holding(r') == Holding(r);
      assert items[r.read - 1] == Holding(r)[|Holding(r)| - 1];
    case Next =>
      NextKeepsInv(wire, r);
    case NextClosed =>
      assert r'.results[..r'.taken] == r.results[..r.taken];
    case Abandon =>
  }

  lemma RunKeepsInv(wire: seq<Byte>, states: seq<Reader>, steps: seq<Step>, n: nat)
    requires Happened(wire, states, steps) && n < |states|
    ensures Inv(wire, states[n])
  {
    var items := Items(wire);
    forall r, step | Inv(wire, r) && Enabled(items, r, step)
      ensures Inv(wire, Apply(items, r, step))
    {
      StepKeepsInv(wire, r, step);
    }
    assert items[0..0] == Holding(Spawned);
    Keeps((r, step) => Apply(items, r, step), (r, step) => Enabled(items, r, step), r => Inv(wire, r),
          states, steps, n);
  }

  /** Under any interleaving of the decoding task and its consumer, abandoned waits
      included: what `next` returns is what the stream decodes to, from the
      start and in order, then only failures; the stream's own failure comes
      only after its last frame; and at most five frames are ever held. */
  lemma AnyInterleaving(wire: seq<Byte>, states: seq<Reader>, steps: seq<Step>, n: nat)
    requires Happened(wire, states, steps) && n < |states|
    ensures var r := states[n];
            && |Holding(r)| <= READ_AHEAD + 1
            && r.taken <= |r.results| && r.taken <= |Items(wire)|
            && r.results[..r.taken] == Items(wire)[..r.taken]
            && (forall i :: r.taken <= i < |r.results| ==> r.results[i].Err?)
            && (forall i :: 0 <= i < |r.results| ==> (r.results[i].Ok? <==> i < |Items(wire)| - 1))
  {
    RunKeepsInv(wire, states, steps, n);
    ResultsInOrder(wire, states[n]);
  }

  lemma ResultsInOrder(wire: seq<Byte>, r: Reader)
    requires Inv(wire, r)
    ensures forall i :: 0 <= i < |r.results| ==>
              r.results[i] == if i < |Items(wire)| then Items(wire)[i] else Err(UnexpectedEof)
  {
    forall i | 0 <= i < |r.results|
      ensures r.results[i] == if i < |Items(wire)| then Items(wire)[i] else Err(UnexpectedEof)
    {
      if i < r.taken {
        assert r.results[i] == r.results[..r.taken][i] == Items(wire)[i];
      }
    }
  }

  /** End to end over one link: a writer sends frames and goes away after any
      number of bytes; the reader's consumer sees a prefix of those frames and,
      once it sees a failure, has seen every frame that arrived whole. */
  lemma LinkDelivers(fs: seq<Frame>, cut: nat, states: seq<Reader>, steps: seq<Step>, n: nat)
    requires forall i :: 0 <= i < |fs| ==> Writable(fs[i])
    requires cut <= |EncodeAll(fs)|
    requires Happened(EncodeAll(fs)[..cut], states, steps) && n < |states|
    ensures var r := states[n];
            && Whole(fs, cut) <= |fs|
            && (forall i :: 0 <= i < |r.results| && i < Whole(fs, cut) ==> r.results[i] == Ok(fs[i]))
            && (forall i :: Whole(fs, cut) <= i < |r.results| ==> r.results[i] == Err(UnexpectedEof))
  {
    var wire := EncodeAll(fs)[..cut];
    DecodeCut(fs, cut);
    RunKeepsInv(wire, states, steps, n);
    ResultsInOrder(wire, states[n]);
  }
}
