/** The life of an offer made to this node, across all tasks that can end it: the
    one watching its connection, whoever answers it, and every roster change
    (`receive_offer`, `bury_incoming` and `take_answerable` in
    daemon/src/files/transfer.rs). */
module Offers {
  import opened Basics
  import opened Bookkeeping
  import opened Registry
  import opened Runs

  /** The watching task of an offer let in, one for each connection. */
  datatype Watcher = Telling(id: Id) | Watching(id: Id, deadline: Time) | Over

  datatype Ending = Accepted | Declined | Withdrawn | Lapsed | DroppedByRoster | NeverQueued

  /** `endings` is every ending each connection's offer has met; `buried` is the
      last reason recorded under each id. */
  datatype World = World(
    books: Books,
    clock: Time,
    watchers: map<Conn, Watcher>,
    endings: map<Conn, seq<Ending>>,
    buried: map<Id, (Time, string)>)

  function Start(clock: Time): World {
    World(Empty, clock, map[], map[], map[])
  }

  datatype Step =
    | Arrive(conn: Conn, peer: Key, name: string, size: nat, ttl: Time, now: Time, id: Id)
    | Told(conn: Conn)
    | CannotTell(conn: Conn)
    | ClosedByPeer(conn: Conn, why: string, now: Time)
    | OutOfTime(conn: Conn, why: string, now: Time)
    | Answer(id: Id, yes: bool, now: Time)
    | Roster(members: map<Key, string>)
    | Other(op: Locked)

  function EndingsOf(w: World, conn: Conn): seq<Ending> {
    if conn in w.endings then w.endings[conn] else []
  }

  function Ended(w: World, conn: Conn, e: Ending): map<Conn, seq<Ending>> {
    w.endings[conn := EndingsOf(w, conn) + [e]]
  }

  /** The connections whose offers a roster takes off the list. */
  function Dropped(b: Books, members: map<Key, string>): set<Conn> {
    set id | id in b.incoming && b.incoming[id].peer !in members :: b.incoming[id].conn
  }

  function BuryStep(w: World, conn: Conn, why: string, now: Time, e: Ending): World {
    if conn in w.watchers && w.watchers[conn].Watching? then
      var id := w.watchers[conn].id;
      var (books, buried) := Bury(w.books, id, conn, why, now);
      var over := w.(books := books, clock := now, watchers := w.watchers[conn := Over]);
      if buried then over.(endings := Ended(w, conn, e), buried := w.buried[id := (now, why)]) else over
    else w
  }

  function TakeStep(w: World, id: Id, now: Time, e: Ending): World {
    var (books, r) := Take(w.books, id, now);
    w.(books := books, clock := now, endings := if r.Ok? then Ended(w, r.value.conn, e) else w.endings)
  }

  function ArriveStep(w: World, conn: Conn, peer: Key, name: string, size: nat, ttl: Time, now: Time, id: Id): World {
    var (books, r) := Admit(w.books, peer, name, size, ttl, conn, now, id);
    w.(books := books, clock := now, watchers := if r.Ok? then w.watchers[conn := Telling(id)] else w.watchers)
  }

  function ToldStep(w: World, conn: Conn): World {
    if conn in w.watchers && w.watchers[conn].Telling? then
      var id := w.watchers[conn].id;
      var (books, expires) := Queue(w.books, id);
      w.(books := books,
         watchers := w.watchers[conn := if expires.Some? then Watching(id, expires.value) else Over])
    else w
  }

  function CannotTellStep(w: World, conn: Conn): World {
    if conn in w.watchers && w.watchers[conn].Telling? then
      var id := w.watchers[conn].id;
      w.(books := Unqueue(w.books, id), watchers := w.watchers[conn := Over],
         endings := if id in w.books.incoming then Ended(w, conn, NeverQueued) else w.endings)
    else w
  }

  function RosterStep(w: World, members: map<Key, string>): World {
    w.(books := SetRoster(w.books, members),
       endings := w.endings + map c | c in Dropped(w.books, members) :: EndingsOf(w, c) + [DroppedByRoster])
  }

  function OtherStep(w: World, op: Locked): World {
    w.(books := Lock(w.books, op), clock := if op.ListAll? || op.ListOffer? then op.now else w.clock)
  }

  function Apply(w: World, step: Step): World {
    match step
    case Arrive(conn, peer, name, size, ttl, now, id) => ArriveStep(w, conn, peer, name, size, ttl, now, id)
    case Told(conn) => ToldStep(w, conn)
    case CannotTell(conn) => CannotTellStep(w, conn)
    case ClosedByPeer(conn, why, now) => BuryStep(w, conn, why, now, Withdrawn)
    case OutOfTime(conn, why, now) => BuryStep(w, conn, why, now, Lapsed)
    case Answer(id, yes, now) => TakeStep(w, id, now, if yes then Accepted else Declined)
    case Roster(members) => RosterStep(w, members)
    case Other(op) => OtherStep(w, op)
  }

  /** Steps under the lock that concern no offer made to this node. */
  predicate Elsewhere(op: Locked) {
    || op.StartReceiving? || op.StopReceiving? || op.ListAll? || op.ListOffer? || op.UnlistOffer?
    || op.MarkDelivered? || op.MoveOffer?
  }

  /** What the program does: ids are drawn until unused in the tables, and a connection
      brings one offer. */
  predicate Possible(w: World, step: Step) {
    match step
    case Arrive(conn, _, _, _, _, now, id) => conn !in w.watchers && Unused(w.books, id) && w.clock <= now
    case Told(conn) => conn in w.watchers && w.watchers[conn].Telling?
    case CannotTell(conn) => conn in w.watchers && w.watchers[conn].Telling?
    case ClosedByPeer(conn, _, now) => conn in w.watchers && w.watchers[conn].Watching? && w.clock <= now
    case OutOfTime(conn, _, now) =>
      conn in w.watchers && w.watchers[conn].Watching? && w.clock <= now && w.watchers[conn].deadline <= now
    case Answer(_, _, now) => w.clock <= now
    case Roster(_) => true
    case Other(op) => Elsewhere(op) && Numbered(w.books, op) && (op.ListAll? || op.ListOffer? ==> w.clock <= op.now)
  }

  /** No id is given out while a task that has still to queue its offer holds it. */
  ghost predicate NotHeld(w: World, step: Step) {
    step.Arrive? ==> forall c :: c in w.watchers && w.watchers[c].Telling? ==> w.watchers[c].id != step.id
  }

  ghost predicate Enabled(w: World, step: Step) {
    Possible(w, step) && NotHeld(w, step)
  }

  // What holds throughout

  /** The offer a connection made is still on the list. */
  predicate Listed(w: World, conn: Conn) {
    && conn in w.watchers && !w.watchers[conn].Over?
    && w.watchers[conn].id in w.books.incoming
    && w.books.incoming[w.watchers[conn].id].conn == conn
  }

  /** An entry under this id, and the watching task that put it there. */
  predicate Watched(w: World, id: Id)
    requires id in w.books.incoming
  {
    var offer := w.books.incoming[id];
    && offer.conn in w.watchers
    && w.watchers[offer.conn] == if offer.linked then Watching(id, offer.expiresAt) else Telling(id)
  }

  ghost predicate AllWatched(w: World) {
    forall id :: id in w.books.incoming ==> Watched(w, id)
  }

  /** An id still being queued is its task's own, if it is anyone's. */
  ghost predicate TellingIsOwn(w: World) {
    forall c :: c in w.watchers && w.watchers[c].Telling? && w.watchers[c].id in w.books.incoming ==>
      w.books.incoming[w.watchers[c].id].conn == c
  }

  /** An entry under this id has a task that is not over. */
  predicate Tended(w: World, id: Id)
    requires id in w.books.incoming
  {
    var c := w.books.incoming[id].conn;
    c in w.watchers && !w.watchers[c].Over? && w.watchers[c].id == id
  }

  ghost predicate AllTended(w: World) {
    forall id :: id in w.books.incoming ==> Tended(w, id)
  }

  /** How many endings a connection's offer has met beyond those it should have: one if
      it was let in and is off the list, and otherwise none. */
  function Excess(w: World, c: Conn): int {
    |EndingsOf(w, c)| - if c in w.watchers && !Listed(w, c) then 1 else 0
  }

  /** What a step does to it. A task that cannot tell its sender takes off the list
      whatever has its id, be it another connection's offer; the ending is put down to
      its own connection. */
  function Shift(w: World, step: Step, c: Conn): int {
    if step.CannotTell? && step.conn in w.watchers && w.watchers[step.conn].Telling?
       && w.watchers[step.conn].id in w.books.incoming
    then
      var owner := w.books.incoming[w.watchers[step.conn].id].conn;
      if owner == step.conn then 0 else if c == step.conn then 1 else if c == owner then -1 else 0
    else 0
  }

  predicate Remembered(w: World, id: Id)
    requires id in w.buried
  {
    w.buried[id].0 <= w.clock
    && (w.clock - w.buried[id].0 < HISTORY ==>
          id in w.books.gone && w.books.gone[id] == w.buried[id] && id !in w.books.incoming)
  }

  ghost predicate AllRemembered(w: World) {
    forall id :: id in w.buried ==> Remembered(w, id)
  }

  ghost predicate Good(w: World) {
    AllWatched(w) && TellingIsOwn(w)
  }

  // Each step keeps it

  /** Time passes, and only ids older than an hour can come back. */
  lemma RememberedAfter(w: World, after: World)
    requires AllRemembered(w) && w.clock <= after.clock && after.buried == w.buried
    requires forall k :: k in w.books.gone && after.clock - w.books.gone[k].0 < HISTORY ==>
               k in after.books.gone && after.books.gone[k] == w.books.gone[k]
    requires forall k :: k in after.books.incoming && k !in w.books.incoming ==> k !in w.books.gone
    ensures AllRemembered(after)
  {
    forall k | k in after.buried
      ensures Remembered(after, k)
    {
      assert Remembered(w, k);
    }
  }

  lemma ArriveWatched(w: World, conn: Conn, peer: Key, name: string, size: nat, ttl: Time, now: Time, id: Id)
    requires AllWatched(w) && TellingIsOwn(w) && Enabled(w, Arrive(conn, peer, name, size, ttl, now, id))
    ensures AllWatched(ArriveStep(w, conn, peer, name, size, ttl, now, id))
    ensures TellingIsOwn(ArriveStep(w, conn, peer, name, size, ttl, now, id))
  {
    var after := ArriveStep(w, conn, peer, name, size, ttl, now, id);
    forall k | k in after.books.incoming
      ensures Watched(after, k)
    {
      assert k in w.books.incoming ==> Watched(w, k);
    }
  }

  lemma ArriveKeeps(w: World, conn: Conn, peer: Key, name: string, size: nat, ttl: Time, now: Time, id: Id)
    requires Good(w) && Enabled(w, Arrive(conn, peer, name, size, ttl, now, id))
    ensures Good(ArriveStep(w, conn, peer, name, size, ttl, now, id))
  {
    ArriveWatched(w, conn, peer, name, size, ttl, now, id);
  }

  lemma ToldKeeps(w: World, conn: Conn)
    requires Good(w) && Enabled(w, Told(conn))
    ensures Good(ToldStep(w, conn))
  {
  }

  lemma CannotTellKeeps(w: World, conn: Conn)
    requires Good(w) && Enabled(w, CannotTell(conn))
    ensures Good(CannotTellStep(w, conn))
  {
  }

  lemma BuryKeeps(w: World, conn: Conn, why: string, now: Time, e: Ending)
    requires Good(w) && conn in w.watchers && w.watchers[conn].Watching? && w.clock <= now
    ensures Good(BuryStep(w, conn, why, now, e))
  {
    BuryWatched(w, conn, why, now, e);
  }

  lemma BuryWatched(w: World, conn: Conn, why: string, now: Time, e: Ending)
    requires AllWatched(w) && TellingIsOwn(w) && conn in w.watchers && w.watchers[conn].Watching?
    ensures AllWatched(BuryStep(w, conn, why, now, e)) && TellingIsOwn(BuryStep(w, conn, why, now, e))
  {
    var after := BuryStep(w, conn, why, now, e);
    forall k | k in after.books.incoming
      ensures Watched(after, k)
    {
      assert Watched(w, k);
    }
  }

  lemma BuryRemembers(w: World, conn: Conn, why: string, now: Time, e: Ending)
    requires AllRemembered(w) && conn in w.watchers && w.watchers[conn].Watching? && w.clock <= now
    ensures AllRemembered(BuryStep(w, conn, why, now, e))
  {
    var after := BuryStep(w, conn, why, now, e);
    forall k | k in after.buried
      ensures Remembered(after, k)
    {
      assert k in w.buried ==> Remembered(w, k);
    }
  }

  lemma TakeKeeps(w: World, id: Id, now: Time, e: Ending)
    requires Good(w) && w.clock <= now
    ensures Good(TakeStep(w, id, now, e))
  {
  }

  lemma RosterKeeps(w: World, members: map<Key, string>)
    requires Good(w)
    ensures Good(RosterStep(w, members))
  {
  }

  lemma OtherKeeps(w: World, op: Locked)
    requires Good(w) && Enabled(w, Other(op))
    ensures Good(OtherStep(w, op))
  {
    ElsewhereLeavesIncoming(w.books, op);
  }

  lemma ElsewhereLeavesIncoming(b: Books, op: Locked)
    requires Elsewhere(op)
    ensures Lock(b, op).incoming == b.incoming
    ensures forall k :: k in b.gone && (op.ListAll? || op.ListOffer? ==> Since(b.gone[k].0, op.now) < HISTORY) ==>
              k in Lock(b, op).gone && Lock(b, op).gone[k] == b.gone[k]
  {
  }

  lemma ApplyKeeps(w: World, step: Step)
    requires Good(w) && Enabled(w, step)
    ensures Good(Apply(w, step))
  {
    match step
    case Arrive(conn, peer, name, size, ttl, now, id) => ArriveKeeps(w, conn, peer, name, size, ttl, now, id);
    case Told(conn) => ToldKeeps(w, conn);
    case CannotTell(conn) => CannotTellKeeps(w, conn);
    case ClosedByPeer(conn, why, now) => BuryKeeps(w, conn, why, now, Withdrawn);
    case OutOfTime(conn, why, now) => BuryKeeps(w, conn, why, now, Lapsed);
    case Answer(id, yes, now) => TakeKeeps(w, id, now, if yes then Accepted else Declined);
    case Roster(members) => RosterKeeps(w, members);
    case Other(op) => OtherKeeps(w, op);
  }

  /** Any run at all, from an empty table. */
  ghost predicate Happened(states: seq<World>, steps: seq<Step>) {
    IsRun(Apply, (w, step) => Enabled(w, step), states, steps) && states[0] == Start(states[0].clock)
  }

  lemma RunIsGood(states: seq<World>, steps: seq<Step>, n: nat)
    requires Happened(states, steps) && n < |states|
    ensures Good(states[n])
  {
    forall w, step | Good(w) && Enabled(w, step)
      ensures Good(Apply(w, step))
    {
      ApplyKeeps(w, step);
    }
    Keeps(Apply, (w, step) => Enabled(w, step), w => Good(w), states, steps, n);
  }

  // How often an offer ends

  lemma TendedStays(w: World, step: Step)
    requires AllTended(w) && Possible(w, step)
    ensures AllTended(Apply(w, step))
  {
    var after := Apply(w, step);
    if step.Other? {
      ElsewhereLeavesIncoming(w.books, step.op);
    }
    forall id | id in after.books.incoming
      ensures Tended(after, id)
    {
      assert id in w.books.incoming ==> Tended(w, id);
    }
  }

  lemma ArriveShifts(w: World, step: Step, c: Conn)
    requires step.Arrive? && Possible(w, step)
    ensures Excess(Apply(w, step), c) == Excess(w, c)
  {
  }

  lemma ToldShifts(w: World, step: Step, c: Conn)
    requires step.Told? && Possible(w, step)
    ensures Excess(Apply(w, step), c) == Excess(w, c)
  {
  }

  lemma CannotTellShifts(w: World, step: Step, c: Conn)
    requires AllTended(w) && step.CannotTell? && Possible(w, step)
    ensures Excess(Apply(w, step), c) == Excess(w, c) + Shift(w, step, c)
  {
    var id := w.watchers[step.conn].id;
    if id in w.books.incoming {
      assert Tended(w, id);
    }
  }

  lemma BuryShifts(w: World, conn: Conn, why: string, now: Time, e: Ending, c: Conn)
    requires conn in w.watchers && w.watchers[conn].Watching?
    ensures Excess(BuryStep(w, conn, why, now, e), c) == Excess(w, c)
  {
  }

  lemma TakeTakesOff(b: Books, id: Id, now: Time)
    ensures var (after, r) := Take(b, id, now);
            && after.incoming == (if r.Ok? then b.incoming - {id} else b.incoming)
            && (r.Ok? ==> id in b.incoming && r.value == b.incoming[id])
  {
  }

  lemma TakeShifts(w: World, id: Id, now: Time, e: Ending, c: Conn)
    requires AllTended(w)
    ensures Excess(TakeStep(w, id, now, e), c) == Excess(w, c)
  {
    TakeTakesOff(w.books, id, now);
    if id in w.books.incoming {
      assert Tended(w, id);
    }
  }

  lemma DroppedAreListed(w: World, members: map<Key, string>, c: Conn)
    requires AllTended(w)
    ensures c in Dropped(w.books, members) <==>
              Listed(w, c) && w.books.incoming[w.watchers[c].id].peer !in members
  {
    if c in Dropped(w.books, members) {
      var id :| id in w.books.incoming && w.books.incoming[id].peer !in members && w.books.incoming[id].conn == c;
      assert Tended(w, id);
    }
  }

  lemma RosterShifts(w: World, members: map<Key, string>, c: Conn)
    requires AllTended(w)
    ensures Excess(RosterStep(w, members), c) == Excess(w, c)
  {
    DroppedAreListed(w, members, c);
  }

  lemma OtherShifts(w: World, op: Locked, c: Conn)
    requires Elsewhere(op)
    ensures Excess(OtherStep(w, op), c) == Excess(w, c)
  {
    ElsewhereLeavesIncoming(w.books, op);
  }

  lemma StepShifts(w: World, step: Step, c: Conn)
    requires AllTended(w) && Possible(w, step)
    ensures Excess(Apply(w, step), c) == Excess(w, c) + Shift(w, step, c)
  {
    match step
    case Arrive(_, _, _, _, _, _, _) => ArriveShifts(w, step, c);
    case Told(_) => ToldShifts(w, step, c);
    case CannotTell(_) => CannotTellShifts(w, step, c);
    case ClosedByPeer(conn, why, now) => BuryShifts(w, conn, why, now, Withdrawn, c);
    case OutOfTime(conn, why, now) => BuryShifts(w, conn, why, now, Lapsed, c);
    case Answer(id, yes, now) => TakeShifts(w, id, now, if yes then Accepted else Declined, c);
    case Roster(members) => RosterShifts(w, members, c);
    case Other(op) => OtherShifts(w, op, c);
  }

  /** Any run of the program, ids given out again included. */
  ghost predicate CanHappen(states: seq<World>, steps: seq<Step>) {
    IsRun(Apply, Possible, states, steps) && states[0] == Start(states[0].clock)
  }

  lemma RunIsTended(states: seq<World>, steps: seq<Step>, n: nat)
    requires CanHappen(states, steps) && n < |states|
    ensures AllTended(states[n])
  {
    forall w, step | AllTended(w) && Possible(w, step)
      ensures AllTended(Apply(w, step))
    {
      TendedStays(w, step);
    }
    Keeps(Apply, Possible, w => AllTended(w), states, steps, n);
  }

  lemma RememberedStays(w: World, step: Step)
    requires AllRemembered(w) && Possible(w, step)
    ensures AllRemembered(Apply(w, step))
  {
    match step
    case ClosedByPeer(conn, why, now) => BuryRemembers(w, conn, why, now, Withdrawn);
    case OutOfTime(conn, why, now) => BuryRemembers(w, conn, why, now, Lapsed);
    case Other(op) =>
      OtherRemembers(w, op);
    case _ => RememberedAfter(w, Apply(w, step));
  }

  lemma OtherRemembers(w: World, op: Locked)
    requires AllRemembered(w) && Possible(w, Other(op))
    ensures AllRemembered(OtherStep(w, op))
  {
    var after := OtherStep(w, op);
    ElsewhereLeavesIncoming(w.books, op);
    forall k | k in after.buried
      ensures Remembered(after, k)
    {
      assert Remembered(w, k);
    }
  }

  lemma RunRemembers(states: seq<World>, steps: seq<Step>, n: nat)
    requires CanHappen(states, steps) && n < |states|
    ensures AllRemembered(states[n])
  {
    forall w, step | AllRemembered(w) && Possible(w, step)
      ensures AllRemembered(Apply(w, step))
    {
      RememberedStays(w, step);
    }
    Keeps(Apply, Possible, w => AllRemembered(w), states, steps, n);
  }

  /** How often, in the first `n` steps, this connection's task took somebody else's
      offer off the list, less how often somebody else's task took its. */
  function Balance(states: seq<World>, steps: seq<Step>, n: nat, conn: Conn): int
    requires n <= |steps| && n <= |states|
  {
    if n == 0 then 0 else Balance(states, steps, n - 1, conn) + Shift(states[n - 1], steps[n - 1], conn)
  }

  /** Over any run at all, an offer that was let in has met one ending if it is off the
      list and none if it is on it -- one more for an offer of somebody else's that its
      task took off the list, and one less if its own was taken off so. */
  lemma {:induction false} EndingsExactly(states: seq<World>, steps: seq<Step>, n: nat, conn: Conn)
    requires CanHappen(states, steps) && n < |states|
    ensures var w := states[n];
            var due := if conn in w.watchers && !Listed(w, conn) then 1 else 0;
            |EndingsOf(w, conn)| == due + Balance(states, steps, n, conn)
  {
    if n > 0 {
      EndingsExactly(states, steps, n - 1, conn);
      RunIsTended(states, steps, n - 1);
      StepShifts(states[n - 1], steps[n - 1], conn);
      assert states[n] == Apply(states[n - 1], steps[n - 1]);
    }
  }

  /** And it can be otherwise: an offer is dropped with its peer, its id is given to
      another, and the first task, unable to tell its sender, takes the second offer
      off the list, unanswered and unended. */
  lemma ReissueLosesAnOffer(clock: Time, peer: Key, other: Key, first: Conn, second: Conn, id: Id)
    requires peer != other && first != second
    ensures exists w ::
              && Leads(Apply, Possible, Start(clock), w)
              && second in w.watchers && w.watchers[second].Telling? && !Listed(w, second)
              && EndingsOf(w, second) == [] && |EndingsOf(w, first)| == 2
  {
    var start := Start(clock);
    var w := DroppedWithItsPeer(clock, peer, other, first, id);
    w := Arrived(start, w, second, other, id);
    RobbedOfIt(w, first, second, id);
    w := Gone(start, w, CannotTell(first));
  }

  /** From an empty table to one task that has yet to tell its sender, its offer gone. */
  lemma DroppedWithItsPeer(clock: Time, peer: Key, other: Key, conn: Conn, id: Id) returns (w: World)
    requires peer != other
    ensures Leads(Apply, Possible, Start(clock), w)
    ensures w == World(Empty.(roster := map[other := "other"]), clock, map[conn := Telling(id)],
                       map[conn := [DroppedByRoster]], map[])
  {
    var start := Start(clock);
    LeadsNowhere<World, Step>(Apply, Possible, start);
    QuietRoster(start, map[peer := "peer"]);
    w := Gone(start, start, Roster(map[peer := "peer"]));
    w := Arrived(start, w, conn, peer, id);
    OnlyOneDropped(w, map[other := "other"], conn, id);
    w := Gone(start, w, Roster(map[other := "other"]));
  }

  lemma QuietRoster(w: World, members: map<Key, string>)
    requires w.books.incoming == map[] && w.books.receiving == map[]
    ensures RosterStep(w, members) == w.(books := w.books.(roster := members))
  {
    assert Dropped(w.books, members) == {};
    assert SetRoster(w.books, members) == w.books.(roster := members);
    assert RosterStep(w, members).endings == w.endings;
  }

  lemma OnlyOneDropped(w: World, members: map<Key, string>, conn: Conn, id: Id)
    requires w.books.incoming.Keys == {id} && w.books.incoming[id].conn == conn
    requires w.books.incoming[id].peer !in members && w.books.receiving == map[] && w.endings == map[]
    ensures RosterStep(w, members)
         == w.(books := w.books.(roster := members, incoming := map[]), endings := map[conn := [DroppedByRoster]])
  {
    assert id in w.books.incoming.Keys;
    assert conn in Dropped(w.books, members);
    forall c | c in Dropped(w.books, members)
      ensures c == conn
    {
      var k :| k in w.books.incoming && w.books.incoming[k].conn == c;
    }
    assert Dropped(w.books, members) == {conn};
    forall k | k in w.books.incoming
      ensures k == id
    {
      assert k in w.books.incoming.Keys;
    }
    assert SetRoster(w.books, members) == w.books.(roster := members, incoming := map[]);
    assert EndingsOf(w, conn) + [DroppedByRoster] == [DroppedByRoster];
    assert RosterStep(w, members).endings == map[conn := [DroppedByRoster]];
  }

  lemma RobbedOfIt(w: World, robber: Conn, robbed: Conn, id: Id)
    requires robber in w.watchers && w.watchers[robber] == Telling(id) && robber != robbed
    requires w.books.incoming.Keys == {id} && w.books.incoming[id].conn == robbed
    ensures var after := Apply(w, CannotTell(robber));
            after.books.incoming == map[] && EndingsOf(after, robbed) == EndingsOf(w, robbed)
            && EndingsOf(after, robber) == EndingsOf(w, robber) + [NeverQueued]
  {
  }

  lemma Gone(start: World, w: World, step: Step) returns (next: World)
    requires Leads(Apply, Possible, start, w) && Possible(w, step)
    ensures next == Apply(w, step) && Leads(Apply, Possible, start, next)
  {
    next := Apply(w, step);
    LeadsOn(Apply, Possible, start, w, step);
  }

  /** An offer comes in when nothing is waiting. */
  lemma Arrived(start: World, w: World, conn: Conn, peer: Key, id: Id) returns (next: World)
    requires Leads(Apply, Possible, start, w) && conn !in w.watchers && peer in w.books.roster
    requires w.books.incoming == map[] && w.books.outgoing == map[] && w.books.gone == map[]
    ensures Leads(Apply, Possible, start, next)
    ensures next.watchers == w.watchers[conn := Telling(id)] && next.endings == w.endings
    ensures next.books.incoming.Keys == {id} && next.books.incoming[id].conn == conn
    ensures next.books.incoming[id].peer == peer && next.books.incoming[id].expiresAt > w.clock
    ensures next == w.(books := w.books.(incoming := next.books.incoming), watchers := next.watchers)
  {
    assert Waiting(w.books, peer) == {};
    next := Gone(start, w, Arrive(conn, peer, "file", 1, 60, w.clock, id));
  }

  /** Or the first task queues the second offer, which can then be answered before
      its own sender has been told anything. */
  lemma ReissueQueuesAnother(clock: Time, peer: Key, other: Key, first: Conn, second: Conn, id: Id)
    requires peer != other && first != second
    ensures exists w ::
              && Leads(Apply, Possible, Start(clock), w)
              && second in w.watchers && w.watchers[second].Telling?
              && Take(w.books, id, clock).1.Ok? && Take(w.books, id, clock).1.value.conn == second
  {
    var start := Start(clock);
    var w := DroppedWithItsPeer(clock, peer, other, first, id);
    w := Arrived(start, w, second, other, id);
    QueuedByIt(w, first, id, clock);
    w := Gone(start, w, Told(first));
  }

  lemma QueuedByIt(w: World, conn: Conn, id: Id, now: Time)
    requires conn in w.watchers && w.watchers[conn] == Telling(id)
    requires id in w.books.incoming && w.books.incoming[id].expiresAt > now && w.books.gone == map[]
    ensures var (_, r) := Take(ToldStep(w, conn).books, id, now);
            r.Ok? && r.value.conn == w.books.incoming[id].conn
    ensures forall c :: c in w.watchers && c != conn ==>
              c in ToldStep(w, conn).watchers && ToldStep(w, conn).watchers[c] == w.watchers[c]
  {
  }

  // What it comes to when no id is given out again too soon

  lemma {:induction false} NobodyRobs(states: seq<World>, steps: seq<Step>, n: nat, conn: Conn)
    requires Happened(states, steps) && n < |states|
    ensures Balance(states, steps, n, conn) == 0
  {
    if n > 0 {
      NobodyRobs(states, steps, n - 1, conn);
      RunIsGood(states, steps, n - 1);
    }
  }

  /** Over any run in which no id is given out while a task has still to queue an offer
      under it, an admitted offer that is no longer listed has been ended exactly once
      -- accepted, rejected, withdrawn, lapsed, dropped with its peer or never queued --
      and one still listed not at all. */
  lemma EndedExactlyOnce(states: seq<World>, steps: seq<Step>, n: nat, conn: Conn)
    requires Happened(states, steps) && n < |states|
    ensures var w := states[n];
            |EndingsOf(w, conn)| == if conn in w.watchers && !Listed(w, conn) then 1 else 0
  {
    assert IsRun(Apply, Possible, states, steps);
    EndingsExactly(states, steps, n, conn);
    NobodyRobs(states, steps, n, conn);
  }

  /** At any point of any run, an answer succeeds only on an offer whose sender has
      been told it was queued, whose time is not up and which nothing has ended;
      and it is what ends it. */
  lemma AnswerEndsIt(states: seq<World>, steps: seq<Step>, n: nat, id: Id, now: Time, yes: bool)
    requires Happened(states, steps) && n < |states|
    requires states[n].clock <= now
    requires Take(states[n].books, id, now).1.Ok?
    ensures var w := states[n];
            var conn := Take(w.books, id, now).1.value.conn;
            var after := Apply(w, Answer(id, yes, now));
            && conn in w.watchers && w.watchers[conn].Watching? && w.watchers[conn].deadline > now
            && EndingsOf(w, conn) == []
            && EndingsOf(after, conn) == [if yes then Accepted else Declined]
            && !Listed(after, conn)
  {
    RunIsGood(states, steps, n);
    var w := states[n];
    assert Watched(w, id);
    EndedExactlyOnce(states, steps, n, w.books.incoming[id].conn);
  }

  /** At any point of any run, answering an offer that was withdrawn or lapsed less
      than an hour ago gets the reason recorded when it ended. */
  lemma LateAnswerHearsWhy(states: seq<World>, steps: seq<Step>, n: nat, id: Id, now: Time)
    requires CanHappen(states, steps) && n < |states|
    requires var w := states[n];
             w.clock <= now && id in w.buried && now - w.buried[id].0 < HISTORY
    ensures var w := states[n];
            Take(w.books, id, now).1 == Err(HasGone(w.buried[id].1))
  {
    RunRemembers(states, steps, n);
    assert Remembered(states[n], id);
  }
}
