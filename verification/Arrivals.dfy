/** The life of an accepted transfer on the receiving node: taken off the list of
    offers, then registered as arriving, then let go by its guard -- while rosters
    change (`accept` and the `Unregister` guard in daemon/src/files/transfer.rs). */
module Arrivals {
  import opened Basics
  import opened Bookkeeping
  import opened Registry
  import opened Runs

  /** Where an accepting task is. Between `Taken` and `Registered` it tells the sender
      yes, and its transfer is in no table. */
  datatype Phase = Taken | Registered | Over

  /** One accepted transfer, by its connection. */
  datatype Arrival = Arrival(id: Id, peer: Key, phase: Phase)

  /** `seen` is every connection an offer has come or gone by. */
  datatype World = World(books: Books, seen: set<Conn>, closed: set<Conn>, arrivals: map<Conn, Arrival>)

  const Start := World(Empty, {}, {}, map[])

  datatype Step =
    | TakeOffer(id: Id, now: Time)
    | Register(conn: Conn)
    | GiveUp(conn: Conn)
    | Unregister(conn: Conn)
    | Roster(members: map<Key, string>)
    | Other(op: Locked)

  predicate In(w: World, conn: Conn, phase: Phase) {
    conn in w.arrivals && w.arrivals[conn].phase == phase
  }

  function Moved(w: World, conn: Conn, phase: Phase): map<Conn, Arrival>
    requires conn in w.arrivals
  {
    w.arrivals[conn := w.arrivals[conn].(phase := phase)]
  }

  function TakeStep(w: World, id: Id, now: Time): World {
    var (books, r) := Take(w.books, id, now);
    w.(books := books,
       arrivals := if r.Ok? then w.arrivals[r.value.conn := Arrival(id, r.value.peer, Taken)] else w.arrivals)
  }

  function RegisterStep(w: World, conn: Conn): World
    requires conn in w.arrivals
  {
    var a := w.arrivals[conn];
    w.(books := BeginReceiving(w.books, a.id, a.peer, conn), arrivals := Moved(w, conn, Registered))
  }

  /** The guard removes whatever is under its id. */
  function UnregisterStep(w: World, conn: Conn): World
    requires conn in w.arrivals
  {
    w.(books := EndReceiving(w.books, w.arrivals[conn].id), arrivals := Moved(w, conn, Over))
  }

  /** Whether a roster leaves out the peer of a registered transfer. */
  predicate LeavesOut(a: Arrival, members: map<Key, string>) {
    a.phase.Registered? && a.peer !in members
  }

  function RosterStep(w: World, members: map<Key, string>): World {
    w.(books := SetRoster(w.books, members), closed := w.closed + CutOff(w.books, members))
  }

  function ConnOf(op: Locked): set<Conn> {
    if op.AdmitOffer? || op.MarkDelivered? then {op.conn} else {}
  }

  function OtherStep(w: World, op: Locked): World {
    w.(books := Lock(w.books, op), seen := w.seen + ConnOf(op))
  }

  function Apply(w: World, step: Step): World {
    match step
    case TakeOffer(id, now) => TakeStep(w, id, now)
    case Register(conn) => if conn in w.arrivals then RegisterStep(w, conn) else w
    case GiveUp(conn) => if conn in w.arrivals then w.(arrivals := Moved(w, conn, Over)) else w
    case Unregister(conn) => if conn in w.arrivals then UnregisterStep(w, conn) else w
    case Roster(members) => RosterStep(w, members)
    case Other(op) => OtherStep(w, op)
  }

  /** What the program does: ids are drawn until unused in the three tables, which do
      not include the one of arriving transfers; every connection is its own. */
  predicate Possible(w: World, step: Step) {
    match step
    case TakeOffer(_, _) => true
    case Register(conn) => In(w, conn, Taken)
    case GiveUp(conn) => In(w, conn, Taken)
    case Unregister(conn) => In(w, conn, Registered)
    case Roster(_) => true
    case Other(op) =>
      && !op.NewRoster? && !op.TakeOffer? && !op.StartReceiving? && !op.StopReceiving?
      && Numbered(w.books, op) && ConnOf(op) !! w.seen
  }

  /** No offer is given the id of an accepted transfer that is not over. */
  ghost predicate NotReissued(w: World, step: Step) {
    step.Other? && step.op.AdmitOffer? ==>
      forall c :: c in w.arrivals && !w.arrivals[c].phase.Over? ==> w.arrivals[c].id != step.op.id
  }

  ghost predicate PossibleAnew(w: World, step: Step) {
    Possible(w, step) && NotReissued(w, step)
  }

  // What holds throughout

  predicate HeldBy(b: Books, c: Conn, id: Id) {
    id in b.outgoing && b.outgoing[id].held == Some(c)
  }

  ghost predicate Seen(w: World) {
    && (forall id :: id in w.books.incoming ==> w.books.incoming[id].conn in w.seen)
    && (forall id :: id in w.books.outgoing && w.books.outgoing[id].held.Some? ==>
          w.books.outgoing[id].held.value in w.seen)
    && w.arrivals.Keys <= w.seen && w.closed <= w.seen
  }

  /** Every connection serves one purpose at a time. */
  ghost predicate Apart(w: World) {
    && (forall i, j :: i in w.books.incoming && j in w.books.incoming && i != j ==>
          w.books.incoming[i].conn != w.books.incoming[j].conn)
    && (forall i :: i in w.books.incoming ==>
          w.books.incoming[i].conn !in w.arrivals && w.books.incoming[i].conn !in w.closed)
    && (forall i, j :: i in w.books.incoming && j in w.books.outgoing ==>
          !HeldBy(w.books, w.books.incoming[i].conn, j))
    && (forall c, j :: c in w.arrivals && j in w.books.outgoing ==> !HeldBy(w.books, c, j))
  }

  /** A transfer's own entry is in the table of arriving ones. */
  predicate Listed(w: World, c: Conn)
    requires c in w.arrivals
  {
    var a := w.arrivals[c];
    a.id in w.books.receiving && w.books.receiving[a.id] == (a.peer, c)
  }

  /** Whatever is arriving is some registered transfer's. */
  predicate Owned(w: World, id: Id)
    requires id in w.books.receiving
  {
    var c := w.books.receiving[id].1;
    In(w, c, Registered) && w.arrivals[c].id == id && w.arrivals[c].peer == w.books.receiving[id].0
  }

  ghost predicate AllOwned(w: World) {
    forall id :: id in w.books.receiving ==> Owned(w, id)
  }

  ghost predicate TakenOpen(w: World) {
    forall c :: In(w, c, Taken) ==> c !in w.closed
  }

  ghost predicate Good(w: World) {
    Seen(w) && Apart(w) && AllOwned(w) && TakenOpen(w)
  }

  // Each step keeps it

  lemma TakeOwns(w: World, id: Id, now: Time, k: Id)
    requires Apart(w) && k in w.books.receiving && Owned(w, k)
    ensures Owned(TakeStep(w, id, now), k)
  {
  }

  lemma TakeApart(w: World, id: Id, now: Time)
    requires Seen(w) && Apart(w)
    ensures Seen(TakeStep(w, id, now)) && Apart(TakeStep(w, id, now))
  {
  }

  lemma TakeKeeps(w: World, id: Id, now: Time)
    requires Good(w)
    ensures Good(TakeStep(w, id, now))
  {
    TakeApart(w, id, now);
    forall k | k in w.books.receiving
      ensures Owned(TakeStep(w, id, now), k)
    {
      TakeOwns(w, id, now, k);
    }
  }

  lemma RegisterKeeps(w: World, conn: Conn)
    requires Good(w) && In(w, conn, Taken)
    ensures Good(RegisterStep(w, conn))
  {
    var after := RegisterStep(w, conn);
    forall k | k in after.books.receiving
      ensures Owned(after, k)
    {
      assert k in w.books.receiving ==> Owned(w, k);
    }
  }

  lemma GiveUpKeeps(w: World, conn: Conn)
    requires Good(w) && In(w, conn, Taken)
    ensures Good(w.(arrivals := Moved(w, conn, Over)))
  {
    var after := w.(arrivals := Moved(w, conn, Over));
    forall k | k in after.books.receiving
      ensures Owned(after, k)
    {
      assert Owned(w, k);
    }
  }

  lemma UnregisterKeeps(w: World, conn: Conn)
    requires Good(w) && In(w, conn, Registered)
    ensures Good(UnregisterStep(w, conn))
  {
    var after := UnregisterStep(w, conn);
    forall k | k in after.books.receiving
      ensures Owned(after, k)
    {
      assert Owned(w, k);
    }
  }

  /** A roster closes a transfer's connection exactly when it leaves out the peer of
      one that is registered and still in the table. */
  lemma CutOffExactly(w: World, members: map<Key, string>, c: Conn)
    requires Good(w) && c in w.arrivals
    ensures c in CutOff(w.books, members) <==>
              Listed(w, c) && w.arrivals[c].peer !in members
  {
    if id :| id in w.books.receiving && w.books.receiving[id].0 !in members && w.books.receiving[id].1 == c {
      assert Owned(w, id);
    }
    if w.arrivals[c].id in w.books.receiving && w.books.receiving[w.arrivals[c].id].1 == c {
      assert Owned(w, w.arrivals[c].id);
    }
    assert forall j :: j in w.books.outgoing ==> !HeldBy(w.books, c, j);
  }

  lemma CutOffIsSeen(w: World, members: map<Key, string>)
    requires Seen(w) && AllOwned(w)
    ensures CutOff(w.books, members) <= w.seen
  {
    forall id | id in w.books.receiving
      ensures w.books.receiving[id].1 in w.seen
    {
      assert Owned(w, id);
    }
  }

  /** What a roster leaves on the list, it does not close. */
  lemma KeptIsOpen(w: World, members: map<Key, string>, id: Id)
    requires Good(w) && id in SetRoster(w.books, members).incoming
    ensures w.books.incoming[id].conn !in CutOff(w.books, members)
  {
    var c := w.books.incoming[id].conn;
    forall k | k in w.books.receiving
      ensures w.books.receiving[k].1 in w.arrivals
    {
      assert Owned(w, k);
    }
    assert forall j :: j in w.books.outgoing ==> !HeldBy(w.books, c, j);
  }

  lemma RosterSeen(w: World, members: map<Key, string>)
    requires Seen(w) && AllOwned(w)
    ensures Seen(RosterStep(w, members))
  {
    CutOffIsSeen(w, members);
  }

  lemma RosterApart(w: World, members: map<Key, string>)
    requires Good(w)
    ensures Apart(RosterStep(w, members))
  {
    forall id | id in SetRoster(w.books, members).incoming
      ensures w.books.incoming[id].conn !in CutOff(w.books, members)
    {
      KeptIsOpen(w, members, id);
    }
    FewerApart(w, RosterStep(w, members));
  }

  /** Fewer offers on the list, and none of theirs closed. */
  lemma FewerApart(w: World, after: World)
    requires Apart(w) && after.arrivals.Keys == w.arrivals.Keys && after.books.outgoing == w.books.outgoing
    requires forall id :: id in after.books.incoming ==>
               id in w.books.incoming && after.books.incoming[id] == w.books.incoming[id]
               && after.books.incoming[id].conn !in after.closed
    ensures Apart(after)
  {
    forall i, j | i in after.books.incoming && j in after.books.outgoing
      ensures !HeldBy(after.books, after.books.incoming[i].conn, j)
    {
      assert !HeldBy(w.books, w.books.incoming[i].conn, j);
    }
    forall c, j | c in after.arrivals && j in after.books.outgoing
      ensures !HeldBy(after.books, c, j)
    {
      assert !HeldBy(w.books, c, j);
    }
  }

  lemma RosterOwns(w: World, members: map<Key, string>, k: Id)
    requires k in w.books.receiving && Owned(w, k) && k in SetRoster(w.books, members).receiving
    ensures Owned(RosterStep(w, members), k)
  {
  }

  lemma RosterLeavesTakenOpen(w: World, members: map<Key, string>)
    requires Good(w)
    ensures TakenOpen(RosterStep(w, members))
  {
    forall c | In(w, c, Taken)
      ensures c !in CutOff(w.books, members)
    {
      CutOffExactly(w, members, c);
      assert Listed(w, c) ==> Owned(w, w.arrivals[c].id);
    }
  }

  lemma RosterKeeps(w: World, members: map<Key, string>)
    requires Good(w)
    ensures Good(RosterStep(w, members))
  {
    var after := RosterStep(w, members);
    RosterSeen(w, members);
    RosterApart(w, members);
    RosterLeavesTakenOpen(w, members);
    forall k | k in after.books.receiving
      ensures Owned(after, k)
    {
      RosterOwns(w, members, k);
    }
  }

  /** The other steps under the lock leave arriving transfers alone, and add to the
      other tables only what is new. */
  lemma OthersAdd(b: Books, op: Locked)
    requires !op.NewRoster? && !op.TakeOffer? && !op.StartReceiving? && !op.StopReceiving?
    ensures var after := Lock(b, op);
            && after.receiving == b.receiving
            && (forall id :: id in after.incoming ==>
                  || (id in b.incoming && after.incoming[id].conn == b.incoming[id].conn)
                  || (op.AdmitOffer? && id == op.id && after.incoming[id].conn == op.conn))
            && (forall id :: id in after.outgoing && after.outgoing[id].held.Some? ==>
                  || (id in b.outgoing && after.outgoing[id].held == b.outgoing[id].held)
                  || (op.MarkDelivered? && after.outgoing[id].held == Some(op.conn)))
  {
  }

  lemma OtherSeen(w: World, op: Locked)
    requires Seen(w) && Possible(w, Other(op))
    ensures Seen(OtherStep(w, op))
  {
    OthersAdd(w.books, op);
  }

  /** What was on the list, or is new to it, by a connection nobody has used. */
  lemma OtherOffer(w: World, op: Locked, id: Id)
    requires Seen(w) && Possible(w, Other(op)) && id in Lock(w.books, op).incoming
    ensures var c := Lock(w.books, op).incoming[id].conn;
            (id in w.books.incoming && c == w.books.incoming[id].conn)
            || (id == op.id && c !in w.seen && op.AdmitOffer? && c == op.conn)
  {
    OthersAdd(w.books, op);
  }

  lemma OtherHeld(w: World, op: Locked, c: Conn, j: Id)
    requires Seen(w) && Possible(w, Other(op)) && HeldBy(Lock(w.books, op), c, j)
    ensures HeldBy(w.books, c, j) || (c !in w.seen && op.MarkDelivered?)
  {
    OthersAdd(w.books, op);
  }

  lemma OtherApart(w: World, op: Locked)
    requires Seen(w) && Apart(w) && Possible(w, Other(op))
    ensures Apart(OtherStep(w, op))
  {
    var b := Lock(w.books, op);
    forall i | i in b.incoming
      ensures b.incoming[i].conn !in w.arrivals && b.incoming[i].conn !in w.closed
      ensures forall j :: j in b.outgoing ==> !HeldBy(b, b.incoming[i].conn, j)
    {
      OtherOffer(w, op, i);
      forall j | j in b.outgoing
        ensures !HeldBy(b, b.incoming[i].conn, j)
      {
        if HeldBy(b, b.incoming[i].conn, j) {
          OtherHeld(w, op, b.incoming[i].conn, j);
        }
      }
    }
    forall c, j | c in w.arrivals && j in b.outgoing
      ensures !HeldBy(b, c, j)
    {
      if HeldBy(b, c, j) {
        OtherHeld(w, op, c, j);
      }
    }
    OtherOffersDiffer(w, op);
  }

  lemma OtherOffersDiffer(w: World, op: Locked)
    requires Seen(w) && Apart(w) && Possible(w, Other(op))
    ensures var b := Lock(w.books, op);
            forall i, j :: i in b.incoming && j in b.incoming && i != j ==> b.incoming[i].conn != b.incoming[j].conn
  {
    var b := Lock(w.books, op);
    forall i, j | i in b.incoming && j in b.incoming && i != j
      ensures b.incoming[i].conn != b.incoming[j].conn
    {
      OtherOffer(w, op, i);
      OtherOffer(w, op, j);
    }
  }

  lemma OtherKeeps(w: World, op: Locked)
    requires Good(w) && Possible(w, Other(op))
    ensures Good(OtherStep(w, op))
  {
    var after := OtherStep(w, op);
    OtherSeen(w, op);
    OtherApart(w, op);
    OthersAdd(w.books, op);
    forall k | k in after.books.receiving
      ensures Owned(after, k)
    {
      assert Owned(w, k);
    }
  }

  lemma ApplyKeeps(w: World, step: Step)
    requires Good(w) && Possible(w, step)
    ensures Good(Apply(w, step))
  {
    match step
    case TakeOffer(id, now) => TakeKeeps(w, id, now);
    case Register(conn) => RegisterKeeps(w, conn);
    case GiveUp(conn) => GiveUpKeeps(w, conn);
    case Unregister(conn) => UnregisterKeeps(w, conn);
    case Roster(members) => RosterKeeps(w, members);
    case Other(op) => OtherKeeps(w, op);
  }

  /** Any run at all. */
  ghost predicate Happened(states: seq<World>, steps: seq<Step>) {
    IsRun(Apply, Possible, states, steps) && states[0] == Start
  }

  lemma RunIsGood(states: seq<World>, steps: seq<Step>, n: nat)
    requires Happened(states, steps) && n < |states|
    ensures Good(states[n])
  {
    forall w, step | Good(w) && Possible(w, step)
      ensures Good(Apply(w, step))
    {
      ApplyKeeps(w, step);
    }
    Keeps(Apply, Possible, w => Good(w), states, steps, n);
  }

  // What it comes to

  /** At step `k` a roster came that left out the peer of this transfer, which was
      registered by then. */
  predicate LeftOutAt(states: seq<World>, steps: seq<Step>, conn: Conn, k: nat)
    requires k < |states| && k < |steps|
  {
    steps[k].Roster? && conn in states[k].arrivals && LeavesOut(states[k].arrivals[conn], steps[k].members)
  }

  /** Another transfer registers under this one's id, or is let go under it: either
      way this one's entry is gone. */
  predicate Overtakes(w: World, step: Step, conn: Conn) {
    && (step.Register? || step.Unregister?) && step.conn != conn
    && In(w, conn, Registered) && step.conn in w.arrivals && w.arrivals[step.conn].id == w.arrivals[conn].id
  }

  predicate OvertakenAt(states: seq<World>, steps: seq<Step>, conn: Conn, k: nat)
    requires k < |states| && k < |steps|
  {
    Overtakes(states[k], steps[k], conn)
  }

  ghost predicate LeftOutBy(states: seq<World>, steps: seq<Step>, conn: Conn, n: nat)
    requires n <= |states| && n <= |steps|
  {
    exists k :: 0 <= k < n && LeftOutAt(states, steps, conn, k)
  }

  ghost predicate OvertakenBy(states: seq<World>, steps: seq<Step>, conn: Conn, n: nat)
    requires n <= |states| && n <= |steps|
  {
    exists k :: 0 <= k < n && OvertakenAt(states, steps, conn, k)
  }

  /** In the first `n` steps, a roster left it out before any other took its id. */
  ghost predicate ReachedBy(states: seq<World>, steps: seq<Step>, conn: Conn, n: nat)
    requires n <= |states| && n <= |steps|
  {
    exists k :: 0 <= k < n && LeftOutAt(states, steps, conn, k) && !OvertakenBy(states, steps, conn, k)
  }

  lemma OneMoreStep(states: seq<World>, steps: seq<Step>, conn: Conn, n: nat)
    requires n < |states| && n < |steps|
    ensures LeftOutBy(states, steps, conn, n + 1) <==>
              LeftOutBy(states, steps, conn, n) || LeftOutAt(states, steps, conn, n)
    ensures OvertakenBy(states, steps, conn, n + 1) <==>
              OvertakenBy(states, steps, conn, n) || OvertakenAt(states, steps, conn, n)
    ensures ReachedBy(states, steps, conn, n + 1) <==>
              || ReachedBy(states, steps, conn, n)
              || (LeftOutAt(states, steps, conn, n) && !OvertakenBy(states, steps, conn, n))
    ensures LeftOutBy(states, steps, conn, n) && !OvertakenBy(states, steps, conn, n) ==>
              ReachedBy(states, steps, conn, n)
  {
  }

  /** What one step does to a transfer that is registered already. */
  lemma StaysRegistered(w: World, step: Step, conn: Conn)
    requires Good(w) && Possible(w, step) && In(w, conn, Registered) && In(Apply(w, step), conn, Registered)
    ensures var out := step.Roster? && LeavesOut(w.arrivals[conn], step.members);
            && (Listed(Apply(w, step), conn) <==> Listed(w, conn) && !Overtakes(w, step, conn) && !out)
            && (conn in Apply(w, step).closed <==> conn in w.closed || (Listed(w, conn) && out))
  {
    match step
    case Roster(members) => CutOffExactly(w, members, conn);
    case Other(op) => OthersAdd(w.books, op);
    case _ =>
  }

  lemma BecomesRegistered(w: World, step: Step, conn: Conn)
    requires Good(w) && Possible(w, step) && !In(w, conn, Registered) && In(Apply(w, step), conn, Registered)
    ensures In(w, conn, Taken) && Listed(Apply(w, step), conn) && conn !in Apply(w, step).closed
  {
  }

  /** Being taken comes before being registered. */
  lemma {:induction false} TakenIsNew(states: seq<World>, steps: seq<Step>, n: nat, conn: Conn)
    requires Happened(states, steps) && n < |states| && (conn in states[n].arrivals ==> In(states[n], conn, Taken))
    ensures forall k :: 0 <= k <= n ==> !In(states[k], conn, Registered)
  {
    if n > 0 {
      RunIsGood(states, steps, n - 1);
      var step := steps[n - 1];
      assert states[n] == Apply(states[n - 1], step) && Possible(states[n - 1], step);
      TakenIsNew(states, steps, n - 1, conn);
    }
  }

  /** Over any run, a registered transfer is in the table exactly if no roster has left
      its peer out and no other transfer has taken its id; and its connection has been
      closed exactly if a roster came first. */
  lemma {:induction false} RemovalReachesExactly(states: seq<World>, steps: seq<Step>, n: nat, conn: Conn)
    requires Happened(states, steps) && n < |states| && In(states[n], conn, Registered)
    ensures Listed(states[n], conn) <==>
              !OvertakenBy(states, steps, conn, n) && !LeftOutBy(states, steps, conn, n)
    ensures conn in states[n].closed <==> ReachedBy(states, steps, conn, n)
  {
    if n > 0 {
      var w, step := states[n - 1], steps[n - 1];
      RunIsGood(states, steps, n - 1);
      OneMoreStep(states, steps, conn, n - 1);
      if In(w, conn, Registered) {
        RemovalReachesExactly(states, steps, n - 1, conn);
        StaysRegistered(w, step, conn);
      } else {
        BecomesRegistered(w, step, conn);
        TakenIsNew(states, steps, n - 1, conn);
      }
    }
  }

  // When no id is given out again too soon

  ghost predicate OwnIds(w: World) {
    && (forall c, d :: c in w.arrivals && d in w.arrivals && c != d
                       && !w.arrivals[c].phase.Over? && !w.arrivals[d].phase.Over? ==>
          w.arrivals[c].id != w.arrivals[d].id)
    && (forall c :: c in w.arrivals && !w.arrivals[c].phase.Over? ==> w.arrivals[c].id !in w.books.incoming)
  }

  lemma OwnIdsStay(w: World, step: Step)
    requires Good(w) && OwnIds(w) && PossibleAnew(w, step)
    ensures OwnIds(Apply(w, step))
  {
    if step.Other? {
      OthersAdd(w.books, step.op);
    }
  }

  lemma NobodyOvertakes(w: World, step: Step, conn: Conn)
    requires Possible(w, step) && OwnIds(w)
    ensures !Overtakes(w, step, conn)
  {
  }

  /** Over any run in which no offer is given the id of an accepted transfer that is
      not over, a registered transfer's connection has been closed by a roster if and
      only if some roster since it registered has left its peer out. */
  lemma RemovalReachesArrivals(states: seq<World>, steps: seq<Step>, n: nat, conn: Conn)
    requires IsRun(Apply, (w, step) => PossibleAnew(w, step), states, steps) && states[0] == Start
    requires n < |states| && In(states[n], conn, Registered)
    ensures conn in states[n].closed <==> LeftOutBy(states, steps, conn, n)
  {
    forall k | 0 <= k < n
      ensures !OvertakenAt(states, steps, conn, k)
    {
      IdsAreOwn(states, steps, k);
      NobodyOvertakes(states[k], steps[k], conn);
    }
    assert IsRun(Apply, Possible, states, steps);
    RemovalReachesExactly(states, steps, n, conn);
  }

  lemma IdsAreOwn(states: seq<World>, steps: seq<Step>, n: nat)
    requires IsRun(Apply, (w, step) => PossibleAnew(w, step), states, steps) && states[0] == Start
    requires n < |states|
    ensures OwnIds(states[n])
  {
    forall w, step | Good(w) && OwnIds(w) && PossibleAnew(w, step)
      ensures Good(Apply(w, step)) && OwnIds(Apply(w, step))
    {
      ApplyKeeps(w, step);
      OwnIdsStay(w, step);
    }
    Keeps(Apply, (w, step) => PossibleAnew(w, step), w => Good(w) && OwnIds(w), states, steps, n);
  }

  /** Over any run, a roster closes the connection of an offer on the list exactly
      when it takes the offer off, which is when it leaves the offer's peer out. */
  lemma RosterReachesOffers(states: seq<World>, steps: seq<Step>, n: nat, id: Id)
    requires Happened(states, steps) && n < |steps| && steps[n].Roster? && id in states[n].books.incoming
    ensures var offer, after := states[n].books.incoming[id], states[n + 1];
            && (offer.conn in after.closed <==> id !in after.books.incoming)
            && (id in after.books.incoming <==> offer.peer in steps[n].members)
  {
    var w, members := states[n], steps[n].members;
    RunIsGood(states, steps, n);
    if id in SetRoster(w.books, members).incoming {
      KeptIsOpen(w, members, id);
    }
  }

  /** A transfer still under way from somebody outside the roster, its connection open. */
  predicate Escaped(w: World, conn: Conn) {
    In(w, conn, Registered) && w.arrivals[conn].peer !in w.books.roster && conn !in w.closed
  }

  /** An offer admitted, queued and taken, by a connection nobody has used. */
  lemma OfferTaken(ok: (World, Step) -> bool, w: World, peer: Key, conn: Conn, id: Id) returns (end: World)
    requires Leads(Apply, ok, Start, w) && forall t, step :: PossibleAnew(t, step) ==> ok(t, step)
    requires peer in w.books.roster && w.books.incoming == map[] && w.books.gone == map[]
    requires w.books.outgoing == map[]
    requires ok(w, Other(AdmitOffer(peer, "file", 1, 60, conn, 0, id)))
    ensures Leads(Apply, ok, Start, end)
    ensures end == w.(seen := w.seen + {conn}, arrivals := w.arrivals[conn := Arrival(id, peer, Taken)])
  {
    var admit := AdmitOffer(peer, "file", 1, 60, conn, 0, id);
    assert Waiting(w.books, peer) == {};
    LeadsOn(Apply, ok, Start, w, Other(admit));
    var admitted := OtherStep(w, admit);
    LeadsOn(Apply, ok, Start, admitted, Other(QueueOffer(id)));
    var queued := OtherStep(admitted, QueueOffer(id));
    LeadsOn(Apply, ok, Start, queued, Step.TakeOffer(id, 1));
    end := TakeStep(queued, id, 1);
    assert end.books.incoming == map[] && end.books.gone == map[] && end.books.outgoing == map[];
  }

  /** A roster when nobody it leaves out has anything on the list or arriving. */
  lemma QuietRoster(ok: (World, Step) -> bool, w: World, members: map<Key, string>) returns (end: World)
    requires Leads(Apply, ok, Start, w) && forall t, step :: PossibleAnew(t, step) ==> ok(t, step)
    requires w.books.incoming == map[] && w.books.outgoing == map[]
    requires forall id :: id in w.books.receiving ==> w.books.receiving[id].0 in members
    ensures Leads(Apply, ok, Start, end)
    ensures end == w.(books := w.books.(roster := members))
  {
    LeadsOn(Apply, ok, Start, w, Roster(members));
    end := RosterStep(w, members);
    assert CutOff(w.books, members) == {};
    assert end.books.receiving == w.books.receiving && end.books.incoming == w.books.incoming;
    assert end.closed == w.closed;
  }

  lemma Registers(ok: (World, Step) -> bool, w: World, conn: Conn) returns (end: World)
    requires Leads(Apply, ok, Start, w) && forall t, step :: PossibleAnew(t, step) ==> ok(t, step)
    requires In(w, conn, Taken)
    ensures Leads(Apply, ok, Start, end) && end == RegisterStep(w, conn)
  {
    LeadsOn(Apply, ok, Start, w, Register(conn));
    end := RegisterStep(w, conn);
  }

  /** From an empty table to one offer taken. */
  lemma FirstTaken(ok: (World, Step) -> bool, members: map<Key, string>, peer: Key, conn: Conn, id: Id)
    returns (end: World)
    requires peer in members && forall t, step :: PossibleAnew(t, step) ==> ok(t, step)
    ensures Leads(Apply, ok, Start, end)
    ensures end == World(Empty.(roster := members), {conn}, {}, map[conn := Arrival(id, peer, Taken)])
  {
    LeadsNowhere<World, Step>(Apply, ok, Start);
    var w := QuietRoster(ok, Start, members);
    end := OfferTaken(ok, w, peer, conn, id);
  }

  /** The gap: a roster between taking an offer and registering it does not reach the
      transfer, which goes on from somebody no longer a member. */
  lemma GapLetsItEscape(peer: Key, conn: Conn, id: Id)
    ensures exists w :: Leads(Apply, (t, step) => PossibleAnew(t, step), Start, w) && Escaped(w, conn)
  {
    var ok := (t, step) => PossibleAnew(t, step);
    var w := FirstTaken(ok, map[peer := "peer"], peer, conn, id);
    w := QuietRoster(ok, w, map[]);
    w := Registers(ok, w, conn);
    assert Escaped(w, conn);
  }

  /** Why ids must not be given out again: the table of arriving transfers is not
      among those an id is drawn against, a second transfer under the same id takes
      the first one's place there, and a roster that drops the first one's peer
      closes nothing. */
  lemma ReissueLetsItEscape(peer: Key, other: Key, first: Conn, second: Conn, id: Id)
    requires peer != other && first != second
    ensures exists w :: Leads(Apply, Possible, Start, w) && Escaped(w, first)
  {
    var w := FirstTaken(Possible, map[peer := "peer", other := "other"], peer, first, id);
    w := Registers(Possible, w, first);
    w := OfferTaken(Possible, w, other, second, id);
    w := Registers(Possible, w, second);
    w := QuietRoster(Possible, w, map[other := "other"]);
    assert Escaped(w, first);
  }
}
