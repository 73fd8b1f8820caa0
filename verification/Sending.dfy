/** The life of an offer this node makes, across its sending task, the guard
    that task holds, and every roster change meanwhile (`Files::send` and the
    `Outcome` guard in daemon/src/files/transfer.rs). */
module Sending {
  import opened Basics
  import opened Bookkeeping
  import opened Registry
  import opened Runs

  /** Where a send task is. `Checking` is between listing its connection and
      looking at the roster again; from `Waiting` on it holds the guard. */
  datatype Phase = Delivering | Checking | Waiting | Relaying | Confirming | Settled | Over | NeverDelivered

  /** One send task; `states` is every state it has recorded for its offer. */
  datatype Send = Send(id: Id, peer: Key, phase: Phase, conn: Option<Conn>, states: seq<OfferState>)

  datatype World = World(books: Books, clock: Time, closed: set<Conn>, sends: map<nat, Send>)

  function Start(clock: Time): World {
    World(Empty, clock, {}, map[])
  }

  datatype Step =
    | MakeOffer(task: nat, id: Id, peer: Key, name: string, size: nat, ttl: Time, now: Time)
    | CannotDeliver(task: nat)
    | Abandon(task: nat)
    | Deliver(task: nat, conn: Conn, ttl: Time, now: Time)
    | Recheck(task: nat)
    | HearAccept(task: nat, now: Time)
    | SendEnd(task: nat)
    | Finish(task: nat, state: OfferState, detail: Option<string>, now: Time)
    | DropGuard(task: nat, now: Time)
    | Roster(members: map<Key, string>)
    | Other(op: Locked)

  predicate Guarded(send: Send) {
    send.phase.Waiting? || send.phase.Relaying? || send.phase.Confirming?
  }

  /** Between being listed and recording how it ended. */
  predicate Live(send: Send) {
    send.phase.Delivering? || send.phase.Checking? || Guarded(send)
  }

  predicate At(w: World, task: nat, phase: Phase) {
    task in w.sends && w.sends[task].phase == phase
  }

  function Advance(w: World, task: nat, phase: Phase): map<nat, Send>
    requires task in w.sends
  {
    w.sends[task := w.sends[task].(phase := phase)]
  }

  /** Records a state for a task's offer, under the lock. */
  function Record(w: World, task: nat, phase: Phase, state: OfferState, detail: Option<string>, now: Time): World
    requires task in w.sends
  {
    var send := w.sends[task];
    w.(books := SetState(w.books, send.id, state, detail, now), clock := now,
       sends := w.sends[task := send.(phase := phase, states := send.states + [state])])
  }

  function FinishStep(w: World, task: nat, phase: Phase, state: OfferState, detail: Option<string>, now: Time): World
    requires task in w.sends
  {
    var done := Record(w, task, phase, state, detail, now);
    done.(closed := done.closed + if w.sends[task].conn.Some? then {w.sends[task].conn.value} else {})
  }

  function DeliverStep(w: World, task: nat, conn: Conn, ttl: Time, now: Time): World
    requires task in w.sends
  {
    var send := w.sends[task];
    var (books, listed) := Delivered(w.books, send.id, now + ttl, conn);
    w.(books := books, clock := now,
       sends := w.sends[task := if listed then send.(phase := Checking, conn := Some(conn)) else send.(phase := Over)])
  }

  function RecheckStep(w: World, task: nat): World
    requires task in w.sends
  {
    var send := w.sends[task];
    w.(sends := Advance(w, task, Waiting),
       closed := if send.peer !in w.books.roster && send.conn.Some? then w.closed + {send.conn.value} else w.closed)
  }

  function OtherStep(w: World, op: Locked): World {
    w.(books := Lock(w.books, op), clock := if op.ListAll? || op.TakeOffer? then op.now else w.clock)
  }

  function Apply(w: World, step: Step): World {
    match step
    case MakeOffer(task, id, peer, name, size, ttl, now) =>
      w.(books := Offer(ForgetHistory(w.books, now), id, peer, name, size, ttl, now), clock := now,
         sends := w.sends[task := Send(id, peer, Delivering, None, [Offered])])
    case CannotDeliver(task) =>
      if task in w.sends
      then w.(books := Undeliver(w.books, w.sends[task].id), sends := Advance(w, task, NeverDelivered))
      else w
    case Abandon(task) => if task in w.sends then w.(sends := Advance(w, task, NeverDelivered)) else w
    case Deliver(task, conn, ttl, now) => if task in w.sends then DeliverStep(w, task, conn, ttl, now) else w
    case Recheck(task) => if task in w.sends then RecheckStep(w, task) else w
    case HearAccept(task, now) => if task in w.sends then Record(w, task, Relaying, Transferring, None, now) else w
    case SendEnd(task) => if task in w.sends then w.(sends := Advance(w, task, Confirming)) else w
    case Finish(task, state, detail, now) =>
      if task in w.sends then FinishStep(w, task, Settled, state, detail, now) else w
    case DropGuard(task, now) =>
      if task !in w.sends then w
      else if w.sends[task].phase.Settled? then w.(sends := Advance(w, task, Over))
      else FinishStep(w, task, Over, Failed, Some("interrupted"), now)
    case Roster(members) =>
      w.(books := SetRoster(w.books, members), closed := w.closed + CutOff(w.books, members))
    case Other(op) => OtherStep(w, op)
  }

  /** How an offer can end from where it is: only one being confirmed can be done,
      and one under way can no longer lapse or be rejected. */
  predicate CanEnd(phase: Phase, state: OfferState) {
    match phase
    case Waiting => state.Cancelled? || state.Expired? || state.Rejected? || state.Failed?
    case Relaying => state.Cancelled? || state.Failed?
    case Confirming => state.Done? || state.Failed?
    case _ => false
  }

  predicate Enabled(w: World, step: Step) {
    match step
    case MakeOffer(task, id, _, _, _, _, now) =>
      task !in w.sends && Unused(ForgetHistory(w.books, now), id) && w.clock <= now
    case CannotDeliver(task) => At(w, task, Delivering)
    case Abandon(task) => At(w, task, Delivering)
    case Deliver(task, _, _, now) => At(w, task, Delivering) && w.clock <= now
    case Recheck(task) => At(w, task, Checking)
    case HearAccept(task, now) => At(w, task, Waiting) && w.clock <= now
    case SendEnd(task) => At(w, task, Relaying)
    case Finish(task, state, _, now) => task in w.sends && CanEnd(w.sends[task].phase, state) && w.clock <= now
    case DropGuard(task, now) =>
      task in w.sends && (Guarded(w.sends[task]) || w.sends[task].phase.Settled?) && w.clock <= now
    case Roster(_) => true
    case Other(op) =>
      && (op.AdmitOffer? || op.QueueOffer? || op.UnqueueOffer? || op.BuryOffer? || op.TakeOffer?
          || op.StartReceiving? || op.StopReceiving? || op.ListAll?)
      && Numbered(w.books, op)
      && (op.ListAll? || op.TakeOffer? ==> w.clock <= op.now)
  }

  // What holds throughout

  /** Offered, then perhaps transferring, then at most one terminal state; done only
      after transferring, lapsed or rejected only before. */
  predicate Legal(states: seq<OfferState>) {
    match |states|
    case 1 => states[0].Offered?
    case 2 => states[0].Offered? && (states[1].Transferring? || CanEnd(Waiting, states[1]))
    case 3 => states[0].Offered? && states[1].Transferring?
              && (CanEnd(Relaying, states[2]) || CanEnd(Confirming, states[2]))
    case _ => false
  }

  /** The states a task in this phase has recorded. */
  predicate InPhase(send: Send) {
    && Legal(send.states)
    && match send.phase
       case Delivering => send.states == [Offered] && send.conn.None?
       case NeverDelivered => send.states == [Offered] && send.conn.None?
       case Checking => send.states == [Offered] && send.conn.Some?
       case Waiting => send.states == [Offered] && send.conn.Some?
       case Relaying => send.states == [Offered, Transferring] && send.conn.Some?
       case Confirming => send.states == [Offered, Transferring] && send.conn.Some?
       case _ => IsFinished(send.states[|send.states| - 1])
  }

  /** The entry a live task finds under its id. */
  predicate Entered(w: World, send: Send) {
    && send.id in w.books.outgoing
    && w.books.outgoing[send.id].peer == send.peer
    && |send.states| > 0 && w.books.outgoing[send.id].state == send.states[|send.states| - 1]
    && w.books.outgoing[send.id].held == send.conn
  }

  predicate TaskGood(w: World, t: nat) {
    t in w.sends ==>
      && InPhase(w.sends[t])
      && (Live(w.sends[t]) ==> Entered(w, w.sends[t]))
      && (Guarded(w.sends[t]) && w.sends[t].peer !in w.books.roster ==> w.sends[t].conn.value in w.closed)
  }

  predicate EntryGood(offer: Outgoing) {
    && (offer.finishedAt.Some? <==> IsFinished(offer.state))
    && (offer.expires.Some? <==> offer.state.Offered?)
    && (offer.held.Some? ==> !IsFinished(offer.state))
  }

  ghost predicate TasksGood(w: World) {
    forall t :: TaskGood(w, t)
  }

  ghost predicate EntriesGood(w: World) {
    forall id :: id in w.books.outgoing ==> EntryGood(w.books.outgoing[id])
  }

  ghost predicate OwnIds(w: World) {
    forall s, t :: s in w.sends && t in w.sends && s != t && Live(w.sends[s]) && Live(w.sends[t]) ==>
      w.sends[s].id != w.sends[t].id
  }

  ghost predicate Good(w: World) {
    TasksGood(w) && EntriesGood(w) && OwnIds(w)
  }

  // Each step keeps it

  /** Nobody forgets an offer that has not finished. */
  lemma ForgetKeepsLive(w: World, now: Time, id: Id)
    requires id in w.books.outgoing && EntryGood(w.books.outgoing[id]) && !IsFinished(w.books.outgoing[id].state)
    ensures id in ForgetHistory(w.books, now).outgoing
    ensures ForgetHistory(w.books, now).outgoing[id] == w.books.outgoing[id]
  {
  }

  lemma LiveIsUnfinished(w: World, t: nat)
    requires Good(w) && t in w.sends && Live(w.sends[t])
    ensures w.sends[t].id in w.books.outgoing && EntryGood(w.books.outgoing[w.sends[t].id])
    ensures !IsFinished(w.books.outgoing[w.sends[t].id].state)
  {
    assert TaskGood(w, t);
  }

  lemma MakeOfferKeeps(w: World, step: Step)
    requires Good(w) && Enabled(w, step) && step.MakeOffer?
    ensures Good(Apply(w, step))
  {
    var after := Apply(w, step);
    forall t
      ensures TaskGood(after, t)
      ensures t in w.sends && Live(w.sends[t]) ==> w.sends[t].id != step.id
    {
      assert TaskGood(w, t);
      if t in w.sends && Live(w.sends[t]) {
        LiveIsUnfinished(w, t);
        ForgetKeepsLive(w, step.now, w.sends[t].id);
      }
    }
  }

  /** A step of one task that touches no entry but its own. */
  lemma OneTaskStep(w: World, after: World, task: nat)
    requires Good(w) && task in w.sends && Live(w.sends[task]) && task in after.sends
    requires after.sends == w.sends[task := after.sends[task]] && after.sends[task].id == w.sends[task].id
    requires after.books.outgoing.Keys + {w.sends[task].id} == w.books.outgoing.Keys
    requires forall id :: id in after.books.outgoing && id != w.sends[task].id ==>
               after.books.outgoing[id] == w.books.outgoing[id]
    requires w.sends[task].id in after.books.outgoing ==> EntryGood(after.books.outgoing[w.sends[task].id])
    requires after.books.roster == w.books.roster && w.closed <= after.closed
    requires TaskGood(after, task)
    ensures Good(after)
  {
    forall t
      ensures TaskGood(after, t)
    {
      assert TaskGood(w, t);
    }
  }

  lemma BeforeGuardKeeps(w: World, step: Step)
    requires Good(w) && Enabled(w, step)
    requires step.CannotDeliver? || step.Abandon? || step.Deliver? || step.Recheck? || step.SendEnd?
    ensures Good(Apply(w, step))
  {
    assert TaskGood(w, step.task);
    LiveIsUnfinished(w, step.task);
    OneTaskStep(w, Apply(w, step), step.task);
  }

  lemma RecordKeeps(w: World, step: Step)
    requires Good(w) && Enabled(w, step) && (step.HearAccept? || step.Finish?)
    ensures Good(Apply(w, step))
  {
    assert TaskGood(w, step.task);
    LiveIsUnfinished(w, step.task);
    OneTaskStep(w, Apply(w, step), step.task);
  }

  lemma DropGuardKeeps(w: World, step: Step)
    requires Good(w) && Enabled(w, step) && step.DropGuard?
    ensures Good(Apply(w, step))
  {
    assert TaskGood(w, step.task);
    if Guarded(w.sends[step.task]) {
      LiveIsUnfinished(w, step.task);
      OneTaskStep(w, Apply(w, step), step.task);
    } else {
      forall t
        ensures TaskGood(Apply(w, step), t)
      {
        assert TaskGood(w, t);
      }
    }
  }

  lemma RosterKeeps(w: World, members: map<Key, string>)
    requires Good(w)
    ensures Good(Apply(w, Roster(members)))
  {
    var after := Apply(w, Roster(members));
    forall t
      ensures TaskGood(after, t)
    {
      assert TaskGood(w, t);
      if t in w.sends && Guarded(w.sends[t]) && w.sends[t].peer !in members {
        HeldIsCutOff(w.books, members, w.sends[t].id);
      }
    }
  }

  lemma HeldIsCutOff(b: Books, members: map<Key, string>, id: Id)
    requires id in b.outgoing && b.outgoing[id].held.Some? && b.outgoing[id].peer !in members
    ensures b.outgoing[id].held.value in CutOff(b, members)
  {
  }

  lemma OtherKeeps(w: World, op: Locked)
    requires Good(w) && Enabled(w, Other(op))
    ensures Good(OtherStep(w, op))
  {
    var after := OtherStep(w, op);
    OthersOnlyForget(w.books, op);
    forall t
      ensures TaskGood(after, t)
    {
      assert TaskGood(w, t);
      if t in w.sends && Live(w.sends[t]) {
        LiveIsUnfinished(w, t);
      }
    }
  }

  lemma OthersOnlyForget(b: Books, op: Locked)
    requires op.AdmitOffer? || op.QueueOffer? || op.UnqueueOffer? || op.BuryOffer? || op.TakeOffer?
             || op.StartReceiving? || op.StopReceiving? || op.ListAll?
    ensures Lock(b, op).roster == b.roster
    ensures forall id :: id in Lock(b, op).outgoing ==> id in b.outgoing && Lock(b, op).outgoing[id] == b.outgoing[id]
    ensures forall id :: id in b.outgoing && b.outgoing[id].finishedAt.None? ==> id in Lock(b, op).outgoing
  {
  }

  lemma ApplyKeeps(w: World, step: Step)
    requires Good(w) && Enabled(w, step)
    ensures Good(Apply(w, step))
  {
    match step
    case MakeOffer(_, _, _, _, _, _, _) => MakeOfferKeeps(w, step);
    case HearAccept(_, _) => RecordKeeps(w, step);
    case Finish(_, _, _, _) => RecordKeeps(w, step);
    case DropGuard(_, _) => DropGuardKeeps(w, step);
    case Roster(members) => RosterKeeps(w, members);
    case Other(op) => OtherKeeps(w, op);
    case _ => BeforeGuardKeeps(w, step);
  }

  /** Any run at all, from an empty table. */
  ghost predicate Happened(states: seq<World>, steps: seq<Step>) {
    IsRun(Apply, Enabled, states, steps) && states[0] == Start(states[0].clock)
  }

  lemma RunIsGood(states: seq<World>, steps: seq<Step>, n: nat)
    requires Happened(states, steps) && n < |states|
    ensures Good(states[n])
  {
    forall w, step | Good(w) && Enabled(w, step)
      ensures Good(Apply(w, step))
    {
      ApplyKeeps(w, step);
    }
    Keeps(Apply, Enabled, w => Good(w), states, steps, n);
  }

  // What it comes to

  lemma LegalEnds(send: Send)
    requires InPhase(send)
    ensures send.phase.Settled? || send.phase.Over? <==> IsFinished(send.states[|send.states| - 1])
    ensures forall i :: 0 <= i < |send.states| - 1 ==> !IsFinished(send.states[i])
  {
  }

  /** Over any run, for every send: the states it recorded are a legal life; once
      its guard is gone the last of them is terminal, and the only one that is; and
      until then its entry is still listed, in the state recorded last. */
  lemma EveryOfferLivesOnce(states: seq<World>, steps: seq<Step>, n: nat, task: nat)
    requires Happened(states, steps) && n < |states|
    requires task in states[n].sends
    ensures var w := states[n];
            var send := w.sends[task];
            && Legal(send.states)
            && (send.phase.Settled? || send.phase.Over? <==> IsFinished(send.states[|send.states| - 1]))
            && (forall i :: 0 <= i < |send.states| - 1 ==> !IsFinished(send.states[i]))
            && (Live(send) ==> Entered(w, send))
  {
    RunIsGood(states, steps, n);
    assert TaskGood(states[n], task);
    LegalEnds(states[n].sends[task]);
  }

  /** Over any run, every entry listed carries a finishing time exactly when it has
      finished, and a deadline exactly while it waits for an answer. */
  lemma EntriesAreConsistent(states: seq<World>, steps: seq<Step>, n: nat)
    requires Happened(states, steps) && n < |states|
    ensures EntriesGood(states[n])
  {
    RunIsGood(states, steps, n);
  }

  /** In every interleaving of roster changes and sends, once a send has looked at
      the roster again, the connection its entry holds to anyone outside the
      roster is closed. */
  lemma RemovalReachesSends(states: seq<World>, steps: seq<Step>, n: nat, task: nat)
    requires Happened(states, steps) && n < |states|
    requires var w := states[n];
             task in w.sends && Guarded(w.sends[task]) && w.sends[task].peer !in w.books.roster
    ensures var w := states[n];
            var id := w.sends[task].id;
            && id in w.books.outgoing && w.books.outgoing[id].held.Some?
            && w.books.outgoing[id].held.value in w.closed
  {
    RunIsGood(states, steps, n);
    assert TaskGood(states[n], task);
  }
}
