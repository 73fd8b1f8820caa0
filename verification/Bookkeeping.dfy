/** What the table of offers keeps to, in whatever order concurrent tasks take its
    lock (daemon/src/files/mod.rs). */
module Bookkeeping {
  import opened Basics
  import opened Registry
  import opened Runs

  /** One locked step, by any task at all. */
  datatype Locked =
    | NewRoster(members: map<Key, string>)
    | AdmitOffer(peer: Key, name: string, size: nat, ttl: Time, conn: Conn, now: Time, id: Id)
    | QueueOffer(id: Id)
    | UnqueueOffer(id: Id)
    | BuryOffer(id: Id, conn: Conn, why: string, now: Time)
    | TakeOffer(id: Id, now: Time)
    | StartReceiving(id: Id, peer: Key, conn: Conn)
    | StopReceiving(id: Id)
    | ListAll(now: Time)
    | ListOffer(id: Id, peer: Key, name: string, size: nat, ttl: Time, now: Time)
    | UnlistOffer(id: Id)
    | MarkDelivered(id: Id, deadline: Time, conn: Conn)
    | MoveOffer(id: Id, state: OfferState, detail: Option<string>, now: Time)

  function Lock(b: Books, op: Locked): Books {
    match op
    case NewRoster(members) => SetRoster(b, members)
    case AdmitOffer(peer, name, size, ttl, conn, now, id) => Admit(b, peer, name, size, ttl, conn, now, id).0
    case QueueOffer(id) => Queue(b, id).0
    case UnqueueOffer(id) => Unqueue(b, id)
    case BuryOffer(id, conn, why, now) => Bury(b, id, conn, why, now).0
    case TakeOffer(id, now) => Take(b, id, now).0
    case StartReceiving(id, peer, conn) => BeginReceiving(b, id, peer, conn)
    case StopReceiving(id) => EndReceiving(b, id)
    case ListAll(now) => ForgetHistory(b, now)
    case ListOffer(id, peer, name, size, ttl, now) => Offer(ForgetHistory(b, now), id, peer, name, size, ttl, now)
    case UnlistOffer(id) => Undeliver(b, id)
    case MarkDelivered(id, deadline, conn) => Delivered(b, id, deadline, conn).0
    case MoveOffer(id, state, detail, now) => SetState(b, id, state, detail, now)
  }

  /** Both places that number an offer draw until the id is free. */
  predicate Numbered(b: Books, op: Locked) {
    match op
    case AdmitOffer(_, _, _, _, _, _, id) => Unused(b, id)
    case ListOffer(id, _, _, _, _, now) => Unused(ForgetHistory(b, now), id)
    case _ => true
  }

  ghost predicate WithinLimit(b: Books) {
    forall peer :: |Waiting(b, peer)| <= MAX_PENDING_PER_PEER
  }

  ghost predicate FromMembers(b: Books) {
    forall id :: id in b.incoming ==> b.incoming[id].peer in b.roster
  }

  predicate Disjoint(b: Books) {
    && b.incoming.Keys !! b.outgoing.Keys
    && b.incoming.Keys !! b.gone.Keys
    && b.outgoing.Keys !! b.gone.Keys
  }

  ghost predicate InOrder(b: Books) {
    WithinLimit(b) && FromMembers(b) && Disjoint(b)
  }

  /** Fewer offers, of no new peers, and the limit still holds. */
  lemma FewerWaiting(b: Books, after: Books)
    requires WithinLimit(b)
    requires forall id :: id in after.incoming ==> id in b.incoming && after.incoming[id].peer == b.incoming[id].peer
    ensures WithinLimit(after)
  {
    forall peer
      ensures |Waiting(after, peer)| <= MAX_PENDING_PER_PEER
    {
      SubsetSize(Waiting(after, peer), Waiting(b, peer));
    }
  }

  /** One more offer from `peer`, under an unused id, is one more in its count. */
  lemma OneMoreWaiting(b: Books, id: Id, offer: Incoming, peer: Key)
    requires id !in b.incoming
    ensures var after := b.(incoming := b.incoming[id := offer]);
            |Waiting(after, peer)| == |Waiting(b, peer)| + if peer == offer.peer then 1 else 0
  {
    var after := b.(incoming := b.incoming[id := offer]);
    if peer == offer.peer {
      assert Waiting(after, peer) == Waiting(b, peer) + {id};
    } else {
      assert Waiting(after, peer) == Waiting(b, peer);
    }
  }

  lemma AdmitLimit(b: Books, id: Id, offer: Incoming)
    requires WithinLimit(b) && id !in b.incoming && |Waiting(b, offer.peer)| < MAX_PENDING_PER_PEER
    ensures WithinLimit(b.(incoming := b.incoming[id := offer]))
  {
    var after := b.(incoming := b.incoming[id := offer]);
    forall peer
      ensures |Waiting(after, peer)| <= MAX_PENDING_PER_PEER
    {
      OneMoreWaiting(b, id, offer, peer);
    }
  }

  lemma AdmitKeeps(b: Books, peer: Key, name: string, size: nat, ttl: Time, conn: Conn, now: Time, id: Id)
    requires InOrder(b) && Unused(b, id)
    ensures InOrder(Admit(b, peer, name, size, ttl, conn, now, id).0)
  {
    if Admit(b, peer, name, size, ttl, conn, now, id).1.Ok? {
      AdmitLimit(b, id, Incoming(peer, name, size, now, now + ttl, conn, false));
    }
  }

  lemma OthersKeepLimit(b: Books, op: Locked)
    requires WithinLimit(b) && FromMembers(b) && !op.AdmitOffer?
    ensures WithinLimit(Lock(b, op)) && FromMembers(Lock(b, op))
  {
    FewerWaiting(b, Lock(b, op));
  }

  lemma OthersKeepDisjoint(b: Books, op: Locked)
    requires Disjoint(b) && Numbered(b, op) && !op.AdmitOffer?
    ensures Disjoint(Lock(b, op))
  {
  }

  lemma LockKeeps(b: Books, op: Locked)
    requires InOrder(b) && Numbered(b, op)
    ensures InOrder(Lock(b, op))
  {
    if op.AdmitOffer? {
      AdmitKeeps(b, op.peer, op.name, op.size, op.ttl, op.conn, op.now, op.id);
    } else {
      OthersKeepLimit(b, op);
      OthersKeepDisjoint(b, op);
    }
  }

  /** In every reachable state: at most 20 offers waiting from any peer, none from
      outside the current roster, and no id in two of the three tables. */
  lemma RunIsInOrder(states: seq<Books>, ops: seq<Locked>, n: nat)
    requires IsRun(Lock, Numbered, states, ops) && states[0] == Empty && n < |states|
    ensures InOrder(states[n])
  {
    forall peer
      ensures |Waiting(Empty, peer)| <= MAX_PENDING_PER_PEER
    {
      assert Waiting(Empty, peer) == {};
    }
    forall b, op | InOrder(b) && Numbered(b, op)
      ensures InOrder(Lock(b, op))
    {
      LockKeeps(b, op);
    }
    Keeps(Lock, Numbered, b => InOrder(b), states, ops, n);
  }

  /** An offer is let in exactly when its peer is a member with room, and being let
      in takes one place of that peer's and no one else's. */
  lemma AdmitsExactly(
    b: Books, peer: Key, name: string, size: nat, ttl: Time, conn: Conn, now: Time, id: Id, other: Key)
    requires Unused(b, id)
    ensures var (after, r) := Admit(b, peer, name, size, ttl, conn, now, id);
            && (r.Ok? <==> peer in b.roster && |Waiting(b, peer)| < MAX_PENDING_PER_PEER)
            && |Waiting(after, other)| == |Waiting(b, other)| + (if r.Ok? && other == peer then 1 else 0)
            && !Answerable(after, id, now)
  {
    OneMoreWaiting(b, id, Incoming(peer, name, size, now, now + ttl, conn, false), other);
  }
}
