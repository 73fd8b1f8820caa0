/** The table of file offers in flight on a node (daemon/src/files/mod.rs, and the
    parts of daemon/src/files/transfer.rs that run under its lock): each locked
    step as a function on the table, and the object that carries them out. */
module Registry {
  import opened Basics

  const MAX_PENDING_PER_PEER := 20
  const MAX_FILE_TTL := 86400
  const HISTORY := 3600

  type Key = string
  type Id = string

  /** Seconds on one clock. */
  type Time = int

  /** A connection, by its stable id. */
  type Conn = nat

  datatype OfferState = Offered | Transferring | Done | Rejected | Expired | Cancelled | Failed

  predicate IsFinished(state: OfferState) {
    !state.Offered? && !state.Transferring?
  }

  datatype Incoming = Incoming(
    peer: Key, name: string, size: nat, receivedAt: Time, expiresAt: Time, conn: Conn, linked: bool)

  datatype Outgoing = Outgoing(
    peer: Key, name: string, size: nat, state: OfferState, createdAt: Time,
    expires: Option<Time>, finishedAt: Option<Time>, detail: Option<string>, held: Option<Conn>)

  datatype Books = Books(
    roster: map<Key, string>,
    incoming: map<Id, Incoming>,
    outgoing: map<Id, Outgoing>,
    receiving: map<Id, (Key, Conn)>,
    gone: map<Id, (Time, string)>)

  const Empty := Books(map[], map[], map[], map[], map[])

  function Apart(a: int, b: int): nat {
    if a <= b then b - a else a - b
  }

  /** The window an offer gets, whatever was asked for: of those allowed, the one
      nearest to it. */
  function ClampTtl(ttl: nat): (r: Time)
    ensures 1 <= r <= MAX_FILE_TTL
    ensures forall window :: 1 <= window <= MAX_FILE_TTL ==> Apart(r, ttl) <= Apart(window, ttl)
  {
    if ttl < 1 then 1 else if ttl > MAX_FILE_TTL then MAX_FILE_TTL else ttl
  }

  // The roster

  /** The connections a new roster cuts off: everyone's it no longer lists. */
  function CutOff(b: Books, roster: map<Key, string>): set<Conn> {
    (set id | id in b.incoming && b.incoming[id].peer !in roster :: b.incoming[id].conn)
    + (set id | id in b.receiving && b.receiving[id].0 !in roster :: b.receiving[id].1)
    + (set id | id in b.outgoing && b.outgoing[id].held.Some? && b.outgoing[id].peer !in roster
         :: b.outgoing[id].held.value)
  }

  function SetRoster(b: Books, roster: map<Key, string>): Books {
    b.(roster := roster,
       incoming := map id | id in b.incoming && b.incoming[id].peer in roster :: b.incoming[id],
       receiving := map id | id in b.receiving && b.receiving[id].0 in roster :: b.receiving[id])
  }

  // Ids

  predicate Unused(b: Books, id: Id) {
    id !in b.incoming && id !in b.outgoing && id !in b.gone
  }

  /** The first of the random draws, from `i` on, that is not in use. */
  function FirstUnused(b: Books, draws: seq<Id>, i: nat): (k: nat)
    requires i <= |draws|
    ensures i <= k <= |draws| && (k < |draws| ==> Unused(b, draws[k]))
    ensures forall j :: i <= j < k ==> !Unused(b, draws[j])
    decreases |draws| - i
  {
    if i < |draws| && !Unused(b, draws[i]) then FirstUnused(b, draws, i + 1) else i
  }

  // Offers to this node

  function Waiting(b: Books, peer: Key): set<Id> {
    set id | id in b.incoming && b.incoming[id].peer == peer
  }

  datatype Refusal = NotAMember | TooMany

  function Admit(b: Books, peer: Key, name: string, size: nat, ttl: Time, conn: Conn, now: Time, id: Id)
    : (Books, Result<Id, Refusal>)
  {
    if peer !in b.roster then (b, Err(NotAMember))
    else if |Waiting(b, peer)| >= MAX_PENDING_PER_PEER then (b, Err(TooMany))
    else (b.(incoming := b.incoming[id := Incoming(peer, name, size, now, now + ttl, conn, false)]), Ok(id))
  }

  /** The sender could not be told its offer was queued. */
  function Unqueue(b: Books, id: Id): Books {
    b.(incoming := b.incoming - {id})
  }

  /** The sender has been told: the offer can be answered from here. */
  function Queue(b: Books, id: Id): (Books, Option<Time>) {
    if id in b.incoming
    then (b.(incoming := b.incoming[id := b.incoming[id].(linked := true)]), Some(b.incoming[id].expiresAt))
    else (b, None)
  }

  /** An offer that ended unanswered, if it is still this connection's. */
  function Bury(b: Books, id: Id, conn: Conn, why: string, now: Time): (Books, bool) {
    if id in b.incoming && b.incoming[id].conn == conn
    then (b.(incoming := b.incoming - {id}, gone := b.gone[id := (now, why)]), true)
    else (b, false)
  }

  datatype NoAnswer = HasExpired | HasGone(why: string) | NeverWas

  predicate Answerable(b: Books, id: Id, now: Time) {
    id in b.incoming && b.incoming[id].linked && b.incoming[id].expiresAt > now
  }

  function Take(b: Books, id: Id, now: Time): (Books, Result<Incoming, NoAnswer>) {
    var kept := ForgetHistory(b, now);
    if Answerable(kept, id, now) then (kept.(incoming := kept.incoming - {id}), Ok(kept.incoming[id]))
    else if id in kept.incoming && kept.incoming[id].linked then (kept, Err(HasExpired))
    else if id in kept.gone then (kept, Err(HasGone(kept.gone[id].1)))
    else (kept, Err(NeverWas))
  }

  function BeginReceiving(b: Books, id: Id, peer: Key, conn: Conn): Books {
    b.(receiving := b.receiving[id := (peer, conn)])
  }

  function EndReceiving(b: Books, id: Id): Books {
    b.(receiving := b.receiving - {id})
  }

  // Offers of this node's

  function Since(at: Time, now: Time): Time {
    if at <= now then now - at else 0
  }

  function ForgetHistory(b: Books, now: Time): Books {
    b.(outgoing := map id | id in b.outgoing
                            && (b.outgoing[id].finishedAt.Some? ==>
                                  Since(b.outgoing[id].finishedAt.value, now) < HISTORY)
                     :: b.outgoing[id],
       gone := map id | id in b.gone && Since(b.gone[id].0, now) < HISTORY :: b.gone[id])
  }

  function Offer(b: Books, id: Id, peer: Key, name: string, size: nat, ttl: Time, now: Time): Books {
    b.(outgoing := b.outgoing[id := Outgoing(peer, name, size, Offered, now, Some(now + ttl), None, None, None)])
  }

  function Undeliver(b: Books, id: Id): Books {
    b.(outgoing := b.outgoing - {id})
  }

  function Delivered(b: Books, id: Id, expires: Time, conn: Conn): (Books, bool) {
    if id in b.outgoing
    then (b.(outgoing := b.outgoing[id := b.outgoing[id].(expires := Some(expires), held := Some(conn))]), true)
    else (b, false)
  }

  function Moved(offer: Outgoing, state: OfferState, detail: Option<string>, now: Time): Outgoing {
    var moved := offer.(state := state, expires := if state.Offered? then offer.expires else None);
    if IsFinished(state) then moved.(finishedAt := Some(now), detail := detail, held := None) else moved
  }

  function SetState(b: Books, id: Id, state: OfferState, detail: Option<string>, now: Time): Books {
    if id in b.outgoing then b.(outgoing := b.outgoing[id := Moved(b.outgoing[id], state, detail, now)]) else b
  }

  // The object

  class Registry {
    var roster: map<Key, string>
    var incoming: map<Id, Incoming>
    var outgoing: map<Id, Outgoing>
    var receiving: map<Id, (Key, Conn)>
    var gone: map<Id, (Time, string)>

    constructor ()
      ensures Table() == Empty
    {
      roster, incoming, outgoing, receiving, gone := map[], map[], map[], map[], map[];
    }

    function Table(): Books
      reads this
    {
      Books(roster, incoming, outgoing, receiving, gone)
    }

    method ReplaceRoster(members: map<Key, string>) returns (closed: set<Conn>)
      modifies this
      ensures Table() == SetRoster(old(Table()), members)
      ensures closed == CutOff(old(Table()), members)
    {
      roster := members;
      closed := set id | id in incoming && incoming[id].peer !in members :: incoming[id].conn;
      incoming := map id | id in incoming && incoming[id].peer in members :: incoming[id];
      closed := closed + (set id | id in receiving && receiving[id].0 !in members :: receiving[id].1);
      receiving := map id | id in receiving && receiving[id].0 in members :: receiving[id];
      closed := closed + (set id | id in outgoing && outgoing[id].held.Some? && outgoing[id].peer !in members
                          :: outgoing[id].held.value);
    }

    /** Draws until an id is free; `None` only if these draws ran out first. */
    method NewId(draws: seq<Id>) returns (id: Option<Id>)
      ensures var k := FirstUnused(Table(), draws, 0);
              id == if k < |draws| then Some(draws[k]) else None
    {
      var i := 0;
      while i < |draws| && !Unused(Table(), draws[i])
        invariant i <= |draws| && forall j :: 0 <= j < i ==> !Unused(Table(), draws[j])
      {
        i := i + 1;
      }
      id := if i < |draws| then Some(draws[i]) else None;
    }

    method AdmitOffer(peer: Key, name: string, size: nat, ttl: Time, conn: Conn, now: Time, id: Id)
      returns (r: Result<Id, Refusal>)
      requires Unused(Table(), id)
      modifies this`incoming
      ensures (Table(), r) == Admit(old(Table()), peer, name, size, ttl, conn, now, id)
    {
      if peer !in roster {
        return Err(NotAMember);
      }
      var waiting := set k | k in incoming && incoming[k].peer == peer;
      if |waiting| >= MAX_PENDING_PER_PEER {
        return Err(TooMany);
      }
      incoming := incoming[id := Incoming(peer, name, size, now, now + ttl, conn, false)];
      r := Ok(id);
    }

    method QueueOffer(id: Id) returns (expiresAt: Option<Time>)
      modifies this`incoming
      ensures (Table(), expiresAt) == Queue(old(Table()), id)
    {
      if id !in incoming {
        return None;
      }
      expiresAt := Some(incoming[id].expiresAt);
      incoming := incoming[id := incoming[id].(linked := true)];
    }

    method UnqueueOffer(id: Id)
      modifies this`incoming
      ensures Table() == Unqueue(old(Table()), id)
    {
      incoming := incoming - {id};
    }

    method BuryIncoming(id: Id, conn: Conn, why: string, now: Time) returns (buried: bool)
      modifies this
      ensures (Table(), buried) == Bury(old(Table()), id, conn, why, now)
    {
      if id in incoming && incoming[id].conn == conn {
        incoming := incoming - {id};
        gone := gone[id := (now, why)];
        return true;
      }
      buried := false;
    }

    method Forget(now: Time)
      modifies this`outgoing, this`gone
      ensures Table() == ForgetHistory(old(Table()), now)
    {
      outgoing := map id | id in outgoing
                           && (outgoing[id].finishedAt.Some? ==>
                                 Since(outgoing[id].finishedAt.value, now) < HISTORY)
                    :: outgoing[id];
      gone := map id | id in gone && Since(gone[id].0, now) < HISTORY :: gone[id];
    }

    method TakeAnswerable(id: Id, now: Time) returns (r: Result<Incoming, NoAnswer>)
      modifies this
      ensures (Table(), r) == Take(old(Table()), id, now)
    {
      Forget(now);
      if id in incoming && incoming[id].linked && incoming[id].expiresAt > now {
        r := Ok(incoming[id]);
        incoming := incoming - {id};
      } else if id in incoming && incoming[id].linked {
        r := Err(HasExpired);
      } else if id in gone {
        r := Err(HasGone(gone[id].1));
      } else {
        r := Err(NeverWas);
      }
    }

    method ListOffer(id: Id, peer: Key, name: string, size: nat, ttl: Time, now: Time)
      requires Unused(Table(), id)
      modifies this`outgoing
      ensures Table() == Offer(old(Table()), id, peer, name, size, ttl, now)
    {
      outgoing := outgoing[id := Outgoing(peer, name, size, Offered, now, Some(now + ttl), None, None, None)];
    }

    method MarkDelivered(id: Id, expires: Time, conn: Conn) returns (listed: bool)
      modifies this`outgoing
      ensures (Table(), listed) == Delivered(old(Table()), id, expires, conn)
    {
      if id !in outgoing {
        return false;
      }
      outgoing := outgoing[id := outgoing[id].(expires := Some(expires), held := Some(conn))];
      listed := true;
    }

    method MoveTo(id: Id, state: OfferState, detail: Option<string>, now: Time)
      modifies this`outgoing
      ensures Table() == SetState(old(Table()), id, state, detail, now)
    {
      if id in outgoing {
        var offer := outgoing[id];
        offer := offer.(state := state);
        if !state.Offered? {
          offer := offer.(expires := None);
        }
        if IsFinished(state) {
          offer := offer.(finishedAt := Some(now), detail := detail, held := None);
        }
        outgoing := outgoing[id := offer];
      }
    }
  }
}
