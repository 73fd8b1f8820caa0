/** What an invite is good for over a whole run of a coordinator: minting,
    presenting, restarting, moving between networks and everything else the
    table goes through (daemon/src/membership.rs). */
module Invites {
  import opened Basics
  import opened HexTokens
  import opened Membership
  import opened Naming
  import opened Names
  import opened Runs

  /** An operation on the table, a restart that reads the saved file, or forgetting the
      invites whose window has closed. */
  datatype Event = Act(op: Op) | Restart(stored: seq<Stored>) | Prune(now: Time)

  datatype Issue = Issue(invite: Invite, era: nat)

  datatype Admission = Admission(token: Token, bearer: Id, at: Time, network: Option<string>)

  /** The table, and what has happened to invites so far. `presented`
      holds the tokens presented since they were minted; the era counts the
      networks this node has created, joined or left. */
  datatype World = World(
    net: Net,
    clock: Time,
    era: nat,
    minted: map<Token, Issue>,
    presented: set<Token>,
    admissions: seq<Admission>)

  function Fresh(clock: Time): World {
    World(NoNetwork, clock, 0, map[], {}, [])
  }

  /** The operations that take this node to another network, or to none. */
  predicate Moves(op: Op) {
    op.CreateNetwork? || op.JoinNetwork? || op.LeaveNetwork?
  }

  function Later(era: nat): nat {
    era + 1
  }

  function Happen(w: World, event: Event): World {
    match event
    case Restart(stored) =>
      var loaded := Load(stored, |stored|);
      if loaded.Ok? then w.(net := w.net.(invites := loaded.value)) else w
    case Prune(now) => w.(net := w.net.(invites := Unexpired(w.net.invites, now)), clock := now)
    case Act(MintInvite(token, ttl, now)) =>
      w.(net := Mint(w.net, token, ttl, now), clock := now,
         minted := w.minted[token := Issue(Invite(w.net.networkId, now + ttl), w.era)])
    case Act(RedeemInvite(token, requester, now)) =>
      var (net, admitted) := Redeem(w.net, token, requester, now);
      w.(net := net, clock := now,
         presented := if token in w.minted then w.presented + {token} else w.presented,
         admissions := w.admissions + if admitted then [Admission(token, requester, now, w.net.networkId)] else [])
    case Act(op) =>
      w.(net := Do(w.net, op), era := if Moves(op) then Later(w.era) else w.era)
  }

  /** Tokens are never drawn twice, the clock does not go back, and what is read
      at a restart is what was saved. */
  ghost predicate Possible(w: World, event: Event) {
    match event
    case Restart(stored) => Saves(EntriesOf(stored, |stored|), w.net.invites)
    case Prune(now) => w.clock <= now
    case Act(MintInvite(token, _, now)) => token !in w.minted && w.clock <= now
    case Act(RedeemInvite(_, _, now)) => w.clock <= now
    case Act(_) => true
  }

  // The invariant

  ghost predicate PendingIsIssued(w: World) {
    forall t :: t in w.net.invites ==>
      t in w.minted && w.minted[t] == Issue(w.net.invites[t], w.era) && t !in w.presented
  }

  ghost predicate IssuedHere(w: World) {
    && (forall t :: t in w.minted ==>
          w.minted[t].era <= w.era && (w.minted[t].era == w.era ==> w.minted[t].invite.networkId == w.net.networkId))
    && w.presented <= w.minted.Keys
  }

  /** An invite that can still admit someone: minted since this node last created,
      joined or left a network, not presented since, for a network, in time. */
  predicate Outstanding(w: World, token: Token, now: Time) {
    && token in w.minted && token !in w.presented
    && w.minted[token].era == w.era
    && w.minted[token].invite.networkId.Some?
    && w.minted[token].invite.expiresAt > now
  }

  ghost predicate OutstandingIsPending(w: World) {
    forall t :: Outstanding(w, t, w.clock) ==> t in w.net.invites
  }

  predicate Proper(w: World, a: Admission) {
    && a.token in w.minted && a.token in w.presented
    && a.at < w.minted[a.token].invite.expiresAt
    && a.network == w.minted[a.token].invite.networkId && a.network.Some?
  }

  ghost predicate ProperlyAdmitted(w: World) {
    && (forall i :: 0 <= i < |w.admissions| ==> Proper(w, w.admissions[i]))
    && (forall i, j :: 0 <= i < j < |w.admissions| ==> w.admissions[i].token != w.admissions[j].token)
  }

  ghost predicate Kept(w: World) {
    PendingIsIssued(w) && IssuedHere(w) && OutstandingIsPending(w) && ProperlyAdmitted(w)
  }

  // Each event keeps it

  predicate LeavesInvites(op: Op) {
    op.ClaimHostname? || op.PushRoster? || op.RemoveMember? || op.KickMember?
  }

  lemma OthersLeaveInvites(net: Net, op: Op)
    requires LeavesInvites(op)
    ensures Do(net, op).invites == net.invites && Do(net, op).networkId == net.networkId
  {
    match op
    case PushRoster(own, name, roster) =>
      AbsorbAllCoordinator(net.(networkName := if name.Some? then name else net.networkName, members := []),
                           roster, |roster|);
    case _ =>
  }

  lemma MovingClearsInvites(net: Net, op: Op)
    requires Moves(op)
    ensures Do(net, op).invites == map[]
  {
    match op
    case JoinNetwork(coordinator, own, name, roster) =>
      AbsorbAllCoordinator(Net(name, Some(coordinator), None, [], map[], map[]), roster, |roster|);
    case _ =>
  }

  lemma MintKeeps(w: World, token: Token, ttl: Time, now: Time)
    requires Kept(w) && Possible(w, Act(MintInvite(token, ttl, now)))
    ensures Kept(Happen(w, Act(MintInvite(token, ttl, now))))
  {
    var after := Happen(w, Act(MintInvite(token, ttl, now)));
    forall t | Outstanding(after, t, now)
      ensures t in after.net.invites
    {
      assert t != token ==> Outstanding(w, t, w.clock);
    }
  }

  lemma PresentKeeps(w: World, token: Token, requester: Id, now: Time)
    requires Kept(w) && Possible(w, Act(RedeemInvite(token, requester, now)))
    ensures Kept(Happen(w, Act(RedeemInvite(token, requester, now))))
  {
    var after := Happen(w, Act(RedeemInvite(token, requester, now)));
    forall t | Outstanding(after, t, now)
      ensures t in after.net.invites
    {
      assert Outstanding(w, t, w.clock);
    }
  }

  lemma MovingKeeps(w: World, op: Op)
    requires Kept(w) && Moves(op)
    ensures Kept(Happen(w, Act(op)))
  {
    MovingClearsInvites(w.net, op);
  }

  lemma OthersKeep(w: World, op: Op)
    requires Kept(w) && LeavesInvites(op)
    ensures Kept(Happen(w, Act(op)))
  {
    OthersLeaveInvites(w.net, op);
    SameInvitesKeep(w, Happen(w, Act(op)));
  }

  lemma PruneKeeps(w: World, now: Time)
    requires Kept(w) && w.clock <= now
    ensures Kept(Happen(w, Prune(now)))
  {
    forall t | Outstanding(w, t, now)
      ensures t in Unexpired(w.net.invites, now)
    {
      assert Outstanding(w, t, w.clock);
    }
  }

  lemma SameInvitesKeep(w: World, after: World)
    requires Kept(w) && after == w.(net := after.net)
    requires after.net.invites == w.net.invites && after.net.networkId == w.net.networkId
    ensures Kept(after)
  {
    forall t | Outstanding(after, t, after.clock)
      ensures t in after.net.invites
    {
      assert Outstanding(w, t, w.clock);
    }
  }

  lemma HappenKeeps(w: World, event: Event)
    requires Kept(w) && Possible(w, event)
    ensures Kept(Happen(w, event))
  {
    match event
    case Restart(stored) =>
      SaveThenLoad(stored, w.net.invites);
      SameInvitesKeep(w, Happen(w, event));
    case Prune(now) => PruneKeeps(w, now);
    case Act(MintInvite(token, ttl, now)) => MintKeeps(w, token, ttl, now);
    case Act(RedeemInvite(token, requester, now)) => PresentKeeps(w, token, requester, now);
    case Act(op) =>
      if Moves(op) {
        MovingKeeps(w, op);
      } else {
        OthersKeep(w, op);
      }
  }

  /** Any run at all, from a node that is in no network. */
  ghost predicate Happened(states: seq<World>, events: seq<Event>) {
    IsRun(Happen, (w, e) => Possible(w, e), states, events) && states[0] == Fresh(states[0].clock)
  }

  lemma RunKeeps(states: seq<World>, events: seq<Event>, n: nat)
    requires Happened(states, events) && n < |states|
    ensures Kept(states[n])
  {
    forall w, e | Kept(w) && Possible(w, e)
      ensures Kept(Happen(w, e))
    {
      HappenKeeps(w, e);
    }
    Keeps(Happen, (w, e) => Possible(w, e), w => Kept(w), states, events, n);
  }

  // What an invite is good for

  /** Over any run: every admission was by a token minted here, before its
      deadline and into the network it was minted under, and no token ever
      admitted two bearers. */
  lemma OneBearerEach(states: seq<World>, events: seq<Event>, n: nat)
    requires Happened(states, events) && n < |states|
    ensures var w := states[n];
            && (forall i :: 0 <= i < |w.admissions| ==> Proper(w, w.admissions[i]))
            && (forall i, j :: 0 <= i < j < |w.admissions| ==> w.admissions[i].token != w.admissions[j].token)
  {
    RunKeeps(states, events, n);
  }

  /** At any point of any run, presenting a token admits its bearer if and only
      if the invite is outstanding: this is its first presentation, it is in
      time, it was minted for a network, and this node has not created, joined or
      left one since -- so never, if it was in no network of its own when it minted
      it. Either way the token is spent. Being admitted is being listed; being refused
      admits nobody. Restarts and pruning in between change none of it. */
  lemma AdmitsExactly(states: seq<World>, events: seq<Event>, n: nat, token: Token, requester: Id, now: Time)
    requires Happened(states, events) && n < |states|
    requires states[n].clock <= now
    ensures var w := states[n];
            var (net, admitted) := Redeem(w.net, token, requester, now);
            && (admitted <==> Outstanding(w, token, now))
            && (admitted ==> IsMember(net.members, requester))
            && (!admitted ==> net.members == w.net.members)
            && token !in net.invites
  {
    RunKeeps(states, events, n);
    var w := states[n];
    if Outstanding(w, token, now) {
      assert Outstanding(w, token, w.clock);
      AdmittedIsMember(w.net.members, Member(requester, None));
    }
  }

  lemma AdmittedIsMember(members: seq<Member>, member: Member)
    ensures IsMember(Admitted(members, member), member.id)
  {
    var after := Admitted(members, member);
    if after != members {
      assert after[|members|] == member;
    }
  }
}
