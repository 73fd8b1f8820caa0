/** What a network's members agree on at every moment of every run: which key a
    name means, whichever node is asked and whatever messages it has missed. */
module Agreement {
  import opened Basics
  import opened Dns
  import opened Membership
  import opened Names
  import opened Naming
  import opened Network
  import opened Runs
  import opened Trust

  /** Before there is any network: the coordinator-to-be has an empty table, has said
      nothing, and nobody takes it for a coordinator. */
  ghost predicate Starts(s: System) {
    && DistinctKeys(s.known) && s.coordinator in s.known
    && s.table == NoNetwork && s.mail == {}
    && forall node :: !InNetwork(s, node)
  }

  /** A run of a network: it is created, perhaps more than once, and anything goes
      that moves no name somebody has been told of. */
  ghost predicate Happened(states: seq<System>, steps: seq<Step>) {
    IsRun(Apply, (t, step) => Enabled(t, step), states, steps) && Starts(states[0])
  }

  lemma RunStaysGood(states: seq<System>, steps: seq<Step>, n: nat)
    requires Happened(states, steps) && n < |states|
    ensures Good(states[n])
  {
    forall t, step | Good(t) && Enabled(t, step)
      ensures Good(Apply(t, step))
    {
      AgreementSurvivesExactly(t, step);
    }
    Keeps(Apply, (t, step) => Enabled(t, step), t => Good(t), states, steps, n);
  }

  /** A node with a view of the network: its coordinator, unless that has joined some
      other network, or a member that joined. */
  predicate Sees(s: System, node: Id) {
    if node == s.coordinator then !Foreign(s) else InNetwork(s, node)
  }

  function ViewOf(s: System, node: Id): Net
    requires Sees(s, node)
  {
    if node == s.coordinator then s.table else s.nodes[node]
  }

  lemma ViewIsVouched(s: System, node: Id)
    requires Good(s) && Sees(s, node)
    ensures AllVouched(s.known, s.table.bindings, ViewOf(s, node).members)
    ensures Extends(ViewOf(s, node).bindings, s.table.bindings)
  {
  }

  /** Over any run, every member's bindings are among the coordinator's, and no
      roster it ever sent would be refused, in part, by anyone in the network. */
  lemma NothingIsRefused(states: seq<System>, steps: seq<Step>, n: nat, node: Id)
    requires Happened(states, steps) && n < |states|
    requires InNetwork(states[n], node)
    ensures var now := states[n];
            && Extends(now.nodes[node].bindings, now.table.bindings)
            && forall shown, order :: RosterPush(shown, order) in now.mail ==>
                 RosterConflicts(now.nodes[node], order) == []
  {
    RunStaysGood(states, steps, n);
    var now := states[n];
    forall shown, order | RosterPush(shown, order) in now.mail
      ensures RosterConflicts(now.nodes[node], order) == []
    {
      RosterIsWelcome(now, node, shown, order);
    }
  }

  // Names

  /** Two vouched-for members that resolve under one name are one member. */
  lemma OneKeyPerName(known: set<Id>, bindings: map<string, Id>, a: Member, b: Member, name: string)
    requires DistinctKeys(known) && Vouched(known, bindings, a) && Vouched(known, bindings, b)
    requires Resolves(a, name) && Resolves(b, name)
    ensures a.id == b.id
  {
    FallbackLooksLike(a.id);
    FallbackLooksLike(b.id);
  }

  ghost predicate Unambiguous(known: set<Id>, bindings: map<string, Id>) {
    forall a, b, name ::
      && Vouched(known, bindings, a) && Vouched(known, bindings, b)
      && Resolves(a, name) && Resolves(b, name)
      ==> a.id == b.id
  }

  /** Why fallbacks have to differ: among real endpoint ids, names mean one key each
      if and only if no two of those keys share a fallback. */
  lemma OneKeyPerNameExactly(known: set<Id>, bindings: map<string, Id>)
    requires forall id :: id in known ==> IsEndpointId(id)
    ensures Unambiguous(known, bindings) <==> DistinctKeys(known)
  {
    if DistinctKeys(known) {
      forall a, b, name |
        && Vouched(known, bindings, a) && Vouched(known, bindings, b)
        && Resolves(a, name) && Resolves(b, name)
        ensures a.id == b.id
      {
        OneKeyPerName(known, bindings, a, b, name);
      }
    } else {
      var a, b :| a in known && b in known && Fallback(a) == Fallback(b) && a != b;
      assert Vouched(known, bindings, Member(a, None)) && Vouched(known, bindings, Member(b, None));
      assert Resolves(Member(a, None), Fallback(a)) && Resolves(Member(b, None), Fallback(a));
    }
  }

  lemma EntriesAgree(s: System, a: Id, b: Id, e: Entry, f: Entry)
    requires Good(s) && Sees(s, a) && Sees(s, b) && e.name == f.name
    requires e in Resolvable(ViewOf(s, a).members, |ViewOf(s, a).members|)
    requires f in Resolvable(ViewOf(s, b).members, |ViewOf(s, b).members|)
    ensures e.id == f.id
  {
    var x, y := ViewOf(s, a).members, ViewOf(s, b).members;
    ResolvableExactly(x, |x|, e);
    ResolvableExactly(y, |y|, f);
    var i :| 0 <= i < |x| && x[i].id == e.id && Resolves(x[i], e.name);
    var j :| 0 <= j < |y| && y[j].id == f.id && Resolves(y[j], f.name);
    ViewIsVouched(s, a);
    ViewIsVouched(s, b);
    assert x[i] in x && y[j] in y;
    OneKeyPerName(s.known, s.table.bindings, x[i], y[j], e.name);
  }

  /** What a node's resolver answers a question with. */
  function Answered(s: System, node: Id, q: Question): Option<Id>
    requires Sees(s, node)
  {
    var view := ViewOf(s, node);
    var network := if view.networkName.Some? then Some(NetworkLabel(view.networkName.value)) else None;
    Asked(Resolvable(view.members, |view.members|), network, q)
  }

  lemma AskedIsEntry(entries: seq<Entry>, network: Option<string>, q: Question)
    requires Asked(entries, network, q).Some?
    ensures HostInZone(q.qname, network).Some?
    ensures Entry(HostInZone(q.qname, network).value, Asked(entries, network, q).value) in entries
  {
    var name := HostInZone(q.qname, network).value;
    var k := Lookup(entries, name, 0);
    assert entries[k] == Entry(name, Asked(entries, network, q).value);
  }

  lemma AnsweredAlike(s: System, a: Id, b: Id, q: Question)
    requires Good(s) && Sees(s, a) && Sees(s, b)
    requires Answered(s, a, q).Some? && Answered(s, b, q).Some?
    ensures Answered(s, a, q) == Answered(s, b, q)
  {
    var va, vb := ViewOf(s, a), ViewOf(s, b);
    var na := if va.networkName.Some? then Some(NetworkLabel(va.networkName.value)) else None;
    var nb := if vb.networkName.Some? then Some(NetworkLabel(vb.networkName.value)) else None;
    AskedIsEntry(Resolvable(va.members, |va.members|), na, q);
    AskedIsEntry(Resolvable(vb.members, |vb.members|), nb, q);
    OneLabelEverywhere(q.qname, na, nb);
    var asked := HostInZone(q.qname, na).value;
    EntriesAgree(s, a, b, Entry(asked, Answered(s, a, q).value), Entry(asked, Answered(s, b, q).value));
  }

  /** Over any run, no two nodes ever resolve a name -- hostname or fallback, flat
      or qualified -- to different keys. */
  lemma NamesAgreeEverywhere(states: seq<System>, steps: seq<Step>, n: nat, a: Id, b: Id, q: Question)
    requires Happened(states, steps) && n < |states|
    requires Sees(states[n], a) && Sees(states[n], b)
    requires Answered(states[n], a, q).Some? && Answered(states[n], b, q).Some?
    ensures Answered(states[n], a, q) == Answered(states[n], b, q)
  {
    RunStaysGood(states, steps, n);
    AnsweredAlike(states[n], a, b, q);
  }

  // Catching up

  /** A roster the coordinator's table lists names everything as the table does. */
  lemma ListedIsConsistent(s: System, order: seq<Member>)
    requires TableGood(s) && !Foreign(s) && Lists(order, s.table)
    ensures forall k :: 0 <= k < |order| && order[k].hostname.Some? ==>
              order[k].hostname.value in s.table.bindings && s.table.bindings[order[k].hostname.value] == order[k].id
  {
    forall k | 0 <= k < |order| && order[k].hostname.Some?
      ensures order[k].hostname.value in s.table.bindings && s.table.bindings[order[k].hostname.value] == order[k].id
    {
      assert order[k] in order;
      assert Vouched(s.known, s.table.bindings, order[k]);
    }
  }

  lemma {:induction false} AbsorbInFull(
    known: set<Id>, bindings: map<string, Id>, net: Net, roster: seq<Member>, n: nat)
    requires Agrees(known, bindings, net) && AllVouched(known, bindings, roster) && n <= |roster|
    requires net.members == [] && DistinctIds(roster)
    ensures AbsorbAll(net, roster, n).members == roster[..n]
  {
    if n > 0 {
      AbsorbInFull(known, bindings, net, roster, n - 1);
      AbsorbAllAgrees(known, bindings, net, roster, n - 1);
      assert roster[n - 1] in roster;
      TakesEntry(known, bindings, AbsorbAll(net, roster, n - 1), roster, n - 1);
    }
  }

  lemma TakesEntry(known: set<Id>, bindings: map<string, Id>, net: Net, roster: seq<Member>, k: nat)
    requires Agrees(known, bindings, net) && k < |roster| && Vouched(known, bindings, roster[k])
    requires net.members == roster[..k] && DistinctIds(roster)
    ensures Absorb(net, roster[k]).members == roster[..k + 1]
  {
  }

  /** What a roster the coordinator sends adds to a member's bindings: the names it
      shows, and nothing else. */
  lemma CatchesUpOnNames(s: System, node: Id, shown: Option<string>, order: seq<Member>, hostname: string)
    requires Good(s) && !Foreign(s) && InNetwork(s, node) && Lists(order, s.table)
    ensures var after := SetRoster(s.nodes[node], node, shown, order).bindings;
            && (hostname in after <==> hostname in s.nodes[node].bindings || exists id :: Shows(order, hostname, id))
            && (hostname in after ==> Bound(s.table.bindings, hostname, after[hostname]))
  {
    PushPinsFirstUse(s.nodes[node], node, shown, order);
    ListedIsConsistent(s, order);
    var after := SetRoster(s.nodes[node], node, shown, order).bindings;
    if hostname in after && hostname !in s.nodes[node].bindings {
      var k :| 0 <= k < |order| && NamedAt(order, k, hostname) && after[hostname] == order[k].id;
      assert order[k] == Member(order[k].id, Some(hostname));
      assert Shows(order, hostname, order[k].id);
    }
    if id :| Shows(order, hostname, id) {
      var k :| 0 <= k < |order| && order[k] == Member(id, Some(hostname));
      assert NamedAt(order, k, hostname);
    }
  }

  /** One current roster is enough: a member that hears the coordinator's table as
      it is now lists exactly the members of that table, whatever it heard or missed
      before, and knows all their names as the table does, beside those it knew. */
  lemma CurrentRosterCatchesUp(s: System, node: Id, shown: Option<string>, order: seq<Member>)
    requires Good(s) && !Foreign(s) && InNetwork(s, node)
    requires DistinctIds(order) && forall m :: m in order <==> m in s.table.members
    requires node in Ids(order) && s.coordinator in Ids(order)
    ensures SetRoster(s.nodes[node], node, shown, order).members == order
    ensures var after := SetRoster(s.nodes[node], node, shown, order).bindings;
            forall h ::
              && (h in after <==> h in s.nodes[node].bindings || exists id :: Shows(order, h, id))
              && (h in after ==> Bound(s.table.bindings, h, after[h]))
  {
    forall h {
      CatchesUpOnNames(s, node, shown, order, h);
    }
    var net := s.nodes[node];
    var cleared := net.(networkName := if shown.Some? then shown else net.networkName, members := []);
    AbsorbInFull(s.known, s.table.bindings, cleared, order, |order|);
    AbsorbAllCoordinator(cleared, order, |order|);
    assert order[..|order|] == order;
  }

  // When a name moves

  /** Once the coordinator has taken a name for itself, its next roster is refused by
      exactly the members that had pinned the name to another key. */
  lemma TakenNameIsRefusedExactly(s: System, after: System, hostname: string, node: Id, order: seq<Member>)
    requires Good(s) && InNetwork(s, node) && TableGood(after) && !Foreign(after)
    requires after == s.(table := after.table)
    requires after.table.bindings == s.table.bindings[hostname := s.coordinator]
    requires Lists(order, after.table) && Shows(order, hostname, s.coordinator)
    ensures RosterConflicts(s.nodes[node], order) != [] <==>
            hostname in s.nodes[node].bindings && s.nodes[node].bindings[hostname] != s.coordinator
  {
    var net := s.nodes[node];
    ListedIsConsistent(after, order);
    ConsistentPushRefusedExactly(net, order, after.table.bindings);
    if hostname in net.bindings && net.bindings[hostname] != s.coordinator {
      var k :| 0 <= k < |order| && order[k] == Member(s.coordinator, Some(hostname));
      assert Disputed(net.bindings, order[k]);
    }
  }

  lemma TookItsName(net: Net, own: Id, hostname: string)
    requires IsMember(net.members, own)
    ensures Shows(Bind(net, own, hostname).members, hostname, own)
  {
    var k := Find(net.members, own, 0);
    assert Bind(net, own, hostname).members[k] == Member(own, Some(hostname));
  }

  /** A forced claim at the coordinator is refused by exactly the members that had
      pinned the name to another key; they go on resolving it to that key. */
  lemma ForceIsRefusedExactly(s: System, requested: string, node: Id, order: seq<Member>)
    requires Good(s) && InNetwork(s, node) && Possible(s, RenameSelf(requested, true))
    requires IsMember(s.table.members, s.coordinator) && Validate(requested, s.coordinator).Ok?
    requires var after := Apply(s, RenameSelf(requested, true));
             forall m :: m in order <==> m in after.table.members
    ensures var wanted := Validate(requested, s.coordinator).value;
            var net := s.nodes[node];
            && (RosterConflicts(net, order) != [] <==>
                wanted in net.bindings && net.bindings[wanted] != s.coordinator)
            && (wanted in net.bindings ==>
                Bound(SetRoster(net, node, None, order).bindings, wanted, net.bindings[wanted]))
  {
    var wanted := Validate(requested, s.coordinator).value;
    var after := Apply(s, RenameSelf(requested, true));
    ClaimOfValid(s.table, s.coordinator, requested, true);
    ForcedTableGood(s, wanted);
    ForcedTakesExactly(s.known, s.table.bindings, s.table, s.coordinator, wanted);
    ReleasedStillLists(s.table, wanted, s.coordinator);
    TookItsName(Released(s.table, wanted), s.coordinator, wanted);
    TakenNameIsRefusedExactly(s, after, wanted, node, order);
    PushPinsFirstUse(s.nodes[node], node, None, order);
  }

  lemma ReleasedStillLists(net: Net, wanted: string, id: Id)
    requires IsMember(net.members, id)
    ensures IsMember(Released(net, wanted).members, id)
  {
    var k := Find(net.members, id, 0);
    assert Released(net, wanted).members[k].id == id;
  }

  /** The same of a network created again under a name: its old members refuse the
      new roster exactly when they had pinned the name to another key. */
  lemma CreateIsRefusedExactly(
    s: System, name: string, hostname: string, networkId: string, node: Id, order: seq<Member>)
    requires Good(s) && InNetwork(s, node) && Possible(s, Establish(name, Some(hostname), networkId))
    requires var after := Apply(s, Establish(name, Some(hostname), networkId));
             forall m :: m in order <==> m in after.table.members
    ensures RosterConflicts(s.nodes[node], order) != [] <==>
            hostname in s.nodes[node].bindings && s.nodes[node].bindings[hostname] != s.coordinator
  {
    var after := Apply(s, Establish(name, Some(hostname), networkId));
    var own := s.coordinator;
    CreateIsSound(s.table, name, own, Some(hostname), networkId);
    assert [Member(own, None)][0].id == own;
    assert after.table.members[0] == Member(own, Some(hostname));
    assert TableGood(after);
    TakenNameIsRefusedExactly(s, after, hostname, node, order);
  }

  /** A member that adopts a name it was not granted refuses a current roster exactly
      when the roster shows that name on somebody else. */
  lemma AdoptionIsRefusedExactly(s: System, node: Id, wanted: string, order: seq<Member>)
    requires Good(s) && !Foreign(s) && InNetwork(s, node) && LegalFor(wanted, node) && Lists(order, s.table)
    ensures RosterConflicts(Claim(s.nodes[node], node, wanted, true).0, order) != [] <==>
            exists k :: 0 <= k < |order| && order[k].hostname == Some(wanted) && order[k].id != node
  {
    var before := s.nodes[node];
    ForcedTakesExactly(s.known, s.table.bindings, before, node, wanted);
    TakenIsBound(before, node, wanted);
    var net := Bind(Released(before, wanted), node, wanted);
    ListedIsConsistent(s, order);
    ConsistentPushRefusedExactly(net, order, s.table.bindings);
    forall k | 0 <= k < |order|
      ensures Disputed(net.bindings, order[k]) <==> order[k].hostname == Some(wanted) && order[k].id != node
    {
      if order[k].hostname.Some? && order[k].hostname.value in before.bindings {
        assert before.bindings[order[k].hostname.value] == s.table.bindings[order[k].hostname.value];
      }
    }
  }

  // Runs in which a name moves

  /** Nothing has happened yet, and there are two keys that no name confuses. */
  ghost predicate IsBegun(s: System, x: Id) {
    && s == System({s.coordinator, x}, s.coordinator, NoNetwork, {}, map[])
    && IsEndpointId(x) && IsEndpointId(s.coordinator) && Fallback(x) != Fallback(s.coordinator)
  }

  /** Whatever the program can do leads from `start` to here. */
  ghost predicate Reached(start: System, s: System) {
    Leads(Apply, (t, step) => Possible(t, step), start, s)
  }

  predicate LegalForBoth(s: System, x: Id, hostname: string) {
    LegalFor(hostname, x) && LegalFor(hostname, s.coordinator)
  }

  /** The coordinator and a member take one name for different keys, and the member
      refuses the coordinator's roster. */
  predicate IsSplit(s: System, x: Id, hostname: string) {
    && InNetwork(s, x) && hostname in s.nodes[x].bindings && hostname in s.table.bindings
    && s.nodes[x].bindings[hostname] != s.table.bindings[hostname]
    && RosterConflicts(s.nodes[x], s.table.members) != []
  }

  /** The first claim of a free name gets that name. */
  lemma FreeNameIsGranted(net: Net, claimant: Id, hostname: string)
    requires LegalFor(hostname, claimant) && !SpokenFor(net, hostname, claimant)
    ensures Claim(net, claimant, hostname, false) == (Bind(net, claimant, hostname), Ok(hostname))
  {
    ValidateLegal(hostname, claimant);
  }

  /** With two members, at most one name and one fallback are somebody else's. */
  lemma TwoHaveRoom(net: Net, claimant: Id, other: Id, hostname: string)
    requires IsEndpointId(claimant) && net.bindings.Keys <= {hostname}
    requires forall m :: m in net.members ==> m.id == claimant || m.id == other
    ensures HasRoom(net, claimant)
  {
    assert TakenNames(net, claimant) <= {hostname, Fallback(other)};
    SubsetSize(TakenNames(net, claimant), {hostname, Fallback(other)});
  }

  lemma SecondMemberIsNamed(net: Net, x: Id, hostname: string, c: Id)
    requires net.members == [Member(c, None), Member(x, None)] && net.bindings == map[]
    requires IsEndpointId(x) && IsEndpointId(c) && Fallback(x) != Fallback(c)
    requires LegalFor(hostname, x) && LegalFor(hostname, c)
    ensures HasRoom(net, x)
    ensures var after := Claim(net, x, hostname, false).0;
            after.bindings == map[hostname := x] && after.members == [Member(c, None), Member(x, Some(hostname))]
  {
    TwoHaveRoom(net, x, c, hostname);
    FallbackLooksLike(c);
    FreeNameIsGranted(net, x, hostname);
    assert Find(net.members, x, 0) == 1;
    assert Bind(net, x, hostname).members[1] == Member(x, Some(hostname));
  }

  /** The newcomer's half: with only the coordinator there, the name is its own. */
  lemma FirstMemberIsNamed(table: Net, token: Token, x: Id, hostname: string, c: Id)
    requires token in table.invites && IsLive(table.invites[token], table.networkId, 0)
    requires table.members == [Member(c, None)] && table.bindings == map[]
    requires IsEndpointId(x) && IsEndpointId(c) && Fallback(x) != Fallback(c)
    requires LegalFor(hostname, x) && LegalFor(hostname, c)
    ensures HasRoom(Redeem(table, token, x, 0).0, x) && Redeem(table, token, x, 0).1
    ensures var after := AdmitTable(table, token, x, 0, Some(hostname));
            after.bindings == map[hostname := x] && after.members == [Member(c, None), Member(x, Some(hostname))]
  {
    var spent := Redeem(table, token, x, 0).0;
    assert spent.members == [Member(c, None), Member(x, None)];
    SecondMemberIsNamed(spent, x, hostname, c);
  }

  /** Hearing that it joined, a member pins every name it is told. */
  lemma JoiningPins(net: Net, coordinator: Id, own: Id, order: seq<Member>, hostname: string, id: Id)
    requires Shows(order, hostname, id)
    ensures hostname in SetJoined(net, coordinator, own, None, order).bindings
  {
    var blank := Net(None, Some(coordinator), None, [], map[], map[]);
    AbsorbPins(blank, order, |order|);
  }

  /** One more harmless step of a run that agrees so far. */
  lemma Went(start: System, s: System, step: Step) returns (next: System)
    requires Reached(start, s) && Good(s) && Possible(s, step) && Harmless(s, step)
    ensures next == Apply(s, step) && Good(next) && Reached(start, next)
  {
    next := Strayed(start, s, step);
    AgreementSurvivesExactly(s, step);
  }

  /** One more step of any kind. */
  lemma Strayed(start: System, s: System, step: Step) returns (next: System)
    requires Reached(start, s) && Possible(s, step)
    ensures next == Apply(s, step) && Reached(start, next)
  {
    next := Apply(s, step);
    LeadsOn(Apply, (t, op) => Possible(t, op), start, s, step);
  }

  /** From nothing to a network with an invite out. */
  lemma AnInviteIsOut(start: System, x: Id, token: Token) returns (s: System)
    requires IsBegun(start, x)
    ensures Reached(start, s) && Good(s) && !Foreign(s)
    ensures s.coordinator == start.coordinator && s.known == start.known
    ensures token in s.table.invites && IsLive(s.table.invites[token], s.table.networkId, 0)
    ensures s.table.members == [Member(s.coordinator, None)] && s.table.bindings == map[]
  {
    var ok := (t: System, step: Step) => Possible(t, step);
    LeadsNowhere<System, Step>(Apply, ok, start);
    s := Went(start, start, Establish("net", None, "1"));
    s := Went(start, s, Step.MintInvite(token, 60, 0));
  }

  /** From there to one admitted under the name it asked for, and told so. */
  lemma OneIsAdmitted(start: System, x: Id, hostname: string, token: Token) returns (s: System)
    requires IsBegun(start, x) && LegalForBoth(start, x, hostname)
    ensures Reached(start, s) && Good(s) && !Foreign(s) && s.coordinator == start.coordinator
    ensures s.table.bindings == map[hostname := x]
    ensures s.table.members == [Member(s.coordinator, None), Member(x, Some(hostname))]
    ensures Joined(x, None, s.table.members) in s.mail
  {
    var invited := AnInviteIsOut(start, x, token);
    var table := AdmitTable(invited.table, token, x, 0, Some(hostname));
    FirstMemberIsNamed(invited.table, token, x, hostname, start.coordinator);
    AdmitVouches(invited.known, invited.table, token, x, 0, Some(hostname));
    s := Went(start, invited, Admit(token, x, 0, Some(hostname), None, table.members));
  }

  /** From nothing to a member that has pinned its own name. */
  lemma AMemberIsNamed(start: System, x: Id, hostname: string, token: Token) returns (s: System)
    requires IsBegun(start, x) && LegalForBoth(start, x, hostname)
    ensures Reached(start, s) && Good(s) && InNetwork(s, x) && s.coordinator == start.coordinator
    ensures Bound(s.nodes[x].bindings, hostname, x)
    ensures !Foreign(s) && s.table.bindings == map[hostname := x]
    ensures s.table.members == [Member(s.coordinator, None), Member(x, Some(hostname))]
  {
    var admitted := OneIsAdmitted(start, x, hostname, token);
    var members := admitted.table.members;
    assert members[1] == Member(x, Some(hostname));
    JoiningPins(NetOf(admitted, x), admitted.coordinator, x, members, hostname, x);
    AbsorbAllCoordinator(Net(None, Some(admitted.coordinator), None, [], map[], map[]), members, |members|);
    s := Went(start, admitted, HearJoined(x, None, members));
    assert InNetwork(s, x);
  }

  /** Creating a network again, under a name a member of the first one holds, moves
      that name at the coordinator and leaves the member refusing it. */
  lemma CreatingAgainCanSplit(start: System, x: Id, hostname: string, token: Token)
    requires IsBegun(start, x) && LegalForBoth(start, x, hostname)
    ensures exists s :: Reached(start, s) && IsSplit(s, x, hostname)
  {
    var named := AMemberIsNamed(start, x, hostname, token);
    var again := Establish("net", Some(hostname), "2");
    var s := Strayed(start, named, again);
    CreateIsRefusedExactly(named, "net", hostname, "2", x, s.table.members);
    assert IsSplit(s, x, hostname);
  }

  /** So does forcing a claim to it. */
  lemma ForcingCanSplit(start: System, x: Id, hostname: string, token: Token)
    requires IsBegun(start, x) && LegalForBoth(start, x, hostname)
    ensures exists s :: Reached(start, s) && IsSplit(s, x, hostname)
  {
    var named := AMemberIsNamed(start, x, hostname, token);
    var c := start.coordinator;
    TwoHaveRoom(named.table, c, x, hostname);
    assert named.table.members[0].id == c;
    var s := Strayed(start, named, RenameSelf(hostname, true));
    ValidateLegal(hostname, c);
    ForceIsRefusedExactly(named, hostname, x, s.table.members);
    ForcedTakesExactly(named.known, named.table.bindings, named.table, c, hostname);
    assert IsSplit(s, x, hostname);
  }

  /** From nothing to a network in which the coordinator has a name too. */
  lemma BothAreNamed(start: System, x: Id, hostname: string, other: string, token: Token) returns (s: System)
    requires IsBegun(start, x) && LegalForBoth(start, x, hostname)
    requires LegalForBoth(start, x, other) && other != hostname
    ensures Reached(start, s) && Good(s) && !Foreign(s) && InNetwork(s, x) && s.coordinator == start.coordinator
    ensures Bound(s.table.bindings, other, s.coordinator) && Shows(s.table.members, other, s.coordinator)
  {
    var named := AMemberIsNamed(start, x, hostname, token);
    var c := start.coordinator;
    TwoHaveRoom(named.table, c, x, hostname);
    FallbackLooksLike(x);
    assert !SpokenFor(named.table, other, c);
    FreeNameIsGranted(named.table, c, other);
    s := Went(start, named, RenameSelf(other, false));
    assert s.table == Bind(named.table, c, other);
    assert IsMember(named.table.members, c) by {
      assert named.table.members[0].id == c;
    }
    TookItsName(named.table, c, other);
  }

  lemma CoordinatorsNameIsRefused(s: System, node: Id, wanted: string)
    requires Good(s) && !Foreign(s) && InNetwork(s, node) && LegalFor(wanted, node) && node != s.coordinator
    requires Shows(s.table.members, wanted, s.coordinator)
    ensures RosterConflicts(Claim(s.nodes[node], node, wanted, true).0, s.table.members) != []
  {
    var order := s.table.members;
    AdoptionIsRefusedExactly(s, node, wanted, order);
    var k :| 0 <= k < |order| && order[k] == Member(s.coordinator, Some(wanted));
    assert order[k].hostname == Some(wanted) && order[k].id != node;
  }

  lemma AdoptedIsClaimed(net: Net, own: Id, wanted: string)
    requires Validate(wanted, own) == Ok(wanted)
    ensures Adopted(net, own, wanted) == Claim(net, own, wanted, true).0
  {
  }

  lemma AdoptingMoves(s: System, node: Id, wanted: string, net: Net)
    requires InNetwork(s, node) && net == Adopted(s.nodes[node], node, wanted)
    ensures Apply(s, AdoptOwn(node, wanted)) == s.(nodes := s.nodes[node := net])
  {
  }

  lemma AdoptedIsBound(s: System, node: Id, wanted: string)
    requires Good(s) && InNetwork(s, node) && LegalFor(wanted, node)
    ensures var net := Claim(s.nodes[node], node, wanted, true).0;
            net.coordinator == s.nodes[node].coordinator && Bound(net.bindings, wanted, node)
  {
    ForcedTakesExactly(s.known, s.table.bindings, s.nodes[node], node, wanted);
  }

  /** Adopting the coordinator's own name does it from the member's side. */
  lemma AdoptingCanSplit(start: System, x: Id, hostname: string, other: string, token: Token)
    requires IsBegun(start, x) && LegalForBoth(start, x, hostname)
    requires LegalForBoth(start, x, other) && other != hostname
    ensures exists s :: Reached(start, s) && IsSplit(s, x, other)
  {
    var both := BothAreNamed(start, x, hostname, other, token);
    var s := Strayed(start, both, AdoptOwn(x, other));
    ValidateLegal(other, x);
    var net := Claim(both.nodes[x], x, other, true).0;
    AdoptedIsClaimed(both.nodes[x], x, other);
    AdoptingMoves(both, x, other, net);
    CoordinatorsNameIsRefused(both, x, other);
    AdoptedIsBound(both, x, other);
    assert IsSplit(s, x, other);
  }

  /** And leaving its own network, the coordinator forgets a name that a member goes on
      resolving. */
  lemma ResigningForgets(start: System, x: Id, hostname: string, token: Token)
    requires IsBegun(start, x) && LegalForBoth(start, x, hostname)
    ensures exists s ::
              && Reached(start, s) && InNetwork(s, x) && Bound(s.nodes[x].bindings, hostname, x)
              && s.table == NoNetwork
  {
    var named := AMemberIsNamed(start, x, hostname, token);
    var s := Strayed(start, named, Resign);
    assert InNetwork(s, x);
  }

  /** As it does on joining somebody else's, unless that happens to bind it too. */
  lemma JoiningElsewhereForgets(start: System, x: Id, hostname: string, token: Token, other: Net)
    requires IsBegun(start, x) && LegalForBoth(start, x, hostname)
    requires Foreign(start.(table := other)) && !Bound(other.bindings, hostname, x)
    ensures exists s ::
              && Reached(start, s) && InNetwork(s, x) && Bound(s.nodes[x].bindings, hostname, x)
              && s.table == other && !Good(s)
  {
    var named := AMemberIsNamed(start, x, hostname, token);
    var s := Strayed(start, named, JoinElsewhere(other));
    assert InNetwork(s, x);
  }
}
