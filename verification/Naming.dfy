/** What every operation on the table keeps: ids stay distinct, and every name
    shown is bound to the key of the member showing it -- over any run, as long
    as claims find at most 9,999 names taken. */
module Naming {
  import opened Basics
  import opened Names
  import opened Membership
  import opened Runs
  import opened Text
  import Utf8

  ghost predicate DistinctIds(members: seq<Member>) {
    forall i, j :: 0 <= i < j < |members| ==> members[i].id != members[j].id
  }

  ghost predicate NamesBound(members: seq<Member>, bindings: map<string, Id>) {
    forall i :: 0 <= i < |members| && members[i].hostname.Some? ==>
      members[i].hostname.value in bindings && bindings[members[i].hostname.value] == members[i].id
  }

  ghost predicate Sound(net: Net) {
    DistinctIds(net.members) && NamesBound(net.members, net.bindings)
  }

  /** No two members have an id, or a name, in common. */
  ghost predicate Unshared(members: seq<Member>) {
    forall i, j :: 0 <= i < j < |members| ==>
      members[i].id != members[j].id
      && (members[i].hostname.Some? ==> members[i].hostname != members[j].hostname)
  }

  lemma SoundIsUnshared(net: Net)
    requires Sound(net)
    ensures Unshared(net.members)
  {
  }

  lemma SoundMeansUnshared(net: Net, i: nat, j: nat)
    requires Sound(net) && i < |net.members| && j < |net.members|
    requires net.members[i].hostname.Some? && net.members[i].hostname == net.members[j].hostname
    ensures i == j
  {
  }

  // Each operation

  lemma AdmittedKeeps(members: seq<Member>, bindings: map<string, Id>, member: Member)
    requires DistinctIds(members) && NamesBound(members, bindings)
    requires member.hostname.Some? ==>
               member.hostname.value in bindings && bindings[member.hostname.value] == member.id
    ensures DistinctIds(Admitted(members, member)) && NamesBound(Admitted(members, member), bindings)
  {
  }

  lemma AbsorbKeeps(net: Net, member: Member)
    requires Sound(net)
    ensures Sound(Absorb(net, member))
  {
    var kept := if Disputed(net.bindings, member) then member.(hostname := None) else member;
    var bindings := Absorb(net, member).bindings;
    assert forall h :: h in net.bindings ==> h in bindings && bindings[h] == net.bindings[h];
    AdmittedKeeps(net.members, bindings, kept);
  }

  lemma {:induction false} AbsorbAllKeeps(net: Net, roster: seq<Member>, n: nat)
    requires Sound(net) && n <= |roster|
    ensures Sound(AbsorbAll(net, roster, n))
  {
    if n > 0 {
      AbsorbAllKeeps(net, roster, n - 1);
      AbsorbKeeps(AbsorbAll(net, roster, n - 1), roster[n - 1]);
    }
  }

  /** Any roster at all, pushed onto any sound table. */
  lemma ApplyRosterKeeps(net: Net, own: Id, roster: seq<Member>)
    requires Sound(net)
    ensures Sound(ApplyRoster(net, own, roster))
  {
    AbsorbAllKeeps(net, roster, |roster|);
    var after := AbsorbAll(net, roster, |roster|);
    AdmittedKeeps(after.members, after.bindings, Member(own, None));
    if net.coordinator.Some? {
      AbsorbAllCoordinator(net, roster, |roster|);
      AdmittedKeeps(Admitted(after.members, Member(own, None)), after.bindings, Member(net.coordinator.value, None));
    }
  }

  lemma {:induction false} AbsorbAllCoordinator(net: Net, roster: seq<Member>, n: nat)
    requires n <= |roster|
    ensures var after := AbsorbAll(net, roster, n);
            && after.coordinator == net.coordinator && after.networkId == net.networkId
            && after.invites == net.invites && after.networkName == net.networkName
  {
    if n > 0 {
      AbsorbAllCoordinator(net, roster, n - 1);
    }
  }

  lemma BindKeeps(net: Net, claimant: Id, granted: string)
    requires Sound(net) && !SpokenFor(net, granted, claimant)
    ensures Sound(Bind(net, claimant, granted))
  {
    var k := Find(net.members, claimant, 0);
    var after := Bind(net, claimant, granted);
    forall i | 0 <= i < |after.members| && after.members[i].hostname.Some?
      ensures after.members[i].hostname.value in after.bindings
      ensures after.bindings[after.members[i].hostname.value] == after.members[i].id
    {
      if i != k {
        assert after.members[i].hostname == net.members[i].hostname;
      }
    }
  }

  lemma ReleasedKeeps(net: Net, wanted: string)
    requires Sound(net)
    ensures Sound(Released(net, wanted))
  {
    var k := Holder(net.members, wanted, 0);
    var after := Released(net, wanted);
    forall i | 0 <= i < |after.members| && after.members[i].hostname.Some?
      ensures after.members[i].hostname.value in after.bindings
      ensures after.bindings[after.members[i].hostname.value] == after.members[i].id
    {
      assert i != k && after.members[i].hostname == net.members[i].hostname;
      if net.members[i].hostname == Some(wanted) {
        SoundMeansUnshared(net, i, k);
      }
    }
  }

  lemma {:induction false} WithoutKeeps(members: seq<Member>, bindings: map<string, Id>, id: Id, n: nat)
    requires n <= |members| && DistinctIds(members) && NamesBound(members, bindings)
    ensures DistinctIds(Without(members, id, n)) && NamesBound(Without(members, id, n), bindings)
    ensures forall m :: m in Without(members, id, n) <==> m in members[..n] && m.id != id
  {
    if n > 0 {
      WithoutKeeps(members, bindings, id, n - 1);
      assert members[..n] == members[..n - 1] + [members[n - 1]];
      var kept := Without(members, id, n - 1);
      forall i | 0 <= i < |kept|
        ensures kept[i].id != members[n - 1].id
      {
        assert kept[i] in members[..n - 1];
      }
    }
  }

  /** The names a claimant cannot have. */
  function TakenNames(net: Net, claimant: Id): set<string> {
    (set h | h in net.bindings && net.bindings[h] != claimant)
    + (set m | m in net.members && m.id != claimant :: Fallback(m.id))
  }

  /** Whether a claim is sure to be given a name that is free. */
  predicate HasRoom(net: Net, claimant: Id) {
    IsEndpointId(claimant) && |TakenNames(net, claimant)| <= MAX_SUFFIX
  }

  lemma SpokenForIsTaken(net: Net, name: string, claimant: Id)
    ensures SpokenFor(net, name, claimant) <==> name in TakenNames(net, claimant)
  {
    if SpokenFor(net, name, claimant) && !(name in net.bindings && net.bindings[name] != claimant) {
      var i :| 0 <= i < |net.members| && net.members[i].id != claimant && Fallback(net.members[i].id) == name;
      assert net.members[i] in net.members;
    }
  }

  lemma ReleasedTakesNoMore(net: Net, wanted: string, claimant: Id)
    ensures TakenNames(Released(net, wanted), claimant) <= TakenNames(net, claimant)
  {
    var after := Released(net, wanted);
    forall m | m in after.members && m.id != claimant
      ensures Fallback(m.id) in TakenNames(net, claimant)
    {
      var i :| 0 <= i < |after.members| && after.members[i] == m;
      assert net.members[i] in net.members;
    }
  }

  /** With room, what a claim is granted is free, and a legal name for it. */
  lemma GrantedIsFree(net: Net, claimant: Id, wanted: string)
    requires HasRoom(net, claimant) && LegalFor(wanted, claimant)
    ensures var granted := Assigned(net, claimant, wanted);
            !SpokenFor(net, granted, claimant) && LegalFor(granted, claimant)
  {
    var taken := candidate => SpokenFor(net, candidate, claimant);
    forall s
      ensures taken(s) ==> s in TakenNames(net, claimant)
    {
      SpokenForIsTaken(net, s, claimant);
    }
    DedupeBound(wanted, claimant, taken, TakenNames(net, claimant));
    DedupeIsLegal(wanted, claimant, taken);
  }

  lemma ClaimKeeps(net: Net, claimant: Id, requested: string, force: bool)
    requires Sound(net) && HasRoom(net, claimant)
    ensures Sound(Claim(net, claimant, requested, force).0)
    ensures Claim(net, claimant, requested, force).1.Ok? ==>
              LegalFor(Claim(net, claimant, requested, force).1.value, claimant)
  {
    ValidateExactly(requested, claimant);
    if Validate(requested, claimant).Ok? {
      var wanted := Validate(requested, claimant).value;
      var cleared := if force then Released(net, wanted) else net;
      if force {
        ReleasedKeeps(net, wanted);
        ReleasedTakesNoMore(net, wanted, claimant);
        SubsetSize(TakenNames(cleared, claimant), TakenNames(net, claimant));
      }
      GrantedIsFree(cleared, claimant, wanted);
      BindKeeps(cleared, claimant, Assigned(cleared, claimant, wanted));
    }
  }

  lemma BindChangesOnlyTheClaimant(net: Net, claimant: Id, granted: string)
    requires Sound(net) && !SpokenFor(net, granted, claimant)
    ensures var after := Bind(net, claimant, granted);
            && |after.members| == |net.members|
            && (forall i :: 0 <= i < |net.members| && net.members[i].id != claimant ==>
                  after.members[i] == net.members[i])
            && (forall h :: h in net.bindings ==> h in after.bindings && after.bindings[h] == net.bindings[h])
  {
  }

  /** A claim that is not forced changes no name but the claimant's own, and
      moves no name that was bound to a different key. */
  lemma ClaimChangesOnlyTheClaimant(net: Net, claimant: Id, requested: string)
    requires Sound(net) && HasRoom(net, claimant)
    ensures var (after, r) := Claim(net, claimant, requested, false);
            && |after.members| == |net.members|
            && (forall i :: 0 <= i < |net.members| && net.members[i].id != claimant ==>
                  after.members[i] == net.members[i])
            && (forall h :: h in net.bindings ==> h in after.bindings && after.bindings[h] == net.bindings[h])
            && (r.Ok? ==> r.value in after.bindings && after.bindings[r.value] == claimant)
            && (r.Err? ==> after == net)
  {
    ValidateExactly(requested, claimant);
    if Validate(requested, claimant).Ok? {
      var granted := Assigned(net, claimant, Validate(requested, claimant).value);
      GrantedIsFree(net, claimant, Validate(requested, claimant).value);
      BindChangesOnlyTheClaimant(net, claimant, granted);
    }
  }

  // Runs

  datatype Op =
    | CreateNetwork(name: string, own: Id, hostname: Option<string>, networkId: string)
    | MintInvite(token: Token, ttl: Time, now: Time)
    | RedeemInvite(token: Token, requester: Id, now: Time)
    | ClaimHostname(claimant: Id, requested: string, force: bool)
    | JoinNetwork(coordinator: Id, own: Id, told: Option<string>, roster: seq<Member>)
    | PushRoster(own: Id, told: Option<string>, roster: seq<Member>)
    | RemoveMember(id: Id)
    | KickMember(query: Query, own: Id)
    | LeaveNetwork

  predicate Allowed(net: Net, op: Op) {
    op.ClaimHostname? ==> HasRoom(net, op.claimant)
  }

  function Do(net: Net, op: Op): Net {
    match op
    case CreateNetwork(name, own, hostname, networkId) => Create(net, name, own, hostname, networkId)
    case MintInvite(token, ttl, now) => Mint(net, token, ttl, now)
    case RedeemInvite(token, requester, now) => Redeem(net, token, requester, now).0
    case ClaimHostname(claimant, requested, force) => Claim(net, claimant, requested, force).0
    case JoinNetwork(coordinator, own, name, roster) => SetJoined(net, coordinator, own, name, roster)
    case PushRoster(own, name, roster) => SetRoster(net, own, name, roster)
    case RemoveMember(id) => Remove(net, id)
    case KickMember(query, own) => Kick(net, query, own).0
    case LeaveNetwork => NoNetwork
  }

  lemma DoKeeps(net: Net, op: Op)
    requires Sound(net) && Allowed(net, op)
    ensures Sound(Do(net, op))
  {
    match op
    case CreateNetwork(name, own, hostname, networkId) =>
      CreateIsSound(net, name, own, hostname, networkId);
    case MintInvite(token, ttl, now) =>
    case RedeemInvite(token, requester, now) =>
      AdmittedKeeps(net.members, net.bindings, Member(requester, None));
    case ClaimHostname(claimant, requested, force) =>
      ClaimKeeps(net, claimant, requested, force);
    case JoinNetwork(coordinator, own, name, roster) =>
      ApplyRosterKeeps(Net(name, Some(coordinator), None, [], map[], map[]), own, roster);
    case PushRoster(own, name, roster) =>
      var cleared := net.(networkName := if name.Some? then name else net.networkName, members := []);
      ApplyRosterKeeps(cleared, own, roster);
    case RemoveMember(id) =>
      WithoutKeeps(net.members, net.bindings, id, |net.members|);
    case KickMember(query, own) =>
      var k := FindMember(net, query, 0);
      if k < |net.members| {
        WithoutKeeps(net.members, net.bindings, net.members[k].id, |net.members|);
      }
    case LeaveNetwork =>
  }

  /** A new network is sound whatever the table held, stale bindings included. */
  lemma CreateIsSound(net: Net, name: string, own: Id, hostname: Option<string>, networkId: string)
    ensures Sound(Create(net, name, own, hostname, networkId))
  {
    assert [Member(own, None)][0].id == own;
  }

  /** Over any run from nothing: ids are distinct, every name shown is bound to
      its holder's own key, and so no two members ever share a name. */
  lemma RunIsSound(states: seq<Net>, ops: seq<Op>, n: nat)
    requires IsRun(Do, Allowed, states, ops) && states[0] == NoNetwork && n < |states|
    ensures Sound(states[n]) && Unshared(states[n].members)
  {
    forall net, op | Sound(net) && Allowed(net, op)
      ensures Sound(Do(net, op))
    {
      DoKeeps(net, op);
    }
    Keeps(Do, Allowed, net => Sound(net), states, ops, n);
    SoundIsUnshared(states[n]);
  }

  // Finding a member by what a human typed

  /** Real endpoint ids, no two of which share a fallback. */
  ghost predicate RealKeys(members: seq<Member>) {
    && (forall i :: 0 <= i < |members| ==> IsEndpointId(members[i].id))
    && (forall i, j :: 0 <= i < j < |members| ==> Fallback(members[i].id) != Fallback(members[j].id))
  }

  /** A name a key answers to whatever its member is called. */
  predicate IsKeyName(id: Id, name: string) {
    id == name || Fallback(id) == name
  }

  /** The query means two members at once. */
  ghost predicate Ambiguous(net: Net, query: Query) {
    exists i, j :: 0 <= i < j < |net.members| && Means(net, query, net.members[i]) && Means(net, query, net.members[j])
  }

  /** Some member shows what is another's fallback, or another's whole id. */
  ghost predicate ShowsAnothersKey(members: seq<Member>, name: string) {
    exists i, j :: 0 <= i < |members| && 0 <= j < |members| && i != j
                   && members[i].hostname == Some(name) && IsKeyName(members[j].id, name)
  }

  lemma OneKeyIsNamed(members: seq<Member>, name: string, i: nat, j: nat)
    requires RealKeys(members) && i < |members| && j < |members|
    requires IsKeyName(members[i].id, name) && IsKeyName(members[j].id, name)
    ensures i == j
  {
    assert |Fallback(members[i].id)| == FALLBACK_LEN && |Fallback(members[j].id)| == FALLBACK_LEN;
  }

  /** Whose name is typed is in doubt exactly when some member shows another's fallback
      or id, which no name the coordinator grants can be; and which address, exactly
      when two members share it. */
  lemma AmbiguousExactly(net: Net, query: Query)
    requires Sound(net) && RealKeys(net.members)
    ensures query.Named? ==>
              (Ambiguous(net, query) <==>
               Plain(net, query.text) != [] && ShowsAnothersKey(net.members, Plain(net, query.text)))
    ensures query.Address? ==>
              (Ambiguous(net, query) <==>
               exists i, j :: 0 <= i < j < |net.members| && net.members[i].id in query.owners
                              && net.members[j].id in query.owners)
  {
    if query.Named? {
      NamedAmbiguousExactly(net, query, Plain(net, query.text));
    }
  }

  lemma NamedAmbiguousExactly(net: Net, query: Query, name: string)
    requires Sound(net) && RealKeys(net.members) && query.Named? && name == Plain(net, query.text)
    ensures Ambiguous(net, query) <==> name != [] && ShowsAnothersKey(net.members, name)
  {
    if Ambiguous(net, query) {
      var i, j :| 0 <= i < j < |net.members| && Means(net, query, net.members[i]) && Means(net, query, net.members[j]);
      TwoAnswers(net, name, i, j);
    }
    if name != [] && ShowsAnothersKey(net.members, name) {
      ShownIsAmbiguous(net, query, name);
    }
  }

  lemma ShownIsAmbiguous(net: Net, query: Query, name: string)
    requires query.Named? && name == Plain(net, query.text) && name != [] && ShowsAnothersKey(net.members, name)
    ensures Ambiguous(net, query)
  {
    var i, j :| 0 <= i < |net.members| && 0 <= j < |net.members| && i != j
                && net.members[i].hostname == Some(name) && IsKeyName(net.members[j].id, name);
    assert Means(net, query, net.members[i]) && Means(net, query, net.members[j]);
  }

  lemma TwoAnswers(net: Net, name: string, i: nat, j: nat)
    requires Sound(net) && RealKeys(net.members) && i < j < |net.members|
    requires AnswersTo(net.members[i], name) && AnswersTo(net.members[j], name)
    ensures ShowsAnothersKey(net.members, name)
  {
    var a, b := net.members[i], net.members[j];
    assert !(a.hostname == Some(name) && b.hostname == Some(name));
    if IsKeyName(a.id, name) && IsKeyName(b.id, name) {
      OneKeyIsNamed(net.members, name, i, j);
    }
  }

  lemma FallbackLooksLike(id: Id)
    requires IsEndpointId(id)
    ensures LooksLikeFallback(Fallback(id))
  {
    Utf8.AsciiLen(Fallback(id));
  }

  /** Every name shown is one its holder may have. */
  ghost predicate LegalNames(members: seq<Member>) {
    forall i :: 0 <= i < |members| && members[i].hostname.Some? ==> LegalFor(members[i].hostname.value, members[i].id)
  }

  /** With names as the coordinator grants them, nobody shows another's key. */
  lemma LegalNamesShowNoKey(members: seq<Member>, name: string)
    requires RealKeys(members) && LegalNames(members)
    ensures !ShowsAnothersKey(members, name)
  {
    forall i, j | 0 <= i < |members| && 0 <= j < |members| && i != j && members[i].hostname == Some(name)
      ensures !IsKeyName(members[j].id, name)
    {
      FallbackLooksLike(members[j].id);
    }
  }

  lemma PlainOfFallback(net: Net, id: Id)
    requires IsEndpointId(id) && net.networkName.None?
    ensures Plain(net, Fallback(id)) == Fallback(id)
  {
    var name := Fallback(id);
    assert |name| == FALLBACK_LEN && forall i :: 0 <= i < |name| ==> IsHex(name[i]) && !IsSpace(name[i]);
    TrimNothing(name, IsSpace);
    assert TrimEnd(name, c => c == '.') == name;
    assert ToLower(name) == name;
  }

  /** A roster can do it: one member shown under another's fallback. Hearing it on
      joining, a node cannot tell which of the two that name means. */
  lemma PushedNameIsAmbiguous(coordinator: Id, own: Id, x: Id, y: Id)
    requires IsEndpointId(x) && IsEndpointId(y) && x != y
    ensures var roster := [Member(x, Some(Fallback(y))), Member(y, None)];
            Ambiguous(SetJoined(NoNetwork, coordinator, own, None, roster), Named(Fallback(y)))
  {
    var roster := [Member(x, Some(Fallback(y))), Member(y, None)];
    var net := SetJoined(NoNetwork, coordinator, own, None, roster);
    var blank := Net(None, Some(coordinator), None, [], map[], map[]);
    assert AbsorbAll(blank, roster, 1).members == [roster[0]];
    assert AbsorbAll(blank, roster, 2).members == roster;
    PlainOfFallback(net, y);
    assert net.members[0] == roster[0] && net.members[1] == roster[1];
    assert Means(net, Named(Fallback(y)), net.members[0]) && Means(net, Named(Fallback(y)), net.members[1]);
  }

  /** A query that is not ambiguous finds the member it means, wherever it is. */
  lemma FindMemberFindsIt(net: Net, query: Query, i: nat)
    ensures i < |net.members| && Means(net, query, net.members[i]) && !Ambiguous(net, query) ==>
              FindMember(net, query, 0) == i
  {
    var k := FindMember(net, query, 0);
    if i < |net.members| && Means(net, query, net.members[i]) && k != i {
      assert k < i && Means(net, query, net.members[k]);
    }
  }
}
