/** The table of a network's members, their names and its invites
    (daemon/src/membership.rs): the operations as functions on a table, and the
    object that carries them out. */
module Membership {
  import opened Basics
  import opened Text
  import opened Names

  type Token = t: seq<Byte> | |t| == 16 witness seq(16, _ => 0)

  /** A moment, or a span, in whole units of the clock. */
  type Time = int

  datatype Member = Member(id: Id, hostname: Option<string>)

  datatype Invite = Invite(networkId: Option<string>, expiresAt: Time)

  datatype Net = Net(
    networkName: Option<string>,
    coordinator: Option<Id>,
    networkId: Option<string>,
    members: seq<Member>,
    invites: map<Token, Invite>,
    bindings: map<string, Id>)

  const NoNetwork := Net(None, None, None, [], map[], map[])

  // Looking members up

  /** The first member from `i` on with this id, or the end. */
  function Find(members: seq<Member>, id: Id, i: nat): (k: nat)
    requires i <= |members|
    ensures i <= k <= |members| && (k < |members| ==> members[k].id == id)
    ensures forall j :: i <= j < k ==> members[j].id != id
    decreases |members| - i
  {
    if i < |members| && members[i].id != id then Find(members, id, i + 1) else i
  }

  predicate IsMember(members: seq<Member>, id: Id) {
    Find(members, id, 0) < |members|
  }

  /** The first member from `i` on that displays this name, or the end. */
  function Holder(members: seq<Member>, hostname: string, i: nat): (k: nat)
    requires i <= |members|
    ensures i <= k <= |members| && (k < |members| ==> members[k].hostname == Some(hostname))
    ensures forall j :: i <= j < k ==> members[j].hostname != Some(hostname)
    decreases |members| - i
  {
    if i < |members| && members[i].hostname != Some(hostname) then Holder(members, hostname, i + 1) else i
  }

  function Renamed(members: seq<Member>, k: nat, hostname: Option<string>): (r: seq<Member>)
    requires k <= |members|
    ensures |r| == |members|
    ensures forall i :: 0 <= i < |r| ==> r[i].id == members[i].id
    ensures forall i :: 0 <= i < |r| ==> r[i].hostname == if i == k then hostname else members[i].hostname
  {
    if k < |members| then members[k := members[k].(hostname := hostname)] else members
  }

  function Admitted(members: seq<Member>, member: Member): seq<Member> {
    if IsMember(members, member.id) then members else members + [member]
  }

  /** The first `n` members, without the one with this id. */
  function Without(members: seq<Member>, id: Id, n: nat): seq<Member>
    requires n <= |members|
  {
    if n == 0 then []
    else if members[n - 1].id != id then Without(members, id, n - 1) + [members[n - 1]]
    else Without(members, id, n - 1)
  }

  // Names

  function Bind(net: Net, id: Id, hostname: string): Net {
    net.(bindings := net.bindings[hostname := id],
         members := Renamed(net.members, Find(net.members, id, 0), Some(hostname)))
  }

  /** Whether a name is some other key's: bound to it, or its fallback. */
  predicate SpokenFor(net: Net, name: string, claimant: Id) {
    || (name in net.bindings && net.bindings[name] != claimant)
    || exists i :: 0 <= i < |net.members| && net.members[i].id != claimant
                   && Fallback(net.members[i].id) == name
  }

  /** A forced claim first takes the name from whoever has it. */
  function Released(net: Net, wanted: string): Net {
    net.(bindings := net.bindings - {wanted},
         members := Renamed(net.members, Holder(net.members, wanted, 0), None))
  }

  function Assigned(net: Net, claimant: Id, wanted: string): string {
    Dedupe(wanted, claimant, candidate => SpokenFor(net, candidate, claimant))
  }

  function Claim(net: Net, claimant: Id, requested: string, force: bool): (Net, Result<string, NameError>) {
    match Validate(requested, claimant)
    case Err(e) => (net, Err(e))
    case Ok(wanted) =>
      var cleared := if force then Released(net, wanted) else net;
      var granted := Assigned(cleared, claimant, wanted);
      (Bind(cleared, claimant, granted), Ok(granted))
  }

  // Invites

  predicate IsLive(invite: Invite, networkId: Option<string>, now: Time) {
    invite.networkId == networkId && invite.networkId.Some? && invite.expiresAt > now
  }

  function Unexpired(invites: map<Token, Invite>, now: Time): map<Token, Invite> {
    map t | t in invites && invites[t].expiresAt > now :: invites[t]
  }

  /** Mints an invite; the token is the randomness the program draws. */
  function Mint(net: Net, token: Token, ttl: Time, now: Time): Net {
    net.(invites := Unexpired(net.invites, now)[token := Invite(net.networkId, now + ttl)])
  }

  /** Spends an invite, whatever the verdict, and admits its bearer if it is live. */
  function Redeem(net: Net, token: Token, requester: Id, now: Time): (Net, bool) {
    if token !in net.invites then (net, false)
    else
      var spent := net.(invites := Unexpired(net.invites - {token}, now));
      if IsLive(net.invites[token], net.networkId, now)
      then (spent.(members := Admitted(net.members, Member(requester, None))), true)
      else (spent, false)
  }

  // Rosters

  /** A refused rebinding, as it is reported: by fallback, never by full id. */
  datatype Conflict = Conflict(hostname: string, owner: string, refused: string)

  predicate Disputed(bindings: map<string, Id>, member: Member) {
    member.hostname.Some? && member.hostname.value in bindings && bindings[member.hostname.value] != member.id
  }

  function Refusal(bindings: map<string, Id>, member: Member): seq<Conflict> {
    if Disputed(bindings, member)
    then [Conflict(member.hostname.value, Fallback(bindings[member.hostname.value]), Fallback(member.id))]
    else []
  }

  /** One pushed entry. A disputed name is dropped and its bearer kept. */
  function Absorb(net: Net, member: Member): Net {
    var kept := if Disputed(net.bindings, member) then member.(hostname := None) else member;
    net.(bindings := if kept.hostname.Some? then net.bindings[kept.hostname.value := kept.id] else net.bindings,
         members := Admitted(net.members, kept))
  }

  function AbsorbAll(net: Net, roster: seq<Member>, n: nat): Net
    requires n <= |roster|
  {
    if n == 0 then net else Absorb(AbsorbAll(net, roster, n - 1), roster[n - 1])
  }

  function Refusals(net: Net, roster: seq<Member>, n: nat): seq<Conflict>
    requires n <= |roster|
  {
    if n == 0 then []
    else Refusals(net, roster, n - 1) + Refusal(AbsorbAll(net, roster, n - 1).bindings, roster[n - 1])
  }

  /** This node and the coordinator stay, whatever was pushed. */
  function Anchored(net: Net, own: Id): Net {
    var withOwn := Admitted(net.members, Member(own, None));
    net.(members := if net.coordinator.Some? then Admitted(withOwn, Member(net.coordinator.value, None)) else withOwn)
  }

  function ApplyRoster(net: Net, own: Id, roster: seq<Member>): Net {
    Anchored(AbsorbAll(net, roster, |roster|), own)
  }

  function SetRoster(net: Net, own: Id, name: Option<string>, roster: seq<Member>): Net {
    var cleared := net.(networkName := if name.Some? then name else net.networkName, members := []);
    ApplyRoster(cleared, own, roster)
  }

  function RosterConflicts(net: Net, roster: seq<Member>): seq<Conflict> {
    Refusals(net.(members := []), roster, |roster|)
  }

  // Whole networks

  function Create(net: Net, name: string, own: Id, hostname: Option<string>, networkId: string): Net {
    var created := net.(networkName := Some(name), coordinator := Some(own), networkId := Some(networkId),
                      invites := map[], members := [Member(own, None)]);
    if hostname.Some? then Bind(created, own, hostname.value) else created
  }

  function SetJoined(net: Net, coordinator: Id, own: Id, name: Option<string>, roster: seq<Member>): Net {
    ApplyRoster(Net(name, Some(coordinator), None, [], map[], map[]), own, roster)
  }

  function Remove(net: Net, id: Id): Net {
    net.(members := Without(net.members, id, |net.members|))
  }

  // Finding the member a human means

  /** What was typed: an overlay address, with the keys it is derived from, or text. */
  datatype Query = Address(owners: set<Id>) | Named(text: string)

  function StripSuffix(s: string, suffix: string): string {
    if |suffix| <= |s| && s[|s| - |suffix|..] == suffix then s[..|s| - |suffix|] else s
  }

  function Plain(net: Net, text: string): string {
    var name := ToLower(TrimEnd(Trim(text, IsSpace), c => c == '.'));
    if net.networkName.Some? then StripSuffix(name, "." + NetworkLabel(net.networkName.value) + ".quix") else name
  }

  predicate AnswersTo(member: Member, name: string) {
    member.id == name || member.hostname == Some(name) || Fallback(member.id) == name
  }

  predicate Means(net: Net, query: Query, member: Member) {
    match query
    case Address(owners) => member.id in owners
    case Named(text) => Plain(net, text) != [] && AnswersTo(member, Plain(net, text))
  }

  /** The first member from `i` on the query means, or the end. */
  function FindMember(net: Net, query: Query, i: nat): (k: nat)
    requires i <= |net.members|
    ensures i <= k <= |net.members| && (k < |net.members| ==> Means(net, query, net.members[k]))
    ensures forall j :: i <= j < k ==> !Means(net, query, net.members[j])
    decreases |net.members| - i
  {
    if i < |net.members| && !Means(net, query, net.members[i]) then FindMember(net, query, i + 1) else i
  }

  datatype KickError = NotAMember | ThisNode

  function Kick(net: Net, query: Query, own: Id): (Net, Result<Member, KickError>) {
    var k := FindMember(net, query, 0);
    if k == |net.members| then (net, Err(NotAMember))
    else if net.members[k].id == own then (net, Err(ThisNode))
    else (Remove(net, net.members[k].id), Ok(net.members[k]))
  }

  // The object

  class Membership {
    var networkName: Option<string>
    var coordinator: Option<Id>
    var networkId: Option<string>
    var members: seq<Member>
    var invites: map<Token, Invite>
    var bindings: map<string, Id>

    constructor ()
      ensures Table() == NoNetwork
    {
      networkName, coordinator, networkId := None, None, None;
      members, invites, bindings := [], map[], map[];
    }

    function Table(): Net
      reads this
    {
      Net(networkName, coordinator, networkId, members, invites, bindings)
    }

    method BindName(id: Id, hostname: string)
      modifies this
      ensures Table() == Bind(old(Table()), id, hostname)
    {
      bindings := bindings[hostname := id];
      var k := Find(members, id, 0);
      if k < |members| {
        members := members[k := members[k].(hostname := Some(hostname))];
      }
    }

    method CreateNetwork(name: string, own: Id, hostname: Option<string>, newId: string)
      modifies this
      ensures Table() == Create(old(Table()), name, own, hostname, newId)
    {
      networkName := Some(name);
      coordinator := Some(own);
      networkId := Some(newId);
      invites := map[];
      members := [Member(own, None)];
      if hostname.Some? {
        BindName(own, hostname.value);
      }
    }

    method ClaimHostname(claimant: Id, requested: string, force: bool) returns (r: Result<string, NameError>)
      modifies this
      ensures (Table(), r) == Claim(old(Table()), claimant, requested, force)
    {
      var valid := Validate(requested, claimant);
      if valid.Err? {
        return Err(valid.error);
      }
      var wanted := valid.value;
      if force {
        bindings := bindings - {wanted};
        var k := Holder(members, wanted, 0);
        if k < |members| {
          members := members[k := members[k].(hostname := None)];
        }
      }
      var net := Table();
      var granted := Dedupe(wanted, claimant, candidate => SpokenFor(net, candidate, claimant));
      BindName(claimant, granted);
      r := Ok(granted);
    }

    method PruneExpired(now: Time)
      modifies this`invites
      ensures invites == Unexpired(old(invites), now)
    {
      invites := map t | t in invites && invites[t].expiresAt > now :: invites[t];
    }

    method GenerateInvite(token: Token, ttl: Time, now: Time) returns (expiresAt: Time)
      modifies this
      ensures Table() == Mint(old(Table()), token, ttl, now)
      ensures token in invites && invites[token].expiresAt == expiresAt
    {
      PruneExpired(now);
      expiresAt := now + ttl;
      invites := invites[token := Invite(networkId, expiresAt)];
    }

    method RedeemInvite(token: Token, requester: Id, now: Time) returns (ok: bool)
      modifies this
      ensures (Table(), ok) == Redeem(old(Table()), token, requester, now)
    {
      if token !in invites {
        return false;
      }
      var invite := invites[token];
      invites := invites - {token};
      PruneExpired(now);
      if !IsLive(invite, networkId, now) {
        return false;
      }
      if !IsMember(members, requester) {
        members := members + [Member(requester, None)];
      }
      ok := true;
    }

    method Apply(own: Id, roster: seq<Member>) returns (conflicts: seq<Conflict>)
      modifies this
      ensures Table() == ApplyRoster(old(Table()), own, roster)
      ensures conflicts == Refusals(old(Table()), roster, |roster|)
    {
      conflicts := [];
      ghost var before := Table();
      for i := 0 to |roster|
        invariant Table() == AbsorbAll(before, roster, i)
        invariant conflicts == Refusals(before, roster, i)
      {
        var member := roster[i];
        if member.hostname.Some? {
          var hostname := member.hostname.value;
          if hostname in bindings && bindings[hostname] != member.id {
            conflicts := conflicts + [Conflict(hostname, Fallback(bindings[hostname]), Fallback(member.id))];
            member := member.(hostname := None);
          } else {
            bindings := bindings[hostname := member.id];
          }
        }
        if !IsMember(members, member.id) {
          members := members + [member];
        }
      }
      if !IsMember(members, own) {
        members := members + [Member(own, None)];
      }
      if coordinator.Some? && !IsMember(members, coordinator.value) {
        members := members + [Member(coordinator.value, None)];
      }
    }

    method Join(coordinatorId: Id, own: Id, name: Option<string>, roster: seq<Member>)
      modifies this
      ensures Table() == SetJoined(old(Table()), coordinatorId, own, name, roster)
    {
      coordinator := Some(coordinatorId);
      networkName := name;
      members := [];
      bindings := map[];
      networkId := None;
      invites := map[];
      var _ := Apply(own, roster);
    }

    method ReplaceRoster(own: Id, name: Option<string>, roster: seq<Member>) returns (conflicts: seq<Conflict>)
      modifies this
      ensures Table() == SetRoster(old(Table()), own, name, roster)
      ensures conflicts == RosterConflicts(old(Table()), roster)
    {
      ghost var before := Table();
      if name.Some? {
        networkName := name;
      }
      members := [];
      RefusalsIgnoreName(Table(), before.(members := []), roster, |roster|);
      conflicts := Apply(own, roster);
    }

    method Leave()
      modifies this
      ensures Table() == NoNetwork
    {
      networkName, coordinator, networkId := None, None, None;
      members, invites, bindings := [], map[], map[];
    }

    method RemoveMember(id: Id) returns (listed: bool)
      modifies this
      ensures Table() == Remove(old(Table()), id)
      ensures listed <==> IsMember(old(members), id)
    {
      var kept: seq<Member> := [];
      for i := 0 to |members|
        invariant Table() == old(Table())
        invariant kept == Without(members, id, i)
        invariant |kept| <= i && (|kept| == i <==> forall j :: 0 <= j < i ==> members[j].id != id)
      {
        if members[i].id != id {
          kept := kept + [members[i]];
        }
      }
      listed := |kept| != |members|;
      members := kept;
    }

    method KickMember(query: Query, own: Id) returns (r: Result<Member, KickError>)
      modifies this
      ensures (Table(), r) == Kick(old(Table()), query, own)
    {
      var k := FindMember(Table(), query, 0);
      if k == |members| {
        return Err(NotAMember);
      }
      var member := members[k];
      if member.id == own {
        return Err(ThisNode);
      }
      var _ := RemoveMember(member.id);
      r := Ok(member);
    }
  }

  lemma {:induction false} RefusalsIgnoreName(a: Net, b: Net, roster: seq<Member>, n: nat)
    requires n <= |roster| && a == b.(networkName := a.networkName)
    ensures Refusals(a, roster, n) == Refusals(b, roster, n)
    ensures AbsorbAll(a, roster, n) == AbsorbAll(b, roster, n).(networkName := a.networkName)
  {
    if n > 0 {
      RefusalsIgnoreName(a, b, roster, n - 1);
    }
  }
}
