/** One network of many nodes: a coordinator that hands out names and pushes
    rosters, and members that pin what they see, over messages that may be lost,
    repeated or reordered (daemon/src/admin.rs, daemon/src/state.rs,
    daemon/src/ipc.rs). */
module Network {
  import opened Basics
  import opened Names
  import opened Membership
  import opened Naming
  import opened Trust
  import Text

  /** A message the coordinator has sent. Once sent it may arrive any number of
      times, in any order, or never. */
  datatype Mail =
    | RosterPush(told: Option<string>, roster: seq<Member>)
    | Joined(to: Id, told: Option<string>, roster: seq<Member>)
    | HostnameSet(to: Id, hostname: string)
    | Kicked(to: Id)

  /** `known` is every key in play; `table` is the coordinator's. */
  datatype System = System(
    known: set<Id>,
    coordinator: Id,
    table: Net,
    mail: set<Mail>,
    nodes: map<Id, Net>)

  datatype Step =
    // At the coordinator
    | Establish(name: string, hostname: Option<string>, networkId: string)
    | Resign
    | JoinElsewhere(other: Net)
    | MintInvite(token: Token, ttl: Time, now: Time)
    | Admit(token: Token, bearer: Id, now: Time, wanted: Option<string>, shown: Option<string>, order: seq<Member>)
    | Rename(claimant: Id, requested: string)
    | RenameSelf(requested: string, force: bool)
    | Depart(bearer: Id)
    | KickOut(query: Query)
    | Broadcast(shown: Option<string>, order: seq<Member>)
    // At a member
    | HearJoined(node: Id, shown: Option<string>, order: seq<Member>)
    | HearRoster(node: Id, shown: Option<string>, order: seq<Member>)
    | HearHostname(node: Id, granted: string)
    | AdoptOwn(node: Id, requested: string)
    | HearKicked(node: Id)
    | Leave(node: Id)
    // In some other network
    | Elsewhere(node: Id, other: Net)

  predicate InNetwork(s: System, node: Id) {
    node in s.nodes && s.nodes[node].coordinator == Some(s.coordinator)
  }

  /** The coordinator is in somebody else's network, and coordinates nothing. */
  predicate Foreign(s: System) {
    s.table.coordinator.Some? && s.table.coordinator != Some(s.coordinator)
  }

  /** The coordinator's half of a join: spend the invite, then try the name. */
  function AdmitTable(table: Net, token: Token, bearer: Id, now: Time, requested: Option<string>): Net {
    var (spent, admitted) := Redeem(table, token, bearer, now);
    if admitted && requested.Some? then Claim(spent, bearer, requested.value, false).0 else spent
  }

  function Apply(s: System, step: Step): System {
    match step
    case Establish(name, hostname, networkId) =>
      s.(table := Create(s.table, name, s.coordinator, hostname, networkId))
    case Resign => s.(table := NoNetwork)
    case JoinElsewhere(other) => s.(table := other)
    case MintInvite(token, ttl, now) => s.(table := Mint(s.table, token, ttl, now))
    case Admit(token, bearer, now, wanted, shown, order) =>
      s.(table := AdmitTable(s.table, token, bearer, now, wanted),
         mail := if Redeem(s.table, token, bearer, now).1 then s.mail + {Joined(bearer, shown, order)} else s.mail)
    case Rename(claimant, requested) =>
      var (table, r) := Claim(s.table, claimant, requested, false);
      s.(table := table, mail := if r.Ok? then s.mail + {HostnameSet(claimant, r.value)} else s.mail)
    case RenameSelf(requested, force) => s.(table := Claim(s.table, s.coordinator, requested, force).0)
    case Depart(bearer) => s.(table := Remove(s.table, bearer))
    case KickOut(query) =>
      var (table, r) := Kick(s.table, query, s.coordinator);
      s.(table := table, mail := if r.Ok? then s.mail + {Kicked(r.value.id)} else s.mail)
    case Broadcast(shown, order) => s.(mail := s.mail + {RosterPush(shown, order)})
    case HearJoined(node, shown, order) =>
      s.(nodes := s.nodes[node := SetJoined(NetOf(s, node), s.coordinator, node, shown, order)])
    case HearRoster(node, shown, order) =>
      if InNetwork(s, node) then s.(nodes := s.nodes[node := SetRoster(s.nodes[node], node, shown, order)]) else s
    case HearHostname(node, granted) =>
      s.(nodes := s.nodes[node := Claim(NetOf(s, node), node, granted, true).0])
    case AdoptOwn(node, requested) =>
      if InNetwork(s, node) then s.(nodes := s.nodes[node := Adopted(s.nodes[node], node, requested)]) else s
    case HearKicked(node) =>
      if InNetwork(s, node) then s.(nodes := s.nodes[node := NoNetwork]) else s
    case Leave(node) => s.(nodes := s.nodes[node := NoNetwork])
    case Elsewhere(node, other) => s.(nodes := s.nodes[node := other])
  }

  /** What a member does with a name it asked for when the coordinator did not grant
      it, out of reach or refusing: it takes the name anyway. */
  function Adopted(net: Net, own: Id, requested: string): Net {
    match Validate(requested, own)
    case Err(_) => net
    case Ok(wanted) => Claim(net, own, wanted, true).0
  }

  function NetOf(s: System, node: Id): Net {
    if node in s.nodes then s.nodes[node] else NoNetwork
  }

  /** A roster message carries the table's members, in whatever order. */
  ghost predicate Lists(order: seq<Member>, table: Net) {
    forall m :: m in order ==> m in table.members
  }

  /** What can happen next: names are claimed by known keys, while at most 9,999 are
      taken, and members hear only what the coordinator sent them. */
  ghost predicate Possible(s: System, step: Step) {
    match step
    case Establish(_, hostname, _) => hostname.Some? ==> LegalFor(hostname.value, s.coordinator)
    case JoinElsewhere(other) => Foreign(s.(table := other))
    case MintInvite(_, _, _) => !Foreign(s)
    case Admit(token, bearer, now, wanted, shown, order) =>
      && !Foreign(s) && bearer in s.known
      && HasRoom(Redeem(s.table, token, bearer, now).0, bearer)
      && Lists(order, AdmitTable(s.table, token, bearer, now, wanted))
    case Rename(claimant, _) => !Foreign(s) && claimant in s.known && HasRoom(s.table, claimant)
    case RenameSelf(_, _) => !Foreign(s) && HasRoom(s.table, s.coordinator)
    case Depart(bearer) => !Foreign(s) && bearer != s.coordinator
    case KickOut(_) => !Foreign(s)
    case Broadcast(_, order) => !Foreign(s) && Lists(order, s.table)
    case HearJoined(node, shown, order) => node != s.coordinator && Joined(node, shown, order) in s.mail
    case HearRoster(node, shown, order) => node != s.coordinator && RosterPush(shown, order) in s.mail
    case HearHostname(node, granted) => node != s.coordinator && HostnameSet(node, granted) in s.mail
    case AdoptOwn(node, _) => node != s.coordinator
    case HearKicked(node) => node != s.coordinator && Kicked(node) in s.mail
    case Leave(node) => node != s.coordinator
    case Elsewhere(node, other) => node != s.coordinator && other.coordinator != Some(s.coordinator)
    case _ => true
  }

  // What has been said about a name

  predicate Shows(members: seq<Member>, hostname: string, id: Id) {
    Member(id, Some(hostname)) in members
  }

  predicate SaysOf(x: Mail, hostname: string, id: Id) {
    match x
    case RosterPush(_, roster) => Shows(roster, hostname, id)
    case Joined(_, _, roster) => Shows(roster, hostname, id)
    case HostnameSet(to, granted) => granted == hostname && to == id
    case Kicked(_) => false
  }

  predicate Holds(net: Net, hostname: string, id: Id) {
    (hostname in net.bindings && net.bindings[hostname] == id) || Shows(net.members, hostname, id)
  }

  /** Somebody in the network takes this name for this key's, or may yet be told so. */
  ghost predicate Said(s: System, hostname: string, id: Id) {
    || (exists x :: x in s.mail && SaysOf(x, hostname, id))
    || (exists node :: InNetwork(s, node) && Holds(s.nodes[node], hostname, id))
  }

  ghost predicate SaidOfAnother(s: System, hostname: string, id: Id) {
    exists other :: other != id && Said(s, hostname, other)
  }

  /** A step that moves no name anyone has been told of: only creating a network
      again, leaving it, forcing a claim and adopting an ungranted name can. */
  ghost predicate Harmless(s: System, step: Step) {
    match step
    case Establish(_, hostname, _) => hostname.Some? ==> !SaidOfAnother(s, hostname.value, s.coordinator)
    case Resign => forall hostname, id :: !Said(s, hostname, id)
    case JoinElsewhere(other) => forall hostname, id :: Said(s, hostname, id) ==> Bound(other.bindings, hostname, id)
    case RenameSelf(requested, force) =>
      var valid := Validate(requested, s.coordinator);
      force && valid.Ok? ==> !SaidOfAnother(s, valid.value, s.coordinator)
    case AdoptOwn(node, requested) =>
      var valid := Validate(requested, node);
      InNetwork(s, node) && valid.Ok? ==> Bound(s.table.bindings, valid.value, node)
    case _ => true
  }

  predicate Bound(bindings: map<string, Id>, hostname: string, id: Id) {
    hostname in bindings && bindings[hostname] == id
  }

  ghost predicate Enabled(s: System, step: Step) {
    Possible(s, step) && Harmless(s, step)
  }

  // What holds throughout

  /** Real endpoint ids, no two of which share a fallback. */
  ghost predicate DistinctKeys(known: set<Id>) {
    && (forall id :: id in known ==> IsEndpointId(id))
    && (forall a, b :: a in known && b in known && Fallback(a) == Fallback(b) ==> a == b)
  }

  /** A name the coordinator has bound to this key, and may. */
  predicate Granted(bindings: map<string, Id>, hostname: string, id: Id) {
    hostname in bindings && bindings[hostname] == id && LegalFor(hostname, id)
  }

  predicate Vouched(known: set<Id>, bindings: map<string, Id>, m: Member) {
    m.id in known && (m.hostname.Some? ==> Granted(bindings, m.hostname.value, m.id))
  }

  ghost predicate AllVouched(known: set<Id>, bindings: map<string, Id>, members: seq<Member>) {
    forall m :: m in members ==> Vouched(known, bindings, m)
  }

  ghost predicate MailVouched(known: set<Id>, bindings: map<string, Id>, x: Mail) {
    match x
    case RosterPush(_, roster) => AllVouched(known, bindings, roster)
    case Joined(to, _, roster) => to in known && AllVouched(known, bindings, roster)
    case HostnameSet(to, hostname) => to in known && Granted(bindings, hostname, to)
    case Kicked(_) => true
  }

  /** A member of the network has pinned only what the coordinator has bound. */
  ghost predicate Agrees(known: set<Id>, bindings: map<string, Id>, net: Net) {
    Extends(net.bindings, bindings) && AllVouched(known, bindings, net.members)
  }

  ghost predicate TableGood(s: System) {
    && DistinctKeys(s.known) && s.coordinator in s.known
    && (!Foreign(s) ==> Sound(s.table) && AllVouched(s.known, s.table.bindings, s.table.members))
  }

  ghost predicate MailGood(s: System) {
    forall x :: x in s.mail ==> MailVouched(s.known, s.table.bindings, x)
  }

  ghost predicate NodesGood(s: System) {
    forall node :: InNetwork(s, node) ==> node in s.known && Agrees(s.known, s.table.bindings, s.nodes[node])
  }

  ghost predicate Good(s: System) {
    TableGood(s) && MailGood(s) && NodesGood(s)
  }

  // Steps at the coordinator

  lemma VouchedLater(known: set<Id>, before: map<string, Id>, after: map<string, Id>, members: seq<Member>)
    requires AllVouched(known, before, members) && Extends(before, after)
    ensures AllVouched(known, after, members)
  {
    forall m | m in members
      ensures Vouched(known, after, m)
    {
      assert Vouched(known, before, m);
    }
  }

  lemma MailLater(known: set<Id>, before: map<string, Id>, after: map<string, Id>, x: Mail)
    requires MailVouched(known, before, x) && Extends(before, after)
    ensures MailVouched(known, after, x)
  {
    if x.RosterPush? || x.Joined? {
      VouchedLater(known, before, after, x.roster);
    }
  }

  /** The coordinator's table may change as long as it forgets no binding, and
      send whatever its new table vouches for. */
  lemma CoordinatorStep(s: System, after: System)
    requires Good(s) && TableGood(after) && after == s.(table := after.table, mail := after.mail)
    requires Extends(s.table.bindings, after.table.bindings)
    requires forall x :: x in after.mail && x !in s.mail ==> MailVouched(s.known, after.table.bindings, x)
    ensures Good(after)
  {
    forall x | x in s.mail
      ensures MailVouched(s.known, after.table.bindings, x)
    {
      MailLater(s.known, s.table.bindings, after.table.bindings, x);
    }
    forall node | InNetwork(after, node)
      ensures node in after.known && Agrees(after.known, after.table.bindings, after.nodes[node])
    {
      assert InNetwork(s, node);
      VouchedLater(s.known, s.table.bindings, after.table.bindings, s.nodes[node].members);
      ExtendsAgain(s.nodes[node].bindings, s.table.bindings, after.table.bindings);
    }
  }

  /** A claim at the coordinator binds what it grants and forgets nothing. */
  lemma ClaimVouches(known: set<Id>, table: Net, claimant: Id, requested: string)
    requires Sound(table) && HasRoom(table, claimant) && claimant in known
    requires AllVouched(known, table.bindings, table.members)
    ensures var (after, r) := Claim(table, claimant, requested, false);
            && Sound(after) && after.coordinator == table.coordinator
            && Extends(table.bindings, after.bindings)
            && AllVouched(known, after.bindings, after.members)
            && (r.Ok? ==> Granted(after.bindings, r.value, claimant))
  {
    ClaimKeeps(table, claimant, requested, false);
    ClaimChangesOnlyTheClaimant(table, claimant, requested);
    var (after, r) := Claim(table, claimant, requested, false);
    if r.Ok? {
      VouchedLater(known, table.bindings, after.bindings, table.members);
      BindVouches(known, table, claimant, r.value);
    }
  }

  lemma BindVouches(known: set<Id>, net: Net, claimant: Id, granted: string)
    requires AllVouched(known, Bind(net, claimant, granted).bindings, net.members) && LegalFor(granted, claimant)
    ensures AllVouched(known, Bind(net, claimant, granted).bindings, Bind(net, claimant, granted).members)
  {
    var after := Bind(net, claimant, granted);
    var k := Find(net.members, claimant, 0);
    forall i | 0 <= i < |after.members|
      ensures Vouched(known, after.bindings, after.members[i])
    {
      assert Vouched(known, after.bindings, net.members[i]);
      assert i != k ==> after.members[i] == net.members[i];
    }
  }

  lemma AdmittedVouches(known: set<Id>, bindings: map<string, Id>, members: seq<Member>, m: Member)
    requires AllVouched(known, bindings, members) && Vouched(known, bindings, m)
    ensures AllVouched(known, bindings, Admitted(members, m))
  {
  }

  lemma RedeemVouches(known: set<Id>, table: Net, token: Token, bearer: Id, now: Time)
    requires Sound(table) && AllVouched(known, table.bindings, table.members) && bearer in known
    ensures var spent := Redeem(table, token, bearer, now).0;
            && Sound(spent) && AllVouched(known, spent.bindings, spent.members)
            && spent.bindings == table.bindings && spent.coordinator == table.coordinator
  {
    AdmittedKeeps(table.members, table.bindings, Member(bearer, None));
    AdmittedVouches(known, table.bindings, table.members, Member(bearer, None));
  }

  lemma AdmitVouches(known: set<Id>, table: Net, token: Token, bearer: Id, now: Time, requested: Option<string>)
    requires Sound(table) && AllVouched(known, table.bindings, table.members) && bearer in known
    requires HasRoom(Redeem(table, token, bearer, now).0, bearer)
    ensures var after := AdmitTable(table, token, bearer, now, requested);
            && Sound(after) && after.coordinator == table.coordinator
            && Extends(table.bindings, after.bindings) && AllVouched(known, after.bindings, after.members)
  {
    RedeemVouches(known, table, token, bearer, now);
    var (spent, admitted) := Redeem(table, token, bearer, now);
    if admitted && requested.Some? {
      ClaimVouches(known, spent, bearer, requested.value);
    }
  }

  lemma RemoveVouches(known: set<Id>, table: Net, id: Id)
    requires Sound(table) && AllVouched(known, table.bindings, table.members)
    ensures Sound(Remove(table, id)) && AllVouched(known, table.bindings, Remove(table, id).members)
  {
    WithoutKeeps(table.members, table.bindings, id, |table.members|);
    assert table.members[..|table.members|] == table.members;
  }

  lemma ListedVouches(known: set<Id>, table: Net, order: seq<Member>)
    requires AllVouched(known, table.bindings, table.members) && Lists(order, table)
    ensures AllVouched(known, table.bindings, order)
  {
  }

  lemma CoordinatorKeeps(s: System, step: Step)
    requires Good(s) && Possible(s, step)
    requires step.MintInvite? || step.Depart? || step.KickOut? || step.Broadcast?
    ensures Good(Apply(s, step))
  {
    match step
    case MintInvite(token, ttl, now) => CoordinatorStep(s, Apply(s, step));
    case Depart(bearer) =>
      RemoveVouches(s.known, s.table, bearer);
      CoordinatorStep(s, Apply(s, step));
    case KickOut(query) =>
      var k := FindMember(s.table, query, 0);
      if k < |s.table.members| {
        RemoveVouches(s.known, s.table, s.table.members[k].id);
      }
      CoordinatorStep(s, Apply(s, step));
    case Broadcast(shown, order) =>
      ListedVouches(s.known, s.table, order);
      CoordinatorStep(s, Apply(s, step));
  }

  lemma AdmitKeeps(s: System, step: Step)
    requires Good(s) && Possible(s, step) && step.Admit?
    ensures Good(Apply(s, step))
  {
    AdmitVouches(s.known, s.table, step.token, step.bearer, step.now, step.wanted);
    ListedVouches(s.known, Apply(s, step).table, step.order);
    CoordinatorStep(s, Apply(s, step));
  }

  lemma RenameKeeps(s: System, step: Step)
    requires Good(s) && Possible(s, step) && step.Rename?
    ensures Good(Apply(s, step))
  {
    ClaimVouches(s.known, s.table, step.claimant, step.requested);
    CoordinatorStep(s, Apply(s, step));
  }

  // Steps at a member

  lemma AbsorbAgrees(known: set<Id>, bindings: map<string, Id>, net: Net, m: Member)
    requires Agrees(known, bindings, net) && Vouched(known, bindings, m)
    ensures Agrees(known, bindings, Absorb(net, m)) && Refusal(net.bindings, m) == []
  {
    AdmittedVouches(known, bindings, net.members, m);
  }

  /** A roster the coordinator vouches for disputes nothing, and teaches a member
      only what the coordinator has bound. */
  lemma {:induction false} AbsorbAllAgrees(
    known: set<Id>, bindings: map<string, Id>, net: Net, roster: seq<Member>, n: nat)
    requires Agrees(known, bindings, net) && AllVouched(known, bindings, roster) && n <= |roster|
    ensures Agrees(known, bindings, AbsorbAll(net, roster, n)) && Refusals(net, roster, n) == []
  {
    if n > 0 {
      AbsorbAllAgrees(known, bindings, net, roster, n - 1);
      assert roster[n - 1] in roster;
      AbsorbAgrees(known, bindings, AbsorbAll(net, roster, n - 1), roster[n - 1]);
    }
  }

  lemma AnchoredAgrees(known: set<Id>, bindings: map<string, Id>, net: Net, own: Id)
    requires Agrees(known, bindings, net) && own in known
    requires net.coordinator.Some? ==> net.coordinator.value in known
    ensures Agrees(known, bindings, Anchored(net, own))
  {
    AdmittedVouches(known, bindings, net.members, Member(own, None));
    if net.coordinator.Some? {
      AdmittedVouches(known, bindings, Admitted(net.members, Member(own, None)), Member(net.coordinator.value, None));
    }
  }

  lemma ApplyRosterAgrees(known: set<Id>, bindings: map<string, Id>, net: Net, own: Id, roster: seq<Member>)
    requires Agrees(known, bindings, net) && AllVouched(known, bindings, roster) && own in known
    requires net.coordinator.Some? && net.coordinator.value in known
    ensures Agrees(known, bindings, ApplyRoster(net, own, roster))
    ensures Refusals(net, roster, |roster|) == []
  {
    AbsorbAllAgrees(known, bindings, net, roster, |roster|);
    AbsorbAllCoordinator(net, roster, |roster|);
    AnchoredAgrees(known, bindings, AbsorbAll(net, roster, |roster|), own);
  }

  /** A forced claim of a legal name takes exactly that name: nothing else a member
      can hold is in its way. */
  lemma ForcedTakesExactly(known: set<Id>, bindings: map<string, Id>, net: Net, own: Id, hostname: string)
    requires DistinctKeys(known) && own in known && LegalFor(hostname, own)
    requires AllVouched(known, bindings, net.members)
    ensures Claim(net, own, hostname, true) == (Bind(Released(net, hostname), own, hostname), Ok(hostname))
  {
    ValidateLegal(hostname, own);
    var cleared := Released(net, hostname);
    if SpokenFor(cleared, hostname, own) {
      var i :| && 0 <= i < |cleared.members| && cleared.members[i].id != own
               && Fallback(cleared.members[i].id) == hostname;
      assert net.members[i] in net.members;
      assert Vouched(known, bindings, net.members[i]);
      FallbackLooksLike(net.members[i].id);
      assert false;
    }
  }

  /** So a member adopts exactly the name it was granted. */
  lemma AdoptsWhatWasGranted(known: set<Id>, bindings: map<string, Id>, net: Net, own: Id, hostname: string)
    requires DistinctKeys(known) && own in known && Granted(bindings, hostname, own)
    requires Agrees(known, bindings, net)
    ensures Claim(net, own, hostname, true) == (Bind(Released(net, hostname), own, hostname), Ok(hostname))
  {
    ForcedTakesExactly(known, bindings, net, own, hostname);
  }

  /** Adopting a granted name yields that very name exactly when no other member of
      the adopter's has it for a fallback; otherwise the adopter ends up under a
      name the coordinator never granted. */
  lemma AdoptsExactly(net: Net, own: Id, hostname: string)
    requires IsEndpointId(own) && LegalFor(hostname, own)
    ensures Claim(net, own, hostname, true).1 == Ok(hostname) <==>
            forall i :: 0 <= i < |net.members| && net.members[i].id != own ==> Fallback(net.members[i].id) != hostname
  {
    ValidateLegal(hostname, own);
    var cleared := Released(net, hostname);
    if SpokenFor(cleared, hostname, own) {
      var i :| && 0 <= i < |cleared.members| && cleared.members[i].id != own
               && Fallback(cleared.members[i].id) == hostname;
      assert net.members[i].id == cleared.members[i].id;
      AlternativeDiffers(hostname, own, candidate => SpokenFor(cleared, candidate, own));
    } else {
      forall i | 0 <= i < |net.members| && net.members[i].id != own
        ensures Fallback(net.members[i].id) != hostname
      {
        assert cleared.members[i].id == net.members[i].id;
      }
    }
  }

  /** Two keys with eight digits in common. */
  lemma TwinKeys(own: Id, other: Id)
    requires own == Text.Repeat('a', 64) && other == Text.Repeat('a', 63) + "b"
    ensures IsEndpointId(own) && IsEndpointId(other) && own != other
    ensures Fallback(own) == Fallback(other) && LegalFor(Fallback(own), own)
  {
    assert own[63] == 'a' && other[63] == 'b';
    assert Fallback(own) == Fallback(other);
    FallbackLooksLike(own);
  }

  /** And then a member granted its own fallback, a name it may hold, adopts some
      other one. */
  lemma AdoptingCanDrift(own: Id, other: Id, net: Net)
    requires own == Text.Repeat('a', 64) && other == Text.Repeat('a', 63) + "b"
    requires net == NoNetwork.(members := [Member(own, None), Member(other, None)])
    ensures Validate(Fallback(own), own) == Ok(Fallback(own))
    ensures Claim(net, own, Fallback(own), true).1 != Ok(Fallback(own))
  {
    TwinKeys(own, other);
    ValidateLegal(Fallback(own), own);
    AdoptsExactly(net, own, Fallback(own));
    assert net.members[1].id == other;
  }

  /** A name as short as a fallback is none of its own alternatives. */
  lemma AlternativeDiffers(name: string, own: Id, taken: string -> bool)
    requires IsLabel(name) && |name| <= FALLBACK_LEN && IsEndpointId(own) && taken(name)
    ensures Dedupe(name, own, taken) != name
  {
    FirstFreeIsOneOf(Numbered(name), LastResort(name, own), taken, 1);
    var r := Dedupe(name, own, taken);
    if r == LastResort(name, own) {
      SuffixOfFallback(own);
      SuffixedLabel(name, Fallback(own));
    } else {
      var k: nat :| 1 <= k <= MAX_SUFFIX && r == Numbered(name)(k);
      SuffixOfNumber(k);
      SuffixedLonger(name, Text.Decimal(k));
    }
  }

  /** With nothing to cut, a suffix only makes a name longer. */
  lemma SuffixedLonger(name: string, suffix: string)
    requires IsLabel(name) && |name| <= FALLBACK_LEN && IsSuffix(suffix)
    ensures |WithSuffix(name, suffix)| > |name|
  {
    SuffixedShape(name, suffix);
    assert Take(name, MAX_LEN - 1 - |suffix|) == name;
  }

  lemma ReleasedVouches(known: set<Id>, bindings: map<string, Id>, net: Net, wanted: string)
    requires AllVouched(known, bindings, net.members)
    ensures AllVouched(known, bindings, Released(net, wanted).members)
  {
    var after := Released(net, wanted);
    forall i | 0 <= i < |after.members|
      ensures Vouched(known, bindings, after.members[i])
    {
      assert net.members[i] in net.members;
      assert Vouched(known, bindings, net.members[i]);
    }
  }

  lemma AdoptAgrees(known: set<Id>, bindings: map<string, Id>, net: Net, own: Id, hostname: string)
    requires DistinctKeys(known) && own in known && Granted(bindings, hostname, own)
    requires Agrees(known, bindings, net)
    ensures Agrees(known, bindings, Claim(net, own, hostname, true).0)
  {
    AdoptsWhatWasGranted(known, bindings, net, own, hostname);
    ReleasedVouches(known, bindings, net, hostname);
    var cleared := Released(net, hostname);
    var after := Bind(cleared, own, hostname);
    forall i | 0 <= i < |after.members|
      ensures Vouched(known, bindings, after.members[i])
    {
      assert cleared.members[i] in cleared.members;
      assert Vouched(known, bindings, cleared.members[i]);
    }
  }

  lemma NodeStep(s: System, node: Id, net: Net)
    requires Good(s)
    requires net.coordinator == Some(s.coordinator) ==> node in s.known && Agrees(s.known, s.table.bindings, net)
    ensures Good(s.(nodes := s.nodes[node := net]))
  {
    var after := s.(nodes := s.nodes[node := net]);
    forall other | InNetwork(after, other)
      ensures other in after.known && Agrees(after.known, after.table.bindings, after.nodes[other])
    {
      assert other != node ==> InNetwork(s, other);
    }
  }

  lemma ClaimKeepsCoordinator(net: Net, claimant: Id, requested: string, force: bool)
    ensures Claim(net, claimant, requested, force).0.coordinator == net.coordinator
  {
  }

  lemma HearJoinedKeeps(s: System, step: Step)
    requires Good(s) && Possible(s, step) && step.HearJoined?
    ensures Good(Apply(s, step))
  {
    assert MailVouched(s.known, s.table.bindings, Joined(step.node, step.shown, step.order));
    var blank := Net(step.shown, Some(s.coordinator), None, [], map[], map[]);
    ApplyRosterAgrees(s.known, s.table.bindings, blank, step.node, step.order);
    NodeStep(s, step.node, SetJoined(NetOf(s, step.node), s.coordinator, step.node, step.shown, step.order));
  }

  lemma HearRosterKeeps(s: System, step: Step)
    requires Good(s) && Possible(s, step) && step.HearRoster?
    ensures Good(Apply(s, step))
  {
    if InNetwork(s, step.node) {
      RosterIsWelcome(s, step.node, step.shown, step.order);
      NodeStep(s, step.node, SetRoster(s.nodes[step.node], step.node, step.shown, step.order));
    }
  }

  /** Any roster the coordinator ever sent, arriving at any member at any time,
      is taken without a conflict. */
  lemma RosterIsWelcome(s: System, node: Id, shown: Option<string>, order: seq<Member>)
    requires Good(s) && InNetwork(s, node) && RosterPush(shown, order) in s.mail
    ensures RosterConflicts(s.nodes[node], order) == []
    ensures Agrees(s.known, s.table.bindings, SetRoster(s.nodes[node], node, shown, order))
  {
    var net := s.nodes[node];
    assert MailVouched(s.known, s.table.bindings, RosterPush(shown, order));
    var cleared := net.(networkName := if shown.Some? then shown else net.networkName, members := []);
    ApplyRosterAgrees(s.known, s.table.bindings, cleared, node, order);
    RefusalsIgnoreName(cleared, net.(members := []), order, |order|);
  }

  lemma HearHostnameKeeps(s: System, step: Step)
    requires Good(s) && Possible(s, step) && step.HearHostname?
    ensures Good(Apply(s, step))
  {
    assert MailVouched(s.known, s.table.bindings, HostnameSet(step.node, step.granted));
    var net := NetOf(s, step.node);
    ClaimKeepsCoordinator(net, step.node, step.granted, true);
    if net.coordinator == Some(s.coordinator) {
      assert InNetwork(s, step.node);
      AdoptAgrees(s.known, s.table.bindings, net, step.node, step.granted);
    }
    NodeStep(s, step.node, Claim(net, step.node, step.granted, true).0);
  }

  lemma AwayKeeps(s: System, step: Step)
    requires Good(s) && Possible(s, step) && (step.HearKicked? || step.Leave? || step.Elsewhere?)
    ensures Good(Apply(s, step))
  {
    NodeStep(s, step.node, if step.Elsewhere? then step.other else NoNetwork);
  }

  // Steps that can move a name

  /** A new table at the coordinator agrees with everyone exactly when it binds
      everything that has been said as it was said. */
  lemma NewTableExactly(s: System, after: System)
    requires Good(s) && TableGood(after) && after == s.(table := after.table)
    ensures Good(after) <==> forall h, id :: Said(s, h, id) ==> Bound(after.table.bindings, h, id)
  {
    if Good(after) {
      forall h, id | Said(s, h, id)
        ensures Bound(after.table.bindings, h, id)
      {
        SaidIsBound(after, h, id);
      }
    } else if forall h, id :: Said(s, h, id) ==> Bound(after.table.bindings, h, id) {
      BoundIsGood(s, after);
    }
  }

  /** Whatever has been said is as the coordinator has it. */
  lemma SaidIsBound(s: System, h: string, id: Id)
    requires MailGood(s) && NodesGood(s) && Said(s, h, id)
    ensures Bound(s.table.bindings, h, id)
  {
    if exists x :: x in s.mail && SaysOf(x, h, id) {
      var x :| x in s.mail && SaysOf(x, h, id);
      assert MailVouched(s.known, s.table.bindings, x);
      if x.RosterPush? || x.Joined? {
        assert Vouched(s.known, s.table.bindings, Member(id, Some(h)));
      }
    } else {
      var node :| InNetwork(s, node) && Holds(s.nodes[node], h, id);
      assert Shows(s.nodes[node].members, h, id) ==> Vouched(s.known, s.table.bindings, Member(id, Some(h)));
    }
  }

  lemma StillVouched(known: set<Id>, before: map<string, Id>, after: map<string, Id>, members: seq<Member>)
    requires AllVouched(known, before, members)
    requires forall h, id :: Shows(members, h, id) ==> Bound(after, h, id)
    ensures AllVouched(known, after, members)
  {
    forall m | m in members
      ensures Vouched(known, after, m)
    {
      assert Vouched(known, before, m);
      if m.hostname.Some? {
        assert Shows(members, m.hostname.value, m.id);
      }
    }
  }

  lemma BoundIsGood(s: System, after: System)
    requires Good(s) && TableGood(after) && after == s.(table := after.table)
    requires forall h, id :: Said(s, h, id) ==> Bound(after.table.bindings, h, id)
    ensures Good(after)
  {
    forall x | x in s.mail
      ensures MailVouched(s.known, after.table.bindings, x)
    {
      assert MailVouched(s.known, s.table.bindings, x);
      assert forall h, id :: SaysOf(x, h, id) ==> Said(s, h, id);
      if x.RosterPush? || x.Joined? {
        assert forall h, id :: Shows(x.roster, h, id) ==> SaysOf(x, h, id);
        StillVouched(s.known, s.table.bindings, after.table.bindings, x.roster);
      } else if x.HostnameSet? {
        assert SaysOf(x, x.hostname, x.to);
      }
    }
    forall node | InNetwork(after, node)
      ensures node in s.known && Agrees(s.known, after.table.bindings, s.nodes[node])
    {
      NodeStillAgrees(s, after, node);
    }
  }

  lemma NodeStillAgrees(s: System, after: System, node: Id)
    requires Good(s) && InNetwork(s, node) && after == s.(table := after.table)
    requires forall h, id :: Said(s, h, id) ==> Bound(after.table.bindings, h, id)
    ensures node in s.known && Agrees(s.known, after.table.bindings, s.nodes[node])
  {
    var net := s.nodes[node];
    assert forall h, id :: Holds(net, h, id) ==> Said(s, h, id);
    assert forall h, id :: Shows(net.members, h, id) ==> Holds(net, h, id);
    StillVouched(s.known, s.table.bindings, after.table.bindings, net.members);
    forall h | h in net.bindings
      ensures h in after.table.bindings && after.table.bindings[h] == net.bindings[h]
    {
      assert Holds(net, h, net.bindings[h]);
    }
  }

  /** Binding one more name to a key agrees with everyone exactly when nobody has
      been told that it is another's. */
  lemma OneBindingExactly(s: System, after: System, hostname: string, id: Id)
    requires Good(s) && TableGood(after) && after == s.(table := after.table)
    requires after.table.bindings == s.table.bindings[hostname := id]
    ensures Good(after) <==> !SaidOfAnother(s, hostname, id)
  {
    NewTableExactly(s, after);
    forall h, k | Said(s, h, k)
      ensures Bound(s.table.bindings, h, k)
    {
      SaidIsBound(s, h, k);
    }
  }

  lemma EstablishExactly(s: System, step: Step)
    requires Good(s) && Possible(s, step) && step.Establish?
    ensures Good(Apply(s, step)) <==> Harmless(s, step)
  {
    var after := Apply(s, step);
    CreateIsSound(s.table, step.name, s.coordinator, step.hostname, step.networkId);
    assert [Member(s.coordinator, None)][0].id == s.coordinator;
    assert TableGood(after);
    if step.hostname.Some? {
      OneBindingExactly(s, after, step.hostname.value, s.coordinator);
    } else {
      CoordinatorStep(s, after);
    }
  }

  lemma ResignExactly(s: System)
    requires Good(s)
    ensures Good(Apply(s, Resign)) <==> Harmless(s, Resign)
  {
    NewTableExactly(s, Apply(s, Resign));
  }

  lemma JoinElsewhereExactly(s: System, other: Net)
    requires Good(s) && Possible(s, JoinElsewhere(other))
    ensures Good(Apply(s, JoinElsewhere(other))) <==> Harmless(s, JoinElsewhere(other))
  {
    NewTableExactly(s, Apply(s, JoinElsewhere(other)));
  }

  /** Taking a name and binding it is binding it. */
  lemma TakenIsBound(net: Net, own: Id, hostname: string)
    ensures Bind(Released(net, hostname), own, hostname).bindings == net.bindings[hostname := own]
  {
    assert (net.bindings - {hostname})[hostname := own] == net.bindings[hostname := own];
  }

  lemma TakenVouches(known: set<Id>, net: Net, own: Id, hostname: string)
    requires LegalFor(hostname, own) && Sound(net) && AllVouched(known, net.bindings, net.members)
    ensures var after := Bind(Released(net, hostname), own, hostname);
            AllVouched(known, after.bindings, after.members)
  {
    TakenIsBound(net, own, hostname);
    ReleasedShows(known, net, hostname, own);
    BindVouches(known, Released(net, hostname), own, hostname);
  }

  /** What a forced claim leaves in a table. */
  lemma ForcedTable(known: set<Id>, net: Net, own: Id, hostname: string)
    requires DistinctKeys(known) && own in known && LegalFor(hostname, own)
    requires Sound(net) && AllVouched(known, net.bindings, net.members)
    ensures var after := Claim(net, own, hostname, true).0;
            && after.bindings == net.bindings[hostname := own]
            && AllVouched(known, after.bindings, after.members)
  {
    ForcedTakesExactly(known, net.bindings, net, own, hostname);
    TakenIsBound(net, own, hostname);
    TakenVouches(known, net, own, hostname);
  }

  lemma ForcedTableGood(s: System, hostname: string)
    requires Good(s) && !Foreign(s) && HasRoom(s.table, s.coordinator) && LegalFor(hostname, s.coordinator)
    ensures var after := s.(table := Claim(s.table, s.coordinator, hostname, true).0);
            TableGood(after) && after.table.bindings == s.table.bindings[hostname := s.coordinator]
  {
    ClaimKeeps(s.table, s.coordinator, hostname, true);
    ForcedTable(s.known, s.table, s.coordinator, hostname);
  }

  /** With the name taken from whoever showed it, nobody shown loses theirs. */
  lemma ReleasedShows(known: set<Id>, net: Net, hostname: string, own: Id)
    requires Sound(net) && AllVouched(known, net.bindings, net.members)
    ensures AllVouched(known, net.bindings[hostname := own], Released(net, hostname).members)
  {
    var k := Holder(net.members, hostname, 0);
    var cleared := Released(net, hostname);
    forall i | 0 <= i < |cleared.members|
      ensures Vouched(known, net.bindings[hostname := own], cleared.members[i])
    {
      assert Vouched(known, net.bindings, net.members[i]);
      if i != k && net.members[i].hostname == Some(hostname) {
        SoundMeansUnshared(net, i, k);
      }
    }
  }

  lemma ClaimOfValid(net: Net, own: Id, requested: string, force: bool)
    requires Validate(requested, own).Ok?
    ensures LegalFor(Validate(requested, own).value, own)
    ensures Claim(net, own, requested, force) == Claim(net, own, Validate(requested, own).value, force)
  {
    ValidateExactly(requested, own);
    ValidateLegal(Validate(requested, own).value, own);
  }

  lemma RenameSelfExactly(s: System, step: Step)
    requires Good(s) && Possible(s, step) && step.RenameSelf?
    ensures Good(Apply(s, step)) <==> Harmless(s, step)
  {
    var valid := Validate(step.requested, s.coordinator);
    if !step.force {
      ClaimVouches(s.known, s.table, s.coordinator, step.requested);
      CoordinatorStep(s, Apply(s, step));
    } else if valid.Ok? {
      ClaimOfValid(s.table, s.coordinator, step.requested, true);
      ForcedTableGood(s, valid.value);
      OneBindingExactly(s, Apply(s, step), valid.value, s.coordinator);
    } else {
      assert Apply(s, step) == s;
    }
  }

  lemma AdoptOwnExactly(s: System, step: Step)
    requires Good(s) && Possible(s, step) && step.AdoptOwn?
    ensures Good(Apply(s, step)) <==> Harmless(s, step)
  {
    var node, valid := step.node, Validate(step.requested, step.node);
    if InNetwork(s, node) {
      var net := s.nodes[node];
      if valid.Ok? {
        ValidateExactly(step.requested, node);
        ForcedTakesExactly(s.known, s.table.bindings, net, node, valid.value);
        AdoptingUngrantedExactly(s, node, valid.value);
      } else {
        assert s.nodes[node := net] == s.nodes;
      }
    }
  }

  /** Adopting a name nobody granted keeps the agreement if and only if the name is
      already the adopter's at the coordinator. */
  lemma AdoptingUngrantedExactly(s: System, node: Id, wanted: string)
    requires Good(s) && InNetwork(s, node) && LegalFor(wanted, node)
    ensures var net := Claim(s.nodes[node], node, wanted, true).0;
            Good(s.(nodes := s.nodes[node := net])) <==> Bound(s.table.bindings, wanted, node)
  {
    var before := s.nodes[node];
    var net := Claim(before, node, wanted, true).0;
    var after := s.(nodes := s.nodes[node := net]);
    ForcedTakesExactly(s.known, s.table.bindings, before, node, wanted);
    if Bound(s.table.bindings, wanted, node) {
      AdoptAgrees(s.known, s.table.bindings, before, node, wanted);
      NodeStep(s, node, net);
    } else if Good(after) {
      assert InNetwork(after, node);
    }
  }

  predicate MovesNames(step: Step) {
    step.Establish? || step.Resign? || step.JoinElsewhere? || step.RenameSelf? || step.AdoptOwn?
  }

  lemma OthersKeep(s: System, step: Step)
    requires Good(s) && Possible(s, step) && !MovesNames(step)
    ensures Good(Apply(s, step))
  {
    match step
    case Admit(_, _, _, _, _, _) => AdmitKeeps(s, step);
    case Rename(_, _) => RenameKeeps(s, step);
    case HearJoined(_, _, _) => HearJoinedKeeps(s, step);
    case HearRoster(_, _, _) => HearRosterKeeps(s, step);
    case HearHostname(_, _) => HearHostnameKeeps(s, step);
    case HearKicked(_) => AwayKeeps(s, step);
    case Leave(_) => AwayKeeps(s, step);
    case Elsewhere(_, _) => AwayKeeps(s, step);
    case _ => CoordinatorKeeps(s, step);
  }

  /** Agreement survives a step, of whatever kind, if and only if the step moves no
      name anyone has been told of. */
  lemma AgreementSurvivesExactly(s: System, step: Step)
    requires Good(s) && Possible(s, step)
    ensures Good(Apply(s, step)) <==> Harmless(s, step)
  {
    match step
    case Establish(_, _, _) => EstablishExactly(s, step);
    case Resign => ResignExactly(s);
    case JoinElsewhere(other) => JoinElsewhereExactly(s, other);
    case RenameSelf(_, _) => RenameSelfExactly(s, step);
    case AdoptOwn(_, _) => AdoptOwnExactly(s, step);
    case _ => OthersKeep(s, step);
  }
}
