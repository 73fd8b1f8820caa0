/** Trust on first use: what a pushed roster can and cannot do to the names a
    member has already seen (`set_roster` and `apply_roster`). */
module Trust {
  import opened Basics
  import opened Names
  import opened Membership
  import opened Naming
  import opened Runs

  /** Everything bound before is bound to the same key after. */
  predicate Extends(before: map<string, Id>, after: map<string, Id>) {
    forall h :: h in before ==> h in after && after[h] == before[h]
  }

  lemma ExtendsAgain(a: map<string, Id>, b: map<string, Id>, c: map<string, Id>)
    requires Extends(a, b) && Extends(b, c)
    ensures Extends(a, c)
  {
  }

  predicate NamedAt(roster: seq<Member>, k: nat, hostname: string)
    requires k < |roster|
  {
    roster[k].hostname == Some(hostname)
  }

  /** Every name the first `n` entries mention is bound. */
  predicate Pinned(bindings: map<string, Id>, roster: seq<Member>, n: nat)
    requires n <= |roster|
  {
    forall k :: 0 <= k < n && roster[k].hostname.Some? ==> roster[k].hostname.value in bindings
  }

  // The bindings a push leaves

  lemma {:induction false} AbsorbExtends(net: Net, roster: seq<Member>, k: nat, n: nat)
    requires k <= n <= |roster|
    ensures Extends(AbsorbAll(net, roster, k).bindings, AbsorbAll(net, roster, n).bindings)
  {
    if k < n {
      AbsorbExtends(net, roster, k, n - 1);
    }
  }

  lemma {:induction false} AbsorbPins(net: Net, roster: seq<Member>, n: nat)
    requires n <= |roster|
    ensures Pinned(AbsorbAll(net, roster, n).bindings, roster, n)
  {
    if n > 0 {
      AbsorbPins(net, roster, n - 1);
    }
  }

  /** A name that was not bound before is bound by the first entry to use it. */
  lemma {:induction false} AbsorbBindsFirst(net: Net, roster: seq<Member>, n: nat, hostname: string)
    requires n <= |roster|
    requires hostname in AbsorbAll(net, roster, n).bindings && hostname !in net.bindings
    ensures exists k :: 0 <= k < n && NamedAt(roster, k, hostname)
                        && AbsorbAll(net, roster, n).bindings[hostname] == roster[k].id
                        && forall j :: 0 <= j < k ==> !NamedAt(roster, j, hostname)
  {
    assert n > 0;
    if hostname in AbsorbAll(net, roster, n - 1).bindings {
      AbsorbBindsFirst(net, roster, n - 1, hostname);
      AbsorbExtends(net, roster, n - 1, n);
    } else {
      AbsorbPins(net, roster, n - 1);
      assert NamedAt(roster, n - 1, hostname);
    }
  }

  /** After any push at all: no name has moved or gone, every name pushed is
      bound, and a new one belongs to the first entry that used it. */
  lemma PushPinsFirstUse(net: Net, own: Id, name: Option<string>, roster: seq<Member>)
    ensures var after := SetRoster(net, own, name, roster).bindings;
            && Extends(net.bindings, after)
            && Pinned(after, roster, |roster|)
            && forall h :: h in after && h !in net.bindings ==>
                 exists k :: 0 <= k < |roster| && NamedAt(roster, k, h) && after[h] == roster[k].id
                             && forall j :: 0 <= j < k ==> !NamedAt(roster, j, h)
  {
    var cleared := net.(networkName := if name.Some? then name else net.networkName, members := []);
    AbsorbExtends(cleared, roster, 0, |roster|);
    AbsorbPins(cleared, roster, |roster|);
    forall h | h in AbsorbAll(cleared, roster, |roster|).bindings && h !in net.bindings
      ensures exists k :: 0 <= k < |roster| && NamedAt(roster, k, h)
                          && AbsorbAll(cleared, roster, |roster|).bindings[h] == roster[k].id
                          && forall j :: 0 <= j < k ==> !NamedAt(roster, j, h)
    {
      AbsorbBindsFirst(cleared, roster, |roster|, h);
    }
  }

  // The verdict on each entry, in closed form

  /** What is reported of a roster judged against one fixed table: one refusal
      for each entry whose name is another key's, in the roster's order. */
  function Refused(bindings: map<string, Id>, roster: seq<Member>, n: nat): seq<Conflict>
    requires n <= |roster|
  {
    if n == 0 then [] else Refused(bindings, roster, n - 1) + Refusal(bindings, roster[n - 1])
  }

  /** What is listed of a roster judged against one fixed table. */
  function Listed(bindings: map<string, Id>, roster: seq<Member>, n: nat): seq<Member>
    requires n <= |roster|
  {
    if n == 0 then []
    else
      var member := roster[n - 1];
      Admitted(Listed(bindings, roster, n - 1),
               if Disputed(bindings, member) then member.(hostname := None) else member)
  }

  /** An entry's verdict outlives whatever is bound after it. */
  lemma SameVerdict(net: Net, member: Member, last: map<string, Id>)
    requires Extends(Absorb(net, member).bindings, last)
    ensures Disputed(net.bindings, member) == Disputed(last, member)
    ensures Refusal(net.bindings, member) == Refusal(last, member)
  {
  }

  lemma DisputedLater(net: Net, roster: seq<Member>, k: nat, n: nat)
    requires k < n <= |roster|
    ensures var earlier := AbsorbAll(net, roster, k).bindings;
            var last := AbsorbAll(net, roster, n).bindings;
            && Disputed(earlier, roster[k]) == Disputed(last, roster[k])
            && Refusal(earlier, roster[k]) == Refusal(last, roster[k])
  {
    AbsorbExtends(net, roster, k + 1, n);
    SameVerdict(AbsorbAll(net, roster, k), roster[k], AbsorbAll(net, roster, n).bindings);
  }

  lemma ListsAsJudged(before: Net, last: map<string, Id>, roster: seq<Member>, n: nat)
    requires 0 < n <= |roster| && before.members == Listed(last, roster, n - 1)
    requires Disputed(before.bindings, roster[n - 1]) == Disputed(last, roster[n - 1])
    ensures Absorb(before, roster[n - 1]).members == Listed(last, roster, n)
  {
  }

  /** Judging entries one by one while binding names is judging them all against
      the table the push ends with. */
  lemma {:induction false} VerdictIsFinal(net: Net, roster: seq<Member>, n: nat, end: nat)
    requires n <= end <= |roster| && net.members == []
    ensures var last := AbsorbAll(net, roster, end).bindings;
            && Refusals(net, roster, n) == Refused(last, roster, n)
            && AbsorbAll(net, roster, n).members == Listed(last, roster, n)
  {
    if n > 0 {
      VerdictIsFinal(net, roster, n - 1, end);
      DisputedLater(net, roster, n - 1, end);
      ListsAsJudged(AbsorbAll(net, roster, n - 1), AbsorbAll(net, roster, end).bindings, roster, n);
    }
  }

  /** The verdict only looks at the names the roster mentions. */
  lemma {:induction false} VerdictIsLocal(a: map<string, Id>, b: map<string, Id>, roster: seq<Member>, n: nat)
    requires n <= |roster| && Pinned(a, roster, n) && Extends(a, b)
    ensures Refused(a, roster, n) == Refused(b, roster, n)
    ensures Listed(a, roster, n) == Listed(b, roster, n)
  {
    if n > 0 {
      VerdictIsLocal(a, b, roster, n - 1);
    }
  }

  /** The entries that dispute a binding. */
  function Disputing(bindings: map<string, Id>, roster: seq<Member>, n: nat): set<nat>
    requires n <= |roster|
  {
    set k: nat | k < n && Disputed(bindings, roster[k])
  }

  lemma OneMoreEntry(bindings: map<string, Id>, roster: seq<Member>, k: nat)
    requires k < |roster|
    ensures |Disputing(bindings, roster, k + 1)| == |Disputing(bindings, roster, k)| + |Refusal(bindings, roster[k])|
  {
    if Disputed(bindings, roster[k]) {
      assert Disputing(bindings, roster, k + 1) == Disputing(bindings, roster, k) + {k};
    } else {
      assert Disputing(bindings, roster, k + 1) == Disputing(bindings, roster, k);
    }
  }

  lemma {:induction false} RefusedCount(bindings: map<string, Id>, roster: seq<Member>, n: nat)
    requires n <= |roster|
    ensures |Refused(bindings, roster, n)| == |Disputing(bindings, roster, n)|
  {
    if n == 0 {
      assert Disputing(bindings, roster, 0) == {};
    } else {
      RefusedCount(bindings, roster, n - 1);
      OneMoreEntry(bindings, roster, n - 1);
    }
  }

  /** Each entry disputing a binding yields exactly one conflict, naming the
      owner that kept the name, and nothing else is reported. */
  lemma ConflictsExactly(net: Net, own: Id, name: Option<string>, roster: seq<Member>)
    ensures var after := SetRoster(net, own, name, roster).bindings;
            && RosterConflicts(net, roster) == Refused(after, roster, |roster|)
            && |RosterConflicts(net, roster)| == |Disputing(after, roster, |roster|)|
  {
    var cleared := net.(networkName := if name.Some? then name else net.networkName, members := []);
    RefusalsIgnoreName(cleared, net.(members := []), roster, |roster|);
    VerdictIsFinal(cleared, roster, |roster|, |roster|);
    RefusedCount(AbsorbAll(cleared, roster, |roster|).bindings, roster, |roster|);
  }

  /** A roster that gives no name to two keys is refused, in part, exactly when one
      of its names was pinned to another key before it came. */
  lemma ConsistentPushRefusedExactly(net: Net, roster: seq<Member>, names: map<string, Id>)
    requires forall k :: 0 <= k < |roster| && roster[k].hostname.Some? ==>
               roster[k].hostname.value in names && names[roster[k].hostname.value] == roster[k].id
    ensures RosterConflicts(net, roster) != [] <==>
            exists k :: 0 <= k < |roster| && Disputed(net.bindings, roster[k])
  {
    var after := SetRoster(net, "", None, roster).bindings;
    ConflictsExactly(net, "", None, roster);
    PushPinsFirstUse(net, "", None, roster);
    assert forall k :: 0 <= k < |roster| ==> Disputed(after, roster[k]) == Disputed(net.bindings, roster[k]);
    SomeDispute(after, roster);
  }

  lemma SomeDispute(bindings: map<string, Id>, roster: seq<Member>)
    ensures Disputing(bindings, roster, |roster|) != {} <==>
            exists k :: 0 <= k < |roster| && Disputed(bindings, roster[k])
  {
    if k: nat :| k < |roster| && Disputed(bindings, roster[k]) {
      assert k in Disputing(bindings, roster, |roster|);
    }
  }

  // Who is listed

  function Ids(members: seq<Member>): set<Id> {
    set k | 0 <= k < |members| :: members[k].id
  }

  lemma AdmittedIds(members: seq<Member>, member: Member)
    ensures Ids(Admitted(members, member)) == Ids(members) + {member.id}
  {
    var after := Admitted(members, member);
    if after != members {
      assert after[|members|] == member;
      assert forall k :: 0 <= k < |members| ==> after[k] == members[k];
    }
  }

  lemma {:induction false} ListedIds(bindings: map<string, Id>, roster: seq<Member>, n: nat)
    requires n <= |roster|
    ensures Ids(Listed(bindings, roster, n)) == Ids(roster[..n])
  {
    if n > 0 {
      ListedIds(bindings, roster, n - 1);
      var member := roster[n - 1];
      AdmittedIds(Listed(bindings, roster, n - 1),
                  if Disputed(bindings, member) then member.(hostname := None) else member);
      PrefixIds(roster, n);
    }
  }

  lemma PrefixIds(roster: seq<Member>, n: nat)
    requires 1 <= n <= |roster|
    ensures Ids(roster[..n]) == Ids(roster[..n - 1]) + {roster[n - 1].id}
  {
    assert roster[..n][n - 1] == roster[n - 1];
    assert forall k :: 0 <= k < n - 1 ==> roster[..n][k] == roster[..n - 1][k];
  }

  function CoordinatorId(net: Net): set<Id> {
    if net.coordinator.Some? then {net.coordinator.value} else {}
  }

  lemma AnchoredIds(net: Net, own: Id)
    ensures Ids(Anchored(net, own).members) == Ids(net.members) + {own} + CoordinatorId(net)
  {
    AdmittedIds(net.members, Member(own, None));
    if net.coordinator.Some? {
      AdmittedIds(Admitted(net.members, Member(own, None)), Member(net.coordinator.value, None));
    }
  }

  /** Whoever is pushed is listed, and nobody else but this node and the
      coordinator, whom no roster can leave out. */
  lemma PushListsExactly(net: Net, own: Id, name: Option<string>, roster: seq<Member>)
    ensures Ids(SetRoster(net, own, name, roster).members) == Ids(roster) + {own} + CoordinatorId(net)
  {
    var cleared := net.(networkName := if name.Some? then name else net.networkName, members := []);
    var after := AbsorbAll(cleared, roster, |roster|);
    VerdictIsFinal(cleared, roster, |roster|, |roster|);
    ListedIds(after.bindings, roster, |roster|);
    assert roster[..|roster|] == roster;
    AbsorbAllCoordinator(cleared, roster, |roster|);
    AnchoredIds(after, own);
  }

  // Runs

  datatype Push = Push(told: Option<string>, roster: seq<Member>)

  function PushAll(net: Net, own: Id, pushes: seq<Push>, n: nat): Net
    requires n <= |pushes|
  {
    if n == 0 then net else SetRoster(PushAll(net, own, pushes, n - 1), own, pushes[n - 1].told, pushes[n - 1].roster)
  }

  /** Over any sequence of pushes, honest or not, no binding moves or goes. */
  lemma {:induction false} PushesOnlyAdd(net: Net, own: Id, pushes: seq<Push>, n: nat)
    requires n <= |pushes|
    ensures Extends(net.bindings, PushAll(net, own, pushes, n).bindings)
    ensures PushAll(net, own, pushes, n).coordinator == net.coordinator
  {
    if n > 0 {
      PushesOnlyAdd(net, own, pushes, n - 1);
      var before := PushAll(net, own, pushes, n - 1);
      PushPinsFirstUse(before, own, pushes[n - 1].told, pushes[n - 1].roster);
      PushCoordinator(before, own, pushes[n - 1].told, pushes[n - 1].roster);
    }
  }

  lemma PushCoordinator(net: Net, own: Id, name: Option<string>, roster: seq<Member>)
    ensures SetRoster(net, own, name, roster).coordinator == net.coordinator
  {
    var cleared := net.(networkName := if name.Some? then name else net.networkName, members := []);
    AbsorbAllCoordinator(cleared, roster, |roster|);
  }

  /** A push onto a table that already binds all its names changes no binding. */
  lemma {:induction false} PinnedPushBindsNothing(net: Net, roster: seq<Member>, n: nat)
    requires n <= |roster| && Pinned(net.bindings, roster, n)
    ensures AbsorbAll(net, roster, n).bindings == net.bindings
  {
    if n > 0 {
      PinnedPushBindsNothing(net, roster, n - 1);
    }
  }

  lemma PushMembers(net: Net, own: Id, name: Option<string>, roster: seq<Member>)
    ensures var after := SetRoster(net, own, name, roster);
            after.members == Anchored(net.(members := Listed(after.bindings, roster, |roster|)), own).members
  {
    var cleared := net.(networkName := if name.Some? then name else net.networkName, members := []);
    VerdictIsFinal(cleared, roster, |roster|, |roster|);
    AbsorbAllCoordinator(cleared, roster, |roster|);
  }

  /** A roster that has been pushed once gets the same answer whenever it is
      pushed again, whatever was pushed in between: the same members, the same
      names, the same conflicts, and nothing new bound. */
  lemma ReplayIsIdempotent(net: Net, own: Id, name: Option<string>, roster: seq<Member>, between: seq<Push>)
    ensures var first := SetRoster(net, own, name, roster);
            var later := PushAll(first, own, between, |between|);
            var replayed := SetRoster(later, own, name, roster);
            && replayed.members == first.members
            && replayed.bindings == later.bindings
            && RosterConflicts(later, roster) == RosterConflicts(net, roster)
  {
    var first := SetRoster(net, own, name, roster);
    var later := PushAll(first, own, between, |between|);
    PushPinsFirstUse(net, own, name, roster);
    PushesOnlyAdd(first, own, between, |between|);
    ReplayAgrees(net, first, later, own, name, roster);
  }

  lemma ReplayAgrees(net: Net, first: Net, later: Net, own: Id, name: Option<string>, roster: seq<Member>)
    requires first == SetRoster(net, own, name, roster) && Pinned(first.bindings, roster, |roster|)
    requires Extends(first.bindings, later.bindings) && later.coordinator == first.coordinator
    ensures var replayed := SetRoster(later, own, name, roster);
            && replayed.members == first.members
            && replayed.bindings == later.bindings
            && RosterConflicts(later, roster) == RosterConflicts(net, roster)
  {
    PinnedLater(first.bindings, later.bindings, roster);
    ReplayBinds(later, own, name, roster);
    VerdictIsLocal(first.bindings, later.bindings, roster, |roster|);
    ConflictsExactly(net, own, name, roster);
    ConflictsExactly(later, own, name, roster);
    PushMembers(net, own, name, roster);
    PushMembers(later, own, name, roster);
    PushCoordinator(net, own, name, roster);
  }

  lemma PinnedLater(a: map<string, Id>, b: map<string, Id>, roster: seq<Member>)
    requires Pinned(a, roster, |roster|) && Extends(a, b)
    ensures Pinned(b, roster, |roster|)
  {
  }

  lemma ReplayBinds(later: Net, own: Id, name: Option<string>, roster: seq<Member>)
    requires Pinned(later.bindings, roster, |roster|)
    ensures SetRoster(later, own, name, roster).bindings == later.bindings
  {
    var cleared := later.(networkName := if name.Some? then name else later.networkName, members := []);
    PinnedPushBindsNothing(cleared, roster, |roster|);
  }

  /** The operations that keep the network, and force nothing. */
  predicate Unforced(op: Op) {
    match op
    case CreateNetwork(_, _, _, _) => false
    case JoinNetwork(_, _, _, _) => false
    case LeaveNetwork => false
    case ClaimHostname(_, _, force) => !force
    case _ => true
  }

  lemma DoOnlyAdds(net: Net, op: Op)
    requires Sound(net) && Allowed(net, op) && Unforced(op)
    ensures Extends(net.bindings, Do(net, op).bindings)
  {
    match op
    case ClaimHostname(claimant, requested, _) => ClaimChangesOnlyTheClaimant(net, claimant, requested);
    case PushRoster(own, name, roster) => PushPinsFirstUse(net, own, name, roster);
    case _ =>
  }

  /** Within one network and without force, a name never moves or goes: not by
      claims, removals or departures, not by any roster. */
  lemma RunOnlyAdds(states: seq<Net>, ops: seq<Op>, n: nat)
    requires IsRun(Do, (t, op) => Allowed(t, op) && Unforced(op), states, ops)
    requires Sound(states[0]) && n < |states|
    ensures Extends(states[0].bindings, states[n].bindings)
  {
    var first := states[0].bindings;
    forall t, op | Sound(t) && Extends(first, t.bindings) && Allowed(t, op) && Unforced(op)
      ensures Sound(Do(t, op)) && Extends(first, Do(t, op).bindings)
    {
      DoKeeps(t, op);
      DoOnlyAdds(t, op);
      ExtendsAgain(first, t.bindings, Do(t, op).bindings);
    }
    Keeps(Do, (t, op) => Allowed(t, op) && Unforced(op), t => Sound(t) && Extends(first, t.bindings), states, ops, n);
  }
}
