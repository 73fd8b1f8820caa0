/** What resolvers answer over time. A resolver looks at the roster three times for
    one answer -- for the hostnames, for the members, and for the network's name --
    and anything may happen in between. */
module Resolution {
  import opened Agreement
  import opened Basics
  import opened Dns
  import opened Membership
  import opened Names
  import opened Naming
  import opened Network
  import opened Runs
  import opened Trust

  /** What a node has gathered for one answer. */
  datatype Sight = Sight(node: Id, named: map<Id, string>, listed: seq<Id>, network: Option<string>)

  /** Its hostnames are those its roster shows at this moment. */
  ghost predicate NamesRead(s: System, x: Sight) {
    && Sees(s, x.node)
    && forall id :: id in x.named ==> Member(id, Some(x.named[id])) in ViewOf(s, x.node).members
  }

  /** Its members, in whatever order, are those its roster has at this moment. */
  ghost predicate MembersRead(s: System, x: Sight) {
    && Sees(s, x.node)
    && forall id :: id in x.listed ==> id in Ids(ViewOf(s, x.node).members)
  }

  function Replied(x: Sight, q: Question): Option<Id> {
    Asked(Resolvable(Pieced(x.named, x.listed), |x.listed|), x.network, q)
  }

  /** The steps by which the coordinator never unbinds a name. */
  predicate KeepsNames(step: Step) {
    !step.Establish? && !step.Resign? && !step.JoinElsewhere? && !(step.RenameSelf? && step.force)
  }

  lemma StepKeepsNames(s: System, step: Step)
    requires Good(s) && Possible(s, step) && KeepsNames(step)
    ensures Extends(s.table.bindings, Apply(s, step).table.bindings)
  {
    match step
    case Admit(token, bearer, now, wanted, _, _) => AdmitVouches(s.known, s.table, token, bearer, now, wanted);
    case Rename(claimant, requested) => ClaimVouches(s.known, s.table, claimant, requested);
    case RenameSelf(requested, _) => ClaimVouches(s.known, s.table, s.coordinator, requested);
    case _ =>
  }

  lemma KeysStay(s: System, step: Step)
    ensures Apply(s, step).known == s.known && Apply(s, step).coordinator == s.coordinator
  {
  }

  lemma {:induction false} SameKeys(states: seq<System>, steps: seq<Step>, n: nat)
    requires Happened(states, steps) && n < |states|
    ensures states[n].known == states[0].known
  {
    if n > 0 {
      SameKeys(states, steps, n - 1);
      KeysStay(states[n - 1], steps[n - 1]);
      assert states[n] == Apply(states[n - 1], steps[n - 1]);
    }
  }

  lemma ReadMemberIsKnown(s: System, x: Sight, id: Id)
    requires Good(s) && MembersRead(s, x) && id in x.listed
    ensures id in s.known
  {
    ViewIsVouched(s, x.node);
    var members := ViewOf(s, x.node).members;
    var m :| m in members && m.id == id;
    assert Vouched(s.known, s.table.bindings, m);
  }

  /** What was read at `m` and `k` is vouched for at `n`. */
  lemma PiecedIsVouched(
    states: seq<System>, steps: seq<Step>, x: Sight, m: nat, k: nat, n: nat, i: nat)
    requires Happened(states, steps) && m < |states| && k < |states| && n < |states| && i < |x.listed|
    requires NamesRead(states[m], x) && MembersRead(states[k], x)
    requires Extends(states[m].table.bindings, states[n].table.bindings)
    ensures Vouched(states[n].known, states[n].table.bindings, Pieced(x.named, x.listed)[i])
  {
    var id := x.listed[i];
    RunStaysGood(states, steps, m);
    RunStaysGood(states, steps, k);
    SameKeys(states, steps, k);
    SameKeys(states, steps, n);
    ReadMemberIsKnown(states[k], x, id);
    if id in x.named {
      ViewIsVouched(states[m], x.node);
      assert Vouched(states[m].known, states[m].table.bindings, Member(id, Some(x.named[id])));
    }
  }

  lemma RepliedFrom(x: Sight, q: Question) returns (i: nat)
    requires Replied(x, q).Some?
    ensures i < |x.listed| && x.listed[i] == Replied(x, q).value
    ensures HostInZone(q.qname, x.network).Some?
    ensures Resolves(Pieced(x.named, x.listed)[i], HostInZone(q.qname, x.network).value)
  {
    var members := Pieced(x.named, x.listed);
    AskedIsEntry(Resolvable(members, |members|), x.network, q);
    var e := Entry(HostInZone(q.qname, x.network).value, Replied(x, q).value);
    ResolvableExactly(members, |members|, e);
    i :| 0 <= i < |members| && members[i].id == e.id && Resolves(members[i], e.name);
  }

  /** Over any run, two answers to one question name one key, whichever nodes give
      them, whenever, and whatever happens between their looks at the roster -- as
      long as what the coordinator had bound when the first hostnames were read is
      still bound when the second are. */
  lemma NamesAgreeThroughout(
    states: seq<System>, steps: seq<Step>, x: Sight, m: nat, k: nat, y: Sight, n: nat, l: nat, q: Question)
    requires Happened(states, steps) && m <= n < |states| && k < |states| && l < |states|
    requires NamesRead(states[m], x) && MembersRead(states[k], x)
    requires NamesRead(states[n], y) && MembersRead(states[l], y)
    requires Extends(states[m].table.bindings, states[n].table.bindings)
    ensures Replied(x, q).Some? && Replied(y, q).Some? ==> Replied(x, q) == Replied(y, q)
  {
    if Replied(x, q).Some? && Replied(y, q).Some? {
      var i := RepliedFrom(x, q);
      var j := RepliedFrom(y, q);
      PiecedIsVouched(states, steps, x, m, k, n, i);
      PiecedIsVouched(states, steps, y, n, l, n, j);
      OneLabelEverywhere(q.qname, x.network, y.network);
      RunStaysGood(states, steps, n);
      OneKeyPerName(states[n].known, states[n].table.bindings, Pieced(x.named, x.listed)[i],
                    Pieced(y.named, y.listed)[j], HostInZone(q.qname, x.network).value);
    }
  }

  /** So it is when the coordinator has not left or created a network in between, or
      joined another, nor forced a claim. */
  lemma {:induction false} NamesKept(states: seq<System>, steps: seq<Step>, m: nat, n: nat)
    requires Happened(states, steps) && m <= n < |states|
    requires forall i :: m <= i < n ==> KeepsNames(steps[i])
    ensures Extends(states[m].table.bindings, states[n].table.bindings)
  {
    if m < n {
      NamesKept(states, steps, m, n - 1);
      RunStaysGood(states, steps, n - 1);
      StepKeepsNames(states[n - 1], steps[n - 1]);
      assert states[n] == Apply(states[n - 1], steps[n - 1]);
      ExtendsAgain(states[m].table.bindings, states[n - 1].table.bindings, states[n].table.bindings);
    }
  }
}
