/** The retry task and the shutdown that stops it, step by step: every point at
    which the two can interleave, over the one rule the system resolver holds
    (daemon/src/registration.rs). */
module Shutdown {
  import opened Basics
  import opened Registration
  import opened Runs

  /** The address registered with the system resolver, as text. */
  type Target = string

  /** Where the retry task is. While waiting or probing it asks first whether a stop is
      in, and only then whether the work is ready. */
  datatype Phase =
    | Idle
    | Waiting(checked: bool)
    | Probing(checked: bool)
    | Found(target: Target)
    | Cleared(target: Target)
    | Marked(target: Target)
    | Registering(target: Target, landed: bool)
    | Ended

  datatype Stopper = Running | Asked | Joined | TimedOut | Released(inTime: bool, clean: bool) | Gone

  datatype Event =
    | ProbeFound(found: Target)
    | MarkedAttempted
    | RegisterStarted(asked: Target)
    | RuleAdded
    | StopSent
    | ZoneReleased

  /** `first` until startup's own attempt is over; `task` once the retry runs;
      `window` says that the stop came after the last check and before it
      registered; `orphan` is a command cut off that has yet to land. A registration claims the
      zone once, so it lands once at most. */
  datatype Machine = Machine(
    phase: Phase,
    first: bool,
    task: bool,
    retry: U32,
    waits: seq<nat>,
    stopper: Stopper,
    window: bool,
    attempted: bool,
    rule: Option<Target>,
    orphan: Option<Target>,
    trace: seq<Event>)

  const Initial := Machine(Idle, true, false, 0, [], Running, false, false, None, None, [])

  datatype Step =
    // Startup
    | NoCandidates
    | FirstProbe
    // The retry task, and startup's one attempt
    | CheckStop
    | WorkPending
    | WaitOver
    | ProbeFinds(target: Target)
    | ProbeFails
    | Mark
    | Begin
    | Land
    | Succeed
    | Fail
    | Cancelled
    | OrphanLands
    // Shutdown
    | Stop
    | Join
    | TimeOut
    | Release(removed: bool)
    | Dropped

  /** A stop has been asked for, or nobody is left who could ask. */
  predicate StopVisible(m: Machine) {
    m.stopper != Running
  }

  predicate PastLastCheck(m: Machine) {
    m.phase.Cleared? || m.phase.Marked?
  }

  /** A command is running that has yet to land. */
  predicate InFlight(m: Machine) {
    m.phase.Registering? && !m.phase.landed
  }

  function Log(m: Machine, e: Event): seq<Event> {
    m.trace + [e]
  }

  /** After a failed try: startup hands over to a retry task, and that to its next
      wait. */
  function TryAgain(m: Machine): Machine {
    var retry := if m.first then 1 else SaturatingSucc(m.retry);
    m.(phase := Waiting(false), first := false, task := true, retry := retry, waits := m.waits + [Delay(retry)])
  }

  predicate Enabled(m: Machine, step: Step) {
    match step
    case NoCandidates => m.phase.Idle?
    case FirstProbe => m.phase.Idle?
    case CheckStop => ((m.phase.Waiting? || m.phase.Probing?) && !m.phase.checked) || m.phase.Found?
    case WorkPending => (m.phase.Waiting? || m.phase.Probing?) && m.phase.checked
    case WaitOver => m.phase.Waiting? && m.phase.checked
    case ProbeFinds(_) => m.phase.Probing? && m.phase.checked
    case ProbeFails => m.phase.Probing? && m.phase.checked
    case Mark => m.phase.Cleared?
    case Begin => m.phase.Marked?
    case Land => InFlight(m)
    case Succeed => m.phase.Registering? && m.phase.landed
    case Fail => m.phase.Registering?
    case Cancelled => m.stopper.TimedOut? || (m.stopper.Released? && !m.stopper.inTime)
    case OrphanLands => m.orphan.Some?
    case Stop => m.stopper.Running? && !m.first
    case Join => m.stopper.Asked? && m.phase.Ended?
    case TimeOut => m.stopper.Asked?
    case Release(removed) => m.stopper.Joined? || m.stopper.TimedOut?
    case Dropped => m.stopper.Running? && !m.first
  }

  function Apply(m: Machine, step: Step): Machine {
    match step
    case NoCandidates => m.(phase := Ended, first := false)
    case FirstProbe => m.(phase := Probing(true))
    case CheckStop =>
      if StopVisible(m) then m.(phase := Ended)
      else if m.phase.Waiting? then m.(phase := Waiting(true))
      else if m.phase.Probing? then m.(phase := Probing(true))
      else if m.phase.Found? then m.(phase := Cleared(m.phase.target))
      else m
    case WorkPending =>
      if m.phase.Waiting? then m.(phase := Waiting(false)) else m.(phase := Probing(m.first))
    case WaitOver => m.(phase := Probing(false))
    case ProbeFinds(target) =>
      m.(phase := if m.first then Cleared(target) else Found(target), trace := Log(m, ProbeFound(target)))
    case ProbeFails => TryAgain(m)
    case Mark =>
      if m.phase.Cleared? then m.(phase := Marked(m.phase.target), attempted := true, trace := Log(m, MarkedAttempted))
      else m
    case Begin =>
      if m.phase.Marked?
      then m.(phase := Registering(m.phase.target, false), trace := Log(m, RegisterStarted(m.phase.target)))
      else m
    case Land =>
      if m.phase.Registering?
      then m.(phase := Registering(m.phase.target, true), rule := Some(m.phase.target), trace := Log(m, RuleAdded))
      else m
    case Succeed => m.(phase := Ended, first := false)
    case Fail => TryAgain(m)
    case Cancelled =>
      m.(phase := Ended, orphan := if InFlight(m) then Some(m.phase.target) else m.orphan)
    case OrphanLands => m.(rule := m.orphan, orphan := None, trace := Log(m, RuleAdded))
    case Stop =>
      m.(stopper := if m.task then Asked else Joined, window := PastLastCheck(m), trace := Log(m, StopSent))
    case Join => m.(stopper := Joined)
    case TimeOut => m.(stopper := TimedOut)
    case Release(removed) =>
      m.(stopper := Released(m.stopper.Joined?, removed || !m.attempted),
         rule := if m.attempted && removed then None else m.rule,
         trace := Log(m, ZoneReleased))
    case Dropped => m.(stopper := Gone, window := PastLastCheck(m), trace := Log(m, StopSent))
  }

  // What holds throughout

  /** A probe found this target, and nothing has been registered since. */
  ghost predicate FreshlyFound(trace: seq<Event>, n: nat, target: Target)
    requires n <= |trace|
  {
    exists j :: 0 <= j < n && trace[j] == ProbeFound(target) && NothingStarted(trace, j, n)
  }

  predicate NothingStarted(trace: seq<Event>, j: nat, n: nat)
    requires n <= |trace|
  {
    forall k :: j <= k < n ==> !trace[k].RegisterStarted?
  }

  /** Every registration was preceded by a successful probe for its target, its
      own and no earlier one's, and by setting `attempted`. */
  ghost predicate Founded(trace: seq<Event>) {
    forall i :: 0 <= i < |trace| && trace[i].RegisterStarted? ==>
      FreshlyFound(trace, i, trace[i].asked) && MarkedAttempted in trace[..i]
  }

  predicate StopIn(trace: seq<Event>, n: nat)
    requires n <= |trace|
  {
    StopSent in trace[..n]
  }

  /** A registration that started after the stop was sent. */
  predicate LateStart(trace: seq<Event>, i: nat)
    requires i < |trace|
  {
    trace[i].RegisterStarted? && StopIn(trace, i)
  }

  ghost predicate OneLateStart(trace: seq<Event>) {
    forall i, j :: 0 <= i < j < |trace| ==> !(LateStart(trace, i) && LateStart(trace, j))
  }

  ghost predicate NoLateStart(trace: seq<Event>) {
    forall i :: 0 <= i < |trace| ==> !LateStart(trace, i)
  }

  ghost predicate WaitsRight(m: Machine) {
    && (forall i :: 0 <= i < |m.waits| ==> m.waits[i] == Wait(i + 1))
    && (!m.first && m.task ==> |m.waits| > 0 && m.retry == Counted(|m.waits|))
    && (m.first || !m.task ==> m.waits == [])
  }

  ghost predicate PhaseRight(m: Machine) {
    && (m.first ==> m.stopper.Running? && !m.task && !m.phase.Ended? && !m.phase.Waiting?)
    && (m.phase.Idle? ==> m.first && m.trace == [])
    && (!m.first && !m.task ==> m.phase.Ended?)
    && (m.phase.Cleared? || m.phase.Marked? || m.phase.Found? ==> FreshlyFound(m.trace, |m.trace|, m.phase.target))
    && (m.phase.Registering? || m.phase.Marked? || m.rule.Some? || m.orphan.Some? ==> m.attempted)
    && (m.attempted <==> MarkedAttempted in m.trace)
  }

  ghost predicate StopRight(m: Machine) {
    && (m.stopper.Running? <==> StopSent !in m.trace)
    && OneLateStart(m.trace)
    && (!(m.phase.Ended? || m.phase.Registering? || m.phase == Waiting(false)) ==> NoLateStart(m.trace))
    && (!m.stopper.Running? && !m.window ==> NoLateStart(m.trace) && !PastLastCheck(m))
  }

  /** Nothing is started, and nothing lands, once the zone has been handed back. */
  predicate QuietAfterRelease(trace: seq<Event>) {
    forall i, j :: 0 <= i < j < |trace| && trace[i].ZoneReleased? ==>
      !trace[j].RegisterStarted? && !trace[j].RuleAdded?
  }

  ghost predicate ReleaseRight(m: Machine) {
    && (m.stopper.Joined? || (m.stopper.Released? && m.stopper.inTime) ==>
          m.phase.Ended? && m.orphan.None? && QuietAfterRelease(m.trace))
    && (m.stopper.Released? && m.stopper.inTime && m.stopper.clean ==> m.rule.None?)
    && (m.orphan.Some? ==> m.stopper.TimedOut? || (m.stopper.Released? && !m.stopper.inTime))
    && (!m.stopper.Released? ==> ZoneReleased !in m.trace)
  }

  ghost predicate Right(m: Machine) {
    Founded(m.trace) && WaitsRight(m) && PhaseRight(m) && StopRight(m) && ReleaseRight(m)
  }

  // The trace grows at its end

  lemma FoundLater(trace: seq<Event>, n: nat, target: Target, e: Event)
    requires n <= |trace| && FreshlyFound(trace, n, target)
    ensures FreshlyFound(trace + [e], n, target)
  {
    var j :| 0 <= j < n && trace[j] == ProbeFound(target) && NothingStarted(trace, j, n);
    assert NothingStarted(trace + [e], j, n);
    assert (trace + [e])[j] == ProbeFound(target);
  }

  lemma FoundPast(trace: seq<Event>, target: Target, e: Event)
    requires FreshlyFound(trace, |trace|, target) && !e.RegisterStarted?
    ensures FreshlyFound(trace + [e], |trace| + 1, target)
  {
    var j :| 0 <= j < |trace| && trace[j] == ProbeFound(target) && NothingStarted(trace, j, |trace|);
    assert NothingStarted(trace + [e], j, |trace| + 1);
    assert (trace + [e])[j] == ProbeFound(target);
  }

  lemma FoundNow(trace: seq<Event>, target: Target)
    ensures FreshlyFound(trace + [ProbeFound(target)], |trace| + 1, target)
  {
    var longer := trace + [ProbeFound(target)];
    assert longer[|trace|] == ProbeFound(target) && NothingStarted(longer, |trace|, |trace| + 1);
  }

  lemma FoundedGrows(trace: seq<Event>, e: Event)
    requires Founded(trace)
    requires e.RegisterStarted? ==> FreshlyFound(trace, |trace|, e.asked) && MarkedAttempted in trace
    ensures Founded(trace + [e])
  {
    var longer := trace + [e];
    forall i | 0 <= i < |longer| && longer[i].RegisterStarted?
      ensures FreshlyFound(longer, i, longer[i].asked) && MarkedAttempted in longer[..i]
    {
      FoundLater(trace, i, longer[i].asked, e);
      assert longer[..i] == trace[..i];
      assert trace[..|trace|] == trace;
    }
  }

  lemma LateGrows(trace: seq<Event>, e: Event, i: nat)
    requires i < |trace|
    ensures LateStart(trace + [e], i) == LateStart(trace, i)
  {
    assert (trace + [e])[..i] == trace[..i];
  }

  lemma NoLateGrows(trace: seq<Event>, e: Event)
    requires NoLateStart(trace) && (e.RegisterStarted? ==> StopSent !in trace)
    ensures NoLateStart(trace + [e])
  {
    var longer := trace + [e];
    forall i | 0 <= i < |longer|
      ensures !LateStart(longer, i)
    {
      assert longer[..|trace|] == trace;
      if i < |trace| {
        LateGrows(trace, e, i);
      }
    }
  }

  lemma OneLateGrows(trace: seq<Event>, e: Event)
    requires OneLateStart(trace) && (e.RegisterStarted? ==> NoLateStart(trace))
    ensures OneLateStart(trace + [e])
  {
    var longer := trace + [e];
    forall i, j | 0 <= i < j < |longer|
      ensures !(LateStart(longer, i) && LateStart(longer, j))
    {
      LateGrows(trace, e, i);
      if j < |trace| {
        LateGrows(trace, e, j);
      }
    }
  }

  lemma UnstoppedIsNotLate(trace: seq<Event>)
    requires StopSent !in trace
    ensures NoLateStart(trace)
  {
  }

  // Each step keeps it

  lemma LoggedKeeps(m: Machine, e: Event)
    requires Right(m) && !e.RegisterStarted?
    ensures Founded(Log(m, e)) && OneLateStart(Log(m, e))
    ensures NoLateStart(m.trace) ==> NoLateStart(Log(m, e))
  {
    FoundedGrows(m.trace, e);
    OneLateGrows(m.trace, e);
    if NoLateStart(m.trace) {
      NoLateGrows(m.trace, e);
    }
  }

  lemma CheckKeeps(m: Machine, step: Step)
    requires Right(m) && Enabled(m, step)
    requires step.NoCandidates? || step.FirstProbe? || step.CheckStop? || step.WorkPending? || step.WaitOver?
    ensures Right(Apply(m, step))
  {
    if !StopVisible(m) {
      UnstoppedIsNotLate(m.trace);
    }
  }

  lemma FindKeeps(m: Machine, step: Step)
    requires Right(m) && Enabled(m, step) && step.ProbeFinds?
    ensures Right(Apply(m, step))
  {
    LoggedKeeps(m, ProbeFound(step.target));
    FoundNow(m.trace, step.target);
  }

  lemma TryAgainKeeps(m: Machine, step: Step)
    requires Right(m) && Enabled(m, step) && (step.ProbeFails? || step.Fail?)
    ensures Right(Apply(m, step))
  {
    TryAgainWaits(m);
  }

  /** The next wait is the right one for how many there have been. */
  lemma TryAgainWaits(m: Machine)
    requires WaitsRight(m) && (m.first || m.task)
    ensures WaitsRight(TryAgain(m))
  {
    DelayExactly(|m.waits| + 1);
  }

  lemma MarkKeeps(m: Machine, step: Step)
    requires Right(m) && Enabled(m, step) && step.Mark?
    ensures Right(Apply(m, step))
  {
    LoggedKeeps(m, MarkedAttempted);
    FoundPast(m.trace, m.phase.target, MarkedAttempted);
  }

  lemma BeginKeeps(m: Machine, step: Step)
    requires Right(m) && Enabled(m, step) && step.Begin?
    ensures Right(Apply(m, step))
  {
    var e := RegisterStarted(m.phase.target);
    FoundedGrows(m.trace, e);
    OneLateGrows(m.trace, e);
    if StopSent !in m.trace {
      NoLateGrows(m.trace, e);
    }
  }

  lemma LandKeeps(m: Machine, step: Step)
    requires Right(m) && Enabled(m, step) && (step.Land? || step.OrphanLands?)
    ensures Right(Apply(m, step))
  {
    LoggedKeeps(m, RuleAdded);
    if FreshlyHeld(m) {
      FoundPast(m.trace, m.phase.target, RuleAdded);
    }
  }

  /** The phases that hold a target not registered yet. */
  predicate FreshlyHeld(m: Machine) {
    m.phase.Found? || m.phase.Cleared? || m.phase.Marked?
  }

  lemma EndKeeps(m: Machine, step: Step)
    requires Right(m) && Enabled(m, step) && (step.Succeed? || step.Cancelled? || step.Join? || step.TimeOut?)
    ensures Right(Apply(m, step))
  {
  }

  lemma StopKeeps(m: Machine, step: Step)
    requires Right(m) && Enabled(m, step) && (step.Stop? || step.Dropped?)
    ensures Right(Apply(m, step))
  {
    UnstoppedIsNotLate(m.trace);
    LoggedKeeps(m, StopSent);
    if FreshlyHeld(m) {
      FoundPast(m.trace, m.phase.target, StopSent);
    }
  }

  lemma ReleaseKeeps(m: Machine, step: Step)
    requires Right(m) && Enabled(m, step) && step.Release?
    ensures Right(Apply(m, step))
  {
    LoggedKeeps(m, ZoneReleased);
    if FreshlyHeld(m) {
      FoundPast(m.trace, m.phase.target, ZoneReleased);
    }
  }

  lemma ApplyKeeps(m: Machine, step: Step)
    requires Right(m) && Enabled(m, step)
    ensures Right(Apply(m, step))
  {
    match step
    case ProbeFinds(_) => FindKeeps(m, step);
    case ProbeFails => TryAgainKeeps(m, step);
    case Fail => TryAgainKeeps(m, step);
    case Mark => MarkKeeps(m, step);
    case Begin => BeginKeeps(m, step);
    case Land => LandKeeps(m, step);
    case OrphanLands => LandKeeps(m, step);
    case Stop => StopKeeps(m, step);
    case Dropped => StopKeeps(m, step);
    case Release(_) => ReleaseKeeps(m, step);
    case Succeed => EndKeeps(m, step);
    case Cancelled => EndKeeps(m, step);
    case Join => EndKeeps(m, step);
    case TimeOut => EndKeeps(m, step);
    case _ => CheckKeeps(m, step);
  }

  /** Any interleaving at all, from startup on. */
  ghost predicate Happened(states: seq<Machine>, steps: seq<Step>) {
    IsRun(Apply, Enabled, states, steps) && states[0] == Initial
  }

  lemma RunIsRight(states: seq<Machine>, steps: seq<Step>, n: nat)
    requires Happened(states, steps) && n < |states|
    ensures Right(states[n])
  {
    forall m, step | Right(m) && Enabled(m, step)
      ensures Right(Apply(m, step))
    {
      ApplyKeeps(m, step);
    }
    Keeps(Apply, Enabled, m => Right(m), states, steps, n);
  }

  // What every interleaving keeps to

  /** Every registration follows a successful probe of its own and follows the
      mark that makes shutdown undo it; and the waits so far are min(2^n, 60). */
  lemma RegistrationsAreFounded(states: seq<Machine>, steps: seq<Step>, n: nat)
    requires Happened(states, steps) && n < |states|
    ensures var m := states[n];
            && Founded(m.trace)
            && forall i :: 0 <= i < |m.waits| ==> m.waits[i] == Wait(i + 1)
  {
    RunIsRight(states, steps, n);
  }

  /** At most one registration starts after the stop is sent, and that only if the
      stop came between the retry task's last check and the call. */
  lemma AtMostOneLateStart(states: seq<Machine>, steps: seq<Step>, n: nat)
    requires Happened(states, steps) && n < |states|
    ensures var m := states[n];
            && OneLateStart(m.trace)
            && (!m.window ==> NoLateStart(m.trace))
  {
    RunIsRight(states, steps, n);
    var m := states[n];
    if m.stopper.Running? {
      UnstoppedIsNotLate(m.trace);
    }
  }

  /** If the retry task ends within the limit, nothing is registering or will, and no
      rule lands, once the zone is handed back; so unless removing it failed, no
      rule is left. */
  lemma StoppedInTimeLeavesNothing(states: seq<Machine>, steps: seq<Step>, n: nat)
    requires Happened(states, steps) && n < |states|
    requires states[n].stopper.Released? && states[n].stopper.inTime
    ensures var m := states[n];
            && m.phase.Ended? && m.orphan.None? && QuietAfterRelease(m.trace)
            && (m.stopper.clean ==> m.rule.None?)
            && forall step :: !Enabled(m, step)
  {
    RunIsRight(states, steps, n);
    ReleasedInTimeIsFinal(states[n]);
  }

  lemma ReleasedInTimeIsFinal(m: Machine)
    requires Right(m) && m.stopper.Released? && m.stopper.inTime
    ensures m.phase.Ended? && m.orphan.None? && QuietAfterRelease(m.trace)
    ensures m.stopper.clean ==> m.rule.None?
    ensures forall step :: !Enabled(m, step)
  {
  }

  // Past the limit

  /** Nothing lands in the trace from `n` on. */
  predicate NothingLands(trace: seq<Event>, n: nat) {
    forall i :: n <= i < |trace| ==> !trace[i].RuleAdded?
  }

  /** Nothing that can happen from here adds the rule again. */
  ghost predicate NeverAgain(m: Machine) {
    forall end :: Leads(Apply, Enabled, m, end) ==> NothingLands(end.trace, |m.trace|)
  }

  /** The machine can still add the rule: a command has yet to land, running or cut
      off, or the last check is already behind. */
  predicate CanStillAdd(m: Machine) {
    m.orphan.Some? || PastLastCheck(m) || InFlight(m)
  }

  /** The machine has been released, cannot add the rule, and has not since `n`. */
  predicate Spent(m: Machine, n: nat) {
    m.stopper.Released? && !m.first && !CanStillAdd(m) && NothingLands(m.trace, n)
  }

  lemma SpentStays(m: Machine, n: nat, step: Step)
    requires Spent(m, n) && Enabled(m, step)
    ensures Spent(Apply(m, step), n)
  {
  }

  lemma SpentForever(m: Machine, end: Machine)
    requires Spent(m, |m.trace|) && Leads(Apply, Enabled, m, end)
    ensures NothingLands(end.trace, |m.trace|)
  {
    var states, ops :| IsRun(Apply, Enabled, states, ops) && states[0] == m && states[|ops|] == end;
    forall t, step | Spent(t, |m.trace|) && Enabled(t, step)
      ensures Spent(Apply(t, step), |m.trace|)
    {
      SpentStays(t, |m.trace|, step);
    }
    Keeps(Apply, Enabled, t => Spent(t, |m.trace|), states, ops, |ops|);
  }

  /** The next step towards the rule. */
  function Towards(m: Machine): Step {
    if m.orphan.Some? then OrphanLands
    else if m.phase.Cleared? then Mark
    else if m.phase.Marked? then Begin
    else Land
  }

  function ToGo(m: Machine): nat {
    if m.orphan.Some? then 0 else if m.phase.Cleared? then 2 else if m.phase.Marked? then 1 else 0
  }

  lemma TowardsIsEnabled(m: Machine)
    requires CanStillAdd(m)
    ensures var next := Apply(m, Towards(m));
            && Enabled(m, Towards(m)) && |next.trace| == |m.trace| + 1
            && (ToGo(m) == 0 ==> next.trace[|m.trace|] == RuleAdded)
            && (ToGo(m) > 0 ==> CanStillAdd(next) && ToGo(next) == ToGo(m) - 1)
  {
  }

  /** Whatever can still add the rule does, in at most three steps. */
  lemma {:induction false} StillAdds(m: Machine) returns (end: Machine)
    requires CanStillAdd(m)
    ensures Leads(Apply, Enabled, m, end) && |end.trace| > |m.trace| && end.trace[|end.trace| - 1] == RuleAdded
    decreases ToGo(m)
  {
    TowardsIsEnabled(m);
    end := Apply(m, Towards(m));
    if ToGo(m) == 0 {
      LeadsNowhere<Machine, Step>(Apply, Enabled, end);
    } else {
      end := StillAdds(end);
    }
    LeadsFrom(Apply, Enabled, m, Towards(m), end);
  }

  /** After a release, in time or past the limit, the rule can never come back if
      and only if every command begun, cut off or not, has landed or failed and the
      retry is not past its last check -- in every reachable state. */
  lemma NeverAgainExactly(states: seq<Machine>, steps: seq<Step>, n: nat)
    requires Happened(states, steps) && n < |states|
    ensures states[n].stopper.Released? ==> (NeverAgain(states[n]) <==> !CanStillAdd(states[n]))
  {
    RunIsRight(states, steps, n);
    var m := states[n];
    if CanStillAdd(m) {
      var end := StillAdds(m);
    } else if m.stopper.Released? {
      forall end | Leads(Apply, Enabled, m, end)
        ensures NothingLands(end.trace, |m.trace|)
      {
        SpentForever(m, end);
      }
    }
  }

  /** The retry's first round, up to a command the system is carrying out. */
  lemma CommandRuns(target: Target) returns (m: Machine)
    ensures Leads(Apply, Enabled, Initial, m) && m.phase == Registering(target, false) && m.stopper == Running
    ensures m.task && !m.first && m.rule.None? && m.orphan.None? && m.attempted
  {
    LeadsNowhere<Machine, Step>(Apply, Enabled, Initial);
    LeadsOn(Apply, Enabled, Initial, Initial, FirstProbe);
    m := Apply(Initial, FirstProbe);
    LeadsOn(Apply, Enabled, Initial, m, ProbeFails);
    m := Apply(m, ProbeFails);
    LeadsOn(Apply, Enabled, Initial, m, CheckStop);
    m := Apply(m, CheckStop);
    LeadsOn(Apply, Enabled, Initial, m, WaitOver);
    m := Apply(m, WaitOver);
    LeadsOn(Apply, Enabled, Initial, m, CheckStop);
    m := Apply(m, CheckStop);
    LeadsOn(Apply, Enabled, Initial, m, ProbeFinds(target));
    m := Apply(m, ProbeFinds(target));
    LeadsOn(Apply, Enabled, Initial, m, CheckStop);
    m := Apply(m, CheckStop);
    LeadsOn(Apply, Enabled, Initial, m, Mark);
    m := Apply(m, Mark);
    LeadsOn(Apply, Enabled, Initial, m, Begin);
    m := Apply(m, Begin);
  }

  lemma CommandIsCutOff(m: Machine) returns (end: Machine)
    requires Leads(Apply, Enabled, Initial, m) && InFlight(m) && m.stopper == Running
    requires m.task && !m.first
    ensures Leads(Apply, Enabled, Initial, end)
    ensures end.stopper == TimedOut && end.orphan == Some(m.phase.target) && end.attempted == m.attempted
  {
    LeadsOn(Apply, Enabled, Initial, m, Stop);
    end := Apply(m, Stop);
    LeadsOn(Apply, Enabled, Initial, end, TimeOut);
    end := Apply(end, TimeOut);
    LeadsOn(Apply, Enabled, Initial, end, Cancelled);
    end := Apply(end, Cancelled);
  }

  /** And it can come back: a run from startup in which shutdown gives up on a
      running command, removes the rule, and then sees it added. */
  lemma CutOffRuleCanOutliveUs(target: Target)
    ensures exists m ::
              Leads(Apply, Enabled, Initial, m) && m.stopper == Released(false, true) && m.rule == Some(target)
  {
    var m := CommandRuns(target);
    m := CommandIsCutOff(m);
    LeadsOn(Apply, Enabled, Initial, m, Release(true));
    m := Apply(m, Release(true));
    LeadsOn(Apply, Enabled, Initial, m, OrphanLands);
    m := Apply(m, OrphanLands);
    assert m.stopper == Released(false, true) && m.rule == Some(target);
  }
}
