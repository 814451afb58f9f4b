// A run's status machine and the handlers that drive it: PATCH, cancel, approve, reject and
// the worker that fails a run.  Handlers work on a session copy and commit it as a whole.

module RunLifecycle {
  import opened Options
  import opened PlanSummary

  datatype RunStatus =
    | Pending | Running | Planning | Planned | AwaitingApproval | Applying | Applied | Failed | Cancelled

  function Successors(s: RunStatus): set<RunStatus> {
    match s
    case Pending => {Running, Cancelled, Failed}
    case Running => {Planning, Planned, AwaitingApproval, Cancelled, Failed}
    case Planning => {Planned, AwaitingApproval, Failed, Cancelled}
    case Planned => {AwaitingApproval, Cancelled, Failed}
    case AwaitingApproval => {Applying, Cancelled, Failed}
    case Applying => {Applied, Failed}
    case _ => {}
  }

  predicate Terminal(s: RunStatus) {
    s in {Applied, Failed, Cancelled}
  }

  /** The status text of a PATCH: a status' own value, or anything else. */
  datatype StatusText = Names(status: RunStatus) | Other(text: string)

  const POLICY_STATUSES: set<string> := {"not_run", "passed", "warned", "failed"}

  /** A stored plan text: empty, or text that parses to a list of action lists or does not parse. */
  datatype PlanText = Blank | Text(entries: Option<seq<seq<string>>>)

  datatype Run = Run(
    status: RunStatus,
    planOutput: Option<string>,
    planJson: Option<PlanText>,
    tfplan: Option<string>,
    policyStatus: string,
    autoApproveIfNoChanges: bool,
    autoApproveSkipApply: bool
  )

  datatype RunUpdate = RunUpdate(
    planOutput: Option<string>,
    planJson: Option<PlanText>,
    tfplan: Option<string>,
    policyStatus: Option<string>,
    status: Option<StatusText>
  )

  datatype Outcome = Done | Rejected(code: nat)

  datatype Event = Launch | Patch(body: RunUpdate) | Cancel | Approve | Reject | WorkerFails

  /** A run, every status it has had, and the apply jobs queued for it. */
  datatype State = State(run: Run, trail: seq<RunStatus>, applyJobs: nat)

  predicate PlanHasNoChanges(plan: Option<PlanText>) {
    plan.Some? && plan.value.Text? && (plan.value.entries.Some? ==> SummaryOf(plan.value.entries.value).IsNoChanges())
  }

  predicate AutoApproves(run: Run) {
    run.autoApproveIfNoChanges && PlanHasNoChanges(run.planJson)
  }

  // ---------- One event ----------

  function Moved(s: State, to: RunStatus): State {
    s.(run := s.run.(status := to), trail := s.trail + [to])
  }

  /** `Run.transition`; None is the ValueError. */
  function Transition(s: State, to: RunStatus): Option<State> {
    if to in Successors(s.run.status) then Some(Moved(s, to)) else None
  }

  function WithFields(run: Run, body: RunUpdate): Run {
    run.(
      planOutput := if body.planOutput.Some? then body.planOutput else run.planOutput,
      planJson := if body.planJson.Some? then body.planJson else run.planJson,
      tfplan := if body.tfplan.Some? then body.tfplan else run.tfplan,
      policyStatus := if body.policyStatus.Some? then body.policyStatus.value else run.policyStatus)
  }

  /** The service's part: an apply that is to be skipped counts as done at once. */
  function SystemApproved(s: State): State {
    if s.run.autoApproveSkipApply then Moved(Moved(s, Applying), Applied) else Moved(s, Applying)
  }

  function AutoApproved(s: State): State {
    SystemApproved(s).(applyJobs := s.applyJobs + if s.run.autoApproveSkipApply then 0 else 1)
  }

  /** The status part of a PATCH on a session copy `s`; the caller drops the copy when rejected. */
  function StatusPatched(s: State, to: RunStatus): (State, Outcome) {
    if to == Applying || (to == Applied && s.run.status != Applying) then (s, Rejected(403))
    else if to != s.run.status && to !in Successors(s.run.status) then (s, Rejected(500))
    else
      var u := if to == s.run.status then s else Moved(s, to);
      if to == AwaitingApproval && AutoApproves(u.run) then (AutoApproved(u), Done) else (u, Done)
  }

  function Patched(s: State, body: RunUpdate): (State, Outcome) {
    if body.policyStatus.Some? && body.policyStatus.value !in POLICY_STATUSES then (s, Rejected(422))
    else
      var t := s.(run := WithFields(s.run, body));
      if body.status.None? then (t, Done)
      else if body.status.value.Other? then (s, Rejected(422))
      else
        var (u, outcome) := StatusPatched(t, body.status.value.status);
        (if outcome.Done? then u else s, outcome)
  }

  function Step(s: State, e: Event): (State, Outcome) {
    match e
    case Launch => if s.run.status == Pending then (Moved(s, Running), Done) else (s, Done)
    case Patch(body) => Patched(s, body)
    case Cancel => if Cancelled in Successors(s.run.status) then (Moved(s, Cancelled), Done) else (s, Rejected(409))
    case Approve =>
      if s.run.status == AwaitingApproval
      then (Moved(s, Applying).(applyJobs := s.applyJobs + 1), Done)
      else (s, Rejected(409))
    case Reject => if s.run.status == AwaitingApproval then (Moved(s, Cancelled), Done) else (s, Rejected(409))
    case WorkerFails => if Failed in Successors(s.run.status) then (Moved(s, Failed), Done) else (s, Done)
  }

  function History(s: State, events: seq<Event>): State
    decreases |events|
  {
    if events == [] then s else History(Step(s, events[0]).0, events[1..])
  }

  function Created(run: Run): State {
    State(run.(status := Pending), [Pending], 0)
  }

  // ---------- Safety of every history ----------

  /** An upper bound on the status changes still to come. */
  function Rank(s: RunStatus): nat {
    match s
    case Pending => 6 case Running => 5 case Planning => 4 case Planned => 3
    case AwaitingApproval => 2 case Applying => 1 case _ => 0
  }

  predicate IsPath(trail: seq<RunStatus>) {
    |trail| > 0 && trail[0] == Pending && forall i | 0 < i < |trail| :: trail[i] in Successors(trail[i - 1])
  }

  predicate Inv(s: State) {
    && IsPath(s.trail) && s.trail[|s.trail| - 1] == s.run.status
    && s.applyJobs <= (if Applying in s.trail then 1 else 0)
  }

  lemma {:induction false} PathFacts(trail: seq<RunStatus>)
    requires IsPath(trail)
    ensures |trail| + Rank(trail[|trail| - 1]) <= 7
    ensures forall i | 0 <= i < |trail| && Terminal(trail[i]) :: i == |trail| - 1
    ensures forall i | 0 <= i < |trail| :: trail[i] == Applying ==> i > 0 && trail[i - 1] == AwaitingApproval
    ensures forall i | 0 <= i < |trail| ::
              trail[i] == Applied ==> i > 1 && trail[i - 1] == Applying && trail[i - 2] == AwaitingApproval
    ensures forall i, j | 0 <= i < j < |trail| :: Rank(trail[i]) > Rank(trail[j])
  {
    PathRanks(trail);
    forall i | 0 <= i < |trail| - 1
      ensures !Terminal(trail[i])
    {
      assert Rank(trail[i]) > Rank(trail[|trail| - 1]);
    }
    forall i | 0 <= i < |trail|
      ensures trail[i] == Applying ==> i > 0 && trail[i - 1] == AwaitingApproval
    {
      WayIn(trail, i);
    }
    forall i | 0 <= i < |trail|
      ensures trail[i] == Applied ==> i > 1 && trail[i - 1] == Applying && trail[i - 2] == AwaitingApproval
    {
      WayIn(trail, i);
    }
  }

  lemma WayIn(trail: seq<RunStatus>, i: nat)
    requires IsPath(trail) && i < |trail|
    ensures trail[i] == Applying ==> i > 0 && trail[i - 1] == AwaitingApproval
    ensures trail[i] == Applied ==> i > 1 && trail[i - 1] == Applying && trail[i - 2] == AwaitingApproval
  {
    if i > 0 {
      OnlyWayIn(trail[i - 1], trail[i]);
    }
    if i > 1 {
      OnlyWayIn(trail[i - 2], trail[i - 1]);
    }
  }

  lemma OnlyWayIn(a: RunStatus, b: RunStatus)
    requires b in Successors(a)
    ensures b == Applying ==> a == AwaitingApproval
    ensures b == Applied ==> a == Applying
  {
  }

  lemma {:induction false} PathRanks(trail: seq<RunStatus>)
    requires IsPath(trail)
    ensures |trail| + Rank(trail[|trail| - 1]) <= 7
    ensures forall i, j | 0 <= i < j < |trail| :: Rank(trail[i]) > Rank(trail[j])
  {
    var n := |trail| - 1;
    if n > 0 {
      PathRanks(trail[..n]);
      StepLowersRank(trail[n - 1], trail[n]);
      assert forall i | 0 <= i < n :: trail[..n][i] == trail[i];
    }
  }

  lemma StepLowersRank(a: RunStatus, b: RunStatus)
    requires b in Successors(a)
    ensures Rank(b) < Rank(a)
  {
  }

  lemma MoveKeepsPath(s: State, to: RunStatus)
    requires Inv(s) && to in Successors(s.run.status)
    ensures Inv(Moved(s, to)) && (to == Applying ==> Inv(Moved(s, to).(applyJobs := s.applyJobs + 1)))
  {
    PathFacts(s.trail);
    var t := Moved(s, to).trail;
    assert t[|s.trail|] == to && forall x | x in s.trail :: x in t;
    assert forall i | 0 <= i < |s.trail| :: Rank(s.trail[i]) >= Rank(s.run.status);
  }

  /** Statuses are only ever added, and a terminal one never left. */
  predicate Continues(s: State, t: State) {
    && Inv(t) && s.trail <= t.trail
    && (Terminal(s.run.status) ==> t.trail == s.trail && t.applyJobs == s.applyJobs)
  }

  lemma StatusPatchContinues(s: State, to: RunStatus)
    requires Inv(s)
    ensures Continues(s, StatusPatched(s, to).0)
  {
    if to != Applying && to in Successors(s.run.status) {
      MoveKeepsPath(s, to);
    }
    if StatusPatched(s, to).1.Done? && to == AwaitingApproval {
      AutoApprovalContinues(if to == s.run.status then s else Moved(s, to));
    }
  }

  lemma AutoApprovalContinues(s: State)
    requires Inv(s) && s.run.status == AwaitingApproval
    ensures Continues(s, AutoApproved(s))
  {
    MoveKeepsPath(s, Applying);
    MoveKeepsPath(Moved(s, Applying), Applied);
  }

  lemma StepContinues(s: State, e: Event)
    requires Inv(s)
    ensures Continues(s, Step(s, e).0)
  {
    match e {
      case Patch(body) =>
        if body.status.Some? && body.status.value.Names? {
          StatusPatchContinues(s.(run := WithFields(s.run, body)), body.status.value.status);
        }
      case Launch => if s.run.status == Pending { MoveKeepsPath(s, Running); }
      case Approve => if s.run.status == AwaitingApproval { MoveKeepsPath(s, Applying); }
      case Cancel => if Cancelled in Successors(s.run.status) { MoveKeepsPath(s, Cancelled); }
      case Reject => if s.run.status == AwaitingApproval { MoveKeepsPath(s, Cancelled); }
      case WorkerFails => if Failed in Successors(s.run.status) { MoveKeepsPath(s, Failed); }
    }
  }

  lemma {:induction false} HistoryContinues(s: State, events: seq<Event>)
    requires Inv(s)
    ensures Continues(s, History(s, events))
    decreases |events|
  {
    if events != [] {
      StepContinues(s, events[0]);
      HistoryContinues(Step(s, events[0]).0, events[1..]);
    }
  }

  /**
   * Whatever is sent to a run, in whatever order: at most six status changes, at most one apply
   * job, APPLIED only right after AWAITING_APPROVAL and APPLYING, and nothing after a terminal status.
   */
  lemma RunSafety(run: Run, events: seq<Event>)
    ensures var end := History(Created(run), events);
            && |end.trail| - 1 <= 6 && end.applyJobs <= 1
            && (end.applyJobs == 1 ==> Applying in end.trail)
            && (Applied in end.trail ==>
                  |end.trail| > 2 && end.trail[|end.trail| - 3..] == [AwaitingApproval, Applying, Applied])
            && (forall i | 0 <= i < |end.trail| && Terminal(end.trail[i]) :: i == |end.trail| - 1)
  {
    HistoryContinues(Created(run), events);
    var t := History(Created(run), events).trail;
    PathFacts(t);
    if Applied in t {
      var i :| 0 <= i < |t| && t[i] == Applied;
      assert Terminal(t[i]);
    }
  }

  /** Which status can follow which, said status by status. */
  predicate MayFollow(a: RunStatus, b: RunStatus) {
    match b
    case Pending => false
    case Running => a == Pending
    case Planning => a == Running
    case Planned => a in {Running, Planning}
    case AwaitingApproval => a in {Running, Planning, Planned}
    case Applying => a == AwaitingApproval
    case Applied => a == Applying
    case Failed => a !in {Applied, Failed, Cancelled}
    case Cancelled => a !in {Applying, Applied, Failed, Cancelled}
  }

  /** Whatever is sent, every status follows one it may follow; once APPLYING a run ends APPLIED or FAILED. */
  lemma TrailFollows(run: Run, events: seq<Event>)
    ensures var trail := History(Created(run), events).trail;
            && trail != [] && trail[0] == Pending
            && (forall i | 0 < i < |trail| :: MayFollow(trail[i - 1], trail[i]))
            && (forall i | 0 < i < |trail| && trail[i - 1] == Applying :: trail[i] in {Applied, Failed})
  {
    HistoryContinues(Created(run), events);
    var trail := History(Created(run), events).trail;
    forall i | 0 < i < |trail| ensures MayFollow(trail[i - 1], trail[i]) {
      FollowsExactly(trail[i - 1], trail[i]);
    }
  }

  lemma FollowsExactly(a: RunStatus, b: RunStatus)
    ensures b in Successors(a) <==> MayFollow(a, b)
  {
  }

  /** Only a run that waits, or has not come that far, is cancelled; an apply is not, nor a run that has ended. */
  lemma CancelsExactly(s: State)
    ensures var (t, outcome) := Step(s, Cancel);
            if s.run.status in {Pending, Running, Planning, Planned, AwaitingApproval} then
              t == State(s.run.(status := Cancelled), s.trail + [Cancelled], s.applyJobs) && outcome == Done
            else t == s && outcome == Rejected(409)
  {
    FollowsExactly(s.run.status, Cancelled);
  }

  /** The worker fails every run that has not ended, the launch starts one that has not started. */
  lemma WorkerMovesExactly(s: State)
    ensures Step(s, WorkerFails).0 ==
            if s.run.status in {Applied, Failed, Cancelled} then s
            else State(s.run.(status := Failed), s.trail + [Failed], s.applyJobs)
    ensures Step(s, Launch).0 ==
            if s.run.status == Pending then State(s.run.(status := Running), s.trail + [Running], s.applyJobs) else s
  {
    FollowsExactly(s.run.status, Failed);
  }

  /** A decision needs a run that awaits one: approval queues the apply, rejection cancels. */
  lemma DecidesExactly(s: State)
    ensures var (t, outcome) := Step(s, Approve);
            if s.run.status == AwaitingApproval then
              t == State(s.run.(status := Applying), s.trail + [Applying], s.applyJobs + 1) && outcome == Done
            else t == s && outcome == Rejected(409)
    ensures var (t, outcome) := Step(s, Reject);
            if s.run.status == AwaitingApproval then
              t == State(s.run.(status := Cancelled), s.trail + [Cancelled], s.applyJobs) && outcome == Done
            else t == s && outcome == Rejected(409)
  {
  }

  /** From where a PATCH can name a status: where it may follow, and where the run is already, but never an apply. */
  predicate MayName(now: RunStatus, to: RunStatus) {
    match to
    case Pending => now == Pending
    case Running => now in {Pending, Running}
    case Planning => now in {Running, Planning}
    case Planned => now in {Running, Planning, Planned}
    case AwaitingApproval => now in {Running, Planning, Planned, AwaitingApproval}
    case Applying => false
    case Applied => now == Applying
    case Failed => now !in {Applied, Cancelled}
    case Cancelled => now !in {Applying, Applied, Failed}
  }

  /** How a PATCH is answered, and what of the run it changes beside the status. */
  lemma PatchesExactly(s: State, body: RunUpdate)
    ensures var (t, outcome) := Step(s, Patch(body));
            && outcome == (if body.policyStatus.Some? &&
                              body.policyStatus.value !in {"not_run", "passed", "warned", "failed"} then Rejected(422)
                           else if body.status.None? then Done
                           else if body.status.value.Other? then Rejected(422)
                           else
                             var to := body.status.value.status;
                             if MayName(s.run.status, to) then Done
                             else if to in {Applying, Applied} then Rejected(403) else Rejected(500))
            && (outcome.Rejected? ==> t == s)
            && (outcome.Done? && body.status.None? ==> t.run.status == s.run.status && t.trail == s.trail)
            && (outcome.Done? && body.status.Some? && body.status.value.status != AwaitingApproval ==>
                  var to := body.status.value.status;
                  && t.run.status == to && t.trail == s.trail + (if to == s.run.status then [] else [to])
                  && t.applyJobs == s.applyJobs)
  {
    if body.status.Some? && body.status.value.Names? {
      FollowsExactly(s.run.status, body.status.value.status);
    }
  }

  /** An accepted PATCH sets what it gives and leaves the rest of the run, the flags above all. */
  lemma PatchSetsGiven(s: State, body: RunUpdate)
    ensures var (t, outcome) := Step(s, Patch(body));
            outcome.Done? ==>
              && t.run.planOutput == (if body.planOutput.Some? then body.planOutput else s.run.planOutput)
              && t.run.planJson == (if body.planJson.Some? then body.planJson else s.run.planJson)
              && t.run.tfplan == (if body.tfplan.Some? then body.tfplan else s.run.tfplan)
              && t.run.policyStatus == (if body.policyStatus.Some? then body.policyStatus.value else s.run.policyStatus)
              && t.run.autoApproveIfNoChanges == s.run.autoApproveIfNoChanges
              && t.run.autoApproveSkipApply == s.run.autoApproveSkipApply
  {
    if body.status.Some? && body.status.value.Names? {
      StatusIsAll(s.(run := WithFields(s.run, body)), body.status.value.status);
      hide StatusPatched;
    }
  }

  lemma StatusIsAll(s: State, to: RunStatus)
    ensures var t := StatusPatched(s, to).0; t.run == s.run.(status := t.run.status)
  {
    hide AutoApproves;
  }

  /** Once terminal, always the same status, whatever follows. */
  lemma TerminalForever(s: State, events: seq<Event>)
    requires Inv(s) && Terminal(s.run.status)
    ensures History(s, events).run.status == s.run.status
  {
    HistoryContinues(s, events);
  }

  /** A rejected request leaves the run, its trail and its jobs as they were. */
  lemma RejectedChangesNothing(s: State, e: Event)
    ensures Step(s, e).1.Rejected? ==> Step(s, e).0 == s
  {
  }

  /**
   * An apply starts exactly by an approval, or by a PATCH to AWAITING_APPROVAL of a run that was
   * flagged for it and whose plan, when it parses, has no entry that creates, updates or deletes.
   */
  lemma ApplyStartsExactly(s: State, e: Event)
    ensures Applying in Step(s, e).0.trail[|s.trail|..] <==>
            || (e.Approve? && s.run.status == AwaitingApproval)
            || (e.Patch? && e.body.status == Some(Names(AwaitingApproval))
                && s.run.status in {Running, Planning, Planned, AwaitingApproval}
                && (e.body.policyStatus.Some? ==> e.body.policyStatus.value in POLICY_STATUSES)
                && AutoApproves(WithFields(s.run, e.body)))
  {
    if e.Patch? {
      PatchStartsExactly(s, e.body);
    } else if Step(s, e).0.trail == s.trail {
      assert Step(s, e).0.trail[|s.trail|..] == [];
    } else {
      assert Step(s, e).0.trail[|s.trail|..] == [Step(s, e).0.run.status];
    }
  }

  lemma PatchStartsExactly(s: State, body: RunUpdate)
    ensures Applying in Step(s, Patch(body)).0.trail[|s.trail|..] <==>
            && body.status == Some(Names(AwaitingApproval))
            && s.run.status in {Running, Planning, Planned, AwaitingApproval}
            && (body.policyStatus.Some? ==> body.policyStatus.value in POLICY_STATUSES)
            && AutoApproves(WithFields(s.run, body))
  {
    var t := Step(s, Patch(body)).0;
    var n := |s.trail|;
    hide PlanHasNoChanges;
    if body.status.Some? && body.status.value.Names? && Step(s, Patch(body)).1.Done? {
      var to := body.status.value.status;
      if to == AwaitingApproval && AutoApproves(WithFields(s.run, body)) {
        assert t.trail[n] == Applying || t.trail[n + 1] == Applying;
        assert t.trail[n..][0] == Applying || t.trail[n..][1] == Applying;
      } else {
        assert t.trail[n..] == (if to == s.run.status then [] else [to]);
      }
    } else {
      assert t.trail[n..] == [];
    }
  }

  function AwaitWith(plan: PlanText): RunUpdate {
    RunUpdate(None, Some(plan), None, None, Some(Names(AwaitingApproval)))
  }

  /** A plan that does not parse is applied without anyone's approval, if the run was flagged. */
  lemma UnparsedPlanIsApplied(run: Run)
    requires run.autoApproveIfNoChanges && !run.autoApproveSkipApply
    ensures var end := History(Created(run), [Launch, Patch(AwaitWith(Text(None)))]);
            end.trail == [Pending, Running, AwaitingApproval, Applying] && end.applyJobs == 1
  {
    var patch := Patch(AwaitWith(Text(None)));
    var running := Step(Created(run), Launch).0;
    assert [Launch, patch][1..] == [patch] && [patch][1..] == [];
    assert History(running, [patch]) == Step(running, patch).0;
    assert running.trail == [Pending, Running] && AwaitingApproval in Successors(Running);
  }

  /**
   * What an accepted PATCH to AWAITING_APPROVAL leads to: the status itself unless it was there already,
   * and for a run that approves itself APPLYING, then APPLIED at once or else one job.
   */
  lemma AutoApprovalFollows(s: State, body: RunUpdate)
    requires body.status == Some(Names(AwaitingApproval)) && Step(s, Patch(body)).1.Done?
    ensures var t := Step(s, Patch(body)).0;
            var approves := AutoApproves(WithFields(s.run, body));
            && t.trail == s.trail + (if s.run.status == AwaitingApproval then [] else [AwaitingApproval])
                          + (if approves then [Applying] else [])
                          + (if approves && s.run.autoApproveSkipApply then [Applied] else [])
            && (t.trail != s.trail ==> t.run.status == t.trail[|t.trail| - 1])
            && t.applyJobs == s.applyJobs + (if approves && !s.run.autoApproveSkipApply then 1 else 0)
  {
  }

  lemma AutoApprovesExactly(run: Run)
    ensures AutoApproves(run) <==>
            && run.autoApproveIfNoChanges && run.planJson.Some? && run.planJson.value.Text?
            && (run.planJson.value.entries.Some? ==>
                  forall i | 0 <= i < |run.planJson.value.entries.value| ::
                    !Mutates(run.planJson.value.entries.value[i]))
  {
    if run.planJson.Some? && run.planJson.value.Text? && run.planJson.value.entries.Some? {
      NoChangesExactly(run.planJson.value.entries.value);
    }
  }

  // ---------- The handlers ----------

  class RunRecord {
    var run: Run
    var applyJobs: nat
    ghost var trail: seq<RunStatus>

    ghost function Value(): State
      reads this
    {
      State(run, trail, applyJobs)
    }

    constructor (created: Run)
      ensures Value() == Created(created)
    {
      run := created.(status := Pending);
      applyJobs := 0;
      trail := [Pending];
    }

    method Transition(to: RunStatus) returns (ok: bool)
      modifies this
      ensures ok == (to in Successors(old(run).status))
      ensures Value() == if ok then Moved(old(Value()), to) else old(Value())
    {
      if to !in Successors(run.status) {
        return false;
      }
      run := run.(status := to);
      trail := trail + [to];
      return true;
    }

    method LaunchPlan()
      modifies this
      ensures Value() == Step(old(Value()), Launch).0
    {
      if run.status == Pending {
        var _ := Transition(Running);
      }
    }

    method ApproveRun() returns (outcome: Outcome)
      modifies this
      ensures (Value(), outcome) == Step(old(Value()), Approve)
    {
      if run.status != AwaitingApproval {
        return Rejected(409);
      }
      var _ := Transition(Applying);
      applyJobs := applyJobs + 1;
      return Done;
    }

    method RejectRun() returns (outcome: Outcome)
      modifies this
      ensures (Value(), outcome) == Step(old(Value()), Reject)
    {
      if run.status != AwaitingApproval {
        return Rejected(409);
      }
      var _ := Transition(Cancelled);
      return Done;
    }

    method CancelRun() returns (outcome: Outcome)
      modifies this
      ensures (Value(), outcome) == Step(old(Value()), Cancel)
    {
      var ok := Transition(Cancelled);
      return if ok then Done else Rejected(409);
    }

    method MarkFailed()
      modifies this
      ensures Value() == Step(old(Value()), WorkerFails).0
    {
      var _ := Transition(Failed);
    }

    /** Sets the fields, then the status, on a session copy; only the commit at the end reaches the row. */
    method PatchRun(body: RunUpdate) returns (outcome: Outcome)
      modifies this
      ensures (Value(), outcome) == Step(old(Value()), Patch(body))
    {
      var session := new RunRecord(run);
      session.run, session.applyJobs, session.trail := run, applyJobs, trail;
      outcome := session.PatchSession(body);
      if outcome.Done? {
        run, applyJobs, trail := session.run, session.applyJobs, session.trail;
      }
    }

    method PatchSession(body: RunUpdate) returns (outcome: Outcome)
      modifies this
      ensures outcome == Patched(old(Value()), body).1
      ensures outcome.Done? ==> Value() == Patched(old(Value()), body).0
    {
      if body.planOutput.Some? {
        run := run.(planOutput := body.planOutput);
      }
      if body.planJson.Some? {
        run := run.(planJson := body.planJson);
      }
      if body.tfplan.Some? {
        run := run.(tfplan := body.tfplan);
      }
      if body.policyStatus.Some? {
        if body.policyStatus.value !in POLICY_STATUSES {
          return Rejected(422);
        }
        run := run.(policyStatus := body.policyStatus.value);
      }
      assert run == WithFields(old(run), body);
      if body.status.Some? {
        if body.status.value.Other? {
          return Rejected(422);
        }
        outcome := PatchStatus(body.status.value.status);
        return;
      }
      return Done;
    }

    method PatchStatus(to: RunStatus) returns (outcome: Outcome)
      modifies this
      ensures outcome == StatusPatched(old(Value()), to).1
      ensures outcome.Done? ==> Value() == StatusPatched(old(Value()), to).0
    {
      if to == Applying {
        return Rejected(403);
      }
      if to == Applied && run.status != Applying {
        return Rejected(403);
      }
      if to != run.status {
        var ok := Transition(to);
        if !ok {
          return Rejected(500);
        }
      }
      if to == AwaitingApproval && run.planJson.Some? && run.planJson.value.Text? {
        var summary := Summary(0, 0, 0, 0, 0);
        if run.planJson.value.entries.Some? {
          summary := Summarize(run.planJson.value.entries.value);
        }
        if run.autoApproveIfNoChanges && summary.IsNoChanges() {
          outcome := SystemAutoApprove();
          if !run.autoApproveSkipApply {
            applyJobs := applyJobs + 1;
          }
          return;
        }
      }
      return Done;
    }

    method SystemAutoApprove() returns (outcome: Outcome)
      modifies this
      ensures outcome == if old(run.status) == AwaitingApproval then Done else Rejected(409)
      ensures Value() == if outcome.Done? then SystemApproved(old(Value())) else old(Value())
    {
      if run.status != AwaitingApproval {
        return Rejected(409);
      }
      var _ := Transition(Applying);
      if run.autoApproveSkipApply {
        var _ := Transition(Applied);
      }
      return Done;
    }
  }
}
