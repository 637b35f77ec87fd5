/**
 What a whole reconcile comes to: from the moment a node has its desired state to its return, by
 what happened to it on the way, whatever the other nodes do in between.
 */
module SlotReconcile {
  import opened Phases
  import opened SlotModel
  import opened SlotInvariant
  import opened SlotSafety
  import opened SlotLimits

  // ---------- what happened on the way ----------

  datatype Attempt = NoAttempt | Attempted(ok: bool)

  datatype Log = Log(
    limits: nat,       // refusals at the cap
    attempt: Attempt,  // how the apply went
    unmarked: bool,    // the Progressing marker could not be written
    stopped: bool,     // the claim failed for another reason than the cap or conflicts
    checked: bool,     // the abort check was made
    tooMany: bool,     // and found maxUnavailable terminal failures
    audited: bool)     // the policy was read for an audit with the node Available

  const NOTHING: Log := Log(0, NoAttempt, false, false, false, false, false)

  function Logged(c: Config, s: State, n: NodeName, a: Action, log: Log): Log
    requires n in s.nodes
  {
    var e := s.nodes[n].enactment;
    match a
    case LimitReached => log.(limits := log.limits + 1)
    case ApplyDone(ok) => log.(attempt := Attempted(ok))
    case NotifyProgressing(ok, _, _) => if ok then log else log.(unmarked := true)
    case StopTrying(conflict) => if conflict then log else log.(stopped := true)
    case ShouldAbort(error) => log.(checked := true, tooMany := !error && |TerminallyFailed(Enactments(s))| >= c.max)
    case AuditGet(_) => if Current(e) && e.phase.Available? then log.(audited := true) else log
    case _ => log
  }

  // A step of a reconcile in which the handler lives, reads what is stored and, but for the
  // Progressing marker and the claim, gets its writes and audits through.
  predicate Smooth(s: State, n: NodeName, a: Action)
    requires n in s.nodes
  {
    var pc := s.nodes[n].pc;
    match a
    case Crash => false
    case Restart => false
    case Recover(_) => false
    case Begin => false
    case FillIn(_) => false
    case GiveUp => false
    case NotifyGenerateFailure(_) => false
    case RereadSpoilt => false
    case ReadPolicy(copy) => copy == s.policy
    case StopTrying(_) => pc.Rmw? && pc.op.Claim?
    case AuditFail => (pc.Audit? || pc.AuditRead? || pc.AuditListed? || pc.AuditCounted?) && pc.why.ForClaim?
    case NotifyPending(ok) => ok
    case NotifyAborted(ok) => ok
    case RecordRetry(ok) => ok
    case NotifyFailed(ok) => ok
    case NotifyRetrying(ok, _) => ok
    case NotifyFinalizing(ok, _) => ok
    case NotifySuccess(ok) => ok
    case _ => true
  }

  // A run in which n's own steps are smooth; the others do as they like.
  ghost predicate SmoothRun(c: Config, s: State, n: NodeName, steps: seq<Step>)
    decreases |steps|
  {
    steps == [] ||
    (&& StepEnabled(c, s, steps[0]) && n in s.nodes
     && (steps[0].Act? && steps[0].node == n ==> Smooth(s, n, steps[0].action))
     && SmoothRun(c, Do(c, s, steps[0]), n, steps[1..]))
  }

  ghost function LogOf(c: Config, s: State, n: NodeName, steps: seq<Step>, log: Log): Log
    requires SmoothRun(c, s, n, steps)
    decreases |steps|
  {
    if steps == [] then log
    else
      LogOf(c, Do(c, s, steps[0]), n, steps[1..], LogAfter(c, s, n, steps[0], log))
  }

  // ---------- what it comes to ----------

  // What a reconcile leaves behind: the enactment and how often a slot was claimed and released.
  datatype Mark = Mark(enactment: Enactment, claims: int, releases: int)

  function MarkOf(ns: NodeState): Mark {
    Mark(ns.enactment, ns.claims, ns.releases)
  }

  predicate IsSpent(c: Config, e: Enactment) {
    e.Enactment? && e.retry >= c.retries
  }

  // The node holds a slot already and does not claim one.
  predicate Resumes(n0: NodeState) {
    n0.enactment.Enactment? && (IsProgressing(n0.enactment.phase) || (n0.pc.Filled? && n0.pc.wasRetrying))
  }

  function Claims(n0: NodeState): int {
    if Resumes(n0) then 0 else 1
  }

  predicate Ledger(n0: NodeState, m: Mark, claimed: int, released: int) {
    m.claims == n0.claims + claimed && m.releases == n0.releases + released
  }

  /**
   A node with no retries left is left alone. One whose configuration is committed or in place
   ends up Available, with the policy read for an audit after that. A marker that could not be
   written gives the slot back, and a claim that failed changes nothing. An apply that succeeded
   makes the node Available and gives the slot back; one that failed costs a retry and keeps the
   slot. Without an apply the node was refused and made the abort check: it is Aborted exactly if
   the check found enough terminal failures, and else Pending.
   */
  predicate Outcome(c: Config, n0: NodeState, m: Mark, log: Log) {
    var e0, e := n0.enactment, m.enactment;
    && e0.Enactment? && e.Enactment?
    && if IsSpent(c, e0) then e == e0 && Ledger(n0, m, 0, 0)
       else if e0.phase.Available? || e0.phase.Finalizing? then
         e == e0.(phase := Available) && Ledger(n0, m, 0, 0) && log.audited
       else if log.unmarked then e == e0 && Ledger(n0, m, Claims(n0), Claims(n0))
       else if log.stopped then e == e0 && Ledger(n0, m, 0, 0) && !Resumes(n0)
       else match log.attempt
         case Attempted(true) => e == e0.(phase := Available) && Ledger(n0, m, Claims(n0), 1)
         case Attempted(false) =>
           && e == e0.(retry := e0.retry + 1, phase := e.phase)
           && (if e.retry >= c.retries then e.phase.Failed? else e.phase.Retrying?)
           && Ledger(n0, m, Claims(n0), 0)
         case NoAttempt =>
           && e == e0.(phase := if log.tooMany then Aborted else Pending)
           && Ledger(n0, m, 0, 0) && !Resumes(n0) && log.limits <= 2 && log.checked
  }

  // ---------- where the reconcile stands ----------

  // Neither spent nor finished: it claims or resumes.
  predicate Rolls(c: Config, n0: NodeState) {
    && Current(n0.enactment) && !IsSpent(c, n0.enactment)
    && !n0.enactment.phase.Available? && !n0.enactment.phase.Finalizing?
  }

  predicate Finished(c: Config, n0: NodeState) {
    && Current(n0.enactment) && !IsSpent(c, n0.enactment)
    && (n0.enactment.phase.Available? || n0.enactment.phase.Finalizing?)
  }

  predicate Refusals(log: Log, n: nat) {
    log.limits <= n && log == NOTHING.(limits := log.limits)
  }

  predicate Claiming(c: Config, n0: NodeState, m: Mark, log: Log) {
    Rolls(c, n0) && !Resumes(n0) && m.enactment == n0.enactment && Ledger(n0, m, 0, 0) && Refusals(log, 2)
  }

  predicate InPhase(n0: NodeState, m: Mark, p: Phase) {
    n0.enactment.Enactment? && m.enactment == n0.enactment.(phase := p)
  }

  predicate AuditStage(c: Config, n0: NodeState, m: Mark, log: Log, why: Why, read: bool) {
    match why
    case ForClaim => Claiming(c, n0, m, log) && log.limits == 1
    case ForRelease =>
      Finished(c, n0) && InPhase(n0, m, Available) && Ledger(n0, m, 0, 0) && log == NOTHING.(audited := log.audited) && (read ==> log.audited)
    case ForRecovery => false
  }

  predicate RmwStage(c: Config, n0: NodeState, m: Mark, log: Log, op: Op) {
    match op
    case Claim(second) => Claiming(c, n0, m, log) && log.limits == if second then 1 else 0
    case Compensate(_) =>
      && Rolls(c, n0) && !Resumes(n0) && m.enactment == n0.enactment && Ledger(n0, m, 1, 0)
      && log.unmarked && Refusals(log.(unmarked := false), 1)
    case Release =>
      && Rolls(c, n0) && m.enactment.Enactment? && m.enactment.phase.Finalizing? && InPhase(n0, m, m.enactment.phase)
      && Ledger(n0, m, Claims(n0), 0) && Tried(log, Attempted(true))
  }

  predicate Tried(log: Log, x: Attempt) {
    log.attempt == x && Refusals(log.(attempt := NoAttempt), 1)
  }

  predicate ApplyStage(c: Config, n0: NodeState, m: Mark, log: Log, x: Attempt) {
    && Rolls(c, n0) && m.enactment.Enactment? && m.enactment.phase.Progressing? && InPhase(n0, m, m.enactment.phase)
    && Ledger(n0, m, Claims(n0), 0) && Tried(log, x)
  }

  predicate Stage(c: Config, n0: NodeState, pc: Pc, m: Mark, log: Log) {
    match pc
    case Filled(_) => pc == n0.pc && m == MarkOf(n0) && Current(n0.enactment) && log == NOTHING
    case RecordSuccess => Finished(c, n0) && n0.enactment.phase.Finalizing? && m.enactment == n0.enactment && Ledger(n0, m, 0, 0) && log == NOTHING
    case Audit(why) => AuditStage(c, n0, m, log, why, false)
    case AuditRead(why, _) => AuditStage(c, n0, m, log, why, true)
    case AuditListed(why, _, _, _) => AuditStage(c, n0, m, log, why, true)
    case AuditCounted(why, _, _, _) => AuditStage(c, n0, m, log, why, true)
    case Rmw(op) => RmwStage(c, n0, m, log, op)
    case RmwRead(op, copy, _) => RmwStage(c, n0, m, log, op) && (op.Claim? || copy.count > 0)
    case Refused => Claiming(c, n0, m, log)
    case AbortCheck => Rolls(c, n0) && !Resumes(n0) && InPhase(n0, m, Pending) && Ledger(n0, m, 0, 0) && Refusals(log, 2)
    case Aborting =>
      Rolls(c, n0) && !Resumes(n0) && InPhase(n0, m, Pending) && Ledger(n0, m, 0, 0) 
      && log.checked && log.tooMany && Refusals(log.(checked := false, tooMany := false), 2)
    case Marking(didClaim, _) =>
      Rolls(c, n0) && didClaim == !Resumes(n0) && m.enactment == n0.enactment && Ledger(n0, m, Claims(n0), 0) && Refusals(log, 1)
    case Applying => ApplyStage(c, n0, m, log, NoAttempt)
    case ApplyFailed => ApplyStage(c, n0, m, log, Attempted(false))
    case Applied => ApplyStage(c, n0, m, log, Attempted(true))
    case RetryLater => RetryStage(c, n0, m, log) && m.enactment.retry < c.retries
    case GivingUp => RetryStage(c, n0, m, log) && m.enactment.retry >= c.retries
    case Released =>
      && Rolls(c, n0) && m.enactment.Enactment? && InPhase(n0, m, m.enactment.phase)
      && Ledger(n0, m, Claims(n0), 1) && Tried(log, Attempted(true))
    case Updating(next) => UpdateStage(c, n0, m, log, next)
    case UpdateRead(next, _) => UpdateStage(c, n0, m, log, next)
    case UpdateListed(next, _, _, _, _) => UpdateStage(c, n0, m, log, next)
    case Idle => Outcome(c, n0, m, log)
    case _ => false
  }

  predicate RetryStage(c: Config, n0: NodeState, m: Mark, log: Log) {
    && Rolls(c, n0) && m.enactment.Enactment?
    && m.enactment == n0.enactment.(retry := n0.enactment.retry + 1, phase := m.enactment.phase)
    && Ledger(n0, m, Claims(n0), 0) && Tried(log, Attempted(false))
  }

  predicate UpdateStage(c: Config, n0: NodeState, m: Mark, log: Log, next: Then) {
    if next.Finish? then Outcome(c, n0, m, log) else ApplyStage(c, n0, m, log, NoAttempt)
  }

  predicate At(c: Config, n0: NodeState, ns: NodeState, log: Log) {
    Stage(c, n0, ns.pc, MarkOf(ns), log)
  }

  // ---------- every smooth step keeps to it ----------

  lemma OwnerMeansCount(c: Config, s: State, n: NodeName)
    requires Inv(c, s) && n in s.nodes && s.nodes[n].pc.Rmw? && !s.nodes[n].pc.op.Claim?
    ensures s.policy.count > 0
  {
    assert PcInv(s.nodes[n]) by { assert LocalInv(c, s.clock, s.policy, s.nodes[n]); }
    assert n in Owners(s);
    SubsetSize({n}, Owners(s));
  }

  lemma DispatchKeepsStage(c: Config, s: State, n: NodeName, n0: NodeState, log: Log)
    requires n in s.nodes && At(c, n0, s.nodes[n], log) && Enabled(c, s, n, Dispatch)
    ensures At(c, n0, NodeEffect(c, s, n, Dispatch), log)
  {
  }

  lemma CounterKeepsStage(c: Config, s: State, n: NodeName, a: Action, n0: NodeState, log: Log)
    requires Inv(c, s) && n in s.nodes && At(c, n0, s.nodes[n], log) && Enabled(c, s, n, a) && Smooth(s, n, a)
    requires a.ReadPolicy? || a.NothingToRelease? || a.Conflict? || a.StopTrying? || a.LimitReached? || a.CommitRmw?
    ensures At(c, n0, NodeEffect(c, s, n, a), Logged(c, s, n, a, log))
  {
    if a.ReadPolicy? && !s.nodes[n].pc.op.Claim? { OwnerMeansCount(c, s, n); }
  }

  lemma AuditGetKeepsStage(c: Config, s: State, n: NodeName, a: Action, n0: NodeState, log: Log)
    requires n in s.nodes && At(c, n0, s.nodes[n], log) && Enabled(c, s, n, a) && Smooth(s, n, a)
    requires a.AuditGet?
    ensures At(c, n0, NodeEffect(c, s, n, a), Logged(c, s, n, a, log))
  {
  }

  lemma AuditReadKeepsStage(c: Config, s: State, n: NodeName, a: Action, n0: NodeState, log: Log)
    requires n in s.nodes && At(c, n0, s.nodes[n], log) && Enabled(c, s, n, a) && Smooth(s, n, a)
    requires a.AuditList? || a.AuditCount?
    ensures At(c, n0, NodeEffect(c, s, n, a), Logged(c, s, n, a, log))
  {
  }

  lemma AuditEndKeepsStage(c: Config, s: State, n: NodeName, a: Action, n0: NodeState, log: Log)
    requires n in s.nodes && At(c, n0, s.nodes[n], log) && Enabled(c, s, n, a) && Smooth(s, n, a)
    requires a.AuditRetry? || a.AuditFail? || a.CommitAudit?
    ensures At(c, n0, NodeEffect(c, s, n, a), Logged(c, s, n, a, log))
  {
  }

  lemma RefusalKeepsStage(c: Config, s: State, n: NodeName, a: Action, n0: NodeState, log: Log)
    requires n in s.nodes && At(c, n0, s.nodes[n], log) && Enabled(c, s, n, a) && Smooth(s, n, a)
    requires a.NotifyPending? || a.ShouldAbort? || a.NotifyAborted?
    ensures At(c, n0, NodeEffect(c, s, n, a), Logged(c, s, n, a, log))
  {
  }

  lemma MarkKeepsStage(c: Config, s: State, n: NodeName, a: Action, n0: NodeState, log: Log)
    requires n in s.nodes && At(c, n0, s.nodes[n], log) && Enabled(c, s, n, a) && Smooth(s, n, a)
    requires a.NotifyProgressing?
    ensures At(c, n0, NodeEffect(c, s, n, a), Logged(c, s, n, a, log))
  {
  }

  lemma AppliedKeepsStage(c: Config, s: State, n: NodeName, a: Action, n0: NodeState, log: Log)
    requires n in s.nodes && At(c, n0, s.nodes[n], log) && Enabled(c, s, n, a) && Smooth(s, n, a)
    requires a.ApplyDone? || a.NotifyFinalizing?
    ensures At(c, n0, NodeEffect(c, s, n, a), Logged(c, s, n, a, log))
  {
  }

  lemma SuccessKeepsStage(c: Config, s: State, n: NodeName, a: Action, n0: NodeState, log: Log)
    requires n in s.nodes && At(c, n0, s.nodes[n], log) && Enabled(c, s, n, a) && Smooth(s, n, a)
    requires a.NotifySuccess?
    ensures At(c, n0, NodeEffect(c, s, n, a), Logged(c, s, n, a, log))
  {
  }

  lemma RetryKeepsStage(c: Config, s: State, n: NodeName, a: Action, n0: NodeState, log: Log)
    requires n in s.nodes && At(c, n0, s.nodes[n], log) && Enabled(c, s, n, a) && Smooth(s, n, a)
    requires a.RecordRetry?
    ensures At(c, n0, NodeEffect(c, s, n, a), Logged(c, s, n, a, log))
  {
  }

  lemma FailureKeepsStage(c: Config, s: State, n: NodeName, a: Action, n0: NodeState, log: Log)
    requires n in s.nodes && At(c, n0, s.nodes[n], log) && Enabled(c, s, n, a) && Smooth(s, n, a)
    requires a.NotifyFailed? || a.NotifyRetrying?
    ensures At(c, n0, NodeEffect(c, s, n, a), Logged(c, s, n, a, log))
  {
  }

  lemma UpdateReadKeepsStage(c: Config, s: State, n: NodeName, a: Action, n0: NodeState, log: Log)
    requires n in s.nodes && At(c, n0, s.nodes[n], log) && Enabled(c, s, n, a) && Smooth(s, n, a)
    requires a.UpdateGet? || a.UpdateList? || a.UpdateRetry?
    ensures At(c, n0, NodeEffect(c, s, n, a), Logged(c, s, n, a, log))
  {
  }

  lemma UpdateEndKeepsStage(c: Config, s: State, n: NodeName, a: Action, n0: NodeState, log: Log)
    requires n in s.nodes && At(c, n0, s.nodes[n], log) && Enabled(c, s, n, a) && Smooth(s, n, a)
    requires a.UpdateFail? || a.CommitUpdate?
    ensures At(c, n0, NodeEffect(c, s, n, a), Logged(c, s, n, a, log))
  {
  }

  predicate OnAudit(a: Action) {
    a.AuditGet? || a.AuditList? || a.AuditCount? || a.AuditRetry? || a.AuditFail? || a.CommitAudit?
  }

  lemma AuditKeepsStage(c: Config, s: State, n: NodeName, a: Action, n0: NodeState, log: Log)
    requires n in s.nodes && At(c, n0, s.nodes[n], log) && Enabled(c, s, n, a) && Smooth(s, n, a) && OnAudit(a)
    ensures At(c, n0, NodeEffect(c, s, n, a), Logged(c, s, n, a, log))
  {
    if a.AuditGet? {
      AuditGetKeepsStage(c, s, n, a, n0, log);
    } else if a.AuditList? || a.AuditCount? {
      AuditReadKeepsStage(c, s, n, a, n0, log);
    } else {
      AuditEndKeepsStage(c, s, n, a, n0, log);
    }
  }

  lemma OwnStepKeepsStage(c: Config, s: State, n: NodeName, a: Action, n0: NodeState, log: Log)
    requires Inv(c, s) && n in s.nodes && At(c, n0, s.nodes[n], log) && Enabled(c, s, n, a) && Smooth(s, n, a)
    ensures At(c, n0, NodeEffect(c, s, n, a), Logged(c, s, n, a, log))
  {
    if a.Dispatch? {
      DispatchKeepsStage(c, s, n, n0, log);
    } else if OnAudit(a) {
      AuditKeepsStage(c, s, n, a, n0, log);
    } else if Later(a) {
      LaterStepKeepsStage(c, s, n, a, n0, log);
    } else if a.NotifyPending? || a.ShouldAbort? || a.NotifyAborted? {
      RefusalKeepsStage(c, s, n, a, n0, log);
    } else {
      CounterKeepsStage(c, s, n, a, n0, log);
    }
  }

  lemma LaterStepKeepsStage(c: Config, s: State, n: NodeName, a: Action, n0: NodeState, log: Log)
    requires n in s.nodes && At(c, n0, s.nodes[n], log) && Enabled(c, s, n, a) && Smooth(s, n, a) && Later(a)
    ensures At(c, n0, NodeEffect(c, s, n, a), Logged(c, s, n, a, log))
  {
    if a.NotifyProgressing? {
      MarkKeepsStage(c, s, n, a, n0, log);
    } else if a.ApplyDone? || a.NotifyFinalizing? {
      AppliedKeepsStage(c, s, n, a, n0, log);
    } else if a.NotifySuccess? {
      SuccessKeepsStage(c, s, n, a, n0, log);
    } else if a.RecordRetry? {
      RetryKeepsStage(c, s, n, a, n0, log);
    } else if a.NotifyFailed? || a.NotifyRetrying? {
      FailureKeepsStage(c, s, n, a, n0, log);
    } else if a.UpdateGet? || a.UpdateList? || a.UpdateRetry? {
      UpdateReadKeepsStage(c, s, n, a, n0, log);
    } else {
      UpdateEndKeepsStage(c, s, n, a, n0, log);
    }
  }

  // The steps from the Progressing marker on.
  predicate Later(a: Action) {
    || a.NotifyProgressing? || a.ApplyDone? || a.NotifyFinalizing? || a.NotifySuccess?
    || a.RecordRetry? || a.NotifyFailed? || a.NotifyRetrying?
    || a.UpdateGet? || a.UpdateList? || a.UpdateRetry? || a.UpdateFail? || a.CommitUpdate?
  }

  lemma OthersKeepStage(c: Config, s: State, n: NodeName, st: Step, n0: NodeState, log: Log)
    requires n in s.nodes && At(c, n0, s.nodes[n], log) && StepEnabled(c, s, st) && !(st.Act? && st.node == n)
    ensures n in Do(c, s, st).nodes && At(c, n0, Do(c, s, st).nodes[n], log)
  {
  }

  function LogAfter(c: Config, s: State, n: NodeName, st: Step, log: Log): Log
    requires n in s.nodes
  {
    if st.Act? && st.node == n then Logged(c, s, n, st.action, log) else log
  }

  lemma StepKeepsStage(c: Config, s: State, n: NodeName, st: Step, n0: NodeState, log: Log)
    requires Inv(c, s) && n in s.nodes && At(c, n0, s.nodes[n], log) && StepEnabled(c, s, st)
    requires st.Act? && st.node == n ==> Smooth(s, n, st.action)
    ensures n in Do(c, s, st).nodes && At(c, n0, Do(c, s, st).nodes[n], LogAfter(c, s, n, st, log))
  {
    if st.Act? && st.node == n {
      OwnStepKeepsStage(c, s, n, st.action, n0, log);
    } else {
      OthersKeepStage(c, s, n, st, n0, log);
    }
  }

  lemma {:induction false} RunKeepsStage(c: Config, s: State, n: NodeName, steps: seq<Step>, n0: NodeState, log: Log)
    requires Inv(c, s) && n in s.nodes && At(c, n0, s.nodes[n], log) && SmoothRun(c, s, n, steps)
    ensures CanRun(c, s, steps) && n in Run(c, s, steps).nodes
    ensures At(c, n0, Run(c, s, steps).nodes[n], LogOf(c, s, n, steps, log))
    decreases |steps|
  {
    if steps != [] {
      var st := steps[0];
      StepKeeps(c, s, st);
      StepKeepsStage(c, s, n, st, n0, log);
      RunKeepsStage(c, Do(c, s, st), n, steps[1..], n0, LogAfter(c, s, n, st, log));
    }
  }

  // Whatever the others do in between, a smooth reconcile that has returned comes to its outcome.
  lemma ReconcileOutcome(c: Config, s: State, before: seq<Step>, n: NodeName, steps: seq<Step>)
    requires Start(c, s) && CanRun(c, s, before)
    requires var r := Run(c, s, before); n in r.nodes && r.nodes[n].pc.Filled? && SmoothRun(c, r, n, steps)
    ensures var r := Run(c, s, before);
            && CanRun(c, r, steps) && n in Run(c, r, steps).nodes
            && (Run(c, r, steps).nodes[n].pc.Idle? ==>
                  Outcome(c, r.nodes[n], MarkOf(Run(c, r, steps).nodes[n]), LogOf(c, r, n, steps, NOTHING)))
  {
    var r := Run(c, s, before);
    ReachableInv(c, s, before);
    assert PcInv(r.nodes[n]) by { assert LocalInv(c, r.clock, r.policy, r.nodes[n]); }
    RunKeepsStage(c, r, n, steps, r.nodes[n], NOTHING);
  }

  // ---------- a committed configuration is finished ----------

  // The i-th step is n's policy read for an audit, with n Available.
  ghost predicate AuditReadAt(c: Config, s: State, n: NodeName, steps: seq<Step>, i: int) {
    && 0 <= i < |steps| && steps[i].Act? && steps[i].node == n && steps[i].action.AuditGet?
    && CanRun(c, s, steps[..i]) && n in Run(c, s, steps[..i]).nodes
    && Current(Run(c, s, steps[..i]).nodes[n].enactment) && Run(c, s, steps[..i]).nodes[n].enactment.phase.Available?
  }

  lemma {:induction false} AuditedMeansRead(c: Config, s: State, n: NodeName, steps: seq<Step>, log: Log)
    requires SmoothRun(c, s, n, steps) && !log.audited && LogOf(c, s, n, steps, log).audited
    ensures exists i :: AuditReadAt(c, s, n, steps, i)
    decreases |steps|
  {
    var s', rest := Do(c, s, steps[0]), steps[1..];
    if LogAfter(c, s, n, steps[0], log).audited {
      assert steps[..0] == [];
      assert AuditReadAt(c, s, n, steps, 0);
    } else {
      AuditedMeansRead(c, s', n, rest, LogAfter(c, s, n, steps[0], log));
      var i :| AuditReadAt(c, s', n, rest, i);
      assert rest[..i] == steps[..i + 1][1..] && steps[..i + 1][0] == steps[0];
      RunCons(c, s, steps[0], rest[..i]);
      assert [steps[0]] + rest[..i] == steps[..i + 1];
      assert AuditReadAt(c, s, n, steps, i + 1);
    }
  }

  // A node that has persisted its Finalizing marker, or is Available, and has retries left ends
  // every smooth reconcile Available, and the policy was read for an audit after it became so.
  lemma CommittedIsFinished(c: Config, s: State, before: seq<Step>, n: NodeName, steps: seq<Step>)
    requires Start(c, s) && CanRun(c, s, before)
    requires var r := Run(c, s, before);
             && n in r.nodes && r.nodes[n].pc.Filled? && Committed(r.nodes[n]) && r.nodes[n].enactment.retry < c.retries
             && SmoothRun(c, r, n, steps)
    ensures var r := Run(c, s, before);
            && CanRun(c, r, steps) && n in Run(c, r, steps).nodes
            && (Run(c, r, steps).nodes[n].pc.Idle? ==>
                  && Run(c, r, steps).nodes[n].enactment == r.nodes[n].enactment.(phase := Available)
                  && exists i :: AuditReadAt(c, r, n, steps, i))
  {
    var r := Run(c, s, before);
    ReconcileOutcome(c, s, before, n, steps);
    if Run(c, r, steps).nodes[n].pc.Idle? { AuditedMeansRead(c, r, n, steps, NOTHING); }
  }

  // ---------- a smooth reconcile always returns ----------

  // n's reads are as the store is now.
  predicate UpToDate(s: State, pc: Pc) {
    match pc
    case RmwRead(_, copy, readAt) => copy == s.policy && readAt <= s.clock
    case AuditRead(_, copy) => copy == s.policy
    case AuditListed(_, copy, _, at) => copy == s.policy && at == s.clock
    case AuditCounted(_, copy, _, at) => copy == s.policy && at == s.clock
    case UpdateRead(_, copy) => copy == s.policy
    case UpdateListed(_, copy, _, _, _) => copy == s.policy
    case _ => true
  }

  predicate CanAbortCheck(s: State) {
    forall m | m in s.nodes :: s.nodes[m].enactment.Missing? || !s.nodes[m].enactment.phase.Blank?
  }

  // What n does next on its own, with the apply going one way or the other.
  function Next(c: Config, s: State, n: NodeName, ok: bool): Action
    requires n in s.nodes
  {
    var pc := s.nodes[n].pc;
    match pc
    case Filled(_) => Dispatch
    case Rmw(_) => ReadPolicy(s.policy)
    case RmwRead(op, copy, _) => if Writable(c, op, copy) then CommitRmw(s.clock) else if op.Claim? then LimitReached else NothingToRelease
    case Refused => NotifyPending(true)
    case AbortCheck => ShouldAbort(!CanAbortCheck(s))
    case Aborting => NotifyAborted(true)
    case Marking(_, _) => NotifyProgressing(true, s.clock, false)
    case Applying => ApplyDone(ok)
    case ApplyFailed => RecordRetry(true)
    case RetryLater => NotifyRetrying(true, s.clock)
    case GivingUp => NotifyFailed(true)
    case Applied => NotifyFinalizing(true, s.clock)
    case Released => NotifySuccess(true)
    case RecordSuccess => NotifySuccess(true)
    case Audit(_) => AuditGet(s.policy)
    case AuditRead(_, _) => AuditList
    case AuditListed(_, _, _, _) => AuditCount
    case AuditCounted(_, _, _, _) => CommitAudit(s.clock)
    case Updating(_) => UpdateGet(s.policy)
    case UpdateRead(_, _) => UpdateList(1, |Existing(Enactments(s))|)
    case UpdateListed(_, _, _, _, _) => CommitUpdate
    case _ => Crash
  }

  // How far n is from returning.
  function Distance(pc: Pc): nat {
    match pc
    case Filled(_) => 40
    case Rmw(op) => if op.Claim? then (if op.second then 30 else 38) else 15
    case RmwRead(op, _, _) => if op.Claim? then (if op.second then 29 else 37) else 14
    case Audit(why) => if why.ForClaim? then 36 else 11
    case AuditRead(why, _) => if why.ForClaim? then 35 else 10
    case AuditListed(why, _, _, _) => if why.ForClaim? then 34 else 9
    case AuditCounted(why, _, _, _) => if why.ForClaim? then 33 else 8
    case Refused => 28
    case AbortCheck => 27
    case Aborting => 26
    case RecordSuccess => 26
    case Marking(_, _) => 25
    case Applying => 20
    case ApplyFailed => 18
    case Applied => 18
    case RetryLater => 17
    case GivingUp => 17
    case Released => 12
    case Updating(next) => if next.Finish? then 4 else 24
    case UpdateRead(next, _) => if next.Finish? then 3 else 23
    case UpdateListed(next, _, _, _, _) => if next.Finish? then 2 else 22
    case _ => 0
  }

  predicate Underway(pc: Pc) {
    Distance(pc) > 0
  }

  // Skipping the claim takes a marker that is fresh.
  predicate MayDispatch(c: Config, ns: NodeState, now: int) {
    (&& ns.pc.Filled? && ns.enactment.Enactment? && ns.enactment.retry < c.retries
     && (ns.enactment.phase.Progressing? || ns.enactment.phase.Retrying?))
    ==> Fresh(c, ns.enactment.phase, now)
  }

  lemma NextIsSmooth(c: Config, s: State, n: NodeName, ok: bool, n0: NodeState, log: Log)
    requires ValidConfig(c) && n in s.nodes && At(c, n0, s.nodes[n], log) && Underway(s.nodes[n].pc)
    requires UpToDate(s, s.nodes[n].pc) && MayDispatch(c, s.nodes[n], s.clock)
    ensures Enabled(c, s, n, Next(c, s, n, ok)) && Smooth(s, n, Next(c, s, n, ok))
  {
  }

  // Points at which the next step is about the policy.
  predicate AboutPolicy(pc: Pc) {
    || pc.Rmw? || pc.RmwRead? || pc.Audit? || pc.AuditRead? || pc.AuditListed? || pc.AuditCounted?
    || pc.Updating? || pc.UpdateRead? || pc.UpdateListed?
  }

  predicate Closer(pc: Pc, pc': Pc) {
    Distance(pc') < Distance(pc) && !pc'.Filled? && (pc'.Idle? || Underway(pc'))
  }

  lemma CounterStepComesCloser(c: Config, s: State, n: NodeName, ok: bool)
    requires n in s.nodes && Enabled(c, s, n, Next(c, s, n, ok))
    requires var pc := s.nodes[n].pc; pc.Rmw? || pc.RmwRead?
    ensures Closer(s.nodes[n].pc, NodeEffect(c, s, n, Next(c, s, n, ok)).pc)
  {
  }

  lemma AuditStepComesCloser(c: Config, s: State, n: NodeName, ok: bool)
    requires n in s.nodes && Enabled(c, s, n, Next(c, s, n, ok))
    requires var pc := s.nodes[n].pc; pc.Audit? || pc.AuditRead? || pc.AuditListed? || pc.AuditCounted?
    ensures Closer(s.nodes[n].pc, NodeEffect(c, s, n, Next(c, s, n, ok)).pc)
  {
  }

  lemma UpdateStepComesCloser(c: Config, s: State, n: NodeName, ok: bool)
    requires n in s.nodes && Enabled(c, s, n, Next(c, s, n, ok))
    requires var pc := s.nodes[n].pc; pc.Updating? || pc.UpdateRead? || pc.UpdateListed?
    ensures Closer(s.nodes[n].pc, NodeEffect(c, s, n, Next(c, s, n, ok)).pc)
  {
  }

  lemma OwnStepComesCloser(c: Config, s: State, n: NodeName, ok: bool)
    requires n in s.nodes && !AboutPolicy(s.nodes[n].pc) && Underway(s.nodes[n].pc) && Enabled(c, s, n, Next(c, s, n, ok))
    ensures Closer(s.nodes[n].pc, NodeEffect(c, s, n, Next(c, s, n, ok)).pc)
  {
  }

  lemma NextComesCloser(c: Config, s: State, n: NodeName, ok: bool)
    requires n in s.nodes && Underway(s.nodes[n].pc) && Enabled(c, s, n, Next(c, s, n, ok))
    ensures Closer(s.nodes[n].pc, NodeEffect(c, s, n, Next(c, s, n, ok)).pc)
  {
    var pc := s.nodes[n].pc;
    if pc.Rmw? || pc.RmwRead? {
      CounterStepComesCloser(c, s, n, ok);
    } else if pc.Updating? || pc.UpdateRead? || pc.UpdateListed? {
      UpdateStepComesCloser(c, s, n, ok);
    } else if AboutPolicy(pc) {
      AuditStepComesCloser(c, s, n, ok);
    } else {
      OwnStepComesCloser(c, s, n, ok);
    }
  }

  lemma PolicyStepStaysUpToDate(c: Config, s: State, n: NodeName, ok: bool)
    requires n in s.nodes && UpToDate(s, s.nodes[n].pc) && AboutPolicy(s.nodes[n].pc) && Enabled(c, s, n, Next(c, s, n, ok))
    ensures var s' := Do(c, s, Act(n, Next(c, s, n, ok)));
            UpToDate(s', s'.nodes[n].pc)
  {
  }

  lemma OwnStepReadsNothing(c: Config, s: State, n: NodeName, ok: bool)
    requires n in s.nodes && !AboutPolicy(s.nodes[n].pc) && Underway(s.nodes[n].pc) && Enabled(c, s, n, Next(c, s, n, ok))
    ensures var pc := NodeEffect(c, s, n, Next(c, s, n, ok)).pc;
            !(pc.RmwRead? || pc.AuditRead? || pc.AuditListed? || pc.AuditCounted? || pc.UpdateRead? || pc.UpdateListed?)
  {
  }

  lemma NextStaysUpToDate(c: Config, s: State, n: NodeName, ok: bool)
    requires n in s.nodes && UpToDate(s, s.nodes[n].pc) && Underway(s.nodes[n].pc) && Enabled(c, s, n, Next(c, s, n, ok))
    ensures var s' := Do(c, s, Act(n, Next(c, s, n, ok)));
            UpToDate(s', s'.nodes[n].pc)
  {
    if AboutPolicy(s.nodes[n].pc) {
      PolicyStepStaysUpToDate(c, s, n, ok);
    } else {
      OwnStepReadsNothing(c, s, n, ok);
    }
  }

  // From wherever it is, n alone can bring its reconcile to an end.
  lemma {:induction false} Returns(c: Config, s: State, n: NodeName, ok: bool, n0: NodeState, log: Log) returns (steps: seq<Step>)
    requires Inv(c, s) && n in s.nodes && At(c, n0, s.nodes[n], log) && (s.nodes[n].pc.Idle? || Underway(s.nodes[n].pc))
    requires UpToDate(s, s.nodes[n].pc) && MayDispatch(c, s.nodes[n], s.clock)
    ensures SmoothRun(c, s, n, steps) && forall st | st in steps :: st.Act? && st.node == n
    ensures CanRun(c, s, steps) && n in Run(c, s, steps).nodes && Run(c, s, steps).nodes[n].pc.Idle?
    decreases Distance(s.nodes[n].pc)
  {
    if s.nodes[n].pc.Idle? {
      steps := [];
    } else {
      var st := Act(n, Next(c, s, n, ok));
      NextIsSmooth(c, s, n, ok, n0, log);
      NextComesCloser(c, s, n, ok);
      NextStaysUpToDate(c, s, n, ok);
      StepKeeps(c, s, st);
      StepKeepsStage(c, s, n, st, n0, log);
      var rest := Returns(c, Do(c, s, st), n, ok, n0, LogAfter(c, s, n, st, log));
      RunCons(c, s, st, rest);
      steps := [st] + rest;
      assert steps[1..] == rest;
    }
  }

  // Whatever state it is in, a reconcile that has its desired state, and a fresh marker if it
  // relies on one, can return by smooth steps of its own, hence with its outcome.
  lemma ReconcileReturns(c: Config, s: State, before: seq<Step>, n: NodeName, ok: bool) returns (steps: seq<Step>)
    requires Start(c, s) && CanRun(c, s, before)
    requires var r := Run(c, s, before); n in r.nodes && r.nodes[n].pc.Filled? && MayDispatch(c, r.nodes[n], r.clock)
    ensures var r := Run(c, s, before);
            && SmoothRun(c, r, n, steps) && (forall st | st in steps :: st.Act? && st.node == n)
            && CanRun(c, r, steps) && n in Run(c, r, steps).nodes && Run(c, r, steps).nodes[n].pc.Idle?
            && Outcome(c, r.nodes[n], MarkOf(Run(c, r, steps).nodes[n]), LogOf(c, r, n, steps, NOTHING))
  {
    var r := Run(c, s, before);
    ReachableInv(c, s, before);
    assert PcInv(r.nodes[n]) by { assert LocalInv(c, r.clock, r.policy, r.nodes[n]); }
    steps := Returns(c, r, n, ok, r.nodes[n], NOTHING);
    ReconcileOutcome(c, s, before, n, steps);
  }

  // ---------- recovery audits what it settled ----------

  // The steps of a recovery whose write and audit get through.
  predicate RecoverySmooth(a: Action) {
    a == Recover(true) || a.AuditGet? || a.AuditList? || a.AuditCount? || a.AuditRetry? || a.CommitAudit?
  }

  // A committed apply is recorded as a success, an interrupted one waits with its retries back.
  predicate Settled(e0: Enactment, e: Enactment) {
    && e0.Enactment?
    && e == if e0.phase.Finalizing? then e0.(phase := Available)
            else e0.(phase := Pending, retry := if e0.current then 0 else e0.retry)
  }

  predicate RecoveryStage(e0: Enactment, ns: NodeState, read: bool) {
    match ns.pc
    case Recovering => ns.enactment == e0 && e0.Enactment? && IsProgressing(e0.phase)
    case Audit(why) => why.ForRecovery? && Settled(e0, ns.enactment)
    case AuditRead(why, _) => why.ForRecovery? && Settled(e0, ns.enactment) && read
    case AuditListed(why, _, _, _) => why.ForRecovery? && Settled(e0, ns.enactment) && read
    case AuditCounted(why, _, _, _) => why.ForRecovery? && Settled(e0, ns.enactment) && read
    case Idle => Settled(e0, ns.enactment) && read
    case _ => false
  }

  lemma OwnRecoveryStep(c: Config, s: State, n: NodeName, a: Action, e0: Enactment, read: bool)
    requires n in s.nodes && RecoveryStage(e0, s.nodes[n], read) && Enabled(c, s, n, a) && RecoverySmooth(a)
    ensures RecoveryStage(e0, NodeEffect(c, s, n, a), read || a.AuditGet?)
  {
  }

  lemma RecoveryStep(c: Config, s: State, n: NodeName, st: Step, e0: Enactment, read: bool)
    requires n in s.nodes && RecoveryStage(e0, s.nodes[n], read) && StepEnabled(c, s, st)
    requires st.Act? && st.node == n ==> RecoverySmooth(st.action)
    ensures n in Do(c, s, st).nodes
    ensures RecoveryStage(e0, Do(c, s, st).nodes[n], read || (st.Act? && st.node == n && st.action.AuditGet?))
  {
    if st.Act? && st.node == n { OwnRecoveryStep(c, s, n, st.action, e0, read); }
  }

  // Whatever the others do, a handler that restarts with its enactment still Progressing settles
  // it and reads the policy for an audit before it takes up reconciling.
  lemma {:induction false} RecoveryAudits(c: Config, s: State, n: NodeName, steps: seq<Step>, e0: Enactment, read: bool)
    requires n in s.nodes && RecoveryStage(e0, s.nodes[n], read) && CanRun(c, s, steps)
    requires forall st | st in steps && st.Act? && st.node == n :: RecoverySmooth(st.action)
    ensures n in Run(c, s, steps).nodes
    ensures Run(c, s, steps).nodes[n].pc.Idle? ==>
              && Settled(e0, Run(c, s, steps).nodes[n].enactment)
              && (read || exists st :: st in steps && st.Act? && st.node == n && st.action.AuditGet?)
    decreases |steps|
  {
    if steps != [] {
      RecoveryStep(c, s, n, steps[0], e0, read);
      RecoveryAudits(c, Do(c, s, steps[0]), n, steps[1..], e0, read || (steps[0].Act? && steps[0].node == n && steps[0].action.AuditGet?));
    }
  }
}
