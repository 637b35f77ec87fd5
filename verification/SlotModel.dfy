/**
 The maxUnavailable slot protocol of one policy generation as a transition system.

 Every handler runs one reconcile at a time; its program counter stops at each point where
 the reconcile talks to the API server or leaves the function. The policy object is written
 with optimistic concurrency. `owns`, `exhausted`, `claims` and `releases` are bookkeeping:
 no guard and no written value depends on them.
 */
module SlotModel {
  import opened Phases

  type NodeName = string

  // What the surroundings of the handlers promise.
  datatype Env = Env(
    freshSkips: bool,     // a claim skipped on a Progressing marker is skipped while the marker is fresh
    marksInTime: bool,    // a claim is marked or given back inside the grace window of its stamp
    appliesInTime: bool,  // a reconcile relying on its heartbeat moves on before it goes stale
    judgesInTime: bool,   // an audit judges the heartbeats it listed within `lag` of listing them
    readyCovers: bool,    // no more enactments are listed than nodes are ready
    privateCopies: bool)  // changing a policy read from the cache leaves the cached object alone

  datatype Config = Config(nodes: set<NodeName>, max: int, retries: int, grace: int, threshold: int, lag: int, env: Env)

  predicate ValidConfig(c: Config) {
    1 <= c.max && 1 <= c.retries && 0 < c.grace && 0 <= c.lag < c.threshold && 2 <= c.threshold
  }

  // Every promise is kept; with a single slot, shared copies do no harm.
  predicate Disciplined(c: Config) {
    && c.env.freshSkips && c.env.marksInTime && c.env.appliesInTime && c.env.judgesInTime && c.env.readyCovers
    && (c.env.privateCopies || c.max == 1)
  }

  // What a heartbeat must have to spare so that no audit judges it stale too early.
  function Lag(c: Config): int {
    if c.env.judgesInTime then c.lag else 0
  }

  datatype Stamp = Never | At(time: int)

  // UnavailableNodeCountMap[generation] and LastUnavailableNodeCountUpdate, under a resource version.
  datatype Policy = Policy(version: nat, count: int, lastUpdate: Stamp)

  // `current`: the enactment carries this generation; `retry` is RetryCount[generation].
  datatype Enactment = Missing | Enactment(current: bool, phase: Phase, retry: int)

  type Listing = map<NodeName, Enactment>

  // The three read-modify-write loops on the counter.
  datatype Op = Claim(second: bool) | Compensate(stamp: int) | Release

  // What the audit was started for, and where the deferred status update continues.
  datatype Why = ForClaim | ForRelease | ForRecovery
  datatype Then = Finish | Apply

  datatype Pc =
    | Idle
    | Down
    | Recovering
    | Initialized(wasRetrying: bool)
    | Filled(wasRetrying: bool)
    | GenerateFailed
    | Rmw(op: Op)
    | RmwRead(op: Op, copy: Policy, readAt: int)
    | Refused
    | AbortCheck
    | Aborting
    | Marking(didClaim: bool, stamp: int)
    | Applying
    | ApplyFailed
    | RetryLater
    | GivingUp
    | Applied
    | Released
    | RecordSuccess
    | Audit(why: Why)
    | AuditRead(why: Why, copy: Policy)
    | AuditListed(why: Why, copy: Policy, listed: Listing, at: int)
    | AuditCounted(why: Why, copy: Policy, holders: int, at: int)
    | Updating(next: Then)
    | UpdateRead(next: Then, copy: Policy)
    | UpdateListed(next: Then, copy: Policy, listed: Listing, matching: nat, ready: nat)

  datatype NodeState = NodeState(pc: Pc, enactment: Enactment, owns: bool, exhausted: bool, claims: nat, releases: nat)

  datatype State = State(clock: int, policy: Policy, nodes: map<NodeName, NodeState>)

  datatype FillOutcome = Generated | GenerateError | WriteError

  datatype Action =
    | Crash
    | Restart
    | Recover(ok: bool)
    | Begin
    | FillIn(outcome: FillOutcome)
    | NotifyGenerateFailure(ok: bool)
    | GiveUp
    | Dispatch
    | ReadPolicy(copy: Policy)
    | NothingToRelease
    | Conflict
    | RereadSpoilt
    | StopTrying(conflict: bool)
    | LimitReached
    | CommitRmw(stamp: int)
    | AuditGet(copy: Policy)
    | AuditList
    | AuditCount
    | AuditRetry
    | AuditFail
    | CommitAudit(stamp: int)
    | NotifyPending(ok: bool)
    | ShouldAbort(error: bool)
    | NotifyAborted(ok: bool)
    | NotifyProgressing(ok: bool, hb: int, policyUnknown: bool)
    | ApplyDone(ok: bool)
    | RecordRetry(ok: bool)
    | NotifyFailed(ok: bool)
    | NotifyRetrying(ok: bool, hb: int)
    | NotifyFinalizing(ok: bool, hb: int)
    | NotifySuccess(ok: bool)
    | UpdateGet(copy: Policy)
    | UpdateList(matching: nat, ready: nat)
    | UpdateRetry
    | UpdateFail
    | CommitUpdate

  datatype Step =
    | Tick(time: int)
    | OtherWrite(touch: bool)   // a policy write that leaves this generation's counter alone
    | Act(node: NodeName, action: Action)

  // ---------- what the handlers look at ----------

  // A read returns the stored object, or an older one from a cache.
  predicate PossibleCopy(copy: Policy, p: Policy) {
    copy == p || copy.version < p.version
  }

  predicate InGrace(c: Config, u: Stamp, now: int) {
    u.At? && now - u.time < c.grace
  }

  function Enactments(s: State): (l: Listing) {
    map m | m in s.nodes :: s.nodes[m].enactment
  }

  predicate HolderAt(c: Config, e: Enactment, now: int) {
    Current(e) && IsHolder(e.phase, now, c.threshold)
  }

  function Holders(c: Config, l: Listing, now: int): set<NodeName> {
    set m | m in l && HolderAt(c, l[m], now)
  }

  function Existing(l: Listing): set<NodeName> {
    set m | m in l && l[m].Enactment?
  }

  predicate Current(e: Enactment) {
    e.Enactment? && e.current
  }

  function TerminallyFailed(l: Listing): set<NodeName> {
    set m | m in l && Current(l[m]) && l[m].phase.Failed?
  }

  function FailingIn(l: Listing): set<NodeName> {
    set m | m in l && Current(l[m]) && (l[m].phase.Failed? || l[m].phase.Retrying?)
  }

  function AbortedIn(l: Listing): set<NodeName> {
    set m | m in l && Current(l[m]) && l[m].phase.Aborted?
  }

  function PendingIn(l: Listing): set<NodeName> {
    set m | m in l && Current(l[m]) && l[m].phase.Pending?
  }

  function AvailableIn(l: Listing): set<NodeName> {
    set m | m in l && Current(l[m]) && l[m].phase.Available?
  }

  // The policy-level verdict that empties the slot map.
  predicate SuccessVerdict(l: Listing, matching: nat, ready: nat) {
    && matching != 0
    && |FailingIn(l)| == 0 && |AbortedIn(l)| == 0
    && |AvailableIn(l)| + |FailingIn(l)| + |AbortedIn(l)| >= ready
    && |PendingIn(l)| == 0
  }

  // Claimed in this reconcile, Progressing marker not yet written.
  predicate Unmarked(pc: Pc) {
    (pc.Marking? && pc.didClaim) || ((pc.Rmw? || pc.RmwRead?) && pc.op.Compensate?)
  }

  function ClaimStamp(pc: Pc): int
    requires Unmarked(pc)
  {
    if pc.Marking? then pc.stamp else pc.op.stamp
  }

  predicate BeforeApply(pc: Pc) {
    (pc.Updating? || pc.UpdateRead? || pc.UpdateListed?) && pc.next.Apply?
  }

  predicate Releasing(pc: Pc) {
    (pc.Rmw? || pc.RmwRead?) && pc.op.Release?
  }

  // Points of a reconcile that rely on the heartbeat already written.
  predicate RelyingOnHeartbeat(pc: Pc) {
    || (pc.Marking? && !pc.didClaim)
    || BeforeApply(pc)
    || pc.Applying? || pc.ApplyFailed? || pc.RetryLater? || pc.GivingUp? || pc.Applied?
    || Releasing(pc)
  }

  predicate Fresh(c: Config, p: Phase, now: int) {
    IsProgressing(p) && now + Lag(c) < p.hb + c.threshold
  }

  // How far time may go with the node where it is, if the promises about time are kept.
  predicate Timely(c: Config, ns: NodeState, now: int) {
    && (c.env.marksInTime && Unmarked(ns.pc) ==> now < ClaimStamp(ns.pc) + c.grace)
    && (c.env.appliesInTime && RelyingOnHeartbeat(ns.pc) && ns.enactment.Enactment? && IsProgressing(ns.enactment.phase)
        ==> Fresh(c, ns.enactment.phase, now))
  }

  predicate WritesHeartbeat(c: Config, now: int, hb: int) {
    hb <= now && (c.env.appliesInTime ==> now + Lag(c) < hb + c.threshold)
  }

  // A loop with this copy goes on to write.
  predicate Writable(c: Config, op: Op, copy: Policy) {
    if op.Claim? then copy.count < c.max else copy.count > 0
  }

  // ---------- where a step leads ----------

  function AfterAudit(why: Why, repaired: bool): Pc {
    match why
    case ForClaim => if repaired then Rmw(Claim(true)) else Refused
    case ForRelease => Updating(Finish)
    case ForRecovery => Idle
  }

  function AfterUpdate(next: Then): Pc {
    if next.Finish? then Idle else Applying
  }

  function AfterRelease(op: Op): Pc {
    if op.Release? then Released else Updating(Finish)
  }

  // The checks of Reconcile between reading the enactment back and claiming a slot.
  function DispatchTo(c: Config, e: Enactment, wasRetrying: bool): Pc
    requires e.Enactment?
  {
    if e.retry >= c.retries then Updating(Finish)
    else if e.phase.Available? then Audit(ForRelease)
    else if e.phase.Finalizing? then RecordSuccess
    else if IsProgressing(e.phase) then Marking(false, 0)
    else if wasRetrying then Marking(false, 0)
    else Rmw(Claim(false))
  }

  predicate Enabled(c: Config, s: State, n: NodeName, a: Action)
    requires n in s.nodes
  {
    var pc := s.nodes[n].pc;
    var e := s.nodes[n].enactment;
    match a
    case Crash => !pc.Down?
    case Restart => pc.Down?
    case Recover(_) => pc.Recovering?
    case Begin => pc.Idle?
    case FillIn(_) => pc.Initialized? && e.Enactment?
    case NotifyGenerateFailure(_) => pc.GenerateFailed? && e.Enactment?
    case GiveUp => pc.Idle? || pc.Filled?
    case Dispatch =>
      pc.Filled? && e.Enactment?
      && (c.env.freshSkips && DispatchTo(c, e, pc.wasRetrying).Marking? && IsProgressing(e.phase)
          ==> Fresh(c, e.phase, s.clock))
    case ReadPolicy(copy) => pc.Rmw? && PossibleCopy(copy, s.policy)
    case NothingToRelease => pc.RmwRead? && !pc.op.Claim? && pc.copy.count <= 0
    case Conflict => pc.RmwRead?
    case RereadSpoilt =>
      // the write is lost, and the next read finds the change in the cached object
      !c.env.privateCopies && pc.RmwRead? && !pc.op.Compensate? && Writable(c, pc.op, pc.copy)
    case StopTrying(_) => pc.Rmw?
    case LimitReached => pc.RmwRead? && pc.op.Claim? && pc.copy.count >= c.max
    case CommitRmw(stamp) =>
      && pc.RmwRead? && pc.copy.version == s.policy.version && pc.readAt <= stamp <= s.clock
      && Writable(c, pc.op, pc.copy) && (pc.op.Claim? && c.env.marksInTime ==> s.clock < stamp + c.grace)
    case AuditGet(copy) => pc.Audit? && PossibleCopy(copy, s.policy)
    case AuditList => pc.AuditRead?
    case AuditCount => pc.AuditListed? && (c.env.judgesInTime ==> s.clock <= pc.at + c.lag)
    case AuditRetry => pc.AuditCounted?
    case AuditFail => pc.Audit? || pc.AuditRead? || pc.AuditListed? || pc.AuditCounted?
    case CommitAudit(stamp) =>
      pc.AuditCounted? && pc.copy.version == s.policy.version && pc.at <= stamp <= s.clock
    case NotifyPending(_) => pc.Refused? && e.Enactment?
    case ShouldAbort(error) =>
      // a listed enactment without conditions makes the filter fail
      pc.AbortCheck? && (error || forall m | m in s.nodes :: s.nodes[m].enactment.Missing? || !s.nodes[m].enactment.phase.Blank?)
    case NotifyAborted(_) => pc.Aborting? && e.Enactment?
    case NotifyProgressing(ok, hb, _) =>
      pc.Marking? && e.Enactment? && (ok ==> WritesHeartbeat(c, s.clock, hb))
    case ApplyDone(_) => pc.Applying?
    case RecordRetry(_) => pc.ApplyFailed? && e.Enactment?
    case NotifyFailed(_) => pc.GivingUp? && e.Enactment?
    case NotifyRetrying(ok, hb) =>
      pc.RetryLater? && e.Enactment? && (ok ==> WritesHeartbeat(c, s.clock, hb))
    case NotifyFinalizing(ok, hb) =>
      pc.Applied? && e.Enactment? && (ok ==> WritesHeartbeat(c, s.clock, hb))
    case NotifySuccess(_) => (pc.Released? || pc.RecordSuccess?) && e.Enactment?
    case UpdateGet(copy) => pc.Updating? && PossibleCopy(copy, s.policy)
    case UpdateList(_, ready) => pc.UpdateRead? && (c.env.readyCovers ==> |Existing(Enactments(s))| <= ready)
    case UpdateRetry => pc.UpdateRead? || pc.UpdateListed?
    case UpdateFail => pc.Updating? || pc.UpdateRead? || pc.UpdateListed?
    case CommitUpdate => pc.UpdateListed? && pc.copy.version == s.policy.version
  }

  // The acting node's next state.
  function NodeEffect(c: Config, s: State, n: NodeName, a: Action): (r: NodeState)
    requires n in s.nodes && Enabled(c, s, n, a)
  {
    var ns := s.nodes[n];
    var pc := ns.pc;
    var e := ns.enactment;
    match a
    case Crash => ns.(pc := Down, owns := ns.owns && !Unmarked(pc))
    case Restart => ns.(pc := Recovering)
    case Recover(ok) =>
      if ok && e.Enactment? && e.phase.Finalizing? then
        ns.(pc := Audit(ForRecovery), enactment := e.(phase := Available), owns := false)
      else if ok && e.Enactment? && IsProgressing(e.phase) then
        ns.(pc := Audit(ForRecovery),
            enactment := e.(phase := Pending, retry := if e.current then 0 else e.retry), owns := false)
      else ns.(pc := Idle)
    case Begin =>
      if e.Missing? then ns.(pc := Initialized(false), enactment := Enactment(false, Unknown, 0))
      else ns.(pc := Initialized(e.phase.Retrying?))
    case FillIn(outcome) =>
      if outcome.WriteError? then ns.(pc := Updating(Finish))
      else ns.(pc := if outcome.Generated? then Filled(pc.wasRetrying) else GenerateFailed,
               enactment := e.(current := true, phase := if e.current then e.phase else Blank))
    case NotifyGenerateFailure(ok) =>
      ns.(pc := Updating(Finish), enactment := if ok then e.(phase := Failed) else e)
    case GiveUp => ns.(pc := Updating(Finish))
    case Dispatch => ns.(pc := DispatchTo(c, e, pc.wasRetrying))
    case ReadPolicy(copy) => ns.(pc := RmwRead(pc.op, copy, s.clock))
    case NothingToRelease => ns.(pc := AfterRelease(pc.op), owns := false)
    case Conflict => ns.(pc := Rmw(pc.op))
    case RereadSpoilt =>
      ns.(pc := RmwRead(pc.op, pc.copy.(count := pc.copy.count + (if pc.op.Claim? then 1 else -1)), s.clock))
    case StopTrying(conflict) =>
      (match pc.op
       case Claim(_) => ns.(pc := if conflict then Refused else Updating(Finish))
       case Compensate(_) => ns.(pc := Updating(Finish), owns := false)
       case Release => ns.(pc := Updating(Finish)))
    case LimitReached => ns.(pc := if pc.op.second then Refused else Audit(ForClaim))
    case CommitRmw(stamp) =>
      if pc.op.Claim? then ns.(pc := Marking(true, stamp), owns := true, claims := ns.claims + 1)
      else ns.(pc := AfterRelease(pc.op), owns := false, releases := ns.releases + 1)
    case AuditGet(copy) =>
      if InGrace(c, copy.lastUpdate, s.clock) || copy.count == 0 then ns.(pc := AfterAudit(pc.why, false))
      else ns.(pc := AuditRead(pc.why, copy))
    case AuditList => ns.(pc := AuditListed(pc.why, pc.copy, Enactments(s), s.clock))
    case AuditCount =>
      var holders := |Holders(c, pc.listed, s.clock)|;
      if holders >= pc.copy.count then ns.(pc := AfterAudit(pc.why, false))
      else ns.(pc := AuditCounted(pc.why, pc.copy, holders, s.clock))
    case AuditRetry => ns.(pc := Audit(pc.why))
    case AuditFail => ns.(pc := AfterAudit(pc.why, false))
    case CommitAudit(_) => ns.(pc := AfterAudit(pc.why, true))
    case NotifyPending(ok) =>
      if ok then ns.(pc := AbortCheck, enactment := e.(phase := Pending), owns := false) else ns.(pc := AbortCheck)
    case ShouldAbort(error) =>
      ns.(pc := if !error && |TerminallyFailed(Enactments(s))| >= c.max then Aborting else Updating(Finish))
    case NotifyAborted(ok) =>
      if ok then ns.(pc := Updating(Finish), enactment := e.(phase := Aborted), owns := false)
      else ns.(pc := Updating(Finish))
    case NotifyProgressing(ok, hb, policyUnknown) =>
      if ok then ns.(pc := if policyUnknown then Updating(Apply) else Applying, enactment := e.(phase := Progressing(hb)))
      else ns.(pc := if pc.didClaim then Rmw(Compensate(pc.stamp)) else Updating(Finish))
    case ApplyDone(ok) => ns.(pc := if ok then Applied else ApplyFailed)
    case RecordRetry(ok) =>
      if !ok then ns.(pc := Updating(Finish))
      else ns.(pc := if e.retry + 1 >= c.retries then GivingUp else RetryLater, enactment := e.(retry := e.retry + 1))
    case NotifyFailed(ok) =>
      if ok then ns.(pc := Updating(Finish), enactment := e.(phase := Failed), exhausted := true)
      else ns.(pc := Updating(Finish))
    case NotifyRetrying(ok, hb) =>
      ns.(pc := Updating(Finish), enactment := if ok then e.(phase := Retrying(hb)) else e)
    case NotifyFinalizing(ok, hb) =>
      if ok then ns.(pc := Rmw(Release), enactment := e.(phase := Finalizing(hb))) else ns.(pc := Updating(Finish))
    case NotifySuccess(ok) =>
      if !ok then ns.(pc := Updating(Finish))
      else ns.(pc := if pc.Released? then Updating(Finish) else Audit(ForRelease),
               enactment := e.(phase := Available), owns := false)
    case UpdateGet(copy) => ns.(pc := UpdateRead(pc.next, copy))
    case UpdateList(matching, ready) => ns.(pc := UpdateListed(pc.next, pc.copy, Enactments(s), matching, ready))
    case UpdateRetry => ns.(pc := Updating(pc.next))
    case UpdateFail => ns.(pc := AfterUpdate(pc.next))
    case CommitUpdate => ns.(pc := AfterUpdate(pc.next))
  }

  // The policy after the step: changed only by the three commits, each at the version it read.
  function PolicyEffect(c: Config, s: State, n: NodeName, a: Action): (p: Policy)
    requires n in s.nodes && Enabled(c, s, n, a)
  {
    var pc := s.nodes[n].pc;
    match a
    case CommitRmw(stamp) =>
      Policy(s.policy.version + 1, if pc.op.Claim? then pc.copy.count + 1 else pc.copy.count - 1, At(stamp))
    case CommitAudit(stamp) => Policy(s.policy.version + 1, pc.holders, At(stamp))
    case CommitUpdate =>
      s.policy.(version := s.policy.version + 1,
                count := if SuccessVerdict(pc.listed, pc.matching, pc.ready) then 0 else pc.copy.count)
    case _ => s.policy
  }

  // A slot whose holder sits idle on a stale heartbeat is no longer owned.
  function Aged(c: Config, ns: NodeState, now: int): NodeState {
    if ns.owns && !Unmarked(ns.pc) && ns.enactment.Enactment?
       && IsProgressing(ns.enactment.phase) && !Fresh(c, ns.enactment.phase, now)
    then ns.(owns := false) else ns
  }

  predicate StepEnabled(c: Config, s: State, st: Step) {
    match st
    case Tick(t) => t > s.clock && forall m | m in s.nodes :: Timely(c, s.nodes[m], t)
    case OtherWrite(_) => true
    case Act(n, a) => n in s.nodes && Enabled(c, s, n, a)
  }

  function Do(c: Config, s: State, st: Step): (r: State)
    requires StepEnabled(c, s, st)
  {
    match st
    case Tick(t) => State(t, s.policy, map m | m in s.nodes :: Aged(c, s.nodes[m], t))
    case OtherWrite(touch) =>
      s.(policy := s.policy.(version := s.policy.version + 1,
                             lastUpdate := if touch then At(s.clock) else s.policy.lastUpdate))
    case Act(n, a) => State(s.clock, PolicyEffect(c, s, n, a), s.nodes[n := NodeEffect(c, s, n, a)])
  }

  // ---------- runs ----------

  predicate CanRun(c: Config, s: State, steps: seq<Step>)
    decreases |steps|
  {
    steps == [] || (StepEnabled(c, s, steps[0]) && CanRun(c, Do(c, s, steps[0]), steps[1..]))
  }

  function Run(c: Config, s: State, steps: seq<Step>): (r: State)
    requires CanRun(c, s, steps)
    decreases |steps|
  {
    if steps == [] then s else Run(c, Do(c, s, steps[0]), steps[1..])
  }

  // A new generation: no slot claimed, every enactment missing or of an earlier generation.
  predicate Init(c: Config, s: State) {
    && s.nodes.Keys == c.nodes
    && s.policy.count == 0
    && (s.policy.lastUpdate.At? ==> s.policy.lastUpdate.time <= s.clock)
    && forall m | m in s.nodes :: InitNode(s.nodes[m])
  }

  predicate InitNode(ns: NodeState) {
    && (ns.pc.Idle? || ns.pc.Down?)
    && (ns.enactment.Enactment? ==> !ns.enactment.current && ns.enactment.retry == 0)
    && !ns.owns && !ns.exhausted && ns.claims == 0 && ns.releases == 0
  }

  // Left Retrying by an earlier generation.
  predicate StaleRetrying(ns: NodeState) {
    ns.enactment.Enactment? && !ns.enactment.current && ns.enactment.phase.Retrying?
  }

  function Appliers(s: State): set<NodeName> {
    set m | m in s.nodes && s.nodes[m].pc.Applying?
  }

  function Owners(s: State): set<NodeName> {
    set m | m in s.nodes && s.nodes[m].owns
  }

  function ExhaustedNodes(s: State): set<NodeName> {
    set m | m in s.nodes && s.nodes[m].exhausted
  }
}
