/**
 Runs that reach the limits of the slot guarantee: what a node left Retrying does to it, and
 what the lost write of a terminal failure does to the bound on exhausted nodes.
 */
module SlotLimits {
  import opened Phases
  import opened SlotModel
  import opened SlotInvariant
  import opened SlotSafety

  // ---------- building runs ----------

  lemma RunCons(c: Config, s: State, st: Step, rest: seq<Step>)
    requires StepEnabled(c, s, st) && CanRun(c, Do(c, s, st), rest)
    ensures CanRun(c, s, [st] + rest) && Run(c, s, [st] + rest) == Run(c, Do(c, s, st), rest)
  {
    assert ([st] + rest)[1..] == rest;
  }

  lemma {:induction false} RunAppend(c: Config, s: State, xs: seq<Step>, ys: seq<Step>)
    requires CanRun(c, s, xs) && CanRun(c, Run(c, s, xs), ys)
    ensures CanRun(c, s, xs + ys) && Run(c, s, xs + ys) == Run(c, Run(c, s, xs), ys)
    decreases |xs|
  {
    if xs == [] {
      assert xs + ys == ys;
    } else {
      RunAppend(c, Do(c, s, xs[0]), xs[1..], ys);
      RunCons(c, s, xs[0], xs[1..] + ys);
      assert [xs[0]] + (xs[1..] + ys) == xs + ys;
    }
  }

  ghost predicate Connected(c: Config, s: State, s': State) {
    exists steps :: CanRun(c, s, steps) && Run(c, s, steps) == s'
  }

  lemma ConnectedSelf(c: Config, s: State)
    ensures Connected(c, s, s)
  {
    assert CanRun(c, s, []) && Run(c, s, []) == s;
  }

  lemma ConnectedStep(c: Config, s: State, st: Step, s': State)
    requires StepEnabled(c, s, st) && Connected(c, Do(c, s, st), s')
    ensures Connected(c, s, s')
  {
    var steps :| CanRun(c, Do(c, s, st), steps) && Run(c, Do(c, s, st), steps) == s';
    RunCons(c, s, st, steps);
  }

  lemma ConnectedTrans(c: Config, s: State, s1: State, s2: State)
    requires Connected(c, s, s1) && Connected(c, s1, s2)
    ensures Connected(c, s, s2)
  {
    var p :| CanRun(c, s, p) && Run(c, s, p) == s1;
    var q :| CanRun(c, s1, q) && Run(c, s1, q) == s2;
    RunAppend(c, s, p, q);
  }

  // s' is reached from s by steps of x alone, with the clock standing still.
  ghost predicate Reaches(c: Config, s: State, x: NodeName, s': State) {
    && s'.clock == s.clock && x in s'.nodes && s'.nodes == s.nodes[x := s'.nodes[x]]
    && Connected(c, s, s')
  }

  lemma ReachesStep(c: Config, s: State, x: NodeName, a: Action, s': State)
    requires x in s.nodes && Enabled(c, s, x, a) && Reaches(c, Do(c, s, Act(x, a)), x, s')
    ensures Reaches(c, s, x, s')
  {
    ConnectedStep(c, s, Act(x, a), s');
  }

  lemma ReachesSelf(c: Config, s: State, x: NodeName)
    requires x in s.nodes
    ensures Reaches(c, s, x, s)
  {
    ConnectedSelf(c, s);
  }

  lemma ReachesTrans(c: Config, s: State, x: NodeName, s1: State, s2: State)
    requires Reaches(c, s, x, s1) && Reaches(c, s1, x, s2)
    ensures Reaches(c, s, x, s2)
  {
    ConnectedTrans(c, s, s1, s2);
  }

  // A handler that is down can restart and find nothing to recover.
  lemma ToIdle(c: Config, s: State, x: NodeName) returns (s': State)
    requires x in s.nodes && (s.nodes[x].pc.Idle? || s.nodes[x].pc.Down?)
    ensures Reaches(c, s, x, s') && s'.policy == s.policy && s'.nodes[x] == s.nodes[x].(pc := Idle)
  {
    s' := s;
    ReachesSelf(c, s, x);
    if s.nodes[x].pc.Down? {
      var s1 := Do(c, s, Act(x, Restart));
      s' := Do(c, s1, Act(x, Recover(false)));
      ReachesSelf(c, s', x);
      ReachesStep(c, s1, x, Recover(false), s');
      ReachesStep(c, s, x, Restart, s');
    }
  }

  // A node about to write its Progressing marker can go on to apply.
  lemma MarkThenApply(c: Config, s: State, x: NodeName) returns (s': State)
    requires ValidConfig(c) && x in s.nodes && s.nodes[x].pc.Marking? && s.nodes[x].enactment.Enactment?
    ensures Reaches(c, s, x, s') && s'.nodes[x].pc.Applying? && s'.policy == s.policy
    ensures s'.nodes[x].enactment == s.nodes[x].enactment.(phase := Progressing(s.clock))
  {
    s' := Do(c, s, Act(x, NotifyProgressing(true, s.clock, false)));
    ReachesSelf(c, s', x);
    ReachesStep(c, s, x, NotifyProgressing(true, s.clock, false), s');
  }

  lemma ClaimThenApply(c: Config, s: State, x: NodeName) returns (s': State)
    requires ValidConfig(c) && x in s.nodes && s.nodes[x].enactment.Enactment?
    requires s.nodes[x].pc.Rmw? && s.nodes[x].pc.op.Claim? && s.policy.count < c.max
    ensures Reaches(c, s, x, s') && s'.nodes[x].pc.Applying?
    ensures s'.policy.count == s.policy.count + 1 && s'.policy.lastUpdate == At(s.clock)
    ensures s'.nodes[x].enactment == s.nodes[x].enactment.(phase := Progressing(s.clock))
  {
    var s1 := Do(c, s, Act(x, ReadPolicy(s.policy)));
    var s2 := Do(c, s1, Act(x, CommitRmw(s1.clock)));
    s' := MarkThenApply(c, s2, x);
    ReachesStep(c, s1, x, CommitRmw(s1.clock), s');
    ReachesStep(c, s, x, ReadPolicy(s.policy), s');
  }

  // An idle node of a new generation can apply if a slot is free, or if it was left Retrying.
  lemma StartThenApply(c: Config, s: State, x: NodeName) returns (s': State)
    requires ValidConfig(c) && x in s.nodes && InitNode(s.nodes[x]) && s.nodes[x].pc.Idle?
    requires s.policy.count < c.max || StaleRetrying(s.nodes[x])
    ensures Reaches(c, s, x, s') && s'.nodes[x].pc.Applying? && s'.policy.count <= s.policy.count + 1
    ensures s'.policy.lastUpdate == s.policy.lastUpdate || s'.policy.lastUpdate == At(s.clock)
    ensures Current(s'.nodes[x].enactment) && s'.nodes[x].enactment.phase == Progressing(s.clock)
    ensures s.policy.count <= s'.policy.count
  {
    var s1 := Do(c, s, Act(x, Begin));
    var s2 := Do(c, s1, Act(x, FillIn(Generated)));
    var s3 := Do(c, s2, Act(x, Dispatch));
    if StaleRetrying(s.nodes[x]) {
      s' := MarkThenApply(c, s3, x);
    } else {
      s' := ClaimThenApply(c, s3, x);
    }
    ReachesStep(c, s2, x, Dispatch, s');
    ReachesStep(c, s1, x, FillIn(Generated), s');
    ReachesStep(c, s, x, Begin, s');
  }

  lemma OneApplies(c: Config, s: State, x: NodeName) returns (s': State)
    requires ValidConfig(c) && x in s.nodes && InitNode(s.nodes[x])
    requires s.policy.count < c.max || StaleRetrying(s.nodes[x])
    ensures Reaches(c, s, x, s') && s'.nodes[x].pc.Applying? && s'.policy.count <= s.policy.count + 1
    ensures s'.policy.lastUpdate == s.policy.lastUpdate || s'.policy.lastUpdate == At(s.clock)
    ensures Current(s'.nodes[x].enactment) && s'.nodes[x].enactment.phase == Progressing(s.clock)
    ensures s.policy.count <= s'.policy.count
  {
    var s0 := ToIdle(c, s, x);
    s' := StartThenApply(c, s0, x);
    ReachesTrans(c, s, x, s0, s');
  }

  // Any k nodes can be brought to apply one after the other while k slots are free.
  lemma {:induction false} ManyApply(c: Config, s: State, xs: set<NodeName>) returns (s': State)
    requires ValidConfig(c) && xs <= s.nodes.Keys && (forall x | x in xs :: InitNode(s.nodes[x]))
    requires s.policy.count + |xs| <= c.max
    ensures Connected(c, s, s')
    ensures s'.nodes.Keys == s.nodes.Keys && s'.policy.count <= s.policy.count + |xs|
    ensures forall x | x in xs :: x in s'.nodes && s'.nodes[x].pc.Applying?
    ensures forall x | x in xs :: Current(s'.nodes[x].enactment) && s'.nodes[x].enactment.phase.Progressing?
    ensures forall x | x in s.nodes && x !in xs :: x in s'.nodes && s'.nodes[x] == s.nodes[x]
    decreases |xs|
  {
    if xs == {} {
      s' := s;
      ConnectedSelf(c, s);
    } else {
      var x :| x in xs;
      var s1 := OneApplies(c, s, x);
      s' := ManyApply(c, s1, xs - {x});
      ConnectedTrans(c, s, s1, s');
    }
  }

  lemma {:induction false} Choose<T>(all: set<T>, k: nat) returns (some: set<T>)
    requires k <= |all|
    ensures some <= all && |some| == k
  {
    if k == 0 {
      some := {};
    } else {
      var x :| x in all;
      some := Choose(all - {x}, k - 1);
      some := some + {x};
    }
  }

  // ---------- a node left Retrying ----------

  ghost predicate AlwaysWithinMax(c: Config, s: State) {
    forall steps | CanRun(c, s, steps) :: |Appliers(Run(c, s, steps))| <= c.max
  }

  // A node left Retrying by the previous generation skips its claim in the new one.
  lemma StaleRetryingBreaks(c: Config, s: State, r: NodeName)
    requires ValidConfig(c) && Init(c, s) && |c.nodes| > c.max
    requires r in s.nodes && StaleRetrying(s.nodes[r])
    ensures !AlwaysWithinMax(c, s)
  {
    var xs := Choose(c.nodes - {r}, c.max);
    var s1 := ManyApply(c, s, xs);
    var s2 := OneApplies(c, s1, r);
    ConnectedTrans(c, s, s1, s2);
    assert xs + {r} <= Appliers(s2);
    SubsetSize(xs + {r}, Appliers(s2));
  }

  lemma {:induction false} RunKeepsKeys(c: Config, s: State, steps: seq<Step>)
    requires CanRun(c, s, steps)
    ensures Run(c, s, steps).nodes.Keys == s.nodes.Keys
    decreases |steps|
  {
    if steps != [] { RunKeepsKeys(c, Do(c, s, steps[0]), steps[1..]); }
  }

  // ---------- nodes that used up their retries ----------

  predicate Spent(c: Config, ns: NodeState) {
    ns.enactment.Enactment? && ns.enactment.retry >= c.retries
  }

  function SpentNodes(c: Config, s: State): set<NodeName> {
    set m | m in s.nodes && Spent(c, s.nodes[m])
  }

  // The terminal failure of a spent node is not recorded: its write fails or its handler dies first.
  predicate LosesFailure(s: State, st: Step) {
    st.Act? && st.node in s.nodes
    && (st.action == NotifyFailed(false) || (st.action.Crash? && s.nodes[st.node].pc.GivingUp?))
  }

  predicate RecordsFailures(c: Config, s: State, steps: seq<Step>)
    requires CanRun(c, s, steps)
    decreases |steps|
  {
    steps == [] || (!LosesFailure(s, steps[0]) && RecordsFailures(c, Do(c, s, steps[0]), steps[1..]))
  }

  predicate Recorded(c: Config, ns: NodeState) {
    Spent(c, ns) ==> ns.exhausted || ns.pc.GivingUp?
  }

  lemma StepKeepsRecorded(c: Config, s: State, st: Step)
    requires StepEnabled(c, s, st) && !LosesFailure(s, st) && ValidConfig(c)
    requires forall m | m in s.nodes :: Recorded(c, s.nodes[m])
    ensures forall m | m in Do(c, s, st).nodes :: Recorded(c, Do(c, s, st).nodes[m])
  {
    if st.Act? {
      assert Recorded(c, s.nodes[st.node]);
      assert Recorded(c, NodeEffect(c, s, st.node, st.action));
    }
  }

  lemma {:induction false} RunKeepsRecorded(c: Config, s: State, steps: seq<Step>)
    requires ValidConfig(c) && CanRun(c, s, steps) && RecordsFailures(c, s, steps)
    requires forall m | m in s.nodes :: Recorded(c, s.nodes[m])
    ensures forall m | m in Run(c, s, steps).nodes :: Recorded(c, Run(c, s, steps).nodes[m])
    decreases |steps|
  {
    if steps != [] {
      StepKeepsRecorded(c, s, steps[0]);
      RunKeepsRecorded(c, Do(c, s, steps[0]), steps[1..]);
    }
  }

  // As long as terminal failures get recorded, at most maxUnavailable nodes use up their retries.
  lemma AtMostMaxSpent(c: Config, s: State, steps: seq<Step>)
    requires Start(c, s)
    requires CanRun(c, s, steps) && RecordsFailures(c, s, steps)
    ensures |SpentNodes(c, Run(c, s, steps))| <= c.max
  {
    forall m | m in s.nodes ensures Recorded(c, s.nodes[m]) { assert InitNode(s.nodes[m]); }
    RunKeepsRecorded(c, s, steps);
    ReachableInv(c, s, steps);
    var r := Run(c, s, steps);
    forall m | m in SpentNodes(c, r) ensures m in Owners(r) {
      assert Recorded(c, r.nodes[m]) && LocalInv(c, r.clock, r.policy, r.nodes[m]);
    }
    SubsetSize(SpentNodes(c, r), Owners(r));
  }

  predicate StuckProgressing(e: Enactment, now: int) {
    Current(e) && e.phase.Progressing? && e.phase.hb <= now
  }

  // The deferred status update may fail; the reconcile ends all the same.
  lemma SkipUpdate(c: Config, s: State, x: NodeName) returns (s': State)
    requires x in s.nodes && s.nodes[x].pc == Updating(Finish)
    ensures Reaches(c, s, x, s') && s'.policy == s.policy && s'.nodes[x] == s.nodes[x].(pc := Idle)
  {
    s' := Do(c, s, Act(x, UpdateFail));
    ReachesSelf(c, s', x);
    ReachesStep(c, s, x, UpdateFail, s');
  }

  // The failed attempt's own status write is lost.
  lemma LoseNotice(c: Config, s: State, x: NodeName) returns (s': State)
    requires x in s.nodes && (s.nodes[x].pc.GivingUp? || s.nodes[x].pc.RetryLater?) && s.nodes[x].enactment.Enactment?
    ensures Reaches(c, s, x, s') && s'.policy == s.policy && s'.nodes[x] == s.nodes[x].(pc := Updating(Finish))
  {
    var lost := if s.nodes[x].pc.GivingUp? then NotifyFailed(false) else NotifyRetrying(false, 0);
    s' := Do(c, s, Act(x, lost));
    ReachesSelf(c, s', x);
    ReachesStep(c, s, x, lost, s');
  }

  // A failed attempt that leaves retries is requeued...
  lemma FailAttempt(c: Config, s: State, x: NodeName) returns (s': State)
    requires ValidConfig(c) && x in s.nodes && s.nodes[x].pc.Applying? && StuckProgressing(s.nodes[x].enactment, s.clock)
    ensures Reaches(c, s, x, s') && s'.policy == s.policy && s'.nodes[x].pc.Updating?
    ensures s'.nodes[x].enactment == s.nodes[x].enactment.(retry := s.nodes[x].enactment.retry + 1)
    ensures s'.nodes[x].pc.next.Finish?
  {
    var s1 := Do(c, s, Act(x, ApplyDone(false)));
    var s2 := Do(c, s1, Act(x, RecordRetry(true)));
    s' := LoseNotice(c, s2, x);
    ReachesStep(c, s1, x, RecordRetry(true), s');
    ReachesStep(c, s, x, ApplyDone(false), s');
  }

  // ...and resumed without a claim, on the strength of its Progressing marker.
  lemma ResumeApply(c: Config, s: State, x: NodeName) returns (s': State)
    requires ValidConfig(c) && x in s.nodes && s.nodes[x].pc.Idle? && StuckProgressing(s.nodes[x].enactment, s.clock)
    requires (c.env.freshSkips ==> Fresh(c, s.nodes[x].enactment.phase, s.clock)) && !Spent(c, s.nodes[x])
    ensures Reaches(c, s, x, s') && s'.policy == s.policy && s'.nodes[x].pc.Applying?
    ensures s'.nodes[x].enactment == s.nodes[x].enactment.(phase := Progressing(s.clock))
  {
    var s1 := Do(c, s, Act(x, Begin));
    var s2 := Do(c, s1, Act(x, FillIn(Generated)));
    var s3 := Do(c, s2, Act(x, Dispatch));
    s' := MarkThenApply(c, s3, x);
    ReachesStep(c, s2, x, Dispatch, s');
    ReachesStep(c, s1, x, FillIn(Generated), s');
    ReachesStep(c, s, x, Begin, s');
  }

  // An applying node can fail until its retries are used up and then lose the terminal write.
  lemma {:induction false} SpendRetries(c: Config, s: State, x: NodeName) returns (s': State)
    requires ValidConfig(c) && x in s.nodes && s.nodes[x].pc.Applying? && StuckProgressing(s.nodes[x].enactment, s.clock)
    requires Fresh(c, s.nodes[x].enactment.phase, s.clock)
    ensures Reaches(c, s, x, s') && s'.policy == s.policy
    ensures s'.nodes[x].pc.Idle? && Spent(c, s'.nodes[x]) && StuckProgressing(s'.nodes[x].enactment, s.clock)
    decreases c.retries - s.nodes[x].enactment.retry
  {
    var s1 := FailAttempt(c, s, x);
    s' := SkipUpdate(c, s1, x);
    ReachesTrans(c, s, x, s1, s');
    if !Spent(c, s'.nodes[x]) {
      var s2 := ResumeApply(c, s', x);
      ReachesTrans(c, s, x, s', s2);
      s' := SpendRetries(c, s2, x);
      ReachesTrans(c, s, x, s2, s');
    }
  }

  // ---------- and what losing the terminal write does ----------

  // A node that spent its retries and whose marker has gone stale.
  predicate SpentAndStale(c: Config, ns: NodeState, now: int) {
    ns.pc.Idle? && Spent(c, ns) && Current(ns.enactment) && ns.enactment.phase.Progressing?
    && ns.enactment.phase.hb + c.threshold <= now
  }

  // xs are spent and stale, everyone else is untouched, and the last counter update is old.
  ghost predicate Burnt(c: Config, s: State, xs: set<NodeName>) {
    && xs <= s.nodes.Keys
    && (forall x | x in xs :: SpentAndStale(c, s.nodes[x], s.clock))
    && (forall x | x in s.nodes && x !in xs :: InitNode(s.nodes[x]))
    && !InGrace(c, s.policy.lastUpdate, s.clock) && NotAfter(s.policy.lastUpdate, s.clock)
    && 0 <= s.policy.count <= c.max
  }

  // Refused at the cap, x audits the counter: nobody counts as a holder, so every slot is freed.
  lemma AuditFreesAll(c: Config, s: State, x: NodeName) returns (s': State)
    requires ValidConfig(c) && x in s.nodes && s.nodes[x].pc == Rmw(Claim(false)) && s.policy.count >= c.max
    requires !InGrace(c, s.policy.lastUpdate, s.clock) && Holders(c, Enactments(s), s.clock) == {}
    ensures Reaches(c, s, x, s') && s'.nodes[x].enactment == s.nodes[x].enactment
    ensures s'.nodes[x].pc == Rmw(Claim(true)) && s'.policy.count == 0
  {
    var s1 := Do(c, s, Act(x, ReadPolicy(s.policy)));
    var s2 := Do(c, s1, Act(x, LimitReached));
    s' := AuditToZero(c, s2, x, Enactments(s));
    ReachesStep(c, s1, x, LimitReached, s');
    ReachesStep(c, s, x, ReadPolicy(s.policy), s');
  }

  lemma AuditToZero(c: Config, s: State, x: NodeName, l: Listing) returns (s': State)
    requires ValidConfig(c) && x in s.nodes && s.nodes[x].pc == Audit(ForClaim) && s.policy.count >= c.max
    requires !InGrace(c, s.policy.lastUpdate, s.clock) && Enactments(s) == l && Holders(c, l, s.clock) == {}
    ensures Reaches(c, s, x, s') && s'.nodes[x].enactment == s.nodes[x].enactment
    ensures s'.nodes[x].pc == Rmw(Claim(true)) && s'.policy.count == 0
  {
    var s1 := Do(c, s, Act(x, AuditGet(s.policy)));
    assert Enactments(s1) == l;
    var s2 := Do(c, s1, Act(x, AuditList));
    s' := JudgeAndRepair(c, s2, x);
    ReachesStep(c, s1, x, AuditList, s');
    ReachesStep(c, s, x, AuditGet(s.policy), s');
  }

  lemma JudgeAndRepair(c: Config, s: State, x: NodeName) returns (s': State)
    requires ValidConfig(c) && x in s.nodes && s.nodes[x].pc.AuditListed? && s.nodes[x].pc.why.ForClaim?
    requires c.env.judgesInTime ==> s.clock <= s.nodes[x].pc.at + c.lag
    requires s.nodes[x].pc.copy == s.policy && s.policy.count > 0
    requires Holders(c, s.nodes[x].pc.listed, s.clock) == {}
    ensures Reaches(c, s, x, s') && s'.nodes[x].enactment == s.nodes[x].enactment
    ensures s'.nodes[x].pc == Rmw(Claim(true)) && s'.policy.count == 0
  {
    var s1 := Do(c, s, Act(x, AuditCount));
    s' := Do(c, s1, Act(x, CommitAudit(s.clock)));
    ReachesSelf(c, s', x);
    ReachesStep(c, s1, x, CommitAudit(s.clock), s');
    ReachesStep(c, s, x, AuditCount, s');
  }

  // x starts its reconcile and arrives at its claim.
  lemma StartToClaim(c: Config, s: State, x: NodeName) returns (s': State)
    requires ValidConfig(c) && x in s.nodes && InitNode(s.nodes[x]) && !StaleRetrying(s.nodes[x])
    ensures Reaches(c, s, x, s') && s'.policy == s.policy && s'.nodes[x].pc == Rmw(Claim(false))
    ensures s'.nodes[x].enactment == Enactment(true, Blank, 0) && !s'.nodes[x].owns
  {
    var s0 := ToIdle(c, s, x);
    s' := IdleToClaim(c, s0, x);
    ReachesTrans(c, s, x, s0, s');
  }

  lemma IdleToClaim(c: Config, s: State, x: NodeName) returns (s': State)
    requires ValidConfig(c) && x in s.nodes && InitNode(s.nodes[x]) && !StaleRetrying(s.nodes[x]) && s.nodes[x].pc.Idle?
    ensures Reaches(c, s, x, s') && s'.policy == s.policy && s'.nodes[x].pc == Rmw(Claim(false))
    ensures s'.nodes[x].enactment == Enactment(true, Blank, 0) && !s'.nodes[x].owns
  {
    var s1 := Do(c, s, Act(x, Begin));
    var s2 := Do(c, s1, Act(x, FillIn(Generated)));
    s' := Do(c, s2, Act(x, Dispatch));
    ReachesSelf(c, s', x);
    ReachesStep(c, s2, x, Dispatch, s');
    ReachesStep(c, s1, x, FillIn(Generated), s');
    ReachesStep(c, s, x, Begin, s');
  }

  // Nobody counts as a holder, and the counter may be audited.
  ghost predicate Quiet(c: Config, s: State) {
    && (forall m | m in s.nodes :: !HolderAt(c, s.nodes[m].enactment, s.clock))
    && !InGrace(c, s.policy.lastUpdate, s.clock) && 0 <= s.policy.count <= c.max
  }

  // One more node gets to apply, freeing the slots of the others if need be.
  lemma ApplyPastStale(c: Config, s: State, x: NodeName) returns (s': State)
    requires ValidConfig(c) && Quiet(c, s) && x in s.nodes && InitNode(s.nodes[x]) && !StaleRetrying(s.nodes[x])
    ensures Reaches(c, s, x, s') && s'.nodes[x].pc.Applying?
    ensures s'.policy.lastUpdate == At(s.clock) && 0 <= s'.policy.count <= c.max
    ensures Current(s'.nodes[x].enactment) && s'.nodes[x].enactment.phase == Progressing(s.clock)
  {
    var s1 := StartToClaim(c, s, x);
    var s2 := s1;
    ReachesSelf(c, s1, x);
    if s1.policy.count >= c.max {
      assert Holders(c, Enactments(s1), s1.clock) == {};
      s2 := AuditFreesAll(c, s1, x);
    }
    s' := ClaimThenApply(c, s2, x);
    ReachesTrans(c, s1, x, s2, s');
    ReachesTrans(c, s, x, s1, s');
  }

  lemma BurnOne(c: Config, s: State, xs: set<NodeName>, x: NodeName) returns (s': State)
    requires ValidConfig(c) && Burnt(c, s, xs) && x in s.nodes && x !in xs && NoStaleRetrying(s)
    ensures Connected(c, s, s')
    ensures Burnt(c, s', xs + {x}) && NoStaleRetrying(s') && s'.nodes.Keys == s.nodes.Keys
  {
    var s1 := ApplyPastStale(c, s, x);
    var s2 := SpendRetries(c, s1, x);
    ReachesTrans(c, s, x, s1, s2);
    s' := LetMarkersExpire(c, s, xs, x, s2);
    ConnectedTrans(c, s, s2, s');
  }

  lemma LetMarkersExpire(c: Config, s0: State, xs: set<NodeName>, x: NodeName, s: State) returns (s': State)
    requires ValidConfig(c) && Burnt(c, s0, xs) && NoStaleRetrying(s0) && x in s0.nodes
    requires s.clock == s0.clock && x in s.nodes && s.nodes == s0.nodes[x := s.nodes[x]]
    requires s.nodes[x].pc.Idle? && Spent(c, s.nodes[x]) && StuckProgressing(s.nodes[x].enactment, s.clock)
    requires s.policy.lastUpdate == At(s.clock) && 0 <= s.policy.count <= c.max
    ensures Connected(c, s, s')
    ensures Burnt(c, s', xs + {x}) && NoStaleRetrying(s') && s'.nodes.Keys == s.nodes.Keys
  {
    var t := s.clock + c.threshold + c.grace;
    forall m | m in s.nodes ensures Timely(c, s.nodes[m], t) {
      assert m == x || m in xs || InitNode(s0.nodes[m]);
    }
    s' := Do(c, s, Tick(t));
    ConnectedSelf(c, s');
    ConnectedStep(c, s, Tick(t), s');
  }

  lemma {:induction false} BurnMany(c: Config, s: State, xs: set<NodeName>, zs: set<NodeName>) returns (s': State)
    requires ValidConfig(c) && Burnt(c, s, xs) && xs <= zs <= s.nodes.Keys && NoStaleRetrying(s)
    ensures Connected(c, s, s') && Burnt(c, s', zs)
    decreases zs - xs
  {
    if xs == zs {
      s' := s;
      ConnectedSelf(c, s);
    } else {
      var y :| y in zs && y !in xs;
      var s1 := BurnOne(c, s, xs, y);
      s' := BurnMany(c, s1, xs + {y}, zs);
      ConnectedTrans(c, s, s1, s');
    }
  }

  ghost predicate AlwaysAtMostMaxSpent(c: Config, s: State) {
    forall steps | CanRun(c, s, steps) :: |SpentNodes(c, Run(c, s, steps))| <= c.max
  }

  // Without that, the bound is worth nothing: it holds in all runs only if there are too few nodes to break it.
  lemma SpentBoundExactly(c: Config, s: State)
    requires ValidConfig(c) && Init(c, s) && NoStaleRetrying(s)
    ensures AlwaysAtMostMaxSpent(c, s) <==> |c.nodes| <= c.max
  {
    if |c.nodes| <= c.max {
      forall steps | CanRun(c, s, steps) ensures |SpentNodes(c, Run(c, s, steps))| <= c.max {
        RunKeepsKeys(c, s, steps);
        SubsetSize(SpentNodes(c, Run(c, s, steps)), c.nodes);
      }
    } else {
      var s1 := Do(c, s, Tick(s.clock + c.grace));
      assert Burnt(c, s1, {});
      var ys := Choose(c.nodes, c.max + 1);
      var s2 := BurnMany(c, s1, {}, ys);
      ConnectedStep(c, s, Tick(s.clock + c.grace), s2);
      SubsetSize(ys, SpentNodes(c, s2));
    }
  }
}
