/**
 Exactly when maxUnavailable is respected: each promise of the surroundings is needed, because
 without it the code itself lets one node too many apply.
 */
module SlotPromises {
  import opened Phases
  import opened SlotModel
  import opened SlotInvariant
  import opened SlotSafety
  import opened SlotLimits
  import opened SlotReapply

  // ---------- nodes that hold a slot the audit does not see ----------

  // A node whose slot can be audited away although it goes on to apply without another claim:
  // its apply outlives its heartbeat, it skips its claim on a stale marker, or it has not
  // marked its claim yet.
  predicate Parked(c: Config, ns: NodeState, now: int) {
    && Current(ns.enactment) && ns.enactment.retry == 0
    && (|| (!c.env.appliesInTime && ns.pc.Applying? && StuckProgressing(ns.enactment, now))
        || (!c.env.freshSkips && ns.pc.Idle? && StuckProgressing(ns.enactment, now))
        || (!c.env.marksInTime && ns.pc.Marking? && ns.pc.didClaim && ns.enactment.phase.Blank?))
  }

  predicate TimeKept(c: Config) {
    c.env.appliesInTime && c.env.freshSkips && c.env.marksInTime
  }

  // An attempt fails and its retry count cannot be written: the node is left idle and Progressing.
  lemma LoseRetry(c: Config, s: State, x: NodeName) returns (s': State)
    requires x in s.nodes && s.nodes[x].pc.Applying? && s.nodes[x].enactment.Enactment?
    ensures Reaches(c, s, x, s') && s'.policy == s.policy
    ensures s'.nodes[x].pc.Idle? && s'.nodes[x].enactment == s.nodes[x].enactment
  {
    var s1 := Do(c, s, Act(x, ApplyDone(false)));
    var s2 := Do(c, s1, Act(x, RecordRetry(false)));
    s' := SkipUpdate(c, s2, x);
    ReachesStep(c, s1, x, RecordRetry(false), s');
    ReachesStep(c, s, x, ApplyDone(false), s');
  }

  // A committed claim whose marker is not written yet.
  lemma ClaimOnly(c: Config, s: State, x: NodeName) returns (s': State)
    requires ValidConfig(c) && x in s.nodes
    requires s.nodes[x].pc.Rmw? && s.nodes[x].pc.op.Claim? && s.policy.count < c.max
    ensures Reaches(c, s, x, s') && s'.nodes[x].enactment == s.nodes[x].enactment
    ensures s'.nodes[x].pc == Marking(true, s.clock)
    ensures s'.policy.count == s.policy.count + 1 && s'.policy.lastUpdate == At(s.clock)
  {
    var s1 := Do(c, s, Act(x, ReadPolicy(s.policy)));
    s' := Do(c, s1, Act(x, CommitRmw(s1.clock)));
    ReachesSelf(c, s', x);
    ReachesStep(c, s1, x, CommitRmw(s1.clock), s');
    ReachesStep(c, s, x, ReadPolicy(s.policy), s');
  }

  lemma OneParks(c: Config, s: State, x: NodeName) returns (s': State)
    requires ValidConfig(c) && !TimeKept(c) && s.policy.count < c.max
    requires x in s.nodes && InitNode(s.nodes[x]) && !StaleRetrying(s.nodes[x])
    ensures Reaches(c, s, x, s') && Parked(c, s'.nodes[x], s.clock)
    ensures s'.policy.count == s.policy.count + 1 && s'.policy.lastUpdate == At(s.clock)
  {
    var s1 := StartToClaim(c, s, x);
    if c.env.appliesInTime && c.env.freshSkips {
      s' := ClaimOnly(c, s1, x);
    } else {
      s' := ClaimThenApply(c, s1, x);
      if c.env.appliesInTime {
        var s2 := s';
        s' := LoseRetry(c, s2, x);
        ReachesTrans(c, s1, x, s2, s');
      }
    }
    ReachesTrans(c, s, x, s1, s');
  }

  lemma {:induction false} ManyPark(c: Config, s: State, xs: set<NodeName>) returns (s': State)
    requires ValidConfig(c) && !TimeKept(c) && xs <= s.nodes.Keys
    requires forall x | x in xs :: InitNode(s.nodes[x]) && !StaleRetrying(s.nodes[x])
    requires s.policy.count + |xs| <= c.max && NotAfter(s.policy.lastUpdate, s.clock)
    ensures Connected(c, s, s') && s'.clock == s.clock && s'.nodes.Keys == s.nodes.Keys
    ensures s'.policy.count == s.policy.count + |xs| && NotAfter(s'.policy.lastUpdate, s.clock)
    ensures forall x | x in xs :: x in s'.nodes && Parked(c, s'.nodes[x], s.clock)
    ensures forall x | x in s.nodes && x !in xs :: x in s'.nodes && s'.nodes[x] == s.nodes[x]
    decreases |xs|
  {
    if xs == {} {
      s' := s;
      ConnectedSelf(c, s);
    } else {
      var x :| x in xs;
      var s1 := OneParks(c, s, x);
      s' := ManyPark(c, s1, xs - {x});
      ConnectedTrans(c, s, s1, s');
    }
  }

  // xs are parked and everyone else is untouched.
  ghost predicate OnlyParked(c: Config, s: State, xs: set<NodeName>) {
    && xs <= s.nodes.Keys
    && (forall x | x in xs :: Parked(c, s.nodes[x], s.clock))
    && (forall x | x in s.nodes && x !in xs :: InitNode(s.nodes[x]) && !StaleRetrying(s.nodes[x]))
  }

  // Time passes until nobody counts as a holder.
  lemma ParkedExpire(c: Config, s: State, xs: set<NodeName>) returns (s': State)
    requires ValidConfig(c) && OnlyParked(c, s, xs)
    requires NotAfter(s.policy.lastUpdate, s.clock) && 0 <= s.policy.count <= c.max
    ensures Connected(c, s, s') && Quiet(c, s') && OnlyParked(c, s', xs) && s'.nodes.Keys == s.nodes.Keys
  {
    var t := s.clock + c.threshold + c.grace;
    forall m | m in s.nodes ensures Timely(c, s.nodes[m], t) {
      assert m in xs || InitNode(s.nodes[m]);
    }
    s' := Do(c, s, Tick(t));
    ConnectedSelf(c, s');
    ConnectedStep(c, s, Tick(t), s');
    forall m | m in s'.nodes ensures !HolderAt(c, s'.nodes[m].enactment, s'.clock) {
      assert m in xs || InitNode(s.nodes[m]);
    }
  }

  lemma OneResumes(c: Config, s: State, x: NodeName) returns (s': State)
    requires ValidConfig(c) && x in s.nodes && Parked(c, s.nodes[x], s.clock)
    ensures Reaches(c, s, x, s') && s'.nodes[x].pc.Applying?
  {
    if s.nodes[x].pc.Applying? {
      s' := s;
      ReachesSelf(c, s, x);
    } else if s.nodes[x].pc.Marking? {
      s' := MarkThenApply(c, s, x);
    } else {
      s' := ResumeApply(c, s, x);
    }
  }

  lemma {:induction false} ManyResume(c: Config, s: State, xs: set<NodeName>) returns (s': State)
    requires ValidConfig(c) && xs <= s.nodes.Keys && (forall x | x in xs :: Parked(c, s.nodes[x], s.clock))
    ensures Connected(c, s, s') && s'.nodes.Keys == s.nodes.Keys
    ensures forall x | x in xs :: x in s'.nodes && s'.nodes[x].pc.Applying?
    ensures forall x | x in s.nodes && x !in xs :: x in s'.nodes && s'.nodes[x] == s.nodes[x]
    decreases |xs|
  {
    if xs == {} {
      s' := s;
      ConnectedSelf(c, s);
    } else {
      var x :| x in xs;
      var s1 := OneResumes(c, s, x);
      s' := ManyResume(c, s1, xs - {x});
      ConnectedTrans(c, s, s1, s');
    }
  }

  // ---------- nodes that renew their marker while an audit sits on its listing ----------

  // x applies under a heartbeat of this very moment and has all its retries left.
  predicate Alive(ns: NodeState, now: int) {
    ns.pc.Applying? && ns.enactment == Enactment(true, Progressing(now), 0)
  }

  // A node time may pass by.
  predicate Calm(ns: NodeState) {
    !Unmarked(ns.pc) && !RelyingOnHeartbeat(ns.pc) && !ns.owns
  }

  ghost predicate OnlyAlive(s: State, xs: set<NodeName>) {
    && xs <= s.nodes.Keys
    && (forall x | x in xs :: Alive(s.nodes[x], s.clock))
    && (forall x | x in s.nodes && x !in xs :: Calm(s.nodes[x]))
  }

  ghost predicate SameBeyond(s: State, s': State, xs: set<NodeName>) {
    s'.nodes.Keys == s.nodes.Keys && forall x | x in s.nodes && x !in xs :: s'.nodes[x] == s.nodes[x]
  }

  lemma {:induction false} ManyAlive(c: Config, s: State, xs: set<NodeName>) returns (s': State)
    requires ValidConfig(c) && xs <= s.nodes.Keys
    requires forall x | x in xs :: InitNode(s.nodes[x]) && !StaleRetrying(s.nodes[x])
    requires s.policy.count + |xs| <= c.max
    ensures Connected(c, s, s') && s'.clock == s.clock && SameBeyond(s, s', xs)
    ensures s'.policy.count == s.policy.count + |xs|
    ensures s'.policy.lastUpdate == if xs == {} then s.policy.lastUpdate else At(s.clock)
    ensures forall x | x in xs :: Alive(s'.nodes[x], s.clock)
    decreases |xs|
  {
    if xs == {} {
      s' := s;
      ConnectedSelf(c, s);
    } else {
      var x :| x in xs;
      var s1 := StartToClaim(c, s, x);
      var s2 := ClaimThenApply(c, s1, x);
      s' := ManyAlive(c, s2, xs - {x});
      ConnectedTrans(c, s, s1, s2);
      ConnectedTrans(c, s, s2, s');
    }
  }

  // A node whose attempt fails unrecorded resumes on its fresh marker and renews it.
  lemma Revive(c: Config, s: State, x: NodeName) returns (s': State)
    requires ValidConfig(c) && x in s.nodes && s.nodes[x].pc.Applying? && StuckProgressing(s.nodes[x].enactment, s.clock)
    requires Fresh(c, s.nodes[x].enactment.phase, s.clock) && s.nodes[x].enactment.retry == 0
    ensures Reaches(c, s, x, s') && s'.policy == s.policy && Alive(s'.nodes[x], s.clock)
  {
    var s1 := LoseRetry(c, s, x);
    s' := ResumeApply(c, s1, x);
    ReachesTrans(c, s, x, s1, s');
  }

  lemma {:induction false} ReviveMany(c: Config, s: State, xs: set<NodeName>) returns (s': State)
    requires ValidConfig(c) && 1 + Lag(c) < c.threshold && xs <= s.nodes.Keys
    requires forall x | x in xs :: Alive(s.nodes[x], s.clock - 1)
    ensures Connected(c, s, s') && s'.clock == s.clock && s'.policy == s.policy && SameBeyond(s, s', xs)
    ensures forall x | x in xs :: Alive(s'.nodes[x], s.clock)
    decreases |xs|
  {
    if xs == {} {
      s' := s;
      ConnectedSelf(c, s);
    } else {
      var x :| x in xs;
      var s1 := Revive(c, s, x);
      s' := ReviveMany(c, s1, xs - {x});
      ConnectedTrans(c, s, s1, s');
    }
  }

  lemma OneTick(c: Config, s: State, xs: set<NodeName>) returns (s': State)
    requires ValidConfig(c) && 1 + Lag(c) < c.threshold && OnlyAlive(s, xs)
    ensures Connected(c, s, s') && s'.clock == s.clock + 1 && s'.policy == s.policy && SameBeyond(s, s', xs)
    ensures forall x | x in xs :: Alive(s'.nodes[x], s.clock)
  {
    forall m | m in s.nodes ensures Timely(c, s.nodes[m], s.clock + 1) {
      assert m in xs || Calm(s.nodes[m]);
    }
    s' := Do(c, s, Tick(s.clock + 1));
    ConnectedSelf(c, s');
    ConnectedStep(c, s, Tick(s.clock + 1), s');
  }

  // Nodes can go on applying under renewed markers for any length of time.
  lemma {:induction false} KeepAlive(c: Config, s: State, xs: set<NodeName>, d: nat) returns (s': State)
    requires ValidConfig(c) && 1 + Lag(c) < c.threshold && OnlyAlive(s, xs)
    ensures Connected(c, s, s') && s'.clock == s.clock + d && s'.policy == s.policy && SameBeyond(s, s', xs)
    ensures OnlyAlive(s', xs)
    decreases d
  {
    if d == 0 {
      s' := s;
      ConnectedSelf(c, s);
    } else {
      var s1 := OneTick(c, s, xs);
      var s2 := ReviveMany(c, s1, xs);
      s' := KeepAlive(c, s2, xs, d - 1);
      ConnectedTrans(c, s, s1, s2);
      ConnectedTrans(c, s, s2, s');
    }
  }

  // Refused at the cap, y reads the policy for its audit and lists the enactments.
  lemma ListAtCap(c: Config, s: State, y: NodeName) returns (s': State)
    requires ValidConfig(c) && y in s.nodes && s.nodes[y].pc == Rmw(Claim(false)) && s.policy.count >= c.max
    requires !InGrace(c, s.policy.lastUpdate, s.clock)
    ensures Reaches(c, s, y, s') && s'.policy == s.policy
    ensures s'.nodes[y] == s.nodes[y].(pc := AuditListed(ForClaim, s.policy, Enactments(s), s.clock))
  {
    var s1 := Do(c, s, Act(y, ReadPolicy(s.policy)));
    var s2 := Do(c, s1, Act(y, LimitReached));
    s' := ListForAudit(c, s2, y, Enactments(s));
    ReachesStep(c, s1, y, LimitReached, s');
    ReachesStep(c, s, y, ReadPolicy(s.policy), s');
  }

  lemma ListForAudit(c: Config, s: State, y: NodeName, l: Listing) returns (s': State)
    requires y in s.nodes && s.nodes[y].pc == Audit(ForClaim) && s.policy.count != 0
    requires !InGrace(c, s.policy.lastUpdate, s.clock) && Enactments(s) == l
    ensures Reaches(c, s, y, s') && s'.policy == s.policy
    ensures s'.nodes[y] == s.nodes[y].(pc := AuditListed(ForClaim, s.policy, l, s.clock))
  {
    var s1 := Do(c, s, Act(y, AuditGet(s.policy)));
    assert Enactments(s1) == l;
    s' := Do(c, s1, Act(y, AuditList));
    ReachesSelf(c, s', y);
    ReachesStep(c, s1, y, AuditList, s');
    ReachesStep(c, s, y, AuditGet(s.policy), s');
  }

  // ---------- every promise is needed ----------

  lemma OneTooMany(c: Config, s: State, s': State, xs: set<NodeName>, y: NodeName)
    requires Connected(c, s, s') && |xs| == c.max && y !in xs && xs + {y} <= Appliers(s')
    ensures !AlwaysWithinMax(c, s)
  {
    SubsetSize(xs + {y}, Appliers(s'));
    var steps :| CanRun(c, s, steps) && Run(c, s, steps) == s';
    assert |Appliers(Run(c, s, steps))| > c.max;
  }

  lemma TimeNeeded(c: Config, s: State)
    requires ValidConfig(c) && Init(c, s) && NoStaleRetrying(s) && |c.nodes| > c.max && !TimeKept(c)
    ensures !AlwaysWithinMax(c, s)
  {
    var y :| y in c.nodes;
    var xs := Choose(c.nodes - {y}, c.max);
    var s1 := ManyPark(c, s, xs);
    var s2 := ParkedExpire(c, s1, xs);
    ConnectedTrans(c, s, s1, s2);
    OvertakeParked(c, s, s2, xs, y);
  }

  lemma OvertakeParked(c: Config, s: State, s1: State, xs: set<NodeName>, y: NodeName)
    requires ValidConfig(c) && Connected(c, s, s1) && Quiet(c, s1) && OnlyParked(c, s1, xs)
    requires |xs| == c.max && y in s1.nodes && y !in xs
    ensures !AlwaysWithinMax(c, s)
  {
    var s2 := ApplyPastStale(c, s1, y);
    var s3 := ManyResume(c, s2, xs);
    ConnectedTrans(c, s, s1, s2);
    ConnectedTrans(c, s, s2, s3);
    OneTooMany(c, s, s3, xs, y);
  }

  // The grace window is over, every slot is taken, and the holders keep their markers fresh.
  ghost predicate Full(c: Config, s: State, xs: set<NodeName>) {
    OnlyAlive(s, xs) && s.policy.count == c.max && !InGrace(c, s.policy.lastUpdate, s.clock)
  }

  lemma FillSlots(c: Config, s: State, xs: set<NodeName>) returns (s': State)
    requires ValidConfig(c) && Init(c, s) && NoStaleRetrying(s) && !c.env.judgesInTime && xs <= c.nodes && |xs| == c.max
    ensures Connected(c, s, s') && Full(c, s', xs) && SameBeyond(s, s', xs)
  {
    var s1 := ManyAlive(c, s, xs);
    forall m | m in s1.nodes && m !in xs ensures Calm(s1.nodes[m]) {
      assert InitNode(s.nodes[m]);
    }
    s' := KeepAlive(c, s1, xs, c.grace);
    ConnectedTrans(c, s, s1, s');
  }

  // y has listed the holders for its audit.
  ghost predicate Auditing(c: Config, s: State, y: NodeName) {
    && y in s.nodes && s.nodes[y].pc.AuditListed? && s.nodes[y].pc.why.ForClaim?
    && s.nodes[y].pc.copy == s.policy && s.nodes[y].enactment.Enactment?
    && Holders(c, s.nodes[y].pc.listed, s.clock + c.threshold) == {}
  }

  lemma StartAudit(c: Config, s: State, xs: set<NodeName>, y: NodeName) returns (s': State)
    requires ValidConfig(c) && Full(c, s, xs) && y in s.nodes && y !in xs
    requires forall m | m in s.nodes && m !in xs :: InitNode(s.nodes[m]) && !StaleRetrying(s.nodes[m])
    ensures Connected(c, s, s') && OnlyAlive(s', xs) && Auditing(c, s', y) && s'.policy.count > 0
  {
    var s1 := StartToClaim(c, s, y);
    s' := ListAtCap(c, s1, y);
    ReachesTrans(c, s, y, s1, s');
    var l := Enactments(s1);
    forall m | m in l ensures !HolderAt(c, l[m], s.clock + c.threshold) {
      assert m == y || m in xs || InitNode(s.nodes[m]);
    }
    assert Holders(c, l, s.clock + c.threshold) == {};
  }

  // It judges the listed heartbeats after they went stale, though their nodes have renewed them.
  lemma JudgeLate(c: Config, s: State, xs: set<NodeName>, y: NodeName) returns (s': State)
    requires ValidConfig(c) && !c.env.judgesInTime && OnlyAlive(s, xs) && y !in xs && Auditing(c, s, y) && s.policy.count > 0
    ensures Connected(c, s, s') && xs + {y} <= Appliers(s')
  {
    var s1 := KeepAlive(c, s, xs, c.threshold);
    var s2 := JudgeAndRepair(c, s1, y);
    s' := ClaimThenApply(c, s2, y);
    ReachesTrans(c, s1, y, s2, s');
    ConnectedTrans(c, s, s1, s');
  }

  lemma JudgeNeeded(c: Config, s: State)
    requires ValidConfig(c) && Init(c, s) && NoStaleRetrying(s) && |c.nodes| > c.max && !c.env.judgesInTime
    ensures !AlwaysWithinMax(c, s)
  {
    var y :| y in c.nodes;
    var xs := Choose(c.nodes - {y}, c.max);
    var s1 := FillSlots(c, s, xs);
    var s2 := StartAudit(c, s1, xs, y);
    var s3 := JudgeLate(c, s2, xs, y);
    ConnectedTrans(c, s, s1, s2);
    ConnectedTrans(c, s, s2, s3);
    OneTooMany(c, s, s3, xs, y);
  }

  // With more enactments than ready nodes, the policy can look finished while nodes still apply.
  lemma WipeEarly(c: Config, s: State, y: NodeName) returns (s': State)
    requires ValidConfig(c) && !c.env.readyCovers && y in s.nodes && InitNode(s.nodes[y])
    requires forall m | m in s.nodes && Current(s.nodes[m].enactment) :: s.nodes[m].enactment.phase.Progressing?
    ensures Reaches(c, s, y, s') && s'.policy.count == 0 && InitNode(s'.nodes[y])
  {
    var s0 := ToIdle(c, s, y);
    var s1 := Do(c, s0, Act(y, GiveUp));
    s' := SuccessWithoutReady(c, s1, y);
    ReachesStep(c, s0, y, GiveUp, s');
    ReachesTrans(c, s, y, s0, s');
  }

  lemma SuccessWithoutReady(c: Config, s: State, y: NodeName) returns (s': State)
    requires !c.env.readyCovers && y in s.nodes && s.nodes[y].pc == Updating(Finish)
    requires forall m | m in s.nodes && Current(s.nodes[m].enactment) :: s.nodes[m].enactment.phase.Progressing?
    ensures Reaches(c, s, y, s') && s'.policy.count == 0 && s'.nodes[y] == s.nodes[y].(pc := Idle)
  {
    var s1 := Do(c, s, Act(y, UpdateGet(s.policy)));
    var s2 := Do(c, s1, Act(y, UpdateList(1, 0)));
    NobodyDone(s1);
    s' := WriteSuccess(c, s2, y);
    ReachesStep(c, s1, y, UpdateList(1, 0), s');
    ReachesStep(c, s, y, UpdateGet(s.policy), s');
  }

  lemma WriteSuccess(c: Config, s: State, y: NodeName) returns (s': State)
    requires y in s.nodes && s.nodes[y].pc.UpdateListed? && s.nodes[y].pc.next.Finish? && s.nodes[y].pc.copy == s.policy
    requires SuccessVerdict(s.nodes[y].pc.listed, s.nodes[y].pc.matching, s.nodes[y].pc.ready)
    ensures Reaches(c, s, y, s') && s'.policy.count == 0 && s'.nodes[y] == s.nodes[y].(pc := Idle)
  {
    s' := Do(c, s, Act(y, CommitUpdate));
    ReachesSelf(c, s', y);
    ReachesStep(c, s, y, CommitUpdate, s');
  }

  lemma NobodyDone(s: State)
    requires forall m | m in s.nodes && Current(s.nodes[m].enactment) :: s.nodes[m].enactment.phase.Progressing?
    ensures SuccessVerdict(Enactments(s), 1, 0)
  {
    var l := Enactments(s);
    assert FailingIn(l) == {} && AbortedIn(l) == {} && PendingIn(l) == {};
  }

  lemma ReadyNeeded(c: Config, s: State)
    requires ValidConfig(c) && Init(c, s) && |c.nodes| > c.max && !c.env.readyCovers
    ensures !AlwaysWithinMax(c, s)
  {
    var y :| y in c.nodes;
    var xs := Choose(c.nodes - {y}, c.max);
    var s1 := ManyApply(c, s, xs);
    var s2 := WipeEarly(c, s1, y);
    var s3 := OneApplies(c, s2, y);
    ConnectedTrans(c, s, s1, s2);
    ConnectedTrans(c, s, s2, s3);
    OneTooMany(c, s, s3, xs, y);
  }

  // x finishes its apply and releases; its first write is lost on a cached object, so the second
  // one takes two slots.
  lemma ReleaseTwo(c: Config, s: State, x: NodeName) returns (s': State)
    requires ValidConfig(c) && !c.env.privateCopies && x in s.nodes && Alive(s.nodes[x], s.clock) && s.policy.count >= 2
    ensures Reaches(c, s, x, s') && s'.policy.count == s.policy.count - 2
    ensures s'.nodes[x].enactment == Enactment(true, Finalizing(s.clock), 0)
  {
    var s1 := Do(c, s, Act(x, ApplyDone(true)));
    var s2 := Do(c, s1, Act(x, NotifyFinalizing(true, s.clock)));
    s' := ReleaseSpoilt(c, s2, x);
    ReachesStep(c, s1, x, NotifyFinalizing(true, s.clock), s');
    ReachesStep(c, s, x, ApplyDone(true), s');
  }

  lemma ReleaseSpoilt(c: Config, s: State, x: NodeName) returns (s': State)
    requires !c.env.privateCopies && x in s.nodes && s.nodes[x].pc == Rmw(Release) && s.policy.count >= 2
    ensures Reaches(c, s, x, s') && s'.policy.count == s.policy.count - 2
    ensures s'.nodes[x].enactment == s.nodes[x].enactment
  {
    var s1 := Do(c, s, Act(x, ReadPolicy(s.policy)));
    var s2 := Do(c, s1, Act(x, RereadSpoilt));
    s' := Do(c, s2, Act(x, CommitRmw(s.clock)));
    ReachesSelf(c, s', x);
    ReachesStep(c, s2, x, CommitRmw(s.clock), s');
    ReachesStep(c, s1, x, RereadSpoilt, s');
    ReachesStep(c, s, x, ReadPolicy(s.policy), s');
  }

  lemma CopiesNeeded(c: Config, s: State)
    requires ValidConfig(c) && Init(c, s) && NoStaleRetrying(s) && |c.nodes| > c.max && !c.env.privateCopies && c.max > 1
    ensures !AlwaysWithinMax(c, s)
  {
    var y :| y in c.nodes;
    var xs := Choose(c.nodes - {y}, c.max);
    var x :| x in xs;
    var s1 := ManyAlive(c, s, xs);
    var s2 := FreeOneTooMany(c, s1, x);
    assert s2.nodes[y] == s.nodes[y] && InitNode(s.nodes[y]);
    var s3 := OneApplies(c, s2, y);
    ConnectedTrans(c, s, s1, s2);
    ConnectedTrans(c, s, s2, s3);
    OneTooMany(c, s, s3, xs, y);
  }

  // x applies as before, and a slot that is still in use counts as free.
  lemma FreeOneTooMany(c: Config, s: State, x: NodeName) returns (s': State)
    requires ValidConfig(c) && !c.env.privateCopies && x in s.nodes && Alive(s.nodes[x], s.clock) && 2 <= s.policy.count <= c.max
    ensures Reaches(c, s, x, s') && s'.nodes[x].pc.Applying? && s'.policy.count < s.policy.count
  {
    var s1 := ReleaseTwo(c, s, x);
    s' := Reapply(c, s1, x);
    ReachesTrans(c, s, x, s1, s');
  }

  // maxUnavailable is respected in every run if and only if all promises are kept and no node
  // was left Retrying, or there are too few nodes to exceed it.
  lemma WithinMaxExactly(c: Config, s: State)
    requires ValidConfig(c) && Init(c, s)
    ensures AlwaysWithinMax(c, s) <==> (Disciplined(c) && NoStaleRetrying(s)) || |c.nodes| <= c.max
  {
    if |c.nodes| <= c.max {
      forall steps | CanRun(c, s, steps) ensures |Appliers(Run(c, s, steps))| <= c.max {
        RunKeepsKeys(c, s, steps);
        SubsetSize(Appliers(Run(c, s, steps)), c.nodes);
      }
    } else if !NoStaleRetrying(s) {
      var r :| r in s.nodes && StaleRetrying(s.nodes[r]);
      StaleRetryingBreaks(c, s, r);
    } else if !TimeKept(c) {
      TimeNeeded(c, s);
    } else if !c.env.judgesInTime {
      JudgeNeeded(c, s);
    } else if !c.env.readyCovers {
      ReadyNeeded(c, s);
    } else if !c.env.privateCopies && c.max > 1 {
      CopiesNeeded(c, s);
    } else {
      forall steps | CanRun(c, s, steps) ensures |Appliers(Run(c, s, steps))| <= c.max {
        AtMostMaxApply(c, s, steps);
      }
    }
  }
}
