/**
 The protocol's abstract listing against the enactments the handlers really list: every count
 a step of the protocol relies on is the one the counting loops compute.
 */
module SlotLink {
  import opened Conditions
  import opened EnactmentConditions
  import opened Counter
  import P = Phases
  import M = SlotModel
  import V = PolicyVerdict
  import T = Timing

  ghost predicate PhaseTellsAll(cs: seq<Condition>) {
    && (Has(cs, Available, True) <==> PhaseOf(cs).Available?)
    && (Has(cs, Failing, True) <==> PhaseOf(cs).Failed? || PhaseOf(cs).Retrying?)
    && (Has(cs, Aborted, True) <==> PhaseOf(cs).Aborted?)
    && (Has(cs, Pending, True) <==> PhaseOf(cs).Pending?)
    && (forall now, threshold :: SeesPhase(cs, now, threshold))
  }

  lemma ShownTellsAll(cs: seq<Condition>, w: Written)
    requires ValidWritten(w) && ShowsAll(cs, w)
    ensures PhaseTellsAll(cs)
  {
    forall now, threshold ensures SeesPhase(cs, now, threshold) {
      ShownIsSeen(cs, w, now, threshold);
    }
    ShownPhase(cs, w);
  }

  lemma ReachableTellsAll(cs: seq<Condition>)
    requires Reachable(cs)
    ensures PhaseTellsAll(cs)
  {
    if w :| ValidWritten(w) && ShowsAll(cs, w) {
      ShownTellsAll(cs, w);
    } else if cs != [] {
      assert Has(cs, Available, Unknown) && Has(cs, Failing, Unknown) && Has(cs, Progressing, Unknown);
      assert Has(cs, Pending, Unknown) && Has(cs, Aborted, Unknown);
    }
  }

  function RetriesOf(e: Nnce, generation: int): int {
    if e.retryCount.Some? && generation in e.retryCount.value then e.retryCount.value[generation] else 0
  }

  function Abstract(e: Nnce, generation: int): (r: M.Enactment)
    ensures r.Enactment?
  {
    M.Enactment(e.generation == generation, PhaseOf(e.conditions), RetriesOf(e, generation))
  }

  function Listed(items: seq<Nnce>, generation: int): M.Listing {
    if items == [] then map[]
    else Listed(items[..|items| - 1], generation)[items[|items| - 1].node := Abstract(items[|items| - 1], generation)]
  }

  lemma {:induction false} ListedKeys(items: seq<Nnce>, generation: int)
    ensures forall n :: n in Listed(items, generation) <==> exists i :: 0 <= i < |items| && items[i].node == n
    decreases |items|
  {
    if items != [] {
      ListedKeys(items[..|items| - 1], generation);
    }
  }

  // Adding one entry under a new name grows each of the sets by that entry or not at all.
  lemma ListingGrows(l: M.Listing, n: string, e: M.Enactment, c: M.Config, now: int)
    requires n !in l && e.Enactment?
    ensures |M.Existing(l[n := e])| == |M.Existing(l)| + 1
    ensures |M.Holders(c, l[n := e], now)| == |M.Holders(c, l, now)| + (if M.HolderAt(c, e, now) then 1 else 0)
    ensures |M.TerminallyFailed(l[n := e])| == |M.TerminallyFailed(l)| + (if e.current && e.phase.Failed? then 1 else 0)
  {
    GrowsBy(M.Existing(l), M.Existing(l[n := e]), n, true);
    GrowsBy(M.Holders(c, l, now), M.Holders(c, l[n := e], now), n, M.HolderAt(c, e, now));
    GrowsBy(M.TerminallyFailed(l), M.TerminallyFailed(l[n := e]), n, e.current && e.phase.Failed?);
  }

  lemma GrowsBy(a: set<string>, b: set<string>, n: string, added: bool)
    requires n !in a && forall m :: m in b <==> m in a || (added && m == n)
    ensures |b| == |a| + (if added then 1 else 0)
  {
    if added {
      assert b == a + {n};
    } else {
      assert b == a;
    }
  }

  lemma VerdictSetsGrow(l: M.Listing, n: string, e: M.Enactment)
    requires n !in l && e.Enactment?
    ensures |M.AvailableIn(l[n := e])| == |M.AvailableIn(l)| + (if e.current && e.phase.Available? then 1 else 0)
    ensures |M.AbortedIn(l[n := e])| == |M.AbortedIn(l)| + (if e.current && e.phase.Aborted? then 1 else 0)
    ensures |M.PendingIn(l[n := e])| == |M.PendingIn(l)| + (if e.current && e.phase.Pending? then 1 else 0)
    ensures |M.FailingIn(l[n := e])| == |M.FailingIn(l)| + (if e.current && (e.phase.Failed? || e.phase.Retrying?) then 1 else 0)
  {
    GrowsBy(M.AvailableIn(l), M.AvailableIn(l[n := e]), n, e.current && e.phase.Available?);
    GrowsBy(M.AbortedIn(l), M.AbortedIn(l[n := e]), n, e.current && e.phase.Aborted?);
    GrowsBy(M.PendingIn(l), M.PendingIn(l[n := e]), n, e.current && e.phase.Pending?);
    GrowsBy(M.FailingIn(l), M.FailingIn(l[n := e]), n, e.current && (e.phase.Failed? || e.phase.Retrying?));
  }

  // The audit's holder count and the abort filter's count, read off the listing.
  lemma {:induction false} SlotCountsAgree(c: M.Config, items: seq<Nnce>, generation: int, now: int)
    requires OnePerNode(items)
    ensures var l := Listed(items, generation);
            && |M.Existing(l)| == |items|
            && |M.Holders(c, l, now)| == HolderCount(items, generation, now, c.threshold)
            && |M.TerminallyFailed(l)| == MatchCount(items, generation, FAILED_FILTER)
    decreases |items|
  {
    AbortFilterAgreesWithAudit(items, generation, now, c.threshold);
    if items == [] {
      assert M.Existing(map[]) == {} && M.Holders(c, map[], now) == {} && M.TerminallyFailed(map[]) == {};
    } else {
      var before, e := items[..|items| - 1], items[|items| - 1];
      SlotCountsAgree(c, before, generation, now);
      AbortFilterAgreesWithAudit(before, generation, now, c.threshold);
      ListedKeys(before, generation);
      ReachableTellsAll(e.conditions);
      assert SeesPhase(e.conditions, now, c.threshold);
      ListingGrows(Listed(before, generation), e.node, Abstract(e, generation), c, now);
    }
  }

  lemma {:induction false} VerdictCountsAgree(items: seq<Nnce>, generation: int)
    requires OnePerNode(items)
    ensures var l := Listed(items, generation);
            && |M.AvailableIn(l)| == CountOf(items, generation, Available, True)
            && |M.FailingIn(l)| == CountOf(items, generation, Failing, True)
            && |M.AbortedIn(l)| == CountOf(items, generation, Aborted, True)
            && |M.PendingIn(l)| == CountOf(items, generation, Pending, True)
    decreases |items|
  {
    if items == [] {
      assert M.AvailableIn(map[]) == {} && M.FailingIn(map[]) == {} && M.AbortedIn(map[]) == {} && M.PendingIn(map[]) == {};
    } else {
      var before, e := items[..|items| - 1], items[|items| - 1];
      VerdictCountsAgree(before, generation);
      ListedKeys(before, generation);
      ReachableTellsAll(e.conditions);
      VerdictSetsGrow(Listed(before, generation), e.node, Abstract(e, generation));
    }
  }

  // The protocol empties the slot map exactly when the policy's verdict does.
  lemma VerdictsAgree(items: seq<Nnce>, generation: int, matching: nat, ready: nat)
    requires OnePerNode(items)
    ensures M.SuccessVerdict(Listed(items, generation), matching, ready)
            <==> V.VerdictOf(V.SummaryOf(items, generation, matching, ready)).Configured?
  {
    VerdictCountsAgree(items, generation);
  }

  // The protocol's timing promise for an applying node follows from the apply's own timeouts:
  // whatever course it takes, all that is left to promise is that the untimed rest and the
  // audit's lag fit in the spare time.
  lemma ApplierIsTimely(c: M.Config, ns: M.NodeState, override: Option<int>, empty: bool, x: T.Course, gap: int, now: int)
    requires c.threshold == T.StaleEnactmentThreshold(override) && c.lag >= 0
    requires T.PossibleCourse(x) && gap + x.untimed + c.lag <= T.SPARE
    requires ns.pc.Applying? && ns.enactment.Enactment? && ns.enactment.phase.Progressing?
    requires now <= ns.enactment.phase.hb + gap + T.Elapsed(empty, x)
    ensures M.Fresh(c, ns.enactment.phase, now) && M.Timely(c, ns, now)
  {
    T.ApplyEndsInTime(empty, x, override);
  }
}
