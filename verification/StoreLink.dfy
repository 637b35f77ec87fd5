/**
 The protocol's view of the enactments against what the handlers store: every run of the protocol
 is a history of enactment writes, and every listing of the store yields the protocol's counts.
 */
module StoreLink {
  import opened Conditions
  import opened EnactmentConditions
  import opened Counter
  import opened SlotLink
  import E = EnactmentStore
  import P = Phases
  import M = SlotModel
  import V = PolicyVerdict

  // The protocol's state shows the stored enactments, for the generation it is about.
  ghost predicate Represents(s: M.State, store: E.Store, policy: string, generation: int) {
    && E.Sane(store, policy) && store.Keys <= s.nodes.Keys
    && forall n | n in s.nodes :: s.nodes[n].enactment == View(store, n, generation)
  }

  function View(store: E.Store, n: string, generation: int): M.Enactment {
    if n in store then Abstract(store[n], generation) else M.Missing
  }

  function Stamped(setter: Setter, t: int): Written {
    Written(setter, "", [t, t, t, t, t])
  }

  // The writes to the node's enactment that a step stands for.
  function WritesOf(s: M.State, n: string, a: M.Action, generation: int): (ws: seq<E.Write>)
    requires n in s.nodes
    ensures forall w | w in ws :: w.Valid() && w.node == n
  {
    var e := s.nodes[n].enactment;
    if SetterOf(a).Some? then [E.Notify(n, SetterOf(a).value)]
    else
      match a
      case Begin => if e.Missing? then [E.CreateObject(n), E.InitStatus(n, [0, 0, 0, 0, 0])] else []
      case FillIn(outcome) => if outcome.WriteError? then [] else [E.ResetGeneration(n, generation)]
      case RecordRetry(ok) => if ok then [E.CountRetry(n, generation)] else []
      case Recover(ok) =>
        if !ok || e.Missing? || !P.IsProgressing(e.phase) then []
        else if e.phase.Finalizing? then [E.Notify(n, Stamped(Success, 0))]
        else [E.Interrupt(n, "", [0, 0, 0, 0, 0])]
      case _ => []
  }

  // The setter a step calls, if its write gets through.
  function SetterOf(a: M.Action): (w: Option<Written>)
    ensures w.Some? ==> ValidWritten(w.value)
  {
    match a
    case NotifyGenerateFailure(ok) => if ok then Some(Stamped(Fail, 0)) else None
    case NotifyPending(ok) => if ok then Some(Stamped(Pend(MaxUnavailableLimitReached), 0)) else None
    case NotifyAborted(ok) => if ok then Some(Stamped(Abort, 0)) else None
    case NotifyProgressing(ok, hb, _) => if ok then Some(Stamped(Progress, hb)) else None
    case NotifyFailed(ok) => if ok then Some(Stamped(Fail, 0)) else None
    case NotifyRetrying(ok, hb) => if ok then Some(Stamped(Retry, hb)) else None
    case NotifyFinalizing(ok, hb) => if ok then Some(Stamped(Finalize, hb)) else None
    case NotifySuccess(ok) => if ok then Some(Stamped(Success, 0)) else None
    case _ => None
  }

  // The protocol's view of one status update.
  lemma NotifyIsSeen(e: Nnce, w: Written, generation: int)
    requires ValidWritten(w)
    ensures var x, x' := Abstract(e, generation), Abstract(e.(conditions := Replay(e.conditions, Calls(w))), generation);
            x' == x.(phase := Target(w))
  {
    SetterGivesPhase(e.conditions, w);
  }

  lemma UpdateIsSeen(e: Nnce, w: E.Write, generation: int)
    requires w.Valid() && generation != 0 && !w.Notify?
    ensures var x, x' := Abstract(e, generation), Abstract(E.Updated(e, w), generation);
            match w
            case InitStatus(_, _) => x' == M.Enactment(false, P.Unknown, 0)
            case ResetGeneration(_, g) =>
              g == generation ==> x' == x.(current := true, phase := if x.current then x.phase else P.Blank)
            case CountRetry(_, g) => g == generation ==> x' == x.(retry := x.retry + 1)
            case Interrupt(_, _, _) => x' == x.(phase := P.Pending, retry := if x.current then 0 else x.retry)
            case _ => x' == x
  {
    match w
    case InitStatus(_, now) => CreatedIsReachable(now);
    case Interrupt(_, message, now) => NotifyIsSeen(e, Written(Pend(ConfigurationInterrupted), message, now), generation);
    case _ =>
  }

  // One update of an enactment that exists, and nothing else.
  lemma OneUpdate(store: E.Store, policy: string, w: E.Write)
    requires w.Valid() && w.node in store && !w.CreateObject? && !w.Delete?
    ensures var after := E.AfterWrites(store, policy, [w]);
            after.Keys == store.Keys && after == store[w.node := E.Updated(store[w.node], w)]
  {
    assert [w][..0] == [];
  }

  lemma TwoWrites(store: E.Store, policy: string, w: E.Write, w': E.Write)
    requires w.Valid() && w'.Valid()
    ensures E.AfterWrites(store, policy, [w, w']) == E.AfterWrite(E.AfterWrite(store, policy, w), policy, w')
  {
    assert [w, w'][..1] == [w] && [w][..0] == [];
    assert E.AfterWrites(store, policy, [w]) == E.AfterWrite(store, policy, w);
  }

  // The protocol's side: what a step does to the enactment, by the writes it stands for.
  lemma SetterStep(c: M.Config, s: M.State, n: string, a: M.Action)
    requires n in s.nodes && M.Enabled(c, s, n, a) && SetterOf(a).Some?
    ensures var e := s.nodes[n].enactment;
            e.Enactment? && M.NodeEffect(c, s, n, a).enactment == e.(phase := Target(SetterOf(a).value))
  {
  }

  // The only steps that touch the enactment.
  predicate MayWrite(a: M.Action) {
    || a.Begin? || a.FillIn? || a.RecordRetry? || a.Recover? || a.NotifyGenerateFailure? || a.NotifyPending? || a.NotifyAborted?
    || a.NotifyProgressing? || a.NotifyFailed? || a.NotifyRetrying? || a.NotifyFinalizing? || a.NotifySuccess?
  }

  lemma ReadingStep(c: M.Config, s: M.State, n: string, a: M.Action)
    requires n in s.nodes && M.Enabled(c, s, n, a) && !MayWrite(a)
    ensures M.NodeEffect(c, s, n, a).enactment == s.nodes[n].enactment
  {
  }

  lemma FailedWriteStep(c: M.Config, s: M.State, n: string, a: M.Action, generation: int)
    requires n in s.nodes && M.Enabled(c, s, n, a) && WritesOf(s, n, a, generation) == [] && MayWrite(a)
    ensures M.NodeEffect(c, s, n, a).enactment == s.nodes[n].enactment
  {
  }

  lemma SilentStep(c: M.Config, s: M.State, n: string, a: M.Action, generation: int)
    requires n in s.nodes && M.Enabled(c, s, n, a) && WritesOf(s, n, a, generation) == []
    ensures M.NodeEffect(c, s, n, a).enactment == s.nodes[n].enactment
  {
    if MayWrite(a) {
      FailedWriteStep(c, s, n, a, generation);
    } else {
      ReadingStep(c, s, n, a);
    }
  }

  lemma FillStep(c: M.Config, s: M.State, n: string, a: M.Action, generation: int)
    requires n in s.nodes && M.Enabled(c, s, n, a) && WritesOf(s, n, a, generation) != [] && (a.Begin? || a.FillIn?)
    ensures var e, e', ws := s.nodes[n].enactment, M.NodeEffect(c, s, n, a).enactment, WritesOf(s, n, a, generation);
            if a.Begin? then
              && e.Missing? && e' == M.Enactment(false, P.Unknown, 0)
              && ws == [E.CreateObject(n), E.InitStatus(n, [0, 0, 0, 0, 0])]
            else
              && e.Enactment? && e' == e.(current := true, phase := if e.current then e.phase else P.Blank)
              && ws == [E.ResetGeneration(n, generation)]
  {
  }

  lemma RetryStep(c: M.Config, s: M.State, n: string, a: M.Action, generation: int)
    requires n in s.nodes && M.Enabled(c, s, n, a) && WritesOf(s, n, a, generation) != [] && a.RecordRetry?
    ensures var e, e', ws := s.nodes[n].enactment, M.NodeEffect(c, s, n, a).enactment, WritesOf(s, n, a, generation);
            e.Enactment? && e' == e.(retry := e.retry + 1) && ws == [E.CountRetry(n, generation)]
  {
  }

  lemma RecoverStep(c: M.Config, s: M.State, n: string, a: M.Action, generation: int)
    requires n in s.nodes && M.Enabled(c, s, n, a) && WritesOf(s, n, a, generation) != [] && a.Recover?
    ensures var e, e', ws := s.nodes[n].enactment, M.NodeEffect(c, s, n, a).enactment, WritesOf(s, n, a, generation);
            && e.Enactment?
            && (if e.phase.Finalizing? then e' == e.(phase := P.Available) && ws == [E.Notify(n, Stamped(Success, 0))]
                else e' == e.(phase := P.Pending, retry := if e.current then 0 else e.retry)
                     && ws == [E.Interrupt(n, "", [0, 0, 0, 0, 0])])
  {
  }

  // The step's enactment is the stored one, and nobody else's has changed.
  ghost predicate Mirrors(s: M.State, n: string, e: M.Enactment, store: E.Store, after: E.Store, generation: int) {
    && after.Keys <= store.Keys + {n} && e == View(after, n, generation)
    && forall m | m in s.nodes && m != n :: View(after, m, generation) == View(store, m, generation)
  }

  lemma NotifyMirrors(s: M.State, n: string, e: M.Enactment, w: Written, store: E.Store, policy: string, generation: int)
    requires n in store && ValidWritten(w)
    requires var x := Abstract(store[n], generation); e == x.(phase := Target(w))
    ensures Mirrors(s, n, e, store, E.AfterWrites(store, policy, [E.Notify(n, w)]), generation)
  {
    NotifyIsSeen(store[n], w, generation);
    OneUpdate(store, policy, E.Notify(n, w));
  }

  lemma CreateMirrors(s: M.State, n: string, store: E.Store, policy: string, now: seq<int>, generation: int)
    requires n !in store && |now| == 5 && generation != 0
    ensures Mirrors(s, n, M.Enactment(false, P.Unknown, 0), store,
                    E.AfterWrites(store, policy, [E.CreateObject(n), E.InitStatus(n, now)]), generation)
  {
    var made := E.AfterWrite(store, policy, E.CreateObject(n));
    TwoWrites(store, policy, E.CreateObject(n), E.InitStatus(n, now));
    UpdateIsSeen(made[n], E.InitStatus(n, now), generation);
  }

  lemma UpdateMirrors(s: M.State, n: string, w: E.Write, store: E.Store, policy: string, generation: int)
    requires n in store && w.node == n && w.Valid() && generation != 0
    requires w == E.ResetGeneration(n, generation) || w == E.CountRetry(n, generation) || w.Interrupt?
    ensures var e := Abstract(store[n], generation);
            var e' := if w.ResetGeneration? then e.(current := true, phase := if e.current then e.phase else P.Blank)
                      else if w.CountRetry? then e.(retry := e.retry + 1)
                      else e.(phase := P.Pending, retry := if e.current then 0 else e.retry);
            Mirrors(s, n, e', store, E.AfterWrites(store, policy, [w]), generation)
  {
    UpdateIsSeen(store[n], w, generation);
    OneUpdate(store, policy, w);
  }

  // A step of the protocol changes its view of an enactment exactly as the writes it stands for
  // change the stored one.
  lemma StepIsItsWrites(c: M.Config, s: M.State, n: string, a: M.Action, store: E.Store, policy: string, generation: int)
    requires Represents(s, store, policy, generation) && generation != 0 && n in s.nodes && M.Enabled(c, s, n, a)
    ensures Mirrors(s, n, M.NodeEffect(c, s, n, a).enactment, store,
                    E.AfterWrites(store, policy, WritesOf(s, n, a, generation)), generation)
  {
    if WritesOf(s, n, a, generation) == [] {
      SilentStep(c, s, n, a, generation);
    } else if SetterOf(a).Some? {
      SetterStepMirrors(c, s, n, a, store, policy, generation);
    } else if a.Begin? {
      BeginMirrors(c, s, n, a, store, policy, generation);
    } else if a.FillIn? {
      FillInMirrors(c, s, n, a, store, policy, generation);
    } else if a.RecordRetry? {
      RetryMirrors(c, s, n, a, store, policy, generation);
    } else {
      RecoverMirrors(c, s, n, a, store, policy, generation);
    }
  }

  lemma SetterStepMirrors(c: M.Config, s: M.State, n: string, a: M.Action, store: E.Store, policy: string, generation: int)
    requires Represents(s, store, policy, generation) && n in s.nodes && M.Enabled(c, s, n, a) && SetterOf(a).Some?
    ensures Mirrors(s, n, M.NodeEffect(c, s, n, a).enactment, store,
                    E.AfterWrites(store, policy, WritesOf(s, n, a, generation)), generation)
  {
    SetterStep(c, s, n, a);
    NotifyMirrors(s, n, M.NodeEffect(c, s, n, a).enactment, SetterOf(a).value, store, policy, generation);
  }

  lemma BeginMirrors(c: M.Config, s: M.State, n: string, a: M.Action, store: E.Store, policy: string, generation: int)
    requires Represents(s, store, policy, generation) && generation != 0 && n in s.nodes && M.Enabled(c, s, n, a)
    requires WritesOf(s, n, a, generation) != [] && a.Begin?
    ensures Mirrors(s, n, M.NodeEffect(c, s, n, a).enactment, store,
                    E.AfterWrites(store, policy, WritesOf(s, n, a, generation)), generation)
  {
    FillStep(c, s, n, a, generation);
    CreateMirrors(s, n, store, policy, [0, 0, 0, 0, 0], generation);
  }

  lemma FillInMirrors(c: M.Config, s: M.State, n: string, a: M.Action, store: E.Store, policy: string, generation: int)
    requires Represents(s, store, policy, generation) && generation != 0 && n in s.nodes && M.Enabled(c, s, n, a)
    requires WritesOf(s, n, a, generation) != [] && a.FillIn?
    ensures Mirrors(s, n, M.NodeEffect(c, s, n, a).enactment, store,
                    E.AfterWrites(store, policy, WritesOf(s, n, a, generation)), generation)
  {
    FillStep(c, s, n, a, generation);
    UpdateMirrors(s, n, E.ResetGeneration(n, generation), store, policy, generation);
  }

  lemma RetryMirrors(c: M.Config, s: M.State, n: string, a: M.Action, store: E.Store, policy: string, generation: int)
    requires Represents(s, store, policy, generation) && generation != 0 && n in s.nodes && M.Enabled(c, s, n, a)
    requires WritesOf(s, n, a, generation) != [] && a.RecordRetry?
    ensures Mirrors(s, n, M.NodeEffect(c, s, n, a).enactment, store,
                    E.AfterWrites(store, policy, WritesOf(s, n, a, generation)), generation)
  {
    RetryStep(c, s, n, a, generation);
    UpdateMirrors(s, n, E.CountRetry(n, generation), store, policy, generation);
  }

  lemma RecoverMirrors(c: M.Config, s: M.State, n: string, a: M.Action, store: E.Store, policy: string, generation: int)
    requires Represents(s, store, policy, generation) && generation != 0 && n in s.nodes && M.Enabled(c, s, n, a)
    requires WritesOf(s, n, a, generation) != [] && a.Recover?
    ensures Mirrors(s, n, M.NodeEffect(c, s, n, a).enactment, store,
                    E.AfterWrites(store, policy, WritesOf(s, n, a, generation)), generation)
  {
    RecoverStep(c, s, n, a, generation);
    if s.nodes[n].enactment.phase.Finalizing? {
      NotifyMirrors(s, n, M.NodeEffect(c, s, n, a).enactment, Stamped(Success, 0), store, policy, generation);
    } else {
      UpdateMirrors(s, n, E.Interrupt(n, "", [0, 0, 0, 0, 0]), store, policy, generation);
    }
  }

  lemma StepKeepsRepresents(c: M.Config, s: M.State, st: M.Step, store: E.Store, policy: string, generation: int)
    returns (ws: seq<E.Write>)
    requires Represents(s, store, policy, generation) && generation != 0 && M.StepEnabled(c, s, st)
    ensures forall w | w in ws :: w.Valid()
    ensures Represents(M.Do(c, s, st), E.AfterWrites(store, policy, ws), policy, generation)
  {
    ws := if st.Act? then WritesOf(s, st.node, st.action, generation) else [];
    if st.Act? { StepIsItsWrites(c, s, st.node, st.action, store, policy, generation); }
    E.WritesKeepSane(store, policy, ws);
  }

  lemma {:induction false} AppendWrites(store: E.Store, policy: string, ws: seq<E.Write>, more: seq<E.Write>)
    requires (forall w | w in ws :: w.Valid()) && (forall w | w in more :: w.Valid())
    ensures (forall w | w in ws + more :: w.Valid())
    ensures E.AfterWrites(store, policy, ws + more) == E.AfterWrites(E.AfterWrites(store, policy, ws), policy, more)
    decreases |more|
  {
    if more == [] {
      assert ws + more == ws;
    } else {
      var n := |more| - 1;
      AppendWrites(store, policy, ws, more[..n]);
      assert (ws + more)[..|ws + more| - 1] == ws + more[..n];
    }
  }

  // Every run of the protocol shows enactments that handlers can have written.
  lemma {:induction false} RunIsItsWrites(c: M.Config, s: M.State, steps: seq<M.Step>, store: E.Store, policy: string, generation: int)
    returns (ws: seq<E.Write>)
    requires Represents(s, store, policy, generation) && generation != 0 && M.CanRun(c, s, steps)
    ensures forall w | w in ws :: w.Valid()
    ensures Represents(M.Run(c, s, steps), E.AfterWrites(store, policy, ws), policy, generation)
    decreases |steps|
  {
    if steps == [] {
      ws := [];
    } else {
      var first := StepKeepsRepresents(c, s, steps[0], store, policy, generation);
      var rest := RunIsItsWrites(c, M.Do(c, s, steps[0]), steps[1..], E.AfterWrites(store, policy, first), policy, generation);
      AppendWrites(store, policy, first, rest);
      ws := first + rest;
    }
  }

  lemma {:induction false} ListedIs(items: seq<Nnce>, generation: int)
    requires forall i, j | 0 <= i < j < |items| :: items[i].node != items[j].node
    ensures forall i | 0 <= i < |items| ::
              items[i].node in Listed(items, generation) && Listed(items, generation)[items[i].node] == Abstract(items[i], generation)
    decreases |items|
  {
    if items != [] { ListedIs(items[..|items| - 1], generation); }
  }

  // The listing an audit, an abort check or a status update makes of the stored enactments gives
  // the very counts the protocol's step computes from its own view.
  lemma CountsAreTheProtocols(c: M.Config, s: M.State, store: E.Store, policy: string, generation: int, items: seq<Nnce>, now: int)
    requires Represents(s, store, policy, generation) && E.ListedFrom(items, store)
    ensures var l := M.Enactments(s);
            && |M.Existing(l)| == |items|
            && |M.Holders(c, l, now)| == HolderCount(items, generation, now, c.threshold)
            && |M.TerminallyFailed(l)| == MatchCount(items, generation, FAILED_FILTER)
    ensures forall matching, ready ::
              M.SuccessVerdict(M.Enactments(s), matching, ready)
              <==> V.VerdictOf(V.SummaryOf(items, generation, matching, ready)).Configured?
  {
    assert OnePerNode(items);
    SlotCountsAgree(c, items, generation, now);
    VerdictCountsAgree(items, generation);
    ListedIsShown(s, store, policy, generation, items);
    SameSets(c, M.Enactments(s), Listed(items, generation), now);
  }

  lemma ListedIsShown(s: M.State, store: E.Store, policy: string, generation: int, items: seq<Nnce>)
    requires Represents(s, store, policy, generation) && E.ListedFrom(items, store)
    ensures var l, l' := M.Enactments(s), Listed(items, generation);
            && (forall n | n in l' :: n in l && l[n] == l'[n])
            && (forall n | n in l && n !in l' :: l[n].Missing?)
  {
    ListedKeys(items, generation);
    ListedIs(items, generation);
  }

  // Two listings that differ only in entries without an enactment.
  lemma SameSets(c: M.Config, l: M.Listing, l': M.Listing, now: int)
    requires forall n | n in l' :: n in l && l[n] == l'[n]
    requires forall n | n in l && n !in l' :: l[n].Missing?
    ensures M.Existing(l) == M.Existing(l') && M.Holders(c, l, now) == M.Holders(c, l', now)
    ensures M.TerminallyFailed(l) == M.TerminallyFailed(l') && M.FailingIn(l) == M.FailingIn(l')
    ensures M.AbortedIn(l) == M.AbortedIn(l') && M.PendingIn(l) == M.PendingIn(l') && M.AvailableIn(l) == M.AvailableIn(l')
  {
  }
}
