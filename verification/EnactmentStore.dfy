/**
 The enactments of one policy as stored, one per node, and the writes the handlers make to them.
 */
module EnactmentStore {
  import opened Conditions
  import opened EnactmentConditions
  import opened Counter

  // Keyed by node: an enactment's name is made of its node's and its policy's.
  type Store = map<string, Nnce>

  datatype Write =
    | CreateObject(node: string)
    | InitStatus(node: string, now: seq<int>)
    | ResetGeneration(node: string, generation: int)
    | Notify(node: string, written: Written)
    | CountRetry(node: string, generation: int)
    | Interrupt(node: string, message: string, now: seq<int>)
    | Delete(node: string)
  {
    predicate Valid() {
      match this
      case InitStatus(_, now) => |now| == 5
      case Notify(_, w) => ValidWritten(w)
      case Interrupt(_, _, now) => |now| == 5
      case _ => true
    }
  }

  // The status update that goes with a write.
  function Updated(e: Nnce, w: Write): Nnce
    requires w.Valid()
  {
    match w
    case InitStatus(_, now) => e.(generation := 0, conditions := Replay([], CreationCalls(now)), retryCount := None)
    case ResetGeneration(_, g) => e.(generation := g, conditions := if e.generation != g then [] else e.conditions)
    case Notify(_, w) => e.(conditions := Replay(e.conditions, Calls(w)))
    case CountRetry(_, g) => e.(retryCount := Some(Retries(e)[g := RetriesAt(e, g) + 1]))
    case Interrupt(_, message, now) =>
      e.(conditions := Replay(e.conditions, Calls(Written(Pend(ConfigurationInterrupted), message, now))),
         retryCount := if e.retryCount.Some? then Some(e.retryCount.value[e.generation := 0]) else None)
    case _ => e
  }

  function Retries(e: Nnce): map<int, int> {
    if e.retryCount.Some? then e.retryCount.value else map[]
  }

  function RetriesAt(e: Nnce, generation: int): int {
    if generation in Retries(e) then Retries(e)[generation] else 0
  }

  // A write to an enactment that does not exist fails.
  function AfterWrite(s: Store, policy: string, w: Write): Store
    requires w.Valid()
  {
    if w.CreateObject? then
      if w.node in s then s else s[w.node := Nnce(w.node + "." + policy, w.node, policy, 0, [], None)]
    else if w.node !in s then s
    else if w.Delete? then s - {w.node}
    else s[w.node := Updated(s[w.node], w)]
  }

  function AfterWrites(s: Store, policy: string, ws: seq<Write>): Store
    requires forall w | w in ws :: w.Valid()
  {
    if ws == [] then s else AfterWrite(AfterWrites(s, policy, ws[..|ws| - 1]), policy, ws[|ws| - 1])
  }

  // A write is about one node; creating what is there and changing what is not do nothing.
  lemma WriteTouchesOne(s: Store, policy: string, w: Write)
    requires w.Valid()
    ensures var s' := AfterWrite(s, policy, w);
            && s' - {w.node} == s - {w.node}
            && (w.CreateObject? == (w.node in s) ==> s' == s)
            && (w.CreateObject? && w.node !in s ==> w.node in s' && s'[w.node].conditions == [] && s'[w.node].retryCount == None)
            && (w.node in s && !w.CreateObject? ==> (w.node in s' <==> !w.Delete?))
  {
  }

  // Every enactment is filed under its node and carries conditions the handlers can leave.
  ghost predicate Sane(s: Store, policy: string) {
    forall n | n in s :: s[n].node == n && s[n].policy == policy && Reachable(s[n].conditions)
  }

  lemma UpdateKeepsReachable(e: Nnce, w: Write)
    requires w.Valid() && Reachable(e.conditions)
    ensures Reachable(Updated(e, w).conditions) && Updated(e, w).node == e.node && Updated(e, w).policy == e.policy
  {
    match w
    case InitStatus(_, now) => CreatedIsReachable(now);
    case Notify(_, w) => WrittenIsReachable(e.conditions, w);
    case Interrupt(_, message, now) => WrittenIsReachable(e.conditions, Written(Pend(ConfigurationInterrupted), message, now));
    case _ =>
  }

  lemma WriteKeepsSane(s: Store, policy: string, w: Write)
    requires w.Valid() && Sane(s, policy)
    ensures Sane(AfterWrite(s, policy, w), policy)
  {
    if w.node in s { UpdateKeepsReachable(s[w.node], w); }
  }

  lemma {:induction false} WritesKeepSane(s: Store, policy: string, ws: seq<Write>)
    requires (forall w | w in ws :: w.Valid()) && Sane(s, policy)
    ensures Sane(AfterWrites(s, policy, ws), policy)
    decreases |ws|
  {
    if ws != [] {
      WritesKeepSane(s, policy, ws[..|ws| - 1]);
      WriteKeepsSane(AfterWrites(s, policy, ws[..|ws| - 1]), policy, ws[|ws| - 1]);
    }
  }

  // `items` is what a list of the store returns, in whatever order.
  ghost predicate ListedFrom(items: seq<Nnce>, s: Store) {
    && (forall i | 0 <= i < |items| :: items[i].node in s && items[i] == s[items[i].node])
    && (forall i, j | 0 <= i < j < |items| :: items[i].node != items[j].node)
    && (forall n | n in s :: exists i :: 0 <= i < |items| && items[i].node == n)
  }

  // Whatever was written, a list returns one enactment per node and only conditions handlers leave.
  lemma ListsAreOnePerNode(policy: string, ws: seq<Write>, items: seq<Nnce>)
    requires forall w | w in ws :: w.Valid()
    requires ListedFrom(items, AfterWrites(map[], policy, ws))
    ensures OnePerNode(items) && forall e | e in items :: e.policy == policy
  {
    WritesKeepSane(map[], policy, ws);
  }
}
