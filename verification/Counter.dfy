/**
 Counting enactments by condition: the per-type tallies behind the policy verdict, the
 conjunctive filter behind the abort decision, and the audit's slot holders.
 */
module Counter {
  import opened Conditions
  import opened EnactmentConditions

  // An enactment as listed; a label that is not set is the empty string.
  datatype Nnce = Nnce(
    name: string, node: string, policy: string, generation: int, conditions: seq<Condition>, retryCount: Option<map<int, int>>)

  // One enactment per node, with conditions the handlers can have written.
  ghost predicate OnePerNode(items: seq<Nnce>) {
    && (forall i, j | 0 <= i < j < |items| :: items[i].node != items[j].node)
    && (forall i | 0 <= i < |items| :: Reachable(items[i].conditions))
  }

  datatype Tally = Tally(yes: nat, no: nat, unknown: nat)

  const ENACTMENT_TYPES: seq<ConditionType> := [Available, Failing, Progressing, Pending, Aborted]

  // The status an enactment contributes for a type: Unknown unless it is of the generation counted.
  function Contribution(e: Nnce, generation: int, t: ConditionType): Status {
    var f := Find(e.conditions, t);
    if f.Some? && e.generation == generation then f.value.status else Unknown
  }

  function CountOf(items: seq<Nnce>, generation: int, t: ConditionType, st: Status): nat {
    if items == [] then 0
    else CountOf(items[..|items| - 1], generation, t, st)
         + (if Contribution(items[|items| - 1], generation, t) == st then 1 else 0)
  }

  predicate Tallied(r: Tally, items: seq<Nnce>, generation: int, t: ConditionType) {
    && r.yes == CountOf(items, generation, t, True)
    && r.no == CountOf(items, generation, t, False)
    && r.unknown == CountOf(items, generation, t, Unknown)
  }

  method Count(items: seq<Nnce>, generation: int) returns (r: map<ConditionType, Tally>)
    ensures forall t | t in ENACTMENT_TYPES :: t in r && Tallied(r[t], items, generation, t)
  {
    r := map[];
    for i := 0 to |ENACTMENT_TYPES|
      invariant forall j | 0 <= j < i :: ENACTMENT_TYPES[j] in r && Tallied(r[ENACTMENT_TYPES[j]], items, generation, ENACTMENT_TYPES[j])
    {
      var t := ENACTMENT_TYPES[i];
      var tally := Tally(0, 0, 0);
      for k := 0 to |items|
        invariant Tallied(tally, items[..k], generation, t)
      {
        assert items[..k + 1][..k] == items[..k];
        var f := Find(items[k].conditions, t);
        if f.Some? && items[k].generation == generation {
          match f.value.status
          case True => tally := tally.(yes := tally.yes + 1);
          case False => tally := tally.(no := tally.no + 1);
          case Unknown => tally := tally.(unknown := tally.unknown + 1);
        } else {
          tally := tally.(unknown := tally.unknown + 1);
        }
      }
      assert items[..|items|] == items;
      r := r[t := tally];
    }
  }

  // What an enactment says about a type: nothing is known of other generations and missing conditions.
  predicate Says(e: Nnce, generation: int, t: ConditionType, st: Status) {
    if e.generation == generation && Find(e.conditions, t).Some? then Has(e.conditions, t, st) else st == Unknown
  }

  ghost function Sayers(items: seq<Nnce>, generation: int, t: ConditionType, st: Status): set<int> {
    set i | 0 <= i < |items| && Says(items[i], generation, t, st)
  }

  lemma SayersSnoc(items: seq<Nnce>, generation: int, t: ConditionType, st: Status)
    requires items != []
    ensures var n := |items| - 1;
            Sayers(items, generation, t, st)
            == Sayers(items[..n], generation, t, st) + if Contribution(items[n], generation, t) == st then {n} else {}
  {
    var n := |items| - 1;
    assert forall i | 0 <= i < n :: items[..n][i] == items[i];
    assert Says(items[n], generation, t, st) <==> Contribution(items[n], generation, t) == st;
  }

  // A tally is the number of enactments that say so.
  lemma {:induction false} CountIsSize(items: seq<Nnce>, generation: int, t: ConditionType, st: Status)
    ensures CountOf(items, generation, t, st) == |Sayers(items, generation, t, st)|
    decreases |items|
  {
    if items == [] {
      assert Sayers(items, generation, t, st) == {};
    } else {
      CountIsSize(items[..|items| - 1], generation, t, st);
      SayersSnoc(items, generation, t, st);
    }
  }

  // Every enactment is counted exactly once per type.
  lemma {:induction false} TalliesPartition(items: seq<Nnce>, generation: int, t: ConditionType)
    ensures CountOf(items, generation, t, True) + CountOf(items, generation, t, False)
            + CountOf(items, generation, t, Unknown) == |items|
    decreases |items|
  {
    if items != [] {
      TalliesPartition(items[..|items| - 1], generation, t);
    }
  }

  // ---------- the conjunctive filter ----------

  type Filter = map<ConditionType, Status>

  predicate Matches(e: Nnce, filter: Filter) {
    forall t | t in filter :: Has(e.conditions, t, filter[t])
  }

  predicate Complete(e: Nnce, filter: Filter) {
    forall t | t in filter :: Find(e.conditions, t).Some?
  }

  function MatchCount(items: seq<Nnce>, generation: int, filter: Filter): nat {
    if items == [] then 0
    else MatchCount(items[..|items| - 1], generation, filter)
         + (if items[|items| - 1].generation == generation && Matches(items[|items| - 1], filter) then 1 else 0)
  }

  // Map iteration order is unspecified, and drawn anew for every enactment.
  ghost predicate IsOrderOf(order: seq<ConditionType>, filter: Filter) {
    forall t :: t in order <==> t in filter
  }

  // The inner loop over the filter: error on a missing condition, stop at the first mismatch.
  method MatchOne(e: Nnce, filter: Filter, order: seq<ConditionType>) returns (matches: Option<bool>)
    requires IsOrderOf(order, filter)
    ensures matches.Some? ==> matches.value == Matches(e, filter)
    ensures matches.None? ==> !Complete(e, filter)
  {
    for i := 0 to |order|
      invariant forall j | 0 <= j < i :: Has(e.conditions, order[j], filter[order[j]])
    {
      var t := order[i];
      assert t in filter;
      var f := Find(e.conditions, t);
      if f.None? {
        return None;
      }
      if f.value.status != filter[t] {
        assert !Has(e.conditions, t, filter[t]);
        return Some(false);
      }
    }
    assert forall t | t in filter :: t in order;
    return Some(true);
  }

  // Whatever order the filter is walked in, a count returned without error is the number of
  // enactments of the generation that match; it fails only if some enactment lacks a condition.
  method CountConditionsLogicalAnd(items: seq<Nnce>, generation: int, filter: Filter, orders: seq<seq<ConditionType>>)
    returns (r: Option<nat>)
    requires |orders| == |items| && forall o | o in orders :: IsOrderOf(o, filter)
    ensures r.Some? ==> r.value == MatchCount(items, generation, filter)
    ensures r.None? ==> exists e :: e in items && !Complete(e, filter)
  {
    var count := 0;
    for i := 0 to |items|
      invariant count == MatchCount(items[..i], generation, filter)
    {
      assert items[..i + 1][..i] == items[..i];
      var increase := MatchOne(items[i], filter, orders[i]);
      if increase.None? {
        return None;
      }
      if increase.value && items[i].generation == generation {
        count := count + 1;
      }
    }
    assert items[..|items|] == items;
    return Some(count);
  }

  const FAILED_FILTER: Filter := map[Failing := True, Progressing := False]

  // ---------- slot holders ----------

  predicate HoldsSlot(e: Nnce, generation: int, now: int, threshold: int) {
    e.generation == generation && (IsLiveHolder(e.conditions, now, threshold) || IsTerminallyFailed(e.conditions))
  }

  function HolderCount(items: seq<Nnce>, generation: int, now: int, threshold: int): nat {
    if items == [] then 0
    else HolderCount(items[..|items| - 1], generation, now, threshold)
         + (if HoldsSlot(items[|items| - 1], generation, now, threshold) then 1 else 0)
  }

  // As time passes holders only drop out.
  lemma {:induction false} HoldersAge(items: seq<Nnce>, generation: int, t: int, t': int, threshold: int)
    requires t <= t'
    ensures HolderCount(items, generation, t', threshold) <= HolderCount(items, generation, t, threshold)
    decreases |items|
  {
    if items != [] {
      HoldersAge(items[..|items| - 1], generation, t, t', threshold);
    }
  }

  method CountSlotHolders(items: seq<Nnce>, generation: int, now: int, threshold: int) returns (holders: nat)
    ensures holders == HolderCount(items, generation, now, threshold)
  {
    holders := 0;
    for i := 0 to |items|
      invariant holders == HolderCount(items[..i], generation, now, threshold)
    {
      assert items[..i + 1][..i] == items[..i];
      if items[i].generation != generation {
        continue;
      }
      if IsLiveHolder(items[i].conditions, now, threshold) || IsTerminallyFailed(items[i].conditions) {
        holders := holders + 1;
      }
    }
    assert items[..|items|] == items;
  }

  function TerminallyFailedCount(items: seq<Nnce>, generation: int): nat {
    if items == [] then 0
    else TerminallyFailedCount(items[..|items| - 1], generation)
         + (if items[|items| - 1].generation == generation && IsTerminallyFailed(items[|items| - 1].conditions) then 1 else 0)
  }

  // The abort filter counts exactly the enactments the audit calls terminally failed, hence
  // never more than the audit counts as holders.
  lemma {:induction false} AbortFilterAgreesWithAudit(items: seq<Nnce>, generation: int, now: int, threshold: int)
    ensures MatchCount(items, generation, FAILED_FILTER) == TerminallyFailedCount(items, generation)
    ensures MatchCount(items, generation, FAILED_FILTER) <= HolderCount(items, generation, now, threshold) <= |items|
    decreases |items|
  {
    if items != [] {
      var e := items[|items| - 1];
      AbortFilterAgreesWithAudit(items[..|items| - 1], generation, now, threshold);
      assert Matches(e, FAILED_FILTER) <==> IsTerminallyFailed(e.conditions) by {
        assert Failing in FAILED_FILTER && Progressing in FAILED_FILTER;
      }
    }
  }
}
