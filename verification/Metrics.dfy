/**
 Gauges kept up to date by difference: each report sets the current series and deletes those
 of the previous report that are gone.
 */
module Metrics {
  import opened Conditions
  import opened Counter

  // ---------- per-node counts: interfaces by type, routes by key ----------

  // The exported series and the keys remembered per node from its last report.
  datatype Exported<K> = Exported(gauge: map<(string, K), int>, oldKeys: map<string, set<K>>)

  function Labelled<K>(node: string, counts: map<K, int>): map<(string, K), int> {
    map k | k in counts :: (node, k) := counts[k]
  }

  function Series<K>(node: string, keys: set<K>): set<(string, K)> {
    set k | k in keys :: (node, k)
  }

  function Remembered<K>(x: Exported<K>, node: string): set<K> {
    if node in x.oldKeys then x.oldKeys[node] else {}
  }

  function AfterUpdate<K>(x: Exported<K>, node: string, counts: map<K, int>): Exported<K> {
    Exported((x.gauge + Labelled(node, counts)) - Series(node, Remembered(x, node) - counts.Keys),
             x.oldKeys[node := counts.Keys])
  }

  function AfterDelete<K>(x: Exported<K>, node: string): Exported<K> {
    Exported(x.gauge - Series(node, Remembered(x, node)), x.oldKeys - {node})
  }

  class NodeGauge<K(==, !new)> {
    var gauge: map<(string, K), int>
    var oldKeys: map<string, set<K>>

    constructor ()
      ensures State() == Exported(map[], map[])
    {
      gauge, oldKeys := map[], map[];
    }

    ghost function State(): Exported<K>
      reads this
    {
      Exported(gauge, oldKeys)
    }

    // Sets the current series, deletes the vanished ones, remembers the current keys.
    method Update(node: string, counts: map<K, int>)
      modifies this
      ensures State() == AfterUpdate(old(State()), node, counts)
    {
      var before := if node in oldKeys then oldKeys[node] else {};
      SetCurrent(node, counts);
      DropKeys(node, before - counts.Keys);
      oldKeys := oldKeys[node := counts.Keys];
    }

    method SetCurrent(node: string, counts: map<K, int>)
      modifies this`gauge
      ensures gauge == old(gauge) + Labelled(node, counts)
    {
      var rest := counts.Keys;
      while rest != {}
        invariant rest <= counts.Keys
        invariant forall s :: s in gauge <==> s in old(gauge) || (s.0 == node && s.1 in counts.Keys - rest)
        invariant forall s | s in gauge :: gauge[s] == if s.0 == node && s.1 in counts.Keys - rest then counts[s.1] else old(gauge)[s]
        decreases rest
      {
        var k :| k in rest;
        gauge := gauge[(node, k) := counts[k]];
        rest := rest - {k};
      }
      LabelledPointwise(old(gauge), gauge, node, counts);
    }

    method DropKeys(node: string, keys: set<K>)
      modifies this`gauge
      ensures gauge == old(gauge) - Series(node, keys)
    {
      var rest := keys;
      while rest != {}
        invariant rest <= keys
        invariant gauge == old(gauge) - Series(node, keys - rest)
        decreases rest
      {
        var k :| k in rest;
        gauge := gauge - {(node, k)};
        rest := rest - {k};
      }
      assert keys - rest == keys;
    }

    // Deletes every series of a node that is gone.
    method Delete(node: string)
      modifies this
      ensures State() == AfterDelete(old(State()), node)
    {
      if node in oldKeys {
        DropKeys(node, oldKeys[node]);
        oldKeys := oldKeys - {node};
      }
    }
  }

  lemma LabelledPointwise<K(!new)>(g: map<(string, K), int>, g': map<(string, K), int>, node: string, counts: map<K, int>)
    requires forall s :: s in g' <==> s in g || (s.0 == node && s.1 in counts)
    requires forall s | s in g' :: g'[s] == if s.0 == node && s.1 in counts then counts[s.1] else g[s]
    ensures g' == g + Labelled(node, counts)
  {
    assert forall s :: s in Labelled(node, counts) <==> s.0 == node && s.1 in counts;
  }

  datatype Event<K> = Updated(node: string, counts: map<K, int>) | Deleted(node: string)

  function Processed<K>(events: seq<Event<K>>): Exported<K> {
    if events == [] then Exported(map[], map[])
    else
      var x := Processed(events[..|events| - 1]);
      match events[|events| - 1]
      case Updated(n, counts) => AfterUpdate(x, n, counts)
      case Deleted(n) => AfterDelete(x, n)
  }

  // The latest counts of every node not deleted since.
  function Latest<K>(events: seq<Event<K>>): map<string, map<K, int>> {
    if events == [] then map[]
    else
      var l := Latest(events[..|events| - 1]);
      match events[|events| - 1]
      case Updated(n, counts) => l[n := counts]
      case Deleted(n) => l - {n}
  }

  ghost predicate MatchesLatest<K(!new)>(x: Exported<K>, l: map<string, map<K, int>>) {
    && x.oldKeys.Keys == l.Keys
    && (forall n | n in l :: x.oldKeys[n] == l[n].Keys)
    && (forall s :: s in x.gauge <==> s.0 in l && s.1 in l[s.0])
    && (forall s | s in x.gauge :: x.gauge[s] == l[s.0][s.1])
  }

  // After any run of updates and deletions the gauge is what a recount from each live node's
  // latest report gives: no stale series, none missing, none with an old value.
  lemma {:induction false} GaugeIsRecount<K(!new)>(events: seq<Event<K>>)
    ensures MatchesLatest(Processed(events), Latest(events))
    decreases |events|
  {
    if events != [] {
      var before := events[..|events| - 1];
      GaugeIsRecount(before);
      match events[|events| - 1]
      case Updated(n, counts) => UpdateKeepsRecount(Processed(before), Latest(before), n, counts);
      case Deleted(n) => DeleteKeepsRecount(Processed(before), Latest(before), n);
    }
  }

  lemma UpdateKeepsRecount<K(!new)>(x: Exported<K>, l: map<string, map<K, int>>, n: string, counts: map<K, int>)
    requires MatchesLatest(x, l)
    ensures MatchesLatest(AfterUpdate(x, n, counts), l[n := counts])
  {
    forall s: (string, K)
      ensures s in AfterUpdate(x, n, counts).gauge <==> s.0 in l[n := counts] && s.1 in l[n := counts][s.0]
      ensures s in AfterUpdate(x, n, counts).gauge ==> AfterUpdate(x, n, counts).gauge[s] == l[n := counts][s.0][s.1]
    {
      UpdateOneSeries(x, l, n, counts, s);
    }
  }

  lemma UpdateOneSeries<K(!new)>(x: Exported<K>, l: map<string, map<K, int>>, n: string, counts: map<K, int>, s: (string, K))
    requires MatchesLatest(x, l)
    ensures s in AfterUpdate(x, n, counts).gauge <==> s.0 in l[n := counts] && s.1 in l[n := counts][s.0]
    ensures s in AfterUpdate(x, n, counts).gauge ==> AfterUpdate(x, n, counts).gauge[s] == l[n := counts][s.0][s.1]
  {
    assert s in Labelled(n, counts) <==> s.0 == n && s.1 in counts;
    assert s in Series(n, Remembered(x, n) - counts.Keys) <==> s.0 == n && s.1 in Remembered(x, n) && s.1 !in counts;
  }

  lemma DeleteKeepsRecount<K(!new)>(x: Exported<K>, l: map<string, map<K, int>>, n: string)
    requires MatchesLatest(x, l)
    ensures MatchesLatest(AfterDelete(x, n), l - {n})
  {
    var x' := AfterDelete(x, n);
    forall s ensures s in x'.gauge <==> s.0 in l - {n} && s.1 in (l - {n})[s.0] {
      assert s in Series(n, Remembered(x, n)) <==> s.0 == n && s.1 in Remembered(x, n);
    }
  }

  // ---------- enactment statuses per node ----------

  type StatusKey = (string, ConditionType)

  // The first True condition of a list; None is the empty type.
  function ActiveType(cs: seq<Condition>): Option<ConditionType> {
    if cs == [] then None else if cs[0].status == True then Some(cs[0].kind) else ActiveType(cs[1..])
  }

  predicate Counts(e: Nnce, key: StatusKey) {
    e.node == key.0 && e.node != "" && ActiveType(e.conditions) == Some(key.1)
  }

  function StatusCount(items: seq<Nnce>, key: StatusKey): nat {
    if items == [] then 0
    else StatusCount(items[..|items| - 1], key) + (if Counts(items[|items| - 1], key) then 1 else 0)
  }

  function NodesOf(items: seq<Nnce>): set<string> {
    set i | 0 <= i < |items| && items[i].node != "" :: items[i].node
  }

  function AllSeries(nodes: set<string>): set<StatusKey> {
    set n, t | n in nodes && t in ENACTMENT_TYPES :: (n, t)
  }

  class StatusGauge {
    var gauge: map<StatusKey, int>
    var oldNodes: set<string>

    ghost predicate Valid()
      reads this
    {
      gauge.Keys == AllSeries(oldNodes)
    }

    constructor ()
      ensures Valid() && oldNodes == {}
    {
      gauge, oldNodes := map[], {};
    }

    // After each report the series are those of the nodes that have enactments now, each with
    // the number of that node's enactments active in that type.
    method ReportStatistics(items: seq<Nnce>)
      requires Valid()
      modifies this
      ensures Valid() && oldNodes == NodesOf(items)
      ensures forall key | key in gauge :: gauge[key] == StatusCount(items, key)
    {
      var counts: map<StatusKey, nat> := map[];
      var newNodes: set<string> := {};
      for i := 0 to |items|
        invariant newNodes == NodesOf(items[..i])
        invariant forall key :: StatusCount(items[..i], key) == if key in counts then counts[key] else 0
        invariant gauge == old(gauge) && oldNodes == old(oldNodes)
      {
        assert items[..i + 1][..i] == items[..i];
        assert NodesOf(items[..i + 1]) == NodesOf(items[..i]) + if items[i].node != "" then {items[i].node} else {} by {
          assert items[..i + 1] == items[..i] + [items[i]];
          assert items[..i + 1][i] == items[i];
          NodesSnoc(items[..i], items[i]);
        }
        if items[i].node == "" {
          continue;
        }
        newNodes := newNodes + {items[i].node};
        var active := ActiveType(items[i].conditions);
        if active.Some? {
          var key := (items[i].node, active.value);
          counts := counts[key := (if key in counts then counts[key] else 0) + 1];
        }
      }
      assert items[..|items|] == items;
      var rest := newNodes;
      while rest != {}
        invariant rest <= newNodes
        invariant gauge.Keys == AllSeries(old(oldNodes)) + AllSeries(newNodes - rest)
        invariant forall key | key in AllSeries(newNodes - rest) :: key in gauge && gauge[key] == StatusCount(items, key)
        invariant oldNodes == old(oldNodes)
        decreases rest
      {
        var n :| n in rest;
        SetNode(n, counts, ENACTMENT_TYPES);
        rest := rest - {n};
        assert newNodes - rest == newNodes - (rest + {n}) + {n};
      }
      assert newNodes - rest == newNodes;
      DropGone(newNodes);
      oldNodes := newNodes;
    }

    // The inner loop over the condition types for one current node.
    method SetNode(n: string, counts: map<StatusKey, nat>, types: seq<ConditionType>)
      modifies this`gauge
      ensures forall key :: key in gauge <==> key in old(gauge) || (key.0 == n && key.1 in types)
      ensures forall key | key in gauge :: gauge[key] ==
                if key.0 == n && key.1 in types then (if key in counts then counts[key] else 0) else old(gauge)[key]
    {
      for i := 0 to |types|
        invariant forall key :: key in gauge <==> key in old(gauge) || (key.0 == n && key.1 in types[..i])
        invariant forall key | key in gauge :: gauge[key] ==
                    if key.0 == n && key.1 in types[..i] then (if key in counts then counts[key] else 0) else old(gauge)[key]
      {
        var key := (n, types[i]);
        gauge := gauge[key := if key in counts then counts[key] else 0];
        assert types[..i + 1] == types[..i] + [types[i]];
      }
      assert types[..|types|] == types;
    }

    // Deletes the series of nodes that no longer have enactments.
    method DropGone(newNodes: set<string>)
      modifies this`gauge
      ensures gauge == old(gauge) - AllSeries(oldNodes - newNodes)
    {
      var gone := oldNodes;
      while gone != {}
        invariant gone <= oldNodes
        invariant gauge == old(gauge) - AllSeries(oldNodes - gone - newNodes)
        decreases gone
      {
        var n :| n in gone;
        if n !in newNodes {
          gauge := gauge - set j | 0 <= j < |ENACTMENT_TYPES| :: (n, ENACTMENT_TYPES[j]);
        }
        gone := gone - {n};
      }
      assert oldNodes - {} - newNodes == oldNodes - newNodes;
    }
  }

  lemma NodesSnoc(items: seq<Nnce>, e: Nnce)
    ensures NodesOf(items + [e]) == NodesOf(items) + if e.node != "" then {e.node} else {}
  {
    var all := items + [e];
    forall n ensures n in NodesOf(all) <==> n in NodesOf(items) || (e.node != "" && n == e.node) {
      if n in NodesOf(items) {
        var i :| 0 <= i < |items| && items[i].node != "" && items[i].node == n;
        assert all[i] == items[i];
      }
      if e.node != "" && n == e.node {
        assert all[|items|] == e;
      }
    }
  }

  // ---------- what the status series add up to ----------

  ghost function Pick(keys: set<StatusKey>): (k: StatusKey)
    requires keys != {}
    ensures k in keys
  {
    var k :| k in keys; k
  }

  ghost function Sum(keys: set<StatusKey>, items: seq<Nnce>): nat {
    if keys == {} then 0 else StatusCount(items, Pick(keys)) + Sum(keys - {Pick(keys)}, items)
  }

  predicate IsActive(e: Nnce) {
    e.node != "" && ActiveType(e.conditions).Some?
  }

  function ActiveCount(items: seq<Nnce>): nat {
    if items == [] then 0 else ActiveCount(items[..|items| - 1]) + (if IsActive(items[|items| - 1]) then 1 else 0)
  }

  lemma {:induction false} SumOfNone(keys: set<StatusKey>)
    ensures Sum(keys, []) == 0
    decreases keys
  {
    if keys != {} {
      SumOfNone(keys - {Pick(keys)});
    }
  }

  lemma {:induction false} SumSnoc(keys: set<StatusKey>, items: seq<Nnce>, e: Nnce)
    ensures Sum(keys, items + [e]) == Sum(keys, items) + (if exists k :: k in keys && Counts(e, k) then 1 else 0)
    decreases keys
  {
    assert (items + [e])[..|items|] == items;
    if keys != {} {
      var k := Pick(keys);
      SumSnoc(keys - {k}, items, e);
      assert forall k' | k' in keys && Counts(e, k') :: k' == k || k' in keys - {k};
    }
  }

  // The status series add up to the number of node-labelled enactments with an active condition.
  lemma {:induction false} SeriesAddUp(nodes: set<string>, items: seq<Nnce>)
    requires NodesOf(items) <= nodes
    requires forall i | 0 <= i < |items| :: forall c | c in items[i].conditions :: c.kind in ENACTMENT_TYPES
    ensures Sum(AllSeries(nodes), items) == ActiveCount(items)
    decreases |items|
  {
    if items == [] {
      SumOfNone(AllSeries(nodes));
    } else {
      var before, e := items[..|items| - 1], items[|items| - 1];
      assert items == before + [e];
      NodesSnoc(before, e);
      SeriesAddUp(nodes, before);
      SumSnoc(AllSeries(nodes), before, e);
      if IsActive(e) {
        ActiveTypeIsListed(e.conditions);
        var k := (e.node, ActiveType(e.conditions).value);
        assert k in AllSeries(nodes) && Counts(e, k);
      }
    }
  }

  lemma {:induction false} ActiveTypeIsListed(cs: seq<Condition>)
    requires ActiveType(cs).Some?
    ensures exists c :: c in cs && c.status == True && c.kind == ActiveType(cs).value
    decreases |cs|
  {
    if cs[0].status != True {
      ActiveTypeIsListed(cs[1..]);
    }
  }

  ghost predicate IsFirstTrue(cs: seq<Condition>, i: int) {
    0 <= i < |cs| && cs[i].status == True && forall j | 0 <= j < i :: cs[j].status != True
  }

  // The active type is that of the first True condition, and there is one unless none is True.
  lemma {:induction false} ActiveTypeIsFirst(cs: seq<Condition>)
    ensures ActiveType(cs).None? <==> forall c | c in cs :: c.status != True
    ensures forall i | IsFirstTrue(cs, i) :: ActiveType(cs) == Some(cs[i].kind)
    decreases |cs|
  {
    if cs != [] {
      ActiveTypeIsFirst(cs[1..]);
      assert cs == [cs[0]] + cs[1..];
      forall i | IsFirstTrue(cs, i) ensures ActiveType(cs) == Some(cs[i].kind) {
        if i > 0 {
          assert cs[0].status != True;
          assert forall j | 0 <= j < |cs| - 1 :: cs[1..][j] == cs[j + 1];
          assert IsFirstTrue(cs[1..], i - 1);
        }
      }
    }
  }

  // ---------- applied features ----------

  function Elements(s: seq<string>): set<string> {
    set f | f in s
  }

  function FeaturesOf(lists: seq<seq<string>>): set<string> {
    if lists == [] then {} else FeaturesOf(lists[..|lists| - 1]) + Elements(lists[|lists| - 1])
  }

  // A feature is applied exactly if some enactment lists it.
  lemma {:induction false} FeaturesAreListed(lists: seq<seq<string>>, f: string)
    ensures f in FeaturesOf(lists) <==> exists i :: 0 <= i < |lists| && f in lists[i]
    decreases |lists|
  {
    if lists != [] {
      var n := |lists| - 1;
      FeaturesAreListed(lists[..n], f);
      if i :| 0 <= i < |lists| && f in lists[i] {
        assert i < n ==> lists[..n][i] == lists[i];
      }
    }
  }

  class FeatureGauge {
    var gauge: map<string, int>
    var oldFeatures: set<string>

    ghost predicate Valid()
      reads this
    {
      gauge == map f | f in oldFeatures :: 1
    }

    constructor ()
      ensures Valid() && oldFeatures == {}
    {
      gauge, oldFeatures := map[], {};
    }

    method SetCurrent(newFeatures: set<string>)
      requires Valid()
      modifies this`gauge
      ensures gauge == map f | f in oldFeatures + newFeatures :: 1
    {
      var rest := newFeatures;
      while rest != {}
        invariant rest <= newFeatures
        invariant gauge == map f | f in oldFeatures + (newFeatures - rest) :: 1
        decreases rest
      {
        var f :| f in rest;
        gauge := gauge[f := 1];
        rest := rest - {f};
      }
    }

    method DropGone(newFeatures: set<string>)
      requires gauge == map f | f in oldFeatures + newFeatures :: 1
      modifies this`gauge
      ensures gauge == map f | f in newFeatures :: 1
    {
      var rest := oldFeatures;
      while rest != {}
        invariant rest <= oldFeatures
        invariant gauge == map f | f in newFeatures + rest :: 1
        decreases rest
      {
        var f :| f in rest;
        if f !in newFeatures {
          gauge := gauge - {f};
        }
        rest := rest - {f};
      }
    }

    // One series per feature some enactment applies now, whatever was reported before.
    method ReportStatistics(lists: seq<seq<string>>)
      requires Valid()
      modifies this
      ensures Valid() && oldFeatures == FeaturesOf(lists)
      ensures forall f :: f in gauge <==> exists i :: 0 <= i < |lists| && f in lists[i]
    {
      var newFeatures: set<string> := {};
      for i := 0 to |lists|
        invariant newFeatures == FeaturesOf(lists[..i])
        invariant gauge == old(gauge) && oldFeatures == old(oldFeatures)
      {
        assert lists[..i + 1][..i] == lists[..i];
        newFeatures := newFeatures + Elements(lists[i]);
      }
      assert lists[..|lists|] == lists;
      SetCurrent(newFeatures);
      DropGone(newFeatures);
      oldFeatures := newFeatures;
      forall f ensures f in newFeatures <==> exists i :: 0 <= i < |lists| && f in lists[i] {
        FeaturesAreListed(lists, f);
      }
    }
  }
}
