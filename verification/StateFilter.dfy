/**
 Filtering a parsed network state before it is published, and counting its routes.
 */
module StateFilter {
  // A parsed document: objects, lists, strings and everything else.
  datatype Tree = Obj(fields: map<string, Tree>) | List(items: seq<Tree>) | Text(text: string) | Scalar(literal: string)

  type Fields = map<string, Tree>

  datatype Interface = Interface(name: string, data: Fields)
  datatype Route = Route(destination: string, nextHop: string, data: Fields)

  datatype Routes = NoRoutes | Routes(config: seq<Route>, running: seq<Route>)

  // The parts the filter does not look into travel in `rest`.
  datatype RootState = RootState(interfaces: seq<Interface>, routes: Routes, rest: Fields)

  // ---------- attributes that change on their own ----------

  predicate FieldIs(d: Fields, key: string, text: string) {
    key in d && d[key] == Text(text)
  }

  // A field that is an object.
  predicate HasObj(d: Fields, key: string) {
    key in d && d[key].Obj?
  }

  function WithoutTimers(d: Fields): Fields {
    if FieldIs(d, "type", "linux-bridge") && HasObj(d, "bridge") && HasObj(d["bridge"].fields, "options") then
      var bridge := d["bridge"].fields;
      d["bridge" := Obj(bridge["options" := Obj(bridge["options"].fields - {"gc-timer", "hello-timer"})])]
    else d
  }

  function WithoutLifetimes(a: Tree): Tree {
    if a.Obj? then Obj(a.fields - {"preferred-life-time", "valid-life-time"}) else a
  }

  function AddressesWithoutLifetimes(items: seq<Tree>): (r: seq<Tree>)
    ensures |r| == |items| && forall i | 0 <= i < |items| :: r[i] == WithoutLifetimes(items[i])
  {
    seq(|items|, i requires 0 <= i < |items| => WithoutLifetimes(items[i]))
  }

  predicate HasAddresses(d: Fields, version: string) {
    HasObj(d, version) && "address" in d[version].fields && d[version].fields["address"].List?
  }

  function StableAddresses(d: Fields, version: string): Fields {
    if HasAddresses(d, version) then
      var ip := d[version].fields;
      d[version := Obj(ip["address" := List(AddressesWithoutLifetimes(ip["address"].items))])]
    else d
  }

  function Stable(d: Fields): Fields {
    StableAddresses(StableAddresses(WithoutTimers(d), "ipv4"), "ipv6")
  }

  // Nothing but the three attribute groups is touched.
  lemma StableKeepsOthers(d: Fields)
    ensures Stable(d).Keys == d.Keys
    ensures forall key | key in d && key != "bridge" && key != "ipv4" && key != "ipv6" :: Stable(d)[key] == d[key]
  {
  }

  // What is left of an object without some of its keys: every other key with its value.
  ghost predicate OnlyLost(before: Fields, after: Fields, lost: set<string>) {
    && (forall key :: key in after <==> key in before && key !in lost)
    && (forall key | key in after :: after[key] == before[key])
  }

  // Two objects that agree but for what they hold under one key.
  ghost predicate AgreeBut(before: Fields, after: Fields, key: string) {
    after.Keys == before.Keys && forall k | k in before && k != key :: after[k] == before[k]
  }

  ghost predicate AddressKept(before: Tree, after: Tree) {
    if before.Obj? then after.Obj? && OnlyLost(before.fields, after.fields, {"preferred-life-time", "valid-life-time"})
    else after == before
  }

  ghost predicate AddressesKept(before: seq<Tree>, after: seq<Tree>) {
    |after| == |before| && forall i | 0 <= i < |before| :: AddressKept(before[i], after[i])
  }

  ghost predicate FamilyKept(before: Tree, after: Tree) {
    if before.Obj? then
      && after.Obj? && AgreeBut(before.fields, after.fields, "address")
      && ("address" in before.fields ==>
            var a, a' := before.fields["address"], after.fields["address"];
            if a.List? then a'.List? && AddressesKept(a.items, a'.items) else a' == a)
    else after == before
  }

  ghost predicate BridgeKept(before: Tree, after: Tree) {
    if before.Obj? then
      && after.Obj? && AgreeBut(before.fields, after.fields, "options")
      && ("options" in before.fields ==>
            var o, o' := before.fields["options"], after.fields["options"];
            if o.Obj? then o'.Obj? && OnlyLost(o.fields, o'.fields, {"gc-timer", "hello-timer"}) else o' == o)
    else after == before
  }

  lemma FamilyPassKeeps(d: Fields, version: string)
    ensures StableAddresses(d, version).Keys == d.Keys
    ensures forall key | key in d && key != version :: StableAddresses(d, version)[key] == d[key]
    ensures version in d ==> FamilyKept(d[version], StableAddresses(d, version)[version])
  {
    if HasAddresses(d, version) {
      var items := d[version].fields["address"].items;
      assert AddressesKept(items, AddressesWithoutLifetimes(items));
    }
  }

  lemma BridgePassKeeps(d: Fields)
    ensures WithoutTimers(d).Keys == d.Keys
    ensures forall key | key in d && key != "bridge" :: WithoutTimers(d)[key] == d[key]
    ensures "bridge" in d ==>
              if FieldIs(d, "type", "linux-bridge") then BridgeKept(d["bridge"], WithoutTimers(d)["bridge"])
              else WithoutTimers(d)["bridge"] == d["bridge"]
  {
  }

  /**
   What an interface keeps: every attribute but bridge, ipv4 and ipv6 as it is; of an address
   family everything but the two lifetimes of its addresses, which stay in order; of a linux
   bridge everything but the two timers of its options; of any other interface the whole bridge.
   */
  lemma StableKeepsContents(d: Fields)
    ensures Stable(d).Keys == d.Keys
    ensures forall key | key in d && key != "bridge" && key != "ipv4" && key != "ipv6" :: Stable(d)[key] == d[key]
    ensures "ipv4" in d ==> FamilyKept(d["ipv4"], Stable(d)["ipv4"])
    ensures "ipv6" in d ==> FamilyKept(d["ipv6"], Stable(d)["ipv6"])
    ensures "bridge" in d ==>
              if "type" in d && d["type"] == Text("linux-bridge") then BridgeKept(d["bridge"], Stable(d)["bridge"])
              else Stable(d)["bridge"] == d["bridge"]
  {
    var t := WithoutTimers(d);
    BridgePassKeeps(d);
    FamilyPassKeeps(t, "ipv4");
    FamilyPassKeeps(StableAddresses(t, "ipv4"), "ipv6");
    assert "ipv4"[3] != "ipv6"[3];
  }

  lemma AddressesIdempotent(items: seq<Tree>)
    ensures AddressesWithoutLifetimes(AddressesWithoutLifetimes(items)) == AddressesWithoutLifetimes(items)
  {
    forall i | 0 <= i < |items| ensures WithoutLifetimes(WithoutLifetimes(items[i])) == WithoutLifetimes(items[i]) {
      if items[i].Obj? {
        var f := items[i].fields;
        var s := {"preferred-life-time", "valid-life-time"};
        assert f - s - s == f - s;
      }
    }
  }

  lemma StableAddressesIdempotent(d: Fields, version: string)
    ensures StableAddresses(StableAddresses(d, version), version) == StableAddresses(d, version)
  {
    if HasAddresses(d, version) {
      var ip := d[version].fields;
      AddressesIdempotent(ip["address"].items);
      var x := List(AddressesWithoutLifetimes(ip["address"].items));
      assert ip["address" := x]["address" := x] == ip["address" := x];
      var y := Obj(ip["address" := x]);
      assert d[version := y][version := y] == d[version := y];
    }
  }

  lemma WithoutTimersIdempotent(d: Fields)
    ensures WithoutTimers(WithoutTimers(d)) == WithoutTimers(d)
  {
    if FieldIs(d, "type", "linux-bridge") && HasObj(d, "bridge") && HasObj(d["bridge"].fields, "options") {
      var bridge := d["bridge"].fields;
      var s := {"gc-timer", "hello-timer"};
      var o := Obj(bridge["options"].fields - s);
      assert bridge["options"].fields - s - s == bridge["options"].fields - s;
      assert bridge["options" := o]["options" := o] == bridge["options" := o];
      var b := Obj(bridge["options" := o]);
      assert d["bridge" := b]["bridge" := b] == d["bridge" := b];
    }
  }

  // The passes work on different fields, so their order does not matter.
  lemma TimersCommute(d: Fields, version: string)
    requires version == "ipv4" || version == "ipv6"
    ensures WithoutTimers(StableAddresses(d, version)) == StableAddresses(WithoutTimers(d), version)
  {
    assert version != "bridge" && version != "type";
  }

  lemma FamiliesCommute(d: Fields)
    ensures StableAddresses(StableAddresses(d, "ipv4"), "ipv6") == StableAddresses(StableAddresses(d, "ipv6"), "ipv4")
  {
    assert "ipv4"[3] != "ipv6"[3];
  }

  lemma StableIdempotent(d: Fields)
    ensures Stable(Stable(d)) == Stable(d)
  {
    var t := WithoutTimers(d);
    var a := StableAddresses(t, "ipv4");
    TimersCommute(a, "ipv6");
    TimersCommute(t, "ipv4");
    WithoutTimersIdempotent(d);
    FamiliesCommute(a);
    StableAddressesIdempotent(t, "ipv4");
    StableAddressesIdempotent(a, "ipv6");
  }

  // ---------- interfaces ----------

  predicate Dropped(i: Interface) {
    FieldIs(i.data, "type", "veth") && FieldIs(i.data, "state", "ignore")
  }

  function Kept(i: Interface): Interface {
    i.(data := Stable(i.data))
  }

  function FilteredInterfaces(s: seq<Interface>): seq<Interface> {
    if s == [] then []
    else FilteredInterfaces(s[..|s| - 1]) + (if Dropped(s[|s| - 1]) then [] else [Kept(s[|s| - 1])])
  }

  method FilterOutInterfaces(s: seq<Interface>) returns (r: seq<Interface>)
    ensures r == FilteredInterfaces(s)
  {
    r := [];
    for i := 0 to |s|
      invariant r == FilteredInterfaces(s[..i])
    {
      assert s[..i + 1][..i] == s[..i];
      if FieldIs(s[i].data, "type", "veth") && FieldIs(s[i].data, "state", "ignore") {
        continue;
      }
      r := r + [s[i].(data := Stable(s[i].data))];
    }
    assert s[..|s|] == s;
  }

  // Where the kept interfaces stood.
  function KeptAt(s: seq<Interface>): (at: seq<nat>)
    ensures forall j | 0 <= j < |at| :: at[j] < |s| && !Dropped(s[at[j]])
  {
    if s == [] then []
    else KeptAt(s[..|s| - 1]) + (if Dropped(s[|s| - 1]) then [] else [|s| - 1])
  }

  // r holds the interfaces at the given positions, in order, and these are all that are not dropped.
  ghost predicate InterfacesAt(s: seq<Interface>, at: seq<nat>, r: seq<Interface>) {
    && |r| == |at|
    && (forall j | 0 <= j < |at| :: at[j] < |s| && r[j] == Kept(s[at[j]]))
    && (forall j, k | 0 <= j < k < |at| :: at[j] < at[k])
    && (forall i | 0 <= i < |s| && !Dropped(s[i]) :: i in at)
  }

  lemma InterfacesGrow(s: seq<Interface>, x: Interface, at: seq<nat>, r: seq<Interface>)
    requires InterfacesAt(s, at, r)
    ensures if Dropped(x) then InterfacesAt(s + [x], at, r) else InterfacesAt(s + [x], at + [|s|], r + [Kept(x)])
  {
    assert forall i | 0 <= i < |s| :: (s + [x])[i] == s[i];
    assert forall i | 0 <= i < |s| && i in at :: i in at + [|s|];
    assert |s| in at + [|s|] by { assert (at + [|s|])[|at|] == |s|; }
  }

  // The result is the ordered subsequence of exactly the interfaces that are not unmanaged veths.
  lemma {:induction false} InterfacesInOrder(s: seq<Interface>)
    ensures InterfacesAt(s, KeptAt(s), FilteredInterfaces(s))
    decreases |s|
  {
    if s != [] {
      var before, x := s[..|s| - 1], s[|s| - 1];
      assert before + [x] == s;
      InterfacesInOrder(before);
      InterfacesGrow(before, x, KeptAt(before), FilteredInterfaces(before));
      if Dropped(x) {
        assert FilteredInterfaces(before) + [] == FilteredInterfaces(before) && KeptAt(before) + [] == KeptAt(before);
      }
    }
  }

  lemma {:induction false} KeptAtExactly(s: seq<Interface>, i: nat)
    requires i < |s|
    ensures i in KeptAt(s) <==> !Dropped(s[i])
    decreases |s|
  {
    var n := |s| - 1;
    var before := KeptAt(s[..n]);
    if i < n {
      KeptAtExactly(s[..n], i);
    } else {
      assert i !in before;
    }
  }

  // The interfaces that vanish are exactly the veths nmstate ignores.
  lemma OnlyIgnoredVethsVanish(s: seq<Interface>, i: nat)
    requires i < |s|
    ensures var d := s[i].data;
            i !in KeptAt(s) <==> "type" in d && d["type"] == Text("veth") && "state" in d && d["state"] == Text("ignore")
  {
    KeptAtExactly(s, i);
  }

  lemma KeptStaysKept(i: Interface)
    requires !Dropped(i)
    ensures !Dropped(Kept(i)) && Kept(Kept(i)) == Kept(i)
  {
    StableKeepsOthers(i.data);
    StableIdempotent(i.data);
  }

  lemma {:induction false} InterfacesIdempotent(s: seq<Interface>)
    ensures FilteredInterfaces(FilteredInterfaces(s)) == FilteredInterfaces(s)
    decreases |s|
  {
    if s != [] {
      var before, x := s[..|s| - 1], s[|s| - 1];
      InterfacesIdempotent(before);
      if !Dropped(x) {
        KeptStaysKept(x);
        var f := FilteredInterfaces(before);
        assert (f + [Kept(x)])[..|f|] == f;
      } else {
        assert FilteredInterfaces(before) + [] == FilteredInterfaces(before);
      }
    }
  }

  // ---------- routes ----------

  predicate NamesInterface(s: seq<Interface>, name: string) {
    exists i :: 0 <= i < |s| && s[i].name == name
  }

  method IsInInterfaces(name: string, s: seq<Interface>) returns (found: bool)
    ensures found == NamesInterface(s, name)
  {
    for i := 0 to |s|
      invariant forall j | 0 <= j < i :: s[j].name != name
    {
      if s[i].name == name {
        return true;
      }
    }
    return false;
  }

  // The route's next hop is among the interfaces.
  predicate KeepsRoute(r: Route, s: seq<Interface>) {
    NamesInterface(s, r.nextHop)
  }

  function FilteredRoutes(routes: seq<Route>, s: seq<Interface>): seq<Route> {
    if routes == [] then []
    else FilteredRoutes(routes[..|routes| - 1], s)
         + (if KeepsRoute(routes[|routes| - 1], s) then [routes[|routes| - 1]] else [])
  }

  method FilterOutRoutes(routes: seq<Route>, s: seq<Interface>) returns (r: seq<Route>)
    ensures r == FilteredRoutes(routes, s)
  {
    r := [];
    for i := 0 to |routes|
      invariant r == FilteredRoutes(routes[..i], s)
    {
      assert routes[..i + 1][..i] == routes[..i];
      var found := IsInInterfaces(routes[i].nextHop, s);
      if found {
        r := r + [routes[i]];
      }
    }
    assert routes[..|routes|] == routes;
  }

  function RoutesKeptAt(routes: seq<Route>, s: seq<Interface>): (at: seq<nat>)
    ensures forall j | 0 <= j < |at| :: at[j] < |routes| && KeepsRoute(routes[at[j]], s)
  {
    if routes == [] then []
    else RoutesKeptAt(routes[..|routes| - 1], s) + (if KeepsRoute(routes[|routes| - 1], s) then [|routes| - 1] else [])
  }

  // r is the subsequence of the routes at the given positions, in order, and these are all that count.
  ghost predicate SelectedAt(routes: seq<Route>, s: seq<Interface>, at: seq<nat>, r: seq<Route>) {
    && |r| == |at|
    && (forall j | 0 <= j < |at| :: at[j] < |routes| && r[j] == routes[at[j]])
    && (forall j, k | 0 <= j < k < |at| :: at[j] < at[k])
    && (forall i | 0 <= i < |routes| && KeepsRoute(routes[i], s) :: i in at)
  }

  lemma SelectionGrows(routes: seq<Route>, x: Route, s: seq<Interface>, at: seq<nat>, r: seq<Route>)
    requires SelectedAt(routes, s, at, r)
    ensures if KeepsRoute(x, s) then SelectedAt(routes + [x], s, at + [|routes|], r + [x]) else SelectedAt(routes + [x], s, at, r)
  {
    assert forall i | 0 <= i < |routes| :: (routes + [x])[i] == routes[i];
    assert forall i | 0 <= i < |routes| && i in at :: i in at + [|routes|];
    assert |routes| in at + [|routes|] by { assert (at + [|routes|])[|at|] == |routes|; }
  }

  // The result is the ordered subsequence of exactly the routes whose next hop is kept.
  lemma {:induction false} RoutesInOrder(routes: seq<Route>, s: seq<Interface>)
    ensures SelectedAt(routes, s, RoutesKeptAt(routes, s), FilteredRoutes(routes, s))
    decreases |routes|
  {
    if routes != [] {
      var before, x := routes[..|routes| - 1], routes[|routes| - 1];
      assert before + [x] == routes;
      RoutesInOrder(before, s);
      SelectionGrows(before, x, s, RoutesKeptAt(before, s), FilteredRoutes(before, s));
      if !KeepsRoute(x, s) {
        assert FilteredRoutes(before, s) + [] == FilteredRoutes(before, s);
        assert RoutesKeptAt(before, s) + [] == RoutesKeptAt(before, s);
      }
    }
  }

  // A next hop is kept exactly if some interface of its name is not dropped.
  lemma NextHopKeptExactly(s: seq<Interface>, name: string)
    ensures NamesInterface(FilteredInterfaces(s), name) <==> exists i :: 0 <= i < |s| && !Dropped(s[i]) && s[i].name == name
  {
    InterfacesInOrder(s);
    var at := KeptAt(s);
    if i :| 0 <= i < |s| && !Dropped(s[i]) && s[i].name == name {
      var j :| 0 <= j < |at| && at[j] == i;
      assert FilteredInterfaces(s)[j].name == name;
    }
    if j :| 0 <= j < |at| && FilteredInterfaces(s)[j].name == name {
      assert s[at[j]].name == name;
    }
  }

  lemma {:induction false} RoutesIdempotent(routes: seq<Route>, s: seq<Interface>)
    ensures FilteredRoutes(FilteredRoutes(routes, s), s) == FilteredRoutes(routes, s)
    decreases |routes|
  {
    if routes != [] {
      var before, x := routes[..|routes| - 1], routes[|routes| - 1];
      RoutesIdempotent(before, s);
      var f := FilteredRoutes(before, s);
      assert (f + [x])[..|f|] == f && f + [] == f;
    }
  }

  // ---------- the whole state ----------

  function Filtered(x: RootState): RootState {
    var kept := FilteredInterfaces(x.interfaces);
    RootState(kept,
              if x.routes.NoRoutes? then NoRoutes
              else Routes(FilteredRoutes(x.routes.config, kept), FilteredRoutes(x.routes.running, kept)),
              x.rest)
  }

  method FilterOut(x: RootState) returns (r: RootState)
    ensures r == Filtered(x)
  {
    var kept := FilterOutInterfaces(x.interfaces);
    r := x.(interfaces := kept);
    if x.routes.Routes? {
      var running := FilterOutRoutes(x.routes.running, kept);
      var config := FilterOutRoutes(x.routes.config, kept);
      r := r.(routes := Routes(config, running));
    }
  }

  lemma FilterIdempotent(x: RootState)
    ensures Filtered(Filtered(x)) == Filtered(x)
  {
    InterfacesIdempotent(x.interfaces);
    if x.routes.Routes? {
      var kept := FilteredInterfaces(x.interfaces);
      RoutesIdempotent(x.routes.config, kept);
      RoutesIdempotent(x.routes.running, kept);
    }
  }

  ghost predicate InterfaceKept(before: Interface, after: Interface) {
    var d, d' := before.data, after.data;
    && after.name == before.name && d'.Keys == d.Keys
    && (forall key | key in d && key != "bridge" && key != "ipv4" && key != "ipv6" :: d'[key] == d[key])
    && ("ipv4" in d ==> FamilyKept(d["ipv4"], d'["ipv4"])) && ("ipv6" in d ==> FamilyKept(d["ipv6"], d'["ipv6"]))
    && ("bridge" in d ==>
          if "type" in d && d["type"] == Text("linux-bridge") then BridgeKept(d["bridge"], d'["bridge"]) else d'["bridge"] == d["bridge"])
  }

  // The published state in terms of the given one: the interfaces at the kept positions with what
  // they keep, the routes over them unchanged, and everything else as it is.
  lemma PublishedKeeps(x: RootState)
    ensures var r, at := Filtered(x), KeptAt(x.interfaces);
            && r.rest == x.rest && (r.routes.NoRoutes? <==> x.routes.NoRoutes?)
            && |r.interfaces| == |at|
            && (forall j | 0 <= j < |at| :: at[j] < |x.interfaces| && InterfaceKept(x.interfaces[at[j]], r.interfaces[j]))
            && (x.routes.Routes? ==>
                  && SelectedAt(x.routes.config, r.interfaces, RoutesKeptAt(x.routes.config, r.interfaces), r.routes.config)
                  && SelectedAt(x.routes.running, r.interfaces, RoutesKeptAt(x.routes.running, r.interfaces), r.routes.running))
  {
    var r, at := Filtered(x), KeptAt(x.interfaces);
    InterfacesInOrder(x.interfaces);
    forall j | 0 <= j < |at| ensures InterfaceKept(x.interfaces[at[j]], r.interfaces[j]) {
      StableKeepsContents(x.interfaces[at[j]].data);
    }
    if x.routes.Routes? {
      RoutesInOrder(x.routes.config, r.interfaces);
      RoutesInOrder(x.routes.running, r.interfaces);
    }
  }

  // ---------- what the published state does not depend on ----------

  // The interface with a bridge timer set to v.
  function TimerSet(d: Fields, key: string, v: Tree): Fields
    requires HasObj(d, "bridge") && HasObj(d["bridge"].fields, "options")
  {
    var bridge := d["bridge"].fields;
    d["bridge" := Obj(bridge["options" := Obj(bridge["options"].fields[key := v])])]
  }

  // The interface with a lifetime of its i-th address set to v.
  function LifetimeSet(d: Fields, version: string, i: nat, key: string, v: Tree): Fields
    requires HasAddresses(d, version)
    requires i < |d[version].fields["address"].items| && d[version].fields["address"].items[i].Obj?
  {
    var ip := d[version].fields;
    var items := ip["address"].items;
    d[version := Obj(ip["address" := List(items[i := Obj(items[i].fields[key := v])])])]
  }

  lemma TimersDoNotShow(d: Fields, key: string, v: Tree)
    requires FieldIs(d, "type", "linux-bridge") && HasObj(d, "bridge") && HasObj(d["bridge"].fields, "options")
    requires key == "gc-timer" || key == "hello-timer"
    ensures Stable(TimerSet(d, key, v)) == Stable(d)
  {
    var d' := TimerSet(d, key, v);
    var bridge, bridge' := d["bridge"].fields, d'["bridge"].fields;
    var s := {"gc-timer", "hello-timer"};
    assert bridge'["options"].fields - s == bridge["options"].fields - s;
    var o := Obj(bridge["options"].fields - s);
    assert bridge'["options" := o] == bridge["options" := o];
    assert WithoutTimers(d') == WithoutTimers(d);
  }

  lemma LifetimesDoNotShowInPass(d: Fields, version: string, i: nat, key: string, v: Tree)
    requires HasAddresses(d, version)
    requires i < |d[version].fields["address"].items| && d[version].fields["address"].items[i].Obj?
    requires key == "preferred-life-time" || key == "valid-life-time"
    ensures StableAddresses(LifetimeSet(d, version, i, key, v), version) == StableAddresses(d, version)
  {
    var d' := LifetimeSet(d, version, i, key, v);
    var ip, ip' := d[version].fields, d'[version].fields;
    var items, items' := ip["address"].items, ip'["address"].items;
    var s := {"preferred-life-time", "valid-life-time"};
    assert items'[i].fields - s == items[i].fields - s;
    assert AddressesWithoutLifetimes(items') == AddressesWithoutLifetimes(items);
    var x := List(AddressesWithoutLifetimes(items));
    assert ip'["address" := x] == ip["address" := x];
  }

  lemma LifetimesDoNotShow(d: Fields, version: string, i: nat, key: string, v: Tree)
    requires version == "ipv4" || version == "ipv6"
    requires HasAddresses(d, version)
    requires i < |d[version].fields["address"].items| && d[version].fields["address"].items[i].Obj?
    requires key == "preferred-life-time" || key == "valid-life-time"
    ensures Stable(LifetimeSet(d, version, i, key, v)) == Stable(d)
  {
    var d' := LifetimeSet(d, version, i, key, v);
    LifetimesDoNotShowInPass(d, version, i, key, v);
    StableByPass(d, version);
    StableByPass(d', version);
  }

  // The passes may run in any order, so any address family may go first.
  lemma StableByPass(d: Fields, version: string)
    requires version == "ipv4" || version == "ipv6"
    ensures Stable(d) == StableAddresses(WithoutTimers(StableAddresses(d, version)), if version == "ipv4" then "ipv6" else "ipv4")
  {
    TimersCommute(d, version);
    FamiliesCommute(WithoutTimers(d));
  }

  lemma {:induction false} SameStableSameFilter(s: seq<Interface>, s': seq<Interface>)
    requires |s| == |s'| && forall i | 0 <= i < |s| :: s[i].name == s'[i].name && Stable(s[i].data) == Stable(s'[i].data)
    ensures FilteredInterfaces(s) == FilteredInterfaces(s')
    decreases |s|
  {
    if s != [] {
      var n := |s| - 1;
      SameStableSameFilter(s[..n], s'[..n]);
      StableKeepsOthers(s[n].data);
      StableKeepsOthers(s'[n].data);
    }
  }

  // Neither a bridge timer nor an address lifetime of any interface shows in the published state.
  lemma DynamicAttributesDoNotShow(x: RootState, j: nat, key: string, v: Tree, version: string, i: nat)
    requires j < |x.interfaces|
    ensures var d := x.interfaces[j].data;
            FieldIs(d, "type", "linux-bridge") && HasObj(d, "bridge") && HasObj(d["bridge"].fields, "options")
            && (key == "gc-timer" || key == "hello-timer") ==>
              Filtered(x.(interfaces := x.interfaces[j := x.interfaces[j].(data := TimerSet(d, key, v))])) == Filtered(x)
    ensures var d := x.interfaces[j].data;
            (version == "ipv4" || version == "ipv6") && HasAddresses(d, version)
            && i < |d[version].fields["address"].items| && d[version].fields["address"].items[i].Obj?
            && (key == "preferred-life-time" || key == "valid-life-time") ==>
              Filtered(x.(interfaces := x.interfaces[j := x.interfaces[j].(data := LifetimeSet(d, version, i, key, v))])) == Filtered(x)
  {
    var d := x.interfaces[j].data;
    if FieldIs(d, "type", "linux-bridge") && HasObj(d, "bridge") && HasObj(d["bridge"].fields, "options")
       && (key == "gc-timer" || key == "hello-timer") {
      TimersDoNotShow(d, key, v);
      SameStableSameFilter(x.interfaces, x.interfaces[j := x.interfaces[j].(data := TimerSet(d, key, v))]);
    }
    if (version == "ipv4" || version == "ipv6") && HasAddresses(d, version)
       && i < |d[version].fields["address"].items| && d[version].fields["address"].items[i].Obj?
       && (key == "preferred-life-time" || key == "valid-life-time") {
      LifetimesDoNotShow(d, version, i, key, v);
      SameStableSameFilter(x.interfaces, x.interfaces[j := x.interfaces[j].(data := LifetimeSet(d, version, i, key, v))]);
    }
  }

  // ---------- route counts ----------

  datatype RouteKey = RouteKey(isIpv6: bool, isStatic: bool)

  function KeyOf(r: Route, config: seq<Route>): RouteKey {
    RouteKey(':' in r.destination, exists i :: 0 <= i < |config| && config[i].destination == r.destination)
  }

  function RouteCount(running: seq<Route>, config: seq<Route>, key: RouteKey): nat {
    if running == [] then 0
    else RouteCount(running[..|running| - 1], config, key) + (if KeyOf(running[|running| - 1], config) == key then 1 else 0)
  }

  method CountRoutes(routes: Routes) returns (counts: map<RouteKey, nat>)
    ensures routes.NoRoutes? ==> counts == map[]
    ensures routes.Routes? ==>
              forall key :: RouteCount(routes.running, routes.config, key) == if key in counts then counts[key] else 0
    ensures forall key | key in counts :: counts[key] > 0
  {
    counts := map[];
    if routes.NoRoutes? {
      return;
    }
    var staticRoutes: set<string> := {};
    for i := 0 to |routes.config|
      invariant forall d :: d in staticRoutes <==> exists j :: 0 <= j < i && routes.config[j].destination == d
    {
      staticRoutes := staticRoutes + {routes.config[i].destination};
    }
    for i := 0 to |routes.running|
      invariant forall key :: RouteCount(routes.running[..i], routes.config, key) == if key in counts then counts[key] else 0
      invariant forall key | key in counts :: counts[key] > 0
    {
      assert routes.running[..i + 1][..i] == routes.running[..i];
      var d := routes.running[i].destination;
      var key := RouteKey(':' in d, d in staticRoutes);
      assert key == KeyOf(routes.running[i], routes.config);
      counts := counts[key := (if key in counts then counts[key] else 0) + 1];
    }
    assert routes.running[..|routes.running|] == routes.running;
  }

  // Every running route is counted under exactly one key.
  lemma {:induction false} RouteCountsAddUp(running: seq<Route>, config: seq<Route>)
    ensures RouteCount(running, config, RouteKey(false, false)) + RouteCount(running, config, RouteKey(false, true))
            + RouteCount(running, config, RouteKey(true, false)) + RouteCount(running, config, RouteKey(true, true)) == |running|
    decreases |running|
  {
    if running != [] {
      RouteCountsAddUp(running[..|running| - 1], config);
      var k := KeyOf(running[|running| - 1], config);
      assert k == RouteKey(k.isIpv6, k.isStatic);
    }
  }

  // The running routes of an address family that are configured, or that are not.
  ghost function RoutesOf(running: seq<Route>, config: seq<Route>, ipv6: bool, configured: bool): set<int> {
    set i | 0 <= i < |running|
            && (':' in running[i].destination) == ipv6
            && (exists j :: 0 <= j < |config| && config[j].destination == running[i].destination) == configured
  }

  lemma RoutesOfSnoc(running: seq<Route>, config: seq<Route>, ipv6: bool, configured: bool)
    requires running != []
    ensures var n := |running| - 1;
            RoutesOf(running, config, ipv6, configured)
            == RoutesOf(running[..n], config, ipv6, configured) + if KeyOf(running[n], config) == RouteKey(ipv6, configured) then {n} else {}
  {
    var n := |running| - 1;
    assert forall i | 0 <= i < n :: running[..n][i] == running[i];
  }

  // A route's count is the number of such routes.
  lemma {:induction false} RouteCountIsSize(running: seq<Route>, config: seq<Route>, ipv6: bool, configured: bool)
    ensures RouteCount(running, config, RouteKey(ipv6, configured)) == |RoutesOf(running, config, ipv6, configured)|
    decreases |running|
  {
    if running == [] {
      assert RoutesOf(running, config, ipv6, configured) == {};
    } else {
      RouteCountIsSize(running[..|running| - 1], config, ipv6, configured);
      RoutesOfSnoc(running, config, ipv6, configured);
    }
  }
}
