/** `get_plugins_with_rest_routes`: the plugin namespaces of the REST
    registry, one group per namespace with its guessed plugin name and
    number of routes, sorted by name. */
module Discovery {
  import opened Wrappers
  import opened PhpArrays
  import opened Callbacks
  import opened PluginNames
  import opened Registry
  import opened Sorting

  /** One entry of the result: `namespace`, `name`, `route_count`. */
  datatype NamespaceGroup = NamespaceGroup(namespace: string, name: string, routeCount: nat)

  /** Namespaces skipped even when their routes are not core routes. */
  const ReservedNamespaces: seq<string> := ["wp", "oembed"]

  /** The namespace a route is counted under: none for a core route, a path
      without a namespace, or a reserved namespace. */
  function CountedNamespace(path: string): (ns: Option<string>)
    ensures IsCoreRoute(path) || NamespaceOf(path).None? ==> ns.None?
    ensures ns.Some? ==> ns == NamespaceOf(path) && ns.value !in ReservedNamespaces
  {
    if IsCoreRoute(path) then None
    else
      match NamespaceOf(path)
      case None => None
      case Some(ns) => if ns in ReservedNamespaces then None else Some(ns)
  }

  /** The callback of a route's first handler (`$handlers[0] ?? []`, then
      `$handler['callback'] ?? null`). */
  function FirstCallback(handlers: seq<Handler>): Callback {
    if |handlers| == 0 then NoCallback else handlers[0].callback
  }

  /** The namespaces of the counted routes, one per route, in registry
      order. */
  function CountedNamespaces(reg: RouteTable): (nss: seq<string>)
    ensures forall k :: 0 <= k < |nss| ==> nss[k] !in ReservedNamespaces
    decreases |reg|
  {
    if |reg| == 0 then []
    else
      var init := CountedNamespaces(reg[..|reg| - 1]);
      match CountedNamespace(reg[|reg| - 1].path)
      case None => init
      case Some(ns) => init + [ns]
  }

  /** A namespace is counted once per route counted under it: the routes
      that are not core routes, have a first segment, and whose first
      segment is not reserved. */
  lemma {:induction false} CountedNamespacesMembers(reg: RouteTable, ns: string)
    ensures ns in CountedNamespaces(reg) <==> exists i :: 0 <= i < |reg| && CountedNamespace(reg[i].path) == Some(ns)
    decreases |reg|
  {
    if |reg| > 0 {
      var init := reg[..|reg| - 1];
      CountedNamespacesMembers(init, ns);
      if exists i :: 0 <= i < |reg| && CountedNamespace(reg[i].path) == Some(ns) {
        var i :| 0 <= i < |reg| && CountedNamespace(reg[i].path) == Some(ns);
        if i < |reg| - 1 {
          assert CountedNamespace(init[i].path) == Some(ns);
        }
      }
      if ns in CountedNamespaces(init) {
        var i :| 0 <= i < |init| && CountedNamespace(init[i].path) == Some(ns);
        assert reg[i] == init[i];
      }
    }
  }

  /** The handlers of the first route counted under `ns`. */
  function FirstHandlers(reg: RouteTable, ns: string): seq<Handler>
    decreases |reg|
  {
    if |reg| == 0 then []
    else
      var init := reg[..|reg| - 1];
      if ns in CountedNamespaces(init) then FirstHandlers(init, ns)
      else if CountedNamespace(reg[|reg| - 1].path) == Some(ns) then reg[|reg| - 1].handlers
      else []
  }

  function Namespaces(groups: seq<NamespaceGroup>): (nss: seq<string>)
    ensures |nss| == |groups|
    ensures forall k :: 0 <= k < |groups| ==> nss[k] == groups[k].namespace
  {
    seq(|groups|, k requires 0 <= k < |groups| => groups[k].namespace)
  }

  /** The place of `ns` among the groups, `|groups|` when absent. */
  function Position(groups: seq<NamespaceGroup>, ns: string): (k: nat)
    ensures k <= |groups|
    ensures k < |groups| ==> groups[k].namespace == ns
    ensures forall j :: 0 <= j < k ==> groups[j].namespace != ns
    decreases |groups|
  {
    if |groups| == 0 || groups[0].namespace == ns then 0
    else 1 + Position(groups[1..], ns)
  }

  /** `route_count++` on the group at position `k`. */
  function Bump(groups: seq<NamespaceGroup>, k: nat): (r: seq<NamespaceGroup>)
    requires k < |groups|
    ensures |r| == |groups| && r[k] == groups[k].(routeCount := groups[k].routeCount + 1)
    ensures forall j :: 0 <= j < |groups| && j != k ==> r[j] == groups[j]
  {
    groups[k := groups[k].(routeCount := groups[k].routeCount + 1)]
  }

  /** One counted route: a namespace seen for the first time gets a new
      group with the guessed name and a count of 0; then its group's count
      goes up by one. */
  function AddRoute(groups: seq<NamespaceGroup>, ns: string, name: string): seq<NamespaceGroup> {
    var p := Position(groups, ns);
    if p == |groups| then Bump(groups + [NamespaceGroup(ns, name, 0)], p)
    else Bump(groups, p)
  }

  /** Among distinct namespaces, the place of a namespace is its only one. */
  lemma PositionOfDistinct(groups: seq<NamespaceGroup>, k: nat)
    requires NoDuplicates(Namespaces(groups))
    requires k < |groups|
    ensures Position(groups, groups[k].namespace) == k
  {
  }

  lemma PositionOfAbsent(groups: seq<NamespaceGroup>, ns: string)
    requires ns !in Namespaces(groups)
    ensures Position(groups, ns) == |groups|
  {
  }

  /** The groups before sorting, in order of first appearance. */
  function UnsortedGroups(reg: RouteTable): seq<NamespaceGroup>
    decreases |reg|
  {
    if |reg| == 0 then []
    else
      var init := UnsortedGroups(reg[..|reg| - 1]);
      var last := reg[|reg| - 1];
      match CountedNamespace(last.path)
      case None => init
      case Some(ns) => AddRoute(init, ns, GuessPluginName(ns, FirstCallback(last.handlers)))
  }

  function TotalRouteCount(groups: seq<NamespaceGroup>): nat
    decreases |groups|
  {
    if |groups| == 0 then 0 else TotalRouteCount(groups[..|groups| - 1]) + groups[|groups| - 1].routeCount
  }

  lemma {:induction false} TotalRouteCountAppend(a: seq<NamespaceGroup>, b: seq<NamespaceGroup>)
    ensures TotalRouteCount(a + b) == TotalRouteCount(a) + TotalRouteCount(b)
    decreases |b|
  {
    if |b| > 0 {
      assert (a + b)[..|a + b| - 1] == a + b[..|b| - 1];
      TotalRouteCountAppend(a, b[..|b| - 1]);
    } else {
      assert a + b == a;
    }
  }

  lemma TotalRouteCountIncrement(groups: seq<NamespaceGroup>, k: nat)
    requires k < |groups|
    ensures TotalRouteCount(groups[k := groups[k].(routeCount := groups[k].routeCount + 1)]) == TotalRouteCount(groups) + 1
  {
    var g' := groups[k := groups[k].(routeCount := groups[k].routeCount + 1)];
    assert groups == groups[..k] + [groups[k]] + groups[k + 1..];
    assert g' == groups[..k] + [g'[k]] + groups[k + 1..];
    TotalRouteCountAppend(groups[..k] + [groups[k]], groups[k + 1..]);
    TotalRouteCountAppend(groups[..k], [groups[k]]);
    TotalRouteCountAppend(groups[..k] + [g'[k]], groups[k + 1..]);
    TotalRouteCountAppend(groups[..k], [g'[k]]);
    assert TotalRouteCount([groups[k]]) == groups[k].routeCount by {
      assert [groups[k]][..0] == [];
    }
    assert TotalRouteCount([g'[k]]) == g'[k].routeCount by {
      assert [g'[k]][..0] == [];
    }
  }

  /** Adding a route adds its namespace at the end when it is new and
      leaves the namespaces as they were otherwise. */
  lemma AddRouteNamespaces(g0: seq<NamespaceGroup>, ns: string, name: string)
    requires NoDuplicates(Namespaces(g0))
    ensures Namespaces(AddRoute(g0, ns, name)) == if ns in Namespaces(g0) then Namespaces(g0) else Namespaces(g0) + [ns]
  {
    if ns in Namespaces(g0) {
      var k :| 0 <= k < |g0| && Namespaces(g0)[k] == ns;
      PositionOfDistinct(g0, k);
    } else {
      PositionOfAbsent(g0, ns);
    }
  }

  /** One group per counted namespace, in order of first appearance. */
  lemma {:induction false} UnsortedGroupsNamespaces(reg: RouteTable)
    ensures NoDuplicates(Namespaces(UnsortedGroups(reg)))
    ensures Namespaces(UnsortedGroups(reg)) == Dedup(CountedNamespaces(reg))
    decreases |reg|
  {
    if |reg| > 0 {
      var init := reg[..|reg| - 1];
      var last := reg[|reg| - 1];
      UnsortedGroupsNamespaces(init);
      match CountedNamespace(last.path)
      case None =>
      case Some(ns) =>
        var c := CountedNamespaces(reg);
        assert c == CountedNamespaces(init) + [ns];
        assert c[..|c| - 1] == CountedNamespaces(init);
        AddRouteNamespaces(UnsortedGroups(init), ns, GuessPluginName(ns, FirstCallback(last.handlers)));
    }
  }

  /** Adding a route keeps every group's count equal to the number of
      times its namespace was counted. */
  lemma AddRouteCounts(g0: seq<NamespaceGroup>, c0: seq<string>, ns: string, name: string)
    requires NoDuplicates(Namespaces(g0))
    requires forall x :: x in Namespaces(g0) <==> x in c0
    requires forall k :: 0 <= k < |g0| ==> g0[k].routeCount == multiset(c0)[g0[k].namespace]
    ensures forall k :: 0 <= k < |AddRoute(g0, ns, name)| ==>
      AddRoute(g0, ns, name)[k].routeCount == multiset(c0 + [ns])[AddRoute(g0, ns, name)[k].namespace]
  {
    var g := AddRoute(g0, ns, name);
    assert multiset(c0 + [ns]) == multiset(c0) + multiset{ns};
    if ns in Namespaces(g0) {
      var p :| 0 <= p < |g0| && Namespaces(g0)[p] == ns;
      PositionOfDistinct(g0, p);
      forall k | 0 <= k < |g|
        ensures g[k].routeCount == multiset(c0 + [ns])[g[k].namespace]
      {
        if k != p {
          assert Namespaces(g0)[k] != Namespaces(g0)[p];
        }
      }
    } else {
      PositionOfAbsent(g0, ns);
      assert ns !in c0;
    }
  }

  /** Each group counts the routes counted under its namespace. */
  lemma {:induction false} UnsortedGroupsCounts(reg: RouteTable)
    ensures forall k :: 0 <= k < |UnsortedGroups(reg)| ==>
      UnsortedGroups(reg)[k].routeCount == multiset(CountedNamespaces(reg))[UnsortedGroups(reg)[k].namespace]
    decreases |reg|
  {
    if |reg| > 0 {
      var init := reg[..|reg| - 1];
      var last := reg[|reg| - 1];
      UnsortedGroupsCounts(init);
      UnsortedGroupsNamespaces(init);
      var g0 := UnsortedGroups(init);
      var c0 := CountedNamespaces(init);
      match CountedNamespace(last.path)
      case None =>
      case Some(ns) =>
        assert CountedNamespaces(reg) == c0 + [ns];
        AddRouteCounts(g0, c0, ns, GuessPluginName(ns, FirstCallback(last.handlers)));
    }
  }

  /** Each group is named after the first route counted under it. */
  lemma {:induction false} UnsortedGroupsNames(reg: RouteTable)
    ensures forall k :: 0 <= k < |UnsortedGroups(reg)| ==>
      UnsortedGroups(reg)[k].name ==
        GuessPluginName(UnsortedGroups(reg)[k].namespace, FirstCallback(FirstHandlers(reg, UnsortedGroups(reg)[k].namespace)))
    decreases |reg|
  {
    if |reg| > 0 {
      var init := reg[..|reg| - 1];
      var last := reg[|reg| - 1];
      UnsortedGroupsNames(init);
      UnsortedGroupsNamespaces(init);
      var g0 := UnsortedGroups(init);
      var g := UnsortedGroups(reg);
      forall k | 0 <= k < |g0|
        ensures FirstHandlers(reg, g0[k].namespace) == FirstHandlers(init, g0[k].namespace)
      {
        assert Namespaces(g0)[k] in CountedNamespaces(init);
      }
      match CountedNamespace(last.path)
      case None =>
      case Some(ns) =>
        if ns in Namespaces(g0) {
          var p :| 0 <= p < |g0| && Namespaces(g0)[p] == ns;
          PositionOfDistinct(g0, p);
        } else {
          PositionOfAbsent(g0, ns);
          assert ns !in CountedNamespaces(init);
          assert FirstHandlers(reg, ns) == last.handlers;
          forall k | 0 <= k < |g|
            ensures g[k].name == GuessPluginName(g[k].namespace, FirstCallback(FirstHandlers(reg, g[k].namespace)))
          {
            if k < |g0| {
              assert g[k] == g0[k];
            }
          }
        }
    }
  }

  /** Adding a route adds one to the total. */
  lemma AddRouteTotal(g0: seq<NamespaceGroup>, ns: string, name: string)
    ensures TotalRouteCount(AddRoute(g0, ns, name)) == TotalRouteCount(g0) + 1
  {
    var p := Position(g0, ns);
    if p < |g0| {
      TotalRouteCountIncrement(g0, p);
    } else {
      var zero := NamespaceGroup(ns, name, 0);
      TotalRouteCountIncrement(g0 + [zero], p);
      TotalRouteCountAppend(g0, [zero]);
      assert TotalRouteCount([zero]) == 0 by {
        assert [zero][..0] == [];
      }
    }
  }

  /** The counts add up to the number of counted routes. */
  lemma {:induction false} UnsortedGroupsTotal(reg: RouteTable)
    ensures TotalRouteCount(UnsortedGroups(reg)) == |CountedNamespaces(reg)|
    decreases |reg|
  {
    if |reg| > 0 {
      var init := reg[..|reg| - 1];
      var last := reg[|reg| - 1];
      UnsortedGroupsTotal(init);
      match CountedNamespace(last.path)
      case None =>
      case Some(ns) =>
        AddRouteTotal(UnsortedGroups(init), ns, GuessPluginName(ns, FirstCallback(last.handlers)));
    }
  }

  /** A list without repeated namespaces holds every group at most once. */
  lemma {:induction false} DistinctNamespacesAtMostOnce(groups: seq<NamespaceGroup>, x: NamespaceGroup)
    requires NoDuplicates(Namespaces(groups))
    ensures multiset(groups)[x] <= 1
    decreases |groups|
  {
    if |groups| > 0 {
      var init := groups[..|groups| - 1];
      assert groups == init + [groups[|groups| - 1]];
      assert Namespaces(init) == Namespaces(groups)[..|groups| - 1];
      DistinctNamespacesAtMostOnce(init, x);
      if x == groups[|groups| - 1] {
        assert x !in init;
      }
    }
  }

  lemma TwiceMeansCountTwo<T>(s: seq<T>, i: nat, j: nat)
    requires i < j < |s| && s[i] == s[j]
    ensures multiset(s)[s[i]] >= 2
  {
    assert s == s[..j] + s[j..];
    assert s[i] in s[..j];
    assert s[j] in s[j..];
  }

  /** Reordering keeps the namespaces distinct. */
  lemma DistinctNamespacesPermutation(a: seq<NamespaceGroup>, b: seq<NamespaceGroup>)
    requires multiset(a) == multiset(b)
    requires NoDuplicates(Namespaces(a))
    ensures NoDuplicates(Namespaces(b))
  {
    forall i, j | 0 <= i < j < |b|
      ensures Namespaces(b)[i] != Namespaces(b)[j]
    {
      if b[i].namespace == b[j].namespace {
        assert b[i] in multiset(a) && b[j] in multiset(a);
        var p :| 0 <= p < |a| && a[p] == b[i];
        var q :| 0 <= q < |a| && a[q] == b[j];
        TwiceMeansCountTwo(b, i, j);
        DistinctNamespacesAtMostOnce(a, b[i]);
      }
    }
  }

  lemma SplitAt(b: seq<NamespaceGroup>, j: nat)
    requires j < |b|
    ensures b == b[..j] + [b[j]] + b[j + 1..]
  {
  }

  /** Taking one element out of a list leaves the other elements. */
  lemma MultisetRemove(b: seq<NamespaceGroup>, j: nat)
    requires j < |b|
    ensures multiset(b[..j] + b[j + 1..]) + multiset{b[j]} == multiset(b)
  {
    SplitAt(b, j);
  }

  /** The total of a list is the total without one element plus that
      element's count. */
  lemma TotalRouteCountRemove(b: seq<NamespaceGroup>, j: nat)
    requires j < |b|
    ensures TotalRouteCount(b) == TotalRouteCount(b[..j] + b[j + 1..]) + b[j].routeCount
  {
    SplitAt(b, j);
    var l, x, r := b[..j], b[j], b[j + 1..];
    TotalRouteCountAppend(l + [x], r);
    TotalRouteCountAppend(l, [x]);
    TotalRouteCountAppend(l, r);
    assert TotalRouteCount([x]) == x.routeCount by {
      assert [x][..0] == [];
    }
  }

  /** The same element taken from two equal multisets leaves equal
      multisets. */
  lemma MultisetCancel(p: multiset<NamespaceGroup>, q: multiset<NamespaceGroup>, x: NamespaceGroup)
    requires p + multiset{x} == q + multiset{x}
    ensures p == q
  {
    forall y
      ensures p[y] == q[y]
    {
      assert (p + multiset{x})[y] == (q + multiset{x})[y];
    }
  }

  /** Reordering keeps the total route count. */
  lemma {:induction false} TotalRouteCountPermutation(a: seq<NamespaceGroup>, b: seq<NamespaceGroup>)
    requires multiset(a) == multiset(b)
    ensures TotalRouteCount(a) == TotalRouteCount(b)
    decreases |a|
  {
    if |a| == 0 {
      assert |b| == |multiset(b)| == 0;
    } else {
      var x := a[|a| - 1];
      var init := a[..|a| - 1];
      assert a == init + [x];
      assert x in multiset(b);
      var j :| 0 <= j < |b| && b[j] == x;
      var rest := b[..j] + b[j + 1..];
      MultisetRemove(b, j);
      MultisetCancel(multiset(rest), multiset(init), x);
      TotalRouteCountPermutation(init, rest);
      TotalRouteCountRemove(b, j);
      TotalRouteCountRemove(a, |a| - 1);
      assert a[..|a| - 1] + a[|a|..] == init;
    }
  }

  /** The sort key: `strcmp` on the plugin name only. */
  function GroupKey(g: NamespaceGroup): SortKey {
    (g.name, "")
  }

  /** Reordering keeps the set of namespaces. */
  lemma NamespacesPermutation(a: seq<NamespaceGroup>, b: seq<NamespaceGroup>, ns: string)
    requires multiset(a) == multiset(b)
    ensures ns in Namespaces(a) ==> ns in Namespaces(b)
  {
    if ns in Namespaces(a) {
      var p :| 0 <= p < |a| && a[p].namespace == ns;
      assert a[p] in multiset(b);
      var k :| 0 <= k < |b| && b[k] == a[p];
      assert Namespaces(b)[k] == ns;
    }
  }

  /** Every group of a reordering is one of the original groups. */
  lemma GroupOfPermutation(a: seq<NamespaceGroup>, b: seq<NamespaceGroup>, k: nat)
    requires multiset(a) == multiset(b)
    requires k < |b|
    ensures exists p :: 0 <= p < |a| && a[p] == b[k]
  {
    assert b[k] in multiset(a);
  }

  /** A reordering has the same namespaces. */
  lemma SameNamespacesPermutation(a: seq<NamespaceGroup>, b: seq<NamespaceGroup>)
    requires multiset(a) == multiset(b)
    ensures forall ns :: ns in Namespaces(b) <==> ns in Namespaces(a)
  {
    forall ns
      ensures ns in Namespaces(b) <==> ns in Namespaces(a)
    {
      NamespacesPermutation(a, b, ns);
      NamespacesPermutation(b, a, ns);
    }
  }

  /** Per-group facts that hold for every group of the walk hold for every
      group of a reordering. */
  lemma GroupFactsPermutation(found: seq<NamespaceGroup>, groups: seq<NamespaceGroup>, counted: seq<string>)
    requires multiset(groups) == multiset(found)
    requires forall ns :: ns in Namespaces(found) ==> ns in counted
    requires forall k :: 0 <= k < |counted| ==> counted[k] !in ReservedNamespaces
    requires forall k :: 0 <= k < |found| ==> found[k].routeCount == multiset(counted)[found[k].namespace]
    ensures forall k :: 0 <= k < |groups| ==> groups[k].namespace !in ReservedNamespaces
    ensures forall k :: 0 <= k < |groups| ==> groups[k].routeCount == multiset(counted)[groups[k].namespace]
  {
    forall k | 0 <= k < |groups|
      ensures groups[k].namespace !in ReservedNamespaces
      ensures groups[k].routeCount == multiset(counted)[groups[k].namespace]
    {
      GroupOfPermutation(found, groups, k);
      var p :| 0 <= p < |found| && found[p] == groups[k];
      assert Namespaces(found)[p] in counted;
    }
  }

  /** What the sorted result keeps from the groups built by the walk. */
  lemma SortedGroupsFacts(reg: RouteTable, groups: seq<NamespaceGroup>)
    requires multiset(groups) == multiset(UnsortedGroups(reg))
    ensures NoDuplicates(Namespaces(groups))
    ensures forall ns :: ns in Namespaces(groups) <==> ns in CountedNamespaces(reg)
    ensures forall k :: 0 <= k < |groups| ==> groups[k].namespace !in ReservedNamespaces
    ensures forall k :: 0 <= k < |groups| ==> groups[k].routeCount == multiset(CountedNamespaces(reg))[groups[k].namespace]
    ensures TotalRouteCount(groups) == |CountedNamespaces(reg)|
  {
    var found := UnsortedGroups(reg);
    var counted := CountedNamespaces(reg);
    UnsortedGroupsNamespaces(reg);
    UnsortedGroupsCounts(reg);
    UnsortedGroupsTotal(reg);
    DistinctNamespacesPermutation(found, groups);
    TotalRouteCountPermutation(found, groups);
    SameNamespacesPermutation(found, groups);
    GroupFactsPermutation(found, groups, counted);
  }

  /** The groups are indexed by namespace: `index` maps each namespace to
      the position of its group. */
  predicate IndexedBy(groups: seq<NamespaceGroup>, index: map<string, nat>) {
    NoDuplicates(Namespaces(groups)) &&
    (forall ns :: ns in index ==> index[ns] < |groups| && groups[index[ns]].namespace == ns) &&
    (forall k :: 0 <= k < |groups| ==> groups[k].namespace in index)
  }

  /** The body of the loop for one counted route: create the entry if the
      namespace is new, then increment its count. */
  method CountRoute(groups: seq<NamespaceGroup>, index: map<string, nat>, ns: string, name: string)
    returns (groups': seq<NamespaceGroup>, index': map<string, nat>)
    requires IndexedBy(groups, index)
    ensures groups' == AddRoute(groups, ns, name)
    ensures IndexedBy(groups', index')
  {
    groups', index' := groups, index;
    if ns !in index' {
      PositionOfAbsent(groups, ns);
      index' := index'[ns := |groups'|];
      groups' := groups' + [NamespaceGroup(ns, name, 0)];
    } else {
      PositionOfDistinct(groups, index[ns]);
    }
    groups' := Bump(groups', index'[ns]);
    assert Namespaces(groups') == Namespaces(groups) || Namespaces(groups') == Namespaces(groups) + [ns];
  }

  /** The loop of `get_plugins_with_rest_routes`, over the routes in
      registry order. */
  method GroupRoutes(reg: RouteTable) returns (found: seq<NamespaceGroup>)
    ensures found == UnsortedGroups(reg)
  {
    found := [];
    var index: map<string, nat> := map[];
    for i := 0 to |reg|
      invariant found == UnsortedGroups(reg[..i])
      invariant IndexedBy(found, index)
    {
      assert reg[..i + 1][..i] == reg[..i];
      match CountedNamespace(reg[i].path) {
        case None =>
        case Some(ns) =>
          found, index := CountRoute(found, index, ns, GuessPluginName(ns, FirstCallback(reg[i].handlers)));
      }
    }
    assert reg[..|reg|] == reg;
  }

  /** `get_plugins_with_rest_routes`: the groups of the walk, sorted by
      name. */
  method GetPluginsWithRestRoutes(reg: RouteTable) returns (groups: seq<NamespaceGroup>)
    ensures multiset(groups) == multiset(UnsortedGroups(reg))
    ensures SortedBy(groups, GroupKey)
    ensures Stable(UnsortedGroups(reg), groups, GroupKey)
    ensures groups == InsertionSort(UnsortedGroups(reg), GroupKey)
    ensures NoDuplicates(Namespaces(groups))
    ensures forall ns :: ns in Namespaces(groups) <==> ns in CountedNamespaces(reg)
    ensures forall k :: 0 <= k < |groups| ==> groups[k].namespace !in ReservedNamespaces
    ensures forall k :: 0 <= k < |groups| ==> groups[k].routeCount == multiset(CountedNamespaces(reg))[groups[k].namespace]
    ensures TotalRouteCount(groups) == |CountedNamespaces(reg)|
  {
    var found := GroupRoutes(reg);
    groups := SortedCopy(found, GroupKey);
    SortedGroupsFacts(reg, groups);
  }
}
