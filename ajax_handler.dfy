/** The route-inspection request of the AJAX handler: reading the selected
    namespaces from the request (`get_selected_plugins`), refusing an empty
    selection, and the statistics over the analysed routes
    (`calculate_stats`). */
module AjaxHandler {
  import opened PhpArrays
  import opened Hierarchy
  import opened Risk
  import opened Registry
  import opened Sorting
  import opened Permission
  import opened Analysis

  /** The `plugins` field of the request: absent, a single value, or a
      list. */
  datatype PluginsParam = Missing | Scalar(value: string) | List(items: seq<string>)

  /** PHP truthiness of a string: anything but `""` and `"0"`. */
  predicate Truthy(s: string) {
    s != "" && s != "0"
  }

  /** `array_filter(array_map('sanitize_text_field', $items))`: the
      sanitized items that are truthy, in order. */
  function SanitizedTruthy(items: seq<string>, sanitize: string -> string): (r: seq<string>)
    ensures |r| <= |items|
    ensures forall x :: x in r <==> exists i :: 0 <= i < |items| && x == sanitize(items[i]) && Truthy(x)
    decreases |items|
  {
    if |items| == 0 then []
    else
      var init := items[..|items| - 1];
      var s := sanitize(items[|items| - 1]);
      var r := SanitizedTruthy(init, sanitize) + (if Truthy(s) then [s] else []);
      assert forall i :: 0 <= i < |init| ==> init[i] == items[i];
      r
  }

  /** `get_selected_plugins`: a missing or non-array field selects nothing;
      a list selects its sanitized truthy items. The sanitizer
      (`sanitize_text_field`) is a parameter. */
  function GetSelectedPlugins(param: PluginsParam, sanitize: string -> string): (selected: seq<string>)
    ensures !param.List? ==> selected == []
    ensures param.List? ==> forall x :: x in selected <==>
      exists i :: 0 <= i < |param.items| && x == sanitize(param.items[i]) && Truthy(x)
    ensures forall k :: 0 <= k < |selected| ==> Truthy(selected[k])
  {
    match param
    case List(items) => SanitizedTruthy(items, sanitize)
    case _ => []
  }

  /** The statistics array. */
  datatype Stats = Stats(
    total: nat,
    byAccessLevel: Counter,
    byRiskLevel: Counter,
    byPlugin: Counter,
    publicWriteRoutes: nat,
    adminOnlyRoutes: nat)

  /** The three counters of the statistics, each keyed by one string of a
      route. */
  datatype CountedBy = ByAccessLevel | ByRiskLevel | ByPlugin

  /** The string a route is counted under: its access level, its risk level
      or its plugin name. */
  function Label(route: RouteAnalysis, kind: CountedBy): string {
    match kind
    case ByAccessLevel => route.accessLevel.Name()
    case ByRiskLevel => route.riskLevel.Name()
    case ByPlugin => route.pluginName
  }

  /** The label of each route, in order. */
  function Labels(routes: seq<RouteAnalysis>, kind: CountedBy): (labels: seq<string>)
    ensures |labels| == |routes|
    decreases |routes|
  {
    if |routes| == 0 then []
    else Labels(routes[..|routes| - 1], kind) + [Label(routes[|routes| - 1], kind)]
  }

  function CounterFor(s: Stats, kind: CountedBy): Counter {
    match kind
    case ByAccessLevel => s.byAccessLevel
    case ByRiskLevel => s.byRiskLevel
    case ByPlugin => s.byPlugin
  }

  /** A route anyone may call with a state-changing method. */
  predicate IsPublicWrite(a: RouteAnalysis) {
    a.accessLevel == Public && HasMutatingMethod(a.methods)
  }

  function PublicWriteCount(routes: seq<RouteAnalysis>): nat
    decreases |routes|
  {
    if |routes| == 0 then 0
    else PublicWriteCount(routes[..|routes| - 1]) + (if IsPublicWrite(routes[|routes| - 1]) then 1 else 0)
  }

  /** The routes whose access level string is `administrator`. */
  function AdministratorCount(routes: seq<RouteAnalysis>): nat
    decreases |routes|
  {
    if |routes| == 0 then 0
    else AdministratorCount(routes[..|routes| - 1]) + (if routes[|routes| - 1].accessLevel.Name() == "administrator" then 1 else 0)
  }

  /** No access level is reported as `administrator`. */
  lemma NoLevelNamedAdministrator(level: AccessLevel)
    ensures level.Name() != "administrator"
  {
    assert "administrator"[1] == 'd';
  }

  lemma TakeLast(routes: seq<RouteAnalysis>, n: nat)
    requires 0 < n <= |routes|
    ensures routes[..n] == routes[..n - 1] + [routes[n - 1]]
  {
  }

  lemma LabelsTake(routes: seq<RouteAnalysis>, n: nat, kind: CountedBy)
    requires 0 < n <= |routes|
    ensures Labels(routes[..n], kind) == Labels(routes[..n - 1], kind) + [Label(routes[n - 1], kind)]
  {
    assert routes[..n][..n - 1] == routes[..n - 1];
  }

  /** Appending a route appends its label to each list of labels and adds
      its contribution to each count. */
  lemma StatsAppend(done: seq<RouteAnalysis>, route: RouteAnalysis)
    ensures forall kind :: Labels(done + [route], kind) == Labels(done, kind) + [Label(route, kind)]
    ensures PublicWriteCount(done + [route]) == PublicWriteCount(done) + (if IsPublicWrite(route) then 1 else 0)
    ensures AdministratorCount(done + [route]) ==
      AdministratorCount(done) + (if route.accessLevel.Name() == "administrator" then 1 else 0)
  {
    assert (done + [route])[..|done|] == done;
  }

  /** The counter `kind` once the first `n` routes are counted: one
      `Increment` per route, at its label. */
  function CounterUpTo(routes: seq<RouteAnalysis>, n: nat, kind: CountedBy): Counter
    requires n <= |routes|
  {
    if n == 0 then [] else Increment(CounterUpTo(routes, n - 1, kind), Label(routes[n - 1], kind))
  }

  /** The routes among the first `n` whose level string is `public` and that
      allow a writing method. */
  function PublicWritesUpTo(routes: seq<RouteAnalysis>, n: nat): nat
    requires n <= |routes|
  {
    if n == 0 then 0
    else
      var route := routes[n - 1];
      PublicWritesUpTo(routes, n - 1) +
        (if route.accessLevel.Name() == "public" && HasMutatingMethod(route.methods) then 1 else 0)
  }

  /** The routes among the first `n` whose level string is `administrator`. */
  function AdminOnlyUpTo(routes: seq<RouteAnalysis>, n: nat): nat
    requires n <= |routes|
  {
    if n == 0 then 0
    else AdminOnlyUpTo(routes, n - 1) + (if routes[n - 1].accessLevel.Name() == "administrator" then 1 else 0)
  }

  /** The statistics once the first `n` routes are counted; the total is
      set before the pass. */
  function StatsUpTo(routes: seq<RouteAnalysis>, n: nat): Stats
    requires n <= |routes|
  {
    Stats(|routes|, CounterUpTo(routes, n, ByAccessLevel), CounterUpTo(routes, n, ByRiskLevel),
          CounterUpTo(routes, n, ByPlugin), PublicWritesUpTo(routes, n), AdminOnlyUpTo(routes, n))
  }

  /** The statistics of a list of analysed routes. */
  function StatsOf(routes: seq<RouteAnalysis>): Stats {
    StatsUpTo(routes, |routes|)
  }

  /** Counting route `n - 1` into the tally of the routes before it gives
      the tally of the first `n`. */
  lemma CounterStep(routes: seq<RouteAnalysis>, n: nat, kind: CountedBy)
    requires 0 < n <= |routes|
    requires CounterUpTo(routes, n - 1, kind) == Tally(Labels(routes[..n - 1], kind))
    ensures CounterUpTo(routes, n, kind) == Tally(Labels(routes[..n], kind))
  {
    LabelsTake(routes, n, kind);
    TallyAppend(Labels(routes[..n - 1], kind), Label(routes[n - 1], kind));
  }

  lemma CounterEmpty(routes: seq<RouteAnalysis>, kind: CountedBy)
    ensures CounterUpTo(routes, 0, kind) == Tally(Labels(routes[..0], kind))
  {
    assert Labels(routes[..0], kind) == [];
  }

  /** A counter of the statistics of all the routes is the tally of their
      labels. */
  lemma CounterOfStats(routes: seq<RouteAnalysis>, kind: CountedBy)
    ensures CounterFor(StatsOf(routes), kind) == Tally(Labels(routes, kind))
  {
    CounterUpToSpec(routes, |routes|, kind);
    assert routes[..|routes|] == routes;
  }

  /** After `n` routes, a counter is the tally of the first `n` labels. */
  lemma {:induction false} CounterUpToSpec(routes: seq<RouteAnalysis>, n: nat, kind: CountedBy)
    requires n <= |routes|
    ensures CounterUpTo(routes, n, kind) == Tally(Labels(routes[..n], kind))
    decreases n
  {
    if n > 0 {
      CounterUpToSpec(routes, n - 1, kind);
      CounterStep(routes, n, kind);
    } else {
      CounterEmpty(routes, kind);
    }
  }

  /** After `n` routes, the public-write counter is the number of public
      writes among them. */
  lemma {:induction false} PublicWritesUpToSpec(routes: seq<RouteAnalysis>, n: nat)
    requires n <= |routes|
    ensures PublicWritesUpTo(routes, n) == PublicWriteCount(routes[..n])
    decreases n
  {
    if n > 0 {
      PublicWritesUpToSpec(routes, n - 1);
      TakeLast(routes, n);
      StatsAppend(routes[..n - 1], routes[n - 1]);
      NameInjective(routes[n - 1].accessLevel, Public);
    }
  }

  /** After `n` routes, the admin-only counter is the number of routes with
      level string `administrator` among them. */
  lemma {:induction false} AdminOnlyUpToSpec(routes: seq<RouteAnalysis>, n: nat)
    requires n <= |routes|
    ensures AdminOnlyUpTo(routes, n) == AdministratorCount(routes[..n])
    decreases n
  {
    if n > 0 {
      AdminOnlyUpToSpec(routes, n - 1);
      TakeLast(routes, n);
      StatsAppend(routes[..n - 1], routes[n - 1]);
    }
  }

  /** The counters tally the labels of the routes: one entry per distinct
      value in first-seen order, each entry the number of routes with that
      value, the entries adding up to the total; the public-write counter
      counts public routes with a writing method. */
  lemma StatsOfSpec(routes: seq<RouteAnalysis>)
    ensures StatsOf(routes).total == |routes|
    ensures forall kind :: CounterFor(StatsOf(routes), kind) == Tally(Labels(routes, kind))
    ensures forall kind :: Keys(CounterFor(StatsOf(routes), kind)) == Dedup(Labels(routes, kind))
    ensures forall kind, k :: Get(CounterFor(StatsOf(routes), kind), k) == multiset(Labels(routes, kind))[k]
    ensures forall kind :: SumCounts(CounterFor(StatsOf(routes), kind)) == |routes|
    ensures StatsOf(routes).publicWriteRoutes == PublicWriteCount(routes)
    ensures StatsOf(routes).adminOnlyRoutes == AdministratorCount(routes)
  {
    forall kind
      ensures CounterFor(StatsOf(routes), kind) == Tally(Labels(routes, kind))
      ensures Keys(CounterFor(StatsOf(routes), kind)) == Dedup(Labels(routes, kind))
      ensures SumCounts(CounterFor(StatsOf(routes), kind)) == |routes|
    {
      CounterOfStats(routes, kind);
      TallySpec(Labels(routes, kind));
    }
    forall kind, k
      ensures Get(CounterFor(StatsOf(routes), kind), k) == multiset(Labels(routes, kind))[k]
    {
      TallyGet(Labels(routes, kind), k);
    }
    assert routes[..|routes|] == routes;
    PublicWritesUpToSpec(routes, |routes|);
    AdminOnlyUpToSpec(routes, |routes|);
  }

  /** The body of the loop of `calculate_stats`: the three counters go up at
      the route's access level, risk level and plugin name; the public-write
      counter when the level string is `public` and a method writes; the
      admin-only counter when the level string is `administrator`. */
  method CountRoute(routes: seq<RouteAnalysis>, i: nat, stats: Stats) returns (stats': Stats)
    requires i < |routes| && stats == StatsUpTo(routes, i)
    ensures stats' == StatsUpTo(routes, i + 1)
  {
    var route := routes[i];
    var level := route.accessLevel.Name();
    var byAccessLevel := Increment(stats.byAccessLevel, level);
    var byRiskLevel := Increment(stats.byRiskLevel, route.riskLevel.Name());
    var byPlugin := Increment(stats.byPlugin, route.pluginName);
    var publicWriteRoutes := stats.publicWriteRoutes;
    if level == "public" && HasMutatingMethod(route.methods) {
      publicWriteRoutes := publicWriteRoutes + 1;
    }
    var adminOnlyRoutes := stats.adminOnlyRoutes;
    if level == "administrator" {
      adminOnlyRoutes := adminOnlyRoutes + 1;
    }
    stats' := Stats(stats.total, byAccessLevel, byRiskLevel, byPlugin, publicWriteRoutes, adminOnlyRoutes);
  }

  /** `calculate_stats`: the total first, then one pass over the routes,
      incrementing the counters. */
  method CalculateStats(routes: seq<RouteAnalysis>) returns (stats: Stats)
    ensures stats == StatsOf(routes)
  {
    stats := Stats(|routes|, [], [], [], 0, 0);
    for i := 0 to |routes|
      invariant stats == StatsUpTo(routes, i)
    {
      stats := CountRoute(routes, i, stats);
    }
  }

  /** A consistent analysis is a public write exactly when it is high
      risk. */
  lemma PublicWriteIffHighRisk(a: RouteAnalysis)
    requires Consistent(a)
    ensures IsPublicWrite(a) <==> a.riskLevel.Name() == High.Name()
  {
  }

  /** For analyser output, the public-write counter is the number of
      high-risk routes. */
  lemma {:induction false} PublicWritesAreHighRisk(routes: seq<RouteAnalysis>)
    requires forall k :: 0 <= k < |routes| ==> Consistent(routes[k])
    ensures PublicWriteCount(routes) == multiset(Labels(routes, ByRiskLevel))[High.Name()]
    decreases |routes|
  {
    if |routes| > 0 {
      var init := routes[..|routes| - 1];
      var last := routes[|routes| - 1];
      PublicWritesAreHighRisk(init);
      assert Labels(routes, ByRiskLevel) == Labels(init, ByRiskLevel) + [last.riskLevel.Name()];
      PublicWriteIffHighRisk(last);
    }
  }

  /** The same, read off the statistics: `public_write_routes` equals the
      `high` entry of `by_risk_level`. */
  lemma PublicWriteStatIsHighRiskStat(routes: seq<RouteAnalysis>)
    requires forall k :: 0 <= k < |routes| ==> Consistent(routes[k])
    ensures StatsOf(routes).publicWriteRoutes == Get(StatsOf(routes).byRiskLevel, "high")
  {
    StatsOfSpec(routes);
    TallyGet(Labels(routes, ByRiskLevel), "high");
    PublicWritesAreHighRisk(routes);
  }

  /** The admin-only counter compares the level with `administrator`, a
      string no access level has, so it never moves. */
  lemma {:induction false} AdminOnlyRoutesAlwaysZero(routes: seq<RouteAnalysis>)
    ensures AdministratorCount(routes) == 0
    ensures StatsOf(routes).adminOnlyRoutes == 0
    decreases |routes|
  {
    if |routes| > 0 {
      AdminOnlyRoutesAlwaysZero(routes[..|routes| - 1]);
      NoLevelNamedAdministrator(routes[|routes| - 1].accessLevel);
    }
    StatsOfSpec(routes);
  }

  /** The reply to the route-inspection request. */
  datatype InspectResponse =
    | Error(message: string)
    | Success(routes: seq<RouteAnalysis>, stats: Stats, total: nat)

  const NoPluginsSelected: string := "No plugins selected for analysis."

  /** `ajax_inspect_routes` after the request checks: an empty selection is
      refused before any analysis; otherwise the sorted analyses, their
      statistics and their number. */
  method InspectRoutes(cfg: AnalyzerConfig, reg: RouteTable, param: PluginsParam, sanitize: string -> string)
    returns (response: InspectResponse)
    ensures response.Error? <==> GetSelectedPlugins(param, sanitize) == []
    ensures response.Error? ==> response.message == NoPluginsSelected
    ensures response.Success? ==>
      multiset(response.routes) == multiset(ExpectedAnalyses(cfg, reg, GetSelectedPlugins(param, sanitize))) &&
      SortedBy(response.routes, AnalysisKey) &&
      response.routes == InsertionSort(ExpectedAnalyses(cfg, reg, GetSelectedPlugins(param, sanitize)), AnalysisKey) &&
      response.stats == StatsOf(response.routes) &&
      response.total == |response.routes| == SelectedHandlerCount(reg, GetSelectedPlugins(param, sanitize))
  {
    var selected := GetSelectedPlugins(param, sanitize);
    if |selected| == 0 {
      return Error(NoPluginsSelected);
    }
    var routes := AnalyzePluginRoutes(cfg, reg, selected);
    var stats := CalculateStats(routes);
    response := Success(routes, stats, |routes|);
  }
}
