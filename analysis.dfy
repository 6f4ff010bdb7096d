/** `analyze_plugin_routes` and `analyze_single_route`: one analysis per
    handler of every non-core route whose namespace was selected, sorted by
    plugin name and then route. */
module Analysis {
  import opened Wrappers
  import opened Hierarchy
  import opened Risk
  import opened Callbacks
  import opened Permission
  import opened PluginNames
  import opened Registry
  import opened Sorting

  /** One entry of the result. */
  datatype RouteAnalysis = RouteAnalysis(
    route: string,
    namespace: string,
    pluginName: string,
    methods: seq<string>,
    accessLevel: AccessLevel,
    capabilities: seq<string>,
    customRoles: seq<string>,
    callbackInfo: string,
    riskLevel: RiskLevel)

  /** The analysis of one handler of `route`. */
  function RouteAnalysisOf(cfg: AnalyzerConfig, route: string, handler: Handler, namespace: string): RouteAnalysis {
    var methods := TruthyKeys(handler.methods);
    var p := AnalysisOf(cfg, handler.permissionCallback);
    RouteAnalysis(route, namespace, FormatPluginName(namespace), methods, p.accessLevel, p.capabilities,
                  p.customRoles, p.callbackInfo, CalculateRiskLevel(p.accessLevel, methods))
  }

  /** The facts that tie the fields of an analysis together. */
  predicate Consistent(a: RouteAnalysis) {
    a.pluginName == FormatPluginName(a.namespace) &&
    a.riskLevel == CalculateRiskLevel(a.accessLevel, a.methods)
  }

  /** What an analysis says about its handler: it lists exactly the methods
      enabled in the handler, and it is high risk exactly when the
      permission callback lets anyone in and one of those methods writes. */
  lemma RouteAnalysisOfSpec(cfg: AnalyzerConfig, route: string, handler: Handler, namespace: string)
    ensures Consistent(RouteAnalysisOf(cfg, route, handler, namespace))
    ensures forall m :: m in RouteAnalysisOf(cfg, route, handler, namespace).methods <==>
      exists i :: 0 <= i < |handler.methods| && handler.methods[i] == (m, true)
    ensures RouteAnalysisOf(cfg, route, handler, namespace).riskLevel == High <==>
      IsPublicCallback(handler.permissionCallback) && HasMutatingMethod(TruthyKeys(handler.methods))
    ensures RouteAnalysisOf(cfg, route, handler, namespace).accessLevel == Admin ==>
      RouteAnalysisOf(cfg, route, handler, namespace).riskLevel == Low
  {
  }

  /** `analyze_single_route`. */
  method AnalyzeSingleRoute(cfg: AnalyzerConfig, route: string, handler: Handler, namespace: string)
    returns (a: RouteAnalysis)
    ensures a == RouteAnalysisOf(cfg, route, handler, namespace)
    ensures Consistent(a)
  {
    var methods := TruthyKeys(handler.methods);
    var p := AnalyzePermissionCallback(cfg, handler.permissionCallback);
    a := RouteAnalysis(route, namespace, FormatPluginName(namespace), methods, p.accessLevel, p.capabilities,
                       p.customRoles, p.callbackInfo, CalculateRiskLevel(p.accessLevel, methods));
  }

  /** The namespace a route is analysed under: none for a core route (it is
      skipped), otherwise the first path segment, or `""` when the path has
      none. */
  function AnalysedNamespace(path: string): Option<string> {
    if IsCoreRoute(path) then None
    else
      match NamespaceOf(path)
      case None => Some("")
      case Some(ns) => Some(ns)
  }

  /** The route is analysed: not a core route, and its namespace was
      selected. */
  predicate IsSelected(path: string, selected: seq<string>) {
    AnalysedNamespace(path).Some? && AnalysedNamespace(path).value in selected
  }

  /** One analysis per handler, in handler order. */
  function AnalysesOf(cfg: AnalyzerConfig, route: string, handlers: seq<Handler>, namespace: string): (r: seq<RouteAnalysis>)
    ensures |r| == |handlers|
    decreases |handlers|
  {
    if |handlers| == 0 then []
    else
      AnalysesOf(cfg, route, handlers[..|handlers| - 1], namespace) +
        [RouteAnalysisOf(cfg, route, handlers[|handlers| - 1], namespace)]
  }

  /** Entry `k` is the analysis of handler `k`. */
  lemma {:induction false} AnalysesOfAt(cfg: AnalyzerConfig, route: string, handlers: seq<Handler>, namespace: string, k: nat)
    requires k < |handlers|
    ensures AnalysesOf(cfg, route, handlers, namespace)[k] == RouteAnalysisOf(cfg, route, handlers[k], namespace)
    decreases |handlers|
  {
    if k < |handlers| - 1 {
      AnalysesOfAt(cfg, route, handlers[..|handlers| - 1], namespace, k);
    }
  }

  /** The analyses before sorting, in registry and handler order. */
  function ExpectedAnalyses(cfg: AnalyzerConfig, reg: RouteTable, selected: seq<string>): seq<RouteAnalysis>
    decreases |reg|
  {
    if |reg| == 0 then []
    else
      var last := reg[|reg| - 1];
      ExpectedAnalyses(cfg, reg[..|reg| - 1], selected) +
        (if IsSelected(last.path, selected) then AnalysesOf(cfg, last.path, last.handlers, AnalysedNamespace(last.path).value) else [])
  }

  /** The number of handlers of the selected routes. */
  function SelectedHandlerCount(reg: RouteTable, selected: seq<string>): nat
    decreases |reg|
  {
    if |reg| == 0 then 0
    else
      var last := reg[|reg| - 1];
      SelectedHandlerCount(reg[..|reg| - 1], selected) + (if IsSelected(last.path, selected) then |last.handlers| else 0)
  }

  /** `a` is the analysis of handler `j` of route `i`, and that route is
      selected. */
  ghost predicate AnalysisOfHandler(cfg: AnalyzerConfig, reg: RouteTable, selected: seq<string>, a: RouteAnalysis, i: int, j: int) {
    0 <= i < |reg| && 0 <= j < |reg[i].handlers| && IsSelected(reg[i].path, selected) &&
    a == RouteAnalysisOf(cfg, reg[i].path, reg[i].handlers[j], AnalysedNamespace(reg[i].path).value)
  }

  /** One analysis per handler of a selected route. */
  lemma {:induction false} ExpectedAnalysesLength(cfg: AnalyzerConfig, reg: RouteTable, selected: seq<string>)
    ensures |ExpectedAnalyses(cfg, reg, selected)| == SelectedHandlerCount(reg, selected)
    decreases |reg|
  {
    if |reg| > 0 {
      ExpectedAnalysesLength(cfg, reg[..|reg| - 1], selected);
    }
  }

  /** `a` is entry `j` of the analyses of route `i`, and that route is
      selected. */
  ghost predicate InBlock(cfg: AnalyzerConfig, reg: RouteTable, selected: seq<string>, a: RouteAnalysis, i: int, j: int) {
    0 <= i < |reg| && IsSelected(reg[i].path, selected) && 0 <= j < |reg[i].handlers| &&
    a == AnalysesOf(cfg, reg[i].path, reg[i].handlers, AnalysedNamespace(reg[i].path).value)[j]
  }

  /** Every entry of the list comes from the block of a selected route. */
  lemma {:induction false} ExpectedAnalysisOrigin(cfg: AnalyzerConfig, reg: RouteTable, selected: seq<string>, a: RouteAnalysis)
      returns (i: int, j: int)
    requires a in ExpectedAnalyses(cfg, reg, selected)
    ensures InBlock(cfg, reg, selected, a, i, j)
    decreases |reg|
  {
    var init := reg[..|reg| - 1];
    var last := reg[|reg| - 1];
    var tail := if IsSelected(last.path, selected) then AnalysesOf(cfg, last.path, last.handlers, AnalysedNamespace(last.path).value) else [];
    assert ExpectedAnalyses(cfg, reg, selected) == ExpectedAnalyses(cfg, init, selected) + tail;
    if a in ExpectedAnalyses(cfg, init, selected) {
      i, j := ExpectedAnalysisOrigin(cfg, init, selected, a);
      assert reg[i] == init[i];
    } else {
      i := |reg| - 1;
      j :| 0 <= j < |tail| && tail[j] == a;
    }
  }

  /** Every entry of the block of a selected route is in the list. */
  lemma {:induction false} ExpectedAnalysisFromBlock(cfg: AnalyzerConfig, reg: RouteTable, selected: seq<string>, a: RouteAnalysis, i: int, j: int)
    requires InBlock(cfg, reg, selected, a, i, j)
    ensures a in ExpectedAnalyses(cfg, reg, selected)
    decreases |reg|
  {
    var init := reg[..|reg| - 1];
    var last := reg[|reg| - 1];
    var tail := if IsSelected(last.path, selected) then AnalysesOf(cfg, last.path, last.handlers, AnalysedNamespace(last.path).value) else [];
    assert ExpectedAnalyses(cfg, reg, selected) == ExpectedAnalyses(cfg, init, selected) + tail;
    if i < |reg| - 1 {
      assert reg[i] == init[i];
      ExpectedAnalysisFromBlock(cfg, init, selected, a, i, j);
    } else {
      assert tail[j] == a;
    }
  }

  /** Entry `j` of the block of route `i` is the analysis of handler `j` of
      route `i`. */
  lemma InBlockIsAnalysisOfHandler(cfg: AnalyzerConfig, reg: RouteTable, selected: seq<string>, a: RouteAnalysis, i: int, j: int)
    ensures InBlock(cfg, reg, selected, a, i, j) <==> AnalysisOfHandler(cfg, reg, selected, a, i, j)
  {
    if 0 <= i < |reg| && IsSelected(reg[i].path, selected) && 0 <= j < |reg[i].handlers| {
      AnalysesOfAt(cfg, reg[i].path, reg[i].handlers, AnalysedNamespace(reg[i].path).value, j);
    }
  }

  /** The analyses are exactly those of the handlers of the selected routes,
      one per handler. */
  lemma ExpectedAnalysesSpec(cfg: AnalyzerConfig, reg: RouteTable, selected: seq<string>)
    ensures |ExpectedAnalyses(cfg, reg, selected)| == SelectedHandlerCount(reg, selected)
    ensures forall a :: a in ExpectedAnalyses(cfg, reg, selected) <==>
      exists i, j :: AnalysisOfHandler(cfg, reg, selected, a, i, j)
  {
    ExpectedAnalysesLength(cfg, reg, selected);
    forall a
      ensures a in ExpectedAnalyses(cfg, reg, selected) <==> exists i, j :: AnalysisOfHandler(cfg, reg, selected, a, i, j)
    {
      if a in ExpectedAnalyses(cfg, reg, selected) {
        var i, j := ExpectedAnalysisOrigin(cfg, reg, selected, a);
        InBlockIsAnalysisOfHandler(cfg, reg, selected, a, i, j);
      }
      if exists i, j :: AnalysisOfHandler(cfg, reg, selected, a, i, j) {
        var i, j :| AnalysisOfHandler(cfg, reg, selected, a, i, j);
        InBlockIsAnalysisOfHandler(cfg, reg, selected, a, i, j);
        ExpectedAnalysisFromBlock(cfg, reg, selected, a, i, j);
      }
    }
  }

  /** Every analysis belongs to a selected, non-core route, and its fields
      are consistent. */
  lemma ExpectedAnalysesSound(cfg: AnalyzerConfig, reg: RouteTable, selected: seq<string>)
    ensures forall a :: a in ExpectedAnalyses(cfg, reg, selected) ==>
      a.namespace in selected && !IsCoreRoute(a.route) && Consistent(a)
  {
    forall a | a in ExpectedAnalyses(cfg, reg, selected)
      ensures a.namespace in selected && !IsCoreRoute(a.route) && Consistent(a)
    {
      var i, j := ExpectedAnalysisOrigin(cfg, reg, selected, a);
      InBlockIsAnalysisOfHandler(cfg, reg, selected, a, i, j);
      RouteAnalysisOfSpec(cfg, reg[i].path, reg[i].handlers[j], AnalysedNamespace(reg[i].path).value);
    }
  }

  /** The sort key: `strcmp` on the plugin name, then on the route. */
  function AnalysisKey(a: RouteAnalysis): SortKey {
    (a.pluginName, a.route)
  }

  /** A permutation of the expected analyses has one entry per handler of
      a selected route, each for a selected, non-core route and
      consistent. */
  lemma PermutedAnalysesSound(cfg: AnalyzerConfig, reg: RouteTable, selected: seq<string>, routes: seq<RouteAnalysis>)
    requires multiset(routes) == multiset(ExpectedAnalyses(cfg, reg, selected))
    ensures |routes| == SelectedHandlerCount(reg, selected)
    ensures forall k :: 0 <= k < |routes| ==>
      routes[k].namespace in selected && !IsCoreRoute(routes[k].route) && Consistent(routes[k])
  {
    ExpectedAnalysesLength(cfg, reg, selected);
    assert |multiset(routes)| == |multiset(ExpectedAnalyses(cfg, reg, selected))|;
    ExpectedAnalysesSound(cfg, reg, selected);
    forall k | 0 <= k < |routes|
      ensures routes[k].namespace in selected && !IsCoreRoute(routes[k].route) && Consistent(routes[k])
    {
      assert routes[k] in multiset(routes);
    }
  }

  /** The walk of `analyze_plugin_routes`: skip core routes and routes of
      unselected namespaces, analyse every handler of the others. */
  /** The inner loop: one analysis per handler of a route, in order. */
  method AnalyzeHandlers(cfg: AnalyzerConfig, route: string, handlers: seq<Handler>, namespace: string) returns (block: seq<RouteAnalysis>)
    ensures block == AnalysesOf(cfg, route, handlers, namespace)
  {
    block := [];
    for j := 0 to |handlers|
      invariant block == AnalysesOf(cfg, route, handlers[..j], namespace)
    {
      assert handlers[..j + 1][..j] == handlers[..j];
      var a := AnalyzeSingleRoute(cfg, route, handlers[j], namespace);
      block := block + [a];
    }
    assert handlers[..|handlers|] == handlers;
  }

  method CollectAnalyses(cfg: AnalyzerConfig, reg: RouteTable, selected: seq<string>) returns (analyzed: seq<RouteAnalysis>)
    ensures analyzed == ExpectedAnalyses(cfg, reg, selected)
  {
    analyzed := [];
    for i := 0 to |reg|
      invariant analyzed == ExpectedAnalyses(cfg, reg[..i], selected)
    {
      assert reg[..i + 1][..i] == reg[..i];
      var route := reg[i].path;
      var handlers := reg[i].handlers;
      if IsCoreRoute(route) {
        continue;
      }
      var namespace := "";
      match NamespaceOf(route) {
        case Some(ns) => namespace := ns;
        case None =>
      }
      if namespace !in selected {
        continue;
      }
      var block := AnalyzeHandlers(cfg, route, handlers, namespace);
      analyzed := analyzed + block;
    }
    assert reg[..|reg|] == reg;
  }

  /** `analyze_plugin_routes`: walk the routes, analyse every handler of the
      selected ones, then sort. */
  method AnalyzePluginRoutes(cfg: AnalyzerConfig, reg: RouteTable, selected: seq<string>) returns (routes: seq<RouteAnalysis>)
    ensures multiset(routes) == multiset(ExpectedAnalyses(cfg, reg, selected))
    ensures SortedBy(routes, AnalysisKey)
    ensures Stable(ExpectedAnalyses(cfg, reg, selected), routes, AnalysisKey)
    ensures routes == InsertionSort(ExpectedAnalyses(cfg, reg, selected), AnalysisKey)
    ensures |routes| == SelectedHandlerCount(reg, selected)
    ensures forall k :: 0 <= k < |routes| ==>
      routes[k].namespace in selected && !IsCoreRoute(routes[k].route) && Consistent(routes[k])
  {
    var analyzed := CollectAnalyses(cfg, reg, selected);
    routes := SortedCopy(analyzed, AnalysisKey);
    PermutedAnalysesSound(cfg, reg, selected, routes);
  }
}
