/** The REST route registry as the analyzer reads it (`get_routes()`): an
    ordered list of route paths, each with its handlers, and the path tests
    both route walks apply. */
module Registry {
  import opened Wrappers
  import opened Callbacks

  /** One handler of a route. `methods` is the handler's `methods` array as
      (method, truthiness) pairs in key order, empty when the key is absent;
      a missing `callback` or `permission_callback` is `NoCallback`. */
  datatype Handler = Handler(methods: seq<(string, bool)>, callback: Callback, permissionCallback: Callback)

  datatype RouteEntry = RouteEntry(path: string, handlers: seq<Handler>)

  type RouteTable = seq<RouteEntry>

  /** `array_keys(array_filter($handler['methods']))`: the methods whose
      value is truthy, in their original order. */
  function TruthyKeys(methods: seq<(string, bool)>): (keys: seq<string>)
    ensures |keys| <= |methods|
    ensures forall m :: m in keys <==> exists i :: 0 <= i < |methods| && methods[i] == (m, true)
  {
    if |methods| == 0 then []
    else
      var last := methods[|methods| - 1];
      var init := TruthyKeys(methods[..|methods| - 1]);
      assert forall i :: 0 <= i < |methods| - 1 ==> methods[..|methods| - 1][i] == methods[i];
      init + (if last.1 then [last.0] else [])
  }

  /** Filtering keeps order: the keys of a concatenation are the keys of
      each part, in sequence. */
  lemma {:induction false} TruthyKeysAppend(a: seq<(string, bool)>, b: seq<(string, bool)>)
    ensures TruthyKeys(a + b) == TruthyKeys(a) + TruthyKeys(b)
    decreases |b|
  {
    if |b| > 0 {
      var b' := b[..|b| - 1];
      assert (a + b)[..|a + b| - 1] == a + b';
      TruthyKeysAppend(a, b');
    } else {
      assert a + b == a;
    }
  }

  /** Every method of a handler is kept when all its values are truthy, and
      the result is then the method list itself. */
  lemma {:induction false} TruthyKeysAllTrue(methods: seq<(string, bool)>)
    requires forall i :: 0 <= i < |methods| ==> methods[i].1
    ensures |TruthyKeys(methods)| == |methods|
    ensures forall i :: 0 <= i < |methods| ==> TruthyKeys(methods)[i] == methods[i].0
    decreases |methods|
  {
    if |methods| > 0 {
      TruthyKeysAllTrue(methods[..|methods| - 1]);
    }
  }

  /** The route matches `^/(wp/v2|oembed)`: it is a core route. */
  predicate IsCoreRoute(path: string) {
    "/wp/v2" <= path || "/oembed" <= path
  }

  predicate IsSlash(c: char) {
    c == '/'
  }

  /** The end of the run of non-slash characters starting at `i`. */
  function SegmentEnd(path: string, i: nat): (j: nat)
    requires i <= |path|
    ensures i <= j <= |path|
    ensures forall k :: i <= k < j ==> path[k] != '/'
    ensures j < |path| ==> path[j] == '/'
    decreases |path| - i
  {
    if i == |path| || path[i] == '/' then i else SegmentEnd(path, i + 1)
  }

  /** The first group of `^/([^/]+)`: the maximal run of non-slash
      characters after the leading slash, when it is not empty. */
  function NamespaceOf(path: string): (ns: Option<string>)
    ensures ns.Some? <==> |path| >= 2 && path[0] == '/' && path[1] != '/'
    ensures ns.Some? ==>
      (0 < |ns.value| < |path| && path[..|ns.value| + 1] == "/" + ns.value &&
       (forall k :: 0 <= k < |ns.value| ==> ns.value[k] != '/') &&
       (|ns.value| + 1 == |path| || path[|ns.value| + 1] == '/'))
  {
    if |path| >= 2 && path[0] == '/' && path[1] != '/' then
      var e := SegmentEnd(path, 1);
      assert path[..e] == "/" + path[1..e];
      Some(path[1..e])
    else None
  }

  /** The pattern has no word boundary: a route whose namespace merely
      begins with `oembed` counts as a core route. */
  lemma CorePrefixHasNoBoundary()
    ensures IsCoreRoute("/oembed-pro/v1/items")
    ensures NamespaceOf("/oembed-pro/v1/items") == Some("oembed-pro")
  {
    var p := "/oembed-pro/v1/items";
    assert p[..7] == "/oembed";
    assert SegmentEnd(p, 11) == 11;
    assert SegmentEnd(p, 10) == 11;
    assert SegmentEnd(p, 9) == 11;
    assert SegmentEnd(p, 8) == 11;
    assert SegmentEnd(p, 7) == 11;
    assert SegmentEnd(p, 6) == 11;
    assert SegmentEnd(p, 5) == 11;
    assert SegmentEnd(p, 4) == 11;
    assert SegmentEnd(p, 3) == 11;
    assert SegmentEnd(p, 2) == 11;
    assert SegmentEnd(p, 1) == 11;
    assert p[1..11] == "oembed-pro";
  }
}
