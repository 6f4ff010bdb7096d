/** The display names of plugins: `format_plugin_name` (used for analysed
    routes) and `guess_plugin_name` (used when listing namespaces). */
module PluginNames {
  import opened PhpStrings
  import opened Wrappers
  import opened Callbacks

  predicate IsNameSeparator(c: char) {
    c == '-' || c == '_'
  }

  /** `str_replace(['-', '_'], ' ', $name)`. */
  function SpaceSeparators(name: string): (r: string)
    ensures |r| == |name|
    ensures forall i :: 0 <= i < |name| ==> r[i] == if IsNameSeparator(name[i]) then ' ' else name[i]
  {
    if |name| == 0 then [] else
      SpaceSeparators(name[..|name| - 1]) + [if IsNameSeparator(name[|name| - 1]) then ' ' else name[|name| - 1]]
  }

  /** `format_plugin_name`: dashes and underscores become spaces, then
      `ucwords`. */
  function FormatPluginName(name: string): (r: string)
    ensures |r| == |name|
    ensures forall i :: 0 <= i < |r| ==> !IsNameSeparator(r[i])
  {
    var spaced := SpaceSeparators(name);
    var r := UcWords(spaced);
    assert forall i :: 0 <= i < |r| ==> !IsNameSeparator(r[i]) by {
      forall i | 0 <= i < |r|
        ensures !IsNameSeparator(r[i])
      {
        if i > 0 {
          assert r[i] == if IsWordDelimiter(spaced[i - 1]) then UpperAscii(spaced[i]) else spaced[i];
        }
      }
    }
    r
  }

  /** Position by position: a separator becomes a space, the first letter of
      the name and each letter after a space, a separator or another `ucwords`
      delimiter is upper-cased, and every other character is kept. */
  lemma FormatPluginNameSpec(name: string, i: int)
    requires 0 <= i < |name|
    ensures IsNameSeparator(name[i]) ==> FormatPluginName(name)[i] == ' '
    ensures !IsNameSeparator(name[i]) && (i == 0 || IsNameSeparator(name[i - 1]) || IsWordDelimiter(name[i - 1])) ==>
      FormatPluginName(name)[i] == UpperAscii(name[i])
    ensures !IsNameSeparator(name[i]) && i > 0 && !IsNameSeparator(name[i - 1]) && !IsWordDelimiter(name[i - 1]) ==>
      FormatPluginName(name)[i] == name[i]
  {
    var spaced := SpaceSeparators(name);
    if i > 0 {
      assert UcWords(spaced)[i] == if IsWordDelimiter(spaced[i - 1]) then UpperAscii(spaced[i]) else spaced[i];
    }
  }

  /** Formatting an already formatted name changes nothing. */
  lemma FormatPluginNameIdempotent(name: string)
    ensures FormatPluginName(FormatPluginName(name)) == FormatPluginName(name)
  {
    var r := FormatPluginName(name);
    assert SpaceSeparators(r) == r;
    UcWordsIdempotent(SpaceSeparators(name));
  }

  /** The characters the class-name pattern `^(.+?)(_|\\)` stops at. */
  predicate IsClassSeparator(c: char) {
    c == '_' || c == '\\'
  }

  /** The lazy `.+?` from position `i` (at least one character already
      taken): the first separator at or after `i`, unless a line feed, which
      `.` does not match, comes first. */
  function ClassPrefixFrom(className: string, i: nat): (r: Option<string>)
    requires 1 <= i
    ensures r.Some? ==> i <= |r.value| < |className| && r.value == className[..|r.value|]
    ensures r.Some? ==> IsClassSeparator(className[|r.value|])
    ensures r.Some? ==> forall k :: i <= k < |r.value| ==> !IsClassSeparator(className[k])
    ensures r.Some? ==> forall k :: i - 1 <= k < |r.value| ==> className[k] != '\n'
    ensures r.None? ==> forall k :: i <= k < |className| && IsClassSeparator(className[k]) ==>
      exists m :: i - 1 <= m < k && className[m] == '\n'
    decreases |className| - i
  {
    if |className| <= i || className[i - 1] == '\n' then None
    else if IsClassSeparator(className[i]) then Some(className[..i])
    else ClassPrefixFrom(className, i + 1)
  }

  /** The first group of `^(.+?)(_|\\)` on a class name: the shortest
      non-empty prefix followed by `_` or `\`. */
  function ClassPrefix(className: string): Option<string> {
    ClassPrefixFrom(className, 1)
  }

  /** The prefix is non-empty, free of separators and line feeds, and ends
      right before the first separator after the first character; there is
      no match exactly when every such separator has a line feed before
      it. */
  lemma ClassPrefixSpec(className: string)
    ensures ClassPrefix(className).Some? ==>
      var p := ClassPrefix(className).value;
      1 <= |p| < |className| && p == className[..|p|] && IsClassSeparator(className[|p|]) &&
      (forall k :: 1 <= k < |p| ==> !IsClassSeparator(p[k])) &&
      (forall k :: 0 <= k < |p| ==> p[k] != '\n')
    ensures ClassPrefix(className).None? <==>
      forall k :: 1 <= k < |className| && IsClassSeparator(className[k]) ==>
        exists m :: 0 <= m < k && className[m] == '\n'
  {
    var r := ClassPrefix(className);
    if r.Some? {
      var p := r.value;
      var k := |p|;
      assert 1 <= k < |className| && IsClassSeparator(className[k]);
      forall m | 0 <= m < k
        ensures className[m] != '\n'
      {
      }
      assert !(exists m :: 0 <= m < k && className[m] == '\n');
    }
  }

  /** The namespaces whose plugin names are known. */
  const KnownNamespaces: map<string, string> := map[
    "wc" := "WooCommerce",
    "wc-admin" := "WooCommerce Admin",
    "yoast" := "Yoast SEO",
    "elementor" := "Elementor",
    "buddypress" := "BuddyPress",
    "bbpress" := "bbPress",
    "learndash" := "LearnDash",
    "tribe" := "The Events Calendar",
    "gravityforms" := "Gravity Forms",
    "contact-form-7" := "Contact Form 7",
    "jetpack" := "Jetpack",
    "woocommerce" := "WooCommerce"
  ]

  /** The class prefix of a route callback bound to an object, if any. */
  function CallbackClassPrefix(callback: Callback): Option<string> {
    if callback.Pair? && callback.target.Instance? then ClassPrefix(callback.target.className) else None
  }

  /** `guess_plugin_name`: the formatted class prefix of an object callback,
      else the known name of the namespace, else the formatted namespace. */
  function GuessPluginName(namespace: string, callback: Callback): (name: string)
    ensures CallbackClassPrefix(callback).Some? ==> name == FormatPluginName(CallbackClassPrefix(callback).value)
    ensures CallbackClassPrefix(callback).None? && namespace in KnownNamespaces ==> name == KnownNamespaces[namespace]
    ensures CallbackClassPrefix(callback).None? && namespace !in KnownNamespaces ==> name == FormatPluginName(namespace)
  {
    match CallbackClassPrefix(callback)
    case Some(prefix) => FormatPluginName(prefix)
    case None => if namespace in KnownNamespaces then KnownNamespaces[namespace] else FormatPluginName(namespace)
  }

  /** The two naming rules disagree on known namespaces: the list of
      namespaces calls `wc` "WooCommerce", the route analysis "Wc". */
  lemma KnownNamespaceDiffersFromFormatted()
    ensures GuessPluginName("wc", NoCallback) == "WooCommerce"
    ensures FormatPluginName("wc") == "Wc"
  {
    var spaced := SpaceSeparators("wc");
    assert spaced == "wc";
    assert !IsWordDelimiter(spaced[0]);
    assert UcWords(spaced)[1] == spaced[1];
  }

  /** An object callback of class `Acme_Api` names the plugin `Acme`,
      whatever its namespace. */
  lemma ClassPrefixNamesPlugin(namespace: string, methodName: string, found: Captures)
    ensures GuessPluginName(namespace, Pair(Instance("Acme_Api"), methodName, found)) == "Acme"
  {
    var c := "Acme_Api";
    assert ClassPrefixFrom(c, 4) == Some(c[..4]);
    assert ClassPrefixFrom(c, 3) == ClassPrefixFrom(c, 4);
    assert ClassPrefixFrom(c, 2) == ClassPrefixFrom(c, 3);
    assert ClassPrefixFrom(c, 1) == ClassPrefixFrom(c, 2);
    assert c[..4] == "Acme";
    FormatsCapitalizedWord();
  }

  lemma FormatsCapitalizedWord()
    ensures FormatPluginName("Acme") == "Acme"
  {
    var spaced := SpaceSeparators("Acme");
    assert spaced == "Acme";
    var r := UcWords(spaced);
    assert !IsWordDelimiter(spaced[0]) && !IsWordDelimiter(spaced[1]) && !IsWordDelimiter(spaced[2]);
    assert r[0] == 'A' && r[1] == 'c' && r[2] == 'm' && r[3] == 'e';
  }
}
