# SecToolbox route analyzer, modelled in Dafny

SecToolbox is a WordPress plugin that lists the REST routes other plugins
register and classifies who may call each one. This project models its
core:

- the route analyzer:
  - the discovery of plugin namespaces;
  - the per-handler analysis;
  - the classification of a permission callback into an access level;
  - the ranking of capabilities into role tiers;
  - the search for custom roles;
  - the risk score;
  - the plugin-name guessing and formatting;
- the parts of the AJAX handler that decide which plugins are inspected and
  that aggregate the statistics.

The REST registry, the role table, the admin capability list and what the
two capability patterns capture in a callback's source are all inputs. The
analyzer reads each of them from WordPress at run time.

Modules, one per file:

| file | module | models |
|---|---|---|
| `wrappers.dfy` | `Wrappers` | `Option` |
| `php_strings.dfy` | `PhpStrings` | `strpos(...) !== false`, `strcmp` order, `ucwords` |
| `php_arrays.dfy` | `PhpArrays` | `array_unique` on lists; ordered string-keyed counters (`$c[$k] = ($c[$k] ?? 0) + 1`) |
| `sorting.dfy` | `Sorting` | `usort`/`uasort` as a stable in-place insertion sort on an array, by a pair of `strcmp` keys |
| `hierarchy.dfy` | `Hierarchy` | the admin capability list, the role tiers, `compare_role_hierarchy`, `determine_access_level` |
| `custom_roles.dfy` | `CustomRoles` | `find_custom_roles_for_capabilities` |
| `risk.dfy` | `Risk` | `calculate_risk_level` |
| `callbacks.dfy` | `Callbacks` | the shapes of a callback, `format_callback`, the dedup step of `extract_capabilities_from_callback` |
| `source_scan.dfy` | `SourceScan` | the two `preg_match_all` patterns as a deterministic scanner over a source string |
| `permission.dfy` | `Permission` | `analyze_permission_callback` |
| `plugin_names.dfy` | `PluginNames` | `format_plugin_name`, `guess_plugin_name` |
| `registry.dfy` | `Registry` | the route table, `array_keys(array_filter($methods))`, the core-route and namespace patterns |
| `discovery.dfy` | `Discovery` | `get_plugins_with_rest_routes` |
| `analysis.dfy` | `Analysis` | `analyze_single_route`, `analyze_plugin_routes` |
| `ajax_handler.dfy` | `AjaxHandler` | `get_selected_plugins`, `calculate_stats`, the empty-selection guard of `ajax_inspect_routes` |

Where the source works in loops, the model is a `method` with a loop:
- `determine_access_level`;
- `find_custom_roles_for_capabilities`;
- the route walks of discovery and analysis;
- the sorts;
- `calculate_stats`.

Each such method is proved equal to a specification function, and the
properties are proved about that function. For the sorts that function is
`Sorting.InsertionSort`, a stable insertion sort: PHP 8 sorts are stable,
and a stable sort by a total order has exactly one possible result, so the
model's sort orders equal keys exactly as `usort` and `uasort` do. Pure
helpers are functions.

Access levels are a datatype whose `Name()` gives the analyzer's strings.
The statistics compare those strings against `"public"` and
`"administrator"` exactly as the PHP does.

## Model

| member | source | states |
|---|---|---|
| PhpStrings.ContainsIff | includes/class-route-analyzer.php:253 | `strpos($s, $needle) !== false` holds exactly when the needle occurs at some position of the string |
| PhpStrings.StrLessTrichotomy | includes/class-route-analyzer.php:105 | `strcmp` order: of two strings exactly one is smaller, or they are equal |
| PhpStrings.StrLessTransitive | includes/class-route-analyzer.php:158-161 | `strcmp` order is transitive |
| PhpStrings.UcWords | includes/class-route-analyzer.php:506 | `ucwords` keeps the length; it upper-cases an ASCII letter at the start or after a space, tab, CR, LF, form feed or vertical tab, and leaves every other character unchanged |
| PhpStrings.UcWordsIdempotent | includes/class-route-analyzer.php:506 | applying `ucwords` twice gives the same as once |
| PhpArrays.Dedup | includes/class-route-analyzer.php:354 | `array_unique` on a list: no repeated value, the same values as the input, no longer than the input |
| PhpArrays.DedupPrefix | includes/class-route-analyzer.php:354 | the values first seen in a prefix stay first, in the same order |
| PhpArrays.DedupOfDistinct | includes/class-route-analyzer.php:354 | a list without repeats is unchanged |
| PhpArrays.IncrementKeys | includes/class-ajax-handler.php:153 | `$c[$k] = ($c[$k] ?? 0) + 1` keeps the keys and their order, and appends a new key at the end |
| PhpArrays.IncrementGet | includes/class-ajax-handler.php:153 | that statement raises the count of `$k` by one and leaves every other count unchanged |
| PhpArrays.TallySpec | includes/class-ajax-handler.php:150-161 | a counter built by one increment per value has the distinct values as keys, in first-seen order, and its counts sum to the number of values |
| PhpArrays.TallyGet | includes/class-ajax-handler.php:150-161 | each key's count is the number of times it occurs |
| Sorting.KeyLeAntisymmetric | includes/class-route-analyzer.php:158-161 | two keys that each compare not greater than the other are equal, so `strcmp` ties are exact equal keys |
| Sorting.InsertSpec | includes/class-route-analyzer.php:158-161 | inserting an element adds exactly that element and keeps a sorted list sorted |
| Sorting.InsertStable | includes/class-route-analyzer.php:158-161 | an inserted element lands after every element with the same key, and the order among the others is unchanged |
| Sorting.InsertionSortSpec | includes/class-route-analyzer.php:158-161 | the stable insertion sort gives a sorted permutation of its input |
| Sorting.InsertionSortStable | includes/class-route-analyzer.php:158-161 | the stable insertion sort keeps the input order among elements with equal keys, as PHP 8 sorts do |
| Sorting.SortedStableUnique | includes/class-route-analyzer.php:158-161 | two sorted lists that hold the same elements in the same order for every key are equal |
| Sorting.StableSortIsInsertionSort | includes/class-route-analyzer.php:158-161 | every sorted, stable reordering of a list is its insertion sort, so a stable `usort` has exactly this result |
| Sorting.InsertAt | includes/class-route-analyzer.php:158-161 | one insertion step turns the first `i + 1` cells into the insertion of cell `i` into the first `i`, and leaves the rest untouched |
| Sorting.SortByKey | includes/class-route-analyzer.php:158-161 | the in-place sort leaves the array equal to the stable insertion sort of its old contents: sorted by its key, a permutation, and stable |
| Sorting.SortedCopy | includes/class-route-analyzer.php:105 | sorting a list gives its stable insertion sort: a sorted permutation that keeps the order of equal keys |
| Hierarchy.CompareRoleHierarchyOrdersTiers | includes/class-route-analyzer.php:423-429 | `compare_role_hierarchy` is negative exactly when the first tier ranks below the second; a name outside the table ranks with `admin` |
| Hierarchy.LowestTierFromSpec | includes/class-route-analyzer.php:376-411 | the lowest tier found lists one of the capabilities, and no lower tier lists any |
| Hierarchy.LowestTierAppend | includes/class-route-analyzer.php:403-411 | scanning one more capability keeps the lower of the two tiers |
| Hierarchy.AccessLevelFor | includes/class-route-analyzer.php:363-414 | `unknown` exactly for an empty list; `admin` whenever an admin capability is present; always a tier, `admin` or `unknown` |
| Hierarchy.AccessLevelIsLowestMatchingTier | includes/class-route-analyzer.php:376-411 | without an admin capability, the level is tier k exactly when tier k lists a capability and no lower tier does |
| Hierarchy.AccessLevelAdminFallback | includes/class-route-analyzer.php:401-413 | without an admin capability, the level is `admin` exactly when no tier lists any capability |
| Hierarchy.AccessLevelIgnoresOrder | includes/class-route-analyzer.php:403-411 | the level depends only on which capabilities are present, not on their order or repetition |
| Hierarchy.UploadFilesIsAdmin | includes/class-route-analyzer.php:32 | `upload_files` is in both the author tier and the default admin list, and the admin list wins |
| Hierarchy.ScanTiers | includes/class-route-analyzer.php:404-410 | the inner loop over the tiers lowers the current minimum to the lowest tier listing the capability |
| Hierarchy.DetermineAccessLevel | includes/class-route-analyzer.php:363-414 | the nested loops compute `AccessLevelFor` |
| CustomRoles.HitsForCapabilityMembers | includes/class-route-analyzer.php:444-452 | one capability's pass yields exactly the non-standard roles that grant it with a truthy value |
| CustomRoles.RoleHitsMembers | includes/class-route-analyzer.php:443-453 | the nested loops yield exactly the non-standard roles that grant some capability of the list |
| CustomRoles.CustomRolesForSpec | includes/class-route-analyzer.php:437-456 | no duplicates; exactly the custom grantees; never a standard role; empty for no capabilities |
| CustomRoles.FindCustomRolesForCapabilities | includes/class-route-analyzer.php:437-456 | the loops compute `CustomRolesFor`, with the same guarantees |
| Risk.CalculateRiskLevel | includes/class-route-analyzer.php:206-225 | `high` exactly for public with a writing method; public read-only is `medium`; `admin` is `low`; any other level is `medium` exactly when a method writes, else `low` |
| Risk.RiskMonotoneInWrites | includes/class-route-analyzer.php:211-221 | adding a writing method never lowers the risk |
| Callbacks.FormatCallback | includes/class-route-analyzer.php:292-306 | `Class::method` for an array (an object or a class name), the name for a string, the closure label otherwise |
| Callbacks.FormatCallbackIgnoresCaptures | includes/class-route-analyzer.php:292-306 | the label does not depend on what the callback's source checks; an object and a class name of one class give one label; every value that names nothing gets the same label |
| Callbacks.PairLabel | includes/class-route-analyzer.php:294-298 | a pair's label is the class name, then `::` at the class name's length, then the method name, and nothing else |
| Callbacks.PairNotClosureLabel | includes/class-route-analyzer.php:294-305 | a pair's label contains `::` and is never the closure label |
| Callbacks.ExtractCapabilitiesSpec | includes/class-route-analyzer.php:340-354 | no duplicates; exactly the captures of both patterns; the `current_user_can` captures come first |
| SourceScan.QuotedAt | includes/class-route-analyzer.php:340 | a quoted capture starts with a quote at the given position, ends with a quote, and captures exactly the non-empty, quote-free text between them |
| SourceScan.Arguments | includes/class-route-analyzer.php:340-345 | after the parenthesis, a match ends with a quote-delimited capture that starts at or after the given position |
| SourceScan.MatchAt | includes/class-route-analyzer.php:340-347 | a match starts with the pattern's function name at the given position, and its capture is the non-empty, quote-free text between the two quotes it ends with |
| SourceScan.ScannedCapabilitiesWellFormed | includes/class-route-analyzer.php:340-354 | every capability the scanner finds is non-empty and quote-free |
| SourceScan.NoCommaNoUserCan | includes/class-route-analyzer.php:345 | without a comma, the `user_can` pattern never matches |
| SourceScan.ScanSingleCheck | includes/class-route-analyzer.php:340 | `current_user_can('read')` yields `read` |
| Permission.AnalysisOf | includes/class-route-analyzer.php:233-284 | public exactly for a null callback or `__return_true`; `unknown` exactly for another function name that does not mention `current_user_can`; capabilities only for arrays and callables, without repeats; custom roles only with capabilities; a tier or `admin` whenever capabilities were found |
| Permission.ScannedAnalysis | includes/class-route-analyzer.php:260-279 | for arrays and callables: `custom` exactly when nothing was found; the info is `format_callback` |
| Permission.ScannedAnalysisSpec | includes/class-route-analyzer.php:260-279 | the capabilities are exactly those found; the level is ranked from them; the custom roles are exactly their custom grantees |
| Permission.PublicCallbackAnalysis | includes/class-route-analyzer.php:242-248 | null and `__return_true` are public, with no capabilities or roles, and with distinct info texts |
| Permission.NamedCallbackNotScanned | includes/class-route-analyzer.php:250-258 | a function name is not scanned; its info is `Function: <name>`; it is `custom` exactly when the name mentions `current_user_can`, else `unknown` |
| Permission.AdminCapabilityMeansAdmin | includes/class-route-analyzer.php:340-373 | an admin capability captured by either pattern in a scanned callback makes it `admin` |
| Permission.AnalyzePermissionCallback | includes/class-route-analyzer.php:233-284 | the step-by-step updates of `$result` compute `AnalysisOf` |
| PluginNames.FormatPluginName | includes/class-route-analyzer.php:503-507 | same length, and no `-` or `_` is left |
| PluginNames.FormatPluginNameSpec | includes/class-route-analyzer.php:503-507 | a separator becomes a space; a character at the start or after a separator or whitespace is upper-cased; any other is unchanged |
| PluginNames.FormatPluginNameIdempotent | includes/class-route-analyzer.php:503-507 | formatting twice gives the same as once |
| PluginNames.ClassPrefixSpec | includes/class-route-analyzer.php:473 | the lazy class-name pattern: the shortest prefix before a `_` or `\` that is not the first character, with no newline; no match exactly when a newline precedes every such separator |
| PluginNames.GuessPluginName | includes/class-route-analyzer.php:465-495 | the formatted class prefix when the callback's object class has one; else the table name of a known namespace; else the formatted namespace |
| PluginNames.KnownNamespaceDiffersFromFormatted | includes/class-route-analyzer.php:185 | discovery names `wc` WooCommerce, while the analysis label formats it as `Wc` |
| PluginNames.ClassPrefixNamesPlugin | includes/class-route-analyzer.php:470-475 | a callback on an `Acme_Api` object names the plugin `Acme` |
| Registry.TruthyKeys | includes/class-route-analyzer.php:177 | the methods kept are exactly those with a truthy value |
| Registry.TruthyKeysAppend | includes/class-route-analyzer.php:177 | filtering keeps the original order |
| Registry.NamespaceOf | includes/class-route-analyzer.php:84 | `^/([^/]+)` matches exactly when the path starts with `/` and a non-slash; the capture is the maximal run of non-slash characters after it |
| Registry.CorePrefixHasNoBoundary | includes/class-route-analyzer.php:79 | `/oembed-pro/...` is skipped as a core route, although its namespace is `oembed-pro` |
| Discovery.CountedNamespace | includes/class-route-analyzer.php:79-90 | core routes and paths without a namespace are not counted; a counted namespace is the path's first segment and is not `wp` or `oembed` |
| Discovery.CountedNamespacesMembers | includes/class-route-analyzer.php:77-101 | a namespace is counted exactly when some route is counted under it |
| Discovery.UnsortedGroupsNamespaces | includes/class-route-analyzer.php:92-99 | one group per counted namespace, in first-seen order, without repeats |
| Discovery.UnsortedGroupsCounts | includes/class-route-analyzer.php:100 | each group's `route_count` is the number of routes counted under its namespace |
| Discovery.UnsortedGroupsNames | includes/class-route-analyzer.php:92-93 | each group is named by `guess_plugin_name` on the first handler of the first route counted under it |
| Discovery.UnsortedGroupsTotal | includes/class-route-analyzer.php:100 | the counts sum to the number of counted routes |
| Discovery.TotalRouteCountPermutation | includes/class-route-analyzer.php:105 | reordering the groups keeps the total |
| Discovery.DistinctNamespacesPermutation | includes/class-route-analyzer.php:105 | reordering keeps the namespaces distinct |
| Discovery.SortedGroupsFacts | includes/class-route-analyzer.php:105-112 | after sorting: distinct namespaces, exactly the counted ones, none reserved, each count right, the total right |
| Discovery.CountRoute | includes/class-route-analyzer.php:92-100 | one loop step creates the entry for a new namespace, bumps its count and keeps the index by namespace |
| Discovery.GroupRoutes | includes/class-route-analyzer.php:77-102 | the loop over the registry builds `UnsortedGroups` |
| Discovery.GetPluginsWithRestRoutes | includes/class-route-analyzer.php:66-113 | the result is the stable sort by name under `strcmp` of the groups in first-seen order: sorted, a permutation, groups with the same name in first-seen order; it has the properties in `SortedGroupsFacts` |
| Analysis.RouteAnalysisOfSpec | includes/class-route-analyzer.php:174-197 | the methods are exactly the truthy ones; the risk is high exactly for a public callback with a writing method; `admin` is low risk; the analysis is consistent |
| Analysis.AnalyzeSingleRoute | includes/class-route-analyzer.php:174-197 | builds `RouteAnalysisOf`, which is consistent |
| Analysis.AnalysesOfAt | includes/class-route-analyzer.php:149-154 | the k-th result of a route is the analysis of its k-th handler |
| Analysis.ExpectedAnalysesLength | includes/class-route-analyzer.php:132-155 | one result per handler of a selected route |
| Analysis.ExpectedAnalysisOrigin | includes/class-route-analyzer.php:132-155 | every result comes from a handler of a selected route |
| Analysis.ExpectedAnalysisFromBlock | includes/class-route-analyzer.php:132-155 | every handler of a selected route contributes its result |
| Analysis.ExpectedAnalysesSpec | includes/class-route-analyzer.php:132-155 | an analysis is in the list exactly when it is the analysis of a handler of a selected route; the length is the handler count |
| Analysis.ExpectedAnalysesSound | includes/class-route-analyzer.php:134-147 | every result's namespace is selected, no result is a core route, and each is consistent |
| Analysis.PermutedAnalysesSound | includes/class-route-analyzer.php:158-161 | the same holds for any reordering of the list |
| Analysis.AnalyzeHandlers | includes/class-route-analyzer.php:149-154 | the inner loop appends one analysis per handler, in order |
| Analysis.CollectAnalyses | includes/class-route-analyzer.php:132-155 | the outer loop builds `ExpectedAnalyses` |
| Analysis.AnalyzePluginRoutes | includes/class-route-analyzer.php:121-164 | the stable sort of the expected list by plugin name then route: sorted, a permutation, results with equal keys in walk order; of the right length, with every result selected, non-core and consistent |
| AjaxHandler.SanitizedTruthy | includes/class-ajax-handler.php:130 | exactly the sanitized items that are truthy |
| AjaxHandler.GetSelectedPlugins | includes/class-ajax-handler.php:122-131 | a missing or non-array parameter selects nothing; a list selects exactly its sanitized truthy items; every selected value is truthy |
| AjaxHandler.StatsAppend | includes/class-ajax-handler.php:150-171 | one more route adds its labels and its contribution to the two special counters |
| AjaxHandler.CounterUpToSpec | includes/class-ajax-handler.php:150-161 | the counter after n routes is the tally of their first n labels |
| AjaxHandler.PublicWritesUpToSpec | includes/class-ajax-handler.php:164-166 | after n routes, `public_write_routes` counts the public routes with a writing method among them |
| AjaxHandler.AdminOnlyUpToSpec | includes/class-ajax-handler.php:168-170 | after n routes, `admin_only_routes` counts the level string `administrator` among them |
| AjaxHandler.StatsOfSpec | includes/class-ajax-handler.php:139-174 | `total` is the number of routes; each counter lists the distinct values in first-seen order; each count is the number of routes with that value; each counter sums to the total |
| AjaxHandler.CountRoute | includes/class-ajax-handler.php:151-170 | one loop iteration advances the statistics by one route |
| AjaxHandler.CalculateStats | includes/class-ajax-handler.php:139-174 | the loop computes `StatsOf` |
| AjaxHandler.PublicWriteIffHighRisk | includes/class-ajax-handler.php:164 | an analysed route is a public write exactly when its risk is `high` |
| AjaxHandler.PublicWritesAreHighRisk | includes/class-ajax-handler.php:164-166 | for analyzer output, the public writes are the high-risk routes |
| AjaxHandler.PublicWriteStatIsHighRiskStat | includes/class-ajax-handler.php:157-166 | `public_write_routes` equals `by_risk_level['high']` for analyzer output |
| AjaxHandler.AdminOnlyRoutesAlwaysZero | includes/class-ajax-handler.php:168-170 | no access level is `administrator`, so `admin_only_routes` is always 0 |
| AjaxHandler.InspectRoutes | includes/class-ajax-handler.php:70-99 | an error with the fixed message exactly when nothing is selected; otherwise the stable sort of the analyses of the selected plugins, their statistics and their number |

## Left out

- Reflection and file reading in `extract_capabilities_from_callback`. What the two patterns capture is an input of each array or callable callback. `SourceScan` models the two patterns over a source string. It does not model locating that string.
- The `sectoolbox_admin_capabilities` and `sectoolbox_detected_plugins` filters. The admin list in force is a parameter, and the detected-plugins filter is the identity.
- `rest_get_server()`, the global server and `wp_roles()`. The route table and the role table are inputs.
- `error_log` and the translation function `__()`. Messages are fixed English strings.
- The `catch` branch of `analyze_single_route`. No step of the modelled analysis throws an `Exception`, so the model is total and every modelled handler yields a result.
- Invokable objects that are not closures. `extract_capabilities_from_callback` passes them to `new ReflectionFunction`, which throws a `TypeError`. That is an `Error`, not an `Exception`, so no `catch` in the analyzer or the AJAX handler stops it and the request fails. The model's `Invocable` is a closure only; it would analyse such an object as a closure instead of failing.
- Byte strings. PHP strings are bytes; the model's strings are sequences of characters compared by code point. That orders UTF-8 text as a byte-wise `strcmp` does, but lengths and `ucwords` on non-ASCII text are not modelled byte by byte.
- Loose `in_array` comparison (numeric strings comparing equal). Every membership test is string equality.
- Array callbacks that are not a `[target, method]` pair, and the `implode` of an array callback with more than two elements.
- The integer keys PHP leaves after `array_unique` and `array_filter`, which change the JSON shape. The model keeps only the order of the values.
- `ajax_get_plugins`, `verify_ajax_request`, `wp_send_json_*` and the `try`/`catch` of the AJAX handlers. These are WordPress transport and the nonce and capability checks.
- `sanitize_text_field`, which is a parameter of `GetSelectedPlugins` and `InspectRoutes`.
- `admin/js/admin.js`, the admin page, the plugin bootstrap and `uninstall.php`. These are UI and WordPress plumbing.
