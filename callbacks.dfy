/** The shapes a permission callback (or a route's main callback) can take,
    `format_callback`, and the post-processing of the capabilities that
    `extract_capabilities_from_callback` finds. */
module Callbacks {
  import opened PhpArrays
  import opened PhpStrings

  /** The first element of an array callback: an object (known by its
      class) or a class name. */
  datatype Target = Instance(className: string) | ClassName(name: string)

  /** What the two `preg_match_all` patterns capture in the callback's source
      text, in match order: `current_user_can('cap')` and
      `user_can($user, 'cap')`. Both are empty when the callback is not
      callable, its file or line range cannot be read, or reflection throws
      an `Exception`. */
  datatype Captures = Captures(currentUserCan: seq<string>, userCan: seq<string>)

  /** A callback value, by the tests the analyzer applies to it:
      - `NoCallback`: `null`, or the key is absent;
      - `Named`: a string (a function name, possibly `'__return_true'`);
      - `Pair`: an array `[target, method]`;
      - `Invocable`: a closure (an invokable object of another class makes
        `new ReflectionFunction` throw a `TypeError` that nothing catches,
        and is not part of this model);
      - `Opaque`: any other value (not a string, array or callable).
      A pair or an invocable value carries what scanning its source finds. */
  datatype Callback =
    | NoCallback
    | Named(name: string)
    | Pair(target: Target, methodName: string, found: Captures)
    | Invocable(found: Captures)
    | Opaque

  const ClosureLabel: string := "Closure/Anonymous function"

  /** `format_callback`: `Class::method` for a pair (whether the target is an
      object or a class name), the string itself for a name, and a fixed
      label for anything else. */
  function FormatCallback(cb: Callback): (text: string)
    ensures cb.Pair? && cb.target.Instance? ==> text == cb.target.className + "::" + cb.methodName
    ensures cb.Pair? && cb.target.ClassName? ==> text == cb.target.name + "::" + cb.methodName
    ensures cb.Named? ==> text == cb.name
    ensures !cb.Pair? && !cb.Named? ==> text == ClosureLabel
  {
    match cb
    case Pair(Instance(cls), m, _) => cls + "::" + m
    case Pair(ClassName(n), m, _) => n + "::" + m
    case Named(n) => n
    case _ => ClosureLabel
  }

  /** The label depends only on what the callback names: the captures of its
      source play no part, an object and a class name of the same class give
      the same label, and every value that names nothing gets one label. */
  lemma FormatCallbackIgnoresCaptures(t: Target, m: string, f1: Captures, f2: Captures)
    ensures FormatCallback(Pair(t, m, f1)) == FormatCallback(Pair(t, m, f2))
    ensures FormatCallback(Pair(Instance(ClassOf(t)), m, f1)) == FormatCallback(Pair(ClassName(ClassOf(t)), m, f2))
    ensures FormatCallback(Invocable(f1)) == FormatCallback(Invocable(f2))
      == FormatCallback(NoCallback) == FormatCallback(Opaque)
  {
  }

  /** The class a pair's target names. */
  function ClassOf(t: Target): string {
    match t
    case Instance(cls) => cls
    case ClassName(n) => n
  }

  /** The label of a pair reads as the class, `::` and the method, in that
      order. */
  lemma PairLabel(t: Target, m: string, f: Captures)
    ensures var text := FormatCallback(Pair(t, m, f));
      |text| == |ClassOf(t)| + 2 + |m| &&
      text[..|ClassOf(t)|] == ClassOf(t) &&
      OccursAt(text, "::", |ClassOf(t)|) &&
      text[|ClassOf(t)| + 2..] == m
  {
    var text := FormatCallback(Pair(t, m, f));
    assert text == ClassOf(t) + "::" + m;
  }

  /** A pair's label contains `::`, which the closure label does not, so a
      pair is never labelled as a closure. */
  lemma PairNotClosureLabel(t: Target, m: string, f: Captures)
    ensures Contains(FormatCallback(Pair(t, m, f)), "::")
    ensures FormatCallback(Pair(t, m, f)) != ClosureLabel
  {
    var text := FormatCallback(Pair(t, m, f));
    var n := |ClassOf(t)|;
    PairLabel(t, m, f);
    ContainsIff(text, "::");
    ClosureLabelHasNoColon();
    assert text[n] == ':';
    assert text[n] in text;
  }

  lemma ClosureLabelHasNoColon()
    ensures ':' !in ClosureLabel
  {
  }

  /** The capability list: the `current_user_can` captures, then the
      `user_can` captures, with repetitions removed (`array_unique`). */
  function ExtractCapabilities(found: Captures): seq<string> {
    Dedup(found.currentUserCan + found.userCan)
  }

  /** Every capture appears once, nothing else appears, and the
      `current_user_can` captures keep their places at the front. */
  lemma ExtractCapabilitiesSpec(found: Captures)
    ensures NoDuplicates(ExtractCapabilities(found))
    ensures forall c :: c in ExtractCapabilities(found) <==> c in found.currentUserCan || c in found.userCan
    ensures Dedup(found.currentUserCan) <= ExtractCapabilities(found)
  {
    DedupPrefix(found.currentUserCan, found.userCan);
  }
}
