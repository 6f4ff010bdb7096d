/** `analyze_permission_callback`: what a route's permission callback tells
    about who may call the route. */
module Permission {
  import opened PhpStrings
  import opened PhpArrays
  import opened Hierarchy
  import opened CustomRoles
  import opened Callbacks

  /** The site configuration the analyzer reads: the admin capability list
      after the `sectoolbox_admin_capabilities` filter, and the role table. */
  datatype AnalyzerConfig = AnalyzerConfig(adminCapabilities: seq<string>, roles: seq<RoleEntry>)

  /** The four entries of the analysis array. */
  datatype PermissionAnalysis = PermissionAnalysis(
    accessLevel: AccessLevel,
    capabilities: seq<string>,
    customRoles: seq<string>,
    callbackInfo: string)

  const ReturnTrue: string := "__return_true"
  const NoCallbackInfo: string := "No permission callback"
  const ReturnTrueInfo: string := "Public access (__return_true)"
  const FunctionInfoPrefix: string := "Function: "
  const ComplexInfo: string := "Complex callback (Closure)"

  /** The callback lets anyone in: it is absent or is `'__return_true'`. */
  predicate IsPublicCallback(cb: Callback) {
    cb.NoCallback? || cb == Named(ReturnTrue)
  }

  /** The analysis of a permission callback, branch by branch. */
  function AnalysisOf(cfg: AnalyzerConfig, cb: Callback): (p: PermissionAnalysis)
    ensures p.accessLevel == Public <==> IsPublicCallback(cb)
    ensures p.accessLevel == Unknown <==> cb.Named? && cb.name != ReturnTrue && !Contains(cb.name, "current_user_can")
    ensures |p.capabilities| > 0 ==> cb.Pair? || cb.Invocable?
    ensures NoDuplicates(p.capabilities)
    ensures |p.customRoles| > 0 ==> |p.capabilities| > 0
    ensures |p.capabilities| == 0 ==> p.accessLevel in {Public, Unknown, Custom}
    ensures (cb.Pair? || cb.Invocable?) && |p.capabilities| > 0 ==>
      p.accessLevel in {Admin, Editor, Author, Contributor, Subscriber}
  {
    match cb
    case NoCallback => PermissionAnalysis(Public, [], [], NoCallbackInfo)
    case Named(n) =>
      if n == ReturnTrue then PermissionAnalysis(Public, [], [], ReturnTrueInfo)
      else PermissionAnalysis(if Contains(n, "current_user_can") then Custom else Unknown, [], [], FunctionInfoPrefix + n)
    case Pair(_, _, found) => ScannedAnalysis(cfg, cb, found)
    case Invocable(found) => ScannedAnalysis(cfg, cb, found)
    case Opaque => PermissionAnalysis(Custom, [], [], ComplexInfo)
  }

  /** The branch for arrays and callables: the level, capabilities and
      custom roles come from the capabilities found in the source. */
  function ScannedAnalysis(cfg: AnalyzerConfig, cb: Callback, found: Captures): (p: PermissionAnalysis)
    ensures NoDuplicates(p.capabilities)
    ensures p.callbackInfo == FormatCallback(cb)
    ensures |p.capabilities| == 0 <==> p.accessLevel == Custom
    ensures p.accessLevel in {Admin, Editor, Author, Contributor, Subscriber, Custom}
    ensures |p.customRoles| > 0 ==> |p.capabilities| > 0
  {
    var caps := ExtractCapabilities(found);
    ExtractCapabilitiesSpec(found);
    if |caps| == 0 then PermissionAnalysis(Custom, [], [], FormatCallback(cb))
    else PermissionAnalysis(AccessLevelFor(cfg.adminCapabilities, caps), caps,
                            CustomRolesFor(caps, cfg.roles), FormatCallback(cb))
  }

  /** For an array or callable callback, the reported capabilities are
      exactly those found in its source, the level is ranked from them, and
      the custom roles are the non-standard roles granting one of them. */
  lemma ScannedAnalysisSpec(cfg: AnalyzerConfig, cb: Callback)
    requires cb.Pair? || cb.Invocable?
    ensures forall c :: c in AnalysisOf(cfg, cb).capabilities <==> c in cb.found.currentUserCan || c in cb.found.userCan
    ensures |AnalysisOf(cfg, cb).capabilities| > 0 ==>
      AnalysisOf(cfg, cb).accessLevel == AccessLevelFor(cfg.adminCapabilities, AnalysisOf(cfg, cb).capabilities)
    ensures forall r :: r in AnalysisOf(cfg, cb).customRoles <==>
      IsCustomGrantee(r, AnalysisOf(cfg, cb).capabilities, cfg.roles)
    ensures AnalysisOf(cfg, cb).callbackInfo == FormatCallback(cb)
  {
    var caps := ExtractCapabilities(cb.found);
    ExtractCapabilitiesSpec(cb.found);
    CustomRolesForSpec(caps, cfg.roles);
    CustomRolesForSpec([], cfg.roles);
  }

  /** An absent callback and `'__return_true'` are both public, report no
      capabilities and no custom roles, and are told apart by their info
      text. */
  lemma PublicCallbackAnalysis(cfg: AnalyzerConfig, cb: Callback)
    requires IsPublicCallback(cb)
    ensures AnalysisOf(cfg, cb).accessLevel == Public
    ensures AnalysisOf(cfg, cb).capabilities == [] && AnalysisOf(cfg, cb).customRoles == []
    ensures AnalysisOf(cfg, cb).callbackInfo == if cb.NoCallback? then NoCallbackInfo else ReturnTrueInfo
    ensures AnalysisOf(cfg, NoCallback).callbackInfo != AnalysisOf(cfg, Named(ReturnTrue)).callbackInfo
  {
    assert NoCallbackInfo[0] != ReturnTrueInfo[0];
  }

  /** A function name other than `'__return_true'` is never scanned: no
      capabilities, no custom roles, its name in the info text, and `custom`
      exactly when the name mentions `current_user_can`. */
  lemma NamedCallbackNotScanned(cfg: AnalyzerConfig, cb: Callback)
    requires cb.Named? && cb.name != ReturnTrue
    ensures AnalysisOf(cfg, cb).capabilities == [] && AnalysisOf(cfg, cb).customRoles == []
    ensures AnalysisOf(cfg, cb).callbackInfo == FunctionInfoPrefix + cb.name
    ensures AnalysisOf(cfg, cb).accessLevel == Custom <==> Contains(cb.name, "current_user_can")
    ensures AnalysisOf(cfg, cb).accessLevel in {Custom, Unknown}
  {
  }

  /** A callback whose source calls `current_user_can` or `user_can` with an
      admin capability is reported as `admin`, whatever else it checks. */
  lemma AdminCapabilityMeansAdmin(cfg: AnalyzerConfig, cb: Callback, c: string)
    requires cb.Pair? || cb.Invocable?
    requires (c in cb.found.currentUserCan || c in cb.found.userCan) && c in cfg.adminCapabilities
    ensures AnalysisOf(cfg, cb).accessLevel == Admin
  {
    ExtractCapabilitiesSpec(cb.found);
    assert c in ExtractCapabilities(cb.found);
  }

  /** `analyze_permission_callback`, calling the two loop-based helpers. */
  method AnalyzePermissionCallback(cfg: AnalyzerConfig, cb: Callback) returns (p: PermissionAnalysis)
    ensures p == AnalysisOf(cfg, cb)
  {
    p := PermissionAnalysis(Unknown, [], [], "");
    if IsPublicCallback(cb) {
      p := p.(accessLevel := Public, callbackInfo := if cb.NoCallback? then NoCallbackInfo else ReturnTrueInfo);
      return;
    }
    if cb.Named? {
      p := p.(callbackInfo := FunctionInfoPrefix + cb.name);
      if Contains(cb.name, "current_user_can") {
        p := p.(accessLevel := Custom);
      }
      return;
    }
    if cb.Pair? || cb.Invocable? {
      p := p.(callbackInfo := FormatCallback(cb));
      var caps := ExtractCapabilities(cb.found);
      if |caps| > 0 {
        var level := DetermineAccessLevel(cfg.adminCapabilities, caps);
        p := p.(capabilities := caps, accessLevel := level);
        var custom := FindCustomRolesForCapabilities(caps, cfg.roles);
        if |custom| > 0 {
          p := p.(customRoles := custom);
        }
      } else {
        p := p.(accessLevel := Custom);
      }
      return;
    }
    p := p.(callbackInfo := ComplexInfo, accessLevel := Custom);
  }
}
