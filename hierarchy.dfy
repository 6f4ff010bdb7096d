/** The capability hierarchy of the route analyzer and the ranking of the
    capabilities found in a permission callback into an access level
    (`determine_access_level`, `compare_role_hierarchy`). */
module Hierarchy {

  /** The access levels the analyzer reports, with the strings it uses for
      them. */
  datatype AccessLevel = Public | Admin | Editor | Author | Contributor | Subscriber | Custom | Unknown
  {
    function Name(): string {
      match this
      case Public => "public"
      case Admin => "admin"
      case Editor => "editor"
      case Author => "author"
      case Contributor => "contributor"
      case Subscriber => "subscriber"
      case Custom => "custom"
      case Unknown => "unknown"
    }
  }

  /** Distinct levels have distinct strings, so a level can be recognised
      by its string. */
  lemma NameInjective(l1: AccessLevel, l2: AccessLevel)
    ensures l1.Name() == l2.Name() <==> l1 == l2
  {
  }

  /** The admin capability list the analyzer starts from; the
      `sectoolbox_admin_capabilities` filter may replace it, so every
      function below takes the list in force as a parameter. */
  const DefaultAdminCapabilities: seq<string> := [
    "manage_options", "install_plugins", "activate_plugins", "edit_plugins",
    "delete_plugins", "update_plugins", "manage_categories", "manage_links",
    "upload_files", "import", "unfiltered_html", "edit_themes",
    "install_themes", "update_themes", "delete_themes", "edit_users",
    "list_users", "remove_users", "add_users", "create_users",
    "delete_users", "promote_users"
  ]

  /** The four ranked tiers, lowest first, with the capabilities each lists. */
  const RoleHierarchy: seq<(AccessLevel, seq<string>)> := [
    (Subscriber, ["read"]),
    (Contributor, ["read", "edit_posts", "delete_posts"]),
    (Author, ["read", "edit_posts", "delete_posts", "publish_posts", "upload_files"]),
    (Editor, [
      "read", "edit_posts", "delete_posts", "publish_posts", "upload_files",
      "edit_others_posts", "delete_others_posts", "edit_published_posts",
      "delete_published_posts", "edit_pages", "delete_pages", "publish_pages",
      "edit_others_pages", "delete_others_pages", "edit_published_pages",
      "delete_published_pages", "moderate_comments"])
  ]

  /** Number of ranked tiers; rank `TierCount` stands for `admin`. */
  const TierCount: nat := 4

  /** The level of rank `k`: the tiers in order, then `admin`. */
  function TierLevel(k: nat): AccessLevel
    requires k <= TierCount
  {
    if k < TierCount then RoleHierarchy[k].0 else Admin
  }

  function TierCaps(k: nat): seq<string>
    requires k < TierCount
  {
    RoleHierarchy[k].1
  }

  /** The rank table of `compare_role_hierarchy`; any other name ranks as
      `admin`. */
  function RoleRank(role: string): nat {
    if role == "subscriber" then 0
    else if role == "contributor" then 1
    else if role == "author" then 2
    else if role == "editor" then 3
    else 4
  }

  /** `compare_role_hierarchy($role1, $role2)`: negative when `role1` is the
      lower tier. */
  function CompareRoleHierarchy(role1: string, role2: string): int {
    RoleRank(role1) - RoleRank(role2)
  }

  /** The comparison orders the tier levels by their rank, and ranks a name
      outside the table together with `admin`. */
  lemma CompareRoleHierarchyOrdersTiers(k1: nat, k2: nat, other: string)
    requires k1 <= TierCount && k2 <= TierCount
    requires other !in ["subscriber", "contributor", "author", "editor"]
    ensures CompareRoleHierarchy(TierLevel(k1).Name(), TierLevel(k2).Name()) < 0 <==> k1 < k2
    ensures CompareRoleHierarchy(other, Admin.Name()) == 0
  {
    RankOfTier(k1);
    RankOfTier(k2);
  }

  lemma RankOfTier(k: nat)
    requires k <= TierCount
    ensures RoleRank(TierLevel(k).Name()) == k
  {
  }

  /** Some capability of `caps` is listed by tier `k`. */
  predicate TierMatches(caps: seq<string>, k: nat)
    requires k < TierCount
  {
    exists c :: c in caps && c in TierCaps(k)
  }

  /** The lowest tier at or above `k` that lists some capability of `caps`,
      or `TierCount` when none does. */
  function LowestTierFrom(caps: seq<string>, k: nat): nat
    requires k <= TierCount
    decreases TierCount - k
  {
    if k == TierCount then TierCount
    else if TierMatches(caps, k) then k
    else LowestTierFrom(caps, k + 1)
  }

  lemma {:induction false} LowestTierFromSpec(caps: seq<string>, k: nat)
    requires k <= TierCount
    ensures k <= LowestTierFrom(caps, k) <= TierCount
    ensures LowestTierFrom(caps, k) < TierCount ==> TierMatches(caps, LowestTierFrom(caps, k))
    ensures forall t :: k <= t < LowestTierFrom(caps, k) ==> !TierMatches(caps, t)
    decreases TierCount - k
  {
    if k < TierCount && !TierMatches(caps, k) {
      LowestTierFromSpec(caps, k + 1);
    }
  }

  /** The lowest tier of `caps + [c]` is the lower of the two. */
  lemma {:induction false} LowestTierAppend(caps: seq<string>, c: string, k: nat)
    requires k <= TierCount
    ensures LowestTierFrom(caps + [c], k) == Min(LowestTierFrom(caps, k), LowestTierFrom([c], k))
    decreases TierCount - k
  {
    if k < TierCount {
      assert TierMatches(caps + [c], k) <==> TierMatches(caps, k) || TierMatches([c], k) by {
        if TierMatches(caps + [c], k) {
          var d :| d in caps + [c] && d in TierCaps(k);
          assert d in caps || d in [c];
        }
      }
      LowestTierFromSpec(caps, k);
      LowestTierFromSpec([c], k);
      if !TierMatches(caps + [c], k) {
        LowestTierAppend(caps, c, k + 1);
      }
    }
  }

  function Min(a: nat, b: nat): nat {
    if a <= b then a else b
  }

  /** Some capability of `caps` is in the admin list. */
  predicate HasAdminCapability(adminCaps: seq<string>, caps: seq<string>) {
    exists c :: c in caps && c in adminCaps
  }

  /** The access level the capabilities found in a callback imply: none
      found gives `unknown`; any admin capability gives `admin`; otherwise
      the lowest tier listing one of them, and `admin` when no tier lists
      any of them. */
  function AccessLevelFor(adminCaps: seq<string>, caps: seq<string>): (level: AccessLevel)
    ensures level == Unknown <==> |caps| == 0
    ensures |caps| > 0 && HasAdminCapability(adminCaps, caps) ==> level == Admin
    ensures level in {Admin, Editor, Author, Contributor, Subscriber, Unknown}
  {
    if |caps| == 0 then Unknown
    else if HasAdminCapability(adminCaps, caps) then Admin
    else TierLevel(LowestTierFrom(caps, 0))
  }

  /** Without an admin capability, the level is tier `k` exactly when tier
      `k` lists one of the capabilities and no lower tier lists any. */
  lemma AccessLevelIsLowestMatchingTier(adminCaps: seq<string>, caps: seq<string>, k: nat)
    requires |caps| > 0 && !HasAdminCapability(adminCaps, caps)
    requires k < TierCount
    ensures AccessLevelFor(adminCaps, caps) == TierLevel(k) <==>
      TierMatches(caps, k) && forall t :: 0 <= t < k ==> !TierMatches(caps, t)
  {
    LowestTierFromSpec(caps, 0);
    var low := LowestTierFrom(caps, 0);
    if TierMatches(caps, k) && forall t :: 0 <= t < k ==> !TierMatches(caps, t) {
      assert low == k;
    }
    if AccessLevelFor(adminCaps, caps) == TierLevel(k) {
      assert low == k by { RankOfTier(low); RankOfTier(k); }
    }
  }

  /** Without an admin capability, the level falls back to `admin` exactly
      when no tier lists any of the capabilities. */
  lemma AccessLevelAdminFallback(adminCaps: seq<string>, caps: seq<string>)
    requires |caps| > 0 && !HasAdminCapability(adminCaps, caps)
    ensures AccessLevelFor(adminCaps, caps) == Admin <==> forall t :: 0 <= t < TierCount ==> !TierMatches(caps, t)
  {
    LowestTierFromSpec(caps, 0);
    var low := LowestTierFrom(caps, 0);
    if AccessLevelFor(adminCaps, caps) == Admin {
      assert low == TierCount by { RankOfTier(low); }
    }
  }

  /** The level depends only on which capabilities were found, not on their
      order or repetition. */
  lemma AccessLevelIgnoresOrder(adminCaps: seq<string>, caps1: seq<string>, caps2: seq<string>)
    requires forall c :: c in caps1 <==> c in caps2
    ensures AccessLevelFor(adminCaps, caps1) == AccessLevelFor(adminCaps, caps2)
  {
    if |caps1| > 0 {
      assert caps1[0] in caps2;
    }
    if |caps2| > 0 {
      assert caps2[0] in caps1;
    }
    LowestTierSameMembers(caps1, caps2, 0);
  }

  lemma {:induction false} LowestTierSameMembers(caps1: seq<string>, caps2: seq<string>, k: nat)
    requires forall c :: c in caps1 <==> c in caps2
    requires k <= TierCount
    ensures LowestTierFrom(caps1, k) == LowestTierFrom(caps2, k)
    decreases TierCount - k
  {
    if k < TierCount {
      assert TierMatches(caps1, k) <==> TierMatches(caps2, k);
      LowestTierSameMembers(caps1, caps2, k + 1);
    }
  }

  /** `upload_files` is both in the default admin list and in the author
      tier; the admin list wins, whatever else was found. */
  lemma UploadFilesIsAdmin(caps: seq<string>)
    requires "upload_files" in caps
    ensures "upload_files" in TierCaps(2) && TierLevel(2) == Author
    ensures AccessLevelFor(DefaultAdminCapabilities, caps) == Admin
  {
    assert "upload_files" in DefaultAdminCapabilities;
  }

  /** The inner loop of `determine_access_level` for one capability: every
      tier listing `cap` that ranks below the current minimum replaces it. */
  method ScanTiers(cap: string, ghost low: nat, minRole: AccessLevel) returns (r: AccessLevel)
    requires low <= TierCount && minRole == TierLevel(low)
    ensures r == TierLevel(Min(low, LowestTierFrom([cap], 0)))
  {
    ghost var first := LowestTierFrom([cap], 0);
    LowestTierFromSpec([cap], 0);
    r := minRole;
    for j := 0 to |RoleHierarchy|
      invariant r == TierLevel(Min(low, if first < j then first else TierCount))
    {
      var (role, roleCaps) := RoleHierarchy[j];
      ghost var cur := Min(low, if first < j then first else TierCount);
      RankOfTier(cur);
      RankOfTier(j);
      assert roleCaps == TierCaps(j) && role == TierLevel(j);
      if cap in roleCaps {
        assert cap in [cap];
        assert TierMatches([cap], j);
      }
      if cap in roleCaps && CompareRoleHierarchy(role.Name(), r.Name()) < 0 {
        r := role;
      }
    }
  }

  /** `determine_access_level`: the admin check, then a scan of every
      capability against every tier, keeping the lowest tier seen. */
  method DetermineAccessLevel(adminCaps: seq<string>, caps: seq<string>) returns (level: AccessLevel)
    ensures level == AccessLevelFor(adminCaps, caps)
  {
    if |caps| == 0 {
      return Unknown;
    }
    if exists c :: c in caps && c in adminCaps {
      return Admin;
    }
    var minRole := Admin;
    for i := 0 to |caps|
      invariant minRole == TierLevel(LowestTierFrom(caps[..i], 0))
    {
      LowestTierFromSpec(caps[..i], 0);
      minRole := ScanTiers(caps[i], LowestTierFrom(caps[..i], 0), minRole);
      LowestTierAppend(caps[..i], caps[i], 0);
      assert caps[..i + 1] == caps[..i] + [caps[i]];
    }
    assert caps[..|caps|] == caps;
    return minRole;
  }
}
