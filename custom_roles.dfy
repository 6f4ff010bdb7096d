/** `find_custom_roles_for_capabilities`: the non-built-in roles that grant
    one of the capabilities found in a permission callback. The role table
    (`wp_roles()->roles`) is an input. */
module CustomRoles {
  import opened PhpArrays

  /** One role of the role table: its name and its capability map, whose
      values are reduced to their PHP truthiness. A role without a
      `capabilities` entry has the empty map. */
  datatype RoleEntry = RoleEntry(name: string, capabilities: map<string, bool>)

  /** The five roles WordPress ships with. */
  const StandardRoles: seq<string> := ["administrator", "editor", "author", "contributor", "subscriber"]

  /** `isset($caps[$cap]) && $caps[$cap]`. */
  predicate Grants(role: RoleEntry, cap: string) {
    cap in role.capabilities && role.capabilities[cap]
  }

  /** The role names the inner loop appends for one capability, in table
      order. */
  function HitsForCapability(cap: string, roles: seq<RoleEntry>): seq<string>
    decreases |roles|
  {
    if |roles| == 0 then []
    else
      var last := roles[|roles| - 1];
      HitsForCapability(cap, roles[..|roles| - 1]) +
        (if last.name !in StandardRoles && Grants(last, cap) then [last.name] else [])
  }

  /** Everything the two nested loops append, before `array_unique`. */
  function RoleHits(caps: seq<string>, roles: seq<RoleEntry>): seq<string>
    decreases |caps|
  {
    if |caps| == 0 then []
    else RoleHits(caps[..|caps| - 1], roles) + HitsForCapability(caps[|caps| - 1], roles)
  }

  /** `name` is a non-standard role of the table that grants one of `caps`. */
  ghost predicate IsCustomGrantee(name: string, caps: seq<string>, roles: seq<RoleEntry>) {
    name !in StandardRoles &&
    exists i, c :: 0 <= i < |roles| && roles[i].name == name && c in caps && Grants(roles[i], c)
  }

  lemma {:induction false} HitsForCapabilityMembers(cap: string, roles: seq<RoleEntry>, name: string)
    ensures name in HitsForCapability(cap, roles) <==>
      name !in StandardRoles && exists i :: 0 <= i < |roles| && roles[i].name == name && Grants(roles[i], cap)
    decreases |roles|
  {
    if |roles| > 0 {
      var init := roles[..|roles| - 1];
      HitsForCapabilityMembers(cap, init, name);
      if exists i :: 0 <= i < |roles| && roles[i].name == name && Grants(roles[i], cap) {
        var i :| 0 <= i < |roles| && roles[i].name == name && Grants(roles[i], cap);
        if i < |roles| - 1 {
          assert init[i] == roles[i];
        }
      }
      if name in HitsForCapability(cap, init) {
        var i :| 0 <= i < |init| && init[i].name == name && Grants(init[i], cap);
        assert roles[i] == init[i];
      }
    }
  }

  /** The roles appended are exactly the custom grantees. */
  lemma {:induction false} RoleHitsMembers(caps: seq<string>, roles: seq<RoleEntry>, name: string)
    ensures name in RoleHits(caps, roles) <==> IsCustomGrantee(name, caps, roles)
    decreases |caps|
  {
    if |caps| > 0 {
      var init := caps[..|caps| - 1];
      var last := caps[|caps| - 1];
      RoleHitsMembers(init, roles, name);
      HitsForCapabilityMembers(last, roles, name);
      assert RoleHits(caps, roles) == RoleHits(init, roles) + HitsForCapability(last, roles);
      if IsCustomGrantee(name, caps, roles) {
        var i, c :| 0 <= i < |roles| && roles[i].name == name && c in caps && Grants(roles[i], c);
        if c != last {
          assert c in init;
          assert IsCustomGrantee(name, init, roles);
        } else {
          assert name in HitsForCapability(last, roles);
        }
      }
      if name in HitsForCapability(last, roles) {
        var i :| 0 <= i < |roles| && roles[i].name == name && Grants(roles[i], last);
        assert last in caps;
      }
      if IsCustomGrantee(name, init, roles) {
        var i, c :| 0 <= i < |roles| && roles[i].name == name && c in init && Grants(roles[i], c);
        assert c in caps;
      }
    }
  }

  /** The deduplicated result `find_custom_roles_for_capabilities` returns. */
  function CustomRolesFor(caps: seq<string>, roles: seq<RoleEntry>): seq<string> {
    Dedup(RoleHits(caps, roles))
  }

  /** The custom roles: no built-in role, no repetition, and exactly the
      table's non-standard roles that grant a found capability (so none at
      all when no capability was found). */
  lemma CustomRolesForSpec(caps: seq<string>, roles: seq<RoleEntry>)
    ensures NoDuplicates(CustomRolesFor(caps, roles))
    ensures forall name :: name in CustomRolesFor(caps, roles) <==> IsCustomGrantee(name, caps, roles)
    ensures forall name :: name in CustomRolesFor(caps, roles) ==> name !in StandardRoles
    ensures |caps| == 0 ==> CustomRolesFor(caps, roles) == []
  {
    forall name
      ensures name in CustomRolesFor(caps, roles) <==> IsCustomGrantee(name, caps, roles)
    {
      RoleHitsMembers(caps, roles, name);
    }
  }

  /** `find_custom_roles_for_capabilities`: for every capability, every
      role outside the standard five that grants it is appended; the list is
      then deduplicated. */
  method FindCustomRolesForCapabilities(caps: seq<string>, roles: seq<RoleEntry>) returns (custom: seq<string>)
    ensures custom == CustomRolesFor(caps, roles)
    ensures NoDuplicates(custom)
    ensures forall name :: name in custom <==> IsCustomGrantee(name, caps, roles)
    ensures |caps| == 0 ==> custom == []
  {
    var hits: seq<string> := [];
    for i := 0 to |caps|
      invariant hits == RoleHits(caps[..i], roles)
    {
      for j := 0 to |roles|
        invariant hits == RoleHits(caps[..i], roles) + HitsForCapability(caps[i], roles[..j])
      {
        assert roles[..j + 1][..j] == roles[..j];
        if roles[j].name in StandardRoles {
          continue;
        }
        if Grants(roles[j], caps[i]) {
          hits := hits + [roles[j].name];
        }
      }
      assert roles[..|roles|] == roles;
      assert caps[..i + 1][..i] == caps[..i];
    }
    assert caps[..|caps|] == caps;
    custom := Dedup(hits);
    CustomRolesForSpec(caps, roles);
  }
}
