/** `calculate_risk_level`: the risk of a route from its access level and
    its HTTP methods. */
module Risk {
  import opened Hierarchy

  datatype RiskLevel = High | Medium | Low
  {
    function Name(): string {
      match this
      case High => "high"
      case Medium => "medium"
      case Low => "low"
    }

    /** Position in the order low < medium < high. */
    function Rank(): nat {
      match this
      case Low => 0
      case Medium => 1
      case High => 2
    }
  }

  /** The methods that change state. */
  const MutatingMethods: seq<string> := ["POST", "PUT", "PATCH", "DELETE"]

  /** `!empty(array_intersect($methods, ['POST', 'PUT', 'PATCH', 'DELETE']))`. */
  predicate HasMutatingMethod(methods: seq<string>) {
    exists m :: m in methods && m in MutatingMethods
  }

  /** Public writes are high risk, public reads and non-admin writes are
      medium, everything else (admin routes, protected reads) is low. */
  function CalculateRiskLevel(level: AccessLevel, methods: seq<string>): (risk: RiskLevel)
    ensures risk == High <==> level == Public && HasMutatingMethod(methods)
    ensures level == Public && !HasMutatingMethod(methods) ==> risk == Medium
    ensures level == Admin ==> risk == Low
    ensures level != Public && level != Admin ==>
      (risk == Medium <==> HasMutatingMethod(methods)) && (risk == Low <==> !HasMutatingMethod(methods))
  {
    if level == Public && HasMutatingMethod(methods) then High
    else if level == Public || (level != Admin && HasMutatingMethod(methods)) then Medium
    else Low
  }

  /** For a fixed access level, adding a mutating method never lowers the
      risk. */
  lemma RiskMonotoneInWrites(level: AccessLevel, methods: seq<string>, m: string)
    requires m in MutatingMethods
    ensures CalculateRiskLevel(level, methods).Rank() <= CalculateRiskLevel(level, methods + [m]).Rank()
    ensures HasMutatingMethod(methods + [m])
  {
    assert m in methods + [m];
  }
}
