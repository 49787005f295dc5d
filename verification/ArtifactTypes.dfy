/** The control artifact as a document: the entities that are values. */
module ArtifactTypes {
  import opened Options
  import opened SetText

  /** How a rule parameter's values are ordered by strictness. */
  datatype ParamOrder = Min | Max | Exact | SetUnion | SetIntersect | Unknown
  {
    /** The value is a list of members rather than a scalar. */
    predicate IsSet()
    {
      SetUnion? || SetIntersect?
    }

    predicate IsNumeric()
    {
      Min? || Max?
    }
  }

  /** The order that an order's text names. */
  function OrderOf(text: string): ParamOrder
  {
    if text == "min" then Min
    else if text == "max" then Max
    else if text == "exact" then Exact
    else if text == "set-union" then SetUnion
    else if text == "set-intersect" then SetIntersect
    else Unknown
  }

  /** A known order has one spelling. */
  lemma KnownOrder(a: string, b: string)
    requires OrderOf(a) == OrderOf(b) && !OrderOf(a).Unknown?
    ensures a == b
  {
  }

  const DEFAULT_SET_SEPARATOR := ","

  datatype RuleParameter = RuleParameter(value: string, order: string, setSeparator: string) {
    function Separator(): (sep: string)
      ensures sep != ""
    {
      if setSeparator != "" then setSeparator else DEFAULT_SET_SEPARATOR
    }

    function Order(): ParamOrder
    {
      OrderOf(order)
    }

    /** The members of a set-valued parameter; a scalar has none. */
    function Members(): seq<string>
    {
      if Order().IsSet() then MembersOf(value, Separator()) else []
    }
  }

  datatype ConfigRule = ConfigRule(
    identifier: string,
    name: string,
    provenance: string,
    rationale: string,
    parameters: map<string, RuleParameter>,
    resourceTypes: seq<string>)

  /** One hole in a Deny, with the reason it exists. */
  datatype ExemptPrincipal = ExemptPrincipal(principal: string, reason: string)

  /** Operator, then condition key, then values. */
  type Condition = map<string, map<string, seq<string>>>

  datatype Statement = Statement(
    sid: string,
    effect: string,
    action: seq<string>,
    resource: seq<string>,
    condition: Condition,
    exemptPrincipals: seq<ExemptPrincipal>)

  /** A list that may be absent altogether, where that differs from being empty. */
  type Nilable<T> = Option<seq<T>>

  function Items<T>(list: Nilable<T>): seq<T>
  {
    if list.Some? then list.value else []
  }

  datatype SCP = SCP(
    statements: Nilable<Statement>,
    regionAllowlist: seq<string>,
    serviceAllowlist: seq<string>)
  {
    /** The block carries nothing at all. */
    predicate IsEmpty()
    {
      Items(statements) == [] && regionAllowlist == [] && serviceAllowlist == []
    }
  }

  datatype Attestation = Attestation(template: string, frequency: string, guidance: string)

  datatype Control = Control(
    id: string,
    title: string,
    statement: string,
    crosswalk: map<string, string>,
    enforcement: seq<string>,
    scp: Option<SCP>,
    configRules: seq<ConfigRule>,
    attestation: Option<Attestation>)
}
