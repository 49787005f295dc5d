/** The hashed content as JSON, field by field: what each is called, what it holds, and when it is left out. */
module ContentFields {
  import opened Options
  import opened Lists
  import opened ArtifactTypes
  import opened CanonicalJson
  import opened ContentEncoding

  /** The object has the field with this value, or not at all. */
  predicate Has(v: Value, name: string, field: Option<Value>)
  {
    v.Object? && if field.Some? then name in v.members && v.members[name] == field.value else name !in v.members
  }

  /** The object has no other fields than these. */
  predicate Only(v: Value, names: set<string>)
  {
    v.Object? && v.members.Keys <= names
  }

  /** Left out when empty. */
  function Unless(empty: bool, v: Value): Option<Value>
  {
    if empty then None else Some(v)
  }

  /** A list of texts in order; a list that is empty is written as null where it is written at all. */
  predicate ListOf(v: Value, list: seq<string>)
  {
    if list == [] then v == Null
    else v.Array? && |v.items| == |list| && forall i | 0 <= i < |list| :: v.items[i] == Value.Text(list[i])
  }

  predicate HasList(v: Value, name: string, list: seq<string>)
  {
    v.Object? && name in v.members && ListOf(v.members[name], list)
  }

  predicate HasListUnlessEmpty(v: Value, name: string, list: seq<string>)
  {
    if list == [] then Has(v, name, None) else HasList(v, name, list)
  }

  lemma {:induction false} EachField(fields: seq<Field>)
    requires DistinctNames(fields)
    ensures forall i | 0 <= i < |fields| :: Has(Object(FieldMap(fields)), fields[i].0, fields[i].1)
    ensures forall k | k in FieldMap(fields) :: exists j :: 0 <= j < |fields| && fields[j].0 == k
  {
    OnlyFields(fields);
    forall i | 0 <= i < |fields|
      ensures Has(Object(FieldMap(fields)), fields[i].0, fields[i].1)
    {
      FieldLookup(fields, i);
    }
  }

  lemma TextsRead(list: seq<string>)
    ensures ListOf(Texts(list), list)
  {
  }

  /** A field that holds a list, always or unless it is empty. */
  lemma ListReads(v: Value, name: string, list: seq<string>)
    requires Has(v, name, Some(Texts(list))) || Has(v, name, if list == [] then None else Some(Texts(list)))
    ensures Has(v, name, Some(Texts(list))) ==> HasList(v, name, list)
    ensures Has(v, name, if list == [] then None else Some(Texts(list))) ==> HasListUnlessEmpty(v, name, list)
  {
    TextsRead(list);
    hide Texts, ListOf;
  }

  lemma ParameterReads(p: RuleParameter)
    ensures var v := ParameterJson(p);
            && Has(v, "value", Some(Value.Text(p.value))) && Has(v, "order", Some(Value.Text(p.order)))
            && Has(v, "set_separator", Unless(p.setSeparator == "", Value.Text(p.setSeparator)))
            && Only(v, {"value", "order", "set_separator"})
  {
    var fields := ParameterFields(p);
    EachField(fields);
    hide FieldMap;
    assert fields[0].0 == "value" && fields[1].0 == "order" && fields[2].0 == "set_separator";
  }

  lemma RuleReads(r: ConfigRule)
    ensures var v := RuleJson(r);
            && Has(v, "identifier", Some(Value.Text(r.identifier)))
            && Has(v, "name", Unless(r.name == "", Value.Text(r.name)))
            && Has(v, "provenance", Some(Value.Text(r.provenance)))
            && Has(v, "rationale", Unless(r.rationale == "", Value.Text(r.rationale)))
            && Has(v, "parameters", Unless(r.parameters == map[],
                                           Object(map k | k in r.parameters :: ParameterJson(r.parameters[k]))))
            && HasListUnlessEmpty(v, "resource_types", r.resourceTypes)
            && Only(v, {"identifier", "name", "provenance", "rationale", "parameters", "resource_types"})
  {
    var fields := RuleFields(r);
    assert ParametersJson(r.parameters).Keys == r.parameters.Keys;
    EachField(fields);
    hide FieldMap, Texts, ListOf, HasListUnlessEmpty, ParameterJson, Has;
    assert fields[0].0 == "identifier" && fields[1].0 == "name" && fields[2].0 == "provenance";
    assert fields[3].0 == "rationale" && fields[4].0 == "parameters" && fields[5].0 == "resource_types";
    ListReads(RuleJson(r), "resource_types", r.resourceTypes);
  }

  lemma ExemptReads(e: ExemptPrincipal)
    ensures var v := ExemptJson(e);
            && Has(v, "principal", Some(Value.Text(e.principal))) && Has(v, "reason", Some(Value.Text(e.reason)))
            && Only(v, {"principal", "reason"})
  {
    var fields := ExemptFields(e);
    EachField(fields);
    hide FieldMap;
    assert fields[0].0 == "principal" && fields[1].0 == "reason";
  }

  /** A condition is an object of operators, each an object of keys, each a list of values. */
  lemma ConditionReads(c: Condition)
    ensures var m := ConditionJson(c);
            && m.Keys == c.Keys
            && forall op | op in c ::
                 m[op].Object? && m[op].members.Keys == c[op].Keys
                 && forall k | k in c[op] :: ListOf(m[op].members[k], c[op][k])
  {
    hide Texts, ListOf;
    forall list: seq<string>
      ensures ListOf(Texts(list), list)
    {
      TextsRead(list);
    }
  }

  lemma StatementReads(s: Statement)
    ensures var v := StatementJson(s);
            && Has(v, "sid", Some(Value.Text(s.sid))) && Has(v, "effect", Some(Value.Text(s.effect)))
            && HasList(v, "action", s.action) && HasListUnlessEmpty(v, "resource", s.resource)
            && Has(v, "condition", Unless(s.condition == map[], Object(ConditionJson(s.condition))))
            && Has(v, "exempt_principals", Unless(s.exemptPrincipals == [], Array(Map(ExemptJson, s.exemptPrincipals))))
            && Only(v, {"sid", "effect", "action", "resource", "condition", "exempt_principals"})
  {
    var fields := StatementFields(s);
    assert ConditionJson(s.condition).Keys == s.condition.Keys;
    EachField(fields);
    hide FieldMap, Texts, ListOf, HasList, HasListUnlessEmpty, ExemptJson, ConditionJson, Map, Has;
    assert fields[0].0 == "sid" && fields[1].0 == "effect" && fields[2].0 == "action" && fields[3].0 == "resource";
    assert fields[4].0 == "condition" && fields[5].0 == "exempt_principals";
    ListReads(StatementJson(s), "action", s.action);
    ListReads(StatementJson(s), "resource", s.resource);
  }

  /** A statement list that is absent is null, and one that is empty is an empty array. */
  lemma SCPReads(s: SCP)
    ensures var v := SCPJson(s);
            && Has(v, "statements", Some(if s.statements.None? then Null
                                         else Array(Map(StatementJson, s.statements.value))))
            && HasListUnlessEmpty(v, "region_allowlist", s.regionAllowlist)
            && HasListUnlessEmpty(v, "service_allowlist", s.serviceAllowlist)
            && Only(v, {"statements", "region_allowlist", "service_allowlist"})
  {
    var fields := SCPFields(s);
    TextsRead(s.regionAllowlist);
    TextsRead(s.serviceAllowlist);
    hide Texts, ListOf, StatementJson;
    EachField(fields);
    hide FieldMap;
    assert fields[0].0 == "statements" && fields[1].0 == "region_allowlist" && fields[2].0 == "service_allowlist";
  }

  lemma AttestationReads(a: Attestation)
    ensures var v := AttestationJson(a);
            && Has(v, "template", Some(Value.Text(a.template))) && Has(v, "frequency", Some(Value.Text(a.frequency)))
            && Has(v, "guidance", Unless(a.guidance == "", Value.Text(a.guidance)))
            && Only(v, {"template", "frequency", "guidance"})
  {
    var fields := AttestationFields(a);
    EachField(fields);
    hide FieldMap;
    assert fields[0].0 == "template" && fields[1].0 == "frequency" && fields[2].0 == "guidance";
  }

  lemma ControlReads(c: Control)
    ensures var v := ControlJson(c);
            && Has(v, "id", Some(Value.Text(c.id))) && Has(v, "title", Some(Value.Text(c.title)))
            && Has(v, "statement", Unless(c.statement == "", Value.Text(c.statement)))
            && Has(v, "crosswalk", Unless(c.crosswalk == map[],
                                          Object(map k | k in c.crosswalk :: Value.Text(c.crosswalk[k]))))
            && HasList(v, "enforcement", c.enforcement)
            && Has(v, "scp", if c.scp.None? then None else Some(SCPJson(c.scp.value)))
            && Has(v, "config_rules", Unless(c.configRules == [], Array(Map(RuleJson, c.configRules))))
            && Has(v, "attestation", if c.attestation.None? then None else Some(AttestationJson(c.attestation.value)))
            && Only(v, {"id", "title", "statement", "crosswalk", "enforcement", "scp", "config_rules", "attestation"})
  {
    var fields := ControlFields(c);
    assert CrosswalkJson(c.crosswalk).Keys == c.crosswalk.Keys;
    hide FieldMap, Texts, ListOf, HasList, SCPJson, RuleJson, AttestationJson, Map, Has, DistinctNames;
    ControlFieldNames(c, c);
    EachField(fields);
    assert fields[0].0 == "id" && fields[1].0 == "title" && fields[2].0 == "statement" && fields[3].0 == "crosswalk";
    assert fields[4].0 == "enforcement" && fields[5].0 == "scp" && fields[6].0 == "config_rules";
    assert fields[7].0 == "attestation";
    ListReads(ControlJson(c), "enforcement", c.enforcement);
    hide ControlFields, ControlJson, Unless;
    ControlHasOnly(c);
  }

  lemma ControlHasOnly(c: Control)
    ensures Only(ControlJson(c),
                 {"id", "title", "statement", "crosswalk", "enforcement", "scp", "config_rules", "attestation"})
  {
    var fields := ControlFields(c);
    hide FieldMap, Texts, CrosswalkJson, SCPJson, RuleJson, AttestationJson, Map;
    OnlyFields(fields);
    forall k | k in FieldMap(fields)
      ensures k in {"id", "title", "statement", "crosswalk", "enforcement", "scp", "config_rules", "attestation"}
    {
      var j :| 0 <= j < |fields| && fields[j].0 == k;
    }
  }

  /** The hashed content is the controls, in order, and the exempt services unless there are none. */
  lemma ContentReads(controls: seq<Control>, exemptServices: seq<string>)
    ensures var v := ContentJson(controls, exemptServices);
            && Has(v, "controls", Some(Array(Map(ControlJson, controls))))
            && HasListUnlessEmpty(v, "region_deny_exempt_services", exemptServices)
            && Only(v, {"controls", "region_deny_exempt_services"})
  {
    var fields := ContentFields(controls, exemptServices);
    TextsRead(exemptServices);
    hide Texts, ListOf, ControlJson;
    EachField(fields);
    hide FieldMap;
    assert fields[0].0 == "controls" && fields[1].0 == "region_deny_exempt_services";
  }
}
