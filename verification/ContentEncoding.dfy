/** The hashed content of an artifact as JSON, and the proof that the encoding loses nothing. */
module ContentEncoding {
  import opened Options
  import opened Lists
  import opened ArtifactTypes
  import opened CanonicalJson

  /** A field of a record; None when the encoder omits it. */
  type Field = (string, Option<Value>)

  function FieldMap(fields: seq<Field>): map<string, Value>
  {
    if fields == [] then map[]
    else
      var front := FieldMap(fields[..|fields| - 1]);
      var last := fields[|fields| - 1];
      if last.1.None? then front else front[last.0 := last.1.value]
  }

  ghost predicate DistinctNames(fields: seq<Field>)
  {
    forall i, j | 0 <= i < j < |fields| :: fields[i].0 != fields[j].0
  }

  lemma {:induction false} FieldLookup(fields: seq<Field>, i: nat)
    requires DistinctNames(fields) && i < |fields|
    ensures fields[i].0 in FieldMap(fields) <==> fields[i].1.Some?
    ensures fields[i].1.Some? ==> FieldMap(fields)[fields[i].0] == fields[i].1.value
    ensures forall k | k in FieldMap(fields) :: exists j :: 0 <= j < |fields| && fields[j].0 == k
  {
    var front := fields[..|fields| - 1];
    OnlyFields(fields);
    OnlyFields(front);
    if i < |fields| - 1 {
      FieldLookup(front, i);
      assert front[i] == fields[i];
    } else {
      assert forall j | 0 <= j < |front| :: front[j] == fields[j] && front[j].0 != fields[i].0;
    }
  }

  lemma {:induction false} OnlyFields(fields: seq<Field>)
    ensures forall k | k in FieldMap(fields) :: exists j :: 0 <= j < |fields| && fields[j].0 == k
  {
    if fields != [] {
      var front := fields[..|fields| - 1];
      OnlyFields(front);
      forall k | k in FieldMap(fields)
        ensures exists j :: 0 <= j < |fields| && fields[j].0 == k
      {
        if k in FieldMap(front) {
          var j :| 0 <= j < |front| && front[j].0 == k;
          assert fields[j] == front[j];
        }
      }
    }
  }

  /** Two records with the same field names are equal exactly when every field is. */
  lemma RecordSame(a: seq<Field>, b: seq<Field>)
    requires DistinctNames(a) && |a| == |b| && forall i | 0 <= i < |a| :: a[i].0 == b[i].0
    ensures FieldMap(a) == FieldMap(b) <==> a == b
  {
    if FieldMap(a) == FieldMap(b) {
      forall i | 0 <= i < |a|
        ensures a[i] == b[i]
      {
        FieldLookup(a, i);
        FieldLookup(b, i);
      }
    }
  }

  function Always(name: string, v: Value): Field { (name, Some(v)) }

  function OmitEmpty(name: string, s: string): Field
  {
    (name, if s == "" then None else Some(Text(s)))
  }

  function TextItem(s: string): Value { Text(s) }

  /** A list of texts; an absent list is written as null. */
  function Texts(list: seq<string>): Value
  {
    if list == [] then Null else Array(Map(TextItem, list))
  }

  function OmitTexts(name: string, list: seq<string>): Field
  {
    (name, if list == [] then None else Some(Texts(list)))
  }

  function OmitMap(name: string, m: map<string, Value>): Field
  {
    (name, if m == map[] then None else Some(Object(m)))
  }

  function OmitList(name: string, items: seq<Value>): Field
  {
    (name, if items == [] then None else Some(Array(items)))
  }

  function ParameterFields(p: RuleParameter): seq<Field>
  {
    [Always("value", Text(p.value)), Always("order", Text(p.order)), OmitEmpty("set_separator", p.setSeparator)]
  }

  function ParameterJson(p: RuleParameter): Value { Object(FieldMap(ParameterFields(p))) }

  function ParametersJson(m: map<string, RuleParameter>): map<string, Value>
  {
    map k | k in m :: ParameterJson(m[k])
  }

  function RuleFields(r: ConfigRule): seq<Field>
  {
    [Always("identifier", Text(r.identifier)), OmitEmpty("name", r.name), Always("provenance", Text(r.provenance)),
     OmitEmpty("rationale", r.rationale), OmitMap("parameters", ParametersJson(r.parameters)),
     OmitTexts("resource_types", r.resourceTypes)]
  }

  function RuleJson(r: ConfigRule): Value { Object(FieldMap(RuleFields(r))) }

  function ExemptFields(e: ExemptPrincipal): seq<Field>
  {
    [Always("principal", Text(e.principal)), Always("reason", Text(e.reason))]
  }

  function ExemptJson(e: ExemptPrincipal): Value { Object(FieldMap(ExemptFields(e))) }

  function ValuesJson(m: map<string, seq<string>>): Value
  {
    Object(map k | k in m :: Texts(m[k]))
  }

  function ConditionJson(c: Condition): map<string, Value>
  {
    map op | op in c :: ValuesJson(c[op])
  }

  function StatementFields(s: Statement): seq<Field>
  {
    [Always("sid", Text(s.sid)), Always("effect", Text(s.effect)), Always("action", Texts(s.action)),
     OmitTexts("resource", s.resource), OmitMap("condition", ConditionJson(s.condition)),
     OmitList("exempt_principals", Map(ExemptJson, s.exemptPrincipals))]
  }

  function StatementJson(s: Statement): Value { Object(FieldMap(StatementFields(s))) }

  function SCPFields(s: SCP): seq<Field>
  {
    [Always("statements", if s.statements.None? then Null else Array(Map(StatementJson, s.statements.value))),
     OmitTexts("region_allowlist", s.regionAllowlist), OmitTexts("service_allowlist", s.serviceAllowlist)]
  }

  function SCPJson(s: SCP): Value { Object(FieldMap(SCPFields(s))) }

  function AttestationFields(a: Attestation): seq<Field>
  {
    [Always("template", Text(a.template)), Always("frequency", Text(a.frequency)), OmitEmpty("guidance", a.guidance)]
  }

  function AttestationJson(a: Attestation): Value { Object(FieldMap(AttestationFields(a))) }

  function CrosswalkJson(m: map<string, string>): map<string, Value>
  {
    map k | k in m :: Text(m[k])
  }

  function ControlFields(c: Control): seq<Field>
  {
    [Always("id", Text(c.id)), Always("title", Text(c.title)), OmitEmpty("statement", c.statement),
     OmitMap("crosswalk", CrosswalkJson(c.crosswalk)), Always("enforcement", Texts(c.enforcement)),
     ("scp", if c.scp.None? then None else Some(SCPJson(c.scp.value))),
     OmitList("config_rules", Map(RuleJson, c.configRules)),
     ("attestation", if c.attestation.None? then None else Some(AttestationJson(c.attestation.value)))]
  }

  function ControlJson(c: Control): Value { Object(FieldMap(ControlFields(c))) }

  function ContentFields(controls: seq<Control>, exemptServices: seq<string>): seq<Field>
  {
    [Always("controls", Array(Map(ControlJson, controls))), OmitTexts("region_deny_exempt_services", exemptServices)]
  }

  function ContentJson(controls: seq<Control>, exemptServices: seq<string>): Value
  {
    Object(FieldMap(ContentFields(controls, exemptServices)))
  }

  // ---------------------------------------------------------------------------------------------
  // Nothing is lost

  lemma MapSame<T(!new)>(f: T -> Value, a: seq<T>, b: seq<T>)
    requires forall x, y | x in a && y in b :: f(x) == f(y) <==> x == y
    ensures Map(f, a) == Map(f, b) <==> a == b
  {
    if Map(f, a) == Map(f, b) {
      assert |a| == |Map(f, a)| == |b|;
      forall i | 0 <= i < |a|
        ensures a[i] == b[i]
      {
        assert f(a[i]) == Map(f, a)[i] == Map(f, b)[i] == f(b[i]);
      }
    }
  }

  lemma TextsSame(a: seq<string>, b: seq<string>)
    ensures Texts(a) == Texts(b) <==> a == b
  {
    MapSame(TextItem, a, b);
  }

  /** The same for records of a fixed shape, field by field. */
  ghost predicate SameFields(a: seq<Field>, b: seq<Field>)
  {
    |a| == |b| && forall i | 0 <= i < |a| :: a[i] == b[i]
  }

  lemma RecordJsonSame(a: seq<Field>, b: seq<Field>)
    requires DistinctNames(a) && |a| == |b| && forall i | 0 <= i < |a| :: a[i].0 == b[i].0
    ensures Object(FieldMap(a)) == Object(FieldMap(b)) <==> SameFields(a, b)
  {
    RecordSame(a, b);
  }

  lemma ParameterJsonSame(a: RuleParameter, b: RuleParameter)
    ensures ParameterJson(a) == ParameterJson(b) <==> a == b
  {
    hide FieldMap;
    var fa, fb := ParameterFields(a), ParameterFields(b);
    RecordJsonSame(fa, fb);
    if ParameterJson(a) == ParameterJson(b) {
      assert fa[0] == fb[0] && fa[1] == fb[1] && fa[2] == fb[2];
    }
  }

  lemma RuleJsonSame(a: ConfigRule, b: ConfigRule)
    ensures RuleJson(a) == RuleJson(b) <==> a == b
  {
    hide FieldMap, Texts, ParametersJson;
    var fa, fb := RuleFields(a), RuleFields(b);
    RecordJsonSame(fa, fb);
    TextsSame(a.resourceTypes, b.resourceTypes);
    ParametersJsonSame(a.parameters, b.parameters);
    if RuleJson(a) == RuleJson(b) {
      assert fa[0] == fb[0] && fa[1] == fb[1] && fa[2] == fb[2];
      assert fa[3] == fb[3] && fa[4] == fb[4] && fa[5] == fb[5];
    }
  }

  lemma ParametersJsonSame(a: map<string, RuleParameter>, b: map<string, RuleParameter>)
    ensures ParametersJson(a) == ParametersJson(b) <==> a == b
    ensures ParametersJson(a) == map[] <==> a == map[]
  {
    hide ParameterJson;
    var ja, jb := ParametersJson(a), ParametersJson(b);
    assert ja.Keys == a.Keys && jb.Keys == b.Keys;
    if ja == jb {
      forall k | k in a
        ensures a[k] == b[k]
      {
        assert ja[k] == jb[k];
        ParameterJsonSame(a[k], b[k]);
      }
    }
  }

  lemma ExemptJsonSame(a: ExemptPrincipal, b: ExemptPrincipal)
    ensures ExemptJson(a) == ExemptJson(b) <==> a == b
  {
    hide FieldMap;
    var fa, fb := ExemptFields(a), ExemptFields(b);
    RecordJsonSame(fa, fb);
    if ExemptJson(a) == ExemptJson(b) {
      assert fa[0] == fb[0] && fa[1] == fb[1];
    }
  }

  lemma ExemptsJsonSame(a: seq<ExemptPrincipal>, b: seq<ExemptPrincipal>)
    ensures Map(ExemptJson, a) == Map(ExemptJson, b) <==> a == b
  {
    hide ExemptJson;
    forall x, y | x in a && y in b
      ensures ExemptJson(x) == ExemptJson(y) <==> x == y
    {
      ExemptJsonSame(x, y);
    }
    MapSame(ExemptJson, a, b);
  }

  lemma ValuesJsonSame(a: map<string, seq<string>>, b: map<string, seq<string>>)
    ensures ValuesJson(a) == ValuesJson(b) <==> a == b
  {
    hide Texts;
    var ja, jb := ValuesJson(a).members, ValuesJson(b).members;
    assert ja.Keys == a.Keys && jb.Keys == b.Keys;
    if ja == jb {
      forall k | k in a
        ensures a[k] == b[k]
      {
        assert ja[k] == jb[k];
        TextsSame(a[k], b[k]);
      }
    }
  }

  lemma ConditionJsonSame(a: Condition, b: Condition)
    ensures ConditionJson(a) == ConditionJson(b) <==> a == b
    ensures ConditionJson(a) == map[] <==> a == map[]
  {
    hide ValuesJson;
    var ja, jb := ConditionJson(a), ConditionJson(b);
    assert ja.Keys == a.Keys && jb.Keys == b.Keys;
    if ja == jb {
      forall k | k in a
        ensures a[k] == b[k]
      {
        assert ja[k] == jb[k];
        ValuesJsonSame(a[k], b[k]);
      }
    }
  }

  lemma StatementJsonSame(a: Statement, b: Statement)
    ensures StatementJson(a) == StatementJson(b) <==> a == b
  {
    hide FieldMap, Texts, ConditionJson, ExemptJson, Map;
    var fa, fb := StatementFields(a), StatementFields(b);
    RecordJsonSame(fa, fb);
    TextsSame(a.action, b.action);
    TextsSame(a.resource, b.resource);
    ConditionJsonSame(a.condition, b.condition);
    ExemptsJsonSame(a.exemptPrincipals, b.exemptPrincipals);
    if StatementJson(a) == StatementJson(b) {
      assert fa[0] == fb[0] && fa[1] == fb[1] && fa[2] == fb[2];
      assert fa[3] == fb[3] && fa[4] == fb[4] && fa[5] == fb[5];
    }
  }

  lemma StatementsJsonSame(a: seq<Statement>, b: seq<Statement>)
    ensures Map(StatementJson, a) == Map(StatementJson, b) <==> a == b
  {
    hide StatementJson;
    forall x, y | x in a && y in b
      ensures StatementJson(x) == StatementJson(y) <==> x == y
    {
      StatementJsonSame(x, y);
    }
    MapSame(StatementJson, a, b);
  }

  lemma SCPJsonSame(a: SCP, b: SCP)
    ensures SCPJson(a) == SCPJson(b) <==> a == b
  {
    hide FieldMap, Texts, StatementJson, Map;
    var fa, fb := SCPFields(a), SCPFields(b);
    RecordJsonSame(fa, fb);
    TextsSame(a.regionAllowlist, b.regionAllowlist);
    TextsSame(a.serviceAllowlist, b.serviceAllowlist);
    StatementsJsonSame(Items(a.statements), Items(b.statements));
    if SCPJson(a) == SCPJson(b) {
      assert fa[0] == fb[0] && fa[1] == fb[1] && fa[2] == fb[2];
    }
  }

  lemma AttestationJsonSame(a: Attestation, b: Attestation)
    ensures AttestationJson(a) == AttestationJson(b) <==> a == b
  {
    hide FieldMap;
    var fa, fb := AttestationFields(a), AttestationFields(b);
    RecordJsonSame(fa, fb);
    if AttestationJson(a) == AttestationJson(b) {
      assert fa[0] == fb[0] && fa[1] == fb[1] && fa[2] == fb[2];
    }
  }

  lemma CrosswalkJsonSame(a: map<string, string>, b: map<string, string>)
    ensures CrosswalkJson(a) == CrosswalkJson(b) <==> a == b
    ensures CrosswalkJson(a) == map[] <==> a == map[]
  {
    var ja, jb := CrosswalkJson(a), CrosswalkJson(b);
    assert ja.Keys == a.Keys && jb.Keys == b.Keys;
    if ja == jb {
      forall k | k in a
        ensures a[k] == b[k]
      {
        assert ja[k] == jb[k];
      }
    }
  }

  lemma RulesJsonSame(a: seq<ConfigRule>, b: seq<ConfigRule>)
    ensures Map(RuleJson, a) == Map(RuleJson, b) <==> a == b
  {
    hide RuleJson;
    forall x, y | x in a && y in b
      ensures RuleJson(x) == RuleJson(y) <==> x == y
    {
      RuleJsonSame(x, y);
    }
    MapSame(RuleJson, a, b);
  }

  lemma ControlFieldNames(a: Control, b: Control)
    ensures var fa, fb := ControlFields(a), ControlFields(b);
            DistinctNames(fa) && |fa| == |fb| && forall i | 0 <= i < |fa| :: fa[i].0 == fb[i].0
  {
    hide Texts, CrosswalkJson, SCPJson, RuleJson, AttestationJson, Map;
  }

  lemma ControlJsonSame(a: Control, b: Control)
    ensures ControlJson(a) == ControlJson(b) <==> a == b
  {
    hide FieldMap, Texts, CrosswalkJson, SCPJson, RuleJson, AttestationJson, Map, DistinctNames;
    var fa, fb := ControlFields(a), ControlFields(b);
    ControlFieldNames(a, b);
    RecordJsonSame(fa, fb);
    CrosswalkJsonSame(a.crosswalk, b.crosswalk);
    TextsSame(a.enforcement, b.enforcement);
    if a.scp.Some? && b.scp.Some? {
      SCPJsonSame(a.scp.value, b.scp.value);
    }
    RulesJsonSame(a.configRules, b.configRules);
    if a.attestation.Some? && b.attestation.Some? {
      AttestationJsonSame(a.attestation.value, b.attestation.value);
    }
    if ControlJson(a) == ControlJson(b) {
      assert fa[0] == fb[0] && fa[1] == fb[1] && fa[2] == fb[2] && fa[3] == fb[3];
      assert fa[4] == fb[4] && fa[5] == fb[5] && fa[6] == fb[6] && fa[7] == fb[7];
    }
  }

  lemma ControlsJsonSame(a: seq<Control>, b: seq<Control>)
    ensures Map(ControlJson, a) == Map(ControlJson, b) <==> a == b
  {
    hide ControlJson;
    forall x, y | x in a && y in b
      ensures ControlJson(x) == ControlJson(y) <==> x == y
    {
      ControlJsonSame(x, y);
    }
    MapSame(ControlJson, a, b);
  }

  /** The content JSON determines the content. */
  lemma ContentJsonSame(a: seq<Control>, s: seq<string>, b: seq<Control>, t: seq<string>)
    ensures ContentJson(a, s) == ContentJson(b, t) <==> a == b && s == t
  {
    hide FieldMap, Texts, ControlJson, Map;
    var fa, fb := ContentFields(a, s), ContentFields(b, t);
    RecordJsonSame(fa, fb);
    ControlsJsonSame(a, b);
    TextsSame(s, t);
    if ContentJson(a, s) == ContentJson(b, t) {
      assert fa[0] == fb[0] && fa[1] == fb[1];
    }
  }
}
