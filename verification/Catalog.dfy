/** The catalog join: requirements, AWS's mapping of rules to them, and the bindings made by hand. */
module Catalog {
  import opened Options
  import opened Lists
  import opened SetText
  import opened ArtifactTypes

  /** A catalog control to be, and the requirements of NIST SP 800-171 revision 2 it answers to. */
  datatype Requirement = Requirement(id: string, paragraph: string, r2: seq<string>)

  datatype Binding = Binding(rule: string, rationale: string)

  datatype RuleSource = RuleSource(
    identifier: string,
    name: string,
    parameters: map<string, string>,
    resourceTypes: seq<string>)

  datatype Sources = Sources(
    crosswalk: seq<Requirement>,
    titles: map<string, string>,
    statements: map<string, string>,
    mapping: map<string, seq<string>>,
    rules: map<string, RuleSource>,
    paramOrders: map<string, string>,
    curated: map<string, seq<Binding>>,
    procedural: map<string, Attestation>
  )

  datatype CatalogError =
    | BadMappingKey
    | NoTitle(id: string)
    | NoStatement(id: string)
    | NoSuchRule
    | NoOrder
    | NoRationale
    | BoundTwice(id: string)
    | AlreadyMapped(id: string)
    | NoCoverage(id: string)
    | Orphans
    | CuratedMismatch
    | BreaksSchema

  const AWS_MAPPING := "aws-mapping"
  const CURATED := "curated"
  const CONFIG_RULE_CLASS := "config-rule"
  const PROCEDURAL_CLASS := "procedural"

  // ---------------------------------------------------------------------------------------------
  // Re-keying AWS's mapping

  /** What follows the first hyphen of a mapping key. */
  function RequirementOf(awsId: string): Option<string>
  {
    if awsId == "" then None
    else if awsId[0] == '-' then (if |awsId| == 1 then None else Some(awsId[1..]))
    else RequirementOf(awsId[1..])
  }

  predicate MappingKeysOk(mapping: map<string, seq<string>>)
  {
    (forall id | id in mapping :: RequirementOf(id).Some?)
    && (forall a, b | a in mapping && b in mapping && a != b :: RequirementOf(a) != RequirementOf(b))
  }

  /** From a requirement to the one key of the mapping that stands for it. */
  function Index(mapping: map<string, seq<string>>): map<string, string>
    requires MappingKeysOk(mapping)
  {
    map id | id in mapping :: RequirementOf(id).value := id
  }

  predicate IndexOk(s: Sources, index: map<string, string>)
  {
    forall r2 | r2 in index :: index[r2] in s.mapping
  }

  /** The rules AWS maps to any of the requirements. */
  function MappedNames(s: Sources, index: map<string, string>, r2: seq<string>): seq<string>
    requires IndexOk(s, index)
  {
    if r2 == [] then []
    else (if r2[0] in index then s.mapping[index[r2[0]]] else []) + MappedNames(s, index, r2[1..])
  }

  function MappedIds(index: map<string, string>, r2: seq<string>): seq<string>
  {
    if r2 == [] then []
    else (if r2[0] in index then [index[r2[0]]] else []) + MappedIds(index, r2[1..])
  }

  // ---------------------------------------------------------------------------------------------
  // Rules

  function RuleFor(s: Sources, name: string, provenance: string, why: map<string, string>)
    : Result<ConfigRule, CatalogError>
  {
    if name !in s.rules then Err(NoSuchRule)
    else if provenance == CURATED && (name !in why || why[name] == "") then Err(NoRationale)
    else
      var r := s.rules[name];
      if exists k | k in r.parameters :: k !in s.paramOrders then Err(NoOrder)
      else
        Ok(ConfigRule(
             r.identifier,
             r.name,
             provenance,
             if provenance == CURATED then why[name] else "",
             map k | k in r.parameters && k in s.paramOrders :: RuleParameter(r.parameters[k], s.paramOrders[k], ""),
             r.resourceTypes))
  }

  function RulesFor(s: Sources, names: seq<string>, provenance: string, why: map<string, string>)
    : Result<seq<ConfigRule>, CatalogError>
  {
    if names == [] then Ok([])
    else
      var first := RuleFor(s, names[0], provenance, why);
      if first.Err? then Err(first.error)
      else
        var rest := RulesFor(s, names[1..], provenance, why);
        if rest.Err? then Err(rest.error) else Ok([first.value] + rest.value)
  }

  function RuleNames(bindings: seq<Binding>): seq<string>
  {
    if bindings == [] then [] else [bindings[0].rule] + RuleNames(bindings[1..])
  }

  /** The reason given for each bound rule; the last one given counts. */
  function Rationales(bindings: seq<Binding>): map<string, string>
  {
    if bindings == [] then map[]
    else
      var last := bindings[|bindings| - 1];
      Rationales(bindings[..|bindings| - 1])[last.rule := last.rationale]
  }

  predicate NamesOneOf(rules: seq<ConfigRule>, why: map<string, string>)
  {
    exists r | r in rules :: r.name in why
  }

  function CuratedRules(s: Sources, id: string, mapped: seq<ConfigRule>): Result<seq<ConfigRule>, CatalogError>
  {
    if id !in s.curated then Ok([])
    else
      var bindings := s.curated[id];
      if !Distinct(RuleNames(bindings)) then Err(BoundTwice(id))
      else if NamesOneOf(mapped, Rationales(bindings)) then Err(AlreadyMapped(id))
      else RulesFor(s, SortedUnique(RuleNames(bindings)), CURATED, Rationales(bindings))
  }

  // ---------------------------------------------------------------------------------------------
  // Controls

  function CrosswalkFor(req: Requirement, awsIds: seq<string>): map<string, string>
  {
    var base := map["far" := "52.204-21(b)(1)(" + req.paragraph + ")", "800-171r2" := Join(req.r2, ", ")];
    if awsIds == [] then base else base["aws_config_mapping_id" := Join(SortedUnique(awsIds), ", ")]
  }

  function Assemble(s: Sources, req: Requirement, awsIds: seq<string>, rules: seq<ConfigRule>)
    : Result<Control, CatalogError>
    requires req.id in s.titles && req.paragraph in s.statements
  {
    if req.id !in s.procedural && rules == [] then Err(NoCoverage(req.id))
    else
      Ok(Control(
           req.id,
           s.titles[req.id],
           s.statements[req.paragraph],
           CrosswalkFor(req, awsIds),
           (if rules != [] then [CONFIG_RULE_CLASS] else [])
             + (if req.id in s.procedural then [PROCEDURAL_CLASS] else []),
           None,
           rules,
           if req.id in s.procedural then Some(s.procedural[req.id]) else None))
  }

  function ControlFor(s: Sources, index: map<string, string>, req: Requirement): Result<Control, CatalogError>
    requires IndexOk(s, index)
  {
    if req.id !in s.titles then Err(NoTitle(req.id))
    else if req.paragraph !in s.statements then Err(NoStatement(req.id))
    else
      var mapped := RulesFor(s, SortedUnique(MappedNames(s, index, req.r2)), AWS_MAPPING, map[]);
      if mapped.Err? then Err(mapped.error)
      else
        var curated := CuratedRules(s, req.id, mapped.value);
        if curated.Err? then Err(curated.error)
        else Assemble(s, req, MappedIds(index, req.r2), mapped.value + curated.value)
  }

  function ControlsFor(s: Sources, index: map<string, string>, reqs: seq<Requirement>)
    : Result<seq<Control>, CatalogError>
    requires IndexOk(s, index)
  {
    if reqs == [] then Ok([])
    else
      var first := ControlFor(s, index, reqs[0]);
      if first.Err? then Err(first.error)
      else
        var rest := ControlsFor(s, index, reqs[1..]);
        if rest.Err? then Err(rest.error) else Ok([first.value] + rest.value)
  }

  /** Some control claims the requirement. */
  predicate Claimed(reqs: seq<Requirement>, r2: string)
  {
    exists req | req in reqs :: r2 in req.r2
  }

  predicate AllClaimed(reqs: seq<Requirement>, index: map<string, string>)
  {
    forall r2 | r2 in index :: Claimed(reqs, r2)
  }

  /** The control with an id; of several, the last. */
  function ById(controls: seq<Control>, id: string): Option<Control>
  {
    if controls == [] then None
    else if controls[|controls| - 1].id == id then Some(controls[|controls| - 1])
    else ById(controls[..|controls| - 1], id)
  }

  /** The binding is on the control, as curated, with its own reason, wherever its rule is named. */
  predicate BindingKept(rules: seq<ConfigRule>, b: Binding)
  {
    (exists r | r in rules :: r.name == b.rule)
    && (forall r | r in rules && r.name == b.rule :: r.provenance == CURATED && r.rationale == b.rationale)
  }

  predicate CuratedKept(curated: map<string, seq<Binding>>, controls: seq<Control>)
  {
    forall id | id in curated ::
      ById(controls, id).Some? && forall b | b in curated[id] :: BindingKept(ById(controls, id).value.configRules, b)
  }

  /** The whole join. */
  function Compile(s: Sources): Result<seq<Control>, CatalogError>
  {
    if !MappingKeysOk(s.mapping) then Err(BadMappingKey)
    else
      var controls := ControlsFor(s, Index(s.mapping), s.crosswalk);
      if controls.Err? then controls
      else if !AllClaimed(s.crosswalk, Index(s.mapping)) then Err(Orphans)
      else if !CuratedKept(s.curated, controls.value) then Err(CuratedMismatch)
      else controls
  }
}
