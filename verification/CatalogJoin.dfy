/** A catalog that compiles neither drops nor invents a mapping, and keeps what was bound by hand apart. */
module CatalogJoin {
  import opened Options
  import opened Lists
  import opened SetText
  import opened ArtifactTypes
  import opened Catalog

  // ---------------------------------------------------------------------------------------------
  // Re-keying

  /** AWS maps the rule to the requirement. */
  ghost predicate Maps(mapping: map<string, seq<string>>, r2: string, name: string)
  {
    exists id | id in mapping :: RequirementOf(id) == Some(r2) && name in mapping[id]
  }

  lemma IndexMeaning(mapping: map<string, seq<string>>)
    requires MappingKeysOk(mapping)
    ensures forall id | id in mapping ::
            RequirementOf(id).value in Index(mapping) && Index(mapping)[RequirementOf(id).value] == id
    ensures forall r2 | r2 in Index(mapping) ::
            Index(mapping)[r2] in mapping && RequirementOf(Index(mapping)[r2]) == Some(r2)
  {
  }

  /** A requirement is a mapping key without its prefix and the first hyphen. */
  lemma {:induction false} RequirementParts(prefix: string, r2: string)
    requires '-' !in prefix
    ensures RequirementOf(prefix) == None
    ensures RequirementOf(prefix + ['-'] + r2) == if r2 == "" then None else Some(r2)
  {
    var id := prefix + ['-'] + r2;
    if prefix == [] {
      assert id == ['-'] + r2;
    } else {
      assert prefix[0] in prefix;
      assert id[1..] == prefix[1..] + ['-'] + r2;
      RequirementParts(prefix[1..], r2);
    }
  }

  lemma {:induction false} MappedNamesMeaning(s: Sources, r2: seq<string>, name: string)
    requires MappingKeysOk(s.mapping) && IndexOk(s, Index(s.mapping))
    ensures name in MappedNames(s, Index(s.mapping), r2) <==> exists r | r in r2 :: Maps(s.mapping, r, name)
  {
    hide Index;
    IndexMeaning(s.mapping);
    if r2 != [] {
      var index := Index(s.mapping);
      MappedNamesMeaning(s, r2[1..], name);
      FirstMaps(s, index, r2[0], name);
      assert r2 == [r2[0]] + r2[1..];
    }
  }

  lemma FirstMaps(s: Sources, index: map<string, string>, r: string, name: string)
    requires MappingKeysOk(s.mapping) && index == Index(s.mapping)
    ensures r in index && index[r] in s.mapping && name in s.mapping[index[r]] <==> Maps(s.mapping, r, name)
  {
    IndexMeaning(s.mapping);
  }

  // ---------------------------------------------------------------------------------------------
  // Rules and names

  /** The rules correspond one by one to the names. */
  predicate Matches(s: Sources, rules: seq<ConfigRule>, names: seq<string>, provenance: string,
      why: map<string, string>)
  {
    |rules| == |names| && forall i | 0 <= i < |names| :: RuleFor(s, names[i], provenance, why) == Ok(rules[i])
  }

  lemma {:induction false} RulesMatch(s: Sources, names: seq<string>, provenance: string, why: map<string, string>)
    ensures var r := RulesFor(s, names, provenance, why);
            (r.Ok? ==> Matches(s, r.value, names, provenance, why))
            && (r.Ok? <==> forall name | name in names :: RuleFor(s, name, provenance, why).Ok?)
  {
    hide RuleFor;
    if names != [] {
      RulesMatch(s, names[1..], provenance, why);
      assert names == [names[0]] + names[1..];
    }
  }

  /** The parameter says what the source says: a scalar its value, a set its members. */
  predicate SaysValue(p: RuleParameter, value: string, order: string)
  {
    p.order == order && p.setSeparator == ""
    && if p.Order().IsSet() then p.Members() == MembersOf(value, DEFAULT_SET_SEPARATOR) else p.value == value
  }

  /** A rule that carries what the source says of the named one, however its sets are spelled. */
  predicate Derives(s: Sources, r: ConfigRule, name: string, provenance: string)
  {
    name in s.rules && r.identifier == s.rules[name].identifier && r.name == s.rules[name].name
    && Elements(r.resourceTypes) == Elements(s.rules[name].resourceTypes) && r.provenance == provenance
    && r.parameters.Keys == s.rules[name].parameters.Keys
    && forall k | k in r.parameters ::
         k in s.paramOrders && SaysValue(r.parameters[k], s.rules[name].parameters[k], s.paramOrders[k])
  }

  lemma RuleDerives(s: Sources, name: string, provenance: string, why: map<string, string>)
    requires RuleFor(s, name, provenance, why).Ok?
    ensures var r := RuleFor(s, name, provenance, why).value;
            Derives(s, r, name, provenance)
            && (provenance == CURATED ==> name in why && r.rationale == why[name] && r.rationale != "")
            && (provenance != CURATED ==> r.rationale == "")
  {
  }

  // ---------------------------------------------------------------------------------------------
  // The layers of one control

  /** The control's rules: those of AWS's mapping, then those bound by hand. */
  ghost predicate Layered(s: Sources, req: Requirement, rules: seq<ConfigRule>, mapped: seq<ConfigRule>,
      bound: seq<ConfigRule>)
    requires MappingKeysOk(s.mapping) && IndexOk(s, Index(s.mapping))
  {
    rules == mapped + bound
    && Matches(s, mapped, SortedUnique(MappedNames(s, Index(s.mapping), req.r2)), AWS_MAPPING, map[])
    && (if req.id in s.curated then
          Distinct(RuleNames(s.curated[req.id])) && !NamesOneOf(mapped, Rationales(s.curated[req.id]))
          && Matches(s, bound, SortedUnique(RuleNames(s.curated[req.id])), CURATED, Rationales(s.curated[req.id]))
        else bound == [])
  }

  lemma ControlIsLayered(s: Sources, req: Requirement)
    requires MappingKeysOk(s.mapping) && IndexOk(s, Index(s.mapping))
    requires ControlFor(s, Index(s.mapping), req).Ok?
    ensures var c := ControlFor(s, Index(s.mapping), req).value;
            c.id == req.id && exists mapped, bound :: Layered(s, req, c.configRules, mapped, bound)
  {
    hide RulesFor, RuleFor, SortedUnique, MappedNames, Index, CrosswalkFor;
    var names := SortedUnique(MappedNames(s, Index(s.mapping), req.r2));
    var mapped := RulesFor(s, names, AWS_MAPPING, map[]).value;
    RulesMatch(s, names, AWS_MAPPING, map[]);
    var bound := CuratedRules(s, req.id, mapped).value;
    if req.id in s.curated {
      RulesMatch(s, SortedUnique(RuleNames(s.curated[req.id])), CURATED, Rationales(s.curated[req.id]));
    }
    assert Layered(s, req, ControlFor(s, Index(s.mapping), req).value.configRules, mapped, bound);
  }

  lemma {:induction false} ControlsMatch(s: Sources, index: map<string, string>, reqs: seq<Requirement>)
    requires IndexOk(s, index)
    ensures var r := ControlsFor(s, index, reqs);
            r.Ok? ==> |r.value| == |reqs| && forall i | 0 <= i < |reqs| ::
              ControlFor(s, index, reqs[i]) == Ok(r.value[i])
  {
    hide ControlFor;
    if reqs != [] {
      ControlsMatch(s, index, reqs[1..]);
      assert reqs == [reqs[0]] + reqs[1..];
    }
  }

  /** What a successful compile consists of. */
  lemma CompiledParts(s: Sources)
    requires Compile(s).Ok?
    ensures MappingKeysOk(s.mapping) && IndexOk(s, Index(s.mapping))
    ensures var controls := Compile(s).value;
            |controls| == |s.crosswalk|
            && (forall i | 0 <= i < |controls| :: ControlFor(s, Index(s.mapping), s.crosswalk[i]) == Ok(controls[i]))
            && AllClaimed(s.crosswalk, Index(s.mapping)) && CuratedKept(s.curated, controls)
  {
    hide Index, ControlFor, CuratedKept, AllClaimed;
    IndexMeaning(s.mapping);
    ControlsMatch(s, Index(s.mapping), s.crosswalk);
  }

  // ---------------------------------------------------------------------------------------------
  // Where the rules of one control come from

  /** The control carries the rule with AWS's provenance. */
  predicate CarriesMapped(s: Sources, c: Control, name: string)
  {
    exists r | r in c.configRules :: Derives(s, r, name, AWS_MAPPING)
  }

  lemma MappedRuleCarried(s: Sources, req: Requirement, name: string, r2: string)
    requires MappingKeysOk(s.mapping) && IndexOk(s, Index(s.mapping))
    requires ControlFor(s, Index(s.mapping), req).Ok?
    requires r2 in req.r2 && Maps(s.mapping, r2, name)
    ensures CarriesMapped(s, ControlFor(s, Index(s.mapping), req).value, name)
  {
    hide ControlFor, RuleFor, Derives, Index, MappedNames, Maps, SortedUnique;
    ControlIsLayered(s, req);
    var c := ControlFor(s, Index(s.mapping), req).value;
    var mapped: seq<ConfigRule>, bound: seq<ConfigRule> :| Layered(s, req, c.configRules, mapped, bound);
    var names := MappedNames(s, Index(s.mapping), req.r2);
    MappedNamesMeaning(s, req.r2, name);
    SortedUniqueMeaning(names);
    assert name in Elements(SortedUnique(names));
    var i :| 0 <= i < |SortedUnique(names)| && SortedUnique(names)[i] == name;
    RuleDerives(s, name, AWS_MAPPING, map[]);
    assert mapped[i] in c.configRules;
  }

  /** The rule stands for a name AWS maps to one of the control's requirements. */
  ghost predicate Mapped(s: Sources, req: Requirement, r: ConfigRule)
  {
    exists name, r2 :: r2 in req.r2 && Maps(s.mapping, r2, name) && Derives(s, r, name, AWS_MAPPING)
  }

  /** The rule stands for a binding made by hand for the control. */
  ghost predicate BoundByHand(s: Sources, req: Requirement, r: ConfigRule)
  {
    req.id in s.curated
    && exists b | b in s.curated[req.id] ::
      Derives(s, r, b.rule, CURATED) && r.rationale == b.rationale && b.rationale != ""
  }

  lemma RuleIsFounded(s: Sources, req: Requirement, r: ConfigRule)
    requires MappingKeysOk(s.mapping) && IndexOk(s, Index(s.mapping))
    requires ControlFor(s, Index(s.mapping), req).Ok? && r in ControlFor(s, Index(s.mapping), req).value.configRules
    ensures if r.provenance == AWS_MAPPING then Mapped(s, req, r) else BoundByHand(s, req, r)
  {
    hide ControlFor, RuleFor, Index, MappedNames, Maps, Derives, SortedUnique, Rationales, RuleNames;
    ControlIsLayered(s, req);
    var c := ControlFor(s, Index(s.mapping), req).value;
    var mapped: seq<ConfigRule>, bound: seq<ConfigRule> :| Layered(s, req, c.configRules, mapped, bound);
    if r in mapped {
      var i :| 0 <= i < |mapped| && mapped[i] == r;
      var names := MappedNames(s, Index(s.mapping), req.r2);
      var name := SortedUnique(names)[i];
      SortedUniqueMeaning(names);
      assert name in Elements(SortedUnique(names));
      MappedNamesMeaning(s, req.r2, name);
      RuleDerives(s, name, AWS_MAPPING, map[]);
      DerivesProvenance(s, r, name, AWS_MAPPING);
    } else {
      var i :| 0 <= i < |bound| && bound[i] == r;
      BoundRuleIsFounded(s, req, bound, i);
    }
  }

  lemma DerivesProvenance(s: Sources, r: ConfigRule, name: string, provenance: string)
    requires Derives(s, r, name, provenance)
    ensures r.provenance == provenance && r.name == s.rules[name].name
  {
  }

  lemma BoundRuleIsFounded(s: Sources, req: Requirement, bound: seq<ConfigRule>, i: nat)
    requires req.id in s.curated && i < |bound| && Distinct(RuleNames(s.curated[req.id]))
    requires Matches(s, bound, SortedUnique(RuleNames(s.curated[req.id])), CURATED, Rationales(s.curated[req.id]))
    ensures bound[i].provenance == CURATED && BoundByHand(s, req, bound[i])
  {
    hide RuleFor, Derives, SortedUnique, Rationales, RuleNames;
    var bindings := s.curated[req.id];
    var name := SortedUnique(RuleNames(bindings))[i];
    SortedUniqueMeaning(RuleNames(bindings));
    assert name in Elements(SortedUnique(RuleNames(bindings)));
    NamedByBinding(bindings, name);
    var b :| b in bindings && b.rule == name;
    RuleDerives(s, name, CURATED, Rationales(bindings));
    RationaleIsBindings(bindings, b);
    DerivesProvenance(s, bound[i], name, CURATED);
  }

  lemma {:induction false} NamedByBinding(bindings: seq<Binding>, name: string)
    ensures name in RuleNames(bindings) <==> exists b | b in bindings :: b.rule == name
    ensures |RuleNames(bindings)| == |bindings|
    ensures forall i | 0 <= i < |bindings| :: RuleNames(bindings)[i] == bindings[i].rule
  {
    if bindings != [] {
      NamedByBinding(bindings[1..], name);
      assert bindings == [bindings[0]] + bindings[1..];
    }
  }

  /** With no rule bound twice, the reason for a rule is that of its binding. */
  lemma {:induction false} RationaleIsBindings(bindings: seq<Binding>, b: Binding)
    requires Distinct(RuleNames(bindings)) && b in bindings
    ensures b.rule in Rationales(bindings) && Rationales(bindings)[b.rule] == b.rationale
  {
    var n := |bindings| - 1;
    NamedByBinding(bindings, b.rule);
    NamedByBinding(bindings[..n], b.rule);
    if b != bindings[n] {
      assert b in bindings[..n];
      var i :| 0 <= i < n && bindings[i] == b;
      assert RuleNames(bindings)[i] != RuleNames(bindings)[n];
      RationaleIsBindings(bindings[..n], b);
    }
  }

  // ---------------------------------------------------------------------------------------------
  // Bindings made by hand appear once

  /** Of the rules bound for a control, at most one goes by the name. */
  predicate OneGoesBy(s: Sources, bound: seq<string>, name: string)
  {
    forall x, y | x in bound && y in bound && x in s.rules && y in s.rules
                  && s.rules[x].name == name && s.rules[y].name == name :: x == y
  }

  /** The k-th rule has the name, and no other. */
  predicate OnlyAt(rules: seq<ConfigRule>, name: string, k: nat)
    requires k < |rules|
  {
    rules[k].name == name && forall j | 0 <= j < |rules| && j != k :: rules[j].name != name
  }

  /** Exactly one rule of the list has the name. */
  ghost predicate NamedOnce(rules: seq<ConfigRule>, name: string)
  {
    exists k: nat :: k < |rules| && OnlyAt(rules, name, k)
  }

  predicate AtMostOnce(rules: seq<ConfigRule>, name: string)
  {
    forall j, k | 0 <= j < |rules| && 0 <= k < |rules| && rules[j].name == name && rules[k].name == name :: j == k
  }

  /** Among the rules built from distinct names, how often one goes by a name. */
  lemma OnceAmongBound(s: Sources, bound: seq<ConfigRule>, names: seq<string>, why: map<string, string>, name: string)
    requires Distinct(names) && Matches(s, bound, names, CURATED, why)
    ensures OneGoesBy(s, names, name) <==> AtMostOnce(bound, name)
  {
    hide RuleFor, Derives;
    forall j | 0 <= j < |bound|
      ensures names[j] in s.rules && bound[j].name == s.rules[names[j]].name
    {
      RuleDerives(s, names[j], CURATED, why);
      DerivesName(s, bound[j], names[j]);
    }
    if AtMostOnce(bound, name) {
      forall x, y | x in names && y in names && x in s.rules && y in s.rules
                    && s.rules[x].name == name && s.rules[y].name == name
        ensures x == y
      {
        var j :| 0 <= j < |names| && names[j] == x;
        var k :| 0 <= k < |names| && names[k] == y;
        assert bound[j].name == name && bound[k].name == name;
      }
    }
  }

  lemma DerivesName(s: Sources, r: ConfigRule, name: string)
    requires Derives(s, r, name, CURATED)
    ensures name in s.rules && r.name == s.rules[name].name
  {
  }

  lemma BindingOnControl(s: Sources, req: Requirement, b: Binding)
    requires MappingKeysOk(s.mapping) && IndexOk(s, Index(s.mapping))
    requires ControlFor(s, Index(s.mapping), req).Ok? && req.id in s.curated && b in s.curated[req.id]
    requires BindingKept(ControlFor(s, Index(s.mapping), req).value.configRules, b)
    ensures NamedOnce(ControlFor(s, Index(s.mapping), req).value.configRules, b.rule) <==>
              OneGoesBy(s, RuleNames(s.curated[req.id]), b.rule)
  {
    hide ControlFor, RuleFor, Index, MappedNames, Derives, SortedUnique, Rationales, RuleNames, OneGoesBy;
    ControlIsLayered(s, req);
    var rules := ControlFor(s, Index(s.mapping), req).value.configRules;
    var mapped: seq<ConfigRule>, bound: seq<ConfigRule> :| Layered(s, req, rules, mapped, bound);
    var given := RuleNames(s.curated[req.id]);
    var names := SortedUnique(given);
    var mappedNames := SortedUnique(MappedNames(s, Index(s.mapping), req.r2));
    SortedUniqueDistinct(given);
    OnceAmongBound(s, bound, names, Rationales(s.curated[req.id]), b.rule);
    SortedUniqueMeaning(given);
    SameNamesOneGoesBy(s, given, names, b.rule);
    forall j | 0 <= j < |mapped|
      ensures mapped[j].name != b.rule
    {
      RuleDerives(s, mappedNames[j], AWS_MAPPING, map[]);
      DerivesProvenance(s, mapped[j], mappedNames[j], AWS_MAPPING);
      assert rules[j] in rules && rules[j] == mapped[j];
    }
    OnceInBound(rules, mapped, bound, b.rule);
  }

  lemma SameNamesOneGoesBy(s: Sources, a: seq<string>, b: seq<string>, name: string)
    requires Elements(a) == Elements(b)
    ensures OneGoesBy(s, a, name) <==> OneGoesBy(s, b, name)
  {
    assert forall x :: (x in a <==> x in Elements(a)) && (x in b <==> x in Elements(b));
  }

  lemma OnceInBound(rules: seq<ConfigRule>, mapped: seq<ConfigRule>, bound: seq<ConfigRule>, name: string)
    requires rules == mapped + bound && (exists r | r in rules :: r.name == name)
    requires forall j | 0 <= j < |mapped| :: mapped[j].name != name
    ensures NamedOnce(rules, name) <==> AtMostOnce(bound, name)
  {
    hide AtMostOnce, NamedOnce;
    NamedOnceMeaning(rules, name);
    if AtMostOnce(rules, name) {
      AtMostOnceInPart(rules, mapped, bound, name);
    }
    if AtMostOnce(bound, name) {
      AtMostOnceInWhole(rules, mapped, bound, name);
    }
  }

  lemma NamedOnceMeaning(rules: seq<ConfigRule>, name: string)
    requires exists r | r in rules :: r.name == name
    ensures NamedOnce(rules, name) <==> AtMostOnce(rules, name)
  {
    var r :| r in rules && r.name == name;
    var k: nat :| k < |rules| && rules[k] == r;
    if AtMostOnce(rules, name) {
      assert OnlyAt(rules, name, k);
    }
    if NamedOnce(rules, name) {
      var only: nat :| only < |rules| && OnlyAt(rules, name, only);
    }
  }

  lemma AtMostOnceInPart(rules: seq<ConfigRule>, mapped: seq<ConfigRule>, bound: seq<ConfigRule>, name: string)
    requires rules == mapped + bound && AtMostOnce(rules, name)
    ensures AtMostOnce(bound, name)
  {
    forall j, k | 0 <= j < |bound| && 0 <= k < |bound| && bound[j].name == name && bound[k].name == name
      ensures j == k
    {
      assert rules[|mapped| + j] == bound[j] && rules[|mapped| + k] == bound[k];
    }
  }

  lemma AtMostOnceInWhole(rules: seq<ConfigRule>, mapped: seq<ConfigRule>, bound: seq<ConfigRule>, name: string)
    requires rules == mapped + bound && AtMostOnce(bound, name)
    requires forall j | 0 <= j < |mapped| :: mapped[j].name != name
    ensures AtMostOnce(rules, name)
  {
    forall j | 0 <= j < |mapped|
      ensures rules[j].name != name
    {
      assert rules[j] == mapped[j];
    }
    forall j, k | |mapped| <= j < |rules| && |mapped| <= k < |rules| && rules[j].name == name && rules[k].name == name
      ensures j == k
    {
      assert rules[j] == bound[j - |mapped|] && rules[k] == bound[k - |mapped|];
    }
  }

  // ---------------------------------------------------------------------------------------------
  // Every requirement appears

  lemma {:induction false} MappedIdsMeaning(index: map<string, string>, r2: seq<string>, id: string)
    ensures id in MappedIds(index, r2) <==> exists r | r in r2 :: r in index && index[r] == id
  {
    if r2 != [] {
      MappedIdsMeaning(index, r2[1..], id);
      assert r2 == [r2[0]] + r2[1..];
    }
  }

  /** One of AWS's ids stands for a requirement that the control answers to. */
  ghost predicate DrawsOn(s: Sources, req: Requirement, id: string)
  {
    id in s.mapping && exists r2 | r2 in req.r2 :: RequirementOf(id) == Some(r2)
  }

  /** The control's crosswalk: its paragraph of the FAR, its requirements of NIST SP 800-171, and AWS's ids for
      those in order, if there are any. */
  ghost predicate CrosswalkOf(s: Sources, req: Requirement, crosswalk: map<string, string>)
  {
    && "far" in crosswalk && crosswalk["far"] == "52.204-21(b)(1)(" + req.paragraph + ")"
    && "800-171r2" in crosswalk && crosswalk["800-171r2"] == Join(req.r2, ", ")
    && ("aws_config_mapping_id" in crosswalk <==> exists id :: DrawsOn(s, req, id))
    && ("aws_config_mapping_id" in crosswalk ==> exists ids ::
          && StrictlySorted(TextKey, ids) && (forall id :: id in ids <==> DrawsOn(s, req, id))
          && crosswalk["aws_config_mapping_id"] == Join(ids, ", "))
    && crosswalk.Keys <= {"far", "800-171r2", "aws_config_mapping_id"}
  }

  /** The control says what the sources say of the requirement, and is classed by what it carries. */
  ghost predicate Describes(s: Sources, req: Requirement, c: Control)
  {
    && c.id == req.id
    && req.id in s.titles && c.title == s.titles[req.id]
    && req.paragraph in s.statements && c.statement == s.statements[req.paragraph]
    && c.attestation == (if req.id in s.procedural then Some(s.procedural[req.id]) else None)
    && CrosswalkOf(s, req, c.crosswalk)
    && c.scp.None?
    && (forall e :: e in c.enforcement <==>
          || (e == "config-rule" && c.configRules != [])
          || (e == "procedural" && c.attestation.Some?))
    && c.enforcement != []
  }

  lemma {:induction false} MappedIdsDrawn(s: Sources, r2: seq<string>, id: string)
    requires MappingKeysOk(s.mapping)
    ensures id in MappedIds(Index(s.mapping), r2) <==>
              id in s.mapping && exists r | r in r2 :: RequirementOf(id) == Some(r)
  {
    hide Index;
    IndexMeaning(s.mapping);
    MappedIdsMeaning(Index(s.mapping), r2, id);
  }

  lemma CrosswalkIsOf(s: Sources, req: Requirement)
    requires MappingKeysOk(s.mapping)
    ensures CrosswalkOf(s, req, CrosswalkFor(req, MappedIds(Index(s.mapping), req.r2)))
  {
    hide Index, SortedUnique, MappedIds, Join, RequirementOf;
    var awsIds := MappedIds(Index(s.mapping), req.r2);
    forall id
      ensures id in awsIds <==> DrawsOn(s, req, id)
    {
      MappedIdsDrawn(s, req.r2, id);
    }
    hide DrawsOn;
    SortedUniqueMeaning(awsIds);
    var ids := SortedUnique(awsIds);
    forall id
      ensures id in ids <==> DrawsOn(s, req, id)
    {
      assert (id in ids <==> id in Elements(ids)) && (id in awsIds <==> id in Elements(awsIds));
    }
    if awsIds != [] {
      assert awsIds[0] in awsIds;
    }
  }

  lemma ControlIsDescribed(s: Sources, req: Requirement)
    requires MappingKeysOk(s.mapping) && IndexOk(s, Index(s.mapping)) && ControlFor(s, Index(s.mapping), req).Ok?
    ensures Describes(s, req, ControlFor(s, Index(s.mapping), req).value)
  {
    CrosswalkIsOf(s, req);
    hide Index, RulesFor, CuratedRules, SortedUnique, MappedNames, IndexOk, MappedIds, CrosswalkFor, CrosswalkOf,
         MappingKeysOk;
  }

  // ---------------------------------------------------------------------------------------------
  // Order does not matter

  /** The same rules for each key, in whatever order and however often. */
  predicate SameMapping(a: map<string, seq<string>>, b: map<string, seq<string>>)
  {
    a.Keys == b.Keys && forall id | id in a :: Elements(a[id]) == Elements(b[id])
  }

  lemma SameIndex(a: map<string, seq<string>>, b: map<string, seq<string>>)
    requires a.Keys == b.Keys
    ensures MappingKeysOk(a) <==> MappingKeysOk(b)
    ensures MappingKeysOk(a) ==> Index(a) == Index(b)
  {
    if MappingKeysOk(a) {
      IndexMeaning(a);
      IndexMeaning(b);
      assert Index(a).Keys == Index(b).Keys;
      forall r2 | r2 in Index(a)
        ensures Index(a)[r2] == Index(b)[r2]
      {
        assert RequirementOf(Index(a)[r2]) == Some(r2) && RequirementOf(Index(b)[r2]) == Some(r2);
      }
    }
  }

  lemma {:induction false} SameMappedNames(s: Sources, t: Sources, index: map<string, string>, r2: seq<string>)
    requires IndexOk(s, index) && IndexOk(t, index) && SameMapping(s.mapping, t.mapping)
    ensures Elements(MappedNames(s, index, r2)) == Elements(MappedNames(t, index, r2))
  {
    if r2 != [] {
      SameMappedNames(s, t, index, r2[1..]);
      var a := if r2[0] in index then s.mapping[index[r2[0]]] else [];
      var b := if r2[0] in index then t.mapping[index[r2[0]]] else [];
      assert Elements(a) == Elements(b);
      ElementsOfSum(a, MappedNames(s, index, r2[1..]));
      ElementsOfSum(b, MappedNames(t, index, r2[1..]));
    }
  }

  lemma ElementsOfSum(a: seq<string>, b: seq<string>)
    ensures Elements(a + b) == Elements(a) + Elements(b)
  {
  }

  lemma {:induction false} SameRules(s: Sources, t: Sources, names: seq<string>, provenance: string,
      why: map<string, string>)
    requires t == s.(mapping := t.mapping)
    ensures RulesFor(s, names, provenance, why) == RulesFor(t, names, provenance, why)
  {
    if names != [] {
      SameRules(s, t, names[1..], provenance, why);
    }
  }

  lemma SameControl(s: Sources, t: Sources, index: map<string, string>, req: Requirement)
    requires IndexOk(s, index) && IndexOk(t, index) && SameMapping(s.mapping, t.mapping)
             && t == s.(mapping := t.mapping)
    ensures ControlFor(s, index, req) == ControlFor(t, index, req)
  {
    hide RulesFor, SortedUnique, MappedNames, SameMapping, CrosswalkFor;
    SameMappedNames(s, t, index, req.r2);
    SortedUniqueSame(MappedNames(s, index, req.r2), MappedNames(t, index, req.r2));
    SameRules(s, t, SortedUnique(MappedNames(s, index, req.r2)), AWS_MAPPING, map[]);
    if req.id in s.curated {
      SameRules(s, t, SortedUnique(RuleNames(s.curated[req.id])), CURATED, Rationales(s.curated[req.id]));
    }
  }

  lemma {:induction false} SameControls(s: Sources, t: Sources, index: map<string, string>, reqs: seq<Requirement>)
    requires IndexOk(s, index) && IndexOk(t, index) && SameMapping(s.mapping, t.mapping)
             && t == s.(mapping := t.mapping)
    ensures ControlsFor(s, index, reqs) == ControlsFor(t, index, reqs)
  {
    hide ControlFor, SameMapping;
    if reqs != [] {
      SameControl(s, t, index, reqs[0]);
      SameControls(s, t, index, reqs[1..]);
    }
  }

  /** The catalog depends on which rules AWS maps where, not on the order or repetition in its lists. */
  lemma MappingOrderIsImmaterial(s: Sources, t: Sources)
    requires SameMapping(s.mapping, t.mapping) && t == s.(mapping := t.mapping)
    ensures Compile(s) == Compile(t)
  {
    hide Index, ControlsFor, CuratedKept, AllClaimed;
    SameIndex(s.mapping, t.mapping);
    if MappingKeysOk(s.mapping) {
      IndexMeaning(s.mapping);
      IndexMeaning(t.mapping);
      SameControls(s, t, Index(s.mapping), s.crosswalk);
    }
  }
}
