/** Exactly when the join fails, and over what. */
module CatalogErrors {
  import opened Options
  import opened Lists
  import opened SetText
  import opened ArtifactTypes
  import opened Catalog
  import opened CatalogJoin

  // ---------------------------------------------------------------------------------------------
  // One rule

  /** Some parameter of the rule has no declared order. */
  predicate Unordered(s: Sources, name: string)
  {
    name in s.rules && exists k | k in s.rules[name].parameters :: k !in s.paramOrders
  }

  /** What is wrong with a rule that is to go on a control; one bound by hand needs a reason. */
  function RuleFault(s: Sources, name: string, reason: Option<string>): Option<CatalogError>
  {
    if name !in s.rules then Some(NoSuchRule)
    else if reason == Some("") then Some(NoRationale)
    else if Unordered(s, name) then Some(NoOrder)
    else None
  }

  function Failure<T>(r: Result<T, CatalogError>): Option<CatalogError>
  {
    if r.Err? then Some(r.error) else None
  }

  function Reason(provenance: string, why: map<string, string>, name: string): Option<string>
  {
    if provenance == "curated" then Some(if name in why then why[name] else "") else None
  }

  lemma RuleFails(s: Sources, name: string, provenance: string, why: map<string, string>)
    ensures Failure(RuleFor(s, name, provenance, why)) == RuleFault(s, name, Reason(provenance, why, name))
  {
  }

  /** Of rules in order of their names, the first that has something wrong with it decides. */
  ghost predicate FirstFails(
    s: Sources, names: iset<string>, provenance: string, why: map<string, string>, e: Option<CatalogError>)
  {
    if e.None? then forall n | n in names :: RuleFault(s, n, Reason(provenance, why, n)) == None
    else
      exists n | n in names ::
        && RuleFault(s, n, Reason(provenance, why, n)) == e
        && forall m | m in names && Less(m, n) :: RuleFault(s, m, Reason(provenance, why, m)) == None
  }

  ghost function Members(list: seq<string>): iset<string>
  {
    iset x | x in list
  }

  lemma {:induction false} RulesFail(s: Sources, names: seq<string>, provenance: string, why: map<string, string>)
    requires StrictlySorted(TextKey, names)
    ensures FirstFails(s, Members(names), provenance, why, Failure(RulesFor(s, names, provenance, why)))
  {
    hide RuleFor, RuleFault, Less;
    if names != [] {
      var rest := names[1..];
      RuleFails(s, names[0], provenance, why);
      RulesFail(s, rest, provenance, why);
      SortedTail(names);
      assert names == [names[0]] + rest;
      var e := Failure(RulesFor(s, names, provenance, why));
      var first := RuleFault(s, names[0], Reason(provenance, why, names[0]));
      assert names[0] in Members(names) && forall x :: x in Members(rest) ==> x in Members(names);
      if first.Some? {
        assert e == first;
        NoneBefore(names);
      } else if e.Some? {
        var n :| n in Members(rest) && RuleFault(s, n, Reason(provenance, why, n)) == e
                 && forall m | m in Members(rest) && Less(m, n) :: RuleFault(s, m, Reason(provenance, why, m)) == None;
        assert forall m | m in Members(names) :: m == names[0] || m in Members(rest);
      }
    }
  }

  lemma SortedTail(names: seq<string>)
    requires names != [] && StrictlySorted(TextKey, names)
    ensures StrictlySorted(TextKey, names[1..])
  {
  }

  lemma NoneBefore(names: seq<string>)
    requires names != [] && StrictlySorted(TextKey, names)
    ensures forall m | m in names :: !Less(m, names[0])
  {
    hide Less;
    forall i | 0 <= i < |names|
      ensures !Less(names[i], names[0])
    {
      LessIrreflexive(names[0]);
      if i > 0 {
        assert KeyLess(TextKey(names[0]), TextKey(names[i]));
        OnlyTexts(names[0], names[i]);
        if Less(names[i], names[0]) {
          LessTransitive(names[0], names[i], names[0]);
        }
      }
    }
  }

  lemma OnlyTexts(a: string, b: string)
    ensures KeyLess(TextKey(a), TextKey(b)) <==> Less(a, b)
  {
    hide Less;
    assert TextKey(a)[0] == a && TextKey(b)[0] == b;
    assert TextKey(a)[1..] == [] && TextKey(b)[1..] == [];
  }

  // ---------------------------------------------------------------------------------------------
  // One control

  /** AWS maps the rule to a requirement of the control. */
  ghost predicate MapsTo(s: Sources, req: Requirement, name: string)
  {
    exists r2 | r2 in req.r2 :: Maps(s.mapping, r2, name)
  }

  ghost function MappedRules(s: Sources, req: Requirement): iset<string>
  {
    iset name: string | MapsTo(s, req, name)
  }

  /** The rule is bound by hand for the control. */
  ghost predicate BoundTo(s: Sources, id: string, name: string)
  {
    id in s.curated && exists b | b in s.curated[id] :: b.rule == name
  }

  ghost function BoundRules(s: Sources, id: string): iset<string>
  {
    iset name: string | BoundTo(s, id, name)
  }

  /** Two bindings of the control are of one rule. */
  ghost predicate TwiceBound(s: Sources, id: string)
  {
    id in s.curated
    && exists i, j | 0 <= i < j < |s.curated[id]| :: s.curated[id][i].rule == s.curated[id][j].rule
  }

  /** A rule that AWS maps to the control goes by the name of one that is bound for it. */
  ghost predicate Clashes(s: Sources, req: Requirement)
  {
    exists n | n in MappedRules(s, req) :: n in s.rules && s.rules[n].name in BoundRules(s, req.id)
  }

  ghost predicate Covered(s: Sources, req: Requirement)
  {
    req.id in s.procedural || (exists n :: n in MappedRules(s, req)) || exists n :: n in BoundRules(s, req.id)
  }

  /** What is wrong with a requirement, in the order in which it is looked at: title, statement, the rules that
      AWS maps to it, those bound by hand, and whether anything covers it. */
  ghost predicate ControlFails(s: Sources, req: Requirement, e: Option<CatalogError>)
  {
    var reasons := if req.id in s.curated then Rationales(s.curated[req.id]) else map[];
    if req.id !in s.titles then e == Some(NoTitle(req.id))
    else if req.paragraph !in s.statements then e == Some(NoStatement(req.id))
    else if !FirstFails(s, MappedRules(s, req), "aws-mapping", map[], None) then
      e.Some? && FirstFails(s, MappedRules(s, req), "aws-mapping", map[], e)
    else if TwiceBound(s, req.id) then e == Some(BoundTwice(req.id))
    else if Clashes(s, req) then e == Some(AlreadyMapped(req.id))
    else if !FirstFails(s, BoundRules(s, req.id), "curated", reasons, None) then
      e.Some? && FirstFails(s, BoundRules(s, req.id), "curated", reasons, e)
    else if !Covered(s, req) then e == Some(NoCoverage(req.id))
    else e == None
  }

  lemma MappedList(s: Sources, req: Requirement)
    requires MappingKeysOk(s.mapping) && IndexOk(s, Index(s.mapping))
    ensures var names := SortedUnique(MappedNames(s, Index(s.mapping), req.r2));
            StrictlySorted(TextKey, names) && Members(names) == MappedRules(s, req)
  {
    hide Index, MappedNames, Maps, SortedUnique, StrictlySorted;
    var all := MappedNames(s, Index(s.mapping), req.r2);
    SortedUniqueMeaning(all);
    forall name
      ensures name in SortedUnique(all) <==> name in MappedRules(s, req)
    {
      MappedNamesMeaning(s, req.r2, name);
      assert name in SortedUnique(all) <==> name in Elements(SortedUnique(all));
      assert name in all <==> name in Elements(all);
    }
  }

  lemma BoundList(s: Sources, id: string)
    requires id in s.curated
    ensures var names := SortedUnique(RuleNames(s.curated[id]));
            StrictlySorted(TextKey, names) && Members(names) == BoundRules(s, id)
    ensures Distinct(RuleNames(s.curated[id])) <==> !TwiceBound(s, id)
    ensures forall name :: name in Rationales(s.curated[id]) <==> name in BoundRules(s, id)
  {
    hide SortedUnique, StrictlySorted, RuleNames, Rationales;
    var bindings := s.curated[id];
    var all := RuleNames(bindings);
    SortedUniqueMeaning(all);
    forall name
      ensures name in SortedUnique(all) <==> name in BoundRules(s, id)
      ensures name in Rationales(bindings) <==> name in BoundRules(s, id)
    {
      NamedByBinding(bindings, name);
      ReasonsGiven(bindings, name);
      assert name in SortedUnique(all) <==> name in Elements(SortedUnique(all));
      assert name in all <==> name in Elements(all);
    }
    NamedByBinding(bindings, "");
  }

  lemma {:induction false} ReasonsGiven(bindings: seq<Binding>, name: string)
    ensures name in Rationales(bindings) <==> exists b | b in bindings :: b.rule == name
  {
    if bindings != [] {
      var front := bindings[..|bindings| - 1];
      ReasonsGiven(front, name);
      assert bindings == front + [bindings[|bindings| - 1]];
    }
  }

  /** The rules built for the mapped names go by the names that the source gives them. */
  lemma ClashFound(s: Sources, req: Requirement, names: seq<string>, mapped: seq<ConfigRule>)
    requires Members(names) == MappedRules(s, req) && Matches(s, mapped, names, AWS_MAPPING, map[])
    requires req.id in s.curated
    ensures NamesOneOf(mapped, Rationales(s.curated[req.id])) <==> Clashes(s, req)
  {
    hide RuleFor, Rationales, MappedRules, BoundRules;
    BoundList(s, req.id);
    var why := Rationales(s.curated[req.id]);
    forall i | 0 <= i < |names|
      ensures names[i] in MappedRules(s, req)
      ensures names[i] in s.rules && mapped[i].name == s.rules[names[i]].name
    {
      assert names[i] in names && names[i] in Members(names);
      NameOfRule(s, names[i], AWS_MAPPING, map[]);
    }
    if NamesOneOf(mapped, why) {
      var r :| r in mapped && r.name in why;
      var i :| 0 <= i < |mapped| && mapped[i] == r;
      assert s.rules[names[i]].name in BoundRules(s, req.id);
    }
    if Clashes(s, req) {
      var n :| n in MappedRules(s, req) && n in s.rules && s.rules[n].name in BoundRules(s, req.id);
      assert n in Members(names);
      var i :| 0 <= i < |names| && names[i] == n;
      assert mapped[i] in mapped && mapped[i].name in why;
    }
  }

  lemma NameOfRule(s: Sources, name: string, provenance: string, why: map<string, string>)
    requires RuleFor(s, name, provenance, why).Ok?
    ensures name in s.rules && RuleFor(s, name, provenance, why).value.name == s.rules[name].name
  {
  }

  /** The rules bound by hand, as the control gets them. */
  lemma BoundFail(s: Sources, req: Requirement, mapped: seq<ConfigRule>)
    requires req.id in s.curated && Distinct(RuleNames(s.curated[req.id]))
    requires !NamesOneOf(mapped, Rationales(s.curated[req.id]))
    ensures FirstFails(s, BoundRules(s, req.id), "curated", Rationales(s.curated[req.id]),
                       Failure(CuratedRules(s, req.id, mapped)))
    ensures CuratedRules(s, req.id, mapped).Ok? ==>
              (CuratedRules(s, req.id, mapped).value != [] <==> exists n :: n in BoundRules(s, req.id))
  {
    hide RulesFor, RuleNames, Rationales, SortedUnique, BoundRules, NamesOneOf;
    var names := SortedUnique(RuleNames(s.curated[req.id]));
    BoundList(s, req.id);
    RulesFail(s, names, CURATED, Rationales(s.curated[req.id]));
    RulesMatch(s, names, CURATED, Rationales(s.curated[req.id]));
    if names != [] {
      assert names[0] in Members(names);
    }
    if n :| n in BoundRules(s, req.id) {
      assert n in Members(names);
    }
  }

  /** A control fails over the first thing that is wrong with its requirement, and is built when nothing is. */
  lemma ControlFailsExactly(s: Sources, req: Requirement)
    requires MappingKeysOk(s.mapping) && IndexOk(s, Index(s.mapping))
    ensures ControlFails(s, req, Failure(ControlFor(s, Index(s.mapping), req)))
  {
    hide RulesFor, SortedUnique, MappedNames, MappedIds, CrosswalkFor, FirstFails, MappedRules, BoundRules, Index,
         RuleNames, Rationales, NamesOneOf, TwiceBound, Clashes, CuratedRules;
    var names := SortedUnique(MappedNames(s, Index(s.mapping), req.r2));
    var r := RulesFor(s, names, AWS_MAPPING, map[]);
    MappedList(s, req);
    RulesFail(s, names, AWS_MAPPING, map[]);
    OneOutcome(s, MappedRules(s, req), "aws-mapping", map[], Failure(r));
    if r.Ok? {
      RulesMatch(s, names, AWS_MAPPING, map[]);
      SomeMapped(s, req, names, r.value);
      var c := CuratedRules(s, req.id, r.value);
      if req.id in s.curated {
        BoundList(s, req.id);
        ClashFound(s, req, names, r.value);
        CuratedSteps(s, req.id, r.value);
        if !TwiceBound(s, req.id) && !Clashes(s, req) {
          BoundFail(s, req, r.value);
          OneOutcome(s, BoundRules(s, req.id), "curated", Rationales(s.curated[req.id]), Failure(c));
        }
      } else {
        NothingBound(s, req, r.value);
      }
    }
  }

  lemma CuratedSteps(s: Sources, id: string, mapped: seq<ConfigRule>)
    requires id in s.curated
    ensures var c := CuratedRules(s, id, mapped);
            && (!Distinct(RuleNames(s.curated[id])) ==> c == Err(BoundTwice(id)))
            && (Distinct(RuleNames(s.curated[id])) && NamesOneOf(mapped, Rationales(s.curated[id])) ==>
                  c == Err(AlreadyMapped(id)))
  {
  }

  lemma SomeMapped(s: Sources, req: Requirement, names: seq<string>, mapped: seq<ConfigRule>)
    requires Members(names) == MappedRules(s, req) && |mapped| == |names|
    ensures mapped != [] <==> exists n :: n in MappedRules(s, req)
  {
    hide MappedRules;
    if names != [] {
      assert names[0] in Members(names);
    }
  }

  lemma NothingBound(s: Sources, req: Requirement, mapped: seq<ConfigRule>)
    requires req.id !in s.curated
    ensures CuratedRules(s, req.id, mapped) == Ok([]) && !TwiceBound(s, req.id) && !Clashes(s, req)
    ensures (forall n :: n !in BoundRules(s, req.id)) && FirstFails(s, BoundRules(s, req.id), "curated", map[], None)
  {
  }

  /** Either nothing is wrong with any of the rules, or something is. */
  lemma OneOutcome(
      s: Sources, names: iset<string>, provenance: string, why: map<string, string>, e: Option<CatalogError>)
    requires FirstFails(s, names, provenance, why, e)
    ensures e.Some? ==> !FirstFails(s, names, provenance, why, None)
  {
  }

  // ---------------------------------------------------------------------------------------------
  // The whole join

  /** A mapping key stands for no requirement, or two stand for one. */
  ghost predicate BadKeys(mapping: map<string, seq<string>>)
  {
    || (exists id | id in mapping :: RequirementOf(id) == None)
    || exists a, b | a in mapping && b in mapping && a != b :: RequirementOf(a) == RequirementOf(b)
  }

  /** AWS maps a requirement that no control lists. */
  ghost predicate Orphaned(s: Sources)
  {
    exists id, r2 | id in s.mapping && RequirementOf(id) == Some(r2) ::
      forall req | req in s.crosswalk :: r2 !in req.r2
  }

  /** A binding made by hand is on no control of its id, or not as curated with its own reason. */
  ghost predicate BindingLost(s: Sources, controls: seq<Control>)
  {
    exists id, b | id in s.curated && b in s.curated[id] ::
      ById(controls, id).None? || LostAmong(ById(controls, id).value.configRules, b)
  }

  /** No rule goes by the binding's name, or one that does is not curated with its reason. */
  ghost predicate LostAmong(rules: seq<ConfigRule>, b: Binding)
  {
    || (forall r | r in rules :: r.name != b.rule)
    || exists r | r in rules :: r.name == b.rule && (r.provenance != "curated" || r.rationale != b.rationale)
  }

  lemma LostOrKept(rules: seq<ConfigRule>, b: Binding)
    ensures LostAmong(rules, b) <==> !BindingKept(rules, b)
  {
    if !LostAmong(rules, b) {
      var r :| r in rules && r.name == b.rule;
    }
  }

  /** The id has bindings for a control that is not there, even if the list of them is empty. */
  ghost predicate ControlLost(s: Sources, controls: seq<Control>)
  {
    exists id | id in s.curated :: ById(controls, id).None?
  }

  lemma KeysAreBad(mapping: map<string, seq<string>>)
    ensures BadKeys(mapping) <==> !MappingKeysOk(mapping)
  {
    if MappingKeysOk(mapping) {
      forall a, b | a in mapping && b in mapping && a != b
        ensures RequirementOf(a) != RequirementOf(b)
      {
      }
    } else if forall id | id in mapping :: RequirementOf(id).Some? {
      var a, b :| a in mapping && b in mapping && a != b && RequirementOf(a) == RequirementOf(b);
    }
  }

  lemma {:induction false} ControlsFail(s: Sources, reqs: seq<Requirement>)
    requires MappingKeysOk(s.mapping) && IndexOk(s, Index(s.mapping))
    ensures var r := ControlsFor(s, Index(s.mapping), reqs);
            if r.Err? then
              exists i :: 0 <= i < |reqs| && ControlFails(s, reqs[i], Some(r.error))
                          && forall j | 0 <= j < i :: ControlFails(s, reqs[j], None)
            else forall i | 0 <= i < |reqs| :: ControlFails(s, reqs[i], None)
  {
    hide ControlFor, ControlFails, Index;
    if reqs != [] {
      var rest := reqs[1..];
      ControlFailsExactly(s, reqs[0]);
      ControlsFail(s, rest);
      assert forall i | 1 <= i < |reqs| :: reqs[i] == rest[i - 1];
      var r := ControlsFor(s, Index(s.mapping), reqs);
      var first := ControlFor(s, Index(s.mapping), reqs[0]);
      if first.Err? {
        assert ControlFails(s, reqs[0], Some(r.error));
      } else if r.Err? {
        var i :| 0 <= i < |rest| && ControlFails(s, rest[i], Some(r.error))
                 && forall j | 0 <= j < i :: ControlFails(s, rest[j], None);
        assert ControlFails(s, reqs[i + 1], Some(r.error));
        assert forall j | 0 <= j < i + 1 :: ControlFails(s, reqs[j], None);
      }
    }
  }

  lemma OrphansFound(s: Sources)
    requires MappingKeysOk(s.mapping)
    ensures Orphaned(s) <==> !AllClaimed(s.crosswalk, Index(s.mapping))
  {
    hide Index, RequirementOf, MappingKeysOk;
    IndexMeaning(s.mapping);
    if Orphaned(s) {
      var id, r2 :| id in s.mapping && RequirementOf(id) == Some(r2)
                    && forall req | req in s.crosswalk :: r2 !in req.r2;
      assert RequirementOf(id).value in Index(s.mapping) && !Claimed(s.crosswalk, r2);
    }
    if !AllClaimed(s.crosswalk, Index(s.mapping)) {
      var r2 :| r2 in Index(s.mapping) && !Claimed(s.crosswalk, r2);
      var id := Index(s.mapping)[r2];
      assert id in s.mapping && RequirementOf(id) == Some(r2);
    }
  }

  lemma LostFound(s: Sources, controls: seq<Control>)
    ensures BindingLost(s, controls) || ControlLost(s, controls) <==> !CuratedKept(s.curated, controls)
  {
    hide ById, LostAmong, BindingKept;
    forall rules: seq<ConfigRule>, b: Binding
      ensures LostAmong(rules, b) <==> !BindingKept(rules, b)
    {
      LostOrKept(rules, b);
    }
  }

  /** The join fails over a bad mapping key first; then over the first requirement, in order, that has something
      wrong with it; then over requirements that AWS maps and no control lists; then over bindings that are not
      kept. Otherwise it succeeds. */
  lemma CompileFailsExactly(s: Sources)
    ensures var r := Compile(s);
            if BadKeys(s.mapping) then r == Err(BadMappingKey)
            else if exists i | 0 <= i < |s.crosswalk| :: !ControlFails(s, s.crosswalk[i], None) then
              r.Err? && exists i :: 0 <= i < |s.crosswalk| && ControlFails(s, s.crosswalk[i], Some(r.error))
                                    && forall j | 0 <= j < i :: ControlFails(s, s.crosswalk[j], None)
            else
              && MappingKeysOk(s.mapping) && IndexOk(s, Index(s.mapping))
              && ControlsFor(s, Index(s.mapping), s.crosswalk).Ok?
              && var controls := ControlsFor(s, Index(s.mapping), s.crosswalk).value;
                 if Orphaned(s) then r == Err(Orphans)
                 else if BindingLost(s, controls) || ControlLost(s, controls) then r == Err(CuratedMismatch)
                 else r == Ok(controls)
  {
    hide BadKeys, MappingKeysOk, ControlFails, ControlsFor, Index, AllClaimed, CuratedKept, Orphaned, BindingLost,
         ControlLost;
    KeysAreBad(s.mapping);
    if MappingKeysOk(s.mapping) {
      IndexMeaning(s.mapping);
      ControlsFail(s, s.crosswalk);
      OrphansFound(s);
      var r := ControlsFor(s, Index(s.mapping), s.crosswalk);
      if r.Ok? {
        LostFound(s, r.value);
      } else {
        var i :| 0 <= i < |s.crosswalk| && ControlFails(s, s.crosswalk[i], Some(r.error))
                 && forall j | 0 <= j < i :: ControlFails(s, s.crosswalk[j], None);
        NotNone(s, s.crosswalk[i], r.error);
      }
    }
  }

  lemma NotNone(s: Sources, req: Requirement, e: CatalogError)
    requires ControlFails(s, req, Some(e))
    ensures !ControlFails(s, req, None)
  {
    hide FirstFails, MappedRules, BoundRules, TwiceBound, Clashes, Covered;
  }
}
