/** The compiler as it runs: maps are visited in no particular order, and what comes out does not depend on it. */
module CatalogCompile {
  import opened Options
  import opened Lists
  import opened ArtifactTypes
  import opened Catalog
  import opened CatalogJoin

  method CutRequirement(awsId: string) returns (r2: Option<string>)
    ensures r2 == RequirementOf(awsId)
  {
    var i := 0;
    assert awsId[0..] == awsId;
    while i < |awsId| && awsId[i] != '-'
      invariant i <= |awsId| && RequirementOf(awsId) == RequirementOf(awsId[i..])
    {
      assert awsId[i..][1..] == awsId[i + 1..];
      i := i + 1;
    }
    if i >= |awsId| - 1 {
      return None;
    }
    assert awsId[i..][1..] == awsId[i + 1..];
    return Some(awsId[i + 1..]);
  }

  /** Re-keys the mapping, or fails if two keys mean one requirement or a key means none. */
  method IndexAWSMapping(mapping: map<string, seq<string>>) returns (index: Option<map<string, string>>)
    ensures index == if MappingKeysOk(mapping) then Some(Index(mapping)) else None
  {
    var byR2: map<string, string> := map[];
    var left := mapping.Keys;
    while left != {}
      invariant left <= mapping.Keys
      invariant forall id | id in mapping.Keys - left ::
                  RequirementOf(id).Some? && RequirementOf(id).value in byR2 && byR2[RequirementOf(id).value] == id
      invariant forall r2 | r2 in byR2 :: byR2[r2] in mapping.Keys - left && RequirementOf(byR2[r2]) == Some(r2)
      decreases left
    {
      var awsId :| awsId in left;
      var r2 := CutRequirement(awsId);
      if r2.None? {
        return None;
      }
      if r2.value in byR2 {
        assert RequirementOf(byR2[r2.value]) == RequirementOf(awsId);
        return None;
      }
      byR2 := byR2[r2.value := awsId];
      left := left - {awsId};
    }
    IndexIsUnique(mapping, byR2);
    return Some(byR2);
  }

  lemma IndexIsUnique(mapping: map<string, seq<string>>, byR2: map<string, string>)
    requires forall id | id in mapping ::
               RequirementOf(id).Some? && RequirementOf(id).value in byR2 && byR2[RequirementOf(id).value] == id
    requires forall r2 | r2 in byR2 :: byR2[r2] in mapping && RequirementOf(byR2[r2]) == Some(r2)
    ensures MappingKeysOk(mapping) && byR2 == Index(mapping)
  {
    assert MappingKeysOk(mapping);
    IndexMeaning(mapping);
    forall r2 | r2 in byR2
      ensures r2 in Index(mapping) && Index(mapping)[r2] == byR2[r2]
    {
      assert Index(mapping)[RequirementOf(byR2[r2]).value] == byR2[r2];
    }
    assert byR2.Keys == Index(mapping).Keys;
  }

  /** The parameters of a rule, each with its order; the map is visited in no particular order. */
  method RuleParameters(s: Sources, given: map<string, string>) returns (parameters: Option<map<string, RuleParameter>>)
    ensures parameters == if exists k | k in given :: k !in s.paramOrders then None
                          else Some(map k | k in given && k in s.paramOrders ::
                            RuleParameter(given[k], s.paramOrders[k], ""))
  {
    var out: map<string, RuleParameter> := map[];
    var left := given.Keys;
    while left != {}
      invariant left <= given.Keys
      invariant forall k | k in given.Keys - left :: k in s.paramOrders
      invariant out == map k | k in given.Keys - left && k in s.paramOrders ::
                RuleParameter(given[k], s.paramOrders[k], "")
      decreases left
    {
      var k :| k in left;
      if k !in s.paramOrders {
        return None;
      }
      out := out[k := RuleParameter(given[k], s.paramOrders[k], "")];
      left := left - {k};
    }
    assert given.Keys - left == given.Keys;
    assert out == map k | k in given && k in s.paramOrders :: RuleParameter(given[k], s.paramOrders[k], "");
    return Some(out);
  }

  method ConfigRules(s: Sources, names: seq<string>, provenance: string, why: map<string, string>)
    returns (r: Result<seq<ConfigRule>, CatalogError>)
    ensures r == RulesFor(s, names, provenance, why)
  {
    hide RuleFor;
    var out := [];
    assert names[0..] == names;
    for i := 0 to |names|
      invariant RulesFor(s, names, provenance, why) == Prepend(out, RulesFor(s, names[i..], provenance, why))
    {
      assert names[i..][0] == names[i] && names[i..][1..] == names[i + 1..];
      var rule := OneRule(s, names[i], provenance, why);
      if rule.Err? {
        return Err(rule.error);
      }
      ghost var rest := RulesFor(s, names[i + 1..], provenance, why);
      assert rest.Ok? ==> out + ([rule.value] + rest.value) == out + [rule.value] + rest.value;
      out := out + [rule.value];
    }
    assert names[|names|..] == [];
    return Ok(out);
  }

  function Prepend<T>(front: seq<T>, r: Result<seq<T>, CatalogError>): (p: Result<seq<T>, CatalogError>)
    ensures front == [] ==> p == r
    ensures r == Ok([]) ==> p == Ok(front)
  {
    if r.Err? then r
    else
      assert front == [] ==> front + r.value == r.value;
      assert r.value == [] ==> front + r.value == front;
      Ok(front + r.value)
  }

  method OneRule(s: Sources, name: string, provenance: string, why: map<string, string>)
      returns (r: Result<ConfigRule, CatalogError>)
    ensures r == RuleFor(s, name, provenance, why)
  {
    if name !in s.rules {
      return Err(NoSuchRule);
    }
    var rationale := "";
    if provenance == CURATED {
      if name in why {
        rationale := why[name];
      }
      if rationale == "" {
        return Err(NoRationale);
      }
    }
    var source := s.rules[name];
    var parameters := RuleParameters(s, source.parameters);
    if parameters.None? {
      return Err(NoOrder);
    }
    return Ok(ConfigRule(
                source.identifier, source.name, provenance, rationale, parameters.value, source.resourceTypes));
  }

  /** The bindings made by hand for a control, each once, with their reasons. */
  method CollectBindings(bindings: seq<Binding>) returns (names: seq<string>, why: map<string, string>, twice: bool)
    ensures twice == !Distinct(RuleNames(bindings))
    ensures !twice ==> names == RuleNames(bindings) && why == Rationales(bindings)
  {
    names, why, twice := [], map[], false;
    for i := 0 to |bindings|
      invariant names == RuleNames(bindings[..i]) && why == Rationales(bindings[..i])
      invariant Distinct(names) && why.Keys == Elements(names)
    {
      var b := bindings[i];
      NamesOfPrefix(bindings, i);
      if b.rule in why {
        var j :| 0 <= j < |names| && names[j] == b.rule;
        NamedByBinding(bindings, b.rule);
        assert RuleNames(bindings)[j] == RuleNames(bindings)[i];
        return names, why, true;
      }
      assert bindings[..i + 1][..i] == bindings[..i];
      names := names + [b.rule];
      why := why[b.rule := b.rationale];
    }
    assert bindings[..|bindings|] == bindings;
  }

  lemma NamesOfPrefix(bindings: seq<Binding>, i: nat)
    requires i < |bindings|
    ensures RuleNames(bindings[..i + 1]) == RuleNames(bindings[..i]) + [bindings[i].rule]
    ensures |RuleNames(bindings[..i])| == i
    ensures forall j | 0 <= j < i :: RuleNames(bindings[..i])[j] == bindings[j].rule
  {
    NamedByBinding(bindings[..i + 1], bindings[i].rule);
    NamedByBinding(bindings[..i], bindings[i].rule);
    assert RuleNames(bindings[..i + 1]) == RuleNames(bindings[..i]) + [bindings[i].rule];
  }

  method BindCurated(s: Sources, id: string, mapped: seq<ConfigRule>) returns (r: Result<seq<ConfigRule>, CatalogError>)
    ensures r == CuratedRules(s, id, mapped)
  {
    hide Distinct, RuleNames, Rationales, RulesFor, SortedUnique;
    if id !in s.curated {
      return Ok([]);
    }
    var names, why, twice := CollectBindings(s.curated[id]);
    if twice {
      return Err(BoundTwice(id));
    }
    for i := 0 to |mapped|
      invariant forall j | 0 <= j < i :: mapped[j].name !in why
    {
      if mapped[i].name in why {
        return Err(AlreadyMapped(id));
      }
    }
    var unique := ComputeSortedUnique(names);
    r := ConfigRules(s, unique, CURATED, why);
  }

  /** Gathers what the mapping holds for a control's requirements. */
  method Gather(s: Sources, index: map<string, string>, r2s: seq<string>)
      returns (names: seq<string>, awsIds: seq<string>)
    requires IndexOk(s, index)
    ensures names == MappedNames(s, index, r2s) && awsIds == MappedIds(index, r2s)
  {
    names, awsIds := [], [];
    for i := 0 to |r2s|
      invariant MappedNames(s, index, r2s) == names + MappedNames(s, index, r2s[i..])
      invariant MappedIds(index, r2s) == awsIds + MappedIds(index, r2s[i..])
    {
      var r2 := r2s[i];
      assert r2s[i..][0] == r2 && r2s[i..][1..] == r2s[i + 1..];
      if r2 in index {
        names := names + s.mapping[index[r2]];
        awsIds := awsIds + [index[r2]];
      }
    }
    assert r2s[|r2s|..] == [];
  }

  method CompileControl(s: Sources, index: map<string, string>, req: Requirement)
      returns (r: Result<Control, CatalogError>)
    requires IndexOk(s, index)
    ensures r == ControlFor(s, index, req)
  {
    hide RulesFor, SortedUnique, CuratedRules, MappedNames, MappedIds;
    if req.id !in s.titles {
      return Err(NoTitle(req.id));
    }
    if req.paragraph !in s.statements {
      return Err(NoStatement(req.id));
    }
    var names, awsIds := Gather(s, index, req.r2);
    var unique := ComputeSortedUnique(names);
    var mapped := ConfigRules(s, unique, AWS_MAPPING, map[]);
    if mapped.Err? {
      return Err(mapped.error);
    }
    var bound := BindCurated(s, req.id, mapped.value);
    if bound.Err? {
      return Err(bound.error);
    }
    r := Assemble(s, req, awsIds, mapped.value + bound.value);
  }

  /** The controls in crosswalk order, and the requirements whose mapping they used. */
  method CompileControls(s: Sources, index: map<string, string>)
    returns (r: Result<seq<Control>, CatalogError>, consumed: set<string>)
    requires IndexOk(s, index)
    ensures r == ControlsFor(s, index, s.crosswalk)
    ensures r.Ok? ==> forall r2 ::
              r2 in consumed <==> r2 in index && exists j :: 0 <= j < |s.crosswalk| && r2 in s.crosswalk[j].r2
  {
    hide ControlFor, ControlsFor, IndexOk, Used, Prepend;
    var controls := [];
    consumed := {};
    assert s.crosswalk[0..] == s.crosswalk;
    NothingDone(s.crosswalk, index, ControlsFor(s, index, s.crosswalk));
    for i := 0 to |s.crosswalk|
      invariant ControlsFor(s, index, s.crosswalk) == Prepend(controls, ControlsFor(s, index, s.crosswalk[i..]))
      invariant Used(s.crosswalk, index, i, consumed)
    {
      var req := s.crosswalk[i];
      var control := CompileControl(s, index, req);
      NextControl(s, index, s.crosswalk, i, controls);
      if control.Err? {
        return Err(control.error), consumed;
      }
      UsedNext(s.crosswalk, index, i, consumed);
      consumed := consumed + set r2 | r2 in req.r2 && r2 in index;
      controls := controls + [control.value];
    }
    AllDone(s, index, controls, consumed);
    r := Ok(controls);
  }

  /** The requirements of the index that the first n controls claim. */
  ghost predicate Used(reqs: seq<Requirement>, index: map<string, string>, n: nat, used: set<string>)
    requires n <= |reqs|
  {
    forall r2 :: r2 in used <==> r2 in index && exists j :: 0 <= j < n && r2 in reqs[j].r2
  }

  lemma UsedNext(reqs: seq<Requirement>, index: map<string, string>, n: nat, used: set<string>)
    requires n < |reqs| && Used(reqs, index, n, used)
    ensures Used(reqs, index, n + 1, used + set r2 | r2 in reqs[n].r2 && r2 in index)
  {
  }

  lemma NothingDone(reqs: seq<Requirement>, index: map<string, string>, r: Result<seq<Control>, CatalogError>)
    ensures Used(reqs, index, 0, {}) && Prepend([], r) == r
  {
  }

  lemma AllDone(s: Sources, index: map<string, string>, controls: seq<Control>, used: set<string>)
    requires IndexOk(s, index) && Used(s.crosswalk, index, |s.crosswalk|, used)
    ensures Prepend(controls, ControlsFor(s, index, s.crosswalk[|s.crosswalk|..])) == Ok(controls)
    ensures forall r2 :: r2 in used <==> r2 in index && exists j :: 0 <= j < |s.crosswalk| && r2 in s.crosswalk[j].r2
  {
  }

  lemma NextControl(s: Sources, index: map<string, string>, reqs: seq<Requirement>, i: nat, done: seq<Control>)
    requires IndexOk(s, index) && i < |reqs|
    ensures var c := ControlFor(s, index, reqs[i]);
            Prepend(done, ControlsFor(s, index, reqs[i..]))
              == if c.Err? then Err(c.error) else Prepend(done + [c.value], ControlsFor(s, index, reqs[i + 1..]))
  {
    hide ControlFor, IndexOk;
    assert reqs[i..][0] == reqs[i] && reqs[i..][1..] == reqs[i + 1..];
    var c, rest := ControlFor(s, index, reqs[i]), ControlsFor(s, index, reqs[i + 1..]);
    if c.Ok? && rest.Ok? {
      assert done + ([c.value] + rest.value) == done + [c.value] + rest.value;
    }
  }

  /** The join, from the sources to the list of controls. */
  method JoinSources(s: Sources) returns (r: Result<seq<Control>, CatalogError>)
    ensures r == Compile(s)
  {
    hide ControlsFor, Index, MappingKeysOk, CuratedKept, AllClaimed;
    var index := IndexAWSMapping(s.mapping);
    if index.None? {
      return Err(BadMappingKey);
    }
    IndexMeaning(s.mapping);
    var consumed;
    r, consumed := CompileControls(s, index.value);
    if r.Err? {
      return;
    }
    ConsumedIsClaimed(s.crosswalk, index.value, consumed);
    if index.value.Keys - consumed != {} {
      return Err(Orphans);
    }
    var kept := CheckCuratedBindings(s.curated, r.value);
    if !kept {
      return Err(CuratedMismatch);
    }
  }

  lemma ConsumedIsClaimed(reqs: seq<Requirement>, index: map<string, string>, consumed: set<string>)
    requires forall r2 :: r2 in consumed <==> r2 in index && exists j :: 0 <= j < |reqs| && r2 in reqs[j].r2
    ensures AllClaimed(reqs, index) <==> index.Keys - consumed == {}
  {
    forall r2 | r2 in index
      ensures Claimed(reqs, r2) <==> r2 in consumed
    {
    }
    if index.Keys - consumed == {} {
      forall r2 | r2 in index
        ensures Claimed(reqs, r2)
      {
        assert r2 !in index.Keys - consumed;
      }
    } else {
      var r2 :| r2 in index.Keys - consumed;
      assert !Claimed(reqs, r2);
    }
  }

  method FindControl(controls: seq<Control>, id: string) returns (c: Option<Control>)
    ensures c == ById(controls, id)
  {
    var i := |controls|;
    assert controls[..i] == controls;
    while i > 0
      invariant i <= |controls| && ById(controls, id) == ById(controls[..i], id)
    {
      if controls[i - 1].id == id {
        return Some(controls[i - 1]);
      }
      assert controls[..i][..i - 1] == controls[..i - 1];
      i := i - 1;
    }
    return None;
  }

  method IsBindingKept(rules: seq<ConfigRule>, b: Binding) returns (kept: bool)
    ensures kept == BindingKept(rules, b)
  {
    var found := false;
    for k := 0 to |rules|
      invariant found <==> exists j :: 0 <= j < k && rules[j].name == b.rule
      invariant forall j | 0 <= j < k && rules[j].name == b.rule ::
                rules[j].provenance == CURATED && rules[j].rationale == b.rationale
    {
      if rules[k].name == b.rule {
        found := true;
        if rules[k].provenance != CURATED || rules[k].rationale != b.rationale {
          assert rules[k] in rules;
          return false;
        }
      }
    }
    return found;
  }

  /** Every binding made by hand is on its control as such. */
  method CheckCuratedBindings(curated: map<string, seq<Binding>>, controls: seq<Control>) returns (kept: bool)
    ensures kept == CuratedKept(curated, controls)
  {
    hide BindingKept, ById;
    var left := curated.Keys;
    while left != {}
      invariant left <= curated.Keys
      invariant forall id | id in curated.Keys - left ::
                  ById(controls, id).Some? && forall b | b in curated[id] ::
                    BindingKept(ById(controls, id).value.configRules, b)
      decreases left
    {
      var id :| id in left;
      var c := FindControl(controls, id);
      if c.None? {
        return false;
      }
      var bindings := curated[id];
      for i := 0 to |bindings|
        invariant forall j | 0 <= j < i :: BindingKept(c.value.configRules, bindings[j])
      {
        var one := IsBindingKept(c.value.configRules, bindings[i]);
        if !one {
          assert bindings[i] in curated[id];
          return false;
        }
      }
      left := left - {id};
    }
    return true;
  }
}
