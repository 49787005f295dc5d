/** The catalog as it is published: the joined controls, sealed with their hash and validated. */
module CatalogArtifact {
  import opened Options
  import opened Lists
  import opened StableSort
  import opened SetText
  import opened ArtifactTypes
  import opened Canonical
  import opened Validation
  import opened Artifacts
  import opened ArtifactObject
  import opened Catalog
  import opened CatalogJoin
  import opened CatalogCompile

  /** What a catalog says of itself. */
  datatype Edition = Edition(schemaVersion: string, meta: Meta)

  /** The document as the join leaves it, before it is sealed. */
  function Joined(e: Edition, controls: seq<Control>): Document
  {
    Document(e.schemaVersion, e.meta, controls, None)
  }

  /** The whole compile: join, seal, validate. */
  ghost function Compiled(s: Sources, e: Edition, hash: Hash, sh: Shapes): Result<Document, CatalogError>
  {
    var controls := Compile(s);
    if controls.Err? then Err(controls.error)
    else if Valid(sh, Sealed(hash, Joined(e, controls.value))) then Ok(Sealed(hash, Joined(e, controls.value)))
    else Err(BreaksSchema)
  }

  method CompileCatalog(s: Sources, e: Edition, hash: Hash, sh: Shapes) returns (r: Result<Artifact, CatalogError>)
    ensures r.Ok? ==> fresh(r.value) && Compiled(s, e, hash, sh) == Ok(r.value.Doc())
    ensures r.Err? ==> Compiled(s, e, hash, sh) == Err(r.error)
  {
    hide Valid, Compile, Sealed;
    var controls := JoinSources(s);
    if controls.Err? {
      return Err(controls.error);
    }
    var a := new Artifact(Joined(e, controls.value));
    a.SetContentHash(hash);
    if !Valid(sh, a.Doc()) {
      return Err(BreaksSchema);
    }
    r := Ok(a);
  }

  // ---------------------------------------------------------------------------------------------
  // Canonical form keeps what a control says

  lemma SetSaysTheSame(p: RuleParameter, value: string, order: string)
    requires SaysValue(p, value, order)
    ensures SaysValue(CanonParameter(p), value, order)
  {
    hide MembersOf, Respell;
    assert Unambiguous(DEFAULT_SET_SEPARATOR);
    KeepsMembersExactly(DEFAULT_SET_SEPARATOR);
  }

  lemma CanonRuleDerives(s: Sources, r: ConfigRule, name: string, provenance: string)
    requires Derives(s, r, name, provenance)
    ensures Derives(s, CanonRule(r), name, provenance)
  {
    hide CanonParameter, SaysValue, SortedUnique;
    SortedUniqueMeaning(r.resourceTypes);
    forall k | k in r.parameters
      ensures SaysValue(CanonParameter(r.parameters[k]), s.rules[name].parameters[k], s.paramOrders[k])
    {
      SetSaysTheSame(r.parameters[k], s.rules[name].parameters[k], s.paramOrders[k]);
    }
  }

  /** The rules of a control in canonical form are the canonical forms of its rules. */
  lemma CanonRules(c: Control)
    ensures forall r | r in c.configRules :: CanonRule(r) in CanonControl(c).configRules
    ensures forall q | q in CanonControl(c).configRules :: exists r :: r in c.configRules && CanonRule(r) == q
  {
    hide CanonRule, CanonEnforcement, CanonBlock, SortBy;
    MapElements(CanonRule, c.configRules);
    SortByPermutes(RuleKey, Map(CanonRule, c.configRules));
    var sorted := SortBy(RuleKey, Map(CanonRule, c.configRules));
    assert forall q :: q in CanonControl(c).configRules <==> q in Elements(sorted);
    assert forall r | r in c.configRules :: CanonRule(r) in Elements(Map(CanonRule, c.configRules));
  }

  lemma CanonKeepsMapped(s: Sources, c: Control, name: string)
    requires CarriesMapped(s, c, name)
    ensures CarriesMapped(s, CanonControl(c), name)
  {
    hide CanonControl, CanonRule, Derives;
    CanonRules(c);
    var r :| r in c.configRules && Derives(s, r, name, AWS_MAPPING);
    CanonRuleDerives(s, r, name, AWS_MAPPING);
  }

  lemma CanonKeepsFounded(s: Sources, req: Requirement, r: ConfigRule)
    ensures CanonRule(r).provenance == r.provenance
    ensures Mapped(s, req, r) ==> Mapped(s, req, CanonRule(r))
    ensures BoundByHand(s, req, r) ==> BoundByHand(s, req, CanonRule(r))
  {
    assert CanonRule(r).provenance == r.provenance && CanonRule(r).rationale == r.rationale;
    hide CanonRule, Derives, Maps;
    if Mapped(s, req, r) {
      var name, r2 :| r2 in req.r2 && Maps(s.mapping, r2, name) && Derives(s, r, name, AWS_MAPPING);
      CanonRuleDerives(s, r, name, AWS_MAPPING);
    }
    if BoundByHand(s, req, r) {
      var b :| b in s.curated[req.id] && Derives(s, r, b.rule, CURATED) && r.rationale == b.rationale
        && b.rationale != "";
      CanonRuleDerives(s, r, b.rule, CURATED);
    }
  }

  lemma CanonKeepsBinding(c: Control, b: Binding)
    requires BindingKept(c.configRules, b)
    ensures BindingKept(CanonControl(c).configRules, b)
  {
    assert forall r :: CanonRule(r).name == r.name;
    assert forall r :: CanonRule(r).provenance == r.provenance && CanonRule(r).rationale == r.rationale;
    CanonRules(c);
  }

  function NameKey(r: ConfigRule): Key { [r.name] }

  lemma {:induction false} OnceIsOnly(rules: seq<ConfigRule>, name: string)
    ensures NamedOnce(rules, name) <==> |Only(NameKey, [name], rules)| == 1
  {
    OnlyElements(NameKey, [name], rules);
    if rules != [] {
      var rest := rules[1..];
      OnceIsOnly(rest, name);
      OnlyElements(NameKey, [name], rest);
      assert NameKey(rules[0]) == [name] <==> rules[0].name == name;
      assert forall i | 1 <= i < |rules| :: rules[i] == rest[i - 1];
      if rules[0].name == name {
        FirstNamed(rules, name);
      } else {
        LaterNamed(rules, name);
      }
    }
  }

  lemma FirstNamed(rules: seq<ConfigRule>, name: string)
    requires rules != [] && rules[0].name == name
    ensures NamedOnce(rules, name) <==> Only(NameKey, [name], rules[1..]) == []
  {
    var rest := rules[1..];
    var only := Only(NameKey, [name], rest);
    OnlyElements(NameKey, [name], rest);
    if only != [] {
      assert only[0] in only;
      var i :| 0 <= i < |rest| && rest[i] == only[0];
      assert NameKey(only[0])[0] == name && rules[i + 1] == rest[i];
      forall k: nat | k < |rules|
        ensures !OnlyAt(rules, name, k)
      {
        assert rules[0].name == name && rules[i + 1].name == name;
      }
    } else {
      forall j | 1 <= j < |rules|
        ensures rules[j].name != name
      {
        assert rest[j - 1] in rest && NameKey(rest[j - 1])[0] == rules[j].name;
      }
      assert OnlyAt(rules, name, 0);
    }
  }

  lemma LaterNamed(rules: seq<ConfigRule>, name: string)
    requires rules != [] && rules[0].name != name
    ensures NamedOnce(rules, name) <==> NamedOnce(rules[1..], name)
  {
    var rest := rules[1..];
    if NamedOnce(rules, name) {
      var k :| 0 <= k < |rules| && OnlyAt(rules, name, k);
      OneEarlier(rules, name, k);
    }
    if NamedOnce(rest, name) {
      var k :| 0 <= k < |rest| && OnlyAt(rest, name, k);
      OneEarlier(rules, name, k + 1);
    }
  }

  lemma OneEarlier(rules: seq<ConfigRule>, name: string, k: nat)
    requires 1 <= k < |rules| && rules[0].name != name
    ensures OnlyAt(rules[1..], name, k - 1) <==> OnlyAt(rules, name, k)
  {
    var rest := rules[1..];
    assert forall j | 1 <= j < |rules| :: rules[j] == rest[j - 1];
    assert forall j | 0 <= j < |rest| :: rest[j] == rules[j + 1];
  }

  lemma CanonKeepsOnce(c: Control, name: string)
    ensures NamedOnce(CanonControl(c).configRules, name) <==> NamedOnce(c.configRules, name)
  {
    hide NamedOnce, CanonRule, CanonEnforcement, CanonBlock;
    var mapped := Map(CanonRule, c.configRules);
    MappedOnce(c.configRules, name);
    SortByPermutes(RuleKey, mapped);
    OnceIsOnly(mapped, name);
    OnceIsOnly(SortBy(RuleKey, mapped), name);
    OnlyLengths(NameKey, [name], SortBy(RuleKey, mapped), mapped);
  }

  lemma MappedOnce(rules: seq<ConfigRule>, name: string)
    ensures NamedOnce(Map(CanonRule, rules), name) <==> NamedOnce(rules, name)
  {
    assert forall r :: CanonRule(r).name == r.name;
    hide CanonRule;
    var mapped := Map(CanonRule, rules);
    assert forall i | 0 <= i < |rules| :: mapped[i].name == rules[i].name;
    assert forall k: nat | k < |rules| :: OnlyAt(mapped, name, k) <==> OnlyAt(rules, name, k);
  }

  lemma CanonKeepsDescription(s: Sources, req: Requirement, c: Control)
    requires Describes(s, req, c)
    ensures Describes(s, req, CanonControl(c))
  {
    hide CanonRule, SortBy, CrosswalkOf, CanonEnforcement;
    SortByPermutes(RuleKey, Map(CanonRule, c.configRules));
    SameClasses(c.enforcement);
    assert c.enforcement[0] in CanonEnforcement(c.enforcement);
    assert |multiset(SortBy(RuleKey, Map(CanonRule, c.configRules)))| == |multiset(Map(CanonRule, c.configRules))|;
  }

  lemma SameClasses(classes: seq<string>)
    ensures forall e :: e in CanonEnforcement(classes) <==> e in classes
  {
    DedupeMeaning(classes);
    SortByPermutes(ClassKey, Dedupe(classes));
    forall e
      ensures e in CanonEnforcement(classes) <==> e in classes
    {
      assert e in CanonEnforcement(classes) <==> e in Elements(CanonEnforcement(classes));
      assert e in classes <==> e in Elements(classes);
    }
  }

  // ---------------------------------------------------------------------------------------------
  // The published controls

  lemma {:induction false} ByIdFinds(controls: seq<Control>, c: Control)
    requires DistinctKeys(IdKey, controls) && c in controls
    ensures ById(controls, c.id) == Some(c)
  {
    var n := |controls| - 1;
    if controls[n].id == c.id {
      var i :| 0 <= i < |controls| && controls[i] == c;
      assert IdKey(controls[i]) == IdKey(controls[n]);
    } else {
      assert c in controls[..n];
      ByIdFinds(controls[..n], c);
    }
  }

  /** The published controls are the canonical forms of those the join yields, each under its own id. */
  lemma PublishedControls(s: Sources, e: Edition, hash: Hash, sh: Shapes, d: Document)
    requires Compiled(s, e, hash, sh) == Ok(d)
    ensures Compile(s).Ok? && d.controls == CanonControls(Compile(s).value)
    ensures Sorted(IdKey, d.controls) && DistinctKeys(IdKey, d.controls) && |d.controls| == |Compile(s).value|
    ensures forall c | c in Compile(s).value :: CanonControl(c) in d.controls
    ensures forall c | c in d.controls :: exists b :: b in Compile(s).value && CanonControl(b) == c
  {
    hide Compile, CanonControl, ContentHash, ValidControl, ValidMeta, SortBy;
    var controls := Compile(s).value;
    MapElements(CanonControl, controls);
    SortByPermutes(IdKey, Map(CanonControl, controls));
    SortBySorted(IdKey, Map(CanonControl, controls));
    assert d.controls == CanonControls(controls);
    assert |multiset(d.controls)| == |multiset(Map(CanonControl, controls))|;
    assert forall c :: c in d.controls <==> c in Elements(d.controls);
    assert forall c | c in controls :: CanonControl(c) in Elements(Map(CanonControl, controls));
  }

  /** The control published for a requirement is the one the join makes of it, in canonical form. */
  lemma PublishedControl(s: Sources, e: Edition, hash: Hash, sh: Shapes, d: Document, req: Requirement)
    requires Compiled(s, e, hash, sh) == Ok(d) && req in s.crosswalk
    ensures MappingKeysOk(s.mapping) && IndexOk(s, Index(s.mapping)) && ControlFor(s, Index(s.mapping), req).Ok?
    ensures ById(d.controls, req.id) == Some(CanonControl(ControlFor(s, Index(s.mapping), req).value))
  {
    hide Compile, ControlFor, Index, CanonControls, Compiled, CuratedKept, AllClaimed, Layered;
    PublishedControls(s, e, hash, sh, d);
    CompiledParts(s);
    var i :| 0 <= i < |s.crosswalk| && s.crosswalk[i] == req;
    var c := Compile(s).value[i];
    ControlIsLayered(s, req);
    assert CanonControl(c).id == c.id;
    ByIdFinds(d.controls, CanonControl(c));
  }

  /** Every published control is that of a requirement. */
  lemma OfRequirement(s: Sources, e: Edition, hash: Hash, sh: Shapes, d: Document, c: Control)
    requires Compiled(s, e, hash, sh) == Ok(d) && c in d.controls
    ensures exists req :: req in s.crosswalk && req.id == c.id
  {
    hide Compile, ControlFor, Index, CanonControls, Compiled, CuratedKept, AllClaimed, Layered;
    PublishedControls(s, e, hash, sh, d);
    CompiledParts(s);
    var b :| b in Compile(s).value && CanonControl(b) == c;
    var i :| 0 <= i < |s.crosswalk| && Compile(s).value[i] == b;
    ControlIsLayered(s, s.crosswalk[i]);
    assert s.crosswalk[i] in s.crosswalk && c.id == b.id;
  }

  lemma BoundIsCurated(s: Sources, req: Requirement, r: ConfigRule)
    requires BoundByHand(s, req, r)
    ensures r.provenance == "curated"
  {
  }

  // ---------------------------------------------------------------------------------------------
  // The main results

  /** Nothing is dropped: each rule AWS maps to a requirement of the standard is, as AWS's, on every
      published control that lists the requirement, and some published control lists it. */
  lemma NothingDropped(s: Sources, e: Edition, hash: Hash, sh: Shapes, d: Document, r2: string, name: string)
    requires Compiled(s, e, hash, sh) == Ok(d) && Maps(s.mapping, r2, name)
    ensures Claimed(s.crosswalk, r2)
    ensures forall req | req in s.crosswalk && r2 in req.r2 ::
              ById(d.controls, req.id).Some? && CarriesMapped(s, ById(d.controls, req.id).value, name)
  {
    hide Compile, ControlFor, Index, CarriesMapped, CuratedKept, Claimed, Compiled, ById, CanonControl;
    PublishedControls(s, e, hash, sh, d);
    CompiledParts(s);
    var id :| id in s.mapping && RequirementOf(id) == Some(r2) && name in s.mapping[id];
    IndexMeaning(s.mapping);
    assert r2 in Index(s.mapping);
    forall req | req in s.crosswalk && r2 in req.r2
      ensures ById(d.controls, req.id).Some? && CarriesMapped(s, ById(d.controls, req.id).value, name)
    {
      PublishedControl(s, e, hash, sh, d, req);
      MappedRuleCarried(s, req, name, r2);
      CanonKeepsMapped(s, ControlFor(s, Index(s.mapping), req).value, name);
    }
  }

  /** Nothing is invented: every rule on a published control is either AWS's for one of the control's
      requirements and marked so, or bound by hand for that control with a reason and marked so. */
  lemma NothingInvented(s: Sources, e: Edition, hash: Hash, sh: Shapes, d: Document, req: Requirement, r: ConfigRule)
    requires Compiled(s, e, hash, sh) == Ok(d) && req in s.crosswalk
    requires ById(d.controls, req.id).Some? && r in ById(d.controls, req.id).value.configRules
    ensures (r.provenance == "aws-mapping" && Mapped(s, req, r))
            || (r.provenance == "curated" && BoundByHand(s, req, r))
  {
    hide Compile, ControlFor, Index, Mapped, BoundByHand, Compiled, ById, CanonControl, CanonRule;
    PublishedControl(s, e, hash, sh, d, req);
    var c := ControlFor(s, Index(s.mapping), req).value;
    CanonRules(c);
    var r0 :| r0 in c.configRules && CanonRule(r0) == r;
    RuleIsFounded(s, req, r0);
    CanonKeepsFounded(s, req, r0);
    if r0.provenance != AWS_MAPPING {
      BoundIsCurated(s, req, r0);
    }
  }

  /** Each binding made by hand is on the published control of its id, as curated and with its own reason,
      and no rule of AWS's there has its name. It is there exactly once if and only if no other rule bound
      for that control goes by the same name. */
  lemma BindingsAppearOnce(s: Sources, e: Edition, hash: Hash, sh: Shapes, d: Document, id: string, b: Binding)
    requires Compiled(s, e, hash, sh) == Ok(d) && id in s.curated && b in s.curated[id]
    ensures ById(d.controls, id).Some?
    ensures var rules := ById(d.controls, id).value.configRules;
            && BindingKept(rules, b)
            && (NamedOnce(rules, b.rule) <==> OneGoesBy(s, RuleNames(s.curated[id]), b.rule))
  {
    hide Compile, ControlFor, Index, AllClaimed, BindingKept, NamedOnce, OneGoesBy, Compiled, CanonControl, Layered;
    PublishedControls(s, e, hash, sh, d);
    CompiledParts(s);
    var controls := Compile(s).value;
    ByIdExists(controls, id);
    var i :| 0 <= i < |controls| && controls[i].id == id && ById(controls, id) == Some(controls[i]);
    ControlIsLayered(s, s.crosswalk[i]);
    assert BindingKept(controls[i].configRules, b);
    BindingOnControl(s, s.crosswalk[i], b);
    assert s.crosswalk[i] in s.crosswalk;
    PublishedControl(s, e, hash, sh, d, s.crosswalk[i]);
    CanonKeepsBinding(controls[i], b);
    CanonKeepsOnce(controls[i], b.rule);
  }

  lemma {:induction false} ByIdExists(controls: seq<Control>, id: string)
    requires ById(controls, id).Some?
    ensures exists i :: 0 <= i < |controls| && controls[i].id == id && ById(controls, id) == Some(controls[i])
  {
    var n := |controls| - 1;
    if controls[n].id != id {
      ByIdExists(controls[..n], id);
      var i :| 0 <= i < n && controls[i].id == id && ById(controls[..n], id) == Some(controls[..n][i]);
      assert ById(controls, id) == Some(controls[i]);
    }
  }

  /** Every requirement becomes one published control, which says what the sources say of it, and every
      published control is of a requirement; one no rule covers is not dropped but marked procedural with its
      attestation. */
  lemma EveryRequirementAppears(s: Sources, e: Edition, hash: Hash, sh: Shapes, d: Document)
    requires Compiled(s, e, hash, sh) == Ok(d)
    ensures |d.controls| == |s.crosswalk|
    ensures Sorted(IdKey, d.controls) && DistinctKeys(IdKey, d.controls)
    ensures forall c | c in d.controls :: exists req :: req in s.crosswalk && req.id == c.id
    ensures forall req | req in s.crosswalk ::
              ById(d.controls, req.id).Some? && Describes(s, req, ById(d.controls, req.id).value)
  {
    hide Compile, ControlFor, Index, AllClaimed, CuratedKept, Describes, Compiled, CanonControl, ById, Sorted;
    PublishedControls(s, e, hash, sh, d);
    CompiledParts(s);
    forall c | c in d.controls
      ensures exists req :: req in s.crosswalk && req.id == c.id
    {
      OfRequirement(s, e, hash, sh, d, c);
    }
    forall req | req in s.crosswalk
      ensures ById(d.controls, req.id).Some? && Describes(s, req, ById(d.controls, req.id).value)
    {
      PublishedControl(s, e, hash, sh, d, req);
      ControlIsDescribed(s, req);
      CanonKeepsDescription(s, req, ControlFor(s, Index(s.mapping), req).value);
    }
  }

  /** A catalog is published when the join succeeds and what it yields is valid once sealed, and then it is valid,
      bears the hash of its own content, and says of itself what it was given to say. */
  lemma PublishedExactly(s: Sources, e: Edition, hash: Hash, sh: Shapes)
    ensures var r := Compiled(s, e, hash, sh);
            && (Compile(s).Err? ==> r == Err(Compile(s).error))
            && (Compile(s).Ok? ==>
                  var sealed := Sealed(hash, Document(e.schemaVersion, e.meta, Compile(s).value, None));
                  r == if Valid(sh, sealed) then Ok(sealed) else Err(BreaksSchema))
            && (r.Ok? ==>
                  var d := r.value;
                  && Valid(sh, d) && d.meta.contentHash == ContentHash(hash, d)
                  && d.schemaVersion == e.schemaVersion && d.exemptServices == None
                  && d.meta.id == e.meta.id && d.meta.title == e.meta.title
                  && d.meta.description == e.meta.description && d.meta.compiledAt == e.meta.compiledAt
                  && multiset(d.meta.sources) == multiset(e.meta.sources))
  {
    hide Compile, Valid, ContentText, CanonControls, SortBy;
    if Compile(s).Ok? {
      var before := Joined(e, Compile(s).value);
      SortByPermutes(SourceKey, e.meta.sources);
      SealedTwice(hash, before);
      JoinIsStable(s);
      CanonDocumentIdempotent(before);
    }
  }

  // ---------------------------------------------------------------------------------------------
  // What is written is what was compiled

  lemma FoundedIsStable(s: Sources, req: Requirement, r: ConfigRule)
    requires Mapped(s, req, r) || BoundByHand(s, req, r)
    ensures StableRule(r)
  {
    hide Maps, StableParameter, MembersOf;
    assert exists name, provenance :: Derives(s, r, name, provenance);
    forall k | k in r.parameters
      ensures StableParameter(r.parameters[k])
    {
      assert Unambiguous(r.parameters[k].Separator());
      UnambiguousIsStable(r.parameters[k]);
    }
  }

  lemma JoinIsStable(s: Sources)
    requires Compile(s).Ok?
    ensures StableControls(Compile(s).value)
  {
    hide Compile, ControlFor, Index, AllClaimed, CuratedKept, StableRule, Mapped, BoundByHand;
    CompiledParts(s);
    var controls := Compile(s).value;
    forall c, r | c in controls && r in c.configRules
      ensures StableRule(r)
    {
      var i :| 0 <= i < |controls| && controls[i] == c;
      RuleIsFounded(s, s.crosswalk[i], r);
      FoundedIsStable(s, s.crosswalk[i], r);
    }
  }

  /** A compiled catalog is written as it was compiled, so that compiling again finds the written copy up
      to date, and it comes back unchanged from a load under any options. */
  lemma CompiledComesBack(s: Sources, e: Edition, hash: Hash, sh: Shapes, opts: LoadOptions, d: Document)
    requires Compiled(s, e, hash, sh) == Ok(d)
    ensures Written(hash, sh, d) == Ok(d) && Loaded(hash, sh, opts, d) == Ok(d)
  {
    hide Compile, Valid, CanonDocument, ContentText, StableControls;
    var before := Joined(e, Compile(s).value);
    JoinIsStable(s);
    WriteThenLoad(hash, sh, opts, before);
    CanonDocumentIdempotent(before);
    SealedTwice(hash, before);
    SealedAgain(hash, before);
  }

  lemma SealedAgain(hash: Hash, d: Document)
    requires CanonDocument(Sealed(hash, d)) == Sealed(hash, d)
    ensures Sealed(hash, Sealed(hash, d)) == Sealed(hash, d)
  {
    hide CanonDocument, ContentText;
  }
}
