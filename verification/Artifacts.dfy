/** The artifact that the program canonicalizes, hashes, writes and loads. */
module Artifacts {
  import opened Options
  import opened Lists
  import opened StableSort
  import opened ArtifactTypes
  import opened CanonicalJson
  import opened Canonical
  import opened ContentEncoding
  import opened Validation

  // ---------------------------------------------------------------------------------------------
  // The canonical text

  /** The text that the content hash covers. */
  ghost function ContentText(controls: seq<Control>, exemptServices: seq<string>): string
  {
    Print(ContentJson(CanonControls(controls), SortedUnique(exemptServices)))
  }

  lemma {:induction false} FieldMapWellFormed(fields: seq<Field>)
    requires forall f | f in fields && f.1.Some? :: WellFormed(f.1.value)
    ensures WellFormed(Object(FieldMap(fields)))
  {
    if fields != [] {
      FieldMapWellFormed(fields[..|fields| - 1]);
    }
  }

  lemma ItemsWellFormed<T(!new)>(f: T -> Value, list: seq<T>)
    requires forall x | x in list :: WellFormed(f(x))
    ensures WellFormed(Array(Map(f, list)))
  {
  }

  lemma TextsWellFormed(list: seq<string>)
    ensures WellFormed(Texts(list))
  {
    ItemsWellFormed(TextItem, list);
  }

  lemma ParameterWellFormed(p: RuleParameter)
    ensures WellFormed(ParameterJson(p))
  {
    FieldMapWellFormed(ParameterFields(p));
  }

  lemma RuleWellFormed(r: ConfigRule)
    ensures WellFormed(RuleJson(r))
  {
    hide FieldMap, Texts;
    TextsWellFormed(r.resourceTypes);
    forall k | k in r.parameters
      ensures WellFormed(ParameterJson(r.parameters[k]))
    {
      ParameterWellFormed(r.parameters[k]);
    }
    hide ParameterJson;
    assert WellFormed(Object(ParametersJson(r.parameters)));
    hide ParametersJson;
    FieldMapWellFormed(RuleFields(r));
  }

  lemma ConditionWellFormed(c: Condition)
    ensures WellFormed(Object(ConditionJson(c)))
  {
    hide Texts;
    forall op | op in c
      ensures WellFormed(ValuesJson(c[op]))
    {
      forall k | k in c[op]
        ensures WellFormed(Texts(c[op][k]))
      {
        TextsWellFormed(c[op][k]);
      }
    }
  }

  lemma ExemptWellFormed(e: ExemptPrincipal)
    ensures WellFormed(ExemptJson(e))
  {
    FieldMapWellFormed(ExemptFields(e));
  }

  lemma StatementWellFormed(s: Statement)
    ensures WellFormed(StatementJson(s))
  {
    hide FieldMap, Texts, ConditionJson, ExemptJson, Map;
    TextsWellFormed(s.action);
    TextsWellFormed(s.resource);
    ConditionWellFormed(s.condition);
    forall e | e in s.exemptPrincipals
      ensures WellFormed(ExemptJson(e))
    {
      ExemptWellFormed(e);
    }
    ItemsWellFormed(ExemptJson, s.exemptPrincipals);
    FieldMapWellFormed(StatementFields(s));
  }

  lemma SCPWellFormed(s: SCP)
    ensures WellFormed(SCPJson(s))
  {
    hide FieldMap, Texts, StatementJson, Map;
    TextsWellFormed(s.regionAllowlist);
    TextsWellFormed(s.serviceAllowlist);
    forall t | t in Items(s.statements)
      ensures WellFormed(StatementJson(t))
    {
      StatementWellFormed(t);
    }
    ItemsWellFormed(StatementJson, Items(s.statements));
    FieldMapWellFormed(SCPFields(s));
  }

  lemma ControlWellFormed(c: Control)
    ensures WellFormed(ControlJson(c))
  {
    hide FieldMap, Texts, SCPJson, RuleJson, AttestationFields, Map;
    TextsWellFormed(c.enforcement);
    if c.scp.Some? {
      SCPWellFormed(c.scp.value);
    }
    if c.attestation.Some? {
      AttestationWellFormed(c.attestation.value);
    }
    forall r | r in c.configRules
      ensures WellFormed(RuleJson(r))
    {
      RuleWellFormed(r);
    }
    ItemsWellFormed(RuleJson, c.configRules);
    FieldMapWellFormed(ControlFields(c));
  }

  lemma AttestationWellFormed(a: Attestation)
    ensures WellFormed(AttestationJson(a))
  {
    FieldMapWellFormed(AttestationFields(a));
  }

  lemma ContentWellFormed(controls: seq<Control>, exemptServices: seq<string>)
    ensures WellFormed(ContentJson(controls, exemptServices))
  {
    hide FieldMap, ControlJson, Texts, Map;
    TextsWellFormed(exemptServices);
    forall c | c in controls
      ensures WellFormed(ControlJson(c))
    {
      ControlWellFormed(c);
    }
    ItemsWellFormed(ControlJson, controls);
    FieldMapWellFormed(ContentFields(controls, exemptServices));
  }

  /** Two artifacts agree: their controls do in step, and they name the same services. */
  ghost predicate AgreeBy(agree: Agreement, a: seq<Control>, s: seq<string>, b: seq<Control>, t: seq<string>)
  {
    InStep(IdKey, ControlsBy(agree), a, b) && SameMembersAs(s, t)
  }

  /** Two artifacts say the same, their sets by members. */
  ghost predicate SayTheSame(a: seq<Control>, s: seq<string>, b: seq<Control>, t: seq<string>)
  {
    AgreeBy(SameParameter, a, s, b, t)
  }

  /** Two artifacts read the same, their sets by canonical spelling. */
  ghost predicate ReadTheSame(a: seq<Control>, s: seq<string>, b: seq<Control>, t: seq<string>)
  {
    AgreeBy(SpelledAlike, a, s, b, t)
  }

  /** Two artifacts have the same canonical text exactly when they read the same: no order among entries
      with different keys, no repeat and no spelling of the default separator reaches the text. Two that say
      the same do. On legible separators only those do: nothing is lost. */
  lemma ContentTextExactly(a: seq<Control>, s: seq<string>, b: seq<Control>, t: seq<string>)
    ensures ContentText(a, s) == ContentText(b, t) <==> ReadTheSame(a, s, b, t)
    ensures SayTheSame(a, s, b, t) ==> ContentText(a, s) == ContentText(b, t)
    ensures LegibleControls(a) ==> (ContentText(a, s) == ContentText(b, t) <==> SayTheSame(a, s, b, t))
  {
    hide InStep, CanonControls, ContentJson, SortedUnique, Print, LegibleControls;
    ContentWellFormed(CanonControls(a), SortedUnique(s));
    ContentWellFormed(CanonControls(b), SortedUnique(t));
    PrintInjective(ContentJson(CanonControls(a), SortedUnique(s)),
                   ContentJson(CanonControls(b), SortedUnique(t)));
    ContentJsonSame(CanonControls(a), SortedUnique(s), CanonControls(b), SortedUnique(t));
    ControlsSame(a, b);
    SortedUniqueSame(s, t);
  }

  function WithStatements(c: Control, statements: Nilable<Statement>, regions: seq<string>): Control
  {
    c.(scp := Some(SCP(statements, regions, [])))
  }

  lemma StatementsMatter(c: Control, regions: seq<string>)
    requires regions != []
    ensures !ControlsBy(SpelledAlike)(WithStatements(c, None, regions), WithStatements(c, Some([]), regions))
  {
    hide SameUpTo;
  }

  /** A missing statement list and an empty one are different content, even beside an allowlist. */
  lemma AbsentStatementsDiffer(c: Control, regions: seq<string>, s: seq<string>)
    requires regions != []
    ensures ContentText([WithStatements(c, None, regions)], s) != ContentText([WithStatements(c, Some([]), regions)], s)
  {
    var a, b := WithStatements(c, None, regions), WithStatements(c, Some([]), regions);
    StatementsMatter(c, regions);
    hide ControlsBy, ContentText, WithStatements, InStep;
    ContentTextExactly([a], s, [b], s);
    if InStep(IdKey, ControlsBy(SpelledAlike), [a], [b]) {
      SinglesInStep(IdKey, ControlsBy(SpelledAlike), a, b);
    }
  }

  // ---------------------------------------------------------------------------------------------
  // Documents

  datatype Source = Source(
    catalog: string, mapping: string, artifact: string,
    version: string, retrievedAt: string, uri: string, sha256: string, note: string)

  /** The kind of a source and the value that names it; neither when not exactly one is set. */
  function KindKey(s: Source): (string, string)
  {
    if s.catalog != "" && s.mapping == "" && s.artifact == "" then ("catalog", s.catalog)
    else if s.catalog == "" && s.mapping != "" && s.artifact == "" then ("mapping", s.mapping)
    else if s.catalog == "" && s.mapping == "" && s.artifact != "" then ("artifact", s.artifact)
    else ("", "")
  }

  function SourceKey(s: Source): Key { [KindKey(s).0, KindKey(s).1, s.sha256] }

  datatype Meta = Meta(
    id: string, title: string, description: string,
    sources: seq<Source>, compiledAt: string, contentHash: string)

  datatype Document = Document(
    schemaVersion: string,
    meta: Meta,
    controls: seq<Control>,
    exemptServices: Nilable<string>)

  /** A hash of texts. Nothing is assumed of it except where a lemma says so. */
  type Hash = string -> string

  /** A source names exactly one kind of input and the hash of the bytes consumed. */
  predicate ValidSource(sh: Shapes, s: Source)
  {
    && KindKey(s).0 != ""
    && s.sha256 != "" && sh.sha256(s.sha256)
    && (s.retrievedAt != "" ==> sh.timestamp(s.retrievedAt))
  }

  predicate ValidMeta(sh: Shapes, m: Meta)
  {
    && m.id != "" && sh.artifactId(m.id)
    && m.title != ""
    && m.compiledAt != "" && sh.timestamp(m.compiledAt)
    && m.contentHash != "" && sh.sha256(m.contentHash)
    && m.sources != [] && forall s | s in m.sources :: ValidSource(sh, s)
  }

  predicate Valid(sh: Shapes, d: Document)
  {
    && d.schemaVersion != "" && sh.supportedVersion(d.schemaVersion)
    && ValidMeta(sh, d.meta)
    && ValidControls(sh, d.controls)
    && ValidExemptServices(sh, d.exemptServices)
  }

  function CanonExemptServices(list: Nilable<string>): Nilable<string>
  {
    if list.None? then None else Some(SortedUnique(list.value))
  }

  function CanonDocument(d: Document): Document
  {
    d.(meta := d.meta.(sources := SortBy(SourceKey, d.meta.sources)),
       controls := CanonControls(d.controls),
       exemptServices := CanonExemptServices(d.exemptServices))
  }

  ghost function ContentHash(hash: Hash, d: Document): string
  {
    hash(ContentText(d.controls, Items(d.exemptServices)))
  }

  /** Canonical form is a fixed point exactly when the set-valued texts are stable. */
  lemma CanonDocumentIdempotent(d: Document)
    ensures CanonDocument(CanonDocument(d)) == CanonDocument(d) <==> StableControls(d.controls)
  {
    hide CanonControls, SortedUnique, StableControls, SortBy;
    ControlsIdempotent(d.controls);
    SortedUniqueIdempotent(Items(d.exemptServices));
    SortBySorted(SourceKey, d.meta.sources);
    SortBySortedIsSame(SourceKey, SortBy(SourceKey, d.meta.sources));
  }

  /** Canonicalizing keeps the hashed text, and so the hash, exactly when the set-valued texts are stable. */
  lemma CanonKeepsHash(hash: Hash, d: Document)
    ensures var c := CanonDocument(d);
            ContentText(c.controls, Items(c.exemptServices)) == ContentText(d.controls, Items(d.exemptServices))
            <==> StableControls(d.controls)
    ensures StableControls(d.controls) ==> ContentHash(hash, CanonDocument(d)) == ContentHash(hash, d)
  {
    hide CanonControls, SortedUnique, StableControls, ContentJson, Print;
    var c := CanonDocument(d);
    var once, twice := CanonControls(d.controls), CanonControls(CanonControls(d.controls));
    var services := SortedUnique(Items(d.exemptServices));
    ControlsIdempotent(d.controls);
    SortedUniqueIdempotent(Items(d.exemptServices));
    ContentWellFormed(once, services);
    ContentWellFormed(twice, services);
    PrintInjective(ContentJson(twice, services), ContentJson(once, services));
    ContentJsonSame(twice, services, once, services);
    assert SortedUnique(Items(c.exemptServices)) == services;
  }

  /** A valid document stays valid in canonical form unless a set loses all its members. */
  lemma CanonStaysValid(sh: Shapes, d: Document)
    requires Valid(sh, d)
    ensures Valid(sh, CanonDocument(d)) <==> ControlsKeepMembers(d.controls)
  {
    hide ValidControls, CanonControls, ControlsKeepMembers, ValidSource;
    var sources := SortBy(SourceKey, d.meta.sources);
    SortByPermutes(SourceKey, d.meta.sources);
    assert forall s :: s in sources ==> s in Elements(d.meta.sources);
    ControlsStayValid(sh, d.controls);
    SortedUniqueDistinct(Items(d.exemptServices));
  }

  // ---------------------------------------------------------------------------------------------
  // Writing and loading

  datatype Refusal = Invalid | HashMismatch

  /** Set the hash: canonicalize, then hash. */
  ghost function Sealed(hash: Hash, d: Document): Document
  {
    var c := CanonDocument(d);
    c.(meta := c.meta.(contentHash := ContentHash(hash, c)))
  }

  /** What a write puts on disk: the sealed document, if it is valid, canonicalized once more. */
  ghost function Written(hash: Hash, sh: Shapes, d: Document): Result<Document, Refusal>
  {
    if Valid(sh, Sealed(hash, d)) then Ok(CanonDocument(Sealed(hash, d))) else Err(Invalid)
  }

  datatype LoadOptions = LoadOptions(skipHashCheck: bool, skipValidate: bool)

  const STRICT := LoadOptions(false, false)

  /** What a load delivers: the document is validated as it stands, then canonicalized, and then its
      declared hash is checked. */
  ghost function Loaded(hash: Hash, sh: Shapes, opts: LoadOptions, d: Document): Result<Document, Refusal>
  {
    if !opts.skipValidate && !Valid(sh, d) then Err(Invalid)
    else
      var c := CanonDocument(d);
      if !opts.skipHashCheck && c.meta.contentHash != ContentHash(hash, c) then Err(HashMismatch) else Ok(c)
  }

  /** What a write puts on disk is what was sealed, and a load accepts it and gives it back. */
  ghost predicate ComesBack(hash: Hash, sh: Shapes, opts: LoadOptions, d: Document)
    requires Written(hash, sh, d).Ok?
  {
    var w := Written(hash, sh, d).value;
    w == Sealed(hash, d) && Loaded(hash, sh, opts, w) == Ok(w)
  }

  /** An artifact that a write accepts comes back equal from a load, under any options, exactly when its
      set-valued texts are stable. */
  lemma WriteThenLoad(hash: Hash, sh: Shapes, opts: LoadOptions, d: Document)
    requires Written(hash, sh, d).Ok?
    ensures ComesBack(hash, sh, opts, d) <==> StableControls(d.controls)
  {
    hide CanonControls, Valid, SortedUnique, ContentText, StableControls, SortBy;
    var c, sealed := CanonDocument(d), Sealed(hash, d);
    CanonDocumentIdempotent(d);
    SealedTwice(hash, d);
    if StableControls(d.controls) {
      assert CanonDocument(sealed) == sealed;
      assert ContentHash(hash, sealed) == ContentHash(hash, c);
    }
  }

  /** Canonicalizing what was sealed changes it exactly when canonicalizing twice does. */
  lemma SealedTwice(hash: Hash, d: Document)
    ensures CanonDocument(Sealed(hash, d)) == Sealed(hash, d) <==> CanonDocument(CanonDocument(d)) == CanonDocument(d)
  {
    hide CanonControls, SortedUnique, ContentText, SortBy;
  }

  /** A valid hand-edited copy that declares the written hash loads exactly when the hashed texts of the
      two canonical forms hash alike. It does so if it still says the same thing, or reads the same. If it
      does not, and the set-valued texts of both are stable, then it loads only on two different texts with
      one hash; on legible separators, not reading the same is not saying the same. */
  lemma EditedCopyLoads(hash: Hash, sh: Shapes, written: Document, edited: Document)
    requires Loaded(hash, sh, STRICT, written).Ok? && Valid(sh, edited)
    requires edited.meta.contentHash == written.meta.contentHash
    ensures var w, v, e, u := written.controls, Items(written.exemptServices),
                              edited.controls, Items(edited.exemptServices);
            var loaded := Loaded(hash, sh, STRICT, edited);
            && (loaded.Ok? <==> ContentHash(hash, CanonDocument(written)) == ContentHash(hash, CanonDocument(edited)))
            && (SayTheSame(w, v, e, u) ==> ReadTheSame(w, v, e, u))
            && (LegibleControls(w) && ReadTheSame(w, v, e, u) ==> SayTheSame(w, v, e, u))
            && (ReadTheSame(w, v, e, u) ==>
                  loaded.Ok? && loaded.value.controls == Loaded(hash, sh, STRICT, written).value.controls)
            && (loaded.Ok? && !ReadTheSame(w, v, e, u) && StableControls(w) && StableControls(e) ==>
                  ContentText(w, v) != ContentText(e, u) && ContentHash(hash, written) == ContentHash(hash, edited))
  {
    hide CanonControls, InStep, Valid, ContentText, SortedUnique, StableControls, SortBy, LegibleControls;
    ContentTextExactly(
      written.controls, Items(written.exemptServices), edited.controls, Items(edited.exemptServices));
    ControlsSame(written.controls, edited.controls);
    SortedUniqueSame(Items(written.exemptServices), Items(edited.exemptServices));
    if ReadTheSame(written.controls, Items(written.exemptServices), edited.controls, Items(edited.exemptServices)) {
      SameCanonicalText(written, edited);
    }
    CanonKeepsHash(hash, written);
    CanonKeepsHash(hash, edited);
  }

  lemma SameCanonicalText(a: Document, b: Document)
    requires CanonControls(a.controls) == CanonControls(b.controls)
    requires SortedUnique(Items(a.exemptServices)) == SortedUnique(Items(b.exemptServices))
    ensures var c, d := CanonDocument(a), CanonDocument(b);
            ContentText(c.controls, Items(c.exemptServices)) == ContentText(d.controls, Items(d.exemptServices))
  {
    hide CanonControls, SortedUnique, ContentText, SortBy;
    SortedUniqueIdempotent([]);
  }
}
