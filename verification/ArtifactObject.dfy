/** The artifact as the program holds it: fields that are canonicalized, sealed, written and loaded in
    place, each operation proved against its specification. */
module ArtifactObject {
  import opened Options
  import opened Lists
  import opened SetText
  import opened ArtifactTypes
  import opened CanonicalJson
  import opened Canonical
  import opened ContentEncoding
  import opened Validation
  import opened Artifacts

  method CanonicalizeParameter(p: RuleParameter) returns (q: RuleParameter)
    ensures q == CanonParameter(p)
  {
    q := p;
    if q.setSeparator == DEFAULT_SET_SEPARATOR {
      q := q.(setSeparator := "");
    }
    if q.Order().IsSet() {
      var members := Members(q.value, q.Separator());
      q := q.(value := Join(members, q.Separator()));
    }
  }

  method CanonicalizeRule(r: ConfigRule) returns (out: ConfigRule)
    ensures out == CanonRule(r)
  {
    var types := ComputeSortedUnique(r.resourceTypes);
    out := r.(resourceTypes := types);
    hide CanonParameter, SortedUnique;
    var left := r.parameters.Keys;
    while left != {}
      invariant left <= r.parameters.Keys
      invariant out == r.(resourceTypes := types, parameters := out.parameters)
      invariant out.parameters == map k | k in r.parameters ::
                  if k in left then r.parameters[k] else CanonParameter(r.parameters[k])
    {
      var name :| name in left;
      var q := CanonicalizeParameter(r.parameters[name]);
      left := left - {name};
      out := out.(parameters := out.parameters[name := q]);
    }
    assert out.parameters == CanonRule(r).parameters;
  }

  method CanonicalizeCondition(c: Condition) returns (out: Condition)
    ensures out == CanonCondition(c)
  {
    hide CanonValues;
    out := c;
    var left := c.Keys;
    while left != {}
      invariant left <= c.Keys
      invariant out == map op | op in c && (op in left || c[op] != map[]) ::
                  if op in left then c[op] else CanonValues(c[op])
    {
      var op :| op in left;
      left := left - {op};
      if c[op] == map[] {
        out := out - {op};
      } else {
        var keys := CanonicalizeValues(c[op]);
        out := out[op := keys];
      }
    }
  }

  method CanonicalizeValues(keys: map<string, seq<string>>) returns (out: map<string, seq<string>>)
    ensures out == CanonValues(keys)
  {
    hide SortedUnique;
    out := keys;
    var left := keys.Keys;
    while left != {}
      invariant left <= keys.Keys
      invariant out == map k | k in keys :: if k in left then keys[k] else SortedUnique(keys[k])
    {
      var k :| k in left;
      left := left - {k};
      var values := ComputeSortedUnique(keys[k]);
      out := out[k := values];
    }
  }

  method CanonicalizeStatement(s: Statement) returns (out: Statement)
    ensures out == CanonStatement(s)
  {
    var action := ComputeSortedUnique(s.action);
    var resource := ComputeSortedUnique(s.resource);
    var exempt := RemoveRepeats(s.exemptPrincipals);
    var condition := CanonicalizeCondition(s.condition);
    out := s.(action := action, resource := resource, condition := condition,
              exemptPrincipals := SortBy(ExemptKey, exempt));
  }

  method CanonicalizeSCP(s: SCP) returns (out: SCP)
    ensures out == CanonSCP(s)
  {
    var statements := Items(s.statements);
    for i := 0 to |statements|
      invariant |statements| == |Items(s.statements)|
      invariant forall j | 0 <= j < i :: statements[j] == CanonStatement(Items(s.statements)[j])
      invariant forall j | i <= j < |statements| :: statements[j] == Items(s.statements)[j]
    {
      var t := CanonicalizeStatement(statements[i]);
      statements := statements[i := t];
    }
    assert statements == Map(CanonStatement, Items(s.statements));
    statements := SortBy(SidKey, statements);
    var regions := ComputeSortedUnique(s.regionAllowlist);
    var services := ComputeSortedUnique(s.serviceAllowlist);
    out := SCP(if s.statements.Some? then Some(statements) else None, regions, services);
  }

  method CanonicalizeControl(c: Control) returns (out: Control)
    ensures out == CanonControl(c)
  {
    var classes := RemoveRepeats(c.enforcement);
    out := c.(enforcement := SortBy(ClassKey, classes));
    if c.scp.Some? {
      var s := CanonicalizeSCP(c.scp.value);
      out := out.(scp := if s.IsEmpty() then None else Some(s));
    }
    var rules := c.configRules;
    for i := 0 to |rules|
      invariant |rules| == |c.configRules|
      invariant forall j | 0 <= j < i :: rules[j] == CanonRule(c.configRules[j])
      invariant forall j | i <= j < |rules| :: rules[j] == c.configRules[j]
    {
      var r := CanonicalizeRule(rules[i]);
      rules := rules[i := r];
    }
    assert rules == Map(CanonRule, c.configRules);
    out := out.(configRules := SortBy(RuleKey, rules));
  }

  method CanonicalizeControls(cs: seq<Control>) returns (out: seq<Control>)
    ensures out == CanonControls(cs)
  {
    out := cs;
    for i := 0 to |out|
      invariant |out| == |cs|
      invariant forall j | 0 <= j < i :: out[j] == CanonControl(cs[j])
      invariant forall j | i <= j < |out| :: out[j] == cs[j]
    {
      var c := CanonicalizeControl(out[i]);
      out := out[i := c];
    }
    assert out == Map(CanonControl, cs);
    out := SortBy(IdKey, out);
  }

  class Artifact {
    var schemaVersion: string
    var meta: Meta
    var controls: seq<Control>
    var exemptServices: Nilable<string>

    function Doc(): Document
      reads this
    {
      Document(schemaVersion, meta, controls, exemptServices)
    }

    constructor (d: Document)
      ensures Doc() == d
    {
      schemaVersion, meta, controls, exemptServices := d.schemaVersion, d.meta, d.controls, d.exemptServices;
    }

    method Canonicalize()
      modifies this
      ensures Doc() == CanonDocument(old(Doc()))
    {
      hide SortBy, CanonControls, SortedUnique;
      meta := meta.(sources := SortBy(SourceKey, meta.sources));
      var cs := CanonicalizeControls(controls);
      controls := cs;
      if exemptServices.Some? {
        var list := ComputeSortedUnique(exemptServices.value);
        exemptServices := Some(list);
      }
    }

    /** The hashed text, computed without touching the artifact. */
    method CanonicalContentJSON() returns (text: string)
      ensures text == ContentText(controls, Items(exemptServices))
    {
      hide CanonControls, SortedUnique, ContentJson, Print;
      var dup := CanonicalizeControls(controls);
      var services := ComputeSortedUnique(Items(exemptServices));
      var buf := new Buffer();
      WriteCanonical(buf, ContentJson(dup, services));
      text := buf.data;
    }

    method ComputeContentHash(hash: Hash) returns (h: string)
      ensures h == ContentHash(hash, Doc())
    {
      var text := CanonicalContentJSON();
      h := hash(text);
    }

    method SetContentHash(hash: Hash)
      modifies this
      ensures Doc() == Sealed(hash, old(Doc()))
    {
      Canonicalize();
      var h := ComputeContentHash(hash);
      meta := meta.(contentHash := h);
    }

    method VerifyContentHash(hash: Hash) returns (ok: bool)
      ensures ok <==> meta.contentHash == ContentHash(hash, Doc())
    {
      var got := ComputeContentHash(hash);
      ok := meta.contentHash == got;
    }

    /** Seal, validate, and hand back the document that goes to disk. */
    method Write(hash: Hash, sh: Shapes) returns (r: Result<Document, Refusal>)
      modifies this
      ensures r == Written(hash, sh, old(Doc()))
      ensures Doc() == if r.Ok? then r.value else Sealed(hash, old(Doc()))
    {
      hide Valid, CanonControls, ContentHash;
      SetContentHash(hash);
      if !Valid(sh, Doc()) {
        return Err(Invalid);
      }
      Canonicalize();
      r := Ok(Doc());
    }
  }

  /** Validate, canonicalize, check the hash, in that order. */
  method Decode(hash: Hash, sh: Shapes, opts: LoadOptions, d: Document) returns (r: Result<Artifact, Refusal>)
    ensures r.Ok? ==> fresh(r.value) && Loaded(hash, sh, opts, d) == Ok(r.value.Doc())
    ensures r.Err? ==> Loaded(hash, sh, opts, d) == Err(r.error)
  {
    hide Valid, CanonControls, ContentHash;
    var a := new Artifact(d);
    if !opts.skipValidate {
      if !Valid(sh, a.Doc()) {
        return Err(Invalid);
      }
    }
    a.Canonicalize();
    if !opts.skipHashCheck {
      var ok := a.VerifyContentHash(hash);
      if !ok {
        return Err(HashMismatch);
      }
    }
    r := Ok(a);
  }
}
