/** What a valid document is, entity by entity, and what a load refuses. */
module ValidDocuments {
  import opened Options
  import opened Lists
  import opened SetText
  import opened Utf8
  import opened ArtifactTypes
  import opened Canonical
  import opened Validation
  import opened Artifacts

  /** No element stands twice in the list. */
  ghost predicate Once<T(!new)>(list: seq<T>)
  {
    forall x :: multiset(list)[x] <= 1
  }

  lemma {:induction false} OnceIsDistinct<T(!new)>(list: seq<T>)
    ensures Once(list) <==> Distinct(list)
  {
    if list != [] {
      var front, last := list[..|list| - 1], list[|list| - 1];
      OnceIsDistinct(front);
      assert list == front + [last];
      assert multiset(list) == multiset(front) + multiset{last};
      if Once(list) {
        assert multiset(list)[last] <= 1;
        forall x
          ensures multiset(front)[x] <= 1
        {
          assert multiset(front)[x] <= multiset(list)[x];
        }
        assert last !in multiset(front);
      }
      if Distinct(list) {
        assert last !in front;
        assert last !in multiset(front);
        forall x
          ensures multiset(list)[x] <= 1
        {
          assert multiset(front)[x] <= 1;
        }
      }
    }
  }

  /** Every entry is there once, says something, and has the shape. */
  ghost predicate Fine(list: seq<string>, shape: string -> bool)
  {
    Once(list) && "" !in list && forall v | v in list :: shape(v)
  }

  // ---------------------------------------------------------------------------------------------
  // Rules and attestations

  /** A parameter declares a known order; only a set has a separator, and it lists at least one member. */
  lemma ParameterValid(p: RuleParameter)
    ensures var isSet := p.order == "set-union" || p.order == "set-intersect";
            var members := MembersOf(p.value, if |p.setSeparator| > 0 then p.setSeparator else ",");
            ValidParameter(p) <==>
              && (isSet || p.order == "min" || p.order == "max" || p.order == "exact")
              && (|p.setSeparator| > 0 ==> isSet)
              && (isSet ==> |members| > 0)
  {
    hide MembersOf;
  }

  /** A rule has an identifier; it comes from AWS's mapping, or was bound by hand with a reason. */
  lemma RuleValid(sh: Shapes, r: ConfigRule)
    ensures ValidRule(sh, r) <==>
              && |r.identifier| > 0 && sh.ruleId(r.identifier) && (|r.name| > 0 ==> sh.ruleName(r.name))
              && r.provenance in ["aws-mapping", "curated"] && (r.provenance == "curated" ==> |r.rationale| > 0)
              && "" !in r.parameters && forall k | k in r.parameters :: ValidParameter(r.parameters[k])
  {
    hide ValidParameter;
  }

  lemma AttestationValid(sh: Shapes, a: Attestation)
    ensures ValidAttestation(sh, a) <==>
              && |a.template| > 0 && sh.template(a.template)
              && a.frequency in ["annual", "semiannual", "quarterly", "monthly", "on-change", "continuous"]
  {
  }

  // ---------------------------------------------------------------------------------------------
  // Policy blocks

  /** At most eight principals are exempt from a statement, each once: the placeholder for the automation role
      or a role, with a printable reason of at most 512 bytes. */
  lemma ExemptValid(sh: Shapes, es: seq<ExemptPrincipal>)
    ensures ValidExempt(sh, es) <==>
              && |es| <= 8
              && (forall i, j | 0 <= i < |es| && 0 <= j < |es| && i != j :: es[i].principal != es[j].principal)
              && forall e | e in es ::
                   && |e.principal| > 0 && (sh.roleArn(e.principal) || e.principal == "automat:automation-role")
                   && 0 < ByteLength(e.reason) < 513 && sh.printable(e.reason)
  {
    assert ByteLength("") == 0;
  }

  /** A statement denies listed actions, each once; a condition names its operators and keys, and each key has
      values. */
  lemma StatementValid(sh: Shapes, s: Statement)
    ensures ValidStatement(sh, s) <==>
              && |s.sid| > 0 && sh.sid(s.sid) && s.effect == "Deny"
              && |s.action| > 0 && Fine(s.action, sh.printable) && Fine(s.resource, sh.printable)
              && ValidExempt(sh, s.exemptPrincipals)
              && "" !in s.condition
              && forall op, k | op in s.condition && k in s.condition[op] :: |k| > 0 && |s.condition[op][k]| > 0
  {
    hide ValidExempt;
    OnceIsDistinct(s.action);
    OnceIsDistinct(s.resource);
  }

  /** A policy block carries something: statements with different Sids, regions or services. */
  lemma SCPValid(sh: Shapes, s: SCP)
    ensures ValidSCP(sh, s) <==>
              && |Items(s.statements)| + |s.regionAllowlist| + |s.serviceAllowlist| > 0
              && (forall t | t in Items(s.statements) :: ValidStatement(sh, t))
              && (forall i, j | 0 <= i < j < |Items(s.statements)| ::
                    Items(s.statements)[i].sid != Items(s.statements)[j].sid)
              && (forall r | r in s.regionAllowlist :: sh.region(r))
              && (forall v | v in s.serviceAllowlist :: sh.service(v))
  {
    hide ValidStatement;
    var ts := Items(s.statements);
    assert forall t: Statement, u: Statement :: SidKey(t) == SidKey(u) <==> t.sid == u.sid by {
      forall t: Statement, u: Statement
        ensures SidKey(t) == SidKey(u) <==> t.sid == u.sid
      {
        assert SidKey(t)[0] == t.sid && SidKey(u)[0] == u.sid;
      }
    }
  }

  // ---------------------------------------------------------------------------------------------
  // Controls and documents

  /** A control says what it is, has at least one known class, each once, and carries what its classes call for
      and nothing else. */
  lemma ControlValid(sh: Shapes, c: Control)
    ensures ValidControl(sh, c) <==>
              && |c.id| > 0 && |c.title| > 0 && |c.enforcement| > 0 && Once(c.enforcement)
              && (forall e | e in c.enforcement :: e in ["scp", "config-rule", "procedural", "baseline-protection"])
              && (c.scp.Some? <==> "scp" in c.enforcement || "baseline-protection" in c.enforcement)
              && (|c.configRules| > 0 <==> "config-rule" in c.enforcement)
              && (c.attestation.Some? <==> "procedural" in c.enforcement)
              && "" !in c.crosswalk && (forall k | k in c.crosswalk :: |c.crosswalk[k]| > 0)
              && (c.scp.Some? ==> ValidSCP(sh, c.scp.value))
              && (forall r | r in c.configRules :: ValidRule(sh, r))
              && (c.attestation.Some? ==> ValidAttestation(sh, c.attestation.value))
  {
    hide ValidSCP, ValidRule, ValidAttestation;
    OnceIsDistinct(c.enforcement);
  }

  function One(b: bool): nat { if b then 1 else 0 }

  /** A source names one thing, a catalog, a mapping or an artifact, and the hash of what was read. */
  lemma SourceValid(sh: Shapes, s: Source)
    ensures ValidSource(sh, s) <==>
              && One(|s.catalog| > 0) + One(|s.mapping| > 0) + One(|s.artifact| > 0) == 1
              && |s.sha256| > 0 && sh.sha256(s.sha256) && (|s.retrievedAt| > 0 ==> sh.timestamp(s.retrievedAt))
  {
  }

  /** A document has a version, says of itself what it is, where it comes from and what its content hashes to,
      and has controls with different ids; the exempt services are left out or listed, each once. */
  lemma DocumentValid(sh: Shapes, d: Document)
    ensures Valid(sh, d) <==>
              && |d.schemaVersion| > 0 && sh.supportedVersion(d.schemaVersion)
              && |d.meta.id| > 0 && sh.artifactId(d.meta.id) && |d.meta.title| > 0
              && |d.meta.compiledAt| > 0 && sh.timestamp(d.meta.compiledAt)
              && |d.meta.contentHash| > 0 && sh.sha256(d.meta.contentHash)
              && |d.meta.sources| > 0 && (forall s | s in d.meta.sources :: ValidSource(sh, s))
              && |d.controls| > 0 && (forall c | c in d.controls :: ValidControl(sh, c))
              && (forall i, j | 0 <= i < j < |d.controls| :: d.controls[i].id != d.controls[j].id)
              && (d.exemptServices.Some? ==>
                    |d.exemptServices.value| > 0 && Once(d.exemptServices.value)
                    && forall v | v in d.exemptServices.value :: sh.service(v))
  {
    hide ValidControl, ValidSource;
    OnceIsDistinct(Items(d.exemptServices));
    assert forall c: Control, e: Control :: IdKey(c) == IdKey(e) <==> c.id == e.id by {
      forall c: Control, e: Control
        ensures IdKey(c) == IdKey(e) <==> c.id == e.id
      {
        assert IdKey(c)[0] == c.id && IdKey(e)[0] == e.id;
      }
    }
  }

  // ---------------------------------------------------------------------------------------------
  // Loading

  /** A load refuses a document that is not valid as it stands, then one whose declared hash is not that of its
      canonical form, unless told to skip the one check or the other, and otherwise gives the canonical form. */
  lemma LoadExactly(hash: Hash, sh: Shapes, opts: LoadOptions, d: Document)
    ensures var r := Loaded(hash, sh, opts, d);
            var c := CanonDocument(d);
            var agrees := d.meta.contentHash == ContentHash(hash, c);
            && (r == Err(Invalid) <==> !opts.skipValidate && !Valid(sh, d))
            && (r == Err(HashMismatch) <==> (opts.skipValidate || Valid(sh, d)) && !opts.skipHashCheck && !agrees)
            && (r.Ok? <==> (opts.skipValidate || Valid(sh, d)) && (opts.skipHashCheck || agrees))
            && (r.Ok? ==> r.value == c)
  {
    hide Valid, ContentText, CanonControls, SortBy;
  }

  /** The hash of a document is that of its content alone: neither what it says of itself nor its version
      reaches it. */
  lemma HashIgnoresMeta(hash: Hash, d: Document, version: string, meta: Meta)
    ensures ContentHash(hash, Document(version, meta, d.controls, d.exemptServices)) == ContentHash(hash, d)
  {
    hide ContentText;
  }
}
