/** Canonical form of a control artifact, and what it identifies. */
module Canonical {
  import opened Options
  import opened Lists
  import opened StableSort
  import opened SetText
  import opened Reading
  import opened ArtifactTypes

  // ---------------------------------------------------------------------------------------------
  // The canonical form of each entity

  /** Known classes come first, in their fixed order; unknown ones follow by name. */
  function ClassKey(e: string): Key
  {
    if e == "scp" then ["0"]
    else if e == "config-rule" then ["1"]
    else if e == "procedural" then ["2"]
    else if e == "baseline-protection" then ["3"]
    else ["4", e]
  }

  function CanonEnforcement(classes: seq<string>): seq<string>
  {
    SortBy(ClassKey, Dedupe(classes))
  }

  function ExemptKey(e: ExemptPrincipal): Key { [e.principal, e.reason] }

  function CanonExempt(es: seq<ExemptPrincipal>): seq<ExemptPrincipal>
  {
    SortBy(ExemptKey, Dedupe(es))
  }

  /** Drop a separator that only spells out the default, and respell a set-valued text. */
  function CanonParameter(p: RuleParameter): RuleParameter
  {
    var q := if p.setSeparator == DEFAULT_SET_SEPARATOR then p.(setSeparator := "") else p;
    if q.Order().IsSet() then q.(value := Respell(q.value, q.Separator())) else q
  }

  function CanonRule(r: ConfigRule): ConfigRule
  {
    r.(resourceTypes := SortedUnique(r.resourceTypes),
       parameters := map k | k in r.parameters :: CanonParameter(r.parameters[k]))
  }

  function CanonValues(keys: map<string, seq<string>>): map<string, seq<string>>
  {
    map k | k in keys :: SortedUnique(keys[k])
  }

  /** Operators without keys are dropped. */
  function CanonCondition(c: Condition): Condition
  {
    map op | op in c && c[op] != map[] :: CanonValues(c[op])
  }

  function CanonStatement(s: Statement): Statement
  {
    s.(action := SortedUnique(s.action),
       resource := SortedUnique(s.resource),
       condition := CanonCondition(s.condition),
       exemptPrincipals := CanonExempt(s.exemptPrincipals))
  }

  function SidKey(s: Statement): Key { [s.sid] }

  function CanonSCP(s: SCP): SCP
  {
    SCP(if s.statements.Some? then Some(SortBy(SidKey, Map(CanonStatement, s.statements.value))) else None,
        SortedUnique(s.regionAllowlist),
        SortedUnique(s.serviceAllowlist))
  }

  function RuleKey(r: ConfigRule): Key { [r.identifier, r.name] }

  /** An SCP block that carries nothing is dropped. */
  function CanonBlock(scp: Option<SCP>): Option<SCP>
  {
    if scp.None? || CanonSCP(scp.value).IsEmpty() then None else Some(CanonSCP(scp.value))
  }

  function CanonControl(c: Control): Control
  {
    c.(enforcement := CanonEnforcement(c.enforcement),
       scp := CanonBlock(c.scp),
       configRules := SortBy(RuleKey, Map(CanonRule, c.configRules)))
  }

  function IdKey(c: Control): Key { [c.id] }

  function CanonControls(cs: seq<Control>): seq<Control>
  {
    SortBy(IdKey, Map(CanonControl, cs))
  }

  // ---------------------------------------------------------------------------------------------
  // When two documents say the same thing

  ghost predicate SameMembersAs<T(!new)>(a: seq<T>, b: seq<T>)
  {
    Elements(a) == Elements(b)
  }

  /** A way to compare parameters. */
  type Agreement = (RuleParameter, RuleParameter) -> bool

  /** Parameters say the same when they agree on order, separator and value, a set on its members. */
  ghost predicate SameParameter(p: RuleParameter, q: RuleParameter)
  {
    && p.order == q.order && p.Separator() == q.Separator()
    && if p.Order().IsSet() then SameMembersAs(p.Members(), q.Members()) else p.value == q.value
  }

  /** Parameters are spelled alike when the members of a set, sorted and joined, read the same; a separator
      that is not legible lets different members read the same. */
  ghost predicate SpelledAlike(p: RuleParameter, q: RuleParameter)
  {
    && p.order == q.order && p.Separator() == q.Separator()
    && if p.Order().IsSet() then Respell(p.value, p.Separator()) == Respell(q.value, q.Separator())
       else p.value == q.value
  }

  /** Rules agree when their parameters do, one by one, and the rest is the same. */
  ghost predicate SameRule(agree: Agreement, r: ConfigRule, s: ConfigRule)
  {
    && r.identifier == s.identifier && r.name == s.name
    && r.provenance == s.provenance && r.rationale == s.rationale
    && r.parameters.Keys == s.parameters.Keys
    && (forall k | k in r.parameters :: agree(r.parameters[k], s.parameters[k]))
    && SameMembersAs(r.resourceTypes, s.resourceTypes)
  }

  ghost function RulesBy(agree: Agreement): (ConfigRule, ConfigRule) -> bool
  {
    (r, s) => SameRule(agree, r, s)
  }

  ghost predicate SameValues(a: map<string, seq<string>>, b: map<string, seq<string>>)
  {
    a.Keys == b.Keys && forall k | k in a :: SameMembersAs(a[k], b[k])
  }

  ghost predicate SameCondition(c: Condition, d: Condition)
  {
    && (forall op :: (op in c && c[op] != map[]) <==> (op in d && d[op] != map[]))
    && (forall op | op in c && c[op] != map[] :: SameValues(c[op], d[op]))
  }

  ghost predicate SameStatement(s: Statement, t: Statement)
  {
    && s.sid == t.sid && s.effect == t.effect
    && SameMembersAs(s.action, t.action) && SameMembersAs(s.resource, t.resource)
    && SameCondition(s.condition, t.condition)
    && SameMembersAs(s.exemptPrincipals, t.exemptPrincipals)
  }

  ghost predicate SameSCP(s: SCP, t: SCP)
  {
    && (s.statements.Some? <==> t.statements.Some?)
    && InStep(SidKey, SameStatement, Items(s.statements), Items(t.statements))
    && SameMembersAs(s.regionAllowlist, t.regionAllowlist)
    && SameMembersAs(s.serviceAllowlist, t.serviceAllowlist)
  }

  /** An empty block and no block are the same. */
  ghost predicate SameBlock(s: Option<SCP>, t: Option<SCP>)
  {
    var some, other := s.Some? && !s.value.IsEmpty(), t.Some? && !t.value.IsEmpty();
    some == other && (some ==> SameSCP(s.value, t.value))
  }

  ghost predicate SameControl(agree: Agreement, c: Control, d: Control)
  {
    && c.id == d.id && c.title == d.title && c.statement == d.statement && c.crosswalk == d.crosswalk
    && c.attestation == d.attestation
    && SameMembersAs(c.enforcement, d.enforcement)
    && SameBlock(c.scp, d.scp)
    && InStep(RuleKey, RulesBy(agree), c.configRules, d.configRules)
  }

  ghost function ControlsBy(agree: Agreement): (Control, Control) -> bool
  {
    (c, d) => SameControl(agree, c, d)
  }

  predicate LegibleParameter(p: RuleParameter)
  {
    p.Order().IsSet() ==> Legible(p.Separator())
  }

  predicate LegibleRule(r: ConfigRule)
  {
    forall k | k in r.parameters :: LegibleParameter(r.parameters[k])
  }

  predicate LegibleRules(rs: seq<ConfigRule>)
  {
    forall r | r in rs :: LegibleRule(r)
  }

  /** Every set is split on a legible separator. */
  predicate LegibleControls(cs: seq<Control>)
  {
    forall c | c in cs :: LegibleRules(c.configRules)
  }

  // ---------------------------------------------------------------------------------------------
  // Canonical forms are equal exactly when the documents say the same thing

  lemma ClassKeysDiffer(a: string, b: string)
    requires a != b
    ensures ClassKey(a) != ClassKey(b)
  {
    assert ClassKey(a)[0] == "4" ==> ClassKey(a)[1] == a;
    assert ClassKey(b)[0] == "4" ==> ClassKey(b)[1] == b;
  }

  /** Removing repeats and sorting by a key that tells elements apart gives equal lists exactly for
      equal sets of members. */
  lemma SortedSetSame<T(!new)>(key: T -> Key, a: seq<T>, b: seq<T>)
    requires forall x, y :: x != y ==> key(x) != key(y)
    ensures SortBy(key, Dedupe(a)) == SortBy(key, Dedupe(b)) <==> SameMembersAs(a, b)
    ensures StrictlySorted(key, SortBy(key, Dedupe(a))) && Elements(SortBy(key, Dedupe(a))) == Elements(a)
  {
    DedupeMeaning(a);
    DedupeMeaning(b);
    SortByDistinct(key, Dedupe(a));
    SortByDistinct(key, Dedupe(b));
    if SameMembersAs(a, b) {
      StrictlySortedUnique(key, SortBy(key, Dedupe(a)), SortBy(key, Dedupe(b)));
    }
  }

  lemma EnforcementSame(a: seq<string>, b: seq<string>)
    ensures CanonEnforcement(a) == CanonEnforcement(b) <==> SameMembersAs(a, b)
  {
    forall x: string, y: string | x != y
      ensures ClassKey(x) != ClassKey(y)
    {
      ClassKeysDiffer(x, y);
    }
    SortedSetSame(ClassKey, a, b);
  }

  lemma ExemptSame(a: seq<ExemptPrincipal>, b: seq<ExemptPrincipal>)
    ensures CanonExempt(a) == CanonExempt(b) <==> SameMembersAs(a, b)
  {
    forall x: ExemptPrincipal, y: ExemptPrincipal | x != y
      ensures ExemptKey(x) != ExemptKey(y)
    {
      assert ExemptKey(x)[0] == x.principal && ExemptKey(x)[1] == x.reason;
      assert ExemptKey(y)[0] == y.principal && ExemptKey(y)[1] == y.reason;
    }
    SortedSetSame(ExemptKey, a, b);
  }

  lemma MapElements<S, T>(f: S -> T, s: seq<S>)
    ensures forall y :: y in Elements(Map(f, s)) <==> exists x :: x in s && f(x) == y
  {
    forall x | x in s
      ensures f(x) in Map(f, s)
    {
      var i :| 0 <= i < |s| && s[i] == x;
      assert Map(f, s)[i] == f(x);
    }
  }

  lemma CanonSeparator(p: RuleParameter)
    ensures CanonParameter(p).Separator() == p.Separator() && CanonParameter(p).order == p.order
    ensures CanonParameter(p).setSeparator == if p.Separator() == DEFAULT_SET_SEPARATOR then "" else p.Separator()
    ensures CanonParameter(p).value
         == if p.Order().IsSet() then Respell(p.value, p.Separator()) else p.value
  {
  }

  /** Parameters have one canonical form exactly when they are spelled alike. Those that say the same do;
      the converse needs a legible separator. */
  lemma ParameterSame(p: RuleParameter, q: RuleParameter)
    ensures CanonParameter(p) == CanonParameter(q) <==> SpelledAlike(p, q)
    ensures SameParameter(p, q) ==> SpelledAlike(p, q)
    ensures LegibleParameter(p) && SpelledAlike(p, q) ==> SameParameter(p, q)
  {
    CanonSeparator(p);
    CanonSeparator(q);
    hide CanonParameter, Respell, MembersOf, OrderOf, Legible, RuleParameter.Separator;
    if p.Order().IsSet() && p.order == q.order && p.Separator() == q.Separator() {
      SameMembersSpellAlike(p.value, q.value, p.Separator());
      if LegibleParameter(p) {
        TellsMembersExactly(p.Separator());
      }
    }
  }

  lemma RuleSame(r: ConfigRule, s: ConfigRule)
    ensures CanonRule(r) == CanonRule(s) <==> SameRule(SpelledAlike, r, s)
    ensures SameRule(SameParameter, r, s) ==> SameRule(SpelledAlike, r, s)
    ensures LegibleRule(r) && SameRule(SpelledAlike, r, s) ==> SameRule(SameParameter, r, s)
  {
    hide CanonParameter, SameParameter, SpelledAlike, SortedUnique, LegibleParameter;
    SortedUniqueSame(r.resourceTypes, s.resourceTypes);
    ParametersSame(r, s);
    forall k | k in r.parameters && k in s.parameters
      ensures SameParameter(r.parameters[k], s.parameters[k]) ==> SpelledAlike(r.parameters[k], s.parameters[k])
      ensures LegibleRule(r) && SpelledAlike(r.parameters[k], s.parameters[k]) ==>
                SameParameter(r.parameters[k], s.parameters[k])
    {
      ParameterSame(r.parameters[k], s.parameters[k]);
    }
  }

  lemma ParametersSame(r: ConfigRule, s: ConfigRule)
    ensures CanonRule(r).parameters == CanonRule(s).parameters
       <==> r.parameters.Keys == s.parameters.Keys
            && forall k | k in r.parameters :: SpelledAlike(r.parameters[k], s.parameters[k])
  {
    hide CanonParameter, SpelledAlike, SortedUnique;
    var a, b := CanonRule(r).parameters, CanonRule(s).parameters;
    assert a.Keys == r.parameters.Keys && b.Keys == s.parameters.Keys;
    if r.parameters.Keys == s.parameters.Keys {
      forall k | k in r.parameters
        ensures a[k] == b[k] <==> SpelledAlike(r.parameters[k], s.parameters[k])
      {
        ParameterSame(r.parameters[k], s.parameters[k]);
      }
    }
  }

  lemma ValuesSame(a: map<string, seq<string>>, b: map<string, seq<string>>)
    ensures CanonValues(a) == CanonValues(b) <==> SameValues(a, b)
  {
    hide SortedUnique;
    var ca, cb := CanonValues(a), CanonValues(b);
    assert ca.Keys == a.Keys && cb.Keys == b.Keys;
    if a.Keys == b.Keys {
      forall k | k in a
        ensures ca[k] == cb[k] <==> SameMembersAs(a[k], b[k])
      {
        SortedUniqueSame(a[k], b[k]);
      }
    }
  }

  lemma ConditionSame(c: Condition, d: Condition)
    ensures CanonCondition(c) == CanonCondition(d) <==> SameCondition(c, d)
  {
    hide CanonValues, SameValues;
    var cc, cd := CanonCondition(c), CanonCondition(d);
    forall op | op in c && op in d
      ensures CanonValues(c[op]) == CanonValues(d[op]) <==> SameValues(c[op], d[op])
    {
      ValuesSame(c[op], d[op]);
    }
    if cc == cd {
      forall op
        ensures (op in c && c[op] != map[]) <==> (op in d && d[op] != map[])
      {
        assert op in cc <==> op in cd;
      }
      forall op | op in c && c[op] != map[]
        ensures SameValues(c[op], d[op])
      {
        assert op in cc && cc[op] == cd[op];
      }
    }
  }

  lemma StatementSame(s: Statement, t: Statement)
    ensures CanonStatement(s) == CanonStatement(t) <==> SameStatement(s, t)
  {
    hide SortedUnique, CanonCondition, SameCondition, CanonExempt;
    SortedUniqueSame(s.action, t.action);
    SortedUniqueSame(s.resource, t.resource);
    ConditionSame(s.condition, t.condition);
    ExemptSame(s.exemptPrincipals, t.exemptPrincipals);
  }

  lemma SCPSame(s: SCP, t: SCP)
    ensures CanonSCP(s) == CanonSCP(t) <==> SameSCP(s, t)
  {
    hide SortedUnique, CanonStatement, SameStatement;
    SortedUniqueSame(s.regionAllowlist, t.regionAllowlist);
    SortedUniqueSame(s.serviceAllowlist, t.serviceAllowlist);
    if s.statements.Some? && t.statements.Some? {
      KeepsSid();
      forall x, y | x in s.statements.value && y in t.statements.value
        ensures CanonStatement(x) == CanonStatement(y) <==> SameStatement(x, y)
      {
        StatementSame(x, y);
      }
      SortedMapSame(SidKey, CanonStatement, SameStatement, s.statements.value, t.statements.value);
    }
  }

  lemma KeepsSid()
    ensures forall s :: SidKey(CanonStatement(s)) == SidKey(s)
  {
  }

  lemma BlockEmptiness(s: SCP)
    ensures CanonSCP(s).IsEmpty() <==> s.IsEmpty()
  {
    SortedUniqueIdempotent(s.regionAllowlist);
    SortedUniqueIdempotent(s.serviceAllowlist);
  }

  /** A block is dropped when it has no statement, no region and no service. */
  lemma BlockDropped(s: SCP)
    ensures CanonBlock(Some(s)).None? <==>
              Items(s.statements) == [] && s.regionAllowlist == [] && s.serviceAllowlist == []
  {
    hide CanonSCP;
    BlockEmptiness(s);
  }

  lemma BlockSame(s: Option<SCP>, t: Option<SCP>)
    ensures CanonBlock(s) == CanonBlock(t) <==> SameBlock(s, t)
  {
    hide CanonSCP, SameSCP, SCP.IsEmpty;
    if s.Some? {
      BlockEmptiness(s.value);
    }
    if t.Some? {
      BlockEmptiness(t.value);
    }
    if s.Some? && t.Some? {
      SCPSame(s.value, t.value);
    }
  }

  lemma KeepsRuleKey()
    ensures forall r :: RuleKey(CanonRule(r)) == RuleKey(r)
  {
    hide CanonParameter, SortedUnique;
  }

  /** Rule lists have one canonical list exactly when, for each identifier and name, the rules that share
      them are spelled alike in the same order. Those that say the same do; the converse needs legible
      separators. */
  lemma RulesSame(a: seq<ConfigRule>, b: seq<ConfigRule>)
    ensures SortBy(RuleKey, Map(CanonRule, a)) == SortBy(RuleKey, Map(CanonRule, b))
            <==> InStep(RuleKey, RulesBy(SpelledAlike), a, b)
    ensures InStep(RuleKey, RulesBy(SameParameter), a, b) ==> InStep(RuleKey, RulesBy(SpelledAlike), a, b)
    ensures LegibleRules(a) && InStep(RuleKey, RulesBy(SpelledAlike), a, b) ==>
              InStep(RuleKey, RulesBy(SameParameter), a, b)
  {
    hide CanonRule, SameRule, LegibleRule;
    KeepsRuleKey();
    forall x, y | x in a && y in b
      ensures CanonRule(x) == CanonRule(y) <==> RulesBy(SpelledAlike)(x, y)
      ensures RulesBy(SameParameter)(x, y) ==> RulesBy(SpelledAlike)(x, y)
      ensures LegibleRules(a) && RulesBy(SpelledAlike)(x, y) ==> RulesBy(SameParameter)(x, y)
    {
      RuleSame(x, y);
    }
    hide RulesBy;
    SortedMapSame(RuleKey, CanonRule, RulesBy(SpelledAlike), a, b);
    InStepImplied(RuleKey, RulesBy(SameParameter), RulesBy(SpelledAlike), a, b);
    if LegibleRules(a) {
      InStepImplied(RuleKey, RulesBy(SpelledAlike), RulesBy(SameParameter), a, b);
    }
  }

  lemma ControlSame(c: Control, d: Control)
    ensures CanonControl(c) == CanonControl(d) <==> SameControl(SpelledAlike, c, d)
    ensures SameControl(SameParameter, c, d) ==> SameControl(SpelledAlike, c, d)
    ensures LegibleRules(c.configRules) && SameControl(SpelledAlike, c, d) ==> SameControl(SameParameter, c, d)
  {
    hide CanonEnforcement, CanonBlock, CanonRule, SameBlock, RulesBy, SortBy, InStep, SameMembersAs, LegibleRules;
    EnforcementSame(c.enforcement, d.enforcement);
    BlockSame(c.scp, d.scp);
    RulesSame(c.configRules, d.configRules);
  }

  lemma KeepsId()
    ensures forall c :: IdKey(CanonControl(c)) == IdKey(c)
  {
    hide CanonEnforcement, CanonBlock, CanonRule, SortBy;
  }

  /** Canonical control lists are equal exactly when the controls are spelled alike. Documents that say the
      same thing are: the same controls in any order, each with the same sets in any order and with any
      repeats, however a default separator is spelled; entries that share their key count in the order they
      stand in. On legible separators only those are. */
  lemma ControlsSame(a: seq<Control>, b: seq<Control>)
    ensures CanonControls(a) == CanonControls(b) <==> InStep(IdKey, ControlsBy(SpelledAlike), a, b)
    ensures InStep(IdKey, ControlsBy(SameParameter), a, b) ==> InStep(IdKey, ControlsBy(SpelledAlike), a, b)
    ensures LegibleControls(a) && InStep(IdKey, ControlsBy(SpelledAlike), a, b) ==>
              InStep(IdKey, ControlsBy(SameParameter), a, b)
  {
    hide CanonControl, SameControl, LegibleRules;
    KeepsId();
    forall x, y | x in a && y in b
      ensures CanonControl(x) == CanonControl(y) <==> ControlsBy(SpelledAlike)(x, y)
      ensures ControlsBy(SameParameter)(x, y) ==> ControlsBy(SpelledAlike)(x, y)
      ensures LegibleControls(a) && ControlsBy(SpelledAlike)(x, y) ==> ControlsBy(SameParameter)(x, y)
    {
      ControlSame(x, y);
    }
    hide ControlsBy;
    SortedMapSame(IdKey, CanonControl, ControlsBy(SpelledAlike), a, b);
    InStepImplied(IdKey, ControlsBy(SameParameter), ControlsBy(SpelledAlike), a, b);
    if LegibleControls(a) {
      InStepImplied(IdKey, ControlsBy(SpelledAlike), ControlsBy(SameParameter), a, b);
    }
  }

  /** With ids, or identifiers and names, or Sids that tell entries apart, order plays no part at all. */
  lemma OrderBlind(
      agree: Agreement,
      a: seq<Control>, b: seq<Control>,
      r: seq<ConfigRule>, s: seq<ConfigRule>,
      u: seq<Statement>, v: seq<Statement>)
    ensures DistinctKeys(IdKey, a) && DistinctKeys(IdKey, b) ==>
              (InStep(IdKey, ControlsBy(agree), a, b) <==> SameUpTo(ControlsBy(agree), a, b))
    ensures DistinctKeys(RuleKey, r) && DistinctKeys(RuleKey, s) ==>
              (InStep(RuleKey, RulesBy(agree), r, s) <==> SameUpTo(RulesBy(agree), r, s))
    ensures DistinctKeys(SidKey, u) && DistinctKeys(SidKey, v) ==>
              (InStep(SidKey, SameStatement, u, v) <==> SameUpTo(SameStatement, u, v))
  {
    SameHaveSameKeys(agree);
    hide ControlsBy, RulesBy, SameStatement, IdKey, RuleKey, SidKey, InStep, SameUpTo;
    if DistinctKeys(IdKey, a) && DistinctKeys(IdKey, b) {
      InStepUnique(IdKey, ControlsBy(agree), a, b);
    }
    if DistinctKeys(RuleKey, r) && DistinctKeys(RuleKey, s) {
      InStepUnique(RuleKey, RulesBy(agree), r, s);
    }
    if DistinctKeys(SidKey, u) && DistinctKeys(SidKey, v) {
      InStepUnique(SidKey, SameStatement, u, v);
    }
  }

  lemma SameHaveSameKeys(agree: Agreement)
    ensures forall c, d | ControlsBy(agree)(c, d) :: IdKey(c) == IdKey(d)
    ensures forall r, s | RulesBy(agree)(r, s) :: RuleKey(r) == RuleKey(s)
    ensures forall u, v | SameStatement(u, v) :: SidKey(u) == SidKey(v)
  {
  }

  /** Every order of a rule list has one canonical form if and only if rules that share identifier and
      name have the same canonical form. */
  lemma RuleOrderBlindExactly(rs: seq<ConfigRule>)
    ensures (forall ts | Reordered(rs, ts) ::
               SortBy(RuleKey, Map(CanonRule, ts)) == SortBy(RuleKey, Map(CanonRule, rs)))
            <==> (forall i, j | 0 <= i < j < |rs| && RuleKey(rs[i]) == RuleKey(rs[j]) ::
                    CanonRule(rs[i]) == CanonRule(rs[j]))
  {
    hide CanonRule, RuleKey, SortBy, Reordered;
    KeepsRuleKey();
    EveryOrderAlikeExactly(RuleKey, CanonRule, rs);
  }

  // ---------------------------------------------------------------------------------------------
  // Canonicalizing twice is canonicalizing once

  lemma SortedSetIdempotent<T(!new)>(key: T -> Key, s: seq<T>)
    requires forall x, y :: x != y ==> key(x) != key(y)
    ensures var r := SortBy(key, Dedupe(s)); SortBy(key, Dedupe(r)) == r
  {
    SortedSetSame(key, s, s);
    SortedSetSame(key, SortBy(key, Dedupe(s)), s);
  }

  /** Canonicalizing the elements and sorting is a fixed point exactly when each canonical element is one. */
  lemma SortedMapIdempotent<T(!new)>(key: T -> Key, canon: T -> T, s: seq<T>)
    requires forall x :: key(canon(x)) == key(x)
    ensures var r := SortBy(key, Map(canon, s));
            SortBy(key, Map(canon, r)) == r <==> forall x | x in s :: canon(canon(x)) == canon(x)
  {
    var r := SortBy(key, Map(canon, s));
    SortBySorted(key, Map(canon, s));
    SortByPermutes(key, Map(canon, s));
    MapElements(canon, s);
    MapSorted(key, canon, r);
    SortBySortedIsSame(key, Map(canon, r));
    forall x | x in s
      ensures canon(x) in r
    {
      assert canon(x) in Elements(Map(canon, s));
      assert canon(x) in Elements(r);
    }
    forall y | y in r
      ensures exists x :: x in s && canon(x) == y
    {
      assert y in Elements(r);
    }
    FixedElements(canon, s, r);
  }

  lemma MapSorted<T>(key: T -> Key, canon: T -> T, s: seq<T>)
    requires Sorted(key, s) && forall x :: key(canon(x)) == key(x)
    ensures Sorted(key, Map(canon, s))
  {
  }

  lemma FixedElements<T>(canon: T -> T, s: seq<T>, r: seq<T>)
    requires (forall x | x in s :: canon(x) in r) && (forall y | y in r :: exists x :: x in s && canon(x) == y)
    ensures Map(canon, r) == r <==> forall x | x in s :: canon(canon(x)) == canon(x)
  {
    if Map(canon, r) == r {
      forall x | x in s
        ensures canon(canon(x)) == canon(x)
      {
        assert canon(x) in r;
        var i :| 0 <= i < |r| && r[i] == canon(x);
        assert Map(canon, r)[i] == r[i];
      }
    } else {
      var i :| 0 <= i < |r| && Map(canon, r)[i] != r[i];
      assert r[i] in r;
    }
  }

  lemma EnforcementIdempotent(s: seq<string>)
    ensures CanonEnforcement(CanonEnforcement(s)) == CanonEnforcement(s)
  {
    forall x: string, y: string | x != y
      ensures ClassKey(x) != ClassKey(y)
    {
      ClassKeysDiffer(x, y);
    }
    SortedSetSame(ClassKey, s, s);
    EnforcementSame(CanonEnforcement(s), s);
  }

  lemma ExemptIdempotent(s: seq<ExemptPrincipal>)
    ensures CanonExempt(CanonExempt(s)) == CanonExempt(s)
  {
    forall x: ExemptPrincipal, y: ExemptPrincipal | x != y
      ensures ExemptKey(x) != ExemptKey(y)
    {
      assert ExemptKey(x)[0] == x.principal && ExemptKey(x)[1] == x.reason;
      assert ExemptKey(y)[0] == y.principal && ExemptKey(y)[1] == y.reason;
    }
    SortedSetIdempotent(ExemptKey, s);
  }

  /** Joining the members and cutting them apart again changes the text no further. */
  predicate StableParameter(p: RuleParameter)
  {
    p.Order().IsSet() ==>
      Respell(Respell(p.value, p.Separator()), p.Separator()) == Respell(p.value, p.Separator())
  }

  predicate StableRule(r: ConfigRule)
  {
    forall k | k in r.parameters :: StableParameter(r.parameters[k])
  }

  predicate StableControls(cs: seq<Control>)
  {
    forall c, r | c in cs && r in c.configRules :: StableRule(r)
  }

  lemma UnambiguousIsStable(p: RuleParameter)
    requires p.Order().IsSet() ==> Unambiguous(p.Separator())
    ensures StableParameter(p)
  {
    hide MembersOf, OrderOf, Unambiguous, RuleParameter.Separator;
    if p.Order().IsSet() {
      KeepsMembersExactly(p.Separator());
      assert MembersOf(Respell(p.value, p.Separator()), p.Separator()) == MembersOf(p.value, p.Separator());
    }
  }

  lemma ParameterIdempotent(p: RuleParameter)
    ensures CanonParameter(CanonParameter(p)) == CanonParameter(p) <==> StableParameter(p)
  {
    CanonSeparator(p);
    CanonSeparator(CanonParameter(p));
    hide CanonParameter, Respell, OrderOf, RuleParameter.Separator;
  }

  lemma RuleIdempotent(r: ConfigRule)
    ensures CanonRule(CanonRule(r)) == CanonRule(r) <==> StableRule(r)
  {
    hide CanonParameter, SortedUnique, StableParameter;
    SortedUniqueIdempotent(r.resourceTypes);
    var once, twice := CanonRule(r), CanonRule(CanonRule(r));
    assert once.parameters.Keys == r.parameters.Keys;
    assert twice.parameters.Keys == r.parameters.Keys;
    forall k | k in r.parameters
      ensures twice.parameters[k] == once.parameters[k] <==> StableParameter(r.parameters[k])
    {
      ParameterIdempotent(r.parameters[k]);
    }
    if StableRule(r) {
      assert twice.parameters == once.parameters;
    }
  }

  lemma ValuesIdempotent(m: map<string, seq<string>>)
    ensures CanonValues(CanonValues(m)) == CanonValues(m)
  {
    hide SortedUnique;
    forall k | k in m
      ensures SortedUnique(SortedUnique(m[k])) == SortedUnique(m[k])
    {
      SortedUniqueIdempotent(m[k]);
    }
  }

  lemma ValuesEmptiness(m: map<string, seq<string>>)
    ensures CanonValues(m) == map[] <==> m == map[]
  {
    hide SortedUnique;
    assert CanonValues(m).Keys == m.Keys;
  }

  lemma ConditionIdempotent(c: Condition)
    ensures CanonCondition(CanonCondition(c)) == CanonCondition(c)
  {
    hide CanonValues;
    forall op | op in c
      ensures CanonValues(CanonValues(c[op])) == CanonValues(c[op])
      ensures CanonValues(c[op]) == map[] <==> c[op] == map[]
    {
      ValuesIdempotent(c[op]);
      ValuesEmptiness(c[op]);
    }
  }

  lemma StatementIdempotent(s: Statement)
    ensures CanonStatement(CanonStatement(s)) == CanonStatement(s)
  {
    hide SortedUnique, CanonCondition, CanonExempt;
    SortedUniqueIdempotent(s.action);
    SortedUniqueIdempotent(s.resource);
    ConditionIdempotent(s.condition);
    ExemptIdempotent(s.exemptPrincipals);
  }

  lemma BlockIdempotent(s: Option<SCP>)
    ensures CanonBlock(CanonBlock(s)) == CanonBlock(s)
  {
    if s.Some? {
      hide CanonStatement, SortedUnique;
      SortedUniqueIdempotent(s.value.regionAllowlist);
      SortedUniqueIdempotent(s.value.serviceAllowlist);
      if s.value.statements.Some? {
        forall x | x in s.value.statements.value
          ensures CanonStatement(CanonStatement(x)) == CanonStatement(x)
        {
          StatementIdempotent(x);
        }
        KeepsSid();
        SortedMapIdempotent(SidKey, CanonStatement, s.value.statements.value);
      }
    }
  }

  lemma ControlIdempotent(c: Control)
    ensures CanonControl(CanonControl(c)) == CanonControl(c) <==> forall r | r in c.configRules :: StableRule(r)
  {
    hide CanonEnforcement, CanonBlock, CanonRule, StableRule, SortBy;
    EnforcementIdempotent(c.enforcement);
    BlockIdempotent(c.scp);
    forall r | r in c.configRules
      ensures CanonRule(CanonRule(r)) == CanonRule(r) <==> StableRule(r)
    {
      RuleIdempotent(r);
    }
    KeepsRuleKey();
    SortedMapIdempotent(RuleKey, CanonRule, c.configRules);
  }

  /** Canonical form is a fixed point exactly when the set-valued texts are stable; nothing else matters. */
  lemma ControlsIdempotent(cs: seq<Control>)
    ensures CanonControls(CanonControls(cs)) == CanonControls(cs) <==> StableControls(cs)
  {
    hide CanonControl, StableRule, SortBy;
    forall c | c in cs
      ensures CanonControl(CanonControl(c)) == CanonControl(c) <==> forall r | r in c.configRules :: StableRule(r)
    {
      ControlIdempotent(c);
    }
    KeepsId();
    SortedMapIdempotent(IdKey, CanonControl, cs);
  }

  /** Two pieces around a separator, listed in the other order. */
  lemma CutTwice(a: string, b: string, sep: string)
    requires |sep| == 2 && |a| == 1 && |b| == 2
    requires a[0] != sep[0] && Trimmed(a) && Trimmed(b) && Less(b, a) && b != sep
    ensures Respell(a + (sep + b), sep) == b + (sep + a)
  {
    hide Split, Find, TrimParts, SortedUnique, Trimmed, Less, Join;
    OccursAfter(a, sep, b);
    FoundAtOne(a + (sep + b), sep);
    SplitStep(a, sep, b);
    assert b[0..2] == b;
    assert forall i :: !Occurs(b, sep, i);
    NoSeparatorNoSplit(b, sep);
    hide Occurs;
    assert [a] + [b] == [a, b];
    TrimTwo(a, b);
    TwoSorted(b, a);
    JoinTwo(b, a, sep);
  }

  lemma Spellings()
    ensures "y,,x," == "y" + (",," + "x,") && "x,,,y" == "x," + (",," + "y")
    ensures "x,,,y" == "x" + (",," + ",y") && ",y,,x" == ",y" + (",," + "x")
  {
  }

  lemma CommaText()
    ensures Less("x,", "y") && Less(",y", "x") && "x," != ",," && ",y" != ",,"
    ensures Trimmed("x") && Trimmed("y") && Trimmed("x,") && Trimmed(",y")
  {
    assert "x,"[1] != ",,"[1] || "x,"[0] != ",,"[0];
    assert ",y"[1] != ",,"[1];
  }

  /** With the separator ",," canonicalizing is not idempotent: it changes the members of this value. */
  lemma DoubleCommaIsNotIdempotent()
    ensures Respell("y,,x,", ",,") == "x,,,y" && Respell("x,,,y", ",,") == ",y,,x"
    ensures !Unambiguous(",,")
  {
    CommaText();
    Spellings();
    hide Respell, Less, Trimmed;
    assert ",,"[1..] == ",,"[..1] && !IsSpace(",,"[0]);
    CutTwice("y", "x,", ",,");
    CutTwice("x", ",y", ",,");
  }

  lemma BlurredSpellings()
    ensures "b,,!," == "b" + (",," + "!,") && "!,,,b" == "!," + (",," + "b") && "!,,,b" == "!" + (",," + ",b")
  {
  }

  lemma BlurredText()
    ensures Less("!,", "b") && Less("!", ",b") && "!," != ",," && ",b" != ",,"
    ensures Trimmed("b") && Trimmed("!") && Trimmed("!,") && Trimmed(",b")
  {
    assert "!,"[0] != ",,"[0] && ",b"[1] != ",,"[1];
  }

  /** Two members around the separator, in order. */
  lemma CutInOrder(a: string, b: string, sep: string)
    requires |sep| == 2 && |a| == 1 && |b| == 2
    requires a[0] != sep[0] && Trimmed(a) && Trimmed(b) && b != sep
    ensures MembersOf(a + (sep + b), sep) == SortedUnique([a, b])
  {
    hide Split, Find, SortedUnique, Trimmed, Less;
    OccursAfter(a, sep, b);
    FoundAtOne(a + (sep + b), sep);
    SplitStep(a, sep, b);
    ShortLacks(b, sep);
    NoSeparatorNoSplit(b, sep);
    hide Occurs;
    assert [a] + [b] == [a, b];
    TrimTwo(a, b);
  }

  /** With the separator ",," these two values list different members, have one canonical spelling, and keep
      it when it is spelled again. */
  lemma DoubleCommaBlursMembers()
    ensures Respell("b,,!,", ",,") == "!,,,b" && Respell("!,,,b", ",,") == "!,,,b"
    ensures MembersOf("b,,!,", ",,") == ["!,", "b"] && MembersOf("!,,,b", ",,") == ["!", ",b"]
    ensures !Legible(",,")
  {
    BlurredText();
    BlurredSpellings();
    hide Less, Trimmed, MembersOf;
    assert ",,"[1..] == ",,"[..1] && !IsSpace(",,"[0]) && !IsSpace(",,"[1]);
    CutInOrder("b", "!,", ",,");
    CutInOrder("!", ",b", ",,");
    TwoSorted("!,", "b");
    SortedUniqueSame(["b", "!,"], ["!,", "b"]);
    TwoInOrder("!", ",b");
    JoinTwo("!,", "b", ",,");
    JoinTwo("!", ",b", ",,");
  }

  lemma TwoInOrder(a: string, b: string)
    requires Less(a, b)
    ensures SortedUnique([a, b]) == [a, b]
  {
    hide SortedUnique, Less;
    TwoSorted(a, b);
    SortedUniqueSame([a, b], [b, a]);
    assert Elements([a, b]) == Elements([b, a]);
  }
}
