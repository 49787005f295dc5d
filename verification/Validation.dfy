/** What makes a control artifact acceptable, and the proof that canonical form keeps it so. */
module Validation {
  import opened Options
  import opened Lists
  import opened SetText
  import opened Utf8
  import opened ArtifactTypes
  import opened Canonical

  /** The text shapes that the validator checks with regular expressions. */
  datatype Shapes = Shapes(
    supportedVersion: string -> bool,
    artifactId: string -> bool,
    timestamp: string -> bool,
    sha256: string -> bool,
    service: string -> bool,
    region: string -> bool,
    sid: string -> bool,
    printable: string -> bool,
    roleArn: string -> bool,
    ruleId: string -> bool,
    ruleName: string -> bool,
    template: string -> bool)

  const MAX_EXEMPT_PRINCIPALS := 8
  const AUTOMATION_ROLE_PLACEHOLDER := "automat:automation-role"

  predicate KnownClass(e: string)
  {
    e == "scp" || e == "config-rule" || e == "procedural" || e == "baseline-protection"
  }

  predicate ValidList(sh: Shapes, list: seq<string>)
  {
    Distinct(list) && forall v | v in list :: v != "" && sh.printable(v)
  }

  predicate ValidExempt(sh: Shapes, es: seq<ExemptPrincipal>)
  {
    && |es| <= MAX_EXEMPT_PRINCIPALS
    && (forall i, j | 0 <= i < j < |es| :: es[i].principal != es[j].principal)
    && forall e | e in es ::
         && e.principal != "" && (e.principal == AUTOMATION_ROLE_PLACEHOLDER || sh.roleArn(e.principal))
         && e.reason != "" && sh.printable(e.reason) && ByteLength(e.reason) <= 512
  }

  predicate ValidCondition(c: Condition)
  {
    forall op | op in c :: op != "" && forall k | k in c[op] :: k != "" && c[op][k] != []
  }

  predicate ValidStatement(sh: Shapes, s: Statement)
  {
    && s.sid != "" && sh.sid(s.sid)
    && s.effect == "Deny"
    && s.action != [] && ValidList(sh, s.action) && ValidList(sh, s.resource)
    && ValidExempt(sh, s.exemptPrincipals)
    && ValidCondition(s.condition)
  }

  predicate ValidSCP(sh: Shapes, s: SCP)
  {
    && !s.IsEmpty()
    && DistinctKeys(SidKey, Items(s.statements))
    && (forall t | t in Items(s.statements) :: ValidStatement(sh, t))
    && (forall r | r in s.regionAllowlist :: sh.region(r))
    && (forall v | v in s.serviceAllowlist :: sh.service(v))
  }

  predicate ValidParameter(p: RuleParameter)
  {
    && !p.Order().Unknown?
    && (p.setSeparator != "" ==> p.Order().IsSet())
    && (p.Order().IsSet() ==> p.Members() != [])
  }

  predicate ValidRule(sh: Shapes, r: ConfigRule)
  {
    && r.identifier != "" && sh.ruleId(r.identifier)
    && (r.name != "" ==> sh.ruleName(r.name))
    && (r.provenance == "aws-mapping" || (r.provenance == "curated" && r.rationale != ""))
    && forall k | k in r.parameters :: k != "" && ValidParameter(r.parameters[k])
  }

  predicate ValidAttestation(sh: Shapes, a: Attestation)
  {
    && a.template != "" && sh.template(a.template)
    && (a.frequency == "annual" || a.frequency == "semiannual" || a.frequency == "quarterly"
        || a.frequency == "monthly" || a.frequency == "on-change" || a.frequency == "continuous")
  }

  predicate ValidCrosswalk(m: map<string, string>)
  {
    forall k | k in m :: k != "" && m[k] != ""
  }

  /** Each declared class brings the payload that makes it actionable, and no payload comes undeclared. */
  predicate ClassesMatchPayload(c: Control)
  {
    && (("scp" in c.enforcement || "baseline-protection" in c.enforcement) <==> c.scp.Some?)
    && ("config-rule" in c.enforcement <==> c.configRules != [])
    && ("procedural" in c.enforcement <==> c.attestation.Some?)
  }

  predicate ValidControl(sh: Shapes, c: Control)
  {
    && c.id != "" && c.title != ""
    && c.enforcement != [] && Distinct(c.enforcement) && (forall e | e in c.enforcement :: KnownClass(e))
    && ClassesMatchPayload(c)
    && ValidCrosswalk(c.crosswalk)
    && (c.scp.Some? ==> ValidSCP(sh, c.scp.value))
    && (forall r | r in c.configRules :: ValidRule(sh, r))
    && (c.attestation.Some? ==> ValidAttestation(sh, c.attestation.value))
  }

  predicate ValidControls(sh: Shapes, cs: seq<Control>)
  {
    && cs != [] && DistinctKeys(IdKey, cs)
    && forall c | c in cs :: ValidControl(sh, c)
  }

  /** The list of globally addressed services is absent or names at least one, each once. */
  predicate ValidExemptServices(sh: Shapes, list: Nilable<string>)
  {
    list.Some? ==> list.value != [] && Distinct(list.value) && forall v | v in list.value :: sh.service(v)
  }

  // ---------------------------------------------------------------------------------------------
  // Two of the validator's loops, which remember what they have seen

  /** The list check counts problems; an empty or unprintable entry is not remembered. */
  method CheckStatementList(sh: Shapes, vals: seq<string>) returns (problems: nat)
    ensures problems == 0 <==> ValidList(sh, vals)
  {
    var seen: set<string> := {};
    problems := 0;
    for i := 0 to |vals|
      invariant problems == 0 <==> ValidList(sh, vals[..i])
      invariant problems == 0 ==> seen == Elements(vals[..i])
    {
      assert vals[..i + 1] == vals[..i] + [vals[i]];
      assert vals[i] in vals[..i] <==> vals[i] in Elements(vals[..i]);
      ValidListStep(sh, vals[..i], vals[i]);
      if vals[i] == "" || !sh.printable(vals[i]) {
        problems := problems + 1;
      } else {
        if vals[i] in seen {
          problems := problems + 1;
        }
        seen := seen + {vals[i]};
      }
    }
    assert vals[..|vals|] == vals;
  }

  lemma ValidListStep(sh: Shapes, front: seq<string>, v: string)
    ensures ValidList(sh, front + [v]) <==> ValidList(sh, front) && v !in front && v != "" && sh.printable(v)
  {
    var all := front + [v];
    assert all[|front|] == v && all[..|front|] == front;
    if ValidList(sh, all) {
      forall i, j | 0 <= i < j < |front|
        ensures front[i] != front[j]
      {
        assert all[i] != all[j];
      }
      forall i | 0 <= i < |front|
        ensures front[i] != v && front[i] in all
      {
        assert all[i] != all[|front|] && all[i] in all;
      }
      assert all[|front|] in all;
      assert ValidList(sh, front);
    }
  }

  // ---------------------------------------------------------------------------------------------
  // Canonical form stays valid

  lemma {:induction false} DedupeDistinct<T>(s: seq<T>)
    requires Distinct(s)
    ensures Dedupe(s) == s
  {
    if s != [] {
      var front := s[..|s| - 1];
      DedupeDistinct(front);
      assert s == front + [s[|s| - 1]];
    }
  }

  function PrincipalKey(e: ExemptPrincipal): Key { [e.principal] }

  lemma ExemptStaysValid(sh: Shapes, es: seq<ExemptPrincipal>)
    requires ValidExempt(sh, es)
    ensures ValidExempt(sh, CanonExempt(es))
  {
    DedupeDistinct(es);
    SortByPermutes(ExemptKey, es);
    var out := CanonExempt(es);
    assert DistinctKeys(PrincipalKey, es) by {
      forall i, j | 0 <= i < j < |es|
        ensures PrincipalKey(es[i]) != PrincipalKey(es[j])
      {
        assert PrincipalKey(es[i])[0] != PrincipalKey(es[j])[0];
      }
    }
    DistinctKeysOfPermutation(PrincipalKey, es, out);
    forall i, j | 0 <= i < j < |out|
      ensures out[i].principal != out[j].principal
    {
      assert PrincipalKey(out[i]) != PrincipalKey(out[j]);
    }
    forall e | e in out
      ensures e in es
    {
      assert e in Elements(out);
    }
  }

  lemma ConditionStaysValid(c: Condition)
    requires ValidCondition(c)
    ensures ValidCondition(CanonCondition(c))
  {
    var d := CanonCondition(c);
    forall op, k | op in d && k in d[op]
      ensures k != "" && d[op][k] != []
    {
      SortedUniqueDistinct(c[op][k]);
    }
  }

  lemma StatementStaysValid(sh: Shapes, s: Statement)
    requires ValidStatement(sh, s)
    ensures ValidStatement(sh, CanonStatement(s))
  {
    SortedUniqueDistinct(s.action);
    SortedUniqueDistinct(s.resource);
    ExemptStaysValid(sh, s.exemptPrincipals);
    ConditionStaysValid(s.condition);
    hide SortedUnique, CanonExempt, CanonCondition, ValidExempt, ValidCondition;
  }

  /** Canonicalizing the elements of a list and sorting it keeps distinct keys and whatever holds of
      every canonical element. */
  lemma SortedMapMembers<T(!new)>(key: T -> Key, canon: T -> T, s: seq<T>)
    requires forall x :: key(canon(x)) == key(x)
    ensures var r := SortBy(key, Map(canon, s));
            && (DistinctKeys(key, s) ==> DistinctKeys(key, r)) && (r == [] <==> s == [])
            && forall y :: y in r <==> exists x :: x in s && canon(x) == y
  {
    var m := Map(canon, s);
    SortByPermutes(key, m);
    if DistinctKeys(key, s) {
      DistinctKeysOfPermutation(key, m, SortBy(key, m));
    }
    MapElements(canon, s);
    assert forall y :: y in SortBy(key, m) <==> y in Elements(SortBy(key, m));
  }

  lemma SCPStaysValid(sh: Shapes, s: SCP)
    requires ValidSCP(sh, s)
    ensures ValidSCP(sh, CanonSCP(s))
  {
    BlockEmptiness(s);
    SortedUniqueDistinct(s.regionAllowlist);
    SortedUniqueDistinct(s.serviceAllowlist);
    hide CanonStatement, ValidStatement, SortedUnique, SCP.IsEmpty;
    KeepsSid();
    SortedMapMembers(SidKey, CanonStatement, Items(s.statements));
    forall t | t in Items(s.statements)
      ensures ValidStatement(sh, CanonStatement(t))
    {
      StatementStaysValid(sh, t);
    }
  }

  /** The members of a set, joined and cut apart again, still leave at least one. */
  predicate KeepsAMember(p: RuleParameter)
  {
    p.Order().IsSet() ==> MembersOf(Respell(p.value, p.Separator()), p.Separator()) != []
  }

  predicate RuleKeepsMembers(r: ConfigRule)
  {
    forall k | k in r.parameters :: KeepsAMember(r.parameters[k])
  }

  predicate ControlsKeepMembers(cs: seq<Control>)
  {
    forall c, r | c in cs && r in c.configRules :: RuleKeepsMembers(r)
  }

  lemma RuleStaysValid(sh: Shapes, r: ConfigRule)
    requires ValidRule(sh, r)
    ensures ValidRule(sh, CanonRule(r)) <==> RuleKeepsMembers(r)
  {
    hide SortedUnique, CanonParameter, ValidParameter, KeepsAMember;
    forall k | k in r.parameters
      ensures ValidParameter(CanonParameter(r.parameters[k])) <==> KeepsAMember(r.parameters[k])
    {
      ParameterStaysValid(r.parameters[k]);
    }
    assert CanonRule(r).parameters.Keys == r.parameters.Keys;
  }

  lemma ParameterStaysValid(p: RuleParameter)
    requires ValidParameter(p)
    ensures ValidParameter(CanonParameter(p)) <==> KeepsAMember(p)
  {
    CanonSeparator(p);
    hide OrderOf, MembersOf, Respell;
  }

  lemma EnforcementMembers(s: seq<string>)
    ensures forall e :: e in CanonEnforcement(s) <==> e in s
    ensures Distinct(CanonEnforcement(s))
  {
    forall x: string, y: string | x != y
      ensures ClassKey(x) != ClassKey(y)
    {
      ClassKeysDiffer(x, y);
    }
    SortedSetSame(ClassKey, s, s);
    StrictIsSorted(ClassKey, CanonEnforcement(s));
    assert forall e :: e in CanonEnforcement(s) <==> e in Elements(CanonEnforcement(s));
  }

  lemma BlockStaysValid(sh: Shapes, s: Option<SCP>)
    requires s.Some? ==> ValidSCP(sh, s.value)
    ensures CanonBlock(s).Some? <==> s.Some?
    ensures s.Some? ==> ValidSCP(sh, CanonBlock(s).value)
  {
    hide CanonSCP;
    if s.Some? {
      SCPStaysValid(sh, s.value);
    }
  }

  lemma CanonRulesValid(sh: Shapes, c: Control)
    requires forall r | r in c.configRules :: ValidRule(sh, r)
    ensures (forall r | r in CanonControl(c).configRules :: ValidRule(sh, r))
       <==> forall r | r in c.configRules :: RuleKeepsMembers(r)
  {
    hide CanonEnforcement, CanonBlock, CanonRule, ValidRule, RuleKeepsMembers, SortBy;
    KeepsRuleKey();
    SortedMapMembers(RuleKey, CanonRule, c.configRules);
    forall r | r in c.configRules
      ensures ValidRule(sh, CanonRule(r)) <==> RuleKeepsMembers(r)
      ensures CanonRule(r) in CanonControl(c).configRules
    {
      RuleStaysValid(sh, r);
    }
  }

  lemma ControlStaysValid(sh: Shapes, c: Control)
    requires ValidControl(sh, c)
    ensures ValidControl(sh, CanonControl(c)) <==> forall r | r in c.configRules :: RuleKeepsMembers(r)
  {
    EnforcementMembers(c.enforcement);
    assert c.enforcement[0] in CanonEnforcement(c.enforcement);
    BlockStaysValid(sh, c.scp);
    CanonRulesValid(sh, c);
    CanonRulesEmpty(c);
    hide CanonEnforcement, CanonBlock, CanonRule, ValidSCP, ValidRule, RuleKeepsMembers, ValidAttestation,
         ValidCrosswalk, KnownClass, SortBy, ClassesMatchPayload;
    ClassesStayMatched(c, CanonControl(c));
  }

  lemma CanonRulesEmpty(c: Control)
    ensures CanonControl(c).configRules == [] <==> c.configRules == []
  {
    hide CanonEnforcement, CanonBlock, CanonRule, SortBy;
    KeepsRuleKey();
    SortedMapMembers(RuleKey, CanonRule, c.configRules);
    if c.configRules != [] {
      assert c.configRules[0] in c.configRules;
    }
  }

  lemma ClassesStayMatched(c: Control, d: Control)
    requires forall e :: e in c.enforcement <==> e in d.enforcement
    requires (c.scp.Some? <==> d.scp.Some?) && (c.configRules == [] <==> d.configRules == [])
    requires c.attestation.Some? <==> d.attestation.Some?
    ensures ClassesMatchPayload(c) <==> ClassesMatchPayload(d)
  {
  }

  /** Canonical form breaks no rule but one: it can leave a set without members, and exactly then the
      canonical controls are refused. */
  lemma ControlsStayValid(sh: Shapes, cs: seq<Control>)
    requires ValidControls(sh, cs)
    ensures ValidControls(sh, CanonControls(cs)) <==> ControlsKeepMembers(cs)
  {
    hide CanonControl, ValidControl, RuleKeepsMembers, SortBy;
    KeepsId();
    SortedMapMembers(IdKey, CanonControl, cs);
    forall c | c in cs
      ensures ValidControl(sh, CanonControl(c)) <==> forall r | r in c.configRules :: RuleKeepsMembers(r)
      ensures CanonControl(c) in CanonControls(cs)
    {
      ControlStaysValid(sh, c);
    }
  }
}
