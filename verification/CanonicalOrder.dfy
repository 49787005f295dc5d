/** The order in which canonical form puts things. */
module CanonicalOrder {
  import opened Options
  import opened Lists
  import opened StableSort
  import opened ArtifactTypes
  import opened Canonical
  import opened Validation
  import opened Artifacts

  /** Text order: where two texts first differ the smaller character decides, and a text comes before those
      that continue it. */
  lemma {:induction false} TextOrder(a: string, b: string)
    ensures Less(a, b) <==>
              exists i :: 0 <= i <= |a| && i < |b| && a[..i] == b[..i] && (i == |a| || a[i] < b[i])
  {
    if a == "" {
      assert b != "" ==> a[..0] == b[..0];
    } else if b != "" {
      if a[0] == b[0] {
        TextOrder(a[1..], b[1..]);
        if Less(a, b) {
          var i :| 0 <= i <= |a[1..]| && i < |b[1..]| && a[1..][..i] == b[1..][..i]
                   && (i == |a[1..]| || a[1..][i] < b[1..][i]);
          assert a[..i + 1] == [a[0]] + a[1..][..i] && b[..i + 1] == [b[0]] + b[1..][..i];
        }
        if i :| 0 <= i <= |a| && i < |b| && a[..i] == b[..i] && (i == |a| || a[i] < b[i]) {
          assert a[1..][..i - 1] == a[..i][1..] && b[1..][..i - 1] == b[..i][1..];
          assert i - 1 == |a[1..]| || a[1..][i - 1] < b[1..][i - 1];
        }
      } else {
        assert a[..0] == b[..0];
        if i :| 0 <= i <= |a| && i < |b| && a[..i] == b[..i] && (i == |a| || a[i] < b[i]) {
          assert i > 0 ==> a[..i][0] == b[..i][0];
        }
      }
    }
  }

  /** In text order or equal. */
  predicate UpTo(a: string, b: string)
  {
    a == b || Less(a, b)
  }

  lemma OneKey(a: string, b: string)
    requires !KeyLess([b], [a])
    ensures UpTo(a, b)
  {
    LessTotal(a, b);
    KeyOfOne(b, a);
  }

  lemma KeyOfOne(a: string, b: string)
    ensures KeyLess([a], [b]) <==> Less(a, b)
  {
    hide Less;
    assert [a][1..] == [] && [b][1..] == [];
  }

  lemma TwoKeys(a: string, s: string, b: string, t: string)
    requires !KeyLess([b, t], [a, s])
    ensures Less(a, b) || (a == b && UpTo(s, t))
  {
    hide Less;
    assert [b, t][1..] == [t] && [a, s][1..] == [s];
    LessTotal(a, b);
    KeyOfOne(t, s);
    if a == b {
      OneKey(s, t);
    }
  }

  lemma ThreeKeys(a: string, s: string, x: string, b: string, t: string, y: string)
    requires !KeyLess([b, t, y], [a, s, x])
    ensures Less(a, b) || (a == b && (Less(s, t) || (s == t && UpTo(x, y))))
  {
    hide Less;
    assert [b, t, y][1..] == [t, y] && [a, s, x][1..] == [s, x];
    LessTotal(a, b);
    if a == b {
      TwoKeys(s, x, t, y);
    }
  }

  // ---------------------------------------------------------------------------------------------
  // Enforcement classes

  const CLASSES: seq<string> := ["scp", "config-rule", "procedural", "baseline-protection"]

  /** One class stands before another: known ones in their fixed order, then unknown ones by name. */
  predicate ClassBefore(a: string, b: string)
  {
    if b in CLASSES then exists m, n :: 0 <= m < n < |CLASSES| && CLASSES[m] == a && CLASSES[n] == b
    else a in CLASSES || Less(a, b)
  }

  lemma ClassKeyOrder(a: string, b: string)
    requires a != b && !KeyLess(ClassKey(b), ClassKey(a))
    ensures ClassBefore(a, b)
  {
    KeyLessTotal(ClassKey(a), ClassKey(b));
    ClassKeysDiffer(a, b);
    KnownClasses();
    if a !in CLASSES && b !in CLASSES {
      assert ClassKey(a)[1..] == [a] && ClassKey(b)[1..] == [b];
      KeyOfOne(a, b);
      LessIrreflexive("4");
    }
  }

  lemma KnownClasses()
    ensures CLASSES[0] == "scp" && CLASSES[1] == "config-rule"
    ensures CLASSES[2] == "procedural" && CLASSES[3] == "baseline-protection"
  {
  }

  /** The classes of a control in canonical form are the same ones, each once, known classes in their fixed
      order before unknown ones, and those by name. */
  lemma ClassesInOrder(classes: seq<string>)
    ensures var r := CanonEnforcement(classes);
            && (forall e :: e in r <==> e in classes)
            && forall i, j | 0 <= i < j < |r| :: r[i] != r[j] && ClassBefore(r[i], r[j])
  {
    hide ClassKey, KeyLess, ClassBefore, SortBy;
    var r := CanonEnforcement(classes);
    EnforcementMembers(classes);
    SortBySorted(ClassKey, Dedupe(classes));
    forall i, j | 0 <= i < j < |r|
      ensures r[i] != r[j] && ClassBefore(r[i], r[j])
    {
      ClassKeyOrder(r[i], r[j]);
    }
  }

  // ---------------------------------------------------------------------------------------------
  // Everything else

  /** Controls stand by id. */
  lemma ControlsInOrder(cs: seq<Control>)
    ensures var r := CanonControls(cs);
            |r| == |cs| && forall i, j | 0 <= i < j < |r| :: UpTo(r[i].id, r[j].id)
  {
    hide KeyLess, CanonControl, SortBy;
    var r := CanonControls(cs);
    SortBySorted(IdKey, Map(CanonControl, cs));
    SortByPermutes(IdKey, Map(CanonControl, cs));
    assert |multiset(r)| == |multiset(Map(CanonControl, cs))|;
    forall i, j | 0 <= i < j < |r|
      ensures UpTo(r[i].id, r[j].id)
    {
      OneKey(r[i].id, r[j].id);
    }
  }

  /** The rules of a control stand by identifier, and those with the same identifier by name. */
  lemma RulesInOrder(c: Control)
    ensures var r := CanonControl(c).configRules;
            |r| == |c.configRules| && forall i, j | 0 <= i < j < |r| ::
              Less(r[i].identifier, r[j].identifier)
              || (r[i].identifier == r[j].identifier && UpTo(r[i].name, r[j].name))
  {
    hide KeyLess, CanonRule, SortBy, CanonEnforcement, CanonBlock;
    var mapped := Map(CanonRule, c.configRules);
    var r := CanonControl(c).configRules;
    SortBySorted(RuleKey, mapped);
    SortByPermutes(RuleKey, mapped);
    assert |multiset(r)| == |multiset(mapped)|;
    forall i, j | 0 <= i < j < |r|
      ensures Less(r[i].identifier, r[j].identifier)
              || (r[i].identifier == r[j].identifier && UpTo(r[i].name, r[j].name))
    {
      TwoKeys(r[i].identifier, r[i].name, r[j].identifier, r[j].name);
    }
  }

  /** The statements of a policy block stand by Sid. */
  lemma StatementsInOrder(s: SCP)
    ensures var r := Items(CanonSCP(s).statements);
            |r| == |Items(s.statements)| && forall i, j | 0 <= i < j < |r| :: UpTo(r[i].sid, r[j].sid)
  {
    hide KeyLess, CanonStatement, SortBy;
    var mapped := Map(CanonStatement, Items(s.statements));
    var r := Items(CanonSCP(s).statements);
    if s.statements.Some? {
      SortBySorted(SidKey, mapped);
      SortByPermutes(SidKey, mapped);
      assert |multiset(r)| == |multiset(mapped)|;
    }
    forall i, j | 0 <= i < j < |r|
      ensures UpTo(r[i].sid, r[j].sid)
    {
      OneKey(r[i].sid, r[j].sid);
    }
  }

  /** The exempt principals of a statement stand by principal, then by reason, and none twice. */
  lemma ExemptsInOrder(s: Statement)
    ensures var r := CanonStatement(s).exemptPrincipals;
            && (forall e :: e in r <==> e in s.exemptPrincipals)
            && forall i, j | 0 <= i < j < |r| ::
                 Less(r[i].principal, r[j].principal)
                 || (r[i].principal == r[j].principal && Less(r[i].reason, r[j].reason))
  {
    hide KeyLess, SortBy, CanonCondition;
    var es := s.exemptPrincipals;
    var r := CanonStatement(s).exemptPrincipals;
    DedupeMeaning(es);
    SortByPermutes(ExemptKey, Dedupe(es));
    SortBySorted(ExemptKey, Dedupe(es));
    assert forall e :: (e in r <==> e in Elements(r)) && (e in es <==> e in Elements(es));
    SortByKeepsDistinct(Dedupe(es));
    forall i, j | 0 <= i < j < |r|
      ensures Less(r[i].principal, r[j].principal)
              || (r[i].principal == r[j].principal && Less(r[i].reason, r[j].reason))
    {
      TwoKeys(r[i].principal, r[i].reason, r[j].principal, r[j].reason);
      assert r[i] != r[j];
    }
  }

  lemma SortByKeepsDistinct(es: seq<ExemptPrincipal>)
    requires Distinct(es)
    ensures Distinct(SortBy(ExemptKey, es))
  {
    var r := SortBy(ExemptKey, es);
    forall i, j | 0 <= i < j < |es|
      ensures ExemptKey(es[i]) != ExemptKey(es[j])
    {
      var x, y := es[i], es[j];
      assert ExemptKey(x)[0] == x.principal && ExemptKey(x)[1] == x.reason;
      assert ExemptKey(y)[0] == y.principal && ExemptKey(y)[1] == y.reason;
    }
    SortByDistinct(ExemptKey, es);
    StrictIsSorted(ExemptKey, r);
  }

  /** What a source is: its kind and the value that names it, where exactly one is given, and nothing otherwise. */
  predicate IsOf(s: Source, kind: string, value: string)
  {
    var catalog, mapping, artifact := s.catalog != "", s.mapping != "", s.artifact != "";
    var one := (catalog && !mapping && !artifact) || (mapping && !catalog && !artifact)
               || (artifact && !catalog && !mapping);
    || (kind == "" && value == "" && !one)
    || (kind == "catalog" && value == s.catalog != "" && s.mapping == "" && s.artifact == "")
    || (kind == "mapping" && value == s.mapping != "" && s.catalog == "" && s.artifact == "")
    || (kind == "artifact" && value == s.artifact != "" && s.catalog == "" && s.mapping == "")
  }

  /** One source stands before another: by kind, then by the value that names it, then by hash. */
  ghost predicate SourceBefore(s: Source, t: Source)
  {
    forall k, v, l, w | IsOf(s, k, v) && IsOf(t, l, w) ::
      Less(k, l) || (k == l && (Less(v, w) || (v == w && UpTo(s.sha256, t.sha256))))
  }

  lemma SourceKeyOrder(s: Source, t: Source)
    requires !KeyLess(SourceKey(t), SourceKey(s))
    ensures SourceBefore(s, t)
  {
    hide KeyLess, Less;
    forall k, v, l, w | IsOf(s, k, v) && IsOf(t, l, w)
      ensures Less(k, l) || (k == l && (Less(v, w) || (v == w && UpTo(s.sha256, t.sha256))))
    {
      assert SourceKey(s) == [k, v, s.sha256] && SourceKey(t) == [l, w, t.sha256];
      ThreeKeys(k, v, s.sha256, l, w, t.sha256);
    }
  }

  /** The sources of a document stand in that order. */
  lemma SourcesInOrder(d: Document)
    ensures var r := CanonDocument(d).meta.sources;
            && multiset(r) == multiset(d.meta.sources)
            && forall i, j | 0 <= i < j < |r| :: SourceBefore(r[i], r[j])
  {
    hide KeyLess, SortBy, CanonControls, SourceBefore;
    var r := CanonDocument(d).meta.sources;
    SortBySorted(SourceKey, d.meta.sources);
    SortByPermutes(SourceKey, d.meta.sources);
    forall i, j | 0 <= i < j < |r|
      ensures SourceBefore(r[i], r[j])
    {
      SourceKeyOrder(r[i], r[j]);
    }
  }
}
