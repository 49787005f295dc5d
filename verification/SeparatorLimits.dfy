/** What the separators of a document's parameters decide: whether canonical form is stable, and whether
    a written artifact can be loaded again. */
module SeparatorLimits {
  import opened Options
  import opened Lists
  import opened SetText
  import opened StableSort
  import opened Respelling
  import opened Reading
  import opened ArtifactTypes
  import opened Canonical
  import opened Validation
  import opened Artifacts

  /** Every set-valued parameter is split on this separator. */
  ghost predicate SeparatorsAre(cs: seq<Control>, sep: string)
  {
    forall c, r, k | c in cs && r in c.configRules && k in r.parameters && r.parameters[k].Order().IsSet() ::
      r.parameters[k].Separator() == sep
  }

  lemma UnambiguousControlsAreStable(cs: seq<Control>, sep: string)
    requires SeparatorsAre(cs, sep) && Unambiguous(sep)
    ensures StableControls(cs)
  {
    hide Unambiguous, StableParameter;
    forall c, r | c in cs && r in c.configRules
      ensures StableRule(r)
    {
      forall k | k in r.parameters
        ensures StableParameter(r.parameters[k])
      {
        assert r.parameters[k].Order().IsSet() ==> r.parameters[k].Separator() == sep;
        UnambiguousIsStable(r.parameters[k]);
      }
    }
  }

  // ---------------------------------------------------------------------------------------------
  // A document with one set-valued parameter

  function OneParameter(text: string, sep: string): RuleParameter
  {
    RuleParameter(text, "set-union", sep)
  }

  function OneRule(text: string, sep: string): ConfigRule
  {
    ConfigRule("RULE", "", "aws-mapping", "", map["p" := OneParameter(text, sep)], [])
  }

  function OneControl(text: string, sep: string): Control
  {
    Control("C", "Title", "", map[], ["config-rule"], None, [OneRule(text, sep)], None)
  }

  const ANY_SOURCE := Source("catalog", "", "", "", "", "", "sha", "")

  function OneDocument(text: string, sep: string): Document
  {
    Document("1", Meta("id", "Title", "", [ANY_SOURCE], "now", "hash"), [OneControl(text, sep)], None)
  }

  function AnyShape(): Shapes
  {
    var any := (s: string) => true;
    Shapes(any, any, any, any, any, any, any, any, any, any, any, any)
  }

  function OneHash(): Hash
  {
    (s: string) => "hash"
  }

  lemma SingleSorted<T>(key: T -> Key, x: T)
    ensures SortBy(key, [x]) == [x]
  {
    SortByPermutes(key, [x]);
    assert |SortBy(key, [x])| == 1;
    assert SortBy(key, [x])[0] in SortBy(key, [x]);
    assert SortBy(key, [x])[0] in multiset(SortBy(key, [x]));
  }

  lemma SetOrder()
    ensures OrderOf("set-union") == SetUnion
  {
  }

  lemma CanonOneRule(text: string, sep: string)
    requires sep != "" && sep != ","
    ensures CanonRule(OneRule(text, sep)) == OneRule(Respell(text, sep), sep)
  {
    hide Respell, OrderOf;
    SetOrder();
    SortedUniqueIdempotent([]);
    assert CanonParameter(OneParameter(text, sep)) == OneParameter(Respell(text, sep), sep);
    assert CanonRule(OneRule(text, sep)).parameters == OneRule(Respell(text, sep), sep).parameters;
  }

  lemma CanonOneControl(text: string, sep: string)
    requires sep != "" && sep != ","
    ensures CanonControl(OneControl(text, sep)) == OneControl(Respell(text, sep), sep)
  {
    hide Respell, CanonRule, OneRule;
    CanonOneRule(text, sep);
    SingleSorted(ClassKey, "config-rule");
    assert Dedupe(["config-rule"]) == ["config-rule"];
    assert Map(CanonRule, [OneRule(text, sep)]) == [OneRule(Respell(text, sep), sep)];
    SingleSorted(RuleKey, OneRule(Respell(text, sep), sep));
  }

  lemma CanonOneDocument(text: string, sep: string)
    requires sep != "" && sep != ","
    ensures CanonDocument(OneDocument(text, sep)) == OneDocument(Respell(text, sep), sep)
  {
    hide Respell, CanonControl, OneControl;
    CanonOneControl(text, sep);
    assert Map(CanonControl, [OneControl(text, sep)]) == [OneControl(Respell(text, sep), sep)];
    SingleSorted(IdKey, OneControl(Respell(text, sep), sep));
    SingleSorted(SourceKey, ANY_SOURCE);
  }

  lemma OneDocumentSeparator(text: string, sep: string)
    requires sep != ""
    ensures SeparatorsAre(OneDocument(text, sep).controls, sep)
  {
  }

  lemma OneDocumentValid(text: string, sep: string)
    requires sep != "" && MembersOf(text, sep) != []
    ensures Valid(AnyShape(), OneDocument(text, sep))
  {
    hide MembersOf, OrderOf;
    SetOrder();
    var r, c := OneRule(text, sep), OneControl(text, sep);
    assert ValidParameter(OneParameter(text, sep));
    assert ValidRule(AnyShape(), r);
    assert ValidControl(AnyShape(), c);
    assert ValidSource(AnyShape(), ANY_SOURCE);
  }

  // ---------------------------------------------------------------------------------------------
  // The limits

  lemma OneControlStability(text: string, sep: string)
    requires sep != "" && StableControls([OneControl(text, sep)])
    ensures Respell(Respell(text, sep), sep) == Respell(text, sep)
  {
    hide Respell, OrderOf;
    SetOrder();
    var c := OneControl(text, sep);
    var r := OneRule(text, sep);
    assert c in [c] && r in c.configRules && StableRule(r);
    assert StableParameter(r.parameters["p"]);
  }

  /** Canonical form is a fixed point for every document split on a separator if and only if the separator
      is unambiguous. */
  lemma CanonicalOnceExactly(sep: string)
    requires sep != ""
    ensures Unambiguous(sep) <==>
              forall d: Document | SeparatorsAre(d.controls, sep) :: CanonDocument(CanonDocument(d)) == CanonDocument(d)
  {
    hide Unambiguous, CanonDocument, SeparatorsAre, StableControls, OneControl, Respell;
    forall d: Document | SeparatorsAre(d.controls, sep)
      ensures CanonDocument(CanonDocument(d)) == CanonDocument(d) <==> StableControls(d.controls)
      ensures Unambiguous(sep) ==> StableControls(d.controls)
    {
      CanonDocumentIdempotent(d);
      if Unambiguous(sep) {
        UnambiguousControlsAreStable(d.controls, sep);
      }
    }
    if !Unambiguous(sep) {
      var text := Unsettled(sep);
      OneDocumentSeparator(text, sep);
      if StableControls(OneDocument(text, sep).controls) {
        OneControlStability(text, sep);
      }
    }
  }

  /** Every document split on a separator that a write accepts survives writing and loading if and only if
      the separator is unambiguous. */
  lemma ComesBackExactly(sep: string)
    requires sep != ""
    ensures Unambiguous(sep) <==>
              forall hash: Hash, sh: Shapes, d: Document | SeparatorsAre(d.controls, sep) && Written(hash, sh, d).Ok? ::
                ComesBack(hash, sh, STRICT, d)
  {
    hide Unambiguous, SeparatorsAre, ComesBack, Written, StableControls, Respell, OneControl, MembersOf;
    if Unambiguous(sep) {
      forall hash: Hash, sh: Shapes, d: Document | SeparatorsAre(d.controls, sep) && Written(hash, sh, d).Ok?
        ensures ComesBack(hash, sh, STRICT, d)
      {
        UnambiguousControlsAreStable(d.controls, sep);
        WriteThenLoad(hash, sh, STRICT, d);
      }
    } else {
      var text := Unsettled(sep);
      OneDocumentSeparator(text, sep);
      CommaIsUnambiguous();
      OneIsWritten(text, sep);
      WriteThenLoad(OneHash(), AnyShape(), STRICT, OneDocument(text, sep));
      if StableControls(OneDocument(text, sep).controls) {
        OneControlStability(text, sep);
      }
    }
  }

  lemma CommaIsUnambiguous()
    ensures Unambiguous(",")
  {
  }

  lemma OneIsWritten(text: string, sep: string)
    requires sep != "" && sep != "," && MembersOf(Respell(text, sep), sep) != []
    ensures Written(OneHash(), AnyShape(), OneDocument(text, sep)).Ok?
  {
    hide Respell, MembersOf, Valid, CanonDocument, ContentText;
    CanonOneDocument(text, sep);
    OneDocumentValid(Respell(text, sep), sep);
    assert Sealed(OneHash(), OneDocument(text, sep)) == OneDocument(Respell(text, sep), sep);
  }

  // ---------------------------------------------------------------------------------------------
  // What the hashed text tells of the members

  lemma LegibleControlsAre(cs: seq<Control>, sep: string)
    requires SeparatorsAre(cs, sep) && Legible(sep)
    ensures LegibleControls(cs)
  {
    hide Legible;
    forall c, r, k | c in cs && r in c.configRules && k in r.parameters
      ensures LegibleParameter(r.parameters[k])
    {
    }
  }

  lemma OneTextMembers(a: string, b: string, sep: string)
    requires sep != "" && SayTheSame([OneControl(a, sep)], [], [OneControl(b, sep)], [])
    ensures MembersOf(a, sep) == MembersOf(b, sep)
  {
    hide MembersOf, InStep;
    SetOrder();
    SinglesInStep(IdKey, ControlsBy(SameParameter), OneControl(a, sep), OneControl(b, sep));
    SinglesInStep(RuleKey, RulesBy(SameParameter), OneRule(a, sep), OneRule(b, sep));
    var p, q := OneParameter(a, sep), OneParameter(b, sep);
    assert OneRule(a, sep).parameters["p"] == p && OneRule(b, sep).parameters["p"] == q;
    assert SameParameter(p, q);
    SameMembersSpellAlike(a, b, sep);
  }

  lemma OneTextReads(a: string, b: string, sep: string)
    requires sep != "" && sep != "," && Respell(a, sep) == Respell(b, sep)
    ensures ContentText([OneControl(a, sep)], []) == ContentText([OneControl(b, sep)], [])
  {
    hide Respell, CanonControl, OneControl;
    CanonOneControl(a, sep);
    CanonOneControl(b, sep);
    assert Map(CanonControl, [OneControl(a, sep)]) == [OneControl(Respell(a, sep), sep)];
    assert Map(CanonControl, [OneControl(b, sep)]) == [OneControl(Respell(b, sep), sep)];
  }

  /** The hashed text of valid documents split on a separator tells all that they say if and only if the
      separator is legible. */
  lemma TextTellsExactly(sep: string)
    requires sep != ""
    ensures Legible(sep) <==>
              forall sh: Shapes, d: Document, e: Document |
                && Valid(sh, d) && Valid(sh, e) && SeparatorsAre(d.controls, sep) && SeparatorsAre(e.controls, sep)
                && ContentText(d.controls, Items(d.exemptServices))
                   == ContentText(e.controls, Items(e.exemptServices)) ::
                SayTheSame(d.controls, Items(d.exemptServices), e.controls, Items(e.exemptServices))
  {
    hide Legible, SeparatorsAre, Valid, ContentText, SayTheSame, LegibleControls, OneControl, Respell, MembersOf;
    if Legible(sep) {
      forall sh: Shapes, d: Document, e: Document |
          && Valid(sh, d) && Valid(sh, e) && SeparatorsAre(d.controls, sep) && SeparatorsAre(e.controls, sep)
          && ContentText(d.controls, Items(d.exemptServices)) == ContentText(e.controls, Items(e.exemptServices))
        ensures SayTheSame(d.controls, Items(d.exemptServices), e.controls, Items(e.exemptServices))
      {
        LegibleControlsAre(d.controls, sep);
        ContentTextExactly(d.controls, Items(d.exemptServices), e.controls, Items(e.exemptServices));
      }
    } else {
      CommaIsLegible();
      var one, other := Lookalikes(sep);
      var d, e := OneDocument(one, sep), OneDocument(other, sep);
      OneDocumentValid(one, sep);
      OneDocumentValid(other, sep);
      OneDocumentSeparator(one, sep);
      OneDocumentSeparator(other, sep);
      OneTextReads(one, other, sep);
      if SayTheSame(d.controls, Items(d.exemptServices), e.controls, Items(e.exemptServices)) {
        OneTextMembers(one, other, sep);
      }
    }
  }

  lemma CommaIsLegible()
    ensures Legible(",")
  {
  }

  /** The text whose hash a load compares with the declared one: that of the canonical form. */
  ghost function LoadedText(d: Document): string
  {
    ContentText(CanonDocument(d).controls, Items(CanonDocument(d).exemptServices))
  }

  /** An edited copy of a written document under the written hash that a strict load accepts, not by a
      collision of hashes. */
  ghost predicate PassesAsCopy(hash: Hash, sh: Shapes, d: Document, written: Document, edited: Document)
  {
    && Written(hash, sh, d) == Ok(written) && Loaded(hash, sh, STRICT, written) == Ok(written)
    && edited.meta.contentHash == written.meta.contentHash && Loaded(hash, sh, STRICT, edited).Ok?
    && LoadedText(edited) == LoadedText(written)
  }

  /** Edited copies of what a program wrote, split on a separator, pass only if they still say the same, for
      every hash and all text shapes, if and only if the separator is unambiguous. Being legible is not
      enough: a load hashes the canonical form of the canonical form. */
  lemma CopiesSayTheSameExactly(sep: string)
    requires sep != ""
    ensures Unambiguous(sep) <==>
              forall hash: Hash, sh: Shapes, d: Document, written: Document, edited: Document |
                && SeparatorsAre(written.controls, sep) && SeparatorsAre(edited.controls, sep)
                && PassesAsCopy(hash, sh, d, written, edited) ::
                SayTheSame(written.controls, Items(written.exemptServices),
                           edited.controls, Items(edited.exemptServices))
  {
    hide Unambiguous, SeparatorsAre, SayTheSame, OneControl, Respell, MembersOf, PassesAsCopy;
    if Unambiguous(sep) {
      forall hash: Hash, sh: Shapes, d: Document, written: Document, edited: Document |
          && SeparatorsAre(written.controls, sep) && SeparatorsAre(edited.controls, sep)
          && PassesAsCopy(hash, sh, d, written, edited)
        ensures SayTheSame(written.controls, Items(written.exemptServices),
                           edited.controls, Items(edited.exemptServices))
      {
        CopySaysTheSame(hash, sh, d, written, edited, sep);
      }
    } else {
      var text := Drifting(sep);
      DriftingCopy(text, sep);
      var written := OneDocument(Respell(Respell(text, sep), sep), sep);
      var edited := OneDocument(text, sep);
      OneDocumentSeparator(text, sep);
      OneDocumentSeparator(Respell(Respell(text, sep), sep), sep);
      if SayTheSame(written.controls, Items(written.exemptServices), edited.controls, Items(edited.exemptServices)) {
        OneTextMembers(Respell(Respell(text, sep), sep), text, sep);
      }
    }
  }

  lemma CopySaysTheSame(hash: Hash, sh: Shapes, d: Document, written: Document, edited: Document, sep: string)
    requires sep != "" && Unambiguous(sep) && PassesAsCopy(hash, sh, d, written, edited)
    requires SeparatorsAre(written.controls, sep) && SeparatorsAre(edited.controls, sep)
    ensures SayTheSame(written.controls, Items(written.exemptServices), edited.controls, Items(edited.exemptServices))
  {
    hide SeparatorsAre, SayTheSame, StableControls, LegibleControls, ContentText, CanonDocument, Valid;
    UnambiguousControlsAreStable(written.controls, sep);
    UnambiguousControlsAreStable(edited.controls, sep);
    UnambiguousIsLegible(sep);
    LegibleControlsAre(written.controls, sep);
    hide Unambiguous, Legible;
    CanonKeepsHash(hash, written);
    CanonKeepsHash(hash, edited);
    ContentTextExactly(
      written.controls, Items(written.exemptServices), edited.controls, Items(edited.exemptServices));
  }

  lemma DriftingCopy(text: string, sep: string)
    requires sep != "" && !Unambiguous(sep) && MembersOf(text, sep) != []
    requires var once := Respell(text, sep);
             && MembersOf(once, sep) != []
             && MembersOf(Respell(once, sep), sep) == MembersOf(once, sep)
    ensures var written, edited := OneDocument(Respell(Respell(text, sep), sep), sep), OneDocument(text, sep);
            PassesAsCopy(OneHash(), AnyShape(), written, written, edited)
  {
    hide MembersOf, Valid, ContentText, OneControl;
    CommaIsUnambiguous();
    hide Unambiguous;
    var once := Respell(text, sep);
    var twice := Respell(once, sep);
    SameMembersSpellAlike(once, twice, sep);
    hide Respell, CanonDocument;
    CanonOneDocument(text, sep);
    CanonOneDocument(twice, sep);
    OneDocumentValid(text, sep);
    OneDocumentValid(twice, sep);
    OneTextReads(once, twice, sep);
  }
}
