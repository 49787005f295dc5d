/** Exactly when the outcome of combining bindings depends on the order and the bracketing. */
module ParamFoldLimits {
  import opened SetText
  import opened ArtifactTypes
  import opened ParamResolve
  import opened ParamFold

  /** Two combinations conflict both, or succeed both with results that mean the same. */
  ghost predicate Agree(read: Reader, t: Bracketing, u: Bracketing)
  {
    var a, b := Combine(read, t), Combine(read, u);
    && (a.Ok? <==> b.Ok?)
    && (a.Ok? ==> Equivalent(read, a.value, b.value))
  }

  /** Every combination of exactly these bindings agrees with every other. */
  ghost predicate Independent(read: Reader, s: set<RuleParameter>)
  {
    forall t, u | Bindings(t) == s && Bindings(u) == s :: Agree(read, t, u)
  }

  // ---------------------------------------------------------------------------------------------
  // What every combination that succeeds has in common

  lemma {:induction false} OkOrders(read: Reader, t: Bracketing)
    requires Combine(read, t).Ok?
    ensures forall x | x in Bindings(t) :: x.order == Combine(read, t).value.order
  {
    hide OrderOf;
    match t
    case Single(_) =>
    case Pair(l, r) =>
      OkOrders(read, l);
      OkOrders(read, r);
  }

  lemma {:induction false} OkSeparators(read: Reader, t: Bracketing)
    requires Combine(read, t).Ok? && Combine(read, t).value.Order().IsSet()
    ensures forall x | x in Bindings(t) :: x.Separator() == Combine(read, t).value.Separator()
  {
    hide OrderOf, SetMeet, Join;
    match t
    case Single(_) =>
    case Pair(l, r) =>
      OkOrders(read, t);
      OkOrders(read, l);
      OkOrders(read, r);
      OkSeparators(read, l);
      OkSeparators(read, r);
  }

  /** A scalar result is the text of one of the bindings. */
  lemma {:induction false} OkTexts(read: Reader, t: Bracketing)
    requires Combine(read, t).Ok? && !Combine(read, t).value.Order().IsSet()
    ensures exists x :: x in Bindings(t) && x.value == Combine(read, t).value.value
  {
    hide OrderOf;
    match t
    case Single(_) =>
    case Pair(l, r) =>
      OkTexts(read, l);
      OkTexts(read, r);
      var x :| x in Bindings(l) && x.value == Combine(read, l).value.value;
      var y :| y in Bindings(r) && y.value == Combine(read, r).value.value;
      assert x in Bindings(t) && y in Bindings(t);
  }

  /** A malformed number combines with itself alone. */
  lemma {:induction false} OkMalformed(read: Reader, t: Bracketing, x: RuleParameter)
    requires Combine(read, t).Ok? && Combine(read, t).value.Order().IsNumeric()
    requires x in Bindings(t) && read(x.value).Malformed?
    ensures SameValue(Bindings(t))
  {
    hide OrderOf;
    match t
    case Single(_) =>
    case Pair(l, r) =>
      var a, b := Combine(read, l).value, Combine(read, r).value;
      assert a.Order() == b.Order() == Combine(read, t).value.Order();
      OkTexts(read, l);
      OkTexts(read, r);
      var y :| y in Bindings(l) && y.value == a.value;
      var z :| z in Bindings(r) && z.value == b.value;
      if x in Bindings(l) {
        OkMalformed(read, l, x);
        assert y.value == x.value;
        OkMalformed(read, r, z);
      } else {
        OkMalformed(read, r, x);
        assert z.value == x.value;
        OkMalformed(read, l, y);
      }
  }

  /** An intersection without members combines with nothing. */
  lemma {:induction false} MemberlessFails(read: Reader, t: Bracketing, x: RuleParameter)
    requires t.Pair? && x in Bindings(t) && x.Order() == SetIntersect && x.Members() == []
    ensures Combine(read, t).Err?
  {
    hide Resolve, OrderOf, RuleParameter.Members;
    var l, r := t.left, t.right;
    if Combine(read, l).Ok? && Combine(read, r).Ok? {
      OkOrders(read, l);
      OkOrders(read, r);
      var side := if x in Bindings(l) then l else r;
      if side.Pair? {
        MemberlessFails(read, side, x);
      } else {
        MemberlessMeet(read, Combine(read, l).value, Combine(read, r).value);
      }
    }
  }

  lemma MemberlessMeet(read: Reader, p: RuleParameter, q: RuleParameter)
    requires (p.Order() == SetIntersect && p.Members() == []) || (q.Order() == SetIntersect && q.Members() == [])
    ensures Resolve(read, p, q).Err?
  {
    hide OrderOf, RuleParameter.Members;
    SetMeetMembers(SetIntersect, p.Members(), q.Members());
    SomeMember(SetMeet(SetIntersect, p.Members(), q.Members()));
  }

  lemma SomeMember(members: seq<string>)
    ensures members != [] ==> exists m :: m in members
  {
    if members != [] {
      assert members[0] in members;
    }
  }

  lemma {:induction false} SameTextCombines(read: Reader, t: Bracketing, x: RuleParameter)
    requires x in Bindings(t) && SameOrder(Bindings(t)) && SameValue(Bindings(t)) && x.Order().IsNumeric()
    ensures Combine(read, t).Ok? && Combine(read, t).value.value == x.value && Combine(read, t).value.order == x.order
  {
    match t
    case Single(_) =>
    case Pair(l, r) =>
      var y := SomeBinding(l);
      var z := SomeBinding(r);
      hide OrderOf;
      assert x.Order() == y.Order() == z.Order() && x.value == y.value == z.value;
      KnownOrder(x.order, y.order);
      KnownOrder(x.order, z.order);
      SameTextCombines(read, l, y);
      SameTextCombines(read, r, z);
  }

  lemma {:induction false} NumbersCombine(read: Reader, t: Bracketing, x: RuleParameter)
    requires x in Bindings(t) && SameOrder(Bindings(t)) && x.Order().IsNumeric()
    requires forall y | y in Bindings(t) :: !read(y.value).Malformed?
    ensures Combine(read, t).Ok? && Combine(read, t).value.order == x.order
            && !read(Combine(read, t).value.value).Malformed?
  {
    match t
    case Single(_) =>
    case Pair(l, r) =>
      var y := SomeBinding(l);
      var z := SomeBinding(r);
      hide OrderOf;
      assert x.Order() == y.Order() == z.Order();
      KnownOrder(x.order, y.order);
      KnownOrder(x.order, z.order);
      NumbersCombine(read, l, y);
      NumbersCombine(read, r, z);
  }

  // ---------------------------------------------------------------------------------------------
  // The condition

  ghost predicate Alone(s: set<RuleParameter>, p: RuleParameter)
  {
    forall q | q in s :: q == p
  }

  /** Of bindings that share an order: one alone has a known order and, in an intersection, a member;
      numeric ones all have one text, or one of them is no number at all, or none of them is NaN. */
  ghost predicate Steady(read: Reader, s: set<RuleParameter>)
  {
    SameOrder(s) ==> forall p | p in s ::
      && (Alone(s, p) ==> !p.Order().Unknown? && (p.Order() == SetIntersect ==> p.Members() != []))
      && (p.Order().IsNumeric() ==>
            SameValue(s) || (exists q :: q in s && read(q.value).Malformed?) ||
            forall q | q in s :: !read(q.value).NaN?)
  }

  /** Sets that can be combined at all are split on a separator that cannot be mistaken. */
  ghost predicate Splits(s: set<RuleParameter>)
  {
    SameOrder(s) && SameSeparator(s) ==> forall p | p in s && p.Order().IsSet() :: Unambiguous(p.Separator())
  }

  lemma AllFail(read: Reader, s: set<RuleParameter>)
    requires forall t | Bindings(t) == s :: Combine(read, t).Err?
    ensures Independent(read, s)
  {
  }

  lemma MixedOrdersFail(read: Reader, t: Bracketing)
    requires !SameOrder(Bindings(t))
    ensures Combine(read, t).Err?
  {
    if Combine(read, t).Ok? {
      OkOrders(read, t);
    }
  }

  lemma OkPairKnown(read: Reader, t: Bracketing)
    requires t.Pair? && Combine(read, t).Ok?
    ensures !Combine(read, t).value.Order().Unknown?
  {
    hide OrderOf, SetMeet, Join;
  }

  lemma UnknownFails(read: Reader, t: Bracketing, p: RuleParameter)
    requires p in Bindings(t) && p.Order().Unknown? && t.Pair?
    ensures Combine(read, t).Err?
  {
    hide OrderOf;
    if Combine(read, t).Ok? {
      OkPairKnown(read, t);
      OkOrders(read, t);
    }
  }

  lemma SeparatorsFail(read: Reader, t: Bracketing, p: RuleParameter)
    requires p in Bindings(t) && p.Order().IsSet() && !SameSeparator(Bindings(t))
    ensures Combine(read, t).Err?
  {
    hide OrderOf;
    if Combine(read, t).Ok? {
      OkOrders(read, t);
      OkSeparators(read, t);
    }
  }

  lemma NotAloneIsPair(t: Bracketing, p: RuleParameter)
    requires p in Bindings(t) && !Alone(Bindings(t), p)
    ensures t.Pair?
  {
  }

  lemma SoundIsIndependent(read: Reader, s: set<RuleParameter>)
    requires forall p | p in s :: Sound(read, p)
    ensures Independent(read, s)
  {
    hide Sound;
    forall t, u | Bindings(t) == s && Bindings(u) == s
      ensures Agree(read, t, u)
    {
      CombinationIsIndependent(read, t, u);
    }
  }

  lemma SteadyNumbers(read: Reader, s: set<RuleParameter>, p: RuleParameter)
    requires p in s && SameOrder(s) && p.Order().IsNumeric() && Steady(read, s)
    ensures Independent(read, s)
  {
    hide OrderOf, RuleParameter.Members, RuleParameter.Separator;
    if SameValue(s) {
      forall t, u | Bindings(t) == s && Bindings(u) == s
        ensures Agree(read, t, u)
      {
        SameTextCombines(read, t, p);
        SameTextCombines(read, u, p);
      }
    } else if q :| q in s && read(q.value).Malformed? {
      assert q.Order() == p.Order();
      forall t | Bindings(t) == s
        ensures Combine(read, t).Err?
      {
        if Combine(read, t).Ok? {
          OkOrders(read, t);
          OkMalformed(read, t, q);
        }
      }
      AllFail(read, s);
    } else {
      forall q | q in s
        ensures Sound(read, q)
      {
        assert q.Order() == p.Order();
      }
      SoundIsIndependent(read, s);
    }
  }

  lemma SteadySets(read: Reader, s: set<RuleParameter>, p: RuleParameter)
    requires p in s && SameOrder(s) && p.Order().IsSet() && Steady(read, s) && Splits(s)
    ensures Independent(read, s)
  {
    hide OrderOf, RuleParameter.Members, RuleParameter.Separator, Unambiguous;
    if !SameSeparator(s) {
      forall t | Bindings(t) == s
        ensures Combine(read, t).Err?
      {
        SeparatorsFail(read, t, p);
      }
      AllFail(read, s);
    } else if x :| x in s && x.Order() == SetIntersect && x.Members() == [] {
      forall t | Bindings(t) == s
        ensures Combine(read, t).Err?
      {
        NotAloneIsPair(t, x);
        MemberlessFails(read, t, x);
      }
      AllFail(read, s);
    } else {
      forall q | q in s
        ensures Sound(read, q)
      {
        assert q.Order() == p.Order();
      }
      SoundIsIndependent(read, s);
    }
  }

  lemma SteadyIsIndependent(read: Reader, s: set<RuleParameter>, p: RuleParameter)
    requires p in s && Steady(read, s) && Splits(s)
    ensures Independent(read, s)
  {
    hide OrderOf, RuleParameter.Members, RuleParameter.Separator, Unambiguous, Independent;
    if !SameOrder(s) {
      forall t | Bindings(t) == s
        ensures Combine(read, t).Err?
      {
        MixedOrdersFail(read, t);
      }
      AllFail(read, s);
    } else if p.Order().Unknown? {
      forall t | Bindings(t) == s
        ensures Combine(read, t).Err?
      {
        NotAloneIsPair(t, p);
        UnknownFails(read, t, p);
      }
      AllFail(read, s);
    } else if p.Order().IsNumeric() {
      SteadyNumbers(read, s, p);
    } else if p.Order().IsSet() {
      SteadySets(read, s, p);
    } else {
      forall q | q in s
        ensures Sound(read, q)
      {
        assert q.Order() == p.Order();
      }
      SoundIsIndependent(read, s);
    }
  }

  // ---------------------------------------------------------------------------------------------
  // Where it depends

  /** A binding alone counts as it stands; combined with itself it is refused. */
  lemma AloneDepends(read: Reader, p: RuleParameter)
    requires p.Order().Unknown? || (p.Order() == SetIntersect && p.Members() == [])
    ensures !Agree(read, Single(p), Pair(Single(p), Single(p)))
  {
    hide OrderOf, RuleParameter.Members;
    if p.Order() == SetIntersect {
      SetMeetMembers(SetIntersect, p.Members(), p.Members());
    }
  }

  /** A NaN against another text: which of them survives is a matter of their order. */
  lemma NaNDepends(read: Reader, p: RuleParameter, q: RuleParameter)
    requires p.Order().IsNumeric() && p.order == q.order && p.value != q.value
    requires read(p.value).NaN? && !read(q.value).Malformed?
    ensures !Agree(read, Pair(Single(p), Single(q)), Pair(Single(q), Single(p)))
  {
    hide OrderOf;
    assert Combine(read, Pair(Single(p), Single(q))) == Resolve(read, p, q);
    assert Combine(read, Pair(Single(q), Single(p))) == Resolve(read, q, p);
  }

  /** The trees that let a NaN, or another text, have the last word. */
  function LastWord(order: ParamOrder, t: Bracketing, p: RuleParameter): Bracketing
  {
    if order == Min then Pair(t, Single(p)) else Pair(Single(p), t)
  }

  lemma LastWordBindings(order: ParamOrder, t: Bracketing, p: RuleParameter)
    requires p in Bindings(t)
    ensures Bindings(LastWord(order, t, p)) == Bindings(t)
  {
    assert Bindings(Single(p)) == {p};
  }

  lemma LastWordStands(read: Reader, t: Bracketing, p: RuleParameter)
    requires p.Order().IsNumeric() && Combine(read, t).Ok? && Combine(read, t).value.order == p.order
    requires !read(p.value).Malformed? && !read(Combine(read, t).value.value).Malformed?
    requires read(p.value).NaN? || read(Combine(read, t).value.value).NaN?
    ensures var r := Combine(read, LastWord(p.Order(), t, p));
            r.Ok? && r.value.value == p.value && r.value.order == p.order
  {
    hide OrderOf;
  }

  lemma NumbersDepend(read: Reader, t: Bracketing, p: RuleParameter, q: RuleParameter)
    requires SameOrder(Bindings(t)) && p in Bindings(t) && q in Bindings(t) && p.Order().IsNumeric()
    requires p.value != q.value && read(p.value).NaN?
    requires forall y | y in Bindings(t) :: !read(y.value).Malformed?
    ensures !Independent(read, Bindings(t))
  {
    hide OrderOf;
    assert p.Order() == q.Order();
    KnownOrder(p.order, q.order);
    NumbersCombine(read, t, p);
    var first := LastWord(p.Order(), t, p);
    LastWordStands(read, t, p);
    var second := LastWord(q.Order(), first, q);
    LastWordStands(read, first, q);
    LastWordBindings(p.Order(), t, p);
    LastWordBindings(q.Order(), first, q);
    hide Combine, LastWord;
    assert !Agree(read, first, second);
  }

  lemma UnsteadyDepends(read: Reader, t: Bracketing)
    requires !Steady(read, Bindings(t))
    ensures !Independent(read, Bindings(t))
  {
    hide OrderOf, RuleParameter.Members, Agree;
    var s := Bindings(t);
    if p :| p in s && Alone(s, p) && (p.Order().Unknown? || (p.Order() == SetIntersect && p.Members() == [])) {
      AloneDepends(read, p);
      assert s == {p};
      assert Bindings(Single(p)) == s && Bindings(Pair(Single(p), Single(p))) == s;
    } else {
      var p :| p in s && p.Order().IsNumeric() && !SameValue(s)
               && !(exists q :: q in s && read(q.value).Malformed?) && !(forall q | q in s :: !read(q.value).NaN?);
      var n :| n in s && read(n.value).NaN?;
      assert n.Order() == p.Order();
      OtherText(s, n);
      var q :| q in s && q.value != n.value;
      NumbersDepend(read, t, n, q);
    }
  }

  lemma OtherText(s: set<RuleParameter>, n: RuleParameter)
    requires n in s && !SameValue(s)
    ensures exists q :: q in s && q.value != n.value
  {
    var x, y :| x in s && y in s && x.value != y.value;
    assert x.value != n.value || y.value != n.value;
  }

  /** The outcome of combining some bindings is independent of order, bracketing and repetition if and
      only if the bindings are steady. */
  lemma IndependentExactly(read: Reader, t: Bracketing)
    requires Splits(Bindings(t))
    ensures Independent(read, Bindings(t)) <==> Steady(read, Bindings(t))
  {
    hide Splits, Steady, Independent;
    if Steady(read, Bindings(t)) {
      var p := SomeBinding(t);
      SteadyIsIndependent(read, Bindings(t), p);
    } else {
      UnsteadyDepends(read, t);
    }
  }

  // ---------------------------------------------------------------------------------------------
  // Separators

  /** The bindings are sets of one order on one separator, and an intersection has members. */
  ghost predicate SetsOn(s: set<RuleParameter>, order: ParamOrder, sep: string)
  {
    forall p | p in s :: p.Order() == order && p.Separator() == sep && (order == SetIntersect ==> p.Members() != [])
  }

  /** Combining bindings of a set order on one separator never depends on how it is done if and only if
      the separator is unambiguous. */
  lemma SetsIndependentExactly(read: Reader, order: ParamOrder, sep: string)
    requires order.IsSet() && sep != ""
    ensures Unambiguous(sep) <==> forall t | SetsOn(Bindings(t), order, sep) :: Independent(read, Bindings(t))
  {
    hide Unambiguous, OrderOf, RuleParameter.Members, RuleParameter.Separator;
    if Unambiguous(sep) {
      forall t | SetsOn(Bindings(t), order, sep)
        ensures Independent(read, Bindings(t))
      {
        IndependentExactly(read, t);
      }
    } else {
      var p := Respelled(order, sep);
      SelfMeetDepends(read, p);
      assert SetsOn(Bindings(Single(p)), order, sep);
      assert !Independent(read, Bindings(Single(p)));
    }
  }

  lemma SelfMeetDepends(read: Reader, p: RuleParameter)
    requires p.Order().IsSet() && p.Members() != []
    requires MembersOf(Respell(p.value, p.Separator()), p.Separator()) != p.Members()
    ensures !Independent(read, {p})
  {
    hide OrderOf, MembersOf, Respell;
    SelfMeet(read, p);
    var t, u := Single(p), Pair(Single(p), Single(p));
    assert Bindings(t) == {p} && Bindings(u) == {p};
    assert !Agree(read, t, u);
  }
}
