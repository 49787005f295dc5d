/** Resolving many bindings of one parameter: the outcome does not depend on the order or the
    bracketing in which they are combined. */
module ParamFold {
  import opened Options
  import opened Lists
  import opened SetText
  import opened ArtifactTypes
  import opened ParamResolve

  /** One way to combine some bindings two at a time. */
  datatype Bracketing = Single(p: RuleParameter) | Pair(left: Bracketing, right: Bracketing)

  /** The bindings that are combined, whatever their order and however often each occurs. */
  function Bindings(t: Bracketing): set<RuleParameter>
  {
    match t
    case Single(p) => {p}
    case Pair(l, r) => Bindings(l) + Bindings(r)
  }

  lemma {:induction false} SomeBinding(t: Bracketing) returns (p: RuleParameter)
    ensures p in Bindings(t)
  {
    match t
    case Single(q) => p := q;
    case Pair(l, _) => p := SomeBinding(l);
  }

  function Combine(read: Reader, t: Bracketing): Result<RuleParameter, Conflict>
  {
    match t
    case Single(p) => Ok(p)
    case Pair(l, r) =>
      var a, b := Combine(read, l), Combine(read, r);
      if a.Err? then a else if b.Err? then b else Resolve(read, a.value, b.value)
  }

  /** A binding that combines alike in every way: a known order, under a numeric order no NaN, and for a
      set an unambiguous separator and, in an intersection, a member. */
  ghost predicate Sound(read: Reader, p: RuleParameter)
  {
    && !p.Order().Unknown?
    && (p.Order().IsNumeric() ==> !read(p.value).NaN?)
    && (p.Order().IsSet() ==> Unambiguous(p.Separator()))
    && (p.Order() == SetIntersect ==> p.Members() != [])
  }

  /** Two results that mean the same: equal text for exact orders, the same text or the same number for
      numeric ones, the same members on the same separator for sets. */
  ghost predicate Equivalent(read: Reader, a: RuleParameter, b: RuleParameter)
  {
    && a.order == b.order
    && (a.Order() == Exact ==> a.value == b.value)
    && (a.Order().IsNumeric() ==>
          a.value == b.value || (read(a.value).At? && read(a.value) == read(b.value)))
    && (a.Order().IsSet() ==> a.Separator() == b.Separator() && a.Members() == b.Members())
  }

  // ---------------------------------------------------------------------------------------------
  // Meaning of a set of bindings, without any order of combination

  ghost predicate SameOrder(s: set<RuleParameter>)
  {
    forall p, q | p in s && q in s :: p.Order() == q.Order()
  }

  ghost predicate SameValue(s: set<RuleParameter>)
  {
    forall p, q | p in s && q in s :: p.value == q.value
  }

  ghost predicate SameSeparator(s: set<RuleParameter>)
  {
    forall p, q | p in s && q in s :: p.Separator() == q.Separator()
  }

  ghost predicate AllNumbers(read: Reader, s: set<RuleParameter>)
  {
    forall p | p in s :: read(p.value).At?
  }

  ghost predicate InAll(m: string, s: set<RuleParameter>)
  {
    forall p | p in s :: m in p.Members()
  }

  ghost predicate InSome(m: string, s: set<RuleParameter>)
  {
    exists p :: p in s && m in p.Members()
  }

  /** The bindings can be reconciled. */
  ghost predicate Coherent(read: Reader, order: ParamOrder, s: set<RuleParameter>)
  {
    && (forall p | p in s :: p.Order() == order)
    && (order == Exact ==> SameValue(s))
    && (order.IsNumeric() ==> SameValue(s) || AllNumbers(read, s))
    && (order.IsSet() ==> SameSeparator(s))
    && (order == SetIntersect ==> exists m :: InAll(m, s))
  }

  /** r is the strictest reading of all of them at once. */
  ghost predicate Strictest(read: Reader, order: ParamOrder, r: RuleParameter, s: set<RuleParameter>)
  {
    && r.Order() == order
    && (!order.IsSet() ==> exists p :: p in s && p.value == r.value)
    && (order == Min ==> forall p | p in s :: p.value == r.value || NumAtMost(read(r.value), read(p.value)))
    && (order == Max ==> forall p | p in s :: p.value == r.value || NumAtMost(read(p.value), read(r.value)))
    && (order.IsSet() ==> forall p | p in s :: p.Separator() == r.Separator())
    && (order == SetUnion ==> forall m :: m in r.Members() <==> InSome(m, s))
    && (order == SetIntersect ==> forall m :: m in r.Members() <==> InAll(m, s))
  }

  lemma CoherentParts(read: Reader, order: ParamOrder, s: set<RuleParameter>, t: set<RuleParameter>)
    requires Coherent(read, order, s + t)
    ensures Coherent(read, order, s) && Coherent(read, order, t)
  {
    if order == SetIntersect {
      var m :| InAll(m, s + t);
      assert InAll(m, s) && InAll(m, t);
    }
  }

  lemma StepScalar(read: Reader, order: ParamOrder, p: RuleParameter, s: set<RuleParameter>, q: RuleParameter,
      t: set<RuleParameter>)
    requires !order.Unknown? && !order.IsSet()
    requires Coherent(read, order, s) && Coherent(read, order, t)
    requires order.IsNumeric() ==> forall x | x in s + t :: !read(x.value).NaN?
    requires Strictest(read, order, p, s) && Strictest(read, order, q, t)
    ensures Resolve(read, p, q).Ok? <==> Coherent(read, order, s + t)
    ensures Resolve(read, p, q).Ok? ==> Strictest(read, order, Resolve(read, p, q).value, s + t)
  {
    hide OrderOf;
    if p.Order() == q.Order() {
      KnownOrder(p.order, q.order);
    }
    var x :| x in s && x.value == p.value;
    var y :| y in t && y.value == q.value;
    if order != Exact && p.value != q.value {
      assert x in s + t && y in s + t;
      assert !SameValue(s + t);
      if Resolve(read, p, q).Ok? {
        assert AllNumbers(read, s) && AllNumbers(read, t);
      }
    } else if order != Exact {
      assert AllNumbers(read, s) ==> read(q.value).At?;
      assert AllNumbers(read, t) ==> read(p.value).At?;
    }
  }

  lemma SeparatorsMeet(p: RuleParameter, s: set<RuleParameter>, q: RuleParameter, t: set<RuleParameter>)
    requires s != {} && t != {}
    requires forall x | x in s :: x.Separator() == p.Separator()
    requires forall y | y in t :: y.Separator() == q.Separator()
    ensures SameSeparator(s + t) <==> p.Separator() == q.Separator()
  {
    var x :| x in s;
    var y :| y in t;
    assert x in s + t && y in s + t;
  }

  /** Resolving two set bindings, in terms of their members alone. */
  lemma ResolveSets(read: Reader, p: RuleParameter, q: RuleParameter)
    requires p.Order() == q.Order() && p.Order().IsSet() && Unambiguous(p.Separator())
    ensures var members := SetMeet(p.Order(), p.Members(), q.Members());
            var r := Resolve(read, p, q);
            && (r.Ok? <==> p.Separator() == q.Separator() && (p.Order() == SetIntersect ==> members != []))
            && (r.Ok? ==> r.value.Order() == p.Order() && r.value.Separator() == p.Separator()
                          && r.value.Members() == members)
  {
    KnownOrder(p.order, q.order);
    if Resolve(read, p, q).Ok? {
      ResolvedMembers(read, p, q);
    }
  }

  lemma StepUnion(read: Reader, p: RuleParameter, s: set<RuleParameter>, q: RuleParameter, t: set<RuleParameter>)
    requires s != {} && t != {}
    requires Coherent(read, SetUnion, s) && Coherent(read, SetUnion, t)
    requires forall x | x in s + t :: Unambiguous(x.Separator())
    requires Strictest(read, SetUnion, p, s) && Strictest(read, SetUnion, q, t)
    ensures Resolve(read, p, q).Ok? <==> Coherent(read, SetUnion, s + t)
    ensures Resolve(read, p, q).Ok? ==> Strictest(read, SetUnion, Resolve(read, p, q).value, s + t)
  {
    hide OrderOf, RuleParameter.Separator, RuleParameter.Members, InAll, InSome, Unambiguous, SameSeparator, SetMeet,
         Resolve;
    SeparatorsMeet(p, s, q, t);
    SomePartSplits(s, t);
    var x :| x in s;
    assert x in s + t;
    ResolveSets(read, p, q);
    SetMeetMembers(SetUnion, p.Members(), q.Members());
  }

  lemma StepIntersect(read: Reader, p: RuleParameter, s: set<RuleParameter>, q: RuleParameter, t: set<RuleParameter>)
    requires s != {} && t != {}
    requires Coherent(read, SetIntersect, s) && Coherent(read, SetIntersect, t)
    requires forall x | x in s + t :: Unambiguous(x.Separator())
    requires Strictest(read, SetIntersect, p, s) && Strictest(read, SetIntersect, q, t)
    ensures Resolve(read, p, q).Ok? <==> Coherent(read, SetIntersect, s + t)
    ensures Resolve(read, p, q).Ok? ==> Strictest(read, SetIntersect, Resolve(read, p, q).value, s + t)
  {
    hide OrderOf, RuleParameter.Separator, RuleParameter.Members, InAll, InSome, Unambiguous, SameSeparator, SetMeet,
         Resolve;
    SeparatorsMeet(p, s, q, t);
    AllPartSplits(s, t);
    var x :| x in s;
    assert x in s + t;
    ResolveSets(read, p, q);
    SetMeetMembers(SetIntersect, p.Members(), q.Members());
    SharedMember(read, s + t, SetMeet(SetIntersect, p.Members(), q.Members()));
  }

  lemma SharedMember(read: Reader, s: set<RuleParameter>, members: seq<string>)
    requires forall m :: m in members <==> InAll(m, s)
    requires forall p | p in s :: p.Order() == SetIntersect
    ensures Coherent(read, SetIntersect, s) <==> SameSeparator(s) && members != []
  {
    hide InAll, SameSeparator;
    if members != [] {
      assert members[0] in members;
    }
  }

  lemma AllPartSplits(s: set<RuleParameter>, t: set<RuleParameter>)
    ensures forall m :: InAll(m, s + t) <==> InAll(m, s) && InAll(m, t)
  {
  }

  lemma SomePartSplits(s: set<RuleParameter>, t: set<RuleParameter>)
    ensures forall m :: InSome(m, s + t) <==> InSome(m, s) || InSome(m, t)
  {
    forall m
      ensures InSome(m, s + t) <==> InSome(m, s) || InSome(m, t)
    {
      if InSome(m, s) {
        var p :| p in s && m in p.Members();
        assert p in s + t;
      }
      if InSome(m, t) {
        var p :| p in t && m in p.Members();
        assert p in s + t;
      }
    }
  }

  lemma Step(read: Reader, order: ParamOrder, p: RuleParameter, s: set<RuleParameter>, q: RuleParameter,
      t: set<RuleParameter>)
    requires s != {} && t != {}
    requires Coherent(read, order, s) && Coherent(read, order, t)
    requires forall x | x in s + t :: Sound(read, x)
    requires Strictest(read, order, p, s) && Strictest(read, order, q, t)
    ensures Resolve(read, p, q).Ok? <==> Coherent(read, order, s + t)
    ensures Resolve(read, p, q).Ok? ==> Strictest(read, order, Resolve(read, p, q).value, s + t)
  {
    hide Strictest, Unambiguous, Resolve;
    var x :| x in s;
    assert x in s + t && x.Order() == order;
    assert forall y | y in t :: y in s + t;
    if order == SetUnion {
      StepUnion(read, p, s, q, t);
    } else if order == SetIntersect {
      StepIntersect(read, p, s, q, t);
    } else {
      StepScalar(read, order, p, s, q, t);
    }
  }

  lemma SingleBinding(read: Reader, p: RuleParameter)
    requires Sound(read, p)
    ensures Coherent(read, p.Order(), {p}) && Strictest(read, p.Order(), p, {p})
  {
    hide RuleParameter.Members, Unambiguous;
    assert p in {p};
    if p.Order() == SetIntersect {
      assert InAll(p.Members()[0], {p});
    }
    forall m
      ensures m in p.Members() <==> InSome(m, {p})
    {
    }
  }

  /** Combining succeeds exactly when the bindings can be reconciled, and then gives their strictest
      common reading; neither side mentions an order of combination. */
  lemma {:induction false} CombineMeaning(read: Reader, t: Bracketing, order: ParamOrder)
    requires forall p | p in Bindings(t) :: Sound(read, p)
    requires exists p :: p in Bindings(t) && p.Order() == order
    ensures Combine(read, t).Ok? <==> Coherent(read, order, Bindings(t))
    ensures Combine(read, t).Ok? ==> Strictest(read, order, Combine(read, t).value, Bindings(t))
    decreases t
  {
    hide Sound, Strictest, Resolve, OrderOf;
    match t
    case Single(p) => SingleBinding(read, p);
    case Pair(l, r) =>
      var x := SomeBinding(l);
      var y := SomeBinding(r);
      CombineMeaning(read, l, x.Order());
      CombineMeaning(read, r, y.Order());
      if Coherent(read, order, Bindings(t)) {
        CoherentParts(read, order, Bindings(l), Bindings(r));
        assert x.Order() == order && y.Order() == order;
        Step(read, order, Combine(read, l).value, Bindings(l), Combine(read, r).value, Bindings(r));
      } else if Combine(read, l).Ok? && Combine(read, r).Ok? {
        if x.Order() == y.Order() {
          SharedOrder(read, t, order, x.Order());
          Step(read, order, Combine(read, l).value, Bindings(l), Combine(read, r).value, Bindings(r));
        } else {
          OrdersKept(read, Combine(read, l).value, x.Order(), Bindings(l));
          OrdersKept(read, Combine(read, r).value, y.Order(), Bindings(r));
          DifferentOrdersConflict(read, Combine(read, l).value, Combine(read, r).value);
        }
      }
  }

  lemma SharedOrder(read: Reader, t: Bracketing, order: ParamOrder, shared: ParamOrder)
    requires t.Pair? && Coherent(read, shared, Bindings(t.left)) && Coherent(read, shared, Bindings(t.right))
    requires exists p :: p in Bindings(t) && p.Order() == order
    ensures order == shared
  {
  }

  lemma OrdersKept(read: Reader, r: RuleParameter, order: ParamOrder, s: set<RuleParameter>)
    requires Strictest(read, order, r, s)
    ensures r.Order() == order
  {
  }

  lemma DifferentOrdersConflict(read: Reader, p: RuleParameter, q: RuleParameter)
    requires p.Order() != q.Order()
    ensures Resolve(read, p, q).Err?
  {
  }

  lemma StrictestUnique(read: Reader, order: ParamOrder, a: RuleParameter, b: RuleParameter, s: set<RuleParameter>)
    requires s != {} && forall p | p in s :: Sound(read, p)
    requires Coherent(read, order, s) && Strictest(read, order, a, s) && Strictest(read, order, b, s)
    ensures Equivalent(read, a, b)
  {
    hide OrderOf;
    var x :| x in s;
    KnownOrder(a.order, b.order);
    if order.IsSet() {
      MembersAreGood(a.value, a.Separator());
      MembersAreGood(b.value, b.Separator());
      assert forall m :: m in a.Members() <==> m in b.Members();
      assert Elements(a.Members()) == Elements(b.Members());
      StrictlySortedUnique(TextKey, a.Members(), b.Members());
    } else {
      var p :| p in s && p.value == a.value;
      var q :| q in s && q.value == b.value;
    }
  }

  /** Combining the same bindings in any order and any bracketing, each any number of times, either
      conflicts every time or succeeds every time with equivalent results. */
  lemma CombinationIsIndependent(read: Reader, t: Bracketing, u: Bracketing)
    requires Bindings(t) == Bindings(u) && forall p | p in Bindings(t) :: Sound(read, p)
    ensures Combine(read, t).Ok? <==> Combine(read, u).Ok?
    ensures Combine(read, t).Ok? ==> Equivalent(read, Combine(read, t).value, Combine(read, u).value)
  {
    var x := SomeBinding(t);
    CombineMeaning(read, t, x.Order());
    CombineMeaning(read, u, x.Order());
    if Combine(read, t).Ok? {
      StrictestUnique(read, x.Order(), Combine(read, t).value, Combine(read, u).value, Bindings(t));
    }
  }
}
