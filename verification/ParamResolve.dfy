/** Parameter resolution: the binding that satisfies two bindings of one rule parameter. */
module ParamResolve {
  import opened Options
  import opened Lists
  import opened SetText
  import opened ArtifactTypes

  /** What reading a text as a floating-point number gives. A number is known here by its place in the
      order of the numbers, infinities included; NaN has no place. */
  datatype Numeral = Malformed | NaN | At(rank: real)

  /** The library's number parser: any function from text. */
  type Reader = string -> Numeral

  predicate NumLess(a: Numeral, b: Numeral) { a.At? && b.At? && a.rank < b.rank }

  predicate NumAtMost(a: Numeral, b: Numeral) { a.At? && b.At? && a.rank <= b.rank }

  datatype Conflict =
    | DifferentOrders
    | UnknownOrder
    | ExactValuesDiffer
    | NotNumeric
    | DifferentSeparators
    | Disjoint

  /** The members of a that are also in b, in a's order. */
  function Common(a: seq<string>, b: seq<string>): (r: seq<string>)
    ensures forall m :: m in r <==> m in a && m in b
  {
    if a == [] then []
    else
      var front := Common(a[..|a| - 1], b);
      if a[|a| - 1] in b then front + [a[|a| - 1]] else front
  }

  /** The stricter of two member lists: fewer permitted members, or more prohibited ones. */
  function SetMeet(order: ParamOrder, a: seq<string>, b: seq<string>): seq<string>
  {
    if order == SetIntersect then SortedUnique(Common(a, b)) else SortedUnique(a + b)
  }

  /** The member-level meet as the program computes it. */
  method SetResolve(order: ParamOrder, a: seq<string>, b: seq<string>) returns (out: seq<string>)
    ensures out == SetMeet(order, a, b)
    ensures StrictlySorted(TextKey, out)
    ensures forall m :: m in out <==> if order == SetIntersect then m in a && m in b else m in a || m in b
  {
    var inB: set<string> := {};
    for i := 0 to |b|
      invariant inB == Elements(b[..i])
    {
      assert b[..i + 1] == b[..i] + [b[i]];
      inB := inB + {b[i]};
    }
    assert b[..|b|] == b;
    out := [];
    if order == SetIntersect {
      for i := 0 to |a|
        invariant out == Common(a[..i], b)
      {
        assert a[..i + 1][..i] == a[..i];
        if a[i] in inB {
          out := out + [a[i]];
        }
      }
      assert a[..|a|] == a;
    } else {
      out := a + b;
    }
    SortedUniqueMeaning(out);
    assert forall m :: m in SortedUnique(out) <==> m in Elements(out);
    out := ComputeSortedUnique(out);
  }

  lemma SetMeetMembers(order: ParamOrder, a: seq<string>, b: seq<string>)
    ensures StrictlySorted(TextKey, SetMeet(order, a, b))
    ensures forall m :: m in SetMeet(order, a, b)
              <==> if order == SetIntersect then m in a && m in b else m in a || m in b
  {
    var all := if order == SetIntersect then Common(a, b) else a + b;
    SortedUniqueMeaning(all);
    assert forall m :: m in SortedUnique(all) <==> m in Elements(all);
  }

  function Resolve(read: Reader, p: RuleParameter, q: RuleParameter): Result<RuleParameter, Conflict>
  {
    if p.order != q.order then Err(DifferentOrders)
    else if p.Order().Unknown? then Err(UnknownOrder)
    else if p.Order() == Exact then
      if p.value != q.value then Err(ExactValuesDiffer) else Ok(p)
    else if !p.Order().IsSet() then
      if p.value == q.value then Ok(p)
      else
        var a, b := read(p.value), read(q.value);
        if a.Malformed? || b.Malformed? then Err(NotNumeric)
        else if (p.Order() == Min) == NumLess(a, b) then Ok(p)
        else Ok(q)
    else if p.Separator() != q.Separator() then Err(DifferentSeparators)
    else
      var members := SetMeet(p.Order(), p.Members(), q.Members());
      if members == [] && p.Order() == SetIntersect then Err(Disjoint)
      else Ok(p.(value := Join(members, p.Separator())))
  }

  /** Whether a binding permits a candidate, and whether the question has a meaning for its order. */
  datatype Verdict = Verdict(permitted: bool, meaningful: bool)

  function Permits(read: Reader, p: RuleParameter, candidate: string): Verdict
  {
    if p.Order() == Exact then Verdict(candidate == p.value, true)
    else if p.Order().IsNumeric() then
      var c, v := read(candidate), read(p.value);
      if c.Malformed? || v.Malformed? then Verdict(false, false)
      else if p.Order() == Min then Verdict(NumAtMost(c, v), true)
      else Verdict(NumAtMost(v, c), true)
    else if p.Order() == SetUnion then Verdict(candidate !in p.Members(), true)
    else if p.Order() == SetIntersect then Verdict(candidate in p.Members(), true)
    else Verdict(false, false)
  }

  /** The answer for all five orders; for the set orders the members are searched with a flag. */
  method AnswerPermits(read: Reader, p: RuleParameter, candidate: string) returns (v: Verdict)
    ensures v == Permits(read, p, candidate)
  {
    match p.Order()
    case Exact =>
      v := Verdict(candidate == p.value, true);
    case Min =>
      var c, limit := read(candidate), read(p.value);
      v := if c.Malformed? || limit.Malformed? then Verdict(false, false) else Verdict(NumAtMost(c, limit), true);
    case Max =>
      var c, limit := read(candidate), read(p.value);
      v := if c.Malformed? || limit.Malformed? then Verdict(false, false) else Verdict(NumAtMost(limit, c), true);
    case SetUnion =>
      var found := HasMember(p, candidate);
      v := Verdict(!found, true);
    case SetIntersect =>
      var found := HasMember(p, candidate);
      v := Verdict(found, true);
    case Unknown =>
      v := Verdict(false, false);
  }

  method HasMember(p: RuleParameter, candidate: string) returns (found: bool)
    ensures found == (candidate in p.Members())
  {
    hide OrderOf, MembersOf, RuleParameter.Separator;
    var members := p.Members();
    found := false;
    for i := 0 to |members|
      invariant !found && candidate !in members[..i]
    {
      assert members[..i + 1] == members[..i] + [members[i]];
      if members[i] == candidate {
        found := true;
        break;
      }
    }
    assert members[..|members|] == members;
  }

  // ---------------------------------------------------------------------------------------------
  // The resolved binding is the meet

  /** r permits the candidate exactly when p and q both do, and asks the same question they do. */
  ghost predicate Agrees(read: Reader, r: RuleParameter, p: RuleParameter, q: RuleParameter, candidate: string)
  {
    var vr, vp, vq := Permits(read, r, candidate), Permits(read, p, candidate), Permits(read, q, candidate);
    && (vr.meaningful <==> vp.meaningful && vq.meaningful)
    && (vr.meaningful ==> (vr.permitted <==> vp.permitted && vq.permitted))
  }

  ghost predicate MeetHolds(read: Reader, p: RuleParameter, q: RuleParameter)
  {
    var r := Resolve(read, p, q);
    r.Ok? ==> forall c :: Agrees(read, r.value, p, q, c)
  }

  /** The one pair of texts on which a numeric order picks the looser value: a NaN met with a number,
      on the side the comparison discards. */
  predicate DropsNaN(read: Reader, p: RuleParameter, q: RuleParameter)
  {
    || (p.Order() == Min && read(p.value).NaN? && read(q.value).At?)
    || (p.Order() == Max && read(p.value).At? && read(q.value).NaN?)
  }

  /** Resolution is the meet of permitted behaviour, for every candidate and all five orders, except
      exactly where a numeric order drops a NaN. A set needs an unambiguous separator. */
  lemma ResolveIsMeet(read: Reader, p: RuleParameter, q: RuleParameter)
    requires Resolve(read, p, q).Ok?
    requires p.Order().IsSet() ==> Unambiguous(p.Separator())
    ensures MeetHolds(read, p, q) <==> !DropsNaN(read, p, q)
  {
    if p.Order().IsSet() {
      hide MeetHolds, Resolve;
      SetMeetHolds(read, p, q);
    } else {
      ScalarMeet(read, p, q);
    }
  }

  lemma ScalarMeet(read: Reader, p: RuleParameter, q: RuleParameter)
    requires Resolve(read, p, q).Ok? && !p.Order().IsSet()
    ensures MeetHolds(read, p, q) <==> !DropsNaN(read, p, q)
  {
    hide OrderOf, MembersOf, RuleParameter.Members, RuleParameter.Separator;
    var r := Resolve(read, p, q).value;
    if DropsNaN(read, p, q) {
      assert !Agrees(read, r, p, q, r.value);
    } else {
      forall c
        ensures Agrees(read, r, p, q, c)
      {
      }
    }
  }

  /** The members of a resolved set, after its text has been split again. */
  lemma ResolvedMembers(read: Reader, p: RuleParameter, q: RuleParameter)
    requires p.Order().IsSet() && Resolve(read, p, q).Ok? && Unambiguous(p.Separator())
    ensures var r := Resolve(read, p, q).value;
            && r.order == p.order && r.Separator() == p.Separator()
            && r.Members() == SetMeet(p.Order(), p.Members(), q.Members())
            && forall m :: m in r.Members()
                 <==> if p.Order() == SetIntersect then m in p.Members() && m in q.Members()
                      else m in p.Members() || m in q.Members()
  {
    hide OrderOf, MembersOf, Join, SetMeet, Unambiguous;
    var members := SetMeet(p.Order(), p.Members(), q.Members());
    SetMeetMembers(p.Order(), p.Members(), q.Members());
    MembersAreGood(p.value, p.Separator());
    MembersAreGood(q.value, q.Separator());
    JoinedMembers(members, p.Separator());
  }

  /** Over all bindings of a set order on one separator, resolution is the meet exactly when the separator
      is unambiguous. */
  lemma SetResolveIsMeetExactly(read: Reader, order: ParamOrder, sep: string)
    requires sep != "" && order.IsSet()
    ensures Unambiguous(sep) <==> forall p: RuleParameter, q: RuleParameter ::
              p.Order() == order && p.Separator() == sep ==> MeetHolds(read, p, q)
  {
    hide OrderOf, Unambiguous, MeetHolds, Resolve, RuleParameter.Separator, MembersOf;
    if Unambiguous(sep) {
      forall p: RuleParameter, q: RuleParameter | p.Order() == order && p.Separator() == sep
        ensures MeetHolds(read, p, q)
      {
        SetMeetHolds(read, p, q);
      }
    } else {
      var p := Respelled(order, sep);
      SelfMeet(read, p);
      SelfMeetFails(read, p);
    }
  }

  lemma SetMeetHolds(read: Reader, p: RuleParameter, q: RuleParameter)
    requires p.Order().IsSet() && Unambiguous(p.Separator())
    ensures MeetHolds(read, p, q)
  {
    if Resolve(read, p, q).Ok? {
      hide OrderOf, RuleParameter.Members, RuleParameter.Separator, Unambiguous, SetMeet, Join;
      var r := Resolve(read, p, q).value;
      ResolvedMembers(read, p, q);
      assert p.order == q.order;
      hide Resolve, Agrees;
      forall c
        ensures Agrees(read, r, p, q, c)
      {
        SetsAgree(read, r, p, q, c);
      }
    }
  }

  lemma SetsAgree(read: Reader, r: RuleParameter, p: RuleParameter, q: RuleParameter, c: string)
    requires p.Order().IsSet() && r.order == p.order == q.order
    requires c in r.Members() <==> if p.Order() == SetIntersect then c in p.Members() && c in q.Members()
                                   else c in p.Members() || c in q.Members()
    ensures Agrees(read, r, p, q, c)
  {
    hide OrderOf, RuleParameter.Members;
    assert r.Order() == p.Order() == q.Order();
  }

  function SetOrderText(order: ParamOrder): string
    requires order.IsSet()
  {
    if order == SetUnion then "set-union" else "set-intersect"
  }

  /** On an ambiguous separator some binding with members has other members once it is respelled. */
  lemma Respelled(order: ParamOrder, sep: string) returns (p: RuleParameter)
    requires sep != "" && order.IsSet() && !Unambiguous(sep)
    ensures p.Order() == order && p.Separator() == sep && p.Members() != []
    ensures MembersOf(Respell(p.value, sep), sep) != p.Members()
  {
    hide Unambiguous, MembersOf, Respell;
    KeepsMembersExactly(sep);
    var text :| MembersOf(Respell(text, sep), sep) != MembersOf(text, sep);
    p := RuleParameter(text, SetOrderText(order), sep);
    if MembersOf(text, sep) == [] {
      NoMembersNoText(text, sep);
    }
  }

  lemma NoMembersNoText(text: string, sep: string)
    requires sep != "" && MembersOf(text, sep) == []
    ensures MembersOf(Respell(text, sep), sep) == MembersOf(text, sep)
  {
    assert Respell(text, sep) == "";
    assert Split("", sep) == [""];
    assert TrimSpace("") == "";
    assert TrimParts([""]) == [];
    SortedUniqueIdempotent([]);
  }

  /** Resolving a binding with itself joins its members and splits them again. */
  lemma SelfMeet(read: Reader, p: RuleParameter)
    requires p.Order().IsSet() && p.Members() != []
    ensures Resolve(read, p, p) == Ok(p.(value := Respell(p.value, p.Separator())))
  {
    hide OrderOf, RuleParameter.Separator, MembersOf;
    var members := p.Members();
    MembersAreGood(p.value, p.Separator());
    SetMeetMembers(p.Order(), members, members);
    assert Elements(SetMeet(p.Order(), members, members)) == Elements(members);
    StrictlySortedUnique(TextKey, SetMeet(p.Order(), members, members), members);
  }

  lemma DifferentMembers(read: Reader, r: RuleParameter, p: RuleParameter)
    requires r.Order() == p.Order() && p.Order().IsSet() && r.Members() != p.Members()
    ensures exists c :: !Agrees(read, r, p, p, c)
  {
    hide OrderOf, MembersOf, RuleParameter.Separator;
    MembersAreGood(r.value, r.Separator());
    MembersAreGood(p.value, p.Separator());
    if Elements(r.Members()) == Elements(p.Members()) {
      StrictlySortedUnique(TextKey, r.Members(), p.Members());
    }
    var c :| (c in r.Members()) != (c in p.Members());
    assert !Agrees(read, r, p, p, c);
  }

  lemma SelfMeetFails(read: Reader, p: RuleParameter)
    requires p.Order().IsSet() && MembersOf(Respell(p.value, p.Separator()), p.Separator()) != p.Members()
    requires Resolve(read, p, p) == Ok(p.(value := Respell(p.value, p.Separator())))
    ensures !MeetHolds(read, p, p)
  {
    hide Resolve, MembersOf, Respell, Agrees;
    DifferentMembers(read, p.(value := Respell(p.value, p.Separator())), p);
  }

  // ---------------------------------------------------------------------------------------------
  // The orders, by the texts that a binding declares

  predicate Numeric(order: string) { order == "min" || order == "max" }

  predicate OfSets(order: string) { order == "set-union" || order == "set-intersect" }

  /** The members a binding lists, split on a comma if it declares no separator. */
  function Listed(p: RuleParameter): seq<string>
  {
    MembersOf(p.value, if p.setSeparator == "" then "," else p.setSeparator)
  }

  lemma ListedMembers(p: RuleParameter)
    ensures p.Members() == if OfSets(p.order) then Listed(p) else []
    ensures p.Separator() == if p.setSeparator == "" then "," else p.setSeparator
  {
  }

  /** What a binding permits: under "min" the numbers up to its value, under "max" those from its value on,
      under "exact" its value alone, under "set-union" whatever it does not list, and under "set-intersect"
      what it lists. A question that is no number has no answer under a numeric order. */
  lemma PermitsByText(read: Reader, p: RuleParameter, candidate: string)
    ensures var v := Permits(read, p, candidate);
            var c, limit := read(candidate), read(p.value);
            && (p.order == "min" && c.At? && limit.At? ==> v == Verdict(c.rank <= limit.rank, true))
            && (p.order == "max" && c.At? && limit.At? ==> v == Verdict(c.rank >= limit.rank, true))
            && (Numeric(p.order) && (c.Malformed? || limit.Malformed?) ==> v == Verdict(false, false))
            && (Numeric(p.order) && !(c.At? && limit.At?) ==> !v.permitted)
            && (p.order == "exact" ==> v == Verdict(candidate == p.value, true))
            && (p.order == "set-union" ==> v == Verdict(candidate !in Listed(p), true))
            && (p.order == "set-intersect" ==> v == Verdict(candidate in Listed(p), true))
            && (!Numeric(p.order) && !OfSets(p.order) && p.order != "exact" ==> v == Verdict(false, false))
  {
    hide MembersOf;
    ListedMembers(p);
  }

  /** What two bindings resolve to: under "min" the smaller number, under "max" the larger, under "exact" the
      common value, under the set orders the union or the intersection of what they list. Of two spellings of
      one number the second stands under "min" and the first under "max". */
  lemma ResolvesByText(read: Reader, p: RuleParameter, q: RuleParameter)
    requires Resolve(read, p, q).Ok?
    ensures var r := Resolve(read, p, q).value;
            var a, b, n := read(p.value), read(q.value), read(r.value);
            && p.order == q.order == r.order && (Numeric(p.order) || OfSets(p.order) || p.order == "exact")
            && (p.order == "min" && a.At? && b.At? ==> (r == p || r == q) && n.rank <= a.rank && n.rank <= b.rank)
            && (p.order == "max" && a.At? && b.At? ==> (r == p || r == q) && n.rank >= a.rank && n.rank >= b.rank)
            && (p.order == "min" && a.At? && a == b && p.value != q.value ==> r == q)
            && (p.order == "max" && a.At? && a == b && p.value != q.value ==> r == p)
            && (p.order == "exact" ==> r == p && r.value == q.value)
            && (p.order == "set-union" ==>
                  exists ms :: StrictlySorted(TextKey, ms) && r == p.(value := Join(ms, p.Separator()))
                               && forall m :: m in ms <==> m in Listed(p) || m in Listed(q))
            && (p.order == "set-intersect" ==>
                  exists ms :: StrictlySorted(TextKey, ms) && ms != [] && r == p.(value := Join(ms, p.Separator()))
                               && forall m :: m in ms <==> m in Listed(p) && m in Listed(q))
  {
    hide MembersOf, Join, SetMeet, StrictlySorted;
    ListedMembers(p);
    ListedMembers(q);
    SetMeetMembers(p.Order(), p.Members(), q.Members());
  }

  predicate Known(order: string) { Numeric(order) || OfSets(order) || order == "exact" }

  /** When two bindings conflict, and what over: they declare different orders, or one that is not known;
      "exact" values differ; one of two different texts under a numeric order is no number; sets are split
      differently; or an intersection is empty. */
  lemma ConflictsByText(read: Reader, p: RuleParameter, q: RuleParameter)
    ensures var r := Resolve(read, p, q);
            var same := p.order == q.order;
            && (r == Err(DifferentOrders) <==> !same)
            && (r == Err(UnknownOrder) <==> same && !Known(p.order))
            && (r == Err(ExactValuesDiffer) <==> same && p.order == "exact" && p.value != q.value)
            && (r == Err(NotNumeric) <==>
                  same && Numeric(p.order) && p.value != q.value
                  && (read(p.value).Malformed? || read(q.value).Malformed?))
            && (r == Err(DifferentSeparators) <==> same && OfSets(p.order) && p.Separator() != q.Separator())
            && (r == Err(Disjoint) <==>
                  same && p.order == "set-intersect" && p.Separator() == q.Separator()
                  && forall m :: !(m in Listed(p) && m in Listed(q)))
  {
    hide MembersOf, Join, SetMeet, StrictlySorted;
    ListedMembers(p);
    ListedMembers(q);
    SetMeetMembers(p.Order(), p.Members(), q.Members());
    var members := SetMeet(p.Order(), p.Members(), q.Members());
    if members != [] {
      assert members[0] in members;
    }
  }
}
