/** Clients confined to a delegated unit place nothing outside its subtree. */
module OrganizationScope {
  import opened Options
  import opened Organization
  import opened OrganizationTree

  /** The call is made by clients confined to the unit. */
  predicate ConfinedTo(call: Call, unit: Id)
  {
    (call.Move? ==> call.within == Some(unit)) && (call.NewOU? ==> call.within == Some(unit))
  }

  predicate UnitsStay(p: Places, q: Places)
  {
    forall id | id in p.ous :: id in q.ous && id in p.parents && id in q.parents && p.parents[id] == q.parents[id]
  }

  lemma ChangeKeepsUnits(p: Places, change: Change)
    requires Tree(p) && Possible(p, change)
    ensures UnitsStay(p, Changed(p, change))
  {
    hide Level, CountLevels, NameTaken;
    forall id | id in p.ous
      ensures UnitPlaced(p, id)
    {
    }
    if change.Shift? {
      AccountsArePlaced(p, change.account);
    }
  }

  /** The way up from a container does not change once it exists. */
  lemma {:induction false} ContainersKeepAncestors(p: Places, q: Places, id: Id, n: nat)
    requires Tree(p) && Tree(q) && UnitsStay(p, q)
    requires id == Root || id in p.ous
    ensures Up(q.parents, id, n) == Up(p.parents, id, n)
    decreases n
  {
    hide Level;
    RootHasNoParent(p);
    RootHasNoParent(q);
    if n > 0 && id != Root {
      assert UnitPlaced(p, id);
      ContainersKeepAncestors(p, q, p.parents[id], n - 1);
    }
  }

  lemma RootHasNoParent(p: Places)
    requires Tree(p)
    ensures Root !in p.parents
  {
    forall id | id in p.parents
      ensures id != Root
    {
      if id in p.ous {
        assert UnitPlaced(p, id);
      } else {
        assert AccountPlaced(p, id);
      }
    }
  }

  lemma ContainersKeepSubtree(p: Places, q: Places, id: Id, unit: Id)
    requires Tree(p) && Tree(q) && UnitsStay(p, q)
    requires id == Root || id in p.ous
    ensures Descends(p.parents, id, unit) <==> Descends(q.parents, id, unit)
  {
    forall n: nat
      ensures Up(q.parents, id, n) == Up(p.parents, id, n)
    {
      ContainersKeepAncestors(p, q, id, n);
    }
    if Descends(q.parents, id, unit) {
      var n: nat :| Up(q.parents, id, n) == Some(unit);
      assert Up(p.parents, id, n) == Some(unit);
    }
  }

  lemma DescendsThrough(parents: map<Id, Id>, id: Id, unit: Id)
    requires id in parents && Descends(parents, parents[id], unit)
    ensures Descends(parents, id, unit)
  {
    var n: nat :| Up(parents, parents[id], n) == Some(unit);
    assert Up(parents, id, n + 1) == Some(unit);
  }

  lemma DescendsFromParent(parents: map<Id, Id>, id: Id, unit: Id)
    requires id in parents && id != unit && Descends(parents, id, unit)
    ensures Descends(parents, parents[id], unit)
  {
    var n: nat :| Up(parents, id, n) == Some(unit);
    assert Up(parents, parents[id], n - 1) == Some(unit);
  }

  predicate UnitKept(p: Places, q: Places, id: Id)
  {
    id in p.ous && id in p.parents && id in q.parents && q.parents[id] == p.parents[id]
  }

  predicate AccountKept(p: Places, q: Places, id: Id)
  {
    id in p.accounts && id in p.parents && id in q.parents && q.parents[id] == p.parents[id]
  }

  predicate AtRootAnew(p: Places, q: Places, id: Id)
  {
    id !in p.accounts && id in q.parents && q.parents[id] == Root
  }

  /** Units and accounts are where they were, or in the subtree, or new accounts not yet moved. */
  ghost predicate OnlyInside(p: Places, q: Places, unit: Id)
  {
    UnitsStay(p, q) && p.accounts.Keys <= q.accounts.Keys
    && (forall id | id in q.ous :: UnitKept(p, q, id) || Descends(q.parents, id, unit))
    && (forall id | id in q.accounts :: AccountKept(p, q, id) || AtRootAnew(p, q, id) || Descends(q.parents, id, unit))
  }

  /** A change a confined client makes. */
  ghost predicate Inside(p: Places, change: Change, unit: Id)
  {
    match change
    case Shift(_, to) => Descends(p.parents, to, unit)
    case Hang(parent, _) => Descends(p.parents, parent, unit)
    case _ => true
  }

  lemma ConfinedCallIsInside(org: Org, rules: Settings, call: Call, unit: Id)
    requires Tree(org.places) && ConfinedTo(call, unit)
    ensures Inside(org.places, ChangeOf(org, rules, call), unit)
  {
    hide Tree, GateOpen, TagsToMap, NameTaken, CountLevels, InSubtree, Descends, IndexOf, TagsAdmitted;
    if call.Move? {
      SubtreeIsAncestry(org.places, call.to, unit);
    } else if call.NewOU? {
      SubtreeIsAncestry(org.places, call.parent, unit);
    }
  }

  lemma ParentIsContainer(p: Places, id: Id)
    requires Tree(p) && id in p.parents
    ensures p.parents[id] == Root || p.parents[id] in p.ous
  {
    if id in p.ous {
      assert UnitPlaced(p, id);
    } else {
      assert AccountPlaced(p, id);
    }
  }

  /** What lies in the subtree stays there unless it is an account that is moved. */
  lemma StaysInside(p: Places, q: Places, id: Id, unit: Id)
    requires Tree(p) && Tree(q) && UnitsStay(p, q)
    requires id in p.parents && id in q.parents && p.parents[id] == q.parents[id]
    ensures Descends(p.parents, id, unit) ==> Descends(q.parents, id, unit)
  {
    hide Tree, UnitsStay;
    ParentIsContainer(p, id);
    ContainersKeepSubtree(p, q, p.parents[id], unit);
    if Descends(p.parents, id, unit) {
      if id == unit {
        assert Up(q.parents, id, 0) == Some(unit);
      } else {
        DescendsFromParent(p.parents, id, unit);
        DescendsThrough(q.parents, id, unit);
      }
    }
  }

  lemma InsideChangeFromStart(p: Places, change: Change, unit: Id)
    requires WellPlaced(p) && Possible(p, change) && Inside(p, change, unit)
    ensures OnlyInside(p, Changed(p, change), unit)
  {
    hide Tree, SiblingsDiffer, NameTaken, CountLevels, Descends, UnitPlaced, AccountPlaced, Level;
    var q := Changed(p, change);
    ChangeKeepsTree(p, change);
    ChangeKeepsUnits(p, change);
    PlacedHaveParents(p);
    PlacedHaveParents(q);
    match change
    case Shift(account, to) =>
      ContainersKeepSubtree(p, q, to, unit);
      DescendsThrough(q.parents, account, unit);
    case Hang(parent, name) =>
      ContainersKeepSubtree(p, q, parent, unit);
      DescendsThrough(q.parents, OU(p.nextOU + 1), unit);
    case Appear(request) =>
      NewAccountIsNew(p);
    case _ =>
  }

  lemma NewAccountIsNew(p: Places)
    requires Tree(p)
    ensures Account(p.nextAccount + 1) !in p.accounts
  {
    assert forall id | id in p.accounts :: AccountPlaced(p, id);
  }

  lemma PlacedHaveParents(p: Places)
    requires Tree(p)
    ensures forall id | id in p.ous || id in p.accounts :: id in p.parents
  {
    forall id | id in p.ous || id in p.accounts
      ensures id in p.parents
    {
      if id in p.ous {
        assert UnitPlaced(p, id);
      } else {
        assert AccountPlaced(p, id);
      }
    }
  }

  lemma OnlyInsideTwice(p: Places, q: Places, r: Places, unit: Id)
    requires Tree(p) && Tree(q) && Tree(r)
    requires OnlyInside(p, q, unit) && OnlyInside(q, r, unit)
    ensures OnlyInside(p, r, unit)
  {
    hide Tree, Descends;
    forall id | id in r.ous
      ensures UnitKept(p, r, id) || Descends(r.parents, id, unit)
    {
      if UnitKept(q, r, id) {
        StaysInside(q, r, id, unit);
        assert UnitKept(p, q, id) || Descends(q.parents, id, unit);
      }
    }
    forall id | id in r.accounts
      ensures AccountKept(p, r, id) || AtRootAnew(p, r, id) || Descends(r.parents, id, unit)
    {
      if AccountKept(q, r, id) {
        StaysInside(q, r, id, unit);
        assert AccountKept(p, q, id) || AtRootAnew(p, q, id) || Descends(q.parents, id, unit);
      } else if AtRootAnew(q, r, id) {
        assert AtRootAnew(p, r, id);
      }
    }
  }

  lemma ConfinedCallStaysInside(org: Org, rules: Settings, call: Call, unit: Id)
    requires WellPlaced(org.places) && ConfinedTo(call, unit)
    ensures OnlyInside(org.places, Apply(org, rules, call).org.places, unit)
  {
    hide OnlyInside, Apply, ConfinedTo, ChangeOf, Changed, Possible, Inside, Tree, SiblingsDiffer;
    ConfinedCallIsInside(org, rules, call, unit);
    CallMakesChange(org, rules, call);
    InsideChangeFromStart(org.places, ChangeOf(org, rules, call), unit);
  }

  lemma NothingHappened(p: Places, unit: Id)
    requires Tree(p)
    ensures OnlyInside(p, p, unit)
  {
    PlacedHaveParents(p);
  }

  /** Over every run of confined clients, each new unit and each moved account is inside the delegated
      subtree, and everything else is where it was; a new account waits under the root. */
  lemma {:induction false} RunsStayInside(org: Org, rules: Settings, calls: seq<Call>, unit: Id)
    requires WellPlaced(org.places)
    requires forall call | call in calls :: ConfinedTo(call, unit)
    ensures OnlyInside(org.places, Run(org, rules, calls).places, unit)
    decreases |calls|
  {
    hide OnlyInside, Apply, ConfinedTo, Tree, SiblingsDiffer;
    if calls == [] {
      NothingHappened(org.places, unit);
    } else {
      var after := Apply(org, rules, calls[0]).org;
      ConfinedCallStaysInside(org, rules, calls[0], unit);
      CallKeepsTree(org, rules, calls[0]);
      RunsStayInside(after, rules, calls[1..], unit);
      RunsKeepTree(after, rules, calls[1..]);
      OnlyInsideTwice(org.places, after.places, Run(org, rules, calls).places, unit);
    }
  }
}
