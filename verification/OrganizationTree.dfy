/** The organization stays a tree under its root, at most five levels of units deep. */
module OrganizationTree {
  import opened Options
  import opened Organization

  // ---------------------------------------------------------------------------------------------
  // Ancestry

  /** The container n levels above. */
  function Up(parents: map<Id, Id>, id: Id, n: nat): Option<Id>
    decreases n
  {
    if n == 0 then Some(id)
    else if id !in parents then None
    else Up(parents, parents[id], n - 1)
  }

  ghost predicate Descends(parents: map<Id, Id>, id: Id, ancestor: Id)
  {
    exists n: nat :: Up(parents, id, n) == Some(ancestor)
  }

  ghost predicate DescendsWithin(parents: map<Id, Id>, id: Id, ancestor: Id, steps: nat)
  {
    exists n: nat :: 1 <= n <= steps && Up(parents, id, n) == Some(ancestor)
  }

  lemma {:induction false} ClimbFindsAncestors(parents: map<Id, Id>, id: Id, root: Id, steps: nat)
    ensures Climb(parents, id, root, steps) <==> DescendsWithin(parents, id, root, steps)
    decreases steps
  {
    if steps > 0 && id in parents {
      var parent := parents[id];
      ClimbFindsAncestors(parents, parent, root, steps - 1);
      assert Up(parents, parent, 0) == Some(parent);
      assert forall n: nat | n > 0 :: Up(parents, id, n) == Up(parents, parent, n - 1);
      if DescendsWithin(parents, parent, root, steps - 1) {
        var n: nat :| 1 <= n <= steps - 1 && Up(parents, parent, n) == Some(root);
        assert Up(parents, id, n + 1) == Some(root);
      }
      if parent == root {
        assert Up(parents, id, 1) == Some(root);
      }
      if DescendsWithin(parents, id, root, steps) {
        var n: nat :| 1 <= n <= steps && Up(parents, id, n) == Some(root);
        if n > 1 {
          assert Up(parents, parent, n - 1) == Some(root);
        }
      }
    }
  }

  // ---------------------------------------------------------------------------------------------
  // The tree invariant

  /** How deep a unit lies; units only hang below units created before them. */
  function Level(parents: map<Id, Id>, id: Id): nat
    decreases if id.OU? then id.n else 0
  {
    if !id.OU? || id !in parents then 0
    else if parents[id].OU? && parents[id].n < id.n then 1 + Level(parents, parents[id])
    else 1
  }

  function Height(parents: map<Id, Id>, id: Id): nat
  {
    if id.Account? && id in parents then 1 + Level(parents, parents[id]) else Level(parents, id)
  }

  predicate UnitPlaced(p: Places, id: Id)
  {
    id.OU? && id.n <= p.nextOU && id in p.parents
    && (p.parents[id] == Root || (p.parents[id] in p.ous && p.parents[id].OU? && p.parents[id].n < id.n))
    && Level(p.parents, id) <= MAX_DEPTH
  }

  predicate AccountPlaced(p: Places, id: Id)
  {
    id.Account? && id.n <= p.nextAccount && id in p.parents
    && (p.parents[id] == Root || p.parents[id] in p.ous)
  }

  predicate Tree(p: Places)
  {
    (forall id | id in p.ous :: UnitPlaced(p, id))
    && (forall id | id in p.accounts :: AccountPlaced(p, id))
    && (forall id | id in p.parents :: id in p.ous || id in p.accounts)
  }

  predicate SiblingsDiffer(p: Places)
  {
    forall a, b | a in p.ous && b in p.ous && a != b && a in p.parents && b in p.parents
                  && p.parents[a] == p.parents[b] :: p.ous[a] != p.ous[b]
  }

  /** Each step up loses one level, whatever is asked about. */
  lemma {:induction false} HeightFalls(p: Places, id: Id, n: nat)
    requires Tree(p) && Up(p.parents, id, n).Some?
    ensures Height(p.parents, id) == Height(p.parents, Up(p.parents, id, n).value) + n
    decreases n
  {
    if n > 0 {
      var parent := p.parents[id];
      if id in p.ous {
        assert UnitPlaced(p, id);
      } else {
        assert AccountPlaced(p, id);
        if parent in p.ous {
          assert UnitPlaced(p, parent);
        }
      }
      HeightFalls(p, parent, n - 1);
    }
  }

  lemma HeightBound(p: Places, id: Id)
    requires Tree(p)
    ensures Height(p.parents, id) <= MAX_DEPTH + 1
  {
    if id in p.ous {
      assert UnitPlaced(p, id);
    } else if id in p.accounts {
      assert AccountPlaced(p, id);
      if p.parents[id] in p.ous {
        assert UnitPlaced(p, p.parents[id]);
      }
    }
  }

  /** Nothing is its own ancestor. */
  lemma NoCycles(p: Places, id: Id, n: nat)
    requires Tree(p) && n > 0
    ensures Up(p.parents, id, n) != Some(id)
  {
    if Up(p.parents, id, n).Some? {
      HeightFalls(p, id, n);
    }
  }

  /** Everything placed hangs below the root. */
  lemma {:induction false} AllUnderRoot(p: Places, id: Id)
    requires Tree(p) && id in p.parents
    ensures Up(p.parents, id, Height(p.parents, id)) == Some(Root)
    decreases Height(p.parents, id)
  {
    var parent := p.parents[id];
    if id in p.ous {
      assert UnitPlaced(p, id);
    } else {
      assert AccountPlaced(p, id);
    }
    if parent in p.ous {
      assert UnitPlaced(p, parent);
      AllUnderRoot(p, parent);
    } else {
      assert Up(p.parents, Root, 0) == Some(Root);
    }
  }

  /** The bounded climb is the ancestor relation. */
  lemma SubtreeIsAncestry(p: Places, id: Id, root: Id)
    requires Tree(p)
    ensures InSubtree(p.parents, id, root) <==> Descends(p.parents, id, root)
  {
    ClimbFindsAncestors(p.parents, id, root, CLIMB_LIMIT);
    assert Up(p.parents, id, 0) == Some(id);
    if Descends(p.parents, id, root) {
      var n: nat :| Up(p.parents, id, n) == Some(root);
      HeightFalls(p, id, n);
      HeightBound(p, id);
    }
  }

  /** In any organization at all, a scope is its unit and what lies below it within sixteen steps. */
  lemma SixteenSteps(parents: map<Id, Id>, id: Id, root: Id)
    ensures InSubtree(parents, id, root) <==> id == root || DescendsWithin(parents, id, root, 16)
  {
    ClimbFindsAncestors(parents, id, root, 16);
  }

  /** The way up from a container reaches the root after n steps and not before. */
  ghost predicate RootAfter(parents: map<Id, Id>, at: Id, n: nat)
  {
    Up(parents, at, n) == Some(Root) && forall m: nat | m < n :: Up(parents, at, m) != Some(Root)
  }

  /** In any organization at all, levels are counted up to the root, up to sixteen of them; a container that
      does not lead there in as many steps counts as lying seventeen deep. */
  lemma {:induction false} LevelsOrSeventeen(parents: map<Id, Id>, at: Id, depth: nat)
    requires depth <= 16 && Unknown("") !in parents
    ensures forall n: nat | depth + n <= 16 && RootAfter(parents, at, n) :: CountLevels(parents, at, depth) == depth + n
    ensures (forall n: nat | depth + n <= 16 :: Up(parents, at, n) != Some(Root)) ==>
              CountLevels(parents, at, depth) == 17
    decreases 16 - depth
  {
    assert Up(parents, at, 0) == Some(at);
    if at != Root && depth < 16 {
      var parent := ParentOf(parents, at);
      LevelsOrSeventeen(parents, parent, depth + 1);
      if at in parents {
        assert forall n: nat | n > 0 :: Up(parents, at, n) == Up(parents, parent, n - 1);
        forall n: nat | depth + n <= 16 && RootAfter(parents, at, n)
          ensures n > 0 && RootAfter(parents, parent, n - 1)
        {
          forall m: nat | m < n - 1
            ensures Up(parents, parent, m) != Some(Root)
          {
            assert Up(parents, at, m + 1) == Up(parents, parent, m);
          }
        }
        if forall n: nat | depth + n <= 16 :: Up(parents, at, n) != Some(Root) {
          forall n: nat | depth + 1 + n <= 16
            ensures Up(parents, parent, n) != Some(Root)
          {
            assert Up(parents, at, n + 1) == Up(parents, parent, n);
          }
        }
      } else {
        assert forall n: nat | n > 0 :: Up(parents, at, n) == None && Up(parents, parent, n) == None;
        assert Up(parents, parent, 0) == Some(parent);
      }
    }
  }

  // ---------------------------------------------------------------------------------------------
  // Calls keep the tree

  /** The level of a unit depends only on the units created up to it. */
  lemma {:induction false} LevelFrame(before: map<Id, Id>, after: map<Id, Id>, id: Id)
    requires id.OU? ==> forall n: nat | n <= id.n :: (OU(n) in before <==> OU(n) in after)
                                                     && (OU(n) in before ==> before[OU(n)] == after[OU(n)])
    ensures Level(before, id) == Level(after, id)
    decreases if id.OU? then id.n else 0
  {
    if id.OU? {
      assert OU(id.n) == id;
      if id in before && before[id].OU? && before[id].n < id.n {
        LevelFrame(before, after, before[id]);
      }
    }
  }

  lemma {:induction false} LevelsCounted(p: Places, at: Id, depth: nat)
    requires Tree(p) && (at == Root || at in p.ous)
    requires depth + Level(p.parents, at) <= CLIMB_LIMIT
    ensures CountLevels(p.parents, at, depth) == depth + Level(p.parents, at)
    decreases Level(p.parents, at)
  {
    if at in p.ous {
      assert UnitPlaced(p, at);
      LevelsCounted(p, p.parents[at], depth + 1);
    }
  }

  /** Placing an account leaves the units as they were. */
  lemma PlacingKeepsTree(before: Places, after: Places, account: Id, to: Id)
    requires Tree(before) && account.Account? && account.n <= after.nextAccount
    requires to == Root || to in before.ous
    requires after.ous == before.ous && after.nextOU == before.nextOU && after.nextAccount >= before.nextAccount
    requires after.parents == before.parents[account := to]
    requires after.accounts.Keys == before.accounts.Keys + {account}
    ensures Tree(after)
    ensures SiblingsDiffer(before) ==> SiblingsDiffer(after)
  {
    hide Level;
    forall id | id in after.ous
      ensures UnitPlaced(after, id) && after.parents[id] == before.parents[id]
    {
      assert UnitPlaced(before, id);
      LevelFrame(before.parents, after.parents, id);
    }
    forall id | id in after.accounts
      ensures AccountPlaced(after, id)
    {
      if id != account {
        assert AccountPlaced(before, id);
      }
    }
    forall id | id in after.parents
      ensures id in after.ous || id in after.accounts
    {
      if id != account {
        assert id in before.ous || id in before.accounts;
      }
    }
  }

  /** Hanging a new unit below an existing container. */
  lemma NewUnitKeepsTree(before: Places, after: Places, parent: Id, name: string)
    requires Tree(before) && SiblingsDiffer(before)
    requires parent == Root || parent in before.ous
    requires !NameTaken(before, parent, name) && CountLevels(before.parents, parent, 0) < MAX_DEPTH
    requires var id := OU(before.nextOU + 1);
             after.nextOU == before.nextOU + 1 && after.ous == before.ous[id := name]
             && after.parents == before.parents[id := parent]
    requires after.accounts == before.accounts && after.nextAccount == before.nextAccount
    ensures Tree(after) && SiblingsDiffer(after)
  {
    hide Level, CountLevels, NameTaken, SiblingsDiffer;
    var added := OU(before.nextOU + 1);
    NewUnitLevel(before, after, parent);
    assert added !in before.ous by {
      assert forall id | id in before.ous :: UnitPlaced(before, id);
    }
    UnitsStay(before, after, parent);
    assert UnitPlaced(after, added);
    forall id | id in after.accounts
      ensures AccountPlaced(after, id)
    {
      assert AccountPlaced(before, id);
    }
    NewNameDiffers(before, after, parent, name);
  }

  lemma UnitsStay(before: Places, after: Places, parent: Id)
    requires Tree(before) && after.nextOU == before.nextOU + 1 && OU(before.nextOU + 1) !in before.ous
    requires after.ous.Keys == before.ous.Keys + {OU(before.nextOU + 1)}
    requires after.parents == before.parents[OU(before.nextOU + 1) := parent]
    ensures forall id | id in before.ous :: UnitPlaced(after, id)
  {
    hide Level;
    forall id | id in before.ous
      ensures UnitPlaced(after, id)
    {
      assert UnitPlaced(before, id);
      LevelFrame(before.parents, after.parents, id);
    }
  }

  lemma NewUnitLevel(before: Places, after: Places, parent: Id)
    requires Tree(before) && (parent == Root || parent in before.ous)
    requires CountLevels(before.parents, parent, 0) < MAX_DEPTH
    requires after.parents == before.parents[OU(before.nextOU + 1) := parent]
    ensures Level(after.parents, OU(before.nextOU + 1)) <= MAX_DEPTH
    ensures parent in before.ous ==> parent.OU? && parent.n <= before.nextOU
  {
    if parent in before.ous {
      assert UnitPlaced(before, parent);
      LevelFrame(before.parents, after.parents, parent);
    }
    LevelsCounted(before, parent, 0);
  }

  lemma NewNameDiffers(before: Places, after: Places, parent: Id, name: string)
    requires SiblingsDiffer(before) && !NameTaken(before, parent, name)
    requires forall id | id in before.ous :: id in before.parents
    requires var id := OU(before.nextOU + 1);
             id !in before.ous && after.ous == before.ous[id := name] && after.parents == before.parents[id := parent]
    ensures SiblingsDiffer(after)
  {
  }

  /** Closing an account leaves everything where it is. */
  lemma ClosingKeepsTree(before: Places, after: Places)
    requires Tree(before) && after == before.(accounts := after.accounts) && before.accounts.Keys == after.accounts.Keys
    ensures Tree(after)
    ensures SiblingsDiffer(before) ==> SiblingsDiffer(after)
  {
    hide Level;
    forall id | id in after.ous
      ensures UnitPlaced(after, id)
    {
      assert UnitPlaced(before, id);
    }
    forall id | id in after.accounts
      ensures AccountPlaced(after, id)
    {
      assert AccountPlaced(before, id);
    }
  }

  predicate WellPlaced(p: Places)
  {
    Tree(p) && SiblingsDiffer(p)
  }

  /** What a call can do to the places. */
  datatype Change =
    | Stay
    | Appear(request: RequestData)
    | Shift(account: Id, to: Id)
    | Hang(parent: Id, name: string)
    | Close(closed: Id)

  predicate Possible(p: Places, change: Change)
  {
    match change
    case Stay => true
    case Appear(_) => true
    case Shift(account, to) => account in p.accounts && (to == Root || to in p.ous)
    case Hang(parent, name) =>
      (parent == Root || parent in p.ous) && !NameTaken(p, parent, name)
        && CountLevels(p.parents, parent, 0) < MAX_DEPTH
    case Close(closed) => closed in p.accounts
  }

  function Changed(p: Places, change: Change): Places
    requires Possible(p, change)
  {
    match change
    case Stay => p
    case Appear(request) => PlaceAccount(p, Account(p.nextAccount + 1), request)
    case Shift(account, to) => p.(parents := p.parents[account := to])
    case Hang(parent, name) => PlaceUnit(p, parent, name)
    case Close(closed) => p.(accounts := p.accounts[closed := p.accounts[closed].(suspended := true)])
  }

  /** The change a call makes to the places. */
  function ChangeOf(org: Org, rules: Settings, call: Call): Change
  {
    if Apply(org, rules, call).org.places == org.places then Stay
    else
      match call
      case Poll(id) => if id in org.requests.known then Appear(org.requests.known[id]) else Stay
      case Move(_, account, _, to) => Shift(account, to)
      case NewOU(_, parent, name, _) => Hang(parent, name)
      case Shut(_, account) => Close(account)
      case _ => Stay
  }

  lemma CallMakesChange(org: Org, rules: Settings, call: Call)
    ensures var change := ChangeOf(org, rules, call);
            Possible(org.places, change) && Apply(org, rules, call).org.places == Changed(org.places, change)
  {
    hide GateOpen, TagsToMap, NameTaken, CountLevels, InSubtree, IndexOf, TagsAdmitted;
  }

  lemma ChangeKeepsTree(p: Places, change: Change)
    requires WellPlaced(p) && Possible(p, change)
    ensures WellPlaced(Changed(p, change))
  {
    hide Tree, SiblingsDiffer, NameTaken, CountLevels;
    var q := Changed(p, change);
    match change
    case Stay =>
    case Appear(request) => PlacingKeepsTree(p, q, Account(p.nextAccount + 1), Root);
    case Shift(account, to) =>
      AccountsArePlaced(p, account);
      assert p.accounts.Keys + {account} == p.accounts.Keys;
      PlacingKeepsTree(p, q, account, to);
    case Hang(parent, name) => NewUnitKeepsTree(p, q, parent, name);
    case Close(closed) => ClosingKeepsTree(p, q);
  }

  lemma AccountsArePlaced(p: Places, id: Id)
    requires Tree(p) && id in p.accounts
    ensures AccountPlaced(p, id)
  {
  }

  lemma CallKeepsTree(org: Org, rules: Settings, call: Call)
    requires WellPlaced(org.places)
    ensures WellPlaced(Apply(org, rules, call).org.places)
  {
    hide Apply, Changed, Possible, ChangeOf, WellPlaced;
    CallMakesChange(org, rules, call);
    ChangeKeepsTree(org.places, ChangeOf(org, rules, call));
  }

  /** From an empty organization, every run of calls keeps one tree: everything placed hangs below the
      root, nothing is its own ancestor, units lie at most five deep, and sibling units differ in name. */
  lemma {:induction false} RunsKeepTree(org: Org, rules: Settings, calls: seq<Call>)
    requires WellPlaced(org.places)
    ensures WellPlaced(Run(org, rules, calls).places)
    decreases |calls|
  {
    hide WellPlaced, Apply;
    if calls != [] {
      CallKeepsTree(org, rules, calls[0]);
      RunsKeepTree(Apply(org, rules, calls[0]).org, rules, calls[1..]);
    }
  }

  lemma TreeFromTheStart(rules: Settings, calls: seq<Call>, id: Id, n: nat)
    ensures var p := Run(EmptyOrg(), rules, calls).places;
            SiblingsDiffer(p)
            && (id in p.parents ==> Descends(p.parents, id, Root))
            && (n > 0 ==> Up(p.parents, id, n) != Some(id))
            && (id in p.ous && Up(p.parents, id, n) == Some(Root) ==> n <= MAX_DEPTH)
            && (forall root :: InSubtree(p.parents, id, root) <==> Descends(p.parents, id, root))
  {
    hide InSubtree, Descends, Run, Height;
    var p := Run(EmptyOrg(), rules, calls).places;
    RunsKeepTree(EmptyOrg(), rules, calls);
    if id in p.parents {
      AllUnderRoot(p, id);
      Ancestor(p.parents, id, Root, Height(p.parents, id));
    }
    if n > 0 {
      NoCycles(p, id, n);
    }
    if id in p.ous && Up(p.parents, id, n) == Some(Root) {
      HeightFalls(p, id, n);
      UnitHeight(p, id);
    }
    forall root
      ensures InSubtree(p.parents, id, root) <==> Descends(p.parents, id, root)
    {
      SubtreeIsAncestry(p, id, root);
    }
  }

  lemma Ancestor(parents: map<Id, Id>, id: Id, ancestor: Id, n: nat)
    requires Up(parents, id, n) == Some(ancestor)
    ensures Descends(parents, id, ancestor)
  {
  }

  lemma UnitHeight(p: Places, id: Id)
    requires Tree(p) && id in p.ous
    ensures Height(p.parents, id) <= MAX_DEPTH
  {
    assert UnitPlaced(p, id);
  }
}
