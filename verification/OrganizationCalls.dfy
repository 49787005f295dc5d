/** What calls promise each other: refused ones leave no trace, and some undo or exclude others. */
module OrganizationCalls {
  import opened Options
  import opened Organization
  import opened OrganizationTree
  import opened OrganizationPolicies
  import opened OrganizationScope

  // ---------------------------------------------------------------------------------------------
  // Refused calls

  /** The calls of a run that were not refused. */
  function Heeded(org: Org, rules: Settings, calls: seq<Call>): seq<Call>
    decreases |calls|
  {
    if calls == [] then []
    else
      var e := Apply(org, rules, calls[0]);
      (if e.reply.Refused? then [] else [calls[0]]) + Heeded(e.org, rules, calls[1..])
  }

  lemma RefusedChangesNothing(org: Org, rules: Settings, call: Call)
    requires Apply(org, rules, call).reply.Refused?
    ensures Apply(org, rules, call).org == org
  {
    hide GateOpen, TagsToMap, NameTaken, PolicyNameTaken, CountLevels, InSubtree, IndexOf, TagsAdmitted, FitsLimit;
  }

  /** Refused calls leave no trace: a run without them ends where the run with them does, and none of the
      calls that are left is refused in it. */
  lemma {:induction false} RefusalsLeaveNoTrace(org: Org, rules: Settings, calls: seq<Call>)
    ensures var heeded := Heeded(org, rules, calls);
            Run(org, rules, heeded) == Run(org, rules, calls) && Heeded(org, rules, heeded) == heeded
    decreases |calls|
  {
    hide Apply;
    if calls != [] {
      var e := Apply(org, rules, calls[0]);
      var rest := Heeded(e.org, rules, calls[1..]);
      RefusalsLeaveNoTrace(e.org, rules, calls[1..]);
      if e.reply.Refused? {
        RefusedChangesNothing(org, rules, calls[0]);
        assert Heeded(org, rules, calls) == rest;
      } else {
        assert ([calls[0]] + rest)[1..] == rest;
      }
    }
  }

  // ---------------------------------------------------------------------------------------------
  // Moves, and attaching

  /** A move that is not refused leaves the account at its destination and everything else in place;
      the caller named no source, or the one the account was under, unless the account was there already. */
  lemma MoveTakesEffect(org: Org, rules: Settings, within: Option<Id>, account: Id, source: Option<Id>, to: Id)
    requires Tree(org.places)
    ensures var e := MoveAccount(org, rules, within, account, source, to);
            e.reply == Done ==>
              && account in org.places.parents && account in e.org.places.parents
              && e.org.places.parents[account] == to
              && e.org == org.(places := org.places.(parents := e.org.places.parents))
              && (forall id | id in org.places.parents && id != account ::
                    id in e.org.places.parents && e.org.places.parents[id] == org.places.parents[id])
              && (source.Some? && source.value != org.places.parents[account] ==> to == org.places.parents[account])
  {
    hide Confined, Tree;
    if account in org.places.accounts {
      AccountHasParent(org.places, account);
    }
  }

  lemma AccountHasParent(p: Places, account: Id)
    requires Tree(p) && account in p.accounts
    ensures account in p.parents
  {
    assert AccountPlaced(p, account);
  }

  /** Moving back: a move and the move that names its effect as source restore the organization. */
  lemma MoveBack(org: Org, rules: Settings, account: Id, to: Id)
    requires Tree(org.places) && account in org.places.accounts && (to in org.places.ous || to == Root)
    requires account in org.places.parents && org.places.parents[account] != to
    ensures var from := org.places.parents[account];
            var there := MoveAccount(org, rules, None, account, Some(from), to).org;
            MoveAccount(there, rules, None, account, Some(to), from) == Effect(org, Done)
  {
    var from := org.places.parents[account];
    assert AccountPlaced(org.places, account);
    assert org.places.parents[account := to][account := from] == org.places.parents;
  }

  lemma IndexOfLast(s: seq<Id>, x: Id)
    requires x !in s
    ensures Removed(s + [x], x) == s
  {
    var joined := s + [x];
    var i := IndexOf(joined, x);
    assert joined[|s|] == x;
    forall j | 0 <= j < |s|
      ensures joined[j] != x
    {
      assert joined[j] == s[j];
    }
  }

  /** Detaching undoes attaching: every target is left with the policies it had, in the order it had them. */
  lemma DetachUndoesAttach(org: Org, rules: Settings, gate: string, attachable: set<Id>, policy: Id, target: Id)
    requires AttachPolicy(org, rules, gate, attachable, policy, target).reply == Done
    ensures var attached := AttachPolicy(org, rules, gate, attachable, policy, target).org;
            var back := DetachPolicy(attached, gate, policy, target);
            policy in Attached(attached.policies, target)
            && back.reply == Done && policy !in Attached(back.org.policies, target)
            && (forall t :: Attached(back.org.policies, t) == Attached(org.policies, t))
            && back.org == org.(policies := org.policies.(attachments := back.org.policies.attachments))
  {
    hide Removed;
    IndexOfLast(Attached(org.policies, target), policy);
    var attached := AttachPolicy(org, rules, gate, attachable, policy, target).org;
    GateIgnoresAttachments(org, attached, gate, policy);
  }

  lemma GateIgnoresAttachments(org: Org, after: Org, gate: string, id: Id)
    requires org.tags == after.tags
    ensures GateOpen(org, gate, id) <==> GateOpen(after, gate, id)
  {
  }

  // ---------------------------------------------------------------------------------------------
  // Calls that work once

  /** Why a call that has just succeeded is refused when it is made again; some calls may be repeated. */
  function OnlyOnce(call: Call): Option<Refusal>
  {
    match call
    case NewOU(_, _, _, _) => Some(DuplicateOU)
    case NewPolicy(_, _, _) => Some(DuplicatePolicy)
    case Attach(_, _, _, _) => Some(DuplicateAttachment)
    case Detach(_, _, _) => Some(NotAttached)
    case Shut(_, _) => Some(AlreadyClosed)
    case _ => None
  }

  /** The later call may make room for the earlier one again. */
  predicate MakesRoom(later: Call, call: Call)
  {
    match call
    case NewPolicy(_, policy, _) => later.Update? && later.name.Some? && later.name.value != policy.name
    case Attach(_, _, id, target) => later.Detach? && later.id == id && later.target == target
    case Detach(_, id, target) => later.Attach? && later.id == id && later.target == target
    case _ => false
  }

  /** What the call is for is there already. */
  predicate There(org: Org, call: Call)
  {
    match call
    case NewOU(_, parent, name, _) => NameTaken(org.places, parent, name)
    case NewPolicy(_, policy, _) => PolicyNameTaken(org.policies, policy.name)
    case Attach(_, _, id, target) => id in Attached(org.policies, target)
    case Detach(_, id, target) => id !in Attached(org.policies, target)
    case Shut(_, account) => account in org.places.accounts && org.places.accounts[account].suspended
    case _ => false
  }

  lemma ThereIsRefused(org: Org, rules: Settings, call: Call)
    requires There(org, call)
    ensures Apply(org, rules, call).reply.Refused?
  {
    hide NameTaken, PolicyNameTaken, GateOpen, InSubtree, FitsLimit;
  }

  predicate Sound(org: Org, rules: Settings)
  {
    WellPlaced(org.places) && WellAttached(org.policies, rules)
  }

  lemma CallKeepsSound(org: Org, rules: Settings, call: Call)
    requires Sound(org, rules)
    ensures Sound(Apply(org, rules, call).org, rules)
  {
    hide Apply, WellPlaced, WellAttached;
    CallKeepsTree(org, rules, call);
    CallKeepsAttachments(org, rules, call);
  }

  lemma HeededIsThere(org: Org, rules: Settings, call: Call)
    requires Sound(org, rules) && OnlyOnce(call).Some? && !Apply(org, rules, call).reply.Refused?
    ensures There(Apply(org, rules, call).org, call)
  {
    hide GateOpen, TagsToMap, CountLevels, InSubtree, FitsLimit, Tree, SiblingsDiffer, Removed;
    var after := Apply(org, rules, call).org;
    match call
    case NewOU(_, parent, name, _) =>
      var id := OU(org.places.nextOU + 1);
      assert after.places.ous[id] == name && after.places.parents[id] == parent;
    case NewPolicy(_, policy, _) =>
      assert after.policies.known[Policy(org.policies.next + 1)].name == policy.name;
    case Detach(_, id, target) =>
      assert AttachedOk(org.policies, rules, org.policies.attachments[target]);
      RemovedKeepsRest(Attached(org.policies, target), id);
    case _ =>
  }

  lemma NamesStayTaken(p: Places, change: Change, parent: Id, name: string)
    requires WellPlaced(p) && Possible(p, change) && NameTaken(p, parent, name)
    ensures NameTaken(Changed(p, change), parent, name)
  {
    hide Tree, CountLevels, SiblingsDiffer;
    ChangeKeepsUnits(p, change);
    NamesAreKept(p, change);
    var id :| id in p.ous && p.ous[id] == name && id in p.parents && p.parents[id] == parent;
    assert id in Changed(p, change).ous;
  }

  lemma NamesAreKept(p: Places, change: Change)
    requires WellPlaced(p) && Possible(p, change)
    ensures forall id | id in p.ous :: id in Changed(p, change).ous && Changed(p, change).ous[id] == p.ous[id]
  {
    hide CountLevels, NameTaken;
    forall id | id in p.ous
      ensures UnitPlaced(p, id)
    {
    }
  }

  lemma ClosedStaysClosed(p: Places, change: Change, account: Id)
    requires WellPlaced(p) && Possible(p, change) && account in p.accounts && p.accounts[account].suspended
    ensures var q := Changed(p, change); account in q.accounts && q.accounts[account].suspended
  {
    hide CountLevels, NameTaken;
    assert AccountPlaced(p, account);
  }

  lemma StaysThere(org: Org, rules: Settings, call: Call, later: Call)
    requires Sound(org, rules) && There(org, call) && !MakesRoom(later, call)
    ensures There(Apply(org, rules, later).org, call)
  {
    hide Apply, WellPlaced, WellAttached, Changed, Possible, NameTaken, ChangeOf;
    CallMakesChange(org, rules, later);
    match call
    case NewOU(_, parent, name, _) => NamesStayTaken(org.places, ChangeOf(org, rules, later), parent, name);
    case Shut(_, account) => ClosedStaysClosed(org.places, ChangeOf(org, rules, later), account);
    case NewPolicy(_, policy, _) => PolicyNameStays(org, rules, later, policy.name);
    case Attach(_, _, id, target) => AttachmentStays(org, rules, later, id, target);
    case Detach(_, id, target) => AttachmentStays(org, rules, later, id, target);
  }

  lemma PolicyNameStays(org: Org, rules: Settings, later: Call, name: string)
    requires Sound(org, rules) && PolicyNameTaken(org.policies, name)
    requires !(later.Update? && later.name.Some? && later.name.value != name)
    ensures PolicyNameTaken(Apply(org, rules, later).org.policies, name)
  {
    hide GateOpen, TagsToMap, CountLevels, InSubtree, FitsLimit, WellPlaced, Removed, NameTaken;
    var id :| id in org.policies.known && org.policies.known[id].name == name;
    assert PolicyOk(org.policies, rules, id);
    var after := Apply(org, rules, later).org.policies;
    assert id in after.known && after.known[id].name == name;
  }

  lemma AttachmentStays(org: Org, rules: Settings, later: Call, id: Id, target: Id)
    requires Sound(org, rules)
    ensures var before := id in Attached(org.policies, target);
            var after := id in Attached(Apply(org, rules, later).org.policies, target);
            && (before && !(later.Detach? && later.id == id && later.target == target) ==> after)
            && (!before && !(later.Attach? && later.id == id && later.target == target) ==> !after)
  {
    hide GateOpen, TagsToMap, CountLevels, InSubtree, FitsLimit, WellPlaced, Removed, NameTaken, PolicyNameTaken,
         PolicyOk;
    if later.Detach? && !Apply(org, rules, later).reply.Refused? {
      assert AttachedOk(org.policies, rules, org.policies.attachments[later.target]);
      RemovedKeepsRest(Attached(org.policies, later.target), later.id);
    }
  }

  lemma {:induction false} RunStaysThere(org: Org, rules: Settings, call: Call, calls: seq<Call>)
    requires Sound(org, rules) && There(org, call) && forall later | later in calls :: !MakesRoom(later, call)
    ensures There(Run(org, rules, calls), call)
    decreases |calls|
  {
    hide Apply, Sound, There, MakesRoom;
    if calls != [] {
      assert calls[0] in calls;
      StaysThere(org, rules, call, calls[0]);
      CallKeepsSound(org, rules, calls[0]);
      RunStaysThere(Apply(org, rules, calls[0]).org, rules, call, calls[1..]);
    }
  }

  /** Creating, attaching, detaching and closing are not idempotent. Once such a call succeeded, the same
      call is refused after any run in which nothing makes room for it: a unit's name and a closed account
      are final, a policy's name lasts until it is renamed, an attachment until it is undone. Made again at
      once, the call is refused as a duplicate. */
  lemma WorksOnce(org: Org, rules: Settings, call: Call, calls: seq<Call>)
    requires Sound(org, rules) && OnlyOnce(call).Some? && !Apply(org, rules, call).reply.Refused?
    requires forall later | later in calls :: !MakesRoom(later, call)
    ensures var after := Apply(org, rules, call).org;
            && Apply(Run(after, rules, calls), rules, call).reply.Refused?
            && Apply(after, rules, call) == Refuse(after, OnlyOnce(call).value)
  {
    hide Apply, Sound, There, MakesRoom;
    var after := Apply(org, rules, call).org;
    HeededIsThere(org, rules, call);
    CallKeepsSound(org, rules, call);
    RunStaysThere(after, rules, call, calls);
    ThereIsRefused(Run(after, rules, calls), rules, call);
    SecondIsDuplicate(org, rules, call);
  }

  lemma SecondIsDuplicate(org: Org, rules: Settings, call: Call)
    requires Sound(org, rules) && OnlyOnce(call).Some? && !Apply(org, rules, call).reply.Refused?
    ensures var after := Apply(org, rules, call).org; Apply(after, rules, call) == Refuse(after, OnlyOnce(call).value)
  {
    hide GateOpen, Sound, NameTaken, PolicyNameTaken, Confined, CountLevels, FitsLimit, Removed, TagsToMap;
    var after := Apply(org, rules, call).org;
    HeededIsThere(org, rules, call);
    match call
    case NewOU(_, _, _, _) => StillConfined(org, rules, call);
    case Attach(gate, _, id, _) => GateIgnoresAttachments(org, after, gate, id);
    case Detach(gate, id, _) => GateIgnoresAttachments(org, after, gate, id);
    case _ =>
  }

  lemma StillConfined(org: Org, rules: Settings, call: Call)
    requires Sound(org, rules) && call.NewOU? && !Apply(org, rules, call).reply.Refused?
    ensures var p := Apply(org, rules, call).org.places;
            (call.parent in p.ous || call.parent == Root)
              && Confined(Apply(org, rules, call).org, call.within, call.parent)
  {
    hide CountLevels, NameTaken, TagsToMap, InSubtree, Tree, SiblingsDiffer, Descends;
    var p, q := org.places, Apply(org, rules, call).org.places;
    CallKeepsTree(org, rules, call);
    ChangeKeepsUnits(p, Hang(call.parent, call.ouName));
    if call.within.Some? {
      SubtreeIsAncestry(p, call.parent, call.within.value);
      SubtreeIsAncestry(q, call.parent, call.within.value);
      ContainersKeepSubtree(p, q, call.parent, call.within.value);
    }
  }
}
