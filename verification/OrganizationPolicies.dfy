/** What runs of calls keep about policies: their limits, their attachments, and who may touch them. */
module OrganizationPolicies {
  import opened Options
  import opened Lists
  import opened Organization
  import opened OrganizationTree

  predicate AttachedOk(p: Policies, rules: Settings, s: seq<Id>)
  {
    Distinct(s) && (forall id | id in s :: id in p.known)
    && (rules.policiesPerTarget > 0 ==> |s| <= rules.policiesPerTarget)
  }

  predicate PolicyOk(p: Policies, rules: Settings, id: Id)
    requires id in p.known
  {
    id.Policy? && id.n <= p.next && FitsLimit(rules, p.known[id].content)
  }

  predicate WellAttached(p: Policies, rules: Settings)
  {
    (forall id | id in p.known :: PolicyOk(p, rules, id))
    && (forall target | target in p.attachments :: AttachedOk(p, rules, p.attachments[target]))
  }

  /** Where the elements of a sequence without its i-th one come from. */
  lemma CutOut(s: seq<Id>, i: nat, r: seq<Id>)
    requires i < |s| && r == s[..i] + s[i + 1..]
    ensures |r| == |s| - 1
    ensures forall j | 0 <= j < i :: r[j] == s[j]
    ensures forall j | i <= j < |r| :: r[j] == s[j + 1]
  {
  }

  lemma CutOutMembers(s: seq<Id>, i: nat, r: seq<Id>)
    requires i < |s| && Distinct(s) && |r| == |s| - 1
    requires forall j | 0 <= j < i :: r[j] == s[j]
    requires forall j | i <= j < |r| :: r[j] == s[j + 1]
    ensures Distinct(r)
    ensures forall id | id in r :: id in s && id != s[i]
    ensures forall id | id in s && id != s[i] :: id in r
  {
    forall id | id in s && id != s[i]
      ensures id in r
    {
      var j :| 0 <= j < |s| && s[j] == id;
      assert r[if j < i then j else j - 1] == id;
    }
  }

  lemma RemovedKeepsRest(s: seq<Id>, x: Id)
    requires x in s && Distinct(s)
    ensures Distinct(Removed(s, x)) && |Removed(s, x)| == |s| - 1
    ensures forall id :: id in Removed(s, x) <==> id in s && id != x
  {
    hide Distinct;
    var i := IndexOf(s, x);
    CutOut(s, i, Removed(s, x));
    CutOutMembers(s, i, Removed(s, x));
  }

  /** The policies after changing the attachments of one target. */
  lemma ReattachKeeps(p: Policies, rules: Settings, target: Id, s: seq<Id>)
    requires WellAttached(p, rules) && AttachedOk(p, rules, s)
    ensures WellAttached(p.(attachments := p.attachments[target := s]), rules)
  {
    hide FitsLimit;
    var q := p.(attachments := p.attachments[target := s]);
    assert forall id | id in q.known :: PolicyOk(p, rules, id);
    forall t | t in q.attachments
      ensures AttachedOk(q, rules, q.attachments[t])
    {
      if t != target {
        assert AttachedOk(p, rules, p.attachments[t]);
      }
    }
  }

  /** The policies after one of them is added or rewritten. */
  lemma RewriteKeeps(p: Policies, q: Policies, rules: Settings, id: Id)
    requires WellAttached(p, rules) && p.next <= q.next && q.attachments == p.attachments
    requires id in q.known && q.known == p.known[id := q.known[id]] && PolicyOk(q, rules, id)
    ensures WellAttached(q, rules)
  {
    hide FitsLimit;
    forall other | other in q.known
      ensures PolicyOk(q, rules, other)
    {
      if other != id {
        assert PolicyOk(p, rules, other);
      }
    }
    forall t | t in q.attachments
      ensures AttachedOk(q, rules, q.attachments[t])
    {
      assert AttachedOk(p, rules, p.attachments[t]);
    }
  }

  lemma CallKeepsAttachments(org: Org, rules: Settings, call: Call)
    requires WellAttached(org.policies, rules)
    ensures WellAttached(Apply(org, rules, call).org.policies, rules)
  {
    hide GateOpen, TagsToMap, CountLevels, InSubtree, TagsAdmitted, Removed, Distinct;
    var p, q := org.policies, Apply(org, rules, call).org.policies;
    if q != p {
      match call
      case NewPolicy(_, policy, _) =>
        RewriteKeeps(p, q, rules, Policy(p.next + 1));
      case Update(_, id, name, content, _) =>
        assert PolicyOk(p, rules, id);
        RewriteKeeps(p, q, rules, id);
      case Attach(_, _, id, target) =>
        AttachOneMore(p, rules, target, id);
        ReattachKeeps(p, rules, target, Attached(p, target) + [id]);
      case Detach(_, id, target) =>
        assert AttachedOk(p, rules, p.attachments[target]);
        RemovedKeepsRest(Attached(p, target), id);
        ReattachKeeps(p, rules, target, Removed(Attached(p, target), id));
      case _ =>
    }
  }

  lemma AttachOneMore(p: Policies, rules: Settings, target: Id, id: Id)
    requires WellAttached(p, rules) && id in p.known && id !in Attached(p, target)
    requires rules.policiesPerTarget > 0 ==> |Attached(p, target)| < rules.policiesPerTarget
    ensures AttachedOk(p, rules, Attached(p, target) + [id])
  {
  }

  /** From an empty organization every run keeps each target's attachments free of repeats, within
      the quota and naming policies that exist, and every policy within the size limit. */
  lemma {:induction false} RunsKeepAttachments(org: Org, rules: Settings, calls: seq<Call>)
    requires WellAttached(org.policies, rules)
    ensures WellAttached(Run(org, rules, calls).policies, rules)
    decreases |calls|
  {
    hide WellAttached, Apply;
    if calls != [] {
      CallKeepsAttachments(org, rules, calls[0]);
      RunsKeepAttachments(Apply(org, rules, calls[0]).org, rules, calls[1..]);
    }
  }

  lemma AttachmentsFromTheStart(rules: Settings, calls: seq<Call>, target: Id)
    ensures var p := Run(EmptyOrg(), rules, calls).policies;
            Distinct(Attached(p, target)) && (forall id | id in Attached(p, target) :: id in p.known)
            && (rules.policiesPerTarget > 0 ==> |Attached(p, target)| <= rules.policiesPerTarget)
            && (forall id | id in p.known :: FitsLimit(rules, p.known[id].content))
  {
    hide Run, FitsLimit;
    RunsKeepAttachments(EmptyOrg(), rules, calls);
    var p := Run(EmptyOrg(), rules, calls).policies;
    assert forall id | id in p.known :: PolicyOk(p, rules, id);
  }

  // ---------------------------------------------------------------------------------------------
  // The owner tag

  /** Every call about this policy comes from a client that requires this owner tag. */
  predicate Gated(call: Call, gate: string, policy: Id)
  {
    match call
    case Update(g, id, _, _, _) => id == policy ==> g == gate
    case Attach(g, _, id, _) => id == policy ==> g == gate
    case TagIt(g, id, _) => id == policy ==> g == gate
    case Detach(g, id, _) => id == policy ==> g == gate
    case _ => true
  }

  /** The policy, its tags and the targets it is attached to are the same. */
  ghost predicate Untouched(before: Org, after: Org, id: Id)
  {
    id in before.policies.known && id in after.policies.known
    && after.policies.known[id] == before.policies.known[id]
    && TagsOf(after, id) == TagsOf(before, id)
    && forall target :: id in Attached(after.policies, target) <==> id in Attached(before.policies, target)
  }

  predicate Guarded(org: Org, rules: Settings, gate: string, id: Id)
  {
    WellAttached(org.policies, rules) && id in org.policies.known && !GateOpen(org, gate, id)
  }

  lemma GatedCallSparesTags(org: Org, rules: Settings, call: Call, gate: string, id: Id)
    requires id.Policy? && id.n <= org.policies.next
    requires !GateOpen(org, gate, id) && Gated(call, gate, id)
    ensures TagsOf(Apply(org, rules, call).org, id) == TagsOf(org, id)
  {
    hide GateOpen, TagsToMap, CountLevels, InSubtree, TagsAdmitted, NameTaken, PolicyNameTaken, IndexOf, FitsLimit;
  }

  lemma GatedCallSparesPolicy(org: Org, rules: Settings, call: Call, gate: string, id: Id)
    requires id in org.policies.known && id.Policy? && id.n <= org.policies.next
    requires !GateOpen(org, gate, id) && Gated(call, gate, id)
    ensures var p, q := org.policies, Apply(org, rules, call).org.policies;
            id in q.known && q.known[id] == p.known[id]
  {
    hide GateOpen, TagsToMap, CountLevels, InSubtree, TagsAdmitted, NameTaken, PolicyNameTaken, IndexOf, FitsLimit;
  }

  lemma GatedCallSparesAttachments(org: Org, rules: Settings, call: Call, gate: string, id: Id, target: Id)
    requires WellAttached(org.policies, rules) && id in org.policies.known
    requires !GateOpen(org, gate, id) && Gated(call, gate, id)
    ensures id in Attached(Apply(org, rules, call).org.policies, target) <==> id in Attached(org.policies, target)
  {
    hide GateOpen, TagsToMap, CountLevels, InSubtree, TagsAdmitted, NameTaken, PolicyNameTaken, Removed, FitsLimit,
         PolicyOk;
    if call.Detach? && target == call.target && call.id in Attached(org.policies, target) {
      assert AttachedOk(org.policies, rules, org.policies.attachments[target]);
      RemovedKeepsRest(Attached(org.policies, target), call.id);
    }
  }

  lemma SameTagsSameGate(before: Org, after: Org, gate: string, id: Id)
    requires TagsOf(after, id) == TagsOf(before, id)
    ensures GateOpen(after, gate, id) <==> GateOpen(before, gate, id)
  {
  }

  lemma GatedCallSpares(org: Org, rules: Settings, call: Call, gate: string, id: Id)
    requires Guarded(org, rules, gate, id) && Gated(call, gate, id)
    ensures Untouched(org, Apply(org, rules, call).org, id)
    ensures Guarded(Apply(org, rules, call).org, rules, gate, id)
  {
    hide GateOpen, Gated, Apply, TagsOf;
    var after := Apply(org, rules, call).org;
    assert PolicyOk(org.policies, rules, id);
    GatedCallSparesTags(org, rules, call, gate, id);
    GatedCallSparesPolicy(org, rules, call, gate, id);
    forall target
      ensures id in Attached(after.policies, target) <==> id in Attached(org.policies, target)
    {
      GatedCallSparesAttachments(org, rules, call, gate, id, target);
    }
    SameTagsSameGate(org, after, gate, id);
    CallKeepsAttachments(org, rules, call);
  }

  /** A policy that lacks the owner tag keeps its content, its tags and its attachments over every
      run in which only clients requiring that tag act on it. */
  lemma {:induction false} GatedRunsSpare(org: Org, rules: Settings, calls: seq<Call>, gate: string, id: Id)
    requires Guarded(org, rules, gate, id)
    requires forall call | call in calls :: Gated(call, gate, id)
    ensures Untouched(org, Run(org, rules, calls), id)
    decreases |calls|
  {
    hide Apply, Gated, GateOpen, WellAttached, TagsOf, Attached;
    if calls != [] {
      GatedCallSpares(org, rules, calls[0], gate, id);
      GatedRunsSpare(Apply(org, rules, calls[0]).org, rules, calls[1..], gate, id);
    }
  }

  /** The gate keeps clients off a resource that lacks the key exactly when it asks for a value: a key
      written alone, or with nothing after the equals sign, is satisfied by the absent tag. */
  lemma GateShutsExactly(org: Org, gate: string, id: Id)
    requires SplitPair(gate).0 !in TagsOf(org, id)
    ensures !GateOpen(org, gate, id) <==> SplitPair(gate).1 != ""
  {
  }

  /** The value is what follows the first equals sign. */
  lemma {:induction false} SplitPairParts(key: string, value: string)
    requires '=' !in key
    ensures SplitPair(key) == (key, "") && SplitPair(key + ['='] + value) == (key, value)
  {
    var joined := key + ['='] + value;
    if key == [] {
      assert joined == ['='] + value;
    } else {
      assert key[0] in key;
      SplitPairParts(key[1..], value);
      assert joined[1..] == key[1..] + ['='] + value;
      assert key == [key[0]] + key[1..];
    }
  }

  // ---------------------------------------------------------------------------------------------
  // Delegated attachment

  /** The targets a delegated client may attach to: the unit and the units found below it. */
  function DelegatedTargets(p: Places, unit: Id): set<Id>
  {
    {unit} + set id | id in p.ous && InSubtree(p.parents, id, unit)
  }

  predicate AttachesWithin(call: Call, targets: set<Id>)
  {
    call.Attach? ==> call.attachable == targets
  }

  /** Nothing new is attached to the target. */
  predicate NothingNew(before: Org, after: Org, target: Id)
  {
    forall id | id in Attached(after.policies, target) :: id in Attached(before.policies, target)
  }

  lemma DelegatedCallAttachesInside(org: Org, rules: Settings, call: Call, targets: set<Id>, target: Id)
    requires AttachesWithin(call, targets) && targets != {} && target !in targets
    requires WellAttached(org.policies, rules)
    ensures NothingNew(org, Apply(org, rules, call).org, target)
  {
    hide GateOpen, TagsToMap, CountLevels, InSubtree, TagsAdmitted, NameTaken, PolicyNameTaken, Removed, FitsLimit,
         PolicyOk;
    if call.Detach? && target == call.target && call.id in Attached(org.policies, target) {
      assert AttachedOk(org.policies, rules, org.policies.attachments[target]);
      RemovedKeepsRest(Attached(org.policies, target), call.id);
    }
  }

  lemma {:induction false} TargetsBoundRuns(org: Org, rules: Settings, calls: seq<Call>, targets: set<Id>, target: Id)
    requires targets != {} && target !in targets && WellAttached(org.policies, rules)
    requires forall call | call in calls :: AttachesWithin(call, targets)
    ensures NothingNew(org, Run(org, rules, calls), target)
    decreases |calls|
  {
    hide Apply, AttachesWithin, WellAttached, Attached;
    if calls != [] {
      DelegatedCallAttachesInside(org, rules, calls[0], targets, target);
      CallKeepsAttachments(org, rules, calls[0]);
      TargetsBoundRuns(Apply(org, rules, calls[0]).org, rules, calls[1..], targets, target);
    }
  }

  /** Over every run of clients delegated for a unit, nothing is attached to a target that is not below it. */
  lemma DelegatedRunsAttachInside(org: Org, rules: Settings, calls: seq<Call>, unit: Id, target: Id)
    requires WellPlaced(org.places) && WellAttached(org.policies, rules)
    requires forall call | call in calls :: AttachesWithin(call, DelegatedTargets(org.places, unit))
    requires !Descends(org.places.parents, target, unit)
    ensures NothingNew(org, Run(org, rules, calls), target)
  {
    hide Tree, SiblingsDiffer, WellAttached, AttachesWithin, NothingNew, InSubtree;
    var targets := DelegatedTargets(org.places, unit);
    SubtreeIsAncestry(org.places, target, unit);
    assert Up(org.places.parents, target, 0) == Some(target);
    assert unit in targets;
    TargetsBoundRuns(org, rules, calls, targets, target);
  }
}
