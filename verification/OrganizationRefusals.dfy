/** Exactly when each call is refused, and for what. */
module OrganizationRefusals {
  import opened Options
  import opened Lists
  import opened Utf8
  import opened Organization
  import opened OrganizationTree
  import opened OrganizationCalls
  import opened OrganizationEffects
  import opened OrganizationTags

  /** The tags a create request must have. */
  ghost predicate Admitted(rules: Settings, tags: seq<Tag>)
  {
    && (forall k | k in rules.requiredTags :: !Says(tags, k, None))
    && (forall k | k in rules.requiredTagValues :: Says(tags, k, Some(rules.requiredTagValues[k])))
  }

  predicate TooLong(rules: Settings, content: string)
  {
    rules.policySizeLimit > 0 && ByteLength(content) > rules.policySizeLimit
  }

  /** There is such a container. */
  predicate Container(p: Places, id: Id)
  {
    id == Root || id in p.ous
  }

  /** The container is not below the unit that the client is confined to. */
  ghost predicate Outside(p: Places, within: Option<Id>, id: Id)
  {
    within.Some? && !Descends(p.parents, id, within.value)
  }

  /** What is wrong with a call. */
  ghost predicate Fault(org: Org, rules: Settings, call: Call, why: Refusal)
  {
    var p, q := org.places, org.policies;
    match call
    case Create(_, _, tags) => why == AccessDenied && !Admitted(rules, tags)
    case Poll(id) => why == RequestNotFound && id !in org.requests.known
    case Move(within, account, source, to) =>
      || (why == AccountNotFound && account !in p.accounts)
      || (why == ParentNotFound && !Container(p, to))
      || (why == AccessDenied && Outside(p, within, to))
      || (why == AlreadyThere && rules.moveToSamePlaceErrors && account in p.parents && p.parents[account] == to)
      || (why == SourceParentMismatch
          && source.Some? && account in p.parents && p.parents[account] !in {source.value, to})
    case NewOU(within, parent, name, _) =>
      || (why == ParentNotFound && !Container(p, parent))
      || (why == AccessDenied && Outside(p, within, parent))
      || (why == DuplicateOU && exists u | u in p.ous :: p.ous[u] == name && u in p.parents && p.parents[u] == parent)
      || (why == DepthExceeded && Up(p.parents, parent, 5).Some?)
    case NewPolicy(serviceControl, policy, _) =>
      || (why == UnsupportedType && !serviceControl)
      || (why == NotAllFeatures && !rules.allFeatures)
      || (why == ContentTooLong && TooLong(rules, policy.content))
      || (why == DuplicatePolicy && exists id | id in q.known :: q.known[id].name == policy.name)
    case Update(gate, id, _, content, _) =>
      || (why == PolicyNotFound && id !in q.known)
      || (why == AccessDenied && !GateOpen(org, gate, id))
      || (why == ContentTooLong && content.Some? && TooLong(rules, content.value))
    case Attach(gate, attachable, id, target) =>
      || (why == PolicyNotFound && id !in q.known)
      || (why == AccessDenied && (!GateOpen(org, gate, id) || (attachable != {} && target !in attachable)))
      || (why == TypeNotEnabled && !rules.scpEnabled)
      || (why == DuplicateAttachment && target in q.attachments && id in q.attachments[target])
      || (why == TooManyAttachments && rules.policiesPerTarget > 0
          && target in q.attachments && |q.attachments[target]| >= rules.policiesPerTarget)
    case TagIt(gate, id, _) => why == AccessDenied && !GateOpen(org, gate, id)
    case Detach(gate, id, target) =>
      || (why == PolicyNotFound && id !in q.known)
      || (why == AccessDenied && !GateOpen(org, gate, id))
      || (why == NotAttached && (target !in q.attachments || id !in q.attachments[target]))
    case Shut(quotaExceeded, account) =>
      || (why == CloseQuotaExceeded && quotaExceeded)
      || (why == AccountNotFound && account !in p.accounts)
      || (why == ManagementAccount && account == rules.managementAccount)
      || (why == AlreadyClosed && account in p.accounts && p.accounts[account].suspended)
    case FailNextCreate(_) => false
  }

  /** What a call is looked at for, first things first. */
  function Checks(call: Call): seq<Refusal>
  {
    match call
    case Create(_, _, _) => [AccessDenied]
    case Poll(_) => [RequestNotFound]
    case Move(_, _, _, _) => [AccountNotFound, ParentNotFound, AccessDenied, AlreadyThere, SourceParentMismatch]
    case NewOU(_, _, _, _) => [ParentNotFound, AccessDenied, DuplicateOU, DepthExceeded]
    case NewPolicy(_, _, _) => [UnsupportedType, NotAllFeatures, ContentTooLong, DuplicatePolicy]
    case Update(_, _, _, _, _) => [PolicyNotFound, AccessDenied, ContentTooLong]
    case Attach(_, _, _, _) =>
      [PolicyNotFound, AccessDenied, TypeNotEnabled, DuplicateAttachment, TooManyAttachments]
    case TagIt(_, _, _) => [AccessDenied]
    case Detach(_, _, _) => [PolicyNotFound, AccessDenied, NotAttached]
    case Shut(_, _) => [CloseQuotaExceeded, AccountNotFound, ManagementAccount, AlreadyClosed]
    case FailNextCreate(_) => []
  }

  /** The first of these that is wrong with a call, if anything is. */
  ghost predicate FirstFault(org: Org, rules: Settings, call: Call, checks: seq<Refusal>, why: Option<Refusal>)
  {
    if why.None? then forall i | 0 <= i < |checks| :: !Fault(org, rules, call, checks[i])
    else
      exists i :: 0 <= i < |checks| && checks[i] == why.value && Fault(org, rules, call, why.value)
                  && forall j | 0 <= j < i :: !Fault(org, rules, call, checks[j])
  }

  function Answer(reply: Reply): Option<Refusal>
  {
    match reply
    case Refused(why) => Some(why)
    case _ => None
  }

  lemma {:induction false} LevelsAbove(p: Places, at: Id, n: nat)
    requires Tree(p) && Container(p, at)
    ensures Up(p.parents, at, n).Some? <==> n <= Level(p.parents, at)
    decreases n
  {
    if at in p.ous {
      assert UnitPlaced(p, at);
      if n > 0 {
        LevelsAbove(p, p.parents[at], n - 1);
      }
    } else {
      assert forall id | id in p.parents :: id.OU? || id.Account? by {
        forall id | id in p.parents
          ensures id.OU? || id.Account?
        {
          assert UnitPlaced(p, id) || AccountPlaced(p, id);
        }
      }
    }
  }

  /** A call with up to five checks, once it is known which of them find something wrong. */
  lemma Decided(org: Org, rules: Settings, call: Call, why: Option<Refusal>)
    requires var c := Checks(call);
             why == if |c| > 0 && Fault(org, rules, call, c[0]) then Some(c[0])
                    else if |c| > 1 && Fault(org, rules, call, c[1]) then Some(c[1])
                    else if |c| > 2 && Fault(org, rules, call, c[2]) then Some(c[2])
                    else if |c| > 3 && Fault(org, rules, call, c[3]) then Some(c[3])
                    else if |c| > 4 && Fault(org, rules, call, c[4]) then Some(c[4])
                    else None
    ensures FirstFault(org, rules, call, Checks(call), why)
  {
    hide Fault;
    assert |Checks(call)| <= 5;
  }

  lemma MoveFaults(org: Org, rules: Settings, call: Call)
    requires WellPlaced(org.places) && call.Move?
    ensures var p := org.places;
            && (Fault(org, rules, call, AccountNotFound) <==> call.account !in p.accounts)
            && (Fault(org, rules, call, ParentNotFound) <==> call.to !in p.ous && call.to != Root)
            && (Fault(org, rules, call, AccessDenied) <==> !Confined(org, call.within, call.to))
            && (call.account in p.accounts ==>
                  var now := ParentOf(p.parents, call.account);
                  && (Fault(org, rules, call, AlreadyThere) <==> rules.moveToSamePlaceErrors && now == call.to)
                  && (Fault(org, rules, call, SourceParentMismatch) <==>
                        now != call.to && call.source.Some? && call.source.value != now))
  {
    if call.account in org.places.accounts {
      AccountHasParent(org.places, call.account);
    }
    if call.within.Some? {
      SubtreeIsAncestry(org.places, call.to, call.within.value);
    }
    hide Tree, SiblingsDiffer, InSubtree, Descends;
  }

  lemma MoveRefused(org: Org, rules: Settings, call: Call)
    requires WellPlaced(org.places) && call.Move?
    ensures FirstFault(org, rules, call, Checks(call), Answer(Apply(org, rules, call).reply))
  {
    MoveFaults(org, rules, call);
    MoveIs(org, rules, call);
    hide Fault, FirstFault, Tree, SiblingsDiffer, Confined, ParentOf, Apply, Checks;
    var e := MoveAccount(org, rules, call.within, call.account, call.source, call.to);
    MoveDecided(org, rules, call, Answer(e.reply));
  }

  lemma MoveDecided(org: Org, rules: Settings, call: Call, why: Option<Refusal>)
    requires call.Move?
    requires why == if Fault(org, rules, call, AccountNotFound) then Some(AccountNotFound)
                    else if Fault(org, rules, call, ParentNotFound) then Some(ParentNotFound)
                    else if Fault(org, rules, call, AccessDenied) then Some(AccessDenied)
                    else if Fault(org, rules, call, AlreadyThere) then Some(AlreadyThere)
                    else if Fault(org, rules, call, SourceParentMismatch) then Some(SourceParentMismatch)
                    else None
    ensures FirstFault(org, rules, call, Checks(call), why)
  {
    hide Fault, FirstFault;
    Decided(org, rules, call, why);
  }

  lemma MoveIs(org: Org, rules: Settings, call: Call)
    requires call.Move?
    ensures Apply(org, rules, call) == MoveAccount(org, rules, call.within, call.account, call.source, call.to)
  {
  }

  lemma NewOUFaults(org: Org, rules: Settings, call: Call)
    requires WellPlaced(org.places) && call.NewOU?
    ensures var p := org.places;
            && (Fault(org, rules, call, ParentNotFound) <==> call.parent !in p.ous && call.parent != Root)
            && (Fault(org, rules, call, AccessDenied) <==> !Confined(org, call.within, call.parent))
            && (Fault(org, rules, call, DuplicateOU) <==> NameTaken(p, call.parent, call.ouName))
            && (Container(p, call.parent) ==>
                  (Fault(org, rules, call, DepthExceeded) <==> CountLevels(p.parents, call.parent, 0) >= MAX_DEPTH))
  {
    if call.within.Some? {
      SubtreeIsAncestry(org.places, call.parent, call.within.value);
    }
    if Container(org.places, call.parent) {
      LevelsAbove(org.places, call.parent, 5);
      LevelLimit(org.places, call.parent);
      LevelsCounted(org.places, call.parent, 0);
    }
    hide Tree, SiblingsDiffer, InSubtree, Descends, CountLevels, Level;
  }

  lemma NewOURefused(org: Org, rules: Settings, call: Call)
    requires WellPlaced(org.places) && call.NewOU?
    ensures FirstFault(org, rules, call, Checks(call), Answer(Apply(org, rules, call).reply))
  {
    NewOUFaults(org, rules, call);
    hide Fault, FirstFault, Tree, SiblingsDiffer, Confined, NameTaken, CountLevels, TagsToMap, WithTags;
    Decided(org, rules, call,
            Answer(CreateOrganizationalUnit(org, call.within, call.parent, call.ouName, call.tags).reply));
  }

  lemma LevelLimit(p: Places, at: Id)
    requires Tree(p) && Container(p, at)
    ensures Level(p.parents, at) <= CLIMB_LIMIT
  {
    if at in p.ous {
      assert UnitPlaced(p, at);
    }
  }

  lemma PolicyFaults(org: Org, rules: Settings, call: Call)
    requires call.NewPolicy? || call.Update?
    ensures Fault(org, rules, call, ContentTooLong) <==>
              if call.NewPolicy? then !FitsLimit(rules, call.policy.content)
              else call.content.Some? && !FitsLimit(rules, call.content.value)
    ensures call.NewPolicy? ==>
              (Fault(org, rules, call, DuplicatePolicy) <==> PolicyNameTaken(org.policies, call.policy.name))
    ensures call.NewPolicy? ==>
              && (Fault(org, rules, call, UnsupportedType) <==> !call.serviceControl)
              && (Fault(org, rules, call, NotAllFeatures) <==> !rules.allFeatures)
    ensures call.Update? ==>
              && (Fault(org, rules, call, PolicyNotFound) <==> call.id !in org.policies.known)
              && (Fault(org, rules, call, AccessDenied) <==> !GateOpen(org, call.gate, call.id))
  {
    hide GateOpen, ByteLength;
  }

  lemma PolicyCallRefused(org: Org, rules: Settings, call: Call)
    requires call.NewPolicy? || call.Update?
    ensures FirstFault(org, rules, call, Checks(call), Answer(Apply(org, rules, call).reply))
  {
    PolicyFaults(org, rules, call);
    hide Fault, FirstFault, GateOpen, TagsToMap, FitsLimit, PolicyNameTaken, WithTags;
    Decided(org, rules, call, Answer(Apply(org, rules, call).reply));
  }

  lemma AttachFaults(org: Org, rules: Settings, call: Call)
    requires call.Attach?
    ensures var attached := Attached(org.policies, call.target);
            && (Fault(org, rules, call, PolicyNotFound) <==> call.id !in org.policies.known)
            && (Fault(org, rules, call, AccessDenied) <==>
                  !GateOpen(org, call.gate, call.id) || (call.attachable != {} && call.target !in call.attachable))
            && (Fault(org, rules, call, TypeNotEnabled) <==> !rules.scpEnabled)
            && (Fault(org, rules, call, DuplicateAttachment) <==> call.id in attached)
            && (Fault(org, rules, call, TooManyAttachments) <==>
                  rules.policiesPerTarget > 0 && |attached| >= rules.policiesPerTarget)
  {
    hide GateOpen;
  }

  lemma AttachRefused(org: Org, rules: Settings, call: Call)
    requires call.Attach?
    ensures FirstFault(org, rules, call, Checks(call), Answer(Apply(org, rules, call).reply))
  {
    AttachFaults(org, rules, call);
    hide Fault, FirstFault, GateOpen, Attached;
    Decided(org, rules, call, Answer(Apply(org, rules, call).reply));
  }

  lemma OtherCallRefused(org: Org, rules: Settings, call: Call)
    requires call.TagIt? || call.Detach? || call.Create? || call.Poll? || call.Shut? || call.FailNextCreate?
    ensures FirstFault(org, rules, call, Checks(call), Answer(Apply(org, rules, call).reply))
  {
    if call.Create? {
      AdmittedExactly(rules, call.tags);
    }
    hide FirstFault, GateOpen, TagsToMap, Removed, TagsAdmitted, Says, TagsOf, AddTags, Materialize, Completes;
    Decided(org, rules, call, Answer(Apply(org, rules, call).reply));
  }

  /** A call is refused for the first thing that is wrong with it, in the order in which the service looks, and
      is accepted when nothing is. */
  lemma RefusedExactly(org: Org, rules: Settings, call: Call)
    requires WellPlaced(org.places)
    ensures FirstFault(org, rules, call, Checks(call), Answer(Apply(org, rules, call).reply))
  {
    hide FirstFault, Apply, Checks, Answer, WellPlaced;
    match call
    case Move(_, _, _, _) => MoveRefused(org, rules, call);
    case NewOU(_, _, _, _) => NewOURefused(org, rules, call);
    case NewPolicy(_, _, _) => PolicyCallRefused(org, rules, call);
    case Update(_, _, _, _, _) => PolicyCallRefused(org, rules, call);
    case Attach(_, _, _, _) => AttachRefused(org, rules, call);
    case _ => OtherCallRefused(org, rules, call);
  }
}
