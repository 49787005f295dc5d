/** What accepted calls leave behind, at once and over whole runs. */
module OrganizationEffects {
  import opened Options
  import opened Organization
  import opened OrganizationTree
  import opened OrganizationPolicies
  import opened OrganizationCalls

  lemma {:induction false} RunLast(org: Org, rules: Settings, calls: seq<Call>)
    requires calls != []
    ensures var n := |calls| - 1;
            Run(org, rules, calls) == Apply(Run(org, rules, calls[..n]), rules, calls[n]).org
    decreases |calls|
  {
    hide Apply;
    var n := |calls| - 1;
    if n > 0 {
      var rest := calls[1..];
      RunLast(Apply(org, rules, calls[0]).org, rules, rest);
      assert rest[..n - 1] == calls[..n][1..] && rest[n - 1] == calls[n];
    }
  }

  lemma {:induction false} RunsKeepSound(org: Org, rules: Settings, calls: seq<Call>)
    requires Sound(org, rules)
    ensures Sound(Run(org, rules, calls), rules)
    decreases |calls|
  {
    hide Sound, Apply;
    if calls != [] {
      CallKeepsSound(org, rules, calls[0]);
      RunsKeepSound(Apply(org, rules, calls[0]).org, rules, calls[1..]);
    }
  }

  /** The i-th call of a run was not refused. */
  predicate Accepted(org: Org, rules: Settings, calls: seq<Call>, i: nat)
    requires i < |calls|
  {
    !Apply(Run(org, rules, calls[..i]), rules, calls[i]).reply.Refused?
  }

  // ---------------------------------------------------------------------------------------------
  // Policies

  /** An accepted update stores each field it gives, keeps each it omits, and touches nothing else. It is
      refused for an unknown policy, by the owner tag, or for content over the limit, and for nothing else. */
  lemma UpdateTakesEffect(
      org: Org, rules: Settings, gate: string, id: Id,
      name: Option<string>, content: Option<string>, description: Option<string>)
    ensures var e := UpdatePolicy(org, rules, gate, id, name, content, description);
            && (e.reply == Done <==>
                  && id in org.policies.known && GateOpen(org, gate, id)
                  && (content.Some? ==> FitsLimit(rules, content.value)))
            && (e.reply != Done ==> e.reply.Refused? && e.org == org)
            && (e.reply == Done ==>
                  var q, r := org.policies.known[id], e.org.policies.known[id];
                  && r.name == (if name.Some? then name.value else q.name)
                  && r.content == (if content.Some? then content.value else q.content)
                  && r.description == (if description.Some? then description.value else q.description)
                  && e.org.policies.known.Keys == org.policies.known.Keys
                  && (forall other | other in org.policies.known && other != id ::
                        e.org.policies.known[other] == org.policies.known[other])
                  && e.org == org.(policies := org.policies.(known := e.org.policies.known)))
  {
  }

  /** A policy as it is created: what was asked for, under the next number, attached nowhere new. */
  lemma CreatedPolicyIsStored(org: Org, rules: Settings, serviceControl: bool, policy: PolicyData, tags: seq<Tag>)
    requires Sound(org, rules) && CreatePolicy(org, rules, serviceControl, policy, tags).reply.Created?
    ensures var e := CreatePolicy(org, rules, serviceControl, policy, tags);
            && e.reply.id == Policy(org.policies.next + 1) && e.org.policies.next == org.policies.next + 1
            && e.reply.id !in org.policies.known && e.org.policies.known == org.policies.known[e.reply.id := policy]
            && e.org.policies.attachments == org.policies.attachments
            && e.org.tags == (if TagsToMap(tags) == map[] then org.tags else org.tags[e.reply.id := TagsToMap(tags)])
            && e.org.places == org.places && e.org.requests == org.requests
  {
    hide FitsLimit, PolicyNameTaken, TagsToMap, WellPlaced;
    assert forall id | id in org.policies.known :: PolicyOk(org.policies, rules, id);
  }

  datatype Part = NamePart | ContentPart | DescriptionPart

  function Stored(q: PolicyData, part: Part): string
  {
    match part
    case NamePart => q.name
    case ContentPart => q.content
    case DescriptionPart => q.description
  }

  function Given(call: Call, part: Part): Option<string>
    requires call.Update?
  {
    match part
    case NamePart => call.name
    case ContentPart => call.content
    case DescriptionPart => call.description
  }

  /** The i-th call of a run sets this part of the policy. */
  predicate Sets(org: Org, rules: Settings, calls: seq<Call>, i: nat, id: Id, part: Part)
    requires i < |calls|
  {
    calls[i].Update? && calls[i].id == id && Given(calls[i], part).Some? && Accepted(org, rules, calls, i)
  }

  lemma CallOnPolicy(org: Org, rules: Settings, call: Call, id: Id, part: Part)
    requires Sound(org, rules) && id in org.policies.known
    ensures var e := Apply(org, rules, call);
            && id in e.org.policies.known
            && Stored(e.org.policies.known[id], part)
               == if call.Update? && call.id == id && Given(call, part).Some? && !e.reply.Refused?
                  then Given(call, part).value else Stored(org.policies.known[id], part)
  {
    hide GateOpen, TagsToMap, CountLevels, InSubtree, TagsAdmitted, NameTaken, PolicyNameTaken, Removed, FitsLimit,
         WellPlaced;
    assert PolicyOk(org.policies, rules, id);
  }

  lemma {:induction false} UnsetStays(org: Org, rules: Settings, calls: seq<Call>, id: Id, part: Part)
    requires Sound(org, rules) && id in org.policies.known
    requires forall i: nat | i < |calls| :: !Sets(org, rules, calls, i, id, part)
    ensures var after := Run(org, rules, calls).policies.known;
            id in after && Stored(after[id], part) == Stored(org.policies.known[id], part)
    decreases |calls|
  {
    if calls != [] {
      hide Sound, Apply, Run, Stored, Given, Sets;
      var n: nat := |calls| - 1;
      forall i: nat | i < n
        ensures !Sets(org, rules, calls[..n], i, id, part)
      {
        SetsBefore(org, rules, calls, n, i, id, part);
      }
      UnsetStays(org, rules, calls[..n], id, part);
      LastCallOnPolicy(org, rules, calls, id, part);
    }
  }

  lemma {:induction false} UpdateStands(org: Org, rules: Settings, calls: seq<Call>, id: Id, part: Part, i: nat)
    requires Sound(org, rules) && id in org.policies.known && i < |calls| && Sets(org, rules, calls, i, id, part)
    requires forall j: nat | i < j < |calls| :: !Sets(org, rules, calls, j, id, part)
    ensures var after := Run(org, rules, calls).policies.known;
            id in after && Stored(after[id], part) == Given(calls[i], part).value
    decreases |calls|
  {
    assert calls[i].Update? && Given(calls[i], part).Some?;
    hide Sound, Apply, Run, Stored, Given, Sets;
    var n: nat := |calls| - 1;
    LastCallOnPolicy(org, rules, calls, id, part);
    if i < n {
      SetsBefore(org, rules, calls, n, i, id, part);
      forall j: nat | i < j < n
        ensures !Sets(org, rules, calls[..n], j, id, part)
      {
        SetsBefore(org, rules, calls, n, j, id, part);
      }
      UpdateStands(org, rules, calls[..n], id, part, i);
    }
  }

  lemma {:induction false} StaysKnown(org: Org, rules: Settings, calls: seq<Call>, id: Id)
    requires Sound(org, rules) && id in org.policies.known
    ensures id in Run(org, rules, calls).policies.known
    decreases |calls|
  {
    hide Apply, Sound;
    if calls != [] {
      CallOnPolicy(org, rules, calls[0], id, NamePart);
      CallKeepsSound(org, rules, calls[0]);
      StaysKnown(Apply(org, rules, calls[0]).org, rules, calls[1..], id);
    }
  }

  /** What the last call of a run does to a part of a policy. */
  lemma LastCallOnPolicy(org: Org, rules: Settings, calls: seq<Call>, id: Id, part: Part)
    requires Sound(org, rules) && id in org.policies.known && calls != []
    ensures var n: nat := |calls| - 1;
            var before, after := Run(org, rules, calls[..n]).policies.known, Run(org, rules, calls).policies.known;
            && id in before && id in after
            && if Sets(org, rules, calls, n, id, part) then
                 && calls[n].Update? && Given(calls[n], part).Some?
                 && Stored(after[id], part) == Given(calls[n], part).value
               else Stored(after[id], part) == Stored(before[id], part)
  {
    hide Sound, Apply, Run, Stored, Given, Sets;
    var n: nat := |calls| - 1;
    StaysKnown(org, rules, calls[..n], id);
    RunsKeepSound(org, rules, calls[..n]);
    RunLast(org, rules, calls);
    CallOnPolicy(Run(org, rules, calls[..n]), rules, calls[n], id, part);
    SetsAtEnd(org, rules, calls, id, part);
  }

  /** Over every run, each part of a policy, its content above all, is what the last accepted update that gave
      it said, and what it was before if there was none. */
  lemma LastUpdateStands(org: Org, rules: Settings, calls: seq<Call>, id: Id, part: Part)
    requires Sound(org, rules) && id in org.policies.known
    ensures var after := Run(org, rules, calls).policies.known;
            && id in after
            && ((forall i: nat | i < |calls| :: !Sets(org, rules, calls, i, id, part)) ==>
                  Stored(after[id], part) == Stored(org.policies.known[id], part))
            && (forall i: nat | i < |calls| && Sets(org, rules, calls, i, id, part)
                  && (forall j: nat | i < j < |calls| :: !Sets(org, rules, calls, j, id, part)) ::
                  Stored(after[id], part) == Given(calls[i], part).value)
  {
    assert forall i: nat | i < |calls| && Sets(org, rules, calls, i, id, part) ::
             calls[i].Update? && Given(calls[i], part).Some?;
    hide Sound, Apply, Run, Stored, Given, Sets;
    StaysKnown(org, rules, calls, id);
    if forall i: nat | i < |calls| :: !Sets(org, rules, calls, i, id, part) {
      UnsetStays(org, rules, calls, id, part);
    }
    forall i: nat | i < |calls| && Sets(org, rules, calls, i, id, part)
                    && (forall j: nat | i < j < |calls| :: !Sets(org, rules, calls, j, id, part))
      ensures Stored(Run(org, rules, calls).policies.known[id], part) == Given(calls[i], part).value
    {
      UpdateStands(org, rules, calls, id, part, i);
    }
  }

  lemma SetsBefore(org: Org, rules: Settings, calls: seq<Call>, n: nat, i: nat, id: Id, part: Part)
    requires i < n <= |calls|
    ensures Sets(org, rules, calls[..n], i, id, part) <==> Sets(org, rules, calls, i, id, part)
  {
    hide Run, Apply, Given;
    assert calls[..n][..i] == calls[..i];
  }

  lemma SetsAtEnd(org: Org, rules: Settings, calls: seq<Call>, id: Id, part: Part)
    requires calls != []
    ensures var n: nat := |calls| - 1;
            var call := calls[n];
            Sets(org, rules, calls, n, id, part)
            <==> call.Update? && call.id == id && Given(call, part).Some?
                 && !Apply(Run(org, rules, calls[..n]), rules, call).reply.Refused?
  {
    hide Run, Apply, Given;
  }

  /** In particular from a policy's creation on. */
  lemma ContentSinceCreation(
      org: Org, rules: Settings, policy: PolicyData, tags: seq<Tag>, calls: seq<Call>, part: Part)
    requires Sound(org, rules) && Apply(org, rules, NewPolicy(true, policy, tags)).reply.Created?
    ensures var created := Apply(org, rules, NewPolicy(true, policy, tags));
            var id := created.reply.id;
            var after := Run(created.org, rules, calls).policies.known;
            && id in after
            && (Stored(after[id], part) == Stored(policy, part)
                || exists i: nat | i < |calls| ::
                     && Sets(created.org, rules, calls, i, id, part)
                     && Stored(after[id], part) == Given(calls[i], part).value)
  {
    var created := Apply(org, rules, NewPolicy(true, policy, tags));
    var id := created.reply.id;
    CallKeepsSound(org, rules, NewPolicy(true, policy, tags));
    CreatedPolicyIsStored(org, rules, true, policy, tags);
    hide Sound, Apply, Sets, Stored, Given;
    LastUpdateStands(created.org, rules, calls, id, part);
    if i: nat :| i < |calls| && Sets(created.org, rules, calls, i, id, part) {
      var last := LastSets(created.org, rules, calls, id, part, i);
    }
  }

  lemma {:induction false} LastSets(org: Org, rules: Settings, calls: seq<Call>, id: Id, part: Part, from: nat)
    returns (last: nat)
    requires from < |calls| && Sets(org, rules, calls, from, id, part)
    ensures last < |calls| && Sets(org, rules, calls, last, id, part)
    ensures forall j: nat | last < j < |calls| :: !Sets(org, rules, calls, j, id, part)
    decreases |calls| - from
  {
    hide Sets;
    last := from;
    if j: nat :| from < j < |calls| && Sets(org, rules, calls, j, id, part) {
      last := LastSets(org, rules, calls, id, part, j);
    }
  }

  // ---------------------------------------------------------------------------------------------
  // Requests and accounts

  /** A request as it is stored: for this name, address and tags, with the polls the service is set to take, and
      bound to fail where the address is taken or the next failure was asked for. */
  lemma RequestIsStored(org: Org, rules: Settings, email: string, name: string, tags: seq<Tag>)
    requires !CreateAccount(org, rules, email, name, tags).reply.Refused?
    ensures var e := CreateAccount(org, rules, email, name, tags);
            var id := Request(org.requests.next + 1);
            var taken := email in org.requests.emails;
            && e.reply == Created(id)
            && e.org.requests.known == org.requests.known[id := e.org.requests.known[id]]
            && (var r := e.org.requests.known[id];
                && r.name == name && r.email == email && r.tags == TagsToMap(tags) && r.pollsLeft == rules.createPolls
                && r.progress == InProgress && r.account == None
                && r.failure == (if taken then "EMAIL_ALREADY_EXISTS" else org.requests.failNext))
            && e.org.requests.failNext == (if taken then org.requests.failNext else "")
            && e.org.requests.emails == org.requests.emails && e.org.requests.next == org.requests.next + 1
            && e.org == org.(requests := e.org.requests)
  {
    hide TagsToMap, TagsAdmitted;
  }

  lemma NextFailureIsSet(org: Org, rules: Settings, reason: string)
    ensures var e := Apply(org, rules, FailNextCreate(reason));
            e.org.requests.failNext == reason && e.org == org.(requests := org.requests.(failNext := reason))
  {
  }

  /** A status call answers with the request as it then is, and advances it: a request that has ended stays as
      it is, one with polls left has one less, one bound to fail fails, and any other becomes the next account,
      under the root, with its name, its address and its tags, and not closed. */
  lemma StatusAdvances(org: Org, id: Id)
    requires id in org.requests.known
    ensures var e := DescribeCreateAccountStatus(org, id);
            var r := org.requests.known[id];
            && id in e.org.requests.known && e.reply == Status(e.org.requests.known[id])
            && (r.progress != InProgress ==> e.org == org)
            && (r.progress == InProgress && (r.pollsLeft > 0 || r.failure != "") ==>
                  var t := if r.pollsLeft > 0 then r.(pollsLeft := r.pollsLeft - 1) else r.(progress := Failed);
                  e.org == org.(requests := org.requests.(known := org.requests.known[id := t])))
            && (r.progress == InProgress && r.pollsLeft <= 0 && r.failure == "" ==>
                  var a := Account(org.places.nextAccount + 1);
                  var p := org.places;
                  && e.org.places == Places(p.accounts[a := AccountData(r.name, r.email, false)], p.ous,
                                            p.parents[a := Root], p.nextOU, p.nextAccount + 1)
                  && e.org.requests == org.requests.(
                       known := org.requests.known[id := r.(progress := Succeeded, account := Some(a))],
                       emails := org.requests.emails[r.email := a])
                  && e.org.policies == org.policies
                  && (r.tags != map[] ==> e.org.tags == org.tags[a := r.tags])
                  && (r.tags == map[] ==> e.org.tags == org.tags))
  {
  }

  /** A closed account is the same account, suspended, and nothing else changes. */
  lemma ClosedIsSuspended(org: Org, rules: Settings, id: Id)
    requires CloseAccount(org, rules, false, id).reply == Done
    ensures var e := CloseAccount(org, rules, false, id);
            && id in org.places.accounts
            && e.org == org.(places := org.places.(accounts :=
                 org.places.accounts[id := org.places.accounts[id].(suspended := true)]))
  {
  }

  // ---------------------------------------------------------------------------------------------
  // Units and attachments

  /** A unit hangs under its parent by its name, under the next number. */
  lemma UnitIsPlaced(org: Org, within: Option<Id>, parent: Id, name: string, tags: seq<Tag>)
    requires !CreateOrganizationalUnit(org, within, parent, name, tags).reply.Refused?
    ensures var e := CreateOrganizationalUnit(org, within, parent, name, tags);
            var p, id := org.places, OU(org.places.nextOU + 1);
            && e.reply == Created(id)
            && e.org.places
               == Places(p.accounts, p.ous[id := name], p.parents[id := parent], p.nextOU + 1, p.nextAccount)
            && e.org.requests == org.requests && e.org.policies == org.policies
            && e.org.tags == if TagsToMap(tags) == map[] then org.tags else org.tags[id := TagsToMap(tags)]
  {
    hide TagsToMap, CountLevels, NameTaken, Confined;
  }

  /** An attachment comes after those the target has, and a detachment takes one out; other targets keep theirs. */
  lemma AttachmentsChange(
      org: Org, rules: Settings, gate: string, attachable: set<Id>, policy: Id, target: Id, other: Id)
    requires Sound(org, rules)
    ensures var e := AttachPolicy(org, rules, gate, attachable, policy, target);
            e.reply == Done ==>
              && Attached(e.org.policies, target) == Attached(org.policies, target) + [policy]
              && (other != target ==> Attached(e.org.policies, other) == Attached(org.policies, other))
              && e.org == org.(policies := org.policies.(attachments := e.org.policies.attachments))
    ensures var e := DetachPolicy(org, gate, policy, target);
            e.reply == Done ==>
              && policy !in Attached(e.org.policies, target)
              && (forall id | id != policy ::
                    id in Attached(e.org.policies, target) <==> id in Attached(org.policies, target))
              && |Attached(e.org.policies, target)| == |Attached(org.policies, target)| - 1
              && (other != target ==> Attached(e.org.policies, other) == Attached(org.policies, other))
              && e.org == org.(policies := org.policies.(attachments := e.org.policies.attachments))
  {
    hide GateOpen, Removed, WellPlaced;
    if policy in Attached(org.policies, target) {
      assert AttachedOk(org.policies, rules, org.policies.attachments[target]);
      RemovedKeepsRest(Attached(org.policies, target), policy);
    }
  }

  // ---------------------------------------------------------------------------------------------
  // Accounts over whole runs

  /** The i-th call of a run closed the account. */
  predicate Closes(org: Org, rules: Settings, calls: seq<Call>, i: nat, id: Id)
    requires i < |calls|
  {
    calls[i].Shut? && calls[i].account == id && Accepted(org, rules, calls, i)
  }

  lemma CallOnAccount(org: Org, rules: Settings, call: Call, id: Id)
    requires Sound(org, rules) && id in org.places.accounts
    ensures var e := Apply(org, rules, call);
            && id in e.org.places.accounts
            && var a, b := org.places.accounts[id], e.org.places.accounts[id];
               && b.name == a.name && b.email == a.email
               && (b.suspended <==> a.suspended || (call.Shut? && call.account == id && !e.reply.Refused?))
  {
    hide GateOpen, TagsToMap, CountLevels, InSubtree, TagsAdmitted, NameTaken, PolicyNameTaken, Removed, FitsLimit,
         WellAttached, SiblingsDiffer;
    assert AccountPlaced(org.places, id);
  }

  lemma {:induction false} StaysAccount(org: Org, rules: Settings, calls: seq<Call>, id: Id)
    requires Sound(org, rules) && id in org.places.accounts
    ensures var after := Run(org, rules, calls).places.accounts;
            id in after
            && after[id].name == org.places.accounts[id].name && after[id].email == org.places.accounts[id].email
    decreases |calls|
  {
    hide Apply, Sound;
    if calls != [] {
      CallOnAccount(org, rules, calls[0], id);
      CallKeepsSound(org, rules, calls[0]);
      StaysAccount(Apply(org, rules, calls[0]).org, rules, calls[1..], id);
    }
  }

  lemma {:induction false} ClosedExactly(org: Org, rules: Settings, calls: seq<Call>, id: Id)
    requires Sound(org, rules) && id in org.places.accounts
    ensures id in Run(org, rules, calls).places.accounts
    ensures Run(org, rules, calls).places.accounts[id].suspended <==>
              org.places.accounts[id].suspended || exists i: nat | i < |calls| :: Closes(org, rules, calls, i, id)
    decreases |calls|
  {
    if calls != [] {
      hide Sound, Apply, Run, Closes;
      var n: nat := |calls| - 1;
      ClosedExactly(org, rules, calls[..n], id);
      RunsKeepSound(org, rules, calls[..n]);
      RunLast(org, rules, calls);
      CallOnAccount(Run(org, rules, calls[..n]), rules, calls[n], id);
      ClosesAtEnd(org, rules, calls, id);
      forall i: nat | i < n
        ensures Closes(org, rules, calls[..n], i, id) <==> Closes(org, rules, calls, i, id)
      {
        ClosesBefore(org, rules, calls, n, i, id);
      }
    }
  }

  /** Over every run an account keeps its name and its address, and is closed exactly if it was before or an
      accepted call closed it. */
  lemma AccountsStand(org: Org, rules: Settings, calls: seq<Call>, id: Id)
    requires Sound(org, rules) && id in org.places.accounts
    ensures var after := Run(org, rules, calls).places.accounts;
            && id in after
            && after[id].name == org.places.accounts[id].name && after[id].email == org.places.accounts[id].email
            && (after[id].suspended <==>
                  org.places.accounts[id].suspended || exists i: nat | i < |calls| :: Closes(org, rules, calls, i, id))
  {
    hide Sound, Run, Closes;
    StaysAccount(org, rules, calls, id);
    ClosedExactly(org, rules, calls, id);
  }

  lemma ClosesBefore(org: Org, rules: Settings, calls: seq<Call>, n: nat, i: nat, id: Id)
    requires i < n <= |calls|
    ensures Closes(org, rules, calls[..n], i, id) <==> Closes(org, rules, calls, i, id)
  {
    hide Run, Apply;
    assert calls[..n][..i] == calls[..i];
  }

  lemma ClosesAtEnd(org: Org, rules: Settings, calls: seq<Call>, id: Id)
    requires calls != []
    ensures var n: nat := |calls| - 1;
            var call := calls[n];
            Closes(org, rules, calls, n, id)
            <==> call.Shut? && call.account == id && !Apply(Run(org, rules, calls[..n]), rules, call).reply.Refused?
  {
    hide Run, Apply;
  }

  /** An organization begins with nothing, and its first unit, account, request and policy are number one. */
  lemma BeginsEmpty(rules: Settings)
    ensures var o := EmptyOrg();
            && o.places.accounts == map[] && o.places.ous == map[] && o.places.parents == map[]
            && o.requests.known == map[] && o.requests.emails == map[] && o.requests.failNext == ""
            && o.policies.known == map[] && o.policies.attachments == map[] && o.tags == map[]
            && o.places.nextOU + 1 == o.places.nextAccount + 1 == o.requests.next + 1 == o.policies.next + 1 == 1
  {
  }
}
