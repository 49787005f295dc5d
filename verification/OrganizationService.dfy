/** The service as it runs: one shared state, and the clients that read and change it. */
module OrganizationService {
  import opened Options
  import opened Utf8
  import opened Organization
  import opened OrganizationPolicies

  class OrgState {
    const settings: Settings
    var accounts: map<Id, AccountData>
    var ous: map<Id, string>
    var parents: map<Id, Id>
    var nextOU: nat
    var nextAccount: nat
    var requests: map<Id, RequestData>
    var emails: map<string, Id>
    var nextRequest: nat
    var failNextCreateWith: string
    var policies: map<Id, PolicyData>
    var attachments: map<Id, seq<Id>>
    var nextPolicy: nat
    var tags: map<Id, Tags>

    function Snapshot(): Org
      reads this
    {
      Org(Places(accounts, ous, parents, nextOU, nextAccount),
          Requests(requests, emails, nextRequest, failNextCreateWith),
          Policies(policies, attachments, nextPolicy),
          tags)
    }

    constructor (settings: Settings)
      ensures this.settings == settings && Snapshot() == EmptyOrg()
    {
      this.settings := settings;
      accounts, ous, parents, nextOU, nextAccount := map[], map[], map[], 0, 0;
      requests, emails, nextRequest, failNextCreateWith := map[], map[], 0, "";
      policies, attachments, nextPolicy := map[], map[], 0;
      tags := map[];
    }

    /** Climbs from a resource towards the root, giving up after a fixed number of steps. */
    method IsInSubtree(id: Id, root: Id) returns (inside: bool)
      ensures inside == InSubtree(parents, id, root)
    {
      if id == root {
        return true;
      }
      var at := id;
      for i := 0 to CLIMB_LIMIT
        invariant Climb(parents, id, root, CLIMB_LIMIT) == Climb(parents, at, root, CLIMB_LIMIT - i)
      {
        if at !in parents {
          return false;
        }
        var p := parents[at];
        if p == root {
          return true;
        }
        at := p;
      }
      return false;
    }

    method Depth(container: Id) returns (depth: nat)
      ensures depth == CountLevels(parents, container, 0)
    {
      depth := 0;
      var p := container;
      while p != Root
        invariant depth <= CLIMB_LIMIT
        invariant CountLevels(parents, container, 0) == CountLevels(parents, p, depth)
        decreases CLIMB_LIMIT - depth
      {
        depth := depth + 1;
        if depth > CLIMB_LIMIT {
          break;
        }
        p := ParentOf(parents, p);
      }
    }

    method OUNameTaken(parent: Id, name: string) returns (taken: bool)
      ensures taken == NameTaken(Snapshot().places, parent, name)
    {
      var left := ous.Keys;
      while left != {}
        invariant left <= ous.Keys
        invariant forall id | id in ous.Keys - left :: !(ous[id] == name && id in parents && parents[id] == parent)
        decreases left
      {
        var id :| id in left;
        if ous[id] == name && id in parents && parents[id] == parent {
          return true;
        }
        left := left - {id};
      }
      return false;
    }

    method IsPolicyNameTaken(name: string) returns (taken: bool)
      ensures taken == PolicyNameTaken(Snapshot().policies, name)
    {
      var left := policies.Keys;
      while left != {}
        invariant left <= policies.Keys
        invariant forall id | id in policies.Keys - left :: policies[id].name != name
        decreases left
      {
        var id :| id in left;
        if policies[id].name == name {
          return true;
        }
        left := left - {id};
      }
      return false;
    }

    /** Whether the resource carries the tag a client requires. */
    method OwnerTagSatisfied(gate: string, id: Id) returns (ok: bool)
      ensures ok == GateOpen(Snapshot(), gate, id)
    {
      if gate == "" {
        return true;
      }
      var key, want := Split(gate);
      var own := if id in tags then tags[id] else map[];
      return (if key in own then own[key] else "") == want;
    }

    /** The tags of a new resource, if it has any. */
    method GiveTags(id: Id, given: Tags)
      modifies this`tags
      ensures tags == WithTags(old(Snapshot()), id, given)
    {
      if given != map[] {
        tags := tags[id := given];
      }
    }

    method AddTagsTo(id: Id, given: seq<Tag>)
      modifies this`tags
      ensures Snapshot() == AddTags(old(Snapshot()), id, given)
    {
      var added := Collect(given);
      if id !in tags {
        tags := tags[id := map[]];
      }
      tags := tags[id := tags[id] + added];
    }
  }

  method Split(s: string) returns (key: string, value: string)
    ensures (key, value) == SplitPair(s)
  {
    var i := 0;
    assert s[0..] == s && s[..0] + SplitPair(s).0 == SplitPair(s).0;
    while i < |s|
      invariant i <= |s|
      invariant SplitPair(s) == (s[..i] + SplitPair(s[i..]).0, SplitPair(s[i..]).1)
    {
      assert s[i..][0] == s[i] && s[i..][1..] == s[i + 1..];
      if s[i] == '=' {
        assert s[..i] + [] == s[..i];
        return s[..i], s[i + 1..];
      }
      assert s[..i] + ([s[i]] + SplitPair(s[i + 1..]).0) == s[..i + 1] + SplitPair(s[i + 1..]).0;
      i := i + 1;
    }
    assert s[..i] + SplitPair(s[i..]).0 == s;
    return s, "";
  }

  method Collect(given: seq<Tag>) returns (tags: Tags)
    ensures tags == TagsToMap(given)
  {
    tags := map[];
    for i := 0 to |given|
      invariant tags == TagsToMap(given[..i])
    {
      assert given[..i + 1][..i] == given[..i];
      tags := tags[given[i].key := given[i].value];
    }
    assert given[..|given|] == given;
  }

  /** Whether a create request carries the required tags, with the values the grant fixes. */
  method CheckRequiredTags(settings: Settings, tags: Tags) returns (ok: bool)
    ensures ok == TagsAdmitted(settings, tags)
  {
    ok := true;
    for i := 0 to |settings.requiredTags|
      invariant ok == forall j | 0 <= j < i :: settings.requiredTags[j] in tags
    {
      if settings.requiredTags[i] !in tags {
        ok := false;
      }
    }
    var pinned := settings.requiredTagValues;
    ghost var present := ok;
    var left := pinned.Keys;
    while left != {}
      invariant left <= pinned.Keys
      invariant ok == (present && forall k | k in pinned.Keys - left :: k in tags && tags[k] == pinned[k])
      decreases left
    {
      var k :| k in left;
      if k !in tags || tags[k] != pinned[k] {
        ok := false;
      }
      left := left - {k};
    }
  }

  /** The vendor's client, which may be confined to one unit. */
  class OrgVend {
    const state: OrgState
    const denyOutsideOU: Option<Id>

    constructor (state: OrgState, denyOutsideOU: Option<Id>)
      ensures this.state == state && this.denyOutsideOU == denyOutsideOU
    {
      this.state := state;
      this.denyOutsideOU := denyOutsideOU;
    }

    method Allows(container: Id) returns (ok: bool)
      ensures ok == Confined(state.Snapshot(), denyOutsideOU, container)
    {
      if denyOutsideOU.None? {
        return true;
      }
      ok := state.IsInSubtree(container, denyOutsideOU.value);
    }

    method CreateAccount(email: string, name: string, tags: seq<Tag>) returns (reply: Reply)
      modifies state
      ensures Effect(state.Snapshot(), reply)
              == Organization.CreateAccount(old(state.Snapshot()), state.settings, email, name, tags)
    {
      var given := Collect(tags);
      var admitted := CheckRequiredTags(state.settings, given);
      if !admitted {
        return Refused(AccessDenied);
      }
      state.nextRequest := state.nextRequest + 1;
      var id := Request(state.nextRequest);
      var failure := "";
      if email in state.emails {
        failure := "EMAIL_ALREADY_EXISTS";
      } else if state.failNextCreateWith != "" {
        failure := state.failNextCreateWith;
        state.failNextCreateWith := "";
      }
      var request := RequestData(name, email, given, state.settings.createPolls, InProgress, failure, None);
      state.requests := state.requests[id := request];
      return Created(id);
    }

    method DescribeCreateAccountStatus(id: Id) returns (reply: Reply)
      modifies state
      ensures Effect(state.Snapshot(), reply) == Organization.DescribeCreateAccountStatus(old(state.Snapshot()), id)
    {
      hide Materialize;
      if id !in state.requests {
        return Refused(RequestNotFound);
      }
      var r := state.requests[id];
      if r.progress.InProgress? {
        if r.pollsLeft > 0 {
          r := r.(pollsLeft := r.pollsLeft - 1);
        } else if r.failure != "" {
          r := r.(progress := Failed);
        } else {
          MakeAccount(id);
          return Status(state.requests[id]);
        }
      }
      state.requests := state.requests[id := r];
      return Status(r);
    }

    /** The account appears under the root, wherever it is wanted in the end. */
    method MakeAccount(id: Id)
      requires id in state.requests
      modifies state
      ensures state.Snapshot() == Materialize(old(state.Snapshot()), id) && id in state.requests
    {
      hide WithTags;
      var r := state.requests[id];
      var account := Account(state.nextAccount + 1);
      state.GiveTags(account, r.tags);
      state.nextAccount := state.nextAccount + 1;
      state.accounts := state.accounts[account := AccountData(r.name, r.email, false)];
      state.parents := state.parents[account := Root];
      state.emails := state.emails[r.email := account];
      state.requests := state.requests[id := r.(account := Some(account), progress := Succeeded)];
    }

    method MoveAccount(account: Id, source: Option<Id>, to: Id) returns (reply: Reply)
      modifies state
      ensures Effect(state.Snapshot(), reply)
              == Organization.MoveAccount(old(state.Snapshot()), state.settings, denyOutsideOU, account, source, to)
    {
      hide Confined, ParentOf;
      ghost var before := state.Snapshot();
      if account !in state.accounts {
        return Refused(AccountNotFound);
      }
      if to !in state.ous && to != Root {
        return Refused(ParentNotFound);
      }
      var allowed := Allows(to);
      if !allowed {
        return Refused(AccessDenied);
      }
      var now := ParentOf(state.parents, account);
      if now == to {
        if state.settings.moveToSamePlaceErrors {
          return Refused(AlreadyThere);
        }
        return Done;
      }
      if source.Some? && source.value != now {
        return Refused(SourceParentMismatch);
      }
      assert state.Snapshot() == before;
      state.parents := state.parents[account := to];
      assert state.Snapshot() == before.(places := before.places.(parents := before.places.parents[account := to]));
      return Done;
    }

    method CreateOrganizationalUnit(parent: Id, name: string, tags: seq<Tag>) returns (reply: Reply)
      modifies state
      ensures Effect(state.Snapshot(), reply)
              == Organization.CreateOrganizationalUnit(old(state.Snapshot()), denyOutsideOU, parent, name, tags)
    {
      hide Confined, CountLevels, NameTaken, TagsToMap, WithTags, PlaceUnit;
      if parent !in state.ous && parent != Root {
        return Refused(ParentNotFound);
      }
      var allowed := Allows(parent);
      if !allowed {
        return Refused(AccessDenied);
      }
      var taken := state.OUNameTaken(parent, name);
      if taken {
        return Refused(DuplicateOU);
      }
      var depth := state.Depth(parent);
      if depth >= MAX_DEPTH {
        return Refused(DepthExceeded);
      }
      var given := Collect(tags);
      var id := OU(state.nextOU + 1);
      state.GiveTags(id, given);
      HangUnit(parent, name);
      return Created(id);
    }

    method HangUnit(parent: Id, name: string)
      modifies state
      ensures state.Snapshot()
              == old(state.Snapshot()).(places := PlaceUnit(old(state.Snapshot().places), parent, name))
    {
      state.nextOU := state.nextOU + 1;
      var id := OU(state.nextOU);
      state.ous := state.ous[id := name];
      state.parents := state.parents[id := parent];
    }

    /** No owner tag is required of the vendor. */
    method TagResource(id: Id, tags: seq<Tag>) returns (reply: Reply)
      modifies state
      ensures Effect(state.Snapshot(), reply) == Organization.TagResource(old(state.Snapshot()), "", id, tags)
    {
      state.AddTagsTo(id, tags);
      return Done;
    }
  }

  /** The policy client, which may require an owner tag and be confined to a set of targets. */
  class OrgPolicy {
    const state: OrgState
    const requireOwnerTag: string
    const attachableTargets: set<Id>

    constructor (state: OrgState, requireOwnerTag: string, attachableTargets: set<Id>)
      ensures this.state == state
      ensures this.requireOwnerTag == requireOwnerTag && this.attachableTargets == attachableTargets
    {
      this.state := state;
      this.requireOwnerTag := requireOwnerTag;
      this.attachableTargets := attachableTargets;
    }

    method CreatePolicy(serviceControl: bool, policy: PolicyData, tags: seq<Tag>) returns (reply: Reply)
      modifies state
      ensures Effect(state.Snapshot(), reply)
              == Organization.CreatePolicy(old(state.Snapshot()), state.settings, serviceControl, policy, tags)
    {
      hide TagsToMap, WithTags, PolicyNameTaken;
      if !serviceControl {
        return Refused(UnsupportedType);
      }
      if !state.settings.allFeatures {
        return Refused(NotAllFeatures);
      }
      if state.settings.policySizeLimit > 0 && ByteLength(policy.content) > state.settings.policySizeLimit {
        return Refused(ContentTooLong);
      }
      var taken := state.IsPolicyNameTaken(policy.name);
      if taken {
        return Refused(DuplicatePolicy);
      }
      var given := Collect(tags);
      var id := Policy(state.nextPolicy + 1);
      state.GiveTags(id, given);
      state.nextPolicy := state.nextPolicy + 1;
      state.policies := state.policies[id := policy];
      return Created(id);
    }

    method UpdatePolicy(id: Id, name: Option<string>, content: Option<string>, description: Option<string>)
        returns (reply: Reply)
      modifies state
      ensures Effect(state.Snapshot(), reply)
              == Organization.UpdatePolicy(
                   old(state.Snapshot()), state.settings, requireOwnerTag, id, name, content, description)
    {
      if id !in state.policies {
        return Refused(PolicyNotFound);
      }
      var open := state.OwnerTagSatisfied(requireOwnerTag, id);
      if !open {
        return Refused(AccessDenied);
      }
      var p := state.policies[id];
      if content.Some? {
        if state.settings.policySizeLimit > 0 && ByteLength(content.value) > state.settings.policySizeLimit {
          return Refused(ContentTooLong);
        }
        p := p.(content := content.value);
      }
      if description.Some? {
        p := p.(description := description.value);
      }
      if name.Some? {
        p := p.(name := name.value);
      }
      state.policies := state.policies[id := p];
      return Done;
    }

    method AttachPolicy(policy: Id, target: Id) returns (reply: Reply)
      modifies state
      ensures Effect(state.Snapshot(), reply)
              == Organization.AttachPolicy(
                   old(state.Snapshot()), state.settings, requireOwnerTag, attachableTargets, policy, target)
    {
      if policy !in state.policies {
        return Refused(PolicyNotFound);
      }
      var open := state.OwnerTagSatisfied(requireOwnerTag, policy);
      if !open || (|attachableTargets| > 0 && target !in attachableTargets) {
        return Refused(AccessDenied);
      }
      if !state.settings.scpEnabled {
        return Refused(TypeNotEnabled);
      }
      var attached := if target in state.attachments then state.attachments[target] else [];
      for i := 0 to |attached|
        invariant policy !in attached[..i]
      {
        if attached[i] == policy {
          return Refused(DuplicateAttachment);
        }
      }
      assert attached[..|attached|] == attached;
      if state.settings.policiesPerTarget > 0 && |attached| >= state.settings.policiesPerTarget {
        return Refused(TooManyAttachments);
      }
      state.attachments := state.attachments[target := attached + [policy]];
      return Done;
    }

    method TagResource(id: Id, tags: seq<Tag>) returns (reply: Reply)
      modifies state
      ensures Effect(state.Snapshot(), reply)
              == Organization.TagResource(old(state.Snapshot()), requireOwnerTag, id, tags)
    {
      var open := state.OwnerTagSatisfied(requireOwnerTag, id);
      if !open {
        return Refused(AccessDenied);
      }
      state.AddTagsTo(id, tags);
      return Done;
    }
  }

  /** A policy client scoped to the unit and the units below it at this moment. */
  method NewDelegatedOrgPolicy(state: OrgState, ownerTag: string, unit: Id) returns (client: OrgPolicy)
    ensures fresh(client) && client.state == state && client.requireOwnerTag == ownerTag
    ensures client.attachableTargets == DelegatedTargets(state.Snapshot().places, unit)
  {
    hide InSubtree;
    var targets := {unit};
    var left := state.ous.Keys;
    while left != {}
      invariant left <= state.ous.Keys
      invariant targets == {unit} + set id | id in state.ous.Keys - left && InSubtree(state.parents, id, unit)
      decreases left
    {
      var id :| id in left;
      var inside := state.IsInSubtree(id, unit);
      if inside {
        targets := targets + {id};
      }
      left := left - {id};
    }
    client := new OrgPolicy(state, ownerTag, targets);
  }

  /** The reclaim client. */
  class OrgReclaim {
    const state: OrgState
    const requireOwnerTag: string
    const closeAccountQuotaExceeded: bool

    constructor (state: OrgState, requireOwnerTag: string, closeAccountQuotaExceeded: bool)
      ensures this.state == state
      ensures this.requireOwnerTag == requireOwnerTag && this.closeAccountQuotaExceeded == closeAccountQuotaExceeded
    {
      this.state := state;
      this.requireOwnerTag := requireOwnerTag;
      this.closeAccountQuotaExceeded := closeAccountQuotaExceeded;
    }

    method DetachPolicy(policy: Id, target: Id) returns (reply: Reply)
      modifies state
      ensures Effect(state.Snapshot(), reply)
              == Organization.DetachPolicy(old(state.Snapshot()), requireOwnerTag, policy, target)
    {
      if policy !in state.policies {
        return Refused(PolicyNotFound);
      }
      var open := state.OwnerTagSatisfied(requireOwnerTag, policy);
      if !open {
        return Refused(AccessDenied);
      }
      var attached := if target in state.attachments then state.attachments[target] else [];
      var i := 0;
      while i < |attached| && attached[i] != policy
        invariant i <= |attached| && policy !in attached[..i]
      {
        i := i + 1;
      }
      if i == |attached| {
        assert attached[..i] == attached;
        return Refused(NotAttached);
      }
      FirstIndex(attached, policy, i);
      state.attachments := state.attachments[target := attached[..i] + attached[i + 1..]];
      return Done;
    }

    method CloseAccount(id: Id) returns (reply: Reply)
      modifies state
      ensures Effect(state.Snapshot(), reply)
              == Organization.CloseAccount(old(state.Snapshot()), state.settings, closeAccountQuotaExceeded, id)
    {
      if closeAccountQuotaExceeded {
        return Refused(CloseQuotaExceeded);
      }
      if id !in state.accounts {
        return Refused(AccountNotFound);
      }
      if id == state.settings.managementAccount {
        return Refused(ManagementAccount);
      }
      if state.accounts[id].suspended {
        return Refused(AlreadyClosed);
      }
      state.accounts := state.accounts[id := state.accounts[id].(suspended := true)];
      return Done;
    }
  }

  lemma FirstIndex(s: seq<Id>, x: Id, i: nat)
    requires i < |s| && s[i] == x && x !in s[..i]
    ensures x in s && IndexOf(s, x) == i
  {
    forall j | 0 <= j < i
      ensures s[j] != x
    {
      assert s[j] == s[..i][j];
    }
  }
}
