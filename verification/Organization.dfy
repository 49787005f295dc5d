/** An AWS organization as the service presents it: what each API call does to it, and what it refuses. */
module Organization {
  import opened Options
  import opened Utf8

  /** Resource ids. The service numbers what it creates; a caller may also name what does not exist. */
  datatype Id = Root | OU(n: nat) | Account(n: nat) | Policy(n: nat) | Request(n: nat) | Unknown(text: string)

  type Tags = map<string, string>

  datatype AccountData = AccountData(name: string, email: string, suspended: bool)

  datatype PolicyData = PolicyData(name: string, content: string, description: string)

  datatype Progress = InProgress | Failed | Succeeded

  datatype RequestData = RequestData(
    name: string,
    email: string,
    tags: Tags,
    pollsLeft: int,
    progress: Progress,
    failure: string,
    account: Option<Id>
  )

  /** Accounts and units, and what each hangs below. */
  datatype Places = Places(
    accounts: map<Id, AccountData>,
    ous: map<Id, string>,
    parents: map<Id, Id>,
    nextOU: nat,
    nextAccount: nat
  )

  /** Requests for accounts, and the addresses of the accounts they led to. */
  datatype Requests = Requests(known: map<Id, RequestData>, emails: map<string, Id>, next: nat, failNext: string)

  datatype Policies = Policies(known: map<Id, PolicyData>, attachments: map<Id, seq<Id>>, next: nat)

  datatype Org = Org(places: Places, requests: Requests, policies: Policies, tags: map<Id, Tags>)

  datatype Settings = Settings(
    requiredTags: seq<string>,
    requiredTagValues: Tags,
    createPolls: int,
    policySizeLimit: int,
    policiesPerTarget: int,
    moveToSamePlaceErrors: bool,
    allFeatures: bool,
    scpEnabled: bool,
    managementAccount: Id
  )

  datatype Refusal =
    | AccessDenied
    | RequestNotFound
    | AccountNotFound
    | ParentNotFound
    | SourceParentMismatch
    | AlreadyThere
    | DuplicateOU
    | DepthExceeded
    | UnsupportedType
    | NotAllFeatures
    | ContentTooLong
    | DuplicatePolicy
    | PolicyNotFound
    | TypeNotEnabled
    | DuplicateAttachment
    | TooManyAttachments
    | NotAttached
    | CloseQuotaExceeded
    | ManagementAccount
    | AlreadyClosed

  datatype Reply = Done | Created(id: Id) | Status(request: RequestData) | Refused(why: Refusal)

  datatype Effect = Effect(org: Org, reply: Reply)

  function EmptyOrg(): Org
  {
    Org(Places(map[], map[], map[], 0, 0), Requests(map[], map[], 0, ""), Policies(map[], map[], 0), map[])
  }

  function Refuse(org: Org, why: Refusal): Effect
  {
    Effect(org, Refused(why))
  }

  // ---------------------------------------------------------------------------------------------
  // Tags

  datatype Tag = Tag(key: string, value: string)

  /** The last tag with a key wins. */
  function TagsToMap(tags: seq<Tag>): Tags
  {
    if tags == [] then map[]
    else
      var last := tags[|tags| - 1];
      TagsToMap(tags[..|tags| - 1])[last.key := last.value]
  }

  function TagsOf(org: Org, id: Id): Tags
  {
    if id in org.tags then org.tags[id] else map[]
  }

  /** A missing tag reads as the empty string. */
  function TagValue(org: Org, id: Id, key: string): string
  {
    var tags := TagsOf(org, id);
    if key in tags then tags[key] else ""
  }

  /** An owner-tag requirement, written key=value. */
  function SplitPair(s: string): (string, string)
  {
    if s == "" then ("", "")
    else if s[0] == '=' then ("", s[1..])
    else
      var rest := SplitPair(s[1..]);
      ([s[0]] + rest.0, rest.1)
  }

  /** Whether a client that requires an owner tag may act on the resource. */
  predicate GateOpen(org: Org, gate: string, id: Id)
  {
    gate == "" || TagValue(org, id, SplitPair(gate).0) == SplitPair(gate).1
  }

  function AddTags(org: Org, id: Id, tags: seq<Tag>): Org
  {
    org.(tags := org.tags[id := TagsOf(org, id) + TagsToMap(tags)])
  }

  /** The tags of everything, once a new resource has been given its own. */
  function WithTags(org: Org, id: Id, tags: Tags): map<Id, Tags>
  {
    if tags == map[] then org.tags else org.tags[id := tags]
  }

  // ---------------------------------------------------------------------------------------------
  // Placement

  /** What is not placed anywhere has the empty text for a parent. */
  function ParentOf(parents: map<Id, Id>, id: Id): Id
  {
    if id in parents then parents[id] else Unknown("")
  }

  function Climb(parents: map<Id, Id>, id: Id, root: Id, steps: nat): bool
    decreases steps
  {
    if steps == 0 || id !in parents then false
    else parents[id] == root || Climb(parents, parents[id], root, steps - 1)
  }

  const CLIMB_LIMIT := 16

  predicate InSubtree(parents: map<Id, Id>, id: Id, root: Id)
  {
    id == root || Climb(parents, id, root, CLIMB_LIMIT)
  }

  /** The number of levels counted from a container up to the root, giving up beyond the climbing limit. */
  function CountLevels(parents: map<Id, Id>, at: Id, depth: nat): nat
    requires depth <= CLIMB_LIMIT
    decreases CLIMB_LIMIT - depth
  {
    if at == Root then depth
    else if depth == CLIMB_LIMIT then depth + 1
    else CountLevels(parents, ParentOf(parents, at), depth + 1)
  }

  const MAX_DEPTH := 5

  // ---------------------------------------------------------------------------------------------
  // The vendor client. A client may be confined to one organizational unit.

  predicate Confined(org: Org, within: Option<Id>, target: Id)
  {
    within.None? || InSubtree(org.places.parents, target, within.value)
  }

  predicate TagsAdmitted(rules: Settings, tags: Tags)
  {
    (forall k | k in rules.requiredTags :: k in tags)
    && (forall k | k in rules.requiredTagValues :: k in tags && tags[k] == rules.requiredTagValues[k])
  }

  function CreateAccount(org: Org, rules: Settings, email: string, name: string, tags: seq<Tag>): Effect
  {
    var given := TagsToMap(tags);
    if !TagsAdmitted(rules, given) then Refuse(org, AccessDenied)
    else
      var r := org.requests;
      var id := Request(r.next + 1);
      var taken := email in r.emails;
      var failure := if taken then "EMAIL_ALREADY_EXISTS" else r.failNext;
      var request := RequestData(name, email, given, rules.createPolls, InProgress, failure, None);
      Effect(org.(requests := Requests(r.known[id := request], r.emails, r.next + 1, if taken then r.failNext else "")),
             Created(id))
  }

  /** The account a request turns into, under the root. */
  function Materialize(org: Org, id: Id): Org
    requires id in org.requests.known
  {
    var r := org.requests.known[id];
    var account := Account(org.places.nextAccount + 1);
    var known := org.requests.known[id := r.(account := Some(account), progress := Succeeded)];
    Org(PlaceAccount(org.places, account, r),
        org.requests.(known := known, emails := org.requests.emails[r.email := account]),
        org.policies,
        WithTags(org, account, r.tags))
  }

  function PlaceAccount(p: Places, account: Id, r: RequestData): Places
  {
    p.(accounts := p.accounts[account := AccountData(r.name, r.email, false)],
       parents := p.parents[account := Root],
       nextAccount := p.nextAccount + 1)
  }

  /** The next status call turns the request into an account. */
  predicate Completes(org: Org, id: Id)
  {
    id in org.requests.known
    && var r := org.requests.known[id];
    r.progress.InProgress? && r.pollsLeft <= 0 && r.failure == ""
  }

  /** What a status call makes of a request that it does not complete. */
  function Waited(r: RequestData): RequestData
  {
    if !r.progress.InProgress? then r
    else if r.pollsLeft > 0 then r.(pollsLeft := r.pollsLeft - 1)
    else r.(progress := Failed)
  }

  function DescribeCreateAccountStatus(org: Org, id: Id): Effect
  {
    if id !in org.requests.known then Refuse(org, RequestNotFound)
    else
      var r := org.requests.known[id];
      var after :=
        if Completes(org, id) then Materialize(org, id)
        else org.(requests := org.requests.(known := org.requests.known[id := Waited(r)]));
      Effect(after, Status(after.requests.known[id]))
  }

  /** A source parent may be left out. */
  function MoveAccount(org: Org, rules: Settings, within: Option<Id>, account: Id, source: Option<Id>, to: Id): Effect
  {
    var p := org.places;
    if account !in p.accounts then Refuse(org, AccountNotFound)
    else if to !in p.ous && to != Root then Refuse(org, ParentNotFound)
    else if !Confined(org, within, to) then Refuse(org, AccessDenied)
    else
      var now := ParentOf(p.parents, account);
      if now == to then
        if rules.moveToSamePlaceErrors then Refuse(org, AlreadyThere) else Effect(org, Done)
      else if source.Some? && source.value != now then Refuse(org, SourceParentMismatch)
      else Effect(org.(places := p.(parents := p.parents[account := to])), Done)
  }

  predicate NameTaken(p: Places, parent: Id, name: string)
  {
    exists id | id in p.ous :: p.ous[id] == name && id in p.parents && p.parents[id] == parent
  }

  function PlaceUnit(p: Places, parent: Id, name: string): Places
  {
    var id := OU(p.nextOU + 1);
    p.(nextOU := p.nextOU + 1, ous := p.ous[id := name], parents := p.parents[id := parent])
  }

  function CreateOrganizationalUnit(org: Org, within: Option<Id>, parent: Id, name: string, tags: seq<Tag>): Effect
  {
    var p := org.places;
    if parent !in p.ous && parent != Root then Refuse(org, ParentNotFound)
    else if !Confined(org, within, parent) then Refuse(org, AccessDenied)
    else if NameTaken(p, parent, name) then Refuse(org, DuplicateOU)
    else if CountLevels(p.parents, parent, 0) >= MAX_DEPTH then Refuse(org, DepthExceeded)
    else
      var id := OU(p.nextOU + 1);
      Effect(org.(places := PlaceUnit(p, parent, name), tags := WithTags(org, id, TagsToMap(tags))), Created(id))
  }

  // ---------------------------------------------------------------------------------------------
  // The policy client. It may require an owner tag and be confined to a set of targets.

  predicate FitsLimit(rules: Settings, content: string)
  {
    rules.policySizeLimit > 0 ==> ByteLength(content) <= rules.policySizeLimit
  }

  function CreatePolicy(org: Org, rules: Settings, serviceControl: bool, policy: PolicyData, tags: seq<Tag>): Effect
  {
    if !serviceControl then Refuse(org, UnsupportedType)
    else if !rules.allFeatures then Refuse(org, NotAllFeatures)
    else if !FitsLimit(rules, policy.content) then Refuse(org, ContentTooLong)
    else if PolicyNameTaken(org.policies, policy.name) then Refuse(org, DuplicatePolicy)
    else
      var p := org.policies;
      var id := Policy(p.next + 1);
      Effect(org.(policies := p.(next := p.next + 1, known := p.known[id := policy]),
                  tags := WithTags(org, id, TagsToMap(tags))),
             Created(id))
  }

  predicate PolicyNameTaken(p: Policies, name: string)
  {
    exists id | id in p.known :: p.known[id].name == name
  }

  function Or<T>(given: Option<T>, current: T): T
  {
    if given.Some? then given.value else current
  }

  function UpdatePolicy(org: Org, rules: Settings, gate: string, id: Id,
                        name: Option<string>, content: Option<string>, description: Option<string>): Effect
  {
    var p := org.policies;
    if id !in p.known then Refuse(org, PolicyNotFound)
    else if !GateOpen(org, gate, id) then Refuse(org, AccessDenied)
    else if content.Some? && !FitsLimit(rules, content.value) then Refuse(org, ContentTooLong)
    else
      var q := p.known[id];
      var updated := PolicyData(Or(name, q.name), Or(content, q.content), Or(description, q.description));
      Effect(org.(policies := p.(known := p.known[id := updated])), Done)
  }

  function Attached(p: Policies, target: Id): seq<Id>
  {
    if target in p.attachments then p.attachments[target] else []
  }

  /** An empty set of attachable targets means any target. */
  function AttachPolicy(org: Org, rules: Settings, gate: string, attachable: set<Id>, policy: Id, target: Id): Effect
  {
    var p := org.policies;
    var attached := Attached(p, target);
    if policy !in p.known then Refuse(org, PolicyNotFound)
    else if !GateOpen(org, gate, policy) then Refuse(org, AccessDenied)
    else if attachable != {} && target !in attachable then Refuse(org, AccessDenied)
    else if !rules.scpEnabled then Refuse(org, TypeNotEnabled)
    else if policy in attached then Refuse(org, DuplicateAttachment)
    else if rules.policiesPerTarget > 0 && |attached| >= rules.policiesPerTarget then Refuse(org, TooManyAttachments)
    else Effect(org.(policies := p.(attachments := p.attachments[target := attached + [policy]])), Done)
  }

  function TagResource(org: Org, gate: string, id: Id, tags: seq<Tag>): Effect
  {
    if !GateOpen(org, gate, id) then Refuse(org, AccessDenied) else Effect(AddTags(org, id, tags), Done)
  }

  // ---------------------------------------------------------------------------------------------
  // The reclaim client

  function IndexOf(s: seq<Id>, x: Id): (i: nat)
    ensures i <= |s| && (i < |s| <==> x in s) && (i < |s| ==> s[i] == x)
    ensures forall j | 0 <= j < i :: s[j] != x
  {
    if s == [] || s[0] == x then 0 else 1 + IndexOf(s[1..], x)
  }

  function DetachPolicy(org: Org, gate: string, policy: Id, target: Id): Effect
  {
    var p := org.policies;
    if policy !in p.known then Refuse(org, PolicyNotFound)
    else if !GateOpen(org, gate, policy) then Refuse(org, AccessDenied)
    else if policy !in Attached(p, target) then Refuse(org, NotAttached)
    else
      var left := Removed(Attached(p, target), policy);
      Effect(org.(policies := p.(attachments := p.attachments[target := left])), Done)
  }

  /** The sequence without the first occurrence of x. */
  function Removed(s: seq<Id>, x: Id): seq<Id>
    requires x in s
  {
    var i := IndexOf(s, x);
    s[..i] + s[i + 1..]
  }

  function CloseAccount(org: Org, rules: Settings, quotaExceeded: bool, id: Id): Effect
  {
    var p := org.places;
    if quotaExceeded then Refuse(org, CloseQuotaExceeded)
    else if id !in p.accounts then Refuse(org, AccountNotFound)
    else if id == rules.managementAccount then Refuse(org, ManagementAccount)
    else if p.accounts[id].suspended then Refuse(org, AlreadyClosed)
    else Effect(org.(places := p.(accounts := p.accounts[id := p.accounts[id].(suspended := true)])), Done)
  }

  // ---------------------------------------------------------------------------------------------
  // Runs of calls

  datatype Call =
    | Create(email: string, accountName: string, tags: seq<Tag>)
    | Poll(request: Id)
    | Move(within: Option<Id>, account: Id, source: Option<Id>, to: Id)
    | NewOU(within: Option<Id>, parent: Id, ouName: string, tags: seq<Tag>)
    | NewPolicy(serviceControl: bool, policy: PolicyData, tags: seq<Tag>)
    | Update(gate: string, id: Id, name: Option<string>, content: Option<string>, description: Option<string>)
    | Attach(gate: string, attachable: set<Id>, id: Id, target: Id)
    | TagIt(gate: string, resource: Id, tags: seq<Tag>)
    | Detach(gate: string, id: Id, target: Id)
    | Shut(quotaExceeded: bool, account: Id)
    | FailNextCreate(reason: string)

  function Apply(org: Org, rules: Settings, call: Call): Effect
  {
    match call
    case Create(email, name, tags) => CreateAccount(org, rules, email, name, tags)
    case Poll(request) => DescribeCreateAccountStatus(org, request)
    case Move(within, account, source, to) => MoveAccount(org, rules, within, account, source, to)
    case NewOU(within, parent, name, tags) => CreateOrganizationalUnit(org, within, parent, name, tags)
    case NewPolicy(scp, policy, tags) => CreatePolicy(org, rules, scp, policy, tags)
    case Update(gate, id, name, content, description) => UpdatePolicy(org, rules, gate, id, name, content, description)
    case Attach(gate, attachable, id, target) => AttachPolicy(org, rules, gate, attachable, id, target)
    case TagIt(gate, id, tags) => TagResource(org, gate, id, tags)
    case Detach(gate, id, target) => DetachPolicy(org, gate, id, target)
    case Shut(quotaExceeded, account) => CloseAccount(org, rules, quotaExceeded, account)
    case FailNextCreate(reason) => Effect(org.(requests := org.requests.(failNext := reason)), Done)
  }

  function Run(org: Org, rules: Settings, calls: seq<Call>): Org
    decreases |calls|
  {
    if calls == [] then org else Run(Apply(org, rules, calls[0]).org, rules, calls[1..])
  }
}
