/** Requests for accounts: each ends in time and for good, and accounts and succeeded requests pair off. */
module OrganizationRequests {
  import opened Options
  import opened Organization

  // ---------------------------------------------------------------------------------------------
  // Ending

  /** How many more status calls a request takes to end. */
  function CallsLeft(r: RequestData): nat
  {
    if !r.progress.InProgress? then 0 else if r.pollsLeft > 0 then r.pollsLeft + 1 else 1
  }

  predicate Ended(r: RequestData)
  {
    !r.progress.InProgress?
  }

  function Polls(calls: seq<Call>, id: Id): nat
    decreases |calls|
  {
    if calls == [] then 0 else (if calls[0] == Poll(id) then 1 else 0) + Polls(calls[1..], id)
  }

  /** What a call does to a request made earlier. */
  lemma CallOnRequest(org: Org, rules: Settings, call: Call, id: Id)
    requires id in org.requests.known && id.Request? && id.n <= org.requests.next
    ensures var r := org.requests.known[id];
            var after := Apply(org, rules, call).org.requests;
            id in after.known && id.n <= after.next
            && var q := after.known[id];
            (Ended(r) ==> q == r)
            && CallsLeft(q) == (if call == Poll(id) && CallsLeft(r) > 0 then CallsLeft(r) - 1 else CallsLeft(r))
  {
    hide GateOpen, TagsToMap, CountLevels, InSubtree, TagsAdmitted, NameTaken, PolicyNameTaken, IndexOf, FitsLimit;
  }

  /** A request ends after as many status calls as its poll budget and one more, counted over the whole
      run whatever else is called, and then never changes. */
  lemma {:induction false} RequestsEnd(org: Org, rules: Settings, calls: seq<Call>, id: Id)
    requires id in org.requests.known && id.Request? && id.n <= org.requests.next
    ensures var r := org.requests.known[id];
            var after := Run(org, rules, calls).requests;
            id in after.known
            && (Ended(r) ==> after.known[id] == r)
            && CallsLeft(after.known[id])
               == (if Polls(calls, id) >= CallsLeft(r) then 0 else CallsLeft(r) - Polls(calls, id))
            && (Ended(after.known[id]) <==> Polls(calls, id) >= CallsLeft(r))
    decreases |calls|
  {
    hide Apply;
    if calls != [] {
      CallOnRequest(org, rules, calls[0], id);
      RequestsEnd(Apply(org, rules, calls[0]).org, rules, calls[1..], id);
    }
  }

  // ---------------------------------------------------------------------------------------------
  // Accounts and the requests they come from

  /** A request and what became of it agree. */
  predicate RequestOk(org: Org, id: Id)
    requires id in org.requests.known
  {
    var r := org.requests.known[id];
    id.Request? && id.n <= org.requests.next
    && match r.progress
       case InProgress => r.account.None?
       case Failed => r.account.None? && r.failure != ""
       case Succeeded =>
         r.failure == "" && r.account.Some? && r.account.value in org.places.accounts
         && org.places.accounts[r.account.value].name == r.name
         && org.places.accounts[r.account.value].email == r.email
  }

  predicate OneRequestEach(known: map<Id, RequestData>)
  {
    forall a, b | a in known && b in known && a != b && known[a].account.Some? ::
      known[a].account != known[b].account
  }

  /** The account came from this request. */
  predicate CameFrom(known: map<Id, RequestData>, account: Id, id: Id)
  {
    id in known && known[id].account == Some(account)
  }

  ghost predicate AllCameFrom(org: Org)
  {
    forall account | account in org.places.accounts :: exists id :: CameFrom(org.requests.known, account, id)
  }

  predicate AccountsNumbered(p: Places)
  {
    forall account | account in p.accounts :: account.Account? && account.n <= p.nextAccount
  }

  ghost predicate Paired(org: Org)
  {
    (forall id | id in org.requests.known :: RequestOk(org, id))
    && OneRequestEach(org.requests.known) && AllCameFrom(org) && AccountsNumbered(org.places)
  }

  /** The same accounts, up to being closed, and the same outcomes of requests. */
  predicate SameAccounts(p: Places, q: Places)
  {
    p.accounts.Keys == q.accounts.Keys && p.nextAccount == q.nextAccount
    && forall a | a in p.accounts :: a in q.accounts
         && p.accounts[a].name == q.accounts[a].name && p.accounts[a].email == q.accounts[a].email
  }

  lemma SameAccountsKeepPairs(before: Org, after: Org)
    requires Paired(before) && SameAccounts(before.places, after.places)
    requires before.requests.known == after.requests.known && before.requests.next == after.requests.next
    ensures Paired(after)
  {
    forall id | id in after.requests.known
      ensures RequestOk(after, id)
    {
      assert RequestOk(before, id);
    }
    assert AccountsNumbered(after.places);
    forall account | account in after.places.accounts
      ensures exists id :: CameFrom(after.requests.known, account, id)
    {
      assert account in before.places.accounts;
    }
  }

  /** Adding or changing one request that has no account. */
  lemma PendingKeepsPairs(before: Org, after: Org, id: Id, r: RequestData)
    requires Paired(before) && before.places == after.places && before.requests.next <= after.requests.next
    requires after.requests.known == before.requests.known[id := r]
    requires id in before.requests.known ==> before.requests.known[id].account.None?
    requires r.account.None? && RequestOk(after, id)
    ensures Paired(after)
  {
    forall other | other in after.requests.known
      ensures RequestOk(after, other)
    {
      if other != id {
        assert RequestOk(before, other);
      }
    }
    forall account | account in after.places.accounts
      ensures exists other :: CameFrom(after.requests.known, account, other)
    {
      var other :| CameFrom(before.requests.known, account, other);
      assert CameFrom(after.requests.known, account, other);
    }
  }

  /** Completing a request. */
  lemma MaterializeKeepsPairs(org: Org, id: Id)
    requires Paired(org) && Completes(org, id)
    ensures Paired(Materialize(org, id))
  {
    var after := Materialize(org, id);
    var account := Account(org.places.nextAccount + 1);
    var before, known := org.requests.known, after.requests.known;
    assert RequestOk(org, id);
    assert account !in org.places.accounts;
    forall other | other in before
      ensures before[other].account != Some(account)
    {
      assert RequestOk(org, other);
    }
    forall other | other in known
      ensures RequestOk(after, other)
    {
      if other != id {
        assert RequestOk(org, other);
      }
    }
    OneMoreAccount(before, known, id, account);
    forall a | a in after.places.accounts
      ensures exists other :: CameFrom(known, a, other)
    {
      if a == account {
        assert CameFrom(known, a, id);
      } else {
        var other :| CameFrom(before, a, other);
        assert CameFrom(known, a, other);
      }
    }
  }

  lemma OneMoreAccount(before: map<Id, RequestData>, after: map<Id, RequestData>, id: Id, account: Id)
    requires OneRequestEach(before) && id in before && id in after && after == before[id := after[id]]
    requires after[id].account == Some(account)
    requires forall other | other in before :: before[other].account != Some(account)
    ensures OneRequestEach(after)
  {
  }

  lemma CreateKeepsPairs(org: Org, rules: Settings, email: string, name: string, tags: seq<Tag>)
    requires Paired(org)
    ensures Paired(CreateAccount(org, rules, email, name, tags).org)
  {
    hide Paired, TagsAdmitted, TagsToMap;
    var after := CreateAccount(org, rules, email, name, tags).org;
    var id := Request(org.requests.next + 1);
    if after != org {
      NewRequestIsNew(org);
      PendingKeepsPairs(org, after, id, after.requests.known[id]);
    }
  }

  lemma NewRequestIsNew(org: Org)
    requires Paired(org)
    ensures Request(org.requests.next + 1) !in org.requests.known
  {
    assert forall id | id in org.requests.known :: RequestOk(org, id);
  }

  lemma PollKeepsPairs(org: Org, id: Id)
    requires Paired(org)
    ensures Paired(DescribeCreateAccountStatus(org, id).org)
  {
    hide Paired, Materialize;
    if Completes(org, id) {
      MaterializeKeepsPairs(org, id);
    } else if id in org.requests.known {
      var after := DescribeCreateAccountStatus(org, id).org;
      KnownRequestOk(org, id);
      if Ended(org.requests.known[id]) {
        assert after.requests.known == org.requests.known;
        SameAccountsKeepPairs(org, after);
      } else {
        PendingKeepsPairs(org, after, id, Waited(org.requests.known[id]));
      }
    }
  }

  lemma KnownRequestOk(org: Org, id: Id)
    requires Paired(org) && id in org.requests.known
    ensures RequestOk(org, id)
  {
  }

  lemma OtherCallsKeepAccounts(org: Org, rules: Settings, call: Call)
    requires !call.Create? && !call.Poll?
    ensures var after := Apply(org, rules, call).org;
            SameAccounts(org.places, after.places)
            && org.requests.known == after.requests.known && org.requests.next == after.requests.next
  {
    hide GateOpen, TagsToMap, CountLevels, InSubtree, TagsAdmitted, NameTaken, PolicyNameTaken, IndexOf, FitsLimit;
  }

  lemma CallKeepsPairs(org: Org, rules: Settings, call: Call)
    requires Paired(org)
    ensures Paired(Apply(org, rules, call).org)
  {
    hide Paired, CreateAccount, DescribeCreateAccountStatus, MoveAccount, CreateOrganizationalUnit, CreatePolicy,
      UpdatePolicy, AttachPolicy, TagResource, DetachPolicy, CloseAccount, SameAccounts;
    match call
    case Create(email, name, tags) => CreateKeepsPairs(org, rules, email, name, tags);
    case Poll(id) => PollKeepsPairs(org, id);
    case _ =>
      OtherCallsKeepAccounts(org, rules, call);
      SameAccountsKeepPairs(org, Apply(org, rules, call).org);
  }

  /** Over any run, the accounts and the succeeded requests pair off: each succeeded request has its own
      account with its name and address, each account has one request, and failed ones have none. */
  lemma {:induction false} RunsKeepPairs(org: Org, rules: Settings, calls: seq<Call>)
    requires Paired(org)
    ensures Paired(Run(org, rules, calls))
    decreases |calls|
  {
    hide Paired, Apply;
    if calls != [] {
      CallKeepsPairs(org, rules, calls[0]);
      RunsKeepPairs(Apply(org, rules, calls[0]).org, rules, calls[1..]);
    }
  }

  /** The requests that succeeded, and the map from each to its account. */
  function SucceededRequests(org: Org): set<Id>
  {
    set id | id in org.requests.known && org.requests.known[id].progress.Succeeded?
  }

  lemma AccountsAreSucceededRequests(rules: Settings, calls: seq<Call>)
    ensures var org := Run(EmptyOrg(), rules, calls);
            var done := SucceededRequests(org);
            (forall id | id in done :: org.requests.known[id].account.Some?)
            && (set id | id in done :: org.requests.known[id].account.value) == org.places.accounts.Keys
            && |done| == |org.places.accounts|
            && (forall id | id in org.requests.known && id !in done :: org.requests.known[id].account.None?)
  {
    hide Run;
    var org := Run(EmptyOrg(), rules, calls);
    RunsKeepPairs(EmptyOrg(), rules, calls);
    var known, done := org.requests.known, SucceededRequests(org);
    forall id | id in known
      ensures id in done <==> known[id].account.Some?
      ensures id in done ==> known[id].account.value in org.places.accounts
    {
      assert RequestOk(org, id);
    }
    var accounts := set id | id in done :: known[id].account.value;
    forall account | account in org.places.accounts
      ensures account in accounts
    {
      var id :| CameFrom(known, account, id);
      assert id in done && known[id].account.value == account;
    }
    assert accounts == org.places.accounts.Keys;
    ImageSize(known, done);
  }

  lemma {:induction false} ImageSize(known: map<Id, RequestData>, ids: set<Id>)
    requires OneRequestEach(known)
    requires forall id | id in ids :: id in known && known[id].account.Some?
    ensures |set id | id in ids :: known[id].account.value| == |ids|
  {
    var image := set id | id in ids :: known[id].account.value;
    if ids != {} {
      var id :| id in ids;
      var rest := ids - {id};
      var account := known[id].account.value;
      ImageSize(known, rest);
      var smaller := set i | i in rest :: known[i].account.value;
      assert account !in smaller;
      assert image == smaller + {account};
    }
  }
}
