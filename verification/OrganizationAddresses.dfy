/** Account addresses: the service checks them when an account is asked for, not when it appears. */
module OrganizationAddresses {
  import opened Organization
  import opened OrganizationRequests

  /** The request will turn into an account. */
  predicate InFlight(r: RequestData)
  {
    r.progress.InProgress? && r.failure == ""
  }

  predicate AddressesDiffer(org: Org)
  {
    forall a, b | a in org.places.accounts && b in org.places.accounts && a != b ::
      org.places.accounts[a].email != org.places.accounts[b].email
  }

  /** The account has the address. */
  predicate Has(org: Org, account: Id, email: string)
  {
    account in org.places.accounts && org.places.accounts[account].email == email
  }

  /** The addresses the service knows are those of the accounts. */
  ghost predicate AddressesKnown(org: Org)
  {
    (forall a | a in org.places.accounts :: org.places.accounts[a].email in org.requests.emails)
    && forall e | e in org.requests.emails :: exists a :: Has(org, a, e)
  }

  /** No two requests in flight are for one address, and none is for an address an account has. */
  predicate Clear(org: Org)
  {
    var known := org.requests.known;
    (forall x | x in known && InFlight(known[x]) :: known[x].email !in org.requests.emails)
    && forall x, y | x in known && y in known && x != y && InFlight(known[x]) && InFlight(known[y]) ::
         known[x].email != known[y].email
  }

  ghost predicate Accounted(org: Org)
  {
    Paired(org) && AddressesKnown(org)
  }

  // ---------------------------------------------------------------------------------------------
  // What calls keep

  lemma OthersKeepAddresses(org: Org, rules: Settings, call: Call)
    requires !call.Poll?
    ensures var after := Apply(org, rules, call).org;
            after.requests.emails == org.requests.emails && SameAccounts(org.places, after.places)
  {
    hide GateOpen, TagsToMap, CountLevels, InSubtree, TagsAdmitted, NameTaken, PolicyNameTaken, IndexOf, FitsLimit;
  }

  lemma SameAccountsKnown(before: Org, after: Org)
    requires AddressesKnown(before) && SameAccounts(before.places, after.places)
    requires before.requests.emails == after.requests.emails
    ensures AddressesKnown(after)
    ensures AddressesDiffer(before) ==> AddressesDiffer(after)
  {
    forall e | e in after.requests.emails
      ensures exists a :: Has(after, a, e)
    {
      var a :| Has(before, a, e);
      assert Has(after, a, e);
    }
  }

  lemma MaterializeKnown(org: Org, id: Id)
    requires Accounted(org) && Completes(org, id)
    ensures AddressesKnown(Materialize(org, id))
  {
    hide RequestOk, OneRequestEach, AllCameFrom;
    var after := Materialize(org, id);
    var account := Account(org.places.nextAccount + 1);
    assert account !in org.places.accounts;
    assert Has(after, account, org.requests.known[id].email);
    forall e | e in after.requests.emails
      ensures exists a :: Has(after, a, e)
    {
      if e in org.requests.emails {
        var a :| Has(org, a, e);
        assert Has(after, a, e);
      }
    }
  }

  lemma MaterializeKeeps(org: Org, id: Id)
    requires Accounted(org) && Completes(org, id) && AddressesDiffer(org) && Clear(org)
    ensures AddressesDiffer(Materialize(org, id))
    ensures Clear(Materialize(org, id))
  {
    hide RequestOk, OneRequestEach, AllCameFrom;
    assert Account(org.places.nextAccount + 1) !in org.places.accounts;
  }

  lemma WaitedKeeps(org: Org, id: Id)
    requires AddressesKnown(org) && id in org.requests.known && !Completes(org, id)
    ensures var after := DescribeCreateAccountStatus(org, id).org;
            AddressesKnown(after) && (AddressesDiffer(org) ==> AddressesDiffer(after)) && (Clear(org) ==> Clear(after))
  {
    var after := DescribeCreateAccountStatus(org, id).org;
    var r, w := org.requests.known[id], after.requests.known[id];
    assert w.email == r.email && (InFlight(w) <==> InFlight(r));
    SameAccountsKnown(org, after);
    if Clear(org) {
      WaitedIsClear(org, after, id);
    }
  }

  lemma WaitedIsClear(org: Org, after: Org, id: Id)
    requires Clear(org) && id in org.requests.known && after.requests.emails == org.requests.emails
    requires after.requests.known.Keys == org.requests.known.Keys
    requires forall x | x in org.requests.known ::
               after.requests.known[x].email == org.requests.known[x].email
               && (InFlight(after.requests.known[x]) <==> InFlight(org.requests.known[x]))
    ensures Clear(after)
  {
    hide InFlight;
  }

  lemma CallKeepsAccounted(org: Org, rules: Settings, call: Call)
    requires Accounted(org)
    ensures Accounted(Apply(org, rules, call).org)
  {
    hide Paired, AddressesKnown, AddressesDiffer, Clear, Materialize, DescribeCreateAccountStatus, SameAccounts;
    var after := Apply(org, rules, call).org;
    CallKeepsPairs(org, rules, call);
    if call.Poll? {
      PollKeepsAddresses(org, call.request);
    } else {
      OthersKeepAddresses(org, rules, call);
      SameAccountsKnown(org, after);
    }
  }

  lemma PollKeepsAddresses(org: Org, id: Id)
    requires Accounted(org)
    ensures var after := DescribeCreateAccountStatus(org, id).org;
            AddressesKnown(after)
            && (AddressesDiffer(org) && Clear(org) ==> AddressesDiffer(after) && Clear(after))
  {
    hide Paired, AddressesKnown, AddressesDiffer, Clear, Materialize;
    if Completes(org, id) {
      MaterializeKnown(org, id);
      if AddressesDiffer(org) && Clear(org) {
        MaterializeKeeps(org, id);
      }
    } else if id in org.requests.known {
      WaitedKeeps(org, id);
    }
  }

  /** The call asks for no address that a request in flight is for. */
  predicate Fresh(org: Org, call: Call)
  {
    call.Create? ==>
      forall x | x in org.requests.known && InFlight(org.requests.known[x]) :: org.requests.known[x].email != call.email
  }

  lemma CreateKeepsClear(org: Org, rules: Settings, call: Call)
    requires call.Create? && Fresh(org, call) && Clear(org)
    ensures Clear(Apply(org, rules, call).org)
  {
    hide TagsAdmitted, TagsToMap;
  }

  lemma OthersKeepClear(org: Org, rules: Settings, call: Call)
    requires !call.Create? && !call.Poll? && Clear(org)
    ensures Clear(Apply(org, rules, call).org)
  {
    hide Apply, Clear;
    OtherCallsKeepAccounts(org, rules, call);
    OthersKeepAddresses(org, rules, call);
    SameClear(org, Apply(org, rules, call).org);
  }

  lemma SameClear(before: Org, after: Org)
    requires Clear(before) && before.requests.known == after.requests.known
             && before.requests.emails == after.requests.emails
    ensures Clear(after)
  {
  }

  lemma CallKeepsAddresses(org: Org, rules: Settings, call: Call)
    requires Accounted(org) && AddressesDiffer(org) && Clear(org) && Fresh(org, call)
    ensures var after := Apply(org, rules, call).org;
            Accounted(after) && AddressesDiffer(after) && Clear(after)
  {
    hide Paired, AddressesKnown, AddressesDiffer, Clear, DescribeCreateAccountStatus, SameAccounts, Fresh;
    CallKeepsAccounted(org, rules, call);
    if call.Poll? {
      PollKeepsAddresses(org, call.request);
    } else {
      OthersKeepAddresses(org, rules, call);
      SameAccountsKnown(org, Apply(org, rules, call).org);
      if call.Create? {
        CreateKeepsClear(org, rules, call);
      } else {
        OthersKeepClear(org, rules, call);
      }
    }
  }

  predicate AllFresh(org: Org, rules: Settings, calls: seq<Call>)
    decreases |calls|
  {
    calls == [] || (Fresh(org, calls[0]) && AllFresh(Apply(org, rules, calls[0]).org, rules, calls[1..]))
  }

  /** Runs that never ask for an address while a request for it is in flight keep all addresses distinct. */
  lemma {:induction false} FreshRunsKeepAddresses(org: Org, rules: Settings, calls: seq<Call>)
    requires Accounted(org) && AddressesDiffer(org) && Clear(org) && AllFresh(org, rules, calls)
    ensures var after := Run(org, rules, calls);
            Accounted(after) && AddressesDiffer(after) && Clear(after)
    decreases |calls|
  {
    hide Accounted, AddressesDiffer, Clear, Apply, Fresh;
    if calls != [] {
      CallKeepsAddresses(org, rules, calls[0]);
      FreshRunsKeepAddresses(Apply(org, rules, calls[0]).org, rules, calls[1..]);
    }
  }

  lemma {:induction false} RunsKeepAccounted(org: Org, rules: Settings, calls: seq<Call>)
    requires Accounted(org)
    ensures Accounted(Run(org, rules, calls))
    decreases |calls|
  {
    hide Accounted, Apply;
    if calls != [] {
      CallKeepsAccounted(org, rules, calls[0]);
      RunsKeepAccounted(Apply(org, rules, calls[0]).org, rules, calls[1..]);
    }
  }

  lemma EmptyIsAccounted()
    ensures Accounted(EmptyOrg()) && AddressesDiffer(EmptyOrg()) && Clear(EmptyOrg())
  {
  }

  lemma FreshRunsFromTheStart(rules: Settings, calls: seq<Call>)
    requires AllFresh(EmptyOrg(), rules, calls)
    ensures AddressesDiffer(Run(EmptyOrg(), rules, calls))
  {
    hide Run, AllFresh;
    EmptyIsAccounted();
    FreshRunsKeepAddresses(EmptyOrg(), rules, calls);
  }

  // ---------------------------------------------------------------------------------------------
  // Seeing a request through

  function Polling(id: Id, n: nat): seq<Call>
  {
    if n == 0 then [] else [Poll(id)] + Polling(id, n - 1)
  }

  predicate AllPolls(calls: seq<Call>)
  {
    forall call | call in calls :: call.Poll?
  }

  lemma {:induction false} PollingPolls(id: Id, n: nat)
    ensures AllPolls(Polling(id, n)) && Polls(Polling(id, n), id) == n
  {
    if n > 0 {
      PollingPolls(id, n - 1);
      assert Polling(id, n)[1..] == Polling(id, n - 1);
    }
  }

  /** Polling one request leaves what another asks for, and all of it, alone. */
  lemma {:induction false} PollingKeeps(org: Org, rules: Settings, id: Id, n: nat, other: Id)
    requires id in org.requests.known && other in org.requests.known
    ensures var after := Run(org, rules, Polling(id, n)).requests;
            other in after.known && (other != id ==> after.known[other] == org.requests.known[other])
            && after.known[other].email == org.requests.known[other].email
            && after.known[other].failure == org.requests.known[other].failure
    decreases n
  {
    if n > 0 {
      var after := Apply(org, rules, Poll(id)).org;
      assert Polling(id, n)[1..] == Polling(id, n - 1);
      assert Run(org, rules, Polling(id, n)) == Run(after, rules, Polling(id, n - 1));
      OnePollKeeps(org, rules, id, other);
      OnePollKeeps(org, rules, id, id);
      PollingKeeps(after, rules, id, n - 1, other);
    }
  }

  lemma OnePollKeeps(org: Org, rules: Settings, id: Id, other: Id)
    requires id in org.requests.known && other in org.requests.known
    ensures var after := Apply(org, rules, Poll(id)).org.requests;
            other in after.known && (other != id ==> after.known[other] == org.requests.known[other])
            && after.known[other].email == org.requests.known[other].email
            && after.known[other].failure == org.requests.known[other].failure
  {
  }

  /** Polled long enough, a request in flight has become an account with its address. */
  lemma SeenThrough(org: Org, rules: Settings, id: Id)
    requires Accounted(org) && id in org.requests.known && InFlight(org.requests.known[id])
    ensures var r := org.requests.known[id];
            var after := Run(org, rules, Polling(id, CallsLeft(r)));
            Accounted(after) && id in after.requests.known && after.requests.known[id].account.Some?
            && Has(after, after.requests.known[id].account.value, r.email)
  {
    var r := org.requests.known[id];
    var n := CallsLeft(r);
    var after := Run(org, rules, Polling(id, n));
    PollingPolls(id, n);
    assert RequestOk(org, id);
    RequestsEnd(org, rules, Polling(id, n), id);
    PollingKeeps(org, rules, id, n, id);
    RunsKeepAccounted(org, rules, Polling(id, n));
    assert RequestOk(after, id);
  }

  lemma {:induction false} RunJoin(org: Org, rules: Settings, a: seq<Call>, b: seq<Call>)
    ensures Run(org, rules, a + b) == Run(Run(org, rules, a), rules, b)
    decreases |a|
  {
    if a == [] {
      assert a + b == b;
    } else {
      assert (a + b)[1..] == a[1..] + b;
      RunJoin(Apply(org, rules, a[0]).org, rules, a[1..], b);
    }
  }

  /** Two requests with accounts have different ones. */
  lemma OwnAccounts(org: Org, x: Id, y: Id)
    requires Paired(org) && x in org.requests.known && y in org.requests.known && x != y
    requires org.requests.known[x].account.Some? && org.requests.known[y].account.Some?
    ensures org.requests.known[x].account != org.requests.known[y].account
  {
  }

  lemma NotDifferent(org: Org, a: Id, b: Id, email: string)
    requires a != b && Has(org, a, email) && Has(org, b, email)
    ensures !AddressesDiffer(org)
  {
  }

  lemma AccountOf(org: Org, id: Id)
    requires Paired(org) && id in org.requests.known && org.requests.known[id].account.Some?
    ensures Has(org, org.requests.known[id].account.value, org.requests.known[id].email)
  {
    assert RequestOk(org, id);
  }

  /** A request in flight for an address that an account has ends in a second account with it. */
  lemma TakenRepeats(org: Org, rules: Settings, x: Id)
    requires Accounted(org) && x in org.requests.known && InFlight(org.requests.known[x])
    requires org.requests.known[x].email in org.requests.emails
    ensures !AddressesDiffer(Run(org, rules, Polling(x, CallsLeft(org.requests.known[x]))))
  {
    hide Run, RequestOk, OneRequestEach;
    var known := org.requests.known;
    var b :| Has(org, b, known[x].email);
    var z :| CameFrom(known, b, z);
    assert RequestOk(org, x);
    NoAccountYet(org, x);
    AccountOf(org, z);
    var n := CallsLeft(known[x]);
    var after := Run(org, rules, Polling(x, n));
    SeenThrough(org, rules, x);
    PollingKeeps(org, rules, x, n, z);
    OwnAccounts(after, x, z);
    AccountOf(after, z);
    NotDifferent(after, after.requests.known[x].account.value, b, known[x].email);
  }

  lemma NoAccountYet(org: Org, x: Id)
    requires Paired(org) && x in org.requests.known && InFlight(org.requests.known[x])
    ensures org.requests.known[x].account.None?
  {
    assert RequestOk(org, x);
  }

  /** Two requests in flight for one address both become accounts. */
  lemma TwoRepeat(org: Org, rules: Settings, x: Id, y: Id)
    requires Accounted(org) && x in org.requests.known && y in org.requests.known && x != y
    requires InFlight(org.requests.known[x]) && InFlight(org.requests.known[y])
    requires org.requests.known[x].email == org.requests.known[y].email
    ensures exists calls :: AllPolls(calls) && !AddressesDiffer(Run(org, rules, calls))
  {
    hide Run, Paired, AddressesKnown, AddressesDiffer, CallsLeft;
    var m, n := CallsLeft(org.requests.known[x]), CallsLeft(org.requests.known[y]);
    var mid := Run(org, rules, Polling(x, m));
    SeenThrough(org, rules, x);
    PollingKeeps(org, rules, x, m, y);
    PollingKeeps(org, rules, x, m, x);
    var after := Run(mid, rules, Polling(y, n));
    SeenThrough(mid, rules, y);
    PollingKeeps(mid, rules, y, n, x);
    OwnAccounts(after, x, y);
    AccountOf(after, x);
    NotDifferent(after, after.requests.known[x].account.value, after.requests.known[y].account.value,
                 org.requests.known[x].email);
    PollingPolls(x, m);
    PollingPolls(y, n);
    RunJoin(org, rules, Polling(x, m), Polling(y, n));
    assert AllPolls(Polling(x, m) + Polling(y, n));
  }

  lemma {:induction false} PollsAreFresh(org: Org, rules: Settings, calls: seq<Call>)
    requires AllPolls(calls)
    ensures AllFresh(org, rules, calls)
    decreases |calls|
  {
    hide Apply;
    if calls != [] {
      assert calls[0] in calls;
      PollsAreFresh(Apply(org, rules, calls[0]).org, rules, calls[1..]);
    }
  }

  /** Addresses stay distinct, however the pending requests are polled, if and only if no two requests in
      flight are for one address and none is for an address that is taken. */
  lemma PollsKeepAddressesExactly(org: Org, rules: Settings)
    requires Accounted(org) && AddressesDiffer(org)
    ensures (forall calls | AllPolls(calls) :: AddressesDiffer(Run(org, rules, calls))) <==> Clear(org)
  {
    hide Run, Accounted, AddressesDiffer, AllPolls, AllFresh, InFlight;
    if Clear(org) {
      forall calls | AllPolls(calls)
        ensures AddressesDiffer(Run(org, rules, calls))
      {
        PollsAreFresh(org, rules, calls);
        FreshRunsKeepAddresses(org, rules, calls);
      }
    } else {
      var known := org.requests.known;
      if x :| x in known && InFlight(known[x]) && known[x].email in org.requests.emails {
        PollingPolls(x, CallsLeft(known[x]));
        TakenRepeats(org, rules, x);
      } else {
        var x, y :| x in known && y in known && x != y && InFlight(known[x]) && InFlight(known[y])
                    && known[x].email == known[y].email;
        TwoRepeat(org, rules, x, y);
      }
    }
  }

  /** From an empty organization: two creates for one address, one after the other, and then status calls,
      lead to two accounts with that address. */
  lemma AddressesMayRepeat(rules: Settings, email: string, name: string, tags: seq<Tag>)
    requires TagsAdmitted(rules, TagsToMap(tags))
    ensures exists polls :: AllPolls(polls)
              && !AddressesDiffer(Run(EmptyOrg(), rules,
                                       [Create(email, name, tags), Create(email, name, tags)] + polls))
  {
    var call := Create(email, name, tags);
    var one := Apply(EmptyOrg(), rules, call).org;
    var two := Apply(one, rules, call).org;
    var x, y := Request(1), Request(2);
    assert x in two.requests.known && y in two.requests.known;
    assert InFlight(two.requests.known[x]) && InFlight(two.requests.known[y]);
    TwoCalls(EmptyOrg(), rules, call, call);
    EmptyIsAccounted();
    hide Run, Accounted, AddressesDiffer, Apply, TagsAdmitted, TagsToMap;
    RunsKeepAccounted(EmptyOrg(), rules, [call, call]);
    TwoRepeat(two, rules, x, y);
    var polls :| AllPolls(polls) && !AddressesDiffer(Run(two, rules, polls));
    RunJoin(EmptyOrg(), rules, [call, call], polls);
  }

  lemma TwoCalls(org: Org, rules: Settings, first: Call, second: Call)
    ensures Run(org, rules, [first, second]) == Apply(Apply(org, rules, first).org, rules, second).org
  {
    hide Apply;
    var one := Apply(org, rules, first).org;
    assert [first, second][1..] == [second];
    assert Run(org, rules, [first, second]) == Run(one, rules, [second]);
    assert Run(one, rules, [second]) == Run(Apply(one, rules, second).org, rules, [second][1..]);
  }
}
