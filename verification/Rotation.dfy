/** Evidence rotation: an account's records as a chain of files, each closed one naming the next. */
module Rotation {
  import opened Options
  import opened Decimals

  /** A record of an operation, or one of the two that end a manifest. */
  datatype Record = Entry(text: string) | Custody | Rotate(successor: string, count: nat)

  /** A file: a readable manifest about an account, or something that does not load. */
  datatype File = Manifest(account: string, records: seq<Record>) | Junk

  type Files = map<string, File>

  function Last<T>(s: seq<T>): T
    requires s != []
  {
    s[|s| - 1]
  }

  predicate Closed(records: seq<Record>)
  {
    records != [] && !Last(records).Entry?
  }

  /** The manifest names a file to continue at. */
  predicate PointsOn(records: seq<Record>)
  {
    records != [] && Last(records).Rotate? && Last(records).successor != ""
  }

  /** Opening a name: a new manifest if nothing is there, what is there if it is not about another account. */
  function Load(files: Files, account: string, key: string): (m: Option<File>)
    ensures m.Some? ==> m.value.Manifest?
  {
    if key !in files then Some(Manifest(account, []))
    else if files[key].Junk? then None
    else if files[key].account != "" && account != "" && files[key].account != account then None
    else Some(files[key])
  }

  // ---------------------------------------------------------------------------------------------
  // Following pointers

  /** One turn of the opening loop: the next name, if the manifest at this one points on. */
  function Hop(files: Files, account: string, key: string): Option<string>
  {
    var m := Load(files, account, key);
    if m.Some? && PointsOn(m.value.records) then Some(Last(m.value.records).successor) else None
  }

  /** The loop started at key stops after exactly n turns. */
  predicate StopsAfter(files: Files, account: string, key: string, n: nat)
    decreases n
  {
    var next := Hop(files, account, key);
    if n == 0 then next.None? else next.Some? && StopsAfter(files, account, next.value, n - 1)
  }

  datatype Trail = Trail(names: seq<string>, stops: bool)

  /** The names the loop visits, up to where it stops or comes back to a name it has seen. */
  function Follow(files: Files, account: string, key: string, unseen: set<string>): (t: Trail)
    ensures t.names != [] && t.names[0] == key
    decreases unseen
  {
    var next := Hop(files, account, key);
    if next.None? then Trail([key], true)
    else if key !in unseen then Trail([key], false)
    else
      var rest := Follow(files, account, next.value, unseen - {key});
      Trail([key] + rest.names, rest.stops)
  }

  /** The trail of an account: it starts at the file named by the account. */
  function AccountTrail(files: Files, account: string): Trail
  {
    Follow(files, account, account, files.Keys)
  }

  lemma {:induction false} StopsOnce(files: Files, account: string, key: string, m: nat, n: nat)
    requires StopsAfter(files, account, key, m) && StopsAfter(files, account, key, n)
    ensures m == n
    decreases n
  {
    if m > 0 && n > 0 {
      StopsOnce(files, account, Hop(files, account, key).value, m - 1, n - 1);
    }
  }

  /** Where the loop is after j turns. */
  function Reached(files: Files, account: string, key: string, j: nat): string
    decreases j
  {
    var next := Hop(files, account, key);
    if j == 0 || next.None? then key else Reached(files, account, next.value, j - 1)
  }

  lemma {:induction false} TurnsLeft(files: Files, account: string, key: string, n: nat, j: nat)
    requires StopsAfter(files, account, key, n) && j <= n
    ensures StopsAfter(files, account, Reached(files, account, key, j), n - j)
    decreases j
  {
    if j > 0 {
      TurnsLeft(files, account, Hop(files, account, key).value, n - 1, j - 1);
    }
  }

  /** A loop that stops is never at the same name twice. */
  lemma NeverRevisits(files: Files, account: string, key: string, n: nat, i: nat, j: nat)
    requires StopsAfter(files, account, key, n) && i < j <= n
    ensures Reached(files, account, key, i) != Reached(files, account, key, j)
  {
    TurnsLeft(files, account, key, n, i);
    TurnsLeft(files, account, key, n, j);
    if Reached(files, account, key, i) == Reached(files, account, key, j) {
      StopsOnce(files, account, Reached(files, account, key, j), n - i, n - j);
    }
  }

  lemma {:induction false} StoppingTrail(files: Files, account: string, key: string, unseen: set<string>, n: nat)
    requires StopsAfter(files, account, key, n)
    requires forall j: nat | j < n :: Reached(files, account, key, j) in unseen
    ensures Follow(files, account, key, unseen).stops
    decreases n
  {
    if n > 0 {
      assert Reached(files, account, key, 0) == key;
      var next := Hop(files, account, key).value;
      forall j: nat | j < n - 1
        ensures Reached(files, account, next, j) in unseen - {key}
      {
        assert Reached(files, account, next, j) == Reached(files, account, key, j + 1);
        NeverRevisits(files, account, key, n, 0, j + 1);
      }
      StoppingTrail(files, account, next, unseen - {key}, n - 1);
    }
  }

  lemma {:induction false} TrailStops(files: Files, account: string, key: string, unseen: set<string>)
    requires Follow(files, account, key, unseen).stops
    ensures StopsAfter(files, account, key, |Follow(files, account, key, unseen).names| - 1)
    ensures Hop(files, account, Last(Follow(files, account, key, unseen).names)).None?
    decreases unseen
  {
    var next := Hop(files, account, key);
    if next.Some? {
      TrailStops(files, account, next.value, unseen - {key});
    }
  }

  lemma {:induction false} ReachedExists(files: Files, account: string, key: string, n: nat, j: nat)
    requires StopsAfter(files, account, key, n) && j < n
    ensures Reached(files, account, key, j) in files
    decreases n
  {
    if j > 0 {
      ReachedExists(files, account, Hop(files, account, key).value, n - 1, j - 1);
    }
  }

  lemma {:induction false} TrailReached(files: Files, account: string, key: string, unseen: set<string>)
    ensures var t := Follow(files, account, key, unseen);
            t.stops ==> Last(t.names) == Reached(files, account, key, |t.names| - 1)
    decreases unseen
  {
    var next := Hop(files, account, key);
    if next.Some? && key in unseen {
      TrailReached(files, account, next.value, unseen - {key});
    }
  }

  ghost predicate LoopStops(files: Files, account: string)
  {
    exists n: nat :: StopsAfter(files, account, account, n)
  }

  /** The opening loop terminates exactly when the trail does not come back on itself. */
  lemma LoopStopsExactly(files: Files, account: string)
    ensures AccountTrail(files, account).stops <==> LoopStops(files, account)
  {
    if AccountTrail(files, account).stops {
      TrailStops(files, account, account, files.Keys);
      var n: nat := |AccountTrail(files, account).names| - 1;
      assert StopsAfter(files, account, account, n);
    } else {
      forall n: nat
        ensures !StopsAfter(files, account, account, n)
      {
        if StopsAfter(files, account, account, n) {
          forall j: nat | j < n
            ensures Reached(files, account, account, j) in files.Keys
          {
            ReachedExists(files, account, account, n, j);
          }
          StoppingTrail(files, account, account, files.Keys, n);
        }
      }
    }
  }

  // ---------------------------------------------------------------------------------------------
  // Names

  const NAME_LIMIT := 10000

  function Name(account: string, n: nat): string
  {
    account + ['-'] + Decimal(n)
  }

  function NextNameFrom(files: Files, account: string, n: nat): (r: Option<string>)
    ensures r.Some? ==> r.value !in files && exists k: nat :: n <= k < NAME_LIMIT && r.value == Name(account, k)
    decreases NAME_LIMIT - n
  {
    if n >= NAME_LIMIT then None
    else if Name(account, n) !in files then Some(Name(account, n))
    else NextNameFrom(files, account, n + 1)
  }

  /** The name the next segment gets. */
  function NextName(files: Files, account: string): Option<string>
  {
    NextNameFrom(files, account, 2)
  }

  lemma {:induction false} NextNameFromIsFirst(files: Files, account: string, from: nat, n: nat)
    requires from <= n < NAME_LIMIT
    requires Name(account, n) !in files && (forall k | from <= k < n :: Name(account, k) in files)
    ensures NextNameFrom(files, account, from) == Some(Name(account, n))
    decreases n - from
  {
    if from < n {
      assert Name(account, from) in files;
      NextNameFromIsFirst(files, account, from + 1, n);
    }
  }

  lemma {:induction false} NextNameFromFails(files: Files, account: string, from: nat)
    requires forall k: nat | from <= k < NAME_LIMIT :: Name(account, k) in files
    ensures NextNameFrom(files, account, from) == None
    decreases NAME_LIMIT - from
  {
    if from < NAME_LIMIT {
      assert Name(account, from) in files;
      NextNameFromFails(files, account, from + 1);
    }
  }

  /** The search finds the unused name with the smallest number, and fails only if all are taken. */
  lemma NextNameIsFirst(files: Files, account: string)
    ensures NextName(files, account).None? <==> forall k: nat | 2 <= k < 10000 :: Name(account, k) in files
    ensures forall n: nat | 2 <= n < 10000 && Name(account, n) !in files
              && (forall k | 2 <= k < n :: Name(account, k) in files) ::
              NextName(files, account) == Some(Name(account, n))
  {
    if forall k: nat | 2 <= k < NAME_LIMIT :: Name(account, k) in files {
      NextNameFromFails(files, account, 2);
    } else if NextName(files, account).None? {
      var k: nat :| 2 <= k < NAME_LIMIT && Name(account, k) !in files;
      Unused(files, account, 2, k);
    }
    forall n: nat | 2 <= n < NAME_LIMIT && Name(account, n) !in files
                    && (forall k | 2 <= k < n :: Name(account, k) in files)
      ensures NextName(files, account) == Some(Name(account, n))
    {
      NextNameFromIsFirst(files, account, 2, n);
    }
  }

  lemma {:induction false} Unused(files: Files, account: string, from: nat, k: nat)
    requires from <= k < NAME_LIMIT && Name(account, k) !in files
    ensures NextNameFrom(files, account, from).Some?
    decreases k - from
  {
    if Name(account, from) in files {
      Unused(files, account, from + 1, k);
    }
  }

  // ---------------------------------------------------------------------------------------------
  // Writing

  /** Adding records one after another; a closed manifest takes none. */
  function AppendAll(before: seq<Record>, recs: seq<Record>): Option<seq<Record>>
    decreases |recs|
  {
    if recs == [] then Some(before)
    else if Closed(before) then None
    else AppendAll(before + [recs[0]], recs[1..])
  }

  /** The point at which a write fails or is interrupted, if it is. */
  datatype Fault =
    | NoFault
    | OpenFails
    | AppendFails
    | FirstWriteFails
    | StopsAfterFirstWrite
    | SecondWriteFails
    | NoticeFails

  datatype Outcome = Outcome(files: Files, committed: bool, ok: bool)

  /** What one run of a writer does: open the active manifest, append, write, and rotate at the threshold. */
  function WriteRun(files: Files, account: string, recs: seq<Record>, threshold: nat, fault: Fault): Outcome
  {
    var key := Last(AccountTrail(files, account).names);
    var active := Load(files, account, key);
    if account == "" || recs == [] then Outcome(files, false, true)
    else if fault.OpenFails? || active.None? then Outcome(files, false, false)
    else
      var owner, appended := active.value.account, AppendAll(active.value.records, recs);
      if fault.AppendFails? || appended.None? || fault.FirstWriteFails? then Outcome(files, false, false)
      else
        var records := appended.value;
        var written := files[key := Manifest(owner, records)];
        var next := NextName(written, owner);
        if |records| < threshold then Outcome(written, true, true)
        else if fault.StopsAfterFirstWrite? || next.None? || Closed(records) then Outcome(written, true, false)
        else if fault.SecondWriteFails? then Outcome(written, true, false)
        else
          var rotated := records + [Rotate(next.value, |records| + 1)];
          Outcome(written[key := Manifest(owner, rotated)], true, !fault.NoticeFails?)
  }

  predicate AllEntries(records: seq<Record>)
  {
    forall r | r in records :: r.Entry?
  }

  lemma {:induction false} EntriesAppend(before: seq<Record>, recs: seq<Record>)
    requires AllEntries(before) && AllEntries(recs)
    ensures AppendAll(before, recs) == Some(before + recs) && AllEntries(before + recs)
    decreases |recs|
  {
    if recs == [] {
      assert before + recs == before;
    } else {
      assert recs[0] in recs;
      assert before + recs == (before + [recs[0]]) + recs[1..];
      EntriesAppend(before + [recs[0]], recs[1..]);
    }
  }
}
