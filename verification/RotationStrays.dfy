/** Files that others leave at the name an account's trail ends at, and what every run keeps beside them. */
module RotationStrays {
  import opened Options
  import opened Lists
  import opened Rotation
  import opened RotationRuns

  // ---------------------------------------------------------------------------------------------
  // Trails, whatever is on them

  lemma HopIsLoaded(files: Files, account: string, key: string)
    requires Hop(files, account, key).Some?
    ensures key in files && Load(files, account, key).Some?
  {
  }

  /** The loop walks these names, one after another and none twice, and stops at the last. */
  predicate Walks(files: Files, account: string, names: seq<string>)
  {
    && names != [] && names[0] == account && Distinct(names)
    && (forall k | 0 <= k < |names| - 1 :: Hop(files, account, names[k]) == Some(names[k + 1]))
    && Hop(files, account, Last(names)).None?
  }

  lemma {:induction false} FollowHops(files: Files, account: string, key: string, unseen: set<string>)
    ensures var t := Follow(files, account, key, unseen);
            && (forall k | 0 <= k < |t.names| - 1 :: Hop(files, account, t.names[k]) == Some(t.names[k + 1]))
            && (t.stops ==> Hop(files, account, Last(t.names)).None?)
    decreases unseen
  {
    var next := Hop(files, account, key);
    if next.Some? && key in unseen {
      FollowHops(files, account, next.value, unseen - {key});
    }
  }

  lemma TrailWalks(files: Files, account: string)
    requires AccountTrail(files, account).stops
    ensures Walks(files, account, Names(files, account))
  {
    var names := Names(files, account);
    FollowHops(files, account, account, files.Keys);
    TrailStops(files, account, account, files.Keys);
    forall i, j | 0 <= i < j < |names|
      ensures names[i] != names[j]
    {
      ReachedAlong(files, account, names, i);
      ReachedAlong(files, account, names, j);
      NeverRevisits(files, account, account, |names| - 1, i, j);
    }
  }

  lemma {:induction false} WalkFollowed(
      files: Files, account: string, names: seq<string>, i: nat, unseen: set<string>)
    requires Walks(files, account, names) && i < |names| && forall j | i <= j < |names| - 1 :: names[j] in unseen
    ensures Follow(files, account, names[i], unseen) == Trail(names[i..], true)
    decreases |names| - i
  {
    if i < |names| - 1 {
      assert Hop(files, account, names[i]) == Some(names[i + 1]) && names[i] in unseen;
      assert forall j | i + 1 <= j < |names| - 1 :: names[j] in unseen - {names[i]};
      WalkFollowed(files, account, names, i + 1, unseen - {names[i]});
      assert names[i..] == [names[i]] + names[i + 1..];
    } else {
      assert names[i..] == [names[i]];
    }
  }

  lemma WalkIsTrail(files: Files, account: string, names: seq<string>)
    requires Walks(files, account, names)
    ensures AccountTrail(files, account) == Trail(names, true)
  {
    forall j | 0 <= j < |names| - 1
      ensures names[j] in files.Keys
    {
      assert Hop(files, account, names[j]) == Some(names[j + 1]);
      HopIsLoaded(files, account, names[j]);
    }
    WalkFollowed(files, account, names, 0, files.Keys);
    assert names[0..] == names;
  }

  // ---------------------------------------------------------------------------------------------
  // The name a trail ends at is the one place a stray file can do harm

  predicate SameElsewhere(before: Files, after: Files, key: string)
  {
    forall k | k in before.Keys + after.Keys && k != key :: SameAt(before, after, k)
  }

  lemma {:induction false} SamePath(before: Files, after: Files, account: string, start: string, n: nat, key: string)
    requires SameElsewhere(before, after, key) && StopsAfter(before, account, start, n)
    requires forall j: nat | j <= n :: Reached(before, account, start, j) != key
    ensures StopsAfter(after, account, start, n)
    ensures Reached(after, account, start, n) == Reached(before, account, start, n)
    decreases n
  {
    assert Reached(before, account, start, 0) == start;
    assert SameAt(before, after, start);
    if n > 0 {
      var next := Hop(before, account, start).value;
      forall j: nat | j <= n - 1
        ensures Reached(before, account, next, j) != key
      {
        assert Reached(before, account, start, j + 1) == Reached(before, account, next, j);
      }
      SamePath(before, after, account, next, n - 1, key);
    }
  }

  lemma {:induction false} ReachedLater(files: Files, account: string, key: string, i: nat, j: nat)
    requires forall k: nat | k < i :: Hop(files, account, Reached(files, account, key, k)).Some?
    ensures Reached(files, account, Reached(files, account, key, i), j) == Reached(files, account, key, i + j)
    ensures StopsAfter(files, account, Reached(files, account, key, i), j) ==> StopsAfter(files, account, key, i + j)
    decreases i
  {
    if i > 0 {
      assert Hop(files, account, Reached(files, account, key, 0)).Some?;
      var next := Hop(files, account, key).value;
      forall k: nat | k < i - 1
        ensures Hop(files, account, Reached(files, account, next, k)).Some?
      {
        assert Reached(files, account, next, k) == Reached(files, account, key, k + 1);
      }
      ReachedLater(files, account, next, i - 1, j);
    }
  }

  lemma {:induction false} ReachedAlong(files: Files, account: string, names: seq<string>, i: nat)
    requires i < |names|
    requires forall k | 0 <= k < |names| - 1 :: Hop(files, account, names[k]) == Some(names[k + 1])
    ensures Reached(files, account, names[0], i) == names[i]
    decreases i
  {
    if i > 0 {
      assert Hop(files, account, names[0]) == Some(names[1]);
      assert forall k | 0 <= k < |names| - 2 :: Hop(files, account, names[1..][k]) == Some(names[1..][k + 1]);
      ReachedAlong(files, account, names[1..], i - 1);
    }
  }

  /** The trail a pointer would start, in the directory as it stands, stops short of key. */
  predicate LeadsElsewhere(files: Files, account: string, pointer: string, key: string)
  {
    var t := Follow(files, account, pointer, files.Keys);
    t.stops && Last(t.names) != key
  }

  /** A stray at key points nowhere, or to a name from which the files already there do not lead back. */
  predicate Harmless(files: Files, account: string, key: string, stray: File)
  {
    var pointer := Hop(files[key := stray], account, key);
    pointer.None? || LeadsElsewhere(files, account, pointer.value, key)
  }

  lemma PathAvoidsEnd(files: Files, account: string, pointer: string, key: string)
    requires Hop(files, account, key).None? && LeadsElsewhere(files, account, pointer, key)
    ensures exists n: nat :: Elsewhere(files, account, pointer, key, n)
  {
    var n: nat := |Follow(files, account, pointer, files.Keys).names| - 1;
    TrailStops(files, account, pointer, files.Keys);
    TrailReached(files, account, pointer, files.Keys);
    forall j: nat | j < n
      ensures Reached(files, account, pointer, j) != key
    {
      TurnsLeft(files, account, pointer, n, j);
    }
    assert Elsewhere(files, account, pointer, key, n);
  }

  ghost predicate Elsewhere(files: Files, account: string, start: string, key: string, n: nat)
  {
    StopsAfter(files, account, start, n) && forall j: nat | j <= n :: Reached(files, account, start, j) != key
  }

  lemma PathLeadsElsewhere(files: Files, account: string, pointer: string, key: string, n: nat)
    requires Elsewhere(files, account, pointer, key, n)
    ensures LeadsElsewhere(files, account, pointer, key)
  {
    forall j: nat | j < n
      ensures Reached(files, account, pointer, j) in files.Keys
    {
      ReachedExists(files, account, pointer, n, j);
    }
    StoppingTrail(files, account, pointer, files.Keys, n);
    TrailStops(files, account, pointer, files.Keys);
    TrailReached(files, account, pointer, files.Keys);
    StopsOnce(files, account, pointer, n, |Follow(files, account, pointer, files.Keys).names| - 1);
  }

  /** In the directory with the stray, the loop walks the old trail and then the stray's pointer. */
  lemma WalksOldTrail(files: Files, account: string, stray: File)
    requires AccountTrail(files, account).stops
    ensures var names := Names(files, account);
            var after := files[Last(names) := stray];
            (forall k | 0 <= k < |names| - 1 :: Hop(after, account, names[k]) == Some(names[k + 1]))
            && names[0] == account && Distinct(names) && Hop(files, account, Last(names)).None?
            && SameElsewhere(files, after, Last(names)) && SameElsewhere(after, files, Last(names))
            && (forall k: nat | k < |names| :: Reached(after, account, account, k) == names[k])
            && (forall k: nat | k < |names| - 1 :: Hop(after, account, Reached(after, account, account, k)).Some?)
  {
    TrailWalks(files, account);
    hide AccountTrail;
    var names := Names(files, account);
    var after := files[Last(names) := stray];
    forall k | 0 <= k < |names| - 1
      ensures Hop(after, account, names[k]) == Some(names[k + 1])
    {
      assert names[k] != Last(names) && Hop(files, account, names[k]) == Some(names[k + 1]);
    }
    forall k: nat | k < |names|
      ensures Reached(after, account, account, k) == names[k]
      ensures k < |names| - 1 ==> Hop(after, account, Reached(after, account, account, k)).Some?
    {
      ReachedAlong(after, account, names, k);
      if k < |names| - 1 {
        assert Hop(after, account, names[k]) == Some(names[k + 1]);
      }
    }
  }

  /** A stray file at the end of a chain leaves the opening loop terminating exactly when it points
      nowhere, or to a name from which the files already there do not lead back to the chain's end. */
  lemma StrayAtTheEnd(files: Files, account: string, stray: File)
    requires AccountTrail(files, account).stops
    ensures var key := Last(Names(files, account));
            var after := files[key := stray];
            LoopStops(after, account) <==> Harmless(files, account, key, stray)
  {
    hide AccountTrail, Follow, Hop, StopsAfter, Reached, SameElsewhere, LeadsElsewhere;
    var names := Names(files, account);
    var key := Last(names);
    var after := files[key := stray];
    WalksOldTrail(files, account, stray);
    var end: nat := |names| - 1;
    if Hop(after, account, key).None? {
      StopsNow(after, account, key);
      ReachedLater(after, account, account, end, 0);
      assert StopsAfter(after, account, account, end + 0);
    } else {
      var pointer := Hop(after, account, key).value;
      NextReached(after, account, account, end);
      if LeadsElsewhere(files, account, pointer, key) {
        PathAvoidsEnd(files, account, pointer, key);
        var n: nat :| Elsewhere(files, account, pointer, key, n);
        SamePath(files, after, account, pointer, n, key);
        ReachedLater(after, account, account, end + 1, n);
        assert StopsAfter(after, account, account, end + 1 + n);
      }
      if LoopStops(after, account) {
        var n: nat :| StopsAfter(after, account, account, n);
        StopsLate(after, account, account, n, end + 1);
        PathFromPointer(after, account, n, end, pointer);
        SamePath(after, files, account, pointer, n - end - 1, key);
        SamePathAvoids(after, files, account, pointer, n - end - 1, key);
        PathLeadsElsewhere(files, account, pointer, key, n - end - 1);
      }
    }
  }

  lemma StopsNow(files: Files, account: string, key: string)
    requires Hop(files, account, key).None?
    ensures StopsAfter(files, account, key, 0)
  {
  }

  lemma NextReached(files: Files, account: string, key: string, i: nat)
    requires forall k: nat | k < i :: Hop(files, account, Reached(files, account, key, k)).Some?
    requires Hop(files, account, Reached(files, account, key, i)).Some?
    ensures Reached(files, account, key, i + 1) == Hop(files, account, Reached(files, account, key, i)).value
  {
    ReachedLater(files, account, key, i, 1);
    var at := Reached(files, account, key, i);
    assert Reached(files, account, at, 1) == Reached(files, account, Hop(files, account, at).value, 0);
  }

  /** A loop with a pointer to follow at each of its first i stops takes at least i turns. */
  lemma StopsLate(files: Files, account: string, key: string, n: nat, i: nat)
    requires StopsAfter(files, account, key, n)
    requires forall k: nat | k < i :: Hop(files, account, Reached(files, account, key, k)).Some?
    ensures n >= i
  {
    TurnsLeft(files, account, key, n, n);
  }

  lemma PathFromPointer(files: Files, account: string, n: nat, end: nat, pointer: string)
    requires StopsAfter(files, account, account, n) && end < n
    requires forall k: nat | k <= end :: Hop(files, account, Reached(files, account, account, k)).Some?
    requires Reached(files, account, account, end + 1) == pointer
    ensures Elsewhere(files, account, pointer, Reached(files, account, account, end), n - end - 1)
  {
    hide Hop, Reached, StopsAfter;
    TurnsLeft(files, account, account, n, end + 1);
    forall j: nat | j <= n - end - 1
      ensures Reached(files, account, pointer, j) != Reached(files, account, account, end)
    {
      ReachedLater(files, account, account, end + 1, j);
      NeverRevisits(files, account, account, n, end, end + 1 + j);
    }
  }

  lemma SamePathAvoids(before: Files, after: Files, account: string, start: string, n: nat, key: string)
    requires SameElsewhere(before, after, key) && Elsewhere(before, account, start, key, n)
    ensures Elsewhere(after, account, start, key, n)
    decreases n
  {
    SamePath(before, after, account, start, n, key);
    forall j: nat | j <= n
      ensures Reached(after, account, start, j) != key
    {
      TurnsLeft(after, account, start, n, j);
      SameReached(before, after, account, start, n, j, key);
    }
  }

  lemma {:induction false} SameReached(before: Files, after: Files, account: string, start: string, n: nat, j: nat,
      key: string)
    requires SameElsewhere(before, after, key) && j <= n && Elsewhere(before, account, start, key, n)
    ensures Reached(after, account, start, j) == Reached(before, account, start, j)
    decreases j
  {
    assert Reached(before, account, start, 0) == start;
    assert SameAt(before, after, start);
    if j > 0 {
      var next := Hop(before, account, start).value;
      forall i: nat | i <= n - 1
        ensures Reached(before, account, next, i) != key
      {
        assert Reached(before, account, start, i + 1) == Reached(before, account, next, i);
      }
      SameReached(before, after, account, next, n - 1, j - 1, key);
    }
  }

  lemma {:induction false} FollowAlong(files: Files, account: string, names: seq<string>, i: nat, unseen: set<string>)
    requires i < |names| && Distinct(names) && (forall j | i <= j < |names| - 1 :: names[j] in unseen)
    requires forall k | 0 <= k < |names| - 1 :: Hop(files, account, names[k]) == Some(names[k + 1])
    ensures names[i..] <= Follow(files, account, names[i], unseen).names
    decreases |names| - i
  {
    if i < |names| - 1 {
      assert Hop(files, account, names[i]) == Some(names[i + 1]) && names[i] in unseen;
      assert forall j | i + 1 <= j < |names| - 1 :: names[j] in unseen - {names[i]};
      FollowAlong(files, account, names, i + 1, unseen - {names[i]});
      assert names[i..] == [names[i]] + names[i + 1..];
    } else {
      assert names[i..] == [names[i]];
    }
  }

  lemma {:induction false} EvidenceOfSum(files: Files, a: seq<string>, b: seq<string>)
    ensures Evidence(files, a + b) == Evidence(files, a) + Evidence(files, b)
  {
    hide Data;
    if b == [] {
      assert a + b == a;
    } else {
      EvidenceOfSum(files, a, b[..|b| - 1]);
      assert (a + b)[..|a + b| - 1] == a + b[..|b| - 1];
    }
  }

  /** What a stray at the end of a chain leaves of the record: the loop still begins with the chain's own
      names, the closed files' evidence still comes first, and the whole record does if the chain's last
      file was not written yet. Otherwise only that file's evidence is gone, unless what the loop finds
      from the stray on begins with it. */
  lemma EvidenceBesideStray(files: Files, account: string, stray: File)
    requires AccountTrail(files, account).stops
    ensures var names := Names(files, account);
            var key, closed := Last(names), names[..|names| - 1];
            var after := files[key := stray];
            && names <= Names(after, account)
            && Evidence(files, closed) <= Recorded(after, account)
            && (key !in files ==> Recorded(files, account) <= Recorded(after, account))
            && (Recorded(files, account) <= Recorded(after, account) <==>
                  Data(files, key) <= Evidence(after, Names(after, account)[|closed|..]))
  {
    hide Follow, Hop, Reached, SameElsewhere, Data;
    var names := Names(files, account);
    var key, closed := Last(names), names[..|names| - 1];
    var after := files[key := stray];
    WalksOldTrail(files, account, stray);
    forall j | 0 <= j < |names| - 1
      ensures names[j] in after.Keys && Data(after, names[j]) == Data(files, names[j])
    {
      assert names[j] != key && Hop(after, account, names[j]) == Some(names[j + 1]);
      HopIsLoaded(after, account, names[j]);
      DataElsewhere(files, key, stray, names[j]);
    }
    FollowAlong(after, account, names, 0, after.Keys);
    assert names[0..] == names;
    SameEvidence(files, after, closed);
    var found := Names(after, account);
    var rest := found[|closed|..];
    assert found == closed + rest;
    EvidenceOfSum(after, closed, rest);
    UnwrittenIsEmpty(files, key);
    CommonFront(Evidence(files, closed), Data(files, key), Evidence(after, rest));
  }

  lemma DataElsewhere(files: Files, key: string, stray: File, other: string)
    requires other != key
    ensures Data(files[key := stray], other) == Data(files, other)
  {
  }

  lemma UnwrittenIsEmpty(files: Files, key: string)
    ensures key !in files ==> Data(files, key) == []
  {
  }

  lemma CommonFront(front: seq<Record>, a: seq<Record>, b: seq<Record>)
    ensures front <= front + b
    ensures front + a <= front + b <==> a <= b
  {
    assert (front + a)[|front|..] == a && (front + b)[|front|..] == b;
    if front + a <= front + b {
      assert b[..|a|] == (front + b)[|front|..|front| + |a|] == (front + a)[|front|..];
    }
  }

  /** So a stray that points back into the chain makes the loop run forever. */
  lemma PointerBackNeverStops(files: Files, account: string, k: nat, records: seq<Record>)
    requires AccountTrail(files, account).stops && k < |Names(files, account)|
    requires PointsOn(records) && Last(records).successor == Names(files, account)[k]
    ensures !LoopStops(files[Last(Names(files, account)) := Manifest(account, records)], account)
  {
    hide AccountTrail, Reached;
    var names := Names(files, account);
    StrayAtTheEnd(files, account, Manifest(account, records));
    TrailWalks(files, account);
    forall j | k <= j < |names| - 1
      ensures names[j] in files.Keys
    {
      assert Hop(files, account, names[j]) == Some(names[j + 1]);
      HopIsLoaded(files, account, names[j]);
    }
    WalkFollowed(files, account, names, k, files.Keys);
    assert Last(names[k..]) == Last(names);
  }

  // ---------------------------------------------------------------------------------------------
  // The evidence that can be read

  /** The records under a name, apart from the one that closes the file, if the file opens at all. */
  function Read(files: Files, account: string, key: string): seq<Record>
  {
    if Load(files, account, key).None? then [] else Data(files, key)
  }

  function ReadAll(files: Files, account: string, names: seq<string>): seq<Record>
  {
    if names == [] then []
    else ReadAll(files, account, names[..|names| - 1]) + Read(files, account, Last(names))
  }

  /** What can be read about an account along its trail. */
  function Held(files: Files, account: string): seq<Record>
  {
    ReadAll(files, account, Names(files, account))
  }

  lemma {:induction false} ReadAllOfSum(files: Files, account: string, a: seq<string>, b: seq<string>)
    ensures ReadAll(files, account, a + b) == ReadAll(files, account, a) + ReadAll(files, account, b)
  {
    hide Read;
    if b == [] {
      assert a + b == a;
    } else {
      ReadAllOfSum(files, account, a, b[..|b| - 1]);
      assert (a + b)[..|a + b| - 1] == a + b[..|b| - 1];
    }
  }

  lemma {:induction false} ReadAllSame(before: Files, after: Files, account: string, names: seq<string>)
    requires forall i | 0 <= i < |names| :: Read(before, account, names[i]) == Read(after, account, names[i])
    ensures ReadAll(before, account, names) == ReadAll(after, account, names)
  {
    hide Read;
    if names != [] {
      ReadAllSame(before, after, account, names[..|names| - 1]);
    }
  }

  lemma ReadLast(files: Files, account: string, names: seq<string>)
    requires names != []
    ensures ReadAll(files, account, names)
         == ReadAll(files, account, names[..|names| - 1]) + Read(files, account, Last(names))
  {
  }

  /** On a healthy chain everything can be read. */
  lemma HealthyIsHeld(files: Files, account: string, threshold: nat)
    requires Healthy(files, account, threshold)
    ensures Held(files, account) == Recorded(files, account)
  {
    hide AccountTrail;
    EverythingRead(files, account, Names(files, account), threshold, |Names(files, account)|);
    assert Names(files, account)[..|Names(files, account)|] == Names(files, account);
  }

  lemma {:induction false} EverythingRead(files: Files, account: string, names: seq<string>, threshold: nat, n: nat)
    requires account != "" && Chain(files, account, names, threshold) && n <= |names|
    ensures ReadAll(files, account, names[..n]) == Evidence(files, names[..n])
  {
    if n > 0 {
      var front := names[..n];
      assert front[..n - 1] == names[..n - 1];
      EverythingRead(files, account, names, threshold, n - 1);
      HopInChain(files, account, names, threshold, n - 1);
      hide Chain;
      if n < |names| {
        HopIsLoaded(files, account, names[n - 1]);
      }
    }
  }

  // ---------------------------------------------------------------------------------------------
  // One step

  /** What a step leaves of an account's trail: it still ends, goes on from where it was, no file before its
      last one is touched, and what can be read grows by what was added. */
  ghost predicate Holds(before: Files, after: Files, account: string, added: seq<Record>)
  {
    var names := Names(before, account);
    && AccountTrail(after, account).stops && names <= Names(after, account)
    && (forall i | 0 <= i < |names| - 1 :: SameAt(before, after, names[i]))
    && Held(after, account) == Held(before, account) + added
  }

  /** A change that no name of the trail shows. */
  lemma TrailUnmoved(before: Files, after: Files, account: string)
    requires AccountTrail(before, account).stops
    requires var names := Names(before, account);
             && (forall k | k in names :: Hop(after, account, k) == Hop(before, account, k))
             && (forall k | k in names :: Read(after, account, k) == Read(before, account, k))
             && (forall i | 0 <= i < |names| - 1 :: SameAt(before, after, names[i]))
    ensures Holds(before, after, account, [])
  {
    var names := Names(before, account);
    TrailWalks(before, account);
    hide AccountTrail, Hop, Read;
    assert forall i | 0 <= i < |names| :: names[i] in names;
    WalkIsTrail(after, account, names);
    ReadAllSame(before, after, account, names);
  }

  lemma OffTrail(before: Files, after: Files, account: string, key: string)
    requires AccountTrail(before, account).stops && key !in Names(before, account)
    requires SameElsewhere(before, after, key)
    ensures Holds(before, after, account, [])
  {
    hide AccountTrail;
    forall k | k in Names(before, account)
      ensures SameAt(before, after, k)
      ensures Hop(after, account, k) == Hop(before, account, k) && Read(after, account, k) == Read(before, account, k)
    {
    }
    assert forall i | 0 <= i < |Names(before, account)| :: Names(before, account)[i] in Names(before, account);
    TrailUnmoved(before, after, account);
  }

  /** Another account's manifest where this account's trail dangles, or where it could not be read anyway. */
  lemma ForeignAtEnd(before: Files, after: Files, account: string, key: string)
    requires AccountTrail(before, account).stops && SameElsewhere(before, after, key)
    requires key in before ==> Load(before, account, key).None?
    requires key in after && Load(after, account, key).None?
    ensures Holds(before, after, account, [])
  {
    if key !in Names(before, account) {
      hide AccountTrail;
      OffTrail(before, after, account, key);
    } else {
      TrailWalks(before, account);
      hide AccountTrail;
      var names := Names(before, account);
      forall i | 0 <= i < |names|
        ensures i < |names| - 1 ==> names[i] != key
        ensures names[i] != key ==> SameAt(before, after, names[i])
      {
        if i < |names| - 1 {
          assert Hop(before, account, names[i]) == Some(names[i + 1]);
          HopIsLoaded(before, account, names[i]);
        }
      }
      forall k | k in names
        ensures Hop(after, account, k) == Hop(before, account, k) && Read(after, account, k) == Read(before, account, k)
      {
        var i :| 0 <= i < |names| && names[i] == k;
      }
      TrailUnmoved(before, after, account);
    }
  }

  /** What can be read along a trail from its n-th name on. */
  function ReadFrom(files: Files, account: string, n: nat): seq<Record>
  {
    var names := Names(files, account);
    ReadAll(files, account, if n <= |names| then names[n..] else [])
  }

  lemma StrayTrail(files: Files, account: string, stray: File)
    requires AccountTrail(files, account).stops && Harmless(files, account, Last(Names(files, account)), stray)
    ensures var names := Names(files, account);
            var after := files[Last(names) := stray];
            && AccountTrail(after, account).stops && names <= Names(after, account)
            && (forall i | 0 <= i < |names| - 1 :: SameAt(files, after, names[i]))
            && (forall i | 0 <= i < |names| - 1 :: Read(after, account, names[i]) == Read(files, account, names[i]))
  {
    var names := Names(files, account);
    var key := Last(names);
    var after := files[key := stray];
    StrayAtTheEnd(files, account, stray);
    LoopStopsExactly(after, account);
    WalksOldTrail(files, account, stray);
    hide AccountTrail, Follow, Hop, Reached, Harmless, Data;
    forall j | 0 <= j < |names| - 1
      ensures names[j] in after.Keys && names[j] != key
      ensures Read(after, account, names[j]) == Read(files, account, names[j])
    {
      assert Hop(after, account, names[j]) == Some(names[j + 1]);
      HopIsLoaded(after, account, names[j]);
      ReadElsewhere(files, account, key, stray, names[j]);
    }
    TrailBegins(after, account, names);
  }

  lemma ReadElsewhere(files: Files, account: string, key: string, stray: File, other: string)
    requires other != key
    ensures Read(files[key := stray], account, other) == Read(files, account, other)
  {
  }

  /** A harmless file where the trail dangles: the trail goes on through it. */
  lemma StrayHolds(files: Files, account: string, stray: File)
    requires AccountTrail(files, account).stops && Last(Names(files, account)) !in files
    requires Harmless(files, account, Last(Names(files, account)), stray)
    ensures var names := Names(files, account);
            var after := files[Last(names) := stray];
            Holds(files, after, account, ReadFrom(after, account, |names| - 1))
  {
    hide AccountTrail, Harmless, Read, ReadAll, Load, Data, Follow, Holds, ReadFrom;
    StrayTrail(files, account, stray);
    NothingToRead(files, account, Last(Names(files, account)));
    TrailExtended(files, files[Last(Names(files, account)) := stray], account);
  }

  lemma NothingToRead(files: Files, account: string, key: string)
    requires key !in files
    ensures Read(files, account, key) == []
  {
  }

  lemma TrailExtended(before: Files, after: Files, account: string)
    requires AccountTrail(after, account).stops && Names(before, account) <= Names(after, account)
    requires var names := Names(before, account);
             && (forall i | 0 <= i < |names| - 1 :: SameAt(before, after, names[i]))
             && (forall i | 0 <= i < |names| - 1 :: Read(after, account, names[i]) == Read(before, account, names[i]))
             && Read(before, account, Last(names)) == []
    ensures Holds(before, after, account, ReadFrom(after, account, |Names(before, account)| - 1))
  {
    hide AccountTrail, Read, ReadAll, SameAt;
    var names, found := Names(before, account), Names(after, account);
    var end: nat := |names| - 1;
    assert found[..end] == names[..end] && found == found[..end] + found[end..];
    ReadAllOfSum(after, account, found[..end], found[end..]);
    ReadAllSame(before, after, account, names[..end]);
    ReadLast(before, account, names);
    var front := ReadAll(before, account, names[..end]);
    assert front + [] == front;
  }

  lemma TrailBegins(files: Files, account: string, names: seq<string>)
    requires names != [] && names[0] == account && Distinct(names)
    requires forall k | 0 <= k < |names| - 1 :: names[k] in files && Hop(files, account, names[k]) == Some(names[k + 1])
    ensures names <= Names(files, account)
  {
    FollowAlong(files, account, names, 0, files.Keys);
    assert names[0..] == names;
  }

  // ---------------------------------------------------------------------------------------------
  // A writer's run on any trail that ends

  lemma {:induction false} AppendedRecords(before: seq<Record>, recs: seq<Record>)
    requires AllEntries(recs) && recs != []
    ensures var r := AppendAll(before, recs);
            if Closed(before) then r.None? else r == Some(before + recs) && Last(before + recs).Entry?
    decreases |recs|
  {
    assert recs[0] in recs && Last(recs) in recs;
    if !Closed(before) && |recs| > 1 {
      assert Last(before + [recs[0]]) == recs[0];
      AppendedRecords(before + [recs[0]], recs[1..]);
      assert before + recs == (before + [recs[0]]) + recs[1..];
    } else if !Closed(before) {
      assert recs[1..] == [] && before + recs == before + [recs[0]];
    }
  }

  lemma HopElsewhere(files: Files, account: string, key: string, file: File, other: string)
    requires other != key
    ensures Hop(files[key := file], account, other) == Hop(files, account, other)
  {
  }

  /** The names before the last one, when the file under that is replaced. */
  lemma BeforeLast(files: Files, account: string, file: File)
    requires Walks(files, account, Names(files, account))
    ensures var names := Names(files, account);
            var after := files[Last(names) := file];
            && (forall i | 0 <= i < |names| - 1 ::
                  names[i] != Last(names) && names[i] in files && SameAt(files, after, names[i]))
            && (forall i | 0 <= i < |names| - 1 :: Hop(after, account, names[i]) == Some(names[i + 1]))
            && ReadAll(after, account, names[..|names| - 1]) == ReadAll(files, account, names[..|names| - 1])
  {
    hide AccountTrail, Hop, Read, ReadAll;
    var names := Names(files, account);
    var key := Last(names);
    var after := files[key := file];
    forall i | 0 <= i < |names| - 1
      ensures names[i] != key && names[i] in files && SameAt(files, after, names[i])
      ensures Hop(after, account, names[i]) == Some(names[i + 1])
      ensures Read(after, account, names[i]) == Read(files, account, names[i])
    {
      assert Hop(files, account, names[i]) == Some(names[i + 1]);
      HopIsLoaded(files, account, names[i]);
      HopElsewhere(files, account, key, file, names[i]);
      ReadElsewhere(files, account, key, file, names[i]);
    }
    ReadAllSame(files, after, account, names[..|names| - 1]);
  }

  /** The last file rewritten with more records. */
  lemma LastRewritten(files: Files, account: string, owner: string, records: seq<Record>, added: seq<Record>)
    requires AccountTrail(files, account).stops && Load(files, account, Last(Names(files, account))).Some?
    requires var m := Load(files, account, Last(Names(files, account))).value;
             owner == m.account && !Closed(m.records) && records == m.records + added
    requires added != [] && Last(records).Entry?
    ensures var key := Last(Names(files, account));
            var after := files[key := Manifest(owner, records)];
            && Names(after, account) == Names(files, account) && Load(after, account, key).Some?
            && Holds(files, after, account, added)
  {
    var names := Names(files, account);
    var key := Last(names);
    var file := Manifest(owner, records);
    var after := files[key := file];
    TrailWalks(files, account);
    EndRewritten(files, account, key, owner, records, added);
    hide AccountTrail, Closed, Load, Data, Hop, Read, ReadAll;
    BeforeLast(files, account, file);
    WalkIsTrail(after, account, names);
    ReadLast(files, account, names);
    ReadLast(after, account, names);
    Longer(ReadAll(files, account, names[..|names| - 1]), Read(files, account, key), added);
  }

  lemma Longer(a: seq<Record>, b: seq<Record>, c: seq<Record>)
    ensures a + (b + c) == a + b + c
  {
  }

  lemma EndRewritten(
      files: Files, account: string, key: string, owner: string, records: seq<Record>, added: seq<Record>)
    requires Load(files, account, key).Some?
    requires var m := Load(files, account, key).value;
             owner == m.account && !Closed(m.records) && records == m.records + added
    requires added != [] && Last(records).Entry?
    ensures var after := files[key := Manifest(owner, records)];
            && Load(after, account, key).Some? && Hop(after, account, key).None?
            && Read(after, account, key) == Read(files, account, key) + added
  {
  }

  /** The last file closed with a pointer to a name not in use. */
  lemma LastRotated(files: Files, account: string, owner: string, records: seq<Record>, next: string)
    requires AccountTrail(files, account).stops && records != [] && Last(records).Entry?
    requires var key := Last(Names(files, account));
             && key in files && files[key] == Manifest(owner, records) && Load(files, account, key).Some?
             && next != "" && next !in files
    ensures Holds(files, files[Last(Names(files, account)) := Manifest(owner, records + [Rotate(next, |records| + 1)])],
                  account, [])
  {
    var names := Names(files, account);
    var key := Last(names);
    var file := Manifest(owner, records + [Rotate(next, |records| + 1)]);
    var after := files[key := file];
    var more := names + [next];
    TrailWalks(files, account);
    EndRotated(files, account, key, owner, records, next);
    hide AccountTrail, Closed, Load, Data, Hop, Read, ReadAll;
    BeforeLast(files, account, file);
    assert forall k | 0 <= k < |more| - 1 :: Hop(after, account, more[k]) == Some(more[k + 1]);
    WalkIsTrail(after, account, more);
    assert more[..|more| - 1] == names;
    ReadLast(after, account, more);
    ReadLast(after, account, names);
    ReadLast(files, account, names);
    Longer(ReadAll(files, account, names[..|names| - 1]), Read(files, account, key), []);
    assert Read(files, account, key) + [] == Read(files, account, key);
  }

  lemma EndRotated(files: Files, account: string, key: string, owner: string, records: seq<Record>, next: string)
    requires key in files && files[key] == Manifest(owner, records) && Load(files, account, key).Some?
    requires records != [] && Last(records).Entry? && next != "" && next !in files
    ensures var after := files[key := Manifest(owner, records + [Rotate(next, |records| + 1)])];
            && Hop(after, account, key) == Some(next) && Hop(after, account, next).None?
            && Read(after, account, key) == Read(files, account, key) && Read(after, account, next) == []
  {
    assert Last(records + [Rotate(next, |records| + 1)]) == Rotate(next, |records| + 1);
  }

  lemma HoldsTwice(first: Files, second: Files, third: Files, account: string, x: seq<Record>, y: seq<Record>)
    requires Holds(first, second, account, x) && Holds(second, third, account, y)
    ensures Holds(first, third, account, x + y)
  {
    hide AccountTrail, Held;
    var a, b := Names(first, account), Names(second, account);
    forall i | 0 <= i < |a| - 1
      ensures SameAt(first, third, a[i])
    {
      assert a[i] == b[i];
      assert SameAt(first, second, a[i]) && SameAt(second, third, b[i]);
    }
  }

  lemma HoldsStill(files: Files, account: string)
    requires AccountTrail(files, account).stops
    ensures Holds(files, files, account, [])
  {
  }

  lemma NextNameIsName(files: Files, owner: string)
    requires NextName(files, owner).Some?
    ensures NextName(files, owner).value != "" && NextName(files, owner).value !in files
  {
  }

  /** What a run that commits leaves. */
  lemma CommittedRun(files: Files, account: string, recs: seq<Record>, threshold: nat, fault: Fault)
    requires AllEntries(recs) && WriteRun(files, account, recs, threshold, fault).committed
    ensures var o := WriteRun(files, account, recs, threshold, fault);
            var key := Last(Names(files, account));
            && Load(files, account, key).Some? && recs != []
            && var m := Load(files, account, key).value;
               var records := m.records + recs;
               var written := files[key := Manifest(m.account, records)];
               && !Closed(m.records) && Last(records).Entry?
               && (o.files == written
                   || exists next: string :: next != "" && next !in written
                        && o.files == written[key := Manifest(m.account, records + [Rotate(next, |records| + 1)])])
  {
    hide AccountTrail, AppendAll;
    var m := Load(files, account, Last(Names(files, account))).value;
    AppendedRecords(m.records, recs);
    var written := files[Last(Names(files, account)) := Manifest(m.account, m.records + recs)];
    if NextName(written, m.account).Some? {
      NextNameIsName(written, m.account);
    }
    hide NextName;
  }

  /** Whatever happens to a run, and whatever lies on its account's trail, so long as the trail ends. */
  lemma WriteHolds(files: Files, account: string, recs: seq<Record>, threshold: nat, fault: Fault)
    requires AccountTrail(files, account).stops && AllEntries(recs)
    ensures var o := WriteRun(files, account, recs, threshold, fault);
            Holds(files, o.files, account, if o.committed then recs else [])
  {
    var o := WriteRun(files, account, recs, threshold, fault);
    var key := Last(Names(files, account));
    HoldsStill(files, account);
    if o.committed {
      CommittedRun(files, account, recs, threshold, fault);
      hide Holds, Names, Follow, WriteRun, Load, Closed;
      var m := Load(files, account, key).value;
      var records := m.records + recs;
      var written := files[key := Manifest(m.account, records)];
      LastRewritten(files, account, m.account, records, recs);
      if o.files != written {
        var next: string :| next != "" && next !in written
                            && o.files == written[key := Manifest(m.account, records + [Rotate(next, |records| + 1)])];
        LastRotated(written, account, m.account, records, next);
        HoldsTwice(files, written, o.files, account, recs, []);
        assert recs + [] == recs;
      }
    }
  }

  /** A run whose active file cannot be read, or is about another account, is refused and changes no file; so
      is one whose active file is closed for good. Nothing else stops an undisturbed run from committing. */
  lemma RefusedExactly(files: Files, account: string, recs: seq<Record>, threshold: nat)
    requires account != "" && recs != [] && AllEntries(recs)
    ensures var key := Last(Names(files, account));
            var o := WriteRun(files, account, recs, threshold, NoFault);
            var unreadable := key in files && files[key] == Junk;
            var foreign := key in files && files[key].Manifest? && files[key].account !in ["", account];
            var closed := key in files && files[key].Manifest? && files[key].account in ["", account]
                          && files[key].records != [] && !Last(files[key].records).Entry?;
            && (unreadable || foreign || closed ==> o == Outcome(files, false, false))
            && (!unreadable && !foreign && !closed ==> o.committed)
  {
    hide AccountTrail, AppendAll, NextName;
    var key := Last(Names(files, account));
    if Load(files, account, key).Some? {
      AppendedRecords(Load(files, account, key).value.records, recs);
    }
  }

  /** What is on disk, and what is reported, at each point of failure of a run that is not refused: before the
      first write nothing changed; after it the records are there; the file is closed only when the second write
      is done, and that is due at the threshold if a name is left; success is reported if nothing was left to do
      or all was done. */
  lemma FaultsStop(files: Files, account: string, recs: seq<Record>, threshold: nat, fault: Fault)
    requires WriteRun(files, account, recs, threshold, NoFault).committed && AllEntries(recs)
    ensures var key := Last(Names(files, account));
            var o := WriteRun(files, account, recs, threshold, fault);
            && Load(files, account, key).Some?
            && var m := Load(files, account, key).value;
               var records := m.records + recs;
               var written := files[key := Manifest(m.account, records)];
               var next := NextName(written, m.account);
               var due := |records| >= threshold;
               var stops := fault in [StopsAfterFirstWrite, SecondWriteFails];
               var goesOn := fault in [NoFault, NoticeFails];
               && (fault in [OpenFails, AppendFails, FirstWriteFails] ==> o == Outcome(files, false, false))
               && (fault !in [OpenFails, AppendFails, FirstWriteFails] && !due ==> o == Outcome(written, true, true))
               && (due && (stops || (goesOn && next.None?)) ==> o == Outcome(written, true, false))
               && (due && goesOn && next.Some? ==>
                     o == Outcome(written[key := Manifest(m.account, records + [Rotate(next.value, |records| + 1)])],
                                  true, fault == NoFault))
  {
    hide AccountTrail, AppendAll, NextName;
    AppendedRecords(Load(files, account, Last(Names(files, account))).value.records, recs);
  }

  // ---------------------------------------------------------------------------------------------
  // Runs

  /** No manifest leaves its account out. */
  predicate Named(files: Files)
  {
    forall k | k in files && files[k].Manifest? :: files[k].account != ""
  }

  /** A stranger's file names its account, and lies off every trail, or where a trail dangles and harmless
      there as the directory stands. */
  predicate Tolerated(files: Files, accounts: set<string>, step: Step)
  {
    match step
    case Write(account, recs, _) => account in accounts && AllEntries(recs)
    case Meddle(key, content) =>
      && (content.Some? && content.value.Manifest? ==> content.value.account != "")
      && forall a | a in accounts :: key !in Names(files, a) || Dangling(files, a, key, content)
  }

  predicate Dangling(files: Files, account: string, key: string, content: Option<File>)
  {
    key == Last(Names(files, account)) && key !in files
    && content.Some? && Harmless(files, account, key, content.value)
  }

  predicate AllTolerated(files: Files, accounts: set<string>, steps: seq<Step>, threshold: nat)
    decreases |steps|
  {
    steps == []
    || (Tolerated(files, accounts, steps[0])
        && AllTolerated(Apply(files, steps[0], threshold), accounts, steps[1..], threshold))
  }

  /** What a step adds to what can be read: the records a run commits, or what a stranger's file leads to. */
  function Added(files: Files, account: string, step: Step, threshold: nat): seq<Record>
  {
    if step.Meddle? && step.key in Names(files, account) && step.content.Some? then
      ReadFrom(files[step.key := step.content.value], account, |Names(files, account)| - 1)
    else Committed(files, account, step, threshold)
  }

  function Ledger(files: Files, account: string, steps: seq<Step>, threshold: nat): seq<Record>
    decreases |steps|
  {
    if steps == [] then []
    else
      var rest := Ledger(Apply(files, steps[0], threshold), account, steps[1..], threshold);
      Added(files, account, steps[0], threshold) + rest
  }

  lemma StepKeepsNamed(files: Files, accounts: set<string>, step: Step, threshold: nat)
    requires Named(files) && Tolerated(files, accounts, step) && "" !in accounts
    ensures Named(Apply(files, step, threshold))
  {
    hide AccountTrail, AppendAll, Follow, Closed, NextName;
  }

  /** Another account's run changes one file: one that this account's trail does not pass, or cannot read. */
  lemma OthersWriteHolds(files: Files, other: string, step: Step, threshold: nat, account: string)
    requires step.Write? && step.account == other && other != account && other != "" && account != "" && Named(files)
    requires AccountTrail(files, account).stops
    ensures Holds(files, Apply(files, step, threshold), account, [])
  {
    var o := WriteRun(files, other, step.recs, threshold, step.fault);
    var key := Last(Names(files, other));
    HoldsStill(files, account);
    if o.files != files {
      hide AccountTrail, Follow, Holds, AppendAll, NextName, Closed;
      assert Load(files, other, key).Some?;
      assert key in files ==> files[key].account == other;
      assert key in o.files && o.files[key].Manifest? && o.files[key].account == other;
      assert SameElsewhere(files, o.files, key);
      ForeignAtEnd(files, o.files, account, key);
    }
  }

  lemma StepHolds(files: Files, accounts: set<string>, step: Step, threshold: nat, account: string)
    requires Named(files) && "" !in accounts && account in accounts && Tolerated(files, accounts, step)
    requires forall a | a in accounts :: AccountTrail(files, a).stops
    ensures Holds(files, Apply(files, step, threshold), account, Added(files, account, step, threshold))
  {
    match step
    case Write(other, recs, fault) =>
      hide Holds, AccountTrail, WriteRun;
      if other == account {
        WriteHolds(files, account, recs, threshold, fault);
      } else {
        OthersWriteHolds(files, other, step, threshold, account);
      }
    case Meddle(key, content) =>
      hide AccountTrail;
      if key in Names(files, account) {
        StrayHolds(files, account, content.value);
      } else {
        hide Holds;
        OffTrail(files, Apply(files, step, threshold), account, key);
      }
  }

  /** Over every run, in any state of completion, with files that others leave or take away off the trails,
      and harmless ones where a trail dangles: every opening loop terminates, trails only go on, no file a
      trail has passed changes again, and what can be read is, in order, what was committed and what the
      others' files led to. The directory need not be healthy to begin with. */
  lemma {:induction false} RunsHoldBesideStrays(files: Files, accounts: set<string>, steps: seq<Step>, threshold: nat)
    requires Named(files) && "" !in accounts && forall a | a in accounts :: AccountTrail(files, a).stops
    requires AllTolerated(files, accounts, steps, threshold)
    ensures forall a | a in accounts ::
              LoopStops(Run(files, steps, threshold), a)
              && Holds(files, Run(files, steps, threshold), a, Ledger(files, a, steps, threshold))
    decreases |steps|
  {
    hide Holds, AccountTrail, Tolerated, Named, Apply, Added;
    if steps == [] {
      forall a | a in accounts
        ensures LoopStops(files, a) && Holds(files, files, a, [])
      {
        HoldsStill(files, a);
        LoopStopsExactly(files, a);
      }
    } else {
      var after := Apply(files, steps[0], threshold);
      StepKeepsNamed(files, accounts, steps[0], threshold);
      forall a | a in accounts
        ensures Holds(files, after, a, Added(files, a, steps[0], threshold)) && AccountTrail(after, a).stops
      {
        StepHolds(files, accounts, steps[0], threshold, a);
        HoldsMeansStops(files, after, a, Added(files, a, steps[0], threshold));
      }
      RunsHoldBesideStrays(after, accounts, steps[1..], threshold);
      forall a | a in accounts
        ensures Holds(files, Run(files, steps, threshold), a, Ledger(files, a, steps, threshold))
      {
        HoldsTwice(files, after, Run(files, steps, threshold), a,
                   Added(files, a, steps[0], threshold), Ledger(after, a, steps[1..], threshold));
      }
    }
  }

  lemma HoldsMeansStops(before: Files, after: Files, account: string, added: seq<Record>)
    requires Holds(before, after, account, added)
    ensures AccountTrail(after, account).stops
  {
  }
}
