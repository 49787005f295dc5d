/** Every run of manifest writes, finished or interrupted, keeps each account's evidence in one chain. */
module RotationRuns {
  import opened Options
  import opened Lists
  import opened Decimals
  import opened Rotation

  // ---------------------------------------------------------------------------------------------
  // The chain of an account

  /** An account id holds no hyphen, so the generated names of two accounts never meet. */
  predicate AccountId(a: string)
  {
    a != "" && '-' !in a
  }

  ghost predicate OwnName(account: string, key: string)
  {
    key == account || exists n: nat :: key == Name(account, n)
  }

  /** A closed segment: at least the threshold of entries, then one record naming the next file. */
  predicate ClosedSegment(files: Files, account: string, key: string, next: string, threshold: nat)
  {
    key in files && files[key].Manifest? && files[key].account == account
    && var r := files[key].records;
    |r| > threshold && Last(r) == Rotate(next, |r|) && AllEntries(r[..|r| - 1])
  }

  /** The last segment: not written yet, or entries only. */
  predicate OpenSegment(files: Files, account: string, key: string)
  {
    key in files ==>
      files[key].Manifest? && files[key].account == account && files[key].records != []
      && AllEntries(files[key].records)
  }

  ghost predicate Chain(files: Files, account: string, names: seq<string>, threshold: nat)
  {
    names != [] && names[0] == account && Distinct(names)
    && (forall i | 0 <= i < |names| :: OwnName(account, names[i]))
    && (forall i | 0 <= i < |names| - 1 :: ClosedSegment(files, account, names[i], names[i + 1], threshold))
    && OpenSegment(files, account, Last(names))
  }

  /** The records in a file apart from the one that closes it. */
  function Data(files: Files, key: string): seq<Record>
  {
    if key !in files || files[key].Junk? then []
    else
      var r := files[key].records;
      if r != [] && Last(r).Rotate? then r[..|r| - 1] else r
  }

  function Evidence(files: Files, names: seq<string>): seq<Record>
  {
    if names == [] then [] else Evidence(files, names[..|names| - 1]) + Data(files, Last(names))
  }

  // ---------------------------------------------------------------------------------------------
  // A chain is what the opening loop walks

  lemma EntriesLast(records: seq<Record>)
    requires records != [] && AllEntries(records)
    ensures Last(records).Entry?
  {
    assert Last(records) in records;
  }

  lemma HopInChain(files: Files, account: string, names: seq<string>, threshold: nat, i: nat)
    requires account != "" && Chain(files, account, names, threshold) && i < |names|
    ensures Hop(files, account, names[i]) == if i < |names| - 1 then Some(names[i + 1]) else None
    ensures i < |names| - 1 ==> names[i] in files
    ensures i == |names| - 1 ==> Load(files, account, names[i]) == Some(Manifest(account, Data(files, names[i])))
  {
    if i < |names| - 1 {
      assert ClosedSegment(files, account, names[i], names[i + 1], threshold);
      assert OwnName(account, names[i + 1]);
    } else if names[i] in files {
      EntriesLast(files[names[i]].records);
    }
  }

  lemma {:induction false} ChainFollowed(files: Files, account: string, names: seq<string>, threshold: nat, i: nat,
      unseen: set<string>)
    requires account != "" && Chain(files, account, names, threshold) && i < |names|
    requires forall j | i <= j < |names| - 1 :: names[j] in unseen
    ensures Follow(files, account, names[i], unseen) == Trail(names[i..], true)
    decreases |names| - i
  {
    HopInChain(files, account, names, threshold, i);
    if i < |names| - 1 {
      assert names[i] in unseen;
      assert forall j | i + 1 <= j < |names| - 1 :: names[j] in unseen - {names[i]};
      ChainFollowed(files, account, names, threshold, i + 1, unseen - {names[i]});
      assert names[i..] == [names[i]] + names[i + 1..];
    } else {
      assert names[i..] == [names[i]];
    }
  }

  lemma ChainIsTrail(files: Files, account: string, names: seq<string>, threshold: nat)
    requires account != "" && Chain(files, account, names, threshold)
    ensures AccountTrail(files, account) == Trail(names, true)
  {
    forall j | 0 <= j < |names| - 1
      ensures names[j] in files.Keys
    {
      HopInChain(files, account, names, threshold, j);
    }
    ChainFollowed(files, account, names, threshold, 0, files.Keys);
    assert names[0..] == names;
  }

  // ---------------------------------------------------------------------------------------------
  // The three changes a run makes

  lemma {:induction false} SameEvidence(before: Files, after: Files, names: seq<string>)
    requires forall i | 0 <= i < |names| :: Data(before, names[i]) == Data(after, names[i])
    ensures Evidence(before, names) == Evidence(after, names)
  {
    if names != [] {
      SameEvidence(before, after, names[..|names| - 1]);
    }
  }

  predicate SameAt(before: Files, after: Files, key: string)
  {
    (key in before <==> key in after) && (key in before ==> before[key] == after[key])
  }

  /** Files outside the chain do not matter to it. */
  lemma ChainFrame(before: Files, after: Files, account: string, names: seq<string>, threshold: nat)
    requires Chain(before, account, names, threshold)
    requires forall i | 0 <= i < |names| :: SameAt(before, after, names[i])
    ensures Chain(after, account, names, threshold)
    ensures Evidence(after, names) == Evidence(before, names)
  {
    hide Evidence, AllEntries, OwnName;
    SameEvidence(before, after, names);
    forall i | 0 <= i < |names| - 1
      ensures ClosedSegment(after, account, names[i], names[i + 1], threshold)
    {
      assert ClosedSegment(before, account, names[i], names[i + 1], threshold);
      assert SameAt(before, after, names[i]);
    }
    assert SameAt(before, after, names[|names| - 1]);
  }

  /** The last file of a chain may change without touching the others. */
  lemma OthersStayClosed(files: Files, account: string, names: seq<string>, threshold: nat, file: File)
    requires Chain(files, account, names, threshold)
    ensures var after := files[Last(names) := file];
            forall i | 0 <= i < |names| - 1 ::
              names[i] in files && Data(after, names[i]) == Data(files, names[i])
              && ClosedSegment(after, account, names[i], names[i + 1], threshold)
  {
    hide AllEntries, OwnName;
    var after := files[Last(names) := file];
    forall i | 0 <= i < |names| - 1
      ensures names[i] in files && Data(after, names[i]) == Data(files, names[i])
      ensures ClosedSegment(after, account, names[i], names[i + 1], threshold)
    {
      assert ClosedSegment(files, account, names[i], names[i + 1], threshold);
      assert after[names[i]] == files[names[i]];
    }
  }

  lemma EvidenceOfLast(before: Files, after: Files, names: seq<string>, added: seq<Record>)
    requires names != [] && Data(after, Last(names)) == Data(before, Last(names)) + added
    requires forall i | 0 <= i < |names| - 1 :: Data(after, names[i]) == Data(before, names[i])
    ensures Evidence(after, names) == Evidence(before, names) + added
  {
    hide Data;
    var init := names[..|names| - 1];
    SameEvidence(before, after, init);
    assert Evidence(before, init) + (Data(before, Last(names)) + added)
        == Evidence(before, init) + Data(before, Last(names)) + added;
  }

  /** Writing more entries to the last segment. */
  lemma ChainGrows(files: Files, account: string, names: seq<string>, threshold: nat, recs: seq<Record>)
    requires Chain(files, account, names, threshold) && recs != [] && AllEntries(recs)
    ensures var records := Data(files, Last(names)) + recs;
            var after := files[Last(names) := Manifest(account, records)];
            AllEntries(records)
            && Chain(after, account, names, threshold)
            && Evidence(after, names) == Evidence(files, names) + recs
  {
    hide Evidence, ClosedSegment, OwnName;
    var key := Last(names);
    var records := Data(files, key) + recs;
    var after := files[key := Manifest(account, records)];
    EntriesLast(recs);
    assert Last(records) == Last(recs);
    OthersStayClosed(files, account, names, threshold, Manifest(account, records));
    OpenData(files, account, key);
    EntriesAppend(Data(files, key), recs);
    EvidenceOfLast(files, after, names, recs);
  }

  lemma OpenData(files: Files, account: string, key: string)
    requires OpenSegment(files, account, key)
    ensures AllEntries(Data(files, key))
    ensures key in files ==> files[key] == Manifest(account, Data(files, key))
  {
    if key in files {
      EntriesLast(files[key].records);
    }
  }

  /** Closing the last segment with a pointer to a name nobody uses. */
  lemma ChainRotates(files: Files, account: string, names: seq<string>, threshold: nat, records: seq<Record>,
      next: string)
    requires Chain(files, account, names, threshold)
    requires Last(names) in files && files[Last(names)] == Manifest(account, records) && |records| >= threshold
    requires next !in files && OwnName(account, next)
    ensures var after := files[Last(names) := Manifest(account, records + [Rotate(next, |records| + 1)])];
            Chain(after, account, names + [next], threshold)
            && Evidence(after, names + [next]) == Evidence(files, names)
            && next !in after
  {
    hide Evidence, OwnName, Data, ClosedSegment, AllEntries;
    var key, extended := Last(names), names + [next];
    var closed := records + [Rotate(next, |records| + 1)];
    var after := files[key := Manifest(account, closed)];
    OthersStayClosed(files, account, names, threshold, Manifest(account, closed));
    ClosedNow(files, account, key, threshold, records, next);
    forall i | 0 <= i < |extended| - 1
      ensures extended[i] in files && ClosedSegment(after, account, extended[i], extended[i + 1], threshold)
    {
      assert extended[i] == names[i];
    }
    SameEvidence(files, after, names);
    EvidenceOfUnwritten(after, names, next);
  }

  lemma ClosedNow(files: Files, account: string, key: string, threshold: nat, records: seq<Record>, next: string)
    requires key in files && files[key] == Manifest(account, records) && |records| >= threshold
    requires OpenSegment(files, account, key)
    ensures var after := files[key := Manifest(account, records + [Rotate(next, |records| + 1)])];
            ClosedSegment(after, account, key, next, threshold) && Data(after, key) == Data(files, key)
  {
    var closed := records + [Rotate(next, |records| + 1)];
    assert closed[..|closed| - 1] == records;
    EntriesLast(records);
  }

  lemma EvidenceOfUnwritten(files: Files, names: seq<string>, next: string)
    requires next !in files
    ensures Evidence(files, names + [next]) == Evidence(files, names)
  {
    assert (names + [next])[..|names|] == names;
  }

  // ---------------------------------------------------------------------------------------------
  // One run of a writer

  ghost predicate Healthy(files: Files, account: string, threshold: nat)
  {
    account != "" && AccountTrail(files, account).stops
    && Chain(files, account, AccountTrail(files, account).names, threshold)
  }

  function Names(files: Files, account: string): (names: seq<string>)
    ensures names != []
  {
    AccountTrail(files, account).names
  }

  /** What was recorded about an account, read off its chain. */
  function Recorded(files: Files, account: string): seq<Record>
  {
    Evidence(files, Names(files, account))
  }

  ghost predicate IsPrefix(a: seq<string>, b: seq<string>)
  {
    |a| <= |b| && forall i | 0 <= i < |a| :: a[i] == b[i]
  }

  /** The outcome of a run on a healthy chain, in terms of its last segment. */
  lemma RunOnChain(files: Files, account: string, recs: seq<Record>, threshold: nat, fault: Fault)
    requires Healthy(files, account, threshold) && recs != [] && AllEntries(recs)
    ensures var o := WriteRun(files, account, recs, threshold, fault);
            var key := Last(Names(files, account));
            var records := Data(files, key) + recs;
            var written := files[key := Manifest(account, records)];
            var next := NextName(written, account);
            AllEntries(records)
            && ((o == Outcome(files, false, false)
              && (fault.OpenFails? || fault.AppendFails? || fault.FirstWriteFails?))
                || (o == Outcome(written, true, true) && |records| < threshold)
                || (o == Outcome(written, true, false) && |records| >= threshold
                    && (next.None? || fault.StopsAfterFirstWrite? || fault.SecondWriteFails?))
                || (|records| >= threshold && next.Some?
                    && o == Outcome(written[key := Manifest(account, records + [Rotate(next.value, |records| + 1)])],
                                    true, !fault.NoticeFails?)))
  {
    hide NextName, Evidence, Chain, AccountTrail;
    var names := Names(files, account);
    LastOfChain(files, account, names, threshold);
    EntriesAppend(Data(files, Last(names)), recs);
    EntriesLast(Data(files, Last(names)) + recs);
  }

  lemma LastOfChain(files: Files, account: string, names: seq<string>, threshold: nat)
    requires account != "" && Chain(files, account, names, threshold)
    ensures Load(files, account, Last(names)) == Some(Manifest(account, Data(files, Last(names))))
    ensures AllEntries(Data(files, Last(names)))
  {
    HopInChain(files, account, names, threshold, |names| - 1);
    if Last(names) in files {
      EntriesLast(files[Last(names)].records);
    }
  }

  /** What a run leaves of its account's chain. */
  ghost predicate Kept(before: Files, after: Files, account: string, threshold: nat, added: seq<Record>)
  {
    var names := Names(before, account);
    Healthy(after, account, threshold)
    && IsPrefix(names, Names(after, account))
    && (forall i | 0 <= i < |names| - 1 :: SameAt(before, after, names[i]))
    && Recorded(after, account) == Recorded(before, account) + added
  }

  lemma RotatedNames(files: Files, account: string, names: seq<string>, threshold: nat)
    requires account != "" && Chain(files, account, names, threshold)
    ensures Healthy(files, account, threshold) && Names(files, account) == names
    ensures Recorded(files, account) == Evidence(files, names)
  {
    ChainIsTrail(files, account, names, threshold);
  }

  /** Whatever happens to a run, the account's chain continues the one before it, closed files
      are untouched, and the evidence grows by the run's records or by nothing. */
  lemma RunKeepsChain(files: Files, account: string, recs: seq<Record>, threshold: nat, fault: Fault)
    requires Healthy(files, account, threshold) && AllEntries(recs)
    ensures var o := WriteRun(files, account, recs, threshold, fault);
            Kept(files, o.files, account, threshold, if o.committed then recs else [])
  {
    hide WriteRun, Chain, Evidence, NextName, AccountTrail;
    var o := WriteRun(files, account, recs, threshold, fault);
    var names := Names(files, account);
    if recs == [] {
      NothingToWrite(files, account, recs, threshold, fault);
    } else {
      RunOnChain(files, account, recs, threshold, fault);
      ChainGrows(files, account, names, threshold, recs);
      var key := Last(names);
      var records := Data(files, key) + recs;
      var written := files[key := Manifest(account, records)];
      if !o.committed {
        assert o.files == files;
      } else if o.files == written {
        RotatedNames(written, account, names, threshold);
        ClosedFilesStay(files, account, names, threshold, Manifest(account, records));
      } else {
        var next := NextName(written, account).value;
        NextNameIsOwn(written, account);
        ChainRotates(written, account, names, threshold, records, next);
        RotatedNames(o.files, account, names + [next], threshold);
        ClosedFilesStay(files, account, names, threshold, Manifest(account, records + [Rotate(next, |records| + 1)]));
        assert o.files == files[key := Manifest(account, records + [Rotate(next, |records| + 1)])];
      }
    }
  }

  lemma NothingToWrite(files: Files, account: string, recs: seq<Record>, threshold: nat, fault: Fault)
    requires recs == []
    ensures WriteRun(files, account, recs, threshold, fault) == Outcome(files, false, true)
  {
  }

  lemma NextNameIsOwn(files: Files, account: string)
    requires NextName(files, account).Some?
    ensures NextName(files, account).value !in files && OwnName(account, NextName(files, account).value)
  {
  }

  lemma ClosedFilesStay(files: Files, account: string, names: seq<string>, threshold: nat, file: File)
    requires Chain(files, account, names, threshold)
    ensures forall i | 0 <= i < |names| - 1 :: SameAt(files, files[Last(names) := file], names[i])
  {
  }

  /** A run that reports success has recorded everything, and the active segment is below the threshold. */
  lemma SuccessIsBelowThreshold(files: Files, account: string, recs: seq<Record>, threshold: nat, fault: Fault)
    requires Healthy(files, account, threshold) && recs != [] && AllEntries(recs) && threshold > 0
    ensures var o := WriteRun(files, account, recs, threshold, fault);
            o.ok ==> o.committed && |Data(o.files, Last(Names(o.files, account)))| < threshold
  {
    hide WriteRun, Chain, Evidence, NextName, AccountTrail;
    var o := WriteRun(files, account, recs, threshold, fault);
    var names := Names(files, account);
    RunOnChain(files, account, recs, threshold, fault);
    if o.ok {
      ChainGrows(files, account, names, threshold, recs);
      var key := Last(names);
      var records := Data(files, key) + recs;
      var written := files[key := Manifest(account, records)];
      if o.files == written && |records| < threshold {
        RotatedNames(written, account, names, threshold);
      } else {
        var next := NextName(written, account).value;
        NextNameIsOwn(written, account);
        ChainRotates(written, account, names, threshold, records, next);
        RotatedNames(o.files, account, names + [next], threshold);
        assert Last(names + [next]) == next;
      }
    }
  }

  /** An undisturbed run fails only when it must rotate and every name is taken. */
  lemma UndisturbedRunSucceeds(files: Files, account: string, recs: seq<Record>, threshold: nat)
    requires Healthy(files, account, threshold) && recs != [] && AllEntries(recs)
    ensures var key := Last(Names(files, account));
            var records := Data(files, key) + recs;
            WriteRun(files, account, recs, threshold, NoFault).ok <==>
            |records| < threshold
            || exists k: nat :: 2 <= k < NAME_LIMIT && Name(account, k) !in files && Name(account, k) != key
  {
    hide WriteRun, Chain, Evidence, NextName, AccountTrail;
    var key := Last(Names(files, account));
    var written := files[key := Manifest(account, Data(files, key) + recs)];
    RunOnChain(files, account, recs, threshold, NoFault);
    NextNameIsFirst(written, account);
    assert forall k: nat :: Name(account, k) in written <==> Name(account, k) in files || Name(account, k) == key;
  }

  // ---------------------------------------------------------------------------------------------
  // Runs

  datatype Step =
    | Write(account: string, recs: seq<Record>, fault: Fault)
    | Meddle(key: string, content: Option<File>)

  function Apply(files: Files, step: Step, threshold: nat): Files
  {
    match step
    case Write(account, recs, fault) => WriteRun(files, account, recs, threshold, fault).files
    case Meddle(key, content) => if content.Some? then files[key := content.value] else files - {key}
  }

  /** Writers append entries; strangers keep away from the accounts' chains, successor names included. */
  predicate Allowed(files: Files, accounts: set<string>, step: Step)
  {
    match step
    case Write(account, recs, _) => account in accounts && AllEntries(recs)
    case Meddle(key, _) => forall a | a in accounts :: key !in Names(files, a)
  }

  predicate AllAllowed(files: Files, accounts: set<string>, steps: seq<Step>, threshold: nat)
    decreases |steps|
  {
    steps == []
    || (Allowed(files, accounts, steps[0])
      && AllAllowed(Apply(files, steps[0], threshold), accounts, steps[1..], threshold))
  }

  function Run(files: Files, steps: seq<Step>, threshold: nat): Files
    decreases |steps|
  {
    if steps == [] then files else Run(Apply(files, steps[0], threshold), steps[1..], threshold)
  }

  /** The records a step commits about an account. */
  function Committed(files: Files, account: string, step: Step, threshold: nat): seq<Record>
  {
    if step.Write? && step.account == account
       && WriteRun(files, account, step.recs, threshold, step.fault).committed then step.recs
    else []
  }

  function Log(files: Files, account: string, steps: seq<Step>, threshold: nat): seq<Record>
    decreases |steps|
  {
    if steps == [] then []
    else Committed(files, account, steps[0], threshold)
         + Log(Apply(files, steps[0], threshold), account, steps[1..], threshold)
  }

  /** What comes before the first hyphen. */
  function Stem(key: string): string
  {
    if key == [] || key[0] == '-' then [] else [key[0]] + Stem(key[1..])
  }

  lemma {:induction false} StemOfSum(a: string, rest: string)
    requires '-' !in a && (rest == [] || rest[0] == '-')
    ensures Stem(a + rest) == a
  {
    if a != [] {
      assert a[0] in a && (a + rest)[1..] == a[1..] + rest;
      StemOfSum(a[1..], rest);
    } else {
      assert a + rest == rest;
    }
  }

  lemma OwnNamesApart(a: string, b: string, key: string)
    requires AccountId(a) && AccountId(b) && a != b && OwnName(a, key)
    ensures !OwnName(b, key)
  {
    StemOfOwn(a, key);
    if OwnName(b, key) {
      StemOfOwn(b, key);
    }
  }

  lemma StemOfOwn(a: string, key: string)
    requires AccountId(a) && OwnName(a, key)
    ensures Stem(key) == a
  {
    hide Decimal, Stem;
    if key == a {
      StemOfSum(a, []);
      assert a + [] == a;
    } else {
      var n: nat :| key == Name(a, n);
      StemOfSum(a, ['-'] + Decimal(n));
      assert a + (['-'] + Decimal(n)) == key;
    }
  }

  /** A run of one account's writer changes one file, which is on that account's chain. */
  lemma RunTouchesOwnName(files: Files, account: string, recs: seq<Record>, threshold: nat, fault: Fault, key: string)
    requires key != Last(Names(files, account))
    ensures SameAt(files, WriteRun(files, account, recs, threshold, fault).files, key)
  {
    hide AccountTrail, NextName;
  }

  lemma OtherChainsKept(before: Files, after: Files, account: string, threshold: nat)
    requires Healthy(before, account, threshold)
    requires forall i | 0 <= i < |Names(before, account)| :: SameAt(before, after, Names(before, account)[i])
    ensures Kept(before, after, account, threshold, [])
  {
    hide Chain, Evidence, AccountTrail;
    var names := Names(before, account);
    ChainFrame(before, after, account, names, threshold);
    RotatedNames(after, account, names, threshold);
  }

  lemma StepKeepsChain(files: Files, accounts: set<string>, step: Step, threshold: nat, a: string)
    requires forall b | b in accounts :: AccountId(b) && Healthy(files, b, threshold)
    requires Allowed(files, accounts, step) && a in accounts
    ensures Kept(files, Apply(files, step, threshold), a, threshold, Committed(files, a, step, threshold))
  {
    hide Chain, Evidence, AccountTrail, WriteRun, Kept;
    var names, after := Names(files, a), Apply(files, step, threshold);
    match step
    case Write(b, recs, fault) =>
      if a == b {
        RunKeepsChain(files, a, recs, threshold, fault);
      } else {
        assert Healthy(files, b, threshold);
        var last := Last(Names(files, b));
        ChainNamesAreOwn(files, b, Names(files, b), threshold);
        ChainNamesAreOwn(files, a, names, threshold);
        forall i | 0 <= i < |names|
          ensures SameAt(files, after, names[i])
        {
          OwnNamesApart(a, b, names[i]);
          assert OwnName(b, last);
          RunTouchesOwnName(files, b, recs, threshold, fault, names[i]);
        }
        OtherChainsKept(files, after, a, threshold);
      }
    case Meddle(key, content) =>
      forall i | 0 <= i < |names|
        ensures SameAt(files, after, names[i])
      {
        assert names[i] in names;
      }
      OtherChainsKept(files, after, a, threshold);
  }

  lemma ChainNamesAreOwn(files: Files, account: string, names: seq<string>, threshold: nat)
    requires Chain(files, account, names, threshold)
    ensures forall i | 0 <= i < |names| :: OwnName(account, names[i])
    ensures OwnName(account, Last(names))
  {
  }

  lemma KeptTwice(first: Files, second: Files, third: Files, account: string, threshold: nat, x: seq<Record>,
      y: seq<Record>)
    requires Kept(first, second, account, threshold, x) && Kept(second, third, account, threshold, y)
    ensures Kept(first, third, account, threshold, x + y)
  {
    hide Chain, Evidence, AccountTrail;
    var a, b := Names(first, account), Names(second, account);
    assert Recorded(first, account) + x + y == Recorded(first, account) + (x + y);
    forall i | 0 <= i < |a| - 1
      ensures SameAt(first, third, a[i])
    {
      assert a[i] == b[i];
      assert SameAt(first, second, a[i]) && SameAt(second, third, b[i]);
    }
  }

  /** Over every run, for every account: the loop that opens its manifest terminates, the chain
      only grows, closed files never change again, and the evidence is exactly what was committed. */
  lemma {:induction false} RunsConserveEvidence(files: Files, accounts: set<string>, steps: seq<Step>, threshold: nat)
    requires forall a | a in accounts :: AccountId(a) && Healthy(files, a, threshold)
    requires AllAllowed(files, accounts, steps, threshold)
    ensures forall a | a in accounts ::
              Kept(files, Run(files, steps, threshold), a, threshold, Log(files, a, steps, threshold))
    decreases |steps|
  {
    hide Chain, Evidence, AccountTrail, WriteRun, Healthy, Committed;
    if steps == [] {
      forall a | a in accounts
        ensures Kept(files, files, a, threshold, [])
      {
      }
    } else {
      var after := Apply(files, steps[0], threshold);
      forall a | a in accounts
        ensures Kept(files, after, a, threshold, Committed(files, a, steps[0], threshold))
      {
        StepKeepsChain(files, accounts, steps[0], threshold, a);
      }
      RunsConserveEvidence(after, accounts, steps[1..], threshold);
      forall a | a in accounts
        ensures Kept(files, Run(files, steps, threshold), a, threshold, Log(files, a, steps, threshold))
      {
        KeptTwice(files, after, Run(files, steps, threshold), a, threshold,
                  Committed(files, a, steps[0], threshold), Log(after, a, steps[1..], threshold));
      }
    }
  }

  /** An account with no file yet has an empty chain. */
  lemma NewAccountIsHealthy(files: Files, account: string, threshold: nat)
    requires AccountId(account) && account !in files
    ensures Healthy(files, account, threshold) && Names(files, account) == [account] && Recorded(files, account) == []
  {
    assert Chain(files, account, [account], threshold);
    RotatedNames(files, account, [account], threshold);
    EvidenceOfUnwritten(files, [], account);
    assert [] + [account] == [account];
  }

  /** From a directory without files of these accounts, however many strays it holds. */
  lemma EvidenceFromTheStart(files: Files, accounts: set<string>, steps: seq<Step>, threshold: nat, account: string)
    requires forall a | a in accounts :: AccountId(a) && a !in files
    requires AllAllowed(files, accounts, steps, threshold) && account in accounts
    ensures var final := Run(files, steps, threshold);
            var names := Names(final, account);
            LoopStops(final, account) && Distinct(names) && names[0] == account
            && Evidence(final, names) == Log(files, account, steps, threshold)
            && (forall i | 0 <= i < |names| - 1 :: ClosedSegment(final, account, names[i], names[i + 1], threshold))
  {
    forall a | a in accounts
      ensures Healthy(files, a, threshold)
    {
      NewAccountIsHealthy(files, a, threshold);
    }
    NewAccountIsHealthy(files, account, threshold);
    RunsConserveEvidence(files, accounts, steps, threshold);
    LoopStopsExactly(Run(files, steps, threshold), account);
  }
}
