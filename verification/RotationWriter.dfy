/** The writers as they run: manifests held in memory, a directory they are read from and written to. */
module RotationWriter {
  import opened Options
  import opened Rotation

  /** A manifest in memory. */
  class OpenManifest {
    const account: string
    var records: seq<Record>

    constructor (account: string, records: seq<Record>)
      ensures this.account == account && this.records == records
    {
      this.account := account;
      this.records := records;
    }

    /** Adds a record; a closed manifest, or a failure to sign or validate, refuses it. */
    method Append(rec: Record, fails: bool) returns (ok: bool)
      modifies this`records
      ensures ok == (!Closed(old(records)) && !fails)
      ensures records == if ok then old(records) + [rec] else old(records)
    {
      if Closed(records) || fails {
        return false;
      }
      records := records + [rec];
      return true;
    }

    /** Closes the manifest with a record naming the next one. */
    method Rotate(successor: string) returns (ok: bool)
      modifies this`records
      ensures ok == !Closed(old(records))
      ensures records == if ok then old(records) + [Record.Rotate(successor, |old(records)| + 1)] else old(records)
    {
      ok := Append(Record.Rotate(successor, |records| + 1), false);
    }
  }

  class Dir {
    var files: Files

    method LoadOrNewNamed(key: string, account: string, fails: bool) returns (m: OpenManifest?)
      ensures m == null <==> fails || Load(files, account, key).None?
      ensures m != null ==> fresh(m) && Load(files, account, key) == Some(Manifest(m.account, m.records))
    {
      if fails {
        return null;
      }
      if key !in files {
        m := new OpenManifest(account, []);
        return;
      }
      match files[key]
      case Junk =>
        return null;
      case Manifest(about, records) =>
        if about != "" && account != "" && about != account {
          return null;
        }
        m := new OpenManifest(about, records);
    }

    method Exists(key: string) returns (found: bool)
      ensures found == (key in files)
    {
      return key in files;
    }

    /** A manifest without records is refused. */
    method WriteNamed(m: OpenManifest, key: string, fails: bool) returns (ok: bool)
      modifies this
      ensures ok == (m.records != [] && !fails)
      ensures files == if ok then old(files)[key := Manifest(m.account, m.records)] else old(files)
    {
      if m.records == [] || fails {
        return false;
      }
      files := files[key := Manifest(m.account, m.records)];
      return true;
    }
  }

  /** The manifest an account's next record goes to. */
  method OpenActiveManifest(dir: Dir, account: string, fault: Fault) returns (key: string, m: OpenManifest?)
    requires LoopStops(dir.files, account)
    ensures m == null <==>
              fault.OpenFails? || Load(dir.files, account, Last(AccountTrail(dir.files, account).names)).None?
    ensures m != null ==> fresh(m) && key == Last(AccountTrail(dir.files, account).names)
    ensures m != null ==> Load(dir.files, account, key) == Some(Manifest(m.account, m.records))
  {
    ghost var files := dir.files;
    ghost var turns: nat := TurnsOf(files, account);
    ghost var left: nat := turns;
    StopsAtTrailEnd(files, account, turns);
    key := account;
    while true
      invariant dir.files == files && left <= turns
      invariant key == Reached(files, account, account, turns - left)
      invariant StopsAfter(files, account, key, left)
      decreases left
    {
      m := dir.LoadOrNewNamed(key, account, fault.OpenFails?);
      if m == null {
        if !fault.OpenFails? {
          StopsOnce(files, account, key, left, 0);
        }
        return;
      }
      if !PointsOn(m.records) {
        StopsOnce(files, account, key, left, 0);
        return;
      }
      assert Hop(files, account, key).Some?;
      NextTurn(files, account, turns, turns - left);
      key := Last(m.records).successor;
      left := left - 1;
    }
  }

  ghost function TurnsOf(files: Files, account: string): (n: nat)
    requires LoopStops(files, account)
    ensures StopsAfter(files, account, account, n)
  {
    var n: nat :| StopsAfter(files, account, account, n);
    n
  }

  lemma StopsAtTrailEnd(files: Files, account: string, turns: nat)
    requires StopsAfter(files, account, account, turns)
    ensures Reached(files, account, account, turns) == Last(AccountTrail(files, account).names)
  {
    LoopStopsExactly(files, account);
    TrailStops(files, account, account, files.Keys);
    TrailReached(files, account, account, files.Keys);
    StopsOnce(files, account, account, turns, |AccountTrail(files, account).names| - 1);
  }

  lemma NextTurn(files: Files, account: string, turns: nat, i: nat)
    requires StopsAfter(files, account, account, turns) && i < turns
    ensures Hop(files, account, Reached(files, account, account, i)).Some?
    ensures Reached(files, account, account, i + 1) == Hop(files, account, Reached(files, account, account, i)).value
    ensures StopsAfter(files, account, Reached(files, account, account, i + 1), turns - i - 1)
  {
    TurnsLeft(files, account, account, turns, i);
    TurnsLeft(files, account, account, turns, i + 1);
    OneMore(files, account, account, turns, i);
  }

  lemma {:induction false} OneMore(files: Files, account: string, key: string, turns: nat, i: nat)
    requires StopsAfter(files, account, key, turns) && i < turns
    ensures Hop(files, account, Reached(files, account, key, i)).Some?
    ensures Reached(files, account, key, i + 1) == Hop(files, account, Reached(files, account, key, i)).value
    decreases i
  {
    var next := Hop(files, account, key).value;
    assert Reached(files, account, key, i + 1) == Reached(files, account, next, i);
    if i > 0 {
      OneMore(files, account, next, turns - 1, i - 1);
    } else {
      assert Reached(files, account, next, 0) == next;
    }
  }

  /** The first unused numbered name. */
  method NextRotationKey(dir: Dir, account: string) returns (r: Option<string>)
    ensures r == NextName(dir.files, account)
  {
    var n: nat := 2;
    while n < NAME_LIMIT
      invariant NextName(dir.files, account) == NextNameFrom(dir.files, account, n)
    {
      var candidate := Name(account, n);
      var taken := dir.Exists(candidate);
      if !taken {
        return Some(candidate);
      }
      n := n + 1;
    }
    return None;
  }

  /** Writes the manifest and rotates it if it has reached the threshold. */
  method WriteManifestWithRotation(dir: Dir, key: string, m: OpenManifest, threshold: nat, fault: Fault)
      returns (ok: bool)
    requires m.records != []
    modifies dir, m`records
    ensures var next := NextName(old(dir.files)[key := Manifest(m.account, old(m.records))], m.account);
            var written := old(dir.files)[key := Manifest(m.account, old(m.records))];
            if fault.FirstWriteFails? then
              !ok && dir.files == old(dir.files)
            else if |old(m.records)| < threshold then
              ok && dir.files == written && m.records == old(m.records)
            else if fault.StopsAfterFirstWrite? || next.None? || Closed(old(m.records)) || fault.SecondWriteFails? then
              !ok && dir.files == written
            else
              ok == !fault.NoticeFails?
              && m.records == old(m.records) + [Record.Rotate(next.value, |old(m.records)| + 1)]
              && dir.files == written[key := Manifest(m.account, m.records)]
  {
    ok := dir.WriteNamed(m, key, fault.FirstWriteFails?);
    if !ok || |m.records| < threshold {
      return;
    }
    if fault.StopsAfterFirstWrite? {
      return false;
    }
    var successor := NextRotationKey(dir, m.account);
    if successor.None? {
      return false;
    }
    ok := m.Rotate(successor.value);
    if !ok {
      return;
    }
    ok := dir.WriteNamed(m, key, fault.SecondWriteFails?);
    if ok && fault.NoticeFails? {
      ok := false;
    }
  }

  /** A writer's run: open, append every record, write and perhaps rotate. */
  method WriteEvidence(dir: Dir, account: string, recs: seq<Record>, threshold: nat, fault: Fault) returns (ok: bool)
    requires LoopStops(dir.files, account)
    modifies dir
    ensures var o := WriteRun(old(dir.files), account, recs, threshold, fault);
            dir.files == o.files && ok == o.ok
  {
    hide AccountTrail, NextName, Load;
    if account == "" || recs == [] {
      return true;
    }
    var key, m := OpenActiveManifest(dir, account, fault);
    if m == null {
      return false;
    }
    ghost var before := m.records;
    var i := 0;
    while i < |recs|
      invariant fresh(m) && dir.files == old(dir.files) && 0 <= i <= |recs|
      invariant i > 0 ==> !fault.AppendFails? && m.records != []
      invariant AppendAll(before, recs) == AppendAll(m.records, recs[i..])
    {
      var appended := m.Append(recs[i], fault.AppendFails?);
      if !appended {
        return false;
      }
      assert recs[i..][0] == recs[i] && recs[i..][1..] == recs[i + 1..];
      i := i + 1;
    }
    assert recs[i..] == [];
    ok := WriteManifestWithRotation(dir, key, m, threshold, fault);
  }
}
