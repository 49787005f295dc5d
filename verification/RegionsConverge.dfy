/** The region step converges, repeats without writing, resumes after any failure, and is planned truthfully. */
module RegionsConverge {
  import opened Options
  import opened Lists
  import opened Regions

  predicate Disjoint(spec: Spec)
  {
    forall name | name in spec.enable :: name !in spec.disable
  }

  /** A region that is named more than once is already where it should be. */
  predicate RepeatsSettled(a: Account, names: seq<string>, on: bool)
  {
    forall i, j | 0 <= i < j < |names| && names[i] == names[j] :: Wanted(a, names[i], on)
  }

  /** No region is named both ways, and those named more than once need no change. */
  predicate Orderly(a: Account, spec: Spec)
  {
    Disjoint(spec) && RepeatsSettled(a, spec.enable, true) && RepeatsSettled(a, spec.disable, false)
  }

  /** What the profile's validation demands: no region is named twice. It is then orderly on any account. */
  lemma NamedOnceIsOrderly(a: Account, spec: Spec)
    requires Distinct(spec.enable) && Distinct(spec.disable) && Disjoint(spec)
    ensures Orderly(a, spec)
  {
  }

  ghost predicate AllToward(a: Account, b: Account, names: seq<string>, on: bool)
  {
    (forall name | name in names :: Toward(a, b, name, on)) && (forall name | name !in names :: SameRegion(a, b, name))
  }

  predicate AllWanted(a: Account, names: seq<string>, on: bool)
  {
    forall name | name in names :: Wanted(a, name, on)
  }

  predicate AllWithinPolls(a: Account, mode: Mode, names: seq<string>, on: bool)
  {
    forall name | name in names :: WithinPolls(a, mode, name, on)
  }

  function ActionsFor(a: Account, names: seq<string>, on: bool, planning: bool): seq<Action>
  {
    if names == [] then []
    else
      [Action(VerbFor(StatusOf(a, names[0]), on), names[0], !planning && !Wanted(a, names[0], on))]
      + ActionsFor(a, names[1..], on, planning)
  }

  lemma TowardTwice(a: Account, b: Account, c: Account, names: seq<string>, on: bool)
    requires names != [] && (names[0] in names[1..] ==> a == b)
    requires OthersSame(a, b, names[0]) && Toward(a, b, names[0], on) && AllToward(b, c, names[1..], on)
    ensures AllToward(a, c, names, on)
  {
    hide Toward;
    forall name | name in names
      ensures Toward(a, c, name, on)
    {
      if name !in names[1..] {
        assert SameRegion(b, c, name);
        TowardSame(a, b, c, name, on);
      } else if name != names[0] {
        assert SameRegion(a, b, name) && Toward(b, c, name, on);
        SameToward(a, b, c, name, on);
      }
    }
    forall name | name !in names
      ensures SameRegion(a, c, name)
    {
      assert SameRegion(a, b, name) && SameRegion(b, c, name);
    }
  }

  lemma TowardSame(a: Account, b: Account, c: Account, name: string, on: bool)
    requires Toward(a, b, name, on) && SameRegion(b, c, name)
    ensures Toward(a, c, name, on)
  {
  }

  lemma SameToward(a: Account, b: Account, c: Account, name: string, on: bool)
    requires SameRegion(a, b, name) && Toward(b, c, name, on)
    ensures Toward(a, c, name, on)
  {
  }

  lemma RepeatsTail(a: Account, names: seq<string>, on: bool)
    requires names != [] && RepeatsSettled(a, names, on)
    ensures RepeatsSettled(a, names[1..], on)
    ensures names[0] in names[1..] ==> Wanted(a, names[0], on)
  {
    var rest := names[1..];
    assert forall i | 0 <= i < |rest| :: rest[i] == names[i + 1];
    if names[0] in rest {
      var j :| 0 <= j < |rest| && rest[j] == names[0];
      assert names[j + 1] == names[0];
    }
  }

  /** No region to disable is one that cannot be. */
  predicate Removable(a: Account, names: seq<string>, on: bool)
  {
    forall name | name in names :: on || StatusOf(a, name) != Some(EnabledByDefault)
  }

  /** From s to t the listed regions were seen to, and no others. */
  ghost predicate ManyOutcome(s: Session, t: Session, mode: Mode, names: seq<string>, on: bool)
  {
    AllToward(s.account, t.account, names, on)
    && (AllWanted(s.account, names, on) ==> t.account == s.account && t.calls == s.calls && t.trouble == NoTrouble)
    && (t.trouble == NoTrouble ==> AllWanted(t.account, names, on))
    && (mode.failAt.None? ==> (t.trouble == NoTrouble <==> AllWithinPolls(s.account, mode, names, on)))
  }

  /** A list of regions, each seen as it still is. */
  lemma {:induction false} ManyRegions(s: Session, mode: Mode, names: seq<string>, seen: Account, on: bool)
    requires s.trouble == NoTrouble && !mode.planning && RepeatsSettled(s.account, names, on)
    requires Removable(s.account, names, on)
    requires forall name | name in names :: StatusOf(seen, name) == StatusOf(s.account, name)
    ensures ManyOutcome(s, EnsureAll(s, mode, names, seen, on), mode, names, on)
    decreases |names|
  {
    hide EnsureOne, StatusOf, OneOutcome, ManyOutcome;
    if names != [] {
      var name, rest := names[0], names[1..];
      var one := EnsureOne(s, mode, name, StatusOf(seen, name), on);
      OneRegion(s, mode, name, on);
      RepeatsTail(s.account, names, on);
      OthersSameAfter(s, one, mode, name, on);
      if one.trouble == NoTrouble {
        RestSame(s.account, one.account, mode, names, on);
        ManyRegions(one, mode, rest, seen, on);
        OneThenMany(s, one, EnsureAll(one, mode, rest, seen, on), mode, names, on);
      } else {
        StuckSession(one, mode, rest, seen, on);
        OneThenStuck(s, one, mode, names, on);
      }
    } else {
      NoneOutcome(s, mode, on);
    }
  }

  lemma NoneOutcome(s: Session, mode: Mode, on: bool)
    requires s.trouble == NoTrouble
    ensures ManyOutcome(s, s, mode, [], on)
  {
  }

  lemma OthersSameAfter(s: Session, t: Session, mode: Mode, name: string, on: bool)
    requires OneOutcome(s, t, mode, name, on)
    ensures OthersSame(s.account, t.account, name)
    ensures Wanted(s.account, name, on) ==> t.account == s.account
  {
  }

  lemma OneThenMany(s: Session, one: Session, t: Session, mode: Mode, names: seq<string>, on: bool)
    requires names != [] && RepeatsSettled(s.account, names, on) && Removable(s.account, names, on)
    requires one.trouble == NoTrouble
    requires OneOutcome(s, one, mode, names[0], on) && ManyOutcome(one, t, mode, names[1..], on)
    ensures ManyOutcome(s, t, mode, names, on)
  {
    hide Toward, SameRegion, StatusOf, Wanted, WithinPolls, AllWanted, AllWithinPolls, AllToward, OthersSame,
         ActionsFor, VerbFor, RepeatsSettled;
    RepeatsTail(s.account, names, on);
    RestSame(s.account, one.account, mode, names, on);
    HeadAndRest(s.account, mode, names, on);
    TowardTwice(s.account, one.account, t.account, names, on);
    if t.trouble == NoTrouble {
      FirstStaysWanted(one.account, t.account, names, on);
    }
  }

  lemma OneThenStuck(s: Session, one: Session, mode: Mode, names: seq<string>, on: bool)
    requires names != [] && one.trouble != NoTrouble && OneOutcome(s, one, mode, names[0], on)
    ensures ManyOutcome(s, one, mode, names, on)
  {
    hide Toward, SameRegion, StatusOf, Wanted, WithinPolls, AllWanted, AllWithinPolls, AllToward, OthersSame,
         ActionsFor, VerbFor;
    HeadAndRest(s.account, mode, names, on);
    StoppedEarly(s.account, one.account, names, on);
  }

  lemma HeadAndRest(a: Account, mode: Mode, names: seq<string>, on: bool)
    requires names != []
    ensures AllWanted(a, names, on) <==> Wanted(a, names[0], on) && AllWanted(a, names[1..], on)
    ensures AllWithinPolls(a, mode, names, on) <==>
              WithinPolls(a, mode, names[0], on) && AllWithinPolls(a, mode, names[1..], on)
  {
    hide Wanted, WithinPolls, StatusOf;
    assert names == [names[0]] + names[1..];
  }

  lemma RestSame(a: Account, b: Account, mode: Mode, names: seq<string>, on: bool)
    requires names != [] && RepeatsSettled(a, names, on) && OthersSame(a, b, names[0]) && Removable(a, names, on)
    requires names[0] in names[1..] ==> a == b
    ensures Removable(b, names[1..], on) && RepeatsSettled(b, names[1..], on)
    ensures forall name | name in names[1..] :: StatusOf(a, name) == StatusOf(b, name)
    ensures AllWithinPolls(a, mode, names[1..], on) <==> AllWithinPolls(b, mode, names[1..], on)
    ensures AllWanted(a, names[1..], on) <==> AllWanted(b, names[1..], on)
  {
    RepeatsTail(a, names, on);
    forall name | name in names[1..]
      ensures SameRegion(a, b, name)
    {
    }
    assert forall i | 0 <= i < |names[1..]| :: names[1..][i] in names[1..];
  }

  lemma FirstStaysWanted(a: Account, b: Account, names: seq<string>, on: bool)
    requires names != [] && AllToward(a, b, names[1..], on)
    requires Wanted(a, names[0], on) && AllWanted(b, names[1..], on)
    ensures AllWanted(b, names, on)
  {
    hide Toward;
    if names[0] !in names[1..] {
      assert SameRegion(a, b, names[0]);
    }
  }

  lemma StoppedEarly(a: Account, b: Account, names: seq<string>, on: bool)
    requires names != [] && OthersSame(a, b, names[0]) && Toward(a, b, names[0], on)
    ensures AllToward(a, b, names, on)
  {
    forall name | name in names
      ensures Toward(a, b, name, on)
    {
      if name != names[0] {
        assert SameRegion(a, b, name);
      }
    }
  }

  // ---------------------------------------------------------------------------------------------
  // The whole step

  lemma {:induction false} UndisablableExactly(a: Account, names: seq<string>)
    ensures Undisablable(a, names) == [] <==> Removable(a, names, false)
    ensures forall name ::
              name in Undisablable(a, names) <==> name in names && StatusOf(a, name) == Some(EnabledByDefault)
  {
    if names != [] {
      UndisablableExactly(a, names[1..]);
    }
  }

  /** Each wanted region is on, each unwanted one off. */
  predicate Satisfied(a: Account, spec: Spec)
  {
    AllWanted(a, spec.enable, true) && AllWanted(a, spec.disable, false)
  }

  /** What a caller can check beforehand: nothing to disable is always on, and each change fits the poll limit. */
  predicate Reachable(a: Account, mode: Mode, spec: Spec)
  {
    Removable(a, spec.disable, false)
    && AllWithinPolls(a, mode, spec.enable, true) && AllWithinPolls(a, mode, spec.disable, false)
  }

  /** From a to b, each named region stayed or reached its side, and no other region changed. */
  ghost predicate Progress(a: Account, b: Account, spec: Spec)
  {
    (forall name | name in spec.enable :: Toward(a, b, name, true))
    && (forall name | name in spec.disable :: Toward(a, b, name, false))
    && (forall name | name !in spec.enable && name !in spec.disable :: SameRegion(a, b, name))
  }

  lemma NoProgress(a: Account, spec: Spec)
    ensures Progress(a, a, spec)
  {
  }

  /** The regions to disable are, after the enabling, as they were. */
  lemma DisableSideSame(a: Account, b: Account, mode: Mode, spec: Spec)
    requires Disjoint(spec) && AllToward(a, b, spec.enable, true)
    ensures forall name | name in spec.disable :: SameRegion(a, b, name)
    ensures Removable(a, spec.disable, false) <==> Removable(b, spec.disable, false)
    ensures AllWithinPolls(a, mode, spec.disable, false) <==> AllWithinPolls(b, mode, spec.disable, false)
    ensures AllWanted(a, spec.disable, false) <==> AllWanted(b, spec.disable, false)
    ensures RepeatsSettled(a, spec.disable, false) <==> RepeatsSettled(b, spec.disable, false)
  {
    assert forall i | 0 <= i < |spec.disable| :: spec.disable[i] in spec.disable;
    forall name | name in spec.disable
      ensures SameRegion(a, b, name)
    {
      assert name !in spec.enable;
    }
  }

  lemma ProgressFromParts(a: Account, b: Account, c: Account, spec: Spec)
    requires Disjoint(spec) && AllToward(a, b, spec.enable, true) && AllToward(b, c, spec.disable, false)
    ensures Progress(a, c, spec)
    ensures AllWanted(b, spec.enable, true) && AllWanted(c, spec.disable, false) ==> Satisfied(c, spec)
  {
    hide Toward;
    forall name | name in spec.enable
      ensures Toward(a, c, name, true)
      ensures Wanted(b, name, true) ==> Wanted(c, name, true)
    {
      assert name !in spec.disable;
      assert SameRegion(b, c, name);
      TowardSame(a, b, c, name, true);
    }
    forall name | name in spec.disable
      ensures Toward(a, c, name, false)
    {
      assert name !in spec.enable;
      SameToward(a, b, c, name, false);
    }
    forall name | name !in spec.enable && name !in spec.disable
      ensures SameRegion(a, c, name)
    {
      assert SameRegion(a, b, name) && SameRegion(b, c, name);
    }
  }

  /** The two passes, once listing and refusing are past. */
  lemma BothPasses(a: Account, listed: Session, mode: Mode, spec: Spec)
    requires Orderly(a, spec) && !mode.planning && Removable(a, spec.disable, false)
    requires listed.account == a && listed.trouble == NoTrouble
    ensures var t := EnsureAll(EnsureAll(listed, mode, spec.enable, a, true), mode, spec.disable, a, false);
            Progress(a, t.account, spec)
            && (Satisfied(a, spec) ==> t.account == a && t.calls == listed.calls && t.trouble == NoTrouble)
            && (t.trouble == NoTrouble ==> Satisfied(t.account, spec))
            && (mode.failAt.None? ==> (t.trouble == NoTrouble <==> Reachable(a, mode, spec)))
  {
    hide AllToward, Progress, AllWithinPolls, AllWanted, Disjoint, ActionsFor, SameRegion, StatusOf, EnsureAll,
      RepeatsSettled, Wanted;
    var s := EnsureAll(listed, mode, spec.enable, a, true);
    EnablingIsRemovable(a, spec.enable);
    ManyRegions(listed, mode, spec.enable, a, true);
    DisableSideSame(a, s.account, mode, spec);
    if s.trouble == NoTrouble {
      SameStatuses(a, s.account, spec.disable);
      ManyRegions(s, mode, spec.disable, a, false);
      var t := EnsureAll(s, mode, spec.disable, a, false);
      ProgressFromParts(a, s.account, t.account, spec);
    } else {
      StuckSession(s, mode, spec.disable, a, false);
      Unmoved(s.account, spec.disable);
      ProgressFromParts(a, s.account, s.account, spec);
    }
  }

  lemma EnablingIsRemovable(a: Account, names: seq<string>)
    ensures Removable(a, names, true)
  {
  }

  lemma SameStatuses(a: Account, b: Account, names: seq<string>)
    requires forall name | name in names :: SameRegion(a, b, name)
    ensures forall name | name in names :: StatusOf(a, name) == StatusOf(b, name)
  {
  }

  lemma StuckSession(s: Session, mode: Mode, names: seq<string>, seen: Account, on: bool)
    requires s.trouble != NoTrouble
    ensures EnsureAll(s, mode, names, seen, on) == s
  {
  }

  lemma Unmoved(a: Account, names: seq<string>)
    ensures AllToward(a, a, names, false)
  {
  }

  /** On an orderly spec an applied step moves only the named regions, each towards its side, and if it
      succeeds the account is as wanted. */
  lemma OrderlyApply(a: Account, mode: Mode, spec: Spec)
    requires Orderly(a, spec) && !mode.planning
    ensures var t := EnsureRegions(a, mode, spec);
            Progress(a, t.account, spec)
            && (t.trouble == NoTrouble ==> Satisfied(t.account, spec))
            && (mode.failAt.None? ==> (t.trouble == NoTrouble <==> Reachable(a, mode, spec)))
  {
    hide EnsureAll, Progress, ActionsFor, AllWithinPolls, Undisablable, Removable, Orderly;
    NoProgress(a, spec);
    UndisablableExactly(a, spec.disable);
    if spec.enable == [] && spec.disable == [] {
      NothingNamed(a, mode, spec);
    } else if Removable(a, spec.disable, false) {
      BothPasses(a, Logged(Start(a), ListRegions), mode, spec);
    }
  }

  lemma CallTouchesOne(s: Session, mode: Mode, name: string, n: nat)
    ensures OthersSame(s.account, CallGetStatus(s, mode, name).account, name)
    ensures OthersSame(s.account, CallEnable(s, mode, name).account, name)
    ensures OthersSame(s.account, CallDisable(s, mode, name).account, name)
  {
  }

  lemma {:induction false} PollTouchesOne(s: Session, mode: Mode, name: string, n: nat)
    ensures OthersSame(s.account, Poll(s, mode, name, n).account, name)
    ensures Poll(s, mode, name, n).actions == s.actions
    decreases n
  {
    if n > 0 {
      var t := CallGetStatus(s, mode, name);
      CallTouchesOne(s, mode, name, n);
      if t.trouble == NoTrouble && !IsSettled(StatusOf(t.account, name)) {
        PollTouchesOne(t, mode, name, n - 1);
        OthersSameTwice(s.account, t.account, Poll(t, mode, name, n - 1).account, name);
      }
    }
  }

  /** Whatever was seen of it, seeing to a region touches no other, and reports by what was seen. */
  lemma OneTouchesOne(s: Session, mode: Mode, name: string, seen: Account, on: bool)
    requires s.trouble == NoTrouble
    ensures var t := EnsureOne(s, mode, name, StatusOf(seen, name), on);
            OthersSame(s.account, t.account, name)
            && (t.trouble == NoTrouble ==>
                  t.actions == s.actions
                    + [Action(VerbFor(StatusOf(seen, name), on), name, !mode.planning && !Wanted(seen, name, on))])
  {
    hide Poll, OthersSame;
    OthersSameOnce(s.account, name);
    var called := if on then CallEnable(s, mode, name) else CallDisable(s, mode, name);
    CallTouchesOne(s, mode, name, 0);
    PollTouchesOne(called, mode, name, PollLimit(mode));
    OthersSameTwice(s.account, called.account, Poll(called, mode, name, PollLimit(mode)).account, name);
  }

  lemma OthersSameOnce(a: Account, name: string)
    ensures OthersSame(a, a, name)
  {
  }

  /** A list seen to without trouble is reported by what was seen of it. */
  lemma {:induction false} ReportedAsSeen(s: Session, mode: Mode, names: seq<string>, seen: Account, on: bool)
    ensures var t := EnsureAll(s, mode, names, seen, on);
            t.trouble == NoTrouble ==> t.actions == s.actions + ActionsFor(seen, names, on, mode.planning)
    decreases |names|
  {
    hide EnsureOne;
    if names != [] && s.trouble == NoTrouble {
      var one := EnsureOne(s, mode, names[0], StatusOf(seen, names[0]), on);
      OneTouchesOne(s, mode, names[0], seen, on);
      ReportedAsSeen(one, mode, names[1..], seen, on);
    }
  }

  /** A region that was seen on the other side, but is already where it should be, makes the step fail. */
  lemma {:induction false} SeenTooEarly(s: Session, mode: Mode, names: seq<string>, seen: Account, on: bool,
      name: string)
    requires !mode.planning && name in names && Wanted(s.account, name, on) && !Wanted(seen, name, on)
    ensures EnsureAll(s, mode, names, seen, on).trouble != NoTrouble
    decreases |names|
  {
    if s.trouble == NoTrouble {
      hide Poll;
      var one := EnsureOne(s, mode, names[0], StatusOf(seen, names[0]), on);
      if name == names[0] {
        assert one.trouble != NoTrouble;
        StuckSession(one, mode, names[1..], seen, on);
      } else {
        OneTouchesOne(s, mode, names[0], seen, on);
        assert SameRegion(s.account, one.account, name);
        SeenTooEarly(one, mode, names[1..], seen, on, name);
      }
    }
  }

  /** The status is read once: a region named twice that needs a change conflicts with itself. */
  lemma {:induction false} RepeatConflicts(
    s: Session, mode: Mode, names: seq<string>, seen: Account, on: bool, i: nat, j: nat)
    requires !mode.planning && i < j < |names| && names[i] == names[j] && !Wanted(seen, names[i], on)
    ensures EnsureAll(s, mode, names, seen, on).trouble != NoTrouble
    decreases |names|
  {
    if s.trouble == NoTrouble {
      var one := EnsureOne(s, mode, names[0], StatusOf(seen, names[0]), on);
      var rest := names[1..];
      if one.trouble != NoTrouble {
        StuckSession(one, mode, rest, seen, on);
      } else if i == 0 {
        ChangedIsWanted(s, mode, names[0], seen, on);
        assert rest[j - 1] == names[j];
        SeenTooEarly(one, mode, rest, seen, on, names[0]);
      } else {
        RepeatConflicts(one, mode, rest, seen, on, i - 1, j - 1);
      }
    }
  }

  /** A region that was changed without trouble is where it should be. */
  lemma ChangedIsWanted(s: Session, mode: Mode, name: string, seen: Account, on: bool)
    requires s.trouble == NoTrouble && !mode.planning && !Wanted(seen, name, on)
    ensures var t := EnsureOne(s, mode, name, StatusOf(seen, name), on);
            t.trouble == NoTrouble ==> Wanted(t.account, name, on)
  {
    hide Poll;
    var called := if on then CallEnable(s, mode, name) else CallDisable(s, mode, name);
    if called.trouble == NoTrouble {
      PollOutcome(called, mode, name, PollLimit(mode), on);
    }
  }

  lemma DisorderFails(a: Account, mode: Mode, spec: Spec)
    requires !mode.planning && !Orderly(a, spec)
    ensures var t := EnsureRegions(a, mode, spec);
            !(t.trouble == NoTrouble && Satisfied(t.account, spec))
  {
    var listed := Logged(Start(a), ListRegions);
    var first := EnsureAll(listed, mode, spec.enable, a, true);
    if name :| name in spec.enable && name in spec.disable {
      NeverBoth(EnsureRegions(a, mode, spec).account, spec, name);
    } else if i, j :|
        0 <= i < j < |spec.enable| && spec.enable[i] == spec.enable[j] && !Wanted(a, spec.enable[i], true)
    {
      RepeatConflicts(listed, mode, spec.enable, a, true, i, j);
      StuckSession(first, mode, spec.disable, a, false);
    } else {
      assert Disjoint(spec) && RepeatsSettled(a, spec.enable, true);
      var i, j :| 0 <= i < j < |spec.disable| && spec.disable[i] == spec.disable[j]
        && !Wanted(a, spec.disable[i], false);
      RepeatConflicts(first, mode, spec.disable, a, false, i, j);
    }
  }

  lemma NeverBoth(a: Account, spec: Spec, name: string)
    requires name in spec.enable && name in spec.disable
    ensures !Satisfied(a, spec)
  {
    assert Wanted(a, name, true) ==> !Wanted(a, name, false);
  }

  /** Without a failing call an apply succeeds and leaves the account as wanted if and only if the spec is
      orderly and the wanted set can be reached within the poll limit. On an orderly spec it moves only the
      named regions, each towards its side, whatever fails, and success means that the account is as wanted. */
  lemma ApplyConverges(a: Account, mode: Mode, spec: Spec)
    requires !mode.planning
    ensures var t := EnsureRegions(a, mode, spec);
            (mode.failAt.None? ==>
               (t.trouble == NoTrouble && Satisfied(t.account, spec) <==> Orderly(a, spec) && Reachable(a, mode, spec)))
            && (Orderly(a, spec) ==>
                  Progress(a, t.account, spec) && (t.trouble == NoTrouble ==> Satisfied(t.account, spec)))
  {
    hide EnsureRegions, Progress, Reachable, Orderly, Satisfied;
    if Orderly(a, spec) {
      OrderlyApply(a, mode, spec);
    } else {
      DisorderFails(a, mode, spec);
    }
  }

  lemma NothingNamed(a: Account, mode: Mode, spec: Spec)
    requires spec.enable == [] && spec.disable == []
    ensures Reachable(a, mode, spec) && Satisfied(a, spec)
  {
  }

  predicate IsWrite(call: Call)
  {
    call.EnableRegion? || call.DisableRegion?
  }

  lemma SatisfiedIsRemovable(a: Account, spec: Spec)
    requires Satisfied(a, spec)
    ensures Removable(a, spec.disable, false)
  {
    forall name | name in spec.disable
      ensures StatusOf(a, name) != Some(EnabledByDefault)
    {
      assert Wanted(a, name, false);
    }
  }

  lemma SatisfiedIsOrderly(a: Account, spec: Spec)
    requires Satisfied(a, spec)
    ensures Orderly(a, spec)
  {
    if name :| name in spec.enable && name in spec.disable {
      NeverBoth(a, spec, name);
    }
  }

  /** On an account that is as wanted the step writes nothing and changes nothing, whatever the poll limit. */
  lemma SatisfiedIsLeftAlone(a: Account, mode: Mode, spec: Spec)
    requires !mode.planning && Satisfied(a, spec)
    ensures var t := EnsureRegions(a, mode, spec);
            t.account == a && (forall call | call in t.calls :: !IsWrite(call))
            && (mode.failAt != Some(0) ==> t.trouble == NoTrouble)
  {
    hide EnsureAll, Progress, ActionsFor, AllWithinPolls, Undisablable, Removable, Orderly, Satisfied;
    UndisablableExactly(a, spec.disable);
    SatisfiedIsRemovable(a, spec);
    SatisfiedIsOrderly(a, spec);
    if spec.enable != [] || spec.disable != [] {
      BothPasses(a, Logged(Start(a), ListRegions), mode, spec);
    }
  }

  /** A second apply straight after one that succeeded and reached the wanted set, as every successful one
      does on an orderly spec, issues no enable and no disable call. */
  lemma SecondApplyWritesNothing(a: Account, first: Mode, second: Mode, spec: Spec)
    requires !first.planning && !second.planning && EnsureRegions(a, first, spec).trouble == NoTrouble
    requires Orderly(a, spec) || Satisfied(EnsureRegions(a, first, spec).account, spec)
    ensures var b := EnsureRegions(a, first, spec).account;
            EnsureRegions(b, second, spec).account == b
            && forall call | call in EnsureRegions(b, second, spec).calls :: !IsWrite(call)
  {
    hide EnsureRegions, Progress, ActionsFor, Reachable, Orderly, Satisfied;
    ApplyConverges(a, first, spec);
    SatisfiedIsLeftAlone(EnsureRegions(a, first, spec).account, second, spec);
  }

  lemma ProgressKeepsOrder(a: Account, b: Account, spec: Spec)
    requires Progress(a, b, spec) && Orderly(a, spec)
    ensures Orderly(b, spec)
  {
    forall i, j | 0 <= i < j < |spec.enable| && spec.enable[i] == spec.enable[j]
      ensures Wanted(b, spec.enable[i], true)
    {
      assert spec.enable[i] in spec.enable;
      assert Toward(a, b, spec.enable[i], true);
    }
    forall i, j | 0 <= i < j < |spec.disable| && spec.disable[i] == spec.disable[j]
      ensures Wanted(b, spec.disable[i], false)
    {
      assert spec.disable[i] in spec.disable;
      assert Toward(a, b, spec.disable[i], false);
    }
  }

  lemma ProgressKeepsReach(a: Account, b: Account, mode: Mode, spec: Spec)
    requires Progress(a, b, spec) && Reachable(a, mode, spec)
    ensures Reachable(b, mode, spec)
  {
    forall name | name in spec.disable
      ensures StatusOf(b, name) != Some(EnabledByDefault) && WithinPolls(b, mode, name, false)
    {
      assert Toward(a, b, name, false) && WithinPolls(a, mode, name, false);
    }
    forall name | name in spec.enable
      ensures WithinPolls(b, mode, name, true)
    {
      assert Toward(a, b, name, true) && WithinPolls(a, mode, name, true);
    }
  }

  /** On which side a region is, a change in progress counted as done. */
  function Side(status: Option<OptStatus>): int
  {
    if IsOn(status) then 1 else if IsOff(status) then 2 else 0
  }

  /** Every region is on the same side. */
  ghost predicate SameSides(a: Account, b: Account)
  {
    forall name :: Side(StatusOf(a, name)) == Side(StatusOf(b, name))
  }

  /** Two accounts moved from one start and both as wanted have every region on the same side. */
  lemma SidesDetermined(a: Account, b: Account, c: Account, spec: Spec)
    requires Progress(a, b, spec) && Progress(a, c, spec) && Satisfied(b, spec) && Satisfied(c, spec)
    ensures SameSides(b, c)
  {
    forall name
      ensures Side(StatusOf(b, name)) == Side(StatusOf(c, name))
    {
      if name in spec.enable {
        assert Wanted(b, name, true) && Wanted(c, name, true);
      } else if name in spec.disable {
        assert Wanted(b, name, false) && Wanted(c, name, false);
      } else {
        assert SameRegion(a, b, name) && SameRegion(a, c, name);
      }
    }
  }

  lemma ProgressTwice(a: Account, b: Account, c: Account, spec: Spec)
    requires Progress(a, b, spec) && Progress(b, c, spec)
    ensures Progress(a, c, spec)
  {
    forall name | name in spec.enable
      ensures Toward(a, c, name, true)
    {
      assert Toward(a, b, name, true) && Toward(b, c, name, true);
    }
    forall name | name in spec.disable
      ensures Toward(a, c, name, false)
    {
      assert Toward(a, b, name, false) && Toward(b, c, name, false);
    }
    forall name | name !in spec.enable && name !in spec.disable
      ensures SameRegion(a, c, name)
    {
      assert SameRegion(a, b, name) && SameRegion(b, c, name);
    }
  }

  lemma ResumesAfterOne(a: Account, interrupted: Mode, undisturbed: Mode, spec: Spec)
    requires !interrupted.planning && !undisturbed.planning && undisturbed.failAt.None?
    requires var t := EnsureRegions(a, undisturbed, spec); t.trouble == NoTrouble && Satisfied(t.account, spec)
    ensures var b := EnsureRegions(a, interrupted, spec).account;
            var again := EnsureRegions(b, undisturbed, spec);
            again.trouble == NoTrouble && Satisfied(again.account, spec)
            && SameSides(again.account, EnsureRegions(a, undisturbed, spec).account)
  {
    hide EnsureRegions, Progress, ActionsFor, Reachable, Orderly, Satisfied, SameSides;
    var b := EnsureRegions(a, interrupted, spec).account;
    ApplyConverges(a, interrupted, spec);
    ApplyConverges(a, undisturbed, spec);
    ProgressKeepsReach(a, b, undisturbed, spec);
    ProgressKeepsOrder(a, b, spec);
    ApplyConverges(b, undisturbed, spec);
    var c := EnsureRegions(b, undisturbed, spec).account;
    ProgressTwice(a, b, c, spec);
    SidesDetermined(a, c, EnsureRegions(a, undisturbed, spec).account, spec);
  }

  // ---------------------------------------------------------------------------------------------
  // Planning

  lemma {:induction false} PlanOfMany(s: Session, mode: Mode, names: seq<string>, seen: Account, on: bool)
    requires s.trouble == NoTrouble && mode.planning
    ensures EnsureAll(s, mode, names, seen, on) == s.(actions := s.actions + ActionsFor(seen, names, on, true))
    decreases |names|
  {
    if names != [] {
      var one := EnsureOne(s, mode, names[0], StatusOf(seen, names[0]), on);
      var first := Action(VerbFor(StatusOf(seen, names[0]), on), names[0], false);
      assert one == s.(actions := s.actions + [first]);
      PlanOfMany(one, mode, names[1..], seen, on);
    }
  }

  function Headings(actions: seq<Action>): seq<(Verb, string)>
  {
    if actions == [] then [] else [(actions[0].verb, actions[0].name)] + Headings(actions[1..])
  }

  lemma {:induction false} HeadingsJoin(a: seq<Action>, b: seq<Action>)
    ensures Headings(a + b) == Headings(a) + Headings(b)
  {
    if a != [] {
      assert (a + b)[1..] == a[1..] + b;
      HeadingsJoin(a[1..], b);
    } else {
      assert a + b == b;
    }
  }

  lemma {:induction false} PlannedHeadings(a: Account, names: seq<string>, on: bool)
    ensures Headings(ActionsFor(a, names, on, true)) == Headings(ActionsFor(a, names, on, false))
  {
    if names != [] {
      PlannedHeadings(a, names[1..], on);
    }
  }

  /** A plan writes nothing, and what it announces is what a successful apply from the same state reports. */
  lemma PlanIsTruthful(a: Account, plan: Mode, apply: Mode, spec: Spec)
    requires plan.planning && !apply.planning
    ensures var planned := EnsureRegions(a, plan, spec);
            var applied := EnsureRegions(a, apply, spec);
            planned.account == a && (forall call | call in planned.calls :: !IsWrite(call))
            && (applied.trouble == NoTrouble && plan.failAt != Some(0) ==>
                  planned.trouble == NoTrouble && Headings(planned.actions) == Headings(applied.actions))
            && (plan.failAt != Some(0) && apply.failAt != Some(0) ==>
                  (planned.trouble == CannotDisable(Undisablable(a, spec.disable)) <==>
                   applied.trouble == CannotDisable(Undisablable(a, spec.disable))))
  {
    hide EnsureAll, Progress, ActionsFor, Reachable, Satisfied, Headings, Undisablable;
    var listed := Logged(Start(a), ListRegions);
    var enabling, disabling := ActionsFor(a, spec.enable, true, true), ActionsFor(a, spec.disable, false, true);
    PlanOfMany(listed, plan, spec.enable, a, true);
    PlanOfMany(listed.(actions := listed.actions + enabling), plan, spec.disable, a, false);
    AppliedActions(a, apply, spec);
    PlannedHeadings(a, spec.enable, true);
    PlannedHeadings(a, spec.disable, false);
    HeadingsJoin(enabling, disabling);
    HeadingsJoin(ActionsFor(a, spec.enable, true, false), ActionsFor(a, spec.disable, false, false));
    assert listed.actions + enabling + disabling == enabling + disabling;
    NoFalseRefusal(a, apply, spec);
    NothingPlanned(a, spec);
  }

  /** A successful apply reports each named region by how it was seen at the start. */
  lemma AppliedActions(a: Account, mode: Mode, spec: Spec)
    requires !mode.planning
    ensures var t := EnsureRegions(a, mode, spec);
            t.trouble == NoTrouble ==>
              t.actions == ActionsFor(a, spec.enable, true, false) + ActionsFor(a, spec.disable, false, false)
  {
    hide EnsureAll, ActionsFor, Undisablable;
    var listed := Logged(Start(a), ListRegions);
    var first := EnsureAll(listed, mode, spec.enable, a, true);
    ReportedAsSeen(listed, mode, spec.enable, a, true);
    ReportedAsSeen(first, mode, spec.disable, a, false);
    if first.trouble != NoTrouble {
      StuckSession(first, mode, spec.disable, a, false);
    }
    NothingApplied(a, spec);
  }

  lemma NothingApplied(a: Account, spec: Spec)
    ensures spec.enable == [] && spec.disable == [] ==>
              ActionsFor(a, spec.enable, true, false) + ActionsFor(a, spec.disable, false, false) == []
  {
  }

  lemma NothingPlanned(a: Account, spec: Spec)
    ensures spec.enable == [] && spec.disable == [] ==>
              ActionsFor(a, spec.enable, true, true) + ActionsFor(a, spec.disable, false, true) == []
  {
  }

  lemma {:induction false} NoRefusalInPasses(s: Session, mode: Mode, names: seq<string>, seen: Account, on: bool)
    requires !s.trouble.CannotDisable?
    ensures !EnsureAll(s, mode, names, seen, on).trouble.CannotDisable?
    decreases |names|
  {
    if names != [] && s.trouble == NoTrouble {
      NoRefusalInOne(s, mode, names[0], StatusOf(seen, names[0]), on);
      NoRefusalInPasses(EnsureOne(s, mode, names[0], StatusOf(seen, names[0]), on), mode, names[1..], seen, on);
    }
  }

  lemma NoRefusalInOne(s: Session, mode: Mode, name: string, seen: Option<OptStatus>, on: bool)
    requires s.trouble == NoTrouble
    ensures !EnsureOne(s, mode, name, seen, on).trouble.CannotDisable?
  {
    hide Poll;
    forall t: Session, n | !t.trouble.CannotDisable?
      ensures !Poll(t, mode, name, n).trouble.CannotDisable?
    {
      NoRefusalInPoll(t, mode, name, n);
    }
  }

  lemma {:induction false} NoRefusalInPoll(s: Session, mode: Mode, name: string, n: nat)
    requires !s.trouble.CannotDisable?
    ensures !Poll(s, mode, name, n).trouble.CannotDisable?
    decreases n
  {
    if n > 0 {
      NoRefusalInPoll(CallGetStatus(s, mode, name), mode, name, n - 1);
    }
  }

  lemma NoFalseRefusal(a: Account, mode: Mode, spec: Spec)
    ensures EnsureRegions(a, mode, spec).trouble.CannotDisable? <==>
              mode.failAt != Some(0) && Undisablable(a, spec.disable) != []
  {
    hide EnsureAll;
    var listed := Logged(Start(a), ListRegions);
    NoRefusalInPasses(listed, mode, spec.enable, a, true);
    NoRefusalInPasses(EnsureAll(listed, mode, spec.enable, a, true), mode, spec.disable, a, false);
    assert spec.disable == [] ==> Undisablable(a, spec.disable) == [];
  }

  /** Refused regions are refused before anything is written, in a plan as in an apply. */
  lemma RefusalWritesNothing(a: Account, mode: Mode, spec: Spec)
    requires Undisablable(a, spec.disable) != [] && mode.failAt != Some(0)
    ensures EnsureRegions(a, mode, spec)
              == Session(a, [ListRegions], [], CannotDisable(Undisablable(a, spec.disable)))
  {
    assert spec.disable != [];
  }

  // ---------------------------------------------------------------------------------------------
  // Resuming

  /** What one run after another leaves, plans among them, whichever calls fail and however long each polls. */
  function AfterRuns(a: Account, runs: seq<Mode>, spec: Spec): Account
    decreases |runs|
  {
    if runs == [] then a else AfterRuns(EnsureRegions(a, runs[0], spec).account, runs[1..], spec)
  }

  lemma SidesChain(a: Account, b: Account, c: Account)
    requires SameSides(a, b) && SameSides(b, c)
    ensures SameSides(a, c)
  {
  }

  /** However many runs came before, whichever of their calls failed, or whatever polling gave up, an
      undisturbed run afterwards succeeds if one would have succeeded in the first place, and leaves every
      region on the side that run would have left it on. */
  lemma {:induction false} ResumesAfterFailures(a: Account, runs: seq<Mode>, undisturbed: Mode, spec: Spec)
    requires !undisturbed.planning && undisturbed.failAt.None?
    requires var t := EnsureRegions(a, undisturbed, spec); t.trouble == NoTrouble && Satisfied(t.account, spec)
    ensures var again := EnsureRegions(AfterRuns(a, runs, spec), undisturbed, spec);
            again.trouble == NoTrouble && Satisfied(again.account, spec)
            && SameSides(again.account, EnsureRegions(a, undisturbed, spec).account)
    decreases |runs|
  {
    hide EnsureRegions, Satisfied, Undisablable, Headings;
    if runs == [] {
      hide SameSides;
      SidesReflexive(EnsureRegions(a, undisturbed, spec).account);
    } else {
      hide SameSides;
      var b := EnsureRegions(a, runs[0], spec).account;
      if runs[0].planning {
        PlanIsTruthful(a, runs[0], undisturbed, spec);
      } else {
        ResumesAfterOne(a, runs[0], undisturbed, spec);
      }
      ResumesAfterFailures(b, runs[1..], undisturbed, spec);
      if !runs[0].planning {
        SidesChain(EnsureRegions(AfterRuns(a, runs, spec), undisturbed, spec).account,
                   EnsureRegions(b, undisturbed, spec).account, EnsureRegions(a, undisturbed, spec).account);
      }
    }
  }

  lemma SidesReflexive(a: Account)
    ensures SameSides(a, a)
  {
  }

  // ---------------------------------------------------------------------------------------------
  // Disorder need not be noticed

  /** A disabled region named both ways ends up on, and the step reports success. */
  lemma NamedBothWaysIsMissed(a: Account, mode: Mode, name: string)
    requires !mode.planning && mode.failAt.None? && StatusOf(a, name) == Some(Disabled)
    requires PollsLeft(a.enablePolls, name) < PollLimit(mode)
    ensures var spec := Spec([name], [name]);
            var t := EnsureRegions(a, mode, spec);
            t.trouble == NoTrouble && !Satisfied(t.account, spec)
  {
    hide Poll;
    var listed := Logged(Start(a), ListRegions);
    OneRegion(listed, mode, name, true);
    var one := EnsureOne(listed, mode, name, StatusOf(a, name), true);
    assert WithinPolls(a, mode, name, true) && IsOn(StatusOf(one.account, name));
    assert Undisablable(a, [name]) == [];
    assert EnsureAll(listed, mode, [name], a, true) == EnsureAll(one, mode, [name][1..], a, true);
    var two := EnsureOne(one, mode, name, StatusOf(a, name), false);
    assert EnsureAll(one, mode, [name], a, false) == EnsureAll(two, mode, [name][1..], a, false);
    assert !Wanted(two.account, name, false);
    assert name in [name];
  }
}
