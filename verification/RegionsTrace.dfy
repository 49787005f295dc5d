/** The region step call by call: what is asked of the service for one region, and where the step stops. */
module RegionsTrace {
  import opened Options
  import opened Regions

  /** The polls that still answer with the transitional status. */
  function Left(polls: map<string, int>, name: string): nat
  {
    if name in polls && polls[name] > 0 then polls[name] else 0
  }

  /** What one call that goes through does to the account. A status answers with what it was on the way to once
      no transitional answers are left. */
  function After(a: Account, call: Call): Account
  {
    match call
    case ListRegions => a
    case EnableRegion(name) => Account(a.regions[name := Enabling], a.enablePolls, a.disablePolls)
    case DisableRegion(name) => Account(a.regions[name := Disabling], a.enablePolls, a.disablePolls)
    case GetStatus(name) =>
      if name in a.regions && a.regions[name] == Enabling then
        if Left(a.enablePolls, name) > 0
        then Account(a.regions, a.enablePolls[name := Left(a.enablePolls, name) - 1], a.disablePolls)
        else Account(a.regions[name := Enabled], a.enablePolls, a.disablePolls)
      else if name in a.regions && a.regions[name] == Disabling then
        if Left(a.disablePolls, name) > 0
        then Account(a.regions, a.enablePolls, a.disablePolls[name := Left(a.disablePolls, name) - 1])
        else Account(a.regions[name := Disabled], a.enablePolls, a.disablePolls)
      else a
  }

  function Replay(a: Account, calls: seq<Call>): Account
  {
    if calls == [] then a else After(Replay(a, calls[..|calls| - 1]), calls[|calls| - 1])
  }

  predicate On(a: Account, name: string)
  {
    name in a.regions
    && (a.regions[name] == Enabled || a.regions[name] == EnabledByDefault || a.regions[name] == Enabling)
  }

  predicate Off(a: Account, name: string)
  {
    name in a.regions && (a.regions[name] == Disabled || a.regions[name] == Disabling)
  }

  /** The service refuses to enable what is on, and to disable what is off or always on. */
  predicate Refused(a: Account, name: string, on: bool)
  {
    if on then On(a, name) else Off(a, name) || (name in a.regions && a.regions[name] == EnabledByDefault)
  }

  /** As many polls as the profile says, and sixty if it says none. */
  function Limit(mode: Mode): nat
    ensures Limit(mode) > 0
  {
    if mode.maxPolls > 0 then mode.maxPolls else 60
  }

  function Ask(name: string, on: bool): Call
  {
    if on then EnableRegion(name) else DisableRegion(name)
  }

  function Polling(name: string, n: nat): seq<Call>
  {
    seq(n, i => GetStatus(name))
  }

  /** The polls it takes to settle, or those there are. */
  function PollsMade(a: Account, name: string, on: bool, n: nat): nat
  {
    var needed := Left(if on then a.enablePolls else a.disablePolls, name) + 1;
    if needed <= n then needed else n
  }

  /** From s to t these calls are made, up to the first that fails; then the run says so, and nothing is
      reported. Otherwise it ends with the given trouble and entries. */
  predicate Goes(
    s: Session, t: Session, mode: Mode, calls: seq<Call>, end: Account, entries: seq<Action>, trouble: Trouble)
  {
    var n := |s.calls|;
    if mode.failAt.Some? && n <= mode.failAt.value < n + |calls| then
      var i := mode.failAt.value - n;
      t == Session(Replay(s.account, calls[..i]), s.calls + calls[..i + 1], s.actions, CallFailed)
    else
      t == Session(end, s.calls + calls, s.actions + entries, trouble)
  }

  lemma {:induction false} ReplayFirst(a: Account, call: Call, calls: seq<Call>)
    ensures Replay(a, [call] + calls) == Replay(After(a, call), calls)
  {
    if calls == [] {
      assert ([call] + calls)[..0] == [];
    } else {
      ReplayFirst(a, call, calls[..|calls| - 1]);
      assert ([call] + calls)[..|calls|] == [call] + calls[..|calls| - 1];
    }
  }

  /** Polling a region on its way: as many polls as it takes, or as there are. */
  lemma {:induction false} PollTrace(s: Session, mode: Mode, name: string, n: nat, on: bool)
    requires s.trouble == NoTrouble && name in s.account.regions
    requires s.account.regions[name] == if on then Enabling else Disabling
    ensures var m := PollsMade(s.account, name, on, n);
            var left := Left(if on then s.account.enablePolls else s.account.disablePolls, name);
            Goes(s, Poll(s, mode, name, n), mode, Polling(name, m), Replay(s.account, Polling(name, m)), [],
                 if left < n then NoTrouble else StillInFlight)
    decreases n
  {
    var m := PollsMade(s.account, name, on, n);
    var calls := Polling(name, m);
    NothingReplayed(s.account);
    PollUnfolds(s, mode, name, n);
    hide Replay, After, CallGetStatus, Poll, Left;
    if n == 0 {
      assert s.calls + calls == s.calls && s.actions + [] == s.actions;
    } else {
      var t := CallGetStatus(s, mode, name);
      var rest := Polling(name, m - 1);
      assert calls == [GetStatus(name)] + rest && calls[..0] == [] && calls[..1] == [GetStatus(name)];
      OnePoll(s, mode, name, on);
      if t.trouble == NoTrouble {
        ReplayFirst(s.account, GetStatus(name), rest);
        NothingReplayed(t.account);
        if Left(if on then s.account.enablePolls else s.account.disablePolls, name) == 0 {
          assert rest == [] && s.actions + [] == s.actions;
        } else {
          PollTrace(t, mode, name, n - 1, on);
          GoesOn(s, t, Poll(t, mode, name, n - 1), mode, GetStatus(name), rest,
                 if Left(if on then s.account.enablePolls else s.account.disablePolls, name) < n then NoTrouble
                 else StillInFlight, []);
        }
      }
    }
  }

  lemma PollUnfolds(s: Session, mode: Mode, name: string, n: nat)
    ensures n == 0 ==> Poll(s, mode, name, n) == s.(trouble := StillInFlight)
    ensures n > 0 ==>
              var t := CallGetStatus(s, mode, name);
              Poll(s, mode, name, n) == if t.trouble != NoTrouble || IsSettled(StatusOf(t.account, name)) then t
                                        else Poll(t, mode, name, n - 1)
  {
  }

  lemma OnePoll(s: Session, mode: Mode, name: string, on: bool)
    requires s.trouble == NoTrouble && name in s.account.regions
    requires s.account.regions[name] == if on then Enabling else Disabling
    ensures var t := CallGetStatus(s, mode, name);
            var left := Left(if on then s.account.enablePolls else s.account.disablePolls, name);
            if mode.failAt == Some(|s.calls|) then
              t == Session(s.account, s.calls + [GetStatus(name)], s.actions, CallFailed)
            else
              && t == Session(After(s.account, GetStatus(name)), s.calls + [GetStatus(name)], s.actions, NoTrouble)
              && (IsSettled(StatusOf(t.account, name)) <==> left == 0)
              && (left > 0 ==>
                    && name in t.account.regions && t.account.regions[name] == (if on then Enabling else Disabling)
                    && Left(if on then t.account.enablePolls else t.account.disablePolls, name) == left - 1)
  {
  }

  /** After a first call that went through, the rest of the calls. */
  lemma GoesOn(
      s: Session, t: Session, u: Session, mode: Mode, call: Call, rest: seq<Call>,
      trouble: Trouble, entries: seq<Action>)
    requires mode.failAt != Some(|s.calls|)
    requires t == Session(After(s.account, call), s.calls + [call], s.actions, NoTrouble)
    requires Goes(t, u, mode, rest, Replay(t.account, rest), entries, trouble)
    ensures Goes(s, u, mode, [call] + rest, Replay(s.account, [call] + rest), entries, trouble)
  {
    hide After;
    var calls, n := [call] + rest, |s.calls|;
    ReplayFirst(s.account, call, rest);
    assert s.calls + [call] + rest == s.calls + calls;
    if mode.failAt.Some? && n <= mode.failAt.value < n + |calls| {
      var i := mode.failAt.value - n;
      assert calls[..i] == [call] + rest[..i - 1] && calls[..i + 1] == [call] + rest[..i];
      ReplayFirst(s.account, call, rest[..i - 1]);
      assert s.calls + [call] + rest[..i] == s.calls + calls[..i + 1];
    }
  }

  lemma AskTrace(s: Session, mode: Mode, name: string, on: bool)
    requires s.trouble == NoTrouble
    ensures var t := if on then CallEnable(s, mode, name) else CallDisable(s, mode, name);
            var calls := s.calls + [Ask(name, on)];
            t == if mode.failAt == Some(|s.calls|) then Session(s.account, calls, s.actions, CallFailed)
                 else if Refused(s.account, name, on) then Session(s.account, calls, s.actions, Conflict)
                 else Session(After(s.account, Ask(name, on)), calls, s.actions, NoTrouble)
  {
  }

  lemma MoveTrace(s: Session, mode: Mode, name: string, on: bool)
    requires s.trouble == NoTrouble && !Refused(s.account, name, on)
    ensures var asked := if on then CallEnable(s, mode, name) else CallDisable(s, mode, name);
            var t := if asked.trouble != NoTrouble then asked else Poll(asked, mode, name, Limit(mode));
            var calls := [Ask(name, on)] + Polling(name, PollsMade(s.account, name, on, Limit(mode)));
            var left := Left(if on then s.account.enablePolls else s.account.disablePolls, name);
            Goes(s, t, mode, calls, Replay(s.account, calls), [],
                 if left < Limit(mode) then NoTrouble else StillInFlight)
  {
    AskTrace(s, mode, name, on);
    hide CallEnable, CallDisable, Refused;
    var asked := if on then CallEnable(s, mode, name) else CallDisable(s, mode, name);
    var rest := Polling(name, PollsMade(s.account, name, on, Limit(mode)));
    var calls := [Ask(name, on)] + rest;
    assert calls[..0] == [] && calls[..1] == [Ask(name, on)];
    if asked.trouble == NoTrouble {
      PollTrace(asked, mode, name, Limit(mode), on);
      hide Poll;
      GoesOn(s, asked, Poll(asked, mode, name, Limit(mode)), mode, Ask(name, on), rest,
             if Left(if on then s.account.enablePolls else s.account.disablePolls, name) < Limit(mode) then NoTrouble
             else StillInFlight, []);
    }
  }

  /** What the step does about one region, whatever it saw of it and whatever it is by now. A region seen where
      it should be is reported unchanged, with no call; a plan reports the change. Otherwise the change is asked
      for, and the status polled until it has settled or the limit is reached; only what has settled is
      reported. A change that the service refuses ends the step, as a call that fails does. */
  lemma RegionTrace(s: Session, mode: Mode, name: string, seen: Account, on: bool)
    requires s.trouble == NoTrouble
    ensures var t := EnsureOne(s, mode, name, StatusOf(seen, name), on);
            var a := s.account;
            var verb := if on then Enable else Update;
            var left := Left(if on then a.enablePolls else a.disablePolls, name);
            var calls := [Ask(name, on)] + Polling(name, PollsMade(a, name, on, Limit(mode)));
            if (if on then On(seen, name) else Off(seen, name)) then
              t == Session(a, s.calls, s.actions + [Action(Unchanged, name, false)], NoTrouble)
            else if mode.planning then t == Session(a, s.calls, s.actions + [Action(verb, name, false)], NoTrouble)
            else if Refused(a, name, on) then Goes(s, t, mode, [Ask(name, on)], a, [], Conflict)
            else if left < Limit(mode) then
              Goes(s, t, mode, calls, Replay(a, calls), [Action(verb, name, true)], NoTrouble)
            else Goes(s, t, mode, calls, Replay(a, calls), [], StillInFlight)
  {
    AskTrace(s, mode, name, on);
    if !Refused(s.account, name, on) {
      MoveTrace(s, mode, name, on);
    }
    hide CallEnable, CallDisable, Poll, Replay, After, Refused;
    assert [Ask(name, on)][..0] == [] && [Ask(name, on)][..1] == [Ask(name, on)];
    NothingReplayed(s.account);
  }

  lemma NothingReplayed(a: Account)
    ensures Replay(a, []) == a
  {
  }

  /** Asking for the status of a region that is not one is refused. */
  lemma ServiceRefuses(s: Session, mode: Mode, name: string)
    requires mode.failAt != Some(|s.calls|) && name !in s.account.regions
    ensures CallGetStatus(s, mode, name) == Session(s.account, s.calls + [GetStatus(name)], s.actions, NotARegion)
  {
  }
}
