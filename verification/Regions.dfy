/** Opt-in regions: the account service's transitions, and the step that brings an account to a wanted set. */
module Regions {
  import opened Options

  datatype OptStatus = Enabled | EnabledByDefault | Enabling | Disabled | Disabling

  /** The account: each region's status, and how many polls still answer with a transitional one. */
  datatype Account = Account(
    regions: map<string, OptStatus>,
    enablePolls: map<string, int>,
    disablePolls: map<string, int>)

  function StatusOf(a: Account, name: string): Option<OptStatus>
  {
    if name in a.regions then Some(a.regions[name]) else None
  }

  predicate IsOn(status: Option<OptStatus>)
  {
    status == Some(Enabled) || status == Some(EnabledByDefault) || status == Some(Enabling)
  }

  predicate IsOff(status: Option<OptStatus>)
  {
    status == Some(Disabled) || status == Some(Disabling)
  }

  predicate IsSettled(status: Option<OptStatus>)
  {
    status == Some(Enabled) || status == Some(Disabled)
  }

  function PollsLeft(polls: map<string, int>, name: string): nat
  {
    if name in polls && polls[name] > 0 then polls[name] else 0
  }

  function SetStatus(a: Account, name: string, status: OptStatus): Account
  {
    a.(regions := a.regions[name := status])
  }

  /** What asking for a region's status does to it. */
  function Polled(a: Account, name: string): Account
  {
    match StatusOf(a, name)
    case Some(Enabling) =>
      var left := PollsLeft(a.enablePolls, name);
      if left > 0 then a.(enablePolls := a.enablePolls[name := left - 1]) else SetStatus(a, name, Enabled)
    case Some(Disabling) =>
      var left := PollsLeft(a.disablePolls, name);
      if left > 0 then a.(disablePolls := a.disablePolls[name := left - 1]) else SetStatus(a, name, Disabled)
    case _ => a
  }

  // ---------------------------------------------------------------------------------------------
  // The step, as what it makes of a session with the service

  datatype Call = ListRegions | EnableRegion(name: string) | DisableRegion(name: string) | GetStatus(name: string)

  datatype Verb = Unchanged | Enable | Update

  datatype Action = Action(verb: Verb, name: string, applied: bool)

  datatype Trouble = NoTrouble | CallFailed | Conflict | NotARegion | StillInFlight | CannotDisable(names: seq<string>)

  datatype Session = Session(account: Account, calls: seq<Call>, actions: seq<Action>, trouble: Trouble)

  /** How the step runs; failAt is the call, counted from the start of the session, that fails. */
  datatype Mode = Mode(planning: bool, maxPolls: int, failAt: Option<nat>)

  datatype Spec = Spec(enable: seq<string>, disable: seq<string>)

  const DEFAULT_MAX_POLLS := 60

  function PollLimit(mode: Mode): nat
  {
    if mode.maxPolls > 0 then mode.maxPolls else DEFAULT_MAX_POLLS
  }

  predicate Fails(s: Session, mode: Mode)
  {
    mode.failAt == Some(|s.calls|)
  }

  function Logged(s: Session, call: Call): Session
  {
    s.(calls := s.calls + [call])
  }

  function CallEnable(s: Session, mode: Mode, name: string): Session
  {
    var logged := Logged(s, EnableRegion(name));
    if Fails(s, mode) then logged.(trouble := CallFailed)
    else if IsOn(StatusOf(s.account, name)) then logged.(trouble := Conflict)
    else logged.(account := SetStatus(s.account, name, Enabling))
  }

  function CallDisable(s: Session, mode: Mode, name: string): Session
  {
    var logged := Logged(s, DisableRegion(name));
    var status := StatusOf(s.account, name);
    if Fails(s, mode) then logged.(trouble := CallFailed)
    else if status == Some(EnabledByDefault) || IsOff(status) then logged.(trouble := Conflict)
    else logged.(account := SetStatus(s.account, name, Disabling))
  }

  function CallGetStatus(s: Session, mode: Mode, name: string): Session
  {
    var logged := Logged(s, GetStatus(name));
    if Fails(s, mode) then logged.(trouble := CallFailed)
    else if StatusOf(s.account, name).None? then logged.(trouble := NotARegion)
    else logged.(account := Polled(s.account, name))
  }

  /** Asks for a region's status until it is settled, at most n times. */
  function Poll(s: Session, mode: Mode, name: string, n: nat): Session
    decreases n
  {
    if n == 0 then s.(trouble := StillInFlight)
    else
      var t := CallGetStatus(s, mode, name);
      if t.trouble != NoTrouble || IsSettled(StatusOf(t.account, name)) then t
      else Poll(t, mode, name, n - 1)
  }

  function Recorded(s: Session, action: Action): Session
  {
    s.(actions := s.actions + [action])
  }

  function EnsureEnabled(s: Session, mode: Mode, name: string, seen: Option<OptStatus>): Session
  {
    if IsOn(seen) then Recorded(s, Action(Unchanged, name, false))
    else if mode.planning then Recorded(s, Action(Enable, name, false))
    else
      var called := CallEnable(s, mode, name);
      if called.trouble != NoTrouble then called
      else
        var polled := Poll(called, mode, name, PollLimit(mode));
        if polled.trouble != NoTrouble then polled else Recorded(polled, Action(Enable, name, true))
  }

  function EnsureDisabled(s: Session, mode: Mode, name: string, seen: Option<OptStatus>): Session
  {
    if IsOff(seen) then Recorded(s, Action(Unchanged, name, false))
    else if mode.planning then Recorded(s, Action(Update, name, false))
    else
      var called := CallDisable(s, mode, name);
      if called.trouble != NoTrouble then called
      else
        var polled := Poll(called, mode, name, PollLimit(mode));
        if polled.trouble != NoTrouble then polled else Recorded(polled, Action(Update, name, true))
  }

  /** One region brought to one side or the other. */
  function EnsureOne(s: Session, mode: Mode, name: string, seen: Option<OptStatus>, on: bool): Session
  {
    if on then EnsureEnabled(s, mode, name, seen) else EnsureDisabled(s, mode, name, seen)
  }

  function EnsureAll(s: Session, mode: Mode, names: seq<string>, seen: Account, on: bool): Session
    decreases |names|
  {
    if names == [] || s.trouble != NoTrouble then s
    else EnsureAll(EnsureOne(s, mode, names[0], StatusOf(seen, names[0]), on), mode, names[1..], seen, on)
  }

  /** The regions to disable that cannot be. */
  function Undisablable(a: Account, names: seq<string>): seq<string>
  {
    if names == [] then []
    else
      (if StatusOf(a, names[0]) == Some(EnabledByDefault) then [names[0]] else []) + Undisablable(a, names[1..])
  }

  function Start(a: Account): Session
  {
    Session(a, [], [], NoTrouble)
  }

  /** The step, continuing a session. */
  function EnsureFrom(s: Session, mode: Mode, spec: Spec): Session
  {
    if spec.enable == [] && spec.disable == [] then s
    else
      var a := s.account;
      var listed := Logged(s, ListRegions);
      if Fails(s, mode) then listed.(trouble := CallFailed)
      else if Undisablable(a, spec.disable) != [] then
        listed.(trouble := CannotDisable(Undisablable(a, spec.disable)))
      else EnsureAll(EnsureAll(listed, mode, spec.enable, a, true), mode, spec.disable, a, false)
  }

  function EnsureRegions(a: Account, mode: Mode, spec: Spec): Session
  {
    EnsureFrom(Start(a), mode, spec)
  }

  // ---------------------------------------------------------------------------------------------
  // What one region's step does

  /** The region is where it should be. */
  predicate Wanted(a: Account, name: string, on: bool)
  {
    if on then IsOn(StatusOf(a, name)) else IsOff(StatusOf(a, name))
  }

  function Polls(a: Account, on: bool): map<string, int>
  {
    if on then a.enablePolls else a.disablePolls
  }

  /** Everything the account holds about a region is the same. */
  predicate SameRegion(a: Account, b: Account, name: string)
  {
    StatusOf(a, name) == StatusOf(b, name)
    && PollsLeft(a.enablePolls, name) == PollsLeft(b.enablePolls, name)
    && PollsLeft(a.disablePolls, name) == PollsLeft(b.disablePolls, name)
  }

  /** From a to b the region stayed or reached the wanted side, and no poll count grew. */
  predicate Toward(a: Account, b: Account, name: string, on: bool)
  {
    (StatusOf(b, name) == StatusOf(a, name) || (Wanted(b, name, on) && StatusOf(b, name) != Some(EnabledByDefault)))
    && PollsLeft(b.enablePolls, name) <= PollsLeft(a.enablePolls, name)
    && PollsLeft(b.disablePolls, name) <= PollsLeft(a.disablePolls, name)
  }

  ghost predicate OthersSame(a: Account, b: Account, name: string)
  {
    forall other | other != name :: SameRegion(a, b, other)
  }

  lemma OthersSameTwice(a: Account, b: Account, c: Account, name: string)
    requires OthersSame(a, b, name) && OthersSame(b, c, name)
    ensures OthersSame(a, c, name)
  {
    forall other | other != name
      ensures SameRegion(a, c, other)
    {
      assert SameRegion(a, b, other) && SameRegion(b, c, other);
    }
  }

  function Moving(on: bool): OptStatus
  {
    if on then Enabling else Disabling
  }

  /** Polling a region in transition: it stays on its way, and with no failing call it settles
      if and only if the polls it still needs fit. */
  lemma {:induction false} PollOutcome(s: Session, mode: Mode, name: string, n: nat, on: bool)
    requires s.trouble == NoTrouble && StatusOf(s.account, name) == Some(Moving(on))
    ensures var t := Poll(s, mode, name, n);
            OthersSame(s.account, t.account, name) && Wanted(t.account, name, on)
            && StatusOf(t.account, name) != Some(EnabledByDefault)
            && PollsLeft(t.account.enablePolls, name) <= PollsLeft(s.account.enablePolls, name)
            && PollsLeft(t.account.disablePolls, name) <= PollsLeft(s.account.disablePolls, name)
            && t.actions == s.actions
            && (mode.failAt.None? ==> (t.trouble == NoTrouble <==> PollsLeft(Polls(s.account, on), name) < n))
    decreases n
  {
    if n > 0 {
      var t := CallGetStatus(s, mode, name);
      if t.trouble == NoTrouble && !IsSettled(StatusOf(t.account, name)) {
        PollOutcome(t, mode, name, n - 1, on);
        OthersSameTwice(s.account, t.account, Poll(t, mode, name, n - 1).account, name);
      }
    }
  }

  function VerbFor(seen: Option<OptStatus>, on: bool): Verb
  {
    if on then (if IsOn(seen) then Unchanged else Enable) else (if IsOff(seen) then Unchanged else Update)
  }

  /** The region can be brought to the wanted side within the poll limit. */
  predicate WithinPolls(a: Account, mode: Mode, name: string, on: bool)
  {
    Wanted(a, name, on) || PollsLeft(Polls(a, on), name) < PollLimit(mode)
  }

  /** From s to t one region was seen to, and no other. */
  ghost predicate OneOutcome(s: Session, t: Session, mode: Mode, name: string, on: bool)
  {
    OthersSame(s.account, t.account, name) && Toward(s.account, t.account, name, on)
    && (Wanted(s.account, name, on) ==> t.account == s.account && t.calls == s.calls && t.trouble == NoTrouble)
    && (t.trouble == NoTrouble ==>
          Wanted(t.account, name, on)
          && t.actions
             == s.actions + [Action(VerbFor(StatusOf(s.account, name), on), name, !Wanted(s.account, name, on))])
    && (mode.failAt.None? ==> (t.trouble == NoTrouble <==> WithinPolls(s.account, mode, name, on)))
  }

  lemma OneRegion(s: Session, mode: Mode, name: string, on: bool)
    requires s.trouble == NoTrouble && !mode.planning
    requires !on ==> StatusOf(s.account, name) != Some(EnabledByDefault)
    ensures OneOutcome(s, EnsureOne(s, mode, name, StatusOf(s.account, name), on), mode, name, on)
  {
    hide Poll;
    if !Wanted(s.account, name, on) {
      var called := if on then CallEnable(s, mode, name) else CallDisable(s, mode, name);
      if called.trouble == NoTrouble {
        PollOutcome(called, mode, name, PollLimit(mode), on);
        OthersSameTwice(s.account, called.account, Poll(called, mode, name, PollLimit(mode)).account, name);
      }
    }
  }
}
