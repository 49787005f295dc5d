/** The account service and the region step as they run. */
module RegionsClient {
  import opened Options
  import opened Regions
  import opened RegionsConverge

  class AccountService {
    const failAt: Option<nat>
    var regions: map<string, OptStatus>
    var enablePolls: map<string, int>
    var disablePolls: map<string, int>
    var calls: seq<Call>

    constructor (account: Account, failAt: Option<nat>)
      ensures this.failAt == failAt && Snapshot() == account && calls == []
    {
      this.failAt := failAt;
      regions, enablePolls, disablePolls := account.regions, account.enablePolls, account.disablePolls;
      calls := [];
    }

    function Snapshot(): Account
      reads this
    {
      Account(regions, enablePolls, disablePolls)
    }

    method List() returns (listed: Option<map<string, OptStatus>>)
      modifies this`calls
      ensures calls == old(calls) + [ListRegions]
      ensures listed == if failAt == Some(|old(calls)|) then None else Some(regions)
    {
      calls := calls + [ListRegions];
      if failAt == Some(|calls| - 1) {
        return None;
      }
      return Some(regions);
    }

    method Enable(name: string, ghost s: Session, ghost mode: Mode) returns (trouble: Trouble)
      requires s == Session(Snapshot(), calls, s.actions, NoTrouble) && mode.failAt == failAt
      modifies this
      ensures Session(Snapshot(), calls, s.actions, trouble) == CallEnable(s, mode, name)
    {
      calls := calls + [EnableRegion(name)];
      if failAt == Some(|calls| - 1) {
        return CallFailed;
      }
      if name in regions
         && (regions[name] == Enabled || regions[name] == EnabledByDefault || regions[name] == Enabling) {
        return Conflict;
      }
      regions := regions[name := Enabling];
      return NoTrouble;
    }

    method Disable(name: string, ghost s: Session, ghost mode: Mode) returns (trouble: Trouble)
      requires s == Session(Snapshot(), calls, s.actions, NoTrouble) && mode.failAt == failAt
      modifies this
      ensures Session(Snapshot(), calls, s.actions, trouble) == CallDisable(s, mode, name)
    {
      calls := calls + [DisableRegion(name)];
      if failAt == Some(|calls| - 1) {
        return CallFailed;
      }
      if name in regions
         && (regions[name] == EnabledByDefault || regions[name] == Disabled || regions[name] == Disabling) {
        return Conflict;
      }
      regions := regions[name := Disabling];
      return NoTrouble;
    }

    method GetOptStatus(name: string, ghost s: Session, ghost mode: Mode)
        returns (status: Option<OptStatus>, trouble: Trouble)
      requires s == Session(Snapshot(), calls, s.actions, NoTrouble) && mode.failAt == failAt
      modifies this
      ensures Session(Snapshot(), calls, s.actions, trouble) == CallGetStatus(s, mode, name)
      ensures trouble == NoTrouble ==> status == StatusOf(Snapshot(), name)
    {
      calls := calls + [GetStatus(name)];
      if failAt == Some(|calls| - 1) {
        return None, CallFailed;
      }
      if name !in regions {
        return None, NotARegion;
      }
      var now := regions[name];
      if now == Enabling {
        var left := if name in enablePolls then enablePolls[name] else 0;
        if left > 0 {
          enablePolls := enablePolls[name := left - 1];
        } else {
          regions := regions[name := Enabled];
        }
      } else if now == Disabling {
        var left := if name in disablePolls then disablePolls[name] else 0;
        if left > 0 {
          disablePolls := disablePolls[name := left - 1];
        } else {
          regions := regions[name := Disabled];
        }
      }
      status, trouble := Some(regions[name]), NoTrouble;
    }
  }

  /** The regions to disable that are always on. */
  method Refusals(ghost seen: Account, current: map<string, OptStatus>, names: seq<string>)
      returns (refused: seq<string>)
    requires current == seen.regions
    ensures refused == Undisablable(seen, names)
  {
    refused := [];
    for i := 0 to |names|
      invariant refused + Undisablable(seen, names[i..]) == Undisablable(seen, names)
    {
      var name := names[i];
      assert names[i..][0] == name && names[i..][1..] == names[i + 1..];
      if name in current && current[name] == EnabledByDefault {
        refused := refused + [name];
      }
    }
    assert names[|names|..] == [];
  }

  class Ensurer {
    const service: AccountService
    const planning: bool
    const maxPolls: int
    var actions: seq<Action>

    constructor (service: AccountService, planning: bool, maxPolls: int)
      ensures this.service == service && this.planning == planning && this.maxPolls == maxPolls && actions == []
    {
      this.service, this.planning, this.maxPolls := service, planning, maxPolls;
      actions := [];
    }

    function ModeOf(): Mode
    {
      Mode(planning, maxPolls, service.failAt)
    }

    function After(trouble: Trouble): Session
      reads this, service
    {
      Session(service.Snapshot(), service.calls, actions, trouble)
    }

    method PollRegionOptStatus(name: string) returns (trouble: Trouble)
      modifies service
      ensures After(trouble) == Poll(old(After(NoTrouble)), ModeOf(), name, PollLimit(ModeOf()))
    {
      hide CallGetStatus;
      var limit := if maxPolls > 0 then maxPolls else DEFAULT_MAX_POLLS;
      for i := 0 to limit
        invariant Poll(After(NoTrouble), ModeOf(), name, limit - i)
                  == Poll(old(After(NoTrouble)), ModeOf(), name, limit)
        invariant actions == old(actions)
      {
        var status;
        status, trouble := service.GetOptStatus(name, After(NoTrouble), ModeOf());
        if trouble != NoTrouble {
          return;
        }
        if status == Some(Enabled) || status == Some(Disabled) {
          return;
        }
      }
      return StillInFlight;
    }

    method EnsureRegionEnabled(name: string, status: Option<OptStatus>) returns (trouble: Trouble)
      modifies service, this`actions
      ensures After(trouble) == EnsureEnabled(old(After(NoTrouble)), ModeOf(), name, status)
      ensures old(actions) <= actions
    {
      hide Poll;
      if status == Some(Enabled) || status == Some(EnabledByDefault) || status == Some(Enabling) {
        actions := actions + [Action(Unchanged, name, false)];
        return NoTrouble;
      }
      if planning {
        actions := actions + [Action(Verb.Enable, name, false)];
        return NoTrouble;
      }
      trouble := service.Enable(name, After(NoTrouble), ModeOf());
      if trouble != NoTrouble {
        return;
      }
      trouble := PollRegionOptStatus(name);
      if trouble != NoTrouble {
        return;
      }
      actions := actions + [Action(Verb.Enable, name, true)];
    }

    method EnsureRegionDisabled(name: string, status: Option<OptStatus>) returns (trouble: Trouble)
      modifies service, this`actions
      ensures After(trouble) == EnsureDisabled(old(After(NoTrouble)), ModeOf(), name, status)
      ensures old(actions) <= actions
    {
      hide Poll;
      if status == Some(Disabled) || status == Some(Disabling) {
        actions := actions + [Action(Unchanged, name, false)];
        return NoTrouble;
      }
      if planning {
        actions := actions + [Action(Update, name, false)];
        return NoTrouble;
      }
      trouble := service.Disable(name, After(NoTrouble), ModeOf());
      if trouble != NoTrouble {
        return;
      }
      trouble := PollRegionOptStatus(name);
      if trouble != NoTrouble {
        return;
      }
      actions := actions + [Action(Update, name, true)];
    }

    /** One pass over the regions to enable, or over those to disable. */
    method EnsureList(names: seq<string>, ghost seen: Account, current: map<string, OptStatus>, on: bool)
        returns (trouble: Trouble)
      requires current == seen.regions
      modifies service, this`actions
      ensures After(trouble) == EnsureAll(old(After(NoTrouble)), ModeOf(), names, seen, on)
      ensures old(actions) <= actions
    {
      hide EnsureEnabled, EnsureDisabled;
      for i := 0 to |names|
        invariant EnsureAll(After(NoTrouble), ModeOf(), names[i..], seen, on)
               == EnsureAll(old(After(NoTrouble)), ModeOf(), names, seen, on)
        invariant old(actions) <= actions
      {
        var name := names[i];
        var status := if name in current then Some(current[name]) else None;
        assert names[i..][0] == name && names[i..][1..] == names[i + 1..];
        if on {
          trouble := EnsureRegionEnabled(name, status);
        } else {
          trouble := EnsureRegionDisabled(name, status);
        }
        if trouble != NoTrouble {
          return;
        }
      }
      return NoTrouble;
    }

    /** Brings the account's regions to the wanted set; returns what this call recorded. */
    method EnsureRegions(spec: Spec) returns (done: seq<Action>, trouble: Trouble)
      modifies service, this`actions
      ensures After(trouble) == EnsureFrom(old(After(NoTrouble)), ModeOf(), spec)
      ensures actions == old(actions) + done
    {
      hide EnsureAll;
      if |spec.enable| == 0 && |spec.disable| == 0 {
        return [], NoTrouble;
      }
      var current := service.List();
      if current.None? {
        return [], CallFailed;
      }
      ghost var a := service.Snapshot();
      var refused := Refusals(a, current.value, spec.disable);
      if |refused| > 0 {
        return [], CannotDisable(refused);
      }
      var before := |actions|;
      trouble := EnsureList(spec.enable, a, current.value, true);
      if trouble == NoTrouble {
        trouble := EnsureList(spec.disable, a, current.value, false);
      } else {
        StuckSession(After(trouble), ModeOf(), spec.disable, a, false);
      }
      done := actions[before..];
    }
  }
}
