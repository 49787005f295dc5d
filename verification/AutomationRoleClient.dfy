/** The role service and the automation role step as they run. */
module AutomationRoleClient {
  import opened Options
  import opened AutomationRole

  /** A tag key given twice has the last value given. */
  function LastGiven(tags: seq<(string, string)>): map<string, string>
  {
    if tags == [] then map[]
    else
      var (key, value) := tags[|tags| - 1];
      LastGiven(tags[..|tags| - 1])[key := value]
  }

  class RoleService {
    const failAt: Option<nat>
    var roles: Roles
    var calls: seq<Call>

    constructor (roles: Roles, failAt: Option<nat>)
      ensures this.roles == roles && this.failAt == failAt && calls == []
    {
      this.roles, this.failAt := roles, failAt;
      calls := [];
    }

    /** Logs a call; tells whether it goes through. */
    method Log(call: Call) returns (ok: bool)
      modifies this`calls
      ensures calls == old(calls) + [call]
      ensures ok == (failAt != Some(|old(calls)|))
    {
      calls := calls + [call];
      return failAt != Some(|calls| - 1);
    }

    method GetRole(name: string) returns (trouble: Trouble)
      modifies this`calls
      ensures calls == old(calls) + [Call.GetRole]
      ensures trouble == if failAt == Some(|old(calls)|) then CallFailed
                         else if name !in roles then NoSuchEntity else NoTrouble
    {
      var ok := Log(Call.GetRole);
      return if !ok then CallFailed else if name !in roles then NoSuchEntity else NoTrouble;
    }

    method GetRolePolicy(name: string, policy: string) returns (document: string, trouble: Trouble)
      modifies this`calls
      ensures calls == old(calls) + [Call.GetRolePolicy]
      ensures trouble == if failAt == Some(|old(calls)|) then CallFailed
                         else if name !in roles || policy !in roles[name].policies then NoSuchEntity else NoTrouble
      ensures trouble == NoTrouble ==> document == roles[name].policies[policy]
    {
      var ok := Log(Call.GetRolePolicy);
      if !ok {
        return "", CallFailed;
      }
      if name !in roles || policy !in roles[name].policies {
        return "", NoSuchEntity;
      }
      return roles[name].policies[policy], NoTrouble;
    }

    method CreateRole(name: string, trust: string, tags: seq<(string, string)>) returns (trouble: Trouble)
      modifies this
      ensures calls == old(calls) + [Call.CreateRole]
      ensures trouble == if failAt == Some(|old(calls)|) then CallFailed
                         else if name in old(roles) then AlreadyExists else NoTrouble
      ensures roles == if trouble == NoTrouble then old(roles)[name := Role(trust, map[], LastGiven(tags))]
                       else old(roles)
    {
      var ok := Log(Call.CreateRole);
      if !ok {
        return CallFailed;
      }
      if name in roles {
        return AlreadyExists;
      }
      var given: map<string, string> := map[];
      for i := 0 to |tags|
        invariant given == LastGiven(tags[..i]) && roles == old(roles)
      {
        assert tags[..i + 1][..i] == tags[..i];
        given := given[tags[i].0 := tags[i].1];
      }
      assert tags[..|tags|] == tags;
      roles := roles[name := Role(trust, map[], given)];
      return NoTrouble;
    }

    method TagRole(name: string, key: string, value: string) returns (trouble: Trouble)
      modifies this
      ensures calls == old(calls) + [Call.TagRole]
      ensures trouble == if failAt == Some(|old(calls)|) then CallFailed
                         else if name !in old(roles) then NoSuchEntity else NoTrouble
      ensures roles == if trouble == NoTrouble
                       then old(roles)[name := old(roles)[name].(tags := old(roles)[name].tags[key := value])]
                       else old(roles)
    {
      var ok := Log(Call.TagRole);
      if !ok {
        return CallFailed;
      }
      if name !in roles {
        return NoSuchEntity;
      }
      roles := roles[name := roles[name].(tags := roles[name].tags[key := value])];
      return NoTrouble;
    }

    method PutRolePolicy(name: string, policy: string, document: string) returns (trouble: Trouble)
      modifies this
      ensures calls == old(calls) + [Call.PutRolePolicy]
      ensures trouble == if failAt == Some(|old(calls)|) then CallFailed
                         else if name !in old(roles) then NoSuchEntity else NoTrouble
      ensures roles == if trouble == NoTrouble
                       then old(roles)[name :=
                         old(roles)[name].(policies := old(roles)[name].policies[policy := document])]
                       else old(roles)
    {
      var ok := Log(Call.PutRolePolicy);
      if !ok {
        return CallFailed;
      }
      if name !in roles {
        return NoSuchEntity;
      }
      roles := roles[name := roles[name].(policies := roles[name].policies[policy := document])];
      return NoTrouble;
    }
  }

  class Ensurer {
    const service: RoleService
    const planning: bool
    var actions: seq<Action>

    constructor (service: RoleService, planning: bool)
      ensures this.service == service && this.planning == planning && actions == []
    {
      this.service, this.planning := service, planning;
      actions := [];
    }

    function ModeOf(): Mode
    {
      Mode(planning, service.failAt)
    }

    function After(trouble: Trouble): Session
      reads this, service
    {
      Session(service.roles, service.calls, actions, trouble)
    }

    method Record(verb: Verb, applied: bool)
      modifies this`actions
      ensures actions == old(actions) + [Action(verb, applied)]
    {
      actions := actions + [Action(verb, applied)];
    }

    method CreateAutomationRole(w: Wanted) returns (trouble: Trouble)
      modifies service, this`actions
      ensures After(trouble) == AutomationRole.CreateAutomationRole(old(After(NoTrouble)), ModeOf(), w)
    {
      if planning {
        Record(Create, false);
        return NoTrouble;
      }
      trouble := service.CreateRole(w.name, w.trust, []);
      if trouble != NoTrouble {
        return;
      }
      trouble := service.TagRole(w.name, OWNER_KEY, OWNER_VALUE);
      if trouble != NoTrouble {
        return;
      }
      trouble := service.PutRolePolicy(w.name, POLICY_NAME, w.perms);
      if trouble != NoTrouble {
        return;
      }
      Record(Create, true);
    }

    method UpdateAutomationRole(w: Wanted) returns (trouble: Trouble)
      requires w.name in service.roles
      modifies service, this`actions
      ensures After(trouble) == AutomationRole.UpdateAutomationRole(old(After(NoTrouble)), ModeOf(), w)
    {
      var current, reading := service.GetRolePolicy(w.name, POLICY_NAME);
      if reading != NoTrouble && reading != NoSuchEntity {
        return reading;
      }
      if reading == NoTrouble && w.canon(current).Some? && w.canon(w.perms).Some?
         && w.canon(current).value == w.canon(w.perms).value {
        Record(Unchanged, false);
        return NoTrouble;
      }
      if planning {
        Record(Update, false);
        return NoTrouble;
      }
      trouble := service.PutRolePolicy(w.name, POLICY_NAME, w.perms);
      if trouble != NoTrouble {
        return;
      }
      Record(Update, true);
    }

    /** The role exists and carries the wanted permissions. */
    method EnsureAutomationRole(w: Wanted) returns (trouble: Trouble)
      modifies service, this`actions
      ensures After(trouble) == AutomationRole.EnsureAutomationRole(old(After(NoTrouble)), ModeOf(), w)
    {
      hide AutomationRole.CreateAutomationRole, AutomationRole.UpdateAutomationRole;
      if w.name == "" {
        return NoName;
      }
      trouble := service.GetRole(w.name);
      if trouble == NoTrouble {
        trouble := UpdateAutomationRole(w);
      } else if trouble == NoSuchEntity {
        trouble := CreateAutomationRole(w);
      }
    }
  }
}
