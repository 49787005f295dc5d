/** The automation role step call by call: what a run asks and reports, and where a failing call stops it. */
module AutomationRoleTrace {
  import opened Options
  import opened AutomationRole

  /** What the calls of a log, each of which went through, do to the roles. */
  function Replay(roles: Roles, calls: seq<Call>, w: Wanted): Roles
  {
    if calls == [] then roles
    else
      var before := Replay(roles, calls[..|calls| - 1], w);
      match calls[|calls| - 1]
      case CreateRole => before[w.name := Role(w.trust, map[], map[])]
      case TagRole =>
        if w.name !in before then before
        else
          var r := before[w.name];
          before[w.name := Role(r.trust, r.policies, r.tags["automat:managed-by" := "automat"])]
      case PutRolePolicy =>
        if w.name !in before then before
        else
          var r := before[w.name];
          before[w.name := Role(r.trust, r.policies["automat-automation" := w.perms], r.tags)]
      case _ => before
  }

  /** The role's policy is there and is the same document as the wanted one. */
  predicate InPlace(roles: Roles, w: Wanted)
  {
    && w.name in roles && "automat-automation" in roles[w.name].policies
    && w.canon(roles[w.name].policies["automat-automation"]).Some?
    && w.canon(roles[w.name].policies["automat-automation"]) == w.canon(w.perms)
  }

  /** A missing role is created, tagged and given its policy; an existing one is given its policy if it does
      not have it. */
  function Calls(roles: Roles, planning: bool, w: Wanted): seq<Call>
  {
    if w.name !in roles then (if planning then [GetRole] else [GetRole, CreateRole, TagRole, PutRolePolicy])
    else if InPlace(roles, w) || planning then [GetRole, GetRolePolicy]
    else [GetRole, GetRolePolicy, PutRolePolicy]
  }

  /** One entry is reported: what was done, or would be. */
  function Report(roles: Roles, planning: bool, w: Wanted): Action
  {
    if w.name !in roles then Action(Create, !planning)
    else if InPlace(roles, w) then Action(Unchanged, false)
    else Action(Update, !planning)
  }

  /** An undisturbed run, planning or not, makes these calls, leaves what they make of the roles, and reports
      this one entry. */
  lemma UndisturbedTrace(roles: Roles, planning: bool, w: Wanted)
    requires w.name != ""
    ensures var calls := Calls(roles, planning, w);
            EnsureAutomationRole(Start(roles), Mode(planning, None), w)
            == Session(Replay(roles, calls, w), calls, [Report(roles, planning, w)], NoTrouble)
  {
    ReplaySteps(roles, w);
  }

  lemma ReplaySteps(roles: Roles, w: Wanted)
    ensures Replay(roles, [], w) == roles && Replay(roles, [GetRole], w) == roles
    ensures Replay(roles, [GetRole, GetRolePolicy], w) == roles
    ensures var created := roles[w.name := Role(w.trust, map[], map[])];
            var tagged := roles[w.name := Role(w.trust, map[], map["automat:managed-by" := "automat"])];
            var owner := map["automat:managed-by" := "automat"];
            && Replay(roles, [GetRole, CreateRole], w) == created
            && Replay(roles, [GetRole, CreateRole, TagRole], w) == tagged
            && Replay(roles, [GetRole, CreateRole, TagRole, PutRolePolicy], w)
               == roles[w.name := Role(w.trust, map["automat-automation" := w.perms], owner)]
    ensures w.name in roles ==>
              var r := roles[w.name];
              Replay(roles, [GetRole, GetRolePolicy, PutRolePolicy], w)
              == roles[w.name := r.(policies := r.policies["automat-automation" := w.perms])]
  {
    assert [GetRole][..0] == [] && [GetRole, GetRolePolicy][..1] == [GetRole];
    assert [GetRole, CreateRole][..1] == [GetRole] && [GetRole, CreateRole, TagRole][..2] == [GetRole, CreateRole];
    assert [GetRole, CreateRole, TagRole, PutRolePolicy][..3] == [GetRole, CreateRole, TagRole];
    assert [GetRole, GetRolePolicy, PutRolePolicy][..2] == [GetRole, GetRolePolicy];
  }

  /** A run whose k-th call fails makes the calls of the undisturbed run up to that one, says that a call
      failed, reports nothing, and leaves what the calls before it made of the roles. A failure that would
      come after the last call changes nothing. */
  lemma FailureStops(roles: Roles, planning: bool, k: nat, w: Wanted)
    requires w.name != ""
    ensures var calls := Calls(roles, planning, w);
            EnsureAutomationRole(Start(roles), Mode(planning, Some(k)), w)
            == if k < |calls| then Session(Replay(roles, calls[..k], w), calls[..k + 1], [], CallFailed)
               else EnsureAutomationRole(Start(roles), Mode(planning, None), w)
  {
    hide Replay, EnsureAutomationRole;
    if w.name in roles {
      StopsAtUpdate(roles, planning, k, w);
    } else {
      StopsAtCreation(roles, planning, k, w);
    }
    UndisturbedTrace(roles, planning, w);
  }

  lemma StopsAtUpdate(roles: Roles, planning: bool, k: nat, w: Wanted)
    requires w.name != "" && w.name in roles
    ensures var calls := Calls(roles, planning, w);
            EnsureAutomationRole(Start(roles), Mode(planning, Some(k)), w)
            == if k < |calls| then Session(Replay(roles, calls[..k], w), calls[..k + 1], [], CallFailed)
               else EnsureAutomationRole(Start(roles), Mode(planning, None), w)
  {
    ReplaySteps(roles, w);
    hide Replay;
    var calls := Calls(roles, planning, w);
    if k < |calls| {
      Prefixes(calls, k);
    }
  }

  lemma StopsAtCreation(roles: Roles, planning: bool, k: nat, w: Wanted)
    requires w.name != "" && w.name !in roles
    ensures var calls := Calls(roles, planning, w);
            EnsureAutomationRole(Start(roles), Mode(planning, Some(k)), w)
            == if k < |calls| then Session(Replay(roles, calls[..k], w), calls[..k + 1], [], CallFailed)
               else EnsureAutomationRole(Start(roles), Mode(planning, None), w)
  {
    ReplaySteps(roles, w);
    hide Replay, UpToDate;
    var calls := Calls(roles, planning, w);
    if k < |calls| {
      Prefixes(calls, k);
    }
  }

  lemma Prefixes(calls: seq<Call>, k: nat)
    requires k < |calls| <= 4
    ensures calls[..k] == (if k == 0 then [] else if k == 1 then [calls[0]] else if k == 2 then [calls[0], calls[1]]
                           else [calls[0], calls[1], calls[2]])
    ensures calls[..k + 1] == calls[..k] + [calls[k]]
  {
  }

  /** Creating a role that exists, and tagging or giving a policy to one that does not, is refused and changes
      nothing. */
  lemma ServiceRefuses(s: Session, mode: Mode, w: Wanted)
    requires mode.failAt != Some(|s.calls|)
    ensures w.name in s.roles ==>
              CallCreate(s, mode, w) == Session(s.roles, s.calls + [CreateRole], s.actions, AlreadyExists)
    ensures w.name !in s.roles ==>
              && CallTag(s, mode, w) == Session(s.roles, s.calls + [TagRole], s.actions, NoSuchEntity)
              && CallPut(s, mode, w) == Session(s.roles, s.calls + [PutRolePolicy], s.actions, NoSuchEntity)
  {
  }
}
