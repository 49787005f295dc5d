/** The automation role: created once, its permissions policy kept to what is wanted. */
module AutomationRole {
  import opened Options

  datatype Role = Role(trust: string, policies: map<string, string>, tags: map<string, string>)

  type Roles = map<string, Role>

  datatype Call = GetRole | GetRolePolicy | CreateRole | TagRole | PutRolePolicy

  datatype Verb = Create | Update | Unchanged

  datatype Action = Action(verb: Verb, applied: bool)

  datatype Trouble = NoTrouble | NoName | CallFailed | NoSuchEntity | AlreadyExists

  datatype Session = Session(roles: Roles, calls: seq<Call>, actions: seq<Action>, trouble: Trouble)

  datatype Mode = Mode(planning: bool, failAt: Option<nat>)

  /** What is wanted; canon gives a document its stable form, or nothing when it is no document. */
  datatype Wanted = Wanted(name: string, trust: string, perms: string, canon: string -> Option<string>)

  const POLICY_NAME := "automat-automation"
  const OWNER_KEY := "automat:managed-by"
  const OWNER_VALUE := "automat"

  /** Two documents say the same; text that is no document says the same as nothing, itself included. */
  predicate SameDocument(canon: string -> Option<string>, a: string, b: string)
  {
    canon(a).Some? && canon(a) == canon(b)
  }

  function Start(roles: Roles): Session
  {
    Session(roles, [], [], NoTrouble)
  }

  function Logged(s: Session, call: Call): Session
  {
    s.(calls := s.calls + [call])
  }

  predicate Fails(s: Session, mode: Mode)
  {
    mode.failAt == Some(|s.calls|)
  }

  function Recorded(s: Session, verb: Verb, applied: bool): Session
  {
    s.(actions := s.actions + [Action(verb, applied)])
  }

  function CallCreate(s: Session, mode: Mode, w: Wanted): Session
  {
    var logged := Logged(s, CreateRole);
    if Fails(s, mode) then logged.(trouble := CallFailed)
    else if w.name in s.roles then logged.(trouble := AlreadyExists)
    else logged.(roles := s.roles[w.name := Role(w.trust, map[], map[])])
  }

  function CallTag(s: Session, mode: Mode, w: Wanted): Session
  {
    var logged := Logged(s, TagRole);
    if Fails(s, mode) then logged.(trouble := CallFailed)
    else if w.name !in s.roles then logged.(trouble := NoSuchEntity)
    else
      var r := s.roles[w.name];
      logged.(roles := s.roles[w.name := r.(tags := r.tags[OWNER_KEY := OWNER_VALUE])])
  }

  function CallPut(s: Session, mode: Mode, w: Wanted): Session
  {
    var logged := Logged(s, PutRolePolicy);
    if Fails(s, mode) then logged.(trouble := CallFailed)
    else if w.name !in s.roles then logged.(trouble := NoSuchEntity)
    else
      var r := s.roles[w.name];
      logged.(roles := s.roles[w.name := r.(policies := r.policies[POLICY_NAME := w.perms])])
  }

  /** Created, tagged, and given its policy, in that order; each step may be the last. */
  function CreateAutomationRole(s: Session, mode: Mode, w: Wanted): Session
  {
    if mode.planning then Recorded(s, Create, false)
    else
      var created := CallCreate(s, mode, w);
      if created.trouble != NoTrouble then created
      else
        var tagged := CallTag(created, mode, w);
        if tagged.trouble != NoTrouble then tagged
        else
          var put := CallPut(tagged, mode, w);
          if put.trouble != NoTrouble then put else Recorded(put, Create, true)
  }

  /** The policy now in place, when the role exists. */
  function CurrentPolicy(roles: Roles, w: Wanted): Option<string>
  {
    if w.name in roles && POLICY_NAME in roles[w.name].policies then Some(roles[w.name].policies[POLICY_NAME]) else None
  }

  /** The role carries a document that says what is wanted. */
  predicate UpToDate(roles: Roles, w: Wanted)
  {
    CurrentPolicy(roles, w).Some? && SameDocument(w.canon, CurrentPolicy(roles, w).value, w.perms)
  }

  function UpdateAutomationRole(s: Session, mode: Mode, w: Wanted): Session
  {
    var logged := Logged(s, GetRolePolicy);
    if Fails(s, mode) then logged.(trouble := CallFailed)
    else if UpToDate(s.roles, w) then Recorded(logged, Unchanged, false)
    else if mode.planning then Recorded(logged, Update, false)
    else
      var put := CallPut(logged, mode, w);
      if put.trouble != NoTrouble then put else Recorded(put, Update, true)
  }

  function EnsureAutomationRole(s: Session, mode: Mode, w: Wanted): Session
  {
    if w.name == "" then s.(trouble := NoName)
    else
      var logged := Logged(s, GetRole);
      if Fails(s, mode) then logged.(trouble := CallFailed)
      else if w.name in s.roles then UpdateAutomationRole(logged, mode, w)
      else CreateAutomationRole(logged, mode, w)
  }

  // ---------------------------------------------------------------------------------------------
  // What holds

  predicate IsWrite(call: Call)
  {
    call.CreateRole? || call.TagRole? || call.PutRolePolicy?
  }

  /** The wanted document itself is in place, or one that says the same. */
  predicate Carries(roles: Roles, w: Wanted)
  {
    CurrentPolicy(roles, w) == Some(w.perms) || UpToDate(roles, w)
  }

  /** Other roles, and the other policies of this one, are the same. */
  predicate OthersKept(before: Roles, after: Roles, w: Wanted)
  {
    before - {w.name} == after - {w.name}
    && (w.name in before ==>
          w.name in after && before[w.name].policies - {POLICY_NAME} == after[w.name].policies - {POLICY_NAME})
  }

  /** Without a name nothing is asked of the service. Otherwise an apply without a failing call succeeds from
      any roles, and whenever one succeeds the role carries the wanted document. However a run ends, nothing
      else changes, the trust policy and the tags of a role that was there before included. */
  lemma ApplyConverges(roles: Roles, mode: Mode, w: Wanted)
    requires !mode.planning
    ensures var t := EnsureAutomationRole(Start(roles), mode, w);
            && (w.name == "" ==> t == Session(roles, [], [], NoName))
            && OthersKept(roles, t.roles, w) && TrustAndTagsKept(roles, t.roles, w)
            && (mode.failAt.None? && w.name != "" ==> t.trouble == NoTrouble)
            && (t.trouble == NoTrouble ==> Carries(t.roles, w))
  {
    hide SameDocument;
    if w.name in roles {
      UpdateConverges(roles, mode, w);
    } else {
      CreateConverges(roles, mode, w);
    }
  }

  /** Trust policy and tags of a role are not repaired, whatever is wanted now. */
  predicate TrustAndTagsKept(before: Roles, after: Roles, w: Wanted)
  {
    w.name in before ==>
      w.name in after && after[w.name].trust == before[w.name].trust && after[w.name].tags == before[w.name].tags
  }

  lemma UpdateConverges(roles: Roles, mode: Mode, w: Wanted)
    requires !mode.planning && w.name in roles
    ensures var t := EnsureAutomationRole(Start(roles), mode, w);
            && OthersKept(roles, t.roles, w) && TrustAndTagsKept(roles, t.roles, w)
            && (w.name != "" && mode.failAt.None? ==> t.trouble == NoTrouble)
            && (t.trouble == NoTrouble ==> Carries(t.roles, w))
  {
    hide SameDocument;
  }

  lemma CreateConverges(roles: Roles, mode: Mode, w: Wanted)
    requires !mode.planning && w.name !in roles
    ensures var t := EnsureAutomationRole(Start(roles), mode, w);
            && OthersKept(roles, t.roles, w)
            && (w.name != "" && mode.failAt.None? ==> t.trouble == NoTrouble)
            && (t.trouble == NoTrouble ==> Carries(t.roles, w))
  {
    hide SameDocument;
  }

  lemma CarriedIsKept(roles: Roles, mode: Mode, w: Wanted)
    requires !mode.planning && w.name != "" && mode.failAt.None? && Carries(roles, w)
    ensures var t := EnsureAutomationRole(Start(roles), mode, w);
            (forall call | call in t.calls :: !IsWrite(call)) <==> w.canon(w.perms).Some?
    ensures w.canon(w.perms).Some? ==> EnsureAutomationRole(Start(roles), mode, w).roles == roles
  {
    var t := EnsureAutomationRole(Start(roles), mode, w);
    if UpToDate(roles, w) {
      assert t.calls == [GetRole, GetRolePolicy];
    } else {
      assert t.calls == [GetRole, GetRolePolicy, PutRolePolicy];
      assert PutRolePolicy in t.calls;
    }
  }

  /** What one run after another leaves, plans among them, whichever calls fail. */
  function AfterRuns(roles: Roles, runs: seq<Mode>, w: Wanted): Roles
    decreases |runs|
  {
    if runs == [] then roles else AfterRuns(EnsureAutomationRole(Start(roles), runs[0], w).roles, runs[1..], w)
  }

  lemma PlanKeeps(roles: Roles, mode: Mode, w: Wanted)
    requires mode.planning
    ensures EnsureAutomationRole(Start(roles), mode, w).roles == roles
  {
  }

  /** A run touches nothing but the one policy of a role that is there. */
  ghost predicate OnlyPolicy(before: Roles, after: Roles, w: Wanted)
  {
    OthersKept(before, after, w) && TrustAndTagsKept(before, after, w)
  }

  lemma {:induction false} RunsKeepOthers(roles: Roles, runs: seq<Mode>, w: Wanted)
    ensures OnlyPolicy(roles, AfterRuns(roles, runs, w), w)
    decreases |runs|
  {
    hide EnsureAutomationRole, OnlyPolicy;
    if runs == [] {
      KeptTwice(roles, roles, roles, w);
    } else {
      var next := EnsureAutomationRole(Start(roles), runs[0], w).roles;
      if runs[0].planning {
        PlanKeeps(roles, runs[0], w);
      } else {
        ApplyConverges(roles, runs[0], w);
      }
      RunsKeepOthers(next, runs[1..], w);
      KeptTwice(roles, next, AfterRuns(roles, runs, w), w);
    }
  }

  lemma KeptTwice(a: Roles, b: Roles, c: Roles, w: Wanted)
    ensures OnlyPolicy(a, a, w)
    ensures OthersKept(a, b, w) && TrustAndTagsKept(a, b, w) && OnlyPolicy(b, c, w) ==> OnlyPolicy(a, c, w)
  {
  }

  /** However many runs came before, whichever of their calls failed, a successful run leaves the role
      carrying the wanted document and all else as it was at first, and a further one writes nothing if and
      only if what is wanted is a document at all. */
  lemma ConvergesAfterFailures(roles: Roles, runs: seq<Mode>, later: Mode, further: Mode, w: Wanted)
    requires !later.planning && !further.planning && w.name != "" && further.failAt.None?
    requires EnsureAutomationRole(Start(AfterRuns(roles, runs, w)), later, w).trouble == NoTrouble
    ensures var done := EnsureAutomationRole(Start(AfterRuns(roles, runs, w)), later, w).roles;
            var again := EnsureAutomationRole(Start(done), further, w);
            && Carries(done, w) && OnlyPolicy(roles, done, w)
            && ((forall call | call in again.calls :: !IsWrite(call)) <==> w.canon(w.perms).Some?)
  {
    hide EnsureAutomationRole, Carries, OnlyPolicy;
    RunsKeepOthers(roles, runs + [later], w);
    AfterOneMore(roles, runs, later, w);
    ApplyConverges(AfterRuns(roles, runs, w), later, w);
    CarriedIsKept(EnsureAutomationRole(Start(AfterRuns(roles, runs, w)), later, w).roles, further, w);
  }

  lemma {:induction false} AfterOneMore(roles: Roles, runs: seq<Mode>, last: Mode, w: Wanted)
    ensures AfterRuns(roles, runs + [last], w) == EnsureAutomationRole(Start(AfterRuns(roles, runs, w)), last, w).roles
    decreases |runs|
  {
    hide EnsureAutomationRole;
    if runs != [] {
      assert (runs + [last])[1..] == runs[1..] + [last] && (runs + [last])[0] == runs[0];
      AfterOneMore(EnsureAutomationRole(Start(roles), runs[0], w).roles, runs[1..], last, w);
    } else {
      assert (runs + [last])[1..] == [];
    }
  }

  /** Where there is no role yet, the run gets as far as creating it. */
  predicate Creates(mode: Mode)
  {
    !mode.planning && mode.failAt != Some(0) && mode.failAt != Some(1)
  }

  /** The first run that created the role failed at the call that tags it. */
  ghost predicate TagMissed(runs: seq<Mode>)
  {
    exists i | 0 <= i < |runs| :: runs[i] == Mode(false, Some(2)) && forall j | 0 <= j < i :: !Creates(runs[j])
  }

  lemma OneRun(roles: Roles, mode: Mode, w: Wanted)
    requires w.name != "" && w.name !in roles
    ensures var t := EnsureAutomationRole(Start(roles), mode, w).roles;
            if !Creates(mode) then t == roles
            else w.name in t && t[w.name].trust == w.trust && (OWNER_KEY in t[w.name].tags <==> mode.failAt != Some(2))
  {
    hide UpToDate;
  }

  lemma TagMissedStep(runs: seq<Mode>)
    requires runs != []
    ensures TagMissed(runs) <==> runs[0] == Mode(false, Some(2)) || (!Creates(runs[0]) && TagMissed(runs[1..]))
  {
    var rest := runs[1..];
    if TagMissed(runs) {
      var i :| 0 <= i < |runs| && runs[i] == Mode(false, Some(2)) && forall j | 0 <= j < i :: !Creates(runs[j]);
      if i > 0 {
        assert rest[i - 1] == runs[i] && forall j | 0 <= j < i - 1 :: rest[j] == runs[j + 1];
      }
    }
    if !Creates(runs[0]) && TagMissed(rest) {
      var i :| 0 <= i < |rest| && rest[i] == Mode(false, Some(2)) && forall j | 0 <= j < i :: !Creates(rest[j]);
      assert runs[i + 1] == rest[i] && forall j | 1 <= j < i + 1 :: runs[j] == rest[j - 1];
    }
  }

  /** A role that some number of runs created between them, whichever of their calls failed, and an
      undisturbed run finished, has the trust policy that was wanted, and bears the owner tag unless the first
      run that created it failed at the tagging itself. */
  lemma {:induction false} TagMissedExactly(roles: Roles, runs: seq<Mode>, last: Mode, w: Wanted)
    requires w.name != "" && w.name !in roles && !last.planning && last.failAt.None?
    ensures var done := AfterRuns(roles, runs + [last], w);
            && w.name in done && done[w.name].trust == w.trust
            && (OWNER_KEY in done[w.name].tags <==> !TagMissed(runs))
    decreases |runs|
  {
    hide EnsureAutomationRole, TagMissed;
    if runs == [] {
      assert [last][1..] == [] && runs + [last] == [last];
      OneRun(roles, last, w);
      NoneMissed();
    } else {
      TagMissedStep(runs);
      OneRun(roles, runs[0], w);
      assert (runs + [last])[1..] == runs[1..] + [last] && (runs + [last])[0] == runs[0];
      var next := EnsureAutomationRole(Start(roles), runs[0], w).roles;
      if Creates(runs[0]) {
        RunsKeepOthers(next, runs[1..] + [last], w);
      } else {
        TagMissedExactly(roles, runs[1..], last, w);
      }
    }
  }

  lemma NoneMissed()
    ensures !TagMissed([])
  {
  }

  function Headings(actions: seq<Action>): seq<Verb>
  {
    seq(|actions|, i requires 0 <= i < |actions| => actions[i].verb)
  }

  /** A plan writes nothing, and announces what a successful apply from the same state reports. */
  lemma PlanIsTruthful(roles: Roles, plan: Mode, apply: Mode, w: Wanted)
    requires plan.planning && !apply.planning && w.name != ""
    ensures var planned := EnsureAutomationRole(Start(roles), plan, w);
            var applied := EnsureAutomationRole(Start(roles), apply, w);
            planned.roles == roles && (forall call | call in planned.calls :: !IsWrite(call))
            && (applied.trouble == NoTrouble && plan.failAt.None? ==>
                  planned.trouble == NoTrouble && Headings(planned.actions) == Headings(applied.actions))
  {
    hide UpToDate;
  }
}
