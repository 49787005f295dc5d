/** The configuration recorder and its delivery channel: exist as wanted, and actually record. */
module ConfigRecorder {
  import opened Options

  datatype Scope = Scope(allSupported: bool, globalTypes: bool)

  /** A recorder as deployed; extra is whatever else it holds, which the comparison ignores and a put drops. */
  datatype Recorder = Recorder(role: string, scope: Option<Scope>, extra: string)

  /** The service. Whether a recorder runs is kept apart from whether it exists. */
  datatype Config = Config(recorders: map<string, Recorder>, running: map<string, bool>, channels: map<string, string>)

  datatype Call = DescribeRecorders | PutRecorder | DescribeStatus | StartRecorder | DescribeChannels | PutChannel

  datatype Verb = Create | Update | Enable | Unchanged

  datatype Kind = RecorderKind | RecordingState | ChannelKind

  datatype Action = Action(verb: Verb, kind: Kind, applied: bool)

  datatype Trouble = NoTrouble | CallFailed | NoSuchRecorder | NotCreated | NoRole | NoBucket

  datatype Session = Session(config: Config, calls: seq<Call>, actions: seq<Action>, trouble: Trouble)

  datatype Mode = Mode(planning: bool, failAt: Option<nat>)

  datatype Spec = Spec(enabled: bool, scope: Scope, bucket: string)

  const DEFAULT_NAME := "default"

  function Start(config: Config): Session
  {
    Session(config, [], [], NoTrouble)
  }

  function Logged(s: Session, call: Call): Session
  {
    s.(calls := s.calls + [call])
  }

  predicate Fails(s: Session, mode: Mode)
  {
    mode.failAt == Some(|s.calls|)
  }

  function Recorded(s: Session, verb: Verb, kind: Kind, applied: bool): Session
  {
    s.(actions := s.actions + [Action(verb, kind, applied)])
  }

  predicate HasRecorder(c: Config)
  {
    DEFAULT_NAME in c.recorders
  }

  predicate SameRecorderConfig(r: Recorder, spec: Spec, role: string)
  {
    r.role == role && r.scope == Some(spec.scope)
  }

  predicate IsRunning(c: Config)
  {
    DEFAULT_NAME in c.running && c.running[DEFAULT_NAME]
  }

  // ---------------------------------------------------------------------------------------------
  // The recorder

  function WithRecorder(c: Config, spec: Spec, role: string): Config
  {
    c.(recorders := c.recorders[DEFAULT_NAME := Recorder(role, Some(spec.scope), "")])
  }

  function PutRecorderConfig(s: Session, mode: Mode, spec: Spec, role: string, verb: Verb): Session
  {
    if mode.planning then Recorded(s, verb, RecorderKind, false)
    else
      var logged := Logged(s, PutRecorder);
      if Fails(s, mode) then logged.(trouble := CallFailed)
      else Recorded(logged.(config := WithRecorder(s.config, spec, role)), verb, RecorderKind, true)
  }

  function EnsureRecorderConfig(s: Session, mode: Mode, spec: Spec, role: string): Session
  {
    var logged := Logged(s, DescribeRecorders);
    if Fails(s, mode) then logged.(trouble := CallFailed)
    else if !HasRecorder(s.config) then PutRecorderConfig(logged, mode, spec, role, Create)
    else if SameRecorderConfig(s.config.recorders[DEFAULT_NAME], spec, role) then
      Recorded(logged, Unchanged, RecorderKind, false)
    else if mode.planning then Recorded(logged, Update, RecorderKind, false)
    else PutRecorderConfig(logged, mode, spec, role, Update)
  }

  function CallStart(s: Session, mode: Mode): Session
  {
    var logged := Logged(s, StartRecorder);
    if Fails(s, mode) then logged.(trouble := CallFailed)
    else if !HasRecorder(s.config) then logged.(trouble := NoSuchRecorder)
    else logged.(config := s.config.(running := s.config.running[DEFAULT_NAME := true]))
  }

  function EnsureRecorderStarted(s: Session, mode: Mode): Session
  {
    var logged := Logged(s, DescribeStatus);
    if Fails(s, mode) then logged.(trouble := CallFailed)
    else if !HasRecorder(s.config) then (if mode.planning then logged else logged.(trouble := NotCreated))
    else if IsRunning(s.config) then Recorded(logged, Unchanged, RecordingState, false)
    else if mode.planning then Recorded(logged, Enable, RecordingState, false)
    else
      var started := CallStart(logged, mode);
      if started.trouble != NoTrouble then started else Recorded(started, Enable, RecordingState, true)
  }

  function EnsureConfigRecorder(s: Session, mode: Mode, spec: Spec, role: string): Session
  {
    if !spec.enabled then s
    else if role == "" then s.(trouble := NoRole)
    else
      var t := EnsureRecorderConfig(s, mode, spec, role);
      if t.trouble != NoTrouble then t else EnsureRecorderStarted(t, mode)
  }

  // ---------------------------------------------------------------------------------------------
  // The delivery channel

  function PutDeliveryChannel(s: Session, mode: Mode, spec: Spec, verb: Verb): Session
  {
    if mode.planning then Recorded(s, verb, ChannelKind, false)
    else
      var logged := Logged(s, PutChannel);
      if Fails(s, mode) then logged.(trouble := CallFailed)
      else
        Recorded(
          logged.(config := s.config.(channels := s.config.channels[DEFAULT_NAME := spec.bucket])),
          verb, ChannelKind, true)
  }

  function EnsureDeliveryChannel(s: Session, mode: Mode, spec: Spec): Session
  {
    if !spec.enabled then s
    else if spec.bucket == "" then s.(trouble := NoBucket)
    else
      var logged := Logged(s, DescribeChannels);
      if Fails(s, mode) then logged.(trouble := CallFailed)
      else if DEFAULT_NAME !in s.config.channels then PutDeliveryChannel(logged, mode, spec, Create)
      else if s.config.channels[DEFAULT_NAME] == spec.bucket then Recorded(logged, Unchanged, ChannelKind, false)
      else if mode.planning then Recorded(logged, Update, ChannelKind, false)
      else PutDeliveryChannel(logged, mode, spec, Update)
  }

  /** Both, the recorder first; a failure in it leaves the channel alone. */
  function EnsureBoth(s: Session, mode: Mode, spec: Spec, role: string): Session
  {
    var t := EnsureConfigRecorder(s, mode, spec, role);
    if t.trouble != NoTrouble then t else EnsureDeliveryChannel(t, mode, spec)
  }

  // ---------------------------------------------------------------------------------------------
  // What holds

  /** The recorder is as wanted and recording, and the channel delivers to the bucket. */
  predicate AsWanted(c: Config, spec: Spec, role: string)
  {
    HasRecorder(c) && SameRecorderConfig(c.recorders[DEFAULT_NAME], spec, role) && IsRunning(c)
    && DEFAULT_NAME in c.channels && c.channels[DEFAULT_NAME] == spec.bucket
  }

  /** Recorders, running flags and channels under other names are the same. */
  predicate OthersKept(before: Config, after: Config)
  {
    before.recorders - {DEFAULT_NAME} == after.recorders - {DEFAULT_NAME}
    && before.running - {DEFAULT_NAME} == after.running - {DEFAULT_NAME}
    && before.channels - {DEFAULT_NAME} == after.channels - {DEFAULT_NAME}
  }

  predicate IsWrite(call: Call)
  {
    call.PutRecorder? || call.StartRecorder? || call.PutChannel?
  }

  /** The step was asked for and has what it needs. */
  predicate Asked(spec: Spec, role: string)
  {
    spec.enabled && role != "" && spec.bucket != ""
  }

  /** What an undisturbed apply answers. */
  function Answer(spec: Spec, role: string): Trouble
  {
    if !spec.enabled then NoTrouble
    else if role == "" then NoRole
    else if spec.bucket == "" then NoBucket
    else NoTrouble
  }

  predicate RecorderWanted(c: Config, spec: Spec, role: string)
  {
    HasRecorder(c) && SameRecorderConfig(c.recorders[DEFAULT_NAME], spec, role)
  }

  function RecorderPut(c: Config, spec: Spec, role: string): Config
  {
    if RecorderWanted(c, spec, role) then c else WithRecorder(c, spec, role)
  }

  function RecorderOn(c: Config): Config
  {
    if IsRunning(c) then c else c.(running := c.running[DEFAULT_NAME := true])
  }

  function ChannelPut(c: Config, spec: Spec): Config
  {
    if DEFAULT_NAME in c.channels && c.channels[DEFAULT_NAME] == spec.bucket then c
    else c.(channels := c.channels[DEFAULT_NAME := spec.bucket])
  }

  /** The state an undisturbed run reaches. */
  function Target(c: Config, spec: Spec, role: string): Config
  {
    ChannelPut(RecorderOn(RecorderPut(c, spec, role)), spec)
  }

  lemma TargetIsWanted(c: Config, spec: Spec, role: string)
    ensures AsWanted(Target(c, spec, role), spec, role) && OthersKept(c, Target(c, spec, role))
    ensures AsWanted(c, spec, role) ==> Target(c, spec, role) == c
  {
  }

  /** Wherever a run stops on its way, the target is still the same. */
  lemma OnTheWay(c: Config, spec: Spec, role: string)
    ensures var put := RecorderPut(c, spec, role);
            var on := RecorderOn(put);
            && Target(put, spec, role) == Target(c, spec, role) && Target(on, spec, role) == Target(c, spec, role)
            && Target(Target(c, spec, role), spec, role) == Target(c, spec, role)
            && RecorderWanted(put, spec, role) && RecorderWanted(on, spec, role) && IsRunning(on)
            && put.channels == c.channels && on.channels == c.channels
            && OthersKept(c, put) && OthersKept(c, on)
  {
  }

  // ---------------------------------------------------------------------------------------------
  // Each stage by itself

  /** A stage goes from one state to another, or stays where it was when a call fails. */
  predicate Moves(s: Session, t: Session, mode: Mode, to: Config)
  {
    && (t.trouble == NoTrouble ==> t.config == if mode.planning then s.config else to)
    && (t.config == s.config || (!mode.planning && t.config == to))
    && (t.trouble == NoTrouble || t.trouble == CallFailed)
    && (mode.failAt.None? ==> t.trouble == NoTrouble)
  }

  lemma RecorderStage(s: Session, mode: Mode, spec: Spec, role: string)
    requires s.trouble == NoTrouble
    ensures Moves(s, EnsureRecorderConfig(s, mode, spec, role), mode, RecorderPut(s.config, spec, role))
  {
  }

  lemma StartStage(s: Session, mode: Mode)
    requires s.trouble == NoTrouble && (HasRecorder(s.config) || mode.planning)
    ensures Moves(s, EnsureRecorderStarted(s, mode), mode, RecorderOn(s.config))
  {
  }

  lemma ChannelStage(s: Session, mode: Mode, spec: Spec)
    requires s.trouble == NoTrouble && spec.enabled && spec.bucket != ""
    ensures Moves(s, EnsureDeliveryChannel(s, mode, spec), mode, ChannelPut(s.config, spec))
  {
  }

  /** The states a run can end in, and when it ends in which. */
  lemma WholeRun(c: Config, mode: Mode, spec: Spec, role: string)
    requires spec.enabled && role != ""
    ensures var t := EnsureBoth(Start(c), mode, spec, role);
            var put := RecorderPut(c, spec, role);
            var on := RecorderOn(put);
            && t.config in (if mode.planning then {c}
                            else if spec.bucket == "" then {c, put, on}
                            else {c, put, on, Target(c, spec, role)})
            && (mode.failAt.None? ==> t.trouble == Answer(spec, role))
            && (t.trouble == NoTrouble ==>
                  spec.bucket != "" && t.config == if mode.planning then c else Target(c, spec, role))
            && (t.trouble == NoBucket ==> t.config == if mode.planning then c else on)
  {
    var r := EnsureRecorderConfig(Start(c), mode, spec, role);
    RecorderStage(Start(c), mode, spec, role);
    OnTheWay(c, spec, role);
    if r.trouble == NoTrouble {
      StartStage(r, mode);
      var u := EnsureRecorderStarted(r, mode);
      if u.trouble == NoTrouble && spec.bucket != "" {
        ChannelStage(u, mode, spec);
      }
    }
    hide EnsureRecorderConfig, EnsureRecorderStarted, RecorderPut, RecorderOn, ChannelPut, IsRunning, HasRecorder,
         SameRecorderConfig, OthersKept;
  }

  // ---------------------------------------------------------------------------------------------
  // The main results

  /** Asked for nothing, or without a role, a run makes no call. Otherwise an undisturbed apply leaves the
      recorder with the wanted role and scope and recording, whether it existed, or ran, before or not, and the
      channel at the wanted bucket; without a bucket it is refused after the recorder is seen to, and leaves
      every channel alone. Whatever fails, what goes by other names is as it was. */
  lemma ApplyConverges(c: Config, mode: Mode, spec: Spec, role: string)
    requires !mode.planning
    ensures var t := EnsureBoth(Start(c), mode, spec, role);
            && OthersKept(c, t.config) && (mode.failAt.None? ==> t.trouble == Answer(spec, role))
            && (!spec.enabled || role == "" ==> t == Start(c).(trouble := Answer(spec, role)))
            && (spec.enabled && t.trouble == NoTrouble ==> AsWanted(t.config, spec, role))
            && (t.trouble == NoBucket ==> RecorderWanted(t.config, spec, role) && IsRunning(t.config))
            && (spec.bucket == "" ==> t.config.channels == c.channels)
  {
    NotAsked(c, mode, spec, role);
    hide EnsureBoth, RecorderPut, RecorderOn, Target, AsWanted, RecorderWanted, IsRunning, OthersKept;
    if spec.enabled && role != "" {
      WholeRun(c, mode, spec, role);
      TargetIsWanted(c, spec, role);
      OnTheWay(c, spec, role);
    }
  }

  lemma NotAsked(c: Config, mode: Mode, spec: Spec, role: string)
    ensures OthersKept(c, c)
    ensures !spec.enabled || role == "" ==>
              EnsureBoth(Start(c), mode, spec, role) == Start(c).(trouble := Answer(spec, role))
  {
  }

  /** What one run after another leaves, plans among them, whichever calls fail. */
  function AfterRuns(c: Config, runs: seq<Mode>, spec: Spec, role: string): Config
    decreases |runs|
  {
    if runs == [] then c
    else AfterRuns(EnsureBoth(Start(c), runs[0], spec, role).config, runs[1..], spec, role)
  }

  lemma WantedIsLeftAlone(c: Config, mode: Mode, spec: Spec, role: string)
    requires Asked(spec, role) && AsWanted(c, spec, role)
    ensures var t := EnsureBoth(Start(c), mode, spec, role);
            t.config == c && forall call | call in t.calls :: !IsWrite(call)
  {
  }

  /** Once an apply has succeeded, no later run writes anything, however many there are. */
  lemma LaterRunsWriteNothing(
      c: Config, first: Mode, runs: seq<Mode>, last: Mode, spec: Spec, role: string)
    requires !first.planning && Asked(spec, role) && EnsureBoth(Start(c), first, spec, role).trouble == NoTrouble
    ensures var d := EnsureBoth(Start(c), first, spec, role).config;
            && AfterRuns(d, runs, spec, role) == d && EnsureBoth(Start(d), last, spec, role).config == d
            && forall call | call in EnsureBoth(Start(d), last, spec, role).calls :: !IsWrite(call)
  {
    hide EnsureBoth, AsWanted, OthersKept;
    ApplyConverges(c, first, spec, role);
    WantedStays(EnsureBoth(Start(c), first, spec, role).config, runs, spec, role);
    WantedIsLeftAlone(EnsureBoth(Start(c), first, spec, role).config, last, spec, role);
  }

  lemma {:induction false} WantedStays(c: Config, runs: seq<Mode>, spec: Spec, role: string)
    requires Asked(spec, role) && AsWanted(c, spec, role)
    ensures AfterRuns(c, runs, spec, role) == c
  {
    hide EnsureBoth, AsWanted;
    if runs != [] {
      WantedIsLeftAlone(c, runs[0], spec, role);
      WantedStays(c, runs[1..], spec, role);
    }
  }

  lemma RunKeepsTarget(c: Config, mode: Mode, spec: Spec, role: string)
    requires Asked(spec, role)
    ensures Target(EnsureBoth(Start(c), mode, spec, role).config, spec, role) == Target(c, spec, role)
  {
    hide EnsureBoth, Target, RecorderPut, RecorderOn, OthersKept;
    WholeRun(c, mode, spec, role);
    OnTheWay(c, spec, role);
  }

  lemma {:induction false} RunsKeepTarget(c: Config, runs: seq<Mode>, spec: Spec, role: string)
    requires Asked(spec, role)
    ensures Target(AfterRuns(c, runs, spec, role), spec, role) == Target(c, spec, role)
    decreases |runs|
  {
    hide EnsureBoth, Target;
    if runs != [] {
      RunKeepsTarget(c, runs[0], spec, role);
      RunsKeepTarget(EnsureBoth(Start(c), runs[0], spec, role).config, runs[1..], spec, role);
    }
  }

  /** However many runs came before, whichever of their calls failed, an undisturbed run ends in the state it
      would have ended in at first. */
  lemma ResumesAfterFailures(c: Config, runs: seq<Mode>, undisturbed: Mode, spec: Spec, role: string)
    requires !undisturbed.planning && undisturbed.failAt.None? && Asked(spec, role)
    ensures var again := EnsureBoth(Start(AfterRuns(c, runs, spec, role)), undisturbed, spec, role);
            again.trouble == NoTrouble && again.config == EnsureBoth(Start(c), undisturbed, spec, role).config
  {
    hide EnsureBoth, Target;
    RunsKeepTarget(c, runs, spec, role);
    WholeRun(c, undisturbed, spec, role);
    WholeRun(AfterRuns(c, runs, spec, role), undisturbed, spec, role);
  }

  // ---------------------------------------------------------------------------------------------
  // Planning

  function Headings(actions: seq<Action>): seq<(Verb, Kind)>
  {
    seq(|actions|, i requires 0 <= i < |actions| => (actions[i].verb, actions[i].kind))
  }

  /** What a plan cannot announce, since it cannot start what it has not created. */
  function Unannounced(c: Config): seq<(Verb, Kind)>
  {
    if HasRecorder(c) then [] else [(if IsRunning(c) then Unchanged else Enable, RecordingState)]
  }

  lemma RecorderConfigPlan(c: Config, plan: Mode, apply: Mode, spec: Spec, role: string)
    requires plan.planning && !apply.planning
    ensures var p, a := EnsureRecorderConfig(Start(c), plan, spec, role),
                        EnsureRecorderConfig(Start(c), apply, spec, role);
            && p.config == c && p.calls == [DescribeRecorders] && (p.trouble == NoTrouble || p.trouble == CallFailed)
            && (plan.failAt.None? ==> p.trouble == NoTrouble)
            && (plan.failAt.None? && a.trouble == NoTrouble ==>
                  |p.actions| == 1 && Headings(a.actions) == Headings(p.actions))
            && (a.trouble == NoTrouble ==>
                  HasRecorder(a.config) && a.config.running == c.running && a.config.channels == c.channels)
  {
  }

  lemma StartPlan(s: Session, t: Session, plan: Mode, apply: Mode)
    requires plan.planning && !apply.planning && s.trouble == t.trouble == NoTrouble
    requires HasRecorder(t.config) && s.config.running == t.config.running
    ensures var p, a := EnsureRecorderStarted(s, plan), EnsureRecorderStarted(t, apply);
            && p.config == s.config && p.calls == s.calls + [DescribeStatus]
            && (p.trouble == NoTrouble || p.trouble == CallFailed) && (plan.failAt.None? ==> p.trouble == NoTrouble)
            && a.config.channels == t.config.channels
            && (plan.failAt.None? && a.trouble == NoTrouble ==>
                  var entry := [(if IsRunning(s.config) then Unchanged else Enable, RecordingState)];
                  && Headings(a.actions) == Headings(t.actions) + entry
                  && Headings(p.actions) == Headings(s.actions) + if HasRecorder(s.config) then entry else [])
  {
  }

  lemma RecorderPlan(c: Config, plan: Mode, apply: Mode, spec: Spec, role: string)
    requires plan.planning && !apply.planning && spec.enabled && role != ""
    ensures var p, a := EnsureConfigRecorder(Start(c), plan, spec, role),
                        EnsureConfigRecorder(Start(c), apply, spec, role);
            && p.config == c && (forall call | call in p.calls :: !IsWrite(call))
            && (p.trouble == NoTrouble || p.trouble == CallFailed) && (plan.failAt.None? ==> p.trouble == NoTrouble)
            && (plan.failAt.None? && a.trouble == NoTrouble ==>
                  |p.actions| > 0 && Headings(a.actions) == Headings(p.actions) + Unannounced(c))
            && (a.trouble == NoTrouble ==> a.config.channels == c.channels)
  {
    RecorderConfigPlan(c, plan, apply, spec, role);
    var s, t := EnsureRecorderConfig(Start(c), plan, spec, role), EnsureRecorderConfig(Start(c), apply, spec, role);
    hide EnsureRecorderConfig, EnsureRecorderStarted, HasRecorder, IsRunning;
    if s.trouble == NoTrouble && t.trouble == NoTrouble {
      StartPlan(s, t, plan, apply);
    } else if s.trouble == NoTrouble {
      PlannedStart(s, plan);
    }
  }

  lemma PlannedStart(s: Session, plan: Mode)
    requires plan.planning && s.trouble == NoTrouble
    ensures var p := EnsureRecorderStarted(s, plan);
            && p.config == s.config && p.calls == s.calls + [DescribeStatus]
            && (p.trouble == NoTrouble || p.trouble == CallFailed) && (plan.failAt.None? ==> p.trouble == NoTrouble)
  {
  }

  /** The channel's step adds one entry, the same in a plan as in an apply. */
  lemma ChannelPlan(s: Session, t: Session, plan: Mode, apply: Mode, spec: Spec)
    requires plan.planning && !apply.planning && spec.enabled && s.trouble == t.trouble == NoTrouble
    requires s.config.channels == t.config.channels
    ensures var p, a := EnsureDeliveryChannel(s, plan, spec), EnsureDeliveryChannel(t, apply, spec);
            && p.config == s.config && s.calls <= p.calls
            && (forall call | call in p.calls[|s.calls|..] :: !IsWrite(call))
            && (plan.failAt.None? && a.trouble == NoTrouble ==>
                  && p.trouble == NoTrouble && |p.actions| == |s.actions| + 1 && |a.actions| == |t.actions| + 1
                  && p.actions[..|s.actions|] == s.actions && a.actions[..|t.actions|] == t.actions
                  && p.actions[|s.actions|].verb == a.actions[|t.actions|].verb
                  && p.actions[|s.actions|].kind == a.actions[|t.actions|].kind == ChannelKind)
  {
  }

  /** A plan changes nothing and writes nothing, whatever is there and whatever fails. Undisturbed, it
      announces what a successful apply from the same state reports, except, exactly when there is no
      recorder yet, that it will be recording. */
  lemma PlanIsTruthful(c: Config, plan: Mode, apply: Mode, spec: Spec, role: string)
    requires plan.planning && !apply.planning
    ensures var p, a := EnsureBoth(Start(c), plan, spec, role), EnsureBoth(Start(c), apply, spec, role);
            && p.config == c && (forall call | call in p.calls :: !IsWrite(call))
            && (plan.failAt.None? && spec.enabled && a.trouble == NoTrouble ==>
                  && p.trouble == NoTrouble && |p.actions| >= 1
                  && var n := |p.actions| - 1;
                     Headings(a.actions)
                     == Headings(p.actions)[..n] + Unannounced(c) + Headings(p.actions)[n..])
  {
    if spec.enabled && role != "" {
      var s, t := EnsureConfigRecorder(Start(c), plan, spec, role), EnsureConfigRecorder(Start(c), apply, spec, role);
      RecorderPlan(c, plan, apply, spec, role);
      hide EnsureConfigRecorder, EnsureDeliveryChannel, Unannounced;
      if s.trouble == NoTrouble && t.trouble == NoTrouble {
        ChannelPlan(s, t, plan, apply, spec);
        var p, a := EnsureDeliveryChannel(s, plan, spec), EnsureDeliveryChannel(t, apply, spec);
        assert p.calls == s.calls + p.calls[|s.calls|..];
        if plan.failAt.None? && a.trouble == NoTrouble {
          OneMore(s.actions, p.actions);
          OneMore(t.actions, a.actions);
        }
      } else if s.trouble == NoTrouble {
        ChannelPlan(s, s, plan, apply, spec);
        var p := EnsureDeliveryChannel(s, plan, spec);
        assert p.calls == s.calls + p.calls[|s.calls|..];
      }
    }
  }

  lemma OneMore(before: seq<Action>, after: seq<Action>)
    requires |after| == |before| + 1 && after[..|before|] == before
    ensures var last := after[|before|];
            Headings(after) == Headings(before) + [(last.verb, last.kind)]
  {
    assert forall i | 0 <= i < |before| :: after[i] == before[i];
  }
}
