/** The recorder and channel steps call by call: what a run asks and reports, and where a failing call stops it. */
module ConfigRecorderTrace {
  import opened Options
  import opened ConfigRecorder

  /** What the calls of a log, each of which went through, do to the service. */
  function Replay(c: Config, calls: seq<Call>, spec: Spec, role: string): Config
  {
    if calls == [] then c
    else
      var before := Replay(c, calls[..|calls| - 1], spec, role);
      match calls[|calls| - 1]
      case PutRecorder =>
        Config(before.recorders["default" := Recorder(role, Some(spec.scope), "")], before.running, before.channels)
      case StartRecorder => Config(before.recorders, before.running["default" := true], before.channels)
      case PutChannel => Config(before.recorders, before.running, before.channels["default" := spec.bucket])
      case _ => before
  }

  /** What has to be done about the recorder: it must have the wanted role and the wanted scope. */
  function RecorderVerb(c: Config, spec: Spec, role: string): Verb
  {
    if "default" !in c.recorders then Create
    else if c.recorders["default"].role != role || c.recorders["default"].scope != Some(spec.scope) then Update
    else Unchanged
  }

  /** What has to be done so that it records. */
  function RecordingVerb(c: Config): Verb
  {
    if "default" in c.running && c.running["default"] then Unchanged else Enable
  }

  function ChannelVerb(c: Config, spec: Spec): Verb
  {
    if "default" !in c.channels then Create else if c.channels["default"] != spec.bucket then Update else Unchanged
  }

  /** A stage looks first and then, unless it is only planning, does what has to be done. */
  function StageCalls(look: Call, write: Call, verb: Verb, planning: bool): seq<Call>
  {
    if verb == Unchanged || planning then [look] else [look, write]
  }

  function Entry(verb: Verb, kind: Kind, planning: bool): Action
  {
    Action(verb, kind, verb != Unchanged && !planning)
  }

  function RecorderCalls(c: Config, planning: bool, spec: Spec, role: string): seq<Call>
  {
    StageCalls(DescribeRecorders, PutRecorder, RecorderVerb(c, spec, role), planning)
  }

  function RecordingCalls(c: Config, planning: bool): seq<Call>
  {
    StageCalls(DescribeStatus, StartRecorder, RecordingVerb(c), planning)
  }

  function ChannelCalls(c: Config, planning: bool, spec: Spec): seq<Call>
  {
    StageCalls(DescribeChannels, PutChannel, ChannelVerb(c, spec), planning)
  }

  /** A plan says nothing of recording where there is no recorder yet. */
  function RecordingEntries(c: Config, planning: bool): seq<Action>
  {
    if planning && "default" !in c.recorders then [] else [Entry(RecordingVerb(c), RecordingState, planning)]
  }

  // ---------------------------------------------------------------------------------------------
  // One stage

  /** From s a stage makes its calls and reports its entries, or stops at the one that fails, says so, reports
      nothing, and leaves what the calls before it made. */
  predicate Stage(
    s: Session, t: Session, mode: Mode, calls: seq<Call>, entries: seq<Action>, spec: Spec, role: string)
  {
    var n := |s.calls|;
    if mode.failAt.Some? && n <= mode.failAt.value < n + |calls| then
      var i := mode.failAt.value - n;
      t == Session(Replay(s.config, calls[..i], spec, role), s.calls + calls[..i + 1], s.actions, CallFailed)
    else
      t == Session(Replay(s.config, calls, spec, role), s.calls + calls, s.actions + entries, NoTrouble)
  }

  lemma ReplayStage(c: Config, look: Call, write: Call, verb: Verb, planning: bool, spec: Spec, role: string)
    requires !IsWrite(look)
    ensures var calls := StageCalls(look, write, verb, planning);
            && Replay(c, [], spec, role) == c && Replay(c, calls[..0], spec, role) == c
            && Replay(c, [look], spec, role) == c && calls[..1] == [look]
            && (|calls| == 2 ==> calls[..2] == [look, write] && calls[1] == write)
            && Replay(c, [look, write], spec, role) == Replay(c, [write], spec, role)
  {
    assert [look][..0] == [] && [look, write][..1] == [look] && [write][..0] == [];
  }

  lemma RecorderTrace(s: Session, mode: Mode, spec: Spec, role: string)
    requires s.trouble == NoTrouble
    ensures Stage(s, EnsureRecorderConfig(s, mode, spec, role), mode,
                  RecorderCalls(s.config, mode.planning, spec, role),
                  [Entry(RecorderVerb(s.config, spec, role), RecorderKind, mode.planning)], spec, role)
  {
    var verb := RecorderVerb(s.config, spec, role);
    ReplayStage(s.config, DescribeRecorders, PutRecorder, verb, mode.planning, spec, role);
    assert [PutRecorder][..0] == [];
    assert s.calls + [DescribeRecorders] + [PutRecorder] == s.calls + [DescribeRecorders, PutRecorder];
    assert Replay(s.config, [PutRecorder], spec, role) == WithRecorder(s.config, spec, role);
    hide Replay;
  }

  lemma RecordingTrace(s: Session, mode: Mode, spec: Spec, role: string)
    requires s.trouble == NoTrouble && (mode.planning || HasRecorder(s.config))
    ensures Stage(s, EnsureRecorderStarted(s, mode), mode,
                  RecordingCalls(s.config, mode.planning), RecordingEntries(s.config, mode.planning), spec, role)
  {
    ReplayStage(s.config, DescribeStatus, StartRecorder, RecordingVerb(s.config), mode.planning, spec, role);
    assert [StartRecorder][..0] == [];
    assert s.calls + [DescribeStatus] + [StartRecorder] == s.calls + [DescribeStatus, StartRecorder];
    assert Replay(s.config, [StartRecorder], spec, role) == s.config.(running := s.config.running["default" := true]);
    hide Replay;
  }

  lemma ChannelTrace(s: Session, mode: Mode, spec: Spec, role: string)
    requires s.trouble == NoTrouble && spec.enabled && spec.bucket != ""
    ensures Stage(s, EnsureDeliveryChannel(s, mode, spec), mode, ChannelCalls(s.config, mode.planning, spec),
                  [Entry(ChannelVerb(s.config, spec), ChannelKind, mode.planning)], spec, role)
  {
    ReplayStage(s.config, DescribeChannels, PutChannel, ChannelVerb(s.config, spec), mode.planning, spec, role);
    assert [PutChannel][..0] == [];
    assert s.calls + [DescribeChannels] + [PutChannel] == s.calls + [DescribeChannels, PutChannel];
    assert Replay(s.config, [PutChannel], spec, role)
        == s.config.(channels := s.config.channels["default" := spec.bucket]);
    hide Replay;
  }

  // ---------------------------------------------------------------------------------------------
  // The whole run

  datatype StageOf = StageOf(calls: seq<Call>, entries: seq<Action>)

  /** Stages one after another, up to the first call that fails. */
  function RunStages(s: Session, mode: Mode, stages: seq<StageOf>, spec: Spec, role: string): Session
    decreases |stages|
  {
    if stages == [] then s
    else
      var n, calls := |s.calls|, stages[0].calls;
      if mode.failAt.Some? && n <= mode.failAt.value < n + |calls| then
        var i := mode.failAt.value - n;
        Session(Replay(s.config, calls[..i], spec, role), s.calls + calls[..i + 1], s.actions, CallFailed)
      else
        var c := Replay(s.config, calls, spec, role);
        RunStages(Session(c, s.calls + calls, s.actions + stages[0].entries, NoTrouble), mode, stages[1..], spec, role)
  }

  function RecorderStageOf(c: Config, planning: bool, spec: Spec, role: string): StageOf
  {
    StageOf(RecorderCalls(c, planning, spec, role), [Entry(RecorderVerb(c, spec, role), RecorderKind, planning)])
  }

  function RecordingStageOf(c: Config, planning: bool): StageOf
  {
    StageOf(RecordingCalls(c, planning), RecordingEntries(c, planning))
  }

  function ChannelStageOf(c: Config, planning: bool, spec: Spec): StageOf
  {
    StageOf(ChannelCalls(c, planning, spec), [Entry(ChannelVerb(c, spec), ChannelKind, planning)])
  }

  /** What the two recorder stages leave as the stages after them find it. */
  lemma StagesApart(c: Config, planning: bool, spec: Spec, role: string)
    ensures var d := Replay(c, RecorderCalls(c, planning, spec, role), spec, role);
            var e := Replay(d, RecordingCalls(d, planning), spec, role);
            && d.running == c.running && d.channels == c.channels && e.channels == c.channels
            && RecordingCalls(d, planning) == RecordingCalls(c, planning)
            && ChannelCalls(e, planning, spec) == ChannelCalls(c, planning, spec)
            && RecordingEntries(d, planning) == RecordingEntries(c, planning)
            && ChannelVerb(e, spec) == ChannelVerb(c, spec)
            && (!planning ==> HasRecorder(d))
  {
    ReplayStage(c, DescribeRecorders, PutRecorder, RecorderVerb(c, spec, role), planning, spec, role);
    assert [PutRecorder][..0] == [];
    var d := Replay(c, RecorderCalls(c, planning, spec, role), spec, role);
    assert d.running == c.running && d.channels == c.channels && (!planning ==> HasRecorder(d));
    ReplayStage(d, DescribeStatus, StartRecorder, RecordingVerb(d), planning, spec, role);
    assert [StartRecorder][..0] == [];
  }

  /** A run that is asked for, planning or not and whichever call fails, goes through three stages: the recorder,
      whether it records, and the channel. Each makes its calls and reports its entry, and at a call that fails
      the run stops, says so, and leaves what the calls before it made. Without a bucket it goes through two
      and is then refused. */
  lemma RunIsItsStages(c: Config, mode: Mode, spec: Spec, role: string)
    requires spec.enabled && role != ""
    ensures var planning := mode.planning;
            var first, second, third := RecorderStageOf(c, planning, spec, role), RecordingStageOf(c, planning),
                                        ChannelStageOf(c, planning, spec);
            var two := RunStages(Start(c), mode, [first, second], spec, role);
            EnsureBoth(Start(c), mode, spec, role)
            == if spec.bucket != "" then RunStages(Start(c), mode, [first, second, third], spec, role)
               else if two.trouble == NoTrouble then two.(trouble := NoBucket)
               else two
  {
    var s := EnsureRecorderConfig(Start(c), mode, spec, role);
    RecorderTrace(Start(c), mode, spec, role);
    StagesApart(c, mode.planning, spec, role);
    hide EnsureRecorderConfig, EnsureRecorderStarted, Replay, RecorderCalls, RecordingCalls, ChannelCalls,
         RecordingEntries, HasRecorder, EnsureDeliveryChannel;
    var first, second, third := RecorderStageOf(c, mode.planning, spec, role), RecordingStageOf(c, mode.planning),
                                ChannelStageOf(c, mode.planning, spec);
    OneStage(Start(c), s, mode, first, [second], spec, role);
    OneStage(Start(c), s, mode, first, [second, third], spec, role);
    if s.trouble == NoTrouble {
      var t := EnsureRecorderStarted(s, mode);
      RecordingTrace(s, mode, spec, role);
      OneStage(s, t, mode, second, [], spec, role);
      OneStage(s, t, mode, second, [third], spec, role);
      if t.trouble == NoTrouble {
        if spec.bucket != "" {
          ChannelTrace(t, mode, spec, role);
          OneStage(t, EnsureDeliveryChannel(t, mode, spec), mode, third, [], spec, role);
        } else {
          NoBucketNoChannel(t, mode, spec);
        }
      }
    }
  }

  lemma NoBucketNoChannel(s: Session, mode: Mode, spec: Spec)
    requires spec.enabled && spec.bucket == ""
    ensures EnsureDeliveryChannel(s, mode, spec) == s.(trouble := NoBucket)
  {
  }

  lemma OneStage(
      s: Session, t: Session, mode: Mode, stage: StageOf, rest: seq<StageOf>, spec: Spec, role: string)
    requires Stage(s, t, mode, stage.calls, stage.entries, spec, role)
    ensures RunStages(s, mode, [stage] + rest, spec, role)
         == if t.trouble == NoTrouble then RunStages(t, mode, rest, spec, role) else t
    ensures rest == [] ==> [stage] + rest == [stage]
    ensures |rest| == 1 ==> [stage] + rest == [stage, rest[0]]
    ensures |rest| == 2 ==> [stage] + rest == [stage, rest[0], rest[1]]
  {
    assert ([stage] + rest)[1..] == rest;
  }

  /** Starting a recorder that does not exist is refused by the service; the step itself stops before that. */
  lemma ServiceRefuses(s: Session, mode: Mode)
    requires mode.failAt != Some(|s.calls|) && "default" !in s.config.recorders
    ensures CallStart(s, mode) == Session(s.config, s.calls + [StartRecorder], s.actions, NoSuchRecorder)
    ensures !mode.planning ==>
              EnsureRecorderStarted(s, mode) == Session(s.config, s.calls + [DescribeStatus], s.actions, NotCreated)
  {
  }
}
