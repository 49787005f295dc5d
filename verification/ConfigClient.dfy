/** The configuration service and the recorder and channel steps as they run. */
module ConfigClient {
  import opened Options
  import opened ConfigRecorder

  class ConfigService {
    const failAt: Option<nat>
    /** Whether asking for a recorder or channel that is missing is an error, or answered with nothing. */
    const missingIsError: bool
    var recorders: map<string, Recorder>
    var running: map<string, bool>
    var channels: map<string, string>
    var calls: seq<Call>

    constructor (config: Config, failAt: Option<nat>, missingIsError: bool)
      ensures this.failAt == failAt && this.missingIsError == missingIsError
      ensures Snapshot() == config && calls == []
    {
      this.failAt, this.missingIsError := failAt, missingIsError;
      recorders, running, channels := config.recorders, config.running, config.channels;
      calls := [];
    }

    function Snapshot(): Config
      reads this
    {
      Config(recorders, running, channels)
    }

    /** Logs a call; tells whether it goes through. */
    method Log(call: Call) returns (ok: bool)
      modifies this`calls
      ensures calls == old(calls) + [call]
      ensures ok == (failAt != Some(|old(calls)|))
    {
      calls := calls + [call];
      return failAt != Some(|calls| - 1);
    }

    method DescribeRecorder(name: string) returns (answer: Answer<Recorder>)
      modifies this`calls
      ensures calls == old(calls) + [DescribeRecorders]
      ensures answer.Refused? <==> failAt == Some(|old(calls)|)
      ensures answer.Found? <==> !answer.Refused? && name in recorders
      ensures answer.Found? ==> answer.value == recorders[name]
    {
      var ok := Log(DescribeRecorders);
      if !ok {
        return Refused;
      }
      if name !in recorders {
        return if missingIsError then NotFound else Nothing;
      }
      return Found(recorders[name]);
    }

    method DescribeRecorderStatus(name: string) returns (answer: Answer<bool>)
      modifies this`calls
      ensures calls == old(calls) + [DescribeStatus]
      ensures answer.Refused? <==> failAt == Some(|old(calls)|)
      ensures answer.Found? <==> !answer.Refused? && name in recorders
      ensures answer.Found? ==> answer.value == (name in running && running[name])
    {
      var ok := Log(DescribeStatus);
      if !ok {
        return Refused;
      }
      if name !in recorders {
        return if missingIsError then NotFound else Nothing;
      }
      return Found(name in running && running[name]);
    }

    method DescribeChannel(name: string) returns (answer: Answer<string>)
      modifies this`calls
      ensures calls == old(calls) + [DescribeChannels]
      ensures answer.Refused? <==> failAt == Some(|old(calls)|)
      ensures answer.Found? <==> !answer.Refused? && name in channels
      ensures answer.Found? ==> answer.value == channels[name]
    {
      var ok := Log(DescribeChannels);
      if !ok {
        return Refused;
      }
      if name !in channels {
        return if missingIsError then NotFound else Nothing;
      }
      return Found(channels[name]);
    }

    method PutConfigurationRecorder(name: string, recorder: Recorder) returns (ok: bool)
      modifies this`calls, this`recorders
      ensures calls == old(calls) + [PutRecorder]
      ensures ok == (failAt != Some(|old(calls)|))
      ensures recorders == if ok then old(recorders)[(if name == "" then DEFAULT_NAME else name) := recorder]
                           else old(recorders)
    {
      ok := Log(PutRecorder);
      if ok {
        recorders := recorders[(if name == "" then DEFAULT_NAME else name) := recorder];
      }
    }

    method StartConfigurationRecorder(name: string) returns (trouble: Trouble)
      modifies this`calls, this`running
      ensures calls == old(calls) + [StartRecorder]
      ensures trouble == if failAt == Some(|old(calls)|) then CallFailed
                         else if name !in recorders then NoSuchRecorder else NoTrouble
      ensures running == if trouble == NoTrouble then old(running)[name := true] else old(running)
    {
      var ok := Log(StartRecorder);
      if !ok {
        return CallFailed;
      }
      if name !in recorders {
        return NoSuchRecorder;
      }
      running := running[name := true];
      return NoTrouble;
    }

    method PutDeliveryChannel(name: string, bucket: string) returns (ok: bool)
      modifies this`calls, this`channels
      ensures calls == old(calls) + [PutChannel]
      ensures ok == (failAt != Some(|old(calls)|))
      ensures channels == if ok then old(channels)[(if name == "" then DEFAULT_NAME else name) := bucket]
                          else old(channels)
    {
      ok := Log(PutChannel);
      if ok {
        channels := channels[(if name == "" then DEFAULT_NAME else name) := bucket];
      }
    }
  }

  /** The answers to a request for one thing by name. */
  datatype Answer<T> = Found(value: T) | Nothing | NotFound | Refused

  class Ensurer {
    const service: ConfigService
    const planning: bool
    var actions: seq<Action>

    constructor (service: ConfigService, planning: bool)
      ensures this.service == service && this.planning == planning && actions == []
    {
      this.service, this.planning := service, planning;
      actions := [];
    }

    function ModeOf(): Mode
    {
      Mode(planning, service.failAt)
    }

    function After(trouble: Trouble): Session
      reads this, service
    {
      Session(service.Snapshot(), service.calls, actions, trouble)
    }

    method Record(verb: Verb, kind: Kind, applied: bool)
      modifies this`actions
      ensures actions == old(actions) + [Action(verb, kind, applied)]
    {
      actions := actions + [Action(verb, kind, applied)];
    }

    method PutRecorderConfig(spec: Spec, role: string, verb: Verb) returns (trouble: Trouble)
      modifies service, this`actions
      ensures After(trouble) == ConfigRecorder.PutRecorderConfig(old(After(NoTrouble)), ModeOf(), spec, role, verb)
    {
      if planning {
        Record(verb, RecorderKind, false);
        return NoTrouble;
      }
      var ok := service.PutConfigurationRecorder(DEFAULT_NAME, Recorder(role, Some(spec.scope), ""));
      if !ok {
        return CallFailed;
      }
      Record(verb, RecorderKind, true);
      return NoTrouble;
    }

    method EnsureRecorderConfig(spec: Spec, role: string) returns (trouble: Trouble)
      modifies service, this`actions
      ensures After(trouble) == ConfigRecorder.EnsureRecorderConfig(old(After(NoTrouble)), ModeOf(), spec, role)
    {
      var answer := service.DescribeRecorder(DEFAULT_NAME);
      match answer
      case Refused =>
        return CallFailed;
      case NotFound =>
        trouble := PutRecorderConfig(spec, role, Create);
      case Nothing =>
        trouble := PutRecorderConfig(spec, role, Create);
      case Found(r) =>
        if r.role == role && r.scope.Some? && r.scope.value.allSupported == spec.scope.allSupported
           && r.scope.value.globalTypes == spec.scope.globalTypes {
          Record(Unchanged, RecorderKind, false);
          return NoTrouble;
        }
        if planning {
          Record(Update, RecorderKind, false);
          return NoTrouble;
        }
        trouble := PutRecorderConfig(spec, role, Update);
    }

    method EnsureRecorderStarted() returns (trouble: Trouble)
      modifies service, this`actions
      ensures After(trouble) == ConfigRecorder.EnsureRecorderStarted(old(After(NoTrouble)), ModeOf())
    {
      var answer := service.DescribeRecorderStatus(DEFAULT_NAME);
      match answer
      case Refused =>
        return CallFailed;
      case NotFound =>
        return if planning then NoTrouble else NotCreated;
      case Nothing =>
        return if planning then NoTrouble else NotCreated;
      case Found(recording) =>
        if recording {
          Record(Unchanged, RecordingState, false);
          return NoTrouble;
        }
        if planning {
          Record(Enable, RecordingState, false);
          return NoTrouble;
        }
        trouble := service.StartConfigurationRecorder(DEFAULT_NAME);
        if trouble == NoTrouble {
          Record(Enable, RecordingState, true);
        }
    }

    /** The recorder exists as wanted, and records. */
    method EnsureConfigRecorder(spec: Spec, role: string) returns (trouble: Trouble)
      modifies service, this`actions
      ensures After(trouble) == ConfigRecorder.EnsureConfigRecorder(old(After(NoTrouble)), ModeOf(), spec, role)
    {
      hide ConfigRecorder.EnsureRecorderConfig, ConfigRecorder.EnsureRecorderStarted;
      if !spec.enabled {
        return NoTrouble;
      }
      if role == "" {
        return NoRole;
      }
      trouble := EnsureRecorderConfig(spec, role);
      if trouble == NoTrouble {
        trouble := EnsureRecorderStarted();
      }
    }

    method PutChannel(spec: Spec, verb: Verb) returns (trouble: Trouble)
      modifies service, this`actions
      ensures After(trouble) == ConfigRecorder.PutDeliveryChannel(old(After(NoTrouble)), ModeOf(), spec, verb)
    {
      if planning {
        Record(verb, ChannelKind, false);
        return NoTrouble;
      }
      var ok := service.PutDeliveryChannel(DEFAULT_NAME, spec.bucket);
      if !ok {
        return CallFailed;
      }
      Record(verb, ChannelKind, true);
      return NoTrouble;
    }

    /** The delivery channel exists and points at the wanted bucket. */
    method EnsureDeliveryChannel(spec: Spec) returns (trouble: Trouble)
      modifies service, this`actions
      ensures After(trouble) == ConfigRecorder.EnsureDeliveryChannel(old(After(NoTrouble)), ModeOf(), spec)
    {
      if !spec.enabled {
        return NoTrouble;
      }
      if spec.bucket == "" {
        return NoBucket;
      }
      var answer := service.DescribeChannel(DEFAULT_NAME);
      match answer
      case Refused =>
        return CallFailed;
      case NotFound =>
        trouble := PutChannel(spec, Create);
      case Nothing =>
        trouble := PutChannel(spec, Create);
      case Found(bucket) =>
        if bucket == spec.bucket {
          Record(Unchanged, ChannelKind, false);
          return NoTrouble;
        }
        if planning {
          Record(Update, ChannelKind, false);
          return NoTrouble;
        }
        trouble := PutChannel(spec, Update);
    }
  }
}
