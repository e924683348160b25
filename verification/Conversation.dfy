/** A read and a device that cooperates, whatever the order in which their actions come. */
module Conversation {
  import opened Bytes
  import opened Cbc
  import opened Frames
  import opened Fragments
  import opened Reassembly
  import opened Loss
  import opened DataPoints
  import opened Commands
  import opened Session
  import opened Invariants
  import opened Preservation
  import opened Guarantees
  import opened Delivery
  import EndToEnd

  /** What a cooperating device answers: its information record and its pairing verdict; any acknowledgement will do. */
  datatype Device = Device(info: bytes, verdict: byte) {
    predicate Honest() {
      46 <= |info| && (verdict == 0 || verdict == 2)
    }

    function SessionKey(cfg: Config): bytes
      requires Honest()
    {
      cfg.derive(info[6..12])
    }

    predicate Answers(kind: Kind, frame: Frame) {
      match kind
      case AskInfo => frame.data == info
      case AskPair => frame.data == [verdict]
      case AskStatus => true
    }
  }

  /** A frame on the air: the fragments still to come, the payload they complete, and the clock they are read by. */
  datatype Flight = Flight(air: seq<bytes>, payload: bytes, frame: Frame, clock: int)

  const SILENCE := Flight([], [], Frame(0, 0, 0, []), 0)

  /** The client, what is on the air, and the reports the device has got through, read. */
  datatype Scene = Scene(client: State, flight: Flight, told: seq<seq<DataPoint>>)

  datatype Move =
    | Go(vector: Vector)                                             // what the read awaits succeeds
    | Speak(frame: Frame, flag: byte, vector: Vector, version: nat, clock: int)  // the device begins a frame
    | Hear(clockReply: bytes)                                        // the next fragment of it arrives
    | Replies(task: Task, io: Io, vector: Vector)                    // a reply task runs, well or not

  predicate Waits(s: State, n: nat) {
    (s.phase.Writing? || s.phase.Awaiting?) && s.phase.number == n && n in s.futures && s.futures[n].Waiting?
  }

  /** A frame that answers the waiting request as the device does, or that answers nothing. */
  predicate Proper(device: Device, s: State, frame: Frame) {
    frame.responseTo != 0 ==> Waits(s, frame.responseTo) && device.Answers(s.phase.kind, frame)
  }

  /** The read is about to take up a record whose version does not fit its field. */
  predicate Balks(device: Device, s: State)
    requires device.Honest()
  {
    && s.phase.Awaiting? && s.phase.kind == AskInfo && s.phase.number in s.futures
    && s.futures[s.phase.number].Answered? && device.info[2] > 15
  }

  /** What can happen next: the device speaks one frame at a time, under the login key or the session key, and answers
      only what has been asked; everything else is possible at any time. */
  predicate Fair(cfg: Config, device: Device, scene: Scene, move: Move)
    requires device.Honest()
  {
    var s := scene.client;
    match move
    case Go(_) => s.counter < 0x1_0000_0000 && !Balks(device, s)
    case Speak(frame, flag, _, version, _) =>
      && scene.flight.air == [] && frame.InRange() && version < 16
      && (flag == LOGIN_FLAG || flag == SESSION_FLAG) && KeyFor(cfg, s, flag).Some? && Proper(device, s, frame)
    case Hear(_) => scene.flight.air != []
    case Replies(_, _, _) => true
  }

  predicate IsReport(frame: Frame) {
    frame.code == ReceiveDataPoint.Value() || frame.code == ReceiveTimeDataPoint.Value()
  }

  function ReadingOf(cfg: Config, frame: Frame, clock: int): Result<seq<DataPoint>> {
    ReportOf(cfg, frame, frame.code == ReceiveTimeDataPoint.Value(), clock)
  }

  /** The reports got through once this frame is. */
  function ToldBy(cfg: Config, told: seq<seq<DataPoint>>, frame: Frame, clock: int): seq<seq<DataPoint>> {
    if frame.responseTo == 0 && IsReport(frame) && ReadingOf(cfg, frame, clock).Ok?
    then told + [ReadingOf(cfg, frame, clock).value]
    else told
  }

  function EventOf(scene: Scene, move: Move): seq<Event>
    requires move.Hear? ==> scene.flight.air != []
  {
    match move
    case Go(vector) => [Resumes(Succeeds, vector)]
    case Speak(_, _, _, _, _) => []
    case Hear(clockReply) => [Notifies(scene.flight.air[0], scene.flight.clock, clockReply)]
    case Replies(task, io, vector) => [ReplyRuns(task, io, vector)]
  }

  function Act(cfg: Config, device: Device, scene: Scene, move: Move): Scene
    requires device.Honest() && Fair(cfg, device, scene, move)
  {
    var s, flight := scene.client, scene.flight;
    match move
    case Go(vector) => scene.(client := Step(cfg, s, Resumes(Succeeds, vector)))
    case Speak(frame, flag, vector, version, clock) =>
      var key := KeyFor(cfg, s, flag).value;
      scene.(flight := Flight(Aired(cfg, frame, key, flag, vector, version),
                              Encode(cfg.cipher, frame, key, flag, vector).value, frame, clock))
    case Hear(clockReply) =>
      Scene(Step(cfg, s, Notifies(flight.air[0], flight.clock, clockReply)), flight.(air := flight.air[1..]),
            if |flight.air| == 1 then ToldBy(cfg, scene.told, flight.frame, flight.clock) else scene.told)
    case Replies(task, io, vector) => scene.(client := Step(cfg, s, ReplyRuns(task, io, vector)))
  }

  predicate FairPlay(cfg: Config, device: Device, scene: Scene, moves: seq<Move>)
    requires device.Honest()
    decreases |moves|
  {
    moves == [] ||
    (Fair(cfg, device, scene, moves[0]) && FairPlay(cfg, device, Act(cfg, device, scene, moves[0]), moves[1..]))
  }

  function Play(cfg: Config, device: Device, scene: Scene, moves: seq<Move>): Scene
    requires device.Honest() && FairPlay(cfg, device, scene, moves)
    decreases |moves|
  {
    if moves == [] then scene else Play(cfg, device, Act(cfg, device, scene, moves[0]), moves[1..])
  }

  /** The same as a run of the client. */
  function EventsOf(cfg: Config, device: Device, scene: Scene, moves: seq<Move>): seq<Event>
    requires device.Honest() && FairPlay(cfg, device, scene, moves)
    decreases |moves|
  {
    if moves == [] then []
    else EventOf(scene, moves[0]) + EventsOf(cfg, device, Act(cfg, device, scene, moves[0]), moves[1..])
  }

  lemma {:induction false} PlayRuns(cfg: Config, device: Device, scene: Scene, moves: seq<Move>)
    requires device.Honest() && FairPlay(cfg, device, scene, moves)
    ensures Play(cfg, device, scene, moves).client
         == Run(cfg, scene.client, EventsOf(cfg, device, scene, moves))
    decreases |moves|
  {
    if moves != [] {
      var next := Act(cfg, device, scene, moves[0]);
      PlayRuns(cfg, device, next, moves[1..]);
      RunAppend(cfg, scene.client, EventOf(scene, moves[0]), EventsOf(cfg, device, next, moves[1..]));
      if !moves[0].Speak? {
        RunOne(cfg, scene.client, EventOf(scene, moves[0])[0]);
      }
    }
  }

  lemma {:induction false} PlayAppend(
      cfg: Config, device: Device, scene: Scene, left: seq<Move>, right: seq<Move>)
    requires device.Honest() && FairPlay(cfg, device, scene, left)
    requires FairPlay(cfg, device, Play(cfg, device, scene, left), right)
    ensures FairPlay(cfg, device, scene, left + right)
    ensures Play(cfg, device, scene, left + right)
         == Play(cfg, device, Play(cfg, device, scene, left), right)
    decreases |left|
  {
    if left == [] {
      assert left + right == right;
    } else {
      assert (left + right)[1..] == left[1..] + right;
      PlayAppend(cfg, device, Act(cfg, device, scene, left[0]), left[1..], right);
    }
  }

  lemma {:induction false} PlayCons(cfg: Config, device: Device, scene: Scene, move: Move, later: seq<Move>)
    requires device.Honest() && Fair(cfg, device, scene, move)
    requires FairPlay(cfg, device, Act(cfg, device, scene, move), later)
    ensures FairPlay(cfg, device, scene, [move] + later)
    ensures Play(cfg, device, scene, [move] + later) == Play(cfg, device, Act(cfg, device, scene, move), later)
  {
    assert ([move] + later)[1..] == later;
  }

  // ----- what every order of moves keeps -----

  predicate Requesting(cfg: Config, device: Device, s: State, kind: Kind, n: nat)
    requires device.Honest()
  {
    && s.link && 0 < n < 0x1_0000_0000 && n in s.futures
    && (if s.futures[n].Waiting? then s.pending == {n}
        else s.pending == {} && s.futures[n].Answered? && device.Answers(kind, s.futures[n].frame))
    && s.sessionKey == if kind.AskInfo? then None else Some(device.SessionKey(cfg))
  }

  /** The read has not been turned from its course. */
  predicate OnCourse(cfg: Config, device: Device, s: State)
    requires device.Honest()
  {
    && s.interrupt == NoInterrupt && s.protocolVersion < 16 && 0 < s.counter
    && (device.info[2] > 15 ==> s.sessionKey == None)
    && match s.phase
       case Connecting => !s.link && s.pending == {} && s.sessionKey == None
       case Subscribing => s.link && s.pending == {} && s.sessionKey == None
       case Writing(kind, n, packets) => packets != [] && Requesting(cfg, device, s, kind, n)
       case Awaiting(kind, n) => Requesting(cfg, device, s, kind, n)
       case Collecting(_) => s.link && s.pending == {} && s.sessionKey == Some(device.SessionKey(cfg))
       case _ => false
  }

  /** What is on the air will come to one dispatch of its frame. */
  predicate Aloft(cfg: Config, device: Device, s: State, flight: Flight) {
    flight.air != [] ==>
      && FeedResults(s.assembly, flight.air) == Progress(|flight.air|, flight.payload) && flight.payload != []
      && (flight.payload[0] == LOGIN_FLAG || flight.payload[0] == SESSION_FLAG)
      && KeyFor(cfg, s, flight.payload[0]).Some?
      && Decode(cfg.cipher, flight.payload, KeyFor(cfg, s, flight.payload[0]).value) == Ok(flight.frame)
      && Proper(device, s, flight.frame)
  }

  function NonEmpty(reports: seq<seq<DataPoint>>): seq<seq<DataPoint>> {
    if reports == [] then []
    else NonEmpty(reports[..|reports| - 1])
         + if reports[|reports| - 1] == [] then [] else [reports[|reports| - 1]]
  }

  /** Every report got through has been queued or drained, after those that were queued before. */
  ghost predicate Accounted(s: State, before: seq<seq<DataPoint>>, told: seq<seq<DataPoint>>) {
    Reports(s) && s.log.published == before + NonEmpty(told)
  }

  ghost predicate Going(cfg: Config, device: Device, scene: Scene, before: seq<seq<DataPoint>>)
    requires device.Honest()
  {
    && OnCourse(cfg, device, scene.client) && Aloft(cfg, device, scene.client, scene.flight)
    && Accounted(scene.client, before, scene.told)
  }

  lemma {:induction false} RepliesKeepGoing(
      cfg: Config, device: Device, scene: Scene, before: seq<seq<DataPoint>>, task: Task, io: Io, vector: Vector)
    requires device.Honest() && Going(cfg, device, scene, before)
    ensures Going(cfg, device, Act(cfg, device, scene, Replies(task, io, vector)), before)
  {
    RunReplyApart(cfg, scene.client, task, io, vector);
  }

  lemma {:induction false} SpeakKeepsGoing(
      cfg: Config, device: Device, scene: Scene, before: seq<seq<DataPoint>>, move: Move)
    requires device.Honest() && Going(cfg, device, scene, before) && move.Speak? && Fair(cfg, device, scene, move)
    ensures Going(cfg, device, Act(cfg, device, scene, move), before)
    ensures Act(cfg, device, scene, move).flight.air != []
  {
    var Speak(frame, flag, vector, version, _) := move;
    var s := scene.client;
    var key := KeyFor(cfg, s, flag).value;
    EndToEnd.FrameArrives(cfg.cipher, frame, key, flag, vector, version, s.assembly);
  }

  // ----- a fragment arrives -----

  lemma {:induction false} HearKeepsGoing(
      cfg: Config, device: Device, scene: Scene, before: seq<seq<DataPoint>>, clockReply: bytes)
    requires device.Honest() && Going(cfg, device, scene, before) && scene.flight.air != []
    ensures Going(cfg, device, Act(cfg, device, scene, Hear(clockReply)), before)
  {
    FragmentFed(cfg, scene.client, scene.flight);
    if |scene.flight.air| == 1 {
      LastKeepsGoing(cfg, device, scene, before, clockReply);
    } else {
      MoreKeepsGoing(cfg, device, scene, before, clockReply);
    }
  }

  /** What the reassembler makes of the next fragment on the air. */
  lemma {:induction false} FragmentFed(cfg: Config, s: State, flight: Flight)
    requires flight.air != [] && FeedResults(s.assembly, flight.air) == Progress(|flight.air|, flight.payload)
    ensures var (assembly, fed) := FeedChunk(s.assembly, flight.air[0]);
            if |flight.air| == 1 then fed == Ok(Some(flight.payload))
            else fed == Ok(None)
                 && FeedResults(assembly, flight.air[1..]) == Progress(|flight.air| - 1, flight.payload)
  {
    var (assembly, fed) := FeedChunk(s.assembly, flight.air[0]);
    assert FeedResults(s.assembly, flight.air)[0] == fed;
    assert FeedResults(s.assembly, flight.air)[1..] == FeedResults(assembly, flight.air[1..]);
    if |flight.air| > 1 {
      assert Progress(|flight.air|, flight.payload)[1..] == Progress(|flight.air| - 1, flight.payload);
    }
  }

  lemma {:induction false} LastKeepsGoing(
      cfg: Config, device: Device, scene: Scene, before: seq<seq<DataPoint>>, clockReply: bytes)
    requires device.Honest() && Going(cfg, device, scene, before) && |scene.flight.air| == 1
    requires FeedChunk(scene.client.assembly, scene.flight.air[0]).1 == Ok(Some(scene.flight.payload))
    ensures Going(cfg, device, Act(cfg, device, scene, Hear(clockReply)), before)
  {
    var s, flight := scene.client, scene.flight;
    var u := s.(assembly := FeedChunk(s.assembly, flight.air[0]).0);
    WholeDispatched(cfg, s, flight, clockReply);
    DispatchKeepsGoing(cfg, device, u, before, scene.told, flight.frame, flight.clock, clockReply);
  }

  /** The last fragment comes to the dispatch of the frame. */
  lemma {:induction false} WholeDispatched(cfg: Config, s: State, flight: Flight, clockReply: bytes)
    requires |flight.air| == 1 && flight.payload != []
    requires FeedChunk(s.assembly, flight.air[0]).1 == Ok(Some(flight.payload))
    requires KeyFor(cfg, s, flight.payload[0]).Some?
    requires Decode(cfg.cipher, flight.payload, KeyFor(cfg, s, flight.payload[0]).value) == Ok(flight.frame)
    ensures Step(cfg, s, Notifies(flight.air[0], flight.clock, clockReply))
         == Dispatch(cfg, s.(assembly := FeedChunk(s.assembly, flight.air[0]).0), flight.frame, flight.clock,
                     clockReply).0
  {}

  lemma {:induction false} MoreKeepsGoing(
      cfg: Config, device: Device, scene: Scene, before: seq<seq<DataPoint>>, clockReply: bytes)
    requires device.Honest() && Going(cfg, device, scene, before) && |scene.flight.air| > 1
    requires var (assembly, fed) := FeedChunk(scene.client.assembly, scene.flight.air[0]);
             fed == Ok(None) && FeedResults(assembly, scene.flight.air[1..])
                             == Progress(|scene.flight.air| - 1, scene.flight.payload)
    ensures Going(cfg, device, Act(cfg, device, scene, Hear(clockReply)), before)
  {}

  lemma {:induction false} DispatchKeepsGoing(
      cfg: Config, device: Device, s: State, before: seq<seq<DataPoint>>, told: seq<seq<DataPoint>>, frame: Frame,
      clock: int, clockReply: bytes)
    requires device.Honest() && OnCourse(cfg, device, s) && Accounted(s, before, told) && Proper(device, s, frame)
    ensures var t := Dispatch(cfg, s, frame, clock, clockReply).0;
            OnCourse(cfg, device, t) && Accounted(t, before, ToldBy(cfg, told, frame, clock))
  {
    if frame.responseTo != 0 {
      AnswerKeepsCourse(cfg, device, s, frame, clock, clockReply);
    } else {
      UnaskedDispatched(cfg, device, s, frame, clock, clockReply);
      match CommandCode.FromValue(frame.code)
      case None => assert ToldBy(cfg, told, frame, clock) == told;
      case Some(code) =>
        CodeRoundTrip(frame.code);
        CommandKeepsGoing(cfg, device, s, before, told, code, frame, clock, clockReply);
    }
  }

  /** A frame that answers nothing is handled by its code. */
  lemma {:induction false} UnaskedDispatched(
      cfg: Config, device: Device, s: State, frame: Frame, clock: int, clockReply: bytes)
    requires device.Honest() && OnCourse(cfg, device, s) && frame.responseTo == 0
    ensures Dispatch(cfg, s, frame, clock, clockReply).0 ==
              match CommandCode.FromValue(frame.code)
              case None => s
              case Some(code) => HandleDeviceCommand(cfg, s, code, frame, clock, clockReply).0
  {
    assert Forget(s, 0) == s by {
      assert s.pending - {0} == s.pending;
    }
  }

  lemma {:induction false} AnswerKeepsCourse(
      cfg: Config, device: Device, s: State, frame: Frame, clock: int, clockReply: bytes)
    requires device.Honest() && OnCourse(cfg, device, s)
    requires Waits(s, frame.responseTo) && device.Answers(s.phase.kind, frame)
    ensures var t := Dispatch(cfg, s, frame, clock, clockReply).0;
            && OnCourse(cfg, device, t) && t.phase == s.phase && t.reports == s.reports && t.counter == s.counter
            && t.futures == s.futures[frame.responseTo := Answered(frame)]
            && t.log.published == s.log.published && t.log.drained == s.log.drained
  {
    assert s.pending - {frame.responseTo} == {};
  }

  lemma {:induction false} CommandKeepsGoing(
      cfg: Config, device: Device, s: State, before: seq<seq<DataPoint>>, told: seq<seq<DataPoint>>,
      code: CommandCode, frame: Frame, clock: int, clockReply: bytes)
    requires device.Honest() && OnCourse(cfg, device, s) && Accounted(s, before, told)
    requires frame.responseTo == 0 && frame.code == code.Value()
    ensures var t := HandleDeviceCommand(cfg, s, code, frame, clock, clockReply).0;
            OnCourse(cfg, device, t) && Accounted(t, before, ToldBy(cfg, told, frame, clock))
  {
    if code.ReceiveDataPoint? || code.ReceiveTimeDataPoint? {
      ReportKeepsGoing(cfg, device, s, before, told, code, frame, clock, clockReply);
    } else {
      assert !IsReport(frame);
      OtherKeepsGoing(cfg, device, s, before, told, code, frame, clock, clockReply);
    }
  }

  lemma {:induction false} OtherKeepsGoing(
      cfg: Config, device: Device, s: State, before: seq<seq<DataPoint>>, told: seq<seq<DataPoint>>,
      code: CommandCode, frame: Frame, clock: int, clockReply: bytes)
    requires device.Honest() && OnCourse(cfg, device, s) && Accounted(s, before, told)
    requires !code.ReceiveDataPoint? && !code.ReceiveTimeDataPoint?
    ensures var t := HandleDeviceCommand(cfg, s, code, frame, clock, clockReply).0;
            OnCourse(cfg, device, t) && Accounted(t, before, told)
  {
    ReplyKeepsGoing(cfg, device, s, before, told, frame, clockReply);
  }

  lemma {:induction false} ReportKeepsGoing(
      cfg: Config, device: Device, s: State, before: seq<seq<DataPoint>>, told: seq<seq<DataPoint>>,
      code: CommandCode, frame: Frame, clock: int, clockReply: bytes)
    requires device.Honest() && OnCourse(cfg, device, s) && Accounted(s, before, told)
    requires frame.responseTo == 0 && frame.code == code.Value()
    requires code.ReceiveDataPoint? || code.ReceiveTimeDataPoint?
    ensures var t := HandleDeviceCommand(cfg, s, code, frame, clock, clockReply).0;
            OnCourse(cfg, device, t) && Accounted(t, before, ToldBy(cfg, told, frame, clock))
  {
    if ReadingOf(cfg, frame, clock).Ok? {
      var points := ReadingOf(cfg, frame, clock).value;
      PublishAccounts(s, before, told, points);
      ReplyKeepsGoing(cfg, device, Publish(s, points), before, told + [points], frame, []);
    }
  }

  lemma {:induction false} ReplyKeepsGoing(
      cfg: Config, device: Device, s: State, before: seq<seq<DataPoint>>, told: seq<seq<DataPoint>>, frame: Frame,
      data: bytes)
    requires device.Honest() && OnCourse(cfg, device, s) && Accounted(s, before, told)
    ensures OnCourse(cfg, device, ReplyTo(s, frame, data)) && Accounted(ReplyTo(s, frame, data), before, told)
  {}

  lemma {:induction false} PublishAccounts(
      s: State, before: seq<seq<DataPoint>>, told: seq<seq<DataPoint>>, points: seq<DataPoint>)
    requires Accounted(s, before, told)
    ensures Accounted(Publish(s, points), before, told + [points])
  {
    assert (told + [points])[..|told|] == told;
    if points != [] {
      assert s.log.drained + (s.reports + [points]) == (s.log.drained + s.reports) + [points];
      assert (before + NonEmpty(told)) + [points] == before + NonEmpty(told + [points]);
    }
  }

  // ----- the read goes on -----

  /** What going on from one await to the next leaves as it was. */
  predicate SameAccounts(s: State, t: State) {
    && t.reports == s.reports && t.log.published == s.log.published && t.log.drained == s.log.drained
    && t.assembly == s.assembly && t.phase.Collecting? == s.phase.Collecting?
  }

  lemma {:induction false} BeginsRequest(
      cfg: Config, device: Device, s: State, kind: Kind, data: bytes, key: Option<bytes>, flag: byte, vector: Vector)
    requires device.Honest() && (kind.AskInfo? || device.info[2] < 16)
    requires s.link && s.pending == {} && s.interrupt == NoInterrupt && s.protocolVersion < 16
    requires 0 < s.counter < 0x1_0000_0000 && |data| <= 44
    requires if kind.AskInfo? then key.Some? && s.sessionKey == None
             else key == None && s.sessionKey == Some(device.SessionKey(cfg))
    ensures var t := StartRequest(cfg, s, kind, data, key, flag, vector);
            && OnCourse(cfg, device, t) && t.phase.Writing? && t.phase.kind == kind && t.phase.number == s.counter
            && t.counter == s.counter + 1 && t.futures[s.counter].Waiting?
            && t.reports == s.reports && t.log.published == s.log.published && t.log.drained == s.log.drained
            && t.assembly == s.assembly
  {
    var chosen := if key.Some? then key else s.sessionKey;
    var t := Register(s, kind);
    var frame := Frame(s.counter, 0, kind.Code().Value(), data);
    PacketsExactly(cfg, t, frame, chosen.value, flag, vector);
    EndToEnd.FrameArrives(cfg.cipher, frame, chosen.value, flag, vector, s.protocolVersion, FRESH);
    assert t.pending == {s.counter};
  }

  /** The information reply leads to the pairing request. */
  lemma {:induction false} InfoTaken(cfg: Config, device: Device, s: State, frame: Frame, vector: Vector)
    requires device.Honest() && device.info[2] < 16 && |cfg.uuid + cfg.material + cfg.deviceId| <= 44
    requires OnCourse(cfg, device, s) && s.phase.Awaiting? && s.phase.kind == AskInfo && s.counter < 0x1_0000_0000
    requires s.pending == {} && frame.data == device.info
    ensures var t := Proceed(cfg, s, AskInfo, frame, vector);
            && OnCourse(cfg, device, t) && SameAccounts(s, t) && t.phase.Writing? && t.phase.kind == AskPair
            && t.counter == s.counter + 1 && t.futures[t.phase.number].Waiting?
  {
    var info := ParseDeviceInfo(frame.data).value;
    var request := PairingRequest(cfg.uuid, cfg.material, cfg.deviceId).value;
    BeginsRequest(cfg, device, Adopt(cfg, s, info, frame), AskPair, request, None, SESSION_FLAG, vector);
  }

  /** The verdict leads to the status request. */
  lemma {:induction false} VerdictTaken(cfg: Config, device: Device, s: State, frame: Frame, vector: Vector)
    requires device.Honest() && frame.data == [device.verdict]
    requires OnCourse(cfg, device, s) && s.phase.Awaiting? && s.phase.kind == AskPair && s.counter < 0x1_0000_0000
    requires s.pending == {}
    ensures var t := Proceed(cfg, s, AskPair, frame, vector);
            && OnCourse(cfg, device, t) && SameAccounts(s, t) && t.phase.Writing? && t.phase.kind == AskStatus
            && t.counter == s.counter + 1 && t.futures[t.phase.number].Waiting?
  {
    var u := s.(log := s.log.(paired := Some(frame)));
    BeginsRequest(cfg, device, u, AskStatus, [], None, SESSION_FLAG, vector);
  }

  /** How far the read has come; it only ever grows less. */
  function Ahead(phase: Phase): nat {
    match phase
    case Connecting => 8
    case Subscribing => 7
    case Writing(kind, _, _) => if kind.AskInfo? then 6 else if kind.AskPair? then 4 else 2
    case Awaiting(kind, _) => if kind.AskInfo? then 5 else if kind.AskPair? then 3 else 1
    case _ => 0
  }

  /** An answer that has come is taken up. */
  lemma {:induction false} AnswerTaken(cfg: Config, device: Device, s: State, vector: Vector)
    requires device.Honest() && |cfg.uuid + cfg.material + cfg.deviceId| <= 44
    requires OnCourse(cfg, device, s) && s.phase.Awaiting? && s.counter < 0x1_0000_0000
    requires s.futures[s.phase.number].Answered? && !Balks(device, s)
    ensures var t := Step(cfg, s, Resumes(Succeeds, vector));
            && OnCourse(cfg, device, t) && t.assembly == s.assembly && t.counter <= s.counter + 1
            && t.reports == s.reports && t.log.published == s.log.published && t.log.drained == s.log.drained
            && Ahead(t.phase) < Ahead(s.phase) && (t.phase.Collecting? ==> t.phase.collected == map[])
            && (t.phase.Writing? ==> t.futures[t.phase.number].Waiting?)
  {
    var n, kind := s.phase.number, s.phase.kind;
    var frame := s.futures[n].frame;
    assert Forget(s, n) == s by {
      assert s.pending - {n} == s.pending;
    }
    match kind
    case AskInfo => InfoTaken(cfg, device, s, frame, vector);
    case AskPair => VerdictTaken(cfg, device, s, frame, vector);
    case AskStatus =>
  }

  /** Going on keeps the course, and gets further wherever the read does not wait for the device. */
  lemma {:induction false} GoKeepsCourse(cfg: Config, device: Device, s: State, vector: Vector)
    requires device.Honest() && |cfg.uuid + cfg.material + cfg.deviceId| <= 44
    requires OnCourse(cfg, device, s) && !s.phase.Collecting? && s.counter < 0x1_0000_0000 && !Balks(device, s)
    ensures var t := Step(cfg, s, Resumes(Succeeds, vector));
            && OnCourse(cfg, device, t) && t.assembly == s.assembly && t.counter <= s.counter + 1
            && t.reports == s.reports && t.log.published == s.log.published && t.log.drained == s.log.drained
            && (t.phase.Collecting? ==> t.phase.collected == map[])
            && (s.phase.Writing? ==>
                  && t.futures == s.futures && (t.phase.Writing? || t.phase.Awaiting?)
                  && t.phase.kind == s.phase.kind && t.phase.number == s.phase.number
                  && (t.phase.Writing? ==> |t.phase.packets| < |s.phase.packets|))
            && (s.phase.Awaiting? && s.futures[s.phase.number].Waiting? ==> t == s)
            && (!s.phase.Writing? && !(s.phase.Awaiting? && s.futures[s.phase.number].Waiting?) ==>
                  Ahead(t.phase) < Ahead(s.phase))
  {
    match s.phase
    case Connecting =>
    case Subscribing => BeginsRequest(cfg, device, s, AskInfo, [], Some(cfg.loginKey), LOGIN_FLAG, vector);
    case Writing(_, _, _) =>
    case Awaiting(_, n) =>
      if s.futures[n].Answered? {
        AnswerTaken(cfg, device, s, vector);
      }
  }

  lemma {:induction false} TakeKeepsGoing(
      cfg: Config, device: Device, s: State, before: seq<seq<DataPoint>>, told: seq<seq<DataPoint>>)
    requires device.Honest() && OnCourse(cfg, device, s) && Accounted(s, before, told)
    requires s.phase.Collecting? && s.reports != []
    ensures OnCourse(cfg, device, TakeReport(s)) && Accounted(TakeReport(s), before, told)
  {
    TakeReportKeepsReports(s);
  }

  lemma {:induction false} GoKeepsGoing(
      cfg: Config, device: Device, scene: Scene, before: seq<seq<DataPoint>>, vector: Vector)
    requires device.Honest() && |cfg.uuid + cfg.material + cfg.deviceId| <= 44
    requires Going(cfg, device, scene, before) && Fair(cfg, device, scene, Go(vector))
    ensures Going(cfg, device, Act(cfg, device, scene, Go(vector)), before)
  {
    var s := scene.client;
    var t := Step(cfg, s, Resumes(Succeeds, vector));
    if s.phase.Collecting? {
      if s.reports != [] {
        TakeKeepsGoing(cfg, device, s, before, scene.told);
      }
    } else {
      GoKeepsCourse(cfg, device, s, vector);
      StaysAloft(cfg, device, s, t, scene.flight);
    }
  }

  lemma {:induction false} StaysAloft(cfg: Config, device: Device, s: State, t: State, flight: Flight)
    requires device.Honest() && OnCourse(cfg, device, s) && OnCourse(cfg, device, t) && Aloft(cfg, device, s, flight)
    requires t.assembly == s.assembly && (s.sessionKey.Some? ==> t.sessionKey == s.sessionKey)
    requires forall n :: Waits(s, n) ==> Waits(t, n) && t.phase.kind == s.phase.kind
    ensures Aloft(cfg, device, t, flight)
  {}

  lemma {:induction false} MoveKeepsGoing(
      cfg: Config, device: Device, scene: Scene, before: seq<seq<DataPoint>>, move: Move)
    requires device.Honest() && |cfg.uuid + cfg.material + cfg.deviceId| <= 44
    requires Going(cfg, device, scene, before) && Fair(cfg, device, scene, move)
    ensures Going(cfg, device, Act(cfg, device, scene, move), before)
  {
    match move
    case Go(vector) => GoKeepsGoing(cfg, device, scene, before, vector);
    case Speak(_, _, _, _, _) => SpeakKeepsGoing(cfg, device, scene, before, move);
    case Hear(clockReply) => HearKeepsGoing(cfg, device, scene, before, clockReply);
    case Replies(task, io, vector) => RepliesKeepGoing(cfg, device, scene, before, task, io, vector);
  }

  /** Nothing a cooperating device, a working radio and the reply tasks do, in whatever order, turns a read from its
      course or loses a report. */
  lemma {:induction false} PlayGoing(
      cfg: Config, device: Device, scene: Scene, before: seq<seq<DataPoint>>, moves: seq<Move>)
    requires device.Honest() && |cfg.uuid + cfg.material + cfg.deviceId| <= 44
    requires Going(cfg, device, scene, before) && FairPlay(cfg, device, scene, moves)
    ensures Going(cfg, device, Play(cfg, device, scene, moves), before)
    decreases |moves|
  {
    if moves != [] {
      MoveKeepsGoing(cfg, device, scene, before, moves[0]);
      PlayGoing(cfg, device, Act(cfg, device, scene, moves[0]), before, moves[1..]);
    }
  }

  // ----- the read can always be completed -----

  const IDLE_VECTOR: Vector := Zeros(BLOCK_SIZE)

  predicate OneHeard(scene: Scene, next: Scene) {
    var s, t := scene.client, next.client;
    && scene.flight.air != [] && next.flight == scene.flight.(air := scene.flight.air[1..]) && t.phase == s.phase
    && (if |scene.flight.air| > 1 then t.futures == s.futures && t.counter == s.counter
        else if scene.flight.frame.responseTo == 0 then t.counter <= s.counter + 1
        else && t.counter == s.counter
             && t.futures == s.futures[scene.flight.frame.responseTo := Answered(scene.flight.frame)])
  }

  lemma {:induction false} OneHeardLanded(scene: Scene, next: Scene, t: Scene)
    requires OneHeard(scene, next) && Landed(next, t)
    requires |scene.flight.air| == 1 ==> t == next
    ensures Landed(scene, t)
  {}

  /** What hearing a fragment changes of the client. */
  lemma {:induction false} HearEffects(cfg: Config, device: Device, scene: Scene, before: seq<seq<DataPoint>>)
    requires device.Honest() && Going(cfg, device, scene, before) && scene.flight.air != []
    ensures OneHeard(scene, Act(cfg, device, scene, Hear([])))
  {
    var s, flight := scene.client, scene.flight;
    var (assembly, fed) := FeedChunk(s.assembly, flight.air[0]);
    assert FeedResults(s.assembly, flight.air)[0] == fed;
    var u := s.(assembly := assembly);
    NotifyKeeps(cfg, s, flight.air[0], flight.clock, []);
    NotifyAllOrNothing(cfg, s, flight.air[0], flight.clock, []);
    if |flight.air| == 1 {
      if flight.frame.responseTo != 0 {
        AnswerKeepsCourse(cfg, device, u, flight.frame, flight.clock, []);
      }
    } else {
      assert fed == Ok(None);
    }
  }

  /** The frame on the air, if any, has been heard to its end. */
  predicate Landed(scene: Scene, t: Scene) {
    && t.flight.air == [] && t.client.phase == scene.client.phase
    && t.client.counter <= scene.client.counter + 1
    && (scene.flight.air != [] && scene.flight.frame.responseTo != 0 ==>
          && t.client.counter == scene.client.counter
          && t.client.futures ==
               scene.client.futures[scene.flight.frame.responseTo := Answered(scene.flight.frame)])
  }

  /** The frame on the air can be heard to its end. */
  lemma {:induction false} Land(cfg: Config, device: Device, scene: Scene, before: seq<seq<DataPoint>>)
    returns (moves: seq<Move>)
    requires device.Honest() && |cfg.uuid + cfg.material + cfg.deviceId| <= 44 && Going(cfg, device, scene, before)
    ensures FairPlay(cfg, device, scene, moves)
    ensures Going(cfg, device, Play(cfg, device, scene, moves), before)
    ensures Landed(scene, Play(cfg, device, scene, moves))
  {
    if scene.flight.air == [] {
      moves := [];
    } else {
      moves := LandOne(cfg, device, scene, before);
    }
  }

  lemma {:induction false} LandOne(cfg: Config, device: Device, scene: Scene, before: seq<seq<DataPoint>>)
    returns (moves: seq<Move>)
    requires device.Honest() && |cfg.uuid + cfg.material + cfg.deviceId| <= 44 && Going(cfg, device, scene, before)
    requires scene.flight.air != []
    ensures FairPlay(cfg, device, scene, moves)
    ensures Going(cfg, device, Play(cfg, device, scene, moves), before)
    ensures Landed(scene, Play(cfg, device, scene, moves))
    decreases |scene.flight.air|
  {
    HearEffects(cfg, device, scene, before);
    HearKeepsGoing(cfg, device, scene, before, []);
    var next := Act(cfg, device, scene, Hear([]));
    var later := [];
    if |scene.flight.air| > 1 {
      later := LandOne(cfg, device, next, before);
    }
    PlayCons(cfg, device, scene, Hear([]), later);
    moves := [Hear([])] + later;
    OneHeardLanded(scene, next, Play(cfg, device, next, later));
  }

  /** The device can answer the request that is waiting. */
  lemma {:induction false} AnswerIt(cfg: Config, device: Device, scene: Scene, before: seq<seq<DataPoint>>)
    returns (moves: seq<Move>)
    requires device.Honest() && |device.info| < 0x1_0000 && |cfg.uuid + cfg.material + cfg.deviceId| <= 44
    requires Going(cfg, device, scene, before) && scene.flight.air == []
    requires scene.client.phase.Awaiting? && Waits(scene.client, scene.client.phase.number)
    ensures FairPlay(cfg, device, scene, moves)
    ensures var s, t := scene.client, Play(cfg, device, scene, moves);
            && t.flight.air == [] && t.client.phase == s.phase && Going(cfg, device, t, before)
            && t.client.futures[s.phase.number].Answered? && t.client.counter == s.counter
  {
    var s := scene.client;
    var kind := s.phase.kind;
    var data := if kind.AskInfo? then device.info else if kind.AskPair? then [device.verdict] else [];
    var frame := Frame(0, s.phase.number, 0, data);
    var move := Speak(frame, if kind.AskInfo? then LOGIN_FLAG else SESSION_FLAG, IDLE_VECTOR, 0, 0);
    SpeakKeepsGoing(cfg, device, scene, before, move);
    var next := Act(cfg, device, scene, move);
    var later := Land(cfg, device, next, before);
    PlayCons(cfg, device, scene, move, later);
    moves := [move] + later;
  }

  /** Nothing is left to be heard, answered or drained. */
  predicate Settled(scene: Scene) {
    scene.flight.air == [] && scene.client.phase.Collecting? && scene.client.reports == []
  }

  /** From wherever a fair play has got to, it can be played to the end: to where the read has drained everything, or to
      where it balks at the version the device announced. */
  lemma {:induction false} Finish(cfg: Config, device: Device, scene: Scene, before: seq<seq<DataPoint>>)
    returns (moves: seq<Move>)
    requires device.Honest() && |device.info| < 0x1_0000 && |cfg.uuid + cfg.material + cfg.deviceId| <= 44
    requires Going(cfg, device, scene, before) && scene.flight.air == []
    requires scene.client.counter + Ahead(scene.client.phase) < 0x1_0000_0000
    ensures FairPlay(cfg, device, scene, moves)
    ensures var t := Play(cfg, device, scene, moves);
            if device.info[2] < 16 then Settled(t) else Balks(device, t.client)
    decreases Ahead(scene.client.phase),
              if scene.client.phase.Awaiting? && Waits(scene.client, scene.client.phase.number) then 1 else 0,
              if scene.client.phase.Writing? then |scene.client.phase.packets| else 0,
              |scene.client.reports|
  {
    var s := scene.client;
    if Settled(scene) || Balks(device, s) {
      moves := [];
    } else if s.phase.Awaiting? && Waits(s, s.phase.number) {
      var first := AnswerIt(cfg, device, scene, before);
      var later := Finish(cfg, device, Play(cfg, device, scene, first), before);
      PlayAppend(cfg, device, scene, first, later);
      moves := first + later;
    } else {
      var go := Go(IDLE_VECTOR);
      GoKeepsGoing(cfg, device, scene, before, IDLE_VECTOR);
      if !s.phase.Collecting? {
        GoKeepsCourse(cfg, device, s, IDLE_VECTOR);
      }
      var later := Finish(cfg, device, Act(cfg, device, scene, go), before);
      PlayCons(cfg, device, scene, go, later);
      moves := [go] + later;
    }
  }

  // ----- a whole read -----

  /** Between reads; reports may be queued and numbers used already. */
  predicate Rested(s: State) {
    s.phase.Idle? && s.protocolVersion < 16
  }

  /** Between reads, with nothing left over from the last one. */
  predicate Pristine(s: State) {
    Rested(s) && !s.link && s.counter == 1 && s.reports == [] && s.pending == {} && s.sessionKey == None
    && s.assembly == FRESH
  }

  /** A read begins. */
  function Opening(cfg: Config, s: State): Scene {
    Scene(Step(cfg, s, Begins), SILENCE, [])
  }

  /** The quiet period runs out, the read returns, and the disconnect completes. */
  const QUIET := [Interrupts(WaitTimeout), Resumes(Succeeds, IDLE_VECTOR), Resumes(Succeeds, IDLE_VECTOR)]

  lemma {:induction false} OpeningGoing(cfg: Config, device: Device, past: seq<Event>)
    requires device.Honest() && Rested(Run(cfg, INITIAL, past))
    ensures Going(cfg, device, Opening(cfg, Run(cfg, INITIAL, past)), Run(cfg, INITIAL, past).reports)
  {
    Reachable(cfg, past);
    var s := Run(cfg, INITIAL, past);
    assert s.log.published == s.reports + NonEmpty([]);
  }

  lemma {:induction false} Closed(cfg: Config, s: State)
    requires s.phase.Collecting? && s.interrupt == NoInterrupt && s.link && s.protocolVersion < 16
    ensures var t := Run(cfg, s, QUIET);
            Pristine(t) && t.result == Some(Returned(s.phase.collected)) && t.disconnects == s.disconnects + 1
  {
    var timer, go := Interrupts(WaitTimeout), Resumes(Succeeds, IDLE_VECTOR);
    assert QUIET == [timer] + [go, go] && [go, go] == [go] + [go];
    RunAppend(cfg, s, [timer], [go, go]);
    RunOne(cfg, s, timer);
    var a := Step(cfg, s, timer);
    RunAppend(cfg, a, [go], [go]);
    RunOne(cfg, a, go);
    RunOne(cfg, Step(cfg, a, go), go);
  }

  /** Empty reports make no difference. */
  lemma {:induction false} CollectNonEmpty(before: seq<seq<DataPoint>>, told: seq<seq<DataPoint>>)
    ensures CollectAll(before + NonEmpty(told)) == CollectAll(before + told)
  {
    if told != [] {
      var n := |told| - 1;
      var earlier, last := told[..n], told[n];
      CollectNonEmpty(before, earlier);
      CollectOneMore(before + earlier, last);
      assert (before + earlier) + [last] == before + told;
      if last == [] {
        assert NonEmpty(told) == NonEmpty(earlier) + [] == NonEmpty(earlier);
      } else {
        CollectOneMore(before + NonEmpty(earlier), last);
        assert (before + NonEmpty(earlier)) + [last] == before + NonEmpty(told);
      }
    }
  }

  /** Every read of a cooperating device succeeds. From any point between reads that a client can reach, with
      credentials that fit the pairing record, for every library cipher and key derivation, every record, verdict and
      acknowledgement, and whatever the order in which fragments arrive, operations of the radio succeed and reply
      tasks run or fail: the read stays on its course; and once it has drained what was queued, a quiet period makes
      it return, for every identifier, the last value among the reports that were queued before it and those the
      device has got through since, whole, and leaves nothing behind. */
  lemma {:induction false} HonestRead(cfg: Config, past: seq<Event>, device: Device, moves: seq<Move>)
    requires Rested(Run(cfg, INITIAL, past)) && device.Honest() && |cfg.uuid + cfg.material + cfg.deviceId| <= 44
    requires FairPlay(cfg, device, Opening(cfg, Run(cfg, INITIAL, past)), moves)
    ensures var s := Run(cfg, INITIAL, past);
            var scene := Opening(cfg, s);
            var t, events := Play(cfg, device, scene, moves), EventsOf(cfg, device, scene, moves);
            && t.client == Run(cfg, INITIAL, past + [Begins] + events)
            && OnCourse(cfg, device, t.client)
            && (t.client.phase.Collecting? && t.client.reports == [] ==>
                  var u := Run(cfg, INITIAL, past + [Begins] + events + QUIET);
                  Pristine(u) && u.result == Some(Returned(CollectAll(s.reports + t.told))))
  {
    var s := Run(cfg, INITIAL, past);
    var scene := Opening(cfg, s);
    var t, events := Play(cfg, device, scene, moves), EventsOf(cfg, device, scene, moves);
    OpeningGoing(cfg, device, past);
    PlayGoing(cfg, device, scene, s.reports, moves);
    PlayedRun(cfg, past, device, moves);
    if t.client.phase.Collecting? && t.client.reports == [] {
      Closed(cfg, t.client);
      RunAppend(cfg, INITIAL, past + [Begins] + events, QUIET);
      CollectNonEmpty(s.reports, t.told);
      assert t.client.log.drained + [] == t.client.log.drained;
    }
  }

  lemma {:induction false} PlayedRun(cfg: Config, past: seq<Event>, device: Device, moves: seq<Move>)
    requires device.Honest() && FairPlay(cfg, device, Opening(cfg, Run(cfg, INITIAL, past)), moves)
    ensures var scene := Opening(cfg, Run(cfg, INITIAL, past));
            Play(cfg, device, scene, moves).client
            == Run(cfg, INITIAL, past + [Begins] + EventsOf(cfg, device, scene, moves))
  {
    var s := Run(cfg, INITIAL, past);
    var scene := Opening(cfg, s);
    PlayRuns(cfg, device, scene, moves);
    RunAppend(cfg, INITIAL, past, [Begins]);
    RunOne(cfg, s, Begins);
    RunAppend(cfg, INITIAL, past + [Begins], EventsOf(cfg, device, scene, moves));
  }

  /** No order of events leads into a dead end: every such beginning can be played on until the read has drained
      everything, or balks at the version the device announced. */
  lemma {:induction false} ReadCompletes(cfg: Config, past: seq<Event>, device: Device, moves: seq<Move>)
    returns (more: seq<Move>)
    requires Rested(Run(cfg, INITIAL, past)) && device.Honest() && |device.info| < 0x1_0000
    requires |cfg.uuid + cfg.material + cfg.deviceId| <= 44
    requires FairPlay(cfg, device, Opening(cfg, Run(cfg, INITIAL, past)), moves)
    requires Play(cfg, device, Opening(cfg, Run(cfg, INITIAL, past)), moves).client.counter < 0xFFFF_FFF0
    ensures var scene := Opening(cfg, Run(cfg, INITIAL, past));
            && FairPlay(cfg, device, scene, moves + more)
            && var t := Play(cfg, device, scene, moves + more);
               if device.info[2] < 16 then Settled(t) else Balks(device, t.client)
  {
    var s := Run(cfg, INITIAL, past);
    var scene := Opening(cfg, s);
    OpeningGoing(cfg, device, past);
    PlayGoing(cfg, device, scene, s.reports, moves);
    var t := Play(cfg, device, scene, moves);
    var landing := Land(cfg, device, t, s.reports);
    var u := Play(cfg, device, t, landing);
    var rest := Finish(cfg, device, u, s.reports);
    PlayAppend(cfg, device, t, landing, rest);
    more := landing + rest;
    PlayAppend(cfg, device, scene, moves, more);
  }

  // ----- a device that announces a version of 16 or more -----

  /** A cooperative device that announces a version of 16 or more ends the read in an error that is not one of the
      SDK's, however the moves before are ordered, and ends every read after it: nothing that happens later lets the
      client send another frame or return a result. */
  lemma {:induction false} HighVersionNeverReads(
      cfg: Config, past: seq<Event>, device: Device, moves: seq<Move>, vector: Vector, more: seq<Event>)
    requires Rested(Run(cfg, INITIAL, past)) && device.Honest() && |cfg.uuid + cfg.material + cfg.deviceId| <= 44
    requires FairPlay(cfg, device, Opening(cfg, Run(cfg, INITIAL, past)), moves)
    requires Balks(device, Play(cfg, device, Opening(cfg, Run(cfg, INITIAL, past)), moves).client)
    ensures var events := EventsOf(cfg, device, Opening(cfg, Run(cfg, INITIAL, past)), moves);
            var ended := past + [Begins] + events + [Resumes(Succeeds, vector)];
            && Run(cfg, INITIAL, ended).phase == Disconnecting(Raised(StructError))
            && !StructError.IsTuyaBleError()
            && Stuck(cfg, Run(cfg, INITIAL, ended + more), device.info[2])
  {
    var s := Run(cfg, INITIAL, past);
    var scene := Opening(cfg, s);
    var read := past + [Begins] + EventsOf(cfg, device, scene, moves);
    OpeningGoing(cfg, device, past);
    PlayGoing(cfg, device, scene, s.reports, moves);
    PlayedRun(cfg, past, device, moves);
    var t := Play(cfg, device, scene, moves).client;
    var frame := t.futures[t.phase.number].frame;
    HighVersionSticks(cfg, read, frame, vector);
    var resumed := Resumes(Succeeds, vector);
    RunAppend(cfg, INITIAL, read, [resumed]);
    RunOne(cfg, t, resumed);
    RunAppend(cfg, INITIAL, read + [resumed], more);
    StuckForever(cfg, Step(cfg, t, resumed), device.info[2], more);
  }

  // ----- a report that comes after the reset -----

  /** The events without those of reply tasks. */
  function Strip(events: seq<Event>): seq<Event> {
    if events == [] then []
    else (if events[0].ReplyRuns? then [] else [events[0]]) + Strip(events[1..])
  }

  /** What reply tasks leave alone. */
  predicate Apart(s: State, t: State) {
    && t.phase == s.phase && t.protocolVersion == s.protocolVersion && t.reports == s.reports
    && t.interrupt == s.interrupt && t.pending == s.pending && t.assembly == s.assembly
  }

  lemma {:induction false} OnlyReplies(cfg: Config, s: State, events: seq<Event>)
    requires Strip(events) == []
    ensures Apart(s, Run(cfg, s, events))
    decreases |events|
  {
    if events != [] {
      var ReplyRuns(task, io, vector) := events[0];
      RunReplyApart(cfg, s, task, io, vector);
      OnlyReplies(cfg, Step(cfg, s, events[0]), events[1..]);
    }
  }

  /** A report on its way to a client that is giving the link up. */
  predicate Late(cfg: Config, s: State, flight: Flight) {
    && s.phase.Disconnecting? && s.interrupt == NoInterrupt && s.pending == {}
    && IsReport(flight.frame) && ReadingOf(cfg, flight.frame, flight.clock).Ok?
    && (flight.air != [] ==>
          && FeedResults(s.assembly, flight.air) == Progress(|flight.air|, flight.payload)
          && flight.payload != [] && flight.payload[0] == LOGIN_FLAG
          && Decode(cfg.cipher, flight.payload, cfg.loginKey) == Ok(flight.frame))
  }

  lemma {:induction false} LateStep(cfg: Config, s: State, flight: Flight)
    requires Late(cfg, s, flight) && flight.air != []
    ensures var t := Step(cfg, s, Notifies(flight.air[0], flight.clock, []));
            var points := ReadingOf(cfg, flight.frame, flight.clock).value;
            && Late(cfg, t, flight.(air := flight.air[1..])) && t.protocolVersion == s.protocolVersion
            && t.reports == s.reports + if |flight.air| == 1 && points != [] then [points] else []
  {
    var (assembly, fed) := FeedChunk(s.assembly, flight.air[0]);
    assert FeedResults(s.assembly, flight.air)[0] == fed;
    assert FeedResults(s.assembly, flight.air)[1..] == FeedResults(assembly, flight.air[1..]);
    if |flight.air| == 1 {
      assert fed == Ok(Some(flight.payload));
      LateDispatched(cfg, s.(assembly := assembly), flight.frame, flight.clock);
    } else {
      assert fed == Ok(None);
      assert Progress(|flight.air|, flight.payload)[1..] == Progress(|flight.air| - 1, flight.payload);
    }
  }

  lemma {:induction false} LateDispatched(cfg: Config, s: State, frame: Frame, clock: int)
    requires s.pending == {} && IsReport(frame) && ReadingOf(cfg, frame, clock).Ok?
    ensures var t, points := Dispatch(cfg, s, frame, clock, []).0, ReadingOf(cfg, frame, clock).value;
            && t.phase == s.phase && t.protocolVersion == s.protocolVersion && t.interrupt == s.interrupt
            && t.pending == {} && t.assembly == s.assembly
            && t.reports == s.reports + if points != [] then [points] else []
  {
    assert Forget(s, frame.responseTo) == s;
    var code := if frame.code == ReceiveTimeDataPoint.Value() then ReceiveTimeDataPoint else ReceiveDataPoint;
    assert CommandCode.FromValue(frame.code) == Some(code);
    assert s.reports + [] == s.reports;
  }

  /** The report has been queued, and the client is between reads. */
  predicate Queued(cfg: Config, s: State, flight: Flight, t: State)
    requires ReadingOf(cfg, flight.frame, flight.clock).Ok?
  {
    var points := ReadingOf(cfg, flight.frame, flight.clock).value;
    && t.phase.Idle? && t.protocolVersion == s.protocolVersion
    && t.reports == s.reports + if flight.air != [] && points != [] then [points] else []
  }

  lemma {:induction false} LateHeard(cfg: Config, s: State, flight: Flight, closed: Event, events: seq<Event>)
    requires Late(cfg, s, flight) && closed.Resumes?
    requires Strip(events) == NotifyEach(flight.air, flight.clock) + [closed]
    ensures Queued(cfg, s, flight, Run(cfg, s, events))
    decreases |events|
  {
    var event, later := events[0], events[1..];
    if event.ReplyRuns? {
      LateApart(cfg, s, flight, event);
      LateHeard(cfg, Step(cfg, s, event), flight, closed, later);
    } else {
      StripHead(events, flight, closed);
      if flight.air == [] {
        LateClosed(cfg, s, flight, closed, later);
      } else {
        LateStep(cfg, s, flight);
        LateHeard(cfg, Step(cfg, s, event), flight.(air := flight.air[1..]), closed, later);
        assert s.reports + [] == s.reports;
      }
    }
  }

  lemma {:induction false} LateApart(cfg: Config, s: State, flight: Flight, event: Event)
    requires Late(cfg, s, flight) && event.ReplyRuns?
    ensures Late(cfg, Step(cfg, s, event), flight) && Apart(s, Step(cfg, s, event))
  {
    RunReplyApart(cfg, s, event.task, event.io, event.vector);
  }

  lemma {:induction false} LateClosed(cfg: Config, s: State, flight: Flight, closed: Event, later: seq<Event>)
    requires Late(cfg, s, flight) && flight.air == [] && closed.Resumes? && Strip(later) == []
    ensures Queued(cfg, s, flight, Run(cfg, Step(cfg, s, closed), later))
  {
    OnlyReplies(cfg, Step(cfg, s, closed), later);
    assert s.reports + [] == s.reports;
  }

  lemma {:induction false} StripHead(events: seq<Event>, flight: Flight, closed: Event)
    requires events != [] && !events[0].ReplyRuns?
    requires Strip(events) == NotifyEach(flight.air, flight.clock) + [closed]
    ensures if flight.air == [] then events[0] == closed && Strip(events[1..]) == []
            else && events[0] == Notifies(flight.air[0], flight.clock, [])
                 && Strip(events[1..]) == NotifyEach(flight.air[1..], flight.clock) + [closed]
  {
    assert Strip(events)[0] == events[0] && Strip(events)[1..] == Strip(events[1..]);
    if flight.air != [] {
      var notes := NotifyEach(flight.air[1..], flight.clock);
      assert Strip(events) == [Notifies(flight.air[0], flight.clock, [])] + (notes + [closed]);
    }
  }

  /** A report that arrives under the login key while the link is being given up, whatever reply tasks run meanwhile:
      the next read of a cooperating device returns it along with, or instead of, what the device reported in that
      read. */
  lemma {:induction false} LateReportReturned(
      cfg: Config, past: seq<Event>, frame: Frame, airVector: Vector, version: nat, clock: int, late: seq<Event>,
      io: Io, vector: Vector, device: Device, moves: seq<Move>)
    requires var s := Run(cfg, INITIAL, past);
             s.phase.Disconnecting? && s.interrupt == NoInterrupt && s.protocolVersion < 16
    requires frame.InRange() && version < 16 && IsReport(frame) && ReadingOf(cfg, frame, clock).Ok?
    requires ReadingOf(cfg, frame, clock).value != []
    requires Strip(late) == NotifyEach(Aired(cfg, frame, cfg.loginKey, LOGIN_FLAG, airVector, version), clock)
                            + [Resumes(io, vector)]
    requires device.Honest() && |cfg.uuid + cfg.material + cfg.deviceId| <= 44
    requires FairPlay(cfg, device, Opening(cfg, Run(cfg, INITIAL, past + late)), moves)
    ensures var s, scene := Run(cfg, INITIAL, past), Opening(cfg, Run(cfg, INITIAL, past + late));
            var t, events := Play(cfg, device, scene, moves), EventsOf(cfg, device, scene, moves);
            t.client.phase.Collecting? && t.client.reports == [] ==>
              Run(cfg, INITIAL, past + late + [Begins] + events + QUIET).result
              == Some(Returned(CollectAll(s.reports + [ReadingOf(cfg, frame, clock).value] + t.told)))
  {
    var s := Run(cfg, INITIAL, past);
    Reachable(cfg, past);
    EndToEnd.FrameArrives(cfg.cipher, frame, cfg.loginKey, LOGIN_FLAG, airVector, version, s.assembly);
    var flight := Flight(Aired(cfg, frame, cfg.loginKey, LOGIN_FLAG, airVector, version),
                         Encode(cfg.cipher, frame, cfg.loginKey, LOGIN_FLAG, airVector).value, frame, clock);
    LateHeard(cfg, s, flight, Resumes(io, vector), late);
    RunAppend(cfg, INITIAL, past, late);
    HonestRead(cfg, past + late, device, moves);
  }
}
