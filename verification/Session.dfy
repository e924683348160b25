/** One client's sessions with one device, as a state machine whose steps are the stretches of client.py between two
    awaits. What the radio, the clock and the caller do is the adversary's choice of events. */
module Session {
  import opened Bytes
  import opened Cbc
  import opened Frames
  import opened Fragments
  import opened Reassembly
  import opened DataPoints
  import opened Commands

  const DEFAULT_PROTOCOL_VERSION := 3
  const AUTHENTICATION_FLAG: byte := 0x01
  const LOGIN_FLAG: byte := 0x04
  const SESSION_FLAG: byte := 0x05

  type Vector = v: bytes | |v| == BLOCK_SIZE witness seq(BLOCK_SIZE, _ => 0)

  /** What is fixed for a client: the library primitives and the credentials. `derive` makes the session key from the
      salt the device discloses. */
  datatype Config = Config(
    cipher: Cipher, decoders: Decoders, loginKey: bytes, derive: bytes -> bytes,
    uuid: bytes, material: bytes, deviceId: bytes)

  datatype Kind = AskInfo | AskPair | AskStatus {
    function Code(): CommandCode {
      match this
      case AskInfo => SenderDeviceInfo
      case AskPair => SenderPair
      case AskStatus => SenderDeviceStatus
    }

    /** What a request that is never answered raises. */
    function UnansweredError(): Error {
      if this == AskInfo then HandshakeUnanswered else Unanswered
    }
  }

  /** The future a request waits on, named by the number it was registered under. */
  datatype Future = Waiting | Answered(frame: Frame) | Cancelled

  /** A scheduled reply; `packets` are those still to be written once it has started. */
  datatype Task = Task(frame: Frame, packets: Option<seq<bytes>>)

  datatype Outcome = Returned(points: map<byte, DataPoint>) | Raised(error: Error)

  /** Where the read is suspended. */
  datatype Phase =
    | Idle
    | Connecting
    | Subscribing
    | Writing(kind: Kind, number: nat, packets: seq<bytes>)
    | Awaiting(kind: Kind, number: nat)
    | Collecting(collected: map<byte, DataPoint>)
    | Disconnecting(outcome: Outcome)
  {
    predicate Active() {
      !Idle? && !Disconnecting?
    }
  }

  /** A cancellation that has been requested but not yet delivered; an outer one overrides an inner one. */
  datatype Interrupt = NoInterrupt | WaitTimeout | SessionDeadline | CallerCancel {
    function Rank(): nat {
      match this
      case NoInterrupt => 0
      case WaitTimeout => 1
      case SessionDeadline => 2
      case CallerCancel => 3
    }
  }

  /** How an awaited operation of the radio ends. */
  datatype Io = Succeeds | FailsBleak | FailsTimeout | FailsOther

  datatype Origin = ForRequest(kind: Kind) | ForReply(to: nat, code: nat)

  /** A frame, the packets it was cut into and the protocol version they announce. */
  datatype Sent = Sent(flag: byte, key: bytes, frame: Frame, packets: seq<bytes>, version: nat)

  /** What has happened since the last reset. */
  datatype Log = Log(
    issued: seq<Origin>,                   // one entry per sequence number handed out, in order
    sent: seq<Sent>,                       // frames whose writing began
    wire: seq<(nat, bytes)>,               // packets handed to the radio, each with the number of its frame
    answered: seq<(nat, Frame)>,           // requests completed, with the frame that completed them
    published: seq<seq<DataPoint>>,        // reports put on the queue
    drained: seq<seq<DataPoint>>,          // reports the read took off it
    info: Option<Frame>, paired: Option<Frame>, status: Option<Frame>,  // replies the read acted on
    fired: set<Interrupt>,                 // cancellations requested, since the read began
    failed: set<Io>)                       // ways in which operations the read awaited have failed
  {
    /** The first of these packets is handed to the radio. */
    function Handed(number: nat, packets: seq<bytes>): Log {
      if packets == [] then this else this.(wire := wire + [(number, packets[0])])
    }
  }

  const EMPTY_LOG := Log([], [], [], [], [], [], None, None, None, {}, {})

  datatype State = State(
    link: bool, sessionKey: Option<bytes>, authenticationKey: Option<bytes>, protocolVersion: nat,
    assembly: Assembly, pending: set<nat>, futures: map<nat, Future>, reports: seq<seq<DataPoint>>,
    counter: nat, background: set<Task>, phase: Phase, interrupt: Interrupt,
    result: Option<Outcome>, log: Log, evidence: Log, links: nat, disconnects: nat)

  const INITIAL := State(
    false, None, None, DEFAULT_PROTOCOL_VERSION, FRESH, {}, map[], [], 1, {}, Idle, NoInterrupt,
    None, EMPTY_LOG, EMPTY_LOG, 0, 0)

  datatype Event =
    | Begins
    | Interrupts(interrupt: Interrupt)
    | Resumes(io: Io, vector: Vector)
    | Notifies(chunk: bytes, clock: int, clockReply: bytes)
    | ReplyRuns(task: Task, io: Io, vector: Vector)

  function CancelPending(futures: map<nat, Future>, pending: set<nat>): map<nat, Future> {
    map n | n in futures :: if n in pending && futures[n].Waiting? then Cancelled else futures[n]
  }

  /** The reset block of the disconnect: everything but the authentication key and the protocol version. */
  function Reset(s: State): State {
    s.(link := false, sessionKey := None, assembly := FRESH, pending := {},
       futures := CancelPending(s.futures, s.pending), reports := [], counter := 1, background := {},
       interrupt := NoInterrupt, log := EMPTY_LOG, evidence := s.log)
  }

  /** Leave the session with an outcome: reset, then disconnect the link if there is one. */
  function Unwind(s: State, outcome: Outcome): State {
    var t := Reset(s);
    if s.link
    then t.(phase := Disconnecting(outcome), disconnects := s.disconnects + 1)
    else t.(phase := Idle, result := Some(outcome))
  }

  /** An operation the read awaits has failed. */
  function Failed(s: State, io: Io): State {
    s.(log := s.log.(failed := s.log.failed + {io}))
  }

  function Forget(s: State, number: nat): State {
    s.(pending := s.pending - {number})
  }

  /** The packets of one frame, or what stands in the way of writing them. */
  function PacketsOf(cfg: Config, s: State, frame: Frame, key: bytes, flag: byte, vector: Vector): Result<seq<bytes>> {
    if !s.link then Err(LinkClosed)
    else
      match Encode(cfg.cipher, frame, key, flag, vector)
      case Err(e) => Err(e)
      case Ok(payload) => Packets(payload, s.protocolVersion)
  }

  /** Take the next sequence number and register a future under it. */
  function Register(s: State, kind: Kind): State {
    s.(counter := s.counter + 1, pending := s.pending + {s.counter}, futures := s.futures[s.counter := Waiting],
       log := s.log.(issued := s.log.issued + [ForRequest(kind)]))
  }

  /** Register a request and begin to write it. */
  function StartRequest(cfg: Config, s: State, kind: Kind, data: bytes, key: Option<bytes>, flag: byte, vector: Vector)
    : State
  {
    var number := s.counter;
    var t := Register(s, kind);
    var chosen := if key.Some? then key else s.sessionKey;
    if chosen.None? then Unwind(Forget(t, number), Raised(HandshakeHasNotRun))
    else
      var frame := Frame(number, 0, kind.Code().Value(), data);
      match PacketsOf(cfg, t, frame, chosen.value, flag, vector)
      case Err(e) => Unwind(Forget(t, number), Raised(e))
      case Ok(packets) =>
        t.(phase := if packets == [] then Awaiting(kind, number) else Writing(kind, number, packets),
           log := t.log.(sent := t.log.sent + [Sent(flag, chosen.value, frame, packets, s.protocolVersion)])
                       .Handed(number, packets))
  }

  /** Take the session parameters the device disclosed. */
  function Adopt(cfg: Config, s: State, info: DeviceInfo, frame: Frame): State {
    s.(protocolVersion := info.protocolVersion, authenticationKey := Some(info.authKey),
       sessionKey := Some(cfg.derive(info.srand)), log := s.log.(info := Some(frame)))
  }

  /** Act on the reply a request was answered with. */
  function Proceed(cfg: Config, s: State, kind: Kind, frame: Frame, vector: Vector): State {
    match kind
    case AskInfo =>
      (match ParseDeviceInfo(frame.data)
       case Err(e) => Unwind(s, Raised(e))
       case Ok(info) =>
         var t := Adopt(cfg, s, info, frame);
         match PairingRequest(cfg.uuid, cfg.material, cfg.deviceId)
         case Err(e) => Unwind(t, Raised(e))
         case Ok(request) => StartRequest(cfg, t, AskPair, request, None, SESSION_FLAG, vector))
    case AskPair =>
      (match VerifyPairingResult(frame.data)
       case Err(e) => Unwind(s.(log := s.log.(paired := Some(frame))), Raised(e))
       case Ok(_) =>
         StartRequest(cfg, s.(log := s.log.(paired := Some(frame))), AskStatus, [], None, SESSION_FLAG, vector))
    case AskStatus =>
      s.(phase := Collecting(map[]), log := s.log.(status := Some(frame)))
  }

  function Collect(collected: map<byte, DataPoint>, report: seq<DataPoint>): map<byte, DataPoint>
    decreases |report|
  {
    if report == [] then collected else Collect(collected[report[0].identifier := report[0]], report[1..])
  }

  /** Deliver the requested cancellation at the point where the read is suspended. */
  function Interrupted(s: State): State {
    var t := if s.phase.Writing? || s.phase.Awaiting? then Forget(s, s.phase.number) else s;
    match s.interrupt
    case NoInterrupt => s
    case CallerCancel => if s.phase.Idle? then s else EndEarly(t, Raised(CallerCancelled))
    case SessionDeadline => if s.phase.Active() then Unwind(t, Raised(SessionOutlasted)) else s
    case WaitTimeout =>
      match s.phase
      case Connecting => Unwind(t, Raised(ConnectFailed))
      case Awaiting(kind, _) => Unwind(t, Raised(kind.UnansweredError()))
      case Collecting(collected) => Unwind(t, Returned(collected))
      case Disconnecting(outcome) => EndEarly(t, outcome)
      case _ => s
  }

  /** The disconnect is not awaited any longer, or not reached yet. */
  function EndEarly(s: State, outcome: Outcome): State {
    if s.phase.Disconnecting? then s.(phase := Idle, interrupt := NoInterrupt, result := Some(outcome))
    else Unwind(s, outcome)
  }

  /** One packet of a request has been written, or failed to be. */
  function PacketWritten(s: State, io: Io): State
    requires s.phase.Writing?
  {
    var Writing(kind, number, packets) := s.phase;
    match io
    case Succeeds =>
      if |packets| <= 1 then s.(phase := Awaiting(kind, number))
      else s.(phase := Writing(kind, number, packets[1..]), log := s.log.Handed(number, packets[1..]))
    case FailsBleak => Unwind(Failed(Forget(s, number), io), Raised(WriteFailed))
    case FailsTimeout => Unwind(Failed(Forget(s, number), io), Raised(kind.UnansweredError()))
    case FailsOther => Unwind(Failed(Forget(s, number), io), Raised(ForeignError))
  }

  /** Drain one report into the collected map. */
  function TakeReport(s: State): State
    requires s.phase.Collecting? && s.reports != []
  {
    s.(phase := Collecting(Collect(s.phase.collected, s.reports[0])), reports := s.reports[1..],
       log := s.log.(drained := s.log.drained + [s.reports[0]]))
  }

  /** The read is resumed by the operation it awaits, or by a cancellation. */
  function Resume(cfg: Config, s: State, io: Io, vector: Vector): State {
    if s.interrupt != NoInterrupt then Interrupted(s)
    else
      match s.phase
      case Idle => s
      case Connecting =>
        if io.Succeeds? then s.(link := true, links := s.links + 1, phase := Subscribing)
        else Unwind(Failed(s, io), Raised(ConnectFailed))
      case Subscribing =>
        if io.Succeeds? then StartRequest(cfg, s, AskInfo, [], Some(cfg.loginKey), LOGIN_FLAG, vector)
        else Unwind(Failed(s, io), Raised(ConnectFailed))
      case Writing(kind, number, packets) => PacketWritten(s, io)
      case Awaiting(kind, number) =>
        if number in s.futures && s.futures[number].Answered?
        then Proceed(cfg, Forget(s, number), kind, s.futures[number].frame, vector)
        else s
      case Collecting(collected) => if s.reports == [] then s else TakeReport(s)
      case Disconnecting(outcome) => EndEarly(s, outcome)
  }

  /** Whether a cancellation of this kind can be requested where the read is suspended. */
  predicate Interruptible(phase: Phase, interrupt: Interrupt) {
    match interrupt
    case NoInterrupt => false
    case WaitTimeout => phase.Connecting? || phase.Awaiting? || phase.Collecting? || phase.Disconnecting?
    case SessionDeadline => phase.Active()
    case CallerCancel => !phase.Idle?
  }

  function RequestInterrupt(s: State, interrupt: Interrupt): State {
    if !Interruptible(s.phase, interrupt) || interrupt.Rank() <= s.interrupt.Rank() then s
    else
      var cancelled :=
        s.phase.Awaiting? && s.phase.number in s.futures && s.futures[s.phase.number].Waiting?;
      s.(interrupt := interrupt, log := s.log.(fired := s.log.fired + {interrupt}),
         futures := if cancelled then s.futures[s.phase.number := Cancelled] else s.futures)
  }

  function KeyFor(cfg: Config, s: State, flag: byte): Option<bytes> {
    if flag == AUTHENTICATION_FLAG then s.authenticationKey
    else if flag == LOGIN_FLAG then Some(cfg.loginKey)
    else if flag == SESSION_FLAG then s.sessionKey
    else None
  }

  function Publish(s: State, points: seq<DataPoint>): State {
    if points == [] then s
    else s.(reports := s.reports + [points], log := s.log.(published := s.log.published + [points]))
  }

  /** Schedule a reply to a frame the device sent on its own. */
  function ReplyTo(s: State, frame: Frame, data: bytes): State {
    s.(counter := s.counter + 1,
       background := s.background + {Task(Frame(s.counter, frame.sequenceNumber, frame.code, data), None)},
       log := s.log.(issued := s.log.issued + [ForReply(frame.sequenceNumber, frame.code)]))
  }

  /** The datapoints of a report frame, plain or timed. */
  function ReportOf(cfg: Config, frame: Frame, timed: bool, clock: int): Result<seq<DataPoint>> {
    if !timed then ParsePoints(cfg.decoders, frame.data, 0, Reception(clock))
    else
      match ParseTimestamp(cfg.decoders, frame.data, 0)
      case Err(e) => Err(e)
      case Ok((moment, position)) => ParsePoints(cfg.decoders, frame.data, position, moment)
  }

  /** Act on a frame the device sent on its own; the error is what reading it raises. */
  function HandleDeviceCommand(cfg: Config, s: State, code: CommandCode, frame: Frame, clock: int, clockReply: bytes)
    : (State, Result<()>)
  {
    match code
    case ReceiveDataPoint | ReceiveTimeDataPoint =>
      (match ReportOf(cfg, frame, code.ReceiveTimeDataPoint?, clock)
       case Err(e) => (s, Err(e))
       case Ok(points) => (ReplyTo(Publish(s, points), frame, []), Ok(())))
    case ReceiveUnixTimeRequest | ReceiveLocalTimeRequest => (ReplyTo(s, frame, clockReply), Ok(()))
    case _ => (s, Ok(()))
  }

  /** Complete the request a frame answers, or handle the frame here. */
  function Dispatch(cfg: Config, s: State, frame: Frame, clock: int, clockReply: bytes): (State, Result<()>) {
    var number := frame.responseTo;
    var t := Forget(s, number);
    if number in s.pending && number in s.futures && s.futures[number].Waiting?
    then (t.(futures := s.futures[number := Answered(frame)],
             log := s.log.(answered := s.log.answered + [(number, frame)])), Ok(()))
    else
      match CommandCode.FromValue(frame.code)
      case None => (t, Ok(()))
      case Some(code) => HandleDeviceCommand(cfg, t, code, frame, clock, clockReply)
  }

  /** One notification: reassemble, decrypt, dispatch; whatever is raised on the way is dropped with the frame. */
  function Notify(cfg: Config, s: State, chunk: bytes, clock: int, clockReply: bytes): (State, Result<()>) {
    var (assembly, fed) := FeedChunk(s.assembly, chunk);
    var t := s.(assembly := assembly);
    match fed
    case Err(e) => (t, Err(e))
    case Ok(None) => (t, Ok(()))
    case Ok(Some(payload)) =>
      match SecurityFlagOf(payload)
      case Err(e) => (t, Err(e))
      case Ok(flag) =>
        match KeyFor(cfg, t, flag)
        case None => (t, Ok(()))
        case Some(key) =>
          match Decode(cfg.cipher, payload, key)
          case Err(e) => (t, Err(e))
          case Ok(frame) => Dispatch(cfg, t, frame, clock, clockReply)
  }

  /** A reply is on its way under the session key. */
  function ReplySent(s: State, frame: Frame, packets: seq<bytes>): Sent
    requires s.sessionKey.Some?
  {
    Sent(SESSION_FLAG, s.sessionKey.value, frame, packets, s.protocolVersion)
  }

  /** A reply task runs up to its next write; any failure ends it and is not heard of again. */
  function RunReply(cfg: Config, s: State, task: Task, io: Io, vector: Vector): State {
    if task !in s.background then s
    else
      var t := s.(background := s.background - {task});
      match task.packets
      case None =>
        if s.sessionKey.None? then t
        else
          (match PacketsOf(cfg, s, task.frame, s.sessionKey.value, SESSION_FLAG, vector)
           case Err(_) => t
           case Ok(packets) =>
             t.(background := t.background + {Task(task.frame, Some(packets))},
                log := t.log.(sent := t.log.sent + [ReplySent(s, task.frame, packets)])
                            .Handed(task.frame.sequenceNumber, packets)))
      case Some(packets) =>
        if !io.Succeeds? || |packets| <= 1 then t
        else t.(background := t.background + {Task(task.frame, Some(packets[1..]))},
                log := t.log.Handed(task.frame.sequenceNumber, packets[1..]))
  }

  function Step(cfg: Config, s: State, event: Event): State {
    match event
    case Begins =>
      if s.phase.Idle? then s.(phase := Connecting, result := None, log := s.log.(fired := {})) else s
    case Interrupts(interrupt) => RequestInterrupt(s, interrupt)
    case Resumes(io, vector) => Resume(cfg, s, io, vector)
    case Notifies(chunk, clock, clockReply) => Notify(cfg, s, chunk, clock, clockReply).0
    case ReplyRuns(task, io, vector) => RunReply(cfg, s, task, io, vector)
  }

  function Run(cfg: Config, s: State, events: seq<Event>): State
    decreases |events|
  {
    if events == [] then s else Run(cfg, Step(cfg, s, events[0]), events[1..])
  }

  lemma {:induction false} RunAppend(cfg: Config, s: State, left: seq<Event>, right: seq<Event>)
    ensures Run(cfg, s, left + right) == Run(cfg, Run(cfg, s, left), right)
    decreases |left|
  {
    if left == [] {
      assert left + right == right;
    } else {
      assert (left + right)[1..] == left[1..] + right;
      RunAppend(cfg, Step(cfg, s, left[0]), left[1..], right);
    }
  }

  lemma {:induction false} RunOne(cfg: Config, s: State, event: Event)
    ensures Run(cfg, s, [event]) == Step(cfg, s, event)
  {
    assert Run(cfg, Step(cfg, s, event), [event][1..]) == Step(cfg, s, event);
  }

  lemma {:induction false} RunLast(cfg: Config, s: State, events: seq<Event>)
    requires events != []
    ensures Run(cfg, s, events) == Step(cfg, Run(cfg, s, events[..|events| - 1]), events[|events| - 1])
  {
    var n := |events| - 1;
    assert events == events[..n] + [events[n]];
    RunAppend(cfg, s, events[..n], [events[n]]);
    RunOne(cfg, Run(cfg, s, events[..n]), events[n]);
  }
}
