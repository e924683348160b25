/** The client as client.py writes it: an object whose methods update its fields, each proved to take exactly the step
    the state machine of `Session` specifies. */
module Client {
  import opened Bytes
  import opened Cbc
  import opened Frames
  import opened Fragments
  import opened Reassembly
  import opened DataPoints
  import opened Commands
  import opened Session
  import opened Guarantees

  class TuyaBleClient {
    const cfg: Config
    var link: bool
    var sessionKey: Option<bytes>
    var authenticationKey: Option<bytes>
    var protocolVersion: nat
    var reassembler: PacketReassembler
    var pending: set<nat>
    var futures: map<nat, Future>
    var reports: seq<seq<DataPoint>>
    var sequenceNumber: nat
    var background: set<Task>
    var phase: Phase
    var interrupt: Interrupt
    var result: Option<Outcome>
    ghost var log: Log
    ghost var evidence: Log
    ghost var links: nat
    ghost var disconnects: nat

    ghost function View(): State
      reads this, reassembler
    {
      State(link, sessionKey, authenticationKey, protocolVersion, reassembler.View(), pending, futures, reports,
            sequenceNumber, background, phase, interrupt, result, log, evidence, links, disconnects)
    }

    constructor (cfg: Config)
      ensures this.cfg == cfg && View() == INITIAL && fresh(reassembler)
    {
      this.cfg := cfg;
      link, sessionKey, authenticationKey, protocolVersion := false, None, None, DEFAULT_PROTOCOL_VERSION;
      reassembler := new PacketReassembler();
      pending, futures, reports, sequenceNumber, background := {}, map[], [], 1, {};
      phase, interrupt, result := Idle, NoInterrupt, None;
      log, evidence, links, disconnects := EMPTY_LOG, EMPTY_LOG, 0, 0;
    }

    /** A read is asked for. */
    method Begin()
      modifies this
      ensures View() == Step(cfg, old(View()), Begins) && reassembler == old(reassembler)
    {
      if phase.Idle? {
        phase, result, log := Connecting, None, log.(fired := {});
      }
    }

    method CancelWaiting()
      modifies this`background, this`futures, this`pending
      ensures background == {} && pending == {} && futures == CancelPending(old(futures), old(pending))
    {
      background := {};
      futures := CancelPending(futures, pending);
      pending := {};
    }

    /** The reset block of the disconnect. */
    method ResetSession()
      modifies this
      ensures View() == Reset(old(View())) && fresh(reassembler)
    {
      CancelWaiting();
      link, sessionKey, sequenceNumber := false, None, 1;
      reassembler := new PacketReassembler();
      reports := [];
      interrupt, evidence, log := NoInterrupt, log, EMPTY_LOG;
    }

    /** Leave the session with an outcome, disconnecting the link if there is one. */
    method Leave(outcome: Outcome)
      modifies this
      ensures View() == Unwind(old(View()), outcome) && fresh(reassembler)
    {
      var client := link;
      ResetSession();
      if !client {
        phase, result := Idle, Some(outcome);
        return;
      }
      phase := Disconnecting(outcome);
      disconnects := disconnects + 1;
    }

    method NextSequenceNumber(ghost origin: Origin) returns (number: nat)
      modifies this`sequenceNumber, this`log
      ensures number == old(sequenceNumber) && sequenceNumber == number + 1
      ensures log == old(log).(issued := old(log).issued + [origin])
    {
      number := sequenceNumber;
      sequenceNumber := sequenceNumber + 1;
      log := log.(issued := log.issued + [origin]);
    }

    /** Encrypt one frame and cut it into packets, ready to be written. */
    method PreparePackets(frame: Frame, key: bytes, flag: byte, vector: Vector) returns (r: Result<seq<bytes>>)
      ensures r == PacketsOf(cfg, View(), frame, key, flag, vector)
    {
      if !link {
        return Err(LinkClosed);
      }
      var payload := EncodeFrame(cfg.cipher, frame, key, flag, vector);
      if payload.Err? {
        return Err(payload.error);
      }
      RoundTrip(cfg.cipher, frame, key, flag, vector);
      ShortPayloadSplits(payload.value);
      r := BuildPackets(payload.value, protocolVersion);
    }

    method RegisterRequest(kind: Kind) returns (number: nat)
      modifies this
      ensures View() == Register(old(View()), kind) && number == old(sequenceNumber)
      ensures reassembler == old(reassembler)
    {
      number := NextSequenceNumber(ForRequest(kind));
      futures := futures[number := Waiting];
      pending := pending + {number};
    }

    /** The request fails before anything is written. */
    method GiveUp(number: nat, error: Error)
      modifies this
      ensures View() == Unwind(Forget(old(View()), number), Raised(error)) && fresh(reassembler)
    {
      pending := pending - {number};
      Leave(Raised(error));
    }

    /** Send one frame, registering the future its reply will complete. */
    method Request(kind: Kind, data: bytes, key: Option<bytes>, flag: byte, vector: Vector)
      modifies this
      ensures View() == StartRequest(cfg, old(View()), kind, data, key, flag, vector)
      ensures reassembler == old(reassembler) || fresh(reassembler)
    {
      var number := RegisterRequest(kind);
      var chosen := if key.Some? then key else sessionKey;
      if chosen.None? {
        GiveUp(number, HandshakeHasNotRun);
        return;
      }
      var frame := Frame(number, 0, kind.Code().Value(), data);
      var packets := PreparePackets(frame, chosen.value, flag, vector);
      if packets.Err? {
        GiveUp(number, packets.error);
        return;
      }
      BeginWriting(kind, number, packets.value, Sent(flag, chosen.value, frame, packets.value, protocolVersion));
    }

    method BeginWriting(kind: Kind, number: nat, packets: seq<bytes>, ghost sent: Sent)
      modifies this`phase, this`log
      ensures phase == if packets == [] then Awaiting(kind, number) else Writing(kind, number, packets)
      ensures log == old(log).(sent := old(log).sent + [sent]).Handed(number, packets)
    {
      phase := if packets == [] then Awaiting(kind, number) else Writing(kind, number, packets);
      log := log.(sent := log.sent + [sent]).Handed(number, packets);
    }

    method AdoptDeviceInfo(info: DeviceInfo, ghost frame: Frame)
      modifies this
      ensures View() == Adopt(cfg, old(View()), info, frame) && reassembler == old(reassembler)
    {
      protocolVersion := info.protocolVersion;
      authenticationKey := Some(info.authKey);
      sessionKey := Some(cfg.derive(info.srand));
      log := log.(info := Some(frame));
    }

    /** The handshake and the status request, from one answered request to the next. */
    method Continue(kind: Kind, frame: Frame, vector: Vector)
      modifies this
      ensures View() == Proceed(cfg, old(View()), kind, frame, vector)
      ensures reassembler == old(reassembler) || fresh(reassembler)
    {
      match kind {
        case AskInfo =>
          var info := ParseDeviceInfo(frame.data);
          if info.Err? {
            Leave(Raised(info.error));
            return;
          }
          AdoptDeviceInfo(info.value, frame);
          var request := PairingRequest(cfg.uuid, cfg.material, cfg.deviceId);
          if request.Err? {
            Leave(Raised(request.error));
            return;
          }
          Request(AskPair, request.value, None, SESSION_FLAG, vector);
        case AskPair =>
          log := log.(paired := Some(frame));
          var verdict := VerifyPairingResult(frame.data);
          if verdict.Err? {
            Leave(Raised(verdict.error));
            return;
          }
          Request(AskStatus, [], None, SESSION_FLAG, vector);
        case AskStatus =>
          log := log.(status := Some(frame));
          phase := Collecting(map[]);
      }
    }

    /** Fill the collected map from one report, in place. */
    method CollectReport(collected: map<byte, DataPoint>, report: seq<DataPoint>) returns (merged: map<byte, DataPoint>)
      ensures merged == Collect(collected, report)
    {
      merged := collected;
      for i := 0 to |report|
        invariant Collect(merged, report[i..]) == Collect(collected, report)
      {
        merged := merged[report[i].identifier := report[i]];
        assert report[i..][1..] == report[i + 1..];
      }
    }

    method Finish(outcome: Outcome)
      modifies this
      ensures View() == EndEarly(old(View()), outcome)
      ensures reassembler == old(reassembler) || fresh(reassembler)
    {
      if phase.Disconnecting? {
        phase, interrupt, result := Idle, NoInterrupt, Some(outcome);
      } else {
        Leave(outcome);
      }
    }

    /** A cancellation reaches the read: the pending entry is popped, the timeout or cancellation becomes an outcome. */
    method DeliverInterrupt()
      modifies this
      ensures View() == Interrupted(old(View()))
      ensures reassembler == old(reassembler) || fresh(reassembler)
    {
      if interrupt.CallerCancel? && phase.Idle? {
        return;
      }
      if interrupt.SessionDeadline? && !phase.Active() {
        return;
      }
      if interrupt.NoInterrupt? || (interrupt.WaitTimeout? && (phase.Idle? || phase.Subscribing? || phase.Writing?)) {
        return;
      }
      if phase.Writing? || phase.Awaiting? {
        pending := pending - {phase.number};
      }
      if interrupt.CallerCancel? {
        Finish(Raised(CallerCancelled));
      } else if interrupt.SessionDeadline? {
        Leave(Raised(SessionOutlasted));
      } else {
        match phase {
          case Connecting => Leave(Raised(ConnectFailed));
          case Awaiting(kind, _) => Leave(Raised(kind.UnansweredError()));
          case Collecting(collected) => Leave(Returned(collected));
          case Disconnecting(outcome) => Finish(outcome);
        }
      }
    }

    ghost method RecordFailure(io: Io)
      modifies this`log
      ensures log == old(log).(failed := old(log).failed + {io})
    {
      log := log.(failed := log.failed + {io});
    }

    method FinishWrite(io: Io)
      requires phase.Writing?
      modifies this
      ensures View() == PacketWritten(old(View()), io)
      ensures reassembler == old(reassembler) || fresh(reassembler)
    {
      var Writing(kind, number, packets) := phase;
      match io {
        case Succeeds =>
          if |packets| <= 1 {
            phase := Awaiting(kind, number);
          } else {
            phase := Writing(kind, number, packets[1..]);
            log := log.Handed(number, packets[1..]);
          }
        case FailsBleak =>
          RecordFailure(io);
          GiveUp(number, WriteFailed);
        case FailsTimeout =>
          RecordFailure(io);
          GiveUp(number, kind.UnansweredError());
        case FailsOther =>
          RecordFailure(io);
          GiveUp(number, ForeignError);
      }
    }

    method DrainReport()
      requires phase.Collecting? && reports != []
      modifies this
      ensures View() == TakeReport(old(View())) && reassembler == old(reassembler)
    {
      var report := reports[0];
      reports := reports[1..];
      log := log.(drained := log.drained + [report]);
      var merged := CollectReport(phase.collected, report);
      phase := Collecting(merged);
    }

    /** The two awaits of opening the link: the connection, then the subscription. */
    method Connect(io: Io, vector: Vector)
      requires (phase.Connecting? || phase.Subscribing?) && interrupt == NoInterrupt
      modifies this
      ensures View() == Resume(cfg, old(View()), io, vector)
      ensures reassembler == old(reassembler) || fresh(reassembler)
    {
      if !io.Succeeds? {
        RecordFailure(io);
        Leave(Raised(ConnectFailed));
        return;
      }
      if phase.Connecting? {
        link, links, phase := true, links + 1, Subscribing;
        return;
      }
      Request(AskInfo, [], Some(cfg.loginKey), LOGIN_FLAG, vector);
    }

    /** The read goes on after an await: it stays in its session, or leaves it torn down with the link given back. */
    method ResumeRead(io: Io, vector: Vector)
      modifies this
      ensures View() == Resume(cfg, old(View()), io, vector)
      ensures old(phase).Active() ==> StaysOrLeaves(old(View()), View())
      ensures reassembler == old(reassembler) || fresh(reassembler)
    {
      if phase.Active() {
        ResumeExit(cfg, View(), io, vector);
      }
      GoOn(io, vector);
    }

    method GoOn(io: Io, vector: Vector)
      modifies this
      ensures View() == Resume(cfg, old(View()), io, vector)
      ensures reassembler == old(reassembler) || fresh(reassembler)
    {
      if interrupt != NoInterrupt {
        DeliverInterrupt();
        return;
      }
      match phase {
        case Idle =>
        case Connecting =>
          Connect(io, vector);
        case Subscribing =>
          Connect(io, vector);
        case Writing(_, _, _) =>
          FinishWrite(io);
        case Awaiting(kind, number) =>
          if number in futures && futures[number].Answered? {
            pending := pending - {number};
            Continue(kind, futures[number].frame, vector);
          }
        case Collecting(_) =>
          if reports != [] {
            DrainReport();
          }
        case Disconnecting(outcome) =>
          Finish(outcome);
      }
    }

    /** A timer fires or the caller cancels: the task and the future it waits on are cancelled. */
    method Cancel(kind: Interrupt)
      modifies this
      ensures View() == RequestInterrupt(old(View()), kind) && reassembler == old(reassembler)
    {
      if !Interruptible(phase, kind) || kind.Rank() <= interrupt.Rank() {
        return;
      }
      interrupt, log := kind, log.(fired := log.fired + {kind});
      if phase.Awaiting? && phase.number in futures && futures[phase.number].Waiting? {
        futures := futures[phase.number := Cancelled];
      }
    }

    /** Without a session key, only the login key or an adopted authentication key is ever picked. */
    method PickKey(flag: byte) returns (key: Option<bytes>)
      ensures key == KeyFor(cfg, View(), flag)
      ensures sessionKey.None? && key.Some? ==>
                (flag == LOGIN_FLAG && key.value == cfg.loginKey)
                || (flag == AUTHENTICATION_FLAG && authenticationKey == key)
    {
      if flag == AUTHENTICATION_FLAG {
        return authenticationKey;
      }
      if flag == LOGIN_FLAG {
        return Some(cfg.loginKey);
      }
      if flag == SESSION_FLAG {
        return sessionKey;
      }
      return None;
    }

    method PublishReport(points: seq<DataPoint>)
      modifies this
      ensures View() == Publish(old(View()), points) && reassembler == old(reassembler)
    {
      if points != [] {
        reports := reports + [points];
        log := log.(published := log.published + [points]);
      }
    }

    method Reply(frame: Frame, data: bytes)
      modifies this
      ensures View() == ReplyTo(old(View()), frame, data) && reassembler == old(reassembler)
    {
      var number := NextSequenceNumber(ForReply(frame.sequenceNumber, frame.code));
      background := background + {Task(Frame(number, frame.sequenceNumber, frame.code, data), None)};
    }

    method HandleCommand(code: CommandCode, frame: Frame, clock: int, clockReply: bytes) returns (r: Result<()>)
      modifies this
      ensures (View(), r) == HandleDeviceCommand(cfg, old(View()), code, frame, clock, clockReply)
      ensures reassembler == old(reassembler)
    {
      match code {
        case ReceiveDataPoint =>
          var points := ParseDataPoints(cfg.decoders, frame.data, 0, Reception(clock));
          if points.Err? {
            return Err(points.error);
          }
          PublishReport(points.value);
          Reply(frame, []);
        case ReceiveTimeDataPoint =>
          var stamp := ParseTimestamp(cfg.decoders, frame.data, 0);
          if stamp.Err? {
            return Err(stamp.error);
          }
          var (moment, position) := stamp.value;
          var points := ParseDataPoints(cfg.decoders, frame.data, position, moment);
          if points.Err? {
            return Err(points.error);
          }
          PublishReport(points.value);
          Reply(frame, []);
        case ReceiveUnixTimeRequest =>
          Reply(frame, clockReply);
        case ReceiveLocalTimeRequest =>
          Reply(frame, clockReply);
        case _ =>
      }
      return Ok(());
    }

    method DispatchFrame(frame: Frame, clock: int, clockReply: bytes) returns (r: Result<()>)
      modifies this
      ensures (View(), r) == Dispatch(cfg, old(View()), frame, clock, clockReply)
      ensures reassembler == old(reassembler)
    {
      var number := frame.responseTo;
      var registered := number in pending;
      pending := pending - {number};
      if registered && number in futures && futures[number].Waiting? {
        futures := futures[number := Answered(frame)];
        log := log.(answered := log.answered + [(number, frame)]);
        return Ok(());
      }
      var code := CommandCode.FromValue(frame.code);
      if code.None? {
        return Ok(());
      }
      r := HandleCommand(code.value, frame, clock, clockReply);
    }

    /** The notification callback; `dropped` is the error it swallowed, which is always one of the SDK's. Neither link,
        keys nor the course of the read are touched; queue, counter and replies change together or not at all. */
    method OnNotification(chunk: bytes, clock: int, clockReply: bytes) returns (dropped: Option<Error>)
      modifies this, reassembler
      ensures var (s, r) := Notify(cfg, old(View()), chunk, clock, clockReply);
              View() == s && dropped == if r.Err? then Some(r.error) else None
      ensures dropped.Some? ==> dropped.value.IsTuyaBleError()
      ensures Keeps(old(View()), View())
      ensures AllOrNothing(old(View()), (View(), if dropped.Some? then Err(dropped.value) else Ok(())))
      ensures reassembler == old(reassembler)
    {
      NotifyKeeps(cfg, View(), chunk, clock, clockReply);
      NotifyAllOrNothing(cfg, View(), chunk, clock, clockReply);
      dropped := Receive(chunk, clock, clockReply);
    }

    method Receive(chunk: bytes, clock: int, clockReply: bytes) returns (dropped: Option<Error>)
      modifies this, reassembler
      ensures var (s, r) := Notify(cfg, old(View()), chunk, clock, clockReply);
              View() == s && dropped == if r.Err? then Some(r.error) else None
      ensures reassembler == old(reassembler)
    {
      var fed := reassembler.Feed(chunk);
      if fed.Err? {
        return Some(fed.error);
      }
      if fed.value.None? {
        return None;
      }
      var payload := fed.value.value;
      var flag := SecurityFlagOf(payload);
      if flag.Err? {
        return Some(flag.error);
      }
      var key := PickKey(flag.value);
      if key.None? {
        return None;
      }
      var frame := Decode(cfg.cipher, payload, key.value);
      if frame.Err? {
        return Some(frame.error);
      }
      var handled := DispatchFrame(frame.value, clock, clockReply);
      if handled.Err? {
        return Some(handled.error);
      }
      return None;
    }

    /** One stretch of a reply task. */
    method RunReplyTask(task: Task, io: Io, vector: Vector)
      modifies this
      ensures View() == RunReply(cfg, old(View()), task, io, vector) && reassembler == old(reassembler)
      ensures phase == old(phase) && reports == old(reports) && pending == old(pending) && futures == old(futures)
      ensures link == old(link) && sessionKey == old(sessionKey) && sequenceNumber == old(sequenceNumber)
    {
      if task !in background {
        return;
      }
      match task.packets {
        case None =>
          if sessionKey.None? {
            background := background - {task};
            return;
          }
          var packets := PreparePackets(task.frame, sessionKey.value, SESSION_FLAG, vector);
          background := background - {task};
          if packets.Ok? {
            background := background + {Task(task.frame, Some(packets.value))};
            ghost var sent := Sent(SESSION_FLAG, sessionKey.value, task.frame, packets.value, protocolVersion);
            log := log.(sent := log.sent + [sent])
                      .Handed(task.frame.sequenceNumber, packets.value);
          }
        case Some(packets) =>
          background := background - {task};
          if io.Succeeds? && |packets| > 1 {
            background := background + {Task(task.frame, Some(packets[1..]))};
            log := log.Handed(task.frame.sequenceNumber, packets[1..]);
          }
      }
    }
  }
}
