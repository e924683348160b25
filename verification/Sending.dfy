/** What a session sends: every request whole, with the data it stands for, under the version the device announced. */
module Sending {
  import opened Bytes
  import opened Frames
  import opened Reassembly
  import opened DataPoints
  import opened Commands
  import opened Session
  import opened Invariants
  import opened Preservation
  import opened Guarantees
  import opened Wire

  // ----- requests are written out -----

  /** Every packet of the frame sent under this number has been handed to the radio. */
  ghost predicate WrittenOut(sent: seq<Sent>, wire: seq<(nat, bytes)>, n: nat) {
    && SentUnder(sent, n)
    && forall i :: 0 <= i < |sent| && sent[i].frame.sequenceNumber == n ==> Written(wire, n) == sent[i].packets
  }

  /** Every request but the one being written has been written out. */
  ghost predicate RequestsOut(issued: seq<Origin>, sent: seq<Sent>, wire: seq<(nat, bytes)>, phase: Phase) {
    forall n: nat :: 0 < n <= |issued| && issued[n - 1].ForRequest? && !(phase.Writing? && phase.number == n) ==>
      WrittenOut(sent, wire, n)
  }

  /** Packets of another frame do not change that. */
  lemma {:induction false} OutWithMore(sent: seq<Sent>, wire: seq<(nat, bytes)>, n: nat, m: nat, packet: bytes)
    requires WrittenOut(sent, wire, n) && m != n
    ensures WrittenOut(sent, wire + [(m, packet)], n)
  {
    WrittenMore(wire, m, packet, n);
  }

  lemma {:induction false} OutWithAnother(sent: seq<Sent>, wire: seq<(nat, bytes)>, n: nat, begun: Sent, packet: bytes)
    requires WrittenOut(sent, wire, n) && begun.frame.sequenceNumber != n
    ensures WrittenOut(sent + [begun], wire + [(begun.frame.sequenceNumber, packet)], n)
  {
    OneMoreSent(sent, begun, n);
    OutWithMore(sent, wire, n, begun.frame.sequenceNumber, packet);
  }

  /** The last packet handed over completes the frame. */
  lemma {:induction false} LastPacket(sent: seq<Sent>, wire: seq<(nat, bytes)>, n: nat, packets: seq<bytes>)
    requires Continues(sent, wire, n, packets) && |packets| <= 1
    ensures WrittenOut(sent, wire, n)
  {
    forall i | 0 <= i < |sent| && sent[i].frame.sequenceNumber == n
      ensures Written(wire, n) == sent[i].packets
    {
      assert packets[1..] == [] && Written(wire, n) + [] == Written(wire, n);
    }
  }

  // ----- what is in a frame -----

  /** What a frame carries for what its number was handed out for. */
  predicate Carries(cfg: Config, origin: Origin, frame: Frame) {
    match origin
    case ForRequest(AskInfo) => frame.code == 0 && frame.responseTo == 0 && frame.data == []
    case ForRequest(AskPair) =>
      frame.code == 1 && frame.responseTo == 0 && LaidOut(frame.data, cfg.uuid, cfg.material, cfg.deviceId)
    case ForRequest(AskStatus) => frame.code == 3 && frame.responseTo == 0 && frame.data == []
    case ForReply(to, code) =>
      frame.code == code && frame.responseTo == to && (code == 0x8001 || code == 0x8003 ==> frame.data == [])
  }

  predicate CarriesIts(cfg: Config, issued: seq<Origin>, frame: Frame) {
    0 < frame.sequenceNumber <= |issued| && Carries(cfg, issued[frame.sequenceNumber - 1], frame)
  }

  ghost predicate Contents(cfg: Config, issued: seq<Origin>, sent: seq<Sent>, background: set<Task>) {
    && (forall i :: 0 <= i < |sent| ==> CarriesIts(cfg, issued, sent[i].frame))
    && (forall t :: t in background ==> CarriesIts(cfg, issued, t.frame))
  }

  lemma {:induction false} ContentsIssued(
      cfg: Config, issued: seq<Origin>, sent: seq<Sent>, background: set<Task>, origin: Origin)
    requires Contents(cfg, issued, sent, background)
    ensures Contents(cfg, issued + [origin], sent, background)
  {
    forall i | 0 <= i < |sent|
      ensures CarriesIts(cfg, issued + [origin], sent[i].frame)
    {
      assert CarriesIts(cfg, issued, sent[i].frame);
    }
    forall t | t in background
      ensures CarriesIts(cfg, issued + [origin], t.frame)
    {
      assert CarriesIts(cfg, issued, t.frame);
    }
  }

  // ----- the version -----

  /** Everything but the first request announces the version of the record adopted. */
  ghost predicate Announced(issued: seq<Origin>, sent: seq<Sent>, info: Option<Frame>, version: nat) {
    && (info.Some? ==> |info.value.data| >= 46 && version == info.value.data[2])
    && (info.None? ==> forall i :: 0 <= i < |sent| ==> sent[i].version == version)
    && forall i :: 0 <= i < |sent| && LaterThanInfo(issued, sent[i].frame) ==>
         info.Some? && |info.value.data| >= 46 && sent[i].version == info.value.data[2]
  }

  predicate LaterThanInfo(issued: seq<Origin>, frame: Frame) {
    0 < frame.sequenceNumber <= |issued| && issued[frame.sequenceNumber - 1] != ForRequest(AskInfo)
  }

  // ----- in every reachable state -----

  predicate HasReturned(s: State) {
    || (s.phase.Disconnecting? && s.phase.outcome.Returned?)
    || (s.phase.Idle? && s.result.Some? && s.result.value.Returned?)
  }

  ghost predicate EvidenceOut(s: State) {
    HasReturned(s) ==> RequestsOut(s.evidence.issued, s.evidence.sent, s.evidence.wire, Idle)
  }

  ghost predicate Sends(cfg: Config, s: State) {
    && RequestsOut(s.log.issued, s.log.sent, s.log.wire, s.phase)
    && Contents(cfg, s.log.issued, s.log.sent, s.background)
    && Announced(s.log.issued, s.log.sent, s.log.info, s.protocolVersion)
    && EvidenceOut(s)
  }

  /** After the reset there is nothing to say. */
  lemma {:induction false} UnwindSends(cfg: Config, s: State, error: Error)
    requires s.result == None
    ensures Sends(cfg, Unwind(s, Raised(error)))
  {}

  lemma {:induction false} UnwindReturns(cfg: Config, s: State, points: map<byte, DataPoint>)
    requires Sends(cfg, s) && s.phase.Collecting?
    ensures Sends(cfg, Unwind(s, Returned(points)))
  {}

  /** Nothing that matters here has changed. */
  predicate SameSending(s: State, t: State) {
    && t.log.issued == s.log.issued && t.log.sent == s.log.sent && t.log.wire == s.log.wire
    && t.log.info == s.log.info && t.protocolVersion == s.protocolVersion && t.background <= s.background
    && t.evidence == s.evidence
    && (s.phase.Writing? ==> t.phase.Writing? && t.phase.number == s.phase.number)
    && (HasReturned(t) ==> HasReturned(s))
  }

  lemma {:induction false} SameSends(cfg: Config, s: State, t: State)
    requires Sends(cfg, s) && SameSending(s, t)
    ensures Sends(cfg, t)
  {}

  /** A frame is begun: a request, or a reply that was waiting. */
  lemma {:induction false} BegunContents(
      cfg: Config, issued: seq<Origin>, sent: seq<Sent>, background: set<Task>, begun: Sent)
    requires Contents(cfg, issued, sent, background) && CarriesIts(cfg, issued, begun.frame)
    ensures Contents(cfg, issued, sent + [begun], background)
  {}

  lemma {:induction false} RequestOut(
      s: State, sent: seq<Sent>, wire: seq<(nat, bytes)>, kind: Kind, begun: Sent, phase: Phase)
    requires Numbers(s) && sent == s.log.sent && wire == s.log.wire && !s.phase.Writing?
    requires RequestsOut(s.log.issued, sent, wire, s.phase)
    requires begun.frame.sequenceNumber == s.counter && begun.packets != []
    requires phase.Writing? && phase.number == s.counter
    ensures RequestsOut(s.log.issued + [ForRequest(kind)], sent + [begun],
                        wire + [(s.counter, begun.packets[0])], phase)
  {
    var issued := s.log.issued + [ForRequest(kind)];
    forall n: nat | 0 < n <= |issued| && issued[n - 1].ForRequest? && n != s.counter
      ensures WrittenOut(sent + [begun], wire + [(s.counter, begun.packets[0])], n)
    {
      assert WrittenOut(sent, wire, n);
      OutWithAnother(sent, wire, n, begun, begun.packets[0]);
    }
  }

  lemma {:induction false} RequestAnnounced(s: State, kind: Kind, begun: Sent)
    requires Numbers(s) && Announced(s.log.issued, s.log.sent, s.log.info, s.protocolVersion)
    requires begun.frame.sequenceNumber == s.counter && begun.version == s.protocolVersion
    requires kind.AskInfo? || s.log.info.Some?
    ensures Announced(s.log.issued + [ForRequest(kind)], s.log.sent + [begun], s.log.info, s.protocolVersion)
  {
    var issued, sent := s.log.issued + [ForRequest(kind)], s.log.sent + [begun];
    forall i | 0 <= i < |sent| && LaterThanInfo(issued, sent[i].frame)
      ensures s.log.info.Some? && |s.log.info.value.data| >= 46 && sent[i].version == s.log.info.value.data[2]
    {
      if i < |s.log.sent| {
        assert Issued(s.log.issued, s.log.sent[i].frame);
      }
    }
  }

  lemma {:induction false} StartRequestSends(
      cfg: Config, s: State, kind: Kind, data: bytes, key: Option<bytes>, flag: byte, vector: Vector)
    requires Sends(cfg, s) && Numbers(s) && s.link && !s.phase.Writing? && s.result == None
    requires kind.AskInfo? || s.log.info.Some?
    requires if kind.AskPair? then LaidOut(data, cfg.uuid, cfg.material, cfg.deviceId) else data == []
    ensures Sends(cfg, StartRequest(cfg, s, kind, data, key, flag, vector))
  {
    var t := Register(s, kind);
    var chosen := if key.Some? then key else s.sessionKey;
    var frame := Frame(s.counter, 0, kind.Code().Value(), data);
    if chosen.None? {
      UnwindSends(cfg, Forget(t, s.counter), HandshakeHasNotRun);
    } else {
      match PacketsOf(cfg, t, frame, chosen.value, flag, vector)
      case Err(e) => UnwindSends(cfg, Forget(t, s.counter), e);
      case Ok(packets) =>
        var begun := Sent(flag, chosen.value, frame, packets, s.protocolVersion);
        PacketsCut(cfg, t, frame, chosen.value, flag, vector, packets);
        RequestOut(s, s.log.sent, s.log.wire, kind, begun, Writing(kind, s.counter, packets));
        RequestAnnounced(s, kind, begun);
        ContentsIssued(cfg, s.log.issued, s.log.sent, s.background, ForRequest(kind));
        BegunContents(cfg, s.log.issued + [ForRequest(kind)], s.log.sent, s.background, begun);
    }
  }

  lemma {:induction false} AdoptSends(cfg: Config, s: State, info: DeviceInfo, frame: Frame)
    requires Sends(cfg, s) && Handshake(s) && Numbers(s) && s.phase.Awaiting? && s.phase.kind == AskInfo
    requires ParseDeviceInfo(frame.data) == Ok(info)
    ensures Sends(cfg, Adopt(cfg, s, info, frame))
  {}

  lemma {:induction false} ProceedSends(cfg: Config, s: State, kind: Kind, frame: Frame, vector: Vector)
    requires Sends(cfg, s) && Inv(cfg, s) && s.phase.Awaiting? && s.phase.kind == kind
    ensures Sends(cfg, Proceed(cfg, s, kind, frame, vector))
  {
    match kind {
      case AskInfo =>
        match ParseDeviceInfo(frame.data) {
          case Err(e) => UnwindSends(cfg, s, e);
          case Ok(info) =>
            var t := Adopt(cfg, s, info, frame);
            AdoptSends(cfg, s, info, frame);
            PairingExactly(cfg.uuid, cfg.material, cfg.deviceId);
            match PairingRequest(cfg.uuid, cfg.material, cfg.deviceId) {
              case Err(e) => UnwindSends(cfg, t, e);
              case Ok(request) => StartRequestSends(cfg, t, AskPair, request, None, SESSION_FLAG, vector);
            }
        }
      case AskPair =>
        var t := s.(log := s.log.(paired := Some(frame)));
        SameSends(cfg, s, t);
        match VerifyPairingResult(frame.data) {
          case Err(e) => UnwindSends(cfg, t, e);
          case Ok(_) => StartRequestSends(cfg, t, AskStatus, [], None, SESSION_FLAG, vector);
        }
      case AskStatus =>
        SameSends(cfg, s, Proceed(cfg, s, kind, frame, vector));
    }
  }

  lemma {:induction false} PacketWrittenSends(cfg: Config, s: State, io: Io)
    requires Sends(cfg, s) && Inv(cfg, s) && InOrder(cfg, s) && s.phase.Writing?
    ensures Sends(cfg, PacketWritten(s, io))
  {
    var Writing(kind, number, packets) := s.phase;
    match io
    case Succeeds =>
      if |packets| <= 1 {
        LastPacket(s.log.sent, s.log.wire, number, packets);
      } else {
        MorePackets(s.log.issued, s.log.sent, s.log.wire, s.phase, number, packets[1]);
      }
    case FailsBleak => UnwindSends(cfg, Failed(Forget(s, number), io), WriteFailed);
    case FailsTimeout => UnwindSends(cfg, Failed(Forget(s, number), io), kind.UnansweredError());
    case FailsOther => UnwindSends(cfg, Failed(Forget(s, number), io), ForeignError);
  }

  lemma {:induction false} MorePackets(
      issued: seq<Origin>, sent: seq<Sent>, wire: seq<(nat, bytes)>, phase: Phase, m: nat, packet: bytes)
    requires RequestsOut(issued, sent, wire, phase)
    requires (phase.Writing? && phase.number == m) || 0 == m || m > |issued| || issued[m - 1].ForReply?
    ensures RequestsOut(issued, sent, wire + [(m, packet)], phase)
  {
    forall n: nat | 0 < n <= |issued| && issued[n - 1].ForRequest? && !(phase.Writing? && phase.number == n)
      ensures WrittenOut(sent, wire + [(m, packet)], n)
    {
      OutWithMore(sent, wire, n, m, packet);
    }
  }

  lemma {:induction false} InterruptedSends(cfg: Config, s: State)
    requires Sends(cfg, s) && Inv(cfg, s)
    ensures Sends(cfg, Interrupted(s))
  {
    var t := if s.phase.Writing? || s.phase.Awaiting? then Forget(s, s.phase.number) else s;
    if s.interrupt == WaitTimeout && s.phase.Collecting? {
      UnwindReturns(cfg, s, s.phase.collected);
    } else if s.phase.Active() && Interrupted(s) != s {
      InterruptedRaises(s);
      var error :| Interrupted(s) == Unwind(t, Raised(error));
      UnwindSends(cfg, t, error);
    } else {
      SameSends(cfg, s, Interrupted(s));
    }
  }

  lemma {:induction false} InterruptedRaises(s: State)
    requires s.phase.Active() && !(s.interrupt == WaitTimeout && s.phase.Collecting?) && Interrupted(s) != s
    ensures var t := if s.phase.Writing? || s.phase.Awaiting? then Forget(s, s.phase.number) else s;
            exists error :: Interrupted(s) == Unwind(t, Raised(error))
  {
    var t := if s.phase.Writing? || s.phase.Awaiting? then Forget(s, s.phase.number) else s;
    var error :=
      if s.interrupt == CallerCancel then CallerCancelled
      else if s.interrupt == SessionDeadline then SessionOutlasted
      else
        match s.phase
        case Awaiting(kind, _) => kind.UnansweredError()
        case _ => ConnectFailed;
    assert Interrupted(s) == Unwind(t, Raised(error));
  }

  lemma {:induction false} ConnectSends(cfg: Config, s: State, io: Io, vector: Vector)
    requires Sends(cfg, s) && Inv(cfg, s) && s.interrupt == NoInterrupt && (s.phase.Connecting? || s.phase.Subscribing?)
    ensures Sends(cfg, Resume(cfg, s, io, vector))
  {
    if !io.Succeeds? {
      UnwindSends(cfg, Failed(s, io), ConnectFailed);
    } else if s.phase.Subscribing? {
      StartRequestSends(cfg, s, AskInfo, [], Some(cfg.loginKey), LOGIN_FLAG, vector);
    } else {
      SameSends(cfg, s, Resume(cfg, s, io, vector));
    }
  }

  lemma {:induction false} ResumeSends(cfg: Config, s: State, io: Io, vector: Vector)
    requires Sends(cfg, s) && Inv(cfg, s) && InOrder(cfg, s)
    ensures Sends(cfg, Resume(cfg, s, io, vector))
  {
    if s.interrupt != NoInterrupt {
      InterruptedSends(cfg, s);
    } else {
      match s.phase
      case Connecting => ConnectSends(cfg, s, io, vector);
      case Subscribing => ConnectSends(cfg, s, io, vector);
      case Writing(_, _, _) => PacketWrittenSends(cfg, s, io);
      case Awaiting(kind, number) =>
        if number in s.futures && s.futures[number].Answered? {
          RepliedFacts(cfg, s, kind, s.futures[number].frame);
          ProceedSends(cfg, s, kind, s.futures[number].frame, vector);
        }
      case _ => SameSends(cfg, s, Resume(cfg, s, io, vector));
    }
  }

  // ----- notifications and replies -----

  lemma {:induction false} ReplyToSends(cfg: Config, s: State, frame: Frame, data: bytes)
    requires Sends(cfg, s) && Numbers(s) && (frame.code == 0x8001 || frame.code == 0x8003 ==> data == [])
    ensures Sends(cfg, ReplyTo(s, frame, data))
  {
    var origin := ForReply(frame.sequenceNumber, frame.code);
    var t := ReplyTo(s, frame, data);
    ContentsIssued(cfg, s.log.issued, s.log.sent, s.background, origin);
    forall i | 0 <= i < |s.log.sent|
      ensures s.log.sent[i].frame.sequenceNumber <= |s.log.issued|
    {
      assert Issued(s.log.issued, s.log.sent[i].frame);
    }
  }

  lemma {:induction false} NotifySends(cfg: Config, s: State, chunk: bytes, clock: int, clockReply: bytes)
    requires Sends(cfg, s) && Numbers(s)
    ensures Sends(cfg, Notify(cfg, s, chunk, clock, clockReply).0)
  {
    var (assembly, fed) := FeedChunk(s.assembly, chunk);
    var t := s.(assembly := assembly);
    SameSends(cfg, s, t);
    if fed.Ok? && fed.value.Some? && fed.value.value != [] {
      var key := KeyFor(cfg, t, fed.value.value[0]);
      if key.Some? {
        var frame := Decode(cfg.cipher, fed.value.value, key.value);
        if frame.Ok? {
          DispatchSends(cfg, t, frame.value, clock, clockReply);
        }
      }
    }
  }

  lemma {:induction false} DispatchSends(cfg: Config, s: State, frame: Frame, clock: int, clockReply: bytes)
    requires Sends(cfg, s) && Numbers(s)
    ensures Sends(cfg, Dispatch(cfg, s, frame, clock, clockReply).0)
  {
    var n := frame.responseTo;
    var t := Forget(s, n);
    SameSends(cfg, s, t);
    if n in s.pending && n in s.futures && s.futures[n].Waiting? {
      SameSends(cfg, s, Dispatch(cfg, s, frame, clock, clockReply).0);
    } else {
      CodeRoundTrip(frame.code);
      match CommandCode.FromValue(frame.code)
      case None =>
      case Some(code) => HandleSends(cfg, t, code, frame, clock, clockReply);
    }
  }

  lemma {:induction false} HandleSends(
      cfg: Config, s: State, code: CommandCode, frame: Frame, clock: int, clockReply: bytes)
    requires Sends(cfg, s) && Numbers(s) && frame.code == code.Value()
    ensures Sends(cfg, HandleDeviceCommand(cfg, s, code, frame, clock, clockReply).0)
  {
    match code
    case ReceiveDataPoint | ReceiveTimeDataPoint =>
      var r := ReportOf(cfg, frame, code.ReceiveTimeDataPoint?, clock);
      if r.Ok? {
        SameSends(cfg, s, Publish(s, r.value));
        ReplyToSends(cfg, Publish(s, r.value), frame, []);
      }
    case ReceiveUnixTimeRequest | ReceiveLocalTimeRequest => ReplyToSends(cfg, s, frame, clockReply);
    case _ =>
  }

  lemma {:induction false} RunReplySends(cfg: Config, s: State, task: Task, io: Io, vector: Vector)
    requires Sends(cfg, s) && Inv(cfg, s) && InOrder(cfg, s)
    ensures Sends(cfg, RunReply(cfg, s, task, io, vector))
  {
    if task in s.background {
      if task.packets.None? && s.sessionKey.Some?
         && PacketsOf(cfg, s, task.frame, s.sessionKey.value, SESSION_FLAG, vector).Ok? {
        BeginsSends(cfg, s, task, vector);
      } else if task.packets.Some? && io.Succeeds? && |task.packets.value| > 1 {
        GoesOnSends(cfg, s, task);
      } else {
        SameSends(cfg, s, RunReply(cfg, s, task, io, vector));
      }
    }
  }

  lemma {:induction false} TaskContents(
      cfg: Config, issued: seq<Origin>, sent: seq<Sent>, background: set<Task>, task: Task, packets: seq<bytes>)
    requires Contents(cfg, issued, sent, background) && task in background
    ensures Contents(cfg, issued, sent, background - {task} + {Task(task.frame, Some(packets))})
  {}

  lemma {:induction false} TaskIsReply(cfg: Config, s: State, task: Task)
    requires Inv(cfg, s) && task in s.background
    ensures var n := task.frame.sequenceNumber; 0 < n <= |s.log.issued| && s.log.issued[n - 1].ForReply?
  {
    assert Issued(s.log.issued, task.frame);
  }

  lemma {:induction false} GoesOnSends(cfg: Config, s: State, task: Task)
    requires Sends(cfg, s) && Inv(cfg, s) && task in s.background
    requires task.packets.Some? && |task.packets.value| > 1
    ensures forall vector :: Sends(cfg, RunReply(cfg, s, task, Succeeds, vector))
  {
    var packets := task.packets.value[1..];
    TaskIsReply(cfg, s, task);
    MorePackets(s.log.issued, s.log.sent, s.log.wire, s.phase, task.frame.sequenceNumber, packets[0]);
    TaskContents(cfg, s.log.issued, s.log.sent, s.background, task, packets);
  }

  /** A reply that is begun: what it is made of, and that requests are not concerned. */
  lemma {:induction false} BeginsSends(cfg: Config, s: State, task: Task, vector: Vector)
    requires Sends(cfg, s) && Inv(cfg, s) && task in s.background && task.packets.None? && s.sessionKey.Some?
    requires PacketsOf(cfg, s, task.frame, s.sessionKey.value, SESSION_FLAG, vector).Ok?
    ensures forall io :: Sends(cfg, RunReply(cfg, s, task, io, vector))
  {
    var packets := PacketsOf(cfg, s, task.frame, s.sessionKey.value, SESSION_FLAG, vector).value;
    var begun := ReplySent(s, task.frame, packets);
    PacketsCut(cfg, s, task.frame, s.sessionKey.value, SESSION_FLAG, vector, packets);
    TaskIsReply(cfg, s, task);
    ReplyOut(s.log.issued, s.log.sent, s.log.wire, s.phase, begun);
    TaskContents(cfg, s.log.issued, s.log.sent, s.background, task, packets);
    assert CarriesIts(cfg, s.log.issued, task.frame);
    BegunContents(cfg, s.log.issued, s.log.sent, s.background - {task} + {Task(task.frame, Some(packets))}, begun);
    assert s.log.info.Some?;
  }

  lemma {:induction false} ReplyOut(
      issued: seq<Origin>, sent: seq<Sent>, wire: seq<(nat, bytes)>, phase: Phase, begun: Sent)
    requires RequestsOut(issued, sent, wire, phase) && begun.packets != []
    requires var m := begun.frame.sequenceNumber; 0 < m <= |issued| && issued[m - 1].ForReply?
    ensures RequestsOut(issued, sent + [begun], wire + [(begun.frame.sequenceNumber, begun.packets[0])], phase)
  {
    forall n: nat | 0 < n <= |issued| && issued[n - 1].ForRequest? && !(phase.Writing? && phase.number == n)
      ensures WrittenOut(sent + [begun], wire + [(begun.frame.sequenceNumber, begun.packets[0])], n)
    {
      OutWithAnother(sent, wire, n, begun, begun.packets[0]);
    }
  }

  // ----- runs -----

  lemma {:induction false} SuspendedSends(cfg: Config, s: State, event: Event)
    requires Sends(cfg, s) && (event.Begins? || event.Interrupts?)
    ensures Sends(cfg, Step(cfg, s, event))
  {
    SameSends(cfg, s, Step(cfg, s, event));
  }

  lemma {:induction false} StepSends(cfg: Config, s: State, event: Event)
    requires Sends(cfg, s) && Inv(cfg, s) && InOrder(cfg, s)
    ensures Sends(cfg, Step(cfg, s, event))
  {
    match event
    case Begins => SuspendedSends(cfg, s, event);
    case Interrupts(_) => SuspendedSends(cfg, s, event);
    case Resumes(io, vector) => ResumeSends(cfg, s, io, vector);
    case Notifies(chunk, clock, clockReply) => NotifySends(cfg, s, chunk, clock, clockReply);
    case ReplyRuns(task, io, vector) => RunReplySends(cfg, s, task, io, vector);
  }

  lemma {:induction false} RunSends(cfg: Config, events: seq<Event>)
    ensures Sends(cfg, Run(cfg, INITIAL, events))
    decreases |events|
  {
    if events != [] {
      var earlier := events[..|events| - 1];
      RunSends(cfg, earlier);
      RunInOrder(cfg, earlier);
      Reachable(cfg, earlier);
      RunLast(cfg, INITIAL, events);
      StepSends(cfg, Run(cfg, INITIAL, earlier), events[|events| - 1]);
    }
  }

  /** In every reachable state: whatever the read waits for an answer to has been written to its last packet; once it
      collects, all three requests have been; and a read that returned had written them so. A request is answered, by
      the read, only after the whole of it is with the radio. */
  lemma {:induction false} RequestsWrittenOut(cfg: Config, events: seq<Event>)
    ensures var s := Run(cfg, INITIAL, events);
            && (s.phase.Awaiting? ==> WrittenOut(s.log.sent, s.log.wire, s.phase.number))
            && (s.phase.Collecting? ==> AllThreeOut(s.log))
            && (s.phase.Idle? && s.result.Some? && s.result.value.Returned? ==> AllThreeOut(s.evidence))
  {
    Reachable(cfg, events);
    RunSends(cfg, events);
    var s := Run(cfg, INITIAL, events);
    if s.phase.Collecting? {
      ThreeRequests(s.log);
    }
    if s.phase.Idle? && s.result.Some? && s.result.value.Returned? {
      ThreeRequests(s.evidence);
    }
  }

  /** The three requests of the handshake have been written out, in this order. */
  ghost predicate AllThreeOut(log: Log) {
    exists i, j, k: nat :: 0 < i < j < k <= |log.issued|
      && log.issued[i - 1] == ForRequest(AskInfo) && WrittenOut(log.sent, log.wire, i)
      && log.issued[j - 1] == ForRequest(AskPair) && WrittenOut(log.sent, log.wire, j)
      && log.issued[k - 1] == ForRequest(AskStatus) && WrittenOut(log.sent, log.wire, k)
  }

  lemma {:induction false} ThreeRequests(log: Log)
    requires RequestsOf(log.issued) == [AskInfo, AskPair, AskStatus]
    requires RequestsOut(log.issued, log.sent, log.wire, Idle)
    ensures AllThreeOut(log)
  {
    var k := LastRequest(log.issued);
    assert RequestsOf(log.issued[..k - 1]) == [AskInfo, AskPair];
    var j := LastRequest(log.issued[..k - 1]);
    assert log.issued[..k - 1][..j - 1] == log.issued[..j - 1];
    var i := LastRequest(log.issued[..j - 1]);
    assert WrittenOut(log.sent, log.wire, i) && WrittenOut(log.sent, log.wire, j) && WrittenOut(log.sent, log.wire, k);
    assert log.issued[i - 1] == ForRequest(AskInfo) && log.issued[j - 1] == ForRequest(AskPair);
  }

  lemma {:induction false} LastRequest(issued: seq<Origin>) returns (n: nat)
    requires RequestsOf(issued) != []
    ensures 0 < n <= |issued|
    ensures var requests := RequestsOf(issued);
            issued[n - 1] == ForRequest(requests[|requests| - 1])
            && RequestsOf(issued[..n - 1]) == requests[..|requests| - 1]
  {
    n := |issued|;
    if issued[n - 1].ForReply? {
      n := LastRequest(issued[..|issued| - 1]);
      assert issued[..|issued| - 1][..n - 1] == issued[..n - 1];
    }
  }

  /** In every reachable state: the request for device information (code 0) and the one for its status (code 3) carry
      nothing, the pairing request (code 1) the credentials laid out, an acknowledgement of a report (codes 0x8001 and
      0x8003) nothing. Every frame but the request for information announces the version the record of this session
      disclosed; that request, until the record is taken up, the version of the last record taken up before, or 3. */
  lemma {:induction false} SentContents(cfg: Config, events: seq<Event>)
    ensures var s, record := Run(cfg, INITIAL, events), LastRecord(cfg, events);
            forall i :: 0 <= i < |s.log.sent| ==>
              var sent := s.log.sent[i];
              && CarriesIts(cfg, s.log.issued, sent.frame)
              && (LaterThanInfo(s.log.issued, sent.frame) ==>
                    s.log.info.Some? && |s.log.info.value.data| >= 46 && sent.version == s.log.info.value.data[2])
              && (s.log.info.None? && record.None? ==> sent.version == 3)
              && (s.log.info.None? && record.Some? ==> |record.value| >= 46 && sent.version == record.value[2])
  {
    RunSends(cfg, events);
    LastRecordKept(cfg, events);
  }
}
