/** Every step keeps the invariant, so every run does. */
module Preservation {
  import opened Bytes
  import opened Frames
  import opened Reassembly
  import opened DataPoints
  import opened Commands
  import opened Session
  import opened Invariants

  // ----- the read -----

  lemma {:induction false} AdoptKeys(cfg: Config, s: State, info: DeviceInfo, frame: Frame)
    requires Keys(cfg, s) && s.log.info == None && s.log.paired == None && ParseDeviceInfo(frame.data) == Ok(info)
    ensures Keys(cfg, Adopt(cfg, s, info, frame))
  {
    var t := Adopt(cfg, s, info, frame);
    forall i | 0 <= i < |t.log.sent|
      ensures ProperlyKeyed(cfg, t.log.info, t.log.sent[i])
    {
      assert ProperlyKeyed(cfg, s.log.info, s.log.sent[i]);
    }
  }

  /** The read, waiting for a reply that has come. */
  ghost predicate Replied(cfg: Config, s: State, kind: Kind, frame: Frame) {
    && Inv(cfg, s) && s.interrupt == NoInterrupt && s.phase.Awaiting? && s.phase.kind == kind
    && s.futures[s.phase.number] == Answered(frame)
  }

  lemma {:induction false} RepliedFacts(cfg: Config, s: State, kind: Kind, frame: Frame)
    requires Replied(cfg, s, kind, frame)
    ensures Forget(s, s.phase.number) == s && s.pending == {} && Completed(s.log, kind, frame)
  {
    var n := s.phase.number;
    assert s.pending - {n} == {} == s.pending;
    var i :| 0 <= i < |s.log.answered| && s.log.answered[i] == (n, frame);
  }

  lemma {:induction false} ProceedInfoInv(cfg: Config, s: State, frame: Frame, vector: Vector)
    requires Replied(cfg, s, AskInfo, frame)
    ensures Inv(cfg, Proceed(cfg, s, AskInfo, frame, vector))
  {
    RepliedFacts(cfg, s, AskInfo, frame);
    match ParseDeviceInfo(frame.data)
    case Err(e) => UnwindInv(cfg, s, Raised(e));
    case Ok(info) =>
      var t := Adopt(cfg, s, info, frame);
      AdoptKeys(cfg, s, info, frame);
      match PairingRequest(cfg.uuid, cfg.material, cfg.deviceId)
      case Err(e) => UnwindInv(cfg, t, Raised(e));
      case Ok(request) => StartRequestInv(cfg, t, AskPair, request, None, SESSION_FLAG, vector);
  }

  lemma {:induction false} ProceedPairInv(cfg: Config, s: State, frame: Frame, vector: Vector)
    requires Replied(cfg, s, AskPair, frame)
    ensures Inv(cfg, Proceed(cfg, s, AskPair, frame, vector))
  {
    RepliedFacts(cfg, s, AskPair, frame);
    var t := s.(log := s.log.(paired := Some(frame)));
    match VerifyPairingResult(frame.data)
    case Err(e) =>
      if |frame.data| == 1 { assert frame.data == [frame.data[0]]; }
      UnwindInv(cfg, t, Raised(e));
    case Ok(_) =>
      StartRequestInv(cfg, t, AskStatus, [], None, SESSION_FLAG, vector);
  }

  lemma {:induction false} ProceedStatusInv(cfg: Config, s: State, frame: Frame, vector: Vector)
    requires Replied(cfg, s, AskStatus, frame)
    ensures Inv(cfg, Proceed(cfg, s, AskStatus, frame, vector))
  {
    RepliedFacts(cfg, s, AskStatus, frame);
  }

  lemma {:induction false} ProceedInv(cfg: Config, s: State, kind: Kind, frame: Frame, vector: Vector)
    requires Replied(cfg, s, kind, frame)
    ensures Inv(cfg, Proceed(cfg, Forget(s, s.phase.number), kind, frame, vector))
  {
    RepliedFacts(cfg, s, kind, frame);
    match kind
    case AskInfo => ProceedInfoInv(cfg, s, frame, vector);
    case AskPair => ProceedPairInv(cfg, s, frame, vector);
    case AskStatus => ProceedStatusInv(cfg, s, frame, vector);
  }

  lemma {:induction false} WrittenInv(cfg: Config, s: State)
    requires Inv(cfg, s) && s.phase.Writing? && s.interrupt == NoInterrupt
    ensures Inv(cfg, PacketWritten(s, Succeeds))
  {
    var Writing(kind, number, packets) := s.phase;
    if |packets| <= 1 {
      SameRequestInv(cfg, s, Awaiting(kind, number));
    } else {
      SameRequestInv(cfg, s, Writing(kind, number, packets[1..]));
      HandedInv(cfg, s.(phase := Writing(kind, number, packets[1..])), number, packets[1..]);
    }
  }

  lemma {:induction false} SameRequestInv(cfg: Config, s: State, phase: Phase)
    requires Inv(cfg, s) && s.phase.Writing? && (phase.Writing? || phase.Awaiting?)
    requires phase.kind == s.phase.kind && phase.number == s.phase.number
    ensures Inv(cfg, s.(phase := phase))
  {
    var t := s.(phase := phase);
    assert Numbers(t) && Replies(t) && Keys(cfg, t) && Handshake(t);
  }

  lemma {:induction false} PacketWrittenInv(cfg: Config, s: State, io: Io)
    requires Inv(cfg, s) && s.phase.Writing? && s.interrupt == NoInterrupt
    ensures Inv(cfg, PacketWritten(s, io))
  {
    var Writing(kind, number, packets) := s.phase;
    var t := Failed(Forget(s, number), io);
    match io
    case Succeeds =>
      WrittenInv(cfg, s);
    case FailsBleak => UnwindInv(cfg, t, Raised(WriteFailed));
    case FailsTimeout => UnwindInv(cfg, t, Raised(kind.UnansweredError()));
    case FailsOther => UnwindInv(cfg, t, Raised(ForeignError));
  }

  lemma {:induction false} TakeReportKeepsReports(s: State)
    requires Reports(s) && s.phase.Collecting? && s.reports != []
    ensures Reports(TakeReport(s))
  {
    var t := TakeReport(s);
    CollectOneMore(s.log.drained, s.reports[0]);
    assert s.log.drained + s.reports == t.log.drained + t.reports;
  }

  lemma {:induction false} TakeReportInv(cfg: Config, s: State)
    requires Inv(cfg, s) && s.phase.Collecting? && s.reports != []
    ensures Inv(cfg, TakeReport(s))
  {
    var t := TakeReport(s);
    TakeReportKeepsReports(s);
    assert Numbers(t) && Replies(t) && Keys(cfg, t) && Handshake(t);
  }

  lemma {:induction false} CollectedJustified(cfg: Config, s: State)
    requires Inv(cfg, s) && s.phase.Collecting? && s.interrupt == WaitTimeout
    ensures Justified(cfg, s.log, s.protocolVersion, Returned(s.phase.collected))
  {
    var paired := s.log.paired.value;
    assert paired.data == [paired.data[0]];
    assert s.log.drained <= s.log.published;
  }

  lemma {:induction false} InterruptedInv(cfg: Config, s: State)
    requires Inv(cfg, s) && s.interrupt != NoInterrupt
    ensures Inv(cfg, Interrupted(s))
  {
    var t := if s.phase.Writing? || s.phase.Awaiting? then Forget(s, s.phase.number) else s;
    if s.phase.Disconnecting? {
      EndEarlyInv(cfg, s);
    } else if s.interrupt == CallerCancel {
      UnwindInv(cfg, t, Raised(CallerCancelled));
    } else if s.interrupt == SessionDeadline {
      UnwindInv(cfg, t, Raised(SessionOutlasted));
    } else {
      TimedOutInv(cfg, s);
    }
  }

  /** The timer of the innermost await has fired. */
  lemma {:induction false} TimedOutInv(cfg: Config, s: State)
    requires Inv(cfg, s) && s.interrupt == WaitTimeout && !s.phase.Disconnecting?
    ensures Inv(cfg, Interrupted(s))
  {
    if s.phase.Connecting? {
      NotConnectedInv(cfg, s);
    } else if s.phase.Awaiting? {
      UnansweredInv(cfg, s);
    } else if s.phase.Collecting? {
      QuietInv(cfg, s);
    }
  }

  lemma {:induction false} NotConnectedInv(cfg: Config, s: State)
    requires Inv(cfg, s) && s.phase.Connecting? && s.interrupt == WaitTimeout
    ensures Inv(cfg, Unwind(s, Raised(ConnectFailed)))
  {
    ConnectingIsSilent(cfg, s);
    UnwindInv(cfg, s, Raised(ConnectFailed));
  }

  lemma {:induction false} QuietInv(cfg: Config, s: State)
    requires Inv(cfg, s) && s.phase.Collecting? && s.interrupt == WaitTimeout
    ensures Inv(cfg, Unwind(s, Returned(s.phase.collected)))
  {
    CollectedJustified(cfg, s);
    UnwindInv(cfg, s, Returned(s.phase.collected));
  }

  lemma {:induction false} UnansweredInv(cfg: Config, s: State)
    requires Inv(cfg, s) && s.phase.Awaiting? && s.interrupt == WaitTimeout
    ensures Inv(cfg, Unwind(Forget(s, s.phase.number), Raised(s.phase.kind.UnansweredError())))
  {
    UnwindInv(cfg, Forget(s, s.phase.number), Raised(s.phase.kind.UnansweredError()));
  }

  lemma {:induction false} EndEarlyInv(cfg: Config, s: State)
    requires Inv(cfg, s) && s.phase.Disconnecting?
    ensures Inv(cfg, EndEarly(s, s.phase.outcome))
    ensures s.interrupt == CallerCancel ==> Inv(cfg, EndEarly(s, Raised(CallerCancelled)))
  {
    var t := EndEarly(s, s.phase.outcome);
    var u := EndEarly(s, Raised(CallerCancelled));
    assert Numbers(t) && Replies(t) && Keys(cfg, t);
    assert Numbers(u) && Replies(u) && Keys(cfg, u);
  }

  /** Before the first request nothing has been sent. */
  lemma {:induction false} ConnectingIsSilent(cfg: Config, s: State)
    requires Inv(cfg, s) && Asked(s.phase) == []
    ensures s.log.sent == []
  {
    if s.log.sent != [] {
      var sent := s.log.sent[0];
      assert ProperlyKeyed(cfg, s.log.info, sent) && Issued(s.log.issued, sent.frame);
      assert sent.flag == LOGIN_FLAG;
      var n := sent.frame.sequenceNumber - 1;
      RequestsNone(s.log.issued, n);
      assert false;
    }
  }

  lemma {:induction false} RequestsNone(issued: seq<Origin>, n: nat)
    requires RequestsOf(issued) == [] && n < |issued|
    ensures issued[n].ForReply?
  {
    var last := issued[|issued| - 1];
    if n < |issued| - 1 {
      RequestsNone(issued[..|issued| - 1], n);
    }
  }

  lemma {:induction false} ResumeInv(cfg: Config, s: State, io: Io, vector: Vector)
    requires Inv(cfg, s)
    ensures Inv(cfg, Resume(cfg, s, io, vector))
  {
    if s.interrupt != NoInterrupt {
      InterruptedInv(cfg, s);
    } else {
      match s.phase
      case Idle =>
      case Connecting =>
        ConnectingIsSilent(cfg, s);
        if io.Succeeds? {
          LinkUpInv(cfg, s);
        } else {
          UnwindInv(cfg, Failed(s, io), Raised(ConnectFailed));
        }
      case Subscribing =>
        ConnectingIsSilent(cfg, s);
        if io.Succeeds? {
          StartRequestInv(cfg, s, AskInfo, [], Some(cfg.loginKey), LOGIN_FLAG, vector);
        } else {
          UnwindInv(cfg, Failed(s, io), Raised(ConnectFailed));
        }
      case Writing(_, _, _) => PacketWrittenInv(cfg, s, io);
      case Awaiting(kind, number) =>
        if s.futures[number].Answered? {
          ProceedInv(cfg, s, kind, s.futures[number].frame, vector);
        }
      case Collecting(_) =>
        if s.reports != [] {
          TakeReportInv(cfg, s);
        }
      case Disconnecting(_) => EndEarlyInv(cfg, s);
    }
  }

  lemma {:induction false} LinkUpInv(cfg: Config, s: State)
    requires Inv(cfg, s) && s.phase.Connecting? && s.interrupt == NoInterrupt
    ensures Inv(cfg, s.(link := true, links := s.links + 1, phase := Subscribing))
  {
    var t := s.(link := true, links := s.links + 1, phase := Subscribing);
    assert Numbers(t) && Replies(t) && Keys(cfg, t);
  }

  lemma {:induction false} BeginInv(cfg: Config, s: State)
    requires Inv(cfg, s)
    ensures Inv(cfg, Step(cfg, s, Begins))
  {
    var t := Step(cfg, s, Begins);
    assert Numbers(t) && Replies(t) && Keys(cfg, t);
  }

  lemma {:induction false} RequestInterruptInv(cfg: Config, s: State, interrupt: Interrupt)
    requires Inv(cfg, s)
    ensures Inv(cfg, RequestInterrupt(s, interrupt))
  {
    var t := RequestInterrupt(s, interrupt);
    assert Numbers(t) && Replies(t) && Keys(cfg, t);
  }

  // ----- notifications -----

  lemma {:induction false} AnswerInv(cfg: Config, s: State, frame: Frame)
    requires Inv(cfg, s)
    requires var n := frame.responseTo; n in s.pending && n in s.futures && s.futures[n].Waiting?
    ensures var n := frame.responseTo;
            Inv(cfg, Forget(s, n).(futures := s.futures[n := Answered(frame)],
                                   log := s.log.(answered := s.log.answered + [(n, frame)])))
  {
    var n := frame.responseTo;
    var t := Forget(s, n).(futures := s.futures[n := Answered(frame)],
                           log := s.log.(answered := s.log.answered + [(n, frame)]));
    assert s.phase.number == n;
    assert t.log.answered[|s.log.answered|] == (n, frame);
    CompletedMore(s.log, t.log, AskInfo, s.log.info);
    CompletedMore(s.log, t.log, AskPair, s.log.paired);
    CompletedMore(s.log, t.log, AskStatus, s.log.status);
    assert Numbers(t) && Keys(cfg, t);
    AnsweredOnce(s, t, n, frame);
  }

  lemma {:induction false} AnsweredOnce(s: State, t: State, n: nat, frame: Frame)
    requires Replies(s) && n in s.pending && frame.responseTo == n
    requires 0 < n <= |s.log.issued| && s.log.issued[n - 1].ForRequest?
    requires t.pending == s.pending - {n} && t.log.issued == s.log.issued
    requires t.log.answered == s.log.answered + [(n, frame)]
    ensures Replies(t)
  {
    forall i | 0 <= i < |s.log.answered|
      ensures s.log.answered[i].0 != n && s.log.answered[i].0 !in t.pending
    {
      var (m, _) := s.log.answered[i];
      assert m !in s.pending;
    }
  }

  lemma {:induction false} CompletedMore(log: Log, more: Log, kind: Kind, reply: Option<Frame>)
    requires CompletedIfSome(log, kind, reply)
    requires log.issued <= more.issued && log.answered <= more.answered
    ensures CompletedIfSome(more, kind, reply)
  {
    if reply.Some? {
      var entry := (reply.value.responseTo, reply.value);
      var i :| 0 <= i < |log.answered| && log.answered[i] == entry;
      assert more.answered[i] == entry;
    }
  }

  lemma {:induction false} ForgetInv(cfg: Config, s: State, n: nat)
    requires Inv(cfg, s) && (n in s.pending ==> n !in s.futures || !s.futures[n].Waiting?)
    ensures Inv(cfg, Forget(s, n))
  {
    var t := Forget(s, n);
    assert Numbers(t) && Keys(cfg, t) && Replies(t);
  }

  lemma {:induction false} PublishInv(cfg: Config, s: State, points: seq<DataPoint>)
    requires Inv(cfg, s)
    ensures Inv(cfg, Publish(s, points))
  {
    var t := Publish(s, points);
    if points != [] {
      assert s.log.drained + (s.reports + [points]) == (s.log.drained + s.reports) + [points];
    }
    assert Numbers(t) && Keys(cfg, t) && Replies(t);
  }

  lemma {:induction false} ReplyToNumbers(s: State, frame: Frame, data: bytes)
    requires Numbers(s)
    ensures Numbers(ReplyTo(s, frame, data))
  {
    var t := ReplyTo(s, frame, data);
    forall i | 0 <= i < |t.log.sent|
      ensures Issued(t.log.issued, t.log.sent[i].frame) && t.log.sent[i].frame.sequenceNumber < s.counter
    {
      assert Issued(s.log.issued, s.log.sent[i].frame);
    }
    forall u | u in s.background
      ensures Issued(t.log.issued, u.frame) && t.log.issued[u.frame.sequenceNumber - 1].ForReply?
      ensures u.frame.sequenceNumber < s.counter
    {
      assert Issued(s.log.issued, u.frame);
    }
  }

  lemma {:induction false} ReplyToInv(cfg: Config, s: State, frame: Frame, data: bytes)
    requires Inv(cfg, s) && frame.code >= 0x8000
    ensures Inv(cfg, ReplyTo(s, frame, data))
  {
    var t := ReplyTo(s, frame, data);
    var origin := ForReply(frame.sequenceNumber, frame.code);
    ReplyToNumbers(s, frame, data);
    RequestsAppend(s.log.issued, origin);
    RepliesKept(s, t, origin);
    CompletedMore(s.log, t.log, AskInfo, s.log.info);
    CompletedMore(s.log, t.log, AskPair, s.log.paired);
    CompletedMore(s.log, t.log, AskStatus, s.log.status);
    assert Keys(cfg, t) by {
      forall i | 0 <= i < |t.log.sent|
        ensures ProperlyKeyed(cfg, t.log.info, t.log.sent[i])
      {
        assert ProperlyKeyed(cfg, s.log.info, s.log.sent[i]);
      }
    }
  }

  lemma {:induction false} HandleInv(
      cfg: Config, s: State, code: CommandCode, frame: Frame, clock: int, clockReply: bytes)
    requires Inv(cfg, s) && frame.code == code.Value()
    ensures Inv(cfg, HandleDeviceCommand(cfg, s, code, frame, clock, clockReply).0)
  {
    match code
    case ReceiveDataPoint | ReceiveTimeDataPoint =>
      var r := ReportOf(cfg, frame, code.ReceiveTimeDataPoint?, clock);
      if r.Ok? {
        PublishInv(cfg, s, r.value);
        ReplyToInv(cfg, Publish(s, r.value), frame, []);
      }
    case ReceiveUnixTimeRequest | ReceiveLocalTimeRequest => ReplyToInv(cfg, s, frame, clockReply);
    case _ =>
  }

  lemma {:induction false} CodeRoundTrip(value: nat)
    ensures CommandCode.FromValue(value).Some? ==> CommandCode.FromValue(value).value.Value() == value
  {}

  lemma {:induction false} DispatchInv(cfg: Config, s: State, frame: Frame, clock: int, clockReply: bytes)
    requires Inv(cfg, s)
    ensures Inv(cfg, Dispatch(cfg, s, frame, clock, clockReply).0)
  {
    var n := frame.responseTo;
    if n in s.pending && n in s.futures && s.futures[n].Waiting? {
      AnswerInv(cfg, s, frame);
    } else {
      ForgetInv(cfg, s, n);
      CodeRoundTrip(frame.code);
      match CommandCode.FromValue(frame.code)
      case None =>
      case Some(code) => HandleInv(cfg, Forget(s, n), code, frame, clock, clockReply);
    }
  }

  lemma {:induction false} NotifyInv(cfg: Config, s: State, chunk: bytes, clock: int, clockReply: bytes)
    requires Inv(cfg, s)
    ensures Inv(cfg, Notify(cfg, s, chunk, clock, clockReply).0)
  {
    var (assembly, fed) := FeedChunk(s.assembly, chunk);
    FeedConsistent(s.assembly, chunk);
    var t := s.(assembly := assembly);
    assert Numbers(t) && Replies(t) && Keys(cfg, t);
    assert Inv(cfg, t);
    if fed.Ok? && fed.value.Some? && fed.value.value != [] {
      var payload := fed.value.value;
      var key := KeyFor(cfg, t, payload[0]);
      if key.Some? {
        var frame := Decode(cfg.cipher, payload, key.value);
        if frame.Ok? {
          DispatchInv(cfg, t, frame.value, clock, clockReply);
        }
      }
    }
  }

  // ----- replies -----

  lemma {:induction false} DropTaskInv(cfg: Config, s: State, task: Task)
    requires Inv(cfg, s)
    ensures Inv(cfg, s.(background := s.background - {task}))
  {
    var t := s.(background := s.background - {task});
    assert Replies(t);
    assert Keys(cfg, t);
  }

  /** A task goes on under its own number. */
  lemma {:induction false} ContinueTaskInv(cfg: Config, s: State, task: Task, packets: seq<bytes>)
    requires Inv(cfg, s) && task in s.background && task.packets.Some?
    ensures Inv(cfg, s.(background := s.background - {task} + {Task(task.frame, Some(packets))}))
  {
    var t := s.(background := s.background - {task} + {Task(task.frame, Some(packets))});
    assert Replies(t);
    assert Keys(cfg, t);
  }

  lemma {:induction false} StartTaskInv(cfg: Config, s: State, task: Task, packets: seq<bytes>)
    requires Inv(cfg, s) && task in s.background && task.packets.None? && s.sessionKey.Some?
    ensures Inv(cfg, s.(background := s.background - {task} + {Task(task.frame, Some(packets))},
                        log := s.log.(sent := s.log.sent + [ReplySent(s, task.frame, packets)])))
  {
    var sent := ReplySent(s, task.frame, packets);
    var t := s.(background := s.background - {task} + {Task(task.frame, Some(packets))},
                log := s.log.(sent := s.log.sent + [sent]));
    StartTaskNumbers(s, t, task, packets, sent);
    assert Replies(t);
    CompletedMore(s.log, t.log, AskInfo, s.log.info);
    CompletedMore(s.log, t.log, AskPair, s.log.paired);
    CompletedMore(s.log, t.log, AskStatus, s.log.status);
    assert Keys(cfg, t) by {
      forall i | 0 <= i < |t.log.sent|
        ensures ProperlyKeyed(cfg, t.log.info, t.log.sent[i])
      {
        if i < |s.log.sent| { assert ProperlyKeyed(cfg, s.log.info, s.log.sent[i]); }
      }
    }
  }

  lemma {:induction false} StartTaskNumbers(s: State, t: State, task: Task, packets: seq<bytes>, sent: Sent)
    requires Numbers(s) && task in s.background && task.packets.None? && sent.frame == task.frame
    requires t.counter == s.counter && t.log.issued == s.log.issued && t.log.sent == s.log.sent + [sent]
    requires t.background == s.background - {task} + {Task(task.frame, Some(packets))}
    ensures Numbers(t)
  {
    assert Issued(s.log.issued, task.frame);
    forall i | 0 <= i < |t.log.sent|
      ensures Issued(t.log.issued, t.log.sent[i].frame)
    {
      if i < |s.log.sent| { assert Issued(s.log.issued, s.log.sent[i].frame); }
    }
  }

  lemma {:induction false} BegunTaskInv(cfg: Config, s: State, task: Task, packets: seq<bytes>)
    requires Inv(cfg, s) && task in s.background && task.packets.None? && s.sessionKey.Some?
    ensures Inv(cfg, s.(background := s.background - {task} + {Task(task.frame, Some(packets))},
                        log := s.log.(sent := s.log.sent + [ReplySent(s, task.frame, packets)])
                                    .Handed(task.frame.sequenceNumber, packets)))
  {
    StartTaskInv(cfg, s, task, packets);
    var sent := ReplySent(s, task.frame, packets);
    var t := s.(background := s.background - {task} + {Task(task.frame, Some(packets))},
                log := s.log.(sent := s.log.sent + [sent]));
    HandedInv(cfg, t, task.frame.sequenceNumber, packets);
  }

  lemma {:induction false} WrittenTaskInv(cfg: Config, s: State, task: Task, packets: seq<bytes>)
    requires Inv(cfg, s) && task in s.background && task.packets.Some?
    ensures Inv(cfg, s.(background := s.background - {task} + {Task(task.frame, Some(packets))},
                        log := s.log.Handed(task.frame.sequenceNumber, packets)))
  {
    ContinueTaskInv(cfg, s, task, packets);
    var t := s.(background := s.background - {task} + {Task(task.frame, Some(packets))});
    HandedInv(cfg, t, task.frame.sequenceNumber, packets);
  }

  lemma {:induction false} RunReplyInv(cfg: Config, s: State, task: Task, io: Io, vector: Vector)
    requires Inv(cfg, s)
    ensures Inv(cfg, RunReply(cfg, s, task, io, vector))
  {
    if task in s.background {
      if task.packets.None? {
        TaskBeginsInv(cfg, s, task, io, vector);
      } else if io.Succeeds? && |task.packets.value| > 1 {
        WrittenTaskInv(cfg, s, task, task.packets.value[1..]);
      } else {
        DropTaskInv(cfg, s, task);
      }
    }
  }

  lemma {:induction false} TaskBeginsInv(cfg: Config, s: State, task: Task, io: Io, vector: Vector)
    requires Inv(cfg, s) && task in s.background && task.packets.None?
    ensures Inv(cfg, RunReply(cfg, s, task, io, vector))
  {
    if s.sessionKey.None? {
      DropTaskInv(cfg, s, task);
    } else {
      var r := PacketsOf(cfg, s, task.frame, s.sessionKey.value, SESSION_FLAG, vector);
      if r.Ok? {
        BegunTaskInv(cfg, s, task, r.value);
      } else {
        DropTaskInv(cfg, s, task);
      }
    }
  }

  // ----- runs -----

  lemma {:induction false} StepInv(cfg: Config, s: State, event: Event)
    requires Inv(cfg, s)
    ensures Inv(cfg, Step(cfg, s, event))
  {
    match event
    case Begins => BeginInv(cfg, s);
    case Interrupts(interrupt) => RequestInterruptInv(cfg, s, interrupt);
    case Resumes(io, vector) => ResumeInv(cfg, s, io, vector);
    case Notifies(chunk, clock, clockReply) => NotifyInv(cfg, s, chunk, clock, clockReply);
    case ReplyRuns(task, io, vector) => RunReplyInv(cfg, s, task, io, vector);
  }

  lemma {:induction false} RunInv(cfg: Config, s: State, events: seq<Event>)
    requires Inv(cfg, s)
    ensures Inv(cfg, Run(cfg, s, events))
    decreases |events|
  {
    if events != [] {
      StepInv(cfg, s, events[0]);
      RunInv(cfg, Step(cfg, s, events[0]), events[1..]);
    }
  }

  /** The invariant holds in every state a client reaches from its construction on. */
  lemma {:induction false} Reachable(cfg: Config, events: seq<Event>)
    ensures Inv(cfg, Run(cfg, INITIAL, events))
  {
    InitialInv(cfg);
    RunInv(cfg, INITIAL, events);
  }
}
