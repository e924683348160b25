/** What the invariant means for a caller, over every run of a client. */
module Guarantees {
  import opened Bytes
  import opened Cbc
  import opened Frames
  import opened Fragments
  import opened Reassembly
  import opened DataPoints
  import opened Commands
  import opened Session
  import opened Invariants
  import opened Preservation

  // ----- sequence numbers and matching -----

  /** In every reachable state the counter is one more than the requests and replies issued since the reset, no two
      frames were written under one number, and what may be pending is at most the request being waited for; 0 never
      is. */
  lemma {:induction false} NumbersNeverReused(cfg: Config, events: seq<Event>)
    ensures var s := Run(cfg, INITIAL, events);
            && s.counter - 1 == |s.log.issued|
            && (forall i, j :: 0 <= i < j < |s.log.sent| ==>
                  s.log.sent[i].frame.sequenceNumber != s.log.sent[j].frame.sequenceNumber)
            && (forall i :: 0 <= i < |s.log.sent| ==> 0 < s.log.sent[i].frame.sequenceNumber < s.counter)
            && (forall n :: n in s.pending ==> 0 < n < s.counter)
            && (forall m, n :: m in s.pending && n in s.pending ==> m == n)
  {
    Reachable(cfg, events);
    var s := Run(cfg, INITIAL, events);
    forall i | 0 <= i < |s.log.sent|
      ensures 0 < s.log.sent[i].frame.sequenceNumber < s.counter
    {
      assert Issued(s.log.issued, s.log.sent[i].frame);
    }
  }

  /** In every reachable state each request was completed at most once, by a frame quoting its number. */
  lemma {:induction false} CompletedOnce(cfg: Config, events: seq<Event>)
    ensures var s := Run(cfg, INITIAL, events);
            && (forall i :: 0 <= i < |s.log.answered| ==>
                  var (n, reply) := s.log.answered[i];
                  reply.responseTo == n && 0 < n <= |s.log.issued| && s.log.issued[n - 1].ForRequest?)
            && (forall i, j :: 0 <= i < j < |s.log.answered| ==> s.log.answered[i].0 != s.log.answered[j].0)
  {
    Reachable(cfg, events);
  }

  /** A frame completes only the request whose number it quotes; and one that quotes the number of a completed
      request, or none at all, completes nothing. */
  lemma {:induction false} DuplicatesIgnored(
      cfg: Config, events: seq<Event>, frame: Frame, clock: int, clockReply: bytes)
    ensures var s := Run(cfg, INITIAL, events);
            var t := Dispatch(cfg, s, frame, clock, clockReply).0;
            && (t.log.answered == s.log.answered || t.log.answered == s.log.answered + [(frame.responseTo, frame)])
            && ((exists i :: 0 <= i < |s.log.answered| && s.log.answered[i].0 == frame.responseTo)
                || frame.responseTo == 0 ==>
                  t.log.answered == s.log.answered && t.futures == s.futures && t.pending == s.pending)
  {
    Reachable(cfg, events);
    var s := Run(cfg, INITIAL, events);
    if (exists i :: 0 <= i < |s.log.answered| && s.log.answered[i].0 == frame.responseTo) || frame.responseTo == 0 {
      NotPending(cfg, s, frame.responseTo);
    }
    DispatchCompletes(cfg, s, frame, clock, clockReply);
  }

  lemma {:induction false} NotPending(cfg: Config, s: State, n: nat)
    requires Inv(cfg, s)
    requires (exists i :: 0 <= i < |s.log.answered| && s.log.answered[i].0 == n) || n == 0
    ensures n !in s.pending
  {
    if i :| 0 <= i < |s.log.answered| && s.log.answered[i].0 == n {
      assert s.log.answered[i].0 !in s.pending;
    }
  }

  lemma {:induction false} DispatchCompletes(cfg: Config, s: State, frame: Frame, clock: int, clockReply: bytes)
    ensures var t := Dispatch(cfg, s, frame, clock, clockReply).0;
            && (t.log.answered == s.log.answered || t.log.answered == s.log.answered + [(frame.responseTo, frame)])
            && (frame.responseTo !in s.pending ==>
                  t.log.answered == s.log.answered && t.futures == s.futures && t.pending == s.pending)
  {
    var u := Forget(s, frame.responseTo);
    if frame.responseTo !in s.pending {
      assert u.pending == s.pending;
    }
  }

  /** A request that has been cancelled is not waited for any more. */
  ghost predicate CancelledIsFinal(s: State) {
    s.phase.Awaiting? && s.interrupt != NoInterrupt ==>
      s.phase.number in s.futures && !s.futures[s.phase.number].Waiting?
  }

  lemma {:induction false} CancelledStep(cfg: Config, s: State, event: Event)
    requires Inv(cfg, s) && CancelledIsFinal(s)
    ensures CancelledIsFinal(Step(cfg, s, event))
  {
    match event
    case Notifies(chunk, clock, clockReply) => NotifyCancels(cfg, s, chunk, clock, clockReply);
    case Resumes(io, vector) => ResumeUninterrupted(cfg, s, io, vector);
    case _ =>
  }

  lemma {:induction false} ResumeUninterrupted(cfg: Config, s: State, io: Io, vector: Vector)
    ensures var t := Resume(cfg, s, io, vector);
            t.phase.Awaiting? ==> t.interrupt == NoInterrupt
  {
    if s.interrupt != NoInterrupt {
      InterruptedNotAwaiting(s);
    } else if s.phase.Awaiting? {
      AwaitedUninterrupted(cfg, s, vector);
    }
  }

  lemma {:induction false} InterruptedNotAwaiting(s: State)
    requires s.interrupt != NoInterrupt
    ensures !Interrupted(s).phase.Awaiting?
  {}

  lemma {:induction false} AwaitedUninterrupted(cfg: Config, s: State, vector: Vector)
    requires s.interrupt == NoInterrupt && s.phase.Awaiting?
    ensures forall io :: Resume(cfg, s, io, vector).interrupt == NoInterrupt
  {}

  /** A future that has been completed or cancelled stays so. */
  predicate NoneReopened(s: State, t: State) {
    forall n :: n in s.futures ==> n in t.futures && (t.futures[n].Waiting? ==> s.futures[n].Waiting?)
  }

  lemma {:induction false} DispatchReopensNone(cfg: Config, s: State, frame: Frame, clock: int, clockReply: bytes)
    ensures NoneReopened(s, Dispatch(cfg, s, frame, clock, clockReply).0)
  {
    match CommandCode.FromValue(frame.code)
    case None =>
    case Some(code) =>
      var t := Forget(s, frame.responseTo);
      assert HandleDeviceCommand(cfg, t, code, frame, clock, clockReply).0.futures == s.futures;
  }

  lemma {:induction false} NotifyReopensNone(cfg: Config, s: State, chunk: bytes, clock: int, clockReply: bytes)
    ensures NoneReopened(s, Notify(cfg, s, chunk, clock, clockReply).0)
  {
    var (assembly, fed) := FeedChunk(s.assembly, chunk);
    var t := s.(assembly := assembly);
    if fed.Ok? && fed.value.Some? && fed.value.value != [] {
      var key := KeyFor(cfg, t, fed.value.value[0]);
      if key.Some? {
        var frame := Decode(cfg.cipher, fed.value.value, key.value);
        if frame.Ok? {
          DispatchReopensNone(cfg, t, frame.value, clock, clockReply);
        }
      }
    }
  }

  lemma {:induction false} NotifyCancels(cfg: Config, s: State, chunk: bytes, clock: int, clockReply: bytes)
    requires CancelledIsFinal(s)
    ensures CancelledIsFinal(Notify(cfg, s, chunk, clock, clockReply).0)
  {
    NotifyKeeps(cfg, s, chunk, clock, clockReply);
    NotifyReopensNone(cfg, s, chunk, clock, clockReply);
  }

  lemma {:induction false} RunCancelled(cfg: Config, events: seq<Event>)
    ensures CancelledIsFinal(Run(cfg, INITIAL, events))
    decreases |events|
  {
    if events != [] {
      var earlier := events[..|events| - 1];
      RunCancelled(cfg, earlier);
      Reachable(cfg, earlier);
      RunLast(cfg, INITIAL, events);
      CancelledStep(cfg, Run(cfg, INITIAL, earlier), events[|events| - 1]);
    }
  }

  /** Once a wait has timed out or been cancelled, no frame completes the request, in any reachable state; and
      whatever a frame quotes is not pending after it. */
  lemma {:induction false} CancelledNotCompleted(
      cfg: Config, events: seq<Event>, frame: Frame, clock: int, clockReply: bytes)
    ensures var s := Run(cfg, INITIAL, events);
            var t := Dispatch(cfg, s, frame, clock, clockReply).0;
            && (s.phase.Awaiting? && s.interrupt != NoInterrupt ==> t.log.answered == s.log.answered)
            && frame.responseTo !in t.pending
  {
    Reachable(cfg, events);
    RunCancelled(cfg, events);
    DispatchAnswers(cfg, Run(cfg, INITIAL, events), frame, clock, clockReply);
  }

  lemma {:induction false} DispatchAnswers(cfg: Config, s: State, frame: Frame, clock: int, clockReply: bytes)
    ensures var t, n := Dispatch(cfg, s, frame, clock, clockReply).0, frame.responseTo;
            && n !in t.pending
            && (!(n in s.pending && n in s.futures && s.futures[n].Waiting?) ==> t.log.answered == s.log.answered)
  {
    match CommandCode.FromValue(frame.code)
    case None =>
    case Some(code) =>
      var t := Forget(s, frame.responseTo);
      assert HandleDeviceCommand(cfg, t, code, frame, clock, clockReply).0.pending == t.pending;
  }

  // ----- the handshake and its keys -----

  /** In every reachable state the requests made so far are a prefix of the handshake; the device-information request,
      and nothing else, was sent under the login key and flag; everything else went out under the session flag and the
      key that follows from a reply to this session's own device-information request. */
  lemma {:induction false} KeyDiscipline(cfg: Config, events: seq<Event>)
    ensures var s := Run(cfg, INITIAL, events);
            && RequestsOf(s.log.issued) <= [AskInfo, AskPair, AskStatus]
            && (forall i :: 0 <= i < |s.log.sent| ==> SentAsItShould(cfg, s, s.log.sent[i]))
  {
    Reachable(cfg, events);
    var s := Run(cfg, INITIAL, events);
    forall i | 0 <= i < |s.log.sent|
      ensures SentAsItShould(cfg, s, s.log.sent[i])
    {
      SentProperly(cfg, s, i);
    }
  }

  ghost predicate SentAsItShould(cfg: Config, s: State, sent: Sent) {
    && Issued(s.log.issued, sent.frame)
    && var origin := s.log.issued[sent.frame.sequenceNumber - 1];
       if origin == ForRequest(AskInfo)
       then sent.flag == 4 && sent.key == cfg.loginKey
       else && sent.flag == 5
            && s.log.info.Some? && Completed(s.log, AskInfo, s.log.info.value)
            && |s.log.info.value.data| >= 46
            && sent.key == cfg.derive(s.log.info.value.data[6..12])
  }

  lemma {:induction false} SentProperly(cfg: Config, s: State, i: nat)
    requires Inv(cfg, s) && i < |s.log.sent|
    ensures SentAsItShould(cfg, s, s.log.sent[i])
  {
    var sent := s.log.sent[i];
    assert ProperlyKeyed(cfg, s.log.info, sent) && Issued(s.log.issued, sent.frame);
    var origin := s.log.issued[sent.frame.sequenceNumber - 1];
    if origin.ForReply? {
      assert origin.code >= 0x8000;
    }
  }

  /** The read is about to take up this record. */
  predicate TakesUp(s: State, event: Event) {
    && event.Resumes? && s.interrupt == NoInterrupt && s.phase.Awaiting? && s.phase.kind == AskInfo
    && s.phase.number in s.futures && s.futures[s.phase.number].Answered?
    && |s.futures[s.phase.number].frame.data| >= 46
  }

  /** The last record a client has taken up in this run, if any. */
  function LastRecord(cfg: Config, events: seq<Event>): Option<bytes>
    decreases |events|
  {
    if events == [] then None
    else
      var n := |events| - 1;
      var s := Run(cfg, INITIAL, events[..n]);
      if TakesUp(s, events[n]) then Some(s.futures[s.phase.number].frame.data) else LastRecord(cfg, events[..n])
  }

  /** What is kept of a record over the end of its session. */
  predicate Kept(s: State, record: Option<bytes>) {
    match record
    case None => s.authenticationKey == None && s.protocolVersion == 3
    case Some(data) => |data| >= 46 && s.authenticationKey == Some(data[14..46]) && s.protocolVersion == data[2]
  }

  lemma {:induction false} KeptStep(cfg: Config, s: State, event: Event)
    ensures var t := Step(cfg, s, event);
            if TakesUp(s, event) then Kept(t, Some(s.futures[s.phase.number].frame.data))
            else t.authenticationKey == s.authenticationKey && t.protocolVersion == s.protocolVersion
  {
    match event
    case Notifies(chunk, clock, clockReply) => NotifyKeeps(cfg, s, chunk, clock, clockReply);
    case Resumes(io, vector) =>
      if s.interrupt == NoInterrupt && s.phase.Awaiting? {
        KeptAwaiting(cfg, s, vector);
      }
    case _ =>
  }

  lemma {:induction false} KeptAwaiting(cfg: Config, s: State, vector: Vector)
    requires s.interrupt == NoInterrupt && s.phase.Awaiting?
    ensures forall io ::
              var t := Resume(cfg, s, io, vector);
              if TakesUp(s, Resumes(io, vector)) then Kept(t, Some(s.futures[s.phase.number].frame.data))
              else t.authenticationKey == s.authenticationKey && t.protocolVersion == s.protocolVersion
  {}

  /** In every reachable state, authentication key and protocol version are those of the last record taken up, in this
      session or before; without one, there is no such key and the version is 3. */
  lemma {:induction false} LastRecordKept(cfg: Config, events: seq<Event>)
    ensures Kept(Run(cfg, INITIAL, events), LastRecord(cfg, events))
    decreases |events|
  {
    if events != [] {
      var n := |events| - 1;
      LastRecordKept(cfg, events[..n]);
      RunLast(cfg, INITIAL, events);
      KeptStep(cfg, Run(cfg, INITIAL, events[..n]), events[n]);
    }
  }

  /** The keys a client holds for what it receives, in every reachable state: its login key always; a session key
      exactly once this session's own record has been adopted, and then the one that follows from it; the authentication
      key of the last record taken up; and none under any other flag. */
  lemma {:induction false} KeysHeld(cfg: Config, events: seq<Event>, flag: byte, key: bytes)
    ensures var s, record := Run(cfg, INITIAL, events), LastRecord(cfg, events);
            KeyFor(cfg, s, flag) == Some(key) <==>
              || (flag == 4 && key == cfg.loginKey)
              || (flag == 5 && s.log.info.Some? && |s.log.info.value.data| >= 46
                  && key == cfg.derive(s.log.info.value.data[6..12]))
              || (flag == 1 && record.Some? && |record.value| >= 46 && key == record.value[14..46])
  {
    Reachable(cfg, events);
    LastRecordKept(cfg, events);
  }

  // ----- outcomes -----

  /** However a read ends, the log of its session justifies it: a result needs all three requests answered, a record
      of 46 octets, a verdict of 0 or 2 and a quiet period; rejected credentials need a one-octet verdict that is
      neither; a timeout or a deadline needs its timer to have fired, and a failure of the radio an operation that
      failed that way, in this very session. Only the caller's cancellation may come after the reset. An error outside
      the SDK's hierarchy means a protocol version that does not fit its field, a counter past 32 bits, a foreign
      failure of a write, or that cancellation. */
  lemma {:induction false} OutcomesJustified(cfg: Config, events: seq<Event>)
    ensures var s := Run(cfg, INITIAL, events);
            s.phase.Idle? && s.result.Some? ==>
              && (|| Justified(cfg, s.evidence, s.protocolVersion, s.result.value)
                  || (s.result.value == Raised(CallerCancelled) && CallerCancel in s.log.fired))
              && (s.result.value.Raised? && !s.result.value.error.IsTuyaBleError() ==>
                    || OutsideTheSdk(s.evidence, s.protocolVersion, s.result.value.error)
                    || (s.result.value.error == CallerCancelled && CallerCancel in s.log.fired))
  {
    Reachable(cfg, events);
    var s := Run(cfg, INITIAL, events);
    if s.result.Some? && s.result.value.Raised? && Justified(cfg, s.evidence, s.protocolVersion, s.result.value) {
      JustifiedOutside(cfg, s.evidence, s.protocolVersion, s.result.value.error);
    }
  }

  /** What the log of a session shows when it ends in an error that is not one of the SDK's. */
  predicate OutsideTheSdk(log: Log, version: nat, error: Error) {
    match error
    case ForeignError => FailsOther in log.failed
    case CallerCancelled => CallerCancel in log.fired
    case StructError => version > 15 || |log.issued| >= 0x1_0000_0000
    case _ => false
  }

  lemma {:induction false} JustifiedOutside(cfg: Config, log: Log, version: nat, error: Error)
    requires Justified(cfg, log, version, Raised(error))
    ensures error.IsTuyaBleError() || OutsideTheSdk(log, version, error)
  {}

  /** When a request cannot be packed at all: exactly when the version or the number does not fit. */
  lemma {:induction false} StructErrorExactly(
      cfg: Config, s: State, kind: Kind, data: bytes, key: Option<bytes>, flag: byte, vector: Vector)
    requires s.link && (key.Some? || s.sessionKey.Some?) && |data| <= 44
    ensures var t := StartRequest(cfg, s, kind, data, key, flag, vector);
            && (t.phase == Disconnecting(Raised(StructError)) <==>
                  s.protocolVersion > 15 || s.counter >= 0x1_0000_0000)
            && (t.phase != Disconnecting(Raised(StructError)) ==>
                  (t.phase.Writing? || t.phase.Awaiting?) && t.phase.kind == kind && t.phase.number == s.counter)
  {
    var t := Register(s, kind);
    var chosen := if key.Some? then key else s.sessionKey;
    var frame := Frame(s.counter, 0, kind.Code().Value(), data);
    PacketsExactly(cfg, t, frame, chosen.value, flag, vector);
  }

  // ----- teardown -----

  /** The state a session leaves behind: constructor values everywhere but for the two parameters that are kept. */
  ghost predicate TornDown(s: State, t: State) {
    && !t.link && t.pending == {} && t.sessionKey == None && t.counter == 1 && t.assembly == FRESH
    && t.reports == [] && t.background == {} && t.interrupt == NoInterrupt && t.log == EMPTY_LOG
    && t.links == s.links && t.disconnects == s.disconnects + (if s.link then 1 else 0)
    && (if s.link then t.phase.Disconnecting? else t.phase.Idle? && t.result.Some?)
  }

  lemma {:induction false} UnwindTearsDown(s: State, t: State, outcome: Outcome)
    requires t.link == s.link && t.links == s.links && t.disconnects == s.disconnects
    ensures TornDown(s, Unwind(t, outcome)) && !Unwind(t, outcome).phase.Active()
  {}

  /** A step that stays in the session or leaves it torn down. */
  ghost predicate StaysOrLeaves(s: State, t: State) {
    t.phase.Active() || TornDown(s, t)
  }

  lemma {:induction false} StartRequestExit(
      cfg: Config, s: State, t: State, kind: Kind, data: bytes, key: Option<bytes>, flag: byte, vector: Vector)
    requires t.link == s.link && t.links == s.links && t.disconnects == s.disconnects
    ensures StaysOrLeaves(s, StartRequest(cfg, t, kind, data, key, flag, vector))
  {
    var u := Forget(Register(t, kind), t.counter);
    forall outcome
      ensures TornDown(s, Unwind(u, outcome))
    {
      UnwindTearsDown(s, u, outcome);
    }
  }

  lemma {:induction false} ProceedExit(cfg: Config, s: State, t: State, kind: Kind, frame: Frame, vector: Vector)
    requires t.link == s.link && t.links == s.links && t.disconnects == s.disconnects
    ensures StaysOrLeaves(s, Proceed(cfg, t, kind, frame, vector))
  {
    match kind {
      case AskInfo =>
        match ParseDeviceInfo(frame.data) {
          case Err(e) => UnwindTearsDown(s, t, Raised(e));
          case Ok(info) =>
            var u := Adopt(cfg, t, info, frame);
            match PairingRequest(cfg.uuid, cfg.material, cfg.deviceId) {
              case Err(e) => UnwindTearsDown(s, u, Raised(e));
              case Ok(request) => StartRequestExit(cfg, s, u, AskPair, request, None, SESSION_FLAG, vector);
            }
        }
      case AskPair =>
        var u := t.(log := t.log.(paired := Some(frame)));
        match VerifyPairingResult(frame.data) {
          case Err(e) => UnwindTearsDown(s, u, Raised(e));
          case Ok(_) => StartRequestExit(cfg, s, u, AskStatus, [], None, SESSION_FLAG, vector);
        }
      case AskStatus =>
    }
  }

  lemma {:induction false} InterruptedExit(s: State)
    requires s.phase.Active()
    ensures StaysOrLeaves(s, Interrupted(s))
  {
    var t := if s.phase.Writing? || s.phase.Awaiting? then Forget(s, s.phase.number) else s;
    forall outcome
      ensures TornDown(s, Unwind(t, outcome))
    {
      UnwindTearsDown(s, t, outcome);
    }
  }

  lemma {:induction false} PacketWrittenExit(s: State, io: Io)
    requires s.phase.Writing?
    ensures StaysOrLeaves(s, PacketWritten(s, io))
  {
    var t := Forget(s, s.phase.number);
    forall outcome
      ensures TornDown(s, Unwind(t, outcome))
    {
      UnwindTearsDown(s, t, outcome);
    }
  }

  lemma {:induction false} ResumeExit(cfg: Config, s: State, io: Io, vector: Vector)
    requires s.phase.Active()
    ensures StaysOrLeaves(s, Resume(cfg, s, io, vector))
  {
    if s.interrupt != NoInterrupt {
      InterruptedExit(s);
    } else {
      match s.phase
      case Connecting => UnwindTearsDown(s, s, Raised(ConnectFailed));
      case Subscribing =>
        UnwindTearsDown(s, s, Raised(ConnectFailed));
        StartRequestExit(cfg, s, s, AskInfo, [], Some(cfg.loginKey), LOGIN_FLAG, vector);
      case Writing(_, _, _) => PacketWrittenExit(s, io);
      case Awaiting(kind, number) =>
        if number in s.futures && s.futures[number].Answered? {
          ProceedExit(cfg, s, Forget(s, number), kind, s.futures[number].frame, vector);
        }
      case Collecting(_) =>
    }
  }

  /** Every way out of an active session goes through the reset block and disconnects an open link exactly once. */
  lemma {:induction false} EveryExitTearsDown(cfg: Config, s: State, event: Event)
    requires s.phase.Active() && !Step(cfg, s, event).phase.Active()
    ensures TornDown(s, Step(cfg, s, event))
  {
    match event
    case Resumes(io, vector) => ResumeExit(cfg, s, io, vector);
    case Notifies(chunk, clock, clockReply) => NotifyKeeps(cfg, s, chunk, clock, clockReply);
    case Begins =>
    case Interrupts(_) =>
    case ReplyRuns(_, _, _) =>
  }

  /** Over any run, links opened and disconnects attempted differ by the link that is still open; between reads nothing
      is. */
  lemma {:induction false} LinksBalanced(cfg: Config, events: seq<Event>)
    ensures var s := Run(cfg, INITIAL, events);
            && s.links == s.disconnects + (if s.link then 1 else 0)
            && (s.link <==> s.phase.Active() && !s.phase.Connecting?)
  {
    Reachable(cfg, events);
  }

  /** A session whose deadline, or whose caller, has cancelled it, still where it was. */
  predicate Doomed(s: State, u: State) {
    && u.phase == s.phase && u.link == s.link && u.links == s.links && u.disconnects == s.disconnects
    && (u.interrupt == CallerCancel || u.interrupt == SessionDeadline)
  }

  /** Nothing but a resumption of the read changes that; a cancellation by the caller prevails. */
  lemma {:induction false} StillDoomed(cfg: Config, s: State, u: State, between: seq<Event>)
    requires s.phase.Active() && Doomed(s, u) && forall i :: 0 <= i < |between| ==> !between[i].Resumes?
    ensures var t := Run(cfg, u, between);
            && Doomed(s, t)
            && (t.interrupt == CallerCancel <==>
                  u.interrupt == CallerCancel || Interrupts(CallerCancel) in between)
    decreases |between|
  {
    if between != [] {
      var t := Step(cfg, u, between[0]);
      DoomedStep(cfg, s, u, between[0]);
      StillDoomed(cfg, s, t, between[1..]);
      assert between == [between[0]] + between[1..];
    }
  }

  lemma {:induction false} DoomedStep(cfg: Config, s: State, u: State, event: Event)
    requires s.phase.Active() && Doomed(s, u) && !event.Resumes?
    ensures var t := Step(cfg, u, event);
            && Doomed(s, t)
            && (t.interrupt == CallerCancel <==> u.interrupt == CallerCancel || event == Interrupts(CallerCancel))
  {
    match event
    case Notifies(chunk, clock, clockReply) => NotifyKeeps(cfg, u, chunk, clock, clockReply);
    case ReplyRuns(task, io, vector) => RunReplyApart(cfg, u, task, io, vector);
    case _ =>
  }

  /** The read ends so: at once if there is no link, by way of the disconnect if there is. */
  predicate Ends(s: State, t: State, outcome: Outcome) {
    if s.link then t.phase == Disconnecting(outcome) else t.phase.Idle? && t.result == Some(outcome)
  }

  /** What the timer of an await makes of the read, by the await it guards, and what the caller's cancellation does. */
  lemma {:induction false} CancellationOutcome(cfg: Config, s: State, io: Io, vector: Vector)
    requires s.interrupt == NoInterrupt
    ensures var t := Step(cfg, Step(cfg, s, Interrupts(WaitTimeout)), Resumes(io, vector));
            match s.phase
            case Connecting => Ends(s, t, Raised(ConnectFailed))
            case Awaiting(kind, _) =>
              Ends(s, t, Raised(if kind == AskInfo then HandshakeUnanswered else Unanswered))
            case Collecting(collected) => Ends(s, t, Returned(collected))
            case Disconnecting(outcome) => t.phase.Idle? && t.result == Some(outcome)
            case _ => t == Step(cfg, s, Resumes(io, vector))
    ensures var t := Step(cfg, Step(cfg, s, Interrupts(CallerCancel)), Resumes(io, vector));
            match s.phase
            case Idle => t == s
            case Disconnecting(_) => t.phase.Idle? && t.result == Some(Raised(CallerCancelled))
            case _ => Ends(s, t, Raised(CallerCancelled))
  {
    TimerOutcome(cfg, s, io, vector);
    CallerOutcome(cfg, s, io, vector);
  }

  lemma {:induction false} TimerOutcome(cfg: Config, s: State, io: Io, vector: Vector)
    requires s.interrupt == NoInterrupt
    ensures var t := Step(cfg, Step(cfg, s, Interrupts(WaitTimeout)), Resumes(io, vector));
            match s.phase
            case Connecting => Ends(s, t, Raised(ConnectFailed))
            case Awaiting(kind, _) =>
              Ends(s, t, Raised(if kind == AskInfo then HandshakeUnanswered else Unanswered))
            case Collecting(collected) => Ends(s, t, Returned(collected))
            case Disconnecting(outcome) => t.phase.Idle? && t.result == Some(outcome)
            case _ => t == Step(cfg, s, Resumes(io, vector))
  {}

  lemma {:induction false} CallerOutcome(cfg: Config, s: State, io: Io, vector: Vector)
    requires s.interrupt == NoInterrupt
    ensures var t := Step(cfg, Step(cfg, s, Interrupts(CallerCancel)), Resumes(io, vector));
            match s.phase
            case Idle => t == s
            case Disconnecting(_) => t.phase.Idle? && t.result == Some(Raised(CallerCancelled))
            case _ => Ends(s, t, Raised(CallerCancelled))
  {}

  /** What each way of failing makes of the read, by what it awaits. */
  lemma {:induction false} FailureOutcome(cfg: Config, s: State, io: Io, vector: Vector)
    requires s.interrupt == NoInterrupt && !io.Succeeds?
    ensures var t := Step(cfg, s, Resumes(io, vector));
            match s.phase
            case Connecting => Ends(s, t, Raised(ConnectFailed))
            case Subscribing => Ends(s, t, Raised(ConnectFailed))
            case Writing(kind, _, _) =>
              Ends(s, t, Raised(if io.FailsBleak? then WriteFailed
                                else if io.FailsOther? then ForeignError
                                else if kind == AskInfo then HandshakeUnanswered else Unanswered))
            case Disconnecting(outcome) => t.phase.Idle? && t.result == Some(outcome)
            case _ => true
  {}

  /** The deadline is kept: from every point of a session, once it fires, and whatever is notified, cancelled or
      replied in between, the read's next step leaves the session and gives the link back, whatever the awaited
      operation does. */
  lemma {:induction false} DeadlineReleasesLink(cfg: Config, s: State, between: seq<Event>, io: Io, vector: Vector)
    requires s.phase.Active() && forall i :: 0 <= i < |between| ==> !between[i].Resumes?
    ensures var u := Step(cfg, s, Interrupts(SessionDeadline));
            var t := Step(cfg, Run(cfg, u, between), Resumes(io, vector));
            var cancelled := s.interrupt == CallerCancel || Interrupts(CallerCancel) in between;
            var outcome := Raised(if cancelled then CallerCancelled else SessionOutlasted);
            && TornDown(s, t)
            && if s.link then t.phase == Disconnecting(outcome) else t.result == Some(outcome)
  {
    var u := RequestInterrupt(s, SessionDeadline);
    assert u.interrupt == if s.interrupt == CallerCancel then CallerCancel else SessionDeadline;
    StillDoomed(cfg, s, u, between);
    DeadlineDelivered(s, Run(cfg, u, between));
  }

  lemma {:induction false} DeadlineDelivered(s: State, u: State)
    requires u.phase.Active() && (u.interrupt == CallerCancel || u.interrupt == SessionDeadline)
    requires u.link == s.link && u.links == s.links && u.disconnects == s.disconnects
    ensures var t := Interrupted(u);
            && TornDown(s, t)
            && var outcome := Raised(if u.interrupt == CallerCancel then CallerCancelled else SessionOutlasted);
               if s.link then t.phase == Disconnecting(outcome) else t.result == Some(outcome)
  {
    var v := if u.phase.Writing? || u.phase.Awaiting? then Forget(u, u.phase.number) else u;
    var outcome := Raised(if u.interrupt == CallerCancel then CallerCancelled else SessionOutlasted);
    assert Interrupted(u) == Unwind(v, outcome);
    UnwindTearsDown(s, v, outcome);
  }

  // ----- notifications -----

  /** What a notification leaves alone. */
  ghost predicate Keeps(s: State, t: State) {
    && t.link == s.link && t.sessionKey == s.sessionKey && t.authenticationKey == s.authenticationKey
    && t.protocolVersion == s.protocolVersion && t.phase == s.phase && t.interrupt == s.interrupt
    && t.result == s.result && t.links == s.links && t.disconnects == s.disconnects
    && t.log.sent == s.log.sent && t.log.wire == s.log.wire && t.log.drained == s.log.drained
    && t.log.info == s.log.info && t.log.paired == s.log.paired && t.log.status == s.log.status
    && t.log.fired == s.log.fired && t.log.failed == s.log.failed && t.evidence == s.evidence
  }

  lemma {:induction false} DispatchKeeps(cfg: Config, s: State, frame: Frame, clock: int, clockReply: bytes)
    ensures Keeps(s, Dispatch(cfg, s, frame, clock, clockReply).0)
  {
    var t := Forget(s, frame.responseTo);
    match CommandCode.FromValue(frame.code)
    case None =>
    case Some(code) => HandleKeeps(cfg, t, code, frame, clock, clockReply);
  }

  lemma {:induction false} HandleKeeps(
      cfg: Config, s: State, code: CommandCode, frame: Frame, clock: int, clockReply: bytes)
    ensures Keeps(s, HandleDeviceCommand(cfg, s, code, frame, clock, clockReply).0)
  {}

  lemma {:induction false} NotifyKeeps(cfg: Config, s: State, chunk: bytes, clock: int, clockReply: bytes)
    ensures Keeps(s, Notify(cfg, s, chunk, clock, clockReply).0)
  {
    var (assembly, fed) := FeedChunk(s.assembly, chunk);
    var t := s.(assembly := assembly);
    if fed.Ok? && fed.value.Some? && fed.value.value != [] {
      var payload := fed.value.value;
      var key := KeyFor(cfg, t, payload[0]);
      if key.Some? {
        var frame := Decode(cfg.cipher, payload, key.value);
        if frame.Ok? {
          DispatchKeeps(cfg, t, frame.value, clock, clockReply);
        }
      }
    }
  }

  /** Queue, counter and scheduled replies change together or not at all, and only errors of the SDK are raised. */
  ghost predicate AllOrNothing(s: State, after: (State, Result<()>)) {
    var (t, r) := after;
    && (r.Err? ==> r.error.IsTuyaBleError() && t.counter == s.counter && t.log.answered == s.log.answered)
    && (t.counter == s.counter ==> t.reports == s.reports && t.background == s.background)
    && (t.counter != s.counter ==>
          && t.counter == s.counter + 1 && t.log.answered == s.log.answered
          && (t.reports == s.reports || exists points :: points != [] && t.reports == s.reports + [points])
          && exists task: Task :: && task.frame.sequenceNumber == s.counter && task.packets == None
                                  && t.background == s.background + {task})
  }

  /** The callback never lets anything but the SDK's own errors arise, all of which it swallows; and a notification is
      all or nothing: unless it is read to the end, queue, counter and scheduled replies are as before; and otherwise
      it schedules at most one reply and queues at most one report, a report only together with its reply. */
  lemma {:induction false} NotifyAllOrNothing(cfg: Config, s: State, chunk: bytes, clock: int, clockReply: bytes)
    ensures AllOrNothing(s, Notify(cfg, s, chunk, clock, clockReply))
  {
    var (assembly, fed) := FeedChunk(s.assembly, chunk);
    FeedRaises(s.assembly, chunk);
    var t := s.(assembly := assembly);
    if fed.Ok? && fed.value.Some? && fed.value.value != [] {
      var payload := fed.value.value;
      var key := KeyFor(cfg, t, payload[0]);
      if key.Some? {
        DecodeRaises(cfg.cipher, payload, key.value);
        var frame := Decode(cfg.cipher, payload, key.value);
        if frame.Ok? {
          DispatchAllOrNothing(cfg, t, frame.value, clock, clockReply);
        }
      }
    }
  }

  lemma {:induction false} FeedRaises(s: Assembly, chunk: bytes)
    ensures FeedChunk(s, chunk).1.Err? ==> FeedChunk(s, chunk).1.error.IsTuyaBleError()
  {
    Varint.UnpackRaises(chunk, 0);
    match Varint.Unpack(chunk, 0)
    case Err(_) =>
    case Ok((_, position)) => Varint.UnpackRaises(chunk, position);
  }

  lemma {:induction false} DecodeRaises(cipher: Cipher, payload: bytes, key: bytes)
    ensures Decode(cipher, payload, key).Err? ==> Decode(cipher, payload, key).error.IsTuyaBleError()
  {}

  lemma {:induction false} ReportRaises(cfg: Config, frame: Frame, timed: bool, clock: int)
    ensures ReportOf(cfg, frame, timed, clock).Err? ==> ReportOf(cfg, frame, timed, clock).error.IsTuyaBleError()
  {
    if !timed {
      ParseRaises(cfg.decoders, frame.data, 0, Reception(clock));
    } else {
      match ParseTimestamp(cfg.decoders, frame.data, 0)
      case Err(_) =>
      case Ok((moment, position)) => ParseRaises(cfg.decoders, frame.data, position, moment);
    }
  }

  /** A dispatched report frame either parses, giving one reply that quotes its number and code and one queue entry
      exactly when it holds a datapoint, or leaves queue, counter and replies unchanged. */
  lemma {:induction false} ReportAllOrNothing(
      cfg: Config, s: State, code: CommandCode, frame: Frame, clock: int, clockReply: bytes)
    requires code.ReceiveDataPoint? || code.ReceiveTimeDataPoint?
    ensures var (t, r) := HandleDeviceCommand(cfg, s, code, frame, clock, clockReply);
            match ReportOf(cfg, frame, code.ReceiveTimeDataPoint?, clock)
            case Err(e) => t == s && r == Err(e) && e.IsTuyaBleError()
            case Ok(points) =>
              && t.background == s.background + {Task(Frame(s.counter, frame.sequenceNumber, frame.code, []), None)}
              && t.counter == s.counter + 1
              && t.reports == s.reports + (if points != [] then [points] else [])
  {
    ReportRaises(cfg, frame, code.ReceiveTimeDataPoint?, clock);
    assert s.reports + [] == s.reports;
  }

  /** What a frame that answers nothing makes of the client, by its code: a report, plain or with its own time, is
      queued if it holds a point, and acknowledged, if it can be read; a question for the time is answered; anything
      else changes nothing. */
  lemma {:induction false} DeviceFrame(cfg: Config, s: State, frame: Frame, clock: int, clockReply: bytes)
    requires frame.responseTo !in s.pending
    ensures var after := Dispatch(cfg, s, frame, clock, clockReply);
            if frame.code == 0x8001 then
              Reported(s, frame, ParsePoints(cfg.decoders, frame.data, 0, Reception(clock)), after)
            else if frame.code == 0x8003 then
              match ParseTimestamp(cfg.decoders, frame.data, 0)
              case Err(e) => after == (s, Err(e))
              case Ok((moment, position)) =>
                Reported(s, frame, ParsePoints(cfg.decoders, frame.data, position, moment), after)
            else if frame.code == 0x8011 || frame.code == 0x8012 then
              after == (Acknowledged(s, frame, clockReply), Ok(()))
            else after == (s, Ok(()))
  {
    assert Forget(s, frame.responseTo) == s by {
      assert s.pending - {frame.responseTo} == s.pending;
    }
    CodesOfDevice(frame.code);
    if frame.code == 0x8001 {
      ReportHandled(cfg, s, ReceiveDataPoint, frame, clock, clockReply);
    } else if frame.code == 0x8003 {
      ReportHandled(cfg, s, ReceiveTimeDataPoint, frame, clock, clockReply);
    } else if frame.code == 0x8011 || frame.code == 0x8012 {
      assert ReplyTo(s, frame, clockReply) == Acknowledged(s, frame, clockReply);
    }
  }

  /** Which codes the client acts on when the device sends them. */
  lemma {:induction false} CodesOfDevice(code: nat)
    ensures CommandCode.FromValue(code) == Some(ReceiveDataPoint) <==> code == 0x8001
    ensures CommandCode.FromValue(code) == Some(ReceiveTimeDataPoint) <==> code == 0x8003
    ensures CommandCode.FromValue(code) == Some(ReceiveUnixTimeRequest) <==> code == 0x8011
    ensures CommandCode.FromValue(code) == Some(ReceiveLocalTimeRequest) <==> code == 0x8012
  {}

  lemma {:induction false} ReportHandled(
      cfg: Config, s: State, code: CommandCode, frame: Frame, clock: int, clockReply: bytes)
    requires code.ReceiveDataPoint? || code.ReceiveTimeDataPoint?
    ensures var after := HandleDeviceCommand(cfg, s, code, frame, clock, clockReply);
            if code.ReceiveDataPoint? then
              Reported(s, frame, ParsePoints(cfg.decoders, frame.data, 0, Reception(clock)), after)
            else
              match ParseTimestamp(cfg.decoders, frame.data, 0)
              case Err(e) => after == (s, Err(e))
              case Ok((moment, position)) =>
                Reported(s, frame, ParsePoints(cfg.decoders, frame.data, position, moment), after)
  {
    match ReportOf(cfg, frame, code.ReceiveTimeDataPoint?, clock)
    case Err(_) =>
    case Ok(points) => assert ReplyTo(Publish(s, points), frame, []) == Acknowledged(Publish(s, points), frame, []);
  }

  /** The next number is taken for a reply that quotes the frame, its number and code. */
  function Acknowledged(s: State, frame: Frame, data: bytes): State {
    s.(counter := s.counter + 1,
       background := s.background + {Task(Frame(s.counter, frame.sequenceNumber, frame.code, data), None)},
       log := s.log.(issued := s.log.issued + [ForReply(frame.sequenceNumber, frame.code)]))
  }

  predicate Reported(s: State, frame: Frame, points: Result<seq<DataPoint>>, after: (State, Result<()>)) {
    match points
    case Err(e) => after == (s, Err(e))
    case Ok(read) =>
      var queued := if read == [] then s
                    else s.(reports := s.reports + [read], log := s.log.(published := s.log.published + [read]));
      after == (Acknowledged(queued, frame, []), Ok(()))
  }

  lemma {:induction false} DispatchAllOrNothing(cfg: Config, s: State, frame: Frame, clock: int, clockReply: bytes)
    ensures AllOrNothing(s, Dispatch(cfg, s, frame, clock, clockReply))
  {
    var u := Forget(s, frame.responseTo);
    match CommandCode.FromValue(frame.code)
    case None =>
    case Some(code) =>
      if code.ReceiveDataPoint? || code.ReceiveTimeDataPoint? {
        ReportAllOrNothing(cfg, u, code, frame, clock, clockReply);
        ScheduledOnce(u, frame, []);
      } else {
        ScheduledOnce(u, frame, clockReply);
      }
  }

  lemma {:induction false} ScheduledOnce(s: State, frame: Frame, data: bytes)
    ensures exists task: Task :: task.frame.sequenceNumber == s.counter && task.packets == None
                           && ReplyTo(s, frame, data).background == s.background + {task}
  {
    var task := Task(Frame(s.counter, frame.sequenceNumber, frame.code, data), None);
    assert ReplyTo(s, frame, data).background == s.background + {task};
  }

  /** A reply task, well or not, touches nothing the read depends on. */
  lemma {:induction false} RunReplyApart(cfg: Config, s: State, task: Task, io: Io, vector: Vector)
    ensures var t := RunReply(cfg, s, task, io, vector);
            t == s.(background := t.background, log := s.log.(sent := t.log.sent, wire := t.log.wire))
  {}

  // ----- reports -----

  /** The datapoints of all reports, one after another. */
  function Flatten(reports: seq<seq<DataPoint>>): seq<DataPoint> {
    if reports == [] then [] else Flatten(reports[..|reports| - 1]) + reports[|reports| - 1]
  }

  /** The mapping holds the last point of every identifier, and nothing else. */
  ghost predicate LastOfEach(m: map<byte, DataPoint>, points: seq<DataPoint>) {
    && (forall k :: k in m <==> exists i :: 0 <= i < |points| && points[i].identifier == k)
    && (forall k :: k in m ==> exists i :: 0 <= i < |points| && points[i] == m[k] && points[i].identifier == k
                                     && forall j :: i < j < |points| ==> points[j].identifier != k)
  }

  lemma {:induction false} CollectLast(m: map<byte, DataPoint>, seen: seq<DataPoint>, report: seq<DataPoint>)
    requires LastOfEach(m, seen)
    ensures LastOfEach(Collect(m, report), seen + report)
    decreases |report|
  {
    if report == [] {
      assert seen + report == seen;
    } else {
      var more := seen + [report[0]];
      LastOfOneMore(m, seen, report[0]);
      CollectLast(m[report[0].identifier := report[0]], more, report[1..]);
      assert more + report[1..] == seen + report;
    }
  }

  lemma {:induction false} LastOfOneMore(m: map<byte, DataPoint>, seen: seq<DataPoint>, point: DataPoint)
    requires LastOfEach(m, seen)
    ensures LastOfEach(m[point.identifier := point], seen + [point])
  {
    var n, more := m[point.identifier := point], seen + [point];
    assert more[|seen|] == point;
    forall k | k in n
      ensures exists i :: 0 <= i < |more| && more[i] == n[k] && more[i].identifier == k
                          && forall j :: i < j < |more| ==> more[j].identifier != k
    {
      if k == point.identifier {
        assert more[|seen|] == n[k];
      } else {
        var i :| 0 <= i < |seen| && seen[i] == m[k] && seen[i].identifier == k
                 && forall j :: i < j < |seen| ==> seen[j].identifier != k;
        assert more[i] == n[k];
      }
    }
    forall k
      ensures k in n <==> exists i :: 0 <= i < |more| && more[i].identifier == k
    {
      if k in m {
        var i :| 0 <= i < |seen| && seen[i].identifier == k;
        assert more[i].identifier == k;
      }
      if i :| 0 <= i < |more| && more[i].identifier == k {
        if i < |seen| {
          assert seen[i].identifier == k;
        }
      }
    }
  }

  lemma {:induction false} CollectAllLast(reports: seq<seq<DataPoint>>)
    ensures LastOfEach(CollectAll(reports), Flatten(reports))
  {
    if reports != [] {
      var earlier := reports[..|reports| - 1];
      CollectAllLast(earlier);
      CollectLast(CollectAll(earlier), Flatten(earlier), reports[|reports| - 1]);
    }
  }

  /** No report is lost or made up: in every reachable state those drained and those still queued are those published
      since the reset, in order; and what a read has collected, or has returned, is the last value of every identifier
      among the reports drained. */
  lemma {:induction false} ReportsConserved(cfg: Config, events: seq<Event>)
    ensures var s := Run(cfg, INITIAL, events);
            && s.log.drained + s.reports == s.log.published
            && (s.phase.Collecting? ==> LastOfEach(s.phase.collected, Flatten(s.log.drained)))
            && (s.phase.Idle? && s.result.Some? && s.result.value.Returned? ==>
                  && s.evidence.drained <= s.evidence.published
                  && LastOfEach(s.result.value.points, Flatten(s.evidence.drained)))
  {
    Reachable(cfg, events);
    var s := Run(cfg, INITIAL, events);
    CollectAllLast(s.log.drained);
    CollectAllLast(s.evidence.drained);
  }

  /** A read that ends because it has been quiet returns what it drained, and nothing published is missing from that
      exactly when the queue was empty at that moment: a report that comes in between the timer and the end of the
      wait is not returned. */
  lemma {:induction false} QuietRead(cfg: Config, events: seq<Event>, io: Io, vector: Vector)
    requires var s := Run(cfg, INITIAL, events); s.phase.Collecting? && s.interrupt == WaitTimeout
    ensures var s := Run(cfg, INITIAL, events);
            var t := Step(cfg, s, Resumes(io, vector));
            && t.phase == Disconnecting(Returned(CollectAll(t.evidence.drained)))
            && t.evidence.published == t.evidence.drained + s.reports
            && (t.evidence.drained == t.evidence.published <==> s.reports == [])
  {
    Reachable(cfg, events);
  }

  // ----- a device that announces a version of 16 or more -----

  /** A client that has once adopted such a version: it has nothing on the air, no session key, and no result. */
  ghost predicate Silenced(s: State, version: nat) {
    && version > 15 && s.protocolVersion == version
    && s.log.sent == [] && s.log.info == None && s.sessionKey == None
    && (s.phase.Idle? || s.phase.Connecting? || s.phase.Subscribing?
        || (s.phase.Disconnecting? && s.phase.outcome.Raised?))
    && (s.result.Some? ==> s.result.value.Raised?)
  }

  ghost predicate Stuck(cfg: Config, s: State, version: nat) {
    Inv(cfg, s) && Silenced(s, version)
  }

  lemma {:induction false} SilencedUnwind(s: State, version: nat, error: Error)
    requires version > 15 && s.protocolVersion == version && (s.result.Some? ==> s.result.value.Raised?)
    ensures Silenced(Unwind(s, Raised(error)), version)
  {}

  lemma {:induction false} SilencedInterrupted(s: State, version: nat)
    requires Silenced(s, version)
    ensures Silenced(Interrupted(s), version)
  {
    forall error
      ensures Silenced(Unwind(s, Raised(error)), version)
    {
      SilencedUnwind(s, version, error);
    }
  }

  lemma {:induction false} SilencedResume(cfg: Config, s: State, version: nat, io: Io, vector: Vector)
    requires Silenced(s, version) && (s.phase.Subscribing? ==> s.link)
    ensures Silenced(Resume(cfg, s, io, vector), version)
  {
    if s.interrupt != NoInterrupt {
      SilencedInterrupted(s, version);
    } else if s.phase.Subscribing? && io.Succeeds? {
      var t := Register(s, AskInfo);
      PacketsExactly(cfg, t, Frame(s.counter, 0, AskInfo.Code().Value(), []), cfg.loginKey, LOGIN_FLAG, vector);
      SilencedUnwind(Forget(t, s.counter), version, StructError);
    } else {
      SilencedUnwind(s, version, ConnectFailed);
    }
  }

  lemma {:induction false} StuckStep(cfg: Config, s: State, version: nat, event: Event)
    requires Stuck(cfg, s, version)
    ensures Stuck(cfg, Step(cfg, s, event), version)
  {
    StepInv(cfg, s, event);
    SilencedStep(cfg, s, version, event);
  }

  lemma {:induction false} SilencedStep(cfg: Config, s: State, version: nat, event: Event)
    requires Silenced(s, version) && Links(s)
    ensures Silenced(Step(cfg, s, event), version)
  {
    match event
    case Resumes(io, vector) => SilencedResume(cfg, s, version, io, vector);
    case Notifies(chunk, clock, clockReply) => NotifyKeeps(cfg, s, chunk, clock, clockReply);
    case Begins =>
    case Interrupts(_) =>
    case ReplyRuns(_, _, _) =>
  }

  /** The client never recovers: once a device has announced a version of 16 or more, no later read sends a single frame
      or returns a result, whatever the device does next, because the version outlives the session that adopted it. */
  lemma {:induction false} StuckForever(cfg: Config, s: State, version: nat, events: seq<Event>)
    requires Stuck(cfg, s, version)
    ensures Stuck(cfg, Run(cfg, s, events), version)
    decreases |events|
  {
    if events != [] {
      StuckStep(cfg, s, version, events[0]);
      StuckForever(cfg, Step(cfg, s, events[0]), version, events[1..]);
    }
  }

  /** How a client gets there: any reachable read that waits for its device information and has been answered with a
      record whose version octet is 16 or more. The read ends in StructError, not in one of the SDK's errors. */
  lemma {:induction false} HighVersionSticks(cfg: Config, events: seq<Event>, frame: Frame, vector: Vector)
    requires var s := Run(cfg, INITIAL, events);
             && s.phase.Awaiting? && s.phase.kind == AskInfo && s.interrupt == NoInterrupt
             && s.phase.number in s.futures && s.futures[s.phase.number] == Answered(frame)
    requires |frame.data| >= 46 && frame.data[2] > 15 && |cfg.uuid + cfg.material + cfg.deviceId| <= 44
    ensures var s := Run(cfg, INITIAL, events);
            var t := Step(cfg, s, Resumes(Succeeds, vector));
            t.phase == Disconnecting(Raised(StructError)) && t.interrupt == NoInterrupt && Stuck(cfg, t, frame.data[2])
  {
    Reachable(cfg, events);
    var s := Run(cfg, INITIAL, events);
    StepInv(cfg, s, Resumes(Succeeds, vector));
    var info := ParseDeviceInfo(frame.data).value;
    var u := Adopt(cfg, Forget(s, s.phase.number), info, frame);
    var request := PairingRequest(cfg.uuid, cfg.material, cfg.deviceId).value;
    StructErrorExactly(cfg, u, AskPair, request, None, SESSION_FLAG, vector);
  }

  // ----- notifications after the reset -----

  /** Between reads there is no session key; and as long as there is none, only a frame under the login key, or under
      the authentication key of an earlier session, can change anything beyond what is buffered: complete a request,
      publish a report or schedule a reply. */
  lemma {:induction false} LateFrames(cfg: Config, events: seq<Event>, chunk: bytes, clock: int, clockReply: bytes)
    ensures var s := Run(cfg, INITIAL, events);
            var t := Notify(cfg, s, chunk, clock, clockReply).0;
            && (!s.phase.Active() ==> s.sessionKey == None)
            && (s.sessionKey == None && t != s.(assembly := t.assembly) ==>
                  var fed := FeedChunk(s.assembly, chunk).1;
                  && fed.Ok? && fed.value.Some? && fed.value.value != []
                  && (fed.value.value[0] == 4 ||
                      (fed.value.value[0] == 1 && s.authenticationKey.Some?)))
  {
    Reachable(cfg, events);
  }
}
