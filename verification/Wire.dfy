/** In what order packets are handed to the radio. */
module Wire {
  import opened Bytes
  import opened Cbc
  import opened Frames
  import opened Fragments
  import opened DataPoints
  import opened Commands
  import opened Session
  import opened Invariants
  import opened Preservation
  import opened Guarantees
  import EndToEnd
  import Reassembly

  /** The packets handed over under one number, in order. */
  function Written(wire: seq<(nat, bytes)>, n: nat): seq<bytes> {
    if wire == [] then []
    else
      var last := wire[|wire| - 1];
      Written(wire[..|wire| - 1], n) + if last.0 == n then [last.1] else []
  }

  lemma {:induction false} WrittenMore(wire: seq<(nat, bytes)>, n: nat, packet: bytes, m: nat)
    ensures Written(wire + [(n, packet)], m) == Written(wire, m) + if m == n then [packet] else []
  {
    assert (wire + [(n, packet)])[..|wire|] == wire;
  }

  predicate SentUnder(sent: seq<Sent>, n: nat) {
    exists i :: 0 <= i < |sent| && sent[i].frame.sequenceNumber == n
  }

  /** The packets that were handed over under n, and those after the one in hand, are those the frame was cut into. */
  ghost predicate Continues(sent: seq<Sent>, wire: seq<(nat, bytes)>, n: nat, packets: seq<bytes>) {
    && packets != [] && SentUnder(sent, n)
    && forall i :: 0 <= i < |sent| && sent[i].frame.sequenceNumber == n ==>
         Written(wire, n) + packets[1..] == sent[i].packets
  }

  /** The packets are those the frame is cut into, under its key, flag and version, for some vector. */
  ghost predicate CutProperly(cfg: Config, sent: Sent) {
    sent.version < 16 && exists vector: Vector ::
      Encode(cfg.cipher, sent.frame, sent.key, sent.flag, vector).Ok?
      && sent.packets == Split(Encode(cfg.cipher, sent.frame, sent.key, sent.flag, vector).value, sent.version)
  }

  /** What has been handed over is, frame by frame, the beginning of what the frame was cut into. */
  ghost predicate Prefixes(cfg: Config, sent: seq<Sent>, wire: seq<(nat, bytes)>) {
    && (forall i :: 0 <= i < |sent| ==>
          CutProperly(cfg, sent[i]) && Written(wire, sent[i].frame.sequenceNumber) <= sent[i].packets)
    && (forall n: nat :: !SentUnder(sent, n) ==> Written(wire, n) == [])
  }

  ghost predicate Ordered(
      cfg: Config, sent: seq<Sent>, wire: seq<(nat, bytes)>, phase: Phase, background: set<Task>)
  {
    && Prefixes(cfg, sent, wire)
    && (phase.Writing? ==> Continues(sent, wire, phase.number, phase.packets))
    && (forall t :: t in background && t.packets.Some? ==>
          Continues(sent, wire, t.frame.sequenceNumber, t.packets.value))
  }

  ghost predicate InOrder(cfg: Config, s: State) {
    Ordered(cfg, s.log.sent, s.log.wire, s.phase, s.background)
  }

  /** Nothing is handed over, no write goes on that did not, and only tasks that have not started are added. */
  predicate NothingHanded(s: State, t: State) {
    && t.log.sent == s.log.sent && t.log.wire == s.log.wire
    && (t.phase.Writing? ==> t.phase == s.phase)
    && (forall task :: task in t.background && task.packets.Some? ==> task in s.background)
  }

  lemma {:induction false} NothingHandedInOrder(cfg: Config, s: State, t: State)
    requires InOrder(cfg, s) && NothingHanded(s, t)
    ensures InOrder(cfg, t)
  {}

  lemma {:induction false} EmptyInOrder(cfg: Config, s: State)
    requires s.log == EMPTY_LOG && s.background == {} && !s.phase.Writing?
    ensures InOrder(cfg, s)
  {}

  lemma {:induction false} UnwindInOrder(cfg: Config, s: State, outcome: Outcome)
    ensures InOrder(cfg, Unwind(s, outcome))
  {}

  // ----- one packet handed over -----

  /** Other frames are not concerned. */
  lemma {:induction false} OthersContinue(
      sent: seq<Sent>, wire: seq<(nat, bytes)>, m: nat, packets: seq<bytes>, n: nat, packet: bytes)
    requires Continues(sent, wire, m, packets) && m != n
    ensures Continues(sent, wire + [(n, packet)], m, packets)
  {
    WrittenMore(wire, n, packet, m);
  }

  lemma {:induction false} NextContinues(sent: seq<Sent>, wire: seq<(nat, bytes)>, n: nat, packets: seq<bytes>)
    requires Continues(sent, wire, n, packets) && |packets| > 1
    ensures Continues(sent, wire + [(n, packets[1])], n, packets[1..])
  {
    WrittenMore(wire, n, packets[1], n);
    forall i | 0 <= i < |sent| && sent[i].frame.sequenceNumber == n
      ensures (Written(wire, n) + [packets[1]]) + packets[1..][1..] == sent[i].packets
    {
      assert packets[1..] == [packets[1]] + packets[1..][1..];
    }
  }

  lemma {:induction false} NextPrefixes(
      cfg: Config, sent: seq<Sent>, wire: seq<(nat, bytes)>, n: nat, packets: seq<bytes>)
    requires Prefixes(cfg, sent, wire) && Continues(sent, wire, n, packets) && |packets| > 1
    ensures Prefixes(cfg, sent, wire + [(n, packets[1])])
  {
    var more := wire + [(n, packets[1])];
    NextContinues(sent, wire, n, packets);
    forall i | 0 <= i < |sent|
      ensures Written(more, sent[i].frame.sequenceNumber) <= sent[i].packets
    {
      WrittenMore(wire, n, packets[1], sent[i].frame.sequenceNumber);
      if sent[i].frame.sequenceNumber == n {
        assert Written(more, n) + packets[1..][1..] == sent[i].packets;
      }
    }
    forall m: nat | !SentUnder(sent, m)
      ensures Written(more, m) == []
    {
      WrittenMore(wire, n, packets[1], m);
    }
  }

  /** The next packet of a frame is handed over. */
  lemma {:induction false} NextHanded(
      cfg: Config, sent: seq<Sent>, wire: seq<(nat, bytes)>, n: nat, packets: seq<bytes>,
      phase: Phase, background: set<Task>)
    requires Prefixes(cfg, sent, wire) && Continues(sent, wire, n, packets) && |packets| > 1
    requires phase.Writing? ==>
               if phase.number == n then phase.packets == packets[1..]
               else Continues(sent, wire, phase.number, phase.packets)
    requires forall t :: t in background && t.packets.Some? ==>
               if t.frame.sequenceNumber == n then t.packets.value == packets[1..]
               else Continues(sent, wire, t.frame.sequenceNumber, t.packets.value)
    ensures Ordered(cfg, sent, wire + [(n, packets[1])], phase, background)
  {
    var more := wire + [(n, packets[1])];
    NextPrefixes(cfg, sent, wire, n, packets);
    NextContinues(sent, wire, n, packets);
    if phase.Writing? && phase.number != n {
      OthersContinue(sent, wire, phase.number, phase.packets, n, packets[1]);
    }
    forall t | t in background && t.packets.Some?
      ensures Continues(sent, more, t.frame.sequenceNumber, t.packets.value)
    {
      if t.frame.sequenceNumber != n {
        OthersContinue(sent, wire, t.frame.sequenceNumber, t.packets.value, n, packets[1]);
      }
    }
  }

  // ----- one frame begun -----

  lemma {:induction false} OneMoreSent(sent: seq<Sent>, begun: Sent, m: nat)
    ensures SentUnder(sent + [begun], m) <==> SentUnder(sent, m) || m == begun.frame.sequenceNumber
  {
    var more := sent + [begun];
    assert more[|sent|] == begun;
    if i :| 0 <= i < |sent| && sent[i].frame.sequenceNumber == m {
      assert more[i].frame.sequenceNumber == m;
    }
    if i :| 0 <= i < |more| && more[i].frame.sequenceNumber == m && i < |sent| {
      assert sent[i].frame.sequenceNumber == m;
    }
  }

  lemma {:induction false} BegunPrefixes(cfg: Config, sent: seq<Sent>, wire: seq<(nat, bytes)>, begun: Sent)
    requires Prefixes(cfg, sent, wire) && !SentUnder(sent, begun.frame.sequenceNumber)
    requires CutProperly(cfg, begun) && begun.packets != []
    ensures Prefixes(cfg, sent + [begun], wire + [(begun.frame.sequenceNumber, begun.packets[0])])
  {
    var n, more := begun.frame.sequenceNumber, sent + [begun];
    var handed := wire + [(n, begun.packets[0])];
    forall i | 0 <= i < |more|
      ensures CutProperly(cfg, more[i]) && Written(handed, more[i].frame.sequenceNumber) <= more[i].packets
    {
      WrittenMore(wire, n, begun.packets[0], more[i].frame.sequenceNumber);
      if i < |sent| {
        assert more[i] == sent[i] && SentUnder(sent, sent[i].frame.sequenceNumber);
      } else {
        assert more[i] == begun && Written(wire, n) == [];
      }
    }
    forall m: nat | !SentUnder(more, m)
      ensures Written(handed, m) == []
    {
      OneMoreSent(sent, begun, m);
      WrittenMore(wire, n, begun.packets[0], m);
    }
  }

  lemma {:induction false} BegunContinues(sent: seq<Sent>, wire: seq<(nat, bytes)>, begun: Sent)
    requires !SentUnder(sent, begun.frame.sequenceNumber) && Written(wire, begun.frame.sequenceNumber) == []
    requires begun.packets != []
    ensures var n := begun.frame.sequenceNumber;
            Continues(sent + [begun], wire + [(n, begun.packets[0])], n, begun.packets)
  {
    var n := begun.frame.sequenceNumber;
    WrittenMore(wire, n, begun.packets[0], n);
    OneMoreSent(sent, begun, n);
    assert begun.packets == [begun.packets[0]] + begun.packets[1..];
  }

  lemma {:induction false} StillContinues(
      sent: seq<Sent>, wire: seq<(nat, bytes)>, m: nat, packets: seq<bytes>, begun: Sent, packet: bytes)
    requires Continues(sent, wire, m, packets) && m != begun.frame.sequenceNumber
    ensures Continues(sent + [begun], wire + [(begun.frame.sequenceNumber, packet)], m, packets)
  {
    OneMoreSent(sent, begun, m);
    WrittenMore(wire, begun.frame.sequenceNumber, packet, m);
  }

  /** A frame is begun under a number that has not been used. */
  lemma {:induction false} FrameBegun(
      cfg: Config, sent: seq<Sent>, wire: seq<(nat, bytes)>, begun: Sent, phase: Phase, background: set<Task>)
    requires Prefixes(cfg, sent, wire) && !SentUnder(sent, begun.frame.sequenceNumber)
    requires CutProperly(cfg, begun) && begun.packets != []
    requires phase.Writing? ==>
               if phase.number == begun.frame.sequenceNumber then phase.packets == begun.packets
               else Continues(sent, wire, phase.number, phase.packets)
    requires forall t :: t in background && t.packets.Some? ==>
               if t.frame.sequenceNumber == begun.frame.sequenceNumber then t.packets.value == begun.packets
               else Continues(sent, wire, t.frame.sequenceNumber, t.packets.value)
    ensures Ordered(cfg, sent + [begun], wire + [(begun.frame.sequenceNumber, begun.packets[0])], phase, background)
  {
    var n, packet := begun.frame.sequenceNumber, begun.packets[0];
    BegunPrefixes(cfg, sent, wire, begun);
    BegunContinues(sent, wire, begun);
    if phase.Writing? && phase.number != n {
      StillContinues(sent, wire, phase.number, phase.packets, begun, packet);
    }
    forall t | t in background && t.packets.Some?
      ensures Continues(sent + [begun], wire + [(n, packet)], t.frame.sequenceNumber, t.packets.value)
    {
      if t.frame.sequenceNumber != n {
        StillContinues(sent, wire, t.frame.sequenceNumber, t.packets.value, begun, packet);
      }
    }
  }

  // ----- the steps of a session -----

  lemma {:induction false} PacketsCut(
      cfg: Config, s: State, frame: Frame, key: bytes, flag: byte, vector: Vector, packets: seq<bytes>)
    requires s.link && PacketsOf(cfg, s, frame, key, flag, vector) == Ok(packets)
    ensures packets != [] && CutProperly(cfg, Sent(flag, key, frame, packets, s.protocolVersion))
  {
    PacketsExactly(cfg, s, frame, key, flag, vector);
    EndToEnd.FrameArrives(cfg.cipher, frame, key, flag, vector, s.protocolVersion, Reassembly.FRESH);
  }

  /** A request, between whose number and those of reply tasks there is no confusion. */
  lemma {:induction false} StartRequestInOrder(
      cfg: Config, s: State, kind: Kind, data: bytes, key: Option<bytes>, flag: byte, vector: Vector)
    requires InOrder(cfg, s) && Numbers(s) && s.link && !s.phase.Writing?
    ensures InOrder(cfg, StartRequest(cfg, s, kind, data, key, flag, vector))
  {
    var t := Register(s, kind);
    var chosen := if key.Some? then key else s.sessionKey;
    var frame := Frame(s.counter, 0, kind.Code().Value(), data);
    if chosen.None? {
      UnwindInOrder(cfg, Forget(t, s.counter), Raised(HandshakeHasNotRun));
    } else {
      match PacketsOf(cfg, t, frame, chosen.value, flag, vector)
      case Err(e) => UnwindInOrder(cfg, Forget(t, s.counter), Raised(e));
      case Ok(packets) =>
        var begun := Sent(flag, chosen.value, frame, packets, s.protocolVersion);
        PacketsCut(cfg, t, frame, chosen.value, flag, vector, packets);
        RegisterNumbers(s, kind);
        TasksBelow(s);
        FrameBegun(cfg, s.log.sent, s.log.wire, begun, Writing(kind, s.counter, packets), s.background);
    }
  }

  lemma {:induction false} TasksBelow(s: State)
    requires Numbers(s)
    ensures forall t :: t in s.background ==> t.frame.sequenceNumber < s.counter
  {
    forall t | t in s.background
      ensures t.frame.sequenceNumber < s.counter
    {
      assert Issued(s.log.issued, t.frame);
    }
  }

  lemma {:induction false} ProceedInOrder(cfg: Config, s: State, kind: Kind, frame: Frame, vector: Vector)
    requires InOrder(cfg, s) && Numbers(s) && s.link && !s.phase.Writing?
    ensures InOrder(cfg, Proceed(cfg, s, kind, frame, vector))
  {
    match kind {
      case AskInfo =>
        match ParseDeviceInfo(frame.data) {
          case Err(e) => UnwindInOrder(cfg, s, Raised(e));
          case Ok(info) =>
            var t := Adopt(cfg, s, info, frame);
            match PairingRequest(cfg.uuid, cfg.material, cfg.deviceId) {
              case Err(e) => UnwindInOrder(cfg, t, Raised(e));
              case Ok(request) => StartRequestInOrder(cfg, t, AskPair, request, None, SESSION_FLAG, vector);
            }
        }
      case AskPair =>
        var t := s.(log := s.log.(paired := Some(frame)));
        match VerifyPairingResult(frame.data) {
          case Err(e) => UnwindInOrder(cfg, t, Raised(e));
          case Ok(_) => StartRequestInOrder(cfg, t, AskStatus, [], None, SESSION_FLAG, vector);
        }
      case AskStatus =>
    }
  }

  /** The numbers under which a request and the tasks write are not mixed up. */
  lemma {:induction false} WritesApart(cfg: Config, s: State)
    requires Inv(cfg, s) && s.phase.Writing?
    ensures forall t :: t in s.background ==> t.frame.sequenceNumber != s.phase.number
  {
    forall t | t in s.background
      ensures t.frame.sequenceNumber != s.phase.number
    {
      assert Issued(s.log.issued, t.frame) && s.log.issued[t.frame.sequenceNumber - 1].ForReply?;
    }
  }

  lemma {:induction false} PacketWrittenInOrder(cfg: Config, s: State, io: Io)
    requires Inv(cfg, s) && InOrder(cfg, s) && s.phase.Writing?
    ensures InOrder(cfg, PacketWritten(s, io))
  {
    var Writing(kind, number, packets) := s.phase;
    if io.Succeeds? {
      if |packets| > 1 {
        WritesApart(cfg, s);
        NextHanded(cfg, s.log.sent, s.log.wire, number, packets, Writing(kind, number, packets[1..]), s.background);
      }
    }
  }

  /** What ends a session hands nothing over, and what does not changes nothing. */
  lemma {:induction false} InterruptedInOrder(cfg: Config, s: State)
    requires InOrder(cfg, s)
    ensures InOrder(cfg, Interrupted(s))
  {
    if s.phase.Active() {
      InterruptedActive(s);
      if Interrupted(s) != s {
        EmptyInOrder(cfg, Interrupted(s));
      }
    } else {
      InterruptedPassive(s);
      NothingHandedInOrder(cfg, s, Interrupted(s));
    }
  }

  lemma {:induction false} InterruptedPassive(s: State)
    requires !s.phase.Active()
    ensures NothingHanded(s, Interrupted(s))
  {}

  lemma {:induction false} InterruptedActive(s: State)
    requires s.phase.Active()
    ensures var t := Interrupted(s); t == s || (t.log == EMPTY_LOG && t.background == {} && !t.phase.Writing?)
  {}

  lemma {:induction false} ResumeInOrder(cfg: Config, s: State, io: Io, vector: Vector)
    requires Inv(cfg, s) && InOrder(cfg, s)
    ensures InOrder(cfg, Resume(cfg, s, io, vector))
  {
    if s.interrupt != NoInterrupt {
      InterruptedInOrder(cfg, s);
    } else {
      match s.phase
      case Subscribing =>
        UnwindInOrder(cfg, Failed(s, io), Raised(ConnectFailed));
        StartRequestInOrder(cfg, s, AskInfo, [], Some(cfg.loginKey), LOGIN_FLAG, vector);
      case Writing(_, _, _) => PacketWrittenInOrder(cfg, s, io);
      case Awaiting(kind, number) =>
        if number in s.futures && s.futures[number].Answered? {
          ProceedInOrder(cfg, Forget(s, number), kind, s.futures[number].frame, vector);
        }
      case _ =>
    }
  }

  lemma {:induction false} NotifyHandsNothing(cfg: Config, s: State, chunk: bytes, clock: int, clockReply: bytes)
    ensures NothingHanded(s, Notify(cfg, s, chunk, clock, clockReply).0)
  {
    NotifyKeeps(cfg, s, chunk, clock, clockReply);
    NotifyAllOrNothing(cfg, s, chunk, clock, clockReply);
  }

  lemma {:induction false} RunReplyInOrder(cfg: Config, s: State, task: Task, io: Io, vector: Vector)
    requires Inv(cfg, s) && InOrder(cfg, s)
    ensures InOrder(cfg, RunReply(cfg, s, task, io, vector))
  {
    if task in s.background {
      match task.packets
      case None => BeginsInOrder(cfg, s, task, vector);
      case Some(packets) =>
        if io.Succeeds? && |packets| > 1 {
          ContinuesInOrder(cfg, s, task, packets);
        }
    }
  }

  lemma {:induction false} BeginsInOrder(cfg: Config, s: State, task: Task, vector: Vector)
    requires Inv(cfg, s) && InOrder(cfg, s) && task in s.background && task.packets.None?
    ensures forall io :: InOrder(cfg, RunReply(cfg, s, task, io, vector))
  {
    if s.sessionKey.Some? {
      match PacketsOf(cfg, s, task.frame, s.sessionKey.value, SESSION_FLAG, vector)
      case Err(_) =>
      case Ok(packets) =>
        var begun := ReplySent(s, task.frame, packets);
        PacketsCut(cfg, s, task.frame, s.sessionKey.value, SESSION_FLAG, vector, packets);
        TaskApart(cfg, s, task, packets);
        FrameBegun(cfg, s.log.sent, s.log.wire, begun, s.phase,
                   s.background - {task} + {Task(task.frame, Some(packets))});
    }
  }

  /** What the others are writing, they write under other numbers. */
  lemma {:induction false} TaskApart(cfg: Config, s: State, task: Task, packets: seq<bytes>)
    requires Inv(cfg, s) && InOrder(cfg, s) && task in s.background
    ensures var n := task.frame.sequenceNumber;
            && (task.packets.None? ==> !SentUnder(s.log.sent, n))
            && (s.phase.Writing? ==> s.phase.number != n)
            && (forall t :: t in s.background - {task} + {Task(task.frame, Some(packets))} && t.packets.Some? ==>
                  if t.frame.sequenceNumber == n then t.packets.value == packets
                  else Continues(s.log.sent, s.log.wire, t.frame.sequenceNumber, t.packets.value))
  {
    if s.phase.Writing? {
      WritesApart(cfg, s);
    }
    assert Numbers(s);
  }

  lemma {:induction false} ContinuesInOrder(cfg: Config, s: State, task: Task, packets: seq<bytes>)
    requires Inv(cfg, s) && InOrder(cfg, s) && task in s.background && task.packets == Some(packets) && |packets| > 1
    ensures var n := task.frame.sequenceNumber;
            Ordered(cfg, s.log.sent, s.log.Handed(n, packets[1..]).wire, s.phase,
                    s.background - {task} + {Task(task.frame, Some(packets[1..]))})
  {
    TaskApart(cfg, s, task, packets[1..]);
    NextHanded(cfg, s.log.sent, s.log.wire, task.frame.sequenceNumber, packets, s.phase,
               s.background - {task} + {Task(task.frame, Some(packets[1..]))});
  }

  lemma {:induction false} StepInOrder(cfg: Config, s: State, event: Event)
    requires Inv(cfg, s) && InOrder(cfg, s)
    ensures InOrder(cfg, Step(cfg, s, event))
  {
    match event
    case Begins =>
    case Interrupts(_) =>
    case Resumes(io, vector) => ResumeInOrder(cfg, s, io, vector);
    case Notifies(chunk, clock, clockReply) =>
      NotifyHandsNothing(cfg, s, chunk, clock, clockReply);
      NothingHandedInOrder(cfg, s, Notify(cfg, s, chunk, clock, clockReply).0);
    case ReplyRuns(task, io, vector) => RunReplyInOrder(cfg, s, task, io, vector);
  }

  lemma {:induction false} RunInOrder(cfg: Config, events: seq<Event>)
    ensures InOrder(cfg, Run(cfg, INITIAL, events))
    decreases |events|
  {
    if events != [] {
      var earlier := events[..|events| - 1];
      RunInOrder(cfg, earlier);
      Reachable(cfg, earlier);
      RunLast(cfg, INITIAL, events);
      StepInOrder(cfg, Run(cfg, INITIAL, earlier), events[|events| - 1]);
    }
  }

  /** In every reachable state, and for every frame of the session, requests and replies alike: the packets handed to
      the radio under its number are, in order and without a gap or a repetition, the first of those it is cut into.
      Packets of different frames may alternate; nothing was handed over that belongs to no frame. */
  lemma {:induction false} WrittenInOrder(cfg: Config, events: seq<Event>)
    ensures var log := Run(cfg, INITIAL, events).log;
            Prefixes(cfg, log.sent, log.wire)
  {
    RunInOrder(cfg, events);
  }
}
