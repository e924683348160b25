/** What becomes of a reply that has been scheduled. */
module Replies {
  import opened Bytes
  import opened Frames
  import opened DataPoints
  import opened Commands
  import opened Session
  import opened Invariants
  import opened Preservation
  import opened Guarantees
  import opened Wire
  import opened Sending

  /** Nothing stands in the way of sending this reply. */
  predicate CanReply(s: State, frame: Frame) {
    s.sessionKey.Some? && s.link && frame.InRange() && s.protocolVersion < 16
  }

  /** The reply has been begun: enciphered under the session key and flag 5, cut up, and its first packet handed over.
      */
  ghost predicate ReplyBegun(cfg: Config, s: State, frame: Frame, t: State, packets: seq<bytes>) {
    && CanReply(s, frame) && packets != []
    && CutProperly(cfg, Sent(5, s.sessionKey.value, frame, packets, s.protocolVersion))
    && t.log.sent == s.log.sent + [Sent(5, s.sessionKey.value, frame, packets, s.protocolVersion)]
    && t.log.wire == s.log.wire + [(frame.sequenceNumber, packets[0])]
    && Task(frame, Some(packets)) in t.background
  }

  /** A task that runs for the first time begins its reply if and only if nothing stands in the way; else it is gone,
      and nothing else has changed. */
  lemma {:induction false} TaskBegins(cfg: Config, s: State, task: Task, io: Io, vector: Vector)
    requires task in s.background && task.packets.None?
    ensures var t := Step(cfg, s, ReplyRuns(task, io, vector));
            if CanReply(s, task.frame) then exists packets :: ReplyBegun(cfg, s, task.frame, t, packets)
            else t == s.(background := s.background - {task})
  {
    var t := Step(cfg, s, ReplyRuns(task, io, vector));
    if s.sessionKey.Some? && s.link {
      var key := s.sessionKey.value;
      PacketsExactly(cfg, s, task.frame, key, SESSION_FLAG, vector);
      if CanReply(s, task.frame) {
        var packets := PacketsOf(cfg, s, task.frame, key, SESSION_FLAG, vector).value;
        PacketsCut(cfg, s, task.frame, key, SESSION_FLAG, vector, packets);
        assert ReplyBegun(cfg, s, task.frame, t, packets);
      }
    }
  }

  /** A task that goes on after a write: the next packet is handed over, or, after the last, the whole frame has been; a
      write that failed ends it. */
  lemma {:induction false} TaskGoesOn(cfg: Config, past: seq<Event>, task: Task, io: Io, vector: Vector)
    requires task in Run(cfg, INITIAL, past).background && task.packets.Some?
    ensures var s := Run(cfg, INITIAL, past);
            var t := Step(cfg, s, ReplyRuns(task, io, vector));
            var n, packets := task.frame.sequenceNumber, task.packets.value;
            if !io.Succeeds? then t == s.(background := s.background - {task})
            else if |packets| > 1 then
              && t.log.sent == s.log.sent && t.log.wire == s.log.wire + [(n, packets[1])]
              && Task(task.frame, Some(packets[1..])) in t.background
            else t == s.(background := s.background - {task}) && WrittenOut(t.log.sent, t.log.wire, n)
  {
    RunInOrder(cfg, past);
    var s := Run(cfg, INITIAL, past);
    if |task.packets.value| <= 1 {
      LastPacket(s.log.sent, s.log.wire, task.frame.sequenceNumber, task.packets.value);
    }
  }

  /** Nothing but its own runs and the end of the session takes a task away. */
  lemma {:induction false} TaskStays(cfg: Config, s: State, event: Event, task: Task)
    requires task in s.background && !(event.ReplyRuns? && event.task == task)
    ensures var t := Step(cfg, s, event);
            task in t.background || (t.background == {} && t.log == EMPTY_LOG && !t.phase.Active())
  {
    match event
    case Notifies(chunk, clock, clockReply) => NotifyAllOrNothing(cfg, s, chunk, clock, clockReply);
    case Resumes(io, vector) => ResumeKeepsTasks(cfg, s, io, vector);
    case _ =>
  }

  lemma {:induction false} ResumeKeepsTasks(cfg: Config, s: State, io: Io, vector: Vector)
    ensures var t := Resume(cfg, s, io, vector);
            t.background == s.background || (t.background == {} && t.log == EMPTY_LOG && !t.phase.Active())
  {
    if s.phase.Active() {
      if s.interrupt == NoInterrupt && s.phase.Awaiting? {
        ProceedKeepsTasks(cfg, Forget(s, s.phase.number), s.phase.kind, vector);
      }
    }
  }

  lemma {:induction false} ProceedKeepsTasks(cfg: Config, s: State, kind: Kind, vector: Vector)
    ensures forall frame ::
              var t := Proceed(cfg, s, kind, frame, vector);
              t.background == s.background || (t.background == {} && t.log == EMPTY_LOG && !t.phase.Active())
  {}

  /** The runs of a task whose writes all succeed. */
  function Runs(frame: Frame, packets: seq<bytes>, vector: Vector): seq<Event> {
    if packets == [] then []
    else [ReplyRuns(Task(frame, Some(packets)), Succeeds, vector)] + Runs(frame, packets[1..], vector)
  }

  lemma {:induction false} RunsWriteOut(
      cfg: Config, past: seq<Event>, frame: Frame, packets: seq<bytes>, vector: Vector)
    requires packets != [] && Task(frame, Some(packets)) in Run(cfg, INITIAL, past).background
    ensures var t := Run(cfg, INITIAL, past + Runs(frame, packets, vector));
            && WrittenOut(t.log.sent, t.log.wire, frame.sequenceNumber)
            && t.log.sent == Run(cfg, INITIAL, past).log.sent
    decreases |packets|
  {
    var event := ReplyRuns(Task(frame, Some(packets)), Succeeds, vector);
    var next := past + [event];
    RunGoesOn(cfg, past, frame, packets, vector);
    RunsFirst(past, frame, packets, vector);
    if |packets| > 1 {
      RunsWriteOut(cfg, next, frame, packets[1..], vector);
    }
  }

  lemma {:induction false} RunsFirst(past: seq<Event>, frame: Frame, packets: seq<bytes>, vector: Vector)
    requires packets != []
    ensures var event := ReplyRuns(Task(frame, Some(packets)), Succeeds, vector);
            past + Runs(frame, packets, vector)
            == if |packets| == 1 then past + [event] else past + [event] + Runs(frame, packets[1..], vector)
  {}

  lemma {:induction false} RunGoesOn(
      cfg: Config, past: seq<Event>, frame: Frame, packets: seq<bytes>, vector: Vector)
    requires packets != [] && Task(frame, Some(packets)) in Run(cfg, INITIAL, past).background
    ensures var s := Run(cfg, INITIAL, past);
            var t := Run(cfg, INITIAL, past + [ReplyRuns(Task(frame, Some(packets)), Succeeds, vector)]);
            && t.log.sent == s.log.sent
            && if |packets| > 1 then Task(frame, Some(packets[1..])) in t.background
               else WrittenOut(t.log.sent, t.log.wire, frame.sequenceNumber)
  {
    var event := ReplyRuns(Task(frame, Some(packets)), Succeeds, vector);
    TaskGoesOn(cfg, past, Task(frame, Some(packets)), Succeeds, vector);
    RunAppend(cfg, INITIAL, past, [event]);
    RunOne(cfg, Run(cfg, INITIAL, past), event);
  }

  /** A scheduled reply is sent: wherever a client has got to with a reply that nothing stands in the way of, its first
      run begins it, and the runs that follow, if no write fails, hand over every packet of it. */
  lemma {:induction false} ReplySentWhole(cfg: Config, past: seq<Event>, task: Task, io: Io, vector: Vector)
    returns (packets: seq<bytes>)
    requires var s := Run(cfg, INITIAL, past);
             task in s.background && task.packets.None? && CanReply(s, task.frame)
    ensures var s := Run(cfg, INITIAL, past);
            var begun := past + [ReplyRuns(task, io, vector)];
            && ReplyBegun(cfg, s, task.frame, Run(cfg, INITIAL, begun), packets)
            && var t := Run(cfg, INITIAL, begun + Runs(task.frame, packets, vector));
               WrittenOut(t.log.sent, t.log.wire, task.frame.sequenceNumber)
  {
    var s, event := Run(cfg, INITIAL, past), ReplyRuns(task, io, vector);
    RunAppend(cfg, INITIAL, past, [event]);
    RunOne(cfg, s, event);
    TaskBegins(cfg, s, task, io, vector);
    packets :| ReplyBegun(cfg, s, task.frame, Step(cfg, s, event), packets);
    RunsWriteOut(cfg, past + [event], task.frame, packets, vector);
  }
}
