/** What holds in every state a client can reach, whatever the radio, the clock, the device and the caller do. */
module Invariants {
  import opened Bytes
  import opened Frames
  import opened Reassembly
  import opened DataPoints
  import opened Commands
  import opened Session

  // ----- sequence numbers -----

  /** Whether a frame is what its sequence number was handed out for. */
  predicate Matches(origin: Origin, frame: Frame) {
    match origin
    case ForRequest(kind) => frame.responseTo == 0 && frame.code == kind.Code().Value()
    case ForReply(to, code) => frame.responseTo == to && frame.code == code
  }

  predicate Issued(issued: seq<Origin>, frame: Frame) {
    0 < frame.sequenceNumber <= |issued| && Matches(issued[frame.sequenceNumber - 1], frame)
  }

  /** The counter counts what was issued since the reset, and no number is written on two frames. */
  ghost predicate Numbers(s: State) {
    NumbersIn(s.counter, s.log.issued, s.log.sent, s.background)
  }

  ghost predicate NumbersIn(counter: nat, issued: seq<Origin>, sent: seq<Sent>, background: set<Task>) {
    && counter == 1 + |issued|
    && (forall i :: 0 <= i < |sent| ==> Issued(issued, sent[i].frame))
    && (forall i, j :: 0 <= i < j < |sent| ==> sent[i].frame.sequenceNumber != sent[j].frame.sequenceNumber)
    && (forall t :: t in background ==>
          Issued(issued, t.frame) && issued[t.frame.sequenceNumber - 1].ForReply?)
    && (forall t, u :: t in background && u in background && t != u ==>
          t.frame.sequenceNumber != u.frame.sequenceNumber)
    && (forall t, i :: t in background && t.packets.None? && 0 <= i < |sent| ==>
          sent[i].frame.sequenceNumber != t.frame.sequenceNumber)
  }

  // ----- requests and their replies -----

  function RequestsOf(issued: seq<Origin>): seq<Kind> {
    if issued == [] then []
    else
      var last := issued[|issued| - 1];
      RequestsOf(issued[..|issued| - 1]) + if last.ForRequest? then [last.kind] else []
  }

  lemma {:induction false} RequestsAppend(issued: seq<Origin>, origin: Origin)
    ensures RequestsOf(issued + [origin]) == RequestsOf(issued) + if origin.ForRequest? then [origin.kind] else []
  {
    assert (issued + [origin])[..|issued|] == issued;
  }

  function UpTo(kind: Kind): seq<Kind> {
    match kind
    case AskInfo => [AskInfo]
    case AskPair => [AskInfo, AskPair]
    case AskStatus => [AskInfo, AskPair, AskStatus]
  }

  /** The requests a session has made by the time it is suspended in this phase. */
  function Asked(phase: Phase): seq<Kind> {
    match phase
    case Writing(kind, _, _) => UpTo(kind)
    case Awaiting(kind, _) => UpTo(kind)
    case Collecting(_) => UpTo(AskStatus)
    case _ => []
  }

  /** The frame completed a request of this kind. */
  ghost predicate Completed(log: Log, kind: Kind, frame: Frame) {
    && 0 < frame.responseTo <= |log.issued| && log.issued[frame.responseTo - 1] == ForRequest(kind)
    && (frame.responseTo, frame) in log.answered
  }

  ghost predicate CompletedIfSome(log: Log, kind: Kind, reply: Option<Frame>) {
    reply.Some? ==> Completed(log, kind, reply.value)
  }

  /** The requests made are a prefix of the handshake, one at a time is pending, and a reply is acted on only if it
      quoted the number of its request. */
  ghost predicate Handshake(s: State) {
    && RequestsOf(s.log.issued) == Asked(s.phase)
    && (s.log.info.Some? <==> |Asked(s.phase)| >= 2)
    && (s.log.paired.Some? <==> |Asked(s.phase)| >= 3)
    && (s.log.status.Some? <==> s.phase.Collecting?)
    && CompletedIfSome(s.log, AskInfo, s.log.info)
    && CompletedIfSome(s.log, AskPair, s.log.paired)
    && CompletedIfSome(s.log, AskStatus, s.log.status)
  }

  ghost predicate Pending(s: State) {
    && (if s.phase.Writing? || s.phase.Awaiting? then
          var n := s.phase.number;
          && 0 < n <= |s.log.issued| && s.log.issued[n - 1] == ForRequest(s.phase.kind)
          && n in s.futures && s.pending <= {n}
          && (n !in s.pending ==> !s.futures[n].Waiting?)
          && (s.futures[n].Answered? ==> n !in s.pending && (n, s.futures[n].frame) in s.log.answered)
        else s.pending == {})
  }

  /** Every request is completed at most once, by a frame that quotes its number. */
  ghost predicate Replies(s: State) {
    RepliesIn(s.log.issued, s.log.answered, s.pending)
  }

  ghost predicate RepliesIn(issued: seq<Origin>, answered: seq<(nat, Frame)>, pending: set<nat>) {
    && (forall i :: 0 <= i < |answered| ==>
          var (n, frame) := answered[i];
          frame.responseTo == n && 0 < n <= |issued| && issued[n - 1].ForRequest? && n !in pending)
    && (forall i, j :: 0 <= i < j < |answered| ==> answered[i].0 != answered[j].0)
  }

  // ----- keys -----

  /** The session key that follows from a device-information reply. */
  function KeyFrom(cfg: Config, info: Option<Frame>): Option<bytes> {
    if info.None? then None
    else
      match ParseDeviceInfo(info.value.data)
      case Err(_) => None
      case Ok(record) => Some(cfg.derive(record.srand))
  }

  predicate ProperlyKeyed(cfg: Config, info: Option<Frame>, sent: Sent) {
    if sent.flag == LOGIN_FLAG
    then sent.key == cfg.loginKey && sent.frame.responseTo == 0 && sent.frame.code == AskInfo.Code().Value()
    else sent.flag == SESSION_FLAG && KeyFrom(cfg, info) == Some(sent.key)
         && (sent.frame.responseTo == 0 ==> sent.frame.code != AskInfo.Code().Value())
  }

  ghost predicate AllKeyed(cfg: Config, info: Option<Frame>, sent: seq<Sent>) {
    forall i :: 0 <= i < |sent| ==> ProperlyKeyed(cfg, info, sent[i])
  }

  ghost predicate RepliesToDevice(issued: seq<Origin>) {
    forall i :: 0 <= i < |issued| && issued[i].ForReply? ==> issued[i].code >= 0x8000
  }

  ghost predicate Keys(cfg: Config, s: State) {
    && s.sessionKey == KeyFrom(cfg, s.log.info)
    && (s.log.info.Some? ==> ParseDeviceInfo(s.log.info.value.data).Ok?)
    && (s.log.paired.Some? ==> VerifyPairingResult(s.log.paired.value.data).Ok?)
    && RepliesToDevice(s.log.issued)
    && AllKeyed(cfg, s.log.info, s.log.sent)
  }

  // ----- reports -----

  /** What the read returns for the reports it drained. */
  function CollectAll(reports: seq<seq<DataPoint>>): map<byte, DataPoint> {
    if reports == [] then map[] else Collect(CollectAll(reports[..|reports| - 1]), reports[|reports| - 1])
  }

  lemma {:induction false} CollectOneMore(seen: seq<seq<DataPoint>>, report: seq<DataPoint>)
    ensures CollectAll(seen + [report]) == Collect(CollectAll(seen), report)
  {
    var more := seen + [report];
    assert more[..|more| - 1] == seen && more[|more| - 1] == report;
  }

  ghost predicate Reports(s: State) {
    && s.log.drained + s.reports == s.log.published
    && (if s.phase.Collecting? then s.phase.collected == CollectAll(s.log.drained) else s.log.drained == [])
  }

  // ----- the link -----

  ghost predicate Links(s: State) {
    && (s.link <==> s.phase.Active() && !s.phase.Connecting?)
    && s.links == s.disconnects + (if s.link then 1 else 0)
    && (s.phase.Idle? ==> s.interrupt == NoInterrupt)
    && (s.phase.Disconnecting? ==> s.interrupt != SessionDeadline)
  }

  // ----- outcomes -----

  /** What the log of the session shows when it ends this way; an error not listed is never the outcome of a read. */
  ghost predicate Justified(cfg: Config, log: Log, version: nat, outcome: Outcome) {
    match outcome
    case Returned(points) =>
      && RequestsOf(log.issued) == [AskInfo, AskPair, AskStatus]
      && log.info.Some? && Completed(log, AskInfo, log.info.value) && |log.info.value.data| >= 46
      && log.paired.Some? && Completed(log, AskPair, log.paired.value)
      && (log.paired.value.data == [0] || log.paired.value.data == [2])
      && log.status.Some? && Completed(log, AskStatus, log.status.value)
      && log.drained <= log.published && points == CollectAll(log.drained) && WaitTimeout in log.fired
    case Raised(error) =>
      match error
      case ConnectFailed =>
        RequestsOf(log.issued) == [] && log.sent == [] && (WaitTimeout in log.fired || log.failed != {})
      case HandshakeUnanswered =>
        RequestsOf(log.issued) == [AskInfo] && log.info == None
        && (WaitTimeout in log.fired || FailsTimeout in log.failed)
      case Unanswered =>
        2 <= |RequestsOf(log.issued)| <= 3 && log.status == None
        && (WaitTimeout in log.fired || FailsTimeout in log.failed)
      case WriteFailed => 1 <= |RequestsOf(log.issued)| <= 3 && FailsBleak in log.failed
      case DeviceInfoTruncated =>
        log.info == None && exists frame :: Completed(log, AskInfo, frame) && |frame.data| < 46
      case CredentialsTooLong =>
        log.info.Some? && log.paired == None && |cfg.uuid + cfg.material + cfg.deviceId| > 44
      case PairingResultLength =>
        log.paired.Some? && Completed(log, AskPair, log.paired.value) && |log.paired.value.data| != 1
      case PairingRejected(verdict) =>
        log.paired.Some? && Completed(log, AskPair, log.paired.value)
        && log.paired.value.data == [verdict] && verdict != 0 && verdict != 2
      case StructError => version > 15 || |log.issued| >= 0x1_0000_0000
      case SessionOutlasted => SessionDeadline in log.fired
      case ForeignError => 1 <= |RequestsOf(log.issued)| <= 3 && FailsOther in log.failed
      case CallerCancelled => CallerCancel in log.fired
      case _ => false
  }

  ghost predicate Outcomes(cfg: Config, s: State) {
    && (!s.phase.Idle? ==> s.result == None)
    && (s.phase.Disconnecting? ==> Justified(cfg, s.evidence, s.protocolVersion, s.phase.outcome))
    && (s.phase.Idle? && s.result.Some? ==>
          || Justified(cfg, s.evidence, s.protocolVersion, s.result.value)
          || (s.result.value == Raised(CallerCancelled) && CallerCancel in s.log.fired))
    && (s.interrupt != NoInterrupt ==> s.interrupt in s.log.fired)
  }

  ghost predicate Inv(cfg: Config, s: State) {
    && Numbers(s) && Handshake(s) && Pending(s) && Replies(s) && Keys(cfg, s) && Reports(s) && Links(s)
    && Outcomes(cfg, s) && Consistent(s.assembly)
  }

  lemma {:induction false} InitialInv(cfg: Config)
    ensures Inv(cfg, INITIAL)
  {}

  /** Leaving a session keeps the invariant, given that its log justifies the outcome. */
  lemma {:induction false} UnwindInv(cfg: Config, s: State, outcome: Outcome)
    requires s.links == s.disconnects + (if s.link then 1 else 0)
    requires Justified(cfg, s.log, s.protocolVersion, outcome) && s.result == None
    ensures Inv(cfg, Unwind(s, outcome))
  {}

  // ----- requests -----

  /** A state ready to make the next request of the handshake. */
  ghost predicate Ready(cfg: Config, s: State, kind: Kind) {
    && Numbers(s) && Replies(s) && Keys(cfg, s) && Consistent(s.assembly)
    && s.pending == {} && s.link && s.links == s.disconnects + 1 && s.interrupt == NoInterrupt && s.result == None
    && RequestsOf(s.log.issued) + [kind] == UpTo(kind)
    && (s.log.info.Some? <==> !kind.AskInfo?) && (s.log.paired.Some? <==> kind.AskStatus?) && s.log.status == None
    && CompletedIfSome(s.log, AskInfo, s.log.info) && CompletedIfSome(s.log, AskPair, s.log.paired)
    && s.log.drained == [] && s.reports == s.log.published
  }

  /** Growing the log of numbers leaves everything said about the earlier ones. */
  lemma {:induction false} CompletedKept(log: Log, kind: Kind, reply: Option<Frame>, origin: Origin)
    requires CompletedIfSome(log, kind, reply)
    ensures CompletedIfSome(log.(issued := log.issued + [origin]), kind, reply)
  {}

  lemma {:induction false} RegisterNumbers(s: State, kind: Kind)
    requires Numbers(s)
    ensures Numbers(Register(s, kind))
    ensures forall i :: 0 <= i < |s.log.sent| ==> s.log.sent[i].frame.sequenceNumber < s.counter
  {
    var t := Register(s, kind);
    forall i | 0 <= i < |t.log.sent|
      ensures Issued(t.log.issued, t.log.sent[i].frame)
    {
      assert Issued(s.log.issued, s.log.sent[i].frame);
    }
    forall u | u in t.background
      ensures Issued(t.log.issued, u.frame) && t.log.issued[u.frame.sequenceNumber - 1].ForReply?
    {
      assert Issued(s.log.issued, u.frame);
    }
  }

  /** The key and the flag a request goes out under. */
  ghost predicate Keyed(cfg: Config, s: State, kind: Kind, key: bytes, flag: byte) {
    if kind.AskInfo? then key == cfg.loginKey && flag == LOGIN_FLAG
    else s.sessionKey == Some(key) && flag == SESSION_FLAG
  }

  lemma {:induction false} StartRequestInv(
      cfg: Config, s: State, kind: Kind, data: bytes, key: Option<bytes>, flag: byte, vector: Vector)
    requires Ready(cfg, s, kind) && |data| <= 44
    requires if kind.AskInfo? then key == Some(cfg.loginKey) && flag == LOGIN_FLAG
             else key == None && flag == SESSION_FLAG
    ensures Inv(cfg, StartRequest(cfg, s, kind, data, key, flag, vector))
  {
    var t := Register(s, kind);
    var chosen := if key.Some? then key else s.sessionKey;
    assert Keyed(cfg, s, kind, chosen.value, flag);
    var frame := Frame(s.counter, 0, kind.Code().Value(), data);
    var r := PacketsOf(cfg, t, frame, chosen.value, flag, vector);
    PacketsExactly(cfg, t, frame, chosen.value, flag, vector);
    if r.Err? {
      UnwindInv(cfg, Forget(t, s.counter), Raised(StructError));
    } else {
      BegunInv(cfg, s, kind, frame, chosen.value, flag, r.value);
    }
  }

  lemma {:induction false} BegunInv(
      cfg: Config, s: State, kind: Kind, frame: Frame, key: bytes, flag: byte, packets: seq<bytes>)
    requires Ready(cfg, s, kind) && Keyed(cfg, s, kind, key, flag)
    requires frame.sequenceNumber == s.counter && Matches(ForRequest(kind), frame)
    ensures var t := Register(s, kind);
            Inv(cfg, t.(phase := if packets == [] then Awaiting(kind, s.counter) else Writing(kind, s.counter, packets),
                        log := t.log.(sent := t.log.sent + [Sent(flag, key, frame, packets, s.protocolVersion)])
                                    .Handed(s.counter, packets)))
  {
    var phase := if packets == [] then Awaiting(kind, s.counter) else Writing(kind, s.counter, packets);
    StartedInv(cfg, s, kind, frame, key, flag, packets, phase);
    HandedInv(cfg, Started(s, kind, frame, key, flag, packets, phase), s.counter, packets);
  }

  ghost function Started(
      s: State, kind: Kind, frame: Frame, key: bytes, flag: byte, packets: seq<bytes>, phase: Phase): State {
    var t := Register(s, kind);
    t.(phase := phase, log := t.log.(sent := t.log.sent + [Sent(flag, key, frame, packets, s.protocolVersion)]))
  }

  /** The record of what was handed to the radio bears on nothing else. */
  lemma {:induction false} HandedInv(cfg: Config, s: State, number: nat, packets: seq<bytes>)
    requires Inv(cfg, s)
    ensures Inv(cfg, s.(log := s.log.Handed(number, packets)))
  {
    HandedCourse(s, number, packets);
    HandedKeys(cfg, s, number, packets);
  }

  lemma {:induction false} HandedCourse(s: State, number: nat, packets: seq<bytes>)
    requires Handshake(s) && Pending(s) && Reports(s) && Links(s)
    ensures var t := s.(log := s.log.Handed(number, packets)); Handshake(t) && Pending(t) && Reports(t) && Links(t)
  {}

  lemma {:induction false} HandedKeys(cfg: Config, s: State, number: nat, packets: seq<bytes>)
    requires Numbers(s) && Replies(s) && Keys(cfg, s) && Outcomes(cfg, s)
    ensures var t := s.(log := s.log.Handed(number, packets));
            Numbers(t) && Replies(t) && Keys(cfg, t) && Outcomes(cfg, t)
  {}

  lemma {:induction false} StartedInv(
      cfg: Config, s: State, kind: Kind, frame: Frame, key: bytes, flag: byte, packets: seq<bytes>, phase: Phase)
    requires Ready(cfg, s, kind) && Keyed(cfg, s, kind, key, flag)
    requires frame.sequenceNumber == s.counter && Matches(ForRequest(kind), frame)
    requires phase == Awaiting(kind, s.counter) || (phase.Writing? && phase.kind == kind && phase.number == s.counter)
    ensures Inv(cfg, Started(s, kind, frame, key, flag, packets, phase))
  {
    var u := Started(s, kind, frame, key, flag, packets, phase);
    SentRequest(s, kind, frame, Sent(flag, key, frame, packets, s.protocolVersion), u);
    RepliesKept(s, u, ForRequest(kind));
    RequestsAppend(s.log.issued, ForRequest(kind));
    CompletedKept(s.log, AskInfo, s.log.info, ForRequest(kind));
    CompletedKept(s.log, AskPair, s.log.paired, ForRequest(kind));
    SentKeyed(cfg, s, kind, Sent(flag, key, frame, packets, s.protocolVersion), u);
  }

  lemma {:induction false} SentKeyed(cfg: Config, s: State, kind: Kind, sent: Sent, u: State)
    requires Keys(cfg, s) && Keyed(cfg, s, kind, sent.key, sent.flag) && Matches(ForRequest(kind), sent.frame)
    requires u.log.info == s.log.info && u.log.paired == s.log.paired && u.sessionKey == s.sessionKey
    requires u.log.issued == s.log.issued + [ForRequest(kind)] && u.log.sent == s.log.sent + [sent]
    ensures Keys(cfg, u)
  {
    forall i | 0 <= i < |u.log.sent|
      ensures ProperlyKeyed(cfg, u.log.info, u.log.sent[i])
    {
      if i < |s.log.sent| { assert ProperlyKeyed(cfg, s.log.info, s.log.sent[i]); }
    }
  }

  lemma {:induction false} RepliesKept(s: State, u: State, origin: Origin)
    requires Replies(s) && Numbers(s)
    requires u.log.answered == s.log.answered && u.log.issued == s.log.issued + [origin]
    requires u.pending <= s.pending + {s.counter}
    ensures Replies(u)
  {
    forall i | 0 <= i < |u.log.answered|
      ensures var (n, frame) := u.log.answered[i];
              frame.responseTo == n && 0 < n <= |u.log.issued| && u.log.issued[n - 1].ForRequest? && n !in u.pending
    {
      var (n, frame) := s.log.answered[i];
      assert 0 < n <= |s.log.issued|;
    }
  }

  lemma {:induction false} SentRequest(s: State, kind: Kind, frame: Frame, sent: Sent, u: State)
    requires Numbers(s) && sent.frame == frame && frame.sequenceNumber == s.counter && Matches(ForRequest(kind), frame)
    requires u.log.issued == s.log.issued + [ForRequest(kind)] && u.counter == s.counter + 1
    requires u.log.sent == s.log.sent + [sent] && u.background == s.background
    ensures Numbers(u)
  {
    RegisterNumbers(s, kind);
    var t := Register(s, kind);
    forall i | 0 <= i < |u.log.sent|
      ensures Issued(u.log.issued, u.log.sent[i].frame)
    {
      if i < |s.log.sent| { assert Issued(t.log.issued, t.log.sent[i].frame); }
    }
    forall v | v in u.background
      ensures Issued(u.log.issued, v.frame) && u.log.issued[v.frame.sequenceNumber - 1].ForReply?
    {
      assert Issued(s.log.issued, v.frame);
    }
  }

  /** Nothing but the version and the width of the header fields can stop a frame from being cut into packets. */
  lemma {:induction false} PacketsExactly(
      cfg: Config, s: State, frame: Frame, key: bytes, flag: byte, vector: Vector)
    requires s.link
    ensures PacketsOf(cfg, s, frame, key, flag, vector) ==
            if frame.InRange() && s.protocolVersion < 16
            then Ok(Fragments.Split(Encode(cfg.cipher, frame, key, flag, vector).value, s.protocolVersion))
            else Err(StructError)
  {
    RoundTrip(cfg.cipher, frame, key, flag, vector);
  }
}
