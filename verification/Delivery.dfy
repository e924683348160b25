/** The two layers together: frames that reach the client over the wire stack drive the state machine. */
module Delivery {
  import opened Bytes
  import opened Cbc
  import opened Frames
  import opened Fragments
  import opened Reassembly
  import opened Loss
  import opened Session
  import EndToEnd

  function NotifyEach(chunks: seq<bytes>, clock: int): seq<Event> {
    if chunks == [] then [] else [Notifies(chunks[0], clock, [])] + NotifyEach(chunks[1..], clock)
  }

  /** Fragments that deliver a payload amount to dispatching the frame in it. */
  lemma {:induction false} NotifiedPayload(
      cfg: Config, s: State, chunks: seq<bytes>, payload: bytes, key: bytes, frame: Frame, clock: int)
    requires chunks != [] && payload != []
    requires FeedResults(s.assembly, chunks) == Progress(|chunks|, payload)
    requires KeyFor(cfg, s, payload[0]) == Some(key) && Decode(cfg.cipher, payload, key) == Ok(frame)
    ensures Run(cfg, s, NotifyEach(chunks, clock))
         == Dispatch(cfg, s.(assembly := FeedAll(s.assembly, chunks)), frame, clock, []).0
    decreases |chunks|
  {
    var (assembly, fed) := FeedChunk(s.assembly, chunks[0]);
    var t := s.(assembly := assembly);
    var event := Notifies(chunks[0], clock, []);
    assert FeedResults(s.assembly, chunks)[0] == fed;
    if |chunks| == 1 {
      assert chunks[1..] == [];
      assert NotifyEach(chunks, clock) == [event];
      RunOne(cfg, s, event);
      assert FeedAll(s.assembly, chunks) == assembly;
    } else {
      assert Progress(|chunks|, payload)[0] == Ok(None);
      assert Step(cfg, s, event) == t;
      assert FeedResults(assembly, chunks[1..]) == FeedResults(s.assembly, chunks)[1..];
      assert Progress(|chunks|, payload)[1..] == Progress(|chunks| - 1, payload);
      NotifiedPayload(cfg, t, chunks[1..], payload, key, frame, clock);
      assert NotifyEach(chunks, clock) == [event] + NotifyEach(chunks[1..], clock);
      assert ([event] + NotifyEach(chunks[1..], clock))[1..] == NotifyEach(chunks[1..], clock);
      assert t.(assembly := FeedAll(assembly, chunks[1..])) == s.(assembly := FeedAll(s.assembly, chunks));
    }
  }

  /** The packets of a frame as its sender puts them on the air. */
  function Aired(cfg: Config, frame: Frame, key: bytes, flag: byte, vector: Vector, version: nat): seq<bytes>
    requires frame.InRange() && version < 16
  {
    Split(Encode(cfg.cipher, frame, key, flag, vector).value, version)
  }

  /** Whatever was buffered before, the packets of a frame under a key the client has for its flag come to exactly one
      dispatch of that frame, and leave the reassembler fresh. */
  lemma {:induction false} FrameDispatched(
      cfg: Config, s: State, frame: Frame, key: bytes, flag: byte, vector: Vector, version: nat, clock: int)
    requires frame.InRange() && version < 16 && KeyFor(cfg, s, flag) == Some(key)
    ensures Run(cfg, s, NotifyEach(Aired(cfg, frame, key, flag, vector, version), clock))
         == Dispatch(cfg, s.(assembly := FRESH), frame, clock, []).0
  {
    EndToEnd.FrameArrives(cfg.cipher, frame, key, flag, vector, version, s.assembly);
    var payload := Encode(cfg.cipher, frame, key, flag, vector).value;
    NotifiedPayload(cfg, s, Split(payload, version), payload, key, frame, clock);
  }
}
