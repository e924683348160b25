/** The whole wire stack: a frame encoded, split, fed fragment by fragment and decoded again. */
module EndToEnd {
  import opened Bytes
  import opened Cbc
  import opened Frames
  import opened Fragments
  import opened Reassembly
  import opened Loss
  import opened Channel

  /** For every frame that fits its header, every key, flag, vector and version, and whatever the receiver held before:
      the fragments fit the radio's packet, nothing comes out until the last of them, then the payload, which announces
      its flag and decodes to the frame, and the receiver is left fresh. */
  lemma {:induction false} FrameArrives(
      cipher: Cipher, frame: Frame, key: bytes, flag: byte, vector: bytes, version: nat, s: Assembly)
    requires |vector| == BLOCK_SIZE && frame.InRange() && version < 16
    ensures var sent := Encode(cipher, frame, key, flag, vector);
            && sent.Ok? && Sendable(sent.value) && Packets(sent.value, version).Ok?
            && var fragments := Packets(sent.value, version).value;
               && fragments != []
               && (forall i :: 0 <= i < |fragments| ==> |fragments[i]| <= GATT_MTU)
               && FeedResults(s, fragments) == Progress(|fragments|, sent.value)
               && FeedAll(s, fragments) == FRESH
               && SecurityFlagOf(sent.value) == Ok(flag)
               && Decode(cipher, sent.value, key) == Ok(frame)
  {
    RoundTrip(cipher, frame, key, flag, vector);
    var payload := Encode(cipher, frame, key, flag, vector).value;
    ShortPayloadSplits(payload);
    SplitShape(payload, version);
    FeedSplit(s, payload, version);
  }
}
