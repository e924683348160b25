/** Splitting one encrypted payload into fragments that fit the radio's packet (build_packets in protocol/frame.py). */
module Fragments {
  import opened Bytes
  import opened Varint

  const GATT_MTU := 20

  function Header(index: nat, total: nat, version: nat): bytes
    requires version < 16
  {
    if index == 0 then Pack(index) + Pack(total) + [version * 16] else Pack(index)
  }

  /** The fragments from `position` on. A header that fills the packet would leave no room for a chunk and the
      source would not progress; `HeaderFits` shows that no splittable payload gets there. */
  function FragmentsFrom(payload: bytes, version: nat, position: nat, index: nat): seq<bytes>
    requires version < 16
    decreases |payload| - position
  {
    var header := Header(index, |payload|, version);
    if position >= |payload| || |header| >= GATT_MTU then []
    else
      var end := ChunkEnd(payload, position, header);
      [header + payload[position..end]] + FragmentsFrom(payload, version, end, index + 1)
  }

  function ChunkEnd(payload: bytes, position: nat, header: bytes): (end: nat)
    requires position < |payload| && |header| < GATT_MTU
    ensures position < end <= |payload|
  {
    if position + GATT_MTU - |header| < |payload| then position + GATT_MTU - |header| else |payload|
  }

  function Split(payload: bytes, version: nat): seq<bytes>
    requires version < 16
  {
    FragmentsFrom(payload, version, 0, 0)
  }

  function Packets(payload: bytes, version: nat): Result<seq<bytes>> {
    if payload == [] then Ok([])
    else if version >= 16 then Err(StructError)
    else Ok(Split(payload, version))
  }

  /** Where splitting terminates: the opening header leaves room for at least one octet (lengths below 2^119). */
  predicate Splittable(payload: bytes) {
    |Pack(|payload|)| + 2 < GATT_MTU
  }

  method BuildHeader(index: nat, total: nat, protocolVersion: nat) returns (r: Result<bytes>)
    requires index == 0 || protocolVersion < 16
    ensures r == if protocolVersion >= 16 then Err(StructError) else Ok(Header(index, total, protocolVersion))
  {
    var header := PackVarint(index);
    if index == 0 {
      var length := PackVarint(total);
      header := header + length;
      if protocolVersion >= 16 {
        return Err(StructError);
      }
      header := header + [protocolVersion * 16];
    }
    return Ok(header);
  }

  method BuildPackets(payload: bytes, protocolVersion: nat) returns (r: Result<seq<bytes>>)
    requires Splittable(payload)
    ensures r == Packets(payload, protocolVersion)
  {
    var packets: seq<bytes> := [];
    var position, index := 0, 0;
    while position < |payload|
      invariant 0 <= index <= position <= |payload|
      invariant index == 0 <==> position == 0
      invariant position > 0 ==> protocolVersion < 16
      invariant position == 0 ==> packets == []
      invariant Pending(packets, payload, protocolVersion, position, index)
    {
      var packed := BuildHeader(index, |payload|, protocolVersion);
      if packed.Err? {
        return Err(packed.error);
      }
      var header := packed.value;
      PendingNext(packets, payload, protocolVersion, position, index);
      var chunk := payload[position..ChunkEnd(payload, position, header)];
      packets := packets + [header + chunk];
      position := position + |chunk|;
      index := index + 1;
    }
    assert packets + [] == packets;
    return Ok(packets);
  }

  /** The packets built so far are the split up to `position`. */
  ghost predicate Pending(packets: seq<bytes>, payload: bytes, version: nat, position: nat, index: nat) {
    version < 16 ==> packets + FragmentsFrom(payload, version, position, index) == Split(payload, version)
  }

  lemma {:induction false} PendingNext(packets: seq<bytes>, payload: bytes, version: nat, position: nat, index: nat)
    requires Splittable(payload) && version < 16 && index <= position < |payload|
    requires Pending(packets, payload, version, position, index)
    ensures var header := Header(index, |payload|, version);
            && |header| < GATT_MTU
            && var end := ChunkEnd(payload, position, header);
               Pending(packets + [header + payload[position..end]], payload, version, end, index + 1)
  {
    HeaderFits(payload, version, index);
    var header := Header(index, |payload|, version);
    var end := ChunkEnd(payload, position, header);
    var fragment := header + payload[position..end];
    var rest := FragmentsFrom(payload, version, end, index + 1);
    assert FragmentsFrom(payload, version, position, index) == [fragment] + rest;
    assert packets + ([fragment] + rest) == (packets + [fragment]) + rest;
  }

  lemma {:induction false} PackMonotone(small: nat, large: nat)
    requires small <= large
    ensures |Pack(small)| <= |Pack(large)|
  {
    if large >= 128 && small >= 128 {
      PackMonotone(small / 128, large / 128);
    }
  }

  lemma {:induction false} HeaderFits(payload: bytes, version: nat, index: nat)
    requires Splittable(payload) && version < 16 && index <= |payload|
    ensures |Header(index, |payload|, version)| < GATT_MTU
  {
    PackMonotone(index, |payload|);
  }

  lemma {:induction false} ShortPayloadSplits(payload: bytes)
    requires |payload| < 0x1000_0000
    ensures Splittable(payload) && |Pack(|payload|)| <= 4
  {
    RoundTrip([], |payload|, []);
  }

  /** The octets a fragment carries after its header. */
  function Body(fragment: bytes, index: nat, total: nat, version: nat): bytes
    requires version < 16
  {
    var n := |Header(index, total, version)|;
    if n <= |fragment| then fragment[n..] else []
  }

  function Bodies(fragments: seq<bytes>, index: nat, total: nat, version: nat): bytes
    requires version < 16
  {
    if fragments == [] then []
    else Body(fragments[0], index, total, version) + Bodies(fragments[1..], index + 1, total, version)
  }

  /** The shape of a split: numbered in order, every fragment but the last exactly one packet long and the last no
      longer, every one carrying at least one octet, and the bodies joining to the payload. */
  lemma {:induction false} SplitShape(payload: bytes, version: nat)
    requires Splittable(payload) && version < 16
    ensures var fragments := Split(payload, version);
            && Bodies(fragments, 0, |payload|, version) == payload
            && |fragments| <= |payload| && (fragments == [] <==> payload == [])
            && (forall i :: 0 <= i < |fragments| ==>
                  var header := if i == 0 then [0] + Pack(|payload|) + [16 * version] else Pack(i);
                  && header == Header(i, |payload|, version)
                  && header < fragments[i] && |fragments[i]| <= 20
                  && (i < |fragments| - 1 ==> |fragments[i]| == 20))
  {
    ShapeFrom(payload, version, 0, 0);
    assert Pack(0) == [0];
    BodiesJoin(payload, version, 0, 0);
    assert payload[0..] == payload;
  }

  lemma {:induction false} ShapeFrom(payload: bytes, version: nat, position: nat, index: nat)
    requires Splittable(payload) && version < 16 && index <= position <= |payload|
    ensures var fragments := FragmentsFrom(payload, version, position, index);
            && |fragments| <= |payload| - position
            && (position < |payload| ==> fragments != [])
            && Shaped(fragments, index, |payload|, version)
    decreases |payload| - position
  {
    if position < |payload| {
      HeaderFits(payload, version, index);
      var end := ChunkEnd(payload, position, Header(index, |payload|, version));
      ShapeFrom(payload, version, end, index + 1);
      ShapeGrows(FragmentsFrom(payload, version, position, index), index, |payload|, version);
    }
  }

  lemma {:induction false} BodiesJoin(payload: bytes, version: nat, position: nat, index: nat)
    requires Splittable(payload) && version < 16 && index <= position <= |payload|
    ensures Bodies(FragmentsFrom(payload, version, position, index), index, |payload|, version)
         == payload[position..]
    decreases |payload| - position
  {
    if position < |payload| {
      HeaderFits(payload, version, index);
      var end := ChunkEnd(payload, position, Header(index, |payload|, version));
      BodiesJoin(payload, version, end, index + 1);
      BodiesGrow(FragmentsFrom(payload, version, end, index + 1), index, |payload|, version, payload[position..end]);
      assert payload[position..end] + payload[end..] == payload[position..];
    }
  }

  lemma {:induction false} BodiesGrow(rest: seq<bytes>, index: nat, total: nat, version: nat, chunk: bytes)
    requires version < 16
    ensures Bodies([Header(index, total, version) + chunk] + rest, index, total, version)
         == chunk + Bodies(rest, index + 1, total, version)
  {
    var fragments := [Header(index, total, version) + chunk] + rest;
    assert fragments[1..] == rest;
  }

  /** Fragments numbered from `index` on. */
  ghost predicate Shaped(fragments: seq<bytes>, index: nat, total: nat, version: nat)
    requires version < 16
  {
    forall i :: 0 <= i < |fragments| ==>
      var header := Header(index + i, total, version);
      && header < fragments[i] && |fragments[i]| <= GATT_MTU
      && (i < |fragments| - 1 ==> |fragments[i]| == GATT_MTU)
  }

  lemma {:induction false} ShapeGrows(fragments: seq<bytes>, index: nat, total: nat, version: nat)
    requires version < 16 && fragments != [] && Shaped(fragments[1..], index + 1, total, version)
    requires Header(index, total, version) < fragments[0] && |fragments[0]| <= GATT_MTU
    requires |fragments| > 1 ==> |fragments[0]| == GATT_MTU
    ensures Shaped(fragments, index, total, version)
  {
    forall i | 0 < i < |fragments|
      ensures var header := Header(index + i, total, version);
              && header < fragments[i] && |fragments[i]| <= GATT_MTU
              && (i < |fragments| - 1 ==> |fragments[i]| == GATT_MTU)
    {
      assert fragments[i] == fragments[1..][i - 1];
      assert index + i == (index + 1) + (i - 1);
    }
  }
}
