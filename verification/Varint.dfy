/** The little-endian base-128 integers that prefix every fragment (protocol/varint.py). */
module Varint {
  import opened Bytes

  const MAX_BYTES := 4

  /** 128 to the k. */
  function Pow128(k: nat): (p: nat)
    ensures p > 0
  {
    if k == 0 then 1 else 128 * Pow128(k - 1)
  }

  /** The encoding as a recursive specification: seven bits at a time, low group first. */
  function Pack(value: nat): (b: bytes)
    ensures |b| > 0
  {
    if value < 128 then [value] else [value % 128 + 128] + Pack(value / 128)
  }

  method PackVarint(value: nat) returns (encoded: bytes)
    ensures encoded == Pack(value)
  {
    encoded := [];
    var rest := value;
    while true
      invariant encoded + Pack(rest) == Pack(value)
      decreases rest
    {
      var current: byte := rest % 128;
      ghost var before := rest;
      rest := rest / 128;
      if rest != 0 {
        current := current + 128;
        assert Pack(before) == [current] + Pack(rest);
      }
      encoded := encoded + [current];
      if rest == 0 {
        return;
      }
    }
  }

  /** Decoding with `room` octets still allowed: the value and the position after it. */
  function Read(data: bytes, position: nat, room: nat): Result<(nat, nat)>
    decreases room
  {
    if room == 0 then Err(NeverTerminates)
    else if position >= |data| then Err(EndsMidInteger)
    else if data[position] < 128 then Ok((data[position], position + 1))
    else
      match Read(data, position + 1, room - 1)
      case Ok((high, end)) => Ok((data[position] - 128 + 128 * high, end))
      case Err(e) => Err(e)
  }

  function Unpack(data: bytes, start: nat): Result<(nat, nat)> {
    Read(data, start, MAX_BYTES)
  }

  method UnpackVarint(data: bytes, start: nat) returns (r: Result<(nat, nat)>)
    ensures r == Unpack(data, start)
  {
    var value: nat := 0;
    for offset := 0 to MAX_BYTES
      invariant Unpack(data, start) == Resumed(data, start, offset, value)
    {
      var position := start + offset;
      if position >= |data| {
        return Err(EndsMidInteger);
      }
      var current := data[position];
      ghost var before := value;
      value := value + (current % 128) * Pow128(offset);
      if current < 128 {
        return Ok((value, position + 1));
      }
      ResumeNext(data, start, offset, before);
    }
    return Err(NeverTerminates);
  }

  /** What decoding yields once `offset` octets have contributed `value`. */
  ghost function Resumed(data: bytes, start: nat, offset: nat, value: nat): Result<(nat, nat)>
    requires offset <= MAX_BYTES
  {
    match Read(data, start + offset, MAX_BYTES - offset)
    case Ok((high, end)) => Ok((value + Pow128(offset) * high, end))
    case Err(e) => Err(e)
  }

  lemma {:induction false} ResumeNext(data: bytes, start: nat, offset: nat, value: nat)
    requires offset < MAX_BYTES && start + offset < |data| && data[start + offset] >= 128
    ensures Resumed(data, start, offset, value)
         == Resumed(data, start, offset + 1, value + (data[start + offset] % 128) * Pow128(offset))
  {
    match Read(data, start + offset + 1, MAX_BYTES - offset - 1)
    case Err(_) =>
    case Ok((high, end)) =>
      var p, c := Pow128(offset), data[start + offset] - 128;
      assert data[start + offset] % 128 == c;
      assert p * (c + 128 * high) == c * p + (128 * p) * high;
  }

  /** The number of octets is the number of base-128 digits. */
  lemma {:induction false} PackLength(value: nat, k: nat)
    requires k > 0
    ensures |Pack(value)| <= k <==> value < Pow128(k)
  {
    if k == 1 {
      assert Pow128(1) == 128 * Pow128(0);
    } else if value >= 128 {
      PackLength(value / 128, k - 1);
    }
  }

  /** Octets as base-128 digits, the lowest first. */
  function Value128(octets: bytes): nat {
    if octets == [] then 0 else octets[0] % 128 + 128 * Value128(octets[1..])
  }

  /** The octets hold the base-128 digits of the value, the lowest first, none of them superfluous, and bit 7 of an
      octet says that another follows. */
  lemma {:induction false} PackDigits(value: nat)
    ensures Value128(Pack(value)) == value && Pack(value) != []
    ensures forall i :: 0 <= i < |Pack(value)| ==> (Pack(value)[i] >= 128 <==> i < |Pack(value)| - 1)
    ensures |Pack(value)| > 1 ==> Pack(value)[|Pack(value)| - 1] != 0
  {
    if value >= 128 {
      var octets, rest := Pack(value), Pack(value / 128);
      PackDigits(value / 128);
      assert octets == [value % 128 + 128] + rest && octets[1..] == rest;
      forall i | 0 < i < |octets|
        ensures octets[i] == rest[i - 1]
      {}
      if |rest| == 1 {
        assert rest[0] != 0 by {
          assert Value128(rest) == rest[0] % 128 + 128 * Value128(rest[1..]);
        }
      }
    }
  }

  /** Decoding inverts encoding, wherever the encoding stands in the data. */
  lemma {:induction false} ReadPack(before: bytes, value: nat, after: bytes, room: nat)
    requires |Pack(value)| <= room
    ensures Read(before + Pack(value) + after, |before|, room) == Ok((value, |before| + |Pack(value)|))
    decreases room
  {
    var data := before + Pack(value) + after;
    if value >= 128 {
      var first := [value % 128 + 128];
      ReadPack(before + first, value / 128, after, room - 1);
      assert (before + first) + Pack(value / 128) + after == data;
    }
  }

  lemma {:induction false} ReadOverlong(before: bytes, value: nat, after: bytes, room: nat)
    requires |Pack(value)| > room
    ensures Read(before + Pack(value) + after, |before|, room) == Err(NeverTerminates)
    decreases room
  {
    var data := before + Pack(value) + after;
    if room > 0 {
      var first := [value % 128 + 128];
      ReadOverlong(before + first, value / 128, after, room - 1);
      assert (before + first) + Pack(value / 128) + after == data;
    }
  }

  /** Round trip: exact value and exact end below 2^28; anything larger is refused when read back. */
  lemma {:induction false} RoundTrip(before: bytes, value: nat, after: bytes)
    ensures var r := Unpack(before + Pack(value) + after, |before|);
            if value < 0x1000_0000
            then r == Ok((value, |before| + |Pack(value)|)) && |Pack(value)| <= MAX_BYTES
            else r == Err(NeverTerminates)
  {
    PackLength(value, 4);
    assert Pow128(4) == 128 * Pow128(3) && Pow128(2) == 16384;
    if value < 0x1000_0000 {
      ReadPack(before, value, after, 4);
    } else {
      ReadOverlong(before, value, after, 4);
    }
  }

  /** Decoding is sound: at most `room` octets, a value with no more base-128 digits than octets read, and
      the octets are the encoding itself exactly when they are not padded with a zero group. */
  lemma {:induction false} ReadSound(data: bytes, position: nat, room: nat)
    requires Read(data, position, room).Ok?
    ensures var (value, end) := Read(data, position, room).value;
            && position < end <= |data| && end - position <= room
            && value < Pow128(end - position)
            && |Pack(value)| <= end - position
            && (data[position..end] == Pack(value) <==> end == position + 1 || data[end - 1] != 0)
    decreases room
  {
    var (value, end) := Read(data, position, room).value;
    if data[position] < 128 {
      assert Pow128(1) == 128 * Pow128(0);
      assert data[position..end] == [data[position]];
    } else {
      ReadSound(data, position + 1, room - 1);
      var (high, _) := Read(data, position + 1, room - 1).value;
      assert value / 128 == high && value % 128 == data[position] - 128;
      assert data[position..end] == [data[position]] + data[position + 1..end];
      assert Pow128(end - position) == 128 * Pow128(end - position - 1);
      PackLength(value, end - position);
      if value < 128 {
        assert Pack(high) == [0];
        assert data[position..end][0] >= 128;
        assert data[position..end] != Pack(value);
        ReadZero(data, position + 1, room - 1);
      } else {
        assert Pack(value) == [data[position]] + Pack(high);
        assert Pack(value)[1..] == Pack(high) && data[position..end][1..] == data[position + 1..end];
        if high == 0 { assert false; }
        ReadPositive(data, position + 1, room - 1);
      }
    }
  }

  lemma {:induction false} ReadZero(data: bytes, position: nat, room: nat)
    requires Read(data, position, room).Ok? && Read(data, position, room).value.0 == 0
    ensures var end := Read(data, position, room).value.1; position < end <= |data| && data[end - 1] == 0
    decreases room
  {
    if data[position] >= 128 {
      ReadZero(data, position + 1, room - 1);
    }
  }

  /** A one-octet encoding of a positive value does not end in a zero group. */
  lemma {:induction false} ReadPositive(data: bytes, position: nat, room: nat)
    requires Read(data, position, room).Ok? && Read(data, position, room).value.0 > 0
    ensures Read(data, position, room).value.1 == position + 1 ==> data[position] != 0
  {}

  lemma {:induction false} UnpackSound(data: bytes, start: nat)
    requires Unpack(data, start).Ok?
    ensures var (value, end) := Unpack(data, start).value;
            && start < end <= |data| && end - start <= MAX_BYTES
            && value < Pow128(end - start)
            && |Pack(value)| <= end - start
            && (data[start..end] == Pack(value) <==> end == start + 1 || data[end - 1] != 0)
  {
    ReadSound(data, start, MAX_BYTES);
  }

  lemma {:induction false} ReadRaises(data: bytes, position: nat, room: nat)
    ensures Read(data, position, room).Err? ==> Read(data, position, room).error.IsTuyaBleError()
    decreases room
  {
    if room > 0 && position < |data| {
      ReadRaises(data, position + 1, room - 1);
    }
  }

  lemma {:induction false} UnpackRaises(data: bytes, start: nat)
    ensures Unpack(data, start).Err? ==> Unpack(data, start).error.IsTuyaBleError()
  {
    ReadRaises(data, start, MAX_BYTES);
  }
}
