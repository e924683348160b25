/** The datapoint records a device pushes (commands/data_points.py). */
module DataPoints {
  import opened Bytes

  const RECORD_HEADER_LENGTH := 3
  const MILLISECOND_TIMESTAMP_LENGTH := 13
  const SECOND_TIMESTAMP_LENGTH := 4

  datatype DataPointType = RAW | BOOLEAN | VALUE | STRING | ENUM | BITMAP

  datatype Value = Octets(raw: bytes) | Truth(flag: bool) | Number(number: int) | Text(text: string)

  /** The moment a reading is attributed to; `Reception` stands for the clock when the report arrived. */
  datatype Moment = Reception(clock: int) | Seconds(seconds: nat) | Milliseconds(milliseconds: int)

  datatype DataPoint = DataPoint(identifier: byte, dataType: DataPointType, value: Value, timestamp: Moment)

  /** The two library decoders: UTF-8 text, and the decimal number a text spells. */
  datatype Decoders = Decoders(utf8: bytes -> Option<string>, number: bytes -> Option<int>)

  function TypeByte(t: DataPointType): byte {
    match t
    case RAW => 0
    case BOOLEAN => 1
    case VALUE => 2
    case STRING => 3
    case ENUM => 4
    case BITMAP => 5
  }

  function TypeFromByte(b: byte): Option<DataPointType> {
    match b
    case 0 => Some(RAW)
    case 1 => Some(BOOLEAN)
    case 2 => Some(VALUE)
    case 3 => Some(STRING)
    case 4 => Some(ENUM)
    case 5 => Some(BITMAP)
    case _ => None
  }

  function BigEndian(raw: bytes): nat {
    if raw == [] then 0 else 256 * BigEndian(raw[..|raw| - 1]) + raw[|raw| - 1] as nat
  }

  function Pow256(n: nat): (p: nat)
    ensures p > 0
  {
    if n == 0 then 1 else 256 * Pow256(n - 1)
  }

  /** Two's complement, the most significant octet first. */
  function SignedBigEndian(raw: bytes): int {
    if raw != [] && raw[0] >= 128 then BigEndian(raw) - Pow256(|raw|) else BigEndian(raw)
  }

  function DecodeValue(d: Decoders, t: DataPointType, raw: bytes): Result<Value> {
    match t
    case RAW | BITMAP => Ok(Octets(raw))
    case BOOLEAN => Ok(Truth(BigEndian(raw) != 0))
    case VALUE | ENUM => Ok(Number(SignedBigEndian(raw)))
    case STRING =>
      match d.utf8(raw)
      case Some(text) => Ok(Text(text))
      case None => Err(UndecodableString)
  }

  /** The timestamp before the records of a timed report, and the position after it. */
  function ParseTimestamp(d: Decoders, data: bytes, start: nat): Result<(Moment, nat)> {
    if start >= |data| then Err(ReportTruncated)
    else
      var position := start + 1;
      if data[start] == 0 then
        var end := position + MILLISECOND_TIMESTAMP_LENGTH;
        if end > |data| then Err(ReportTruncated)
        else
          match d.number(data[position..end])
          case Some(n) => Ok((Milliseconds(n), end))
          case None => Err(BadMilliseconds)
      else if data[start] == 1 then
        var end := position + SECOND_TIMESTAMP_LENGTH;
        if end > |data| then Err(ReportTruncated) else Ok((Seconds(BigEndian(data[position..end])), end))
      else Err(UnknownTimestampEncoding)
  }

  /** A record as it stands in the report, its value not yet interpreted. */
  datatype Record = Record(identifier: byte, dataType: DataPointType, raw: bytes) {
    predicate WellFormed(d: Decoders) {
      |raw| < 256 && DecodeValue(d, dataType, raw).Ok?
    }

    function Print(): (b: bytes)
      requires |raw| < 256
      ensures |b| == RECORD_HEADER_LENGTH + |raw|
    {
      [identifier, TypeByte(dataType), |raw|] + raw
    }
  }

  function ReadRecord(data: bytes, start: nat): Result<(Record, nat)>
    requires |data| - start > RECORD_HEADER_LENGTH
  {
    match TypeFromByte(data[start + 1])
    case None => Err(UnknownDataPointType)
    case Some(t) =>
      var end := start + RECORD_HEADER_LENGTH + data[start + 2];
      if end > |data| then Err(ReportTruncated)
      else Ok((Record(data[start], t, data[start + RECORD_HEADER_LENGTH..end]), end))
  }

  function ReadPoint(d: Decoders, record: Record, timestamp: Moment): Result<DataPoint> {
    match DecodeValue(d, record.dataType, record.raw)
    case Err(e) => Err(e)
    case Ok(value) => Ok(DataPoint(record.identifier, record.dataType, value, timestamp))
  }

  /** The records from `start` on; reading stops when no more than a record header is left. */
  function ParsePoints(d: Decoders, data: bytes, start: nat, timestamp: Moment): Result<seq<DataPoint>>
    decreases |data| - start
  {
    if |data| - start <= RECORD_HEADER_LENGTH then Ok([])
    else
      match ReadRecord(data, start)
      case Err(e) => Err(e)
      case Ok((record, end)) =>
        match ReadPoint(d, record, timestamp)
        case Err(e) => Err(e)
        case Ok(point) => Prefixed([point], ParsePoints(d, data, end, timestamp))
  }

  function Prefixed(points: seq<DataPoint>, r: Result<seq<DataPoint>>): Result<seq<DataPoint>> {
    if r.Ok? then Ok(points + r.value) else r
  }

  method ParseDataPoints(d: Decoders, data: bytes, start: nat, timestamp: Moment) returns (r: Result<seq<DataPoint>>)
    ensures r == ParsePoints(d, data, start, timestamp)
  {
    var dataPoints: seq<DataPoint> := [];
    var position := start;
    PrefixedNone(ParsePoints(d, data, start, timestamp));
    while |data| - position > RECORD_HEADER_LENGTH
      invariant ParsePoints(d, data, start, timestamp)
             == Prefixed(dataPoints, ParsePoints(d, data, position, timestamp))
      decreases |data| - position
    {
      var identifier := data[position];
      var dataType := TypeFromByte(data[position + 1]);
      if dataType.None? {
        return Err(UnknownDataPointType);
      }
      var length := data[position + 2];
      var end := position + RECORD_HEADER_LENGTH + length;
      if end > |data| {
        return Err(ReportTruncated);
      }
      var rawValue := data[position + RECORD_HEADER_LENGTH..end];
      var value := DecodeValue(d, dataType.value, rawValue);
      if value.Err? {
        return Err(value.error);
      }
      var point := DataPoint(identifier, dataType.value, value.value, timestamp);
      PrefixedNext(dataPoints, point, ParsePoints(d, data, end, timestamp));
      dataPoints := dataPoints + [point];
      position := end;
    }
    assert dataPoints + [] == dataPoints;
    return Ok(dataPoints);
  }

  lemma {:induction false} PrefixedNone(r: Result<seq<DataPoint>>)
    ensures Prefixed([], r) == r
  {
    if r.Ok? {
      assert [] + r.value == r.value;
    }
  }

  lemma {:induction false} PrefixedNext(points: seq<DataPoint>, point: DataPoint, r: Result<seq<DataPoint>>)
    ensures Prefixed(points, Prefixed([point], r)) == Prefixed(points + [point], r)
  {
    if r.Ok? {
      assert points + ([point] + r.value) == (points + [point]) + r.value;
    }
  }

  function PrintAll(records: seq<Record>): bytes
    requires forall i :: 0 <= i < |records| ==> |records[i].raw| < 256
  {
    if records == [] then [] else records[0].Print() + PrintAll(records[1..])
  }

  ghost predicate AllWellFormed(d: Decoders, records: seq<Record>) {
    forall i :: 0 <= i < |records| ==> records[i].WellFormed(d)
  }

  function Points(d: Decoders, records: seq<Record>, timestamp: Moment): seq<DataPoint>
    requires AllWellFormed(d, records)
  {
    if records == [] then []
    else [ReadPoint(d, records[0], timestamp).value] + Points(d, records[1..], timestamp)
  }

  /** A record with an empty value that ends the report exactly is not read: the loop wants more than a header. */
  predicate Dropped(records: seq<Record>, tail: bytes) {
    records != [] && records[|records| - 1].raw == [] && tail == []
  }

  lemma {:induction false} ReadPrinted(data: bytes, before: bytes, r: Record, after: bytes)
    requires |r.raw| < 256 && |r.raw| + |after| > 0 && data == before + r.Print() + after
    ensures ReadRecord(data, |before|) == Ok((r, |before| + |r.Print()|))
  {
    assert data[|before|] == r.Print()[0] && data[|before| + 1] == r.Print()[1] && data[|before| + 2] == r.Print()[2];
    assert data[|before| + RECORD_HEADER_LENGTH..|before| + |r.Print()|] == r.raw;
  }

  /** The records that reading will reach. */
  function Reached(records: seq<Record>, tail: bytes): seq<Record> {
    if Dropped(records, tail) then records[..|records| - 1] else records
  }

  lemma {:induction false} ReachedTail(records: seq<Record>, tail: bytes)
    requires records != []
    ensures records == [records[0]] && Dropped(records, tail) ==> Reached(records, tail) == []
    ensures !(records == [records[0]] && Dropped(records, tail)) ==>
              Reached(records, tail) == [records[0]] + Reached(records[1..], tail)
  {
    if Dropped(records, tail) && |records| > 1 {
      assert records[..|records| - 1] == [records[0]] + records[1..][..|records| - 2];
    } else if !Dropped(records, tail) {
      assert records == [records[0]] + records[1..];
    }
  }

  /** One record read, then the rest. */
  lemma {:induction false} ParseStep(
      d: Decoders, data: bytes, start: nat, timestamp: Moment, r: Record, end: nat, rest: seq<Record>)
    requires |data| - start > RECORD_HEADER_LENGTH && ReadRecord(data, start) == Ok((r, end))
    requires r.WellFormed(d) && AllWellFormed(d, rest)
    requires ParsePoints(d, data, end, timestamp) == Ok(Points(d, rest, timestamp))
    ensures AllWellFormed(d, [r] + rest)
    ensures ParsePoints(d, data, start, timestamp) == Ok(Points(d, [r] + rest, timestamp))
  {
    PointsCons(d, r, rest, timestamp);
    assert ReadPoint(d, r, timestamp).Ok?;
  }

  lemma {:induction false} PrintedNext(data: bytes, before: bytes, records: seq<Record>, tail: bytes)
    requires records != [] && (forall i :: 0 <= i < |records| ==> |records[i].raw| < 256)
    requires data == before + PrintAll(records) + tail
    ensures data == before + records[0].Print() + PrintAll(records[1..]) + tail
    ensures data == before + records[0].Print() + (PrintAll(records[1..]) + tail)
  {
    var first, rest := records[0].Print(), PrintAll(records[1..]);
    AppendAssociates(before, first, rest);
    AppendAssociates(before + first, rest, tail);
  }

  /** Parsing what was printed: every record comes back, but for a last empty one with nothing after it. */
  lemma {:induction false} ParsePrinted(
      d: Decoders, data: bytes, before: bytes, records: seq<Record>, tail: bytes, timestamp: Moment)
    requires AllWellFormed(d, records) && |tail| <= RECORD_HEADER_LENGTH
    requires data == before + PrintAll(records) + tail
    ensures AllWellFormed(d, Reached(records, tail))
    ensures ParsePoints(d, data, |before|, timestamp) == Ok(Points(d, Reached(records, tail), timestamp))
    decreases |records|
  {
    if records == [] {
      NothingLeft(d, data, |before|, timestamp);
    } else {
      var r, rest := records[0], records[1..];
      PrintedNext(data, before, records, tail);
      if |r.raw| + |PrintAll(rest) + tail| > 0 {
        ParsePrinted(d, data, before + r.Print(), rest, tail, timestamp);
        ParseOneMore(d, data, before, records, tail, timestamp);
      } else {
        LastReached(records, tail);
        ReachedTail(records, tail);
        NothingLeft(d, data, |before|, timestamp);
      }
    }
  }

  /** The first record, given that those after it are read. */
  lemma {:induction false} ParseOneMore(
      d: Decoders, data: bytes, before: bytes, records: seq<Record>, tail: bytes, timestamp: Moment)
    requires records != [] && AllWellFormed(d, records) && AllWellFormed(d, Reached(records[1..], tail))
    requires |records[0].raw| + |PrintAll(records[1..]) + tail| > 0
    requires data == before + records[0].Print() + (PrintAll(records[1..]) + tail)
    requires ParsePoints(d, data, |before + records[0].Print()|, timestamp)
          == Ok(Points(d, Reached(records[1..], tail), timestamp))
    ensures AllWellFormed(d, Reached(records, tail))
    ensures ParsePoints(d, data, |before|, timestamp) == Ok(Points(d, Reached(records, tail), timestamp))
  {
    var r := records[0];
    LastReached(records, tail);
    ReachedTail(records, tail);
    ReadPrinted(data, before, r, PrintAll(records[1..]) + tail);
    ParseStep(d, data, |before|, timestamp, r, |before + r.Print()|, Reached(records[1..], tail));
  }

  lemma {:induction false} NothingLeft(d: Decoders, data: bytes, start: nat, timestamp: Moment)
    requires |data| - start <= RECORD_HEADER_LENGTH
    ensures ParsePoints(d, data, start, timestamp) == Ok(Points(d, [], timestamp))
  {}

  lemma {:induction false} LastReached(records: seq<Record>, tail: bytes)
    requires records != [] && (forall i :: 0 <= i < |records| ==> |records[i].raw| < 256)
    ensures (records == [records[0]] && Dropped(records, tail)) <==>
              |records[0].raw| + |PrintAll(records[1..]) + tail| == 0
  {
    PrintedLength(records[1..]);
    if records == [records[0]] {
      assert records[1..] == [];
    } else {
      assert |records| > 1;
    }
  }

  lemma {:induction false} PointsCons(d: Decoders, r: Record, rest: seq<Record>, timestamp: Moment)
    requires r.WellFormed(d) && AllWellFormed(d, rest)
    ensures AllWellFormed(d, [r] + rest)
    ensures Points(d, [r] + rest, timestamp) == [ReadPoint(d, r, timestamp).value] + Points(d, rest, timestamp)
  {
    assert ([r] + rest)[1..] == rest;
  }

  lemma {:induction false} PrintedLength(records: seq<Record>)
    requires forall i :: 0 <= i < |records| ==> |records[i].raw| < 256
    ensures |PrintAll(records)| >= RECORD_HEADER_LENGTH * |records|
  {
    if records != [] {
      PrintedLength(records[1..]);
    }
  }

  /** The records a parse reads. */
  ghost function RecordsOf(data: bytes, start: nat): seq<Record>
    decreases |data| - start
  {
    if |data| - start <= RECORD_HEADER_LENGTH then []
    else
      match ReadRecord(data, start)
      case Err(_) => []
      case Ok((record, end)) => [record] + RecordsOf(data, end)
  }

  /** The octets that are left over. */
  ghost function LeftOver(data: bytes, start: nat): bytes
    requires start <= |data|
    decreases |data| - start
  {
    if |data| - start <= RECORD_HEADER_LENGTH then data[start..]
    else
      match ReadRecord(data, start)
      case Err(_) => []
      case Ok((_, end)) => LeftOver(data, end)
  }

  /** A successful parse splits the report into printed records and at most three octets left over. */
  lemma {:induction false} ParseSplits(d: Decoders, data: bytes, start: nat, timestamp: Moment)
    requires start <= |data| && ParsePoints(d, data, start, timestamp).Ok?
    ensures var records, tail := RecordsOf(data, start), LeftOver(data, start);
            && AllWellFormed(d, records)
            && ParsePoints(d, data, start, timestamp).value == Points(d, records, timestamp)
            && data[start..] == PrintAll(records) + tail && |tail| <= RECORD_HEADER_LENGTH && !Dropped(records, tail)
    decreases |data| - start
  {
    if |data| - start > RECORD_HEADER_LENGTH {
      var (r, end) := ReadRecord(data, start).value;
      var rest, tail := RecordsOf(data, end), LeftOver(data, end);
      ReadSplits(data, start);
      ParseTail(d, data, start, timestamp);
      ParseSplits(d, data, end, timestamp);
      ParseStep(d, data, start, timestamp, r, end, rest);
      PrintCons(r, rest);
      AppendAssociates(r.Print(), PrintAll(rest), tail);
    }
  }

  lemma {:induction false} ParseTail(d: Decoders, data: bytes, start: nat, timestamp: Moment)
    requires |data| - start > RECORD_HEADER_LENGTH && ParsePoints(d, data, start, timestamp).Ok?
    ensures ReadRecord(data, start).Ok?
    ensures var (r, end) := ReadRecord(data, start).value;
            DecodeValue(d, r.dataType, r.raw).Ok? && ParsePoints(d, data, end, timestamp).Ok?
  {}

  lemma {:induction false} AppendAssociates(a: bytes, b: bytes, c: bytes)
    ensures a + (b + c) == (a + b) + c
  {}

  lemma {:induction false} PrintCons(r: Record, rest: seq<Record>)
    requires |r.raw| < 256 && forall i :: 0 <= i < |rest| ==> |rest[i].raw| < 256
    ensures PrintAll([r] + rest) == r.Print() + PrintAll(rest)
  {
    assert ([r] + rest)[1..] == rest;
  }

  lemma {:induction false} ReadSplits(data: bytes, start: nat)
    requires |data| - start > RECORD_HEADER_LENGTH && ReadRecord(data, start).Ok?
    ensures var (r, end) := ReadRecord(data, start).value;
            && start + RECORD_HEADER_LENGTH <= end <= |data| && |r.raw| < 256
            && data[start..] == r.Print() + data[end..]
  {
    var (r, end) := ReadRecord(data, start).value;
    TypeRoundTrip(data[start + 1]);
    assert data[start..end] == r.Print();
    assert data[start..] == data[start..end] + data[end..];
  }

  lemma {:induction false} TypeRoundTrip(b: byte)
    ensures TypeFromByte(b).Some? ==> TypeByte(TypeFromByte(b).value) == b
  {}

  /** The parser accepts exactly the printed reports, and reads exactly their records. */
  lemma {:induction false} ParseExact(
      d: Decoders, data: bytes, start: nat, timestamp: Moment, points: seq<DataPoint>)
    requires start <= |data|
    ensures ParsePoints(d, data, start, timestamp) == Ok(points) <==>
              exists records, tail ::
                && AllWellFormed(d, records) && |tail| <= RECORD_HEADER_LENGTH && !Dropped(records, tail)
                && data[start..] == PrintAll(records) + tail && points == Points(d, records, timestamp)
  {
    if ParsePoints(d, data, start, timestamp) == Ok(points) {
      ParseSplits(d, data, start, timestamp);
    }
    forall records, tail |
      && AllWellFormed(d, records) && |tail| <= RECORD_HEADER_LENGTH && !Dropped(records, tail)
      && data[start..] == PrintAll(records) + tail
      ensures ParsePoints(d, data, start, timestamp) == Ok(Points(d, records, timestamp))
    {
      assert data == data[..start] + data[start..];
      assert data == data[..start] + PrintAll(records) + tail;
      ParsePrinted(d, data, data[..start], records, tail, timestamp);
    }
  }

  // ----- what a value means -----

  /** Octets by their weights, the most significant first. */
  function Weighed(raw: bytes): nat {
    if raw == [] then 0 else raw[0] * Pow256(|raw| - 1) + Weighed(raw[1..])
  }

  /** The octets are those of the number in two's complement. */
  predicate TwosComplement(raw: bytes, n: int) {
    var range := Pow256(|raw|);
    && 0 <= 2 * n + range && 2 * n < range
    && Weighed(raw) == if n < 0 then n + range else n
  }

  /** What a value of each type, under the octet that stands for it, says. */
  ghost predicate Means(d: Decoders, t: DataPointType, octet: byte, raw: bytes, value: Value) {
    match t
    case RAW => octet == 0 && value == Octets(raw)
    case BOOLEAN => octet == 1 && value == Truth(exists i :: 0 <= i < |raw| && raw[i] != 0)
    case VALUE => octet == 2 && value.Number? && TwosComplement(raw, value.number)
    case STRING => octet == 3 && d.utf8(raw).Some? && value == Text(d.utf8(raw).value)
    case ENUM => octet == 4 && value.Number? && TwosComplement(raw, value.number)
    case BITMAP => octet == 5 && value == Octets(raw)
  }

  lemma {:induction false} BigEndianZero(raw: bytes)
    ensures BigEndian(raw) == 0 <==> forall i :: 0 <= i < |raw| ==> raw[i] == 0
  {
    if raw != [] {
      var front := raw[..|raw| - 1];
      BigEndianZero(front);
      if BigEndian(raw) == 0 {
        forall i | 0 <= i < |raw|
          ensures raw[i] == 0
        {
          if i < |front| { assert front[i] == raw[i]; }
        }
      }
    }
  }

  lemma {:induction false} WeighedAppend(raw: bytes, last: byte)
    ensures Weighed(raw + [last]) == 256 * Weighed(raw) + last
  {
    var more := raw + [last];
    if raw == [] {
      assert more == [last] && Pow256(0) == 1;
    } else {
      assert more[1..] == raw[1..] + [last];
      WeighedAppend(raw[1..], last);
      Heavier(raw[0], Pow256(|raw| - 1));
      assert Pow256(|raw|) == 256 * Pow256(|raw| - 1);
    }
  }

  lemma {:induction false} Heavier(a: nat, p: nat)
    ensures a * (256 * p) == 256 * (a * p)
  {}

  lemma {:induction false} BigEndianWeighed(raw: bytes)
    ensures BigEndian(raw) == Weighed(raw) < Pow256(|raw|)
  {
    if raw != [] {
      var front, last := raw[..|raw| - 1], raw[|raw| - 1];
      BigEndianWeighed(front);
      WeighedAppend(front, last);
      assert raw == front + [last];
    }
  }

  lemma {:induction false} SignBit(raw: bytes)
    requires raw != []
    ensures raw[0] >= 128 <==> 2 * Weighed(raw) >= Pow256(|raw|)
  {
    var p := Pow256(|raw| - 1);
    BigEndianWeighed(raw[1..]);
    if raw[0] >= 128 {
      Products(128, raw[0], p);
    } else {
      Products(raw[0], 127, p);
    }
  }

  lemma {:induction false} Products(a: nat, b: nat, p: nat)
    requires a <= b
    ensures a * p <= b * p
  {}

  lemma {:induction false} SignedExactly(raw: bytes, n: int)
    ensures SignedBigEndian(raw) == n <==> TwosComplement(raw, n)
  {
    BigEndianWeighed(raw);
    if raw != [] {
      SignBit(raw);
    }
  }

  /** Decoding gives exactly what the value means; only a text that is not UTF-8 means nothing. */
  lemma {:induction false} DecodeExactly(d: Decoders, t: DataPointType, octet: byte, raw: bytes, value: Value)
    requires TypeFromByte(octet) == Some(t)
    ensures DecodeValue(d, t, raw) == Ok(value) <==> Means(d, t, octet, raw, value)
    ensures DecodeValue(d, t, raw).Err? <==> t == STRING && d.utf8(raw).None?
  {
    match t
    case BOOLEAN => BigEndianZero(raw);
    case VALUE => NumberExactly(raw, value);
    case ENUM => NumberExactly(raw, value);
    case _ =>
  }

  lemma {:induction false} NumberExactly(raw: bytes, value: Value)
    ensures value == Number(SignedBigEndian(raw)) <==> value.Number? && TwosComplement(raw, value.number)
  {
    if value.Number? {
      SignedExactly(raw, value.number);
    }
  }

  /** The point stands as it was read: one octet of identifier, one of type, one of length, and what it means. */
  ghost predicate Stands(d: Decoders, octets: bytes, timestamp: Moment, point: DataPoint) {
    && |octets| >= 3 && octets[2] == |octets| - 3
    && point.identifier == octets[0] && point.timestamp == timestamp
    && Means(d, point.dataType, octets[1], octets[3..], point.value)
  }

  lemma {:induction false} RecordStands(d: Decoders, r: Record, timestamp: Moment)
    requires r.WellFormed(d)
    ensures Stands(d, r.Print(), timestamp, ReadPoint(d, r, timestamp).value)
  {
    var octet := TypeByte(r.dataType);
    assert TypeFromByte(octet) == Some(r.dataType);
    DecodeExactly(d, r.dataType, octet, r.raw, DecodeValue(d, r.dataType, r.raw).value);
    assert r.Print()[3..] == r.raw;
  }

  /** A report that is read is a series of records and at most three octets left over, and its points stand in it one by
      one, in order. */
  lemma {:induction false} PointsStand(d: Decoders, data: bytes, start: nat, timestamp: Moment)
    returns (records: seq<bytes>, tail: bytes)
    requires start <= |data| && ParsePoints(d, data, start, timestamp).Ok?
    ensures var points := ParsePoints(d, data, start, timestamp).value;
            && |points| == |records| && |tail| <= 3 && data[start..] == Concat(records) + tail
            && forall i :: 0 <= i < |points| ==> Stands(d, records[i], timestamp, points[i])
    decreases |data| - start
  {
    if |data| - start <= RECORD_HEADER_LENGTH {
      records, tail := [], data[start..];
      assert [] + tail == tail;
    } else {
      var (r, end) := ReadRecord(data, start).value;
      ParseTail(d, data, start, timestamp);
      ReadSplits(data, start);
      RecordStands(d, r, timestamp);
      var rest;
      rest, tail := PointsStand(d, data, end, timestamp);
      records := [r.Print()] + rest;
      assert records[1..] == rest;
      AppendAssociates(r.Print(), Concat(rest), tail);
    }
  }

  // ----- timestamps -----

  /** Which reports begin with a timestamp, what it says, and where the records begin: after the octet 1 and four
      octets of seconds, or after the octet 0 and thirteen that spell milliseconds. */
  lemma {:induction false} TimestampExactly(d: Decoders, data: bytes, start: nat, moment: Moment, position: nat)
    ensures ParseTimestamp(d, data, start) == Ok((moment, position)) <==>
              || (start + 5 <= |data| && data[start] == 1 && position == start + 5
                  && moment == Seconds(FromOctets(data[start + 1], data[start + 2], data[start + 3], data[start + 4])))
              || (start + 14 <= |data| && data[start] == 0 && position == start + 14
                  && d.number(data[start + 1..start + 14]).Some?
                  && moment == Milliseconds(d.number(data[start + 1..start + 14]).value))
  {
    if start + 5 <= |data| {
      FourOctets(data[start + 1..start + 5]);
    }
  }

  lemma {:induction false} FourOctets(raw: bytes)
    requires |raw| == 4
    ensures BigEndian(raw) == FromOctets(raw[0], raw[1], raw[2], raw[3])
  {
    assert raw[..3][..2] == raw[..2] && raw[..2][..1] == raw[..1] && raw[..1][..0] == [];
    assert BigEndian(raw[..1]) == raw[0];
    assert BigEndian(raw[..2]) == 0x100 * (raw[0] as int) + raw[1];
  }

  function FromOctets(a: nat, b: nat, c: nat, d: nat): nat {
    0x100_0000 * a + 0x1_0000 * b + 0x100 * c + d
  }

  lemma {:induction false} ParseRaises(d: Decoders, data: bytes, start: nat, timestamp: Moment)
    ensures var r := ParsePoints(d, data, start, timestamp); r.Err? ==> r.error.IsTuyaBleError()
    decreases |data| - start
  {
    if |data| - start > RECORD_HEADER_LENGTH {
      var r := ReadRecord(data, start);
      if r.Ok? {
        ParseRaises(d, data, r.value.1, timestamp);
      }
    }
  }

  /** The two's complement octets of a number. */
  function DigitsOf(n: nat, width: nat): (raw: bytes)
    ensures |raw| == width
  {
    if width == 0 then [] else DigitsOf(n / 256, width - 1) + [n % 256]
  }

  function PrintSigned(n: int, width: nat): bytes
    requires 0 <= n + Pow256(width)
  {
    DigitsOf(if n < 0 then n + Pow256(width) else n, width)
  }

  lemma {:induction false} DigitsRoundTrip(n: nat, width: nat)
    requires n < Pow256(width)
    ensures BigEndian(DigitsOf(n, width)) == n
  {
    if width > 0 {
      var raw, high := DigitsOf(n, width), n / 256;
      assert Pow256(width) == 256 * Pow256(width - 1) && n == 256 * high + n % 256;
      DigitsRoundTrip(high, width - 1);
      assert raw[..width - 1] == DigitsOf(high, width - 1) && raw[width - 1] == n % 256;
    }
  }

  lemma {:induction false} LeadingDigit(n: nat, width: nat)
    requires width > 0 && n < Pow256(width)
    ensures DigitsOf(n, width)[0] >= 128 <==> 2 * n >= Pow256(width)
    decreases width
  {
    if width == 1 {
      assert Pow256(1) == 256 * Pow256(0);
    } else {
      LeadingDigit(n / 256, width - 1);
      assert Pow256(width) == 256 * Pow256(width - 1) && Pow256(width - 1) == 256 * Pow256(width - 2);
    }
  }

  /** VALUE and ENUM datapoints read back the number written in two's complement at any width, over its whole range. */
  lemma {:induction false} SignedRoundTrip(n: int, width: nat)
    requires width > 0 && 0 <= 2 * n + Pow256(width) && 2 * n < Pow256(width)
    ensures SignedBigEndian(PrintSigned(n, width)) == n
  {
    var m := if n < 0 then n + Pow256(width) else n;
    DigitsRoundTrip(m, width);
    LeadingDigit(m, width);
  }
}
