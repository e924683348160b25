/** Octets, octet strings, and the errors that reading them can raise. */
module Bytes {

  type byte = b: int | 0 <= b < 256

  type bytes = seq<byte>

  datatype Option<+T> = None | Some(value: T)

  datatype Result<+T> = Ok(value: T) | Err(error: Error)

  /** One constructor per place where the program raises. `StructError`, `ForeignError` and `CallerCancelled`
      are the only ones that are not part of the SDK's own exception hierarchy. */
  datatype Error =
      // varint.py
    | EndsMidInteger
    | NeverTerminates
      // reassembler.py
    | OutOfOrder(index: nat, expected: nat)
    | FirstFragmentTruncated
    | TooManyBytes(received: nat, declared: nat)
      // frame.py
    | EmptyPayload
    | PayloadTooShort
    | NotWholeBlocks
    | DataTruncated
    | CrcMismatch
      // data_points.py
    | ReportTruncated
    | UnknownTimestampEncoding
    | BadMilliseconds
    | UnknownDataPointType
    | UndecodableString
      // device_info.py and pair.py
    | DeviceInfoTruncated
    | CredentialsTooLong
    | PairingResultLength
    | PairingRejected(verdict: byte)
      // client.py
    | ConnectFailed
    | SessionOutlasted
    | Unanswered
    | HandshakeUnanswered
    | LinkClosed
    | WriteFailed
    | HandshakeHasNotRun
      // outside the SDK
    | StructError
    | ForeignError
    | CallerCancelled
  {
    /** Whether the exception derives from TuyaBleError. */
    predicate IsTuyaBleError() {
      !StructError? && !ForeignError? && !CallerCancelled?
    }
  }

  function Concat(parts: seq<bytes>): bytes {
    if parts == [] then [] else parts[0] + Concat(parts[1..])
  }

  /** Big-endian fields, as `struct` packs and unpacks them. */
  function PackU16(n: nat): (b: bytes)
    requires n < 0x1_0000
    ensures |b| == 2
  {
    [n / 256, n % 256]
  }

  function PackU32(n: nat): (b: bytes)
    requires n < 0x1_0000_0000
    ensures |b| == 4
  {
    PackU16(n / 0x1_0000) + PackU16(n % 0x1_0000)
  }

  function UnpackU16(b: bytes): nat
    requires |b| == 2
  {
    256 * (b[0] as nat) + b[1]
  }

  function UnpackU32(b: bytes): nat
    requires |b| == 4
  {
    0x1_0000 * UnpackU16(b[..2]) + UnpackU16(b[2..])
  }

  lemma U16RoundTrip(n: nat)
    requires n < 0x1_0000
    ensures UnpackU16(PackU16(n)) == n
  {}

  lemma U32RoundTrip(n: nat)
    requires n < 0x1_0000_0000
    ensures UnpackU32(PackU32(n)) == n
  {
    var b := PackU32(n);
    assert b[..2] == PackU16(n / 0x1_0000) && b[2..] == PackU16(n % 0x1_0000);
  }

  /** The most significant octet comes first. */
  lemma {:induction false} U32Octets(n: nat)
    requires n < 0x1_0000_0000
    ensures PackU32(n) == [n / 0x100_0000, n / 0x1_0000 % 0x100, n / 0x100 % 0x100, n % 0x100]
  {
    var high, low := n / 0x1_0000, n % 0x1_0000;
    assert PackU32(n) == [high / 0x100, high % 0x100, low / 0x100, low % 0x100];
    assert high / 0x100 == n / 0x100_0000 && low % 0x100 == n % 0x100;
    assert low / 0x100 == n / 0x100 % 0x100;
  }

  lemma PackUnpackU16(b: bytes)
    requires |b| == 2
    ensures UnpackU16(b) < 0x1_0000 && PackU16(UnpackU16(b)) == b
  {}

  lemma PackUnpackU32(b: bytes)
    requires |b| == 4
    ensures UnpackU32(b) < 0x1_0000_0000 && PackU32(UnpackU32(b)) == b
  {
    PackUnpackU16(b[..2]);
    PackUnpackU16(b[2..]);
    assert b == b[..2] + b[2..];
  }
}
