/** Command codes, the device-information record, the pairing request and its verdict. */
module Commands {
  import opened Bytes

  const PAIRING_REQUEST_LENGTH := 44
  const DEVICE_INFO_RESPONSE_LENGTH := 46

  datatype CommandCode =
    | SenderDeviceInfo | SenderPair | SenderDataPoints | SenderDeviceStatus | SenderUnbind | SenderDeviceReset
    | ReceiveDataPoint | ReceiveTimeDataPoint | ReceiveSignedDataPoint | ReceiveSignedTimeDataPoint
    | ReceiveUnixTimeRequest | ReceiveLocalTimeRequest
  {
    function Value(): nat {
      match this
      case SenderDeviceInfo => 0x0000
      case SenderPair => 0x0001
      case SenderDataPoints => 0x0002
      case SenderDeviceStatus => 0x0003
      case SenderUnbind => 0x0005
      case SenderDeviceReset => 0x0006
      case ReceiveDataPoint => 0x8001
      case ReceiveTimeDataPoint => 0x8003
      case ReceiveSignedDataPoint => 0x8004
      case ReceiveSignedTimeDataPoint => 0x8005
      case ReceiveUnixTimeRequest => 0x8011
      case ReceiveLocalTimeRequest => 0x8012
    }

    static function FromValue(value: nat): Option<CommandCode> {
      if value == 0x0000 then Some(SenderDeviceInfo)
      else if value == 0x0001 then Some(SenderPair)
      else if value == 0x0002 then Some(SenderDataPoints)
      else if value == 0x0003 then Some(SenderDeviceStatus)
      else if value == 0x0005 then Some(SenderUnbind)
      else if value == 0x0006 then Some(SenderDeviceReset)
      else if value == 0x8001 then Some(ReceiveDataPoint)
      else if value == 0x8003 then Some(ReceiveTimeDataPoint)
      else if value == 0x8004 then Some(ReceiveSignedDataPoint)
      else if value == 0x8005 then Some(ReceiveSignedTimeDataPoint)
      else if value == 0x8011 then Some(ReceiveUnixTimeRequest)
      else if value == 0x8012 then Some(ReceiveLocalTimeRequest)
      else None
    }
  }

  /** What the first reply of the handshake discloses; the display strings are kept as their numbers. */
  datatype DeviceInfo = DeviceInfo(
    deviceVersion: (byte, byte), protocolVersion: byte, protocolVersionName: (byte, byte),
    hardwareVersion: (byte, byte), flags: byte, isBound: bool, srand: bytes, authKey: bytes)

  function ParseDeviceInfo(data: bytes): Result<DeviceInfo> {
    if |data| < DEVICE_INFO_RESPONSE_LENGTH then Err(DeviceInfoTruncated)
    else Ok(DeviceInfo((data[0], data[1]), data[2], (data[2], data[3]), (data[12], data[13]),
                       data[4], data[5] != 0, data[6..12], data[14..DEVICE_INFO_RESPONSE_LENGTH]))
  }

  function PairingRequest(uuid: bytes, material: bytes, deviceId: bytes): Result<bytes> {
    var request := uuid + material + deviceId;
    if |request| > PAIRING_REQUEST_LENGTH then Err(CredentialsTooLong)
    else Ok(request + seq(PAIRING_REQUEST_LENGTH - |request|, _ => 0))
  }

  /** The three credentials one after another, in this order, and zeros after them. */
  predicate LaidOut(record: bytes, uuid: bytes, material: bytes, deviceId: bytes) {
    var a, b, c := |uuid|, |uuid| + |material|, |uuid| + |material| + |deviceId|;
    && |record| == 44 && c <= 44
    && record[..a] == uuid && record[a..b] == material && record[b..c] == deviceId
    && forall i :: c <= i < 44 ==> record[i] == 0
  }

  /** The record is laid out so whenever the credentials fit, and refused exactly when they do not. */
  lemma {:induction false} PairingExactly(uuid: bytes, material: bytes, deviceId: bytes)
    ensures match PairingRequest(uuid, material, deviceId)
            case Ok(record) => LaidOut(record, uuid, material, deviceId)
            case Err(e) => e == CredentialsTooLong && |uuid| + |material| + |deviceId| > 44
  {
    var all := uuid + material + deviceId;
    if |all| <= 44 {
      var record := all + seq(44 - |all|, _ => 0);
      assert record == uuid + (material + (deviceId + seq(44 - |all|, _ => 0)));
    }
  }

  /** The record a device answers with, read field by field; what follows it is passed over. */
  lemma {:induction false} InfoLaidOut(info: DeviceInfo, more: bytes)
    requires |info.srand| == 6 && |info.authKey| == 32 && info.protocolVersion == info.protocolVersionName.0
    ensures var (v, p, h) := (info.deviceVersion, info.protocolVersionName, info.hardwareVersion);
            forall bound: byte :: (bound != 0 <==> info.isBound) ==>
              ParseDeviceInfo([v.0, v.1, p.0, p.1, info.flags, bound] + info.srand + [h.0, h.1] + info.authKey + more)
              == Ok(info)
  {
    var (v, p, h) := (info.deviceVersion, info.protocolVersionName, info.hardwareVersion);
    forall bound: byte | bound != 0 <==> info.isBound
      ensures ParseDeviceInfo([v.0, v.1, p.0, p.1, info.flags, bound] + info.srand + [h.0, h.1] + info.authKey + more)
           == Ok(info)
    {
      var start := [v.0, v.1, p.0, p.1, info.flags, bound];
      var data := start + info.srand + [h.0, h.1] + info.authKey + more;
      assert data[6..12] == info.srand && data[14..46] == info.authKey;
    }
  }

  function VerifyPairingResult(data: bytes): Result<()> {
    if |data| != 1 then Err(PairingResultLength)
    else if data[0] != 0 && data[0] != 2 then Err(PairingRejected(data[0]))
    else Ok(())
  }
}
