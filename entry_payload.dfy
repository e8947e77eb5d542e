/**
 * The chain of external decoding steps that turns one member log entry into a
 * membership claim: "device D, acting for member M, was invited by device I".
 *
 * The steps themselves (operation parsing, payload opening with its signature
 * check, the structure check, the member/device conversion and the Ed25519 key
 * unmarshalling) live outside this model; a `Codec` carries them as total
 * functions, bound to one group.
 */
module EntryPayload {
  import opened MemberLog

  datatype MemberDevice = MemberDevice(member: PubKey, device: PubKey)

  /** The signed payload a member log entry carries. */
  datatype MemberEntryPayload = MemberEntryPayload(
    memberPubKey: Bytes,
    devicePubKey: Bytes,
    inviterDevicePubKey: Bytes,
    signature: Bytes)

  /** The gate of the decoding chain that rejected an entry. */
  datatype DecodeError =
    | OperationError      // the log entry does not hold a store operation
    | OpenPayloadError    // the payload does not open for this group (signature, format)
    | StructureError      // the payload's structure check fails
    | MemberDeviceError   // the member/device keys do not convert
    | InviterKeyError     // the inviter device key is not an Ed25519 key

  /** The external decoding steps, bound to one group. */
  datatype Codec = Codec(
    parseOperation: Bytes -> Option<Bytes>,
    openStorePayload: Bytes -> Option<MemberEntryPayload>,
    checkStructure: MemberEntryPayload -> bool,
    toMemberDevice: MemberEntryPayload -> Option<MemberDevice>,
    unmarshalKey: Bytes -> Option<PubKey>)

  /**
   * What decoding leaves in an index entry: the error of the first gate that
   * failed, and the fields the gates before it filled in.
   */
  datatype Decoded = Decoded(
    err: Option<DecodeError>,
    payload: Option<MemberEntryPayload>,
    memberDevice: Option<MemberDevice>,
    parentPubKey: Option<PubKey>)

  /** The payload the first two gates open, if they both pass. */
  function Opened(codec: Codec, e: LogEntry): (r: Option<MemberEntryPayload>)
  {
    match codec.parseOperation(e.value)
    case None => None
    case Some(bytes) => codec.openStorePayload(bytes)
  }

  /** Runs the gates in order; the first one that fails ends decoding. */
  function Decode(codec: Codec, e: LogEntry): (d: Decoded)
    // a claim (an inviter key) exists exactly when no gate failed
    ensures d.err.None? <==> d.parentPubKey.Some?
    // a claim is made of the outputs of the gates on one opened, well-structured payload
    ensures d.err.None? ==>
              && d.payload.Some? && d.payload == Opened(codec, e) && codec.checkStructure(d.payload.value)
              && d.memberDevice.Some? && d.memberDevice == codec.toMemberDevice(d.payload.value)
              && d.parentPubKey == codec.unmarshalKey(d.payload.value.inviterDevicePubKey)
    // each error names the first gate that failed
    ensures d.err == Some(OperationError) <==> codec.parseOperation(e.value).None?
    ensures d.err == Some(OpenPayloadError) <==>
              codec.parseOperation(e.value).Some? && Opened(codec, e).None?
    ensures d.err == Some(StructureError) <==>
              Opened(codec, e).Some? && !codec.checkStructure(Opened(codec, e).value)
    ensures d.err == Some(MemberDeviceError) <==>
              && Opened(codec, e).Some? && codec.checkStructure(Opened(codec, e).value)
              && codec.toMemberDevice(Opened(codec, e).value).None?
    ensures d.err == Some(InviterKeyError) <==>
              && Opened(codec, e).Some? && codec.checkStructure(Opened(codec, e).value)
              && codec.toMemberDevice(Opened(codec, e).value).Some?
              && codec.unmarshalKey(Opened(codec, e).value.inviterDevicePubKey).None?
    // the fields the passed gates filled in are kept, and the others stay empty
    ensures d.err == Some(InviterKeyError) ==>
              && d.payload.Some? && d.payload == Opened(codec, e)
              && d.memberDevice.Some? && d.memberDevice == codec.toMemberDevice(d.payload.value)
    ensures d.err == Some(MemberDeviceError) ==> d.payload == Opened(codec, e) && d.memberDevice.None?
    ensures d.err == Some(OperationError) || d.err == Some(OpenPayloadError) || d.err == Some(StructureError) ==>
              d.payload.None? && d.memberDevice.None?
    // the payload is kept only once it passed the structure check
    ensures d.payload.Some? ==> codec.checkStructure(d.payload.value)
  {
    match codec.parseOperation(e.value)
    case None => Decoded(Some(OperationError), None, None, None)
    case Some(bytes) =>
      match codec.openStorePayload(bytes)
      case None => Decoded(Some(OpenPayloadError), None, None, None)
      case Some(payload) =>
        if !codec.checkStructure(payload) then Decoded(Some(StructureError), None, None, None)
        else
          match codec.toMemberDevice(payload)
          case None => Decoded(Some(MemberDeviceError), Some(payload), None, None)
          case Some(md) =>
            match codec.unmarshalKey(payload.inviterDevicePubKey)
            case None => Decoded(Some(InviterKeyError), Some(payload), Some(md), None)
            case Some(inviter) => Decoded(None, Some(payload), Some(md), Some(inviter))
  }
}
