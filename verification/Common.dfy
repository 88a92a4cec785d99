/** Types shared by the models of the RMW layer. */
module Common {

  datatype Option<+T> = None | Some(value: T)

  /** The two outcomes of a Rust `Result<(), _>` whose error value nobody inspects. */
  datatype Status = Ok | Err

  /** The RMW return codes that the modelled functions produce. */
  datatype Ret = RetOk | RetError | RetInvalidArgument | RetBadAlloc | RetAlreadyInit

  type byte = b: int | 0 <= b < 256

  /** A 16-byte entity identifier (`GidArray`). */
  type Gid = g: seq<byte> | |g| == 16 witness ZERO_GID

  const ZERO_GID: seq<byte> := [0, 0, 0, 0, 0, 0, 0, 0, 0, 0, 0, 0, 0, 0, 0, 0]

  /** Number of values of a 64-bit word. */
  const WORD: int := 0x1_0000_0000_0000_0000

  const I64_MAX: int := 0x7FFF_FFFF_FFFF_FFFF

  /** The `i64` that shares its 64-bit pattern with the integer `n`; what `as i64` and wrapping
      `i64` arithmetic produce. */
  function AsI64(n: int): int {
    var m := n % WORD;
    if m <= I64_MAX then m else m - WORD
  }

  /** Metadata that travels beside a payload (`ros_z::attachment::Attachment`). */
  datatype Attachment = Attachment(sequenceNumber: int, sourceTimestamp: int, sourceGid: Gid)

  /** What a receiver finds when it looks for an attachment. */
  datatype AttachmentField = Missing | Malformed | Parsed(attachment: Attachment)
}
