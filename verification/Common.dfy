/** Types shared by every component: bytes, optional values, results and the failures of a request. */
module Common {

  type Byte = b: int | 0 <= b < 256

  type Bytes = seq<Byte>

  datatype Option<+T> = None | Some(value: T)

  datatype Result<+T, +E> = Ok(value: T) | Err(error: E)

  /** How one SFTP request can fail: a reply that is not a success, the end of the session, or a
      packet that is not SFTP at all, which paramiko reports without losing the session. */
  datatype Problem = Status(code: nat) | Lost | Garbage

  const SFTP_OK := 0
  const SFTP_EOF := 1
  const SFTP_NO_SUCH_FILE := 2
  const SFTP_PERMISSION_DENIED := 3
  const SFTP_FAILURE := 4
  const SFTP_BAD_MESSAGE := 5
  const SFTP_NO_CONNECTION := 6
  const SFTP_CONNECTION_LOST := 7
  const SFTP_OP_UNSUPPORTED := 8

  /** The error codes of the service that the modelled code raises. */
  datatype ErrorCode =
    | FileNotFound
    | FileNotReadable
    | ConnectionRootUnavailable
    | DestinationExists
    | DestinationNotWritable
    | DestinationFull
    | DestinationWriteFailed
    | PublishUnsupported
    | SourceChanged
    | SourceReadFailed
    | SftpOperationFailed
    | SftpUnavailable
    | LocalIoError
    | TransferInternalError
    | TransferRecordFailed
    | TransferStateConflict
    | TransferInterrupted
    | MalformedFile
    | PreviewLimitExceeded

  function Min(a: int, b: int): int {
    if a <= b then a else b
  }

  function Max(a: int, b: int): int {
    if a <= b then b else a
  }

  /** The error a block of requests reports; a code without its own error is a failed operation. */
  function Translate(
    problem: Problem,
    missing: Option<ErrorCode>,
    denied: Option<ErrorCode>,
    unsupported: Option<ErrorCode>
  ): ErrorCode
  {
    match problem
    case Lost => SftpUnavailable
    case Garbage => SftpOperationFailed
    case Status(code) =>
      if code == SFTP_NO_SUCH_FILE && missing.Some? then missing.value
      else if code == SFTP_PERMISSION_DENIED && denied.Some? then denied.value
      else if code == SFTP_OP_UNSUPPORTED && unsupported.Some? then unsupported.value
      else if code in {SFTP_NO_CONNECTION, SFTP_CONNECTION_LOST} then SftpUnavailable
      else SftpOperationFailed
  }

  /** Every failure of a request has its own code: no file, no permission and an unsupported request have the
      codes of their block, if it has any; a session that is gone is unavailable; the rest are failed
      operations. */
  lemma FailuresHaveTheirCodes(
    missing: ErrorCode, denied: ErrorCode, unsupported: ErrorCode, problem: Problem)
    ensures var all := (p: Problem) => Translate(p, Some(missing), Some(denied), Some(unsupported));
            && all(Status(2)) == missing && all(Status(3)) == denied && all(Status(8)) == unsupported
            && all(Lost) == all(Status(6)) == all(Status(7)) == SftpUnavailable
            && (problem !in {Status(2), Status(3), Status(8), Status(6), Status(7), Lost} ==>
                  all(problem) == SftpOperationFailed)
    ensures var none := (p: Problem) => Translate(p, None, None, None);
            && none(Status(2)) == none(Status(3)) == none(Status(8)) == SftpOperationFailed
            && (problem !in {Status(2), Status(3), Status(8)} ==>
                  none(problem) == Translate(problem, Some(missing), Some(denied), Some(unsupported)))
  {
  }
}
