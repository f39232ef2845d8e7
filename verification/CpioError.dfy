/** Why reading or writing an archive fails. */
module CpioError {
  datatype Detail =
    | Magic | Field | Name | Padding | Check | Checksum | Trailer | Truncated | Entry | Format | NoDetail

  datatype Kind =
    | Corrupt | NotRecognized | LimitExceeded | InvalidInput | NameTooLong | FileTooLarge | Unsupported

  datatype Error = Error(detail: Detail, kind: Kind)

  function Corrupted(detail: Detail): Error {
    Error(detail, Corrupt)
  }
}
