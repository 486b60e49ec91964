/** The failures a KTX parse can end in. */
module KTXErrors {
  import opened Bytes

  /** The two limits a parse can exceed; each names itself in the diagnostic. */
  datatype LimitName = KeyValueRegionSizeLimit | KeyValueDatumLimit {
    function Text(): string {
      match this
      case KeyValueRegionSizeLimit => "key/value region size limit"
      case KeyValueDatumLimit => "key/value datum limit"
    }
  }

  datatype Error =
    /** `execute` on a parser that already succeeded or was closed. */
    | InvalidState
    /** The first 12 bytes are neither KTX identifier. */
    | UnrecognizedFormat(identifier: seq<byte>)
    /** The KTX 2.0 identifier: recognised but not implemented. */
    | UnsupportedFormat
    /** The four bytes after the identifier are neither endianness marker. */
    | UnrecognizedEndianness(marker: seq<byte>)
    /** A read, skip, seek or alignment of `requested` bytes at absolute `offset` would cross a bound. */
    | OutOfBounds(offset: nat, requested: nat)
    /** A declared size at absolute `offset` exceeds a configured limit. */
    | LimitExceeded(offset: nat, size: nat, limit: LimitName)
    /** A record size of 2^31 or more narrowed to a negative Java `int` array length. */
    | NegativeArraySize(length: int)
    /** A key or value whose byte range has a negative length. */
    | StringIndexOutOfBounds(stringOffset: int, length: int)
}
