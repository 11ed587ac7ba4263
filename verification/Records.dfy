/** Record batches, reduced to the fields the broker and the client read. */
module Records {
  import opened Wrappers

  datatype RecordHeader = RecordHeader(key: Bytes, value: Option<Bytes>)

  datatype Record = Record(offsetDelta: int, timestampDelta: int, key: Option<Bytes>, value: Option<Bytes>, headers: seq<RecordHeader>)

  /** Parsed when uncompressed; otherwise the claimed count and the compressed bytes. */
  datatype BatchRecords =
    | Plain(records: seq<Record>)
    | Compressed(count: int, payload: Bytes)

  /** `transactional` and `control` are bits 4 and 5 of the batch attributes. */
  datatype RecordBatch = RecordBatch(
    baseOffset: int,
    lastOffsetDelta: int,
    baseTimestamp: int,
    producerId: int,
    producerEpoch: int,
    baseSequence: int,
    transactional: bool,
    control: bool,
    records: BatchRecords)
  {
    function LastOffset(): int {
      baseOffset + lastOffsetDelta
    }

    /** How many offsets the batch covers. */
    function Span(): int {
      lastOffsetDelta + 1
    }
  }
}
