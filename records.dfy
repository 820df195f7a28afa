/**
 * What the store keeps per key and writes to its file.
 *
 * A record on disk is a TAB byte, the encoded row, and an LF byte. The row is
 * `[sequence, key, value]`; the encoding itself (the runtime's JSON codec) is
 * not modelled and enters only as a pair of functions, `Codec`.
 */
module Records {

  newtype byte = x: int | 0 <= x < 256

  /** Start marker of a record. */
  const TAB: byte := 9
  /** End marker of a record. */
  const LF: byte := 10

  /** A stored value: any non-null JSON value, kept abstract. */
  type Value(==, !new)

  datatype Option<T> = None | Some(value: T)

  /**
   * One row `[sequence, key, value]`. `value == None` stands for JavaScript's
   * `undefined` (a deletion), which the encoder writes as JSON `null`.
   */
  datatype Row = Row(sequence: int, key: string, value: Option<Value>)

  /** An index entry: where the row lives (`pointer`) and its size class. */
  datatype Entry = Entry(pointer: int, block: nat, row: Row)

  /** A slot of the file: its offset and its size class. */
  datatype Slot = Slot(offset: int, cls: nat)

  predicate NoDelimiters(s: seq<byte>)
  {
    forall i :: 0 <= i < |s| ==> s[i] != TAB && s[i] != LF
  }

  /**
   * The row codec. `decode` is applied to the bytes from the TAB up to (not
   * including) the LF, and answers `None` where the source's parse fails.
   */
  datatype Codec = Codec(encode: Row -> seq<byte>, decode: seq<byte> -> Option<Row>)
  {
    /**
     * What the store relies on from its codec for a row: the encoded row holds
     * no record delimiter (JSON escapes control characters), and the record's
     * bytes up to the LF decode to the row (a leading TAB is JSON whitespace).
     */
    predicate RoundTrips(r: Row)
    {
      NoDelimiters(encode(r)) && decode([TAB] + encode(r)) == Some(r)
    }
  }

  /** The bytes `put` writes for a row: a TAB, the encoded row, an LF. */
  function RecordBytes(codec: Codec, row: Row): (b: seq<byte>)
    ensures |b| == |codec.encode(row)| + 2
    ensures b[0] == TAB && b[|b| - 1] == LF
  {
    [TAB] + codec.encode(row) + [LF]
  }
}
