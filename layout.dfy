/**
 * The binary layout of an mgid (mgid.h): twelve unsigned bytes, split into a
 * timestamp field, a process-unique field and a counter field.
 */
module Layout {

  /** An `unsigned char`. */
  type byte = x: int | 0 <= x < 256

  /** MGID_LEN: the identifier is exactly this many bytes. */
  const MgidLen: nat := 12

  /** MGID_TIMESTAMP_INDEX: the timestamp field is bytes [0, TimestampLen). */
  const TimestampLen: nat := 4

  /** MGID_PROCESS_UNIQUE: the process-unique field follows, this many bytes long. */
  const ProcessUniqueLen: nat := 5

  /** MGID_COUNTER: the width of the counter field, which ends the identifier. */
  const CounterLen: nat := 3

  /** pg_mgid_t: a fixed array of MgidLen bytes, held by value. */
  type Mgid = d: seq<byte> | |d| == MgidLen
    witness [0, 0, 0, 0, 0, 0, 0, 0, 0, 0, 0, 0]

  /** The three field widths add up to the identifier's length. */
  lemma FieldsPartition()
    ensures TimestampLen + ProcessUniqueLen + CounterLen == MgidLen
    ensures TimestampLen + ProcessUniqueLen < MgidLen
  {
  }

  /** Cutting an identifier at the two field boundaries and gluing the pieces gives it back. */
  lemma {:induction false} FieldsRecompose(d: Mgid)
    ensures d[..TimestampLen] + d[TimestampLen..TimestampLen + ProcessUniqueLen]
            + d[TimestampLen + ProcessUniqueLen..] == d
    ensures |d[TimestampLen + ProcessUniqueLen..]| == CounterLen
  {
    var t, p := TimestampLen, TimestampLen + ProcessUniqueLen;
    assert d[..t] + d[t..p] == d[..p];
    assert d[..p] + d[p..] == d;
  }
}
