/** Binary records of the optional indexes and their decoders. */
module IndexCodec {
  import opened Basics
  import opened Bytes

  type U32 = n: nat | n <= U32_MAX

  /** A 32-byte hash; the witness is the all-zero one. */
  type Hash32 = h: seq<Byte> | |h| == 32 witness seq(32, _ => 0)

  datatype TransactionLocation = TransactionLocation(height: U32, blockHash: Hash32, position: U32)

  datatype SpentLocation = SpentLocation(spendingTxid: Hash32, inputIndex: U32, height: U32, blockHash: Hash32)

  datatype FilterRecord = FilterRecord(filter: seq<Byte>, filterHash: Hash32, filterHeader: Hash32)

  /** Fixed-width 32-bit integers. */
  function Le32(n: U32): (bytes: seq<Byte>)
    ensures |bytes| == 4 && LeValue(bytes) == n
  {
    Widths();
    ValueOfBytes(n, 4);
    LeBytes(n, 4)
  }

  function Value32(bytes: seq<Byte>): (n: U32)
    requires |bytes| == 4
    ensures Le32(n) == bytes
  {
    Widths();
    BytesOfValue(bytes);
    LeValue(bytes)
  }

  lemma Le32RoundTrip(n: U32)
    ensures Value32(Le32(n)) == n
  {
  }

  /** Big-endian heights, so that keys sort by height. */
  function Be32(n: U32): (bytes: seq<Byte>)
    ensures |bytes| == 4
  {
    var le := Le32(n);
    [le[3], le[2], le[1], le[0]]
  }

  /** Most significant byte first. */
  lemma Be32IsBigEndian(n: U32)
    ensures var b: seq<int> := Be32(n);
            n == ((b[0] * 256 + b[1]) * 256 + b[2]) * 256 + b[3]
  {
    var le := Le32(n);
    assert LeValue(le) == le[0] + 256 * LeValue(le[1..]);
    assert LeValue(le[1..]) == le[1] + 256 * LeValue(le[1..][1..]) && le[1..][1..] == le[2..];
    assert LeValue(le[2..]) == le[2] + 256 * LeValue(le[2..][1..]) && le[2..][1..] == le[3..];
    assert LeValue(le[3..]) == le[3] + 256 * LeValue(le[3..][1..]) && le[3..][1..] == [];
  }

  lemma Be32Injective(a: U32, b: U32)
    requires Be32(a) == Be32(b)
    ensures a == b
  {
    hide Le32;
    var x, y := Le32(a), Le32(b);
    assert x == [Be32(a)[3], Be32(a)[2], Be32(a)[1], Be32(a)[0]];
    assert y == [Be32(b)[3], Be32(b)[2], Be32(b)[1], Be32(b)[0]];
  }

  function EncodeTransactionLocation(l: TransactionLocation): seq<Byte> {
    Le32(l.height) + l.blockHash + Le32(l.position)
  }

  function DecodeTransactionLocation(bytes: seq<Byte>): Option<TransactionLocation> {
    if |bytes| != 40 then None
    else Some(TransactionLocation(Value32(bytes[..4]), bytes[4..36], Value32(bytes[36..])))
  }

  /** Decoding accepts exactly the encodings. */
  lemma TransactionLocationRoundTrip(l: TransactionLocation, bytes: seq<Byte>)
    ensures DecodeTransactionLocation(EncodeTransactionLocation(l)) == Some(l)
    ensures DecodeTransactionLocation(bytes) == Some(l) <==> bytes == EncodeTransactionLocation(l)
  {
    hide Le32, Value32;
    var encoded := EncodeTransactionLocation(l);
    assert encoded[..4] == Le32(l.height) && encoded[4..36] == l.blockHash && encoded[36..] == Le32(l.position);
    Le32RoundTrip(l.height);
    Le32RoundTrip(l.position);
    if |bytes| == 40 { assert bytes == bytes[..4] + bytes[4..36] + bytes[36..]; }
  }

  function EncodeSpentLocation(l: SpentLocation): seq<Byte> {
    l.spendingTxid + Le32(l.inputIndex) + Le32(l.height) + l.blockHash
  }

  function DecodeSpentLocation(bytes: seq<Byte>): Option<SpentLocation> {
    if |bytes| != 72 then None
    else Some(SpentLocation(bytes[..32], Value32(bytes[32..36]), Value32(bytes[36..40]), bytes[40..]))
  }

  lemma SpentLocationRoundTrip(l: SpentLocation, bytes: seq<Byte>)
    ensures DecodeSpentLocation(EncodeSpentLocation(l)) == Some(l)
    ensures DecodeSpentLocation(bytes) == Some(l) <==> bytes == EncodeSpentLocation(l)
  {
    hide Le32, Value32;
    var encoded := EncodeSpentLocation(l);
    assert encoded[..32] == l.spendingTxid && encoded[32..36] == Le32(l.inputIndex);
    assert encoded[36..40] == Le32(l.height) && encoded[40..] == l.blockHash;
    Le32RoundTrip(l.inputIndex);
    Le32RoundTrip(l.height);
    if |bytes| == 72 { assert bytes == bytes[..32] + bytes[32..36] + bytes[36..40] + bytes[40..]; }
  }

  function EncodeFilterRecord(r: FilterRecord): seq<Byte>
    requires |r.filter| <= U32_MAX
  {
    Le32(|r.filter|) + r.filter + r.filterHash + r.filterHeader
  }

  function DecodeFilterRecord(bytes: seq<Byte>): Option<FilterRecord> {
    if |bytes| < 68 then None
    else
      var length := Value32(bytes[..4]);
      if |bytes| != 68 + length then None
      else Some(FilterRecord(bytes[4..4 + length], bytes[4 + length..36 + length], bytes[36 + length..]))
  }

  lemma FilterRecordRoundTrip(r: FilterRecord, bytes: seq<Byte>)
    requires |r.filter| <= U32_MAX
    ensures DecodeFilterRecord(EncodeFilterRecord(r)) == Some(r)
    ensures DecodeFilterRecord(bytes) == Some(r) <==> bytes == EncodeFilterRecord(r)
  {
    hide Le32, Value32;
    var n := |r.filter|;
    var encoded := EncodeFilterRecord(r);
    assert encoded[..4] == Le32(n) && encoded[4..4 + n] == r.filter;
    assert encoded[4 + n..36 + n] == r.filterHash && encoded[36 + n..] == r.filterHeader;
    Le32RoundTrip(n);
    if |bytes| == 68 + n { assert bytes == bytes[..4] + bytes[4..4 + n] + bytes[4 + n..36 + n] + bytes[36 + n..]; }
  }
}
