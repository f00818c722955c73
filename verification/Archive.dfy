/**
 Block archive framing: each block is a four-byte little-endian length and its
 bytes.  A whole-buffer parser, an encoder, and a verifier fed with chunks cut
 anywhere, which must agree with the parser.
 */
module Archive {
  import opened Basics
  import opened Bytes

  const MAX_BLOCK_BYTES: nat := 4_000_000
  const MAX_BLOCKS_PER_ARCHIVE: nat := 100_000
  const MAX_RECORDS_BYTES: nat := 1024 * 1024 * 1024

  datatype ArchiveError = EmptyArchive | TooManyBlocks | BlockTooLarge | RecordsTooLarge | BlockLength | BlockCount

  // ----- Framing -----

  function Frame(block: seq<Byte>): (framed: seq<Byte>)
    ensures |framed| == 4 + |block|
  {
    LeBytes(|block|, 4) + block
  }

  function Frames(blocks: seq<seq<Byte>>): seq<Byte> {
    if blocks == [] then [] else Frame(blocks[0]) + Frames(blocks[1..])
  }

  /** The blocks of a record stream, if it is well framed. */
  function Parse(records: seq<Byte>): Option<seq<seq<Byte>>> {
    if records == [] then Some([])
    else if |records| < 4 then None
    else
      var len := LeValue(records[..4]);
      if len > MAX_BLOCK_BYTES || |records| < 4 + len then None
      else match Parse(records[4 + len..])
        case None => None
        case Some(rest) => Some([records[4..4 + len]] + rest)
  }

  /** What a record stream should contain: `n` well-framed blocks. */
  function Problem(records: seq<Byte>, n: nat): Option<ArchiveError> {
    match Parse(records)
    case None => Some(BlockLength)
    case Some(blocks) => if |blocks| == n then None else Some(BlockCount)
  }

  lemma ParseFrame(block: seq<Byte>, rest: seq<Byte>)
    requires |block| <= MAX_BLOCK_BYTES
    ensures Parse(Frame(block) + rest) ==
            match Parse(rest) case None => None case Some(blocks) => Some([block] + blocks)
  {
    var records := Frame(block) + rest;
    Widths();
    ValueOfBytes(|block|, 4);
    assert records[..4] == LeBytes(|block|, 4);
    assert records[4..4 + |block|] == block && records[4 + |block|..] == rest;
  }

  /** Decoding encoded blocks returns them. */
  lemma {:induction false} ParseFrames(blocks: seq<seq<Byte>>)
    requires forall i | 0 <= i < |blocks| :: |blocks[i]| <= MAX_BLOCK_BYTES
    ensures Parse(Frames(blocks)) == Some(blocks)
  {
    if blocks != [] {
      ParseFrames(blocks[1..]);
      ParseFrame(blocks[0], Frames(blocks[1..]));
      assert [blocks[0]] + blocks[1..] == blocks;
    }
  }

  lemma FrameOfPrefix(records: seq<Byte>, len: nat)
    requires |records| >= 4 + len && len == LeValue(records[..4])
    ensures Frame(records[4..4 + len]) + records[4 + len..] == records
  {
    BytesOfValue(records[..4]);
    hide LeBytes, LeValue;
  }

  lemma ParseStep(records: seq<Byte>) returns (len: nat)
    requires records != [] && Parse(records).Some?
    ensures |records| >= 4 + len && len == LeValue(records[..4]) <= MAX_BLOCK_BYTES
    ensures Parse(records[4 + len..]).Some?
    ensures Parse(records).value == [records[4..4 + len]] + Parse(records[4 + len..]).value
  {
    len := LeValue(records[..4]);
  }

  /** Framing is canonical: whatever parses is the encoding of what it parses to. */
  lemma {:induction false} FramesOfParse(records: seq<Byte>)
    requires Parse(records).Some?
    ensures Frames(Parse(records).value) == records
    ensures forall i | 0 <= i < |Parse(records).value| :: |Parse(records).value[i]| <= MAX_BLOCK_BYTES
    decreases |records|
  {
    if records != [] {
      hide Parse, Frame, LeValue;
      var len := ParseStep(records);
      FrameOfPrefix(records, len);
      FramesOfParse(records[4 + len..]);
      assert Parse(records).value[1..] == Parse(records[4 + len..]).value;
    }
  }

  // ----- Whole buffers -----

  /** The record loop of the archive reader. */
  method DecodeRecords(records: seq<Byte>, expected: nat) returns (r: Result<seq<seq<Byte>>, ArchiveError>)
    ensures match Problem(records, expected)
            case Some(e) => r == Err(e)
            case None => r == Ok(Parse(records).value)
  {
    var rest := records;
    var blocks: seq<seq<Byte>> := [];
    assert Parse(records).Some? ==> blocks + Parse(records).value == Parse(records).value;
    while rest != []
      invariant Parse(records) == match Parse(rest) case None => None case Some(more) => Some(blocks + more)
      decreases |rest|
    {
      if |rest| < 4 { return Err(BlockLength); }
      var len := LeValue(rest[..4]);
      if len > MAX_BLOCK_BYTES || |rest| < 4 + len { return Err(BlockLength); }
      ghost var more := Parse(rest[4 + len..]);
      assert more.Some? ==> blocks + ([rest[4..4 + len]] + more.value) == (blocks + [rest[4..4 + len]]) + more.value;
      blocks := blocks + [rest[4..4 + len]];
      rest := rest[4 + len..];
    }
    assert blocks + [] == blocks;
    if |blocks| != expected { return Err(BlockCount); }
    return Ok(blocks);
  }

  /** The bytes the first blocks take once framed. */
  function RecordsBytes(lengths: seq<nat>): nat {
    if lengths == [] then 0 else RecordsBytes(lengths[..|lengths| - 1]) + 4 + lengths[|lengths| - 1]
  }

  lemma {:induction false} RecordsBytesGrow(lengths: seq<nat>, i: nat, j: nat)
    requires i <= j <= |lengths|
    ensures RecordsBytes(lengths[..i]) + 4 * (j - i) <= RecordsBytes(lengths[..j])
    decreases j
  {
    if i < j {
      RecordsBytesGrow(lengths, i, j - 1);
      assert lengths[..j][..j - 1] == lengths[..j - 1];
    }
  }

  /** The first `i` blocks are within both limits. */
  predicate Fits(lengths: seq<nat>, i: nat)
    requires i <= |lengths|
  {
    RecordsBytes(lengths[..i]) <= MAX_RECORDS_BYTES && forall j | 0 <= j < i :: lengths[j] <= MAX_BLOCK_BYTES
  }

  /** A block over the block limit is met before the record limit is. */
  predicate Oversize(lengths: seq<nat>) {
    exists i :: 0 <= i < |lengths| && Fits(lengths, i) && lengths[i] > MAX_BLOCK_BYTES
  }

  /** The longest prefix that fits the record ceiling; an oversize block met on the way is an error. */
  method BoundedPrefix(lengths: seq<nat>) returns (r: Result<nat, ArchiveError>)
    ensures r.Ok? ==> r.value <= |lengths| && Fits(lengths, r.value)
                      && forall n | r.value < n <= |lengths| :: RecordsBytes(lengths[..n]) > MAX_RECORDS_BYTES
    ensures r.Err? <==> Oversize(lengths)
    ensures r.Err? ==> r.error == BlockTooLarge
    ensures r.Ok? && lengths != [] ==> r.value >= 1
  {
    var bytes: nat := 0;
    for i := 0 to |lengths|
      invariant bytes == RecordsBytes(lengths[..i]) && Fits(lengths, i)
    {
      assert lengths[..i + 1][..i] == lengths[..i];
      if lengths[i] > MAX_BLOCK_BYTES { return Err(BlockTooLarge); }
      if bytes + 4 + lengths[i] > MAX_RECORDS_BYTES {
        forall n | i < n <= |lengths| ensures RecordsBytes(lengths[..n]) > MAX_RECORDS_BYTES {
          RecordsBytesGrow(lengths, i + 1, n);
        }
        NoOversize(lengths, i);
        return Ok(i);
      }
      bytes := bytes + 4 + lengths[i];
    }
    return Ok(|lengths|);
  }

  lemma NoOversize(lengths: seq<nat>, n: nat)
    requires n < |lengths| && Fits(lengths, n) && lengths[n] <= MAX_BLOCK_BYTES
    requires forall m | n < m <= |lengths| :: RecordsBytes(lengths[..m]) > MAX_RECORDS_BYTES
    ensures !Oversize(lengths)
  {
  }

  function Lengths(blocks: seq<seq<Byte>>): (lengths: seq<nat>)
    ensures |lengths| == |blocks| && forall i | 0 <= i < |blocks| :: lengths[i] == |blocks[i]|
  {
    seq(|blocks|, i requires 0 <= i < |blocks| => |blocks[i]|)
  }

  lemma {:induction false} FramesLength(blocks: seq<seq<Byte>>, n: nat)
    requires n <= |blocks|
    ensures |Frames(blocks[n..])| + RecordsBytes(Lengths(blocks)[..n]) == |Frames(blocks)|
    decreases n
  {
    if n == 0 {
      assert blocks[0..] == blocks;
    } else {
      FramesLength(blocks, n - 1);
      assert blocks[n - 1..][1..] == blocks[n..];
      assert Lengths(blocks)[..n][..n - 1] == Lengths(blocks)[..n - 1];
    }
  }

  /** The limit an archive breaks, if any: its count first, then whichever size limit is met first. */
  function LimitError(blocks: seq<seq<Byte>>): (error: Option<ArchiveError>)
    ensures error == None ==> Fits(Lengths(blocks), |blocks|)
  {
    if blocks == [] then Some(EmptyArchive)
    else if |blocks| > MAX_BLOCKS_PER_ARCHIVE then Some(TooManyBlocks)
    else if Oversize(Lengths(blocks)) then Some(BlockTooLarge)
    else if !Fits(Lengths(blocks), |blocks|) then Some(RecordsTooLarge)
    else None
  }

  /** Blocks that fit hold none that is oversize; nor do those cut off by the record limit. */
  lemma NotOversize(lengths: seq<nat>, n: nat)
    requires n <= |lengths| && Fits(lengths, n)
    requires n < |lengths| ==> lengths[n] <= MAX_BLOCK_BYTES && RecordsBytes(lengths[..n + 1]) > MAX_RECORDS_BYTES
    ensures !Oversize(lengths) && (n < |lengths| ==> !Fits(lengths, |lengths|))
  {
    if n < |lengths| {
      forall m | n < m <= |lengths| ensures RecordsBytes(lengths[..m]) > MAX_RECORDS_BYTES {
        RecordsBytesGrow(lengths, n + 1, m);
      }
      NoOversize(lengths, n);
    }
  }

  /** Checks the limits of an archive. */
  method CheckLimits(blocks: seq<seq<Byte>>) returns (error: Option<ArchiveError>)
    ensures error == LimitError(blocks)
  {
    hide RecordsBytes, Oversize;
    if blocks == [] { return Some(EmptyArchive); }
    if |blocks| > MAX_BLOCKS_PER_ARCHIVE { return Some(TooManyBlocks); }
    ghost var lengths := Lengths(blocks);
    NoRecords(lengths[..0]);
    var bytes: nat := 0;
    for i := 0 to |blocks|
      invariant bytes == RecordsBytes(lengths[..i]) && Fits(lengths, i)
    {
      OneMoreRecord(lengths, i);
      assert lengths[i] == |blocks[i]|;
      if |blocks[i]| > MAX_BLOCK_BYTES {
        FoundOversize(lengths, i);
        return Some(BlockTooLarge);
      }
      bytes := bytes + 4 + |blocks[i]|;
      if bytes > MAX_RECORDS_BYTES {
        NotOversize(lengths, i);
        return Some(RecordsTooLarge);
      }
    }
    NotOversize(lengths, |blocks|);
    return None;
  }

  lemma FoundOversize(lengths: seq<nat>, i: nat)
    requires i < |lengths| && Fits(lengths, i) && lengths[i] > MAX_BLOCK_BYTES
    ensures Oversize(lengths)
  {
  }

  lemma NoRecords(lengths: seq<nat>)
    requires lengths == []
    ensures RecordsBytes(lengths) == 0
  {
  }

  lemma OneMoreRecord(lengths: seq<nat>, i: nat)
    requires i < |lengths|
    ensures RecordsBytes(lengths[..i + 1]) == RecordsBytes(lengths[..i]) + 4 + lengths[i]
  {
    assert lengths[..i + 1][..i] == lengths[..i];
  }

  method WriteRecords(blocks: seq<seq<Byte>>) returns (records: seq<Byte>)
    ensures records == Frames(blocks)
  {
    hide Frames, Frame;
    records := [];
    assert blocks[0..] == blocks;
    for i := 0 to |blocks|
      invariant records + Frames(blocks[i..]) == Frames(blocks)
    {
      var framed := Frame(blocks[i]);
      NextFrame(blocks, i);
      assert records + (framed + Frames(blocks[i + 1..])) == (records + framed) + Frames(blocks[i + 1..]);
      records := records + framed;
    }
    NoFrames(blocks[|blocks|..]);
  }

  lemma NextFrame(blocks: seq<seq<Byte>>, i: nat)
    requires i < |blocks|
    ensures Frames(blocks[i..]) == Frame(blocks[i]) + Frames(blocks[i + 1..])
  {
    assert blocks[i..][1..] == blocks[i + 1..];
  }

  /** The record stream of an archive within its limits parses back to its blocks. */
  method EncodeRecords(blocks: seq<seq<Byte>>) returns (r: Result<seq<Byte>, ArchiveError>)
    ensures match LimitError(blocks)
            case Some(e) => r == Err(e)
            case None => r.Ok? && Parse(r.value) == Some(blocks) && |r.value| <= MAX_RECORDS_BYTES
  {
    hide Frames, RecordsBytes, Parse, LimitError;
    var error := CheckLimits(blocks);
    if error.Some? { return Err(error.value); }
    var records := WriteRecords(blocks);
    assert |records| <= MAX_RECORDS_BYTES by {
      FramesLength(blocks, |blocks|);
      NoFrames(blocks[|blocks|..]);
    }
    forall i | 0 <= i < |blocks| ensures |blocks[i]| <= MAX_BLOCK_BYTES {
      assert Lengths(blocks)[i] <= MAX_BLOCK_BYTES;
    }
    ParseFrames(blocks);
    return Ok(records);
  }

  lemma NoFrames(blocks: seq<seq<Byte>>)
    requires blocks == []
    ensures Frames(blocks) == []
  {
  }
}
