/**
 The incremental verifier of a record stream.  However the stream is cut into
 chunks, feeding it and finishing gives the verdict of parsing it whole.
 */
module ArchiveStream {
  import opened Basics
  import opened Bytes
  import opened Archive

  /** Length bytes seen, block bytes still to come, and complete blocks. */
  datatype State = State(prefix: seq<Byte>, remaining: nat, blocks: nat)

  const START := State([], 0, 0)

  predicate ValidState(s: State) {
    |s.prefix| < 4 && (s.remaining > 0 ==> s.prefix == []) && s.blocks <= U32_MAX
  }

  /** One more complete block, unless the 32-bit counter is full. */
  function Count(s: State): Result<State, ArchiveError> {
    if s.blocks == U32_MAX then Err(BlockCount) else Ok(s.(blocks := s.blocks + 1))
  }

  /** One byte of the stream. */
  function Step(s: State, b: Byte): (r: Result<State, ArchiveError>)
    requires ValidState(s)
    ensures r.Ok? ==> ValidState(r.value)
  {
    if s.remaining > 0 then
      var next := s.(remaining := s.remaining - 1);
      if next.remaining == 0 then Count(next) else Ok(next)
    else if |s.prefix| < 3 then Ok(s.(prefix := s.prefix + [b]))
    else
      var len := LeValue(s.prefix + [b]);
      if len > MAX_BLOCK_BYTES then Err(BlockLength)
      else
        var next := State([], len, s.blocks);
        if len == 0 then Count(next) else Ok(next)
  }

  function Scan(s: State, bytes: seq<Byte>): (r: Result<State, ArchiveError>)
    requires ValidState(s)
    ensures r.Ok? ==> ValidState(r.value)
    decreases |bytes|
  {
    if bytes == [] then Ok(s)
    else match Step(s, bytes[0])
      case Err(e) => Err(e)
      case Ok(next) => Scan(next, bytes[1..])
  }

  /** Cutting a stream in two does not matter. */
  lemma {:induction false} ScanConcat(s: State, a: seq<Byte>, b: seq<Byte>)
    requires ValidState(s)
    ensures Scan(s, a + b) == match Scan(s, a) case Err(e) => Err(e) case Ok(next) => Scan(next, b)
    decreases |a|
  {
    hide Step;
    if a == [] {
      assert a + b == b;
    } else {
      assert (a + b)[1..] == a[1..] + b;
      if Step(s, a[0]).Ok? { ScanConcat(Step(s, a[0]).value, a[1..], b); }
    }
  }

  /** Block bytes are skipped in one stride. */
  lemma {:induction false} ScanBlockBytes(s: State, bytes: seq<Byte>)
    requires ValidState(s) && 0 < |bytes| <= s.remaining
    ensures var next := s.(remaining := s.remaining - |bytes|);
            Scan(s, bytes) == if next.remaining == 0 then Count(next) else Ok(next)
    decreases |bytes|
  {
    if |bytes| == 1 {
      assert bytes[1..] == [];
    } else {
      ScanBlockBytes(s.(remaining := s.remaining - 1), bytes[1..]);
    }
  }

  /** What happens once `prefix` is complete or not. */
  function Filled(prefix: seq<Byte>, blocks: nat): Result<State, ArchiveError>
    requires |prefix| <= 4
  {
    if |prefix| < 4 then Ok(State(prefix, 0, blocks))
    else
      var len := LeValue(prefix);
      if len > MAX_BLOCK_BYTES then Err(BlockLength)
      else if len == 0 then Count(State([], 0, blocks)) else Ok(State([], len, blocks))
  }

  /** Length bytes are filled in one stride. */
  lemma {:induction false} ScanLengthBytes(s: State, bytes: seq<Byte>)
    requires ValidState(s) && s.remaining == 0 && |s.prefix| + |bytes| <= 4 && bytes != []
    ensures Scan(s, bytes) == Filled(s.prefix + bytes, s.blocks)
    decreases |bytes|
  {
    hide LeValue;
    if |bytes| == 1 {
      assert bytes[1..] == [] && s.prefix + [bytes[0]] == s.prefix + bytes;
    } else {
      var next := s.(prefix := s.prefix + [bytes[0]]);
      assert next.prefix + bytes[1..] == s.prefix + bytes;
      ScanLengthBytes(next, bytes[1..]);
    }
  }

  /** The verdict at the end of the stream. */
  function FinishError(s: State, expected: nat): Option<ArchiveError> {
    if s.prefix != [] || s.remaining != 0 then Some(BlockLength)
    else if s.blocks != expected then Some(BlockCount)
    else None
  }

  class RecordStreamVerifier {
    const length: array<Byte>
    var lengthBytes: nat
    var remaining: nat
    var blocks: nat

    constructor ()
      ensures Valid() && Value() == START && fresh(length)
    {
      length := new Byte[4](_ => 0);
      lengthBytes, remaining, blocks := 0, 0, 0;
    }

    ghost predicate Valid()
      reads this, length
    {
      length.Length == 4 && lengthBytes < 4 && ValidState(Value())
    }

    ghost function Value(): State
      reads this, length
    {
      State(if lengthBytes <= length.Length then length[..lengthBytes] else [], remaining, blocks)
    }

    /** Counts a complete block. */
    method CountBlock() returns (error: Option<ArchiveError>)
      requires Valid()
      modifies this`blocks
      ensures match Count(old(Value()))
              case Err(e) => error == Some(e)
              case Ok(next) => error == None && Valid() && Value() == next
    {
      if blocks == U32_MAX { return Some(BlockCount); }
      blocks := blocks + 1;
      return None;
    }

    /** Takes block bytes from the front of a chunk. */
    method TakeBlockBytes(records: seq<Byte>) returns (error: Option<ArchiveError>, consumed: nat)
      requires Valid() && remaining > 0 && records != []
      modifies this
      ensures 0 < consumed <= |records|
      ensures match Scan(old(Value()), records[..consumed])
              case Err(e) => error == Some(e)
              case Ok(next) => error == None && Valid() && Value() == next
    {
      consumed := Min(remaining, |records|);
      ScanBlockBytes(Value(), records[..consumed]);
      remaining := remaining - consumed;
      error := None;
      if remaining == 0 { error := CountBlock(); }
    }

    /** Takes length bytes from the front of a chunk. */
    method TakeLengthBytes(records: seq<Byte>) returns (error: Option<ArchiveError>, consumed: nat)
      requires Valid() && remaining == 0 && records != []
      modifies this, length
      ensures 0 < consumed <= |records|
      ensures match Scan(old(Value()), records[..consumed])
              case Err(e) => error == Some(e)
              case Ok(next) => error == None && Valid() && Value() == next
    {
      hide Scan, LeValue;
      consumed := Min(4 - lengthBytes, |records|);
      ScanLengthBytes(Value(), records[..consumed]);
      ghost var prefix := length[..lengthBytes];
      for i := 0 to consumed
        modifies length
        invariant length[..lengthBytes + i] == prefix + records[..i]
      {
        length[lengthBytes + i] := records[i];
        assert records[..i + 1] == records[..i] + [records[i]];
      }
      lengthBytes := lengthBytes + consumed;
      error := None;
      if lengthBytes == 4 {
        assert length[..4] == prefix + records[..consumed];
        var len := LeValue(length[..4]);
        if len > MAX_BLOCK_BYTES { return Some(BlockLength), consumed; }
        lengthBytes, remaining := 0, len;
        if len == 0 { error := CountBlock(); }
      }
    }

    /** Feeds one chunk. */
    method Feed(records: seq<Byte>) returns (error: Option<ArchiveError>)
      requires Valid()
      modifies this, length
      ensures match Scan(old(Value()), records)
              case Err(e) => error == Some(e)
              case Ok(next) => error == None && Valid() && Value() == next
    {
      hide Scan;
      var rest := records;
      while rest != []
        invariant Valid() && Scan(Value(), rest) == Scan(old(Value()), records)
        decreases |rest|
      {
        ghost var before := Value();
        var consumed;
        if remaining > 0 {
          error, consumed := TakeBlockBytes(rest);
        } else {
          error, consumed := TakeLengthBytes(rest);
        }
        assert rest == rest[..consumed] + rest[consumed..];
        ScanConcat(before, rest[..consumed], rest[consumed..]);
        if error.Some? { return error; }
        rest := rest[consumed..];
      }
      ScanNothing(Value());
      return None;
    }

    method Finish(expected: nat) returns (error: Option<ArchiveError>)
      requires Valid()
      ensures error == FinishError(Value(), expected)
    {
      if lengthBytes != 0 || remaining != 0 { return Some(BlockLength); }
      if blocks != expected { return Some(BlockCount); }
      return None;
    }
  }

  lemma ScanNothing(s: State)
    requires ValidState(s)
    ensures Scan(s, []) == Ok(s)
  {
  }

  // ----- Agreement with the parser -----

  /** What scanning and finishing reports. */
  function Verdict(s: State, bytes: seq<Byte>, expected: nat): Option<ArchiveError>
    requires ValidState(s)
  {
    match Scan(s, bytes)
    case Err(e) => Some(e)
    case Ok(end) => FinishError(end, expected)
  }

  /** What parsing reports, with `done` blocks already counted. */
  function Remaining(done: nat, bytes: seq<Byte>, expected: nat): Option<ArchiveError> {
    match Parse(bytes)
    case None => Some(BlockLength)
    case Some(blocks) => if done + |blocks| == expected then None else Some(BlockCount)
  }

  /** A stream that ends inside a record. */
  lemma CutRecord(done: nat, bytes: seq<Byte>, expected: nat)
    requires done <= U32_MAX && bytes != []
    requires |bytes| < 4 || LeValue(bytes[..4]) > MAX_BLOCK_BYTES || |bytes| < 4 + LeValue(bytes[..4])
    ensures Verdict(State([], 0, done), bytes, expected) == Some(BlockLength)
  {
    var s := State([], 0, done);
    var head := Min(4, |bytes|);
    assert [] + bytes[..head] == bytes[..head];
    ScanLengthBytes(s, bytes[..head]);
    assert bytes == bytes[..head] + bytes[head..];
    ScanConcat(s, bytes[..head], bytes[head..]);
    if |bytes| > 4 && LeValue(bytes[..4]) <= MAX_BLOCK_BYTES {
      ScanBlockBytes(State([], LeValue(bytes[..4]), done), bytes[4..]);
    }
  }

  /** A complete length moves the scan to the block it announces. */
  lemma WholeLength(done: nat, bytes: seq<Byte>)
    requires done < U32_MAX && |bytes| >= 4 && LeValue(bytes[..4]) <= MAX_BLOCK_BYTES
    ensures var len := LeValue(bytes[..4]);
            Scan(State([], 0, done), bytes) == Scan(State([], len, if len == 0 then done + 1 else done), bytes[4..])
  {
    hide Scan, LeValue;
    var s := State([], 0, done);
    assert [] + bytes[..4] == bytes[..4];
    ScanLengthBytes(s, bytes[..4]);
    assert bytes == bytes[..4] + bytes[4..];
    ScanConcat(s, bytes[..4], bytes[4..]);
  }

  /** A complete record moves the scan to the next one. */
  lemma WholeRecord(done: nat, bytes: seq<Byte>)
    requires done < U32_MAX && |bytes| >= 4 && LeValue(bytes[..4]) <= MAX_BLOCK_BYTES
             && |bytes| >= 4 + LeValue(bytes[..4])
    ensures Scan(State([], 0, done), bytes) == Scan(State([], 0, done + 1), bytes[4 + LeValue(bytes[..4])..])
  {
    hide Scan, LeValue;
    var len := LeValue(bytes[..4]);
    WholeLength(done, bytes);
    if len > 0 {
      var body, rest := bytes[4..4 + len], bytes[4 + len..];
      ScanBlockBytes(State([], len, done), body);
      assert bytes[4..] == body + rest;
      ScanConcat(State([], len, done), body, rest);
    }
  }

  /** From a record boundary on, scanning and parsing report the same. */
  lemma {:induction false} ScanAgrees(done: nat, bytes: seq<Byte>, expected: nat)
    requires 4 * done + |bytes| <= 4 * U32_MAX
    ensures Verdict(State([], 0, done), bytes, expected) == Remaining(done, bytes, expected)
    decreases |bytes|
  {
    hide Scan, LeValue;
    if bytes == [] {
      ScanNothing(State([], 0, done));
    } else if |bytes| < 4 || LeValue(bytes[..4]) > MAX_BLOCK_BYTES || |bytes| < 4 + LeValue(bytes[..4]) {
      CutRecord(done, bytes, expected);
    } else {
      WholeRecord(done, bytes);
      ScanAgrees(done + 1, bytes[4 + LeValue(bytes[..4])..], expected);
    }
  }

  function Concat(chunks: seq<seq<Byte>>): seq<Byte> {
    if chunks == [] then [] else Concat(chunks[..|chunks| - 1]) + chunks[|chunks| - 1]
  }

  /** Chunk `k` takes the stream over the limit. */
  ghost predicate Crosses(chunks: seq<seq<Byte>>, limit: nat, k: nat) {
    k < |chunks| && |Concat(chunks[..k])| <= limit < |Concat(chunks[..k + 1])|
  }

  /** What is reported when chunk `k` is one too many: an error in the chunks before it, or the limit. */
  function CutVerdict(chunks: seq<seq<Byte>>, k: nat): Option<ArchiveError>
    requires k <= |chunks|
  {
    match Scan(START, Concat(chunks[..k]))
    case Err(e) => Some(e)
    case Ok(_) => Some(RecordsTooLarge)
  }

  lemma {:induction false} FindCrossing(chunks: seq<seq<Byte>>, limit: nat, n: nat) returns (k: nat)
    requires n <= |chunks| && |Concat(chunks[..n])| <= limit < |Concat(chunks)|
    ensures n <= k && Crosses(chunks, limit, k)
    decreases |chunks| - n
  {
    assert chunks[..|chunks|] == chunks;
    if |Concat(chunks[..n + 1])| > limit { k := n; } else { k := FindCrossing(chunks, limit, n + 1); }
  }

  /** An error among the first `n` chunks is an error of any more of them. */
  lemma ErrorPersists(chunks: seq<seq<Byte>>, n: nat, k: nat)
    requires n <= k <= |chunks| && Scan(START, Concat(chunks[..n])).Err?
    ensures Scan(START, Concat(chunks[..k])) == Scan(START, Concat(chunks[..n]))
  {
    hide Scan;
    var rest := SplitAt(chunks[..k], n);
    assert chunks[..k][..n] == chunks[..n];
    ScanConcat(START, Concat(chunks[..n]), rest);
  }

  /**
   Verifies a stream read in chunks.  Within the record limit the verdict is
   the whole-buffer parser's, error for error, wherever the chunks are cut.
   */
  method VerifyStream(chunks: seq<seq<Byte>>, limit: nat, expected: nat) returns (error: Option<ArchiveError>)
    requires limit <= MAX_RECORDS_BYTES
    ensures |Concat(chunks)| <= limit ==> error == Problem(Concat(chunks), expected)
    ensures |Concat(chunks)| > limit ==> exists k :: Crosses(chunks, limit, k) && error == CutVerdict(chunks, k)
  {
    hide Scan, Parse;
    var verifier := new RecordStreamVerifier();
    var bytes: nat := 0;
    ScanNothing(START);
    for i := 0 to |chunks|
      invariant fresh(verifier) && fresh(verifier.length)
      invariant verifier.Valid() && bytes == |Concat(chunks[..i])| <= limit
      invariant Scan(START, Concat(chunks[..i])) == Ok(verifier.Value())
    {
      OneMoreChunk(chunks, i);
      ghost var rest := SplitAt(chunks, i + 1);
      bytes := bytes + |chunks[i]|;
      if bytes > limit {
        assert Crosses(chunks, limit, i);
        return Some(RecordsTooLarge);
      }
      ScanConcat(START, Concat(chunks[..i]), chunks[i]);
      error := verifier.Feed(chunks[i]);
      if error.Some? {
        ScanConcat(START, Concat(chunks[..i + 1]), rest);
        if |Concat(chunks)| <= limit {
          ScanAgrees(0, Concat(chunks), expected);
        } else {
          ghost var k := FindCrossing(chunks, limit, i + 1);
          ErrorPersists(chunks, i + 1, k);
        }
        return error;
      }
    }
    error := verifier.Finish(expected);
    assert chunks[..|chunks|] == chunks;
    ScanAgrees(0, Concat(chunks), expected);
  }

  lemma OneMoreChunk(chunks: seq<seq<Byte>>, i: nat)
    requires i < |chunks|
    ensures Concat(chunks[..i + 1]) == Concat(chunks[..i]) + chunks[i]
  {
    assert chunks[..i + 1][..i] == chunks[..i];
  }

  lemma {:induction false} SplitAt(chunks: seq<seq<Byte>>, n: nat) returns (rest: seq<Byte>)
    requires n <= |chunks|
    ensures Concat(chunks) == Concat(chunks[..n]) + rest
    decreases |chunks| - n
  {
    if n == |chunks| {
      assert chunks[..n] == chunks;
      rest := [];
    } else {
      OneMoreChunk(chunks, n);
      var later := SplitAt(chunks, n + 1);
      rest := chunks[n] + later;
      assert (Concat(chunks[..n]) + chunks[n]) + later == Concat(chunks[..n]) + rest;
    }
  }
}
