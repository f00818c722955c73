/**
 Bitcoin Core's VARINT and CompactSize integers: readers that advance over a
 byte stream, their writers, and exactly when they undo each other.
 */
module CoreCodec {
  import opened Basics
  import opened Arith
  import opened Bytes

  const MAX_COMPACT_SIZE: nat := 0x0200_0000

  datatype CodecError = EndOfStream | VarintOverflow | NonCanonical | CompactSizeTooLarge | InvalidKey | ScriptTooLarge

  /** A value read from the front of a stream and the bytes it took. */
  datatype Read<+T> = Read(value: T, consumed: nat)

  /** A stream with a position. */
  class ByteReader {
    const bytes: seq<Byte>
    var position: nat

    constructor (bytes: seq<Byte>)
      ensures this.bytes == bytes && position == 0
    {
      this.bytes := bytes;
      position := 0;
    }

    ghost predicate Valid()
      reads this
    {
      position <= |bytes|
    }

    /** What is still to be read. */
    ghost function Rest(): seq<Byte>
      requires Valid()
      reads this
    {
      bytes[position..]
    }

    method ReadByte() returns (b: Option<Byte>)
      requires Valid()
      modifies this
      ensures Valid()
      ensures if old(Rest()) == [] then b == None else b == Some(old(Rest())[0]) && Rest() == old(Rest())[1..]
    {
      if position == |bytes| { return None; }
      position := position + 1;
      return Some(bytes[position - 1]);
    }

    method ReadExact(n: nat) returns (r: Option<seq<Byte>>)
      requires Valid()
      modifies this
      ensures Valid()
      ensures if |old(Rest())| < n then r == None else r == Some(old(Rest())[..n]) && Rest() == old(Rest())[n..]
    {
      if |bytes| - position < n { return None; }
      position := position + n;
      assert bytes[position - n..position] == old(Rest())[..n];
      return Some(bytes[position - n..position]);
    }
  }

  /** What reading leaves behind when it succeeds. */
  ghost predicate Leaves<T, E>(r: Result<T, E>, rest: seq<Byte>, before: seq<Byte>, spec: Result<Read<T>, E>) {
    match spec
    case Err(e) => r == Err(e)
    case Ok(read) => r == Ok(read.value) && read.consumed <= |before| && rest == before[read.consumed..]
  }

  // ----- VARINT -----

  /** Bytes that announce another one. */
  predicate Continues(bytes: seq<Byte>) {
    forall i | 0 <= i < |bytes| :: bytes[i] >= 0x80
  }

  /** The unbounded value a run of continuation bytes carries into the next one. */
  function Carry(bytes: seq<Byte>): nat {
    if bytes == [] then 0 else Carry(bytes[..|bytes| - 1]) * 128 + bytes[|bytes| - 1] % 128 + 1
  }

  /** A terminated VARINT: continuation bytes and a last one. */
  predicate Terminated(bytes: seq<Byte>) {
    bytes != [] && Continues(bytes[..|bytes| - 1]) && bytes[|bytes| - 1] < 0x80
  }

  function Unbounded(bytes: seq<Byte>): nat
    requires Terminated(bytes)
  {
    Carry(bytes[..|bytes| - 1]) * 128 + bytes[|bytes| - 1]
  }

  function Head(n: nat): seq<Byte> {
    if n <= 0x7f then [n + 0x80] else Head(n / 128 - 1) + [n % 128 + 0x80]
  }

  /** The encoding of a value, however large. */
  function Varint(n: nat): seq<Byte> {
    if n <= 0x7f then [n] else Head(n / 128 - 1) + [n % 128]
  }

  lemma {:induction false} HeadCarries(n: nat)
    ensures Continues(Head(n)) && Carry(Head(n)) == n + 1
  {
    if n <= 0x7f {
      assert Head(n)[..0] == [];
    } else {
      var m, low := n / 128 - 1, n % 128;
      HeadCarries(m);
      assert Head(n)[..|Head(n)| - 1] == Head(m) && Head(n)[|Head(n)| - 1] == low + 0x80;
      assert (low + 0x80) % 128 == low && (m + 1) * 128 + low == n;
    }
  }

  /** Encodings across the first two changes of length. */
  lemma VarintVectors()
    ensures Varint(0) == [0x00] && Varint(127) == [0x7f]
    ensures Varint(128) == [0x80, 0x00] && Varint(255) == [0x80, 0x7f] && Varint(256) == [0x81, 0x00]
    ensures Varint(16511) == [0xff, 0x7f] && Varint(16512) == [0x80, 0x80, 0x00]
  {
    assert Head(0) == [0x80] && Head(1) == [0x81] && Head(127) == [0xff];
    assert Head(128) == Head(0) + [0x80];
  }

  /** Encodings are terminated and carry their value. */
  lemma VarintIsTerminated(n: nat)
    ensures Terminated(Varint(n)) && Unbounded(Varint(n)) == n
  {
    if n <= 0x7f {
      assert Varint(n)[..0] == [];
    } else {
      HeadCarries(n / 128 - 1);
      assert Varint(n)[..|Varint(n)| - 1] == Head(n / 128 - 1);
    }
  }

  lemma {:induction false} HeadOfCarry(bytes: seq<Byte>)
    requires Continues(bytes) && bytes != []
    ensures Carry(bytes) >= 1 && Head(Carry(bytes) - 1) == bytes
  {
    hide Head;
    var n := |bytes| - 1;
    var init, low := bytes[..n], bytes[n] % 128;
    assert bytes[n] == low + 0x80;
    assert bytes == init + [bytes[n]];
    if init != [] { HeadOfCarry(init); }
    HeadStep(Carry(init), low);
  }

  lemma HeadStep(carry: nat, low: nat)
    requires low < 128
    ensures Head(carry * 128 + low) == (if carry == 0 then [] else Head(carry - 1)) + [low + 0x80]
  {
    if carry > 0 { DivModUnique(carry * 128 + low, 128, carry, low); }
  }

  /** Every terminated string is the encoding of its unbounded value, and of no other. */
  lemma TerminatedIsVarint(bytes: seq<Byte>)
    requires Terminated(bytes)
    ensures Varint(Unbounded(bytes)) == bytes
  {
    var n := |bytes| - 1;
    var init := bytes[..n];
    assert bytes == init + [bytes[n]];
    if init != [] {
      HeadOfCarry(init);
      var m := Carry(init) * 128 + bytes[n];
      assert m / 128 == Carry(init) && m % 128 == bytes[n];
    }
  }

  /** Reading as the source does: shifting drops high bits, only the final increment is checked. */
  function Wrapped(bytes: seq<Byte>): Option<nat> {
    if bytes == [] then Some(0)
    else match Wrapped(bytes[..|bytes| - 1])
      case None => None
      case Some(value) =>
        var next := Shifted(value, bytes[|bytes| - 1]);
        if next == U64_MAX then None else Some(next + 1)
  }

  /** A 64-bit left shift by seven, and the low bits of a byte. */
  function Shifted(value: nat, b: Byte): nat {
    value * 128 % (U64_MAX + 1) + b % 128
  }

  /** The first `n` bytes announce more; the value so far is `value`. */
  function ReadVarintFrom(bytes: seq<Byte>, n: nat): (r: Result<Read<nat>, CodecError>)
    requires n <= |bytes|
    ensures r.Ok? ==> n < r.value.consumed <= |bytes|
    decreases |bytes| - n
  {
    match Wrapped(bytes[..n])
    case None => Err(VarintOverflow)
    case Some(value) =>
      if n == |bytes| then Err(EndOfStream)
      else if bytes[n] < 0x80 then Ok(Read(Shifted(value, bytes[n]), n + 1))
      else ReadVarintFrom(bytes, n + 1)
  }

  function ReadVarint(bytes: seq<Byte>): (r: Result<Read<nat>, CodecError>)
    ensures r.Ok? ==> 0 < r.value.consumed <= |bytes|
  {
    ReadVarintFrom(bytes, 0)
  }

  method ReadCoreVarint(reader: ByteReader) returns (r: Result<nat, CodecError>)
    requires reader.Valid()
    modifies reader
    ensures reader.Valid() && Leaves(r, reader.Rest(), old(reader.Rest()), ReadVarint(old(reader.Rest())))
  {
    hide Wrapped, Shifted;
    ghost var bytes := reader.Rest();
    ghost var n: nat := 0;
    var value: nat := 0;
    NothingWrapped(bytes[..0]);
    while true
      invariant n <= |bytes| && reader.Valid() && reader.Rest() == bytes[n..]
      invariant Wrapped(bytes[..n]) == Some(value) && ReadVarint(bytes) == ReadVarintFrom(bytes, n)
      decreases |bytes| - n
    {
      var b := reader.ReadByte();
      if b.None? { return Err(EndOfStream); }
      value := Shifted(value, b.value);
      OneMoreWrapped(bytes, n);
      assert bytes[n..][1..] == bytes[n + 1..];
      if b.value < 0x80 { return Ok(value); }
      n := n + 1;
      if value == U64_MAX { return Err(VarintOverflow); }
      value := value + 1;
    }
  }

  lemma NothingWrapped(bytes: seq<Byte>)
    requires bytes == []
    ensures Wrapped(bytes) == Some(0)
  {
  }

  lemma OneMoreWrapped(bytes: seq<Byte>, n: nat)
    requires n < |bytes| && Wrapped(bytes[..n]).Some?
    ensures var next := Shifted(Wrapped(bytes[..n]).value, bytes[n]);
            Wrapped(bytes[..n + 1]) == if next == U64_MAX then None else Some(next + 1)
  {
    assert bytes[..n + 1][..n] == bytes[..n];
  }

  /** The writer collects bytes last first and reverses them. */
  method WriteCoreVarint(value: nat) returns (out: seq<Byte>)
    requires value <= U64_MAX
    ensures out == Varint(value)
  {
    var rest := value;
    out := [rest % 128];
    while rest > 0x7f
      invariant rest <= 0x7f ==> Varint(value) == if rest == value then [rest] else out
      invariant rest > 0x7f ==> Varint(value) == Head(rest / 128 - 1) + out
      invariant rest <= value && (rest == value ==> out == [rest % 128])
      decreases rest
    {
      rest := rest / 128 - 1;
      assert rest > 0x7f ==>
               (Head(rest / 128 - 1) + [rest % 128 + 0x80]) + out == Head(rest / 128 - 1) + ([rest % 128 + 0x80] + out);
      out := [rest % 128 + 0x80] + out;
    }
  }

  // ----- When reading undoes writing -----

  lemma {:induction false} WrappedIsCarry(bytes: seq<Byte>)
    ensures Wrapped(bytes).Some? ==> Wrapped(bytes).value == Reduced(Carry(bytes))
    ensures Carry(bytes) <= U64_MAX ==> Wrapped(bytes) == Some(Carry(bytes))
  {
    hide Shifted, Reduced;
    if bytes == [] {
      ReducedSmall(0);
    } else {
      var n := |bytes| - 1;
      var carry := Carry(bytes[..n]) * 128 + bytes[n] % 128;
      WrappedIsCarry(bytes[..n]);
      ShiftWraps(Carry(bytes[..n]), bytes[n]);
      ReducedNext(carry);
      if Carry(bytes) <= U64_MAX {
        ReducedSmall(carry);
        ReducedSmall(Carry(bytes[..n]));
      }
    }
  }

  /** What is left of a value in 64 bits. */
  function Reduced(n: int): (r: nat)
    ensures r <= U64_MAX
  {
    n % (U64_MAX + 1)
  }

  lemma ReducedSmall(n: nat)
    requires n <= U64_MAX
    ensures Reduced(n) == n
  {
  }

  lemma ReducedNext(n: nat)
    ensures Reduced(n) != U64_MAX ==> Reduced(n + 1) == Reduced(n) + 1
  {
    var m := U64_MAX + 1;
    assert n == m * (n / m) + n % m;
    if n % m != U64_MAX { DivModUnique(n + 1, m, n / m, n % m + 1); }
  }

  /** Shifting a reduced value is shifting the value, reduced. */
  lemma ShiftWraps(carry: nat, b: Byte)
    ensures Shifted(Reduced(carry), b) == Reduced(carry * 128 + b % 128)
  {
    var m := U64_MAX + 1;
    var q, r := carry / m, carry % m;
    var s, t := r * 128 / m, r * 128 % m;
    assert t == 128 * (r - s * (m / 128));
    assert t + b % 128 < m;
    DivModUnique(carry * 128 + b % 128, m, q * 128 + s, t + b % 128);
  }

  lemma {:induction false} CarryGrows(bytes: seq<Byte>, n: nat)
    requires n <= |bytes|
    ensures Carry(bytes[..n]) <= Carry(bytes)
    decreases |bytes|
  {
    if n < |bytes| {
      CarryGrows(bytes[..|bytes| - 1], n);
      assert bytes[..|bytes| - 1][..n] == bytes[..n];
    } else {
      assert bytes[..n] == bytes;
    }
  }

  /** Reading goes through the continuation bytes one by one. */
  lemma {:induction false} ReadThrough(bytes: seq<Byte>, n: nat, end: nat)
    requires n <= end < |bytes| && Continues(bytes[..end]) && bytes[end] < 0x80
    requires Carry(bytes[..end]) <= U64_MAX
    ensures ReadVarintFrom(bytes, n) == Ok(Read(Shifted(Carry(bytes[..end]), bytes[end]), end + 1))
    decreases end - n
  {
    hide Shifted;
    CarryGrows(bytes[..end], n);
    assert bytes[..end][..n] == bytes[..n];
    WrappedIsCarry(bytes[..n]);
    if n < end {
      assert bytes[n] == bytes[..end][n];
      ReadThrough(bytes, n + 1, end);
    }
  }

  /** Reading an encoding gives its value in 64 bits, as long as all but the last byte stay within them. */
  lemma VarintReads(value: nat, rest: seq<Byte>)
    requires value / 128 <= U64_MAX
    ensures ReadVarint(Varint(value) + rest) == Ok(Read(Reduced(value), |Varint(value)|))
  {
    VarintIsTerminated(value);
    hide Varint, ReadVarintFrom, Shifted, Reduced;
    var encoded, end := Varint(value), |Varint(value)| - 1;
    var bytes := encoded + rest;
    assert bytes[..end] == encoded[..end] && bytes[end] == encoded[end];
    var carry := Carry(encoded[..end]);
    assert value == carry * 128 + encoded[end];
    ReadThrough(bytes, 0, end);
    ReducedSmall(carry);
    ShiftWraps(carry, encoded[end]);
  }

  /** Every 64-bit value is read back from its encoding. */
  lemma VarintRoundTrip(value: nat, rest: seq<Byte>)
    requires value <= U64_MAX
    ensures ReadVarint(Varint(value) + rest) == Ok(Read(value, |Varint(value)|))
  {
    hide Varint, ReadVarintFrom, Reduced;
    VarintReads(value, rest);
    ReducedSmall(value);
  }

  /** Whatever is read was terminated, and its value is the unbounded one reduced to 64 bits. */
  lemma {:induction false} ReadIsTerminated(bytes: seq<Byte>, n: nat)
    requires n <= |bytes| && Continues(bytes[..n]) && ReadVarintFrom(bytes, n).Ok?
    ensures var read := ReadVarintFrom(bytes, n).value;
            && n < read.consumed <= |bytes| && Terminated(bytes[..read.consumed])
            && read.value == Reduced(Unbounded(bytes[..read.consumed]))
    decreases |bytes| - n
  {
    hide Shifted;
    WrappedIsCarry(bytes[..n]);
    if bytes[n] < 0x80 {
      ShiftWraps(Carry(bytes[..n]), bytes[n]);
      assert bytes[..n + 1][..n] == bytes[..n];
    } else {
      assert bytes[..n + 1] == bytes[..n] + [bytes[n]];
      ReadIsTerminated(bytes, n + 1);
    }
  }

  /** Re-encoding what was read gives the bytes back exactly when they stand for a 64-bit value. */
  lemma VarintConverse(bytes: seq<Byte>)
    requires ReadVarint(bytes).Ok?
    ensures var read := ReadVarint(bytes).value;
            && read.consumed <= |bytes| && Terminated(bytes[..read.consumed])
            && (Varint(read.value) == bytes[..read.consumed] <==> Unbounded(bytes[..read.consumed]) <= U64_MAX)
  {
    hide Varint, Unbounded, ReadVarintFrom, Reduced;
    ReadIsTerminated(bytes, 0);
    var read := ReadVarint(bytes).value;
    var taken := bytes[..read.consumed];
    TerminatedIsVarint(taken);
    VarintIsTerminated(read.value);
    if Unbounded(taken) <= U64_MAX { ReducedSmall(Unbounded(taken)); }
  }

  /** Larger values are not refused: the encoding of 2^64 is read as zero, and re-encodes differently. */
  lemma VarintWraps()
    ensures ReadVarint(Varint(U64_MAX + 1)) == Ok(Read(0, |Varint(U64_MAX + 1)|))
    ensures Varint(0) != Varint(U64_MAX + 1)
  {
    hide ReadVarintFrom;
    VarintReads(U64_MAX + 1, []);
    VarintIsTerminated(U64_MAX + 1);
    VarintIsTerminated(0);
    assert Varint(U64_MAX + 1) + [] == Varint(U64_MAX + 1);
    assert Reduced(U64_MAX + 1) == 0;
  }

  // ----- CompactSize -----

  function CompactSizeLen(value: nat): nat {
    if value < 253 then 1 else if value <= 0xffff then 3 else if value <= U32_MAX then 5 else 9
  }

  function CompactSize(value: nat): (out: seq<Byte>)
    ensures |out| == CompactSizeLen(value)
  {
    if value < 253 then [value]
    else if value <= 0xffff then [253] + LeBytes(value, 2)
    else if value <= U32_MAX then [254] + LeBytes(value, 4)
    else [255] + LeBytes(value, 8)
  }

  /** The payload width after a first byte. */
  function Width(first: Byte): nat {
    if first < 253 then 0 else if first == 253 then 2 else if first == 254 then 4 else 8
  }

  /** The least value a width is allowed to carry. */
  function LeastOf(width: nat): nat {
    if width == 2 then 253 else if width == 4 then 0x1_0000 else U32_MAX + 1
  }

  function ReadCompactSize(bytes: seq<Byte>): (r: Result<Read<nat>, CodecError>)
    ensures r.Ok? ==> 0 < r.value.consumed <= |bytes|
  {
    if bytes == [] then Err(EndOfStream)
    else
      var width := Width(bytes[0]);
      if |bytes| < 1 + width then Err(EndOfStream)
      else
        var value: nat := if width == 0 then bytes[0] else LeValue(bytes[1..1 + width]);
        if width > 0 && value < LeastOf(width) then Err(NonCanonical)
        else if value > MAX_COMPACT_SIZE then Err(CompactSizeTooLarge)
        else Ok(Read(value, 1 + width))
  }

  method ReadCompactSizeFrom(reader: ByteReader) returns (r: Result<nat, CodecError>)
    requires reader.Valid()
    modifies reader
    ensures reader.Valid() && Leaves(r, reader.Rest(), old(reader.Rest()), ReadCompactSize(old(reader.Rest())))
  {
    ghost var bytes := reader.Rest();
    var first := reader.ReadByte();
    if first.None? { return Err(EndOfStream); }
    var value: nat := first.value;
    var width := Width(first.value);
    if width > 0 {
      var payload := reader.ReadExact(width);
      if payload.None? { return Err(EndOfStream); }
      assert bytes[1..][..width] == bytes[1..1 + width] && bytes[1..][width..] == bytes[1 + width..];
      value := LeValue(payload.value);
      if value < LeastOf(width) { return Err(NonCanonical); }
    }
    if value > MAX_COMPACT_SIZE { return Err(CompactSizeTooLarge); }
    return Ok(value);
  }

  /** Sizes up to Core's limit are read back; larger ones are refused. */
  lemma CompactSizeRoundTrip(value: nat, rest: seq<Byte>)
    requires value <= U64_MAX
    ensures ReadCompactSize(CompactSize(value) + rest) ==
            if value <= MAX_COMPACT_SIZE then Ok(Read(value, CompactSizeLen(value))) else Err(CompactSizeTooLarge)
  {
    Widths();
    var bytes, width := CompactSize(value) + rest, CompactSizeLen(value) - 1;
    if width > 0 {
      ValueOfBytes(value, width);
      assert bytes[1..1 + width] == LeBytes(value, width);
    }
  }

  /** Reading accepts only the one encoding of a value. */
  lemma CompactSizeIsCanonical(bytes: seq<Byte>)
    requires ReadCompactSize(bytes).Ok?
    ensures var read := ReadCompactSize(bytes).value;
            && read.consumed <= |bytes| && read.value <= MAX_COMPACT_SIZE
            && bytes[..read.consumed] == CompactSize(read.value)
  {
    Widths();
    var width := Width(bytes[0]);
    if width > 0 {
      BytesOfValue(bytes[1..1 + width]);
      assert bytes[..1 + width] == [bytes[0]] + bytes[1..1 + width];
    }
  }
}
