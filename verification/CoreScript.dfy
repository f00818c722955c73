/**
 Core's script compression: six templates, or the raw bytes behind a size.
 The curve is an arbitrary pair of functions obeying the law that a valid point
 is recovered from its x coordinate and parity.
 */
module CoreScript {
  import opened Basics
  import opened CoreCodec

  const MAX_SCRIPT_BYTES: nat := 10_000
  const TEMPLATES: nat := 6

  type Script = seq<Byte>

  /** Checks an uncompressed key; recovers it from a parity and an x coordinate. */
  datatype Curve = Curve(valid: seq<Byte> -> bool, recover: (nat, seq<Byte>) -> Option<seq<Byte>>)

  /** An uncompressed key as Core writes it. */
  predicate Uncompressed(key: seq<Byte>) {
    |key| == 65 && key[0] == 4
  }

  /** The law of the curve, both ways. */
  ghost predicate Lawful(curve: Curve) {
    && (forall key :: Uncompressed(key) && curve.valid(key) ==> curve.recover(key[64] % 2, key[1..33]) == Some(key))
    && (forall parity, x ::
          curve.recover(parity, x).Some? ==> Recovered(curve, parity, x, curve.recover(parity, x).value))
  }

  predicate Recovered(curve: Curve, parity: nat, x: seq<Byte>, key: seq<Byte>) {
    Uncompressed(key) && curve.valid(key) && key[1..33] == x && key[64] % 2 == parity
  }

  // ----- Templates -----

  function P2pkh(hash: seq<Byte>): Script {
    [0x76, 0xa9, 20] + hash + [0x88, 0xac]
  }

  function P2sh(hash: seq<Byte>): Script {
    [0xa9, 20] + hash + [0x87]
  }

  function P2pk(tag: Byte, x: seq<Byte>): Script {
    [33, tag] + x + [0xac]
  }

  function P2pkFull(key: seq<Byte>): Script {
    [65] + key + [0xac]
  }

  /** The template of a script and what it keeps of it, if it matches one. */
  function Template(s: Script, curve: Curve): Option<(nat, seq<Byte>)> {
    if |s| == 25 && s[..3] == [0x76, 0xa9, 20] && s[23..] == [0x88, 0xac] then Some((0, s[3..23]))
    else if |s| == 23 && s[..2] == [0xa9, 20] && s[22] == 0x87 then Some((1, s[2..22]))
    else if |s| == 35 && s[0] == 33 && (s[1] == 2 || s[1] == 3) && s[34] == 0xac then Some((s[1], s[2..34]))
    else if |s| == 67 && s[0] == 65 && s[66] == 0xac && s[1] == 4 && curve.valid(s[1..66])
    then Some((4 + s[65] % 2, s[2..34]))
    else None
  }

  function CompressScript(s: Script, curve: Curve): seq<Byte> {
    match Template(s, curve)
    case Some((tag, payload)) => Varint(tag) + payload
    case None => Varint(|s| + TEMPLATES) + s
  }

  /** How many payload bytes follow a size. */
  function PayloadLen(size: nat): nat {
    if size <= 1 then 20 else if size <= 5 then 32 else size - TEMPLATES
  }

  /** The script a size and payload stand for. */
  function Expand(size: nat, payload: seq<Byte>, curve: Curve): Option<Script>
    requires |payload| == PayloadLen(size)
  {
    if size == 0 then Some(P2pkh(payload))
    else if size == 1 then Some(P2sh(payload))
    else if size <= 3 then Some(P2pk(size, payload))
    else if size <= 5 then
      match curve.recover(size - 4, payload)
      case None => None
      case Some(key) => Some(P2pkFull(key))
    else Some(payload)
  }

  function DecompressScript(bytes: seq<Byte>, curve: Curve): (r: Result<Read<Script>, CodecError>)
    ensures r.Ok? ==> 0 < r.value.consumed <= |bytes|
  {
    match ReadVarint(bytes)
    case Err(e) => Err(e)
    case Ok(size) =>
      if size.value >= TEMPLATES && size.value - TEMPLATES > MAX_SCRIPT_BYTES then Err(ScriptTooLarge)
      else
        var end := size.consumed + PayloadLen(size.value);
        if |bytes| < end then Err(EndOfStream)
        else match Expand(size.value, bytes[size.consumed..end], curve)
          case None => Err(InvalidKey)
          case Some(script) => Ok(Read(script, end))
  }

  lemma SliceOfRest(bytes: seq<Byte>, used: nat, len: nat)
    requires used + len <= |bytes|
    ensures bytes[used..][..len] == bytes[used..used + len] && bytes[used..][len..] == bytes[used + len..]
  {
  }

  method DecompressScriptFrom(reader: ByteReader, curve: Curve) returns (r: Result<Script, CodecError>)
    requires reader.Valid()
    modifies reader
    ensures reader.Valid() && Leaves(r, reader.Rest(), old(reader.Rest()), DecompressScript(old(reader.Rest()), curve))
  {
    hide ReadVarint, Expand, PayloadLen;
    ghost var bytes := reader.Rest();
    var size := ReadCoreVarint(reader);
    if size.Err? { return Err(size.error); }
    ghost var used := ReadVarint(bytes).value.consumed;
    if size.value >= TEMPLATES && size.value - TEMPLATES > MAX_SCRIPT_BYTES { return Err(ScriptTooLarge); }
    var len := PayloadLen(size.value);
    var payload := reader.ReadExact(len);
    if payload.None? { return Err(EndOfStream); }
    SliceOfRest(bytes, used, len);
    var script := Expand(size.value, payload.value, curve);
    if script.None? { return Err(InvalidKey); }
    return Ok(script.value);
  }

  // ----- Round trips -----

  lemma TemplateExpands(s: Script, curve: Curve)
    requires Lawful(curve) && Template(s, curve).Some?
    ensures var (size, payload) := Template(s, curve).value;
            size < TEMPLATES && |payload| == PayloadLen(size) && Expand(size, payload, curve) == Some(s)
  {
    var (size, payload) := Template(s, curve).value;
    if size == 0 {
      assert s == s[..3] + s[3..23] + s[23..];
    } else if size == 1 {
      assert s == s[..2] + s[2..22] + [s[22]];
    } else if size <= 3 {
      assert s == [s[0], s[1]] + s[2..34] + [s[34]];
    } else {
      var key := s[1..66];
      assert key[1..33] == s[2..34] && key[64] == s[65];
      assert s == [s[0]] + key + [s[66]];
    }
  }

  /** A script comes back from its compressed form exactly when it is within the script size limit. */
  lemma ScriptRoundTrip(s: Script, rest: seq<Byte>, curve: Curve)
    requires Lawful(curve) && |s| + TEMPLATES <= U64_MAX
    ensures DecompressScript(CompressScript(s, curve) + rest, curve) ==
            if |s| <= MAX_SCRIPT_BYTES then Ok(Read(s, |CompressScript(s, curve)|)) else Err(ScriptTooLarge)
  {
    hide Template, Expand, Varint, ReadVarint;
    var bytes := CompressScript(s, curve) + rest;
    match Template(s, curve) {
      case Some((tag, payload)) =>
        TemplateExpands(s, curve);
        TemplatesAreShort(s, curve);
        ReadParts(tag, payload, rest);
      case None =>
        RawExpands(s, curve);
        ReadParts(|s| + TEMPLATES, s, rest);
    }
  }

  lemma TemplatesAreShort(s: Script, curve: Curve)
    requires Template(s, curve).Some?
    ensures |s| <= MAX_SCRIPT_BYTES
  {
  }

  lemma RawExpands(s: Script, curve: Curve)
    ensures PayloadLen(|s| + TEMPLATES) == |s| && Expand(|s| + TEMPLATES, s, curve) == Some(s)
  {
  }

  lemma ReadParts(size: nat, payload: seq<Byte>, rest: seq<Byte>)
    requires size <= U64_MAX
    ensures var bytes := (Varint(size) + payload) + rest;
            var used := |Varint(size)|;
            && ReadVarint(bytes) == Ok(Read(size, used))
            && used + |payload| <= |bytes| && bytes[used..used + |payload|] == payload
  {
    hide Varint, ReadVarint;
    VarintRoundTrip(size, payload + rest);
    assert (Varint(size) + payload) + rest == Varint(size) + (payload + rest);
  }

  /** What a template recognises is what it expands to. */
  lemma ExpandedIsTemplate(size: nat, payload: seq<Byte>, curve: Curve)
    requires Lawful(curve) && size < TEMPLATES && |payload| == PayloadLen(size) && Expand(size, payload, curve).Some?
    ensures Template(Expand(size, payload, curve).value, curve) == Some((size, payload))
  {
    var s := Expand(size, payload, curve).value;
    if size == 0 {
      assert s[..3] == [0x76, 0xa9, 20] && s[23..] == [0x88, 0xac] && s[3..23] == payload;
    } else if size == 1 {
      assert s[..2] == [0xa9, 20] && s[2..22] == payload;
    } else if size <= 3 {
      assert s[2..34] == payload;
    } else {
      var key := curve.recover(size - 4, payload).value;
      assert Recovered(curve, size - 4, payload, key);
      assert s[1..66] == key && s[2..34] == key[1..33];
    }
  }

  /**
   The consumed bytes are the compressed form exactly when the size is a 64-bit
   VARINT and no template was left unused.
   */
  lemma ScriptConverse(bytes: seq<Byte>, curve: Curve)
    requires Lawful(curve) && DecompressScript(bytes, curve).Ok?
    ensures var read := DecompressScript(bytes, curve).value;
            var size := ReadVarint(bytes).value;
            && read.consumed <= |bytes| && size.consumed <= read.consumed
            && Terminated(bytes[..size.consumed])
            && (CompressScript(read.value, curve) == bytes[..read.consumed] <==>
                Unbounded(bytes[..size.consumed]) <= U64_MAX
                  && (size.value >= TEMPLATES ==> Template(read.value, curve) == None))
  {
    hide Template, Expand, Varint, ReadVarint, Unbounded;
    var read, size := DecompressScript(bytes, curve).value, ReadVarint(bytes).value;
    VarintConverse(bytes);
    var payload := bytes[size.consumed..read.consumed];
    assert bytes[..read.consumed] == bytes[..size.consumed] + payload;
    var compressed := CompressScript(read.value, curve);
    var canonical :=
      Template(read.value, curve) == if size.value < TEMPLATES then Some((size.value, payload)) else None;
    if size.value < TEMPLATES {
      ExpandedIsTemplate(size.value, payload, curve);
    } else {
      RawSize(size.value, payload, curve);
    }
    if canonical {
      assert compressed == Varint(size.value) + payload;
      SamePrefix(Varint(size.value), bytes[..size.consumed], payload);
    } else {
      OtherTag(read.value, size.value, payload, bytes[..size.consumed], curve);
    }
  }

  lemma RawSize(size: nat, payload: seq<Byte>, curve: Curve)
    requires size >= TEMPLATES && |payload| == PayloadLen(size)
    ensures Expand(size, payload, curve) == Some(payload) && size == |payload| + TEMPLATES
  {
  }

  lemma SamePrefix(a: seq<Byte>, b: seq<Byte>, payload: seq<Byte>)
    ensures a + payload == b + payload <==> a == b
  {
    if a + payload == b + payload {
      assert |a| == |b|;
      assert a == (a + payload)[..|a|] && b == (b + payload)[..|b|];
    }
  }

  /** A raw form of a template script is longer than its compressed form. */
  lemma OtherTag(s: Script, size: nat, payload: seq<Byte>, prefix: seq<Byte>, curve: Curve)
    requires Lawful(curve) && size >= TEMPLATES && Template(s, curve).Some? && payload == s && prefix != []
    ensures CompressScript(s, curve) != prefix + payload
  {
    var (tag, kept) := Template(s, curve).value;
    TemplateExpands(s, curve);
    assert |Varint(tag)| == 1;
    assert |CompressScript(s, curve)| == 1 + |kept| < |prefix| + |s|;
  }

  /** The converse does fail: a pay-to-script-hash script in raw form is accepted, and compresses to something else. */
  lemma RawTemplateIsAccepted(hash: seq<Byte>, curve: Curve)
    requires Lawful(curve) && |hash| == 20
    ensures var raw := Varint(23 + TEMPLATES) + P2sh(hash);
            DecompressScript(raw, curve) == Ok(Read(P2sh(hash), |raw|)) && CompressScript(P2sh(hash), curve) != raw
  {
    hide ReadVarint;
    var s := P2sh(hash);
    ReadParts(23 + TEMPLATES, s, []);
    assert (Varint(23 + TEMPLATES) + s) + [] == Varint(23 + TEMPLATES) + s;
    assert Expand(1, hash, curve) == Some(s);
    ExpandedIsTemplate(1, hash, curve);
    OtherTag(s, 23 + TEMPLATES, s, Varint(23 + TEMPLATES), curve);
  }
}
