/**
 What the bytes of a snapshot mean, by how they are written: a coin is its
 output index, height and coinbase flag in one code, amount and script; a group
 is an id, a count and its coins; a file is its groups in order.  What is
 written is scanned and looked up again, and what is scanned could be written.
 */
module SnapshotWrite {
  import opened Basics
  import opened CoreCodec
  import opened CoreScript
  import CoreAmount
  import opened Snapshot
  import opened SnapshotIndex
  import opened SnapshotGet
  import opened BbHash

  // ----- One coin -----

  /** The code of a coin: its height, and the coinbase flag in the lowest bit. */
  function CodeOf(coin: RawCoin): nat {
    2 * coin.height + if coin.coinbase then 1 else 0
  }

  function WriteValue(coin: RawCoin, curve: Curve): seq<Byte> {
    Varint(CoreAmount.Compress(coin.value)) + CompressScript(coin.script, curve)
  }

  function WriteBody(coin: RawCoin, curve: Curve): seq<Byte> {
    Varint(CodeOf(coin)) + WriteValue(coin, curve)
  }

  function WriteCoin(coin: RawCoin, curve: Curve): seq<Byte> {
    CompactSize(coin.vout) + WriteBody(coin, curve)
  }

  /** What a reader accepts of a coin. */
  predicate CoinFits(coin: RawCoin, base: nat) {
    && coin.vout <= 0x0200_0000
    && coin.height <= base && CodeOf(coin) <= 0xffff_ffff
    && coin.value <= 2_100_000_000_000_000
    && |coin.script| <= 10_000
  }

  /** The writers' 64-bit fields can hold the coin. */
  predicate Writable(coin: RawCoin) {
    && coin.vout <= U64_MAX && CodeOf(coin) <= U64_MAX
    && CoreAmount.Compress(coin.value) <= U64_MAX && |coin.script| + TEMPLATES <= U64_MAX
  }

  lemma Rest(a: seq<Byte>, b: seq<Byte>)
    ensures (a + b)[|a|..] == b
  {
  }

  lemma ReadWrittenValue(coin: RawCoin, code: nat, rest: seq<Byte>, params: Params)
    requires Writable(coin) && Lawful(params.curve)
    ensures var r := ReadCoinValue(WriteValue(coin, params.curve) + rest, coin.vout, code, params);
            && (r.Ok? <==> coin.value <= 2_100_000_000_000_000 && |coin.script| <= 10_000)
            && (r.Ok? ==> r.value == Read(RawCoin(coin.vout, code / 2, code % 2 == 1, coin.value, coin.script),
                                          |WriteValue(coin, params.curve)|))
  {
    hide ReadVarint, Varint, DecompressScript, CompressScript, CoreAmount.Compress, CoreAmount.Decompress, Lawful;
    var amount, script := Varint(CoreAmount.Compress(coin.value)), CompressScript(coin.script, params.curve);
    assert WriteValue(coin, params.curve) + rest == amount + (script + rest);
    VarintRoundTrip(CoreAmount.Compress(coin.value), script + rest);
    CoreAmount.DecompressCompress(coin.value);
    Rest(amount, script + rest);
    ScriptRoundTrip(coin.script, rest, params.curve);
  }

  lemma ReadWrittenBody(coin: RawCoin, rest: seq<Byte>, params: Params)
    requires Writable(coin) && Lawful(params.curve)
    ensures var r := ReadCoinBody(WriteBody(coin, params.curve) + rest, coin.vout, params);
            && (r.Ok? <==> && CodeOf(coin) <= 0xffff_ffff && coin.height <= params.base
                           && coin.value <= 2_100_000_000_000_000 && |coin.script| <= 10_000)
            && (r.Ok? ==> r.value == Read(coin, |WriteBody(coin, params.curve)|))
  {
    hide ReadVarint, Varint, ReadCoinValue, WriteValue, Lawful, CoreAmount.Compress;
    var code, value := Varint(CodeOf(coin)), WriteValue(coin, params.curve);
    assert WriteBody(coin, params.curve) + rest == code + (value + rest);
    VarintRoundTrip(CodeOf(coin), value + rest);
    Rest(code, value + rest);
    assert CodeOf(coin) / 2 == coin.height && (CodeOf(coin) % 2 == 1 <==> coin.coinbase);
    ReadWrittenValue(coin, CodeOf(coin), rest, params);
  }

  /** A written coin is read back, itself and at its length, exactly when it is within the limits. */
  lemma ReadWrittenCoin(coin: RawCoin, rest: seq<Byte>, params: Params)
    requires Writable(coin) && Lawful(params.curve)
    ensures ReadCoin(WriteCoin(coin, params.curve) + rest, params).Ok? <==> CoinFits(coin, params.base)
    ensures CoinFits(coin, params.base) ==>
              ReadCoin(WriteCoin(coin, params.curve) + rest, params) == Ok(Read(coin, |WriteCoin(coin, params.curve)|))
  {
    hide ReadCompactSize, CompactSize, ReadCoinBody, WriteBody, Lawful, CoreAmount.Compress;
    var vout, body := CompactSize(coin.vout), WriteBody(coin, params.curve);
    assert WriteCoin(coin, params.curve) + rest == vout + (body + rest);
    CompactSizeRoundTrip(coin.vout, body + rest);
    Rest(vout, body + rest);
    ReadWrittenBody(coin, rest, params);
  }

  lemma FittingIsWritable(coin: RawCoin, base: nat)
    requires CoinFits(coin, base)
    ensures Writable(coin)
  {
    hide CoreAmount.Compress;
    CoreAmount.CompressFits(coin.value);
  }

  // ----- One group -----

  function WriteCoins(coins: seq<RawCoin>, curve: Curve): seq<Byte> {
    if coins == [] then [] else WriteCoin(coins[0], curve) + WriteCoins(coins[1..], curve)
  }

  function WriteGroup(g: Group, curve: Curve): seq<Byte> {
    g.txid + (CompactSize(|g.coins|) + WriteCoins(g.coins, curve))
  }

  /** What a reader accepts of a group. */
  predicate GroupFits(g: Group, base: nat) {
    && |g.txid| == 32
    && 1 <= |g.coins| <= 111_111
    && (forall i | 0 <= i < |g.coins| :: CoinFits(g.coins[i], base))
    && (forall i, j | 0 <= i < j < |g.coins| :: g.coins[i].vout != g.coins[j].vout)
  }

  lemma {:induction false} ReadWrittenCoins(coins: seq<RawCoin>, rest: seq<Byte>, params: Params)
    requires Lawful(params.curve) && forall i | 0 <= i < |coins| :: CoinFits(coins[i], params.base)
    ensures ReadCoins(WriteCoins(coins, params.curve) + rest, |coins|, params) ==
            Ok(Read(coins, |WriteCoins(coins, params.curve)|))
  {
    hide ReadCoin, WriteCoin, CoinFits, Lawful;
    if coins != [] {
      var first, more := WriteCoin(coins[0], params.curve), WriteCoins(coins[1..], params.curve);
      assert WriteCoins(coins, params.curve) + rest == first + (more + rest);
      FittingIsWritable(coins[0], params.base);
      ReadWrittenCoin(coins[0], more + rest, params);
      Rest(first, more + rest);
      ReadWrittenCoins(coins[1..], rest, params);
      assert [coins[0]] + coins[1..] == coins;
    }
  }

  lemma ReadWrittenHeader(g: Group, rest: seq<Byte>)
    requires |g.txid| == 32 && |g.coins| <= 111_111
    ensures var bytes := g.txid + (CompactSize(|g.coins|) + rest);
            ReadHeader(bytes) == Ok(Read((g.txid, |g.coins|), 32 + |CompactSize(|g.coins|)|))
  {
    hide ReadCompactSize, CompactSize;
    Rest(g.txid, CompactSize(|g.coins|) + rest);
    CompactSizeRoundTrip(|g.coins|, rest);
  }

  /** A written group is scanned back where enough coins remain and its id comes after the one before. */
  lemma ScanWrittenGroup(g: Group, remaining: nat, previous: Option<seq<Byte>>, rest: seq<Byte>, params: Params)
    requires Lawful(params.curve) && GroupFits(g, params.base) && |g.coins| <= remaining
    requires previous.Some? ==> LexLess(previous.value, g.txid)
    ensures ScanGroup(WriteGroup(g, params.curve) + rest, remaining, previous, params) ==
            Ok(Read(g, |WriteGroup(g, params.curve)|))
  {
    hide ReadHeader, ReadCoins, WriteCoins, LexLess, CoinFits, Lawful, CompactSize;
    var count, coins := CompactSize(|g.coins|), WriteCoins(g.coins, params.curve);
    var bytes := WriteGroup(g, params.curve) + rest;
    assert bytes == g.txid + (count + (coins + rest));
    ReadWrittenHeader(g, coins + rest);
    assert bytes == (g.txid + count) + (coins + rest);
    Rest(g.txid + count, coins + rest);
    ReadWrittenCoins(g.coins, rest, params);
  }

  // ----- The file -----

  function WriteGroups(groups: seq<Group>, curve: Curve): seq<Byte> {
    if groups == [] then [] else WriteGroup(groups[0], curve) + WriteGroups(groups[1..], curve)
  }

  /** An id as a number, most significant byte first. */
  function Number(bytes: seq<Byte>): nat {
    if bytes == [] then 0 else 256 * Number(bytes[..|bytes| - 1]) + bytes[|bytes| - 1]
  }

  /** Groups within the limits, their ids strictly increasing as numbers. */
  predicate FileFits(groups: seq<Group>, previous: Option<seq<Byte>>, base: nat) {
    groups == [] ||
    (&& GroupFits(groups[0], base)
     && (previous.Some? ==> Number(previous.value) < Number(groups[0].txid))
     && FileFits(groups[1..], Some(groups[0].txid), base))
  }

  function CoinTotal(groups: seq<Group>): nat {
    if groups == [] then 0 else |groups[0].coins| + CoinTotal(groups[1..])
  }

  /** Where each group is written. */
  function Placements(groups: seq<Group>, offset: nat, curve: Curve): (placed: seq<Placed>)
    ensures |placed| == |groups| && forall i | 0 <= i < |groups| :: placed[i].group == groups[i]
  {
    if groups == [] then []
    else [Placed(offset, groups[0])] + Placements(groups[1..], offset + |WriteGroup(groups[0], curve)|, curve)
  }

  /** A longer common prefix first: the last bytes decide only between equal beginnings. */
  lemma {:induction false} LexOfLast(a: seq<Byte>, b: seq<Byte>)
    requires |a| == |b| > 0
    ensures var n := |a| - 1;
            LexLess(a, b) <==> LexLess(a[..n], b[..n]) || (a[..n] == b[..n] && a[n] < b[n])
    decreases |a|
  {
    var n := |a| - 1;
    if n > 0 {
      assert a[..n] == [a[0]] + a[1..n] && b[..n] == [b[0]] + b[1..n];
      assert a[1..][..n - 1] == a[1..n] && b[1..][..n - 1] == b[1..n];
      assert a[..n][1..] == a[1..n] && b[..n][1..] == b[1..n];
      if a[0] == b[0] { LexOfLast(a[1..], b[1..]); }
    }
  }

  lemma {:induction false} NumberInjective(a: seq<Byte>, b: seq<Byte>)
    requires |a| == |b| && Number(a) == Number(b)
    ensures a == b
    decreases |a|
  {
    if a != [] {
      var n := |a| - 1;
      NumberInjective(a[..n], b[..n]);
      assert a == a[..n] + [a[n]] && b == b[..n] + [b[n]];
    }
  }

  /** Byte strings of one length are ordered as the numbers they stand for. */
  lemma {:induction false} LexIsNumeric(a: seq<Byte>, b: seq<Byte>)
    requires |a| == |b|
    ensures LexLess(a, b) <==> Number(a) < Number(b)
    decreases |a|
  {
    if a != [] {
      var n := |a| - 1;
      LexOfLast(a, b);
      LexIsNumeric(a[..n], b[..n]);
      if Number(a[..n]) == Number(b[..n]) { NumberInjective(a[..n], b[..n]); }
    }
  }

  /** A written file is scanned into its groups, each where it was written. */
  lemma {:induction false} ScanWritten(bytes: seq<Byte>, offset: nat, groups: seq<Group>, previous: Option<seq<Byte>>,
                                       params: Params)
    requires Lawful(params.curve) && FileFits(groups, previous, params.base)
    requires previous.Some? ==> |previous.value| == 32
    requires offset <= |bytes| && bytes[offset..] == WriteGroups(groups, params.curve)
    ensures Scan(bytes, offset, CoinTotal(groups), previous, params) == Ok(Placements(groups, offset, params.curve))
    decreases |groups|
  {
    hide ScanGroup, WriteGroup, GroupFits, Lawful, Number, LexLess;
    if groups != [] {
      var first, more := WriteGroup(groups[0], params.curve), WriteGroups(groups[1..], params.curve);
      FittingGroup(groups[0], params.base);
      if previous.Some? { LexIsNumeric(previous.value, groups[0].txid); }
      ScanWrittenGroup(groups[0], CoinTotal(groups), previous, more, params);
      Rest(first, more);
      assert bytes[offset..][|first|..] == bytes[offset + |first|..];
      ScanWritten(bytes, offset + |first|, groups[1..], Some(groups[0].txid), params);
    }
  }

  lemma FittingGroup(g: Group, base: nat)
    requires GroupFits(g, base)
    ensures |g.txid| == 32 && g.coins != []
  {
  }

  // ----- What is scanned fits -----

  lemma DecompressedFits(bytes: seq<Byte>, curve: Curve)
    requires Lawful(curve) && DecompressScript(bytes, curve).Ok?
    ensures |DecompressScript(bytes, curve).value.value| <= 10_000
  {
    hide ReadVarint;
  }

  lemma ReadCoinFits(bytes: seq<Byte>, params: Params)
    requires Lawful(params.curve) && ReadCoin(bytes, params).Ok?
    ensures CoinFits(ReadCoin(bytes, params).value.value, params.base)
  {
    hide ReadVarint, ReadCompactSize, DecompressScript, CoreAmount.Decompress, Lawful;
    CompactSizeIsCanonical(bytes);
    var body := bytes[ReadCompactSize(bytes).value.consumed..];
    var value := body[ReadVarint(body).value.consumed..];
    DecompressedFits(value[ReadVarint(value).value.consumed..], params.curve);
  }

  lemma {:induction false} ReadCoinsFit(bytes: seq<Byte>, n: nat, params: Params)
    requires Lawful(params.curve) && ReadCoins(bytes, n, params).Ok?
    ensures forall i | 0 <= i < n :: CoinFits(ReadCoins(bytes, n, params).value.value[i], params.base)
    decreases n
  {
    hide ReadCoin, CoinFits, Lawful;
    if n > 0 {
      ReadCoinFits(bytes, params);
      ReadCoinsFit(bytes[ReadCoin(bytes, params).value.consumed..], n - 1, params);
    }
  }

  lemma ScannedGroupFits(bytes: seq<Byte>, remaining: nat, previous: Option<seq<Byte>>, params: Params)
    requires Lawful(params.curve) && ScanGroup(bytes, remaining, previous, params).Ok?
    requires previous.Some? ==> |previous.value| == 32
    ensures var g := ScanGroup(bytes, remaining, previous, params).value.value;
            && GroupFits(g, params.base) && |g.coins| <= remaining
            && (previous.Some? ==> Number(previous.value) < Number(g.txid))
  {
    hide ReadCompactSize, ReadCoins, LexLess, CoinFits, Lawful, Number;
    var head := ReadHeader(bytes).value;
    ReadCoinsFit(bytes[head.consumed..], head.value.1, params);
    if previous.Some? { LexIsNumeric(previous.value, bytes[..32]); }
  }

  function GroupsOf(placed: seq<Placed>): (groups: seq<Group>)
    ensures |groups| == |placed| && forall i | 0 <= i < |placed| :: groups[i] == placed[i].group
  {
    seq(|placed|, i requires 0 <= i < |placed| => placed[i].group)
  }

  /** Whatever is scanned is within the limits, in order, and all the coins that were announced. */
  lemma {:induction false} ScannedFits(bytes: seq<Byte>, offset: nat, remaining: nat, previous: Option<seq<Byte>>,
                                       params: Params)
    requires Lawful(params.curve) && (previous.Some? ==> |previous.value| == 32)
    requires offset <= |bytes| && Scan(bytes, offset, remaining, previous, params).Ok?
    ensures var groups := GroupsOf(Scan(bytes, offset, remaining, previous, params).value);
            FileFits(groups, previous, params.base) && CoinTotal(groups) == remaining
    decreases remaining
  {
    hide ScanGroup, GroupFits, Lawful, Number;
    if remaining > 0 {
      var read := ScanGroup(bytes[offset..], remaining, previous, params).value;
      ScannedGroupFits(bytes[offset..], remaining, previous, params);
      FittingGroup(read.value, params.base);
      var rest := Scan(bytes, offset + read.consumed, remaining - |read.value.coins|, Some(read.value.txid), params);
      ScannedFits(bytes, offset + read.consumed, remaining - |read.value.coins|, Some(read.value.txid), params);
      var placed := Scan(bytes, offset, remaining, previous, params).value;
      assert GroupsOf(placed)[1..] == GroupsOf(rest.value);
    }
  }

  /** The bytes of the coins apart from their output indexes. */
  function BodyBytes(coins: seq<RawCoin>, curve: Curve): nat {
    if coins == [] then 0 else |WriteBody(coins[0], curve)| + BodyBytes(coins[1..], curve)
  }

  lemma {:induction false} VoutBytesWritten(coins: seq<RawCoin>, curve: Curve)
    ensures VoutBytes(coins) + BodyBytes(coins, curve) == |WriteCoins(coins, curve)|
  {
    hide WriteBody, CompactSize;
    if coins != [] { VoutBytesWritten(coins[1..], curve); }
  }

  /** The outpoint bytes of a group are what it is written with besides the bodies of its coins. */
  lemma KeyBytesWritten(g: Group, curve: Curve)
    requires |g.txid| == 32
    ensures KeyBytes(g) + BodyBytes(g.coins, curve) == |WriteGroup(g, curve)|
  {
    hide BodyBytes, VoutBytes, WriteCoins, CompactSize;
    VoutBytesWritten(g.coins, curve);
  }

  // ----- Lookups -----

  /** The median time recorded with a coin: that of the block before its own, and zero at genesis. */
  function TimeOf(coin: RawCoin, mtp: MtpOf): Option<nat> {
    if coin.height >= 1 then mtp(coin.height - 1) else Some(0)
  }

  /**
   An index of a written file finds every coin that was written, with its
   height, flag, value and script, and the median time before its block.
   */
  lemma WrittenCoinIsFound(metadata: seq<Byte>, groups: seq<Group>, index: Index, g: nat, c: nat, params: Params,
                           mtp: MtpOf, hash: Hasher)
    requires |metadata| == 51 && Lawful(params.curve) && FileFits(groups, None, params.base)
    requires var bytes := metadata + WriteGroups(groups, params.curve);
             Indexes(index, bytes, Placements(groups, 51, params.curve), params, hash)
    requires forall i, j | 0 <= i < |groups| && 0 <= j < |groups[i].coins| :: TimeOf(groups[i].coins[j], mtp).Some?
    requires g < |groups| && c < |groups[g].coins|
    ensures var bytes := metadata + WriteGroups(groups, params.curve);
            Scan(bytes, 51, CoinTotal(groups), None, params) == Ok(Placements(groups, 51, params.curve))
    ensures ValidLevels(index.levels)
    ensures var bytes, coin := metadata + WriteGroups(groups, params.curve), groups[g].coins[c];
            Fetch(index, bytes, groups[g].txid, coin.vout, params, mtp, hash) ==
            Ok(Some(FullCoin(coin, TimeOf(coin, mtp).value)))
  {
    hide Fetch, Scan, FileFits, WriteGroups, Lawful, Indexes;
    var bytes := metadata + WriteGroups(groups, params.curve);
    Rest(metadata, WriteGroups(groups, params.curve));
    ScanWritten(bytes, 51, groups, None, params);
    var placed := Placements(groups, 51, params.curve);
    assert Covered(placed, mtp) by {
      forall i, j | 0 <= i < |placed| && 0 <= j < |placed[i].group.coins|
        ensures CreationMtp(placed[i].group.coins[j], mtp).Some?
      {
        assert placed[i].group == groups[i];
        assert TimeOf(groups[i].coins[j], mtp).Some?;
      }
    }
    assert placed[g].group == groups[g];
    MembersAreFound(index, bytes, placed, g, c, params, mtp, hash);
  }
}
