/**
 The coins of a Bitcoin Core snapshot file: groups of one transaction's outputs,
 each a transaction id, a count, and that many compressed coins.
 */
module Snapshot {
  import opened Basics
  import opened CoreCodec
  import opened CoreScript
  import CoreAmount
  import opened BbHash

  const METADATA_BYTES: nat := 51
  const MAX_COINS_PER_TXID: nat := 4_000_000 / 36

  datatype SnapshotError =
    | Codec(error: CodecError)
    | NotOrdered
    | CoinsPerTxid
    | VoutOverflow
    | CodeOverflow
    | HeightAboveBase
    | AmountOverflow
    | DuplicateVout
    | TrailingBytes
    | MissingHeader
    | Mphf(cause: BbHashError)
    | MphfConstruction
    | MphfCollision
    | IncompleteMphf
    | MphfSlot
    | MphfOffset

  /** A coin as the file stores it. */
  datatype RawCoin = RawCoin(vout: nat, height: nat, coinbase: bool, value: nat, script: Script)

  /** One transaction's coins, and the bytes its outpoints take in the file. */
  datatype Group = Group(txid: seq<Byte>, coins: seq<RawCoin>)

  /** What a file is read with: the base height and the curve. */
  datatype Params = Params(base: nat, curve: Curve)

  // ----- One coin -----

  function ReadCoin(bytes: seq<Byte>, params: Params): (r: Result<Read<RawCoin>, SnapshotError>)
    ensures r.Ok? ==> 0 < r.value.consumed <= |bytes|
  {
    match ReadCompactSize(bytes)
    case Err(e) => Err(Codec(e))
    case Ok(vout) =>
      if vout.value >= U32_MAX then Err(VoutOverflow)
      else
        match ReadCoinBody(bytes[vout.consumed..], vout.value, params)
        case Err(e) => Err(e)
        case Ok(coin) => Ok(Read(coin.value, vout.consumed + coin.consumed))
  }

  function ReadCoinBody(bytes: seq<Byte>, vout: nat, params: Params): (r: Result<Read<RawCoin>, SnapshotError>)
    ensures r.Ok? ==> r.value.consumed <= |bytes| && r.value.value.vout == vout
  {
    match ReadVarint(bytes)
    case Err(e) => Err(Codec(e))
    case Ok(code) =>
      if code.value > U32_MAX then Err(CodeOverflow)
      else if code.value / 2 > params.base then Err(HeightAboveBase)
      else
        match ReadCoinValue(bytes[code.consumed..], vout, code.value, params)
        case Err(e) => Err(e)
        case Ok(coin) => Ok(Read(coin.value, code.consumed + coin.consumed))
  }

  function ReadCoinValue(bytes: seq<Byte>, vout: nat, code: nat,
                         params: Params): (r: Result<Read<RawCoin>, SnapshotError>)
    ensures r.Ok? ==> r.value.consumed <= |bytes| && r.value.value.vout == vout
  {
    match ReadVarint(bytes)
    case Err(e) => Err(Codec(e))
    case Ok(amount) =>
      var value := CoreAmount.Decompress(amount.value);
      if value > MAX_MONEY then Err(AmountOverflow)
      else
        match DecompressScript(bytes[amount.consumed..], params.curve)
        case Err(e) => Err(Codec(e))
        case Ok(script) =>
          Ok(Read(RawCoin(vout, code / 2, code % 2 == 1, value, script.value), amount.consumed + script.consumed))
  }

  method ReadCoinValueFrom(reader: ByteReader, vout: nat, code: nat, params: Params)
    returns (r: Result<RawCoin, SnapshotError>)
    requires reader.Valid()
    modifies reader
    ensures reader.Valid()
            && Leaves(r, reader.Rest(), old(reader.Rest()), ReadCoinValue(old(reader.Rest()), vout, code, params))
  {
    hide ReadVarint, DecompressScript, CoreAmount.Decompress;
    ghost var bytes := reader.Rest();
    var amount := ReadCoreVarint(reader);
    if amount.Err? { return Err(Codec(amount.error)); }
    VarintFits(bytes);
    var value := CoreAmount.DecompressAmount(amount.value);
    if value.None? || value.value > MAX_MONEY { return Err(AmountOverflow); }
    var script := DecompressScriptFrom(reader, params.curve);
    if script.Err? { return Err(Codec(script.error)); }
    return Ok(RawCoin(vout, code / 2, code % 2 == 1, value.value, script.value));
  }

  lemma VarintFits(bytes: seq<Byte>)
    ensures ReadVarint(bytes).Ok? ==> ReadVarint(bytes).value.value <= U64_MAX
  {
    hide ReadVarintFrom;
    if ReadVarint(bytes).Ok? { ReadIsTerminated(bytes, 0); }
  }

  method ReadCoinFrom(reader: ByteReader, params: Params) returns (r: Result<RawCoin, SnapshotError>)
    requires reader.Valid()
    modifies reader
    ensures reader.Valid() && Leaves(r, reader.Rest(), old(reader.Rest()), ReadCoin(old(reader.Rest()), params))
  {
    hide ReadVarint, ReadCompactSize, ReadCoinValue;
    ghost var bytes := reader.Rest();
    var vout := ReadCompactSizeFrom(reader);
    if vout.Err? { return Err(Codec(vout.error)); }
    if vout.value >= U32_MAX { return Err(VoutOverflow); }
    var code := ReadCoreVarint(reader);
    if code.Err? { return Err(Codec(code.error)); }
    if code.value > U32_MAX { return Err(CodeOverflow); }
    if code.value / 2 > params.base { return Err(HeightAboveBase); }
    r := ReadCoinValueFrom(reader, vout.value, code.value, params);
  }

  // ----- One group -----

  function ReadCoins(bytes: seq<Byte>, n: nat, params: Params): (r: Result<Read<seq<RawCoin>>, SnapshotError>)
    ensures r.Ok? ==> r.value.consumed <= |bytes| && |r.value.value| == n
    decreases n
  {
    if n == 0 then Ok(Read([], 0))
    else match ReadCoin(bytes, params)
      case Err(e) => Err(e)
      case Ok(coin) =>
        match ReadCoins(bytes[coin.consumed..], n - 1, params)
        case Err(e) => Err(e)
        case Ok(rest) => Ok(Read([coin.value] + rest.value, coin.consumed + rest.consumed))
  }

  /** A group before its coins: the id and the count. */
  function ReadHeader(bytes: seq<Byte>): (r: Result<Read<(seq<Byte>, nat)>, SnapshotError>)
    ensures r.Ok? ==> 32 < r.value.consumed <= |bytes| && |r.value.value.0| == 32
  {
    if |bytes| < 32 then Err(Codec(EndOfStream))
    else match ReadCompactSize(bytes[32..])
      case Err(e) => Err(Codec(e))
      case Ok(count) => Ok(Read((bytes[..32], count.value), 32 + count.consumed))
  }

  function ReadGroup(bytes: seq<Byte>, params: Params): (r: Result<Read<Group>, SnapshotError>)
    ensures r.Ok? ==> 32 < r.value.consumed <= |bytes|
  {
    match ReadHeader(bytes)
    case Err(e) => Err(e)
    case Ok(head) =>
      if head.value.1 == 0 || head.value.1 > MAX_COINS_PER_TXID then Err(CoinsPerTxid)
      else
        match ReadCoins(bytes[head.consumed..], head.value.1, params)
        case Err(e) => Err(e)
        case Ok(coins) => Ok(Read(Group(head.value.0, coins.value), head.consumed + coins.consumed))
  }

  /** Reading continues after some coins already read. */
  ghost predicate Continues(bytes: seq<Byte>, n: nat, done: seq<RawCoin>, used: nat, params: Params)
    requires |done| <= n
  {
    && used <= |bytes|
    && ReadCoins(bytes, n, params) ==
       match ReadCoins(bytes[used..], n - |done|, params)
       case Err(e) => Err(e)
       case Ok(rest) => Ok(Read(done + rest.value, used + rest.consumed))
  }

  lemma NoCoinsYet(bytes: seq<Byte>, n: nat, params: Params)
    ensures Continues(bytes, n, [], 0, params)
  {
    assert bytes[0..] == bytes;
    if ReadCoins(bytes, n, params).Ok? {
      assert [] + ReadCoins(bytes, n, params).value.value == ReadCoins(bytes, n, params).value.value;
    }
  }

  lemma OneMoreCoin(bytes: seq<Byte>, n: nat, done: seq<RawCoin>, used: nat, params: Params)
    requires |done| < n && Continues(bytes, n, done, used, params)
    ensures match ReadCoin(bytes[used..], params)
            case Err(e) => ReadCoins(bytes, n, params) == Err(e)
            case Ok(coin) => Continues(bytes, n, done + [coin.value], used + coin.consumed, params)
  {
    hide ReadCoin;
    if ReadCoin(bytes[used..], params).Ok? {
      var coin := ReadCoin(bytes[used..], params).value;
      assert bytes[used..][coin.consumed..] == bytes[used + coin.consumed..];
      var rest := ReadCoins(bytes[used + coin.consumed..], n - |done| - 1, params);
      if rest.Ok? { assert done + ([coin.value] + rest.value.value) == (done + [coin.value]) + rest.value.value; }
    }
  }

  method ReadCoinsFrom(reader: ByteReader, n: nat, params: Params) returns (r: Result<seq<RawCoin>, SnapshotError>)
    requires reader.Valid()
    modifies reader
    ensures reader.Valid() && Leaves(r, reader.Rest(), old(reader.Rest()), ReadCoins(old(reader.Rest()), n, params))
  {
    hide ReadCoin, ReadCoins;
    ghost var bytes := reader.Rest();
    ghost var used: nat := 0;
    var coins: seq<RawCoin> := [];
    NoCoinsYet(bytes, n, params);
    for k := 0 to n
      invariant reader.Valid() && |coins| == k && used <= |bytes| && reader.Rest() == bytes[used..]
      invariant Continues(bytes, n, coins, used, params)
    {
      OneMoreCoin(bytes, n, coins, used, params);
      ghost var read := ReadCoin(bytes[used..], params);
      var coin := ReadCoinFrom(reader, params);
      if coin.Err? { return Err(coin.error); }
      coins := coins + [coin.value];
      used := used + read.value.consumed;
    }
    NoMoreCoins(bytes[used..], params);
    assert coins + [] == coins;
    return Ok(coins);
  }

  lemma NoMoreCoins(bytes: seq<Byte>, params: Params)
    ensures ReadCoins(bytes, 0, params) == Ok(Read([], 0))
  {
  }
}
