/**
 A minimal perfect hash in levels.  Each level keeps the positions that exactly
 one remaining key hashes to; a key's slot is the rank of its position over all
 levels.  Everything holds for an arbitrary hash function.
 */
module BbHash {
  import opened Basics
  import opened Words
  import opened BitRank

  const MAX_INDEX_LEVELS: nat := 64
  const BBHASH_GAMMA: nat := 2
  const SEED: nat := 0x9e37_79b9_7f4a_7c15

  type Key = seq<Byte>
  type Hasher = (Key, nat) -> nat

  datatype BbHashError = LevelLimit | SizeOverflow | Stalled

  datatype Level = Level(seed: Word, bitLen: nat, rankBase: nat, bits: seq<Word>, wordRanks: seq<nat>)

  predicate ValidLevel(l: Level) {
    l.bitLen == 64 * |l.bits| && l.bitLen > 0 && RanksOf(l.wordRanks, l.bits)
  }

  predicate ValidLevels(levels: seq<Level>) {
    forall l | 0 <= l < |levels| :: ValidLevel(levels[l])
  }

  /** The position of a key in a level. */
  function Place(seed: nat, bitLen: nat, key: Key, hash: Hasher): (b: nat)
    requires bitLen > 0
    ensures b < bitLen
  {
    hash(key, seed) % bitLen
  }

  predicate Hit(l: Level, key: Key, hash: Hasher)
    requires ValidLevel(l)
  {
    BitAt(l.bits, Place(l.seed, l.bitLen, key, hash))
  }

  /** The slot a level gives a key it holds. */
  function Ranked(l: Level, key: Key, hash: Hasher): nat
    requires ValidLevel(l)
  {
    l.rankBase + CountTo(l.bits, Place(l.seed, l.bitLen, key, hash))
  }

  /** The slot of a key: the first level that holds its position. */
  function Slot(levels: seq<Level>, key: Key, hash: Hasher, from: nat): Option<nat>
    requires ValidLevels(levels) && from <= |levels|
    decreases |levels| - from
  {
    if from == |levels| then None
    else if Hit(levels[from], key, hash) then Some(Ranked(levels[from], key, hash))
    else Slot(levels, key, hash, from + 1)
  }

  method BbHashSlot(levels: seq<Level>, key: Key, hash: Hasher) returns (slot: Option<nat>)
    requires ValidLevels(levels)
    ensures slot == Slot(levels, key, hash, 0)
  {
    hide CountTo, CountOnes, Pow2;
    for n := 0 to |levels|
      invariant Slot(levels, key, hash, 0) == Slot(levels, key, hash, n)
    {
      var l := levels[n];
      var bit := Place(l.seed, l.bitLen, key, hash);
      var word, low := bit / 64, bit % 64;
      if TestBit(l.bits[word], low) {
        RankOfPosition(l.wordRanks, l.bits, bit);
        var precedingWords := l.wordRanks[word];
        var precedingBits := CountOnes(l.bits[word] % Pow2(low));
        return Some(l.rankBase + precedingWords + precedingBits);
      }
    }
    return None;
  }

  // ----- One level -----

  /** How many of the first `n` remaining keys hash to position `b`. */
  function Hits(keys: seq<Key>, remaining: seq<nat>, n: nat, seed: nat, bitLen: nat, hash: Hasher, b: nat): nat
    requires n <= |remaining| && bitLen > 0 && forall i | 0 <= i < |remaining| :: remaining[i] < |keys|
  {
    if n == 0 then 0
    else Hits(keys, remaining, n - 1, seed, bitLen, hash, b) +
         if Place(seed, bitLen, keys[remaining[n - 1]], hash) == b then 1 else 0
  }

  predicate Indices(remaining: seq<nat>, n: nat) {
    && (forall i | 0 <= i < |remaining| :: remaining[i] < n)
    && (forall i, j | 0 <= i < j < |remaining| :: remaining[i] != remaining[j])
  }

  /** Position `p` set in a vector of words. */
  lemma SetPosition(bits: seq<Word>, p: nat)
    requires p < 64 * |bits|
    ensures SetBit(bits[p / 64], p % 64) <= 0xffff_ffff_ffff_ffff
    ensures var set' := bits[p / 64 := SetBit(bits[p / 64], p % 64)];
            forall q | 0 <= q < 64 * |bits| :: BitAt(set', q) <==> q == p || BitAt(bits, q)
  {
    hide Pow2, SetBit, TestBit;
    WordWidth();
    SetBitBound(bits[p / 64], p % 64, 64);
    var set' := bits[p / 64 := SetBit(bits[p / 64], p % 64)];
    forall q | 0 <= q < 64 * |bits| ensures BitAt(set', q) <==> q == p || BitAt(bits, q) {
      TestSetBit(bits[p / 64], p % 64, q % 64);
      assert q == p <==> q / 64 == p / 64 && q % 64 == p % 64;
    }
  }

  /** The bits of both vectors say whether a position was hit, and whether more than once. */
  ghost predicate Marked(occupied: seq<Word>, collisions: seq<Word>, keys: seq<Key>, remaining: seq<nat>, n: nat,
                         seed: nat, bitLen: nat, hash: Hasher)
    requires n <= |remaining| && bitLen > 0 && Indices(remaining, |keys|)
  {
    && bitLen == 64 * |occupied| == 64 * |collisions|
    && (forall b | 0 <= b < bitLen :: BitAt(occupied, b) <==> Hits(keys, remaining, n, seed, bitLen, hash, b) >= 1)
    && (forall b | 0 <= b < bitLen :: BitAt(collisions, b) <==> Hits(keys, remaining, n, seed, bitLen, hash, b) >= 2)
  }

  /** Marks every remaining key's position, in place. */
  method MarkPositions(keys: seq<Key>, remaining: seq<nat>, seed: Word, bitLen: nat, hash: Hasher,
                       occupied: array<Word>, collisions: array<Word>)
    requires Indices(remaining, |keys|) && bitLen > 0 && bitLen == 64 * occupied.Length == 64 * collisions.Length
    requires occupied != collisions
    requires forall w | 0 <= w < occupied.Length :: occupied[w] == 0 && collisions[w] == 0
    modifies occupied, collisions
    ensures Marked(occupied[..], collisions[..], keys, remaining, |remaining|, seed, bitLen, hash)
  {
    NothingMarked(occupied[..], bitLen);
    NothingMarked(collisions[..], bitLen);
    for n := 0 to |remaining|
      invariant Marked(occupied[..], collisions[..], keys, remaining, n, seed, bitLen, hash)
    {
      hide TestBit, SetBit;
      ghost var before, twice := occupied[..], collisions[..];
      var bit := Place(seed, bitLen, keys[remaining[n]], hash);
      var word, low := bit / 64, bit % 64;
      SetPosition(before, bit);
      SetPosition(twice, bit);
      if !TestBit(occupied[word], low) {
        occupied[word] := SetBit(occupied[word], low);
        assert occupied[..] == before[word := SetBit(before[word], low)];
      } else {
        collisions[word] := SetBit(collisions[word], low);
        assert collisions[..] == twice[word := SetBit(twice[word], low)];
      }
      assert BitAt(before, bit) <==> TestBit(before[word], low);
    }
  }

  lemma NothingMarked(bits: seq<Word>, bitLen: nat)
    requires bitLen == 64 * |bits| && forall w | 0 <= w < |bits| :: bits[w] == 0
    ensures forall b | 0 <= b < bitLen :: !BitAt(bits, b)
  {
    forall b | 0 <= b < bitLen ensures !BitAt(bits, b) { TestZero(b % 64); }
  }

  /** Clears every collided position, in place. */
  method ClearCollisions(occupied: array<Word>, collisions: array<Word>)
    requires occupied.Length == collisions.Length && occupied != collisions
    modifies occupied
    ensures forall b | 0 <= b < 64 * occupied.Length ::
              BitAt(occupied[..], b) <==> old(BitAt(occupied[..], b)) && !BitAt(collisions[..], b)
  {
    ghost var before := occupied[..];
    for w := 0 to occupied.Length
      invariant forall v | 0 <= v < w :: occupied[v] == AndNot(before[v], collisions[v])
      invariant forall v | w <= v < occupied.Length :: occupied[v] == before[v]
    {
      occupied[w] := AndNot(occupied[w], collisions[w]);
    }
    forall b | 0 <= b < 64 * occupied.Length
      ensures BitAt(occupied[..], b) <==> BitAt(before, b) && !BitAt(collisions[..], b)
    {
      TestAndNot(before[b / 64], collisions[b / 64], b % 64);
    }
  }

  /** The remaining keys a level does not hold. */
  function Unplaced(l: Level, keys: seq<Key>, remaining: seq<nat>, n: nat, hash: Hasher): seq<nat>
    requires ValidLevel(l) && n <= |remaining| && Indices(remaining, |keys|)
  {
    if n == 0 then []
    else
      var before := Unplaced(l, keys, remaining, n - 1, hash);
      if Hit(l, keys[remaining[n - 1]], hash) then before else before + [remaining[n - 1]]
  }

  /** A level holds exactly the positions that one remaining key hashes to. */
  ghost predicate Isolates(l: Level, keys: seq<Key>, remaining: seq<nat>, hash: Hasher)
    requires ValidLevel(l) && Indices(remaining, |keys|)
  {
    forall b | 0 <= b < l.bitLen ::
      BitAt(l.bits, b) <==> Hits(keys, remaining, |remaining|, l.seed, l.bitLen, hash, b) == 1
  }

  function RoundUp64(n: nat): nat {
    (n + 63) / 64 * 64
  }

  /** The number of positions a level uses. */
  function BitLen(remaining: nat): (n: nat)
    ensures n >= 64 && n % 64 == 0 && n >= 2 * remaining && n <= (if 4 * remaining > 64 then 4 * remaining else 64)
    ensures n == 64 || n < 2 * remaining + 64
  {
    var n := RoundUp64(remaining * BBHASH_GAMMA);
    if n < 64 then 64 else n
  }

  method BuildLevel(keys: seq<Key>, remaining: seq<nat>, seed: Word, rankBase: nat, hash: Hasher)
    returns (level: Level, next: seq<nat>, placed: nat)
    requires Indices(remaining, |keys|)
    ensures ValidLevel(level) && level.seed == seed && level.rankBase == rankBase && level.bitLen == BitLen(|remaining|)
    ensures Isolates(level, keys, remaining, hash)
    ensures placed == CountTo(level.bits, level.bitLen)
    ensures next == Unplaced(level, keys, remaining, |remaining|, hash)
  {
    hide CountTo, BitAt, Hits;
    var bitLen := BitLen(|remaining|);
    var occupied := new Word[bitLen / 64](_ => 0);
    var collisions := new Word[bitLen / 64](_ => 0);
    MarkPositions(keys, remaining, seed, bitLen, hash, occupied, collisions);
    ClearCollisions(occupied, collisions);
    var bits := occupied[..];
    placed := CountAll(bits);
    var ranks := BuildWordRanks(bits);
    level := Level(seed, bitLen, rankBase, bits, ranks);
    next := [];
    for n := 0 to |remaining|
      invariant next == Unplaced(level, keys, remaining, n, hash)
    {
      if !Hit(level, keys[remaining[n]], hash) { next := next + [remaining[n]]; }
    }
  }
}
