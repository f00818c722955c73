/**
 Building all levels, and the proof that the slots are a bijection from the
 keys onto 0..n-1 whenever the builder finishes.
 */
module BbHashBuild {
  import opened Basics
  import opened Arith
  import opened BitRank
  import opened BbHash

  // ----- What one level does -----

  lemma {:induction false} HitsOf(keys: seq<Key>, remaining: seq<nat>, n: nat, seed: nat, bitLen: nat, hash: Hasher,
                                  b: nat, j: nat)
    requires n <= |remaining| && bitLen > 0 && Indices(remaining, |keys|) && j < n
    requires Place(seed, bitLen, keys[remaining[j]], hash) == b
    ensures Hits(keys, remaining, n, seed, bitLen, hash, b) >= 1
  {
    if j < n - 1 { HitsOf(keys, remaining, n - 1, seed, bitLen, hash, b, j); }
  }

  lemma {:induction false} TwoHits(keys: seq<Key>, remaining: seq<nat>, n: nat, seed: nat, bitLen: nat, hash: Hasher,
                                   b: nat, i: nat, j: nat)
    requires n <= |remaining| && bitLen > 0 && Indices(remaining, |keys|) && i < j < n
    requires Place(seed, bitLen, keys[remaining[i]], hash) == b && Place(seed, bitLen, keys[remaining[j]], hash) == b
    ensures Hits(keys, remaining, n, seed, bitLen, hash, b) >= 2
  {
    if j < n - 1 {
      TwoHits(keys, remaining, n - 1, seed, bitLen, hash, b, i, j);
    } else {
      HitsOf(keys, remaining, n - 1, seed, bitLen, hash, b, i);
    }
  }

  lemma {:induction false} SomeHit(keys: seq<Key>, remaining: seq<nat>, n: nat, seed: nat, bitLen: nat, hash: Hasher,
                                   b: nat) returns (j: nat)
    requires n <= |remaining| && bitLen > 0 && Indices(remaining, |keys|)
    requires Hits(keys, remaining, n, seed, bitLen, hash, b) >= 1
    ensures j < n && Place(seed, bitLen, keys[remaining[j]], hash) == b
  {
    if Place(seed, bitLen, keys[remaining[n - 1]], hash) == b {
      j := n - 1;
    } else {
      j := SomeHit(keys, remaining, n - 1, seed, bitLen, hash, b);
    }
  }

  /** Keys a level holds have positions of their own. */
  lemma HeldAlone(l: Level, keys: seq<Key>, remaining: seq<nat>, hash: Hasher, i: nat, j: nat)
    requires ValidLevel(l) && Indices(remaining, |keys|) && Isolates(l, keys, remaining, hash)
    requires i in remaining && j in remaining && i != j && Hit(l, keys[i], hash)
    ensures Place(l.seed, l.bitLen, keys[i], hash) != Place(l.seed, l.bitLen, keys[j], hash)
  {
    hide Hits, BitAt;
    var b := Place(l.seed, l.bitLen, keys[i], hash);
    if b == Place(l.seed, l.bitLen, keys[j], hash) {
      var x :| 0 <= x < |remaining| && remaining[x] == i;
      var y :| 0 <= y < |remaining| && remaining[y] == j;
      if x < y {
        TwoHits(keys, remaining, |remaining|, l.seed, l.bitLen, hash, b, x, y);
      } else {
        TwoHits(keys, remaining, |remaining|, l.seed, l.bitLen, hash, b, y, x);
      }
    }
  }

  lemma {:induction false} UnplacedAre(l: Level, keys: seq<Key>, remaining: seq<nat>, n: nat, hash: Hasher)
    requires ValidLevel(l) && n <= |remaining| && Indices(remaining, |keys|)
    ensures var next := Unplaced(l, keys, remaining, n, hash);
            && |next| <= n && Indices(next, |keys|)
            && (forall i :: i in next <==> i in remaining[..n] && !Hit(l, keys[i], hash))
  {
    if n > 0 {
      hide Hit;
      UnplacedAre(l, keys, remaining, n - 1, hash);
      assert remaining[..n] == remaining[..n - 1] + [remaining[n - 1]];
      assert remaining[n - 1] !in remaining[..n - 1];
    }
  }

  // ----- All levels -----

  function SlotOf(levels: seq<Level>, keys: seq<Key>, i: nat, hash: Hasher): Option<nat>
    requires ValidLevels(levels) && i < |keys|
  {
    Slot(levels, keys[i], hash, 0)
  }

  lemma {:induction false} SlotAppend(levels: seq<Level>, l: Level, key: Key, hash: Hasher, from: nat)
    requires ValidLevels(levels) && ValidLevel(l) && from <= |levels|
    ensures ValidLevels(levels + [l])
    ensures Slot(levels + [l], key, hash, from) ==
            if Slot(levels, key, hash, from).Some? then Slot(levels, key, hash, from)
            else if Hit(l, key, hash) then Some(Ranked(l, key, hash)) else None
    decreases |levels| - from
  {
    hide Hit, Ranked, ValidLevel;
    assert ValidLevels(levels + [l]);
    if from < |levels| { SlotAppend(levels, l, key, hash, from + 1); }
  }

  /** Indices outside `remaining` have distinct slots filling 0..rank-1; the others have none. */
  ghost predicate Progress(levels: seq<Level>, keys: seq<Key>, remaining: seq<nat>, rank: nat, hash: Hasher) {
    && ValidLevels(levels) && Indices(remaining, |keys|)
    && (forall i | 0 <= i < |keys| :: Settled(levels, keys, remaining, rank, i, hash))
    && (forall i, j | 0 <= i < j < |keys| :: Apart(levels, keys, i, j, hash))
    && (forall s | 0 <= s < rank :: Filled(levels, keys, s, hash))
  }

  ghost predicate Settled(levels: seq<Level>, keys: seq<Key>, remaining: seq<nat>, rank: nat, i: nat, hash: Hasher)
    requires ValidLevels(levels) && i < |keys|
  {
    match SlotOf(levels, keys, i, hash)
    case None => i in remaining
    case Some(s) => i !in remaining && s < rank
  }

  ghost predicate Apart(levels: seq<Level>, keys: seq<Key>, i: nat, j: nat, hash: Hasher)
    requires ValidLevels(levels) && i < |keys| && j < |keys|
  {
    SlotOf(levels, keys, i, hash).None? || SlotOf(levels, keys, i, hash) != SlotOf(levels, keys, j, hash)
  }

  ghost predicate Filled(levels: seq<Level>, keys: seq<Key>, s: nat, hash: Hasher)
    requires ValidLevels(levels)
  {
    exists i :: 0 <= i < |keys| && SlotOf(levels, keys, i, hash) == Some(s)
  }

  lemma NothingBuilt(keys: seq<Key>, remaining: seq<nat>, hash: Hasher)
    requires Indices(remaining, |keys|) && forall i | 0 <= i < |keys| :: i in remaining
    ensures Progress([], keys, remaining, 0, hash)
  {
  }

  /** Where a key's slot is after one more level. */
  lemma SlotAfter(levels: seq<Level>, l: Level, keys: seq<Key>, remaining: seq<nat>, rank: nat, i: nat, hash: Hasher)
    requires Progress(levels, keys, remaining, rank, hash) && ValidLevel(l) && l.rankBase == rank && i < |keys|
    ensures ValidLevels(levels + [l])
    ensures SlotOf(levels + [l], keys, i, hash) ==
            if i !in remaining then SlotOf(levels, keys, i, hash)
            else if Hit(l, keys[i], hash) then Some(Ranked(l, keys[i], hash)) else None
    ensures i !in remaining ==> SlotOf(levels, keys, i, hash).Some? && SlotOf(levels, keys, i, hash).value < rank
    ensures Ranked(l, keys[i], hash) >= rank
    ensures Hit(l, keys[i], hash) ==> Ranked(l, keys[i], hash) < rank + CountTo(l.bits, l.bitLen)
  {
    hide Slot, CountTo, ValidLevels, ValidLevel, Hit, Ranked;
    assert Settled(levels, keys, remaining, rank, i, hash);
    SlotAppend(levels, l, keys[i], hash, 0);
    RankedInRange(l, keys[i], hash);
  }

  lemma RankedInRange(l: Level, key: Key, hash: Hasher)
    requires ValidLevel(l)
    ensures l.rankBase <= Ranked(l, key, hash)
    ensures Hit(l, key, hash) ==> Ranked(l, key, hash) < l.rankBase + CountTo(l.bits, l.bitLen)
  {
    hide CountTo, BitAt;
    if Hit(l, key, hash) { CountStrict(l.bits, Place(l.seed, l.bitLen, key, hash), l.bitLen); }
  }

  lemma StillApart(levels: seq<Level>, l: Level, keys: seq<Key>, remaining: seq<nat>, rank: nat, i: nat, j: nat,
                   hash: Hasher)
    requires Progress(levels, keys, remaining, rank, hash) && ValidLevel(l) && l.rankBase == rank
    requires Isolates(l, keys, remaining, hash) && i < j < |keys|
    ensures ValidLevels(levels + [l]) && Apart(levels + [l], keys, i, j, hash)
  {
    hide Slot, SlotOf, CountTo, Isolates, ValidLevel, ValidLevels, Indices;
    SlotAfter(levels, l, keys, remaining, rank, i, hash);
    SlotAfter(levels, l, keys, remaining, rank, j, hash);
    assert Apart(levels, keys, i, j, hash);
    if i in remaining && j in remaining && Hit(l, keys[i], hash) && Hit(l, keys[j], hash) {
      HeldAlone(l, keys, remaining, hash, i, j);
      DifferentRanks(l, keys[i], keys[j], hash);
    }
  }

  lemma DifferentRanks(l: Level, a: Key, b: Key, hash: Hasher)
    requires ValidLevel(l) && Hit(l, a, hash) && Hit(l, b, hash)
    requires Place(l.seed, l.bitLen, a, hash) != Place(l.seed, l.bitLen, b, hash)
    ensures Ranked(l, a, hash) != Ranked(l, b, hash)
  {
    hide CountTo, BitAt;
    var p, q := Place(l.seed, l.bitLen, a, hash), Place(l.seed, l.bitLen, b, hash);
    if p < q { CountStrict(l.bits, p, q); } else { CountStrict(l.bits, q, p); }
  }

  /** Every new rank is some key's. */
  lemma NewlyFilled(levels: seq<Level>, l: Level, keys: seq<Key>, remaining: seq<nat>, rank: nat, s: nat, hash: Hasher)
    requires Progress(levels, keys, remaining, rank, hash) && ValidLevel(l) && l.rankBase == rank
    requires Isolates(l, keys, remaining, hash) && rank <= s < rank + CountTo(l.bits, l.bitLen)
    ensures ValidLevels(levels + [l]) && Filled(levels + [l], keys, s, hash)
  {
    hide Slot, SlotOf, CountTo, Hits, ValidLevels;
    var p := Select(l.bits, l.bitLen, s - rank);
    var j := SomeHit(keys, remaining, |remaining|, l.seed, l.bitLen, hash, p);
    var i := remaining[j];
    SlotAfter(levels, l, keys, remaining, rank, i, hash);
    assert SlotOf(levels + [l], keys, i, hash) == Some(s);
  }

  lemma StillFilled(levels: seq<Level>, l: Level, keys: seq<Key>, remaining: seq<nat>, rank: nat, s: nat, hash: Hasher)
    requires Progress(levels, keys, remaining, rank, hash) && ValidLevel(l) && l.rankBase == rank && s < rank
    ensures ValidLevels(levels + [l]) && Filled(levels + [l], keys, s, hash)
  {
    hide Slot, SlotOf, CountTo, ValidLevels;
    assert Filled(levels, keys, s, hash);
    var i :| 0 <= i < |keys| && SlotOf(levels, keys, i, hash) == Some(s);
    assert Settled(levels, keys, remaining, rank, i, hash);
    SlotAfter(levels, l, keys, remaining, rank, i, hash);
  }

  /** One more level keeps the slots and adds those of the keys it holds. */
  lemma LevelAdvances(levels: seq<Level>, l: Level, keys: seq<Key>, remaining: seq<nat>, rank: nat, hash: Hasher)
    requires Progress(levels, keys, remaining, rank, hash) && ValidLevel(l) && l.rankBase == rank
    requires Isolates(l, keys, remaining, hash)
    ensures Progress(levels + [l], keys, Unplaced(l, keys, remaining, |remaining|, hash),
                     rank + CountTo(l.bits, l.bitLen), hash)
  {
    hide Slot, SlotOf, CountTo, Isolates, ValidLevels, Unplaced, Apart, Filled, Hit, Ranked;
    var next := Unplaced(l, keys, remaining, |remaining|, hash);
    var total := rank + CountTo(l.bits, l.bitLen);
    UnplacedAre(l, keys, remaining, |remaining|, hash);
    assert remaining[..|remaining|] == remaining;
    AppendValid(levels, l);
    forall i | 0 <= i < |keys| ensures Settled(levels + [l], keys, next, total, i, hash) {
      SlotAfter(levels, l, keys, remaining, rank, i, hash);
    }
    forall i, j | 0 <= i < j < |keys| ensures Apart(levels + [l], keys, i, j, hash) {
      StillApart(levels, l, keys, remaining, rank, i, j, hash);
    }
    forall s | 0 <= s < total ensures Filled(levels + [l], keys, s, hash) {
      if s < rank {
        StillFilled(levels, l, keys, remaining, rank, s, hash);
      } else {
        NewlyFilled(levels, l, keys, remaining, rank, s, hash);
      }
    }
  }

  lemma AppendValid(levels: seq<Level>, l: Level)
    requires ValidLevels(levels) && ValidLevel(l)
    ensures ValidLevels(levels + [l])
  {
  }

  // ----- The builder -----

  function SeedOf(level: nat): Word {
    SEED * (level + 1) % 0x1_0000_0000_0000_0000
  }

  /** Each level's seed is the one before plus the same 64-bit constant, wrapping. */
  lemma SeedsAre(level: nat)
    ensures SeedOf(0) == 0x9e37_79b9_7f4a_7c15
    ensures SeedOf(level + 1) == (SeedOf(level) + 0x9e37_79b9_7f4a_7c15) % 0x1_0000_0000_0000_0000
  {
    var m := 0x1_0000_0000_0000_0000;
    var n := SEED * (level + 1);
    assert SEED * (level + 2) == n + SEED;
    var q, r := n / m, (n % m + SEED) / m;
    DivModUnique(n + SEED, m, q + r, (n % m + SEED) % m);
  }

  /** The keys left after the first `n` levels. */
  function Rest(levels: seq<Level>, keys: seq<Key>, n: nat, hash: Hasher): (rest: seq<nat>)
    requires ValidLevels(levels) && n <= |levels|
    ensures Indices(rest, |keys|)
  {
    if n == 0 then seq(|keys|, i => i)
    else
      var before := Rest(levels, keys, n - 1, hash);
      UnplacedAre(levels[n - 1], keys, before, |before|, hash);
      Unplaced(levels[n - 1], keys, before, |before|, hash)
  }

  /** Each level has its own seed and length, and holds exactly the positions hit by one key left to it. */
  ghost predicate Follows(levels: seq<Level>, keys: seq<Key>, hash: Hasher) {
    && ValidLevels(levels)
    && forall l | 0 <= l < |levels| :: LevelFollows(levels[l], l, keys, Rest(levels, keys, l, hash), hash)
  }

  ghost predicate LevelFollows(level: Level, l: nat, keys: seq<Key>, rest: seq<nat>, hash: Hasher)
    requires ValidLevel(level) && Indices(rest, |keys|)
  {
    level.seed == SeedOf(l) && level.bitLen == BitLen(|rest|) && Isolates(level, keys, rest, hash)
  }

  lemma {:induction false} RestPrefix(levels: seq<Level>, l: Level, keys: seq<Key>, n: nat, hash: Hasher)
    requires ValidLevels(levels) && ValidLevel(l) && n <= |levels|
    ensures ValidLevels(levels + [l]) && Rest(levels + [l], keys, n, hash) == Rest(levels, keys, n, hash)
  {
    hide Unplaced;
    AppendValid(levels, l);
    if n > 0 { RestPrefix(levels, l, keys, n - 1, hash); }
  }

  lemma FollowsOn(levels: seq<Level>, l: Level, keys: seq<Key>, hash: Hasher)
    requires Follows(levels, keys, hash) && ValidLevel(l)
    requires LevelFollows(l, |levels|, keys, Rest(levels, keys, |levels|, hash), hash)
    ensures Follows(levels + [l], keys, hash)
    ensures var rest := Rest(levels, keys, |levels|, hash);
            Rest(levels + [l], keys, |levels| + 1, hash) == Unplaced(l, keys, rest, |rest|, hash)
  {
    hide LevelFollows, ValidLevel, Unplaced;
    RestPrefix(levels, l, keys, |levels|, hash);
    forall k | 0 <= k < |levels| + 1
      ensures LevelFollows((levels + [l])[k], k, keys, Rest(levels + [l], keys, k, hash), hash)
    {
      RestPrefix(levels, l, keys, k, hash);
      if k < |levels| { assert LevelFollows(levels[k], k, keys, Rest(levels, keys, k, hash), hash); }
    }
  }

  /** Why building stops with keys left over. */
  ghost predicate Refused(error: BbHashError, levels: seq<Level>, keys: seq<Key>, hash: Hasher) {
    && Follows(levels, keys, hash)
    && var rest := Rest(levels, keys, |levels|, hash);
       && rest != []
       && match error
          case LevelLimit => |levels| == MAX_INDEX_LEVELS
          case SizeOverflow => BitLen(|rest|) > U64_MAX
          case Stalled =>
            forall b | 0 <= b < BitLen(|rest|) ::
              Hits(keys, rest, |rest|, SeedOf(|levels|), BitLen(|rest|), hash, b) != 1
  }

  /** Builds levels until every key is placed, within the level limit. */
  method BuildBbHash(keys: seq<Key>, hash: Hasher) returns (r: Result<seq<Level>, BbHashError>)
    ensures r.Ok? ==> Perfect(r.value, keys, hash) && Follows(r.value, keys, hash)
    ensures r.Ok? ==> Shaped(r.value, |keys|) && RankTotal(r.value) == |keys| && |r.value| <= MAX_INDEX_LEVELS
    ensures r.Ok? && keys != [] ==> r.value != []
    ensures r.Err? ==> exists levels :: Refused(r.error, levels, keys, hash)
  {
    hide Progress, CountTo, ValidLevel, Isolates, Shaped, Follows, Rest, Unplaced, Hits, BitAt, SeedOf;
    var remaining: seq<nat> := seq(|keys|, i => i);
    var levels: seq<Level> := [];
    var rank: nat := 0;
    StartProgress(keys, remaining, hash);
    NoShape(|keys|);
    NothingFollows(keys, hash);
    while remaining != []
      invariant Progress(levels, keys, remaining, rank, hash) && |remaining| <= |keys|
      invariant Shaped(levels, |keys|) && |levels| <= MAX_INDEX_LEVELS && rank == RankTotal(levels)
      invariant levels == [] ==> |remaining| == |keys|
      invariant ValidLevels(levels) && Follows(levels, keys, hash) && remaining == Rest(levels, keys, |levels|, hash)
      decreases MAX_INDEX_LEVELS - |levels|
    {
      if |levels| >= MAX_INDEX_LEVELS {
        assert Refused(LevelLimit, levels, keys, hash);
        return Err(LevelLimit);
      }
      if BitLen(|remaining|) > U64_MAX {
        assert Refused(SizeOverflow, levels, keys, hash);
        return Err(SizeOverflow);
      }
      var level, next, placed := BuildLevel(keys, remaining, SeedOf(|levels|), rank, hash);
      if placed == 0 {
        NothingHit(level, keys, remaining, hash);
        assert Refused(Stalled, levels, keys, hash);
        return Err(Stalled);
      }
      LevelAdvances(levels, level, keys, remaining, rank, hash);
      UnplacedAre(level, keys, remaining, |remaining|, hash);
      ShapeGrows(levels, level, |remaining|, |keys|);
      FollowsOn(levels, level, keys, hash);
      AppendValid(levels, level);
      levels, remaining, rank := levels + [level], next, rank + placed;
    }
    AllPlaced(levels, keys, rank, hash);
    return Ok(levels);
  }

  lemma NothingFollows(keys: seq<Key>, hash: Hasher)
    ensures Follows([], keys, hash) && Rest([], keys, 0, hash) == seq(|keys|, i => i)
  {
  }

  lemma NothingHit(l: Level, keys: seq<Key>, remaining: seq<nat>, hash: Hasher)
    requires ValidLevel(l) && Indices(remaining, |keys|) && Isolates(l, keys, remaining, hash)
             && CountTo(l.bits, l.bitLen) == 0
    ensures forall b | 0 <= b < l.bitLen :: Hits(keys, remaining, |remaining|, l.seed, l.bitLen, hash, b) != 1
  {
    hide CountTo, Hits, BitAt;
    forall b | 0 <= b < l.bitLen ensures !BitAt(l.bits, b) {
      if BitAt(l.bits, b) { CountStrict(l.bits, b, l.bitLen); }
    }
  }

  lemma StartProgress(keys: seq<Key>, remaining: seq<nat>, hash: Hasher)
    requires |remaining| == |keys| && forall i | 0 <= i < |keys| :: remaining[i] == i
    ensures Progress([], keys, remaining, 0, hash)
  {
    forall i | 0 <= i < |keys| ensures i in remaining { assert remaining[i] == i; }
    NothingBuilt(keys, remaining, hash);
  }

  /** The slots are a bijection from the keys onto 0..n-1. */
  ghost predicate Perfect(levels: seq<Level>, keys: seq<Key>, hash: Hasher) {
    && ValidLevels(levels)
    && (forall i | 0 <= i < |keys| ::
          SlotOf(levels, keys, i, hash).Some? && SlotOf(levels, keys, i, hash).value < |keys|)
    && (forall i, j | 0 <= i < j < |keys| :: SlotOf(levels, keys, i, hash) != SlotOf(levels, keys, j, hash))
    && (forall s | 0 <= s < |keys| :: Filled(levels, keys, s, hash))
  }

  /** With no key left, the ranks used are exactly as many as the keys. */
  lemma AllPlaced(levels: seq<Level>, keys: seq<Key>, rank: nat, hash: Hasher)
    requires Progress(levels, keys, [], rank, hash)
    ensures rank == |keys| && Perfect(levels, keys, hash)
  {
    hide SlotOf, ValidLevels;
    forall i | 0 <= i < |keys|
      ensures SlotOf(levels, keys, i, hash).Some? && SlotOf(levels, keys, i, hash).value < rank
    {
      assert Settled(levels, keys, [], rank, i, hash);
    }
    var slots := seq(|keys|, i requires 0 <= i < |keys| => SlotOf(levels, keys, i, hash).value);
    forall i, j | 0 <= i < j < |keys| ensures slots[i] != slots[j] {
      assert Apart(levels, keys, i, j, hash);
    }
    forall s: nat | s < rank ensures s in slots {
      assert Filled(levels, keys, s, hash);
      var i :| 0 <= i < |keys| && SlotOf(levels, keys, i, hash) == Some(s);
      assert slots[i] == s;
    }
    Pigeonhole(slots, rank);
    forall i, j | 0 <= i < j < |keys| ensures SlotOf(levels, keys, i, hash) != SlotOf(levels, keys, j, hash) {
      assert slots[i] != slots[j];
    }
  }

  /** Distinct numbers that are exactly those below `n` are `n` many. */
  lemma {:induction false} Pigeonhole(slots: seq<nat>, n: nat)
    requires forall i, j | 0 <= i < j < |slots| :: slots[i] != slots[j]
    requires forall i | 0 <= i < |slots| :: slots[i] < n
    requires forall s: nat | s < n :: s in slots
    ensures |slots| == n
    decreases n
  {
    if n > 0 {
      assert n - 1 in slots;
      var k :| 0 <= k < |slots| && slots[k] == n - 1;
      var rest := slots[..k] + slots[k + 1..];
      forall s: nat | s < n - 1 ensures s in rest {
        assert s in slots;
        var i :| 0 <= i < |slots| && slots[i] == s;
        assert if i < k then rest[i] == s else rest[i - 1] == s;
      }
      Pigeonhole(rest, n - 1);
    }
  }

  // ----- The shape a sidecar reader expects -----

  function RankTotal(levels: seq<Level>): nat {
    if levels == [] then 0
    else
      var last := levels[|levels| - 1];
      RankTotal(levels[..|levels| - 1]) + if last.bitLen <= 64 * |last.bits| then CountTo(last.bits, last.bitLen) else 0
  }

  /** Levels of legal lengths whose rank bases add up. */
  ghost predicate Shaped(levels: seq<Level>, n: nat) {
    forall l | 0 <= l < |levels| ::
      && ValidLevel(levels[l]) && levels[l].bitLen <= U64_MAX
      && levels[l].bitLen <= (if 4 * n > 64 then 4 * n else 64)
      && levels[l].rankBase == RankTotal(levels[..l])
  }

  lemma NoShape(n: nat)
    ensures Shaped([], n) && RankTotal([]) == 0
  {
  }

  lemma ShapeGrows(levels: seq<Level>, l: Level, remaining: nat, n: nat)
    requires Shaped(levels, n) && ValidLevel(l) && remaining <= n && l.bitLen == BitLen(remaining) <= U64_MAX
    requires l.rankBase == RankTotal(levels)
    ensures Shaped(levels + [l], n) && RankTotal(levels + [l]) == RankTotal(levels) + CountTo(l.bits, l.bitLen)
  {
    hide CountTo;
    var all := levels + [l];
    assert all[..|levels|] == levels;
    forall k | 0 <= k < |all| ensures
      && ValidLevel(all[k]) && all[k].bitLen <= U64_MAX
      && all[k].bitLen <= (if 4 * n > 64 then 4 * n else 64)
      && all[k].rankBase == RankTotal(all[..k])
    {
      if k < |levels| { assert all[..k] == levels[..k]; }
    }
  }

  lemma {:induction false} RankTotalGrows(levels: seq<Level>, n: nat)
    requires n <= |levels|
    ensures RankTotal(levels[..n]) <= RankTotal(levels)
    decreases |levels|
  {
    hide CountTo;
    if n < |levels| {
      RankTotalGrows(levels[..|levels| - 1], n);
      assert levels[..|levels| - 1][..n] == levels[..n];
    } else {
      assert levels[..n] == levels;
    }
  }

  /** Any key that lands anywhere, member or not, lands below the total rank. */
  lemma {:induction false} SlotInRange(levels: seq<Level>, n: nat, key: Key, hash: Hasher, from: nat)
    requires Shaped(levels, n) && ValidLevels(levels) && from <= |levels|
    ensures Slot(levels, key, hash, from).Some? ==> Slot(levels, key, hash, from).value < RankTotal(levels)
    decreases |levels| - from
  {
    hide CountTo, Hit, Ranked, ValidLevels;
    if from < |levels| {
      var l := levels[from];
      RankedInRange(l, key, hash);
      assert levels[..from + 1][..from] == levels[..from];
      RankTotalGrows(levels, from + 1);
      SlotInRange(levels, n, key, hash, from + 1);
    }
  }
}
