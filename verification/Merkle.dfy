/**
 The transaction merkle root and its mutation flag.  Hashing a pair is an
 injective symbol, and a transaction id is never the hash of a pair.
 */
module Merkle {
  import opened Basics

  datatype Hash = Leaf(txid: nat) | Pair(left: Hash, right: Hash)

  /** The next level: neighbours are paired, and a last odd node with itself. */
  function Parents(level: seq<Hash>): (parents: seq<Hash>)
    ensures |parents| == (|level| + 1) / 2
    ensures forall i | 0 <= i < |parents| ::
              parents[i] == Pair(level[2 * i], if 2 * i + 1 < |level| then level[2 * i + 1] else level[2 * i])
  {
    seq((|level| + 1) / 2, i requires 0 <= i < (|level| + 1) / 2 =>
      Pair(level[2 * i], if 2 * i + 1 < |level| then level[2 * i + 1] else level[2 * i]))
  }

  function Root(level: seq<Hash>): Hash
    requires level != []
    decreases |level|
  {
    if |level| == 1 then level[0] else Root(Parents(level))
  }

  predicate EqualHalves(level: seq<Hash>, i: nat) {
    2 * i + 1 < |level| && level[2 * i] == level[2 * i + 1]
  }

  /** Some full pair of this level has equal halves. */
  ghost predicate LevelMutated(level: seq<Hash>) {
    exists i :: EqualHalves(level, i)
  }

  /** Some full pair of this or a higher level has equal halves. */
  ghost predicate Mutated(level: seq<Hash>)
    requires level != []
    decreases |level|
  {
    |level| > 1 && (LevelMutated(level) || Mutated(Parents(level)))
  }

  function Leaves(txids: seq<nat>): (leaves: seq<Hash>)
    ensures |leaves| == |txids| && forall i | 0 <= i < |txids| :: leaves[i] == Leaf(txids[i])
  {
    seq(|txids|, i requires 0 <= i < |txids| => Leaf(txids[i]))
  }

  predicate Distinct(level: seq<Hash>) {
    forall i, j | 0 <= i < j < |level| :: level[i] != level[j]
  }

  lemma ParentsDistinct(level: seq<Hash>)
    requires Distinct(level)
    ensures Distinct(Parents(level))
  {
    forall i, j | 0 <= i < j < |Parents(level)| ensures Parents(level)[i] != Parents(level)[j] {
      assert level[2 * i] != level[2 * j];
    }
  }

  lemma {:induction false} DistinctIsClean(level: seq<Hash>)
    requires level != [] && Distinct(level)
    ensures !Mutated(level)
    decreases |level|
  {
    if |level| > 1 {
      ParentsDistinct(level);
      DistinctIsClean(Parents(level));
      forall i: nat ensures !EqualHalves(level, i) {
        if 2 * i + 1 < |level| { assert level[2 * i] != level[2 * i + 1]; }
      }
    }
  }

  /** An honest list is never reported: distinct transactions have no mutated pair at any level. */
  lemma HonestIsUnmutated(txids: seq<nat>)
    requires txids != [] && forall i, j | 0 <= i < j < |txids| :: txids[i] != txids[j]
    ensures !Mutated(Leaves(txids))
  {
    forall i, j | 0 <= i < j < |txids| ensures Leaves(txids)[i] != Leaves(txids)[j] {}
    DistinctIsClean(Leaves(txids));
  }

  /** Pairs one level. */
  method NextLevel(level: seq<Hash>) returns (parents: seq<Hash>, mutated: bool)
    ensures parents == Parents(level)
    ensures mutated <==> LevelMutated(level)
  {
    parents, mutated := [], false;
    var i: nat := 0;
    while 2 * i < |level|
      invariant 0 <= 2 * i <= |level| + 1 && |parents| == i
      invariant forall j | 0 <= j < i :: parents[j] == Parents(level)[j]
      invariant mutated <==> exists j :: 0 <= j < i && EqualHalves(level, j)
    {
      var left := level[2 * i];
      var right := if 2 * i + 1 < |level| then level[2 * i + 1] else left;
      if EqualHalves(level, i) { mutated := true; }
      parents := parents + [Pair(left, right)];
      i := i + 1;
    }
  }

  method TransactionMerkleRoot(txids: seq<nat>) returns (root: Option<Hash>, mutated: bool)
    ensures txids == [] ==> root == None && !mutated
    ensures txids != [] ==> root == Some(Root(Leaves(txids))) && mutated == Mutated(Leaves(txids))
  {
    var level := Leaves(txids);
    if level == [] { return None, false; }
    mutated := false;
    while |level| > 1
      invariant level != [] && Root(level) == Root(Leaves(txids))
      invariant Mutated(Leaves(txids)) <==> mutated || Mutated(level)
      decreases |level|
    {
      var parents, found := NextLevel(level);
      level, mutated := parents, mutated || found;
    }
    return Some(level[0]), mutated;
  }

  // ----- Heights -----

  function Height(h: Hash): nat {
    match h
    case Leaf(_) => 0
    case Pair(left, _) => 1 + Height(left)
  }

  predicate Uniform(level: seq<Hash>, k: nat) {
    forall i | 0 <= i < |level| :: Height(level[i]) == k
  }

  lemma ParentsUniform(level: seq<Hash>, k: nat)
    requires Uniform(level, k)
    ensures Uniform(Parents(level), k + 1)
  {
  }

  /** A root is above its leaves exactly when there is more than one of them. */
  lemma {:induction false} RootHeight(level: seq<Hash>, k: nat)
    requires level != [] && Uniform(level, k)
    ensures Height(Root(level)) >= k
    ensures Height(Root(level)) == k <==> |level| == 1
    decreases |level|
  {
    if |level| > 1 {
      ParentsUniform(level, k);
      RootHeight(Parents(level), k + 1);
    }
  }

  // ----- Ambiguity -----

  lemma ParentsInjective(a: seq<Hash>, b: seq<Hash>)
    requires |a| == |b| && Parents(a) == Parents(b)
    ensures a == b
  {
    forall i | 0 <= i < |a| ensures a[i] == b[i] {
      assert Parents(a)[i / 2] == Parents(b)[i / 2];
      assert i == 2 * (i / 2) || i == 2 * (i / 2) + 1;
    }
  }

  /** Among lists of one length the root determines the list. */
  lemma {:induction false} RootDeterminesList(a: seq<Hash>, b: seq<Hash>)
    requires |a| == |b| && a != [] && Root(a) == Root(b)
    ensures a == b
    decreases |a|
  {
    if |a| > 1 {
      RootDeterminesList(Parents(a), Parents(b));
      ParentsInjective(a, b);
    }
  }

  /** A list of even length with the parents of a shorter one ends in a pair of equal halves. */
  lemma PaddedIsMutated(a: seq<Hash>, b: seq<Hash>)
    requires |a| > |b| > 0 && Parents(a) == Parents(b)
    ensures LevelMutated(a)
  {
    var last := |Parents(a)| - 1;
    assert Parents(a)[last] == Parents(b)[last];
    assert EqualHalves(a, last);
  }

  /** Of two lists with one root, the longer is reported mutated. */
  lemma {:induction false} LongerIsMutated(a: seq<Hash>, b: seq<Hash>, k: nat)
    requires |a| > |b| > 0 && Uniform(a, k) && Uniform(b, k) && Root(a) == Root(b)
    ensures Mutated(a)
    decreases |a|
  {
    RootHeight(a, k);
    RootHeight(b, k);
    assert |b| > 1;
    ParentsUniform(a, k);
    ParentsUniform(b, k);
    if |Parents(a)| > |Parents(b)| {
      LongerIsMutated(Parents(a), Parents(b), k + 1);
    } else {
      RootDeterminesList(Parents(a), Parents(b));
      PaddedIsMutated(a, b);
    }
  }

  /**
   The commitment is unambiguous: lists of any lengths with the same root that
   are both reported unmutated are the same list.
   */
  lemma RootIsUnambiguous(a: seq<nat>, b: seq<nat>)
    requires a != [] && b != [] && Root(Leaves(a)) == Root(Leaves(b))
    requires !Mutated(Leaves(a)) && !Mutated(Leaves(b))
    ensures a == b
  {
    var x, y := Leaves(a), Leaves(b);
    if |a| == |b| {
      RootDeterminesList(x, y);
      forall i | 0 <= i < |a| ensures a[i] == b[i] { assert x[i] == y[i]; }
    } else if |a| > |b| {
      LongerIsMutated(x, y, 0);
    } else {
      LongerIsMutated(y, x, 0);
    }
  }

  /** The ambiguity is real: repeating the last entry of a longer odd list keeps the root, and is reported. */
  lemma RepeatedTailKeepsRoot(a: seq<nat>)
    requires |a| > 1 && |a| % 2 == 1
    ensures var b := a + [a[|a| - 1]];
            Root(Leaves(b)) == Root(Leaves(a)) && Mutated(Leaves(b))
  {
    var b := a + [a[|a| - 1]];
    var x, y := Leaves(a), Leaves(b);
    assert Parents(x) == Parents(y);
    LongerIsMutated(y, x, 0);
  }
}
