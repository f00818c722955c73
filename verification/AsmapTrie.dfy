/**
 The prefix trie behind an asmap table: what a table answers, how entries are
 inserted, and the simplification that leaves no all-unknown branch.
 */
module AsmapTrie {
  import opened AsmapCheck

  datatype Node = Leaf(asn: nat) | Branch(zero: Node, one: Node)

  /** The first `prefixLen` of `prefixBits` map to `asn`; ASN 0 means unknown. */
  datatype Entry = Entry(prefixBits: seq<bool>, prefixLen: nat, asn: nat)

  predicate ValidEntry(e: Entry) {
    |e.prefixBits| == ADDRESS_BITS && e.prefixLen <= ADDRESS_BITS
  }

  predicate ValidTable(entries: seq<Entry>) {
    forall i | 0 <= i < |entries| :: ValidEntry(entries[i])
  }

  predicate Covers(e: Entry, address: seq<bool>)
    requires ValidEntry(e) && |address| == ADDRESS_BITS
  {
    address[..e.prefixLen] == e.prefixBits[..e.prefixLen]
  }

  /** What a table means: the last listed entry that covers the address, or 0. */
  function TableAsn(entries: seq<Entry>, address: seq<bool>): nat
    requires ValidTable(entries) && |address| == ADDRESS_BITS
  {
    if entries == [] then 0
    else
      var last := entries[|entries| - 1];
      if Covers(last, address) then last.asn else TableAsn(entries[..|entries| - 1], address)
  }

  function Depth(n: Node): nat {
    match n
    case Leaf(_) => 0
    case Branch(zero, one) => 1 + if Depth(zero) >= Depth(one) then Depth(zero) else Depth(one)
  }

  function Lookup(n: Node, address: seq<bool>): nat
    requires Depth(n) <= |address|
  {
    match n
    case Leaf(asn) => asn
    case Branch(zero, one) => Lookup(if address[0] then one else zero, address[1..])
  }

  /** Replaces the subtree at the prefix, splitting leaves on the way down. */
  function Insert(n: Node, prefix: seq<bool>, asn: nat): (r: Node)
    ensures Depth(r) <= if Depth(n) >= |prefix| then Depth(n) else |prefix|
    decreases |prefix|
  {
    if prefix == [] then Leaf(asn)
    else
      var zero := if n.Leaf? then n else n.zero;
      var one := if n.Leaf? then n else n.one;
      if prefix[0] then Branch(zero, Insert(one, prefix[1..], asn))
      else Branch(Insert(zero, prefix[1..], asn), one)
  }

  /** Inserting changes the answer exactly below the prefix. */
  lemma {:induction false} InsertLookup(n: Node, prefix: seq<bool>, asn: nat, address: seq<bool>)
    requires Depth(n) <= |address| && |prefix| <= |address|
    ensures Lookup(Insert(n, prefix, asn), address) ==
            if prefix <= address then asn else Lookup(n, address)
    decreases |prefix|
  {
    if prefix != [] {
      var child := if n.Leaf? then n else if prefix[0] then n.one else n.zero;
      InsertLookup(child, prefix[1..], asn, address[1..]);
      assert prefix <= address <==> prefix[0] == address[0] && prefix[1..] <= address[1..] by {
        if prefix[0] == address[0] && prefix[1..] <= address[1..] {
          assert prefix == [prefix[0]] + prefix[1..];
          assert address == [address[0]] + address[1..];
        }
      }
    }
  }

  /** The trie of a table, one insertion per entry in listed order. */
  function Build(entries: seq<Entry>): (n: Node)
    requires ValidTable(entries)
    ensures Depth(n) <= ADDRESS_BITS
  {
    if entries == [] then Leaf(0)
    else
      var last := entries[|entries| - 1];
      Insert(Build(entries[..|entries| - 1]), last.prefixBits[..last.prefixLen], last.asn)
  }

  lemma {:induction false} BuildAnswersTable(entries: seq<Entry>, address: seq<bool>)
    requires ValidTable(entries) && |address| == ADDRESS_BITS
    ensures Lookup(Build(entries), address) == TableAsn(entries, address)
  {
    if entries != [] {
      var last := entries[|entries| - 1];
      var prefix := last.prefixBits[..last.prefixLen];
      var earlier := entries[..|entries| - 1];
      BuildAnswersTable(earlier, address);
      InsertLookup(Build(earlier), prefix, last.asn, address);
      assert prefix <= address <==> address[..last.prefixLen] == prefix;
    }
  }

  /** Merges sibling leaves that agree, bottom up. */
  function Simplify(n: Node): (r: Node)
    ensures Depth(r) <= Depth(n)
  {
    match n
    case Leaf(_) => n
    case Branch(zero, one) =>
      var z, o := Simplify(zero), Simplify(one);
      if z.Leaf? && o.Leaf? && z.asn == o.asn then Leaf(z.asn) else Branch(z, o)
  }

  predicate Simplified(n: Node) {
    n.Branch? ==> Simplified(n.zero) && Simplified(n.one) && !(n.zero.Leaf? && n.one == n.zero)
  }

  lemma {:induction false} SimplifyCorrect(n: Node)
    ensures Simplified(Simplify(n))
    ensures forall address: seq<bool> | Depth(n) <= |address| :: Lookup(Simplify(n), address) == Lookup(n, address)
  {
    if n.Branch? {
      SimplifyCorrect(n.zero);
      SimplifyCorrect(n.one);
      forall address: seq<bool> | Depth(n) <= |address|
        ensures Lookup(Simplify(n), address) == Lookup(n, address)
      {
        var child := if address[0] then n.one else n.zero;
        assert Lookup(Simplify(child), address[1..]) == Lookup(child, address[1..]);
      }
    }
  }

  predicate Unknown(n: Node) {
    n == Leaf(0)
  }

  /** Every leaf of a trie answers for some address. */
  lemma {:induction false} LeafWitness(n: Node, asn: nat, size: nat) returns (address: seq<bool>)
    requires HasLeaf(n, asn) && Depth(n) <= size
    ensures |address| == size && Lookup(n, address) == asn
  {
    match n {
      case Leaf(_) => address := seq(size, _ => false);
      case Branch(zero, one) =>
        var below := LeafWitness(if HasLeaf(zero, asn) then zero else one, asn, size - 1);
        address := [!HasLeaf(zero, asn)] + below;
        assert address[1..] == below;
    }
  }

  predicate HasLeaf(n: Node, asn: nat) {
    match n
    case Leaf(a) => a == asn
    case Branch(zero, one) => HasLeaf(zero, asn) || HasLeaf(one, asn)
  }

  /** A simplified trie that knows nothing has collapsed to the unknown leaf. */
  lemma {:induction false} KnownLeafSurvives(n: Node)
    requires Simplified(n) && !Unknown(n)
    ensures exists asn :: asn != 0 && HasLeaf(n, asn)
  {
    match n {
      case Leaf(a) => assert HasLeaf(n, a);
      case Branch(zero, one) =>
        if Unknown(zero) {
          KnownLeafSurvives(one);
        } else {
          KnownLeafSurvives(zero);
        }
        var asn :| asn != 0 && (HasLeaf(zero, asn) || HasLeaf(one, asn));
        assert HasLeaf(n, asn);
    }
  }
}
