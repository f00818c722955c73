/**
 An optional index as a store: batches connect atomically, the tip disconnects
 by its undo row, undo rows are pruned; and what holds after any run of these.
 */
module AuxRuns {
  import opened Basics
  import opened Coins
  import opened AuxIndex

  /** Record table, undo rows by height, and tip. */
  datatype Index = Index(records: Records, undos: map<nat, IndexUndo>, tip: IndexTip)

  /** The rows of one block written on top of a table, with the undo row they leave. */
  datatype Built = Built(records: Records, undo: IndexUndo, tip: IndexTip)

  /** Indexes one block on a table at a tip. */
  function Extend(kind: Kind, records: Records, tip: IndexTip, b: IndexBlock,
                  rules: IndexRules): Result<Built, IndexError>
    requires ValidRules(rules)
  {
    if b.height != tip.height + 1 || b.height > U32_MAX || b.previous != tip.hash then Err(DoesNotExtend)
    else match BlockEntries(kind, b, records, rules)
      case Err(e) => Err(e)
      case Ok(entries) =>
        var sorted := rules.sorted(entries);
        Ok(Built(Write(records, sorted), IndexUndo(tip, Previous(sorted)), IndexTip(b.height, b.hash)))
  }

  /** The first `n` blocks of a batch. */
  function ConnectedBatch(kind: Kind, s: Index, blocks: seq<IndexBlock>, n: nat,
                          rules: IndexRules): Result<Index, IndexError>
    requires ValidRules(rules) && n <= |blocks|
  {
    if n == 0 then Ok(s)
    else match ConnectedBatch(kind, s, blocks, n - 1, rules)
      case Err(e) => Err(e)
      case Ok(before) =>
        match Extend(kind, before.records, before.tip, blocks[n - 1], rules)
        case Err(e) => Err(e)
        case Ok(built) => Ok(Index(built.records, before.undos[built.tip.height := built.undo], built.tip))
  }

  lemma {:induction false} BatchStops(kind: Kind, s: Index, blocks: seq<IndexBlock>, n: nat, m: nat, rules: IndexRules)
    requires ValidRules(rules) && n <= m <= |blocks| && ConnectedBatch(kind, s, blocks, n, rules).Err?
    ensures ConnectedBatch(kind, s, blocks, m, rules) == ConnectedBatch(kind, s, blocks, n, rules)
  {
    hide Extend;
    if n < m { BatchStops(kind, s, blocks, n, m - 1, rules); }
  }

  function DisconnectedTip(s: Index): Result<Index, IndexError> {
    if s.tip.height == 0 then Err(DisconnectGenesis)
    else if s.tip.height !in s.undos then Err(MissingIndexUndo)
    else
      var undo := s.undos[s.tip.height];
      Ok(Index(Restore(s.records, undo.previous), s.undos - {s.tip.height}, undo.parent))
  }

  function Pruned(s: Index, from: nat): Index {
    s.(undos := map h | h in s.undos && h >= from :: s.undos[h])
  }

  class AuxiliaryIndex {
    const kind: Kind
    var records: Records
    var undos: map<nat, IndexUndo>
    var tip: IndexTip

    constructor (kind: Kind, start: Index)
      ensures this.kind == kind && Value() == start
    {
      this.kind := kind;
      records, undos, tip := start.records, start.undos, start.tip;
    }

    ghost function Value(): Index
      reads this
    {
      Index(records, undos, tip)
    }

    /** Indexes a consecutive batch in one transaction: all of it or nothing. */
    method ConnectBatch(blocks: seq<IndexBlock>, rules: IndexRules) returns (error: Option<IndexError>)
      requires ValidRules(rules)
      modifies this
      ensures match ConnectedBatch(kind, old(Value()), blocks, |blocks|, rules)
              case Err(e) => error == Some(e) && Value() == old(Value())
              case Ok(next) => error == None && Value() == next
    {
      hide BlockEntries, Write, Previous, ValidRules;
      var table: Records, rows: map<nat, IndexUndo>, top: IndexTip := records, undos, tip;
      for n := 0 to |blocks|
        modifies {}
        invariant ConnectedBatch(kind, Value(), blocks, n, rules) == Ok(Index(table, rows, top))
      {
        var b := blocks[n];
        if b.height != top.height + 1 || b.height > U32_MAX || b.previous != top.hash {
          BatchStops(kind, Value(), blocks, n + 1, |blocks|, rules);
          return Some(DoesNotExtend);
        }
        var entries := BuildRecords(kind, b, table, rules);
        if entries.Err? {
          BatchStops(kind, Value(), blocks, n + 1, |blocks|, rules);
          return Some(entries.error);
        }
        var sorted := rules.sorted(entries.value);
        var written := WriteAll(table, sorted);
        rows := rows[b.height := IndexUndo(top, Previous(sorted))];
        table, top := written, IndexTip(b.height, b.hash);
      }
      records, undos, tip := table, rows, top;
      return None;
    }

    /** Removes the tip and puts back what it replaced. */
    method DisconnectTip() returns (r: Result<IndexTip, IndexError>)
      modifies this
      ensures match DisconnectedTip(old(Value()))
              case Err(e) => r == Err(e) && Value() == old(Value())
              case Ok(next) => r == Ok(next.tip) && Value() == next
    {
      if tip.height == 0 { return Err(DisconnectGenesis); }
      if tip.height !in undos { return Err(MissingIndexUndo); }
      var undo := undos[tip.height];
      var restored := RestoreAll(records, undo.previous);
      records, undos, tip := restored, undos - {tip.height}, undo.parent;
      return Ok(undo.parent);
    }

    /** Drops undo rows below a height and counts them. */
    method PruneUndosBefore(from: nat) returns (removed: nat)
      modifies this
      ensures Value() == Pruned(old(Value()), from)
      ensures removed == |old(undos)| - |undos|
    {
      var kept := map h | h in undos && h >= from :: undos[h];
      var dropped := set h | h in undos && h < from;
      removed := |dropped|;
      assert undos.Keys == kept.Keys + dropped && kept.Keys !! dropped;
      assert |undos.Keys| == |kept.Keys| + |dropped|;
      undos := kept;
    }
  }

  method WriteAll(records: Records, entries: seq<Entry>) returns (written: Records)
    ensures written == Write(records, entries)
  {
    written := records;
    for i := 0 to |entries|
      invariant written == Write(records, entries[..i])
    {
      assert entries[..i + 1][..i] == entries[..i];
      written := written[entries[i].key := entries[i].value];
    }
    assert entries[..|entries|] == entries;
  }

  method RestoreAll(records: Records, previous: seq<(seq<Byte>, Option<seq<Byte>>)>) returns (restored: Records)
    ensures restored == Restore(records, previous)
  {
    restored := records;
    var i := |previous|;
    assert previous[..i] == previous;
    while i > 0
      invariant i <= |previous| && Restore(restored, previous[..i]) == Restore(records, previous)
    {
      i := i - 1;
      assert previous[..i + 1][..i] == previous[..i];
      var (key, prior) := previous[i];
      match prior {
        case Some(value) => restored := restored[key := value];
        case None => restored := restored - {key};
      }
    }
  }

  // ----- Disconnecting inverts connecting -----

  /** The undo row of a block leads back to the table and tip before it. */
  lemma ExtendInverts(kind: Kind, records: Records, tip: IndexTip, b: IndexBlock, rules: IndexRules)
    requires ValidRules(rules) && Extend(kind, records, tip, b, rules).Ok?
    ensures var built := Extend(kind, records, tip, b, rules).value;
            && Restore(built.records, built.undo.previous) == records
            && built.undo.parent == tip && built.tip == IndexTip(b.height, b.hash) && b.height == tip.height + 1
  {
    hide BlockEntries, Write, Restore;
    EntriesRemember(kind, b, records, rules);
    var entries := BlockEntries(kind, b, records, rules).value;
    var sorted := rules.sorted(entries);
    forall e | e in sorted ensures e.prior == Get(records, e.key) {
      assert e in multiset(sorted) && multiset(sorted) == multiset(entries);
    }
    RestoreInvertsWrite(records, sorted);
  }

  // ----- Runs -----

  /** Building a chain of blocks from a starting table. */
  function Build(kind: Kind, start: Index, chain: seq<IndexBlock>, rules: IndexRules): Option<Built>
    requires ValidRules(rules)
    decreases |chain|
  {
    if chain == [] then Some(Built(start.records, IndexUndo(start.tip, []), start.tip))
    else match Build(kind, start, chain[..|chain| - 1], rules)
      case None => None
      case Some(before) =>
        match Extend(kind, before.records, before.tip, chain[|chain| - 1], rules)
        case Err(_) => None
        case Ok(built) => Some(built)
  }

  /** A store with the blocks above its start and the lowest height whose undo row is kept. */
  datatype Node = Node(index: Index, chain: seq<IndexBlock>, low: nat)

  /**
   The table and tip are those of a fresh build of the chain; undo rows are
   kept for exactly the heights from `low` to the tip, each the one its block left.
   */
  ghost predicate Sound(kind: Kind, start: Index, n: Node, rules: IndexRules)
    requires ValidRules(rules)
  {
    var built := Build(kind, start, n.chain, rules);
    && built.Some? && n.index.records == built.value.records && n.index.tip == built.value.tip
    && n.index.tip.height == start.tip.height + |n.chain|
    && start.tip.height < n.low <= n.index.tip.height + 1
    && (forall h :: h in n.index.undos <==> n.low <= h <= n.index.tip.height)
    && (forall h | h in n.index.undos :: RowOf(kind, start, n.chain[..h - start.tip.height], n.index.undos[h], rules))
  }

  /** An undo row is the one building the chain's last block leaves. */
  ghost predicate RowOf(kind: Kind, start: Index, chain: seq<IndexBlock>, undo: IndexUndo, rules: IndexRules)
    requires ValidRules(rules)
  {
    var built := Build(kind, start, chain, rules);
    built.Some? && undo == built.value.undo
  }

  datatype Event = ConnectBlocks(blocks: seq<IndexBlock>) | DisconnectTop | PruneBefore(from: nat)

  /** What an event does; a refused movement changes nothing. */
  function Step(kind: Kind, n: Node, e: Event, rules: IndexRules): Node
    requires ValidRules(rules)
  {
    match e
    case ConnectBlocks(blocks) =>
      (match ConnectedBatch(kind, n.index, blocks, |blocks|, rules)
       case Err(_) => n
       case Ok(next) => Node(next, n.chain + blocks, n.low))
    case DisconnectTop =>
      (match DisconnectedTip(n.index)
       case Err(_) => n
       case Ok(next) => if n.chain == [] then n else Node(next, n.chain[..|n.chain| - 1], n.low))
    case PruneBefore(from) =>
      Node(Pruned(n.index, from), n.chain,
           var bound := if from > n.low then from else n.low;
           if bound > n.index.tip.height + 1 then n.index.tip.height + 1 else bound)
  }

  /** One more block of a batch. */
  lemma OneMoreBlock(kind: Kind, start: Index, n: Node, b: IndexBlock, rules: IndexRules)
    requires ValidRules(rules) && Sound(kind, start, n, rules)
             && Extend(kind, n.index.records, n.index.tip, b, rules).Ok?
    ensures var built := Extend(kind, n.index.records, n.index.tip, b, rules).value;
            Sound(kind, start, Node(Index(built.records, n.index.undos[built.tip.height := built.undo], built.tip),
                                    n.chain + [b], n.low), rules)
  {
    hide Extend, ValidRules, Build;
    ExtendInverts(kind, n.index.records, n.index.tip, b, rules);
    BuildOneMore(kind, start, n.chain, b, rules);
    var chain := n.chain + [b];
    var undos := n.index.undos[b.height := Extend(kind, n.index.records, n.index.tip, b, rules).value.undo];
    forall h | h in undos ensures RowOf(kind, start, chain[..h - start.tip.height], undos[h], rules) {
      assert chain[..h - start.tip.height] == if h == b.height then chain else n.chain[..h - start.tip.height];
    }
  }

  lemma BuildOneMore(kind: Kind, start: Index, chain: seq<IndexBlock>, b: IndexBlock, rules: IndexRules)
    requires ValidRules(rules) && Build(kind, start, chain, rules).Some?
    ensures var before := Build(kind, start, chain, rules).value;
            var built := Extend(kind, before.records, before.tip, b, rules);
            built.Ok? ==> Build(kind, start, chain + [b], rules) == Some(built.value)
  {
    hide Extend, ValidRules;
    assert (chain + [b])[..|chain|] == chain;
  }

  lemma {:induction false} BatchStaysSound(kind: Kind, start: Index, n: Node, blocks: seq<IndexBlock>, k: nat,
                                           rules: IndexRules)
    requires ValidRules(rules) && Sound(kind, start, n, rules) && k <= |blocks|
    requires ConnectedBatch(kind, n.index, blocks, k, rules).Ok?
    ensures Sound(kind, start,
                  Node(ConnectedBatch(kind, n.index, blocks, k, rules).value, n.chain + blocks[..k], n.low), rules)
  {
    hide Extend, Sound, ValidRules;
    if k == 0 {
      assert n.chain + blocks[..0] == n.chain;
    } else {
      BatchStaysSound(kind, start, n, blocks, k - 1, rules);
      var before := Node(ConnectedBatch(kind, n.index, blocks, k - 1, rules).value, n.chain + blocks[..k - 1], n.low);
      OneMoreBlock(kind, start, before, blocks[k - 1], rules);
      assert n.chain + blocks[..k] == before.chain + [blocks[k - 1]];
    }
  }

  /** Above its start, the tip disconnects exactly when its row was not pruned, and the build before it remains. */
  lemma DisconnectExactlyWhenKept(kind: Kind, start: Index, n: Node, rules: IndexRules)
    requires ValidRules(rules) && Sound(kind, start, n, rules) && n.chain != []
    ensures DisconnectedTip(n.index).Ok? <==> n.low <= n.index.tip.height
    ensures DisconnectedTip(n.index).Ok? ==>
              var before := Build(kind, start, n.chain[..|n.chain| - 1], rules);
              && before.Some?
              && DisconnectedTip(n.index).value.records == before.value.records
              && DisconnectedTip(n.index).value.tip == before.value.tip
              && before.value.tip.height + 1 == n.index.tip.height
  {
    hide Extend, Restore, ValidRules;
    var last := |n.chain| - 1;
    assert n.chain[..last + 1] == n.chain;
    var before := Build(kind, start, n.chain[..last], rules).value;
    ExtendInverts(kind, before.records, before.tip, n.chain[last], rules);
    if n.low <= n.index.tip.height {
      var h := n.index.tip.height;
      assert h in n.index.undos && h - start.tip.height == last + 1;
      assert RowOf(kind, start, n.chain[..last + 1], n.index.undos[h], rules);
    }
  }

  lemma DisconnectStaysSound(kind: Kind, start: Index, n: Node, rules: IndexRules)
    requires ValidRules(rules) && Sound(kind, start, n, rules) && n.chain != [] && DisconnectedTip(n.index).Ok?
    ensures Sound(kind, start, Step(kind, n, DisconnectTop, rules), rules)
  {
    hide Extend, Restore, ValidRules, Build;
    DisconnectExactlyWhenKept(kind, start, n, rules);
    var next := DisconnectedTip(n.index).value;
    var rest := n.chain[..|n.chain| - 1];
    forall h | h in next.undos ensures RowOf(kind, start, rest[..h - start.tip.height], next.undos[h], rules) {
      assert h in n.index.undos;
      assert rest[..h - start.tip.height] == n.chain[..h - start.tip.height];
    }
  }

  lemma PruneStaysSound(kind: Kind, start: Index, n: Node, from: nat, rules: IndexRules)
    requires ValidRules(rules) && Sound(kind, start, n, rules)
    ensures Sound(kind, start, Step(kind, n, PruneBefore(from), rules), rules)
  {
    hide Build, ValidRules;
  }

  lemma StepStaysSound(kind: Kind, start: Index, n: Node, e: Event, rules: IndexRules)
    requires ValidRules(rules) && Sound(kind, start, n, rules)
    ensures Sound(kind, start, Step(kind, n, e, rules), rules)
  {
    hide Sound, ValidRules, ConnectedBatch, DisconnectedTip, Pruned;
    match e {
      case ConnectBlocks(blocks) =>
        if ConnectedBatch(kind, n.index, blocks, |blocks|, rules).Ok? {
          BatchStaysSound(kind, start, n, blocks, |blocks|, rules);
          assert blocks[..|blocks|] == blocks;
        }
      case DisconnectTop =>
        if DisconnectedTip(n.index).Ok? && n.chain != [] { DisconnectStaysSound(kind, start, n, rules); }
      case PruneBefore(from) => PruneStaysSound(kind, start, n, from, rules);
    }
  }

  ghost predicate IsRun(kind: Kind, nodes: seq<Node>, events: seq<Event>, rules: IndexRules)
    requires ValidRules(rules)
  {
    |nodes| == |events| + 1 && forall i | 0 <= i < |events| :: nodes[i + 1] == Step(kind, nodes[i], events[i], rules)
  }

  /**
   Path independence: after any run of batch connects, disconnects and
   prunings, the table equals a fresh build of the current chain, and undo rows
   sit at exactly the heights from the pruning bound to the tip.
   */
  lemma {:induction false} IndexDependsOnlyOnTheChain(
      kind: Kind, start: Index, nodes: seq<Node>, events: seq<Event>, k: nat, rules: IndexRules)
    requires ValidRules(rules) && IsRun(kind, nodes, events, rules) && k <= |events|
    requires start.undos == map[] && nodes[0] == Node(start, [], start.tip.height + 1)
    ensures Sound(kind, start, nodes[k], rules)
    ensures Build(kind, start, nodes[k].chain, rules).Some?
    ensures nodes[k].index.records == Build(kind, start, nodes[k].chain, rules).value.records
  {
    hide Step, ValidRules;
    if k > 0 {
      IndexDependsOnlyOnTheChain(kind, start, nodes, events, k - 1, rules);
      StepStaysSound(kind, start, nodes[k - 1], events[k - 1], rules);
    }
  }
}
