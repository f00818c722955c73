/**
 Building the rows of one block in an optional index: transaction locations,
 spenders of outpoints, or compact filters; writing them and putting the
 previous values back.
 */
module AuxIndex {
  import opened Basics
  import opened Coins
  import opened IndexCodec

  datatype Kind = TransactionIndex | SpentOutputIndex | BasicFilterIndex

  /** A transaction by its id and the 36-byte keys of the outputs it spends. */
  datatype IndexTx = IndexTx(txid: Hash32, inputs: seq<seq<Byte>>)

  /** A block with the scripts of the outputs it spends, as its undo records hold them. */
  datatype IndexBlock = IndexBlock(height: nat, hash: Hash32, previous: Hash32, txs: seq<IndexTx>,
                                   spentScripts: map<seq<Byte>, seq<Byte>>)

  type Records = map<seq<Byte>, seq<Byte>>

  /** A row to write and the value it replaces. */
  datatype Entry = Entry(key: seq<Byte>, value: seq<Byte>, prior: Option<seq<Byte>>)

  datatype IndexTip = IndexTip(height: U32, hash: Hash32)

  datatype IndexUndo = IndexUndo(parent: IndexTip, previous: seq<(seq<Byte>, Option<seq<Byte>>)>)

  datatype IndexError =
    | DoesNotExtend
    | PositionOverflow
    | MultipleSpenders
    | AlreadySpent
    | FilterFailed
    | MissingPreviousFilter
    | MalformedFilter
    | DisconnectGenesis
    | MissingIndexUndo

  /** The filter construction, the hashes, and the order in which a block's rows are written. */
  datatype IndexRules = IndexRules(
    filter: IndexBlock -> Option<seq<Byte>>,
    filterHash: seq<Byte> -> Hash32,
    filterHeader: (Hash32, Hash32) -> Hash32,
    sorted: seq<Entry> -> seq<Entry>)

  /** Sorting permutes, and a filter's length fits 32 bits. */
  ghost predicate ValidRules(rules: IndexRules) {
    && (forall entries :: multiset(rules.sorted(entries)) == multiset(entries))
    && (forall b :: rules.filter(b).Some? ==> |rules.filter(b).value| <= U32_MAX)
  }

  // ----- Rows of a block -----

  function TransactionEntry(b: IndexBlock, records: Records, position: U32): Entry
    requires position < |b.txs| && b.height <= U32_MAX
  {
    var txid := b.txs[position].txid;
    Entry(txid, EncodeTransactionLocation(TransactionLocation(b.height, b.hash, position)), Get(records, txid))
  }

  /** Each transaction's location; a repeated id is simply listed again. */
  function TransactionEntries(b: IndexBlock, records: Records, n: nat): Result<seq<Entry>, IndexError>
    requires n <= |b.txs| && b.height <= U32_MAX
  {
    if n == 0 then Ok([])
    else match TransactionEntries(b, records, n - 1)
      case Err(e) => Err(e)
      case Ok(entries) =>
        if n - 1 > U32_MAX then Err(PositionOverflow) else Ok(entries + [TransactionEntry(b, records, n - 1)])
  }

  method ListTransactions(b: IndexBlock, records: Records) returns (r: Result<seq<Entry>, IndexError>)
    requires b.height <= U32_MAX
    ensures r == TransactionEntries(b, records, |b.txs|)
  {
    hide TransactionEntry;
    var entries: seq<Entry> := [];
    for n := 0 to |b.txs|
      invariant TransactionEntries(b, records, n) == Ok(entries)
    {
      if n > U32_MAX {
        TransactionsStop(b, records, n + 1, |b.txs|);
        return Err(PositionOverflow);
      }
      entries := entries + [TransactionEntry(b, records, n)];
    }
    return Ok(entries);
  }

  lemma {:induction false} TransactionsStop(b: IndexBlock, records: Records, n: nat, m: nat)
    requires n <= m <= |b.txs| && b.height <= U32_MAX && TransactionEntries(b, records, n).Err?
    ensures TransactionEntries(b, records, m) == TransactionEntries(b, records, n)
  {
    if n < m { TransactionsStop(b, records, n, m - 1); }
  }

  /** One spend: the key, and where it is spent. */
  datatype Spend = Spend(key: seq<Byte>, txid: Hash32, input: nat)

  function InputSpends(tx: IndexTx, n: nat): (spends: seq<Spend>)
    requires n <= |tx.inputs|
    ensures |spends| == n && forall i | 0 <= i < n :: spends[i] == Spend(tx.inputs[i], tx.txid, i)
  {
    seq(n, i requires 0 <= i < n => Spend(tx.inputs[i], tx.txid, i))
  }

  /** All spends of the first `n` transactions but the coinbase. */
  function Spends(b: IndexBlock, n: nat): seq<Spend>
    requires n <= |b.txs|
  {
    if n <= 1 then [] else Spends(b, n - 1) + InputSpends(b.txs[n - 1], |b.txs[n - 1].inputs|)
  }

  function Keys(spends: seq<Spend>): set<seq<Byte>> {
    set s | s in spends :: s.key
  }

  function SpentEntry(b: IndexBlock, s: Spend): Entry
    requires b.height <= U32_MAX && s.input <= U32_MAX
  {
    Entry(s.key, EncodeSpentLocation(SpentLocation(s.txid, s.input, b.height, b.hash)), None)
  }

  /** An outpoint may be spent once in a block and once on the chain. */
  function SpendError(s: Spend, seen: set<seq<Byte>>, records: Records): Option<IndexError> {
    if s.key in seen then Some(MultipleSpenders)
    else if s.input > U32_MAX then Some(PositionOverflow)
    else if s.key in records then Some(AlreadySpent)
    else None
  }

  function SpentEntries(b: IndexBlock, spends: seq<Spend>, records: Records, n: nat): Result<seq<Entry>, IndexError>
    requires n <= |spends| && b.height <= U32_MAX
  {
    if n == 0 then Ok([])
    else match SpentEntries(b, spends, records, n - 1)
      case Err(e) => Err(e)
      case Ok(entries) =>
        var error := SpendError(spends[n - 1], Keys(spends[..n - 1]), records);
        if error.Some? then Err(error.value) else Ok(entries + [SpentEntry(b, spends[n - 1])])
  }

  lemma {:induction false} SpentStops(b: IndexBlock, spends: seq<Spend>, records: Records, n: nat, m: nat)
    requires n <= m <= |spends| && b.height <= U32_MAX && SpentEntries(b, spends, records, n).Err?
    ensures SpentEntries(b, spends, records, m) == SpentEntries(b, spends, records, n)
  {
    if n < m { SpentStops(b, spends, records, n, m - 1); }
  }

  /** Extending the list of spends does not change what its beginning gives. */
  lemma {:induction false} SpentPrefix(b: IndexBlock, spends: seq<Spend>, more: seq<Spend>, records: Records, n: nat)
    requires n <= |spends| && b.height <= U32_MAX
    ensures SpentEntries(b, spends + more, records, n) == SpentEntries(b, spends, records, n)
  {
    if n > 0 {
      SpentPrefix(b, spends, more, records, n - 1);
      assert (spends + more)[..n - 1] == spends[..n - 1];
    }
  }

  lemma {:induction false} SpendsPrefix(b: IndexBlock, n: nat) returns (more: seq<Spend>)
    requires n <= |b.txs|
    ensures Spends(b, |b.txs|) == Spends(b, n) + more
    decreases |b.txs| - n
  {
    if n == |b.txs| {
      more := [];
    } else {
      var rest := SpendsPrefix(b, n + 1);
      var here := if n == 0 then [] else InputSpends(b.txs[n], |b.txs[n].inputs|);
      assert Spends(b, n + 1) == Spends(b, n) + here;
      more := here + rest;
      assert Spends(b, n) + here + rest == Spends(b, n) + more;
    }
  }

  /** One more spend of a list. */
  lemma NextSpend(b: IndexBlock, spends: seq<Spend>, records: Records, k: nat, entries: seq<Entry>)
    requires k < |spends| && b.height <= U32_MAX && SpentEntries(b, spends, records, k) == Ok(entries)
    ensures SpentEntries(b, spends, records, k + 1) ==
            match SpendError(spends[k], Keys(spends[..k]), records)
            case Some(e) => Err(e)
            case None => Ok(entries + [SpentEntry(b, spends[k])])
    ensures Keys(spends[..k + 1]) == Keys(spends[..k]) + {spends[k].key}
  {
    assert spends[..k + 1] == spends[..k] + [spends[k]];
  }

  /** Adds the spends of one transaction to those before. */
  method ListInputs(b: IndexBlock, t: nat, records: Records, before: seq<Entry>, earlier: set<seq<Byte>>)
    returns (r: Result<seq<Entry>, IndexError>, seen: set<seq<Byte>>)
    requires 1 <= t < |b.txs| && b.height <= U32_MAX
    requires SpentEntries(b, Spends(b, t), records, |Spends(b, t)|) == Ok(before) && earlier == Keys(Spends(b, t))
    ensures r == SpentEntries(b, Spends(b, t + 1), records, |Spends(b, t + 1)|)
    ensures r.Ok? ==> seen == Keys(Spends(b, t + 1))
  {
    hide SpentEntries, SpentEntry, Spends, Keys, SpendError;
    var tx := b.txs[t];
    ghost var done, all := Spends(b, t), Spends(b, t + 1);
    NextTransaction(b, t, records);
    var entries := before;
    seen := earlier;
    for i := 0 to |tx.inputs|
      invariant SpentEntries(b, all, records, |done| + i) == Ok(entries)
      invariant seen == Keys(all[..|done| + i])
    {
      ghost var k := |done| + i;
      var s := Spend(tx.inputs[i], tx.txid, i);
      NextSpend(b, all, records, k, entries);
      var error := SpendError(s, seen, records);
      if error.Some? {
        SpentStops(b, all, records, k + 1, |all|);
        return Err(error.value), seen;
      }
      NoSpendError(s, seen, records);
      seen := seen + {s.key};
      entries := entries + [SpentEntry(b, s)];
    }
    assert all[..|all|] == all;
    return Ok(entries), seen;
  }

  lemma NoSpendError(s: Spend, seen: set<seq<Byte>>, records: Records)
    requires SpendError(s, seen, records) == None
    ensures s.input <= U32_MAX
  {
  }

  lemma SpendsGrow(b: IndexBlock, t: nat)
    requires 1 <= t < |b.txs|
    ensures Spends(b, t + 1) == Spends(b, t) + InputSpends(b.txs[t], |b.txs[t].inputs|)
  {
  }

  /** The spends of the next transaction come after those before. */
  lemma NextTransaction(b: IndexBlock, t: nat, records: Records)
    requires 1 <= t < |b.txs| && b.height <= U32_MAX
    ensures var done, all, tx := Spends(b, t), Spends(b, t + 1), b.txs[t];
            && |all| == |done| + |tx.inputs| && all[..|done|] == done
            && (forall i | 0 <= i < |tx.inputs| :: all[|done| + i] == Spend(tx.inputs[i], tx.txid, i))
            && SpentEntries(b, all, records, |done|) == SpentEntries(b, done, records, |done|)
  {
    hide SpentEntries, Spends, InputSpends;
    var tx := b.txs[t];
    var done, more := Spends(b, t), InputSpends(tx, |tx.inputs|);
    SpendsGrow(b, t);
    SpentPrefix(b, done, more, records, |done|);
    forall i | 0 <= i < |tx.inputs| ensures (done + more)[|done| + i] == Spend(tx.inputs[i], tx.txid, i) {
      assert (done + more)[|done| + i] == more[i];
    }
  }

  method ListSpends(b: IndexBlock, records: Records) returns (r: Result<seq<Entry>, IndexError>)
    requires b.height <= U32_MAX
    ensures r == SpentEntries(b, Spends(b, |b.txs|), records, |Spends(b, |b.txs|)|)
  {
    var entries: seq<Entry>, seen: set<seq<Byte>> := [], {};
    if |b.txs| == 0 { return Ok([]); }
    NoSpends(b, records);
    hide SpentEntries, Spends, Keys;
    for t := 1 to |b.txs|
      invariant SpentEntries(b, Spends(b, t), records, |Spends(b, t)|) == Ok(entries)
      invariant seen == Keys(Spends(b, t))
    {
      var listed, now := ListInputs(b, t, records, entries, seen);
      if listed.Err? {
        ghost var more := SpendsPrefix(b, t + 1);
        ghost var first := Spends(b, t + 1);
        SpentPrefix(b, first, more, records, |first|);
        SpentStops(b, first + more, records, |first|, |first + more|);
        return listed;
      }
      entries, seen := listed.value, now;
    }
    return Ok(entries);
  }

  lemma NoSpends(b: IndexBlock, records: Records)
    requires |b.txs| > 0 && b.height <= U32_MAX
    ensures Spends(b, 1) == [] && SpentEntries(b, Spends(b, 1), records, |Spends(b, 1)|) == Ok([])
            && Keys(Spends(b, 1)) == {}
  {
  }

  /** The lookup row of a block's filter. */
  function HashKey(hash: Hash32): seq<Byte> {
    [0x68] + hash
  }

  /** The filter chained to the one before, and a lookup row by block hash. */
  function FilterEntries(b: IndexBlock, records: Records, rules: IndexRules): Result<seq<Entry>, IndexError>
    requires 1 <= b.height <= U32_MAX && ValidRules(rules)
  {
    var filter := rules.filter(b);
    if filter.None? then Err(FilterFailed)
    else if Be32(b.height - 1) !in records then Err(MissingPreviousFilter)
    else
      var previous := DecodeFilterRecord(records[Be32(b.height - 1)]);
      if previous.None? then Err(MalformedFilter)
      else
        var hash := rules.filterHash(filter.value);
        var record := FilterRecord(filter.value, hash, rules.filterHeader(hash, previous.value.filterHeader));
        Ok([Entry(Be32(b.height), EncodeFilterRecord(record), Get(records, Be32(b.height))),
            Entry(HashKey(b.hash), Be32(b.height), Get(records, HashKey(b.hash)))])
  }

  function BlockEntries(kind: Kind, b: IndexBlock, records: Records, rules: IndexRules): Result<seq<Entry>, IndexError>
    requires 1 <= b.height <= U32_MAX && ValidRules(rules)
  {
    match kind
    case TransactionIndex => TransactionEntries(b, records, |b.txs|)
    case SpentOutputIndex => SpentEntries(b, Spends(b, |b.txs|), records, |Spends(b, |b.txs|)|)
    case BasicFilterIndex => FilterEntries(b, records, rules)
  }

  method BuildRecords(kind: Kind, b: IndexBlock, records: Records, rules: IndexRules)
    returns (r: Result<seq<Entry>, IndexError>)
    requires 1 <= b.height <= U32_MAX && ValidRules(rules)
    ensures r == BlockEntries(kind, b, records, rules)
  {
    match kind {
      case TransactionIndex => r := ListTransactions(b, records);
      case SpentOutputIndex => r := ListSpends(b, records);
      case BasicFilterIndex => r := FilterEntries(b, records, rules);
    }
  }

  /** Every row remembers the value it replaces. */
  ghost predicate Remembers(entries: seq<Entry>, records: Records) {
    forall e | e in entries :: e.prior == Get(records, e.key)
  }

  lemma {:induction false} TransactionsRemember(b: IndexBlock, records: Records, n: nat)
    requires n <= |b.txs| && b.height <= U32_MAX && TransactionEntries(b, records, n).Ok?
    ensures Remembers(TransactionEntries(b, records, n).value, records)
  {
    if n > 0 { TransactionsRemember(b, records, n - 1); }
  }

  lemma {:induction false} SpendsRemember(b: IndexBlock, spends: seq<Spend>, records: Records, n: nat)
    requires n <= |spends| && b.height <= U32_MAX && SpentEntries(b, spends, records, n).Ok?
    ensures Remembers(SpentEntries(b, spends, records, n).value, records)
  {
    if n > 0 { SpendsRemember(b, spends, records, n - 1); }
  }

  lemma EntriesRemember(kind: Kind, b: IndexBlock, records: Records, rules: IndexRules)
    requires 1 <= b.height <= U32_MAX && ValidRules(rules) && BlockEntries(kind, b, records, rules).Ok?
    ensures Remembers(BlockEntries(kind, b, records, rules).value, records)
  {
    match kind {
      case TransactionIndex => TransactionsRemember(b, records, |b.txs|);
      case SpentOutputIndex => SpendsRemember(b, Spends(b, |b.txs|), records, |Spends(b, |b.txs|)|);
      case BasicFilterIndex =>
    }
  }

  // ----- Writing and restoring -----

  function Write(records: Records, entries: seq<Entry>): Records {
    if entries == [] then records
    else
      var last := entries[|entries| - 1];
      Write(records, entries[..|entries| - 1])[last.key := last.value]
  }

  function Previous(entries: seq<Entry>): (previous: seq<(seq<Byte>, Option<seq<Byte>>)>)
    ensures |previous| == |entries|
            && forall i | 0 <= i < |entries| :: previous[i] == (entries[i].key, entries[i].prior)
  {
    seq(|entries|, i requires 0 <= i < |entries| => (entries[i].key, entries[i].prior))
  }

  /** Puts previous values back, last first. */
  function Restore(records: Records, previous: seq<(seq<Byte>, Option<seq<Byte>>)>): Records
    decreases |previous|
  {
    if previous == [] then records
    else
      var (key, prior) := previous[|previous| - 1];
      var restored := match prior case Some(value) => records[key := value] case None => records - {key};
      Restore(restored, previous[..|previous| - 1])
  }

  /** Only written keys are touched. */
  lemma {:induction false} WriteAt(records: Records, entries: seq<Entry>, key: seq<Byte>)
    requires forall e | e in entries :: e.key != key
    ensures Get(Write(records, entries), key) == Get(records, key)
  {
    if entries != [] {
      assert entries[|entries| - 1] in entries;
      WriteAt(records, entries[..|entries| - 1], key);
    }
  }

  /** What restoring leaves at a key. */
  lemma {:induction false} RestoreAt(now: Records, entries: seq<Entry>, records: Records, key: seq<Byte>)
    requires Remembers(entries, records)
    ensures Get(Restore(now, Previous(entries)), key) ==
            if exists e :: e in entries && e.key == key then Get(records, key) else Get(now, key)
    decreases |entries|
  {
    if entries != [] {
      var n := |entries| - 1;
      var last := entries[n];
      assert last in entries && Previous(entries)[..n] == Previous(entries[..n]);
      assert forall e | e in entries :: e == last || e in entries[..n];
      var restored := match last.prior case Some(value) => now[last.key := value] case None => now - {last.key};
      RestoreAt(restored, entries[..n], records, key);
    }
  }

  /** Restoring what a block's rows replaced gives the table before it, however the rows were ordered. */
  lemma RestoreInvertsWrite(records: Records, entries: seq<Entry>)
    requires Remembers(entries, records)
    ensures Restore(Write(records, entries), Previous(entries)) == records
  {
    var now := Write(records, entries);
    forall key ensures Get(Restore(now, Previous(entries)), key) == Get(records, key) {
      RestoreAt(now, entries, records, key);
      if !exists e :: e in entries && e.key == key { WriteAt(records, entries, key); }
    }
    SameAnswers(Restore(now, Previous(entries)), records);
  }
}
