/** The database handle, its reads and single-row updates (internal/repository/base.go) and the
    storing transaction (internal/repository/evmreader.go). */
module Database {
  import opened Model
  import opened Tables
  import opened World
  import opened Ingest
  import opened Claims
  import opened Outputs

  /** An epoch in memory. The reader shares these by pointer and closes them in place. */
  class Epoch {
    const app: Address
    const index: nat
    const firstBlock: nat
    const lastBlock: nat
    const claimHash: Option<Hash>
    var status: EpochStatus

    constructor (e: EpochData, claimHash: Option<Hash>)
      ensures Data() == e && this.claimHash == claimHash
    {
      app, index, firstBlock, lastBlock := e.app, e.index, e.firstBlock, e.lastBlock;
      this.claimHash := claimHash;
      status := e.status;
    }

    function Data(): EpochData
      reads this
    {
      EpochData(app, index, firstBlock, lastBlock, status)
    }
  }

  /** An output in memory. */
  class Output {
    const app: Address
    const index: nat
    const raw: Bytes
    var txHash: Option<Hash>

    constructor (app: Address, index: nat, row: OutputRow)
      ensures this.app == app && this.index == index && raw == row.raw && txHash == row.txHash
    {
      this.app, this.index, raw, txHash := app, index, row.raw, row.txHash;
    }
  }

  ghost function StatusesOf(epochs: seq<Epoch>): (r: seq<(EpochKey, EpochStatus)>)
    reads epochs
    ensures |r| == |epochs|
  {
    seq(|epochs|, i requires 0 <= i < |epochs| reads epochs =>
      ((epochs[i].app, epochs[i].index), epochs[i].status))
  }

  ghost function HashesOf(outputs: seq<Output>): (r: seq<(OutputKey, Option<Hash>)>)
    reads outputs
    ensures |r| == |outputs|
  {
    seq(|outputs|, i requires 0 <= i < |outputs| reads outputs =>
      ((outputs[i].app, outputs[i].index), outputs[i].txHash))
  }

  /** The entries a map keyed by epoch pointers stands for. */
  ghost function Contents(m: map<Epoch, seq<Input>>): (r: map<Epoch, Entry>)
    reads m.Keys
    ensures r.Keys == m.Keys
  {
    map e | e in m :: Entry(e.Data(), m[e])
  }

  /** Go walks a map in whatever order it likes. */
  method WalkOrder(m: map<Epoch, seq<Input>>) returns (order: seq<Epoch>)
    ensures Enumerates(order, Contents(m))
  {
    order := [];
    var todo := m.Keys;
    while todo != {}
      invariant todo <= m.Keys
      invariant NoDuplicates(order)
      invariant forall e | e in order :: e in m && e !in todo
      invariant forall e | e in m :: e in order || e in todo
      decreases todo
    {
      var e :| e in todo;
      todo := todo - {e};
      order := order + [e];
    }
  }

  /** The outcome of a storing transaction: everything if no statement fails, else nothing. */
  ghost predicate AllOrNothing(
    before: Db, entries: seq<Entry>, block: nat, app: Address, fault: Option<nat>,
    ok: bool, after: Db)
  {
    var stored := StoreEntries(before, entries, block, app);
    && (ok <==> stored.Some? && Survives(fault, |EntriesStmts(entries)| + 2))
    && after == if ok then stored.value else before
  }

  /** The outcome of running statements inside a transaction that has executed `executed` already. */
  ghost predicate RanTo(
    before: Db, stmts: seq<Stmt>, executed: nat, fault: Option<nat>,
    done: bool, after: Db, count: nat)
  {
    && (done <==> Run(Some(before), stmts).Some? && Survives(fault, executed + |stmts|))
    && (done ==> Some(after) == Run(Some(before), stmts) && count == executed + |stmts|)
  }

  class Database {
    var tables: Db

    constructor (db: Db)
      ensures tables == db
    {
      tables := db;
    }

    method GetEpoch(index: nat, app: Address) returns (e: Epoch?)
      ensures e == null <==> (app, index) !in tables.epochs
      ensures e != null ==> fresh(e) && Some(e.Data()) == StoredEpoch(tables, app, index)
      ensures e != null ==> e.claimHash == tables.epochs[(app, index)].claimHash
    {
      if (app, index) !in tables.epochs {
        return null;
      }
      var row := tables.epochs[(app, index)];
      e := new Epoch(EpochData(app, index, row.firstBlock, row.lastBlock, row.status),
                     row.claimHash);
    }

    method GetInputIndex(app: Address) returns (index: nat)
      ensures index == Counter(tables, app)
    {
      index := if app in tables.counters then tables.counters[app] else 0;
    }

    method UpdateInputIndex(app: Address)
      modifies this
      ensures tables == SetCounter(old(tables), app, Counter(old(tables), app) + 1)
    {
      var index := GetInputIndex(app);
      tables := tables.(counters := tables.counters[app := index + 1]);
    }

    method GetEspressoNonce(sender: Address, app: Address) returns (nonce: nat)
      ensures nonce == Nonce(tables, sender, app)
    {
      nonce := if (sender, app) in tables.nonces then tables.nonces[(sender, app)] else 0;
    }

    method UpdateEspressoNonce(sender: Address, app: Address)
      modifies this
      ensures tables == SetNonce(old(tables), sender, app, Nonce(old(tables), sender, app) + 1)
    {
      var nonce := GetEspressoNonce(sender, app);
      tables := tables.(nonces := tables.nonces[(sender, app) := nonce + 1]);
    }

    method GetLastProcessedEspressoBlock(app: Address) returns (block: nat)
      ensures block == EspressoBlock(tables, app)
    {
      block := if app in tables.espressoBlocks then tables.espressoBlocks[app] else 0;
    }

    method UpdateLastProcessedEspressoBlock(app: Address, block: nat)
      modifies this
      ensures tables == SetEspressoBlock(old(tables), app, block)
    {
      tables := tables.(espressoBlocks := tables.espressoBlocks[app := block]);
    }

    method GetPreviousEpochsWithOpenClaims(app: Address, block: nat) returns (open: set<EpochKey>)
      ensures open == OpenClaimsBefore(tables, app, block)
    {
      open := set key | key in tables.epochs && key.0 == app
        && tables.epochs[key].status == ClaimSubmitted && tables.epochs[key].lastBlock < block;
    }

    /** One transaction: the statuses of the epochs, then the claim cursor. */
    method UpdateEpochs(app: Address, claims: seq<Epoch>, lastClaimCheckBlock: nat, fails: bool)
      returns (ok: bool)
      modifies this
      ensures ok <==> !fails && RecordStatuses(old(tables).epochs, StatusesOf(claims)).Some?
      ensures tables ==
        if ok then
          SetClaimCheckBlock(
            old(tables).(epochs := RecordStatuses(old(tables).epochs, StatusesOf(claims)).value),
            app, lastClaimCheckBlock)
        else old(tables)
    {
      var epochs := tables.epochs;
      for i := 0 to |claims|
        invariant tables == old(tables)
        invariant RecordStatuses(tables.epochs, StatusesOf(claims)[..i]) == Some(epochs)
      {
        var key := (claims[i].app, claims[i].index);
        StatusesPrefix(tables.epochs, StatusesOf(claims), i);
        if key !in epochs {
          return false;
        }
        epochs := epochs[key := epochs[key].(status := claims[i].status)];
      }
      assert StatusesOf(claims)[..|claims|] == StatusesOf(claims);
      if fails {
        return false;
      }
      tables := SetClaimCheckBlock(tables.(epochs := epochs), app, lastClaimCheckBlock);
      ok := true;
    }

    method GetOutput(app: Address, index: nat) returns (output: Output?)
      ensures output == null <==> (app, index) !in tables.outputs
      ensures output != null ==>
                fresh(output) && output.app == app && output.index == index
                && output.raw == tables.outputs[(app, index)].raw
                && output.txHash == tables.outputs[(app, index)].txHash
    {
      if (app, index) !in tables.outputs {
        return null;
      }
      output := new Output(app, index, tables.outputs[(app, index)]);
    }

    /** One transaction: the hashes of the executed outputs, then the output cursor. */
    method UpdateOutputExecutionTransaction(
      app: Address, executed: seq<Output>, block: nat, fails: bool)
      returns (ok: bool)
      modifies this
      ensures ok <==> !fails && RecordHashes(old(tables).outputs, HashesOf(executed)).Some?
      ensures tables ==
        if ok then
          SetOutputCheckBlock(
            old(tables).(outputs := RecordHashes(old(tables).outputs, HashesOf(executed)).value),
            app, block)
        else old(tables)
    {
      var outputs := tables.outputs;
      for i := 0 to |executed|
        invariant tables == old(tables)
        invariant RecordHashes(tables.outputs, HashesOf(executed)[..i]) == Some(outputs)
      {
        var key := (executed[i].app, executed[i].index);
        HashesPrefix(tables.outputs, HashesOf(executed), i);
        if key !in outputs {
          return false;
        }
        outputs := outputs[key := outputs[key].(txHash := executed[i].txHash)];
      }
      assert HashesOf(executed)[..|executed|] == HashesOf(executed);
      if fails {
        return false;
      }
      tables := SetOutputCheckBlock(tables.(outputs := outputs), app, block);
      ok := true;
    }

    /** One transaction: every epoch and its inputs, walked in some order, then the block cursor and
        the commit. Statement number `fault` fails if there are that many. On any failure the tables
        are those from before; on success they are the ones `StoreEntries` describes for the order
        the map was walked in, and so, if the epochs' indices differ, for every order. */
    method StoreEpochAndInputsTransaction(
      epochInputs: map<Epoch, seq<Input>>, block: nat, app: Address, fault: Option<nat>)
      returns (ok: bool, ghost order: seq<Epoch>)
      modifies this
      ensures Enumerates(order, old(Contents(epochInputs)))
      ensures AllOrNothing(old(tables), Listed(order, old(Contents(epochInputs))), block, app, fault,
                           ok, tables)
    {
      var walk := WalkOrder(epochInputs);
      order := walk;
      var done, tx, executed := RunWalk(tables, walk, epochInputs, fault);
      if !done || fault == Some(executed) || fault == Some(executed + 1) {
        return false, order;
      }
      tables := SetProcessedBlock(tx, app, block);
      ok := true;
    }

    /** The statements of the walked epochs on the transaction's working copy. */
    method RunWalk(
      before: Db, walk: seq<Epoch>, epochInputs: map<Epoch, seq<Input>>, fault: Option<nat>)
      returns (done: bool, tx: Db, executed: nat)
      requires Enumerates(walk, Contents(epochInputs))
      ensures RanTo(before, EntriesStmts(Listed(walk, Contents(epochInputs))), 0, fault,
                    done, tx, executed)
    {
      ghost var entries := Listed(walk, Contents(epochInputs));
      tx, executed, done := before, 0, true;
      assert entries[..0] == [];
      for i := 0 to |walk|
        invariant done && Survives(fault, executed)
        invariant RanTo(before, EntriesStmts(entries[..i]), 0, fault, true, tx, executed)
      {
        ghost var tx0, executed0 := tx, executed;
        assert entries[i] == Entry(walk[i].Data(), epochInputs[walk[i]]);
        done, tx, executed := StoreEpoch(tx, walk[i], epochInputs[walk[i]], executed, fault);
        EntryRan(before, entries, i, fault, tx0, executed0, done, tx, executed);
        if !done {
          return;
        }
      }
      assert entries[..|walk|] == entries;
    }

    /** The statements of one epoch on the transaction's working copy. */
    method StoreEpoch(tx: Db, e: Epoch, inputs: seq<Input>, executed: nat, fault: Option<nat>)
      returns (done: bool, after: Db, count: nat)
      requires Survives(fault, executed)
      ensures RanTo(tx, EntryStmts(Entry(e.Data(), inputs)), executed, fault, done, after, count)
    {
      ghost var stmts := EntryStmts(Entry(e.Data(), inputs));
      after, count := tx, executed;
      done := false;
      assert stmts[..0] == [];
      for i := 0 to |inputs| + 1
        invariant |stmts| == |inputs| + 1
        invariant count == executed + i
        invariant Some(after) == Run(Some(tx), stmts[..i])
        invariant Survives(fault, count)
      {
        var stmt := if i == 0 then UpsertEpoch(e.Data())
                    else InsertInput(inputs[i - 1], (e.app, e.index));
        assert stmt == stmts[i];
        RunPrefix(tx, stmts, i);
        if fault == Some(count) {
          return;
        }
        match Exec(after, stmt) {
          case None => return;
          case Some(db) => after := db;
        }
        count := count + 1;
      }
      assert stmts[..|inputs| + 1] == stmts;
      done := true;
    }
  }

  lemma {:induction false} StatusesPrefix(
    epochs: map<EpochKey, EpochRow>, updates: seq<(EpochKey, EpochStatus)>, i: nat)
    requires i < |updates|
    ensures RecordStatuses(epochs, updates[..i + 1]) ==
      match RecordStatuses(epochs, updates[..i])
      case None => None
      case Some(m) =>
        if updates[i].0 !in m then None
        else Some(m[updates[i].0 := m[updates[i].0].(status := updates[i].1)])
    ensures RecordStatuses(epochs, updates[..i + 1]) == None ==> RecordStatuses(epochs, updates) == None
    decreases |updates|
  {
    assert updates[..i + 1][..i] == updates[..i];
    if i + 1 < |updates| {
      var front := updates[..|updates| - 1];
      StatusesPrefix(epochs, front, i);
      assert front[..i + 1] == updates[..i + 1];
    } else {
      assert updates[..i + 1] == updates;
    }
  }

  lemma {:induction false} HashesPrefix(
    outputs: map<OutputKey, OutputRow>, updates: seq<(OutputKey, Option<Hash>)>, i: nat)
    requires i < |updates|
    ensures RecordHashes(outputs, updates[..i + 1]) ==
      match RecordHashes(outputs, updates[..i])
      case None => None
      case Some(m) =>
        if updates[i].0 !in m then None
        else Some(m[updates[i].0 := m[updates[i].0].(txHash := updates[i].1)])
    ensures RecordHashes(outputs, updates[..i + 1]) == None ==> RecordHashes(outputs, updates) == None
    decreases |updates|
  {
    assert updates[..i + 1][..i] == updates[..i];
    if i + 1 < |updates| {
      var front := updates[..|updates| - 1];
      HashesPrefix(outputs, front, i);
      assert front[..i + 1] == updates[..i + 1];
    } else {
      assert updates[..i + 1] == updates;
    }
  }

  /** A statement that fails fails the run. */
  lemma {:induction false} FailedRun(stmts: seq<Stmt>)
    ensures Run(None, stmts) == None
  {
    if stmts != [] {
      FailedRun(stmts[..|stmts| - 1]);
    }
  }

  lemma {:induction false} RunPrefix(db: Db, stmts: seq<Stmt>, i: nat)
    requires i < |stmts|
    ensures Run(Some(db), stmts[..i + 1]) == ExecNext(Run(Some(db), stmts[..i]), stmts[i])
    ensures Run(Some(db), stmts[..i + 1]) == None ==> Run(Some(db), stmts) == None
  {
    assert stmts[..i + 1][..i] == stmts[..i];
    assert stmts == stmts[..i + 1] + stmts[i + 1..];
    RunAppend(Some(db), stmts[..i + 1], stmts[i + 1..]);
    FailedRun(stmts[i + 1..]);
  }

  /** One more epoch of the walk. */
  lemma {:induction false} EntryRan(
    before: Db, entries: seq<Entry>, i: nat, fault: Option<nat>, tx0: Db, executed0: nat,
    done: bool, tx: Db, executed: nat)
    requires i < |entries|
    requires RanTo(before, EntriesStmts(entries[..i]), 0, fault, true, tx0, executed0)
    requires RanTo(tx0, EntryStmts(entries[i]), executed0, fault, done, tx, executed)
    ensures done ==> RanTo(before, EntriesStmts(entries[..i + 1]), 0, fault, true, tx, executed)
    ensures done ==> Survives(fault, executed)
    ensures !done ==> RanTo(before, EntriesStmts(entries), 0, fault, false, tx, executed)
  {
    PrefixRuns(before, entries, i);
  }

  lemma PrefixRuns(db: Db, entries: seq<Entry>, i: nat)
    requires i < |entries|
    ensures Run(Some(db), EntriesStmts(entries[..i + 1]))
         == Run(Run(Some(db), EntriesStmts(entries[..i])), EntryStmts(entries[i]))
    ensures |EntriesStmts(entries[..i + 1])|
         == |EntriesStmts(entries[..i])| + |EntryStmts(entries[i])|
    ensures |EntriesStmts(entries[..i + 1])| <= |EntriesStmts(entries)|
    ensures Run(Some(db), EntriesStmts(entries[..i + 1])) == None ==>
              Run(Some(db), EntriesStmts(entries)) == None
  {
    assert entries[..i + 1][..i] == entries[..i];
    RunAppend(Some(db), EntriesStmts(entries[..i]), EntryStmts(entries[i]));
    assert entries == entries[..i + 1] + entries[i + 1..];
    EntriesStmtsAppend(entries[..i + 1], entries[i + 1..]);
    RunAppend(Some(db), EntriesStmts(entries[..i + 1]), EntriesStmts(entries[i + 1..]));
    FailedRun(EntriesStmts(entries[i + 1..]));
  }
}
