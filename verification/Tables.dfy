/** The tables of the shared database as a value, and the statements of the storing transaction
    (internal/repository/evmreader.go, internal/repository/base.go and the schema migration).

    Rows are keyed by the columns their UNIQUE constraints name. A statement that breaks a UNIQUE or
    FOREIGN KEY constraint fails, and a failed statement fails its transaction. */
module Tables {
  import opened Model

  type EpochKey = (Address, nat)
  type InputKey = (Address, nat)
  type OutputKey = (Address, nat)
  type NonceKey = (Address, Address)

  datatype AppRow = AppRow(
    lastProcessedBlock: nat, lastClaimCheckBlock: nat, lastOutputCheckBlock: nat)

  datatype EpochRow = EpochRow(
    firstBlock: nat, lastBlock: nat, claimHash: Option<Hash>, status: EpochStatus)

  datatype InputRow = InputRow(raw: Calldata, block: nat, epoch: EpochKey, txId: TransactionId)

  datatype OutputRow = OutputRow(raw: Bytes, txHash: Option<Hash>)

  datatype Db = Db(
    apps: map<Address, AppRow>,
    epochs: map<EpochKey, EpochRow>,
    inputs: map<InputKey, InputRow>,
    outputs: map<OutputKey, OutputRow>,
    nonces: map<NonceKey, nat>,
    counters: map<Address, nat>,
    espressoBlocks: map<Address, nat>)

  /** A missing row reads as zero. */
  function Counter(db: Db, app: Address): nat {
    if app in db.counters then db.counters[app] else 0
  }

  function NonceIn(nonces: map<NonceKey, nat>, sender: Address, app: Address): nat {
    if (sender, app) in nonces then nonces[(sender, app)] else 0
  }

  function Nonce(db: Db, sender: Address, app: Address): nat {
    NonceIn(db.nonces, sender, app)
  }

  function EspressoBlock(db: Db, app: Address): nat {
    if app in db.espressoBlocks then db.espressoBlocks[app] else 0
  }

  datatype Stmt = UpsertEpoch(epoch: EpochData) | InsertInput(input: Input, into: EpochKey)

  function KeyOf(e: EpochData): EpochKey {
    (e.app, e.index)
  }

  function Target(s: Stmt): EpochKey {
    match s
    case UpsertEpoch(e) => KeyOf(e)
    case InsertInput(_, into) => into
  }

  /** A conflicting epoch keeps its row and takes only the new status. */
  function UpsertedRow(db: Db, e: EpochData): EpochRow {
    if KeyOf(e) in db.epochs then db.epochs[KeyOf(e)].(status := e.status)
    else EpochRow(e.firstBlock, e.lastBlock, None, e.status)
  }

  function Exec(db: Db, s: Stmt): Option<Db> {
    match s
    case UpsertEpoch(e) =>
      if e.app !in db.apps then None
      else Some(db.(epochs := db.epochs[KeyOf(e) := UpsertedRow(db, e)]))
    case InsertInput(i, into) =>
      if i.app !in db.apps || into !in db.epochs || (i.app, i.index) in db.inputs then None
      else Some(db.(inputs := db.inputs[(i.app, i.index) := InputRow(i.raw, i.block, into, i.txId)]))
  }

  function ExecNext(d: Option<Db>, s: Stmt): Option<Db> {
    match d
    case None => None
    case Some(db) => Exec(db, s)
  }

  function Run(d: Option<Db>, stmts: seq<Stmt>): Option<Db> {
    if stmts == [] then d else ExecNext(Run(d, stmts[..|stmts| - 1]), stmts[|stmts| - 1])
  }

  function Inserts(inputs: seq<Input>, into: EpochKey): (r: seq<Stmt>)
    ensures |r| == |inputs|
  {
    seq(|inputs|, i requires 0 <= i < |inputs| => InsertInput(inputs[i], into))
  }

  function EntryStmts(e: Entry): seq<Stmt> {
    [UpsertEpoch(e.epoch)] + Inserts(e.inputs, KeyOf(e.epoch))
  }

  function EntriesStmts(entries: seq<Entry>): seq<Stmt> {
    if entries == [] then []
    else EntriesStmts(entries[..|entries| - 1]) + EntryStmts(entries[|entries| - 1])
  }

  /** UPDATE of a row that does not exist changes nothing and is no error. */
  function SetProcessedBlock(db: Db, app: Address, block: nat): Db {
    if app in db.apps
    then db.(apps := db.apps[app := db.apps[app].(lastProcessedBlock := block)])
    else db
  }

  /** The whole transaction: epochs and their inputs in the given order, then the block cursor. */
  function StoreEntries(db: Db, entries: seq<Entry>, block: nat, app: Address): Option<Db> {
    match Run(Some(db), EntriesStmts(entries))
    case None => None
    case Some(d) => Some(SetProcessedBlock(d, app, block))
  }

  function SetCounter(db: Db, app: Address, n: nat): Db {
    db.(counters := db.counters[app := n])
  }

  function SetNonce(db: Db, sender: Address, app: Address, n: nat): Db {
    db.(nonces := db.nonces[(sender, app) := n])
  }

  function SetEspressoBlock(db: Db, app: Address, block: nat): Db {
    db.(espressoBlocks := db.espressoBlocks[app := block])
  }

  // ---- statements that name different epochs commute ----

  lemma {:induction false} RunAppend(d: Option<Db>, a: seq<Stmt>, b: seq<Stmt>)
    ensures Run(d, a + b) == Run(Run(d, a), b)
  {
    if b == [] {
      assert a + b == a;
    } else {
      var n := |b| - 1;
      assert (a + b)[..|a + b| - 1] == a + b[..n];
      RunAppend(d, a, b[..n]);
    }
  }

  lemma SwapStmts(d: Option<Db>, s: Stmt, t: Stmt)
    requires Target(s) != Target(t)
    ensures ExecNext(ExecNext(d, s), t) == ExecNext(ExecNext(d, t), s)
  {
    if d.Some? {
      match (s, t) {
        case (UpsertEpoch(e), UpsertEpoch(f)) => SwapUpserts(d.value, e, f);
        case (InsertInput(i, k), InsertInput(j, l)) => SwapInserts(d.value, i, k, j, l);
        case (UpsertEpoch(e), InsertInput(i, k)) => SwapUpsertInsert(d.value, e, i, k);
        case (InsertInput(i, k), UpsertEpoch(e)) => SwapUpsertInsert(d.value, e, i, k);
      }
    }
  }

  lemma SwapUpserts(db: Db, e: EpochData, f: EpochData)
    requires KeyOf(e) != KeyOf(f)
    ensures ExecNext(Exec(db, UpsertEpoch(e)), UpsertEpoch(f))
         == ExecNext(Exec(db, UpsertEpoch(f)), UpsertEpoch(e))
  {
    var k, l, r, s := KeyOf(e), KeyOf(f), UpsertedRow(db, e), UpsertedRow(db, f);
    assert db.epochs[k := r][l := s] == db.epochs[l := s][k := r];
  }

  lemma SwapInserts(db: Db, i: Input, k: EpochKey, j: Input, l: EpochKey)
    ensures ExecNext(Exec(db, InsertInput(i, k)), InsertInput(j, l))
         == ExecNext(Exec(db, InsertInput(j, l)), InsertInput(i, k))
  {
    var a, b := (i.app, i.index), (j.app, j.index);
    if a != b {
      var r, s := InputRow(i.raw, i.block, k, i.txId), InputRow(j.raw, j.block, l, j.txId);
      assert db.inputs[a := r][b := s] == db.inputs[b := s][a := r];
    }
  }

  lemma SwapUpsertInsert(db: Db, e: EpochData, i: Input, k: EpochKey)
    requires KeyOf(e) != k
    ensures ExecNext(Exec(db, UpsertEpoch(e)), InsertInput(i, k))
         == ExecNext(Exec(db, InsertInput(i, k)), UpsertEpoch(e))
  {
  }

  lemma {:induction false} StmtPastBlock(d: Option<Db>, s: Stmt, block: seq<Stmt>)
    requires forall t | t in block :: Target(t) != Target(s)
    ensures ExecNext(Run(d, block), s) == Run(ExecNext(d, s), block)
  {
    if block != [] {
      var n := |block| - 1;
      assert forall t | t in block[..n] :: t in block;
      StmtPastBlock(d, s, block[..n]);
      SwapStmts(Run(d, block[..n]), block[n], s);
    }
  }

  lemma {:induction false} BlockPastBlock(d: Option<Db>, a: seq<Stmt>, b: seq<Stmt>)
    requires forall s, t | s in a && t in b :: Target(s) != Target(t)
    ensures Run(Run(d, a), b) == Run(Run(d, b), a)
  {
    if a != [] {
      var n := |a| - 1;
      assert forall s | s in a[..n] :: s in a;
      BlockPastBlock(d, a[..n], b);
      assert forall t | t in b :: Target(t) != Target(a[n]);
      StmtPastBlock(Run(d, a[..n]), a[n], b);
    }
  }

  lemma EntryTargets(e: Entry)
    ensures forall s | s in EntryStmts(e) :: Target(s) == KeyOf(e.epoch)
  {
  }

  lemma {:induction false} EntriesTargets(entries: seq<Entry>, s: Stmt)
    requires s in EntriesStmts(entries)
    ensures exists e :: e in entries && Target(s) == KeyOf(e.epoch)
  {
    var n := |entries| - 1;
    if s in EntriesStmts(entries[..n]) {
      EntriesTargets(entries[..n], s);
      var e :| e in entries[..n] && Target(s) == KeyOf(e.epoch);
      assert e in entries;
    } else {
      EntryTargets(entries[n]);
      assert entries[n] in entries;
    }
  }

  // ---- the order in which a Go map is walked does not show ----

  function Listed<K>(order: seq<K>, contents: map<K, Entry>): (r: seq<Entry>)
    requires forall k | k in order :: k in contents
    ensures |r| == |order|
  {
    seq(|order|, i requires 0 <= i < |order| => contents[order[i]])
  }

  ghost predicate NoDuplicates<K>(s: seq<K>) {
    forall i, j | 0 <= i < j < |s| :: s[i] != s[j]
  }

  /** `order` lists every key of `contents` once. */
  ghost predicate Enumerates<K>(order: seq<K>, contents: map<K, Entry>) {
    && NoDuplicates(order)
    && (forall k | k in order :: k in contents)
    && (forall k | k in contents :: k in order)
  }

  ghost predicate DistinctEpochs<K>(contents: map<K, Entry>) {
    forall k, l | k in contents && l in contents && k != l ::
      KeyOf(contents[k].epoch) != KeyOf(contents[l].epoch)
  }

  lemma ListedAppend<K>(a: seq<K>, b: seq<K>, contents: map<K, Entry>)
    requires forall k | k in a + b :: k in contents
    ensures forall k | k in a :: k in contents
    ensures forall k | k in b :: k in contents
    ensures Listed(a + b, contents) == Listed(a, contents) + Listed(b, contents)
  {
    forall k | k in a ensures k in contents { assert k in a + b; }
    forall k | k in b ensures k in contents { assert k in a + b; }
  }

  lemma {:induction false} EntriesStmtsAppend(a: seq<Entry>, b: seq<Entry>)
    ensures EntriesStmts(a + b) == EntriesStmts(a) + EntriesStmts(b)
  {
    hide EntryStmts;
    if b == [] {
      assert a + b == a;
    } else {
      var n := |b| - 1;
      assert (a + b)[..|a + b| - 1] == a + b[..n];
      EntriesStmtsAppend(a, b[..n]);
    }
  }

  /** One key may be walked last instead of where it stood. */
  lemma {:induction false} WalkLast<K>(
    d: Option<Db>, before: seq<K>, x: K, after: seq<K>, contents: map<K, Entry>)
    requires forall k | k in before + [x] + after :: k in contents
    requires forall k | k in before + after + [x] :: k in contents
    requires DistinctEpochs(contents) && x !in after
    ensures Run(d, EntriesStmts(Listed(before + [x] + after, contents)))
         == Run(d, EntriesStmts(Listed(before + after + [x], contents)))
    ensures |EntriesStmts(Listed(before + [x] + after, contents))|
         == |EntriesStmts(Listed(before + after + [x], contents))|
  {
    ListedAppend(before + [x], after, contents);
    ListedAppend(before, [x], contents);
    ListedAppend(before + after, [x], contents);
    ListedAppend(before, after, contents);
    var q, r := Listed([x], contents), Listed(after, contents);
    forall e, f | e in q && f in r ensures KeyOf(e.epoch) != KeyOf(f.epoch) {
      var i :| 0 <= i < |after| && contents[after[i]] == f;
    }
    RunEntryLast(d, Listed(before, contents), q, r);
  }

  lemma {:induction false} RunEntryLast(d: Option<Db>, p: seq<Entry>, q: seq<Entry>, r: seq<Entry>)
    requires forall e, f | e in q && f in r :: KeyOf(e.epoch) != KeyOf(f.epoch)
    ensures Run(d, EntriesStmts(p + q + r)) == Run(d, EntriesStmts(p + r + q))
    ensures |EntriesStmts(p + q + r)| == |EntriesStmts(p + r + q)|
  {
    RunThree(d, p, q, r);
    RunThree(d, p, r, q);
    forall s, t | s in EntriesStmts(q) && t in EntriesStmts(r) ensures Target(s) != Target(t) {
      EntriesTargets(q, s);
      EntriesTargets(r, t);
    }
    BlockPastBlock(Run(d, EntriesStmts(p)), EntriesStmts(q), EntriesStmts(r));
  }

  lemma {:induction false} RunThree(d: Option<Db>, p: seq<Entry>, q: seq<Entry>, r: seq<Entry>)
    ensures Run(d, EntriesStmts(p + q + r))
         == Run(Run(Run(d, EntriesStmts(p)), EntriesStmts(q)), EntriesStmts(r))
    ensures |EntriesStmts(p + q + r)|
         == |EntriesStmts(p)| + |EntriesStmts(q)| + |EntriesStmts(r)|
  {
    EntriesStmtsAppend(p + q, r);
    EntriesStmtsAppend(p, q);
    RunAppend(d, EntriesStmts(p + q), EntriesStmts(r));
    RunAppend(d, EntriesStmts(p), EntriesStmts(q));
  }

  /** Walking the same keys in any other order runs to the same tables, or fails alike. */
  lemma {:induction false} WalkOrderIrrelevant<K>(
    d: Option<Db>, p: seq<K>, q: seq<K>, contents: map<K, Entry>)
    requires NoDuplicates(p) && NoDuplicates(q)
    requires forall k :: k in p <==> k in q
    requires forall k | k in p :: k in contents
    requires DistinctEpochs(contents)
    ensures Run(d, EntriesStmts(Listed(p, contents))) == Run(d, EntriesStmts(Listed(q, contents)))
    ensures |EntriesStmts(Listed(p, contents))| == |EntriesStmts(Listed(q, contents))|
    decreases |p|
  {
    if p == [] {
      HeadIsMember(q);
    } else {
      var front, x := p[..|p| - 1], p[|p| - 1];
      assert p == front + [x] && x in p;
      var j :| 0 <= j < |q| && q[j] == x;
      var before, after := q[..j], q[j + 1..];
      assert q == before + [x] + after;
      SameKeysWithoutLast(p, before, x, after);
      WalkLast(d, before, x, after, contents);
      WalkOrderIrrelevant(d, front, before + after, contents);
      SameLast(d, front, before + after, x, contents);
    }
  }

  lemma {:induction false} SameLast<K>(
    d: Option<Db>, a: seq<K>, b: seq<K>, x: K, contents: map<K, Entry>)
    requires forall k | k in a + [x] :: k in contents
    requires forall k | k in b + [x] :: k in contents
    requires forall k | k in a :: k in contents
    requires forall k | k in b :: k in contents
    requires Run(d, EntriesStmts(Listed(a, contents))) == Run(d, EntriesStmts(Listed(b, contents)))
    requires |EntriesStmts(Listed(a, contents))| == |EntriesStmts(Listed(b, contents))|
    ensures Run(d, EntriesStmts(Listed(a + [x], contents)))
         == Run(d, EntriesStmts(Listed(b + [x], contents)))
    ensures |EntriesStmts(Listed(a + [x], contents))| == |EntriesStmts(Listed(b + [x], contents))|
  {
    RunListedLast(d, a, x, contents);
    RunListedLast(d, b, x, contents);
  }

  lemma {:induction false} RunListedLast<K>(
    d: Option<Db>, order: seq<K>, x: K, contents: map<K, Entry>)
    requires forall k | k in order + [x] :: k in contents
    ensures forall k | k in order :: k in contents
    ensures Run(d, EntriesStmts(Listed(order + [x], contents)))
         == Run(Run(d, EntriesStmts(Listed(order, contents))), EntriesStmts(Listed([x], contents)))
    ensures |EntriesStmts(Listed(order + [x], contents))|
         == |EntriesStmts(Listed(order, contents))| + |EntriesStmts(Listed([x], contents))|
  {
    ListedAppend(order, [x], contents);
    EntriesStmtsAppend(Listed(order, contents), Listed([x], contents));
    RunAppend(d, EntriesStmts(Listed(order, contents)), EntriesStmts(Listed([x], contents)));
  }

  lemma HeadIsMember<K>(q: seq<K>)
    ensures q == [] || q[0] in q
  {
  }

  lemma SameKeysWithoutLast<K>(p: seq<K>, before: seq<K>, x: K, after: seq<K>)
    requires p != [] && p[|p| - 1] == x
    requires NoDuplicates(p) && NoDuplicates(before + [x] + after)
    requires forall k :: k in p <==> k in before + [x] + after
    ensures NoDuplicates(p[..|p| - 1]) && NoDuplicates(before + after)
    ensures x !in after && x !in before
    ensures forall k :: k in p[..|p| - 1] <==> k in before + after
    ensures forall k :: k in before + after + [x] <==> k in p
  {
    var q, r := before + [x] + after, before + after;
    assert q[|before|] == x;
    assert forall i | 0 <= i < |after| :: after[i] == q[|before| + 1 + i];
    assert forall i | 0 <= i < |before| :: before[i] == q[i];
    assert forall i | 0 <= i < |r| :: r[i] == if i < |before| then q[i] else q[i + 1];
    assert x !in after && x !in before;
    LastIsOnce(p);
    forall k ensures k in p[..|p| - 1] <==> k in r {
      assert k in p <==> k in q;
    }
  }

  lemma LastIsOnce<K>(p: seq<K>)
    requires p != [] && NoDuplicates(p)
    ensures NoDuplicates(p[..|p| - 1])
    ensures forall k :: k in p[..|p| - 1] <==> k in p && k != p[|p| - 1]
  {
    assert p == p[..|p| - 1] + [p[|p| - 1]];
  }

  /** The storing transaction gives the same result for every order in which the map is walked. */
  lemma StoreOrderIrrelevant<K>(
    db: Db, p: seq<K>, q: seq<K>, contents: map<K, Entry>, block: nat, app: Address)
    requires Enumerates(p, contents) && Enumerates(q, contents) && DistinctEpochs(contents)
    ensures StoreEntries(db, Listed(p, contents), block, app)
         == StoreEntries(db, Listed(q, contents), block, app)
  {
    WalkOrderIrrelevant(Some(db), p, q, contents);
  }

  // ---- what a storing transaction can change ----

  /** Rows that were there stay, but for the status of epochs, and no row is left without its epoch. */
  ghost predicate OnlyAdds(before: Db, after: Db) {
    && after == before.(epochs := after.epochs, inputs := after.inputs, apps := after.apps)
    && (forall key | key in before.epochs ::
          key in after.epochs
          && after.epochs[key] == before.epochs[key].(status := after.epochs[key].status))
    && (forall key | key in before.inputs ::
          key in after.inputs && after.inputs[key] == before.inputs[key])
    && (forall key | key in after.inputs && key !in before.inputs ::
          after.inputs[key].epoch in after.epochs)
  }

  lemma OnlyAddsNothing(db: Db)
    ensures OnlyAdds(db, db)
  {
  }

  lemma ExecOnlyAdds(first: Db, db: Db, s: Stmt)
    requires OnlyAdds(first, db)
    ensures Exec(db, s).Some? ==> OnlyAdds(first, Exec(db, s).value)
  {
  }

  lemma {:induction false} RunOnlyAdds(db: Db, stmts: seq<Stmt>)
    ensures Run(Some(db), stmts).Some? ==> OnlyAdds(db, Run(Some(db), stmts).value)
  {
    hide Exec, OnlyAdds;
    if stmts == [] {
      OnlyAddsNothing(db);
    } else {
      var front, last := stmts[..|stmts| - 1], stmts[|stmts| - 1];
      RunOnlyAdds(db, front);
      var before := Run(Some(db), front);
      if before.Some? {
        ExecOnlyAdds(db, before.value, last);
      }
    }
  }

  /** A transaction that goes through, whatever it is given to store, changes of existing rows only
      the statuses of epochs and the block cursor, and gives every new input row a stored epoch. */
  lemma StoreOnlyAdds(db: Db, entries: seq<Entry>, block: nat, app: Address)
    ensures StoreEntries(db, entries, block, app).Some? ==>
              OnlyAdds(db, StoreEntries(db, entries, block, app).value)
  {
    hide EntriesStmts, Run;
    RunOnlyAdds(db, EntriesStmts(entries));
  }
}
