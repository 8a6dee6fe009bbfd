/** Any two readers of the same chains build the same log.

    When a reader's passes come, which of them bootstrap and which go block by block, which header
    answers fail where nothing is missed, and what else it serves: none of it shows in the input log of
    an application. Every run builds the log the in-sync loop would build over the same blocks, except
    that it may still have to read base-layer inputs at the end. */
module Agreement {
  import opened Model
  import opened Tables
  import opened World
  import opened Ledger
  import opened IngestRefinement
  import opened EspressoInput
  import opened EspressoRefinement
  import opened CatchUp
  import opened ReaderSteps
  import opened Coverage
  import opened RunRefinement
  import opened Interleaving
  import opened Independence
  import opened Turns
  import EvmAdvanceAbi
  import NamespaceTable

  /** Some of the blocks from .. until-1, in rising order, and every one with the namespace. */
  ghost predicate Suffices(world: World, hs: seq<nat>, from: nat, until: nat) {
    && (forall k | 0 <= k < |hs| :: from <= hs[k] < until)
    && (forall j, k | 0 <= j < k < |hs| :: hs[j] < hs[k])
    && (forall h: nat | from <= h < until && HasNamespace(world, h) :: h in hs)
  }

  lemma SufficesWithoutLast(world: World, hs: seq<nat>, from: nat, until: nat)
    requires from < until && Suffices(world, hs, from, until)
    ensures hs != [] && hs[|hs| - 1] == until - 1 ==>
              Suffices(world, hs[..|hs| - 1], from, until - 1)
    ensures hs == [] || hs[|hs| - 1] != until - 1 ==>
              Suffices(world, hs, from, until - 1) && !HasNamespace(world, until - 1)
  {
    hide HasNamespace;
    if hs != [] {
      var front, last := hs[..|hs| - 1], hs[|hs| - 1];
      assert hs == front + [last];
      if last == until - 1 {
        assert forall h | h in hs :: h in front || h == last;
      } else {
        assert forall k | 0 <= k < |hs| :: hs[k] < until - 1;
      }
    }
  }

  /** Visiting such blocks falls behind visiting all of them by base-layer inputs only. */
  lemma {:induction false} SomeRefineAll(
    world: World, app: Address, p: Progress, hs: seq<nat>, from: nat, until: nat)
    requires GoodWorld(world, app) && Suffices(world, hs, from, until)
    requires HeightsRise(world, p.cursor, from, until) && TablesComplete(world, from, until)
    ensures var b := ProgressOver(world, app, p, hs);
            var s := InSync(world, app, p, from, until);
            && p.cursor <= b.cursor <= s.cursor
            && s.cursor == (if from < until then world.l1FinalizedHeight(until - 1) else p.cursor)
            && s.ledger == L1Advance(world, app, b.ledger, b.cursor, s.cursor)
            && (from < until && HasNamespace(world, until - 1) ==> b == s)
    decreases until
  {
    hide HasNamespace, LedgerDeliver, Suffices;
    if from < until {
      var h := until - 1;
      var f := world.l1FinalizedHeight(h);
      SufficesWithoutLast(world, hs, from, until);
      var visited := hs != [] && hs[|hs| - 1] == h;
      var front := if visited then hs[..|hs| - 1] else hs;
      SomeRefineAll(world, app, p, front, from, h);
      var b := ProgressOver(world, app, p, front);
      var s := InSync(world, app, p, from, h);
      L1AdvanceTwice(world, app, b.ledger, b.cursor, s.cursor, f);
    } else {
      NoBlocksSuffice(world, hs, from, until);
    }
  }

  lemma NoBlocksSuffice(world: World, hs: seq<nat>, from: nat, until: nat)
    requires Suffices(world, hs, from, until) && until <= from
    ensures hs == []
  {
    HeadIsMember(hs);
  }

  // ---- the visits of a run suffice ----

  /** In catching up, answers are complete, or fail where there is nothing to miss. */
  ghost predicate PassFindsAll(world: World, latest: nat, last: nat) {
    var batches := Batches(PassFrom(world, latest, last) + 1, latest);
    CatchesUp(latest, last) ==>
      && (forall k | 0 <= k < |batches| :: Honest(world, batches[k]) || Failed(world, batches[k]))
      && FailuresUnnoticed(world, batches)
  }

  ghost predicate RunFindsAll(world: World, heights: seq<nat>, last: nat) {
    forall k | 0 <= k < |heights| :: PassFindsAll(world, heights[k], RunCursor(heights[..k], last))
  }

  lemma PassSuffices(world: World, latest: nat, last: nat)
    requires PassFindsAll(world, latest, last)
    ensures Suffices(world, PassVisits(world, latest, last), PassFrom(world, latest, last) + 1,
                     latest + 1)
  {
    hide HasNamespace, Honest, Failed, FailuresUnnoticed, Batches, BootstrapVisits, Blocks,
      BlocksWithNamespace, PassFrom, CatchesUp;
    var first := PassFrom(world, latest, last) + 1;
    BlocksAre(first, latest + 1);
    BlocksWithNamespaceAre(world, first, latest + 1);
    NothingBefore(world, first, latest + 1);
    if CatchesUp(latest, last) {
      if first <= latest + 1 {
        BootstrapVisitsExactly(world, first, latest);
      } else {
        NoVisits(world, first, latest);
      }
    } else {
      var all := Blocks(first, latest + 1);
      forall h: nat | first <= h < latest + 1 ensures h in all {
        assert all[h - first] == h;
      }
    }
  }

  lemma NoVisits(world: World, first: nat, latest: nat)
    requires latest < first
    ensures BootstrapVisits(world, first, latest) == []
  {
  }

  lemma SufficeJoin(world: World, a: seq<nat>, b: seq<nat>, from: nat, middle: nat, until: nat)
    requires Suffices(world, a, from, middle) && Suffices(world, b, middle, until)
    requires from <= middle <= until
    ensures Suffices(world, a + b, from, until)
  {
    hide HasNamespace;
    var ab := a + b;
    assert forall k | 0 <= k < |a| :: ab[k] == a[k];
    assert forall k | 0 <= k < |b| :: ab[|a| + k] == b[k];
    forall j, k | 0 <= j < k < |ab| ensures ab[j] < ab[k] {
      if k < |a| {
        assert a[j] < a[k];
      } else if |a| <= j {
        assert b[j - |a|] < b[k - |a|];
      }
    }
    forall h: nat | from <= h < until && HasNamespace(world, h) ensures h in ab {
      assert h in a || h in b;
    }
  }

  lemma {:induction false} RunSuffices(world: World, heights: seq<nat>, last: nat)
    requires LatestRises(heights, last) && RunFindsAll(world, heights, last)
    ensures Suffices(world, RunVisits(world, heights, last), RunStart(world, heights, last),
                     RunCursor(heights, last) + 1)
    ensures 1 <= RunStart(world, heights, last) <= RunCursor(heights, last) + 1
  {
    hide HasNamespace, Suffices, PassVisits, PassFindsAll, Blocks, PassBlocks, RunBlocks, NextStart,
      PassCursor;
    RunCoversOnce(world, heights, last);
    if heights == [] {
      EmptySuffices(world, last + 1);
    } else {
      var front, latest := heights[..|heights| - 1], heights[|heights| - 1];
      FrontRises(heights, last);
      FrontFindsAll(world, heights, last);
      RunCoversOnce(world, front, last);
      RunSuffices(world, front, last);
      PassSuffices(world, latest, RunCursor(front, last));
      PassFits(world, latest, RunCursor(front, last), RunStart(world, front, last),
               RunVisits(world, front, last));
    }
  }

  lemma EmptySuffices(world: World, from: nat)
    ensures Suffices(world, [], from, from)
  {
  }

  lemma FrontFindsAll(world: World, heights: seq<nat>, last: nat)
    requires heights != [] && RunFindsAll(world, heights, last)
    ensures var front, latest := heights[..|heights| - 1], heights[|heights| - 1];
            RunFindsAll(world, front, last) && PassFindsAll(world, latest, RunCursor(front, last))
  {
    hide PassFindsAll;
    var front := heights[..|heights| - 1];
    assert forall k | 0 <= k < |front| :: front[..k] == heights[..k] && front[k] == heights[k];
  }

  /** A pass goes on where the blocks before end; or there were none, and it sets the start. */
  lemma PassFits(world: World, latest: nat, c: nat, start: nat, before: seq<nat>)
    requires c <= latest < TWO_TO_64 && 1 <= start <= c + 1
    requires Suffices(world, before, start, c + 1)
    requires Suffices(world, PassVisits(world, latest, c), PassFrom(world, latest, c) + 1, latest + 1)
    ensures PassCursor(latest, c) == latest
    ensures Suffices(world, before + PassVisits(world, latest, c), NextStart(world, latest, c, start),
                     latest + 1)
  {
    hide Suffices, PassVisits;
    var hs := PassVisits(world, latest, c);
    if c == 0 {
      NoBlocksSuffice(world, before, start, 1);
      assert before + hs == hs;
      if PassFrom(world, latest, 0) > latest {
        NoBlocksSuffice(world, hs, PassFrom(world, latest, 0) + 1, latest + 1);
        EmptySuffices(world, latest + 1);
      }
    } else {
      SufficeJoin(world, before, hs, start, c + 1, latest + 1);
    }
  }

  // ---- a run against the in-sync loop ----

  lemma SufficientRise(world: World, hs: seq<nat>, from: nat, until: nat, cursor: nat)
    requires Suffices(world, hs, from, until) && HeightsRise(world, cursor, from, until)
    ensures RisesOver(world, hs, cursor)
  {
    hide HasNamespace;
  }

  /** What is assumed for the blocks a run covers. */
  ghost predicate GoodRun(world: World, db: Db, app: Address, heights: seq<nat>)
    requires app in db.apps
  {
    var last, cursor := EspressoBlock(db, app), ResumesAt(world, db, app);
    var from, until := RunStart(world, heights, last), RunCursor(heights, last) + 1;
    && GoodWorld(world, app) && AppInvariant(world, db, app, cursor)
    && LatestRises(heights, last) && RunFindsAll(world, heights, last)
    && HeightsRise(world, cursor, from, until) && TablesComplete(world, from, until)
    && StoresSucceed(world, app, RunVisits(world, heights, last))
  }

  /** What the in-sync loop alone would have after the blocks a run covers. */
  ghost function AllInSync(world: World, db: Db, app: Address, heights: seq<nat>): Progress
    requires world.epochLength(app) >= 1 && app in db.apps && Dense(db, app)
  {
    var last := EspressoBlock(db, app);
    InSync(world, app, Progress(LedgerOf(db, app), ResumesAt(world, db, app)),
           RunStart(world, heights, last), RunCursor(heights, last) + 1)
  }

  ghost predicate EndsWithNamespace(world: World, heights: seq<nat>, last: nat) {
    RunStart(world, heights, last) <= RunCursor(heights, last)
    && HasNamespace(world, RunCursor(heights, last))
  }

  /** A ledger is behind by base-layer inputs. */
  ghost predicate BehindByBox(l: Ledger, s: Ledger) {
    && l.log <= s.log && (forall i | |l.log| <= i < |s.log| :: FromBox(s.log[i]))
    && l.epochs <= s.epochs && l.nonces == s.nonces
  }

  /** However its passes come and whichever branch each takes, a run leaves in the tables what the
      in-sync loop would have over the same blocks, but for base-layer inputs at the end, and all of it
      if the last block has the namespace. */
  lemma RunMatchesInSync(world: World, db: Db, app: Address, heights: seq<nat>)
    requires app in db.apps && GoodRun(world, db, app, heights)
    ensures Dense(db, app) && world.epochLength(app) >= 1
    ensures var after, s := RunPasses(world, db, app, heights), AllInSync(world, db, app, heights);
            && app in after.apps && Dense(after, app)
            && BehindByBox(LedgerOf(after, app), s.ledger)
            && (EndsWithNamespace(world, heights, EspressoBlock(db, app)) ==>
                  LedgerOf(after, app) == s.ledger && ResumesAt(world, after, app) == s.cursor)
  {
    hide AppInvariant, HeightsRise, TablesComplete, StoresSucceed, RunFindsAll, LatestRises, RunPasses,
      RunVisits, RunStart, RunCursor, ProgressOver, InSync, Suffices, HasNamespace, GoodWorld, L1Advance,
      RisesOver, StartCursor;
    var last, cursor := EspressoBlock(db, app), ResumesAt(world, db, app);
    InvariantBasics(world, db, app, cursor);
    var hs, p := RunVisits(world, heights, last), Progress(LedgerOf(db, app), cursor);
    RunSuffices(world, heights, last);
    var from, until := RunStart(world, heights, last), RunCursor(heights, last) + 1;
    SufficientRise(world, hs, from, until, cursor);
    SomeRefineAll(world, app, p, hs, from, until);
    RunRefines(world, db, app, heights);
    var after := RunPasses(world, db, app, heights);
    InvariantBasics(world, after, app, ResumesAt(world, after, app));
    L1AdvanceAppendsBox(world, app, LedgerOf(after, app), ResumesAt(world, after, app),
                        AllInSync(world, db, app, heights).cursor);
  }

  // ---- two readers ----

  /** Worlds two readers may be in: the same chains, but other header answers, other orders of claim
      answers, another configured first block, and other failures, but of Espresso stores. */
  ghost predicate SameChains(a: World, b: World) {
    b == a.(headerAnswer := b.headerAnswer, claimOrder := b.claimOrder,
            startingBlock := b.startingBlock, inputStoreFault := b.inputStoreFault,
            claimUpdateFails := b.claimUpdateFails, outputUpdateFails := b.outputUpdateFails)
  }

  lemma {:induction false} SameDelivery(
    a: World, b: World, app: Address, l: Ledger, h: nat, n: nat)
    requires SameChains(a, b) && a.epochLength(app) >= 1 && n <= |a.transactions(h)|
    ensures LedgerDeliverUpTo(a, app, l, h, n) == LedgerDeliverUpTo(b, app, l, h, n)
  {
    hide EvmAdvanceAbi.Pack, PayloadBytes;
    if n > 0 {
      SameDelivery(a, b, app, l, h, n - 1);
    }
  }

  lemma {:induction false} SameSync(
    a: World, b: World, app: Address, p: Progress, from: nat, until: nat)
    requires SameChains(a, b) && a.epochLength(app) >= 1
    ensures InSync(a, app, p, from, until) == InSync(b, app, p, from, until)
    decreases until
  {
    hide LedgerDeliverUpTo;
    if from < until {
      var before, h := InSync(a, app, p, from, until - 1), until - 1;
      SameSync(a, b, app, p, from, until - 1);
      SameDelivery(a, b, app,
                   L1Advance(a, app, before.ledger, before.cursor, a.l1FinalizedHeight(h)), h,
                   |a.transactions(h)|);
    }
  }

  lemma {:induction false} RunsAlike(world: World, x: Db, y: Db, app: Address, heights: seq<nat>)
    requires world.epochLength(app) >= 1 && SameFor(x, y, app)
    ensures SameFor(RunPasses(world, x, app, heights), RunPasses(world, y, app, heights), app)
  {
    hide AppPass, RowsAgree, NoncesAgree, Counter, EspressoBlock;
    if heights != [] {
      var front := heights[..|heights| - 1];
      RunsAlike(world, x, y, app, front);
      var p, q := RunPasses(world, x, app, front), RunPasses(world, y, app, front);
      if app in p.apps {
        PassAlike(world, p, q, app, p.apps[app], heights[|heights| - 1]);
      }
    }
  }

  /** The inputs of two readers agree as far as both have got, and the one that is ahead is so by
      base-layer inputs only. */
  ghost predicate InputsAgree(x: Db, y: Db, app: Address) {
    && Dense(x, app) && Dense(y, app)
    && (forall i: nat | i < Counter(x, app) && i < Counter(y, app) ::
          x.inputs[(app, i)] == y.inputs[(app, i)])
    && (forall i: nat | Counter(x, app) <= i < Counter(y, app) :: FromBox(y.inputs[(app, i)]))
    && (forall i: nat | Counter(y, app) <= i < Counter(x, app) :: FromBox(x.inputs[(app, i)]))
  }

  lemma BothBehind(x: Db, y: Db, app: Address, s: Ledger)
    requires Dense(x, app) && Dense(y, app)
    requires BehindByBox(LedgerOf(x, app), s) && BehindByBox(LedgerOf(y, app), s)
    ensures InputsAgree(x, y, app) && NoncesAgree(x.nonces, y.nonces, app)
  {
    var l, r := LedgerOf(x, app).log, LedgerOf(y, app).log;
    assert forall i: nat | i < Counter(x, app) :: x.inputs[(app, i)] == l[i] == s.log[i];
    assert forall i: nat | i < Counter(y, app) :: y.inputs[(app, i)] == r[i] == s.log[i];
  }

  /** Two readers that began alike and have covered the same blocks, in passes of whatever heights. */
  lemma TwoRunsAgree(
    a: World, b: World, db: Db, app: Address, heights: seq<nat>, others: seq<nat>)
    requires SameChains(a, b) && app in db.apps
    requires GoodRun(a, db, app, heights) && GoodRun(b, db, app, others)
    requires var last := EspressoBlock(db, app);
             && RunStart(a, heights, last) == RunStart(b, others, last)
             && RunCursor(heights, last) == RunCursor(others, last)
    ensures a.epochLength(app) >= 1
    ensures var x, y := RunPasses(a, db, app, heights), RunPasses(b, db, app, others);
            && InputsAgree(x, y, app) && NoncesAgree(x.nonces, y.nonces, app)
            && (EndsWithNamespace(a, heights, EspressoBlock(db, app)) ==>
                  LedgerOf(x, app) == LedgerOf(y, app))
  {
    hide GoodRun, RunPasses, RunStart, RunCursor, InSync, HasNamespace, InputsAgree, NoncesAgree,
      BehindByBox, StartCursor, LedgerOf;
    RunMatchesInSync(a, db, app, heights);
    RunMatchesInSync(b, db, app, others);
    var last := EspressoBlock(db, app);
    SameSync(a, b, app, Progress(LedgerOf(db, app), ResumesAt(a, db, app)),
             RunStart(a, heights, last), RunCursor(heights, last) + 1);
    SameNamespace(a, b, RunCursor(heights, last));
    SameResume(a, b, db, app);
    BothBehind(RunPasses(a, db, app, heights), RunPasses(b, db, app, others), app,
               AllInSync(a, db, app, heights).ledger);
  }

  lemma SameNamespace(a: World, b: World, h: nat)
    requires SameChains(a, b)
    ensures HasNamespace(a, h) <==> HasNamespace(b, h)
  {
    hide NamespaceTable.Readable, NamespaceTable.NamespacesIn;
  }

  lemma SameResume(a: World, b: World, db: Db, app: Address)
    requires SameChains(a, b) && app in db.apps
    ensures ResumesAt(a, db, app) == ResumesAt(b, db, app)
  {
  }

  // ---- with other applications about ----

  lemma GoodRunAlike(world: World, x: Db, y: Db, app: Address, heights: seq<nat>)
    requires SameFor(x, y, app) && app in x.apps && GoodRun(world, x, app, heights)
    ensures app in y.apps && GoodRun(world, y, app, heights)
  {
    hide AppInvariant, RowsAgree, NoncesAgree, HeightsRise, TablesComplete, StoresSucceed, RunFindsAll,
      LatestRises, RunVisits, RunStart, RunCursor, GoodWorld, StartCursor;
    ApartIsOutside(x, y, app);
    QuietIfOutside(x, y, app);
    QuietKeeps(world, x, y, app, ResumesAt(world, x, app));
  }

  lemma QuietIfOutside(x: Db, y: Db, app: Address)
    requires Outside(x, y, app)
    ensures Quiet(x, y, app)
  {
  }

  lemma InputsAgreeToo(x: Db, y: Db, p: Db, q: Db, app: Address)
    requires SameFor(p, x, app) && SameFor(q, y, app) && InputsAgree(x, y, app)
    ensures InputsAgree(p, q, app)
    ensures NoncesAgree(x.nonces, y.nonces, app) ==> NoncesAgree(p.nonces, q.nonces, app)
  {
    forall i: nat
      ensures (app, i) in p.inputs <==> (app, i) in x.inputs
      ensures (app, i) in p.inputs ==> p.inputs[(app, i)] == x.inputs[(app, i)]
      ensures (app, i) in q.inputs <==> (app, i) in y.inputs
      ensures (app, i) in q.inputs ==> q.inputs[(app, i)] == y.inputs[(app, i)]
    {
      OneRow(p.inputs, x.inputs, app, i);
      OneRow(q.inputs, y.inputs, app, i);
    }
    if NoncesAgree(x.nonces, y.nonces, app) {
      forall s: Address ensures NonceIn(p.nonces, s, app) == NonceIn(q.nonces, s, app) {
        assert NonceIn(p.nonces, s, app) == NonceIn(x.nonces, s, app);
        assert NonceIn(q.nonces, s, app) == NonceIn(y.nonces, s, app);
      }
    }
  }

  lemma EpochsAgreeToo(x: Db, y: Db, app: Address)
    requires SameFor(x, y, app)
    ensures EpochsOf(x, app) == EpochsOf(y, app)
  {
    forall n: nat ensures n in EpochsOf(x, app) <==> n in EpochsOf(y, app) {
      assert n in EpochsOf(x, app) <==> (app, n) in x.epochs;
      assert n in EpochsOf(y, app) <==> (app, n) in y.epochs;
    }
  }

  /** Two readers with databases of their own, which began alike for an application and have covered the
      same Espresso blocks for it, have the same inputs of it under the same indices as far as both have
      got; one may be ahead by base-layer inputs; the nonces are the same; and if the last block has the
      namespace neither is ahead and the epochs are the same. This is so whatever the heights and
      branches of their passes, the turns of other applications, and the header answers and claim and
      output updates that fail. */
  lemma TwoReadersAgree(
    a: World, b: World, db: Db, db': Db, app: Address, turns: seq<Turn>, others: seq<Turn>)
    requires SameChains(a, b) && LengthsSet(a, turns) && LengthsSet(b, others)
    requires SameFor(db, db', app) && app in db.apps && app in db'.apps
    requires GoodRun(a, db, app, HeightsOf(turns, app)) && GoodRun(b, db', app, HeightsOf(others, app))
    requires var last := EspressoBlock(db, app);
             && RunStart(a, HeightsOf(turns, app), last) == RunStart(b, HeightsOf(others, app), last)
             && RunCursor(HeightsOf(turns, app), last) == RunCursor(HeightsOf(others, app), last)
    ensures var x, y := TakeTurns(a, db, turns), TakeTurns(b, db', others);
            && InputsAgree(x, y, app) && NoncesAgree(x.nonces, y.nonces, app)
            && (EndsWithNamespace(a, HeightsOf(turns, app), EspressoBlock(db, app)) ==>
                  Counter(x, app) == Counter(y, app) && EpochsOf(x, app) == EpochsOf(y, app))
  {
    hide GoodRun, RunPasses, TakeTurns, RunStart, RunCursor, EndsWithNamespace, InputsAgree, NoncesAgree,
      RowsAgree, AppAgrees, EpochsOf, Counter, Dense;
    var heights, heights' := HeightsOf(turns, app), HeightsOf(others, app);
    SameForBack(db, db', app);
    GoodRunAlike(b, db', db, app, heights');
    TwoRunsAgree(a, b, db, app, heights, heights');
    TurnsAreIndependent(a, db, turns, app);
    TurnsAreIndependent(b, db', others, app);
    RunsAlike(b, db', db, app, heights');
    var x, y := TakeTurns(a, db, turns), TakeTurns(b, db', others);
    var p, q := RunPasses(a, db, app, heights), RunPasses(b, db, app, heights');
    SameForThrough(y, RunPasses(b, db', app, heights'), q, app);
    InputsAgreeToo(p, q, x, y, app);
    EpochsAgreeToo(x, p, app);
    EpochsAgreeToo(y, q, app);
    if EndsWithNamespace(a, heights, EspressoBlock(db, app)) {
      SameCounters(p, q, app);
    }
  }

  lemma SameCounters(x: Db, y: Db, app: Address)
    requires InputsAgree(x, y, app) && LedgerOf(x, app) == LedgerOf(y, app)
    ensures Counter(x, app) == Counter(y, app) && EpochsOf(x, app) == EpochsOf(y, app)
  {
    assert |LedgerOf(x, app).log| == Counter(x, app) && |LedgerOf(y, app).log| == Counter(y, app);
  }
}
