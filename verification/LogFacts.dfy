/** What the input log of an application looks like at every moment: in which order its inputs stand,
    which base-layer inputs it has, and which index each input's calldata names. */
module LogFacts {
  import opened Model
  import opened Tables
  import opened World
  import opened Ingest
  import opened Ledger
  import opened IngestRefinement
  import opened EspressoInput
  import opened EspressoRefinement
  import opened CatchUp
  import opened ReaderSteps
  import EvmAdvanceAbi

  const TWO_TO_63: nat := EvmAdvanceAbi.TWO_TO_63

  /** Every stored calldata names the index its row is stored under, up to where an int64 ends. */
  ghost predicate RawIndicesMatch(log: seq<InputRow>) {
    forall i | 0 <= i < |log| && i < TWO_TO_63 ::
      EvmAdvanceAbi.IndexInRaw(log[i].raw) == Some(i)
  }

  /** The InputBox emits calldata that decodes and names the index of the event. */
  ghost predicate BoxCalldata(world: World, app: Address) {
    forall e | e in world.inputsAdded && e.app == app ::
      EvmAdvanceAbi.IndexInRaw(e.raw) == Some(e.index)
      && |e.raw| < EvmAdvanceAbi.Pow256(EvmAdvanceAbi.WORD_BYTES)
  }

  /** What an Espresso input is packed from fits the words of the encoding. */
  ghost predicate EspressoFits(world: World, app: Address) {
    forall h: nat, i: nat | i < |world.transactions(h)| ::
      var tx := world.transactions(h)[i];
      tx.Signed? && tx.app == app && PayloadBytes(tx.payload).Some? ==>
        EvmAdvanceAbi.Fits(TheCall(world, h, app, tx.sender, 0, PayloadBytes(tx.payload).value))
  }

  lemma RenumberedRaw(input: Input, counter: nat)
    requires EvmAdvanceAbi.IndexInRaw(input.raw) == Some(input.index)
    requires |input.raw| < EvmAdvanceAbi.Pow256(EvmAdvanceAbi.WORD_BYTES)
    requires counter < TWO_TO_63
    ensures EvmAdvanceAbi.IndexInRaw(Renumbered(input, counter, true).raw) == Some(counter)
    ensures Renumbered(input, counter, true).index == counter
  {
    hide EvmAdvanceAbi.ModifyIndexInRaw;
    if counter != input.index {
      EvmAdvanceAbi.ModifyIndexKeepsOtherFields(input.raw, counter);
    }
  }

  lemma BoxInputRaw(world: World, app: Address, startBlock: nat, endBlock: nat, input: Input)
    requires BoxCalldata(world, app)
    requires input in InputsIn(world.inputsAdded, app, startBlock, endBlock)
    ensures EvmAdvanceAbi.IndexInRaw(input.raw) == Some(input.index)
    ensures |input.raw| < EvmAdvanceAbi.Pow256(EvmAdvanceAbi.WORD_BYTES)
  {
    hide InputsIn, EvmAdvanceAbi.IndexInRaw, EvmAdvanceAbi.Pow256;
    InputsInMembers(world.inputsAdded, app, startBlock, endBlock);
    var i :| 0 <= i < |world.inputsAdded| && world.inputsAdded[i].app == app
      && input == InputOf(world.inputsAdded[i]);
    assert world.inputsAdded[i] in world.inputsAdded;
  }

  lemma NewRowRaw(world: World, app: Address, base: nat, from: nat, to: nat, i: nat)
    requires GoodWorld(world, app) && BoxCalldata(world, app)
    requires i < |NewRows(world, app, base, from, to)| && base + i < TWO_TO_63
    ensures EvmAdvanceAbi.IndexInRaw(NewRows(world, app, base, from, to)[i].raw) == Some(base + i)
  {
    hide InputsIn, BoxCalldata, EvmAdvanceAbi.IndexInRaw, EvmAdvanceAbi.Pow256, Renumbered;
    var inputs := InputsIn(world.inputsAdded, app, from + 1, to);
    assert inputs[i] in inputs;
    BoxInputRaw(world, app, from + 1, to, inputs[i]);
    RenumberedRaw(inputs[i], base + i);
  }

  lemma L1AdvanceRawIndices(world: World, app: Address, l: Ledger, from: nat, to: nat)
    requires GoodWorld(world, app) && BoxCalldata(world, app)
    requires RawIndicesMatch(l.log)
    ensures RawIndicesMatch(L1Advance(world, app, l, from, to).log)
  {
    hide InputsIn, BoxCalldata, EvmAdvanceAbi.IndexInRaw, NewRows;
    if from < to {
      var rows := NewRows(world, app, |l.log|, from, to);
      AdvancedLog(world, app, l, from, to);
      forall i | 0 <= i < |rows| && |l.log| + i < TWO_TO_63
        ensures EvmAdvanceAbi.IndexInRaw(rows[i].raw) == Some(|l.log| + i)
      {
        NewRowRaw(world, app, |l.log|, from, to, i);
      }
    }
  }

  lemma DeliverRawIndices(world: World, app: Address, l: Ledger, h: nat, i: nat)
    requires world.epochLength(app) >= 1 && i < |world.transactions(h)|
    requires EspressoFits(world, app) && RawIndicesMatch(l.log)
    ensures RawIndicesMatch(LedgerDeliver(world, app, l, h, i).log)
  {
    hide EvmAdvanceAbi.Pack, EvmAdvanceAbi.IndexInRaw, PickedEpoch;
    if Accepts(world, app, l, h, i) && |l.log| < TWO_TO_63 {
      var tx := world.transactions(h)[i];
      var call := TheCall(world, h, app, tx.sender, |l.log|, PayloadBytes(tx.payload).value);
      IndexFits(call, |l.log|);
      EvmAdvanceAbi.PackedCallDecodes(call);
    }
  }

  lemma IndexFits(call: EvmAdvanceAbi.EvmAdvance, index: nat)
    requires index < TWO_TO_63
    ensures EvmAdvanceAbi.Fits(call.(index := 0)) && call.index == index ==>
              EvmAdvanceAbi.Fits(call)
  {
    EvmAdvanceAbi.Pow256Facts();
  }

  // ---- over whole runs ----

  /** Ordered by block with the base layer first, nothing past the cursor, indices right. */
  ghost predicate GoodLog(log: seq<InputRow>, cursor: nat) {
    LogOrdered(log) && LogUpTo(log, cursor) && RawIndicesMatch(log)
  }

  ghost predicate GoodCalldata(world: World, app: Address) {
    BoxCalldata(world, app) && EspressoFits(world, app)
  }

  lemma {:induction false} DeliverUpToKeepsLog(world: World, app: Address, l: Ledger, h: nat, n: nat)
    requires world.epochLength(app) >= 1 && n <= |world.transactions(h)|
    requires GoodCalldata(world, app) && GoodLog(l.log, world.l1FinalizedHeight(h))
    ensures var after := LedgerDeliverUpTo(world, app, l, h, n);
            && GoodLog(after.log, world.l1FinalizedHeight(h))
            && BoxIndices(after.log) == BoxIndices(l.log)
            && l.log <= after.log
  {
    hide LedgerDeliver, LogOrdered, LogUpTo, RawIndicesMatch, BoxCalldata, EspressoFits, BoxIndices;
    if n > 0 {
      var before := LedgerDeliverUpTo(world, app, l, h, n - 1);
      DeliverGrows(world, app, before, h, n - 1);
      DeliverUpToKeepsLog(world, app, l, h, n - 1);
      DeliverKeepsOrder(world, app, before, h, n - 1);
      DeliverConserves(world, app, before, h, n - 1);
      DeliverRawIndices(world, app, before, h, n - 1);
    }
  }

  lemma DeliverGrows(world: World, app: Address, l: Ledger, h: nat, i: nat)
    requires world.epochLength(app) >= 1 && i < |world.transactions(h)|
    ensures var after := LedgerDeliver(world, app, l, h, i);
            l.log <= after.log && (after != l ==> |l.log| < |after.log|)
  {
    hide EspressoRow, PickedEpoch, Admissible;
  }

  /** One visited block: the log stays good, and of base-layer inputs it gains exactly those between
      the two finalized heights, in chain order. */
  lemma VisitKeepsLog(world: World, app: Address, p: Progress, h: nat)
    requires GoodWorld(world, app) && GoodCalldata(world, app) && GoodLog(p.ledger.log, p.cursor)
    requires p.cursor <= world.l1FinalizedHeight(h)
    ensures var q := VisitBlock(world, app, p, h);
            && GoodLog(q.ledger.log, q.cursor)
            && BoxIndices(q.ledger.log)
                 == BoxIndices(p.ledger.log) + EventsRead(world, app, p.cursor, q.cursor)
            && p.ledger.log <= q.ledger.log
  {
    hide L1Advance, LedgerDeliverUpTo, LogOrdered, LogUpTo, RawIndicesMatch, BoxCalldata,
      EspressoFits, BoxIndices, EventsRead;
    var f := world.l1FinalizedHeight(h);
    var read := L1Advance(world, app, p.ledger, p.cursor, f);
    var n := |world.transactions(h)|;
    L1AdvanceAppendsBox(world, app, p.ledger, p.cursor, f);
    DeliverUpToGrows(world, app, read, h, n);
    L1AdvanceKeepsOrder(world, app, p.ledger, p.cursor, f);
    L1AdvanceConserves(world, app, p.ledger, p.cursor, f);
    L1AdvanceRawIndices(world, app, p.ledger, p.cursor, f);
    DeliverUpToKeepsLog(world, app, read, h, n);
  }

  lemma {:induction false} DeliverUpToGrows(world: World, app: Address, l: Ledger, h: nat, n: nat)
    requires world.epochLength(app) >= 1 && n <= |world.transactions(h)|
    ensures l.log <= LedgerDeliverUpTo(world, app, l, h, n).log
  {
    hide LedgerDeliver;
    if n > 0 {
      DeliverUpToGrows(world, app, l, h, n - 1);
      DeliverGrows(world, app, LedgerDeliverUpTo(world, app, l, h, n - 1), h, n - 1);
    }
  }

  /** A run over any blocks with finalized heights that never fall. */
  lemma {:induction false} RunKeepsLog(world: World, app: Address, p: Progress, hs: seq<nat>)
    requires GoodWorld(world, app) && GoodCalldata(world, app) && GoodLog(p.ledger.log, p.cursor)
    requires RisesOver(world, hs, p.cursor)
    ensures var q := ProgressOver(world, app, p, hs);
            && q.cursor == CursorOver(world, hs, p.cursor) && p.cursor <= q.cursor
            && GoodLog(q.ledger.log, q.cursor)
            && BoxIndices(q.ledger.log)
                 == BoxIndices(p.ledger.log) + EventsRead(world, app, p.cursor, q.cursor)
            && p.ledger.log <= q.ledger.log
  {
    hide GoodLog, GoodCalldata, BoxIndices, EventsRead, LedgerDeliverUpTo, L1Advance;
    if hs == [] {
      NothingRead(world, app, p.cursor);
      assert BoxIndices(p.ledger.log) + [] == BoxIndices(p.ledger.log);
    } else {
      var front, h := hs[..|hs| - 1], hs[|hs| - 1];
      var before := ProgressOver(world, app, p, front);
      VisitGrows(world, app, before, h);
      RunKeepsLog(world, app, p, front);
      assert before.cursor <= world.l1FinalizedHeight(h);
      VisitKeepsLog(world, app, before, h);
      var q := ProgressOver(world, app, p, hs);
      EventsReadSplit(world, app, p.cursor, before.cursor, q.cursor);
    }
  }

  lemma VisitGrows(world: World, app: Address, p: Progress, h: nat)
    requires world.epochLength(app) >= 1
    ensures p.ledger.log <= VisitBlock(world, app, p, h).ledger.log
  {
    hide L1Advance, LedgerDeliverUpTo;
    var f := world.l1FinalizedHeight(h);
    L1AdvanceAppendsBox(world, app, p.ledger, p.cursor, f);
    DeliverUpToGrows(world, app, L1Advance(world, app, p.ledger, p.cursor, f), h,
                     |world.transactions(h)|);
  }

  lemma NothingRead(world: World, app: Address, cursor: nat)
    ensures EventsRead(world, app, cursor, cursor) == []
  {
    EmptyRange(world.inputsAdded, app, cursor + 1, cursor);
  }
}
