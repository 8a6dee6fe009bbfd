/** Cutting a batch of inputs into epochs (internal/evmreader/input.go, ReadAndStoreInputs).

    `CutInputs` follows the loop one input at a time. `sealed` holds the epochs the loop has left
    behind, `current` is the one it is filling with `filling`, and `listed` says whether that one is
    already a key of the map that will be stored: an epoch read back from the store is not, until it
    gets an input or is closed at the end. */
module EpochCut {
  import opened Model
  import opened EpochMath

  datatype CutState = CutState(
    sealed: seq<Entry>, current: Option<EpochData>, filling: seq<Input>, listed: bool)

  function NewEpoch(app: Address, epochLength: nat, index: nat): EpochData
    requires epochLength >= 1
  {
    EpochData(app, index, FirstBlock(epochLength, index), LastBlock(epochLength, index), Open)
  }

  function Closing(e: EpochData): EpochData {
    e.(status := Closed)
  }

  /** The current epoch is closed, in the map if it is there and in memory only if it is not. */
  function LeaveEpoch(c: CutState): CutState {
    var sealed :=
      if c.listed && c.current.Some? then c.sealed + [Entry(Closing(c.current.value), c.filling)]
      else c.sealed;
    CutState(sealed, None, [], false)
  }

  function CutStep(app: Address, epochLength: nat, c: CutState, input: Input): (r: CutState)
    requires epochLength >= 1
    ensures r.listed && r.current.Some?
  {
    var index := CalculateEpochIndex(epochLength, input.block);
    var left := if c.current.Some? && c.current.value.index != index then LeaveEpoch(c) else c;
    var e := if left.current.Some? then left.current.value else NewEpoch(app, epochLength, index);
    CutState(left.sealed, Some(e), left.filling + [input], true)
  }

  function CutInputs(app: Address, epochLength: nat, stored: Option<EpochData>, inputs: seq<Input>)
    : (r: CutState)
    requires epochLength >= 1
  {
    if inputs == [] then CutState([], stored, [], false)
    else
      var n := |inputs| - 1;
      CutStep(app, epochLength, CutInputs(app, epochLength, stored, inputs[..n]), inputs[n])
  }

  /** What the map holds. */
  function Entries(c: CutState): seq<Entry> {
    if c.listed && c.current.Some? then c.sealed + [Entry(c.current.value, c.filling)] else c.sealed
  }

  /** Close the last epoch if the batch reaches its end, and list it so that this is stored. */
  function FinishCut(c: CutState, endBlock: nat): CutState {
    if c.current.Some? && endBlock >= c.current.value.lastBlock
    then c.(current := Some(Closing(c.current.value)), listed := true)
    else c
  }

  function CutBatch(
    app: Address, epochLength: nat, stored: Option<EpochData>, inputs: seq<Input>, endBlock: nat)
    : seq<Entry>
    requires epochLength >= 1
  {
    Entries(FinishCut(CutInputs(app, epochLength, stored, inputs), endBlock))
  }

  // ---- what a cut is ----

  predicate BlocksRise(inputs: seq<Input>) {
    forall i, j | 0 <= i < j < |inputs| :: inputs[i].block <= inputs[j].block
  }

  predicate BlocksWithin(inputs: seq<Input>, startBlock: nat, endBlock: nat) {
    forall i | 0 <= i < |inputs| :: startBlock <= inputs[i].block <= endBlock
  }

  predicate CanonicalEpoch(app: Address, epochLength: nat, e: EpochData) {
    && e.app == app
    && e.firstBlock == FirstBlock(epochLength, e.index)
    && e.lastBlock == LastBlock(epochLength, e.index)
  }

  predicate StoredFits(app: Address, epochLength: nat, stored: Option<EpochData>, startBlock: nat)
    requires epochLength >= 1
  {
    stored.Some? ==>
      && CanonicalEpoch(app, epochLength, stored.value)
      && stored.value.status == Open
      && stored.value.index == CalculateEpochIndex(epochLength, startBlock)
  }

  function AllInputs(entries: seq<Entry>): seq<Input> {
    if entries == [] then []
    else AllInputs(entries[..|entries| - 1]) + entries[|entries| - 1].inputs
  }

  predicate InEpoch(epochLength: nat, inputs: seq<Input>, index: nat)
    requires epochLength >= 1
  {
    forall i | 0 <= i < |inputs| :: CalculateEpochIndex(epochLength, inputs[i].block) == index
  }

  /** Canonical windows, indices strictly rising, every input in the window of its epoch. */
  predicate Segmented(app: Address, epochLength: nat, entries: seq<Entry>)
    requires epochLength >= 1
  {
    && (forall k | 0 <= k < |entries| :: CanonicalEpoch(app, epochLength, entries[k].epoch))
    && (forall j, k | 0 <= j < k < |entries| :: entries[j].epoch.index < entries[k].epoch.index)
    && (forall k | 0 <= k < |entries| ::
          InEpoch(epochLength, entries[k].inputs, entries[k].epoch.index))
  }

  predicate AllButLastClosed(entries: seq<Entry>) {
    forall k | 0 <= k < |entries| - 1 :: entries[k].epoch.status == Closed
  }

  predicate IndexBetween(entries: seq<Entry>, lo: nat, hi: nat) {
    forall k | 0 <= k < |entries| :: lo <= entries[k].epoch.index <= hi
  }

  predicate AllClosed(entries: seq<Entry>) {
    forall k | 0 <= k < |entries| :: entries[k].epoch.status == Closed
  }

  predicate AllBelow(entries: seq<Entry>, index: nat) {
    forall k | 0 <= k < |entries| :: entries[k].epoch.index < index
  }

  /** The loop invariant in declarative form, `top` being the highest block seen. */
  predicate CutInvariant(
    app: Address, epochLength: nat, stored: Option<EpochData>, c: CutState, startBlock: nat, top: nat)
    requires epochLength >= 1
  {
    && Segmented(app, epochLength, c.sealed)
    && AllClosed(c.sealed)
    && AllBelow(c.sealed, CalculateEpochIndex(epochLength, top))
    && IndexBetween(c.sealed, CalculateEpochIndex(epochLength, startBlock),
                    CalculateEpochIndex(epochLength, top))
    && (if c.listed then
          && c.current.Some?
          && CanonicalEpoch(app, epochLength, c.current.value)
          && c.current.value.status == Open
          && c.current.value.index == CalculateEpochIndex(epochLength, top)
          && InEpoch(epochLength, c.filling, c.current.value.index)
        else
          c.sealed == [] && c.filling == [] && c.current == stored)
  }

  lemma SegmentedAppend(app: Address, epochLength: nat, entries: seq<Entry>, e: Entry)
    requires epochLength >= 1 && Segmented(app, epochLength, entries)
    requires CanonicalEpoch(app, epochLength, e.epoch)
    requires AllBelow(entries, e.epoch.index)
    requires InEpoch(epochLength, e.inputs, e.epoch.index)
    ensures Segmented(app, epochLength, entries + [e])
    ensures AllInputs(entries + [e]) == AllInputs(entries) + e.inputs
  {
    AllInputsAppend(entries, e);
  }

  /** What an input's epoch looks like when the previous one has been left. */
  lemma LeaveKeeps(
    app: Address, epochLength: nat, stored: Option<EpochData>, c: CutState,
    startBlock: nat, top: nat, block: nat)
    requires epochLength >= 1 && startBlock <= top <= block
    requires CutInvariant(app, epochLength, stored, c, startBlock, top)
    requires CalculateEpochIndex(epochLength, top) < CalculateEpochIndex(epochLength, block)
    ensures var left := LeaveEpoch(c);
            && Segmented(app, epochLength, left.sealed)
            && AllClosed(left.sealed)
            && IndexBetween(left.sealed, CalculateEpochIndex(epochLength, startBlock),
                            CalculateEpochIndex(epochLength, top))
            && AllInputs(left.sealed) == AllInputs(Entries(c))
  {
    EpochIndexMonotone(epochLength, startBlock, top);
    if c.listed {
      SegmentedAppend(app, epochLength, c.sealed, Entry(Closing(c.current.value), c.filling));
      SegmentedAppend(app, epochLength, c.sealed, Entry(c.current.value, c.filling));
    }
  }

  lemma StepKeepsListed(
    app: Address, epochLength: nat, stored: Option<EpochData>, c: CutState, input: Input,
    startBlock: nat, top: nat)
    requires epochLength >= 1
    requires CutInvariant(app, epochLength, stored, c, startBlock, top)
    requires c.listed && startBlock <= top <= input.block
    ensures CutInvariant(app, epochLength, stored, CutStep(app, epochLength, c, input),
                         startBlock, input.block)
  {
    EpochIndexMonotone(epochLength, top, input.block);
    if CalculateEpochIndex(epochLength, top) < CalculateEpochIndex(epochLength, input.block) {
      LeaveKeeps(app, epochLength, stored, c, startBlock, top, input.block);
    }
  }

  lemma FirstStepKeeps(
    app: Address, epochLength: nat, stored: Option<EpochData>, c: CutState, input: Input,
    startBlock: nat)
    requires epochLength >= 1 && StoredFits(app, epochLength, stored, startBlock)
    requires c == CutState([], stored, [], false)
    requires startBlock <= input.block
    ensures CutInvariant(app, epochLength, stored, CutStep(app, epochLength, c, input),
                         startBlock, input.block)
  {
  }

  lemma StepInputs(
    app: Address, epochLength: nat, stored: Option<EpochData>, c: CutState, input: Input,
    startBlock: nat, top: nat)
    requires epochLength >= 1
    requires CutInvariant(app, epochLength, stored, c, startBlock, top)
    requires startBlock <= top <= input.block
    ensures AllInputs(Entries(CutStep(app, epochLength, c, input)))
         == AllInputs(Entries(c)) + [input]
  {
    var r := CutStep(app, epochLength, c, input);
    hide CalculateEpochIndex, FirstBlock, LastBlock, Segmented;
    AllInputsAppend(r.sealed, Entry(r.current.value, r.filling));
    if c.listed {
      AllInputsAppend(c.sealed, Entry(c.current.value, c.filling));
      AllInputsAppend(c.sealed, Entry(Closing(c.current.value), c.filling));
    }
  }

  lemma AllInputsAppend(entries: seq<Entry>, e: Entry)
    ensures AllInputs(entries + [e]) == AllInputs(entries) + e.inputs
  {
    assert (entries + [e])[..|entries|] == entries;
  }

  lemma {:induction false} CutInputsKeeps(
    app: Address, epochLength: nat, stored: Option<EpochData>, inputs: seq<Input>,
    startBlock: nat, endBlock: nat)
    requires epochLength >= 1 && StoredFits(app, epochLength, stored, startBlock)
    requires BlocksRise(inputs) && BlocksWithin(inputs, startBlock, endBlock)
    ensures CutInvariant(app, epochLength, stored, CutInputs(app, epochLength, stored, inputs),
                         startBlock, TopBlock(inputs, startBlock))
    ensures AllInputs(Entries(CutInputs(app, epochLength, stored, inputs))) == inputs
    ensures inputs != [] ==> CutInputs(app, epochLength, stored, inputs).listed
  {
    hide CutInvariant, CutStep, CutInputs, Entries, AllInputs, BlocksRise, BlocksWithin, StoredFits;
    if inputs == [] {
      NothingCut(app, epochLength, stored, startBlock);
    } else {
      var front, last := inputs[..|inputs| - 1], inputs[|inputs| - 1];
      assert inputs == front + [last];
      LastBlockIsTop(front, last, startBlock, endBlock);
      CutInputsKeeps(app, epochLength, stored, front, startBlock, endBlock);
      var c := CutInputs(app, epochLength, stored, front);
      OneMoreCut(app, epochLength, stored, front, last);
      StepKeeps(app, epochLength, stored, c, last, startBlock, TopBlock(front, startBlock));
    }
  }

  lemma NothingCut(app: Address, epochLength: nat, stored: Option<EpochData>, startBlock: nat)
    requires epochLength >= 1 && StoredFits(app, epochLength, stored, startBlock)
    ensures var c := CutInputs(app, epochLength, stored, []);
            CutInvariant(app, epochLength, stored, c, startBlock, startBlock)
            && AllInputs(Entries(c)) == []
  {
  }

  lemma OneMoreCut(
    app: Address, epochLength: nat, stored: Option<EpochData>, front: seq<Input>, last: Input)
    requires epochLength >= 1
    ensures var c := CutInputs(app, epochLength, stored, front);
            && CutInputs(app, epochLength, stored, front + [last]) == CutStep(app, epochLength, c, last)
            && (!c.listed ==> c == CutState([], stored, [], false))
  {
    assert (front + [last])[..|front|] == front;
  }

  lemma LastBlockIsTop(front: seq<Input>, last: Input, startBlock: nat, endBlock: nat)
    requires BlocksRise(front + [last]) && BlocksWithin(front + [last], startBlock, endBlock)
    ensures BlocksRise(front) && BlocksWithin(front, startBlock, endBlock)
    ensures startBlock <= TopBlock(front, startBlock) <= last.block
  {
    var inputs := front + [last];
    assert forall i | 0 <= i < |front| :: inputs[i] == front[i];
    assert inputs[|front|] == last;
  }

  lemma StepKeeps(
    app: Address, epochLength: nat, stored: Option<EpochData>, c: CutState, input: Input,
    startBlock: nat, top: nat)
    requires epochLength >= 1 && StoredFits(app, epochLength, stored, startBlock)
    requires CutInvariant(app, epochLength, stored, c, startBlock, top)
    requires startBlock <= top <= input.block
    requires !c.listed ==> c == CutState([], stored, [], false)
    ensures CutInvariant(app, epochLength, stored, CutStep(app, epochLength, c, input),
                         startBlock, input.block)
    ensures AllInputs(Entries(CutStep(app, epochLength, c, input)))
         == AllInputs(Entries(c)) + [input]
  {
    hide CutStep, Entries, AllInputs;
    StepInputs(app, epochLength, stored, c, input, startBlock, top);
    if c.listed {
      StepKeepsListed(app, epochLength, stored, c, input, startBlock, top);
    } else {
      FirstStepKeeps(app, epochLength, stored, c, input, startBlock);
    }
  }

  function TopBlock(inputs: seq<Input>, startBlock: nat): nat {
    if inputs == [] then startBlock else inputs[|inputs| - 1].block
  }

  /** Segmentation of a batch. Although the map is keyed by pointers, its epochs have pairwise
      different indices; each input lies in the window of its epoch; taken by rising epoch index the
      lists put together are the inputs, none lost or moved; and every epoch but the highest is
      Closed, that one exactly when the batch reaches its last block. */
  lemma BatchSegmentation(
    app: Address, epochLength: nat, stored: Option<EpochData>, inputs: seq<Input>,
    startBlock: nat, endBlock: nat)
    requires epochLength >= 1 && StoredFits(app, epochLength, stored, startBlock)
    requires startBlock <= endBlock
    requires BlocksRise(inputs) && BlocksWithin(inputs, startBlock, endBlock)
    ensures var entries := CutBatch(app, epochLength, stored, inputs, endBlock);
            && Segmented(app, epochLength, entries)
            && IndexBetween(entries, CalculateEpochIndex(epochLength, startBlock),
                            CalculateEpochIndex(epochLength, endBlock))
            && AllInputs(entries) == inputs
            && AllButLastClosed(entries)
            && LastClosedIffPassed(entries, endBlock)
    ensures CutBatch(app, epochLength, stored, inputs, endBlock) == []
       <==> (inputs == [] && (stored.None? || endBlock < stored.value.lastBlock))
  {
    var c := CutInputs(app, epochLength, stored, inputs);
    var top := TopBlock(inputs, startBlock);
    CutInputsKeeps(app, epochLength, stored, inputs, startBlock, endBlock);
    EpochIndexMonotone(epochLength, startBlock, top);
    EpochIndexMonotone(epochLength, top, endBlock);
    if c.listed {
      FinishListedKeeps(app, epochLength, stored, c, startBlock, top, endBlock);
    } else {
      FinishUnlistedKeeps(app, epochLength, stored, startBlock, endBlock);
    }
  }

  /** Closed epochs followed by one more that may still be open. */
  lemma OneMoreEpoch(
    app: Address, epochLength: nat, sealed: seq<Entry>, e: Entry, lo: nat, mid: nat, hi: nat)
    requires epochLength >= 1 && Segmented(app, epochLength, sealed) && AllClosed(sealed)
    requires CanonicalEpoch(app, epochLength, e.epoch) && InEpoch(epochLength, e.inputs, e.epoch.index)
    requires AllBelow(sealed, e.epoch.index) && IndexBetween(sealed, lo, mid)
    requires lo <= mid <= hi && lo <= e.epoch.index <= hi
    ensures Segmented(app, epochLength, sealed + [e])
    ensures IndexBetween(sealed + [e], lo, hi)
    ensures AllInputs(sealed + [e]) == AllInputs(sealed) + e.inputs
    ensures AllButLastClosed(sealed + [e])
  {
    SegmentedAppend(app, epochLength, sealed, e);
  }

  lemma FinishListedKeeps(
    app: Address, epochLength: nat, stored: Option<EpochData>, c: CutState,
    startBlock: nat, top: nat, endBlock: nat)
    requires epochLength >= 1 && c.listed
    requires CutInvariant(app, epochLength, stored, c, startBlock, top)
    requires CalculateEpochIndex(epochLength, startBlock) <= CalculateEpochIndex(epochLength, top)
          <= CalculateEpochIndex(epochLength, endBlock)
    ensures var entries := Entries(FinishCut(c, endBlock));
            && Segmented(app, epochLength, entries)
            && IndexBetween(entries, CalculateEpochIndex(epochLength, startBlock),
                            CalculateEpochIndex(epochLength, endBlock))
            && AllInputs(entries) == AllInputs(Entries(c))
            && AllButLastClosed(entries)
            && LastClosedIffPassed(entries, endBlock)
  {
    hide CalculateEpochIndex, FirstBlock, LastBlock;
    var lo, mid, hi := CalculateEpochIndex(epochLength, startBlock),
      CalculateEpochIndex(epochLength, top), CalculateEpochIndex(epochLength, endBlock);
    var e := c.current.value;
    OneMoreEpoch(app, epochLength, c.sealed, Entry(e, c.filling), lo, mid, hi);
    OneMoreEpoch(app, epochLength, c.sealed, Entry(Closing(e), c.filling), lo, mid, hi);
  }

  lemma FinishUnlistedKeeps(
    app: Address, epochLength: nat, stored: Option<EpochData>, startBlock: nat, endBlock: nat)
    requires epochLength >= 1 && StoredFits(app, epochLength, stored, startBlock)
    requires CalculateEpochIndex(epochLength, startBlock) <= CalculateEpochIndex(epochLength, endBlock)
    ensures var entries := Entries(FinishCut(CutState([], stored, [], false), endBlock));
            && Segmented(app, epochLength, entries)
            && IndexBetween(entries, CalculateEpochIndex(epochLength, startBlock),
                            CalculateEpochIndex(epochLength, endBlock))
            && AllInputs(entries) == []
            && AllButLastClosed(entries)
            && LastClosedIffPassed(entries, endBlock)
  {
    hide CalculateEpochIndex, FirstBlock, LastBlock;
    var entries := Entries(FinishCut(CutState([], stored, [], false), endBlock));
    if stored.None? || endBlock < stored.value.lastBlock {
      assert entries == [];
    } else {
      var lo, hi := CalculateEpochIndex(epochLength, startBlock),
        CalculateEpochIndex(epochLength, endBlock);
      var e := Entry(Closing(stored.value), []);
      OneMoreEpoch(app, epochLength, [], e, lo, lo, hi);
      assert entries == [] + [e];
    }
  }

  predicate LastClosedIffPassed(entries: seq<Entry>, endBlock: nat) {
    entries != [] ==>
      var highest := entries[|entries| - 1].epoch;
      highest.status == if highest.lastBlock <= endBlock then Closed else Open
  }
}
