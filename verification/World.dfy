/** What the reader sees of the outside: the InputBox, consensus and application events of the base
    layer, the Espresso blocks, the configuration, and which database transactions fail. */
module World {
  import opened Model
  import Sorting

  datatype InputAdded = InputAdded(app: Address, index: nat, raw: Calldata, block: nat)

  datatype ClaimAcceptance = ClaimAcceptance(app: Address, lastBlock: nat, claim: Hash, block: nat)

  datatype OutputExecuted = OutputExecuted(
    app: Address, outputIndex: nat, output: Bytes, txHash: Hash, block: nat)

  /** A transaction of an Espresso block, after its signature has been looked at. */
  datatype EspressoTx =
    | Malformed
    | Signed(sender: Address, app: Address, nonce: nat, payload: Bytes, signatureHash: Hash)

  /** `claimOrder` has the acceptances in the order in which the node goes through them to answer a
      query. `headerAnswer` has the namespace tables in the answer to a query for a range of headers, if
      they can be unmarshalled. A fault is the number of the database statement at which a transaction
      fails, counting from 0. */
  datatype World = World(
    inputsAdded: seq<InputAdded>,
    claimAcceptances: seq<ClaimAcceptance>,
    claimOrder: (Address, nat, nat) -> seq<ClaimAcceptance>,
    outputsExecuted: seq<OutputExecuted>,
    epochLength: Address -> nat,
    l1FinalizedHeight: nat -> nat,
    l1FinalizedTimestamp: nat -> nat,
    prevRandao: nat -> nat,
    transactions: nat -> seq<EspressoTx>,
    namespaceTable: nat -> Bytes,
    headerAnswer: (nat, nat) -> Option<seq<Bytes>>,
    chainId: nat,
    namespace: nat,
    startingBlock: nat,
    inputBoxDeploymentBlock: nat,
    shouldModifyIndex: bool,
    inputStoreFault: (Address, nat) -> Option<nat>,
    espressoStoreFault: (nat, nat) -> Option<nat>,
    claimUpdateFails: (Address, nat, nat) -> bool,
    outputUpdateFails: (Address, nat) -> bool)

  /** A transaction of `count` statements goes through. */
  predicate Survives(fault: Option<nat>, count: nat) {
    fault.Some? ==> fault.value >= count
  }

  function InputOf(e: InputAdded): Input {
    Input(e.app, e.index, e.raw, e.block, FromInputBox(e.index))
  }

  predicate Selected(e: InputAdded, app: Address, startBlock: nat, endBlock: nat) {
    e.app == app && startBlock <= e.block <= endBlock
  }

  /** The inputs of `app` in the blocks startBlock .. endBlock, in the order of `events`. */
  function InputsIn(events: seq<InputAdded>, app: Address, startBlock: nat, endBlock: nat)
    : seq<Input>
  {
    if events == [] then []
    else
      var n := |events| - 1;
      var front := InputsIn(events[..n], app, startBlock, endBlock);
      if Selected(events[n], app, startBlock, endBlock) then front + [InputOf(events[n])] else front
  }

  /** InputBox indices of an application are unique and rise with the block number. */
  predicate ChainOrdered(events: seq<InputAdded>, app: Address) {
    forall i, j | 0 <= i < j < |events| && events[i].app == app && events[j].app == app ::
      events[i].index < events[j].index && events[i].block <= events[j].block
  }

  function IndexKey(i: Input): int {
    i.index
  }

  predicate IndicesRise(inputs: seq<Input>) {
    forall i, j | 0 <= i < j < |inputs| ::
      inputs[i].index < inputs[j].index && inputs[i].block <= inputs[j].block
  }

  predicate FromBlocks(inputs: seq<Input>, app: Address, startBlock: nat, endBlock: nat) {
    forall i | 0 <= i < |inputs| ::
      inputs[i].app == app && startBlock <= inputs[i].block <= endBlock
  }

  lemma {:induction false} InputsInMembers(
    events: seq<InputAdded>, app: Address, startBlock: nat, endBlock: nat)
    ensures FromBlocks(InputsIn(events, app, startBlock, endBlock), app, startBlock, endBlock)
    ensures forall x | x in InputsIn(events, app, startBlock, endBlock) ::
              exists i :: 0 <= i < |events| && events[i].app == app && x == InputOf(events[i])
  {
    if events != [] {
      var n := |events| - 1;
      InputsInMembers(events[..n], app, startBlock, endBlock);
      forall x | x in InputsIn(events, app, startBlock, endBlock)
        ensures exists i :: 0 <= i < |events| && events[i].app == app && x == InputOf(events[i])
      {
        if x in InputsIn(events[..n], app, startBlock, endBlock) {
          var i :| 0 <= i < n && events[..n][i].app == app && x == InputOf(events[..n][i]);
          assert events[i] == events[..n][i];
        } else {
          assert x == InputOf(events[n]);
        }
      }
    }
  }

  lemma {:induction false} InputsInRise(
    events: seq<InputAdded>, app: Address, startBlock: nat, endBlock: nat)
    requires ChainOrdered(events, app)
    ensures IndicesRise(InputsIn(events, app, startBlock, endBlock))
  {
    if events != [] {
      var n := |events| - 1;
      InputsInRise(events[..n], app, startBlock, endBlock);
      InputsInMembers(events[..n], app, startBlock, endBlock);
      var front := InputsIn(events[..n], app, startBlock, endBlock);
      if events[n].app == app {
        forall i | 0 <= i < |front|
          ensures front[i].index < events[n].index && front[i].block <= events[n].block
        {
          assert front[i] in front;
        }
      }
    }
  }

  lemma RisingIsSorted(inputs: seq<Input>)
    requires IndicesRise(inputs)
    ensures Sorting.SortedBy(IndexKey, inputs) && Sorting.KeysIdentify(IndexKey, inputs)
  {
    forall x, y | x in inputs && y in inputs && IndexKey(x) == IndexKey(y) ensures x == y {
      var i :| 0 <= i < |inputs| && inputs[i] == x;
      var j :| 0 <= j < |inputs| && inputs[j] == y;
    }
  }

  /** Reading a range in two parts finds the same inputs as reading it at once. */
  lemma {:induction false} InputsInSplit(
    events: seq<InputAdded>, app: Address, startBlock: nat, middle: nat, endBlock: nat)
    requires ChainOrdered(events, app)
    requires startBlock <= middle + 1 && middle <= endBlock
    ensures InputsIn(events, app, startBlock, endBlock)
         == InputsIn(events, app, startBlock, middle) + InputsIn(events, app, middle + 1, endBlock)
  {
    if events != [] {
      var n := |events| - 1;
      InputsInSplit(events[..n], app, startBlock, middle, endBlock);
      if Selected(events[n], app, startBlock, middle) {
        NoneAfter(events[..n], app, middle, endBlock);
      }
    }
  }

  lemma {:induction false} NoneAfter(
    events: seq<InputAdded>, app: Address, middle: nat, endBlock: nat)
    requires forall i | 0 <= i < |events| && events[i].app == app :: events[i].block <= middle
    ensures InputsIn(events, app, middle + 1, endBlock) == []
  {
    if events != [] {
      NoneAfter(events[..|events| - 1], app, middle, endBlock);
    }
  }

  // ---- what a query returns ----

  /** The events of the given applications in a block range. */
  function Matching(
    events: seq<InputAdded>, apps: set<Address>, startBlock: nat, endBlock: nat): seq<InputAdded>
  {
    if events == [] then []
    else
      var n := |events| - 1;
      var front := Matching(events[..n], apps, startBlock, endBlock);
      if events[n].app in apps && startBlock <= events[n].block <= endBlock
      then front + [events[n]] else front
  }

  lemma {:induction false} MatchingMembers(
    events: seq<InputAdded>, apps: set<Address>, startBlock: nat, endBlock: nat)
    ensures forall e | e in Matching(events, apps, startBlock, endBlock) ::
              e.app in apps && startBlock <= e.block <= endBlock
  {
    if events != [] {
      MatchingMembers(events[..|events| - 1], apps, startBlock, endBlock);
    }
  }

  lemma {:induction false} MatchingSelects(
    events: seq<InputAdded>, apps: set<Address>, app: Address, startBlock: nat, endBlock: nat)
    requires app in apps
    ensures InputsIn(Matching(events, apps, startBlock, endBlock), app, startBlock, endBlock)
         == InputsIn(events, app, startBlock, endBlock)
  {
    if events != [] {
      var n := |events| - 1;
      MatchingSelects(events[..n], apps, app, startBlock, endBlock);
      var front := Matching(events[..n], apps, startBlock, endBlock);
      assert (front + [events[n]])[..|front|] == front;
    }
  }

  lemma {:induction false} InputsInAppend(
    a: seq<InputAdded>, b: seq<InputAdded>, app: Address, startBlock: nat, endBlock: nat)
    ensures InputsIn(a + b, app, startBlock, endBlock)
         == InputsIn(a, app, startBlock, endBlock) + InputsIn(b, app, startBlock, endBlock)
  {
    if b == [] {
      assert a + b == a;
    } else {
      var n := |b| - 1;
      assert (a + b)[..|a + b| - 1] == a + b[..n];
      InputsInAppend(a, b[..n], app, startBlock, endBlock);
    }
  }

  /** Delivering the same events in another order delivers the same inputs to each application. */
  lemma {:induction false} InputsInPermuted(
    a: seq<InputAdded>, b: seq<InputAdded>, app: Address, startBlock: nat, endBlock: nat)
    requires multiset(a) == multiset(b)
    ensures multiset(InputsIn(a, app, startBlock, endBlock))
         == multiset(InputsIn(b, app, startBlock, endBlock))
  {
    assert |multiset(a)| == |multiset(b)|;
    if a != [] {
      var front, x := a[..|a| - 1], a[|a| - 1];
      assert a == front + [x];
      assert x in multiset(b);
      var j :| 0 <= j < |b| && b[j] == x;
      var p, q := b[..j], b[j + 1..];
      assert b == p + [x] + q;
      Sorting.RemoveOne(front, x, p, q);
      InputsInPermuted(front, p + q, app, startBlock, endBlock);
      InputsInAppend(front, [x], app, startBlock, endBlock);
      InputsInMoved(p, x, q, app, startBlock, endBlock);
    }
  }

  lemma {:induction false} InputsInMoved(
    p: seq<InputAdded>, x: InputAdded, q: seq<InputAdded>, app: Address,
    startBlock: nat, endBlock: nat)
    ensures multiset(InputsIn(p + [x] + q, app, startBlock, endBlock))
         == multiset(InputsIn(p + q, app, startBlock, endBlock))
          + multiset(InputsIn([x], app, startBlock, endBlock))
  {
    InputsInAppend(p + [x], q, app, startBlock, endBlock);
    InputsInAppend(p, [x], app, startBlock, endBlock);
    InputsInAppend(p, q, app, startBlock, endBlock);
  }
}
