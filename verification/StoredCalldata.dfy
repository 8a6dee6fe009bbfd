/** What the calldata of a stored input says, field by field (internal/evmreader/input.go,
    internal/espressoreader/espresso_reader.go).

    A machine that runs the inputs sees nothing but these bytes. The statements are about rows, and in
    terms of the transaction or the event they come from. */
module StoredCalldata {
  import opened Model
  import opened Tables
  import opened World
  import opened Ingest
  import opened Ledger
  import opened IngestRefinement
  import opened EspressoInput
  import opened EspressoRefinement
  import opened EvmAdvanceAbi

  // ---- the bytes of a call ----

  /** Where each argument stands: words in the order of the contract's signature, the high byte first,
      addresses in the low 20 bytes of their words, then the offset, the length and the payload. */
  lemma PackedLayout(f: EvmAdvance)
    requires Fits(f)
    ensures var raw := Pack(f);
            && |raw| >= 292 + |f.payload|
            && raw[..4] == [0x41, 0x5b, 0xf3, 0x63]
            && FromBigEndian(raw[4..36]) == f.chainId
            && raw[48..68] == f.appContract && raw[80..100] == f.msgSender
            && FromBigEndian(raw[100..132]) == f.blockNumber
            && FromBigEndian(raw[132..164]) == f.blockTimestamp
            && FromBigEndian(raw[164..196]) == f.prevRandao
            && FromBigEndian(raw[196..228]) == f.index && raw[227] == f.index % 0x100
            && FromBigEndian(raw[228..260]) == 256
            && FromBigEndian(raw[260..292]) == |f.payload|
            && raw[292..292 + |f.payload|] == f.payload
  {
    hide Concat, Word, BigEndian, FromBigEndian, Pow256, Zeros, Padding;
    var data, raw := EncodeArguments(f), Pack(f);
    assert raw[4..] == data;
    EncodedHead(f, 0);
    PackedWord(f, 0);
    PackedWord(f, 1);
    PackedWord(f, 2);
    PackedWord(f, 3);
    PackedWord(f, 4);
    PackedWord(f, 5);
    PackedWord(f, 6);
    PackedWord(f, 7);
    WordsReadBack(f);
    TailHoldsPayload(f.payload);
    var tail := Tail(f.payload);
    assert raw[260..292] == tail[..32] && raw[292..] == tail[32..];
    assert raw[36..68] == Zeros(12) + f.appContract && raw[68..100] == Zeros(12) + f.msgSender;
    assert raw[48..68] == raw[36..68][12..] && raw[80..100] == raw[68..100][12..];
    LowByte(f.index);
    assert raw[227] == raw[196..228][31];
  }

  lemma PackedWord(f: EvmAdvance, k: nat)
    requires k < 8
    ensures |Pack(f)| >= 292 && Pack(f)[4 + 32 * k..36 + 32 * k] == HeadWords(f)[k]
  {
    hide HeadWords, EncodeArguments;
    EncodedHead(f, k);
    assert Pack(f)[4..] == EncodeArguments(f);
    assert Pack(f)[4 + 32 * k..36 + 32 * k] == WordAt(EncodeArguments(f), k);
  }

  lemma WordsReadBack(f: EvmAdvance)
    requires Fits(f)
    ensures FromBigEndian(Word(f.chainId)) == f.chainId
    ensures FromBigEndian(Word(f.blockNumber)) == f.blockNumber
    ensures FromBigEndian(Word(f.blockTimestamp)) == f.blockTimestamp
    ensures FromBigEndian(Word(f.prevRandao)) == f.prevRandao
    ensures FromBigEndian(Word(f.index)) == f.index
    ensures FromBigEndian(Word(HEAD_BYTES)) == 256
    ensures FromBigEndian(Word(|f.payload|)) == |f.payload|
  {
    hide BigEndian, FromBigEndian, Pow256;
    Pow256Facts();
    BigEndianRoundTrip(f.chainId, WORD_BYTES);
    BigEndianRoundTrip(f.blockNumber, WORD_BYTES);
    BigEndianRoundTrip(f.blockTimestamp, WORD_BYTES);
    BigEndianRoundTrip(f.prevRandao, WORD_BYTES);
    BigEndianRoundTrip(f.index, WORD_BYTES);
    BigEndianRoundTrip(HEAD_BYTES, WORD_BYTES);
    BigEndianRoundTrip(|f.payload|, WORD_BYTES);
  }

  lemma LowByte(n: nat)
    ensures Word(n)[31] == n % 0x100
  {
  }

  // ---- payloads ----

  /** A hexadecimal digit, of either case, and its value. */
  predicate DigitValue(c: Byte, d: nat) {
    || ('0' as int <= c <= '9' as int && d == c - '0' as int)
    || ('a' as int <= c <= 'f' as int && d == 10 + c - 'a' as int)
    || ('A' as int <= c <= 'F' as int && d == 10 + c - 'A' as int)
  }

  /** `s` writes `bs` with two digits for every byte, the high one first. */
  ghost predicate WritesInHex(s: Bytes, bs: Bytes) {
    && |s| == 2 * |bs|
    && forall k | 0 <= k < |bs| ::
         DigitValue(s[2 * k], bs[k] / 16) && DigitValue(s[2 * k + 1], bs[k] % 16)
  }

  lemma {:induction false} DecodesWhatIsWritten(s: Bytes, bs: Bytes)
    ensures DecodeHex(s) == Some(bs) <==> WritesInHex(s, bs)
  {
    if |s| >= 2 && bs != [] {
      DecodesWhatIsWritten(s[2..], bs[1..]);
      WrittenFirst(s, bs);
      DecodedFirst(s, bs);
    }
  }

  lemma DecodedFirst(s: Bytes, bs: Bytes)
    requires |s| >= 2 && bs != []
    ensures DecodeHex(s) == Some(bs) <==>
              && DecodeHex(s[2..]) == Some(bs[1..])
              && DigitValue(s[0], bs[0] / 16) && DigitValue(s[1], bs[0] % 16)
  {
    hide DecodeHex;
    DecodeTwo(s);
    assert bs == [bs[0]] + bs[1..];
    match (HexDigit(s[0]), HexDigit(s[1]), DecodeHex(s[2..])) {
      case (Some(hi), Some(lo), Some(rest)) =>
        assert ([hi * 16 + lo] + rest)[1..] == rest;
      case _ =>
    }
  }

  lemma DecodeTwo(s: Bytes)
    requires |s| >= 2
    ensures DecodeHex(s) ==
      match (HexDigit(s[0]), HexDigit(s[1]), DecodeHex(s[2..]))
      case (Some(hi), Some(lo), Some(rest)) => Some([hi * 16 + lo] + rest)
      case _ => None
  {
  }

  lemma WrittenFirst(s: Bytes, bs: Bytes)
    requires |s| >= 2 && bs != []
    ensures WritesInHex(s, bs) <==>
              && WritesInHex(s[2..], bs[1..])
              && DigitValue(s[0], bs[0] / 16) && DigitValue(s[1], bs[0] % 16)
  {
    var t, cs := s[2..], bs[1..];
    assert forall k | 0 <= k < |cs| :: cs[k] == bs[k + 1];
    if |s| == 2 * |bs| {
      assert forall k | 0 <= k < |cs| :: t[2 * k] == s[2 * (k + 1)] && t[2 * k + 1] == s[2 * (k + 1) + 1];
      if WritesInHex(t, cs) && DigitValue(s[0], bs[0] / 16) && DigitValue(s[1], bs[0] % 16) {
        forall k | 0 <= k < |bs|
          ensures DigitValue(s[2 * k], bs[k] / 16) && DigitValue(s[2 * k + 1], bs[k] % 16)
        {
          if k > 0 {
            assert DigitValue(t[2 * (k - 1)], cs[k - 1] / 16);
          }
        }
      }
    }
  }

  /** What a payload stands for: after 0x, the bytes its digits write; without, the bytes it is. */
  ghost predicate Carries(payload: Bytes, bs: Bytes) {
    if |payload| >= 2 && payload[0] == '0' as int && payload[1] == 'x' as int
    then WritesInHex(payload[2..], bs)
    else bs == payload
  }

  /** The payload is read as what it stands for, and is refused exactly if it stands for nothing. */
  lemma PayloadCarried(payload: Bytes, bs: Bytes)
    ensures PayloadBytes(payload) == Some(bs) <==> Carries(payload, bs)
  {
    hide DecodeHex, WritesInHex;
    if |payload| >= 2 {
      assert payload[..2] == HEX_PREFIX <==> payload[0] == 0x30 && payload[1] == 0x78;
      DecodesWhatIsWritten(payload[2..], bs);
    }
  }

  lemma EncodedIsCarried(bs: Bytes)
    ensures Carries([0x30, 0x78] + EncodeHex(bs), bs)
  {
    HexRoundTrip(bs);
    PayloadCarried([0x30, 0x78] + EncodeHex(bs), bs);
  }

  // ---- Espresso inputs ----

  /** A transaction that is to become an input: well signed, for the application, with the nonce stored
      for its sender, with a payload that can be read, and all four statements of its store go through. */
  ghost predicate ToBeStored(world: World, db: Db, app: Address, h: nat, i: nat)
    requires i < |world.transactions(h)|
  {
    var tx, fault := world.transactions(h)[i], world.espressoStoreFault(h, i);
    && tx.Signed? && tx.app == app
    && tx.nonce == (if (tx.sender, app) in db.nonces then db.nonces[(tx.sender, app)] else 0)
    && (exists bs :: Carries(tx.payload, bs))
    && (fault.Some? ==> fault.value >= 4)
  }

  lemma AcceptsExactly(world: World, db: Db, app: Address, h: nat, i: nat)
    requires i < |world.transactions(h)| && Dense(db, app)
    ensures ToBeStored(world, db, app, h, i) <==> Accepts(world, app, LedgerOf(db, app), h, i)
  {
    hide PayloadBytes, Carries;
    var tx := world.transactions(h)[i];
    if tx.Signed? {
      if PayloadBytes(tx.payload).Some? {
        PayloadCarried(tx.payload, PayloadBytes(tx.payload).value);
      }
      if bs :| Carries(tx.payload, bs) {
        PayloadCarried(tx.payload, bs);
      }
    }
  }

  /** Such a transaction gets the next index, and its sender's nonce moves past its own; any other leaves
      the tables as they are. */
  lemma StoredExactly(world: World, db: Db, app: Address, h: nat, i: nat)
    requires i < |world.transactions(h)| && world.epochLength(app) >= 1
    requires app in db.apps && Dense(db, app)
    ensures var after, tx := DeliverTx(world, db, app, h, i), world.transactions(h)[i];
            if ToBeStored(world, db, app, h, i) then
              && (app, Counter(db, app)) in after.inputs
              && Counter(after, app) == Counter(db, app) + 1
              && after.nonces == db.nonces[(tx.sender, app) := tx.nonce + 1]
            else after == db
  {
    hide ToBeStored, Accepts, DeliverTx, EspressoRow, EspressoEpoch, UpsertedRow, Dense;
    AcceptsExactly(world, db, app, h, i);
    if Accepts(world, app, LedgerOf(db, app), h, i) {
      DeliverClosedForm(world, db, app, h, i);
      AcceptedNonce(world, app, LedgerOf(db, app), h, i);
    } else {
      NotAccepted(world, db, app, h, i);
    }
  }

  lemma NotAccepted(world: World, db: Db, app: Address, h: nat, i: nat)
    requires i < |world.transactions(h)| && world.epochLength(app) >= 1 && Dense(db, app)
    requires !Accepts(world, app, LedgerOf(db, app), h, i)
    ensures DeliverTx(world, db, app, h, i) == db
  {
    hide Admissible;
  }

  /** The numbers that go into the calldata of transaction `i` fit the words of the encoding. */
  ghost predicate NumbersFit(world: World, db: Db, app: Address, h: nat, i: nat)
    requires i < |world.transactions(h)| && world.transactions(h)[i].Signed?
  {
    var f, bound := world.l1FinalizedHeight(h), Pow256(WORD_BYTES);
    && world.chainId < TWO_TO_63 && Counter(db, app) < bound
    && f < bound && world.l1FinalizedTimestamp(h) < bound && world.prevRandao(f) < bound
    && |world.transactions(h)[i].payload| < bound
  }

  /** The row of an Espresso input: the calldata is a call for the application by the transaction's
      sender, at the finalized block with its timestamp and prevrandao, under the row's own index, with
      what the payload stands for; and the row names the transaction by its signature. */
  lemma EspressoRowSays(world: World, db: Db, app: Address, h: nat, i: nat)
    requires i < |world.transactions(h)| && world.epochLength(app) >= 1
    requires app in db.apps && Dense(db, app)
    requires ToBeStored(world, db, app, h, i) && NumbersFit(world, db, app, h, i)
    ensures var after, tx := DeliverTx(world, db, app, h, i), world.transactions(h)[i];
            var f, n := world.l1FinalizedHeight(h), Counter(db, app);
            && (app, n) in after.inputs
            && var row := after.inputs[(app, n)];
               var call := DecodeArguments(row.raw[4..]);
               && row.block == f && row.txId == FromEspresso(tx.signatureHash)
               && row.raw[..4] == [0x41, 0x5b, 0xf3, 0x63] && call.Some?
               && call.value.chainId == world.chainId
               && call.value.appContract == app && call.value.msgSender == tx.sender
               && call.value.blockNumber == f
               && call.value.blockTimestamp == world.l1FinalizedTimestamp(h)
               && call.value.prevRandao == world.prevRandao(f)
               && call.value.index == n
               && Carries(tx.payload, call.value.payload)
  {
    hide ToBeStored, Accepts, DeliverTx, UpsertedRow, EspressoEpoch, Dense, Pack, DecodeArguments,
      PayloadBytes, Carries, Pow256;
    AcceptsExactly(world, db, app, h, i);
    DeliverClosedForm(world, db, app, h, i);
    AcceptedPayload(world, app, LedgerOf(db, app), h, i);
    var tx := world.transactions(h)[i];
    var bs := PayloadBytes(tx.payload).value;
    PayloadCarried(tx.payload, bs);
    CarriedLength(tx.payload, bs);
    var call := TheCall(world, h, app, tx.sender, Counter(db, app), bs);
    Pow256Facts();
    PackedCallDecodes(call);
    assert Pack(call)[..4] == SELECTOR by { PackedLength(call); }
  }

  lemma AcceptedPayload(world: World, app: Address, l: Ledger, h: nat, i: nat)
    requires i < |world.transactions(h)| && Accepts(world, app, l, h, i)
    ensures var tx := world.transactions(h)[i]; tx.Signed? && PayloadBytes(tx.payload).Some?
  {
  }

  lemma CarriedLength(payload: Bytes, bs: Bytes)
    requires Carries(payload, bs)
    ensures |bs| <= |payload|
  {
  }

  // ---- base-layer inputs ----

  /** What becomes of an input when it is read while the counter stands at `counter`. Its calldata is
      kept byte for byte if the index is right already, overriding is off, or it does not decode; else
      it decodes to the same call with only the index replaced. */
  lemma RenumberedSays(input: Input, counter: nat, override: bool)
    requires |input.raw| < Pow256(WORD_BYTES) && counter < TWO_TO_64
    ensures var r := Renumbered(input, counter, override);
            var was, now := DecodeArguments(input.raw[4..]), DecodeArguments(r.raw[4..]);
            && r == input.(index := r.index, raw := r.raw)
            && r.index == (if override then counter else input.index)
            && if counter == input.index || !override || was.None? then r.raw == input.raw
               else
                 && r.raw[..4] == [0x41, 0x5b, 0xf3, 0x63]
                 && now.Some? && now.value == was.value.(index := now.value.index)
                 && (counter < TWO_TO_63 ==> now.value.index == counter)
  {
    hide DecodeArguments, Pow256, Pack, ModifyIndexInRaw, IndexInRaw;
    RewrittenSays(input.raw, counter);
  }

  lemma RewrittenSays(raw: Calldata, index: nat)
    requires |raw| < Pow256(WORD_BYTES) && index < TWO_TO_64
    ensures var out, was := ModifyIndexInRaw(raw, index), DecodeArguments(raw[4..]);
            if was.None? then out.None?
            else
              && out.Some? && out.value[..4] == [0x41, 0x5b, 0xf3, 0x63]
              && DecodeArguments(out.value[4..]) == Some(was.value.(index := Int64Word(index)))
              && (index < TWO_TO_63 ==> Int64Word(index) == index)
  {
    hide DecodeArguments, Pow256, Pack;
    if DecodeArguments(raw[4..]).Some? {
      ModifyIndexKeepsOtherFields(raw, index);
    }
  }

  /** The events are those of the query for the application, and the inputs their images. */
  lemma {:induction false} InputsAreEvents(
    events: seq<InputAdded>, app: Address, startBlock: nat, endBlock: nat)
    ensures var found := Matching(events, {app}, startBlock, endBlock);
            var inputs := InputsIn(events, app, startBlock, endBlock);
            && |inputs| == |found|
            && forall k | 0 <= k < |found| ::
                 && found[k].app == app && startBlock <= found[k].block <= endBlock
                 && inputs[k] == Input(app, found[k].index, found[k].raw, found[k].block,
                                       FromInputBox(found[k].index))
  {
    if events != [] {
      InputsAreEvents(events[..|events| - 1], app, startBlock, endBlock);
    }
  }

  /** `row`, stored under index `n`, is that of the event. */
  ghost predicate RowSays(world: World, app: Address, row: InputRow, n: nat, e: InputAdded)
    requires world.epochLength(app) >= 1
  {
    var was, now := DecodeArguments(e.raw[4..]), DecodeArguments(row.raw[4..]);
    && row.block == e.block && row.txId == FromInputBox(e.index)
    && row.epoch == (app, e.block / world.epochLength(app))
    && if n == e.index || !world.shouldModifyIndex || was.None? then row.raw == e.raw
       else
         && row.raw[..4] == [0x41, 0x5b, 0xf3, 0x63]
         && now.Some? && now.value == was.value.(index := now.value.index)
         && (n < TWO_TO_63 ==> now.value.index == n)
  }

  /** The rows reading a range appends: one for each event of the application in it, in order, the
      calldata as the event had it but for the index. */
  lemma BaseLayerRowsSay(world: World, app: Address, l: Ledger, from: nat, to: nat)
    requires world.epochLength(app) >= 1 && from < to
    requires forall e | e in world.inputsAdded :: |e.raw| < Pow256(WORD_BYTES)
    requires |l.log| + |Matching(world.inputsAdded, {app}, from + 1, to)| <= TWO_TO_64
    ensures var found := Matching(world.inputsAdded, {app}, from + 1, to);
            var log := L1Advance(world, app, l, from, to).log;
            && |log| == |l.log| + |found| && log[..|l.log|] == l.log
            && forall k | 0 <= k < |found| ::
                 RowSays(world, app, log[|l.log| + k], |l.log| + k, found[k])
  {
    hide Matching, InputsIn, Renumbered, Pow256, DecodeArguments;
    var found := Matching(world.inputsAdded, {app}, from + 1, to);
    var inputs := InputsIn(world.inputsAdded, app, from + 1, to);
    InputsAreEvents(world.inputsAdded, app, from + 1, to);
    FoundAreEvents(world.inputsAdded, app, from + 1, to);
    var log := L1Advance(world, app, l, from, to).log;
    forall k | 0 <= k < |found|
      ensures RowSays(world, app, log[|l.log| + k], |l.log| + k, found[k])
    {
      assert found[k] in found;
      RenumberedSays(inputs[k], |l.log| + k, world.shouldModifyIndex);
    }
  }

  lemma {:induction false} FoundAreEvents(
    events: seq<InputAdded>, app: Address, startBlock: nat, endBlock: nat)
    ensures forall e | e in Matching(events, {app}, startBlock, endBlock) :: e in events
  {
    if events != [] {
      FoundAreEvents(events[..|events| - 1], app, startBlock, endBlock);
    }
  }

  /** The same of the rows a batch stores. */
  lemma StoredRowsSay(world: World, db: Db, app: Address, from: nat, to: nat)
    requires GoodWorld(world, app) && AppInvariant(world, db, app, from) && from < to
    requires world.inputStoreFault(app, to).None?
    requires forall e | e in world.inputsAdded :: |e.raw| < Pow256(WORD_BYTES)
    requires Counter(db, app) + |Matching(world.inputsAdded, {app}, from + 1, to)| <= TWO_TO_64
    ensures var found := Matching(world.inputsAdded, {app}, from + 1, to);
            var after, base := IngestBatch(world, db, app, from + 1, to), Counter(db, app);
            && Counter(after, app) == base + |found|
            && forall k | 0 <= k < |found| ::
                 (app, base + k) in after.inputs
                 && RowSays(world, app, after.inputs[(app, base + k)], base + k, found[k])
  {
    hide IngestBatch, AppInvariant, Matching, L1Advance, RowSays, Pow256, GoodWorld;
    InvariantBasics(world, db, app, from);
    IngestRefines(world, db, app, from, to);
    var after := IngestBatch(world, db, app, from + 1, to);
    InvariantBasics(world, after, app, to);
    BaseLayerRowsSay(world, app, LedgerOf(db, app), from, to);
    var log := LedgerOf(after, app).log;
    assert |log| == Counter(after, app);
    assert forall n: nat | n < |log| :: (app, n) in after.inputs && after.inputs[(app, n)] == log[n];
  }
}
