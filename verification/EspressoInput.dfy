/** One transaction of an Espresso block as a step on the tables
    (internal/espressoreader/espresso_reader.go, readEspresso). */
module EspressoInput {
  import opened Model
  import opened EpochMath
  import opened EpochCut
  import opened Tables
  import opened World
  import opened Ingest
  import EvmAdvanceAbi

  // ---- payloads ----

  function HexDigit(c: Byte): (r: Option<nat>)
    ensures r.Some? ==> r.value < 16
  {
    if 0x30 <= c <= 0x39 then Some(c - 0x30)
    else if 0x61 <= c <= 0x66 then Some(c - 0x61 + 10)
    else if 0x41 <= c <= 0x46 then Some(c - 0x41 + 10)
    else None
  }

  function DecodeHex(s: Bytes): (r: Option<Bytes>)
    ensures r.Some? ==> 2 * |r.value| == |s|
  {
    if s == [] then Some([])
    else if |s| == 1 then None
    else
      match (HexDigit(s[0]), HexDigit(s[1]), DecodeHex(s[2..]))
      case (Some(hi), Some(lo), Some(rest)) => Some([hi * 16 + lo] + rest)
      case _ => None
  }

  function HexChar(d: nat): Byte
    requires d < 16
  {
    if d < 10 then 0x30 + d else 0x61 + d - 10
  }

  function EncodeHex(bs: Bytes): Bytes {
    if bs == [] then [] else [HexChar(bs[0] / 16), HexChar(bs[0] % 16)] + EncodeHex(bs[1..])
  }

  const HEX_PREFIX: Bytes := [0x30, 0x78]

  /** A payload that starts with 0x is hexadecimal, any other is taken as it is. */
  function PayloadBytes(payload: Bytes): Option<Bytes> {
    if HEX_PREFIX <= payload then DecodeHex(payload[2..]) else Some(payload)
  }

  lemma {:induction false} HexRoundTrip(bs: Bytes)
    ensures DecodeHex(EncodeHex(bs)) == Some(bs)
    ensures PayloadBytes(HEX_PREFIX + EncodeHex(bs)) == Some(bs)
  {
    assert (HEX_PREFIX + EncodeHex(bs))[2..] == EncodeHex(bs);
    if bs != [] {
      HexRoundTrip(bs[1..]);
      var s := EncodeHex(bs);
      assert s[2..] == EncodeHex(bs[1..]);
      assert s[0] == HexChar(bs[0] / 16) && s[1] == HexChar(bs[0] % 16);
      assert bs == [bs[0]] + bs[1..];
      assert HexDigit(s[0]) == Some(bs[0] / 16) && HexDigit(s[1]) == Some(bs[0] % 16);
    }
  }

  // ---- the step ----

  function TheCall(
    world: World, h: nat, app: Address, sender: Address, index: nat, payload: Bytes)
    : EvmAdvanceAbi.EvmAdvance
  {
    var f := world.l1FinalizedHeight(h);
    EvmAdvanceAbi.EvmAdvance(EvmAdvanceAbi.Int64Word(world.chainId), app, sender, f,
                             world.l1FinalizedTimestamp(h), world.prevRandao(f), index, payload)
  }

  function EspressoInputOf(
    world: World, h: nat, app: Address, tx: EspressoTx, index: nat, payload: Bytes): Input
    requires tx.Signed?
  {
    Input(app, index, EvmAdvanceAbi.Pack(TheCall(world, h, app, tx.sender, index, payload)),
          world.l1FinalizedHeight(h), FromEspresso(tx.signatureHash))
  }

  /** The epoch an Espresso input goes to. The source looks up the epoch whose index is the epoch
      length, and falls back to the epoch of the finalized block when there is none. */
  function EspressoEpoch(db: Db, app: Address, epochLength: nat, block: nat): EpochData
    requires epochLength >= 1
  {
    match StoredEpoch(db, app, epochLength)
    case Some(e) => e
    case None => NewEpoch(app, epochLength, CalculateEpochIndex(epochLength, block))
  }

  /** The checks before the store: signature, application, nonce, payload. */
  predicate Admissible(world: World, app: Address, nonces: map<NonceKey, nat>, h: nat, i: nat)
    requires i < |world.transactions(h)|
  {
    var tx := world.transactions(h)[i];
    && tx.Signed? && tx.app == app
    && tx.nonce == NonceIn(nonces, tx.sender, app)
    && PayloadBytes(tx.payload).Some?
  }

  /** One epoch, one input, the block cursor and the commit. */
  const ESPRESSO_STORE_STATEMENTS: nat := 4

  function EspressoEntries(world: World, db: Db, app: Address, h: nat, i: nat): seq<Entry>
    requires world.epochLength(app) >= 1
    requires i < |world.transactions(h)| && Admissible(world, app, db.nonces, h, i)
  {
    var tx := world.transactions(h)[i];
    var epoch := EspressoEpoch(db, app, world.epochLength(app), world.l1FinalizedHeight(h));
    var input := EspressoInputOf(world, h, app, tx, Counter(db, app), PayloadBytes(tx.payload).value);
    [Entry(epoch, [input])]
  }

  /** Transaction `i` of block `h`: nonce and counter move only after the input is stored. */
  function DeliverTx(world: World, db: Db, app: Address, h: nat, i: nat): Db
    requires world.epochLength(app) >= 1 && i < |world.transactions(h)|
  {
    if !Admissible(world, app, db.nonces, h, i)
      || !Survives(world.espressoStoreFault(h, i), ESPRESSO_STORE_STATEMENTS) then db
    else
      var sender := world.transactions(h)[i].sender;
      match StoreEntries(db, EspressoEntries(world, db, app, h, i),
                         world.l1FinalizedHeight(h), app)
      case None => db
      case Some(d) =>
        SetCounter(SetNonce(d, sender, app, Nonce(d, sender, app) + 1), app, Counter(d, app) + 1)
  }

  /** The first `n` transactions of block `h`. */
  function DeliverUpTo(world: World, db: Db, app: Address, h: nat, n: nat): Db
    requires world.epochLength(app) >= 1 && n <= |world.transactions(h)|
  {
    if n == 0 then db else DeliverTx(world, DeliverUpTo(world, db, app, h, n - 1), app, h, n - 1)
  }

  function DeliverBlock(world: World, db: Db, app: Address, h: nat): Db
    requires world.epochLength(app) >= 1
  {
    DeliverUpTo(world, db, app, h, |world.transactions(h)|)
  }
}
