/** The entities of internal/model/models.go, as far as the reader writes them. */
module Model {

  datatype Option<+T> = None | Some(value: T)

  type Byte = b: int | 0 <= b < 256
  type Bytes = seq<Byte>

  /** Calldata long enough to have a method selector to strip. */
  type Calldata = b: Bytes | |b| >= 4 witness [0, 0, 0, 0]

  /** A 20-byte account address. */
  type Address = a: seq<Byte> | |a| == 20 witness seq(20, _ => 0)

  type Hash = nat

  const TWO_TO_64: nat := 0x1_0000_0000_0000_0000

  /** The numbers are first, first + 1, and so on. */
  predicate CountsFrom(numbers: seq<nat>, first: nat) {
    forall k | 0 <= k < |numbers| :: numbers[k] == first + k
  }

  datatype EpochStatus =
    | Open
    | Closed
    | ProcessedAllInputs
    | ClaimComputed
    | ClaimSubmitted
    | ClaimAccepted
    | ClaimRejected

  /** Where an input came from: the bytes of its InputBox index, or the hash of its signature. */
  datatype TransactionId = FromInputBox(eventIndex: nat) | FromEspresso(signatureHash: Hash)

  /** An epoch in memory, before it is stored. */
  datatype EpochData = EpochData(
    app: Address, index: nat, firstBlock: nat, lastBlock: nat, status: EpochStatus)

  /** An input in memory, before it is stored. */
  datatype Input = Input(app: Address, index: nat, raw: Calldata, block: nat, txId: TransactionId)

  /** One element of the map from epochs to their inputs. */
  datatype Entry = Entry(epoch: EpochData, inputs: seq<Input>)
}
