/** The calldata of EvmAdvance (internal/evmreader/abi.json) and rewriting the index inside it.

    The layout is that of the Solidity Contract ABI Specification, section "Formal Specification of
    the Encoding": a 4-byte selector, eight 32-byte head words, of which the last is the offset of
    the payload, then the payload's length and its bytes padded to a multiple of 32. */
module EvmAdvanceAbi {
  import opened Model

  datatype EvmAdvance = EvmAdvance(
    chainId: nat,
    appContract: Address,
    msgSender: Address,
    blockNumber: nat,
    blockTimestamp: nat,
    prevRandao: nat,
    index: nat,
    payload: Bytes)

  /** The method id 0x415bf363. */
  const SELECTOR: Bytes := [0x41, 0x5b, 0xf3, 0x63]

  const WORD_BYTES: nat := 32
  const HEAD_BYTES: nat := 256

  const TWO_TO_63: nat := 0x8000_0000_0000_0000

  function Pow256(k: nat): (r: nat)
    ensures r >= 1
  {
    if k == 0 then 1 else 256 * Pow256(k - 1)
  }

  /** The low `k` bytes of `n`, most significant first. */
  function BigEndian(n: nat, k: nat): (r: Bytes)
    ensures |r| == k
  {
    if k == 0 then [] else BigEndian(n / 256, k - 1) + [n % 256]
  }

  function FromBigEndian(bs: Bytes): nat {
    if bs == [] then 0 else FromBigEndian(bs[..|bs| - 1]) * 256 + bs[|bs| - 1]
  }

  lemma {:induction false} BigEndianRoundTrip(n: nat, k: nat)
    requires n < Pow256(k)
    ensures FromBigEndian(BigEndian(n, k)) == n
  {
    if k > 0 {
      BigEndianRoundTrip(n / 256, k - 1);
      var bs := BigEndian(n, k);
      assert bs[..|bs| - 1] == BigEndian(n / 256, k - 1);
    }
  }

  lemma {:induction false} FromBigEndianBound(bs: Bytes)
    ensures FromBigEndian(bs) < Pow256(|bs|)
  {
    if bs != [] {
      FromBigEndianBound(bs[..|bs| - 1]);
    }
  }

  function Word(n: nat): (r: Bytes)
    ensures |r| == 32
  {
    BigEndian(n, WORD_BYTES)
  }

  function Zeros(k: nat): (r: Bytes)
    ensures |r| == k
  {
    seq(k, i => 0)
  }

  function Padding(length: nat): (r: nat)
    ensures r < 32 && (length + r) % 32 == 0
  {
    (32 - length % 32) % 32
  }

  function Concat(words: seq<Bytes>): Bytes {
    if words == [] then [] else Concat(words[..|words| - 1]) + words[|words| - 1]
  }

  function HeadWords(f: EvmAdvance): seq<Bytes> {
    [ Word(f.chainId), Zeros(12) + f.appContract, Zeros(12) + f.msgSender, Word(f.blockNumber),
      Word(f.blockTimestamp), Word(f.prevRandao), Word(f.index), Word(HEAD_BYTES) ]
  }

  /** The payload's length, the payload, and zeros up to the next multiple of 32. */
  function Tail(payload: Bytes): Bytes {
    Word(|payload|) + payload + Zeros(Padding(|payload|))
  }

  function EncodeArguments(f: EvmAdvance): Bytes {
    Concat(HeadWords(f)) + Tail(f.payload)
  }

  function Pack(f: EvmAdvance): Calldata
  {
    SELECTOR + EncodeArguments(f)
  }

  function WordAt(data: Bytes, k: nat): (r: Bytes)
    requires 32 * k + 32 <= |data|
    ensures |r| == 32
  {
    data[32 * k..32 * k + 32]
  }

  function UintAt(data: Bytes, k: nat): nat
    requires 32 * k + 32 <= |data|
  {
    FromBigEndian(WordAt(data, k))
  }

  /** An address is the low 20 bytes of its word; the rest is not looked at. */
  function AddressAt(data: Bytes, k: nat): Address
    requires 32 * k + 32 <= |data|
  {
    WordAt(data, k)[12..]
  }

  function PayloadAt(data: Bytes, offset: nat): Option<Bytes> {
    if offset + 32 > |data| then None
    else
      var length := FromBigEndian(data[offset..offset + 32]);
      if offset + 32 + length > |data| then None
      else Some(data[offset + 32..offset + 32 + length])
  }

  function DecodeArguments(data: Bytes): Option<EvmAdvance> {
    if |data| < HEAD_BYTES then None
    else
      match PayloadAt(data, UintAt(data, 7))
      case None => None
      case Some(payload) =>
        Some(EvmAdvance(UintAt(data, 0), AddressAt(data, 1), AddressAt(data, 2), UintAt(data, 3),
                        UintAt(data, 4), UintAt(data, 5), UintAt(data, 6), payload))
  }

  /** Index and chain id go through an int64, so from 2^63 on the word is that of a negative number. */
  function Int64Word(n: nat): nat {
    if n < TWO_TO_63 then n else n + Pow256(WORD_BYTES) - TWO_TO_64
  }

  /** The source drops the first four bytes without looking at them. */
  function ModifyIndexInRaw(raw: Calldata, index: nat): Option<Calldata> {
    match DecodeArguments(raw[4..])
    case None => None
    case Some(f) => Some(Pack(f.(index := Int64Word(index))))
  }

  /** Every number fits its word. */
  predicate Fits(f: EvmAdvance) {
    var bound := Pow256(WORD_BYTES);
    && f.chainId < bound && f.blockNumber < bound && f.blockTimestamp < bound
    && f.prevRandao < bound && f.index < bound && |f.payload| < bound
  }

  lemma Pow256Facts()
    ensures Pow256(8) == TWO_TO_64
    ensures Pow256(WORD_BYTES) > TWO_TO_64
  {
    Pow256Monotone(9, WORD_BYTES);
    assert Pow256(2) == 256 * Pow256(1) == 0x1_0000;
    assert Pow256(4) == 256 * Pow256(3) == 256 * (256 * Pow256(2)) == 0x1_0000_0000;
    assert Pow256(6) == 256 * Pow256(5) == 256 * (256 * Pow256(4)) == 0x1_0000_0000_0000;
    assert Pow256(8) == 256 * Pow256(7) == 256 * (256 * Pow256(6));
    assert Pow256(9) == 256 * Pow256(8);
  }

  lemma {:induction false} Pow256Monotone(a: nat, b: nat)
    requires a <= b
    ensures Pow256(a) <= Pow256(b)
  {
    if a < b {
      Pow256Monotone(a, b - 1);
    }
  }

  lemma SliceOfPrefix(a: Bytes, b: Bytes, lo: nat, hi: nat)
    requires lo <= hi <= |a|
    ensures (a + b)[lo..hi] == a[lo..hi]
  {
  }

  lemma SliceOfSuffix(a: Bytes, b: Bytes)
    ensures (a + b)[|a|..|a| + |b|] == b
  {
  }

  lemma ConcatLast(words: seq<Bytes>)
    ensures words == [] ==> Concat(words) == []
    ensures words != [] ==> Concat(words) == Concat(words[..|words| - 1]) + words[|words| - 1]
  {
  }

  lemma {:induction false} ConcatWords(words: seq<Bytes>)
    requires forall w | w in words :: |w| == 32
    ensures |Concat(words)| == 32 * |words|
    ensures forall k | 0 <= k < |words| :: Concat(words)[32 * k..32 * k + 32] == words[k]
  {
    hide Concat;
    ConcatLast(words);
    if words != [] {
      var n := |words| - 1;
      ConcatWords(words[..n]);
      var before := Concat(words[..n]);
      forall k | 0 <= k < |words| ensures Concat(words)[32 * k..32 * k + 32] == words[k] {
        if k < n {
          SliceOfPrefix(before, words[n], 32 * k, 32 * k + 32);
          assert words[..n][k] == words[k];
        } else {
          SliceOfSuffix(before, words[n]);
        }
      }
    }
  }

  /** The head words sit where the decoder looks for them, and the tail follows. */
  lemma HeadThenTail(words: seq<Bytes>, tail: Bytes, k: nat)
    requires k < |words| == 8
    requires forall w | w in words :: |w| == 32
    ensures |Concat(words)| == HEAD_BYTES
    ensures WordAt(Concat(words) + tail, k) == words[k]
    ensures (Concat(words) + tail)[HEAD_BYTES..] == tail
  {
    ConcatWords(words);
    SliceOfPrefix(Concat(words), tail, 32 * k, 32 * k + 32);
  }

  lemma EncodedHead(f: EvmAdvance, k: nat)
    requires k < 8
    ensures |EncodeArguments(f)| >= HEAD_BYTES + 32
    ensures WordAt(EncodeArguments(f), k) == HeadWords(f)[k]
    ensures EncodeArguments(f)[HEAD_BYTES..] == Tail(f.payload)
  {
    HeadThenTail(HeadWords(f), Tail(f.payload), k);
  }

  lemma TailHoldsPayload(payload: Bytes)
    requires |payload| < Pow256(WORD_BYTES)
    ensures var tail := Tail(payload);
            && |tail| >= 32 + |payload|
            && FromBigEndian(tail[..32]) == |payload|
            && tail[32..32 + |payload|] == payload
  {
    BigEndianRoundTrip(|payload|, WORD_BYTES);
    assert Tail(payload)[..32] == Word(|payload|);
    assert Tail(payload)[32..32 + |payload|] == payload;
  }

  lemma PayloadFromTail(data: Bytes, offset: nat)
    requires offset + 32 <= |data|
    ensures data[offset..offset + 32] == data[offset..][..32]
    ensures var n := FromBigEndian(data[offset..offset + 32]);
            offset + 32 + n <= |data| ==>
              data[offset + 32..offset + 32 + n] == data[offset..][32..32 + n]
  {
  }

  lemma EncodedPayload(f: EvmAdvance)
    requires Fits(f)
    ensures PayloadAt(EncodeArguments(f), HEAD_BYTES) == Some(f.payload)
  {
    EncodedHead(f, 7);
    TailHoldsPayload(f.payload);
    PayloadFromTail(EncodeArguments(f), HEAD_BYTES);
  }

  lemma EncodedUint(f: EvmAdvance, k: nat, n: nat)
    requires k < 8 && n < Pow256(WORD_BYTES) && HeadWords(f)[k] == Word(n)
    ensures |EncodeArguments(f)| >= HEAD_BYTES + 32
    ensures UintAt(EncodeArguments(f), k) == n
  {
    EncodedHead(f, k);
    BigEndianRoundTrip(n, WORD_BYTES);
  }

  lemma EncodedAddress(f: EvmAdvance, k: nat, a: Address)
    requires k < 8 && HeadWords(f)[k] == Zeros(12) + a
    ensures |EncodeArguments(f)| >= HEAD_BYTES + 32
    ensures AddressAt(EncodeArguments(f), k) == a
  {
    EncodedHead(f, k);
  }

  /** Decoding an encoded call gives the call back. */
  lemma DecodeEncoded(f: EvmAdvance)
    requires Fits(f)
    ensures DecodeArguments(EncodeArguments(f)) == Some(f)
  {
    hide EncodeArguments, UintAt, AddressAt, PayloadAt;
    EncodedNumbers(f);
    EncodedAddress(f, 1, f.appContract);
    EncodedAddress(f, 2, f.msgSender);
    EncodedPayload(f);
  }

  lemma EncodedNumbers(f: EvmAdvance)
    requires Fits(f)
    ensures var data := EncodeArguments(f);
            && |data| >= HEAD_BYTES + 32
            && UintAt(data, 0) == f.chainId && UintAt(data, 3) == f.blockNumber
            && UintAt(data, 4) == f.blockTimestamp && UintAt(data, 5) == f.prevRandao
            && UintAt(data, 6) == f.index && UintAt(data, 7) == HEAD_BYTES
  {
    hide EncodeArguments, UintAt, Word, Zeros, Pow256;
    Pow256Facts();
    EncodedUint(f, 0, f.chainId);
    EncodedUint(f, 3, f.blockNumber);
    EncodedUint(f, 4, f.blockTimestamp);
    EncodedUint(f, 5, f.prevRandao);
    EncodedUint(f, 6, f.index);
    EncodedUint(f, 7, HEAD_BYTES);
  }

  /** What was decoded from bytes fits its words again. */
  lemma DecodedFits(data: Bytes)
    requires DecodeArguments(data).Some?
    requires |data| < Pow256(WORD_BYTES)
    ensures Fits(DecodeArguments(data).value)
  {
    hide UintAt, AddressAt, PayloadAt, Pow256;
    UintBound(data, 0);
    UintBound(data, 3);
    UintBound(data, 4);
    UintBound(data, 5);
    UintBound(data, 6);
    PayloadBound(data, UintAt(data, 7));
  }

  lemma UintBound(data: Bytes, k: nat)
    requires 32 * k + 32 <= |data|
    ensures UintAt(data, k) < Pow256(WORD_BYTES)
  {
    FromBigEndianBound(WordAt(data, k));
  }

  lemma PayloadBound(data: Bytes, offset: nat)
    ensures PayloadAt(data, offset).Some? ==> |PayloadAt(data, offset).value| <= |data|
  {
  }

  /** The index a decoder finds in a stored calldata. */
  function IndexInRaw(raw: Calldata): Option<nat> {
    match DecodeArguments(raw[4..])
    case None => None
    case Some(f) => Some(f.index)
  }

  lemma PackedCallDecodes(f: EvmAdvance)
    requires Fits(f)
    ensures DecodeArguments(Pack(f)[4..]) == Some(f)
    ensures IndexInRaw(Pack(f)) == Some(f.index)
  {
    assert Pack(f)[4..] == EncodeArguments(f);
    DecodeEncoded(f);
  }

  /** Calldata is the selector, nine words, and the payload filled up to whole words. */
  lemma PackedLength(f: EvmAdvance)
    ensures |Pack(f)| == 4 + 9 * 32 + |f.payload| + Padding(|f.payload|)
    ensures (|Pack(f)| - 4) % 32 == 0
    ensures Pack(f)[..4] == SELECTOR
  {
    hide Padding, Word, Concat;
    ConcatWords(HeadWords(f));
  }

  /** Rewriting touches nothing but the index: every other field decodes as before. It never fails
      on calldata that decodes, and the index found afterwards is the one asked for exactly when
      that one survives the int64 conversion. */
  lemma ModifyIndexKeepsOtherFields(raw: Calldata, index: nat)
    requires |raw| < Pow256(WORD_BYTES) && index < TWO_TO_64
    requires DecodeArguments(raw[4..]).Some?
    ensures var f := DecodeArguments(raw[4..]).value;
            var out := ModifyIndexInRaw(raw, index);
            && out.Some? && out.value[..4] == SELECTOR
            && DecodeArguments(out.value[4..]) == Some(f.(index := Int64Word(index)))
            && (IndexInRaw(out.value) == Some(index) <==> index < TWO_TO_63)
  {
    hide DecodeArguments, Pow256, EncodeArguments;
    var f := DecodeArguments(raw[4..]).value;
    Pow256Facts();
    DecodedFits(raw[4..]);
    PackedCallDecodes(f.(index := Int64Word(index)));
    assert Pack(f.(index := Int64Word(index)))[..4] == SELECTOR;
  }
}
