/** Reading the namespaces out of an Espresso header
    (internal/espressoreader/espresso_reader.go, extractNS).

    A table is a 4-byte little-endian count followed by 8-byte entries, each the namespace and then
    the end of its payload. The source computes the position of entry `i` in uint32. */
module NamespaceTable {
  import opened Model

  const TWO_TO_32: nat := 0x1_0000_0000
  const TWO_TO_29: nat := 0x2000_0000

  type Uint32 = n: nat | n < TWO_TO_32

  datatype NsEntry = NsEntry(namespace: Uint32, end: Uint32)

  /** binary.LittleEndian.Uint32 at a position. */
  function Uint32At(table: Bytes, pos: nat): Uint32
    requires pos + 4 <= |table|
  {
    var b0: nat, b1: nat, b2: nat, b3: nat :=
      table[pos], table[pos + 1], table[pos + 2], table[pos + 3];
    b0 + 0x100 * b1 + 0x1_0000 * b2 + 0x100_0000 * b3
  }

  function LittleEndian(n: Uint32): (r: Bytes)
    ensures |r| == 4
  {
    [n % 0x100, n / 0x100 % 0x100, n / 0x1_0000 % 0x100, n / 0x100_0000]
  }

  function EncodeEntries(entries: seq<NsEntry>): (r: Bytes)
    ensures |r| == 8 * |entries|
  {
    if entries == [] then []
    else
      var n := |entries| - 1;
      EncodeEntries(entries[..n])
      + LittleEndian(entries[n].namespace) + LittleEndian(entries[n].end)
  }

  function EncodeTable(entries: seq<NsEntry>): (r: Bytes)
    requires |entries| < TWO_TO_32
    ensures |r| == 4 + 8 * |entries|
  {
    LittleEndian(|entries|) + EncodeEntries(entries)
  }

  function EntryPosition(i: nat): nat {
    (4 + 8 * i) % TWO_TO_32
  }

  /** No read leaves the table, so the source does not panic. */
  predicate Readable(table: Bytes) {
    |table| >= 4 && forall i: nat | i < Uint32At(table, 0) :: EntryPosition(i) + 4 <= |table|
  }

  function NamespacesIn(table: Bytes): (r: seq<Uint32>)
    requires Readable(table)
    ensures |r| == Uint32At(table, 0)
  {
    seq(Uint32At(table, 0), i requires 0 <= i < Uint32At(table, 0) =>
      Uint32At(table, EntryPosition(i)))
  }

  method ExtractNS(table: Bytes) returns (namespaces: seq<Uint32>)
    requires Readable(table)
    ensures namespaces == NamespacesIn(table)
  {
    namespaces := [];
    var count := Uint32At(table, 0);
    for i := 0 to count
      invariant namespaces == NamespacesIn(table)[..i]
    {
      namespaces := namespaces + [Uint32At(table, EntryPosition(i))];
    }
  }

  lemma LittleEndianRoundTrip(n: Uint32, before: Bytes, after: Bytes)
    ensures |before + LittleEndian(n) + after| >= |before| + 4
    ensures Uint32At(before + LittleEndian(n) + after, |before|) == n
  {
    var t := before + LittleEndian(n) + after;
    assert forall k | 0 <= k < 4 :: t[|before| + k] == LittleEndian(n)[k];
    Digits(n);
  }

  lemma Digits(n: nat)
    ensures n == n % 0x100 + 0x100 * (n / 0x100 % 0x100) + 0x1_0000 * (n / 0x1_0000 % 0x100)
              + 0x100_0000 * (n / 0x100_0000)
  {
    var a, b, c := n / 0x100, n / 0x1_0000, n / 0x100_0000;
    assert b == a / 0x100 && c == b / 0x100;
  }

  lemma {:induction false} EntryBytes(before: Bytes, entries: seq<NsEntry>, i: nat)
    requires i < |entries|
    ensures |before + EncodeEntries(entries)| >= |before| + 8 * i + 4
    ensures Uint32At(before + EncodeEntries(entries), |before| + 8 * i) == entries[i].namespace
  {
    var n := |entries| - 1;
    var front, e := EncodeEntries(entries[..n]), entries[n];
    var t := before + EncodeEntries(entries);
    if i < n {
      EntryBytes(before, entries[..n], i);
      var shorter := before + front;
      assert forall k | 0 <= k < |shorter| :: t[k] == shorter[k];
    } else {
      assert t == (before + front) + LittleEndian(e.namespace) + LittleEndian(e.end);
      LittleEndianRoundTrip(e.namespace, before + front, LittleEndian(e.end));
    }
  }

  /** The position wraps after 2^29 entries, which makes the reader start over. */
  lemma PositionWraps(i: nat)
    ensures EntryPosition(i) == 4 + 8 * (i % TWO_TO_29)
  {
    var q, r := i / TWO_TO_29, i % TWO_TO_29;
    assert 4 + 8 * i == 4 + 8 * r + TWO_TO_32 * q;
  }

  /** Reading an encoded table never leaves it, and gives the entries' namespaces in order, starting
      over every 2^29 entries. */
  lemma ExtractEncoded(entries: seq<NsEntry>)
    requires |entries| < TWO_TO_32
    ensures Readable(EncodeTable(entries))
    ensures |NamespacesIn(EncodeTable(entries))| == |entries|
    ensures forall i | 0 <= i < |entries| ::
              NamespacesIn(EncodeTable(entries))[i] == entries[i % TWO_TO_29].namespace
  {
    var table := EncodeTable(entries);
    LittleEndianRoundTrip(|entries|, [], EncodeEntries(entries));
    assert table == [] + LittleEndian(|entries|) + EncodeEntries(entries);
    assert Uint32At(table, 0) == |entries|;
    forall i: nat | i < |entries|
      ensures EntryPosition(i) + 4 <= |table|
      ensures Uint32At(table, EntryPosition(i)) == entries[i % TWO_TO_29].namespace
    {
      PositionWraps(i);
      EntryBytes(LittleEndian(|entries|), entries, i % TWO_TO_29);
    }
  }

  function Namespaces(entries: seq<NsEntry>): (r: seq<Uint32>)
    ensures |r| == |entries|
  {
    seq(|entries|, i requires 0 <= i < |entries| => entries[i].namespace)
  }

  /** The namespaces start over every 2^29 entries, as they trivially do in a shorter table. */
  predicate Repeats(entries: seq<NsEntry>) {
    forall i | TWO_TO_29 <= i < |entries| :: entries[i].namespace == entries[i % TWO_TO_29].namespace
  }

  /** So the reader inverts the encoder exactly for tables that repeat, every table of up to 2^29
      entries among them. */
  lemma ExtractInvertsEncoder(entries: seq<NsEntry>)
    requires |entries| < TWO_TO_32
    ensures Readable(EncodeTable(entries))
    ensures NamespacesIn(EncodeTable(entries)) == Namespaces(entries) <==> Repeats(entries)
    ensures |entries| <= TWO_TO_29 ==> Repeats(entries)
  {
    hide NamespacesIn, EncodeTable, Readable;
    ExtractEncoded(entries);
    var found, wanted := NamespacesIn(EncodeTable(entries)), Namespaces(entries);
    if Repeats(entries) {
      forall i | 0 <= i < |entries| ensures found[i] == wanted[i] {
        SmallRemainder(i);
      }
    } else {
      var i :| TWO_TO_29 <= i < |entries| &&
        entries[i].namespace != entries[i % TWO_TO_29].namespace;
      assert found[i] != wanted[i];
    }
  }

  lemma SmallRemainder(i: nat)
    ensures i < TWO_TO_29 ==> i % TWO_TO_29 == i
  {
  }
}
