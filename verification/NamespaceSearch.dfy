/** Which blocks bootstrapping takes to have the namespace, in terms of the entries of their headers
    (internal/espressoreader/espresso_reader.go, bootstrap). */
module NamespaceSearch {
  import opened Model
  import opened World
  import opened NamespaceTable
  import opened CatchUp
  import opened ReaderSteps
  import opened Coverage

  /** One of the entries is for the configured namespace, as far as a uint32 can tell. */
  ghost predicate HasEntry(world: World, entries: seq<NsEntry>) {
    exists i :: 0 <= i < |entries| && entries[i].namespace == world.namespace % 0x1_0000_0000
  }

  function FirstEntries(entries: seq<NsEntry>): seq<NsEntry> {
    if |entries| <= TWO_TO_29 then entries else entries[..TWO_TO_29]
  }

  /** The namespace is found exactly if one of the entries is for it; of a table of more than 2^29
      entries, one of the first 2^29. */
  lemma TableHasExactly(world: World, entries: seq<NsEntry>)
    requires |entries| < TWO_TO_32
    ensures TableHas(world, EncodeTable(entries)) <==> HasEntry(world, FirstEntries(entries))
    ensures |entries| <= 0x2000_0000 ==>
              (TableHas(world, EncodeTable(entries)) <==> HasEntry(world, entries))
  {
    hide EncodeTable, NamespacesIn, Readable;
    ExtractEncoded(entries);
    var found := NamespacesIn(EncodeTable(entries));
    var first := FirstEntries(entries);
    if TableHas(world, EncodeTable(entries)) {
      var i :| 0 <= i < |found| && found[i] == world.namespace % TWO_TO_32;
      assert first[i % TWO_TO_29] == entries[i % TWO_TO_29];
    }
    if HasEntry(world, first) {
      var i :| 0 <= i < |first| && first[i].namespace == world.namespace % TWO_TO_32;
      SmallRemainder(i);
      assert found[i] == world.namespace % TWO_TO_32;
    }
  }

  /** The bytes of a table with two entries: the count, and of each entry the namespace, low byte first,
      and the end of its payload. */
  lemma BytesOfTwo(world: World)
    ensures var table := [2, 0, 0, 0, 5, 0, 0, 0, 9, 0, 0, 0, 7, 1, 0, 0, 9, 0, 0, 0];
            && Readable(table) && NamespacesIn(table) == [5, 0x107]
            && (TableHas(world, table) <==>
                  world.namespace % 0x1_0000_0000 == 5 || world.namespace % 0x1_0000_0000 == 0x107)
  {
    var table := [2, 0, 0, 0, 5, 0, 0, 0, 9, 0, 0, 0, 7, 1, 0, 0, 9, 0, 0, 0];
    assert Uint32At(table, 0) == 2 && EntryPosition(0) == 4 && EntryPosition(1) == 12;
    assert Uint32At(table, 4) == 5 && Uint32At(table, 12) == 0x107;
    assert NamespacesIn(table)[0] == 5 && NamespacesIn(table)[1] == 0x107;
  }

  /** The headers have these entries. */
  ghost predicate HeadersHave(world: World, entries: nat -> seq<NsEntry>, from: nat, until: nat) {
    forall h | from <= h < until ::
      |entries(h)| <= TWO_TO_29 && world.namespaceTable(h) == EncodeTable(entries(h))
  }

  /** Of a range of blocks, those with an entry for the namespace, and no others. */
  lemma BlocksListedExactly(world: World, entries: nat -> seq<NsEntry>, from: nat, until: nat)
    requires HeadersHave(world, entries, from, until)
    ensures forall h: nat :: h in BlocksWithNamespace(world, from, until) <==>
              from <= h < until && HasEntry(world, entries(h))
  {
    hide TableHas, EncodeTable, HasEntry;
    BlocksWithNamespaceAre(world, from, until);
    forall h: nat | from <= h < until ensures HasNamespace(world, h) <==> HasEntry(world, entries(h)) {
      TableHasExactly(world, entries(h));
    }
  }

  /** Of an answer, the blocks that stand where a table has an entry for it. */
  lemma {:induction false} FoundExactly(
    world: World, tables: seq<Bytes>, entries: seq<seq<NsEntry>>, start: nat)
    requires |entries| == |tables|
    requires forall k | 0 <= k < |tables| ::
               |entries[k]| <= TWO_TO_29 && tables[k] == EncodeTable(entries[k])
    ensures forall h: nat :: h in Found(world, tables, start) <==>
              start <= h < start + |tables| && HasEntry(world, entries[h - start])
  {
    hide TableHas, EncodeTable, HasEntry;
    if tables != [] {
      var n := |tables| - 1;
      FoundExactly(world, tables[..n], entries[..n], start);
      TableHasExactly(world, entries[n]);
    }
  }

  /** So of a batch exactly the blocks with such an entry are visited, if the answer can be read, and
      none if it cannot. */
  lemma BatchVisitsAre(world: World, batch: Range, entries: seq<seq<NsEntry>>)
    requires var answer := world.headerAnswer(batch.0, batch.1);
             answer.Some? ==>
               && |entries| == |answer.value|
               && forall k | 0 <= k < |entries| ::
                    |entries[k]| <= TWO_TO_29 && answer.value[k] == EncodeTable(entries[k])
    ensures world.headerAnswer(batch.0, batch.1).None? ==> BatchVisits(world, batch) == []
    ensures world.headerAnswer(batch.0, batch.1).Some? ==>
              forall h: nat :: h in BatchVisits(world, batch) <==>
                batch.0 <= h < batch.0 + |entries| && HasEntry(world, entries[h - batch.0])
  {
    hide TableHas, EncodeTable, HasEntry, Found;
    var answer := world.headerAnswer(batch.0, batch.1);
    if answer.Some? {
      FoundExactly(world, answer.value, entries, batch.0);
    }
  }
}
