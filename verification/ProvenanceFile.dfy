/** Building the provenance file (tools/lightning_gate/record.py, `build_provenance`): sources grouped by slot, both
    lists of domains resolved, the reverse index, the counts, and the sorted list of unavailable boundaries. */
module ProvenanceFile {
  import opened Orders
  import opened Polygons
  import opened Provenance
  import opened CreditDirections

  // ---- Sources by slot ----

  datatype Cataloged = Cataloged(localLayer: int, region: int, source: Source)

  function CatalogSlot(c: Cataloged): Key { Key(c.localLayer, c.region) }

  predicate SourceLeq(a: Source, b: Source) { StringLeq(a.id, b.id) }

  function SlotKeys(catalog: seq<Cataloged>): set<Key> { set c | c in catalog :: CatalogSlot(c) }

  /** The sources of one slot, in catalog order. */
  function InSlot(catalog: seq<Cataloged>, key: Key): seq<Source> {
    if catalog == [] then []
    else
      var front, last := InSlot(catalog[..|catalog| - 1], key), catalog[|catalog| - 1];
      if CatalogSlot(last) == key then front + [last.source] else front
  }

  function Slots(catalog: seq<Cataloged>): map<Key, seq<Source>> {
    map key | key in SlotKeys(catalog) :: Sort(SourceLeq, InSlot(catalog, key))
  }

  lemma {:induction false} InSlotMembers(catalog: seq<Cataloged>, key: Key)
    ensures forall s :: s in InSlot(catalog, key) <==> exists c | c in catalog :: CatalogSlot(c) == key && c.source == s
    ensures key !in SlotKeys(catalog) ==> InSlot(catalog, key) == []
  {
    if catalog != [] {
      var front, last := catalog[..|catalog| - 1], catalog[|catalog| - 1];
      InSlotMembers(front, key);
      assert catalog == front + [last];
      assert forall c :: c in catalog <==> c in front || c == last;
    }
  }

  /** Exactly the slots of the catalog, each with its sources. */
  ghost predicate Grouped(slots: map<Key, seq<Source>>, catalog: seq<Cataloged>) {
    && slots.Keys == SlotKeys(catalog)
    && forall key | key in slots :: slots[key] == InSlot(catalog, key)
  }

  function WithSource(slots: map<Key, seq<Source>>, c: Cataloged): map<Key, seq<Source>> {
    var slot := CatalogSlot(c);
    slots[slot := (if slot in slots then slots[slot] else []) + [c.source]]
  }

  lemma GroupOneMore(slots: map<Key, seq<Source>>, catalog: seq<Cataloged>, c: Cataloged)
    requires Grouped(slots, catalog)
    ensures Grouped(WithSource(slots, c), catalog + [c])
  {
    var more := catalog + [c];
    assert more[..|more| - 1] == catalog;
    assert forall x :: x in more <==> x in catalog || x == c;
    assert SlotKeys(more) == SlotKeys(catalog) + {CatalogSlot(c)};
    InSlotMembers(catalog, CatalogSlot(c));
  }

  method GroupSources(catalog: seq<Cataloged>) returns (slots: map<Key, seq<Source>>)
    ensures Grouped(slots, catalog)
  {
    slots := map[];
    for i := 0 to |catalog|
      invariant Grouped(slots, catalog[..i])
    {
      TakeOneMore(catalog, i);
      GroupOneMore(slots, catalog[..i], catalog[i]);
      slots := WithSource(slots, catalog[i]);
    }
    TakeAll(catalog);
  }

  method SortSlots(grouped: map<Key, seq<Source>>) returns (slots: map<Key, seq<Source>>)
    ensures slots.Keys == grouped.Keys
    ensures forall key | key in grouped :: slots[key] == Sort(SourceLeq, grouped[key])
  {
    slots := grouped;
    var left := slots.Keys;
    while left != {}
      invariant left <= slots.Keys == grouped.Keys
      invariant forall key | key in grouped ::
                  slots[key] == if key in left then grouped[key] else Sort(SourceLeq, grouped[key])
    {
      var key :| key in left;
      slots := slots[key := Sort(SourceLeq, slots[key])];
      left := left - {key};
    }
  }

  /** The dictionary of slots, each list in the order of its source ids. */
  method SourcesBySlot(catalog: seq<Cataloged>) returns (slots: map<Key, seq<Source>>)
    ensures slots == Slots(catalog)
  {
    var grouped := GroupSources(catalog);
    slots := SortSlots(grouped);
  }

  /** A boundary is compared with exactly the cataloged sources of its entry's layer and region, in the order of their
      ids. */
  lemma SlotHolds(catalog: seq<Cataloged>, entry: Entry)
    ensures forall s :: s in SourcesFor(entry, Slots(catalog)) <==>
              exists c | c in catalog :: CatalogSlot(c) == SlotOf(entry) && c.source == s
    ensures Sorted(SourceLeq, SourcesFor(entry, Slots(catalog)))
  {
    var key := SlotOf(entry);
    InSlotMembers(catalog, key);
    SortMembers(SourceLeq, InSlot(catalog, key));
    SourceOrder();
    SortSorts(SourceLeq, InSlot(catalog, key));
  }

  lemma SourceOrder()
    ensures TotalPreorder(SourceLeq)
  {
    StringOrder();
  }

  // ---- The file ----

  /** Entries with one domain and surface are the same, and their segments are numbered. */
  ghost predicate DistinctSurfaces(entries: seq<Entry>) {
    && (forall e, f | e in entries && f in entries :: e.domain == f.domain && e.surface == f.surface ==> e == f)
    && (forall e | e in entries :: Ordered(e.segments))
  }

  /** Numbered segments of distinct surfaces have distinct addresses. */
  lemma SurfacesGiveAddresses(entries: seq<Entry>)
    requires DistinctSurfaces(entries)
    ensures DistinctAddresses(entries)
  {
    forall e, f, s, t | e in entries && f in entries && s in e.segments && t in f.segments
                        && AddressOf(e, s) == AddressOf(f, t)
      ensures KeyOf(e) == KeyOf(f) && s == t
    {
      var i: nat :| i < |e.segments| && e.segments[i] == s;
      var j: nat :| j < |f.segments| && f.segments[j] == t;
      NumberNamesOne(e.segments, i, j);
    }
  }

  lemma NumberNamesOne(s: seq<Segment>, i: nat, j: nat)
    requires Ordered(s) && i < |s| && j < |s|
    ensures s[i].ring == s[j].ring && s[i].id == s[j].id ==> s[i] == s[j]
  {
  }

  /** What the two directions of every operation say about each other, at both tolerances. */
  ghost predicate BothDirections(entries: seq<Entry>, slots: map<Key, seq<Source>>, operations: seq<Operation>,
                                 operation: Operation, outputs: seq<Address>)
  {
    && DirectionsAgree(entries, slots, operations, operation, outputs)
    && (DistinctSurfaces(entries) ==> TolerantDirections(entries, slots, operations, operation, outputs))
  }

  lemma RecordsAgree(records: seq<OperationRecord>, operations: seq<Operation>, entries: seq<Entry>,
                     slots: map<Key, seq<Source>>)
    requires operations == Models(records) && forall o | o in records :: OutputsExact(o.outputs, o.model, entries)
    ensures DistinctIds(operations) ==>
      forall o | o in records :: BothDirections(entries, slots, operations, o.model, o.outputs)
  {
    if DistinctIds(operations) {
      forall o | o in records ensures BothDirections(entries, slots, operations, o.model, o.outputs) {
        assert o.model in operations;
        DirectionsAlwaysAgree(entries, slots, operations, o.model, o.outputs);
        if DistinctSurfaces(entries) {
          SurfacesGiveAddresses(entries);
          TolerantDirectionsExact(entries, slots, operations, o.model, o.outputs);
        }
      }
    }
  }

  /** All records of unavailable boundaries, planning before final. */
  ghost function AllUnavailable(planning: seq<Entry>, final: seq<Entry>, slots: map<Key, seq<Source>>,
                                operations: seq<Operation>) : seq<Unavailable>
  {
    UnresolvedAll(planning, slots, operations) + UnresolvedAll(final, slots, operations)
  }

  /** The counts add up to all segments, and so do the boundaries. */
  ghost predicate Conserves(counts: Counts, planning: seq<Entry>, final: seq<Entry>, planningPublic: seq<seq<Boundary>>,
                            finalPublic: seq<seq<Boundary>>)
  {
    && counts.sourceOverlaps + counts.generatedBoundaries + counts.unavailableBoundaries
       == TotalSegments(planning) + TotalSegments(final)
       == TotalBoundaries(planningPublic) + TotalBoundaries(finalPublic)
    && counts.planningBoundaries == TotalSegments(planning)
  }

  method CountBoth(ghost planning: seq<Entry>, ghost final: seq<Entry>, ghost slots: map<Key, seq<Source>>,
                   ghost operations: seq<Operation>, p: seq<seq<Boundary>>, f: seq<seq<Boundary>>, unavailable: nat)
    returns (counts: Counts)
    requires p == ResolvedAll(planning, slots, operations) && f == ResolvedAll(final, slots, operations)
    requires unavailable == |UnresolvedAll(planning, slots, operations)| + |UnresolvedAll(final, slots, operations)|
    ensures Conserves(counts, planning, final, p, f) && counts.unavailableBoundaries == unavailable
  {
    var all := p + f;
    counts := Counts(TotalBoundaries(p), CountBoundaries(all, true), CountBoundaries(all, false), unavailable);
    BothConserved(planning, final, slots, operations);
  }

  method ResolveBoth(planning: seq<Entry>, final: seq<Entry>, slots: map<Key, seq<Source>>,
                     operations: seq<Operation>)
    returns (planningPublic: seq<seq<Boundary>>, finalPublic: seq<seq<Boundary>>, counts: Counts,
             unavailable: seq<Unavailable>)
    ensures planningPublic == ResolvedAll(planning, slots, operations)
    ensures finalPublic == ResolvedAll(final, slots, operations)
    ensures unavailable == Sort(UnavailableLeq, AllUnavailable(planning, final, slots, operations))
    ensures Conserves(counts, planning, final, planningPublic, finalPublic)
    ensures counts.unavailableBoundaries == |unavailable|
  {
    var log := new UnavailableLog();
    planningPublic := ResolveEntries(planning, slots, operations, log);
    assert log.items == UnresolvedAll(planning, slots, operations);
    finalPublic := ResolveEntries(final, slots, operations, log);
    var items := log.items;
    assert items == AllUnavailable(planning, final, slots, operations);
    counts := CountBoth(planning, final, slots, operations, planningPublic, finalPublic, |items|);
    unavailable := Sort(UnavailableLeq, items);
  }

  method BuildProvenance(catalog: seq<Cataloged>, planning: seq<Entry>, final: seq<Entry>,
                         records: seq<OperationRecord>)
    returns (planningPublic: seq<seq<Boundary>>, finalPublic: seq<seq<Boundary>>, counts: Counts,
             unavailable: seq<Unavailable>)
    modifies records
    ensures planningPublic == ResolvedAll(planning, Slots(catalog), Models(records))
    ensures finalPublic == ResolvedAll(final, Slots(catalog), Models(records))
    ensures unavailable == Sort(UnavailableLeq, AllUnavailable(planning, final, Slots(catalog), Models(records)))
    ensures forall o | o in records :: OutputsExact(o.outputs, o.model, planning + final)
    // conservation
    ensures Conserves(counts, planning, final, planningPublic, finalPublic)
    ensures counts.unavailableBoundaries == |unavailable|
    // the two directions
    ensures DistinctIds(Models(records)) ==>
      forall o | o in records :: BothDirections(planning + final, Slots(catalog), Models(records), o.model, o.outputs)
  {
    var operations := Models(records);
    var slots := SourcesBySlot(catalog);
    planningPublic, finalPublic, counts, unavailable := ResolveBoth(planning, final, slots, operations);
    OperationOutputs(records, planning + final);
    RecordsAgree(records, operations, planning + final, slots);
  }
}
