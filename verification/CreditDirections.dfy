/** The two directions of provenance at one unit of tolerance (tools/lightning_gate/record.py, `_matches_operation`
    and `_operation_outputs`): when a credited boundary is among the outputs of the operation it is credited to. */
module CreditDirections {
  import opened Orders
  import opened Options
  import opened SegmentOverlap
  import opened TolerantOverlap
  import opened Polygons
  import opened Provenance

  /** The test of the outputs side, for result segment `r`: the boundary segment has length, the ends of `r` are near
      its line, and their projections meet its inside. */
  predicate Lists(r: Segment, start: Point, end: Point) { PassesGuard(r.start, r.end, start, end, 1) }

  ghost predicate SomeResultLists(operation: Operation, start: Point, end: Point) {
    exists r | r in operation.results :: Lists(r, start, end)
  }

  /** An address names one segment, in one place. */
  ghost predicate DistinctAddresses(entries: seq<Entry>) {
    forall e, f, s, t | e in entries && f in entries && s in e.segments && t in f.segments ::
      AddressOf(e, s) == AddressOf(f, t) ==> KeyOf(e) == KeyOf(f) && s == t
  }

  ghost predicate CreditedAtOne(entry: Entry, s: Segment, sources: seq<Source>, operations: seq<Operation>,
                                operation: Operation)
  {
    exists c | c in Resolve(entry, s, sources, operations).contributors :: c.relation == FromOperation(operation.id, 1)
  }

  lemma NoBestMatch(results: seq<Segment>, start: Point, end: Point, tolerance: nat, r: Segment)
    requires BestMatch(results, start, end, tolerance) == None && r in results
    ensures Overlap(start, end, r.start, r.end, tolerance).None?
  {
    var i: nat :| i < |results| && results[i] == r;
    assert Overlap(start, end, results[i].start, results[i].end, tolerance).None?;
  }

  /** A credit at one unit: the operation applies, no result segment overlaps the boundary exactly, and one does
      within the unit. */
  lemma CreditAtOne(entry: Entry, s: Segment, sources: seq<Source>, operations: seq<Operation>, operation: Operation)
    requires DistinctIds(operations) && operation in operations
    requires CreditedAtOne(entry, s, sources, operations, operation)
    ensures Applies(operation, KeyOf(entry))
    ensures forall r | r in operation.results :: Overlap(s.start, s.end, r.start, r.end, 0).None?
    ensures exists r | r in operation.results :: Overlap(s.start, s.end, r.start, r.end, 1).Some?
  {
    var c :| c in Resolve(entry, s, sources, operations).contributors && c.relation == FromOperation(operation.id, 1);
    OverlapsAreFromSources(sources, s.start, s.end, 0);
    OverlapsAreFromSources(sources, s.start, s.end, 1);
    var key := KeyOf(entry);
    var chosen := CreditedOperation(entry.domain, key, s.start, s.end, operations, c);
    assert chosen.operation == operation;
    MatchIsOverlap(operation, key, s.start, s.end);
    var i: nat :| i < |operation.results|
                  && Overlap(s.start, s.end, operation.results[i].start, operation.results[i].end, 1).Some?;
    assert operation.results[i] in operation.results;
    assert BestMatch(operation.results, s.start, s.end, 0) == None;
    forall r | r in operation.results ensures Overlap(s.start, s.end, r.start, r.end, 0).None? {
      NoBestMatch(operation.results, s.start, s.end, 0, r);
    }
  }

  lemma ListedWhenAResultLists(entry: Entry, s: Segment, entries: seq<Entry>, operation: Operation, r: Segment)
    requires entry in entries && s in entry.segments && Applies(operation, KeyOf(entry))
    requires r in operation.results && Lists(r, s.start, s.end)
    ensures IsOutput(operation, entries, AddressOf(entry, s))
  {
    OverlapIffGuard(r.start, r.end, s.start, s.end, 1);
    assert Produces(r, s);
  }

  /** A boundary credited at one unit of tolerance is among the operation's outputs if and only if some result
      segment passes the outputs side's own test. */
  lemma TolerantCreditListedIff(entry: Entry, s: Segment, sources: seq<Source>, operations: seq<Operation>,
                                entries: seq<Entry>, operation: Operation, outputs: seq<Address>)
    requires DistinctIds(operations) && operation in operations && OutputsExact(outputs, operation, entries)
    requires DistinctAddresses(entries) && entry in entries && s in entry.segments
    requires CreditedAtOne(entry, s, sources, operations, operation)
    ensures AddressOf(entry, s) in outputs <==> SomeResultLists(operation, s.start, s.end)
  {
    CreditAtOne(entry, s, sources, operations, operation);
    var a := AddressOf(entry, s);
    assert a in outputs <==> IsOutput(operation, entries, a);
    if IsOutput(operation, entries, a) {
      var e, t, r :| e in entries && t in e.segments && r in operation.results
                     && a == AddressOf(e, t) && Applies(operation, KeyOf(e)) && Produces(r, t);
      assert t == s;
      OverlapSymmetric(s.start, s.end, r.start, r.end);
      OverlapIffGuard(r.start, r.end, s.start, s.end, 1);
      assert Lists(r, s.start, s.end);
    }
    if SomeResultLists(operation, s.start, s.end) {
      var r :| r in operation.results && Lists(r, s.start, s.end);
      ListedWhenAResultLists(entry, s, entries, operation, r);
    }
  }

  /** A result segment that overlaps the credited boundary and whose own ends are near the boundary's line is enough;
      the projections then take care of themselves. */
  lemma NearCreditIsListed(entry: Entry, s: Segment, sources: seq<Source>, operations: seq<Operation>,
                           entries: seq<Entry>, operation: Operation, outputs: seq<Address>, r: Segment)
    requires DistinctIds(operations) && operation in operations && OutputsExact(outputs, operation, entries)
    requires entry in entries && s in entry.segments && CreditedAtOne(entry, s, sources, operations, operation)
    requires r in operation.results && Overlap(s.start, s.end, r.start, r.end, 1).Some?
    ensures Lists(r, s.start, s.end) <==> EndsNear(r.start, r.end, s.start, s.end, 1)
    ensures EndsNear(r.start, r.end, s.start, s.end, 1) ==> AddressOf(entry, s) in outputs
  {
    CreditAtOne(entry, s, sources, operations, operation);
    ReturnedIffNear(s.start, s.end, r.start, r.end);
    OverlapIffGuard(r.start, r.end, s.start, s.end, 1);
    if EndsNear(r.start, r.end, s.start, s.end, 1) {
      ListedWhenAResultLists(entry, s, entries, operation, r);
    }
  }

  /** A credit to a parallel result segment is always listed. */
  lemma ParallelCreditIsListed(entry: Entry, s: Segment, sources: seq<Source>, operations: seq<Operation>,
                               entries: seq<Entry>, operation: Operation, outputs: seq<Address>, r: Segment)
    requires DistinctIds(operations) && operation in operations && OutputsExact(outputs, operation, entries)
    requires entry in entries && s in entry.segments && CreditedAtOne(entry, s, sources, operations, operation)
    requires r in operation.results && Overlap(s.start, s.end, r.start, r.end, 1).Some?
    requires ParallelDirections(s.start, s.end, r.start, r.end)
    ensures AddressOf(entry, s) in outputs
  {
    CreditAtOne(entry, s, sources, operations, operation);
    ParallelOverlapSymmetric(s.start, s.end, r.start, r.end, 1);
    OverlapIffGuard(r.start, r.end, s.start, s.end, 1);
    ListedWhenAResultLists(entry, s, entries, operation, r);
  }

  /** Every boundary credited at one unit of tolerance is listed exactly when some result segment lists it. */
  ghost predicate TolerantDirections(entries: seq<Entry>, slots: map<Key, seq<Source>>, operations: seq<Operation>,
                                     operation: Operation, outputs: seq<Address>)
  {
    forall entry, b, c | entry in entries && b in Boundaries(entry, slots, operations) && c in b.contributors ::
      c.relation == FromOperation(operation.id, 1) ==>
      (Address(entry.domain, entry.surface, b.ring, b.segment) in outputs
       <==> SomeResultLists(operation, b.start, b.end))
  }

  lemma TolerantDirectionsExact(entries: seq<Entry>, slots: map<Key, seq<Source>>, operations: seq<Operation>,
                                operation: Operation, outputs: seq<Address>)
    requires DistinctIds(operations) && operation in operations && OutputsExact(outputs, operation, entries)
    requires DistinctAddresses(entries)
    ensures TolerantDirections(entries, slots, operations, operation, outputs)
  {
    forall entry, b, c | entry in entries && b in Boundaries(entry, slots, operations) && c in b.contributors
                         && c.relation == FromOperation(operation.id, 1)
      ensures Address(entry.domain, entry.surface, b.ring, b.segment) in outputs
         <==> SomeResultLists(operation, b.start, b.end)
    {
      var s := SegmentOfBoundary(entry, slots, operations, b);
      SortMembers(ContributorLeq, Resolve(entry, s, SourcesFor(entry, slots), operations).contributors);
      assert CreditedAtOne(entry, s, SourcesFor(entry, slots), operations, operation);
      TolerantCreditListedIff(entry, s, SourcesFor(entry, slots), operations, entries, operation, outputs);
    }
  }

  // ---- A credit that is not listed ----

  lemma SingleBest(r: Segment, start: Point, end: Point, tolerance: nat)
    ensures BestMatch([r], start, end, tolerance).Some? <==> Overlap(start, end, r.start, r.end, tolerance).Some?
  {
    var results := [r];
    assert results[0] == r && results[..0] == [];
  }

  /** A result segment that a boundary sees at one unit of tolerance only, and that does not see the boundary. */
  ghost predicate OneSided(r: Segment, start: Point, end: Point) {
    && Overlap(start, end, r.start, r.end, 0).None? && Overlap(start, end, r.start, r.end, 1).Some?
    && Overlap(r.start, r.end, start, end, 0).None? && Overlap(r.start, r.end, start, end, 1).None?
  }

  lemma OneSidedCredit(entry: Entry, s: Segment, operation: Operation, r: Segment)
    requires entry.domain == Void && entry.segments == [s] && operation.results == [r]
    requires operation.kind == Difference && operation.inputs != [] && operation.keys == {}
    requires OneSided(r, s.start, s.end)
    ensures CreditedAtOne(entry, s, [], [operation], operation)
    ensures !IsOutput(operation, [entry], AddressOf(entry, s))
  {
    SingleBest(r, s.start, s.end, 0);
    SingleBest(r, s.start, s.end, 1);
    SingleCredit(entry, s, operation);
    assert !Produces(r, s);
  }

  /** A credit at one unit of tolerance that the operation's outputs do not contain: one difference whose only result
      segment runs from (0,0) to (4,0), and the boundary from (0,0) to (1,1). */
  lemma UnlistedCredit(s: Segment, r: Segment, entry: Entry, operation: Operation)
    requires s == Segment(0, 0, Point(0, 0), Point(1, 1)) && r == Segment(0, 0, Point(0, 0), Point(4, 0))
    requires entry == Entry(Void, "surface", 0, 0, 0, [s])
    requires operation == Operation(7, Difference, [], ["source"], [], {}, [r])
    ensures CreditedAtOne(entry, s, [], [operation], operation)
    ensures !IsOutput(operation, [entry], AddressOf(entry, s))
  {
    TolerantOverlapFromTheLongSide(s.start, s.end, r.end);
    TolerantOverlapFromTheShortSide(s.start, s.end, r.end);
    NoExactOverlap(s.start, s.end, r.end);
    OneSidedCredit(entry, s, operation, r);
  }

  lemma SingleCredit(entry: Entry, s: Segment, operation: Operation)
    requires entry.domain == Void && operation.kind == Difference && operation.inputs != [] && operation.keys == {}
    requires BestMatch(operation.results, s.start, s.end, 0) == None
    requires BestMatch(operation.results, s.start, s.end, 1).Some?
    ensures CreditedAtOne(entry, s, [], [operation], operation)
  {
    var key, operations := KeyOf(entry), [operation];
    var found := MatchedOperation(operation, key, s.start, s.end).value;
    var candidate := Candidate(operation, found);
    SingleMatch(operation, key, s.start, s.end);
    assert Matching(operations, None, key, s.start, s.end) == [candidate];
    SinglePick(candidate, Preferred(Void));
    assert Chosen(Void, key, s.start, s.end, operations) == Some(candidate);
    var credits := Credits(candidate, operation.inputs);
    assert credits[0] in credits;
    assert SourceOverlaps(s.start, s.end, []) == [];
    assert Resolve(entry, s, [], operations).contributors == credits;
  }

  lemma SingleMatch(operation: Operation, key: Key, start: Point, end: Point)
    requires MatchedOperation(operation, key, start, end).Some?
    ensures Matching([operation], None, key, start, end)
         == [Candidate(operation, MatchedOperation(operation, key, start, end).value)]
  {
    var operations := [operation];
    assert operations[..0] == [] && operations[0] == operation;
    assert Matching([], None, key, start, end) == [];
  }

  lemma SinglePick(c: Candidate, kinds: seq<Kind>)
    requires kinds != [] && c.operation.kind == kinds[0]
    ensures PickOperation([c], kinds) == Some(c)
  {
    var matches := [c];
    assert matches[..0] == [] && matches[0] == c;
    assert OfKind([], kinds[0]) == [];
    assert OfKind(matches, kinds[0]) == [c];
    SortMembers(CandidateLeq, [c]);
    assert Sort(CandidateLeq, [c])[0] in Sort(CandidateLeq, [c]);
  }
}
