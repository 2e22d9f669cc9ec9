/** Attribution of every boundary segment to sources or to an operation, and the reverse index of each
    operation's outputs (tools/lightning_gate/record.py, `_matches_operation` to `_operation_outputs`). */
module Provenance {
  import opened Orders
  import opened Options
  import opened SegmentOverlap
  import opened Polygons

  // ---- Records ----

  /** The domains of the two layouts. */
  datatype Domain = Internal | Void | TemporaryAnchor | FinalInternal | FinalVoid

  /** The recorded operation kinds the attribution knows; every other string is `Other`. */
  datatype Kind = Difference | Union | AnchorExpansion | Other(name: string)

  datatype Reason = NoMatchingOperation | OperationHasNoInputs | NoMatchingSourceOrOperation

  datatype Key = Key(layer: int, region: int)

  datatype Source = Source(id: string, segments: seq<Segment>)

  datatype Operation = Operation(id: int, kind: Kind, parents: seq<int>, inputs: seq<string>,
                                 operands: seq<string>, keys: set<Key>, results: seq<Segment>)

  datatype Entry = Entry(domain: Domain, surface: string, localLayer: int, globalLayer: int, region: int,
                         segments: seq<Segment>)

  datatype Relation = FromSource(start: real, end: real, tolerance: nat)
                    | FromOperation(operationId: int, tolerance: nat)

  datatype Contributor = Contributor(sourceId: string, ring: Option<nat>, segment: Option<nat>, relation: Relation)

  datatype Boundary = Boundary(ring: nat, segment: nat, start: Point, end: Point, contributors: seq<Contributor>)

  datatype Address = Address(domain: Domain, surface: string, ring: nat, segment: nat)

  datatype Unavailable = Unavailable(address: Address, reason: Reason)

  function KeyOf(entry: Entry): Key { Key(entry.globalLayer, entry.region) }

  function SlotOf(entry: Entry): Key { Key(entry.localLayer, entry.region) }

  function AddressOf(entry: Entry, s: Segment): Address {
    Address(entry.domain, entry.surface, s.ring, s.id)
  }

  predicate Applies(operation: Operation, key: Key) {
    operation.keys == {} || key in operation.keys
  }

  // ---- Matching a boundary with one operation ----

  datatype Match = Match(ring: nat, segment: nat, start: real, end: real, tolerance: nat)

  function Width(m: Match): real { m.end - m.start }

  function MatchOf(r: Segment, i: Interval, tolerance: nat): Match {
    Match(r.ring, r.id, i.low, i.high, tolerance)
  }

  /** The widest overlap with a result segment, the first one among equals. */
  function BestMatch(results: seq<Segment>, start: Point, end: Point, tolerance: nat): (r: Option<Match>)
    ensures r.Some? ==> r.value.tolerance == tolerance
    ensures r.Some? <==> exists i | 0 <= i < |results| ::
                           Overlap(start, end, results[i].start, results[i].end, tolerance).Some?
  {
    if results == [] then None
    else
      var last := results[|results| - 1];
      var best := BestMatch(results[..|results| - 1], start, end, tolerance);
      match Overlap(start, end, last.start, last.end, tolerance)
      case None => best
      case Some(overlap) =>
        assert results[|results| - 1] == last;
        if best == None || overlap.high - overlap.low > Width(best.value)
        then Some(MatchOf(last, overlap, tolerance)) else best
  }

  function MatchedOperation(operation: Operation, key: Key, start: Point, end: Point): Option<Match> {
    if !Applies(operation, key) then None
    else
      var exact := BestMatch(operation.results, start, end, 0);
      if exact.Some? then exact else BestMatch(operation.results, start, end, 1)
  }

  method MatchesOperation(operation: Operation, key: Key, start: Point, end: Point) returns (r: Option<Match>)
    ensures r == MatchedOperation(operation, key, start, end)
  {
    if operation.keys != {} && key !in operation.keys { return None; }
    for tolerance := 0 to 2
      invariant tolerance >= 1 ==> BestMatch(operation.results, start, end, 0) == None
      invariant tolerance >= 2 ==> BestMatch(operation.results, start, end, 1) == None
    {
      var best: Option<Match> := None;
      for i := 0 to |operation.results|
        invariant best == BestMatch(operation.results[..i], start, end, tolerance)
      {
        assert operation.results[..i + 1][..i] == operation.results[..i];
        var s := operation.results[i];
        var overlap := Overlap(start, end, s.start, s.end, tolerance);
        if overlap.None? { continue; }
        var width := overlap.value.high - overlap.value.low;
        if best == None || width > Width(best.value) {
          best := Some(MatchOf(s, overlap.value, tolerance));
        }
      }
      assert operation.results[..|operation.results|] == operation.results;
      if best != None { return best; }
    }
    return None;
  }

  /** The match reported for an operation is at tolerance 0 whenever any exact overlap exists, and no result
      segment at that tolerance overlaps more. */
  lemma {:induction false} BestMatchIsWidest(results: seq<Segment>, start: Point, end: Point, tolerance: nat, i: nat)
    requires i < |results|
    ensures var o := Overlap(start, end, results[i].start, results[i].end, tolerance);
      var best := BestMatch(results, start, end, tolerance);
      o.Some? ==> best.Some? && o.value.high - o.value.low <= Width(best.value)
  {
    if i < |results| - 1 {
      BestMatchIsWidest(results[..|results| - 1], start, end, tolerance, i);
    }
  }

  // ---- Choosing among operations ----

  datatype Candidate = Candidate(operation: Operation, found: Match)

  predicate CandidateLeq(a: Candidate, b: Candidate) {
    || Width(a.found) > Width(b.found)
    || (Width(a.found) == Width(b.found) && a.operation.id <= b.operation.id)
  }

  function OfKind(matches: seq<Candidate>, kind: Kind): (r: seq<Candidate>)
    ensures forall c :: c in r <==> c in matches && c.operation.kind == kind
  {
    if matches == [] then []
    else
      var front := OfKind(matches[..|matches| - 1], kind);
      var last := matches[|matches| - 1];
      assert matches == matches[..|matches| - 1] + [last];
      if last.operation.kind == kind then front + [last] else front
  }

  function PickOperation(matches: seq<Candidate>, kinds: seq<Kind>): (r: Option<Candidate>)
    ensures r.Some? ==> r.value in matches && r.value.operation.kind in kinds
    ensures r.None? ==> forall c | c in matches :: c.operation.kind !in kinds
  {
    if kinds == [] then None
    else
      var candidates := OfKind(matches, kinds[0]);
      if candidates != [] then
        SortMembers(CandidateLeq, candidates);
        assert Sort(CandidateLeq, candidates)[0] in Sort(CandidateLeq, candidates);
        Some(Sort(CandidateLeq, candidates)[0])
      else
        assert forall c | c in matches && c.operation.kind == kinds[0] :: c in candidates;
        PickOperation(matches, kinds[1..])
  }

  /** The pick is the widest match of its kind, and among equally wide ones the lowest operation id. */
  lemma {:induction false} PickIsBest(matches: seq<Candidate>, kinds: seq<Kind>, other: Candidate)
    requires PickOperation(matches, kinds).Some?
    requires other in matches && other.operation.kind == PickOperation(matches, kinds).value.operation.kind
    ensures CandidateLeq(PickOperation(matches, kinds).value, other)
  {
    var candidates := OfKind(matches, kinds[0]);
    if candidates != [] {
      SortSorts(CandidateLeq, candidates);
      SortMembers(CandidateLeq, candidates);
      var sorted := Sort(CandidateLeq, candidates);
      assert sorted[0] in sorted;
      assert other in sorted;
      var k :| 0 <= k < |sorted| && sorted[k] == other;
      assert k > 0 ==> CandidateLeq(sorted[0], sorted[k]);
    } else {
      PickIsBest(matches, kinds[1..], other);
    }
  }

  ghost predicate HasKind(matches: seq<Candidate>, kinds: seq<Kind>) {
    exists c | c in matches :: c.operation.kind in kinds
  }

  /** The pick has the earliest of the wanted kinds that any match has. */
  lemma {:induction false} PickHasTheEarliestKind(matches: seq<Candidate>, kinds: seq<Kind>)
    ensures PickOperation(matches, kinds).Some? <==> HasKind(matches, kinds)
    ensures PickOperation(matches, kinds).Some? ==>
      exists i | 0 <= i < |kinds| ::
        && PickOperation(matches, kinds).value.operation.kind == kinds[i]
        && (forall c | c in matches :: c.operation.kind !in kinds[..i])
  {
    if kinds != [] {
      var candidates := OfKind(matches, kinds[0]);
      if candidates != [] {
        SortMembers(CandidateLeq, candidates);
        assert Sort(CandidateLeq, candidates)[0] in candidates;
        assert kinds[..0] == [];
      } else {
        PickHasTheEarliestKind(matches, kinds[1..]);
        assert forall c | c in matches && c.operation.kind == kinds[0] :: c in candidates;
        if PickOperation(matches, kinds[1..]).Some? {
          var i: nat :| i < |kinds| - 1 && PickOperation(matches, kinds[1..]).value.operation.kind == kinds[1..][i]
                        && forall c | c in matches :: c.operation.kind !in kinds[1..][..i];
          OneKindMore(matches, kinds, i);
        }
      }
    }
  }

  lemma OneKindMore(matches: seq<Candidate>, kinds: seq<Kind>, i: nat)
    requires i + 1 < |kinds| && (forall c | c in matches :: c.operation.kind != kinds[0])
    requires forall c | c in matches :: c.operation.kind !in kinds[1..][..i]
    ensures kinds[i + 1] == kinds[1..][i] && forall c | c in matches :: c.operation.kind !in kinds[..i + 1]
  {
    assert kinds[..i + 1] == [kinds[0]] + kinds[1..][..i];
  }

  const FALLBACK_ORDER := [Difference, Union, AnchorExpansion]

  function Preferred(domain: Domain): seq<Kind> {
    if domain == TemporaryAnchor then [AnchorExpansion] else [Difference, Union]
  }

  /** The operations that match the boundary, restricted to `only` when it is given. */
  function Matching(operations: seq<Operation>, only: Option<set<int>>, key: Key, start: Point, end: Point)
    : (r: seq<Candidate>)
    ensures forall c | c in r ::
      && c.operation in operations
      && MatchedOperation(c.operation, key, start, end) == Some(c.found)
  {
    if operations == [] then []
    else
      var front := Matching(operations[..|operations| - 1], only, key, start, end);
      var last := operations[|operations| - 1];
      if only.Some? && last.id !in only.value then front
      else
        match MatchedOperation(last, key, start, end)
        case None => front
        case Some(m) => front + [Candidate(last, m)]
  }

  function ParentsOfMatches(matches: seq<Candidate>): set<int> {
    set c, p | c in matches && p in c.operation.parents :: p
  }

  function ParentsOfApplicable(operations: seq<Operation>, key: Key): set<int> {
    set o, p | o in operations && Applies(o, key) && p in o.parents :: p
  }

  function OrElse<T>(a: Option<T>, b: Option<T>): Option<T> {
    if a.Some? then a else b
  }

  function ParentIds(operations: seq<Operation>, direct: seq<Candidate>, key: Key): set<int> {
    if direct != [] then ParentsOfMatches(direct) else ParentsOfApplicable(operations, key)
  }

  function Chosen(domain: Domain, key: Key, start: Point, end: Point, operations: seq<Operation>)
    : (r: Option<Candidate>)
    ensures r.Some? ==>
      && r.value.operation in operations
      && MatchedOperation(r.value.operation, key, start, end) == Some(r.value.found)
  {
    var direct := Matching(operations, None, key, start, end);
    var chosen := PickOperation(direct, Preferred(domain));
    if chosen.Some? then chosen
    else
      var parents := Matching(operations, Some(ParentIds(operations, direct, key)), key, start, end);
      OrElse(PickOperation(parents, Preferred(domain)),
             OrElse(PickOperation(parents, FALLBACK_ORDER), PickOperation(direct, FALLBACK_ORDER)))
  }

  /** The order of the search: a preferred kind that matches directly, then one that matches through a parent, then
      any known kind through a parent, then any known kind directly; nothing is chosen only if all four fail. */
  lemma ChosenOrder(domain: Domain, key: Key, start: Point, end: Point, operations: seq<Operation>)
    ensures var chosen := Chosen(domain, key, start, end, operations);
      var direct := Matching(operations, None, key, start, end);
      var parents := Matching(operations, Some(ParentIds(operations, direct, key)), key, start, end);
      var preferred := Preferred(domain);
      if HasKind(direct, preferred) then
        chosen.Some? && chosen.value in direct && chosen.value.operation.kind in preferred
      else if HasKind(parents, preferred) then
        chosen.Some? && chosen.value in parents && chosen.value.operation.kind in preferred
      else if HasKind(parents, FALLBACK_ORDER) then chosen.Some? && chosen.value in parents
      else if HasKind(direct, FALLBACK_ORDER) then chosen.Some? && chosen.value in direct
      else chosen == None
  {
    var direct := Matching(operations, None, key, start, end);
    var parents := Matching(operations, Some(ParentIds(operations, direct, key)), key, start, end);
    PickHasTheEarliestKind(direct, Preferred(domain));
    PickHasTheEarliestKind(parents, Preferred(domain));
    PickHasTheEarliestKind(parents, FALLBACK_ORDER);
    PickHasTheEarliestKind(direct, FALLBACK_ORDER);
  }

  function Credits(chosen: Candidate, sources: seq<string>): (r: seq<Contributor>)
    ensures |r| == |sources|
    ensures forall i | 0 <= i < |r| :: r[i] == Contributor(sources[i], None, None,
                                         FromOperation(chosen.operation.id, chosen.found.tolerance))
  {
    seq(|sources|, i requires 0 <= i < |sources| =>
      Contributor(sources[i], None, None, FromOperation(chosen.operation.id, chosen.found.tolerance)))
  }

  function InputsOf(operation: Operation): seq<string> {
    if operation.inputs != [] then operation.inputs else operation.operands
  }

  datatype Outcome = Outcome(contributors: seq<Contributor>, reason: Option<Reason>)

  function Generated(domain: Domain, key: Key, start: Point, end: Point, operations: seq<Operation>): Outcome {
    match Chosen(domain, key, start, end, operations)
    case None => Outcome([], Some(NoMatchingOperation))
    case Some(chosen) =>
      var sources := InputsOf(chosen.operation);
      if sources == [] then Outcome([], Some(OperationHasNoInputs)) else Outcome(Credits(chosen, sources), None)
  }

  method CollectMatches(operations: seq<Operation>, only: Option<set<int>>, key: Key, start: Point, end: Point)
    returns (r: seq<Candidate>)
    ensures r == Matching(operations, only, key, start, end)
  {
    r := [];
    for i := 0 to |operations|
      invariant r == Matching(operations[..i], only, key, start, end)
    {
      assert operations[..i + 1][..i] == operations[..i];
      if only.Some? && operations[i].id !in only.value { continue; }
      var found := MatchesOperation(operations[i], key, start, end);
      if found.Some? { r := r + [Candidate(operations[i], found.value)]; }
    }
    assert operations[..|operations|] == operations;
  }

  method GeneratedContributors(domain: Domain, key: Key, start: Point, end: Point, operations: seq<Operation>)
    returns (r: Outcome)
    ensures r == Generated(domain, key, start, end, operations)
  {
    var direct := CollectMatches(operations, None, key, start, end);
    var chosen := PickOperation(direct, Preferred(domain));
    if chosen.None? {
      var parents := CollectMatches(operations, Some(ParentIds(operations, direct, key)), key, start, end);
      chosen := PickOperation(parents, Preferred(domain));
      if chosen.None? { chosen := PickOperation(parents, FALLBACK_ORDER); }
    }
    if chosen.None? { chosen := PickOperation(direct, FALLBACK_ORDER); }
    if chosen.None? { return Outcome([], Some(NoMatchingOperation)); }
    var sources := InputsOf(chosen.value.operation);
    if sources == [] { return Outcome([], Some(OperationHasNoInputs)); }
    r := Outcome(Credits(chosen.value, sources), None);
  }

  // ---- Overlaps with sources ----

  function OverlapContributor(source: string, s: Segment, i: Interval, tolerance: nat): Contributor {
    Contributor(source, Some(s.ring), Some(s.id), FromSource(i.low, i.high, tolerance))
  }

  function SegmentOverlaps(source: string, segments: seq<Segment>, start: Point, end: Point, tolerance: nat)
    : seq<Contributor>
  {
    if segments == [] then []
    else
      var front := SegmentOverlaps(source, segments[..|segments| - 1], start, end, tolerance);
      var last := segments[|segments| - 1];
      match Overlap(start, end, last.start, last.end, tolerance)
      case None => front
      case Some(overlap) => front + [OverlapContributor(source, last, overlap, tolerance)]
  }

  function OverlapsAt(sources: seq<Source>, start: Point, end: Point, tolerance: nat): seq<Contributor> {
    if sources == [] then []
    else
      var last := sources[|sources| - 1];
      OverlapsAt(sources[..|sources| - 1], start, end, tolerance)
      + SegmentOverlaps(last.id, last.segments, start, end, tolerance)
  }

  function SourceOverlaps(start: Point, end: Point, sources: seq<Source>): seq<Contributor> {
    var exact := OverlapsAt(sources, start, end, 0);
    if exact != [] then exact else OverlapsAt(sources, start, end, 1)
  }

  method SourceOverlapContributors(start: Point, end: Point, sources: seq<Source>) returns (r: seq<Contributor>)
    ensures r == SourceOverlaps(start, end, sources)
  {
    for tolerance := 0 to 2
      invariant tolerance >= 1 ==> OverlapsAt(sources, start, end, 0) == []
      invariant tolerance >= 2 ==> OverlapsAt(sources, start, end, 1) == []
    {
      var contributors: seq<Contributor> := [];
      for i := 0 to |sources|
        invariant contributors == OverlapsAt(sources[..i], start, end, tolerance)
      {
        assert sources[..i + 1][..i] == sources[..i];
        var source := sources[i];
        ghost var before := contributors;
        for j := 0 to |source.segments|
          invariant contributors == before + SegmentOverlaps(source.id, source.segments[..j], start, end, tolerance)
        {
          assert source.segments[..j + 1][..j] == source.segments[..j];
          var s := source.segments[j];
          var overlap := Overlap(start, end, s.start, s.end, tolerance);
          if overlap.None? { continue; }
          contributors := contributors + [OverlapContributor(source.id, s, overlap.value, tolerance)];
        }
        assert source.segments[..|source.segments|] == source.segments;
      }
      assert sources[..|sources|] == sources;
      if contributors != [] { return contributors; }
    }
    return [];
  }

  /** `c` records the overlap of the boundary with one segment of one source. */
  ghost predicate Records(c: Contributor, source: Source, s: Segment, start: Point, end: Point, tolerance: nat) {
    && s in source.segments
    && Overlap(start, end, s.start, s.end, tolerance).Some?
    && c == OverlapContributor(source.id, s, Overlap(start, end, s.start, s.end, tolerance).value, tolerance)
  }

  lemma {:induction false} RecordHasSegment(source: Source, segments: seq<Segment>, start: Point, end: Point,
                                            tolerance: nat, c: Contributor) returns (s: Segment)
    requires c in SegmentOverlaps(source.id, segments, start, end, tolerance)
    requires forall x | x in segments :: x in source.segments
    ensures s in segments && Records(c, source, s, start, end, tolerance)
  {
    var front, last := segments[..|segments| - 1], segments[|segments| - 1];
    if c in SegmentOverlaps(source.id, front, start, end, tolerance) {
      s := RecordHasSegment(source, front, start, end, tolerance, c);
    } else {
      s := last;
    }
  }

  lemma {:induction false} SegmentHasRecord(source: Source, segments: seq<Segment>, start: Point, end: Point,
                                            tolerance: nat, c: Contributor, s: Segment)
    requires s in segments && Records(c, source, s, start, end, tolerance)
    ensures c in SegmentOverlaps(source.id, segments, start, end, tolerance)
  {
    var front, last := segments[..|segments| - 1], segments[|segments| - 1];
    if s != last {
      assert s in front;
      SegmentHasRecord(source, front, start, end, tolerance, c, s);
    }
  }

  /** The list at one tolerance holds a record for exactly the overlapping (source, segment) pairs. */
  lemma {:induction false} OverlapsComplete(sources: seq<Source>, start: Point, end: Point, tolerance: nat,
                                            c: Contributor)
    ensures c in OverlapsAt(sources, start, end, tolerance)
       <==> exists source, s | source in sources && s in source.segments ::
              Records(c, source, s, start, end, tolerance)
  {
    if sources != [] {
      var front, last := sources[..|sources| - 1], sources[|sources| - 1];
      OverlapsComplete(front, start, end, tolerance, c);
      assert sources == front + [last];
      if c in SegmentOverlaps(last.id, last.segments, start, end, tolerance) {
        var s := RecordHasSegment(last, last.segments, start, end, tolerance, c);
      }
      forall s | Records(c, last, s, start, end, tolerance)
        ensures c in SegmentOverlaps(last.id, last.segments, start, end, tolerance)
      {
        SegmentHasRecord(last, last.segments, start, end, tolerance, c, s);
      }
    }
  }

  // ---- Resolving the boundaries of one domain entry ----

  function KindRank(r: Relation): int { if r.FromOperation? then 0 else 1 }

  function OptionRank(o: Option<nat>): int { if o.Some? then o.value else -1 }

  /** The numeric part of the sort key: relation kind, operation id, ring, segment. */
  function ContributorRank(c: Contributor): (int, int, int, int) {
    (KindRank(c.relation), if c.relation.FromOperation? then c.relation.operationId else -1,
     OptionRank(c.ring), OptionRank(c.segment))
  }

  predicate RankLeq(a: (int, int, int, int), b: (int, int, int, int)) {
    || a.0 < b.0
    || (a.0 == b.0 && a.1 < b.1)
    || (a.0 == b.0 && a.1 == b.1 && a.2 < b.2)
    || (a.0 == b.0 && a.1 == b.1 && a.2 == b.2 && a.3 <= b.3)
  }

  predicate ContributorLeq(a: Contributor, b: Contributor) {
    if a.sourceId == b.sourceId then RankLeq(ContributorRank(a), ContributorRank(b))
    else StringLeq(a.sourceId, b.sourceId)
  }

  /** Anchors try the operations first, every other domain the sources. */
  function Resolve(entry: Entry, s: Segment, sources: seq<Source>, operations: seq<Operation>): Outcome {
    var generated := Generated(entry.domain, KeyOf(entry), s.start, s.end, operations);
    var overlaps := SourceOverlaps(s.start, s.end, sources);
    if entry.domain == TemporaryAnchor then
      if generated.contributors != [] then generated
      else Outcome(overlaps, if overlaps != [] then None else generated.reason)
    else
      if overlaps != [] then Outcome(overlaps, None) else generated
  }

  function SourcesFor(entry: Entry, slots: map<Key, seq<Source>>): seq<Source> {
    if SlotOf(entry) in slots then slots[SlotOf(entry)] else []
  }

  function BoundaryOf(s: Segment, outcome: Outcome): Boundary {
    Boundary(s.ring, s.id, s.start, s.end, Sort(ContributorLeq, outcome.contributors))
  }

  function UnavailableOf(entry: Entry, s: Segment, outcome: Outcome): Unavailable {
    Unavailable(AddressOf(entry, s),
                if outcome.reason.Some? then outcome.reason.value else NoMatchingSourceOrOperation)
  }

  function ResolveAll(entry: Entry, segments: seq<Segment>, sources: seq<Source>, operations: seq<Operation>)
    : (r: seq<Outcome>)
    ensures |r| == |segments|
  {
    if segments == [] then []
    else
      var n := |segments| - 1;
      ResolveAll(entry, segments[..n], sources, operations) + [Resolve(entry, segments[n], sources, operations)]
  }

  lemma {:induction false} ResolveAllAt(entry: Entry, segments: seq<Segment>, sources: seq<Source>,
                                        operations: seq<Operation>, i: nat)
    requires i < |segments|
    ensures ResolveAll(entry, segments, sources, operations)[i] == Resolve(entry, segments[i], sources, operations)
  {
    var n := |segments| - 1;
    if i < n { ResolveAllAt(entry, segments[..n], sources, operations, i); }
  }

  function BoundariesOf(segments: seq<Segment>, outcomes: seq<Outcome>): (r: seq<Boundary>)
    requires |segments| == |outcomes|
    ensures |r| == |segments|
    ensures forall i | 0 <= i < |r| :: r[i] == BoundaryOf(segments[i], outcomes[i])
  {
    if segments == [] then []
    else
      var n := |segments| - 1;
      BoundariesOf(segments[..n], outcomes[..n]) + [BoundaryOf(segments[n], outcomes[n])]
  }

  function UnavailablesOf(entry: Entry, segments: seq<Segment>, outcomes: seq<Outcome>): seq<Unavailable>
    requires |segments| == |outcomes|
  {
    if segments == [] then []
    else
      var n := |segments| - 1;
      var front := UnavailablesOf(entry, segments[..n], outcomes[..n]);
      if outcomes[n].contributors == [] then front + [UnavailableOf(entry, segments[n], outcomes[n])] else front
  }

  lemma ExtendByOne(entry: Entry, segments: seq<Segment>, outcomes: seq<Outcome>, s: Segment, o: Outcome)
    requires |segments| == |outcomes|
    ensures BoundariesOf(segments + [s], outcomes + [o]) == BoundariesOf(segments, outcomes) + [BoundaryOf(s, o)]
    ensures UnavailablesOf(entry, segments + [s], outcomes + [o])
         == UnavailablesOf(entry, segments, outcomes)
            + (if o.contributors == [] then [UnavailableOf(entry, s, o)] else [])
  {
    assert (segments + [s])[..|segments|] == segments && (outcomes + [o])[..|outcomes|] == outcomes;
  }

  predicate BoundaryLeq(a: Boundary, b: Boundary) {
    a.ring < b.ring || (a.ring == b.ring && a.segment <= b.segment)
  }

  function Boundaries(entry: Entry, slots: map<Key, seq<Source>>, operations: seq<Operation>): (r: seq<Boundary>)
    ensures |r| == |entry.segments|
  {
    Sort(BoundaryLeq,
         BoundariesOf(entry.segments, ResolveAll(entry, entry.segments, SourcesFor(entry, slots), operations)))
  }

  function Unresolved(entry: Entry, slots: map<Key, seq<Source>>, operations: seq<Operation>): seq<Unavailable> {
    UnavailablesOf(entry, entry.segments, ResolveAll(entry, entry.segments, SourcesFor(entry, slots), operations))
  }

  class UnavailableLog {
    var items: seq<Unavailable>

    constructor ()
      ensures items == []
    {
      items := [];
    }
  }

  method ResolveSegment(entry: Entry, s: Segment, sources: seq<Source>, operations: seq<Operation>)
    returns (r: Outcome)
    ensures r == Resolve(entry, s, sources, operations)
  {
    if entry.domain == TemporaryAnchor {
      r := GeneratedContributors(entry.domain, KeyOf(entry), s.start, s.end, operations);
      if r.contributors == [] {
        var overlaps := SourceOverlapContributors(s.start, s.end, sources);
        r := Outcome(overlaps, if overlaps != [] then None else r.reason);
      }
    } else {
      var overlaps := SourceOverlapContributors(s.start, s.end, sources);
      r := Outcome(overlaps, None);
      if overlaps == [] {
        r := GeneratedContributors(entry.domain, KeyOf(entry), s.start, s.end, operations);
      }
    }
  }

  method ResolveOne(entry: Entry, s: Segment, sources: seq<Source>, operations: seq<Operation>,
                    unavailable: UnavailableLog)
    returns (boundary: Boundary, ghost outcome: Outcome)
    modifies unavailable
    ensures outcome == Resolve(entry, s, sources, operations) && boundary == BoundaryOf(s, outcome)
    ensures unavailable.items
         == old(unavailable.items) + (if outcome.contributors == [] then [UnavailableOf(entry, s, outcome)] else [])
  {
    var resolved := ResolveSegment(entry, s, sources, operations);
    if resolved.contributors == [] {
      unavailable.items := unavailable.items + [UnavailableOf(entry, s, resolved)];
    }
    boundary := BoundaryOf(s, resolved);
    outcome := resolved;
  }

  method ResolveEach(entry: Entry, sources: seq<Source>, operations: seq<Operation>, unavailable: UnavailableLog)
    returns (boundaries: seq<Boundary>, ghost outcomes: seq<Outcome>)
    modifies unavailable
    ensures outcomes == ResolveAll(entry, entry.segments, sources, operations)
    ensures boundaries == BoundariesOf(entry.segments, outcomes)
    ensures unavailable.items == old(unavailable.items) + UnavailablesOf(entry, entry.segments, outcomes)
  {
    boundaries, outcomes := [], [];
    var segments := entry.segments;
    for i := 0 to |segments|
      invariant outcomes == ResolveAll(entry, segments[..i], sources, operations)
      invariant boundaries == BoundariesOf(segments[..i], outcomes)
      invariant unavailable.items == old(unavailable.items) + UnavailablesOf(entry, segments[..i], outcomes)
    {
      var boundary, outcome := ResolveOne(entry, segments[i], sources, operations, unavailable);
      ExtendByOne(entry, segments[..i], outcomes, segments[i], outcome);
      TakeOneMore(segments, i);
      boundaries := boundaries + [boundary];
      outcomes := outcomes + [outcome];
    }
    TakeAll(segments);
  }

  method ResolveBoundaries(entry: Entry, slots: map<Key, seq<Source>>, operations: seq<Operation>,
                           unavailable: UnavailableLog)
    returns (boundaries: seq<Boundary>)
    modifies unavailable
    ensures boundaries == Boundaries(entry, slots, operations)
    ensures unavailable.items == old(unavailable.items) + Unresolved(entry, slots, operations)
  {
    var unsorted, outcomes := ResolveEach(entry, SourcesFor(entry, slots), operations, unavailable);
    boundaries := Sort(BoundaryLeq, unsorted);
  }

  /** Segments of a normalized polygon arrive in address order, so each boundary sits at its segment's index. */
  lemma BoundariesFollowSegments(entry: Entry, slots: map<Key, seq<Source>>, operations: seq<Operation>)
    requires Ordered(entry.segments)
    ensures Boundaries(entry, slots, operations)
         == BoundariesOf(entry.segments, ResolveAll(entry, entry.segments, SourcesFor(entry, slots), operations))
  {
    var b := BoundariesOf(entry.segments, ResolveAll(entry, entry.segments, SourcesFor(entry, slots), operations));
    SortOfStrict(b, entry.segments);
  }

  lemma {:induction false} SortOfStrict(b: seq<Boundary>, segments: seq<Segment>)
    requires |b| == |segments| && Ordered(segments)
    requires forall i | 0 <= i < |b| :: b[i].ring == segments[i].ring && b[i].segment == segments[i].id
    ensures Sort(BoundaryLeq, b) == b
  {
    if |b| > 0 {
      var n := |b| - 1;
      SortOfStrict(b[..n], segments[..n]);
      TakeOneMore(b, n);
      TakeAll(b);
      assert n > 0 ==> AddressLess(segments[n - 1], segments[n]);
      assert n > 0 ==> BoundaryLeq(b[n - 1], b[n]);
    }
  }

  // ---- Conservation ----

  ghost predicate AllFromSources(cs: seq<Contributor>) { forall c | c in cs :: c.relation.FromSource? }

  ghost predicate AllFromOperation(cs: seq<Contributor>) {
    forall c, d | c in cs && d in cs :: c.relation.FromOperation? && c.relation == d.relation
  }

  lemma {:induction false} OverlapsAreFromSources(sources: seq<Source>, start: Point, end: Point, tolerance: nat)
    ensures AllFromSources(OverlapsAt(sources, start, end, tolerance))
  {
    forall c | c in OverlapsAt(sources, start, end, tolerance) ensures c.relation.FromSource? {
      OverlapsComplete(sources, start, end, tolerance, c);
    }
  }

  lemma GeneratedIsOfOneKind(domain: Domain, key: Key, start: Point, end: Point, operations: seq<Operation>)
    ensures var o := Generated(domain, key, start, end, operations);
      && AllFromOperation(o.contributors)
      && (o.contributors == [] <==> o.reason.Some?)
      && (o.contributors == [] ==> o.reason == Some(NoMatchingOperation) || o.reason == Some(OperationHasNoInputs))
  {
    var chosen := Chosen(domain, key, start, end, operations);
    if chosen.Some? {
      var credits := Credits(chosen.value, InputsOf(chosen.value.operation));
      assert forall c | c in credits ::
        c.relation == FromOperation(chosen.value.operation.id, chosen.value.found.tolerance);
    }
  }

  /** Contributors never mix: all are source overlaps, or all credit one operation at one tolerance. There are
      none exactly when a reason is given, and then it is one of the two reasons of the operation search. */
  lemma OutcomeIsOfOneKind(entry: Entry, s: Segment, sources: seq<Source>, operations: seq<Operation>)
    ensures var o := Resolve(entry, s, sources, operations);
      && (AllFromSources(o.contributors) || AllFromOperation(o.contributors))
      && (o.contributors == [] <==> o.reason.Some?)
      && (o.contributors == [] ==> o.reason == Some(NoMatchingOperation) || o.reason == Some(OperationHasNoInputs))
  {
    OverlapsAreFromSources(sources, s.start, s.end, 0);
    OverlapsAreFromSources(sources, s.start, s.end, 1);
    GeneratedIsOfOneKind(entry.domain, KeyOf(entry), s.start, s.end, operations);
  }

  ghost predicate NoOverlap(sources: seq<Source>, start: Point, end: Point, tolerance: nat) {
    forall source, x | source in sources && x in source.segments ::
      Overlap(start, end, x.start, x.end, tolerance).None?
  }

  lemma EmptyIffNoOverlap(sources: seq<Source>, start: Point, end: Point, tolerance: nat)
    ensures OverlapsAt(sources, start, end, tolerance) == [] <==> NoOverlap(sources, start, end, tolerance)
  {
    var list := OverlapsAt(sources, start, end, tolerance);
    if list != [] {
      OverlapsComplete(sources, start, end, tolerance, list[0]);
    }
    if exists source, x :: source in sources && x in source.segments
                           && Overlap(start, end, x.start, x.end, tolerance).Some? {
      var source, x :| source in sources && x in source.segments
                       && Overlap(start, end, x.start, x.end, tolerance).Some?;
      var c := OverlapContributor(source.id, x, Overlap(start, end, x.start, x.end, tolerance).value, tolerance);
      assert Records(c, source, x, start, end, tolerance);
      OverlapsComplete(sources, start, end, tolerance, c);
    }
  }

  /** The source list is complete at its tolerance, and tolerance 1 is used only without any exact overlap. */
  lemma SourceOverlapsComplete(sources: seq<Source>, start: Point, end: Point, c: Contributor)
    ensures var tolerance := if NoOverlap(sources, start, end, 0) then 1 else 0;
      c in SourceOverlaps(start, end, sources) <==>
      exists source, s | source in sources && s in source.segments :: Records(c, source, s, start, end, tolerance)
  {
    EmptyIffNoOverlap(sources, start, end, 0);
    OverlapsComplete(sources, start, end, if NoOverlap(sources, start, end, 0) then 1 else 0, c);
  }

  /** The two sides of the precedence: an anchor is explained by sources only when no operation explains it,
      any other boundary by an operation only when no source overlaps it, even at tolerance 1. */
  lemma Precedence(entry: Entry, s: Segment, sources: seq<Source>, operations: seq<Operation>, c: Contributor)
    requires c in Resolve(entry, s, sources, operations).contributors
    ensures entry.domain == TemporaryAnchor && c.relation.FromSource? ==>
              Generated(entry.domain, KeyOf(entry), s.start, s.end, operations).contributors == []
    ensures entry.domain != TemporaryAnchor && c.relation.FromOperation? ==>
              NoOverlap(sources, s.start, s.end, 0) && NoOverlap(sources, s.start, s.end, 1)
  {
    GeneratedIsOfOneKind(entry.domain, KeyOf(entry), s.start, s.end, operations);
    OverlapsAreFromSources(sources, s.start, s.end, 0);
    OverlapsAreFromSources(sources, s.start, s.end, 1);
    EmptyIffNoOverlap(sources, s.start, s.end, 0);
    EmptyIffNoOverlap(sources, s.start, s.end, 1);
  }

  predicate Attributed(b: Boundary, toSources: bool) {
    exists c | c in b.contributors :: c.relation.FromSource? == toSources
  }

  /** How many boundaries have a contributor of the given kind. */
  function Count(bs: seq<Boundary>, toSources: bool): nat {
    if bs == [] then 0
    else Count(bs[..|bs| - 1], toSources) + (if Attributed(bs[|bs| - 1], toSources) then 1 else 0)
  }

  lemma CountOneMore(s: seq<Boundary>, x: Boundary, toSources: bool)
    ensures Count(s + [x], toSources) == Count(s, toSources) + (if Attributed(x, toSources) then 1 else 0)
  {
    assert (s + [x])[..|s|] == s;
  }

  lemma {:induction false} CountInsert(s: seq<Boundary>, x: Boundary, toSources: bool)
    ensures Count(Insert(BoundaryLeq, s, x), toSources)
         == Count(s, toSources) + (if Attributed(x, toSources) then 1 else 0)
  {
    if s == [] || BoundaryLeq(s[|s| - 1], x) {
      CountOneMore(s, x, toSources);
    } else {
      var front, last := s[..|s| - 1], s[|s| - 1];
      CountInsert(front, x, toSources);
      CountOneMore(Insert(BoundaryLeq, front, x), last, toSources);
    }
  }

  lemma {:induction false} CountSort(s: seq<Boundary>, toSources: bool)
    ensures Count(Sort(BoundaryLeq, s), toSources) == Count(s, toSources)
  {
    if s != [] {
      var front, last := s[..|s| - 1], s[|s| - 1];
      CountSort(front, toSources);
      CountInsert(Sort(BoundaryLeq, front), last, toSources);
    }
  }

  ghost predicate OneKindEach(outcomes: seq<Outcome>) {
    forall o | o in outcomes :: AllFromSources(o.contributors) || AllFromOperation(o.contributors)
  }

  lemma BoundaryKind(s: Segment, o: Outcome)
    requires AllFromSources(o.contributors) || AllFromOperation(o.contributors)
    ensures var b := BoundaryOf(s, o);
      && (o.contributors == [] ==> !Attributed(b, true) && !Attributed(b, false))
      && (o.contributors != [] ==> Attributed(b, true) != Attributed(b, false))
  {
    SortMembers(ContributorLeq, o.contributors);
    if o.contributors != [] {
      assert o.contributors[0] in BoundaryOf(s, o).contributors;
    }
  }

  lemma {:induction false} OutcomesConserved(entry: Entry, segments: seq<Segment>, outcomes: seq<Outcome>)
    requires |segments| == |outcomes| && OneKindEach(outcomes)
    ensures var bs := BoundariesOf(segments, outcomes);
      Count(bs, true) + Count(bs, false) + |UnavailablesOf(entry, segments, outcomes)| == |segments|
  {
    if segments != [] {
      var n := |segments| - 1;
      assert outcomes == outcomes[..n] + [outcomes[n]];
      OutcomesConserved(entry, segments[..n], outcomes[..n]);
      BoundaryKind(segments[n], outcomes[n]);
      assert outcomes[n] in outcomes;
      var front := BoundariesOf(segments[..n], outcomes[..n]);
      CountOneMore(front, BoundaryOf(segments[n], outcomes[n]), true);
      CountOneMore(front, BoundaryOf(segments[n], outcomes[n]), false);
    }
  }

  /** Within one entry: every segment gives one boundary, attributed to sources, to an operation, or unavailable. */
  lemma EntryConserved(entry: Entry, slots: map<Key, seq<Source>>, operations: seq<Operation>)
    ensures var bs := Boundaries(entry, slots, operations);
      && |bs| == |entry.segments|
      && Count(bs, true) + Count(bs, false) + |Unresolved(entry, slots, operations)| == |entry.segments|
  {
    var sources := SourcesFor(entry, slots);
    var outcomes := ResolveAll(entry, entry.segments, sources, operations);
    forall o | o in outcomes ensures AllFromSources(o.contributors) || AllFromOperation(o.contributors) {
      var i :| 0 <= i < |outcomes| && outcomes[i] == o;
      ResolveAllAt(entry, entry.segments, sources, operations, i);
      OutcomeIsOfOneKind(entry, entry.segments[i], sources, operations);
    }
    OutcomesConserved(entry, entry.segments, outcomes);
    CountSort(BoundariesOf(entry.segments, outcomes), true);
    CountSort(BoundariesOf(entry.segments, outcomes), false);
  }

  // ---- The outputs of each operation ----

  class OperationRecord {
    const model: Operation
    var outputs: seq<Address>

    constructor (model: Operation)
      ensures this.model == model
    {
      this.model := model;
    }
  }

  ghost predicate Produces(r: Segment, s: Segment) {
    Overlap(r.start, r.end, s.start, s.end, 0).Some? || Overlap(r.start, r.end, s.start, s.end, 1).Some?
  }

  /** Some result segment of the operation overlaps the segment at this address. */
  ghost predicate IsOutput(operation: Operation, entries: seq<Entry>, a: Address) {
    exists entry, s, r | entry in entries && s in entry.segments && r in operation.results ::
      a == AddressOf(entry, s) && Applies(operation, KeyOf(entry)) && Produces(r, s)
  }

  function DomainRank(d: Domain): nat {
    match d
    case FinalInternal => 0
    case FinalVoid => 1
    case Internal => 2
    case TemporaryAnchor => 3
    case Void => 4
  }

  predicate AddressLeq(a: Address, b: Address) {
    if a.domain != b.domain then DomainRank(a.domain) < DomainRank(b.domain)
    else if a.surface != b.surface then StringLeq(a.surface, b.surface)
    else a.ring < b.ring || (a.ring == b.ring && a.segment <= b.segment)
  }

  ghost predicate OutputsExact(outputs: seq<Address>, operation: Operation, entries: seq<Entry>) {
    && Sorted(AddressLeq, outputs)
    && Distinct(outputs)
    && (forall a :: a in outputs <==> IsOutput(operation, entries, a))
  }

  lemma AddressOrder()
    ensures TotalOrder(AddressLeq)
  {
    StringOrder();
  }

  /** Every segment of every entry with its address and key. */
  datatype Listed = Listed(address: Address, key: Key, segment: Segment)

  function ListSegments(entry: Entry, segments: seq<Segment>): (r: seq<Listed>)
    ensures forall l :: l in r <==>
              exists s | s in segments :: l == Listed(AddressOf(entry, s), KeyOf(entry), s)
  {
    if segments == [] then []
    else
      var last := segments[|segments| - 1];
      assert segments == segments[..|segments| - 1] + [last];
      ListSegments(entry, segments[..|segments| - 1]) + [Listed(AddressOf(entry, last), KeyOf(entry), last)]
  }

  function ListEntries(entries: seq<Entry>): (r: seq<Listed>)
    ensures forall l :: l in r <==> exists entry, s | entry in entries && s in entry.segments ::
              l == Listed(AddressOf(entry, s), KeyOf(entry), s)
  {
    if entries == [] then []
    else
      var last := entries[|entries| - 1];
      assert entries == entries[..|entries| - 1] + [last];
      ListEntries(entries[..|entries| - 1]) + ListSegments(last, last.segments)
  }

  method CollectAddresses(entries: seq<Entry>) returns (r: seq<Listed>)
    ensures r == ListEntries(entries)
  {
    r := [];
    for i := 0 to |entries|
      invariant r == ListEntries(entries[..i])
    {
      TakeOneMore(entries, i);
      var entry := entries[i];
      ghost var before := r;
      for j := 0 to |entry.segments|
        invariant r == before + ListSegments(entry, entry.segments[..j])
      {
        TakeOneMore(entry.segments, j);
        var s := entry.segments[j];
        r := r + [Listed(AddressOf(entry, s), KeyOf(entry), s)];
      }
      TakeAll(entry.segments);
    }
    TakeAll(entries);
  }

  /** Result segment `r` contributes the address. */
  ghost predicate CollectedFrom(operation: Operation, r: Segment, listed: seq<Listed>, a: Address) {
    exists l | l in listed :: a == l.address && Applies(operation, l.key) && Produces(r, l.segment)
  }

  ghost predicate Collected(operation: Operation, results: seq<Segment>, listed: seq<Listed>, a: Address) {
    exists r | r in results :: CollectedFrom(operation, r, listed, a)
  }

  lemma OneMoreListed(operation: Operation, r: Segment, listed: seq<Listed>, l: Listed)
    ensures forall a :: CollectedFrom(operation, r, listed + [l], a) <==>
              || CollectedFrom(operation, r, listed, a)
              || (a == l.address && Applies(operation, l.key) && Produces(r, l.segment))
  {
    forall a ensures CollectedFrom(operation, r, listed + [l], a) <==>
                       || CollectedFrom(operation, r, listed, a)
                       || (a == l.address && Applies(operation, l.key) && Produces(r, l.segment))
    {
      assert forall x :: x in listed + [l] <==> x in listed || x == l;
    }
  }

  lemma OneMoreResult(operation: Operation, results: seq<Segment>, r: Segment, listed: seq<Listed>)
    ensures forall a :: Collected(operation, results + [r], listed, a) <==>
              Collected(operation, results, listed, a) || CollectedFrom(operation, r, listed, a)
  {
    assert forall x :: x in results + [r] <==> x in results || x == r;
  }

  method ProducesSegment(r: Segment, s: Segment) returns (found: bool)
    ensures found == Produces(r, s)
  {
    for tolerance := 0 to 2
      invariant tolerance >= 1 ==> Overlap(r.start, r.end, s.start, s.end, 0).None?
      invariant tolerance >= 2 ==> Overlap(r.start, r.end, s.start, s.end, 1).None?
    {
      if Overlap(r.start, r.end, s.start, s.end, tolerance).Some? { return true; }
    }
    return false;
  }

  /** Adds the addresses one result segment contributes; the list stands for the source's set. */
  method AddOutputs(operation: Operation, r: Segment, listed: seq<Listed>, before: seq<Address>)
    returns (outputs: seq<Address>)
    requires Distinct(before)
    ensures forall a :: a in outputs <==> a in before || CollectedFrom(operation, r, listed, a)
    ensures Distinct(outputs)
  {
    outputs := before;
    for j := 0 to |listed|
      invariant forall a :: a in outputs <==> a in before || CollectedFrom(operation, r, listed[..j], a)
      invariant Distinct(outputs)
    {
      TakeOneMore(listed, j);
      OneMoreListed(operation, r, listed[..j], listed[j]);
      if operation.keys != {} && listed[j].key !in operation.keys { continue; }
      var found := ProducesSegment(r, listed[j].segment);
      if found && listed[j].address !in outputs {
        AppendDistinct(outputs, [listed[j].address]);
        outputs := outputs + [listed[j].address];
      }
    }
    TakeAll(listed);
  }

  method CollectOutputs(operation: Operation, listed: seq<Listed>) returns (outputs: seq<Address>)
    ensures forall a :: a in outputs <==> Collected(operation, operation.results, listed, a)
    ensures Distinct(outputs)
  {
    outputs := [];
    var results := operation.results;
    for i := 0 to |results|
      invariant forall a :: a in outputs <==> Collected(operation, results[..i], listed, a)
      invariant Distinct(outputs)
    {
      TakeOneMore(results, i);
      OneMoreResult(operation, results[..i], results[i], listed);
      outputs := AddOutputs(operation, results[i], listed, outputs);
    }
    TakeAll(results);
  }

  method OperationOutputs(operations: seq<OperationRecord>, entries: seq<Entry>)
    modifies operations
    ensures forall o | o in operations :: OutputsExact(o.outputs, o.model, entries)
  {
    var listed := CollectAddresses(entries);
    for i := 0 to |operations|
      invariant forall k | 0 <= k < i :: OutputsExact(operations[k].outputs, operations[k].model, entries)
    {
      var outputs := CollectOutputs(operations[i].model, listed);
      operations[i].outputs := Sort(AddressLeq, outputs);
      SortedOutputs(outputs, operations[i].model, entries);
    }
  }

  lemma SortedOutputs(outputs: seq<Address>, operation: Operation, entries: seq<Entry>)
    requires forall a :: a in outputs <==> Collected(operation, operation.results, ListEntries(entries), a)
    requires Distinct(outputs)
    ensures OutputsExact(Sort(AddressLeq, outputs), operation, entries)
  {
    AddressOrder();
    SortSorts(AddressLeq, outputs);
    SortMembers(AddressLeq, outputs);
    SortKeepsDistinct(AddressLeq, outputs);
    forall a ensures a in outputs <==> IsOutput(operation, entries, a) {
      CollectedIsOutput(operation, entries, a);
    }
  }

  lemma CollectedIsOutput(operation: Operation, entries: seq<Entry>, a: Address)
    ensures Collected(operation, operation.results, ListEntries(entries), a) <==> IsOutput(operation, entries, a)
  {
    var listed := ListEntries(entries);
    if Collected(operation, operation.results, listed, a) {
      var r :| r in operation.results && CollectedFrom(operation, r, listed, a);
      var l :| l in listed && a == l.address && Applies(operation, l.key) && Produces(r, l.segment);
      var entry, s :| entry in entries && s in entry.segments && l == Listed(AddressOf(entry, s), KeyOf(entry), s);
    }
    if IsOutput(operation, entries, a) {
      var entry, s, r :| entry in entries && s in entry.segments && r in operation.results
                         && a == AddressOf(entry, s) && Applies(operation, KeyOf(entry)) && Produces(r, s);
      assert Listed(AddressOf(entry, s), KeyOf(entry), s) in listed;
      assert CollectedFrom(operation, r, listed, a);
    }
  }

  // ---- The two directions agree ----

  ghost predicate DistinctIds(operations: seq<Operation>) {
    forall a, b | a in operations && b in operations && a.id == b.id :: a == b
  }

  /** A boundary credited to an operation by an exact match is listed among that operation's outputs. */
  lemma ExactCreditIsListed(entry: Entry, s: Segment, sources: seq<Source>, operations: seq<Operation>,
                            entries: seq<Entry>, c: Contributor, operation: Operation, outputs: seq<Address>)
    requires DistinctIds(operations) && operation in operations && OutputsExact(outputs, operation, entries)
    requires entry in entries && s in entry.segments
    requires c in Resolve(entry, s, sources, operations).contributors
    requires c.relation == FromOperation(operation.id, 0)
    ensures AddressOf(entry, s) in outputs
  {
    OverlapsAreFromSources(sources, s.start, s.end, 0);
    OverlapsAreFromSources(sources, s.start, s.end, 1);
    var key := KeyOf(entry);
    var chosen := CreditedOperation(entry.domain, key, s.start, s.end, operations, c);
    assert chosen.operation == operation;
    MatchIsOverlap(operation, key, s.start, s.end);
    var i :| 0 <= i < |operation.results|
             && Overlap(s.start, s.end, operation.results[i].start, operation.results[i].end, 0).Some?;
    var r := operation.results[i];
    OverlapSymmetric(s.start, s.end, r.start, r.end);
    assert Produces(r, s);
    assert IsOutput(operation, entries, AddressOf(entry, s));
  }

  lemma CreditedOperation(domain: Domain, key: Key, start: Point, end: Point, operations: seq<Operation>,
                          c: Contributor) returns (chosen: Candidate)
    requires c in Generated(domain, key, start, end, operations).contributors
    ensures chosen.operation in operations
    ensures MatchedOperation(chosen.operation, key, start, end) == Some(chosen.found)
    ensures c.relation == FromOperation(chosen.operation.id, chosen.found.tolerance)
  {
    chosen := Chosen(domain, key, start, end, operations).value;
  }

  lemma MatchIsOverlap(operation: Operation, key: Key, start: Point, end: Point)
    requires MatchedOperation(operation, key, start, end).Some?
    ensures Applies(operation, key)
    ensures var t := MatchedOperation(operation, key, start, end).value.tolerance;
      && t <= 1
      && exists i | 0 <= i < |operation.results| ::
           Overlap(start, end, operation.results[i].start, operation.results[i].end, t).Some?
  {
  }

  // ---- The whole file ----

  function ResolvedAll(entries: seq<Entry>, slots: map<Key, seq<Source>>, operations: seq<Operation>)
    : (r: seq<seq<Boundary>>)
    ensures |r| == |entries|
  {
    if entries == [] then []
    else
      var n := |entries| - 1;
      ResolvedAll(entries[..n], slots, operations) + [Boundaries(entries[n], slots, operations)]
  }

  function UnresolvedAll(entries: seq<Entry>, slots: map<Key, seq<Source>>, operations: seq<Operation>)
    : seq<Unavailable>
  {
    if entries == [] then []
    else
      var n := |entries| - 1;
      UnresolvedAll(entries[..n], slots, operations) + Unresolved(entries[n], slots, operations)
  }

  lemma ResolvedExtend(entries: seq<Entry>, e: Entry, slots: map<Key, seq<Source>>, operations: seq<Operation>)
    ensures ResolvedAll(entries + [e], slots, operations)
         == ResolvedAll(entries, slots, operations) + [Boundaries(e, slots, operations)]
    ensures UnresolvedAll(entries + [e], slots, operations)
         == UnresolvedAll(entries, slots, operations) + Unresolved(e, slots, operations)
  {
    assert (entries + [e])[..|entries|] == entries;
  }

  function TotalSegments(entries: seq<Entry>): nat {
    if entries == [] then 0
    else TotalSegments(entries[..|entries| - 1]) + |entries[|entries| - 1].segments|
  }

  function TotalBoundaries(domains: seq<seq<Boundary>>): nat {
    if domains == [] then 0
    else TotalBoundaries(domains[..|domains| - 1]) + |domains[|domains| - 1]|
  }

  function CountBoundaries(domains: seq<seq<Boundary>>, toSources: bool): nat {
    if domains == [] then 0
    else CountBoundaries(domains[..|domains| - 1], toSources) + Count(domains[|domains| - 1], toSources)
  }

  lemma {:induction false} CountBoundariesAppend(a: seq<seq<Boundary>>, b: seq<seq<Boundary>>, toSources: bool)
    ensures CountBoundaries(a + b, toSources) == CountBoundaries(a, toSources) + CountBoundaries(b, toSources)
  {
    if b == [] {
      assert a + b == a;
    } else {
      CountBoundariesAppend(a, b[..|b| - 1], toSources);
      assert (a + b)[..|a + b| - 1] == a + b[..|b| - 1];
    }
  }

  lemma {:induction false} AllConserved(entries: seq<Entry>, slots: map<Key, seq<Source>>, operations: seq<Operation>)
    ensures var domains := ResolvedAll(entries, slots, operations);
      && TotalBoundaries(domains) == TotalSegments(entries)
      && CountBoundaries(domains, true) + CountBoundaries(domains, false) + |UnresolvedAll(entries, slots, operations)|
         == TotalSegments(entries)
  {
    if entries != [] {
      var n := |entries| - 1;
      AllConserved(entries[..n], slots, operations);
      EntryConserved(entries[n], slots, operations);
      var domains := ResolvedAll(entries, slots, operations);
      assert domains[..n] == ResolvedAll(entries[..n], slots, operations);
    }
  }

  lemma BothConserved(planning: seq<Entry>, final: seq<Entry>, slots: map<Key, seq<Source>>,
                      operations: seq<Operation>)
    ensures var p, f := ResolvedAll(planning, slots, operations), ResolvedAll(final, slots, operations);
      && TotalBoundaries(p) == TotalSegments(planning) && TotalBoundaries(f) == TotalSegments(final)
      && CountBoundaries(p + f, true) + CountBoundaries(p + f, false)
         + |UnresolvedAll(planning, slots, operations)| + |UnresolvedAll(final, slots, operations)|
         == TotalSegments(planning) + TotalSegments(final)
  {
    AllConserved(planning, slots, operations);
    AllConserved(final, slots, operations);
    var p, f := ResolvedAll(planning, slots, operations), ResolvedAll(final, slots, operations);
    CountBoundariesAppend(p, f, true);
    CountBoundariesAppend(p, f, false);
  }

  datatype Counts = Counts(planningBoundaries: nat, sourceOverlaps: nat, generatedBoundaries: nat,
                           unavailableBoundaries: nat)

  /** Every boundary credited to an operation by an exact match is among the outputs of that operation. */
  ghost predicate DirectionsAgree(entries: seq<Entry>, slots: map<Key, seq<Source>>, operations: seq<Operation>,
                                  operation: Operation, outputs: seq<Address>)
  {
    forall entry, b, c | entry in entries && b in Boundaries(entry, slots, operations) && c in b.contributors ::
      c.relation == FromOperation(operation.id, 0) ==>
      Address(entry.domain, entry.surface, b.ring, b.segment) in outputs
  }

  lemma DirectionsAlwaysAgree(entries: seq<Entry>, slots: map<Key, seq<Source>>, operations: seq<Operation>,
                              operation: Operation, outputs: seq<Address>)
    requires DistinctIds(operations) && operation in operations && OutputsExact(outputs, operation, entries)
    ensures DirectionsAgree(entries, slots, operations, operation, outputs)
  {
    forall entry, b, c | entry in entries && b in Boundaries(entry, slots, operations) && c in b.contributors
                         && c.relation == FromOperation(operation.id, 0)
      ensures Address(entry.domain, entry.surface, b.ring, b.segment) in outputs
    {
      var s := SegmentOfBoundary(entry, slots, operations, b);
      SortMembers(ContributorLeq, Resolve(entry, s, SourcesFor(entry, slots), operations).contributors);
      ExactCreditIsListed(entry, s, SourcesFor(entry, slots), operations, entries, c, operation, outputs);
    }
  }

  lemma SegmentOfBoundary(entry: Entry, slots: map<Key, seq<Source>>, operations: seq<Operation>, b: Boundary)
    returns (s: Segment)
    requires b in Boundaries(entry, slots, operations)
    ensures s in entry.segments
    ensures b == BoundaryOf(s, Resolve(entry, s, SourcesFor(entry, slots), operations))
  {
    var outcomes := ResolveAll(entry, entry.segments, SourcesFor(entry, slots), operations);
    var list := BoundariesOf(entry.segments, outcomes);
    SortMembers(BoundaryLeq, list);
    assert b in list;
    var i :| 0 <= i < |list| && list[i] == b;
    ResolveAllAt(entry, entry.segments, SourcesFor(entry, slots), operations, i);
    s := entry.segments[i];
  }

  function Models(records: seq<OperationRecord>): (r: seq<Operation>)
    ensures |r| == |records|
    ensures forall i | 0 <= i < |r| :: r[i] == records[i].model
  {
    seq(|records|, i requires 0 <= i < |records| => records[i].model)
  }

  predicate UnavailableLeq(a: Unavailable, b: Unavailable) { AddressLeq(a.address, b.address) }

  method ResolveEntries(entries: seq<Entry>, slots: map<Key, seq<Source>>, operations: seq<Operation>,
                        unavailable: UnavailableLog)
    returns (domains: seq<seq<Boundary>>)
    modifies unavailable
    ensures domains == ResolvedAll(entries, slots, operations)
    ensures unavailable.items == old(unavailable.items) + UnresolvedAll(entries, slots, operations)
  {
    domains := [];
    for i := 0 to |entries|
      invariant domains == ResolvedAll(entries[..i], slots, operations)
      invariant unavailable.items == old(unavailable.items) + UnresolvedAll(entries[..i], slots, operations)
    {
      TakeOneMore(entries, i);
      ResolvedExtend(entries[..i], entries[i], slots, operations);
      var boundaries := ResolveBoundaries(entries[i], slots, operations, unavailable);
      domains := domains + [boundaries];
      AppendAssociative(old(unavailable.items), UnresolvedAll(entries[..i], slots, operations),
                        Unresolved(entries[i], slots, operations));
    }
    TakeAll(entries);
  }
}
