/** Divergence analysis over guest lockfiles (xtask/src/build_guests.rs, `compat_line` and
    `lock_divergences`). */
module Locks {
  import opened Orders
  import opened Options
  import opened Text

  const U64_BOUND := 0x1_0000_0000_0000_0000

  // ---- Compatibility lines ----

  datatype Version = Version(major: nat, minor: nat, patch: nat)

  /** The part before any pre-release or build suffix. */
  function Core(version: string): string {
    Before(Before(version, '-'), '+')
  }

  function Part(parts: seq<string>, i: nat): Option<nat> {
    if i < |parts| then ParseUnsigned(parts[i], U64_BOUND) else None
  }

  /** The three leading numeric components, when there are three. */
  function Parsed(version: string): Option<Version> {
    var parts := Split(Core(version), '.');
    match (Part(parts, 0), Part(parts, 1), Part(parts, 2))
    case (Some(major), Some(minor), Some(patch)) => Some(Version(major, minor, patch))
    case _ => None
  }

  function LineOf(v: Version): string {
    if v.major == 0 && v.minor == 0 then "0.0." + Decimal(v.patch)
    else if v.major == 0 then "0." + Decimal(v.minor)
    else Decimal(v.major)
  }

  function CompatLine(version: string): string {
    match Parsed(version)
    case Some(v) => LineOf(v)
    case None => version
  }

  /** Agreement up to the leftmost component that is not zero in both. */
  predicate SameLine(v: Version, w: Version) {
    if v.major != 0 || w.major != 0 then v.major == w.major
    else if v.minor != 0 || w.minor != 0 then v.minor == w.minor
    else v.patch == w.patch
  }

  lemma DigitsHaveNoDot(n: nat)
    ensures '.' !in Decimal(n) && '-' !in Decimal(n) && '+' !in Decimal(n)
  {
  }

  lemma LinesApart(m: nat, n: nat)
    ensures Decimal(m) != "0." + Decimal(n)
    ensures Decimal(m) != "0.0." + Decimal(n)
    ensures "0." + Decimal(m) != "0.0." + Decimal(n)
  {
    DigitsHaveNoDot(m);
    assert ("0." + Decimal(n))[1] == '.' && ("0.0." + Decimal(n))[1] == '.';
    var x, y := "0." + Decimal(m), "0.0." + Decimal(n);
    assert y[3] == '.';
    assert |x| > 3 ==> x[3] in Decimal(m);
  }

  lemma LineOfIffSameLine(v: Version, w: Version)
    ensures LineOf(v) == LineOf(w) <==> SameLine(v, w)
  {
    LinesApart(v.major, w.minor); LinesApart(v.major, w.patch); LinesApart(v.minor, w.patch);
    LinesApart(w.major, v.minor); LinesApart(w.major, v.patch); LinesApart(w.minor, v.patch);
    if LineOf(v) == LineOf(w) {
      if v.major == 0 && v.minor == 0 && w.major == 0 && w.minor == 0 {
        assert LineOf(v)[4..] == Decimal(v.patch) && LineOf(w)[4..] == Decimal(w.patch);
        DecimalInjective(v.patch, w.patch);
      } else if v.major == 0 && w.major == 0 && v.minor != 0 && w.minor != 0 {
        assert LineOf(v)[2..] == Decimal(v.minor) && LineOf(w)[2..] == Decimal(w.minor);
        DecimalInjective(v.minor, w.minor);
      } else if v.major != 0 && w.major != 0 {
        DecimalInjective(v.major, w.major);
      }
    }
  }

  /** Who shares a compatibility line, for all version strings: well-formed versions share it by their leading
      components, malformed ones with their own copies and with every version whose line they spell. */
  lemma CompatLineExact(v: string, w: string)
    ensures CompatLine(v) == CompatLine(w) <==>
      match (Parsed(v), Parsed(w))
      case (Some(a), Some(b)) => SameLine(a, b)
      case (Some(a), None) => LineOf(a) == w
      case (None, Some(b)) => v == LineOf(b)
      case (None, None) => v == w
  {
    if Parsed(v).Some? && Parsed(w).Some? {
      LineOfIffSameLine(Parsed(v).value, Parsed(w).value);
    }
  }

  function Render(v: Version): string {
    Decimal(v.major) + ['.'] + (Decimal(v.minor) + ['.'] + Decimal(v.patch))
  }

  lemma CoreOfPlain(s: string)
    requires '-' !in s && '+' !in s
    ensures Core(s) == s
  {
    BeforeWhole(s, '-');
    BeforeWhole(s, '+');
  }

  lemma SplitOne(s: string, c: char)
    requires c !in s
    ensures Split(s, c) == [s]
  {
    BeforeWhole(s, c);
  }

  lemma SplitMore(s: string, c: char, t: string)
    requires c !in s
    ensures Split(s + [c] + t, c) == [s] + Split(t, c)
  {
    var whole := s + [c] + t;
    BeforeOfConcat(s, c, t);
    assert whole[|s|] == c;
    var (left, right) := SplitOnce(whole, c).value;
    assert left == s;
    assert right == whole[|s| + 1..] == t;
  }

  /** Every ordinary X.Y.Z is read as written. */
  lemma ParsedRender(v: Version)
    requires v.major < U64_BOUND && v.minor < U64_BOUND && v.patch < U64_BOUND
    ensures Parsed(Render(v)) == Some(v)
  {
    DigitsHaveNoDot(v.major);
    DigitsHaveNoDot(v.minor);
    DigitsHaveNoDot(v.patch);
    CoreOfPlain(Render(v));
    SplitThree(Decimal(v.major), Decimal(v.minor), Decimal(v.patch));
    ParseDecimal(v.major, U64_BOUND);
    ParseDecimal(v.minor, U64_BOUND);
    ParseDecimal(v.patch, U64_BOUND);
  }

  lemma SplitThree(a: string, b: string, c: string)
    requires '.' !in a && '.' !in b && '.' !in c
    ensures Split(a + ['.'] + (b + ['.'] + c), '.') == [a, b, c]
  {
    SplitMore(a, '.', b + ['.'] + c);
    SplitMore(b, '.', c);
    SplitOne(c, '.');
  }

  /** A malformed version is not always alone: a bare major number shares the line of its major versions. */
  lemma BareMajorJoinsTheLine(v: Version)
    requires 0 < v.major < U64_BOUND && v.minor < U64_BOUND && v.patch < U64_BOUND
    ensures Parsed(Decimal(v.major)).None?
    ensures Decimal(v.major) != Render(v) && CompatLine(Decimal(v.major)) == CompatLine(Render(v))
  {
    ParsedRender(v);
    DigitsHaveNoDot(v.major);
    CoreOfPlain(Decimal(v.major));
    SplitOne(Decimal(v.major), '.');
    assert Render(v)[|Decimal(v.major)|] == '.';
  }

  // ---- Divergence ----

  datatype Package = Package(name: string, version: string)

  datatype Lock = Lock(guest: string, packages: seq<Package>)

  datatype Divergence = Divergence(crate: string, versions: seq<string>)

  ghost predicate Recorded(locks: seq<Lock>, name: string, version: string) {
    exists l | l in locks :: Package(name, version) in l.packages
  }

  /** Another recorded version of the crate lives on the same line. */
  ghost predicate Diverging(locks: seq<Lock>, name: string, version: string) {
    && Recorded(locks, name, version)
    && exists other :: other != version && Recorded(locks, name, other) && CompatLine(other) == CompatLine(version)
  }

  ghost predicate DivergingCrate(locks: seq<Lock>, name: string) {
    exists v :: Diverging(locks, name, v)
  }

  ghost predicate Mentions(out: seq<Divergence>, name: string) {
    exists d | d in out :: d.crate == name
  }

  /** The record lists exactly the diverging versions of its crate, sorted. */
  ghost predicate Accurate(d: Divergence, locks: seq<Lock>) {
    StrictlySorted(d.versions) && forall v :: v in d.versions <==> Diverging(locks, d.crate, v)
  }

  /** `out` names exactly the crates with diverging versions, each with exactly those versions, all in order. */
  ghost predicate IsReport(out: seq<Divergence>, locks: seq<Lock>) {
    && (forall i, j | 0 <= i < j < |out| :: StringLeq(out[i].crate, out[j].crate) && out[i].crate != out[j].crate)
    && (forall name :: Mentions(out, name) <==> DivergingCrate(locks, name))
    && (forall d | d in out :: Accurate(d, locks))
  }

  type Lines = map<string, set<string>>

  function AddVersion(seen: map<string, Lines>, name: string, version: string): map<string, Lines> {
    var lines := if name in seen then seen[name] else map[];
    var line := CompatLine(version);
    var versions := if line in lines then lines[line] else {};
    seen[name := lines[line := versions + {version}]]
  }

  predicate Has(seen: map<string, Lines>, name: string, line: string, version: string) {
    name in seen && line in seen[name] && version in seen[name][line]
  }

  /** The nested maps group exactly the recorded versions by crate and line. */
  ghost predicate Groups(seen: map<string, Lines>, recorded: set<Package>) {
    && (forall n, l, v :: Has(seen, n, l, v) <==> Package(n, v) in recorded && l == CompatLine(v))
  }

  lemma AddVersionHas(seen: map<string, Lines>, name: string, version: string, line: string, n: string, l: string,
                      v: string)
    requires line == CompatLine(version)
    ensures Has(AddVersion(seen, name, version), n, l, v)
       <==> Has(seen, n, l, v) || (n == name && l == line && v == version)
  {
  }

  lemma AddVersionGroups(seen: map<string, Lines>, recorded: set<Package>, p: Package)
    requires Groups(seen, recorded)
    ensures Groups(AddVersion(seen, p.name, p.version), recorded + {p})
  {
    var line := CompatLine(p.version);
    forall n, l, v
      ensures Has(AddVersion(seen, p.name, p.version), n, l, v)
         <==> Package(n, v) in recorded + {p} && l == CompatLine(v)
    {
      AddVersionHas(seen, p.name, p.version, line, n, l, v);
      assert Has(seen, n, l, v) <==> Package(n, v) in recorded && l == CompatLine(v);
      assert Package(n, v) in recorded + {p} <==> Package(n, v) in recorded || (n == p.name && v == p.version);
    }
  }

  ghost function AllPackages(locks: seq<Lock>): set<Package> {
    set l, p | l in locks && p in l.packages :: p
  }

  method Collect(locks: seq<Lock>) returns (seen: map<string, Lines>)
    ensures Groups(seen, AllPackages(locks))
  {
    seen := map[];
    ghost var recorded: set<Package> := {};
    for i := 0 to |locks|
      invariant recorded == AllPackages(locks[..i]) && Groups(seen, recorded)
    {
      TakeOneMore(locks, i);
      var packages := locks[i].packages;
      for j := 0 to |packages|
        invariant recorded == AllPackages(locks[..i]) + set p | p in packages[..j]
        invariant Groups(seen, recorded)
      {
        TakeOneMore(packages, j);
        AddVersionGroups(seen, recorded, packages[j]);
        seen := AddVersion(seen, packages[j].name, packages[j].version);
        recorded := recorded + {packages[j]};
      }
      TakeAll(packages);
    }
    TakeAll(locks);
  }

  /** The elements of a set in some order. */
  method Elements(s: set<string>) returns (r: seq<string>)
    ensures forall x :: x in r <==> x in s
    ensures Distinct(r)
  {
    r := [];
    var rest := s;
    while rest != {}
      invariant rest <= s && forall x :: x in r <==> x in s - rest
      invariant Distinct(r)
    {
      var x :| x in rest;
      AppendDistinct(r, [x]);
      r := r + [x];
      rest := rest - {x};
    }
  }

  /** A version sits on a line with more than one version. */
  ghost predicate Crowded(lines: Lines, v: string) {
    exists l :: l in lines && v in lines[l] && |lines[l]| > 1
  }

  /** Versions of the lines that disagree, sorted. */
  method VersionsOf(lines: Lines) returns (versions: seq<string>)
    requires forall l, m | l in lines && m in lines && l != m :: lines[l] !! lines[m]
    ensures StrictlySorted(versions)
    ensures forall v :: v in versions <==> Crowded(lines, v)
  {
    var list: seq<string> := [];
    var rest := lines.Keys;
    while rest != {}
      invariant rest <= lines.Keys
      invariant forall v :: v in list <==> exists l :: l in lines.Keys - rest && v in lines[l] && |lines[l]| > 1
      invariant Distinct(list)
    {
      var line :| line in rest;
      rest := rest - {line};
      if |lines[line]| > 1 {
        forall x | x in list ensures x !in lines[line] {
          var l :| l in lines.Keys - rest - {line} && x in lines[l];
          assert lines[l] !! lines[line];
        }
        var more := Elements(lines[line]);
        AppendDistinct(list, more);
        list := list + more;
      }
    }
    versions := Sort(StringLeq, list);
    StringOrder();
    SortSorts(StringLeq, list);
    SortMembers(StringLeq, list);
    SortKeepsDistinct(StringLeq, list);
  }

  lemma TwoMembers(s: set<string>, x: string)
    requires x in s
    ensures |s| > 1 <==> exists y :: y in s && y != x
  {
    if |s| > 1 {
      assert |s - {x}| > 0;
      var y :| y in s - {x};
    }
    if y: string :| y in s && y != x {
      assert {x, y} <= s;
      SubsetSize({x, y}, s);
    }
  }

  lemma SubsetSize(a: set<string>, b: set<string>)
    requires a <= b
    ensures |a| <= |b|
  {
    assert b == a + (b - a);
  }

  lemma RecordedIsMember(locks: seq<Lock>, name: string, version: string)
    ensures Recorded(locks, name, version) <==> Package(name, version) in AllPackages(locks)
  {
  }

  lemma CrowdedIsDiverging(seen: map<string, Lines>, locks: seq<Lock>, name: string, v: string)
    requires Groups(seen, AllPackages(locks)) && name in seen
    ensures Crowded(seen[name], v) <==> Diverging(locks, name, v)
  {
    var line := CompatLine(v);
    RecordedIsMember(locks, name, v);
    if Crowded(seen[name], v) {
      var l :| l in seen[name] && v in seen[name][l] && |seen[name][l]| > 1;
      assert Has(seen, name, l, v);
      TwoMembers(seen[name][l], v);
      var other :| other in seen[name][l] && other != v;
      assert Has(seen, name, l, other);
      RecordedIsMember(locks, name, other);
    }
    if Diverging(locks, name, v) {
      var other :| other != v && Recorded(locks, name, other) && CompatLine(other) == line;
      RecordedIsMember(locks, name, other);
      assert Has(seen, name, line, v) && Has(seen, name, line, other);
      TwoMembers(seen[name][line], v);
    }
  }

  lemma LinesAreDisjoint(seen: map<string, Lines>, recorded: set<Package>, name: string)
    requires Groups(seen, recorded) && name in seen
    ensures forall l, m | l in seen[name] && m in seen[name] && l != m :: seen[name][l] !! seen[name][m]
  {
    forall l, m | l in seen[name] && m in seen[name] && l != m ensures seen[name][l] !! seen[name][m] {
      forall v ensures v !in seen[name][l] || v !in seen[name][m] {
        assert Has(seen, name, l, v) && Has(seen, name, m, v) ==> l == m;
      }
    }
  }

  predicate DivergenceLeq(a: Divergence, b: Divergence) { StringLeq(a.crate, b.crate) }

  /** `out`, in any order, covers exactly the diverging crates of `names`, each with an accurate record. */
  ghost predicate Covers(out: seq<Divergence>, names: set<string>, accurate: Divergence -> bool,
                         diverging: string -> bool)
  {
    && (forall i, j | 0 <= i < j < |out| :: out[i].crate != out[j].crate)
    && (forall name :: Mentions(out, name) <==> name in names && diverging(name))
    && (forall d | d in out :: accurate(d))
  }

  lemma CoversQuietCrate(out: seq<Divergence>, names: set<string>, accurate: Divergence -> bool,
                         diverging: string -> bool, name: string)
    requires Covers(out, names, accurate, diverging) && !diverging(name)
    ensures Covers(out, names + {name}, accurate, diverging)
  {
  }

  lemma CoversOneMore(out: seq<Divergence>, names: set<string>, accurate: Divergence -> bool,
                      diverging: string -> bool, d: Divergence)
    requires Covers(out, names, accurate, diverging) && d.crate !in names && accurate(d) && diverging(d.crate)
    ensures Covers(out + [d], names + {d.crate}, accurate, diverging)
  {
    var out' := out + [d];
    MentionsOneMore(out, d);
    forall i | 0 <= i < |out| ensures out[i].crate != d.crate {
      assert Mentions(out, out[i].crate);
    }
  }

  lemma MentionsOneMore(out: seq<Divergence>, d: Divergence)
    ensures forall e :: e in out + [d] <==> e in out || e == d
    ensures forall n :: Mentions(out + [d], n) <==> Mentions(out, n) || n == d.crate
  {
    assert d in out + [d];
  }

  method LockDivergences(locks: seq<Lock>) returns (out: seq<Divergence>)
    ensures IsReport(out, locks)
  {
    var seen := Collect(locks);
    ghost var accurate := d => Accurate(d, locks);
    ghost var diverging := name => DivergingCrate(locks, name);
    out := [];
    var rest := seen.Keys;
    while rest != {}
      invariant rest <= seen.Keys && Covers(out, seen.Keys - rest, accurate, diverging)
    {
      var name :| name in rest;
      LinesAreDisjoint(seen, AllPackages(locks), name);
      var versions := VersionsOf(seen[name]);
      forall v ensures v in versions <==> Diverging(locks, name, v) {
        CrowdedIsDiverging(seen, locks, name, v);
      }
      if versions == [] {
        CoversQuietCrate(out, seen.Keys - rest, accurate, diverging, name);
      } else {
        assert Diverging(locks, name, versions[0]);
        CoversOneMore(out, seen.Keys - rest, accurate, diverging, Divergence(name, versions));
        out := out + [Divergence(name, versions)];
      }
      assert seen.Keys - (rest - {name}) == seen.Keys - rest + {name};
      rest := rest - {name};
    }
    OnlySeenCratesDiverge(seen, locks);
    SortedReport(out, seen.Keys, locks);
    out := Sort(DivergenceLeq, out);
  }

  lemma OnlySeenCratesDiverge(seen: map<string, Lines>, locks: seq<Lock>)
    requires Groups(seen, AllPackages(locks))
    ensures forall name, v | Diverging(locks, name, v) :: name in seen
  {
    forall name, v | Diverging(locks, name, v) ensures name in seen {
      RecordedIsMember(locks, name, v);
      assert Has(seen, name, CompatLine(v), v);
    }
  }

  lemma SortedReport(out: seq<Divergence>, names: set<string>, locks: seq<Lock>)
    requires Covers(out, names, d => Accurate(d, locks), name => DivergingCrate(locks, name))
    requires forall name, v | Diverging(locks, name, v) :: name in names
    ensures IsReport(Sort(DivergenceLeq, out), locks)
  {
    var r := Sort(DivergenceLeq, out);
    StringOrder();
    SortSorts(DivergenceLeq, out);
    SortMembers(DivergenceLeq, out);
    SortKeepsDistinct(DivergenceLeq, out);
    forall i, j | 0 <= i < j < |r| ensures r[i].crate != r[j].crate {
      assert r[i] in out && r[j] in out && r[i] != r[j];
    }
    forall name ensures Mentions(r, name) <==> Mentions(out, name) {
    }
    forall name ensures Mentions(out, name) <==> DivergingCrate(locks, name) {
      if v :| Diverging(locks, name, v) { assert name in names; }
    }
  }

  // ---- What the report means ----

  /** Two locks lists that record the same packages have the same report: neither the order of the locks nor
      that of their packages matters, and a package recorded twice counts once. */
  lemma ReportIsDetermined(a: seq<Lock>, b: seq<Lock>, x: seq<Divergence>, y: seq<Divergence>)
    requires AllPackages(a) == AllPackages(b) && IsReport(x, a) && IsReport(y, b)
    ensures x == y
  {
    forall name, v ensures Diverging(a, name, v) <==> Diverging(b, name, v) {
      SameDivergence(a, b, name, v);
    }
    var cx, cy := Crates(x), Crates(y);
    forall name ensures name in cx <==> name in cy {
      assert Mentions(x, name) <==> Mentions(y, name);
    }
    StrictlySortedUnique(cx, cy);
    forall i | 0 <= i < |x| ensures x[i] == y[i] {
      assert x[i].crate == cx[i] == cy[i] == y[i].crate;
      assert x[i] in x && y[i] in y;
      StrictlySortedUnique(x[i].versions, y[i].versions);
    }
  }

  lemma SameDivergence(a: seq<Lock>, b: seq<Lock>, name: string, v: string)
    requires AllPackages(a) == AllPackages(b)
    ensures Diverging(a, name, v) <==> Diverging(b, name, v)
  {
    forall w ensures Recorded(a, name, w) <==> Recorded(b, name, w) {
      RecordedIsMember(a, name, w);
      RecordedIsMember(b, name, w);
    }
  }

  ghost function Crates(out: seq<Divergence>): (r: seq<string>)
    ensures |r| == |out| && forall i | 0 <= i < |r| :: r[i] == out[i].crate
    ensures forall name :: name in r <==> Mentions(out, name)
  {
    var r := seq(|out|, i requires 0 <= i < |out| => out[i].crate);
    assert forall i | 0 <= i < |out| :: out[i] in out && r[i] == out[i].crate;
    r
  }

  lemma PermutedLocks(a: seq<Lock>, b: seq<Lock>)
    requires multiset(a) == multiset(b)
    ensures AllPackages(a) == AllPackages(b)
  {
    forall l ensures l in a <==> l in b {
      assert l in multiset(a) <==> l in multiset(b);
    }
  }
}
