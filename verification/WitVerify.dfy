/** Comparing a component's embedded world with the canonical one (xtask/src/wit_verify.rs,
    `resolve_stage_from_world` and `compare_worlds`). */
module WitVerify {
  import opened Orders
  import opened Options
  import opened Text

  // ---- World models ----

  datatype InterfaceModel = InterfaceModel(decls: map<string, string>, uses: set<string>)

  datatype PackageModel = PackageModel(interfaces: map<string, InterfaceModel>, worlds: map<string, InterfaceModel>)

  datatype WorldModel = WorldModel(packages: map<string, PackageModel>)

  datatype Stage = Stage(id: string, witPackage: string, witInterface: string, qualifiedExport: string)

  /** The constants and the stage table of the schema crate. */
  datatype Schema = Schema(stages: seq<Stage>, shared: seq<string>, rootPackage: string,
                           preparationPackage: string, preparationExport: string)

  /** `strip_version`. */
  function Base(package: string): string { Before(package, '@') }

  function Nth(parts: seq<string>, i: nat, default: string): string {
    if i < |parts| then parts[i] else default
  }

  function VersionOf(package: string): Option<string> {
    var parts := Split(package, '@');
    if 1 < |parts| then Some(parts[1]) else None
  }

  /** The pinned package identity inside the preparation export `package/interface@version#function`. The
      source panics when the constant is not of that form; here a missing part reads as empty. */
  function PreparationIdentity(schema: Schema): string {
    match SplitOnce(schema.preparationExport, '/')
    case None => "@"
    case Some((package, rest)) => package + "@" + Before(Nth(Split(rest, '@'), 1, ""), '#')
  }

  ghost function SetOf(s: seq<string>): set<string> { set x | x in s }

  lemma SetOfOneMore(s: seq<string>, i: nat)
    requires i < |s|
    ensures SetOf(s[..i + 1]) == SetOf(s[..i]) + {s[i]}
  {
    TakeOneMore(s, i);
  }

  lemma SetOfAppend(s: seq<string>, t: seq<string>)
    ensures SetOf(s + t) == SetOf(s) + SetOf(t)
  {
  }

  lemma SetOfAll(s: seq<string>)
    ensures SetOf(s[..|s|]) == SetOf(s)
  {
    TakeAll(s);
  }

  /** The keys of an ordered map, in iteration order. */
  ghost function InOrder(s: set<string>): (r: seq<string>)
    ensures StrictlySorted(r)
    ensures forall x :: x in r <==> x in s
    decreases |s|
  {
    if s == {} then []
    else
      var x :| x in s;
      var r := SortDedup([x] + InOrder(s - {x}));
      SortDedupStrict([x] + InOrder(s - {x}));
      r
  }

  method OrderedKeys(s: set<string>) returns (r: seq<string>)
    ensures r == InOrder(s)
  {
    r := [];
    var rest := s;
    while rest != {}
      invariant rest <= s && forall x :: x in r <==> x in s - rest
    {
      var x :| x in rest;
      r := r + [x];
      rest := rest - {x};
    }
    SortDedupStrict(r);
    r := SortDedup(r);
    StrictlySortedUnique(r, InOrder(s));
  }

  /** `find` over ordered keys: the first package whose name without version is `base`. */
  function FirstNamed(keys: seq<string>, base: string): (r: Option<string>)
    ensures r.Some? ==> r.value in keys && Base(r.value) == base
    ensures r.None? ==> forall k | k in keys :: Base(k) != base
  {
    if keys == [] then None
    else if Base(keys[0]) == base then Some(keys[0])
    else FirstNamed(keys[1..], base)
  }

  ghost function PackageKey(world: WorldModel, base: string): (r: Option<string>)
    ensures r.Some? ==> r.value in world.packages && Base(r.value) == base
    ensures r.None? ==> forall k | k in world.packages :: Base(k) != base
  {
    FirstNamed(InOrder(world.packages.Keys), base)
  }

  // ---- Resolving the stage ----

  datatype Resolution = Resolved(stage: Stage) | NoStagePackage | Ambiguous(packages: seq<string>)
                      | UnknownPackage(package: string)

  /** Neither the root component, nor a shared import, nor the preparation package. */
  predicate IsCandidate(schema: Schema, k: string) {
    && Base(k) != Base(schema.rootPackage)
    && (forall s | s in schema.shared :: Base(s) != Base(k))
    && Base(k) != Base(schema.preparationPackage)
  }

  function Candidates(world: WorldModel, schema: Schema): set<string> {
    set k | k in world.packages && IsCandidate(schema, k)
  }

  predicate IsRow(stage: Stage, base: string) {
    stage.witPackage != "" && Base(stage.witPackage) == base
  }

  function FirstRow(stages: seq<Stage>, base: string): (r: Option<Stage>)
    ensures r.Some? ==> r.value in stages && IsRow(r.value, base)
    ensures r.None? ==> forall s | s in stages :: !IsRow(s, base)
  {
    if stages == [] then None else if IsRow(stages[0], base) then Some(stages[0]) else FirstRow(stages[1..], base)
  }

  function FirstWithId(stages: seq<Stage>, id: string): (r: Option<Stage>)
    ensures r.Some? ==> r.value in stages && r.value.id == id
    ensures r.None? ==> forall s | s in stages :: s.id != id
  {
    if stages == [] then None else if stages[0].id == id then Some(stages[0]) else FirstWithId(stages[1..], id)
  }

  /** `stage_expectation`: the row of that id, unless it has no package. */
  function StageExpectation(schema: Schema, id: string): Option<Stage> {
    match FirstWithId(schema.stages, id)
    case None => None
    case Some(stage) => if stage.witPackage == "" then None else Some(stage)
  }

  /** The answer for the only candidate `k`. */
  function ResolveCandidate(schema: Schema, k: string): Resolution {
    match FirstRow(schema.stages, Base(k))
    case None => UnknownPackage(k)
    case Some(row) =>
      match StageExpectation(schema, row.id)
      case None => UnknownPackage(k)
      case Some(stage) => Resolved(stage)
  }

  ghost function Resolve(world: WorldModel, schema: Schema): Resolution {
    var candidates := InOrder(Candidates(world, schema));
    if candidates == [] then NoStagePackage
    else if |candidates| == 1 then ResolveCandidate(schema, candidates[0])
    else Ambiguous(candidates)
  }

  /** The packages among `keys` that may be the stage, in the same order. */
  method CollectCandidates(keys: seq<string>, schema: Schema) returns (candidates: seq<string>)
    requires StrictlySorted(keys)
    ensures StrictlySorted(candidates)
    ensures forall k :: k in candidates <==> k in keys && IsCandidate(schema, k)
  {
    candidates := [];
    for i := 0 to |keys|
      invariant StrictlySorted(candidates)
      invariant forall k :: k in candidates <==> k in keys[..i] && IsCandidate(schema, k)
    {
      if IsCandidate(schema, keys[i]) {
        forall c | c in candidates ensures StringLeq(c, keys[i]) && c != keys[i] {
          assert c in keys[..i];
        }
        candidates := candidates + [keys[i]];
      }
    }
  }

  method ResolveStage(world: WorldModel, schema: Schema) returns (r: Resolution)
    ensures r == Resolve(world, schema)
  {
    var keys := OrderedKeys(world.packages.Keys);
    var candidates := CollectCandidates(keys, schema);
    StringOrder();
    SortOfSorted(StringLeq, candidates);
    candidates := Sort(StringLeq, candidates);
    StrictlySortedUnique(candidates, InOrder(Candidates(world, schema)));
    if |candidates| == 0 {
      r := NoStagePackage;
    } else if |candidates| == 1 {
      r := ResolveCandidate(schema, candidates[0]);
    } else {
      r := Ambiguous(candidates);
    }
  }

  /** Ids and packages identify the rows of the stage table. */
  ghost predicate DistinctRows(schema: Schema) {
    && (forall s, t | s in schema.stages && t in schema.stages :: s.id == t.id ==> s == t)
    && (forall s, t | s in schema.stages && t in schema.stages ::
          s.witPackage != "" && Base(s.witPackage) == Base(t.witPackage) ==> s == t)
  }

  lemma OnlyElement(s: set<string>, r: seq<string>)
    requires StrictlySorted(r) && forall x :: x in r <==> x in s
    ensures |r| == 0 <==> s == {}
    ensures |r| == 1 ==> s == {r[0]}
    ensures |r| > 1 <==> |s| > 1
  {
    if |r| == 0 { assert s == {}; }
    if |r| > 0 { assert r[0] in s; }
    if |r| > 1 {
      assert r[1] in s - {r[0]};
      assert |s| == 1 + |s - {r[0]}| && s - {r[0]} != {};
    }
  }

  lemma CandidateResolves(schema: Schema, stage: Stage, k: string)
    requires DistinctRows(schema) && stage in schema.stages
    ensures ResolveCandidate(schema, k) == Resolved(stage) <==> IsRow(stage, Base(k))
  {
  }

  /** A stage is resolved if and only if its package is the only candidate. */
  lemma ResolvedIffOnlyCandidate(world: WorldModel, schema: Schema, stage: Stage)
    requires DistinctRows(schema) && stage in schema.stages
    ensures Resolve(world, schema) == Resolved(stage)
       <==> stage.witPackage != "" && exists k :: Candidates(world, schema) == {k} && Base(stage.witPackage) == Base(k)
  {
    var candidates := InOrder(Candidates(world, schema));
    OnlyElement(Candidates(world, schema), candidates);
    if |candidates| == 1 { CandidateResolves(schema, stage, candidates[0]); }
    if k :| Candidates(world, schema) == {k} && Base(stage.witPackage) == Base(k) {
      assert candidates[0] in {k};
    }
  }

  /** The three ways of finding no stage. */
  lemma UnresolvedWorlds(world: WorldModel, schema: Schema, k: string)
    requires DistinctRows(schema)
    ensures Resolve(world, schema) == NoStagePackage <==> Candidates(world, schema) == {}
    ensures Resolve(world, schema).Ambiguous? <==> |Candidates(world, schema)| > 1
    ensures Resolve(world, schema) == UnknownPackage(k)
       <==> Candidates(world, schema) == {k} && NoRow(schema, k)
  {
    var candidates := InOrder(Candidates(world, schema));
    OnlyElement(Candidates(world, schema), candidates);
    if |candidates| == 1 {
      assert candidates[0] in candidates;
      UnknownIffNoRow(schema, candidates[0]);
    }
  }

  ghost predicate NoRow(schema: Schema, k: string) {
    forall s | s in schema.stages :: !IsRow(s, Base(k))
  }

  lemma UnknownIffNoRow(schema: Schema, k: string)
    requires DistinctRows(schema)
    ensures ResolveCandidate(schema, k) == UnknownPackage(k) <==> NoRow(schema, k)
    ensures ResolveCandidate(schema, k).UnknownPackage? || ResolveCandidate(schema, k).Resolved?
  {
  }

  /** The comparison never misses the stage package of a component whose own stage is expected. */
  lemma ResolvedStageIsFound(world: WorldModel, schema: Schema, stage: Stage)
    requires DistinctRows(schema) && Resolve(world, schema) == Resolved(stage)
    ensures StageFound(world, Some(stage))
  {
    var candidates := InOrder(Candidates(world, schema));
    assert candidates[0] in candidates;
    assert IsStage(Some(stage), candidates[0]);
  }

  // ---- Drifts ----

  datatype DriftKind = MissingDeclaration | ExtraDeclaration | DeclarationBody | MissingUse | ExtraUse
                     | UnexpectedPackage | MissingStagePackage | ExportName

  datatype Drift = Drift(kind: DriftKind, package: string, interface: Option<string>, name: string,
                         canonical: Option<string>, embedded: Option<string>)

  ghost function Elems(s: seq<Drift>): set<Drift> { set d | d in s }

  /** At most one drift, to be pushed. */
  function AsSeq(d: Option<Drift>): seq<Drift> { if d.Some? then [d.value] else [] }

  ghost function AsSet(d: Option<Drift>): set<Drift> { if d.Some? then {d.value} else {} }

  lemma Push(drifts: seq<Drift>, d: Option<Drift>)
    ensures Elems(drifts + AsSeq(d)) == Elems(drifts) + AsSet(d)
    ensures Elems(AsSeq(d)) == AsSet(d)
  {
  }

  // ---- Resource bodies ----

  const RESOURCE := "resource"

  /** The method names listed in a resource body. */
  function Methods(body: string): set<string> {
    if body == RESOURCE then {}
    else
      var inner := Trim(TrimEndMatches(TrimStartMatches(Trim(TrimStartMatches(body, RESOURCE)), "{"), '}'));
      if inner == "" || inner == RESOURCE then {}
      else set part | part in Split(inner, ',') && Trim(part) != "" :: Trim(part)
  }

  /** Both bodies are resources and the embedded one offers no other methods. */
  predicate ResourceSubset(canonical: string, embedded: string) {
    RESOURCE <= canonical && RESOURCE <= embedded && Methods(embedded) <= Methods(canonical)
  }

  // ---- Comparing one interface ----

  function ExtraDecl(p: string, i: string, name: string, body: string): Drift {
    Drift(ExtraDeclaration, p, Some(i), name, None, Some(body))
  }

  function MissingDecl(p: string, i: string, name: string, body: string): Drift {
    Drift(MissingDeclaration, p, Some(i), name, Some(body), None)
  }

  function ChangedDecl(p: string, i: string, name: string, canonical: string, embedded: string): Drift {
    Drift(DeclarationBody, p, Some(i), name, Some(canonical), Some(embedded))
  }

  function ExtraUseOf(p: string, i: string, u: string): Drift { Drift(ExtraUse, p, Some(i), u, None, Some(u)) }

  function MissingUseOf(p: string, i: string, u: string): Drift { Drift(MissingUse, p, Some(i), u, Some(u), None) }

  predicate BodyAccepted(full: bool, canonical: string, embedded: string) {
    canonical == embedded || (!full && ResourceSubset(canonical, embedded))
  }

  function SurplusDecl(p: string, i: string, emb: InterfaceModel, canon: InterfaceModel, full: bool, n: string)
    : Option<Drift>
  {
    if n !in emb.decls then None
    else if n !in canon.decls then Some(ExtraDecl(p, i, n, emb.decls[n]))
    else if BodyAccepted(full, canon.decls[n], emb.decls[n]) then None
    else Some(ChangedDecl(p, i, n, canon.decls[n], emb.decls[n]))
  }

  function SurplusUse(p: string, i: string, canon: InterfaceModel, u: string): Option<Drift> {
    if u in canon.uses then None else Some(ExtraUseOf(p, i, u))
  }

  function LackingDecl(p: string, i: string, emb: InterfaceModel, canon: InterfaceModel, n: string): Option<Drift> {
    if n in canon.decls && n !in emb.decls then Some(MissingDecl(p, i, n, canon.decls[n])) else None
  }

  function LackingUse(p: string, i: string, emb: InterfaceModel, u: string): Option<Drift> {
    if u in emb.uses then None else Some(MissingUseOf(p, i, u))
  }

  /** The drifts that `f` finds for the given names. */
  ghost function Found(names: set<string>, f: string -> Option<Drift>): set<Drift> {
    set n | n in names && f(n).Some? :: f(n).value
  }

  lemma FoundOneMore(names: set<string>, n: string, f: string -> Option<Drift>)
    ensures Found(names + {n}, f) == Found(names, f) + AsSet(f(n))
  {
  }

  /** Declarations and uses the embedded interface has too many of, or with another body. */
  ghost function Surplus(p: string, i: string, emb: InterfaceModel, canon: InterfaceModel, full: bool): set<Drift> {
    Found(emb.decls.Keys, n => SurplusDecl(p, i, emb, canon, full, n))
    + Found(emb.uses, u => SurplusUse(p, i, canon, u))
  }

  /** Declarations and uses the embedded interface lacks. */
  ghost function Lacking(p: string, i: string, emb: InterfaceModel, canon: InterfaceModel): set<Drift> {
    Found(canon.decls.Keys, n => LackingDecl(p, i, emb, canon, n))
    + Found(canon.uses, u => LackingUse(p, i, emb, u))
  }

  const EMPTY := InterfaceModel(map[], {})

  lemma AppendElems(a: seq<Drift>, b: seq<Drift>)
    ensures Elems(a + b) == Elems(a) + Elems(b)
  {
  }

  method SurplusDrifts(p: string, i: string, emb: InterfaceModel, canon: InterfaceModel, full: bool)
    returns (drifts: seq<Drift>)
    ensures Elems(drifts) == Surplus(p, i, emb, canon, full)
  {
    drifts := [];
    ghost var decl := n => SurplusDecl(p, i, emb, canon, full, n);
    ghost var done: set<string> := {};
    var names := emb.decls.Keys;
    while names != {}
      invariant names !! done && done + names == emb.decls.Keys
      invariant Elems(drifts) == Found(done, decl)
    {
      var name :| name in names;
      FoundOneMore(done, name, decl);
      names, done := names - {name}, done + {name};
      var body := emb.decls[name];
      ghost var before := drifts;
      if name !in canon.decls {
        drifts := drifts + [ExtraDecl(p, i, name, body)];
      } else if canon.decls[name] != body && (full || !ResourceSubset(canon.decls[name], body)) {
        drifts := drifts + [ChangedDecl(p, i, name, canon.decls[name], body)];
      }
      AppendElems(before, drifts[|before|..]);
      assert drifts == before + drifts[|before|..];
    }
    var more := UseDrifts(emb.uses, canon.uses, u => ExtraUseOf(p, i, u));
    AppendElems(drifts, more);
    drifts := drifts + more;
    assert Found(emb.uses, u => SurplusUse(p, i, canon, u))
        == set u | u in emb.uses && u !in canon.uses :: ExtraUseOf(p, i, u);
  }

  /** One drift for every use on one side that the other side does not have. */
  method UseDrifts(here: set<string>, there: set<string>, drift: string -> Drift) returns (drifts: seq<Drift>)
    ensures Elems(drifts) == set u | u in here && u !in there :: drift(u)
  {
    drifts := [];
    var uses := here;
    while uses != {}
      invariant uses <= here
      invariant Elems(drifts) == set u | u in here - uses && u !in there :: drift(u)
    {
      var u :| u in uses;
      uses := uses - {u};
      if u !in there {
        AppendElems(drifts, [drift(u)]);
        drifts := drifts + [drift(u)];
      }
    }
  }

  method LackingDrifts(p: string, i: string, emb: InterfaceModel, canon: InterfaceModel)
    returns (drifts: seq<Drift>)
    ensures Elems(drifts) == Lacking(p, i, emb, canon)
  {
    drifts := [];
    ghost var decl := n => LackingDecl(p, i, emb, canon, n);
    ghost var done: set<string> := {};
    var names := canon.decls.Keys;
    while names != {}
      invariant names !! done && done + names == canon.decls.Keys
      invariant Elems(drifts) == Found(done, decl)
    {
      var name :| name in names;
      FoundOneMore(done, name, decl);
      names, done := names - {name}, done + {name};
      if name !in emb.decls {
        AppendElems(drifts, [MissingDecl(p, i, name, canon.decls[name])]);
        drifts := drifts + [MissingDecl(p, i, name, canon.decls[name])];
      }
    }
    var more := UseDrifts(canon.uses, emb.uses, u => MissingUseOf(p, i, u));
    AppendElems(drifts, more);
    drifts := drifts + more;
    assert Found(canon.uses, u => LackingUse(p, i, emb, u))
        == set u | u in canon.uses && u !in emb.uses :: MissingUseOf(p, i, u);
  }

  // ---- Comparing one package ----

  function At(package: Option<PackageModel>, i: string): InterfaceModel {
    if package.Some? && i in package.value.interfaces then package.value.interfaces[i] else EMPTY
  }

  predicate IsPreparation(schema: Schema, k: string) {
    Base(k) == Base(schema.preparationPackage)
  }

  predicate IsStage(expected: Option<Stage>, k: string) {
    expected.Some? && Base(expected.value.witPackage) == Base(k)
  }

  /** Interfaces that must agree in both directions: the exported stage interface and every preparation one. */
  predicate Full(schema: Schema, expected: Option<Stage>, k: string, i: string) {
    (IsStage(expected, k) && i == expected.value.witInterface) || IsPreparation(schema, k)
  }

  predicate Allowed(canonical: WorldModel, expected: Option<Stage>, schema: Schema, base: string) {
    || base == Base(schema.rootPackage)
    || base == Base(schema.preparationPackage)
    || (exists s | s in schema.shared :: Base(s) == base)
    || (if expected.Some? then Base(expected.value.witPackage) == base
        else exists k | k in canonical.packages :: Base(k) == base)
  }

  ghost function CanonicalPackage(canonical: WorldModel, k: string): Option<PackageModel> {
    match PackageKey(canonical, Base(k))
    case None => None
    case Some(key) => Some(canonical.packages[key])
  }

  ghost function InterfaceDrifts(k: string, i: string, emb: InterfaceModel, canon: InterfaceModel, full: bool)
    : set<Drift>
  {
    Surplus(k, i, emb, canon, full) + (if full then Lacking(k, i, emb, canon) else {})
  }

  /** The drifts that `f` finds for each of the given names. */
  ghost function FoundAll(names: set<string>, f: string -> set<Drift>): set<Drift> {
    set n, d | n in names && d in f(n) :: d
  }

  lemma FoundAllOneMore(names: set<string>, n: string, f: string -> set<Drift>)
    ensures FoundAll(names + {n}, f) == FoundAll(names, f) + f(n)
  {
  }

  function Unexpected(k: string, canonical: Option<string>): Drift {
    Drift(UnexpectedPackage, k, None, k, canonical, Some(k))
  }

  ghost function SurfaceDrifts(k: string, emb: PackageModel, canon: Option<PackageModel>, expected: Option<Stage>,
                               schema: Schema) : set<Drift>
  {
    FoundAll(emb.interfaces.Keys, i =>
      InterfaceDrifts(k, i, At(Some(emb), i), At(canon, i), Full(schema, expected, k, i)))
    + FoundAll(MissingInterfaces(k, emb, canon, expected, schema), i => Lacking(k, i, EMPTY, At(canon, i)))
  }

  /** Canonical interfaces of this package that must be there and are not. */
  ghost function MissingInterfaces(k: string, emb: PackageModel, canon: Option<PackageModel>, expected: Option<Stage>,
                                   schema: Schema) : set<string>
  {
    if canon.None? then {}
    else set i | i in canon.value.interfaces && i !in emb.interfaces && Full(schema, expected, k, i)
  }

  ghost function PackageDrifts(k: string, embedded: WorldModel, canonical: WorldModel, expected: Option<Stage>,
                               schema: Schema) : set<Drift>
    requires k in embedded.packages
  {
    var identity := PreparationIdentity(schema);
    if IsPreparation(schema, k) && (k != identity || identity !in canonical.packages) then
      {Unexpected(k, Some(identity))}
    else if !Allowed(canonical, expected, schema, Base(k)) then {Unexpected(k, None)}
    else if Base(k) == Base(schema.rootPackage) then {}
    else SurfaceDrifts(k, embedded.packages[k], CanonicalPackage(canonical, k), expected, schema)
  }

  method CompareInterface(k: string, i: string, emb: InterfaceModel, canon: Option<InterfaceModel>, full: bool)
    returns (drifts: seq<Drift>)
    ensures Elems(drifts) == InterfaceDrifts(k, i, emb, if canon.Some? then canon.value else EMPTY, full)
  {
    match canon {
      case None =>
        // nothing is known of this interface: everything embedded is surplus
        drifts := SurplusDrifts(k, i, emb, EMPTY, full);
      case Some(c) =>
        drifts := SurplusDrifts(k, i, emb, c, full);
        if full {
          var lacking := LackingDrifts(k, i, emb, c);
          AppendElems(drifts, lacking);
          drifts := drifts + lacking;
        }
    }
  }

  method CompareInterfaces(k: string, emb: PackageModel, canon: Option<PackageModel>, expected: Option<Stage>,
                           schema: Schema) returns (drifts: seq<Drift>)
    ensures Elems(drifts) == FoundAll(emb.interfaces.Keys, i =>
              InterfaceDrifts(k, i, At(Some(emb), i), At(canon, i), Full(schema, expected, k, i)))
  {
    ghost var f := i => InterfaceDrifts(k, i, At(Some(emb), i), At(canon, i), Full(schema, expected, k, i));
    drifts := [];
    ghost var done: set<string> := {};
    var names := emb.interfaces.Keys;
    while names != {}
      invariant names !! done && done + names == emb.interfaces.Keys
      invariant Elems(drifts) == FoundAll(done, f)
    {
      var i :| i in names;
      FoundAllOneMore(done, i, f);
      names, done := names - {i}, done + {i};
      var known := if canon.Some? && i in canon.value.interfaces then Some(canon.value.interfaces[i]) else None;
      var more := CompareInterface(k, i, emb.interfaces[i], known, Full(schema, expected, k, i));
      AppendElems(drifts, more);
      drifts := drifts + more;
    }
  }

  /** The whole canonical surface of a preparation package is mandatory once the package is present. */
  method MissingPreparation(k: string, emb: PackageModel, canon: PackageModel) returns (drifts: seq<Drift>)
    ensures Elems(drifts) == FoundAll((set i | i in canon.interfaces && i !in emb.interfaces),
                                      i => Lacking(k, i, EMPTY, At(Some(canon), i)))
  {
    ghost var f := i => Lacking(k, i, EMPTY, At(Some(canon), i));
    drifts := [];
    ghost var done: set<string> := {};
    var names := canon.interfaces.Keys - emb.interfaces.Keys;
    assert names == set i | i in canon.interfaces && i !in emb.interfaces;
    ghost var all := names;
    while names != {}
      invariant names !! done && done + names == all && names <= canon.interfaces.Keys
      invariant Elems(drifts) == FoundAll(done, f)
    {
      var i :| i in names;
      FoundAllOneMore(done, i, f);
      names, done := names - {i}, done + {i};
      var more := LackingDrifts(k, i, EMPTY, canon.interfaces[i]);
      AppendElems(drifts, more);
      drifts := drifts + more;
    }
  }

  /** The exported stage interface may not be absent; `reported` are the drifts found so far. */
  method MissingStageInterface(k: string, emb: PackageModel, canon: Option<PackageModel>, stage: Stage,
                               reported: seq<Drift>) returns (drifts: seq<Drift>)
    requires forall d | d in reported :: d.kind != MissingStagePackage
    ensures Elems(drifts) == if stage.witInterface in emb.interfaces then {}
                             else Lacking(k, stage.witInterface, EMPTY, At(canon, stage.witInterface))
  {
    drifts := [];
    if stage.witInterface !in emb.interfaces && canon.Some? && stage.witInterface in canon.value.interfaces {
      var alreadyMissingStage := exists d | d in reported ::
        d.kind == MissingStagePackage && d.package == stage.witPackage;
      if !alreadyMissingStage {
        drifts := LackingDrifts(k, stage.witInterface, EMPTY, canon.value.interfaces[stage.witInterface]);
      }
    }
  }

  ghost function AbsentPreparation(k: string, emb: PackageModel, canon: Option<PackageModel>, schema: Schema)
    : set<Drift>
  {
    if IsPreparation(schema, k) && canon.Some?
    then FoundAll((set i | i in canon.value.interfaces && i !in emb.interfaces),
                  i => Lacking(k, i, EMPTY, At(canon, i)))
    else {}
  }

  ghost function AbsentStageInterface(k: string, emb: PackageModel, canon: Option<PackageModel>,
                                      expected: Option<Stage>) : set<Drift>
  {
    if IsStage(expected, k) && expected.value.witInterface !in emb.interfaces
    then Lacking(k, expected.value.witInterface, EMPTY, At(canon, expected.value.witInterface)) else {}
  }

  /** What the two passes over absent interfaces add, whichever of them run. */
  lemma MissingSurfaces(k: string, emb: PackageModel, canon: Option<PackageModel>, expected: Option<Stage>,
                        schema: Schema)
    ensures FoundAll(MissingInterfaces(k, emb, canon, expected, schema), i => Lacking(k, i, EMPTY, At(canon, i)))
         == AbsentPreparation(k, emb, canon, schema) + AbsentStageInterface(k, emb, canon, expected)
  {
    var f := i => Lacking(k, i, EMPTY, At(canon, i));
    var missing := MissingInterfaces(k, emb, canon, expected, schema);
    if IsStage(expected, k) {
      var e := expected.value.witInterface;
      if canon.None? || e !in canon.value.interfaces {
        assert f(e) == {};
      } else if e !in emb.interfaces {
        assert missing == missing + {e};
        FoundAllOneMore(missing, e, f);
      }
      if !IsPreparation(schema, k) {
        OnlyOne(missing, e, f);
      }
    }
  }

  lemma OnlyOne(names: set<string>, e: string, f: string -> set<Drift>)
    requires names <= {e}
    ensures FoundAll(names, f) == if e in names then f(e) else {}
  {
    assert names == {} || names == {e};
  }

  method ComparePreparation(k: string, emb: PackageModel, canon: Option<PackageModel>, schema: Schema)
    returns (drifts: seq<Drift>)
    ensures Elems(drifts) == AbsentPreparation(k, emb, canon, schema)
  {
    drifts := [];
    if IsPreparation(schema, k) && canon.Some? {
      drifts := MissingPreparation(k, emb, canon.value);
      assert canon == Some(canon.value);
    }
  }

  method CompareStageInterface(k: string, emb: PackageModel, canon: Option<PackageModel>, expected: Option<Stage>,
                               reported: seq<Drift>) returns (drifts: seq<Drift>)
    requires IsStage(expected, k) ==> NoMissingStage(Elems(reported))
    ensures Elems(drifts) == AbsentStageInterface(k, emb, canon, expected)
  {
    drifts := [];
    if IsStage(expected, k) {
      forall d | d in reported ensures d.kind != MissingStagePackage { assert d in Elems(reported); }
      drifts := MissingStageInterface(k, emb, canon, expected.value, reported);
    }
  }

  lemma ReportedSoFar(k: string, emb: PackageModel, canon: Option<PackageModel>, expected: Option<Stage>,
                      schema: Schema, reported: seq<Drift>, more: seq<Drift>)
    requires NoMissingStage(Elems(reported)) && Elems(more) <= SurfaceDrifts(k, emb, canon, expected, schema)
    ensures NoMissingStage(Elems(reported + more))
  {
    SurfaceKinds(k, emb, canon, expected, schema);
    AppendElems(reported, more);
  }

  method CompareSurfaces(k: string, emb: PackageModel, canon: Option<PackageModel>, expected: Option<Stage>,
                         schema: Schema, reported: seq<Drift>) returns (drifts: seq<Drift>)
    requires IsStage(expected, k) ==> NoMissingStage(Elems(reported))
    ensures Elems(drifts) == SurfaceDrifts(k, emb, canon, expected, schema)
  {
    drifts := CompareInterfaces(k, emb, canon, expected, schema);
    var absent := ComparePreparation(k, emb, canon, schema);
    AppendElems(drifts, absent);
    drifts := drifts + absent;
    MissingSurfaces(k, emb, canon, expected, schema);
    if IsStage(expected, k) { ReportedSoFar(k, emb, canon, expected, schema, reported, drifts); }
    var stage := CompareStageInterface(k, emb, canon, expected, reported + drifts);
    AppendElems(drifts, stage);
    drifts := drifts + stage;
  }

  ghost predicate NoMissingStage(drifts: set<Drift>) {
    forall d | d in drifts :: d.kind != MissingStagePackage
  }

  lemma InterfaceKinds(k: string, i: string, emb: InterfaceModel, canon: InterfaceModel, full: bool)
    ensures NoMissingStage(Surplus(k, i, emb, canon, full)) && NoMissingStage(Lacking(k, i, emb, canon))
  {
  }

  lemma SurfaceKinds(k: string, emb: PackageModel, canon: Option<PackageModel>, expected: Option<Stage>,
                     schema: Schema)
    ensures NoMissingStage(SurfaceDrifts(k, emb, canon, expected, schema))
  {
    forall i ensures NoMissingStage(InterfaceDrifts(k, i, At(Some(emb), i), At(canon, i), Full(schema, expected, k, i)))
    {
      InterfaceKinds(k, i, At(Some(emb), i), At(canon, i), Full(schema, expected, k, i));
    }
    forall i ensures NoMissingStage(Lacking(k, i, EMPTY, At(canon, i))) {
      InterfaceKinds(k, i, EMPTY, At(canon, i), true);
    }
  }

  method FindPackage(world: WorldModel, base: string) returns (key: Option<string>)
    ensures key == PackageKey(world, base)
  {
    var keys := OrderedKeys(world.packages.Keys);
    key := FirstNamed(keys, base);
  }

  method ComparePackage(k: string, embedded: WorldModel, canonical: WorldModel, expected: Option<Stage>,
                        schema: Schema, reported: seq<Drift>) returns (drifts: seq<Drift>)
    requires k in embedded.packages
    requires IsStage(expected, k) ==> NoMissingStage(Elems(reported))
    ensures Elems(drifts) == PackageDrifts(k, embedded, canonical, expected, schema)
  {
    var identity := PreparationIdentity(schema);
    if IsPreparation(schema, k) && (k != identity || identity !in canonical.packages) {
      return [Unexpected(k, Some(identity))];
    }
    if !Allowed(canonical, expected, schema, Base(k)) {
      return [Unexpected(k, None)];
    }
    if Base(k) == Base(schema.rootPackage) {
      return [];
    }
    var key := FindPackage(canonical, Base(k));
    var canon := if key.Some? then Some(canonical.packages[key.value]) else None;
    drifts := CompareSurfaces(k, embedded.packages[k], canon, expected, schema, reported);
  }

  // ---- Exports ----

  /** The worlds that count: those of the first root component, or all of them when there is none. */
  ghost function CountingWorlds(embedded: WorldModel, schema: Schema): set<InterfaceModel> {
    match PackageKey(embedded, schema.rootPackage)
    case Some(root) => embedded.packages[root].worlds.Values
    case None => set k, w | k in embedded.packages && w in embedded.packages[k].worlds
                   :: embedded.packages[k].worlds[w]
  }

  function InterfaceText(identity: string): string { Before(identity, '#') }

  predicate Exports(world: InterfaceModel, interface: string) {
    var name := "export " + interface;
    name in world.decls && world.decls[name] == "interface:" + interface
  }

  predicate Names(world: InterfaceModel, interface: string) {
    "export " + interface in world.decls
  }

  predicate HasPreparation(embedded: WorldModel, schema: Schema) {
    exists k | k in embedded.packages :: IsPreparation(schema, k)
  }

  /** The exports the embedded component must offer. */
  ghost function Required(embedded: WorldModel, expected: Option<Stage>, schema: Schema): set<string> {
    SetOf(if expected.Some? && CountingWorlds(embedded, schema) != {} then [expected.value.qualifiedExport] else [])
    + SetOf(if HasPreparation(embedded, schema) then [schema.preparationExport] else [])
  }

  function AbsentExport(identity: string): Drift {
    Drift(ExportName, Before(InterfaceText(identity), '/'), None, identity, Some(identity), None)
  }

  predicate Present(identity: string, worlds: set<InterfaceModel>, expected: Option<Stage>) {
    exists w | w in worlds ::
      && Exports(w, InterfaceText(identity))
      && (expected.Some? ==> Names(w, InterfaceText(expected.value.qualifiedExport)))
  }

  function RequiredDrift(identity: string, worlds: set<InterfaceModel>, expected: Option<Stage>): Option<Drift> {
    if Present(identity, worlds, expected) then None else Some(AbsentExport(identity))
  }

  ghost function RequiredDrifts(embedded: WorldModel, expected: Option<Stage>, schema: Schema): set<Drift> {
    Found(Required(embedded, expected, schema), x => RequiredDrift(x, CountingWorlds(embedded, schema), expected))
  }

  method CollectWorlds(embedded: WorldModel, schema: Schema) returns (worlds: set<InterfaceModel>)
    ensures worlds == CountingWorlds(embedded, schema)
  {
    var root := FindPackage(embedded, schema.rootPackage);
    if root.Some? {
      worlds := embedded.packages[root.value].worlds.Values;
    } else {
      worlds := set k, w | k in embedded.packages && w in embedded.packages[k].worlds
                  :: embedded.packages[k].worlds[w];
    }
  }

  method CollectRequired(embedded: WorldModel, expected: Option<Stage>, schema: Schema, worlds: set<InterfaceModel>)
    returns (required: seq<string>)
    requires worlds == CountingWorlds(embedded, schema)
    ensures SetOf(required) == Required(embedded, expected, schema)
  {
    var stageExport := if expected.Some? && worlds != {} then [expected.value.qualifiedExport] else [];
    var preparationExport := if HasPreparation(embedded, schema) then [schema.preparationExport] else [];
    required := stageExport + preparationExport;
    SetOfAppend(stageExport, preparationExport);
  }

  method CompareRequired(embedded: WorldModel, expected: Option<Stage>, schema: Schema) returns (drifts: seq<Drift>)
    ensures Elems(drifts) == RequiredDrifts(embedded, expected, schema)
  {
    var worlds := CollectWorlds(embedded, schema);
    var required := CollectRequired(embedded, expected, schema, worlds);
    ghost var f := x => RequiredDrift(x, worlds, expected);
    drifts := [];
    for i := 0 to |required|
      invariant Elems(drifts) == Found(SetOf(required[..i]), f)
    {
      SetOfOneMore(required, i);
      FoundOneMore(SetOf(required[..i]), required[i], f);
      var absent := RequiredDrift(required[i], worlds, expected);
      Push(drifts, absent);
      drifts := drifts + AsSeq(absent);
    }
    SetOfAll(required);
  }

  /** `base/interface@version#func`. */
  function QualifiedText(base: string, interface: string, version: string, func: string): string {
    base + "/" + interface + "@" + version + "#" + func
  }

  function FuncOf(stage: Stage): string { Nth(Split(stage.qualifiedExport, '#'), 1, "run") }

  /** The export identity of the stage in package `k` at some version. */
  function ExportAt(k: string, stage: Stage, version: string): string {
    QualifiedText(Base(k), stage.witInterface, version, FuncOf(stage))
  }

  function Derived(k: string, stage: Stage): string { ExportAt(k, stage, VersionText(k)) }

  function OtherExport(k: string, stage: Stage, canonical: string): Drift {
    Drift(ExportName, k, Some(stage.witInterface), stage.qualifiedExport, Some(canonical), Some(Derived(k, stage)))
  }

  function VersionText(k: string): string {
    if VersionOf(k).Some? then VersionOf(k).value else ""
  }

  /** The version of the canonical package that goes by the name of `k`, when it carries another one. */
  ghost function OtherCanonicalVersion(k: string, canonical: WorldModel): Option<string> {
    match PackageKey(canonical, Base(k))
    case None => None
    case Some(key) =>
      if VersionOf(key).Some? && VersionOf(key).value != VersionText(k) then VersionOf(key) else None
  }

  function NameDrift(k: string, stage: Stage): Option<Drift> {
    if Derived(k, stage) != stage.qualifiedExport then Some(OtherExport(k, stage, stage.qualifiedExport)) else None
  }

  ghost function VersionDrift(k: string, stage: Stage, canonical: WorldModel): Option<Drift> {
    match OtherCanonicalVersion(k, canonical)
    case None => None
    case Some(version) => Some(OtherExport(k, stage, ExportAt(k, stage, version)))
  }

  ghost function ExportDriftsOf(k: string, stage: Stage, canonical: WorldModel): set<Drift> {
    AsSet(NameDrift(k, stage)) + AsSet(VersionDrift(k, stage, canonical))
  }

  ghost function ExportDrifts(embedded: WorldModel, canonical: WorldModel, expected: Option<Stage>): set<Drift> {
    if expected.None? then {}
    else
      match PackageKey(embedded, Base(expected.value.witPackage))
      case None => {}
      case Some(k) => ExportDriftsOf(k, expected.value, canonical)
  }

  method CompareExportsOf(k: string, stage: Stage, canonical: WorldModel) returns (drifts: seq<Drift>)
    ensures Elems(drifts) == ExportDriftsOf(k, stage, canonical)
  {
    var name: Option<Drift>, other: Option<Drift> := None, None;
    var embVersion, expVersion := VersionText(k), VersionText(stage.witPackage);
    var derived := Derived(k, stage);
    if derived != stage.qualifiedExport {
      if expVersion != embVersion || derived != stage.qualifiedExport {
        name := Some(OtherExport(k, stage, stage.qualifiedExport));
      }
    }
    var key := FindPackage(canonical, Base(k));
    if key.Some? && VersionOf(key.value).Some? {
      var version := VersionOf(key.value).value;
      if version != embVersion {
        other := Some(OtherExport(k, stage, ExportAt(k, stage, version)));
      }
    }
    Push([], name);
    Push(AsSeq(name), other);
    drifts := AsSeq(name) + AsSeq(other);
  }

  method CompareExports(embedded: WorldModel, canonical: WorldModel, expected: Option<Stage>)
    returns (drifts: seq<Drift>)
    ensures Elems(drifts) == ExportDrifts(embedded, canonical, expected)
  {
    if expected.None? { return []; }
    var k := FindPackage(embedded, Base(expected.value.witPackage));
    if k.None? { return []; }
    drifts := CompareExportsOf(k.value, expected.value, canonical);
  }

  // ---- The whole comparison ----

  function AbsentStage(stage: Stage): Drift {
    Drift(MissingStagePackage, stage.witPackage, None, stage.witPackage, Some(stage.witPackage), None)
  }

  predicate StageFound(embedded: WorldModel, expected: Option<Stage>) {
    exists k | k in embedded.packages :: IsStage(expected, k)
  }

  function StageDrift(embedded: WorldModel, expected: Option<Stage>): Option<Drift> {
    if expected.Some? && !StageFound(embedded, expected) then Some(AbsentStage(expected.value)) else None
  }

  /** Everything the comparison reports. */
  ghost function AllDrifts(embedded: WorldModel, canonical: WorldModel, expected: Option<Stage>, schema: Schema)
    : set<Drift>
  {
    RequiredDrifts(embedded, expected, schema)
    + AsSet(StageDrift(embedded, expected))
    + FoundAll(embedded.packages.Keys, k => OnePackage(k, embedded, canonical, expected, schema))
    + ExportDrifts(embedded, canonical, expected)
  }

  ghost function OnePackage(k: string, embedded: WorldModel, canonical: WorldModel, expected: Option<Stage>,
                            schema: Schema) : set<Drift>
  {
    if k in embedded.packages then PackageDrifts(k, embedded, canonical, expected, schema) else {}
  }

  lemma UnexpectedKind(k: string, wanted: Option<string>)
    ensures NoMissingStage({Unexpected(k, wanted)})
  {
  }

  /** A package has surface drifts, or is itself unexpected, or is skipped. */
  lemma PackageDriftsAre(k: string, embedded: WorldModel, canonical: WorldModel, expected: Option<Stage>,
                         schema: Schema) returns (wanted: Option<string>)
    requires k in embedded.packages
    ensures var drifts := PackageDrifts(k, embedded, canonical, expected, schema);
            || drifts == SurfaceDrifts(k, embedded.packages[k], CanonicalPackage(canonical, k), expected, schema)
            || drifts == {Unexpected(k, wanted)}
            || drifts == {}
  {
    var identity := PreparationIdentity(schema);
    wanted := if IsPreparation(schema, k) && (k != identity || identity !in canonical.packages) then Some(identity)
              else None;
  }

  lemma PackageKinds(k: string, embedded: WorldModel, canonical: WorldModel, expected: Option<Stage>, schema: Schema)
    ensures NoMissingStage(OnePackage(k, embedded, canonical, expected, schema))
  {
    if k in embedded.packages {
      var wanted := PackageDriftsAre(k, embedded, canonical, expected, schema);
      UnexpectedKind(k, wanted);
      SurfaceKinds(k, embedded.packages[k], CanonicalPackage(canonical, k), expected, schema);
    }
  }

  method CompareWorlds(embedded: WorldModel, canonical: WorldModel, expected: Option<Stage>, schema: Schema)
    returns (drifts: seq<Drift>)
    ensures Elems(drifts) == AllDrifts(embedded, canonical, expected, schema)
    ensures drifts == [] <==> Accepts(embedded, canonical, expected, schema)
  {
    drifts := CompareRequired(embedded, expected, schema);
    var absent := StageDrift(embedded, expected);
    Push(drifts, absent);
    drifts := drifts + AsSeq(absent);
    if StageFound(embedded, expected) {
      RequiredKinds(embedded, expected, schema);
    }
    var packages := ComparePackages(embedded, canonical, expected, schema, drifts);
    AppendElems(drifts, packages);
    drifts := drifts + packages;
    var exported := CompareExports(embedded, canonical, expected);
    AppendElems(drifts, exported);
    drifts := drifts + exported;
    EmptyElems(drifts);
    AcceptsIffNoDrift(embedded, canonical, expected, schema);
  }

  lemma EmptyElems(drifts: seq<Drift>)
    ensures drifts == [] <==> Elems(drifts) == {}
  {
    if drifts != [] { assert drifts[0] in Elems(drifts); }
  }

  lemma RequiredKinds(embedded: WorldModel, expected: Option<Stage>, schema: Schema)
    ensures NoMissingStage(RequiredDrifts(embedded, expected, schema))
  {
  }

  method AddPackage(k: string, embedded: WorldModel, canonical: WorldModel, expected: Option<Stage>, schema: Schema,
                    reported: seq<Drift>, drifts: seq<Drift>) returns (drifts': seq<Drift>)
    requires k in embedded.packages
    requires StageFound(embedded, expected) ==> NoMissingStage(Elems(reported))
    requires NoMissingStage(Elems(drifts))
    ensures NoMissingStage(Elems(drifts'))
    ensures Elems(drifts') == Elems(drifts) + OnePackage(k, embedded, canonical, expected, schema)
  {
    AppendElems(reported, drifts);
    PackageKinds(k, embedded, canonical, expected, schema);
    var more := ComparePackage(k, embedded, canonical, expected, schema, reported + drifts);
    AppendElems(drifts, more);
    drifts' := drifts + more;
  }

  method ComparePackages(embedded: WorldModel, canonical: WorldModel, expected: Option<Stage>, schema: Schema,
                         reported: seq<Drift>) returns (drifts: seq<Drift>)
    requires StageFound(embedded, expected) ==> NoMissingStage(Elems(reported))
    ensures Elems(drifts)
         == FoundAll(embedded.packages.Keys, k => OnePackage(k, embedded, canonical, expected, schema))
  {
    drifts := [];
    ghost var f := k => OnePackage(k, embedded, canonical, expected, schema);
    var keys := OrderedKeys(embedded.packages.Keys);
    for i := 0 to |keys|
      invariant NoMissingStage(Elems(drifts))
      invariant Elems(drifts) == FoundAll(SetOf(keys[..i]), f)
    {
      SetOfOneMore(keys, i);
      FoundAllOneMore(SetOf(keys[..i]), keys[i], f);
      drifts := AddPackage(keys[i], embedded, canonical, expected, schema, reported, drifts);
    }
    SetOfAll(keys);
    assert SetOf(keys) == embedded.packages.Keys;
  }

  // ---- What acceptance means ----

  /** Everything embedded is canonical; resources may offer fewer methods. */
  predicate SubInterface(emb: InterfaceModel, canon: InterfaceModel) {
    && (forall n | n in emb.decls ::
          n in canon.decls && (canon.decls[n] == emb.decls[n] || ResourceSubset(canon.decls[n], emb.decls[n])))
    && emb.uses <= canon.uses
  }

  predicate SurfaceAccepted(emb: InterfaceModel, canon: InterfaceModel, full: bool) {
    if full then emb == canon else SubInterface(emb, canon)
  }

  /** A missing interface counts as an empty one, on either side. */
  ghost predicate PackageAccepted(k: string, embedded: WorldModel, canonical: WorldModel, expected: Option<Stage>,
                                  schema: Schema)
  {
    && (IsPreparation(schema, k) ==> k == PreparationIdentity(schema) && k in canonical.packages)
    && Allowed(canonical, expected, schema, Base(k))
    && (Base(k) != Base(schema.rootPackage) ==>
          SurfacesAccepted(k, Package(embedded, k), CanonicalPackage(canonical, k), expected, schema))
  }

  function Package(world: WorldModel, k: string): Option<PackageModel> {
    if k in world.packages then Some(world.packages[k]) else None
  }

  ghost predicate SurfacesAccepted(k: string, emb: Option<PackageModel>, canon: Option<PackageModel>,
                                   expected: Option<Stage>, schema: Schema)
  {
    forall i :: SurfaceAccepted(At(emb, i), At(canon, i), Full(schema, expected, k, i))
  }

  /** The first package of the stage exports what is expected, at the version the canonical set has. */
  ghost predicate VersionsAgree(embedded: WorldModel, canonical: WorldModel, expected: Option<Stage>) {
    expected.Some? ==>
      match PackageKey(embedded, Base(expected.value.witPackage))
      case None => true
      case Some(k) =>
        && Derived(k, expected.value) == expected.value.qualifiedExport
        && OtherCanonicalVersion(k, canonical) == None
  }

  ghost predicate AllPresent(embedded: WorldModel, expected: Option<Stage>, schema: Schema) {
    forall x | x in Required(embedded, expected, schema) :: Present(x, CountingWorlds(embedded, schema), expected)
  }

  ghost predicate AllPackagesAccepted(embedded: WorldModel, canonical: WorldModel, expected: Option<Stage>,
                                      schema: Schema)
  {
    forall k | k in embedded.packages :: PackageAccepted(k, embedded, canonical, expected, schema)
  }

  ghost predicate Accepts(embedded: WorldModel, canonical: WorldModel, expected: Option<Stage>, schema: Schema) {
    && AllPresent(embedded, expected, schema)
    && (expected.Some? ==> StageFound(embedded, expected))
    && AllPackagesAccepted(embedded, canonical, expected, schema)
    && VersionsAgree(embedded, canonical, expected)
  }

  lemma FoundNothing(names: set<string>, f: string -> Option<Drift>)
    ensures Found(names, f) == {} <==> forall n | n in names :: f(n) == None
  {
    if n :| n in names && f(n).Some? {
      assert f(n).value in Found(names, f);
    }
  }

  lemma FoundNothingAtAll(names: set<string>, f: string -> set<Drift>)
    ensures FoundAll(names, f) == {} <==> forall n | n in names :: f(n) == {}
  {
    if n :| n in names && f(n) != {} {
      var d :| d in f(n);
      assert d in FoundAll(names, f);
    }
  }

  lemma NoSurplus(k: string, i: string, emb: InterfaceModel, canon: InterfaceModel, full: bool)
    ensures Surplus(k, i, emb, canon, full) == {} <==>
      && (forall n | n in emb.decls :: n in canon.decls && BodyAccepted(full, canon.decls[n], emb.decls[n]))
      && emb.uses <= canon.uses
  {
    var decl, use := n => SurplusDecl(k, i, emb, canon, full, n), u => SurplusUse(k, i, canon, u);
    FoundNothing(emb.decls.Keys, decl);
    FoundNothing(emb.uses, use);
    assert (forall u | u in emb.uses :: use(u) == None) <==> emb.uses <= canon.uses;
    assert forall n | n in emb.decls ::
        decl(n) == None <==> n in canon.decls && BodyAccepted(full, canon.decls[n], emb.decls[n]);
  }

  lemma NoLack(k: string, i: string, emb: InterfaceModel, canon: InterfaceModel)
    ensures Lacking(k, i, emb, canon) == {} <==> canon.decls.Keys <= emb.decls.Keys && canon.uses <= emb.uses
  {
    var decl, use := n => LackingDecl(k, i, emb, canon, n), u => LackingUse(k, i, emb, u);
    FoundNothing(canon.decls.Keys, decl);
    FoundNothing(canon.uses, use);
    assert (forall u | u in canon.uses :: use(u) == None) <==> canon.uses <= emb.uses;
    assert (forall n | n in canon.decls :: decl(n) == None) <==> canon.decls.Keys <= emb.decls.Keys;
  }

  lemma InterfaceAcceptedIffNoDrift(k: string, i: string, emb: InterfaceModel, canon: InterfaceModel, full: bool)
    ensures InterfaceDrifts(k, i, emb, canon, full) == {} <==> SurfaceAccepted(emb, canon, full)
  {
    NoSurplus(k, i, emb, canon, full);
    NoLack(k, i, emb, canon);
    if full && InterfaceDrifts(k, i, emb, canon, full) == {} {
      assert emb.decls == canon.decls && emb.uses == canon.uses;
    }
  }

  lemma SurfacesAcceptedIffNoDrift(k: string, emb: PackageModel, canon: Option<PackageModel>,
                                   expected: Option<Stage>, schema: Schema)
    ensures SurfaceDrifts(k, emb, canon, expected, schema) == {}
       <==> SurfacesAccepted(k, Some(emb), canon, expected, schema)
  {
    var f := i => InterfaceDrifts(k, i, At(Some(emb), i), At(canon, i), Full(schema, expected, k, i));
    var g := i => Lacking(k, i, EMPTY, At(canon, i));
    var missing := MissingInterfaces(k, emb, canon, expected, schema);
    FoundNothingAtAll(emb.interfaces.Keys, f);
    FoundNothingAtAll(missing, g);
    forall i ensures SurfaceAccepted(At(Some(emb), i), At(canon, i), Full(schema, expected, k, i)) <==>
                     (i in emb.interfaces ==> f(i) == {}) && (i in missing ==> g(i) == {})
    {
      InterfaceAcceptedIffNoDrift(k, i, At(Some(emb), i), At(canon, i), Full(schema, expected, k, i));
      if i in missing {
        NoLack(k, i, EMPTY, At(canon, i));
        EmptySurface(At(canon, i));
      }
    }
  }

  lemma EmptySurface(canon: InterfaceModel)
    ensures EMPTY == canon <==> canon.decls.Keys <= {} && canon.uses <= {}
  {
    if canon.decls.Keys <= {} { assert canon.decls == map[]; }
  }

  lemma RequiredPresentIffNoDrift(embedded: WorldModel, expected: Option<Stage>, schema: Schema)
    ensures RequiredDrifts(embedded, expected, schema) == {} <==> AllPresent(embedded, expected, schema)
  {
    var worlds := CountingWorlds(embedded, schema);
    FoundNothing(Required(embedded, expected, schema), x => RequiredDrift(x, worlds, expected));
  }

  lemma PackageAcceptedIffNoDrift(k: string, embedded: WorldModel, canonical: WorldModel, expected: Option<Stage>,
                                  schema: Schema)
    requires k in embedded.packages
    ensures PackageDrifts(k, embedded, canonical, expected, schema) == {}
       <==> PackageAccepted(k, embedded, canonical, expected, schema)
  {
    SurfacesAcceptedIffNoDrift(k, embedded.packages[k], CanonicalPackage(canonical, k), expected, schema);
  }

  lemma PackagesAcceptedIffNoDrift(embedded: WorldModel, canonical: WorldModel, expected: Option<Stage>,
                                   schema: Schema)
    ensures FoundAll(embedded.packages.Keys, k => OnePackage(k, embedded, canonical, expected, schema)) == {}
       <==> AllPackagesAccepted(embedded, canonical, expected, schema)
  {
    var packages := k => OnePackage(k, embedded, canonical, expected, schema);
    FoundNothingAtAll(embedded.packages.Keys, packages);
    forall k | k in embedded.packages
      ensures packages(k) == {} <==> PackageAccepted(k, embedded, canonical, expected, schema)
    {
      PackageAcceptedIffNoDrift(k, embedded, canonical, expected, schema);
    }
  }

  lemma VersionsAgreeIffNoDrift(embedded: WorldModel, canonical: WorldModel, expected: Option<Stage>)
    ensures ExportDrifts(embedded, canonical, expected) == {} <==> VersionsAgree(embedded, canonical, expected)
  {
    if expected.Some? {
      match PackageKey(embedded, Base(expected.value.witPackage))
      case None =>
      case Some(k) => ExportAgreesIffNoDrift(k, expected.value, canonical);
    }
  }

  lemma ExportAgreesIffNoDrift(k: string, stage: Stage, canonical: WorldModel)
    ensures ExportDriftsOf(k, stage, canonical) == {}
       <==> Derived(k, stage) == stage.qualifiedExport && OtherCanonicalVersion(k, canonical) == None
  {
    var name, version := NameDrift(k, stage), VersionDrift(k, stage, canonical);
    if name.Some? { assert name.value in ExportDriftsOf(k, stage, canonical); }
    if version.Some? { assert version.value in ExportDriftsOf(k, stage, canonical); }
  }

  lemma NoneOfFour(a: set<Drift>, b: set<Drift>, c: set<Drift>, d: set<Drift>)
    ensures a + b + c + d == {} <==> a == {} && b == {} && c == {} && d == {}
  {
    if a + b + c + d == {} {
      assert a <= {} && b <= {} && c <= {} && d <= {};
    }
  }

  /** The comparison reports nothing if and only if the declarative relation holds. */
  lemma AcceptsIffNoDrift(embedded: WorldModel, canonical: WorldModel, expected: Option<Stage>, schema: Schema)
    ensures AllDrifts(embedded, canonical, expected, schema) == {} <==> Accepts(embedded, canonical, expected, schema)
  {
    RequiredPresentIffNoDrift(embedded, expected, schema);
    PackagesAcceptedIffNoDrift(embedded, canonical, expected, schema);
    VersionsAgreeIffNoDrift(embedded, canonical, expected);
    NoneOfFour(RequiredDrifts(embedded, expected, schema), AsSet(StageDrift(embedded, expected)),
               FoundAll(embedded.packages.Keys, k => OnePackage(k, embedded, canonical, expected, schema)),
               ExportDrifts(embedded, canonical, expected));
  }

  // ---- Dropping from shared interfaces ----

  function Replaced(world: WorldModel, k: string, i: string, iface: InterfaceModel): WorldModel
    requires k in world.packages
  {
    var package := world.packages[k];
    world.(packages := world.packages[k := package.(interfaces := package.interfaces[i := iface])])
  }

  /** `smaller` keeps some of the declarations, with their bodies, and some of the uses. */
  predicate Part(smaller: InterfaceModel, whole: InterfaceModel) {
    && (forall n | n in smaller.decls :: n in whole.decls && whole.decls[n] == smaller.decls[n])
    && smaller.uses <= whole.uses
  }

  lemma PartStaysAccepted(smaller: InterfaceModel, whole: InterfaceModel, canon: InterfaceModel)
    requires Part(smaller, whole) && SubInterface(whole, canon)
    ensures SubInterface(smaller, canon)
  {
  }

  lemma DroppingKeepsSurfaces(k: string, emb: PackageModel, canon: Option<PackageModel>, expected: Option<Stage>,
                              schema: Schema, i: string, smaller: InterfaceModel)
    requires SurfacesAccepted(k, Some(emb), canon, expected, schema)
    requires !Full(schema, expected, k, i) && Part(smaller, At(Some(emb), i))
    ensures SurfacesAccepted(k, Some(emb.(interfaces := emb.interfaces[i := smaller])), canon, expected, schema)
  {
    var emb' := emb.(interfaces := emb.interfaces[i := smaller]);
    forall j ensures SurfaceAccepted(At(Some(emb'), j), At(canon, j), Full(schema, expected, k, j)) {
      assert SurfaceAccepted(At(Some(emb), j), At(canon, j), Full(schema, expected, k, j));
      if i == j { PartStaysAccepted(smaller, At(Some(emb), i), At(canon, i)); }
    }
  }

  lemma DroppingKeepsPackage(embedded: WorldModel, canonical: WorldModel, expected: Option<Stage>, schema: Schema,
                             k: string, i: string, smaller: InterfaceModel, p: string)
    requires PackageAccepted(p, embedded, canonical, expected, schema)
    requires k in embedded.packages && !Full(schema, expected, k, i)
    requires Part(smaller, At(Some(embedded.packages[k]), i))
    ensures PackageAccepted(p, Replaced(embedded, k, i, smaller), canonical, expected, schema)
  {
    var embedded' := Replaced(embedded, k, i, smaller);
    if p != k {
      assert Package(embedded', p) == Package(embedded, p);
    } else if Base(k) != Base(schema.rootPackage) {
      DroppingKeepsSurfaces(k, embedded.packages[k], CanonicalPackage(canonical, k), expected, schema, i, smaller);
    }
  }

  lemma SamePackages(embedded: WorldModel, k: string, i: string, iface: InterfaceModel)
    requires k in embedded.packages
    ensures Replaced(embedded, k, i, iface).packages.Keys == embedded.packages.Keys
  {
  }

  lemma SamePackageKey(embedded: WorldModel, k: string, i: string, iface: InterfaceModel, base: string)
    requires k in embedded.packages
    ensures PackageKey(Replaced(embedded, k, i, iface), base) == PackageKey(embedded, base)
  {
    SamePackages(embedded, k, i, iface);
  }

  lemma SameVersions(embedded: WorldModel, canonical: WorldModel, expected: Option<Stage>, k: string, i: string,
                     iface: InterfaceModel)
    requires k in embedded.packages
    ensures VersionsAgree(embedded, canonical, expected)
       <==> VersionsAgree(Replaced(embedded, k, i, iface), canonical, expected)
  {
    if expected.Some? { SamePackageKey(embedded, k, i, iface, Base(expected.value.witPackage)); }
  }

  lemma SameRequirements(embedded: WorldModel, expected: Option<Stage>, schema: Schema, k: string, i: string,
                         iface: InterfaceModel)
    requires k in embedded.packages
    ensures AllPresent(embedded, expected, schema) <==> AllPresent(Replaced(embedded, k, i, iface), expected, schema)
    ensures StageFound(embedded, expected) <==> StageFound(Replaced(embedded, k, i, iface), expected)
  {
    SamePackages(embedded, k, i, iface);
    SameWorlds(embedded, k, i, iface, schema);
    var embedded' := Replaced(embedded, k, i, iface);
    forall p ensures p in embedded.packages <==> p in embedded'.packages {
      assert p in embedded.packages.Keys <==> p in embedded'.packages.Keys;
    }
    assert HasPreparation(embedded, schema) <==> HasPreparation(embedded', schema);
  }

  /** An accepted component stays accepted when declarations or uses are dropped from an interface that need not
      agree in both directions. */
  lemma DroppingKeepsAcceptance(embedded: WorldModel, canonical: WorldModel, expected: Option<Stage>, schema: Schema,
                                k: string, i: string, smaller: InterfaceModel)
    requires Accepts(embedded, canonical, expected, schema)
    requires k in embedded.packages && !Full(schema, expected, k, i)
    requires Part(smaller, At(Some(embedded.packages[k]), i))
    ensures Accepts(Replaced(embedded, k, i, smaller), canonical, expected, schema)
  {
    var embedded' := Replaced(embedded, k, i, smaller);
    SameRequirements(embedded, expected, schema, k, i, smaller);
    SameVersions(embedded, canonical, expected, k, i, smaller);
    forall p | p in embedded'.packages ensures PackageAccepted(p, embedded', canonical, expected, schema) {
      SamePackages(embedded, k, i, smaller);
      assert p in embedded'.packages.Keys;
      assert PackageAccepted(p, embedded, canonical, expected, schema);
      DroppingKeepsPackage(embedded, canonical, expected, schema, k, i, smaller, p);
    }
  }

  lemma SameWorlds(embedded: WorldModel, k: string, i: string, iface: InterfaceModel, schema: Schema)
    requires k in embedded.packages
    ensures CountingWorlds(Replaced(embedded, k, i, iface), schema) == CountingWorlds(embedded, schema)
  {
    var embedded' := Replaced(embedded, k, i, iface);
    assert embedded'.packages.Keys == embedded.packages.Keys;
    assert forall p | p in embedded.packages :: embedded'.packages[p].worlds == embedded.packages[p].worlds;
  }
}
