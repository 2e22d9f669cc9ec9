/** The policy of the controlled compiler driver (xtask/src/rustc_driver.rs, `validate_rustc_invocation`,
    `validate_profile`, `prepare_rustc_invocation`), and what it guarantees. Whether the compiler's own identity is
    the audited one is a parameter. */
module RustcPolicy {
  import opened Orders
  import opened Options
  import opened Text
  import opened RustcGrammar
  import opened RustcArgs

  datatype Profile = Auto | HostDebug | HostRelease | GuestRelease

  datatype DriverMode = Ordinary | Accelerated(profile: Profile)

  datatype InvocationInfo = InvocationInfo(isProbe: bool, target: string, crateName: Option<string>,
                                           canonicalCore: bool, inject: bool)

  datatype PreparedInvocation = PreparedInvocation(args: seq<string>, info: InvocationInfo)

  const CORE := "slicer_core"
  const CFG := "--cfg"
  const LEVEL_3 := "3"
  const FULL_DEBUGINFO := "2"
  const SYMBOLS := "symbols"

  // ---- The policy ----

  predicate IsLibrary(r: Record) {
    && (exists t | t in r.crateTypes :: t in {"lib", "rlib", "dylib", "cdylib", "staticlib", "proc-macro"})
    && "bin" !in r.crateTypes
  }

  predicate CanonicalCore(r: Record) {
    r.crateName == Some(CORE) && (r.isTest || r.crateTypes == [] || IsLibrary(r))
  }

  function TargetOf(r: Record): string { if r.target.Some? then r.target.value else ALLOWED_HOST }

  predicate ValidProfile(mode: DriverMode, target: string, isProbe: bool, core: bool, r: Record) {
    && (core ==> r.optLevel == Some(LEVEL_3))
    && (core && mode == Accelerated(HostDebug) ==>
          r.debuginfo == Some(FULL_DEBUGINFO) && r.debugAssertions == Some(true))
    && (!isProbe && mode == Accelerated(GuestRelease) && target == ALLOWED_WASM_TARGET ==>
          r.optLevel == Some(LEVEL_3) && (r.strip == Some(SYMBOLS) || r.strip == Some(DEBUGINFO)))
    && (!isProbe && mode == Accelerated(HostRelease) && target == ALLOWED_HOST ==>
          r.strip == None || r.strip == Some(SYMBOLS))
  }

  /** The information about an accepted invocation. */
  function InfoOf(r: Record, mode: DriverMode): Option<InvocationInfo> {
    var target, isProbe := TargetOf(r), !CargoUnit(r);
    var core := CanonicalCore(r) && mode.Accelerated? && !isProbe;
    if (target == ALLOWED_HOST || target == ALLOWED_WASM_TARGET) && ValidProfile(mode, target, isProbe, core, r)
    then Some(InvocationInfo(isProbe, target, r.crateName, CanonicalCore(r), core))
    else None
  }

  function Validated(g: Grammar, identityOk: bool, args: seq<string>, mode: DriverMode): Option<InvocationInfo> {
    if !identityOk then None
    else
      match Parsed(g, args)
      case None => None
      case Some(r) => InfoOf(r, mode)
  }

  function Injection(): seq<string> { [CFG, RESERVED_CFG] }

  function Prepared(g: Grammar, identityOk: bool, args: seq<string>, mode: DriverMode): Option<PreparedInvocation> {
    match Validated(g, identityOk, args, mode)
    case None => None
    case Some(info) => Some(PreparedInvocation(if info.inject then args + Injection() else args, info))
  }

  /** The checks of the profile, one by one. */
  method ValidateProfile(mode: DriverMode, target: string, isProbe: bool, core: bool, codegen: CodegenState,
                         ghost r: Record) returns (ok: bool)
    requires codegen.optLevel == r.optLevel && codegen.debuginfo == r.debuginfo && codegen.strip == r.strip
    requires codegen.debugAssertions == r.debugAssertions
    ensures ok <==> ValidProfile(mode, target, isProbe, core, r)
  {
    if core {
      if codegen.optLevel != Some(LEVEL_3) { return false; }
      if mode == Accelerated(HostDebug) {
        if codegen.debuginfo != Some(FULL_DEBUGINFO) { return false; }
        if codegen.debugAssertions != Some(true) { return false; }
      }
    }
    if !isProbe {
      if mode == Accelerated(GuestRelease) && target == ALLOWED_WASM_TARGET && codegen.optLevel != Some(LEVEL_3) {
        return false;
      }
      if mode == Accelerated(HostRelease) && target == ALLOWED_HOST {
        if codegen.strip.Some? && codegen.strip != Some(SYMBOLS) { return false; }
      }
      if mode == Accelerated(GuestRelease) && target == ALLOWED_WASM_TARGET {
        if codegen.strip != Some(SYMBOLS) && codegen.strip != Some(DEBUGINFO) { return false; }
      }
    }
    ok := true;
  }

  method Validate(g: Grammar, identityOk: bool, args: seq<string>, mode: DriverMode)
    returns (info: Option<InvocationInfo>)
    ensures info == Validated(g, identityOk, args, mode)
  {
    if !identityOk { return None; }
    var parser := new ArgParser();
    var ok := parser.Parse(args, g);
    if !ok { return None; }
    var r := parser.View();
    var target := if parser.target.Some? then parser.target.value else ALLOWED_HOST;
    if target != ALLOWED_HOST && target != ALLOWED_WASM_TARGET { return None; }
    var core := CanonicalCore(r) && mode.Accelerated? && !parser.isProbe;
    var valid := ValidateProfile(mode, target, parser.isProbe, core, parser.codegen, r);
    if !valid { return None; }
    info := Some(InvocationInfo(parser.isProbe, target, parser.crateName, CanonicalCore(r), core));
  }

  /** Adds the reserved cfg to canonical accelerated core compilations, and to nothing else. */
  method Prepare(g: Grammar, identityOk: bool, args: seq<string>, mode: DriverMode)
    returns (prepared: Option<PreparedInvocation>)
    ensures prepared == Prepared(g, identityOk, args, mode)
  {
    var info := Validate(g, identityOk, args, mode);
    if info.None? { return None; }
    var out := args;
    if info.value.inject {
      out := out + Injection();
    }
    prepared := Some(PreparedInvocation(out, info.value));
  }

  // ---- Controls are given at most once ----

  function Keys(items: seq<Item>): seq<string> {
    if items == [] then []
    else
      var item := items[|items| - 1];
      Keys(items[..|items| - 1]) + if item.Codegen? then [item.key] else []
  }

  function Texts(items: seq<Item>, kind: Kind): seq<string> {
    if items == [] then []
    else
      var item := items[|items| - 1];
      Texts(items[..|items| - 1], kind) + if item.Valued? && item.kind == kind then [item.text] else []
  }

  /** What is accepted, without a word about order or state. */
  ghost predicate WellFormed(g: Grammar, items: seq<Item>) {
    && AllLegal(g, items)
    && Distinct(Keys(items))
    && |Texts(items, Target)| <= 1
    && |Texts(items, Emit)| <= 1
  }

  ghost predicate AllLegal(g: Grammar, items: seq<Item>) { forall item | item in items :: g.legal(item) }

  /** The recorded value of a control is the value of its one occurrence, and it is absent if there is none. */
  ghost predicate Agrees(recorded: Option<string>, items: seq<Item>, key: string) {
    && (forall v :: recorded == Some(v) <==> Codegen(key, Some(v)) in items)
    && (recorded == None <==> key !in Keys(items) || Codegen(key, None) in items)
  }

  ghost predicate AgreesBool(recorded: Option<bool>, items: seq<Item>, key: string) {
    forall b :: recorded == Some(b) <==> GivenAs(items, key, b)
  }

  ghost predicate GivenAs(items: seq<Item>, key: string, b: bool) {
    exists v :: ParseBool(v) == Some(b) && Codegen(key, Some(v)) in items
  }

  ghost predicate Faithful(r: Record, items: seq<Item>) {
    && (forall k :: k in r.values <==> k in Keys(items))
    && r.target == Only(Texts(items, Target))
    && (TargetControl in r.keyed <==> Texts(items, Target) != [])
    && (EmitControl in r.keyed <==> Texts(items, Emit) != [])
    && Agrees(r.optLevel, items, OPT_LEVEL)
    && Agrees(r.debuginfo, items, DEBUGINFO)
    && Agrees(r.strip, items, STRIP)
    && AgreesBool(r.debugAssertions, items, DEBUG_ASSERTIONS)
  }

  function Only(texts: seq<string>): Option<string> { if texts == [] then None else Some(texts[|texts| - 1]) }

  lemma OneMore(items: seq<Item>, item: Item)
    ensures Keys(items + [item]) == if item.Codegen? then Keys(items) + [item.key] else Keys(items)
    ensures forall kind :: Texts(items + [item], kind)
                        == if item.Valued? && item.kind == kind then Texts(items, kind) + [item.text]
                           else Texts(items, kind)
    ensures forall x :: x in items + [item] <==> x in items || x == item
  {
    assert (items + [item])[..|items + [item]| - 1] == items;
    assert Keys(items) + [] == Keys(items) && forall kind :: Texts(items, kind) + [] == Texts(items, kind);
  }

  lemma {:induction false} KeysMembers(items: seq<Item>, key: string)
    ensures key in Keys(items) <==> exists v :: Codegen(key, v) in items
  {
    if items != [] {
      var front, item := items[..|items| - 1], items[|items| - 1];
      KeysMembers(front, key);
      assert items == front + [item];
      OneMore(front, item);
      assert item.Codegen? ==> item == Codegen(item.key, item.value);
    }
  }

  lemma DistinctOneMore(s: seq<string>, x: string)
    ensures Distinct(s + [x]) <==> Distinct(s) && x !in s
  {
    var t := s + [x];
    if Distinct(t) {
      forall i, j | 0 <= i < j < |s| ensures s[i] != s[j] { assert t[i] != t[j]; }
      forall i | 0 <= i < |s| ensures s[i] != x { assert t[i] != t[|s|]; }
    }
  }

  lemma AgreesOneMore(recorded: Option<string>, items: seq<Item>, key: string, item: Item)
    requires Agrees(recorded, items, key) && !(item.Codegen? && item.key in Keys(items))
    ensures Agrees(if item.Codegen? && item.key == key then item.value else recorded, items + [item], key)
  {
    OneMore(items, item);
    KeysMembers(items, key);
    if item.Codegen? && item.key == key {
      assert forall v :: Codegen(key, v) !in items;
    }
  }

  lemma AgreesBoolOneMore(recorded: Option<bool>, items: seq<Item>, key: string, item: Item)
    requires AgreesBool(recorded, items, key) && !(item.Codegen? && item.key in Keys(items))
    ensures AgreesBool(if item.Codegen? && item.key == key && item.value.Some? then ParseBool(item.value.value)
                       else recorded, items + [item], key)
  {
    OneMore(items, item);
    KeysMembers(items, key);
    if item.Codegen? && item.key == key && item.value.Some? {
      var value := item.value.value;
      assert forall v :: Codegen(key, Some(v)) in items + [item] <==> v == value;
      forall b ensures ParseBool(value) == Some(b) <==> GivenAs(items + [item], key, b) {
        if ParseBool(value) == Some(b) { assert Codegen(key, Some(value)) in items + [item]; }
      }
    }
  }

  /** `r'` is `r` with one more item taken in. */
  ghost predicate TakesIn(r: Record, r': Record, item: Item) {
    && r'.values == (if item.Codegen? then r.values + {item.key} else r.values)
    && r'.target == (if item.Valued? && item.kind == Target then Some(item.text) else r.target)
    && (TargetControl in r'.keyed <==> TargetControl in r.keyed || (item.Valued? && item.kind == Target))
    && (EmitControl in r'.keyed <==> EmitControl in r.keyed || (item.Valued? && item.kind == Emit))
    && r'.optLevel == Taken(r.optLevel, item, OPT_LEVEL)
    && r'.debuginfo == Taken(r.debuginfo, item, DEBUGINFO)
    && r'.strip == Taken(r.strip, item, STRIP)
    && r'.debugAssertions == (if item.Codegen? && item.key == DEBUG_ASSERTIONS && item.value.Some?
                              then ParseBool(item.value.value) else r.debugAssertions)
  }

  function Taken(recorded: Option<string>, item: Item, key: string): Option<string> {
    if item.Codegen? && item.key == key then item.value else recorded
  }

  lemma RecordingTakesIn(g: Grammar, r: Record, item: Item)
    ensures TakesIn(r, RecordItem(g, r, item), item)
  {
    match item
    case Codegen(key, value) => CodegenTakesIn(r, key, value);
    case Valued(kind, text) => ValueTakesIn(g, r, kind, text);
    case _ =>
  }

  lemma CodegenTakesIn(r: Record, key: string, value: Option<string>)
    ensures TakesIn(r, RecordCodegen(r, key, value), Codegen(key, value))
  {
  }

  lemma ValueTakesIn(g: Grammar, r: Record, kind: Kind, text: string)
    ensures TakesIn(r, RecordValue(g, r, kind, text), Valued(kind, text))
  {
  }

  lemma ControlsOneMore(r: Record, r': Record, items: seq<Item>, item: Item)
    requires Faithful(r, items) && TakesIn(r, r', item)
    ensures forall k :: k in r'.values <==> k in Keys(items + [item])
    ensures r'.target == Only(Texts(items + [item], Target))
    ensures TargetControl in r'.keyed <==> Texts(items + [item], Target) != []
    ensures EmitControl in r'.keyed <==> Texts(items + [item], Emit) != []
  {
    OneMore(items, item);
  }

  lemma FaithfulOneMore(r: Record, r': Record, items: seq<Item>, item: Item)
    requires Faithful(r, items) && !Repeats(r, item) && TakesIn(r, r', item)
    ensures Faithful(r', items + [item])
  {
    assert !(item.Codegen? && item.key in Keys(items));
    ControlsOneMore(r, r', items, item);
    AgreesOneMore(r.optLevel, items, OPT_LEVEL, item);
    AgreesOneMore(r.debuginfo, items, DEBUGINFO, item);
    AgreesOneMore(r.strip, items, STRIP, item);
    AgreesBoolOneMore(r.debugAssertions, items, DEBUG_ASSERTIONS, item);
  }

  /** The item repeats a control among `items`. */
  predicate RepeatsAmong(items: seq<Item>, item: Item) {
    match item
    case Codegen(key, _) => key in Keys(items)
    case Valued(Target, _) => Texts(items, Target) != []
    case Valued(Emit, _) => Texts(items, Emit) != []
    case _ => false
  }

  lemma RepeatsIff(r: Record, items: seq<Item>, item: Item)
    requires Faithful(r, items)
    ensures Repeats(r, item) <==> RepeatsAmong(items, item)
  {
  }

  lemma LegalOneMore(g: Grammar, items: seq<Item>, item: Item)
    ensures AllLegal(g, items + [item]) <==> AllLegal(g, items) && g.legal(item)
  {
    OneMore(items, item);
    assert item in items + [item];
  }

  lemma WellFormedOneMore(g: Grammar, items: seq<Item>, item: Item)
    ensures WellFormed(g, items + [item]) <==> WellFormed(g, items) && g.legal(item) && !RepeatsAmong(items, item)
  {
    LegalOneMore(g, items, item);
    OneMore(items, item);
    if item.Codegen? { DistinctOneMore(Keys(items), item.key); }
  }

  /** `r` is the outcome of recording `items`. */
  ghost predicate Outcome(g: Grammar, r: Option<Record>, items: seq<Item>) {
    && (r.Some? <==> WellFormed(g, items))
    && (r.Some? ==> Faithful(r.value, items))
  }

  lemma OutcomeOneMore(g: Grammar, r: Option<Record>, items: seq<Item>, item: Item)
    requires Outcome(g, r, items)
    ensures Outcome(g, if r.Some? && g.legal(item) && !Repeats(r.value, item) then Some(RecordItem(g, r.value, item))
                       else None, items + [item])
  {
    WellFormedOneMore(g, items, item);
    if r.Some? {
      RepeatsIff(r.value, items, item);
      RecordingTakesIn(g, r.value, item);
      if !Repeats(r.value, item) { FaithfulOneMore(r.value, RecordItem(g, r.value, item), items, item); }
    }
  }

  lemma OutcomeOfNothing(g: Grammar)
    ensures Outcome(g, Some(Blank()), [])
  {
  }

  /** The parser accepts a list of items if and only if every one is legal and no control is given twice; and it
      records each control as it is given. */
  lemma {:induction false} AcceptedIff(g: Grammar, items: seq<Item>)
    ensures Outcome(g, Recorded(g, items), items)
  {
    if items == [] {
      OutcomeOfNothing(g);
    } else {
      var front, item := items[..|items| - 1], items[|items| - 1];
      assert items == front + [item];
      AcceptedIff(g, front);
      RecordedOneMore(g, front, item);
      OutcomeOneMore(g, Recorded(g, front), front, item);
    }
  }

  // ---- What may be given more than once ----

  /** Names, types and flags as the items give them; of several crate names the last counts. */
  ghost predicate FaithfulFlags(g: Grammar, r: Record, items: seq<Item>) {
    && r.crateName == Only(Texts(items, CrateName))
    && (forall t :: t in r.crateTypes <==> NamesType(Texts(items, CrateType), t))
    && (r.json <==> JSON in Texts(items, ErrorFormat))
    && (r.llvm <==> AsksForLlvm(g, items))
    && (r.isTest <==> Test in items)
    && (r.stdin <==> Stdin in items)
  }

  predicate Any(texts: seq<string>, holds: string -> bool) { exists x | x in texts :: holds(x) }

  predicate AsksForLlvm(g: Grammar, items: seq<Item>) { Any(Texts(items, Emit), g.emitsLlvm) }

  /** One of the comma-separated lists names the type. */
  predicate NamesType(texts: seq<string>, t: string) { Any(texts, text => t in Split(text, ',')) }

  lemma AnyOneMore(texts: seq<string>, text: string, holds: string -> bool)
    ensures Any(texts + [text], holds) <==> Any(texts, holds) || holds(text)
  {
    assert text in texts + [text];
  }

  ghost predicate FlagsTakeIn(g: Grammar, r: Record, r': Record, item: Item) {
    && r'.crateName == (if item.Valued? && item.kind == CrateName then Some(item.text) else r.crateName)
    && r'.crateTypes == (if item.Valued? && item.kind == CrateType then r.crateTypes + Split(item.text, ',')
                         else r.crateTypes)
    && (r'.json <==> r.json || (item.Valued? && item.kind == ErrorFormat && item.text == JSON))
    && (r'.llvm <==> r.llvm || (item.Valued? && item.kind == Emit && g.emitsLlvm(item.text)))
    && (r'.isTest <==> r.isTest || item == Test)
    && (r'.stdin <==> r.stdin || item == Stdin)
  }

  lemma RecordingTakesFlags(g: Grammar, r: Record, item: Item)
    ensures FlagsTakeIn(g, r, RecordItem(g, r, item), item)
  {
    match item
    case Codegen(key, value) => CodegenTakesNoFlags(g, r, key, value);
    case Valued(kind, text) => ValueTakesFlags(g, r, kind, text);
    case _ =>
  }

  lemma CodegenTakesNoFlags(g: Grammar, r: Record, key: string, value: Option<string>)
    ensures FlagsTakeIn(g, r, RecordCodegen(r, key, value), Codegen(key, value))
  {
  }

  lemma ValueTakesFlags(g: Grammar, r: Record, kind: Kind, text: string)
    ensures FlagsTakeIn(g, r, RecordValue(g, r, kind, text), Valued(kind, text))
  {
  }

  lemma TypesOneMore(texts: seq<string>, types: seq<string>, types': seq<string>, text: string)
    requires forall t :: t in types <==> NamesType(texts, t)
    requires types' == types + Split(text, ',')
    ensures forall t :: t in types' <==> NamesType(texts + [text], t)
  {
    forall t ensures t in types' <==> NamesType(texts + [text], t) {
      AnyOneMore(texts, text, x => t in Split(x, ','));
    }
  }

  lemma TypesStay(g: Grammar, r: Record, r': Record, items: seq<Item>, item: Item)
    requires FaithfulFlags(g, r, items) && FlagsTakeIn(g, r, r', item)
    ensures forall t :: t in r'.crateTypes <==> NamesType(Texts(items + [item], CrateType), t)
  {
    OneMore(items, item);
    if item.Valued? && item.kind == CrateType {
      TypesOneMore(Texts(items, CrateType), r.crateTypes, r'.crateTypes, item.text);
    }
  }

  lemma AsksOneMore(g: Grammar, items: seq<Item>, item: Item)
    ensures AsksForLlvm(g, items + [item])
       <==> AsksForLlvm(g, items) || (item.Valued? && item.kind == Emit && g.emitsLlvm(item.text))
  {
    OneMore(items, item);
    if item.Valued? && item.kind == Emit { AnyOneMore(Texts(items, Emit), item.text, g.emitsLlvm); }
  }

  lemma NameStays(g: Grammar, r: Record, r': Record, items: seq<Item>, item: Item)
    requires FaithfulFlags(g, r, items) && FlagsTakeIn(g, r, r', item)
    ensures r'.crateName == Only(Texts(items + [item], CrateName))
  {
    OneMore(items, item);
  }

  lemma FormatStays(g: Grammar, r: Record, r': Record, items: seq<Item>, item: Item)
    requires FaithfulFlags(g, r, items) && FlagsTakeIn(g, r, r', item)
    ensures r'.json <==> JSON in Texts(items + [item], ErrorFormat)
  {
    OneMore(items, item);
  }

  lemma FlagsOneMore(g: Grammar, r: Record, r': Record, items: seq<Item>, item: Item)
    requires FaithfulFlags(g, r, items) && FlagsTakeIn(g, r, r', item)
    ensures FaithfulFlags(g, r', items + [item])
  {
    NameStays(g, r, r', items, item);
    FormatStays(g, r, r', items, item);
    TypesStay(g, r, r', items, item);
    AsksOneMore(g, items, item);
  }

  lemma {:induction false} FlagsAgree(g: Grammar, items: seq<Item>)
    ensures Recorded(g, items).Some? ==> FaithfulFlags(g, Recorded(g, items).value, items)
  {
    if items != [] {
      var front, item := items[..|items| - 1], items[|items| - 1];
      assert items == front + [item];
      FlagsAgree(g, front);
      RecordedOneMore(g, front, item);
      if Recorded(g, front).Some? {
        var r := Recorded(g, front).value;
        RecordingTakesFlags(g, r, item);
        FlagsOneMore(g, r, RecordItem(g, r, item), front, item);
      }
    }
  }

  /** Acceptance in declarative terms, and the faithfulness of what is recorded. */
  lemma ParsedIff(g: Grammar, args: seq<string>)
    ensures Parsed(g, args).Some? <==>
      && Lex(g, args, false).Some?
      && WellFormed(g, Lex(g, args, false).value.items)
      && (AsksForLlvm(g, Lex(g, args, false).value.items) ==> Stdin in Lex(g, args, false).value.items)
    ensures Parsed(g, args).Some? ==> Faithful(Parsed(g, args).value, Lex(g, args, false).value.items)
    ensures Parsed(g, args).Some? ==> FaithfulFlags(g, Parsed(g, args).value, Lex(g, args, false).value.items)
  {
    match Lex(g, args, false)
    case None =>
    case Some(lexed) =>
      AcceptedIff(g, lexed.items);
      FlagsAgree(g, lexed.items);
  }

  // ---- Parsing and concatenation ----

  /** Once an argument list can be lexed, what follows it is lexed by itself. */
  lemma {:induction false} LexConcat(g: Grammar, a: seq<string>, b: seq<string>, after: bool)
    requires Lex(g, a, after).Some?
    ensures after ==> Lex(g, a, after).value.after
    ensures Lex(g, a + b, after) == Prepend(Lex(g, a, after).value.items, Lex(g, b, Lex(g, a, after).value.after))
    decreases |a|
  {
    var ab := a + b;
    if a == [] {
      assert ab == b;
      PrependNothing(Lex(g, b, after));
    } else if after {
      assert ab[1..] == a[1..] + b;
      LexConcat(g, a[1..], b, true);
      PrependMore(Valued(Source, a[0]), Lex(g, a[1..], true).value.items, Lex(g, b, true));
    } else {
      match g.classify(a[0])
      case EndOfOptions =>
        assert ab[1..] == a[1..] + b;
        LexConcat(g, a[1..], b, true);
      case Alone(item) =>
        assert ab[1..] == a[1..] + b;
        LexConcat(g, a[1..], b, false);
        PrependMore(item, Lex(g, a[1..], false).value.items, Lex(g, b, Lex(g, a[1..], false).value.after));
      case ResponseFile =>
      case form =>
        assert ab[2..] == a[2..] + b && ab[1] == a[1];
        LexConcat(g, a[2..], b, false);
        var rest := Lex(g, a[2..], false).value;
        PrependMore(NextItem(form, a[1]), rest.items, Lex(g, b, rest.after));
    }
  }

  lemma PrependNothing(rest: Option<Lexed>)
    ensures Prepend([], rest) == rest
  {
    if rest.Some? { assert [] + rest.value.items == rest.value.items; }
  }

  lemma PrependMore(item: Item, items: seq<Item>, rest: Option<Lexed>)
    ensures LexMore(item, Prepend(items, rest)) == Prepend([item] + items, rest)
  {
    if rest.Some? { AppendAssociative([item], items, rest.value.items); }
  }

  // ---- The reserved cfg ----

  /** The grammar refuses the reserved cfg as an option, takes `--cfg` as one, and any plain word as an operand. */
  ghost predicate Guarded(g: Grammar) {
    && g.classify(CFG) == TakesNext(Cfg)
    && (forall text | CfgKey(text) == RESERVED_CFG :: !g.legal(Valued(Cfg, text)))
    && !g.legal(Valued(Cfg, RESERVED_CFG))
    && g.legal(Valued(Source, CFG)) && g.legal(Valued(Source, RESERVED_CFG))
  }

  /** No accepted input sets the reserved cfg, with or without a value, and whatever the space around it. */
  lemma NoInputSetsReserved(g: Grammar, args: seq<string>, text: string)
    requires Guarded(g)
    ensures Parsed(g, args).Some? && Valued(Cfg, text) in Lex(g, args, false).value.items ==>
      CfgKey(text) != RESERVED_CFG
  {
    ParsedIff(g, args);
  }

  lemma LexPair(g: Grammar, x: string, y: string, after: bool)
    requires !StartsWith(x, '@') && !StartsWith(y, '@')
    ensures after ==> Lex(g, [x, y], after) == Some(Lexed([Valued(Source, x), Valued(Source, y)], true))
    ensures !after && g.classify(x).TakesNext? ==>
      Lex(g, [x, y], after) == Some(Lexed([Valued(g.classify(x).kind, y)], false))
    ensures !after && g.classify(x).TakesCodegen? ==> Lex(g, [x, y], after) == Some(Lexed([CodegenItem(y)], false))
  {
    var args, rest := [x, y], [y];
    assert args[1..] == rest && rest[1..] == [] && args[2..] == [];
    var source: seq<Item> := [Valued(Source, y)];
    assert source + [] == source && [Valued(Source, x)] + source == [Valued(Source, x), Valued(Source, y)];
    if after {
      assert Lex(g, rest, true) == LexMore(Valued(Source, y), Lex(g, [], true));
    } else if g.classify(x).TakesNext? || g.classify(x).TakesCodegen? {
      var item := NextItem(g.classify(x), y);
      assert Lex(g, args, false) == LexMore(item, Lex(g, [], false));
      assert [item] + [] == [item];
    }
  }

  lemma ClassifyCfg(token: string)
    requires token == CFG
    ensures Classify(token) == TakesNext(Cfg)
  {
    assert |token| == 5 && token[0] == '-' && token[1] == '-' && token[2] == 'c' && token[3] == 'f' && token[4] == 'g';
    assert ProbeForm(token) == None && CodegenForm(token) == None && ForbiddenForm(token) == None;
    assert ControlForm(token) == Some(TakesNext(Cfg));
  }

  lemma InjectionIsPlain(x: string, y: string)
    requires x == CFG && y == RESERVED_CFG
    ensures !StartsWith(x, '@') && !StartsWith(y, '@')
  {
    CfgIsPlain(x);
    ReservedIsPlain(y);
  }

  /** The driver's own argument, read where options are still expected, and read behind a bare `--`. */
  lemma InjectionLexed(g: Grammar, x: string, y: string)
    requires x == CFG && y == RESERVED_CFG && g.classify(x) == TakesNext(Cfg)
    ensures Lex(g, [x, y], false) == Some(Lexed([Valued(Cfg, y)], false))
    ensures Lex(g, [x, y], true) == Some(Lexed([Valued(Source, x), Valued(Source, y)], true))
  {
    InjectionIsPlain(x, y);
    LexPair(g, x, y, true);
    LexPair(g, x, y, false);
  }

  lemma ReservedIsPlain(name: string)
    requires name == RESERVED_CFG
    ensures '=' !in name && '\0' !in name && name != "" && !StartsWith(name, '@')
    ensures !IsSpace(name[0]) && !IsSpace(name[|name| - 1])
  {
  }

  lemma KeyOfPlain(name: string)
    requires '=' !in name && name != "" && !IsSpace(name[0]) && !IsSpace(name[|name| - 1])
    ensures CfgKey(name) == name
  {
    BeforeWhole(name, '=');
  }

  lemma CfgIsPlain(name: string)
    requires name == CFG
    ensures '\0' !in name && name != "" && !StartsWith(name, '@')
  {
    assert forall c | c in name :: c in {'-', 'c', 'f', 'g'};
  }

  lemma OperandIsLegal(text: string)
    requires '\0' !in text && text != "" && !StartsWith(text, '@')
    ensures LegalValue(Source, text)
  {
  }

  lemma ReservedIsRefused(text: string)
    requires CfgKey(text) == RESERVED_CFG
    ensures !LegalValue(Cfg, text)
  {
  }

  /** The driver's own cfg is refused as an option, and is an operand like any other behind a bare `--`. */
  lemma InjectionJudged(x: string, y: string)
    requires x == CFG && y == RESERVED_CFG
    ensures !LegalValue(Cfg, y) && LegalValue(Source, x) && LegalValue(Source, y)
  {
    assert !LegalValue(Cfg, y) by {
      ReservedIsPlain(y);
      KeyOfPlain(y);
      ReservedIsRefused(y);
    }
    assert LegalValue(Source, y) by {
      ReservedIsPlain(y);
      OperandIsLegal(y);
    }
    CfgIsPlain(x);
    OperandIsLegal(x);
  }

  /** The driver's grammar is guarded. */
  lemma RustcIsGuarded()
    ensures Guarded(Rustc())
  {
    ClassifyCfg(CFG);
    InjectionJudged(CFG, RESERVED_CFG);
    forall text | CfgKey(text) == RESERVED_CFG ensures !Rustc().legal(Valued(Cfg, text)) {
      ReservedIsRefused(text);
    }
  }

  lemma OnlyLevel(g: Grammar, args: seq<string>, level: string)
    requires Parsed(g, args).Some? && Parsed(g, args).value.optLevel == Some(level)
    ensures forall v :: Codegen(OPT_LEVEL, v) in Lex(g, args, false).value.items <==> v == Some(level)
  {
    ParsedIff(g, args);
    OnlyValue(Parsed(g, args).value.optLevel, Lex(g, args, false).value.items, OPT_LEVEL, level);
  }

  lemma OnlyValue(recorded: Option<string>, items: seq<Item>, key: string, value: string)
    requires Agrees(recorded, items, key) && recorded == Some(value)
    ensures forall v :: Codegen(key, v) in items <==> v == Some(value)
  {
    forall v ensures Codegen(key, v) in items <==> v == Some(value) {
      assert v == None || (recorded == Some(v.value) <==> Codegen(key, Some(v.value)) in items);
    }
  }

  /** Prepared arguments differ from the input only by the reserved cfg at the end, exactly for accelerated
      compilations of the canonical core, and then the one opt-level given is 3. */
  lemma InjectionIsExact(g: Grammar, args: seq<string>, identityOk: bool, mode: DriverMode)
    requires Prepared(g, identityOk, args, mode).Some?
    ensures Parsed(g, args).Some?
    ensures var p, r := Prepared(g, identityOk, args, mode).value, Parsed(g, args).value;
            && (p.args == args || p.args == args + Injection())
            && (p.args != args <==> mode.Accelerated? && CanonicalCore(r) && CargoUnit(r))
            && (p.args != args ==> forall v :: Codegen(OPT_LEVEL, v) in Lex(g, args, false).value.items
                                            <==> v == Some(LEVEL_3))
  {
    var p, r := Prepared(g, identityOk, args, mode).value, Parsed(g, args).value;
    assert |args + Injection()| == |args| + 2;
    if p.args != args {
      OnlyLevel(g, args, LEVEL_3);
    }
  }

  /** What the compiler is given after an injection: the input's items and one reserved cfg, when no bare `--` has
      been passed; otherwise the injected words are operands. */
  lemma InjectedItems(g: Grammar, args: seq<string>)
    requires Guarded(g) && Lex(g, args, false).Some?
    ensures var lexed := Lex(g, args, false).value;
            Lex(g, args + Injection(), false)
            == Some(Lexed(lexed.items + (if lexed.after then [Valued(Source, CFG), Valued(Source, RESERVED_CFG)]
                                         else [Valued(Cfg, RESERVED_CFG)]), lexed.after))
  {
    LexConcat(g, args, Injection(), false);
    InjectionLexed(g, CFG, RESERVED_CFG);
  }

  lemma OperandsChangeNothing(g: Grammar, items: seq<Item>, x: string, y: string)
    requires g.legal(Valued(Source, x)) && g.legal(Valued(Source, y))
    ensures Recorded(g, items + [Valued(Source, x), Valued(Source, y)]) == Recorded(g, items)
  {
    var a, b := Valued(Source, x), Valued(Source, y);
    assert items + [a, b] == (items + [a]) + [b];
    RecordedOneMore(g, items, a);
    RecordedOneMore(g, items + [a], b);
  }

  /** Prepared arguments that received the injection are refused when they are fed back in, unless a bare `--` has
      been passed. */
  lemma FedBackIffOperands(g: Grammar, args: seq<string>, identityOk: bool, mode: DriverMode)
    requires Guarded(g) && Prepared(g, identityOk, args, mode).Some?
    requires Prepared(g, identityOk, args, mode).value.info.inject
    ensures Parsed(g, Prepared(g, identityOk, args, mode).value.args).Some? <==> Lex(g, args, false).value.after
  {
    var lexed := Lex(g, args, false).value;
    InjectedItems(g, args);
    if lexed.after {
      OperandsChangeNothing(g, lexed.items, CFG, RESERVED_CFG);
    } else {
      RecordedOneMore(g, lexed.items, Valued(Cfg, RESERVED_CFG));
    }
  }

  // ---- Spellings ----

  lemma LexOne(g: Grammar, x: string, item: Item)
    requires g.classify(x) == Alone(item) && !StartsWith(x, '@')
    ensures Lex(g, [x], false) == Some(Lexed([item], false))
  {
    var args := [x];
    assert args[1..] == [] && [item] + [] == [item];
  }

  lemma ClassifyCodegen(token: string, long: bool)
    requires token == if long then "--codegen" else "-C"
    ensures Classify(token) == TakesCodegen
  {
    assert |token| >= 2 && token[0] == '-' && token[1] == if long then '-' else 'C';
    assert long ==> |token| == 9 && token[2] == 'c';
    assert ProbeForm(token) == None && CodegenForm(token) == Some(TakesCodegen);
  }

  lemma ClassifyShort(token: string, value: string)
    requires token == "-C" + value && value != ""
    ensures Classify(token) == Alone(CodegenItem(if value[0] == '=' then value[1..] else value))
  {
    assert |token| > 2 && token[0] == '-' && token[1] == 'C' && token[2..] == value;
    assert ProbeForm(token) == None;
    assert "-C" <= token;
  }

  lemma ClassifyLong(token: string, head: string, value: string)
    requires head == "--codegen=" && token == head + value
    ensures Classify(token) == Alone(CodegenItem(value))
  {
    assert |head| == 10 && token[10..] == value && head <= token;
    assert token[0] == '-' && token[1] == '-' && token[2] == 'c' && token[9] == '=';
    assert ProbeForm(token) == None;
  }

  /** The five ways of giving a codegen option mean the same. */
  lemma SpellingsAgree(option: string)
    requires option != "" && option[0] != '=' && option[0] != '@'
    ensures var meaning := Some(Lexed([CodegenItem(option)], false));
            && Lex(Rustc(), ["-C", option], false) == meaning
            && Lex(Rustc(), ["-C" + option], false) == meaning
            && Lex(Rustc(), ["-C=" + option], false) == meaning
            && Lex(Rustc(), ["--codegen", option], false) == meaning
            && Lex(Rustc(), ["--codegen=" + option], false) == meaning
  {
    SpellingsApart(option);
    SpellingsTogether(option);
  }

  lemma SpellingsApart(option: string)
    requires option != "" && option[0] != '@'
    ensures Lex(Rustc(), ["-C", option], false) == Some(Lexed([CodegenItem(option)], false))
    ensures Lex(Rustc(), ["--codegen", option], false) == Some(Lexed([CodegenItem(option)], false))
  {
    var short, long := "-C", "--codegen";
    ClassifyCodegen(short, false);
    ClassifyCodegen(long, true);
    LexPair(Rustc(), short, option, false);
    LexPair(Rustc(), long, option, false);
  }

  lemma SpellingsTogether(option: string)
    requires option != "" && option[0] != '='
    ensures Lex(Rustc(), ["-C" + option], false) == Some(Lexed([CodegenItem(option)], false))
    ensures Lex(Rustc(), ["-C=" + option], false) == Some(Lexed([CodegenItem(option)], false))
    ensures Lex(Rustc(), ["--codegen=" + option], false) == Some(Lexed([CodegenItem(option)], false))
  {
    assert "-C=" + option == "-C" + ("=" + option) && ("=" + option)[1..] == option;
    ClassifyShort("-C" + option, option);
    ClassifyShort("-C=" + option, "=" + option);
    ClassifyLong("--codegen=" + option, "--codegen=", option);
    LexOne(Rustc(), "-C" + option, CodegenItem(option));
    LexOne(Rustc(), "-C=" + option, CodegenItem(option));
    LexOne(Rustc(), "--codegen=" + option, CodegenItem(option));
  }

  predicate Plain(s: string) {
    NonEmpty(s) && !IsSpace(s[0]) && !IsSpace(s[|s| - 1])
  }

  /** `key=value` without space around either is read as that key and value. */
  lemma CodegenItemOf(key: string, value: string)
    requires Plain(key) && Plain(value) && '=' !in key
    ensures CodegenItem(key + "=" + value) == Codegen(key, Some(value))
  {
    var raw := key + "=" + value;
    BeforeOfConcat(key, '=', value);
    assert raw == key + ['='] + value && raw[|key|] == '=';
    assert raw[0] == key[0] && raw[|raw| - 1] == value[|value| - 1];
    assert Trim(raw) == raw && Trim(key) == key && Trim(value) == value;
    assert NonEmpty(raw) by { assert forall c | c in raw :: c in key || c == '=' || c in value; }
    var split := SplitOnce(raw, '=').value;
    assert split.0 == key && split.1 == raw[|key| + 1..] == value;
  }

  // ---- Controls that are not given ----

  /** A control is recorded as absent if and only if it is not given. */
  lemma AbsentIffNotGiven(args: seq<string>)
    requires Parsed(Rustc(), args).Some?
    ensures var r, keys := Parsed(Rustc(), args).value, Keys(Lex(Rustc(), args, false).value.items);
            && (r.optLevel == None <==> OPT_LEVEL !in keys)
            && (r.debuginfo == None <==> DEBUGINFO !in keys)
            && (r.strip == None <==> STRIP !in keys)
            && (r.debugAssertions == None <==> DEBUG_ASSERTIONS !in keys)
  {
    ParsedIff(Rustc(), args);
    var items := Lex(Rustc(), args, false).value.items;
    NeedsValue(items, OPT_LEVEL);
    NeedsValue(items, DEBUGINFO);
    NeedsValue(items, STRIP);
    BoolGiven(Parsed(Rustc(), args).value.debugAssertions, items, DEBUG_ASSERTIONS);
  }

  lemma NoBareValue(key: string)
    requires key == OPT_LEVEL || key == DEBUGINFO || key == STRIP || key == DEBUG_ASSERTIONS
    ensures !LegalCodegen(key, None)
  {
    assert |key| == 9 || |key| == 5 || |key| == 16;
    assert key[0] in {'o', 'd', 's'} && (|key| == 16 ==> key[0] == 'd');
  }

  lemma NeedsValue(items: seq<Item>, key: string)
    requires key == OPT_LEVEL || key == DEBUGINFO || key == STRIP || key == DEBUG_ASSERTIONS
    requires forall item | item in items :: Legal(item)
    ensures Codegen(key, None) !in items
  {
    NoBareValue(key);
    assert !Legal(Codegen(key, None));
  }

  lemma BoolValue(key: string, value: string)
    requires key == DEBUG_ASSERTIONS && LegalCodegen(key, Some(value))
    ensures ParseBool(value).Some?
  {
    assert |key| == 16 && key[0] == 'd';
  }

  lemma BoolGiven(recorded: Option<bool>, items: seq<Item>, key: string)
    requires key == DEBUG_ASSERTIONS && AgreesBool(recorded, items, key)
    requires forall item | item in items :: Legal(item)
    ensures recorded == None <==> key !in Keys(items)
  {
    if recorded.Some? {
      assert GivenAs(items, key, recorded.value);
    }
    KeysMembers(items, key);
    NeedsValue(items, key);
    if key in Keys(items) {
      var v :| Codegen(key, v) in items;
      assert Legal(Codegen(key, v));
      BoolValue(key, v.value);
      assert recorded == ParseBool(v.value);
    }
  }

  // ---- A bare `--` ----

  /** A long option whose name begins with `cr`. */
  predicate BeginsCr(token: string) {
    |token| >= 4 && token[0] == '-' && token[1] == '-' && token[2] == 'c' && token[3] == 'r'
  }

  lemma NeitherProbeNorCodegen(token: string)
    requires BeginsCr(token)
    ensures ProbeForm(token) == None && CodegenForm(token) == None
  {
    assert token[3] == 'r';
  }

  lemma NotForbidden(token: string)
    requires BeginsCr(token)
    ensures ForbiddenForm(token) == None
  {
    assert token[3] == 'r';
  }

  lemma NotControl(token: string)
    requires BeginsCr(token)
    ensures ControlForm(token) == None
  {
    OtherLetters(token, "--target", Target);
    OtherLetters(token, "--emit", Emit);
    OtherLetters(token, "--cfg", Cfg);
    OtherLetters(token, "--check-cfg", CheckCfg);
  }

  lemma OtherLetters(token: string, name: string, kind: Kind)
    requires |token| >= 4 && |name| >= 4 && (token[2] != name[2] || token[3] != name[3])
    ensures LongOption(token, name, kind) == None
  {
  }

  lemma NotLink(token: string)
    requires BeginsCr(token)
    ensures LinkForm(token) == None
  {
    OtherLetters(token, "--library-path", SearchPath);
    OtherLetters(token, "--extern", Extern);
    assert token[1] == '-';
  }

  lemma NamesTheCrate(token: string)
    requires token == "--crate-name"
    ensures BeginsCr(token) && CrateForm(token) == Some(TakesNext(CrateName))
  {
  }

  lemma ClassifyCrateName(token: string)
    requires token == "--crate-name"
    ensures Classify(token) == TakesNext(CrateName) && !StartsWith(token, '@')
  {
    NamesTheCrate(token);
    NeitherProbeNorCodegen(token);
    NotForbidden(token);
    NotControl(token);
    NotLink(token);
  }

  lemma ClassifyDashes(token: string)
    requires token == "--"
    ensures Classify(token) == EndOfOptions && !StartsWith(token, '@')
  {
  }

  lemma LexDashes(g: Grammar, dashes: string)
    requires g.classify(dashes) == EndOfOptions && !StartsWith(dashes, '@')
    ensures Lex(g, [dashes], false) == Some(Lexed([], true))
  {
    var args := [dashes];
    assert args[1..] == [];
  }

  /** Three options and a bare `--`. */
  lemma LexFour(g: Grammar, a: seq<string>, b: seq<string>, c: seq<string>, d: seq<string>, i: Item, j: Item, k: Item)
    requires Lex(g, a, false) == Some(Lexed([i], false)) && Lex(g, b, false) == Some(Lexed([j], false))
    requires Lex(g, c, false) == Some(Lexed([k], false)) && Lex(g, d, false) == Some(Lexed([], true))
    ensures Lex(g, a + b + c + d, false) == Some(Lexed([i, j, k], true))
  {
    LexConcat(g, a, b, false);
    LexConcat(g, a + b, c, false);
    LexConcat(g, a + b + c, d, false);
    assert [i] + [j] == [i, j] && [i, j] + [k] == [i, j, k] && [i, j, k] + [] == [i, j, k];
  }

  lemma KeysOneMore(items: seq<Item>, item: Item)
    ensures Keys(items + [item]) == if item.Codegen? then Keys(items) + [item.key] else Keys(items)
  {
    OneMore(items, item);
  }

  lemma TextsOneMore(items: seq<Item>, item: Item, kind: Kind)
    ensures Texts(items + [item], kind)
         == if item.Valued? && item.kind == kind then Texts(items, kind) + [item.text] else Texts(items, kind)
  {
    OneMore(items, item);
  }

  lemma InTurn(i: Item, j: Item, k: Item)
    ensures [i, j, k] == [] + [i] + [j] + [k]
  {
  }

  lemma ThreeKeys(i: Item, j: Item, k: Item)
    requires i.Valued? && j.Codegen? && k.Codegen?
    ensures Keys([i, j, k]) == [j.key, k.key]
  {
    KeysOneMore([], i);
    KeysOneMore([] + [i], j);
    KeysOneMore([] + [i] + [j], k);
    InTurn(i, j, k);
  }

  lemma ThreeTexts(i: Item, j: Item, k: Item, kind: Kind)
    requires i.Valued? && j.Codegen? && k.Codegen?
    ensures Texts([i, j, k], kind) == if i.kind == kind then [i.text] else []
  {
    TextsOneMore([], i, kind);
    TextsOneMore([] + [i], j, kind);
    TextsOneMore([] + [i] + [j], k, kind);
    InTurn(i, j, k);
  }

  lemma HasElement(s: seq<string>)
    requires s != []
    ensures exists t :: t in s
  {
    assert s[0] in s;
  }

  lemma ThreeWellFormed(g: Grammar, i: Item, j: Item, k: Item)
    requires i.Valued? && i.kind == CrateName && j.Codegen? && k.Codegen? && j.key != k.key
    requires g.legal(i) && g.legal(j) && g.legal(k)
    ensures WellFormed(g, [i, j, k])
  {
    ThreeKeys(i, j, k);
    ThreeTexts(i, j, k, Target);
    ThreeTexts(i, j, k, Emit);
  }

  lemma ThreeControls(r: Record, i: Item, j: Item, k: Item, level: string)
    requires i.Valued? && i.kind == CrateName && j == Codegen(OPT_LEVEL, Some(level)) && k.Codegen?
    requires Faithful(r, [i, j, k])
    ensures r.target == None && r.optLevel == Some(level) && k.key in r.values
  {
    var items := [i, j, k];
    ThreeKeys(i, j, k);
    ThreeTexts(i, j, k, Target);
    assert items[1] in items && [j.key, k.key][1] in Keys(items);
    assert Agrees(r.optLevel, items, OPT_LEVEL);
  }

  lemma ThreeFlags(g: Grammar, r: Record, i: Item, j: Item, k: Item)
    requires i.Valued? && i.kind == CrateName && j.Codegen? && k.Codegen? && FaithfulFlags(g, r, [i, j, k])
    ensures r.crateName == Some(i.text) && r.crateTypes == [] && !r.llvm
  {
    ThreeTexts(i, j, k, CrateName);
    ThreeTexts(i, j, k, CrateType);
    ThreeTexts(i, j, k, Emit);
    if r.crateTypes != [] { HasElement(r.crateTypes); }
  }

  lemma ThreeItemsRecorded(g: Grammar, i: Item, j: Item, k: Item, level: string)
    requires i.Valued? && i.kind == CrateName && j == Codegen(OPT_LEVEL, Some(level)) && k.Codegen? && j.key != k.key
    requires g.legal(i) && g.legal(j) && g.legal(k)
    ensures Recorded(g, [i, j, k]).Some?
    ensures var r := Recorded(g, [i, j, k]).value;
            && r.target == None && r.crateName == Some(i.text) && r.crateTypes == [] && !r.llvm
            && r.optLevel == Some(level) && k.key in r.values
  {
    ThreeWellFormed(g, i, j, k);
    AcceptedIff(g, [i, j, k]);
    FlagsAgree(g, [i, j, k]);
    var r := Recorded(g, [i, j, k]).value;
    ThreeControls(r, i, j, k, level);
    ThreeFlags(g, r, i, j, k);
  }

  lemma CoreIsInjected(r: Record)
    requires r.target == None && r.crateName == Some(CORE) && r.crateTypes == [] && r.optLevel == Some(LEVEL_3)
    requires METADATA in r.values
    ensures InfoOf(r, Accelerated(Auto)).Some? && InfoOf(r, Accelerated(Auto)).value.inject
  {
  }

  lemma LevelIsPlain(key: string, value: string)
    requires key == OPT_LEVEL && value == LEVEL_3
    ensures Plain(key) && Plain(value) && '=' !in key && LegalCodegen(key, Some(value))
  {
    assert |key| == 9 && key[0] == 'o';
    assert value in Choices(key);
  }

  lemma MetadataIsPlain(key: string, value: string)
    requires key == METADATA && value == "x"
    ensures Plain(key) && Plain(value) && '=' !in key && LegalCodegen(key, Some(value)) && key != OPT_LEVEL
  {
    assert |key| == 8 && key[0] == 'm' && |OPT_LEVEL| == 9;
  }

  lemma CoreIsPlain(name: string)
    requires name == CORE
    ensures NonEmpty(name) && !StartsWith(name, '@')
  {
  }

  /** `-C key=value`. */
  function OptionPair(key: string, value: string): seq<string> { ["-C", key + "=" + value] }

  lemma OptionLexed(key: string, value: string)
    requires Plain(key) && Plain(value) && '=' !in key && key[0] != '@'
    ensures Lex(Rustc(), OptionPair(key, value), false) == Some(Lexed([Codegen(key, Some(value))], false))
  {
    var option := key + "=" + value;
    assert option[0] == key[0];
    SpellingsApart(option);
    CodegenItemOf(key, value);
  }

  /** Three options and a bare `--`: an accelerated compilation of the canonical core. */
  function DashedArgs(name: string, core: string, level: string, three: string, key: string, value: string,
                      dashes: string): seq<string>
  {
    [name, core] + OptionPair(level, three) + OptionPair(key, value) + [dashes]
  }

  lemma DashedItems(name: string, core: string, level: string, three: string, key: string, value: string,
                    dashes: string)
    requires name == "--crate-name" && core == CORE && level == OPT_LEVEL && three == LEVEL_3
    requires key == METADATA && value == "x" && dashes == "--"
    ensures Lex(Rustc(), DashedArgs(name, core, level, three, key, value, dashes), false)
         == Some(Lexed([Valued(CrateName, core), Codegen(level, Some(three)), Codegen(key, Some(value))], true))
  {
    ClassifyCrateName(name);
    CoreIsPlain(core);
    LexPair(Rustc(), name, core, false);
    LevelIsPlain(level, three);
    OptionLexed(level, three);
    MetadataIsPlain(key, value);
    OptionLexed(key, value);
    ClassifyDashes(dashes);
    LexDashes(Rustc(), dashes);
    LexFour(Rustc(), [name, core], OptionPair(level, three), OptionPair(key, value), [dashes],
            Valued(CrateName, core), Codegen(level, Some(three)), Codegen(key, Some(value)));
  }

  lemma CoreCompilationInjected(g: Grammar, args: seq<string>, i: Item, j: Item, k: Item, after: bool)
    requires Lex(g, args, false) == Some(Lexed([i, j, k], after)) && g.legal(i) && g.legal(j) && g.legal(k)
    requires i == Valued(CrateName, CORE) && j == Codegen(OPT_LEVEL, Some(LEVEL_3))
    requires k.Codegen? && k.key == METADATA && k.key != j.key
    ensures Prepared(g, true, args, Accelerated(Auto)).Some?
    ensures Prepared(g, true, args, Accelerated(Auto)).value.info.inject
  {
    ThreeItemsRecorded(g, i, j, k, LEVEL_3);
    CoreIsInjected(Recorded(g, [i, j, k]).value);
  }

  lemma DashedCoreAcceptedAgain(g: Grammar, args: seq<string>, i: Item, j: Item, k: Item)
    requires Guarded(g) && Lex(g, args, false) == Some(Lexed([i, j, k], true))
    requires g.legal(i) && g.legal(j) && g.legal(k)
    requires i == Valued(CrateName, CORE) && j == Codegen(OPT_LEVEL, Some(LEVEL_3))
    requires k.Codegen? && k.key == METADATA && k.key != j.key
    ensures AcceptedAgain(g, args)
  {
    CoreCompilationInjected(g, args, i, j, k, true);
    FedBackIffOperands(g, args, true, Accelerated(Auto));
  }

  /** The accelerated invocation is accepted and injected, and accepted once more when it is fed back in. */
  ghost predicate AcceptedAgain(g: Grammar, args: seq<string>) {
    var prepared := Prepared(g, true, args, Accelerated(Auto));
    prepared.Some? && prepared.value.info.inject && Parsed(g, prepared.value.args).Some?
  }

  lemma DashedItemsLegal(core: string, level: string, three: string, key: string, value: string)
    requires core == CORE && level == OPT_LEVEL && three == LEVEL_3 && key == METADATA && value == "x"
    ensures Rustc().legal(Valued(CrateName, core)) && Rustc().legal(Codegen(level, Some(three)))
    ensures Rustc().legal(Codegen(key, Some(value))) && key != level
  {
    CoreIsPlain(core);
    LevelIsPlain(level, three);
    MetadataIsPlain(key, value);
  }

  /** An accepted accelerated compilation of the core whose prepared arguments are accepted again. */
  lemma DashedArgsAcceptedAgain(name: string, core: string, level: string, three: string, key: string, value: string,
                                dashes: string)
    requires name == "--crate-name" && core == CORE && level == OPT_LEVEL && three == LEVEL_3
    requires key == METADATA && value == "x" && dashes == "--"
    ensures AcceptedAgain(Rustc(), DashedArgs(name, core, level, three, key, value, dashes))
  {
    DashedItems(name, core, level, three, key, value, dashes);
    DashedItemsLegal(core, level, three, key, value);
    RustcIsGuarded();
    DashedCoreAcceptedAgain(Rustc(), DashedArgs(name, core, level, three, key, value, dashes),
                            Valued(CrateName, core), Codegen(level, Some(three)), Codegen(key, Some(value)));
  }
}
