/** The arguments the controlled compiler driver understands (xtask/src/rustc_driver.rs, `ArgParser::parse` and
    its validators): what a token means, and which values are legal. */
module RustcGrammar {
  import opened Options
  import opened Text

  /** Options that carry a value. `Source` is an operand, `OtherValue` an option whose value is only checked. */
  datatype Kind = Print | Explain | Target | Emit | Cfg | CheckCfg | SearchPath | Extern | Link | CrateName
                | CrateType | Edition | Lint | CapLints | ErrorFormat | OtherValue | Source

  /** One argument, with its value. */
  datatype Item = Codegen(key: string, value: Option<string>) | Valued(kind: Kind, text: string) | Test | Stdin
                | Neutral | Forbidden

  /** What a token is in the place of an option: complete by itself, or in need of the token after it. */
  datatype Form = ResponseFile | EndOfOptions | Alone(item: Item) | TakesNext(kind: Kind) | TakesCodegen

  const RESERVED_CFG := "pnp_perimeter_spatial_accelerated"
  const ALLOWED_HOST := "x86_64-pc-windows-msvc"
  const ALLOWED_WASM_TARGET := "wasm32-unknown-unknown"
  const OPT_LEVEL := "opt-level"
  const DEBUGINFO := "debuginfo"
  const DEBUG_ASSERTIONS := "debug-assertions"
  const STRIP := "strip"
  const METADATA := "metadata"
  const EXTRA_FILENAME := "extra-filename"

  // ---- Tokens ----

  predicate StartsWith(s: string, c: char) { s != "" && s[0] == c }

  /** `parse_codegen`: `key` or `key=value`, trimmed. */
  function CodegenItem(raw: string): Item {
    var text := Trim(raw);
    if !NonEmpty(text) then Forbidden
    else
      match SplitOnce(text, '=')
      case None => Codegen(text, None)
      case Some((key, value)) => if NonEmpty(Trim(key)) then Codegen(Trim(key), Some(Trim(value))) else Forbidden
  }

  /** `name value` or `name=value`, where every leading `name=` is stripped from the value. */
  function LongOption(token: string, name: string, kind: Kind): Option<Form> {
    if token == name then Some(TakesNext(kind))
    else if name + "=" <= token then Some(Alone(Valued(kind, TrimStartMatches(token, name + "="))))
    else None
  }

  /** `-Lvalue` or `-L value`. */
  function ShortOption(token: string, name: string, kind: Kind): Option<Form> {
    if token == name then Some(TakesNext(kind))
    else if name <= token then Some(Alone(Valued(kind, token[|name|..])))
    else None
  }

  function FirstOf(a: Option<Form>, b: Option<Form>): Option<Form> { if a.Some? then a else b }

  /** Probes and verbosity. */
  function ProbeForm(token: string): Option<Form> {
    if token in {"-vV", "-V", "--version", "--verbose", "-v"} then Some(Alone(Neutral))
    else if token == "--explain" then Some(TakesNext(Explain))
    else LongOption(token, "--print", Print)
  }

  function CodegenForm(token: string): Option<Form> {
    if token == "-C" || token == "--codegen" then Some(TakesCodegen)
    else if "-C" <= token then
      var value := token[2..];
      Some(Alone(CodegenItem(if StartsWith(value, '=') then value[1..] else value)))
    else if "--codegen=" <= token then Some(Alone(CodegenItem(token[10..])))
    else if token == "-O" then Some(Alone(Codegen(OPT_LEVEL, Some("2"))))
    else if token == "-g" then Some(Alone(Codegen(DEBUGINFO, Some("2"))))
    else None
  }

  /** Unstable options, sysroots, other back ends and raw LLVM arguments. */
  function ForbiddenForm(token: string): Option<Form> {
    if || "-Z" <= token || token == "--unstable-options"
       || token == "--sysroot" || "--sysroot=" <= token
       || token == "--codegen-backend" || "--codegen-backend=" <= token
       || token == "--llvm-args" || "--llvm-args=" <= token
    then Some(Alone(Forbidden)) else None
  }

  function ControlForm(token: string): Option<Form> {
    FirstOf(LongOption(token, "--target", Target),
    FirstOf(LongOption(token, "--emit", Emit),
    FirstOf(LongOption(token, "--cfg", Cfg),
            LongOption(token, "--check-cfg", CheckCfg))))
  }

  function LinkForm(token: string): Option<Form> {
    FirstOf(ShortOption(token, "-L", SearchPath),
    FirstOf(LongOption(token, "--library-path", SearchPath),
    FirstOf(LongOption(token, "--extern", Extern),
            ShortOption(token, "-l", Link))))
  }

  function CrateForm(token: string): Option<Form> {
    FirstOf(LongOption(token, "--crate-name", CrateName),
    FirstOf(LongOption(token, "--crate-type", CrateType),
            LongOption(token, "--edition", Edition)))
  }

  predicate IsLintOption(token: string) {
    || token in {"--allow", "--warn", "--deny", "--forbid", "--force-warn"}
    || "--allow=" <= token || "--warn=" <= token || "--deny=" <= token || "--forbid=" <= token
    || "--force-warn=" <= token
    || (|token| >= 2 && token[0] == '-' && token[1] in {'A', 'W', 'D', 'F'})
  }

  function LintForm(token: string): Option<Form> {
    if !IsLintOption(token) then LongOption(token, "--cap-lints", CapLints)
    else if token in {"--allow", "--warn", "--deny", "--forbid", "--force-warn", "-A", "-W", "-D", "-F"} then
      Some(TakesNext(Lint))
    else
      match SplitOnce(token, '=')
      case Some((_, value)) => Some(Alone(Valued(Lint, value)))
      case None => Some(Alone(Valued(Lint, token[2..])))
  }

  predicate IsPlainOption(option: string) {
    option in {"--out-dir", "--json", "--color", "--diagnostic-width", "--remap-path-prefix", "--crate-version"}
  }

  function GenericForm(token: string): Option<Form> {
    if token == "--error-format" then Some(TakesNext(ErrorFormat))
    else if IsPlainOption(token) || token == "-o" then Some(TakesNext(OtherValue))
    else
      match SplitOnce(token, '=')
      case Some((option, value)) =>
        if option == "--error-format" then Some(Alone(Valued(ErrorFormat, value)))
        else if IsPlainOption(option) then Some(Alone(Valued(OtherValue, value)))
        else None
      case None => None
  }

  function RemainingForm(token: string): Form {
    if token == "--test" then Alone(Test)
    else if token == "-" then Alone(Stdin)
    else if token in {"--bench", "--remap-path-scope"} then Alone(Neutral)
    else if StartsWith(token, '-') then Alone(Forbidden)
    else Alone(Valued(Source, token))
  }

  /** The branches of the parser, in order. */
  function Classify(token: string): Form {
    if StartsWith(token, '@') then ResponseFile
    else if token == "--" then EndOfOptions
    else
      var form := FirstOf(ProbeForm(token), FirstOf(CodegenForm(token), FirstOf(ForbiddenForm(token),
                  FirstOf(ControlForm(token), FirstOf(LinkForm(token), FirstOf(CrateForm(token),
                  FirstOf(LintForm(token), GenericForm(token))))))));
      if form.Some? then form.value else RemainingForm(token)
  }

  // ---- Legal values ----

  predicate NonEmpty(value: string) { value != "" && '\0' !in value }

  predicate PathValue(value: string) { NonEmpty(value) && !StartsWith(value, '@') }

  /** The name a cfg sets. */
  function CfgKey(value: string): string { Trim(Before(value, '=')) }

  predicate IsLlvmOutput(output: string) { output in {"llvm-bc", "llvm-ir", "llvm-bitcode"} }

  function Outputs(value: string): seq<string> { Split(value, ',') }

  /** LLVM output is asked for. */
  predicate EmitsLlvm(value: string) { exists o | o in Outputs(value) :: IsLlvmOutput(Trim(o)) }

  /** No empty output, and LLVM output only by itself. */
  predicate LegalEmit(value: string) {
    && NonEmpty(value)
    && (forall o | o in Outputs(value) :: NonEmpty(Trim(o)))
    && (EmitsLlvm(value) ==> forall o | o in Outputs(value) :: IsLlvmOutput(Trim(o)))
  }

  /** Whether all outputs are named, and whether one of them is wanted. */
  method ScanOutputs(outputs: seq<string>, wanted: string -> bool) returns (named: bool, found: bool)
    ensures named <==> forall o | o in outputs :: NonEmpty(Trim(o))
    ensures named ==> (found <==> exists o | o in outputs :: wanted(Trim(o)))
  {
    found := false;
    for i := 0 to |outputs|
      invariant forall j | 0 <= j < i :: NonEmpty(Trim(outputs[j]))
      invariant found <==> exists j | 0 <= j < i :: wanted(Trim(outputs[j]))
    {
      if !NonEmpty(Trim(outputs[i])) { return false, found; }
      if wanted(Trim(outputs[i])) { found := true; }
    }
    named := true;
  }

  /** What a parser with grammar `g` makes of the value of `--emit`. */
  function EmitRule(g: Grammar, value: string): Option<bool> {
    if g.legal(Valued(Emit, value)) then Some(g.emitsLlvm(value)) else None
  }

  /** `validate_emit`: whether LLVM output is asked for, or None for an illegal value. This is what the driver's
      grammar hands to the parser. */
  method ValidateEmit(value: string) returns (r: Option<bool>)
    ensures r == if LegalEmit(value) then Some(EmitsLlvm(value)) else None
    ensures r == EmitRule(Rustc(), value)
  {
    r := JudgeEmit(value);
    RuleOfTheDriver(value);
  }

  lemma RuleOfTheDriver(value: string)
    ensures EmitRule(Rustc(), value) == if LegalEmit(value) then Some(EmitsLlvm(value)) else None
  {
  }

  method JudgeEmit(value: string) returns (r: Option<bool>)
    ensures r == if LegalEmit(value) then Some(EmitsLlvm(value)) else None
  {
    if !NonEmpty(value) { return None; }
    var named, hasLlvm := ScanOutputs(Outputs(value), IsLlvmOutput);
    if !named { return None; }
    if hasLlvm && exists o | o in Outputs(value) :: !IsLlvmOutput(Trim(o)) { return None; }
    r := Some(hasLlvm);
  }

  predicate LegalExtern(value: string) {
    && NonEmpty(value)
    && match SplitOnce(value, '=')
       case None => true
       case Some((_, path)) => path == "" || PathValue(path)
  }

  predicate LinkName(name: string) { name != "" && ' ' !in name && !StartsWith(name, '-') }

  predicate LegalLink(value: string) {
    && NonEmpty(value)
    && match SplitOnce(value, '=')
       case None => LinkName(value)
       case Some((kind, name)) =>
         kind in {"static", "dylib", "framework", "raw-dylib", "static-nobundle", "verbatim"} && LinkName(name)
  }

  function ParseBool(value: string): Option<bool> {
    if value in {"on", "yes", "true"} then Some(true)
    else if value in {"off", "no", "false"} then Some(false)
    else None
  }

  const TWO_TO_THE_32 := 0x1_0000_0000

  predicate LegalUnits(value: string) {
    var units := ParseUnsigned(value, TWO_TO_THE_32);
    units.Some? && units.value > 0
  }

  predicate IsBoolControl(key: string) {
    key in {DEBUG_ASSERTIONS, "overflow-checks", "embed-bitcode"}
  }

  /** The controls that list their values. */
  function Choices(key: string): set<string> {
    if key == OPT_LEVEL then {"0", "1", "2", "3", "s", "z"}
    else if key == DEBUGINFO then {"0", "1", "2", "none", "limited", "full"}
    else if key == "panic" then {"abort", "unwind"}
    else if key == "lto" then {"off", "thin", "fat", "true", "false"}
    else if key == STRIP then {"none", "debuginfo", "symbols"}
    else if key == "split-debuginfo" then {"off", "packed", "unpacked"}
    else if key == "symbol-mangling-version" then {"legacy", "v0"}
    else {}
  }

  predicate LegalCodegen(key: string, value: Option<string>) {
    if key in {"linker-plugin-lto", "prefer-dynamic"} then value.None?
    else if key in {"rpath", "force-unwind-tables"} then value.None? || ParseBool(value.value).Some?
    else if value.None? then false
    else if key == "codegen-units" then LegalUnits(value.value)
    else if key == "incremental" then PathValue(value.value)
    else if key in {METADATA, EXTRA_FILENAME} then NonEmpty(value.value)
    else if IsBoolControl(key) then ParseBool(value.value).Some?
    else value.value in Choices(key)
  }

  predicate LegalValue(kind: Kind, text: string) {
    match kind
    case Explain => true
    case Print | Target | CheckCfg | CrateName | CrateType | Lint => NonEmpty(text)
    case Emit => LegalEmit(text)
    case Cfg => NonEmpty(text) && CfgKey(text) != RESERVED_CFG
    case SearchPath | ErrorFormat | OtherValue | Source => PathValue(text)
    case Extern => LegalExtern(text)
    case Link => LegalLink(text)
    case Edition => text in {"2015", "2018", "2021", "2024"}
    case CapLints => text in {"allow", "warn", "deny", "forbid"}
  }

  predicate Legal(item: Item) {
    match item
    case Codegen(key, value) => LegalCodegen(key, value)
    case Valued(kind, text) => LegalValue(kind, text)
    case Forbidden => false
    case _ => true
  }

  /** A grammar of arguments; the parser is the same for each. */
  datatype Grammar = Grammar(classify: string -> Form, legal: Item -> bool, emitsLlvm: string -> bool)

  /** The grammar of the controlled driver. */
  function Rustc(): Grammar { Grammar(Classify, Legal, EmitsLlvm) }
}
