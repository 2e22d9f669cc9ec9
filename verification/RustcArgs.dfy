/** The argument parser of the controlled compiler driver (xtask/src/rustc_driver.rs, `ArgParser` and
    `CodegenState`), and the function of the token list that it computes. */
module RustcArgs {
  import opened Orders
  import opened Options
  import opened Text
  import opened RustcGrammar

  // ---- From tokens to items ----

  /** The items of an argument list, and whether a bare `--` has been passed. */
  datatype Lexed = Lexed(items: seq<Item>, after: bool)

  /** What the value of an option that takes the next token amounts to. */
  function NextItem(form: Form, value: string): Item
    requires form.TakesNext? || form.TakesCodegen?
  {
    match form
    case TakesNext(kind) => Valued(kind, value)
    case TakesCodegen => CodegenItem(value)
  }

  /** None for a response file or a missing value. */
  function Lex(g: Grammar, args: seq<string>, after: bool): Option<Lexed>
    decreases |args|
  {
    if args == [] then Some(Lexed([], after))
    else if StartsWith(args[0], '@') then None
    else if after then LexMore(Valued(Source, args[0]), Lex(g, args[1..], true))
    else
      match g.classify(args[0])
      case ResponseFile => None
      case EndOfOptions => Lex(g, args[1..], true)
      case Alone(item) => LexMore(item, Lex(g, args[1..], false))
      case form =>
        if |args| == 1 || StartsWith(args[1], '@') then None
        else LexMore(NextItem(form, args[1]), Lex(g, args[2..], false))
  }

  function LexMore(item: Item, rest: Option<Lexed>): Option<Lexed> {
    match rest
    case None => None
    case Some(lexed) => Some(lexed.(items := [item] + lexed.items))
  }

  // ---- What parsing records ----

  datatype Control = TargetControl | EmitControl

  datatype Record = Record(target: Option<string>, crateName: Option<string>, crateTypes: seq<string>,
                           optLevel: Option<string>, debuginfo: Option<string>, debugAssertions: Option<bool>,
                           strip: Option<string>, values: set<string>, keyed: set<Control>, json: bool, llvm: bool,
                           isTest: bool, stdin: bool)

  function Blank(): Record {
    Record(None, None, [], None, None, None, None, {}, {}, false, false, false, false)
  }

  function RecordCodegen(r: Record, key: string, value: Option<string>): Record {
    r.(values := r.values + {key},
       optLevel := if key == OPT_LEVEL then value else r.optLevel,
       debuginfo := if key == DEBUGINFO then value else r.debuginfo,
       debugAssertions := if key == DEBUG_ASSERTIONS && value.Some? then ParseBool(value.value) else r.debugAssertions,
       strip := if key == STRIP then value else r.strip)
  }

  const JSON := "json"

  function RecordValue(g: Grammar, r: Record, kind: Kind, text: string): Record {
    match kind
    case Target => r.(keyed := r.keyed + {TargetControl}, target := Some(text))
    case Emit => r.(keyed := r.keyed + {EmitControl}, llvm := r.llvm || g.emitsLlvm(text))
    case CrateName => r.(crateName := Some(text))
    case CrateType => r.(crateTypes := r.crateTypes + Split(text, ','))
    case ErrorFormat => r.(json := r.json || text == JSON)
    case _ => r
  }

  /** The item repeats a control that may be given once. */
  predicate Repeats(r: Record, item: Item) {
    match item
    case Codegen(key, _) => key in r.values
    case Valued(Target, _) => TargetControl in r.keyed
    case Valued(Emit, _) => EmitControl in r.keyed
    case _ => false
  }

  function RecordItem(g: Grammar, r: Record, item: Item): Record {
    match item
    case Codegen(key, value) => RecordCodegen(r, key, value)
    case Valued(kind, text) => RecordValue(g, r, kind, text)
    case Test => r.(isTest := true)
    case Stdin => r.(stdin := true)
    case _ => r
  }

  /** The record after all items, or None when one of them is refused. */
  function Recorded(g: Grammar, items: seq<Item>): Option<Record> {
    if items == [] then Some(Blank())
    else
      var item := items[|items| - 1];
      match Recorded(g, items[..|items| - 1])
      case None => None
      case Some(r) => if g.legal(item) && !Repeats(r, item) then Some(RecordItem(g, r, item)) else None
  }

  /** The result of parsing: LLVM output is for probes that read standard input. */
  function Parsed(g: Grammar, args: seq<string>): Option<Record> {
    match Lex(g, args, false)
    case None => None
    case Some(lexed) =>
      match Recorded(g, lexed.items)
      case None => None
      case Some(r) => if r.llvm && !r.stdin then None else Some(r)
  }

  /** The lexer has turned the tokens before `index` into `done`. */
  ghost predicate Reached(g: Grammar, args: seq<string>, index: nat, after: bool, done: seq<Item>)
    requires index <= |args|
  {
    Lex(g, args, false) == Prepend(done, Lex(g, args[index..], after))
  }

  function Prepend(done: seq<Item>, rest: Option<Lexed>): Option<Lexed> {
    match rest
    case None => None
    case Some(lexed) => Some(lexed.(items := done + lexed.items))
  }

  lemma ReachedStart(g: Grammar, args: seq<string>)
    ensures Reached(g, args, 0, false, [])
  {
    assert args[0..] == args;
    var rest := Lex(g, args, false);
    if rest.Some? { assert [] + rest.value.items == rest.value.items; }
  }

  lemma ReachedEnd(g: Grammar, args: seq<string>, after: bool, done: seq<Item>)
    requires Reached(g, args, |args|, after, done)
    ensures Lex(g, args, false) == Some(Lexed(done, after))
  {
    assert args[|args|..] == [] && done + [] == done;
  }

  lemma Rest(args: seq<string>, index: nat)
    requires index < |args|
    ensures args[index..] != [] && args[index..][0] == args[index] && args[index..][1..] == args[index + 1..]
    ensures index + 2 <= |args| ==> args[index..][1] == args[index + 1] && args[index..][2..] == args[index + 2..]
  {
  }

  lemma Advance(g: Grammar, args: seq<string>, index: nat, after: bool, done: seq<Item>, item: Item, n: nat)
    requires index + n <= |args| && Reached(g, args, index, after, done)
    requires Lex(g, args[index..], after) == LexMore(item, Lex(g, args[index + n..], after))
    ensures Reached(g, args, index + n, after, done + [item])
  {
    var rest := Lex(g, args[index + n..], after);
    if rest.Some? { AppendAssociative(done, [item], rest.value.items); }
  }

  lemma RecordedOneMore(g: Grammar, done: seq<Item>, item: Item)
    ensures Recorded(g, done + [item]) == match Recorded(g, done)
      case None => None
      case Some(r) => if g.legal(item) && !Repeats(r, item) then Some(RecordItem(g, r, item)) else None
  {
    assert (done + [item])[..|done + [item]| - 1] == done;
  }

  /** What is refused stays refused, whatever follows. */
  lemma {:induction false} RefusedForGood(g: Grammar, done: seq<Item>, more: seq<Item>)
    requires Recorded(g, done) == None
    ensures Recorded(g, done + more) == None
  {
    if more == [] {
      assert done + more == done;
    } else {
      RefusedForGood(g, done, more[..|more| - 1]);
      assert (done + more)[..|done + more| - 1] == done + more[..|more| - 1];
    }
  }

  lemma Refused(g: Grammar, args: seq<string>, index: nat, after: bool, done: seq<Item>)
    requires index <= |args| && Reached(g, args, index, after, done) && Recorded(g, done) == None
    ensures Parsed(g, args) == None
  {
    var rest := Lex(g, args[index..], after);
    if rest.Some? { RefusedForGood(g, done, rest.value.items); }
  }

  // ---- The parser ----

  class CodegenState {
    var optLevel: Option<string>
    var debuginfo: Option<string>
    var debugAssertions: Option<bool>
    var strip: Option<string>
    var values: set<string>

    constructor ()
      ensures optLevel == debuginfo == strip == None && debugAssertions == None && values == {}
    {
      optLevel, debuginfo, debugAssertions, strip, values := None, None, None, None, {};
    }

    /** Rejects a key that has been given before and a value that is not legal for the key. */
    method Insert(key: string, value: Option<string>, g: Grammar) returns (ok: bool)
      modifies this
      ensures ok <==> key !in old(values) && g.legal(Codegen(key, value))
      ensures values == old(values) + {key}
      ensures ok ==> optLevel == if key == OPT_LEVEL then value else old(optLevel)
      ensures ok ==> debuginfo == if key == DEBUGINFO then value else old(debuginfo)
      ensures ok ==> strip == if key == STRIP then value else old(strip)
      ensures ok ==> debugAssertions == if key == DEBUG_ASSERTIONS && value.Some? then ParseBool(value.value)
                                        else old(debugAssertions)
    {
      var seen := key in values;
      values := values + {key};
      if seen || !g.legal(Codegen(key, value)) { return false; }
      if key == OPT_LEVEL {
        optLevel := value;
      } else if key == DEBUGINFO {
        debuginfo := value;
      } else if key == DEBUG_ASSERTIONS && value.Some? {
        debugAssertions := ParseBool(value.value);
      } else if key == STRIP {
        strip := value;
      }
      ok := true;
    }
  }

  class ArgParser {
    var target: Option<string>
    var crateName: Option<string>
    var crateTypes: seq<string>
    const codegen: CodegenState
    var keyedControls: set<Control>
    var errorFormatJson: bool
    var llvmProbe: bool
    var isProbe: bool
    var isTest: bool
    var sourceIsStdin: bool
    var afterOptions: bool

    constructor ()
      ensures fresh(codegen) && View() == Blank() && !afterOptions
    {
      codegen := new CodegenState();
      target, crateName, crateTypes, keyedControls := None, None, [], {};
      errorFormatJson, llvmProbe, isProbe := false, false, false;
      isTest, sourceIsStdin, afterOptions := false, false, false;
    }

    /** What has been recorded so far. */
    function View(): Record
      reads this, codegen
    {
      Record(target, crateName, crateTypes, codegen.optLevel, codegen.debuginfo, codegen.debugAssertions,
             codegen.strip, codegen.values, keyedControls, errorFormatJson, llvmProbe, isTest, sourceIsStdin)
    }

    method TakeValue(kind: Kind, text: string, g: Grammar) returns (ok: bool)
      modifies this
      ensures afterOptions == old(afterOptions)
      ensures ok <==> g.legal(Valued(kind, text)) && !Repeats(old(View()), Valued(kind, text))
      ensures ok ==> View() == RecordValue(g, old(View()), kind, text)
    {
      ok := g.legal(Valued(kind, text));
      if !ok { return; }
      match kind {
        case Target =>
          ok := TargetControl !in keyedControls;
          keyedControls, target := keyedControls + {TargetControl}, Some(text);
        case Emit =>
          ok := EmitControl !in keyedControls;
          keyedControls, llvmProbe := keyedControls + {EmitControl}, llvmProbe || g.emitsLlvm(text);
        case CrateName =>
          crateName := Some(text);
        case CrateType =>
          crateTypes := crateTypes + Split(text, ',');
        case ErrorFormat =>
          errorFormatJson := errorFormatJson || text == JSON;
        case _ =>
      }
    }

    method Take(item: Item, g: Grammar) returns (ok: bool)
      modifies this, codegen
      ensures afterOptions == old(afterOptions)
      ensures ok <==> g.legal(item) && !Repeats(old(View()), item)
      ensures ok ==> View() == RecordItem(g, old(View()), item)
    {
      match item {
        case Codegen(key, value) => ok := codegen.Insert(key, value, g);
        case Valued(kind, text) => ok := TakeValue(kind, text, g);
        case Test =>
          ok := g.legal(item);
          isTest := true;
        case Stdin =>
          ok := g.legal(item);
          sourceIsStdin := true;
        case _ => ok := g.legal(item);
      }
    }

    /** One turn of the loop: the token at `index`, and the token after it if that is its value. */
    method ParseToken(args: seq<string>, index: nat, g: Grammar, ghost done: seq<Item>)
      returns (ok: bool, next: nat, ghost done': seq<Item>)
      requires index < |args| && Reached(g, args, index, afterOptions, done)
      requires Recorded(g, done) == Some(View())
      modifies this, codegen
      ensures ok ==> index < next <= |args| && Reached(g, args, next, afterOptions, done')
      ensures ok ==> Recorded(g, done') == Some(View())
      ensures !ok ==> Parsed(g, args) == None
    {
      var token := args[index];
      next, done' := index + 1, done;
      Rest(args, index);
      if StartsWith(token, '@') { return false, next, done; }
      if afterOptions {
        ok, done' := TakeNext(args, index, Valued(Source, token), 1, g, done);
        return;
      }
      match g.classify(token) {
        case ResponseFile => ok := false;
        case EndOfOptions =>
          afterOptions := true;
          ok := true;
        case Alone(item) => ok, done' := TakeNext(args, index, item, 1, g, done);
        case form => ok, next, done' := TakeWithValue(args, index, form, g, done);
      }
    }

    /** An option whose value is the next token. */
    method TakeWithValue(args: seq<string>, index: nat, form: Form, g: Grammar, ghost done: seq<Item>)
      returns (ok: bool, next: nat, ghost done': seq<Item>)
      requires index < |args| && !afterOptions && Reached(g, args, index, false, done)
      requires !StartsWith(args[index], '@') && form == g.classify(args[index])
      requires form.TakesNext? || form.TakesCodegen?
      requires Recorded(g, done) == Some(View())
      modifies this, codegen
      ensures ok ==> index < next <= |args| && Reached(g, args, next, afterOptions, done')
      ensures ok ==> Recorded(g, done') == Some(View())
      ensures !ok ==> Parsed(g, args) == None
    {
      next, done' := index + 2, done;
      Rest(args, index);
      if next > |args| || StartsWith(args[index + 1], '@') { return false, next, done; }
      ok, done' := TakeNext(args, index, NextItem(form, args[index + 1]), 2, g, done);
    }

    /** Takes an item that the lexer finds in the `n` tokens at `index`. */
    method TakeNext(args: seq<string>, index: nat, item: Item, n: nat, g: Grammar, ghost done: seq<Item>)
      returns (ok: bool, ghost done': seq<Item>)
      requires index + n <= |args| && Reached(g, args, index, afterOptions, done)
      requires Recorded(g, done) == Some(View())
      requires Lex(g, args[index..], afterOptions) == LexMore(item, Lex(g, args[index + n..], afterOptions))
      modifies this, codegen
      ensures afterOptions == old(afterOptions)
      ensures ok ==> Reached(g, args, index + n, afterOptions, done') && Recorded(g, done') == Some(View())
      ensures !ok ==> Parsed(g, args) == None
    {
      done' := done + [item];
      RecordedOneMore(g, done, item);
      Advance(g, args, index, afterOptions, done, item, n);
      ok := Take(item, g);
      if !ok { Refused(g, args, index + n, afterOptions, done'); }
    }

    /** Accepts exactly the argument lists of the specification, and records what they say. */
    method Parse(args: seq<string>, g: Grammar) returns (ok: bool)
      requires View() == Blank() && !afterOptions
      modifies this, codegen
      ensures ok <==> Parsed(g, args).Some?
      ensures ok ==> View() == Parsed(g, args).value && isProbe == !CargoUnit(View())
    {
      var index := 0;
      ghost var done: seq<Item> := [];
      ReachedStart(g, args);
      while index < |args|
        invariant index <= |args| && Reached(g, args, index, afterOptions, done)
        invariant Recorded(g, done) == Some(View())
      {
        var taken, next;
        taken, next, done := ParseToken(args, index, g, done);
        if !taken { return false; }
        index := next;
      }
      ReachedEnd(g, args, afterOptions, done);
      if llvmProbe && !sourceIsStdin { return false; }
      var unit := HasCargoUnitSignature();
      isProbe := !unit;
      ok := true;
    }

    method HasCargoUnitSignature() returns (r: bool)
      ensures r == CargoUnit(View())
    {
      r := errorFormatJson || METADATA in codegen.values || EXTRA_FILENAME in codegen.values;
    }
  }

  /** The marks of a unit compiled by Cargo; everything else is a probe. */
  predicate CargoUnit(r: Record) {
    r.json || METADATA in r.values || EXTRA_FILENAME in r.values
  }
}
