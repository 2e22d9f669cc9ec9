/** Regenerating marked blocks of a document (xtask/src/gen_config_docs.rs, `splice` and the loop of `run`). */
module Splice {
  import opened Orders
  import opened Options
  import opened Text

  // ---- The splice ----

  /** `str::find`: where `p` first occurs in `s`. */
  function Find(s: string, p: string): (r: Option<nat>)
    ensures r.Some? ==> r.value + |p| <= |s|
  {
    if p <= s then Some(0)
    else if s == "" then None
    else
      match Find(s[1..], p)
      case None => None
      case Some(i) => Some(i + 1)
  }

  datatype Spliced = Ok(doc: string) | MissingMarker(marker: string) | Misplaced(marker: string)

  function Splice(content: string, begin: string, end: string, body: string): Spliced {
    match Find(content, begin)
    case None => MissingMarker(begin)
    case Some(b) =>
      match Find(content, end)
      case None => MissingMarker(end)
      case Some(e) =>
        if e < b then Misplaced(end)
        else Ok(content[..b] + begin + "\n" + body + end + content[e + |end|..])
  }

  /** One block to regenerate. */
  datatype Step = Step(begin: string, end: string, body: string)

  /** All steps in order, each on the result of the one before. */
  function RunSteps(doc: string, steps: seq<Step>): Spliced {
    if steps == [] then Ok(doc)
    else
      match RunSteps(doc, steps[..|steps| - 1])
      case Ok(d) =>
        var step := steps[|steps| - 1];
        Splice(d, step.begin, step.end, step.body)
      case error => error
  }

  lemma {:induction false} FailedForGood(doc: string, steps: seq<Step>, i: nat)
    requires i <= |steps| && !RunSteps(doc, steps[..i]).Ok?
    ensures RunSteps(doc, steps) == RunSteps(doc, steps[..i])
    decreases |steps|
  {
    if i == |steps| {
      TakeAll(steps);
    } else {
      assert steps[..|steps| - 1][..i] == steps[..i];
      FailedForGood(doc, steps[..|steps| - 1], i);
    }
  }

  method Regenerate(doc: string, steps: seq<Step>) returns (r: Spliced)
    ensures r == RunSteps(doc, steps)
  {
    var d := doc;
    for i := 0 to |steps|
      invariant RunSteps(doc, steps[..i]) == Ok(d)
    {
      TakeOneMore(steps, i);
      var spliced := Splice(d, steps[i].begin, steps[i].end, steps[i].body);
      if !spliced.Ok? {
        FailedForGood(doc, steps, i + 1);
        return spliced;
      }
      d := spliced.doc;
    }
    TakeAll(steps);
    r := Ok(d);
  }

  // ---- Documents with marks ----

  /** A document in pieces: the markers, and the text between them. */
  datatype Piece = Mark(text: string) | Words(text: string)

  function Render(pieces: seq<Piece>): string {
    if pieces == [] then "" else pieces[0].text + Render(pieces[1..])
  }

  /** A marker opens with its only `<`. */
  predicate IsMarker(m: string) { m != "" && m[0] == '<' && forall i | 0 < i < |m| :: m[i] != '<' }

  /** No marker begins another. */
  ghost predicate Markers(ms: set<string>) {
    && (forall m | m in ms :: IsMarker(m))
    && (forall m, n | m in ms && n in ms && m != n :: !(m <= n))
  }

  ghost predicate Free(text: string, ms: set<string>) { forall m | m in ms :: Find(text, m) == None }

  /** The marks are markers, the text between them holds none, and no two texts touch. */
  ghost predicate Laid(pieces: seq<Piece>, ms: set<string>) {
    && (forall i | 0 <= i < |pieces| ::
          if pieces[i].Mark? then pieces[i].text in ms else Free(pieces[i].text, ms))
    && (forall i, j | 0 <= i < j < |pieces| && j == i + 1 :: pieces[i].Words? ==> pieces[j].Mark?)
  }

  lemma {:induction false} RenderConcat(a: seq<Piece>, b: seq<Piece>)
    ensures Render(a + b) == Render(a) + Render(b)
  {
    if a == [] {
      assert a + b == b;
    } else {
      assert (a + b)[1..] == a[1..] + b;
      RenderConcat(a[1..], b);
    }
  }

  function Shifted(found: Option<nat>, n: nat): Option<nat> {
    match found
    case None => None
    case Some(i) => Some(n + i)
  }

  lemma FindStep(c: char, tail: string, m: string)
    requires !(m <= [c] + tail)
    ensures Find([c] + tail, m) == Shifted(Find(tail, m), 1)
  {
    var s := [c] + tail;
    assert s[1..] == tail;
  }

  lemma FirstOfConcat(text: string, rest: string)
    requires text != ""
    ensures text + rest == [text[0]] + (text[1..] + rest)
    ensures text == [text[0]] + text[1..]
  {
  }

  /** A text without the marker is skipped, also when a `<` follows it. */
  lemma {:induction false} FindSkipsText(text: string, rest: string, m: string)
    requires IsMarker(m) && Find(text, m) == None && (rest != "" ==> rest[0] == '<')
    ensures Find(text + rest, m) == Shifted(Find(rest, m), |text|)
  {
    if text == "" {
      assert text + rest == rest;
    } else {
      NoMarkerAcross(text, rest, m);
      FindSkipsText(text[1..], rest, m);
      FirstOfConcat(text, rest);
      FindStep(text[0], text[1..] + rest, m);
    }
  }

  lemma NoMarkerAcross(text: string, rest: string, m: string)
    requires IsMarker(m) && text != "" && (rest != "" ==> rest[0] == '<') && !(m <= text)
    ensures !(m <= text + rest)
  {
    assert |m| <= |text| ==> (text + rest)[..|m|] == text[..|m|];
    if |m| > |text| {
      assert rest != "" ==> (text + rest)[|text|] == rest[0];
    }
  }

  lemma {:induction false} FindSkipsPlain(text: string, rest: string, m: string)
    requires IsMarker(m) && '<' !in text
    ensures Find(text + rest, m) == Shifted(Find(rest, m), |text|)
  {
    if text == "" {
      assert text + rest == rest;
    } else {
      assert text[0] in text;
      FindSkipsPlain(text[1..], rest, m);
      FirstOfConcat(text, rest);
      FindStep(text[0], text[1..] + rest, m);
    }
  }

  lemma MarkersApart(other: string, rest: string, m: string)
    requires !(m <= other) && !(other <= m)
    ensures !(m <= other + rest)
  {
    assert |m| <= |other| ==> (other + rest)[..|m|] == other[..|m|];
    assert (other + rest)[..|other|] == other;
  }

  /** Another marker is skipped. */
  lemma FindSkipsMarker(other: string, rest: string, m: string)
    requires IsMarker(m) && IsMarker(other) && !(m <= other) && !(other <= m)
    ensures Find(other + rest, m) == Shifted(Find(rest, m), |other|)
  {
    MarkersApart(other, rest, m);
    FindSkipsPlain(other[1..], rest, m);
    FirstOfConcat(other, rest);
    FindStep(other[0], other[1..] + rest, m);
  }

  lemma RenderOpens(pieces: seq<Piece>, ms: set<string>)
    requires Laid(pieces, ms) && Markers(ms) && pieces != [] && pieces[0].Mark?
    ensures Render(pieces) != "" && Render(pieces)[0] == '<'
  {
  }

  lemma LaidTail(pieces: seq<Piece>, ms: set<string>)
    requires Laid(pieces, ms) && pieces != []
    ensures Laid(pieces[1..], ms)
  {
  }

  /** `find` finds the first mark with that text. */
  lemma {:induction false} FindMark(pieces: seq<Piece>, ms: set<string>, m: string, k: nat)
    requires Laid(pieces, ms) && Markers(ms) && k < |pieces| && pieces[k] == Mark(m)
    requires forall j | 0 <= j < k :: pieces[j] != Mark(m)
    ensures Find(Render(pieces), m) == Some(|Render(pieces[..k])|)
    decreases k
  {
    var first, rest := pieces[0].text, pieces[1..];
    if k == 0 {
      assert pieces[..0] == [];
    } else {
      assert pieces[..k][1..] == rest[..k - 1];
      LaidTail(pieces, ms);
      FindMark(rest, ms, m, k - 1);
      if pieces[0].Mark? {
        FindSkipsMarker(first, Render(rest), m);
      } else {
        RenderOpens(rest, ms);
        FindSkipsText(first, Render(rest), m);
      }
    }
  }

  // ---- One splice ----

  /** The block of the step stands at `k`, and its markers nowhere else. */
  ghost predicate BlockAt(pieces: seq<Piece>, k: nat, step: Step) {
    && k + 2 < |pieces|
    && pieces[k] == Mark(step.begin) && pieces[k + 1].Words? && pieces[k + 2] == Mark(step.end)
    && (forall j | 0 <= j < |pieces| :: pieces[j] == Mark(step.begin) ==> j == k)
    && (forall j | 0 <= j < |pieces| :: pieces[j] == Mark(step.end) ==> j == k + 2)
  }

  /** What the block's text becomes. */
  function Fill(step: Step): Piece { Words("\n" + step.body) }

  lemma RenderAt(pieces: seq<Piece>, k: nat)
    requires k < |pieces|
    ensures Render(pieces[k..]) == pieces[k].text + Render(pieces[k + 1..])
  {
    assert pieces[k..][1..] == pieces[k + 1..];
  }

  lemma RenderSplit(pieces: seq<Piece>, k: nat)
    requires k <= |pieces|
    ensures Render(pieces) == Render(pieces[..k]) + Render(pieces[k..])
  {
    assert pieces == pieces[..k] + pieces[k..];
    RenderConcat(pieces[..k], pieces[k..]);
  }

  function Assemble(before: string, begin: string, text: string, end: string, after: string): string {
    before + (begin + (text + (end + after)))
  }

  lemma CutAround(pieces: seq<Piece>, k: nat)
    requires k + 2 < |pieces|
    ensures Render(pieces) == Assemble(Render(pieces[..k]), pieces[k].text, pieces[k + 1].text, pieces[k + 2].text,
                                       Render(pieces[k + 3..]))
    ensures |Render(pieces[..k + 2])| == |Render(pieces[..k])| + |pieces[k].text| + |pieces[k + 1].text|
  {
    RenderSplit(pieces, k);
    RenderAt(pieces, k);
    RenderAt(pieces, k + 1);
    RenderAt(pieces, k + 2);
    RenderSplit(pieces, k + 2);
  }

  lemma CutOut(before: string, begin: string, text: string, end: string, after: string)
    ensures var whole := Assemble(before, begin, text, end, after);
            && |whole| == |before| + |begin| + |text| + |end| + |after|
            && whole[..|before|] == before
            && whole[|before| + |begin| + |text| + |end|..] == after
  {
  }

  lemma NewText(before: string, begin: string, body: string, end: string, after: string)
    ensures before + begin + "\n" + body + end + after == Assemble(before, begin, "\n" + body, end, after)
  {
  }

  lemma SpliceText(before: string, begin: string, text: string, end: string, after: string, body: string)
    requires Find(Assemble(before, begin, text, end, after), begin) == Some(|before|)
    requires Find(Assemble(before, begin, text, end, after), end) == Some(|before| + |begin| + |text|)
    ensures Splice(Assemble(before, begin, text, end, after), begin, end, body)
         == Ok(Assemble(before, begin, "\n" + body, end, after))
  {
    CutOut(before, begin, text, end, after);
    NewText(before, begin, body, end, after);
  }

  /** A splice replaces the text of its block and nothing else. */
  lemma SpliceAt(pieces: seq<Piece>, ms: set<string>, k: nat, step: Step)
    requires Laid(pieces, ms) && Markers(ms) && BlockAt(pieces, k, step)
    ensures Splice(Render(pieces), step.begin, step.end, step.body) == Ok(Render(pieces[k + 1 := Fill(step)]))
  {
    FindMark(pieces, ms, step.begin, k);
    FindMark(pieces, ms, step.end, k + 2);
    CutAround(pieces, k);
    SpliceText(Render(pieces[..k]), step.begin, pieces[k + 1].text, step.end, Render(pieces[k + 3..]), step.body);
    Refilled(pieces, k, step);
  }

  lemma Refilled(pieces: seq<Piece>, k: nat, step: Step)
    requires k + 2 < |pieces|
    ensures Render(pieces[k + 1 := Fill(step)])
         == Assemble(Render(pieces[..k]), pieces[k].text, Fill(step).text, pieces[k + 2].text, Render(pieces[k + 3..]))
  {
    var filled := pieces[k + 1 := Fill(step)];
    CutAround(filled, k);
    assert filled[..k] == pieces[..k] && filled[k + 3..] == pieces[k + 3..];
  }

  lemma FillIsFree(step: Step, ms: set<string>)
    requires Markers(ms) && Free(step.body, ms)
    ensures Free(Fill(step).text, ms)
  {
    forall m | m in ms ensures Find("\n" + step.body, m) == None {
      FindSkipsPlain("\n", step.body, m);
    }
  }

  // ---- All steps ----

  /** Every step has its own block, at `at[i]`, and a body without markers. */
  ghost predicate Layout(pieces: seq<Piece>, ms: set<string>, steps: seq<Step>, at: seq<nat>) {
    && Markers(ms) && Laid(pieces, ms) && Fits(pieces, steps, at)
    && (forall i | 0 <= i < |steps| :: BlockAt(pieces, at[i], steps[i]) && Free(steps[i].body, ms))
  }

  ghost predicate Fits(pieces: seq<Piece>, steps: seq<Step>, at: seq<nat>) {
    |at| == |steps| && Distinct(at) && forall i | 0 <= i < |at| :: at[i] + 2 < |pieces|
  }

  /** The pieces after the first `n` steps. */
  function Filled(pieces: seq<Piece>, steps: seq<Step>, at: seq<nat>, n: nat): (r: seq<Piece>)
    requires n <= |steps| == |at| && forall i | 0 <= i < n :: at[i] + 1 < |pieces|
    ensures |r| == |pieces|
  {
    if n == 0 then pieces else Filled(pieces, steps, at, n - 1)[at[n - 1] + 1 := Fill(steps[n - 1])]
  }

  /** The steps change the texts of their blocks, and nothing else. */
  lemma {:induction false} FilledAt(pieces: seq<Piece>, steps: seq<Step>, at: seq<nat>, n: nat, j: nat)
    requires Fits(pieces, steps, at) && n <= |steps| && j < |pieces|
    ensures forall i | 0 <= i < n && j == at[i] + 1 :: Filled(pieces, steps, at, n)[j] == Fill(steps[i])
    ensures (forall i | 0 <= i < n :: j != at[i] + 1) ==> Filled(pieces, steps, at, n)[j] == pieces[j]
  {
    if n > 0 {
      FilledAt(pieces, steps, at, n - 1, j);
      assert forall i | 0 <= i < n - 1 :: at[i] != at[n - 1];
    }
  }

  /** Marks stay where they are, texts stay texts without markers. */
  ghost predicate SameMarks(pieces: seq<Piece>, filled: seq<Piece>, ms: set<string>) {
    && |filled| == |pieces|
    && forall j | 0 <= j < |pieces| ::
         if pieces[j].Mark? then filled[j] == pieces[j] else filled[j].Words? && Free(filled[j].text, ms)
  }

  lemma SameMarksSameLayout(pieces: seq<Piece>, filled: seq<Piece>, ms: set<string>, steps: seq<Step>, at: seq<nat>)
    requires Layout(pieces, ms, steps, at) && SameMarks(pieces, filled, ms)
    ensures Layout(filled, ms, steps, at)
  {
    forall i | 0 <= i < |steps| ensures BlockAt(filled, at[i], steps[i]) {
      SameMarksSameBlock(pieces, filled, ms, at[i], steps[i]);
    }
  }

  lemma SameMarksSameBlock(pieces: seq<Piece>, filled: seq<Piece>, ms: set<string>, k: nat, step: Step)
    requires BlockAt(pieces, k, step) && SameMarks(pieces, filled, ms)
    ensures BlockAt(filled, k, step)
  {
  }

  lemma SameMarksOneMore(pieces: seq<Piece>, filled: seq<Piece>, ms: set<string>, k: nat, step: Step)
    requires Markers(ms) && BlockAt(pieces, k, step) && SameMarks(pieces, filled, ms) && Free(step.body, ms)
    ensures SameMarks(pieces, filled[k + 1 := Fill(step)], ms)
  {
    FillIsFree(step, ms);
  }

  /** Filling one more block keeps the property. */
  ghost predicate KeptByFilling(keeps: seq<Piece> -> bool, steps: seq<Step>, at: seq<nat>, size: nat) {
    forall filled: seq<Piece>, i: nat |
      |filled| == size && keeps(filled) && i < |steps| && i < |at| && at[i] + 1 < size ::
      keeps(filled[at[i] + 1 := Fill(steps[i])])
  }

  lemma {:induction false} FilledKeeps(keeps: seq<Piece> -> bool, pieces: seq<Piece>, steps: seq<Step>, at: seq<nat>,
                                       n: nat)
    requires Fits(pieces, steps, at) && n <= |steps| && keeps(pieces) && KeptByFilling(keeps, steps, at, |pieces|)
    ensures keeps(Filled(pieces, steps, at, n))
  {
    if n > 0 { FilledKeeps(keeps, pieces, steps, at, n - 1); }
  }

  lemma FilledKeepsMarks(pieces: seq<Piece>, ms: set<string>, steps: seq<Step>, at: seq<nat>, n: nat)
    requires Layout(pieces, ms, steps, at) && n <= |steps|
    ensures SameMarks(pieces, Filled(pieces, steps, at, n), ms)
  {
    var keeps := filled => SameMarks(pieces, filled, ms);
    forall filled: seq<Piece>, i: nat | keeps(filled) && i < |steps|
      ensures keeps(filled[at[i] + 1 := Fill(steps[i])])
    {
      SameMarksOneMore(pieces, filled, ms, at[i], steps[i]);
    }
    FilledKeeps(keeps, pieces, steps, at, n);
  }

  lemma StepFills(pieces: seq<Piece>, ms: set<string>, steps: seq<Step>, at: seq<nat>, n: nat)
    requires Layout(pieces, ms, steps, at) && n < |steps|
    ensures var step := steps[n];
            Splice(Render(Filled(pieces, steps, at, n)), step.begin, step.end, step.body)
            == Ok(Render(Filled(pieces, steps, at, n + 1)))
  {
    var filled := Filled(pieces, steps, at, n);
    FilledKeepsMarks(pieces, ms, steps, at, n);
    SameMarksSameLayout(pieces, filled, ms, steps, at);
    SpliceAt(filled, ms, at[n], steps[n]);
  }

  lemma RunOneMore(doc: string, steps: seq<Step>, n: nat, d: string)
    requires n < |steps| && RunSteps(doc, steps[..n]) == Ok(d)
    ensures RunSteps(doc, steps[..n + 1]) == Splice(d, steps[n].begin, steps[n].end, steps[n].body)
  {
    TakeOneMore(steps, n);
  }

  /** `docs[i]` is the document after `i` steps. */
  ghost predicate Chain(docs: seq<string>, steps: seq<Step>) {
    && |docs| == |steps| + 1
    && forall i | 0 <= i < |steps| :: Splice(docs[i], steps[i].begin, steps[i].end, steps[i].body) == Ok(docs[i + 1])
  }

  lemma {:induction false} ChainRuns(docs: seq<string>, steps: seq<Step>, n: nat)
    requires Chain(docs, steps) && n <= |steps|
    ensures RunSteps(docs[0], steps[..n]) == Ok(docs[n])
  {
    if n == 0 {
      assert steps[..0] == [];
    } else {
      ChainRuns(docs, steps, n - 1);
      RunOneMore(docs[0], steps, n - 1, docs[n - 1]);
    }
  }

  /** The documents that the steps pass through. */
  ghost function Stages(pieces: seq<Piece>, steps: seq<Step>, at: seq<nat>): (docs: seq<string>)
    requires Fits(pieces, steps, at)
    ensures |docs| == |steps| + 1
    ensures forall n | 0 <= n <= |steps| :: docs[n] == Render(Filled(pieces, steps, at, n))
  {
    seq(|steps| + 1, n requires 0 <= n <= |steps| => Render(Filled(pieces, steps, at, n)))
  }

  lemma StageFollows(pieces: seq<Piece>, ms: set<string>, steps: seq<Step>, at: seq<nat>, i: nat)
    requires Layout(pieces, ms, steps, at) && i < |steps|
    ensures var docs := Stages(pieces, steps, at);
            Splice(docs[i], steps[i].begin, steps[i].end, steps[i].body) == Ok(docs[i + 1])
  {
    StepFills(pieces, ms, steps, at, i);
  }

  lemma StagesChain(pieces: seq<Piece>, ms: set<string>, steps: seq<Step>, at: seq<nat>)
    requires Layout(pieces, ms, steps, at)
    ensures Chain(Stages(pieces, steps, at), steps)
  {
    var docs := Stages(pieces, steps, at);
    forall i | 0 <= i < |steps|
      ensures Splice(docs[i], steps[i].begin, steps[i].end, steps[i].body) == Ok(docs[i + 1])
    {
      StageFollows(pieces, ms, steps, at, i);
    }
  }

  /** All splices succeed, and together they fill every block. */
  lemma StepsFill(pieces: seq<Piece>, ms: set<string>, steps: seq<Step>, at: seq<nat>)
    requires Layout(pieces, ms, steps, at)
    ensures RunSteps(Render(pieces), steps) == Ok(Render(Filled(pieces, steps, at, |steps|)))
  {
    StagesChain(pieces, ms, steps, at);
    ChainRuns(Stages(pieces, steps, at), steps, |steps|);
    TakeAll(steps);
  }

  lemma FilledTwice(pieces: seq<Piece>, ms: set<string>, steps: seq<Step>, at: seq<nat>)
    requires Layout(pieces, ms, steps, at)
    ensures Filled(Filled(pieces, steps, at, |steps|), steps, at, |steps|) == Filled(pieces, steps, at, |steps|)
  {
    var n := |steps|;
    var once := Filled(pieces, steps, at, n);
    FilledKeepsMarks(pieces, ms, steps, at, n);
    forall j | 0 <= j < |pieces| ensures Filled(once, steps, at, n)[j] == once[j] {
      FilledAt(pieces, steps, at, n, j);
      FilledAt(once, steps, at, n, j);
    }
  }

  /** Regeneration succeeds on every document with one block a step, in whatever order the blocks stand; it
      replaces the blocks' texts and nothing else; and doing it again changes nothing. */
  lemma RegenerationIsAFixedPoint(pieces: seq<Piece>, ms: set<string>, steps: seq<Step>, at: seq<nat>)
    requires Layout(pieces, ms, steps, at)
    ensures var filled := Filled(pieces, steps, at, |steps|);
            && RunSteps(Render(pieces), steps) == Ok(Render(filled))
            && RunSteps(Render(filled), steps) == Ok(Render(filled))
            && (forall j | 0 <= j < |pieces| ::
                  (forall i | 0 <= i < |steps| :: j != at[i] + 1) ==> filled[j] == pieces[j])
  {
    var filled := Filled(pieces, steps, at, |steps|);
    StepsFill(pieces, ms, steps, at);
    FilledKeepsMarks(pieces, ms, steps, at, |steps|);
    SameMarksSameLayout(pieces, filled, ms, steps, at);
    StepsFill(filled, ms, steps, at);
    FilledTwice(pieces, ms, steps, at);
    forall j | 0 <= j < |pieces| && forall i | 0 <= i < |steps| :: j != at[i] + 1
      ensures filled[j] == pieces[j]
    {
      FilledAt(pieces, steps, at, |steps|, j);
    }
  }

  // ---- The markers of the configuration reference ----

  const BEGIN := "<!-- BEGIN GENERATED: "
  const BEGIN_TAIL := " (cargo xtask gen-config-docs) -->"
  const END := "<!-- END GENERATED: "
  const END_TAIL := " -->"
  const MODULES := "module-config-keys"
  const SPEEDS := "host-speeds"
  const DEVIATIONS := "orca-deviations"

  function Begin(name: string): string { BEGIN + name + BEGIN_TAIL }

  function End(name: string): string { END + name + END_TAIL }

  /** Begin markers differ from end markers at index 5, and markers of one kind where their names start. */
  ghost predicate Told(m: string, kind: char, i: nat, letter: char) {
    IsMarker(m) && i < |m| && 5 < |m| && m[5] == kind && m[i] == letter
  }

  predicate Fixed(head: string, tail: string, kind: char, length: nat) {
    && |head| == length > 5 && head[0] == '<' && head[5] == kind
    && (forall i | 0 < i < |head| :: head[i] != '<') && '<' !in tail
  }

  lemma BeginParts(head: string, tail: string)
    requires head == BEGIN && tail == BEGIN_TAIL
    ensures Fixed(head, tail, 'B', 22)
  {
  }

  lemma EndParts(head: string, tail: string)
    requires head == END && tail == END_TAIL
    ensures Fixed(head, tail, 'E', 20)
  {
  }

  lemma NamedMarker(head: string, name: string, tail: string, kind: char, length: nat)
    requires Fixed(head, tail, kind, length) && name != "" && '<' !in name
    ensures Told(head + name + tail, kind, length, name[0])
  {
    var m := head + name + tail;
    forall i | 0 < i < |m| ensures m[i] != '<' {
      assert if i < |head| then m[i] == head[i] else m[i] in name || m[i] in tail;
    }
  }

  lemma BlockMarkers(name: string)
    requires name != "" && '<' !in name
    ensures Told(Begin(name), 'B', 22, name[0]) && Told(End(name), 'E', 20, name[0])
  {
    BeginParts(BEGIN, BEGIN_TAIL);
    EndParts(END, END_TAIL);
    NamedMarker(BEGIN, name, BEGIN_TAIL, 'B', 22);
    NamedMarker(END, name, END_TAIL, 'E', 20);
  }

  lemma Names(modules: string, speeds: string, deviations: string)
    requires modules == MODULES && speeds == SPEEDS && deviations == DEVIATIONS
    ensures modules != "" && modules[0] == 'm' && '<' !in modules
    ensures speeds != "" && speeds[0] == 'h' && '<' !in speeds
    ensures deviations != "" && deviations[0] == 'o' && '<' !in deviations
  {
  }

  function SixOf(modules: string, speeds: string, deviations: string): set<string> {
    {Begin(modules), End(modules), Begin(speeds), End(speeds), Begin(deviations), End(deviations)}
  }

  lemma SixMarkers(a: string, b: string, c: string, d: string, e: string, f: string)
    requires Told(a, 'B', 22, 'm') && Told(b, 'E', 20, 'm')
    requires Told(c, 'B', 22, 'h') && Told(d, 'E', 20, 'h')
    requires Told(e, 'B', 22, 'o') && Told(f, 'E', 20, 'o')
    ensures Markers({a, b, c, d, e, f})
  {
    var ms := {a, b, c, d, e, f};
    forall m, n | m in ms && n in ms && m != n ensures !(m <= n) {
      assert m[5] == n[5] ==> if m[5] == 'B' then m[22] != n[22] else m[20] != n[20];
    }
  }

  lemma SixMarkersOf(modules: string, speeds: string, deviations: string)
    requires modules == MODULES && speeds == SPEEDS && deviations == DEVIATIONS
    ensures Markers(SixOf(modules, speeds, deviations))
    ensures Begin(modules) != Begin(speeds) && Begin(speeds) != Begin(deviations) && Begin(deviations) != Begin(modules)
  {
    Names(modules, speeds, deviations);
    BlockMarkers(modules);
    BlockMarkers(speeds);
    BlockMarkers(deviations);
    SixMarkers(Begin(modules), End(modules), Begin(speeds), End(speeds), Begin(deviations), End(deviations));
  }

  function BlockStep(name: string, body: string): Step { Step(Begin(name), End(name), body) }

  /** The three steps of a run. */
  function DocSteps(modules: string, speeds: string, deviations: string, a: string, b: string, c: string): seq<Step> {
    [BlockStep(modules, a), BlockStep(speeds, b), BlockStep(deviations, c)]
  }

  /** On a document that has each of the three blocks once, with bodies free of the six markers, a run succeeds, and
      a check right after it finds nothing to change. */
  lemma CheckPassesAfterRun(pieces: seq<Piece>, at: seq<nat>, modules: string, speeds: string, deviations: string,
                            a: string, b: string, c: string)
    requires modules == MODULES && speeds == SPEEDS && deviations == DEVIATIONS
    requires Laid(pieces, SixOf(modules, speeds, deviations)) && |at| == 3
    requires BlockAt(pieces, at[0], BlockStep(modules, a)) && Free(a, SixOf(modules, speeds, deviations))
    requires BlockAt(pieces, at[1], BlockStep(speeds, b)) && Free(b, SixOf(modules, speeds, deviations))
    requires BlockAt(pieces, at[2], BlockStep(deviations, c)) && Free(c, SixOf(modules, speeds, deviations))
    ensures ReachesFixedPoint(Render(pieces), DocSteps(modules, speeds, deviations, a, b, c))
  {
    SixMarkersOf(modules, speeds, deviations);
    var ms := SixOf(modules, speeds, deviations);
    ThreeBlocks(pieces, ms, at, BlockStep(modules, a), BlockStep(speeds, b), BlockStep(deviations, c));
  }

  ghost predicate ReachesFixedPoint(doc: string, steps: seq<Step>) {
    exists d :: RunSteps(doc, steps) == Ok(d) && RunSteps(d, steps) == Ok(d)
  }

  lemma LayoutReachesFixedPoint(pieces: seq<Piece>, ms: set<string>, steps: seq<Step>, at: seq<nat>)
    requires Layout(pieces, ms, steps, at)
    ensures ReachesFixedPoint(Render(pieces), steps)
  {
    RegenerationIsAFixedPoint(pieces, ms, steps, at);
  }

  lemma OtherPlace(pieces: seq<Piece>, j: nat, k: nat, x: Step, y: Step)
    requires BlockAt(pieces, j, x) && BlockAt(pieces, k, y) && x.begin != y.begin
    ensures j != k
  {
  }

  lemma ThreeFit(at: seq<nat>, steps: seq<Step>, pieces: seq<Piece>)
    requires |at| == |steps| == 3 && at[0] != at[1] && at[1] != at[2] && at[2] != at[0]
    requires at[0] + 2 < |pieces| && at[1] + 2 < |pieces| && at[2] + 2 < |pieces|
    ensures Fits(pieces, steps, at)
  {
  }

  lemma ThreeBlocks(pieces: seq<Piece>, ms: set<string>, at: seq<nat>, x: Step, y: Step, z: Step)
    requires Markers(ms) && Laid(pieces, ms) && |at| == 3
    requires BlockAt(pieces, at[0], x) && BlockAt(pieces, at[1], y) && BlockAt(pieces, at[2], z)
    requires Free(x.body, ms) && Free(y.body, ms) && Free(z.body, ms)
    requires x.begin != y.begin && y.begin != z.begin && z.begin != x.begin
    ensures ReachesFixedPoint(Render(pieces), [x, y, z])
  {
    var steps := [x, y, z];
    OtherPlace(pieces, at[0], at[1], x, y);
    OtherPlace(pieces, at[1], at[2], y, z);
    OtherPlace(pieces, at[2], at[0], z, x);
    ThreeFit(at, steps, pieces);
    LayoutReachesFixedPoint(pieces, ms, steps, at);
  }
}
