/** Regeneration seen on whole documents (xtask/src/gen_config_docs.rs, `run`): a text is cut at its markers, and the
    results about cut documents carry over. */
module Documents {
  import opened Orders
  import opened Options
  import opened Splice

  // ---- Cutting a text at its markers ----

  ghost predicate OpensWithMarker(doc: string, ms: set<string>) { exists m :: m in ms && m <= doc }

  /** Text and marks in turn, beginning and ending with text, which may be empty. */
  ghost predicate Alternating(pieces: seq<Piece>, ms: set<string>) {
    && |pieces| % 2 == 1
    && forall i | 0 <= i < |pieces| ::
         if i % 2 == 0 then pieces[i].Words? && Free(pieces[i].text, ms)
         else pieces[i].Mark? && pieces[i].text in ms
  }

  function WithChar(c: char, pieces: seq<Piece>): seq<Piece>
    requires pieces != []
  {
    [Words([c] + pieces[0].text)] + pieces[1..]
  }

  ghost function Cut(doc: string, ms: set<string>): (r: seq<Piece>)
    requires Markers(ms)
    ensures r != []
    decreases |doc|
  {
    if OpensWithMarker(doc, ms) then
      var m :| m in ms && m <= doc;
      assert IsMarker(m);
      [Words(""), Mark(m)] + Cut(doc[|m|..], ms)
    else if doc == "" then [Words("")]
    else WithChar(doc[0], Cut(doc[1..], ms))
  }

  lemma NotInPrefix(m: string, text: string, rest: string)
    requires !(m <= text + rest)
    ensures !(m <= text)
  {
    assert |m| <= |text| ==> (text + rest)[..|m|] == text[..|m|];
  }

  lemma WithCharIsCut(doc: string, pieces: seq<Piece>, ms: set<string>)
    requires Markers(ms) && Alternating(pieces, ms) && doc != "" && Render(pieces) == doc[1..]
    requires !OpensWithMarker(doc, ms)
    ensures Alternating(WithChar(doc[0], pieces), ms) && Render(WithChar(doc[0], pieces)) == doc
  {
    var text := pieces[0].text;
    var longer := [doc[0]] + text;
    var r := WithChar(doc[0], pieces);
    assert r[1..] == pieces[1..];
    assert doc == longer + Render(pieces[1..]);
    forall m | m in ms ensures Find(longer, m) == None {
      assert longer[1..] == text;
      NotInPrefix(m, longer, Render(pieces[1..]));
    }
  }

  lemma MarkAdded(doc: string, m: string, pieces: seq<Piece>, ms: set<string>)
    requires Markers(ms) && m in ms && m <= doc && Alternating(pieces, ms) && Render(pieces) == doc[|m|..]
    ensures Alternating([Words(""), Mark(m)] + pieces, ms) && Render([Words(""), Mark(m)] + pieces) == doc
  {
    var r := [Words(""), Mark(m)] + pieces;
    assert r[1..] == [Mark(m)] + pieces;
    assert r[1..][1..] == pieces;
    forall i | 0 <= i < |r|
      ensures if i % 2 == 0 then r[i].Words? && Free(r[i].text, ms) else r[i].Mark? && r[i].text in ms
    {
      assert i >= 2 ==> r[i] == pieces[i - 2];
    }
  }

  /** The cut of a text loses nothing, and finds every marker. */
  lemma {:induction false} CutIsFaithful(doc: string, ms: set<string>)
    requires Markers(ms)
    ensures Render(Cut(doc, ms)) == doc && Alternating(Cut(doc, ms), ms)
    decreases |doc|
  {
    if OpensWithMarker(doc, ms) {
      var m :| m in ms && m <= doc && Cut(doc, ms) == [Words(""), Mark(m)] + Cut(doc[|m|..], ms);
      assert IsMarker(m);
      CutIsFaithful(doc[|m|..], ms);
      MarkAdded(doc, m, Cut(doc[|m|..], ms), ms);
    } else if doc != "" {
      CutIsFaithful(doc[1..], ms);
      WithCharIsCut(doc, Cut(doc[1..], ms), ms);
    }
  }

  lemma AlternatingIsLaid(pieces: seq<Piece>, ms: set<string>)
    requires Alternating(pieces, ms)
    ensures Laid(pieces, ms)
  {
  }

  // ---- Finding the block of a step ----

  lemma LaidPart(pieces: seq<Piece>, ms: set<string>, i: nat, j: nat)
    requires Laid(pieces, ms) && i <= j <= |pieces|
    ensures Laid(pieces[i..j], ms)
  {
    var part := pieces[i..j];
    forall k, n | 0 <= k < n < |part| && n == k + 1 ensures part[k].Words? ==> part[n].Mark? {
      assert part[k] == pieces[i + k] && part[n] == pieces[i + n];
    }
  }

  /** Where the mark stands first, if anywhere. */
  lemma {:induction false} FirstMark(pieces: seq<Piece>, m: string) returns (k: nat)
    ensures k <= |pieces| && (k < |pieces| ==> pieces[k] == Mark(m))
    ensures forall j | 0 <= j < k :: pieces[j] != Mark(m)
  {
    if pieces == [] || pieces[0] == Mark(m) {
      k := 0;
    } else {
      k := FirstMark(pieces[1..], m);
      k := k + 1;
      assert forall j | 0 < j < k :: pieces[j] == pieces[1..][j - 1];
    }
  }

  /** Without the mark, `find` finds nothing. */
  lemma {:induction false} FindNoMark(pieces: seq<Piece>, ms: set<string>, m: string)
    requires Laid(pieces, ms) && Markers(ms) && m in ms && Mark(m) !in pieces
    ensures Find(Render(pieces), m) == None
  {
    if pieces != [] {
      LaidPart(pieces, ms, 1, |pieces|);
      var first, rest := pieces[0].text, pieces[1..];
      FindNoMark(rest, ms, m);
      if pieces[0].Mark? {
        assert pieces[0] in pieces;
        FindSkipsMarker(first, Render(rest), m);
      } else {
        if rest != [] { RenderOpens(rest, ms); }
        FindSkipsText(first, Render(rest), m);
      }
    }
  }

  /** The marker occurs exactly once, at `b`. */
  ghost predicate OccursOnceAt(doc: string, m: string, b: nat) {
    Find(doc, m) == Some(b) && Find(doc[b + |m|..], m) == None
  }

  ghost predicate OnlyAt(pieces: seq<Piece>, m: string, k: nat) {
    && k < |pieces| && pieces[k] == Mark(m)
    && forall j | 0 <= j < |pieces| :: pieces[j] == Mark(m) ==> j == k
  }

  lemma RestOf(pieces: seq<Piece>, k: nat)
    requires k < |pieces|
    ensures |Render(pieces[..k])| + |pieces[k].text| <= |Render(pieces)|
    ensures Render(pieces)[|Render(pieces[..k])| + |pieces[k].text|..] == Render(pieces[k + 1..])
  {
    RenderSplit(pieces, k);
    RenderAt(pieces, k);
  }

  lemma NotFoundNotThere(doc: string, pieces: seq<Piece>, ms: set<string>, m: string)
    requires Laid(pieces, ms) && Markers(ms) && m in ms && doc == Render(pieces) && Find(doc, m) == None
    ensures Mark(m) !in pieces
  {
    var k := FirstMark(pieces, m);
    if k < |pieces| { FindMark(pieces, ms, m, k); }
  }

  lemma FoundIsThere(doc: string, pieces: seq<Piece>, ms: set<string>, m: string) returns (k: nat)
    requires Laid(pieces, ms) && Markers(ms) && m in ms && doc == Render(pieces) && Find(doc, m).Some?
    ensures k < |pieces| && pieces[k] == Mark(m) && Find(doc, m) == Some(|Render(pieces[..k])|)
    ensures forall j | 0 <= j < k :: pieces[j] != Mark(m)
  {
    k := FirstMark(pieces, m);
    if k == |pieces| {
      FindNoMark(pieces, ms, m);
    } else {
      FindMark(pieces, ms, m, k);
    }
  }

  lemma NotBeforeNotAfter(pieces: seq<Piece>, m: string, k: nat)
    requires k < |pieces| && pieces[k] == Mark(m) && (forall j | 0 <= j < k :: pieces[j] != Mark(m))
    requires Mark(m) !in pieces[k + 1..]
    ensures OnlyAt(pieces, m, k)
  {
    forall j | 0 <= j < |pieces| ensures pieces[j] == Mark(m) ==> j == k {
      assert j > k ==> pieces[j] in pieces[k + 1..];
    }
  }

  /** A marker that occurs once is a single mark of the cut text. */
  lemma OnceIsOneMark(doc: string, pieces: seq<Piece>, ms: set<string>, m: string, b: nat) returns (k: nat)
    requires Laid(pieces, ms) && Markers(ms) && m in ms && doc == Render(pieces) && OccursOnceAt(doc, m, b)
    ensures OnlyAt(pieces, m, k) && b == |Render(pieces[..k])|
  {
    k := FoundIsThere(doc, pieces, ms, m);
    RestOf(pieces, k);
    LaidPart(pieces, ms, k + 1, |pieces|);
    NotFoundNotThere(doc[b + |m|..], pieces[k + 1..], ms, m);
    NotBeforeNotAfter(pieces, m, k);
  }

  /** Both markers of the step occur once, in their order, and no marker stands between them. */
  ghost predicate HasBlock(doc: string, ms: set<string>, step: Step) {
    && step.begin in ms && step.end in ms
    && exists b: nat, e: nat, text :: BlockBetween(doc, step, b, e, text) && Free(text, ms)
  }

  ghost predicate BlockBetween(doc: string, step: Step, b: nat, e: nat, text: string) {
    && OccursOnceAt(doc, step.begin, b) && OccursOnceAt(doc, step.end, e)
    && b + |step.begin| <= e && text == doc[b + |step.begin|..e]
  }

  lemma PrefixGrows(pieces: seq<Piece>, i: nat, j: nat)
    requires i <= j <= |pieces|
    ensures |Render(pieces[..i])| <= |Render(pieces[..j])|
  {
    assert pieces[..j] == pieces[..i] + pieces[i..j];
    RenderConcat(pieces[..i], pieces[i..j]);
  }

  lemma TextBetween(pieces: seq<Piece>, i: nat, j: nat)
    requires i < j <= |pieces|
    ensures |Render(pieces[..i])| + |pieces[i].text| <= |Render(pieces[..j])| <= |Render(pieces)|
    ensures Render(pieces)[|Render(pieces[..i])| + |pieces[i].text|..|Render(pieces[..j])|] == Render(pieces[i + 1..j])
  {
    RenderSplit(pieces, j);
    assert pieces[..j][..i] == pieces[..i] && pieces[..j][i + 1..] == pieces[i + 1..j];
    RestOf(pieces[..j], i);
  }

  /** Between the two marks of a block there is only text. */
  lemma MarksAreNear(text: string, pieces: seq<Piece>, ms: set<string>, i: nat, j: nat)
    requires Markers(ms) && Alternating(pieces, ms) && i < j < |pieces| && pieces[i].Mark? && pieces[j].Mark?
    requires text == Render(pieces[i + 1..j]) && Free(text, ms)
    ensures j == i + 2
  {
    if j > i + 2 {
      var between, m := pieces[i + 1..j], pieces[i + 2].text;
      assert i % 2 == 1;
      AlternatingIsLaid(pieces, ms);
      LaidPart(pieces, ms, i + 1, j);
      assert between[1] == Mark(m);
      var k := FirstMark(between, m);
      FindMark(between, ms, m, k);
    }
  }

  lemma BlockBetweenMarks(pieces: seq<Piece>, ms: set<string>, step: Step, k: nat, n: nat)
    requires Alternating(pieces, ms) && OnlyAt(pieces, step.begin, k) && OnlyAt(pieces, step.end, n) && n == k + 2
    ensures BlockAt(pieces, k, step)
  {
  }

  lemma MarksInOrder(pieces: seq<Piece>, k: nat, n: nat)
    requires k < |pieces| && n < |pieces| && pieces[k].text != ""
    requires |Render(pieces[..k])| + |pieces[k].text| <= |Render(pieces[..n])|
    ensures k < n
  {
    if n <= k { PrefixGrows(pieces, n, k); }
  }

  lemma FreeBetween(doc: string, text: string, pieces: seq<Piece>, ms: set<string>, k: nat, n: nat, b: nat, e: nat)
    requires Markers(ms) && Alternating(pieces, ms) && k < |pieces| && n < |pieces| && doc == Render(pieces)
    requires pieces[k].Mark? && pieces[n].Mark? && pieces[k].text != ""
    requires b == |Render(pieces[..k])| + |pieces[k].text| <= e == |Render(pieces[..n])| <= |doc|
    requires text == doc[b..e] && Free(text, ms)
    ensures n == k + 2
  {
    MarksInOrder(pieces, k, n);
    TextBetween(pieces, k, n);
    MarksAreNear(text, pieces, ms, k, n);
  }

  lemma BlockOf(doc: string, text: string, pieces: seq<Piece>, ms: set<string>, step: Step, b: nat, e: nat)
    returns (k: nat)
    requires Markers(ms) && Alternating(pieces, ms) && step.begin in ms && step.end in ms && doc == Render(pieces)
    requires BlockBetween(doc, step, b, e, text) && Free(text, ms)
    ensures BlockAt(pieces, k, step)
  {
    AlternatingIsLaid(pieces, ms);
    k := OnceIsOneMark(doc, pieces, ms, step.begin, b);
    var n := OnceIsOneMark(doc, pieces, ms, step.end, e);
    assert IsMarker(step.begin);
    FreeBetween(doc, text, pieces, ms, k, n, b + |step.begin|, e);
    BlockBetweenMarks(pieces, ms, step, k, n);
  }

  // ---- Documents reach a fixed point ----

  /** There is one block a step, and no body brings in a marker. */
  ghost predicate AllPlaced(doc: string, ms: set<string>, steps: seq<Step>) {
    forall i | 0 <= i < |steps| :: HasBlock(doc, ms, steps[i]) && Free(steps[i].body, ms)
  }

  ghost predicate OwnMarkers(steps: seq<Step>) {
    forall i, j | 0 <= i < j < |steps| :: steps[i].begin != steps[j].begin
  }

  ghost predicate WellFormed(doc: string, ms: set<string>, steps: seq<Step>) {
    Markers(ms) && AllPlaced(doc, ms, steps) && OwnMarkers(steps)
  }

  ghost predicate BlocksAt(pieces: seq<Piece>, steps: seq<Step>, at: seq<nat>) {
    |at| <= |steps| && forall i | 0 <= i < |at| :: BlockAt(pieces, at[i], steps[i])
  }

  lemma PlacedBlock(doc: string, pieces: seq<Piece>, ms: set<string>, step: Step) returns (k: nat)
    requires Markers(ms) && Alternating(pieces, ms) && doc == Render(pieces) && HasBlock(doc, ms, step)
    ensures BlockAt(pieces, k, step)
  {
    var b: nat, e: nat, text :| BlockBetween(doc, step, b, e, text) && Free(text, ms);
    k := BlockOf(doc, text, pieces, ms, step, b, e);
  }

  lemma {:induction false} AllBlocks(doc: string, pieces: seq<Piece>, ms: set<string>, steps: seq<Step>, n: nat)
    returns (at: seq<nat>)
    requires Markers(ms) && Alternating(pieces, ms) && doc == Render(pieces) && AllPlaced(doc, ms, steps)
    requires n <= |steps|
    ensures |at| == n && BlocksAt(pieces, steps, at)
  {
    if n == 0 {
      at := [];
    } else {
      var front := AllBlocks(doc, pieces, ms, steps, n - 1);
      var k := PlacedBlock(doc, pieces, ms, steps[n - 1]);
      at := front + [k];
      OneBlockMore(pieces, steps, front, k);
    }
  }

  lemma OneBlockMore(pieces: seq<Piece>, steps: seq<Step>, front: seq<nat>, k: nat)
    requires |front| < |steps| && BlocksAt(pieces, steps, front) && BlockAt(pieces, k, steps[|front|])
    ensures BlocksAt(pieces, steps, front + [k])
  {
  }

  lemma BlocksAreApart(pieces: seq<Piece>, steps: seq<Step>, at: seq<nat>)
    requires |at| == |steps| && BlocksAt(pieces, steps, at)
    requires OwnMarkers(steps)
    ensures Fits(pieces, steps, at)
  {
    forall i, j | 0 <= i < j < |at| ensures at[i] != at[j] {
      OtherPlace(pieces, at[i], at[j], steps[i], steps[j]);
    }
  }

  /** A well-formed document, cut at its markers, is laid out for its steps. */
  lemma CutHasLayout(doc: string, ms: set<string>, steps: seq<Step>) returns (at: seq<nat>)
    requires WellFormed(doc, ms, steps)
    ensures Render(Cut(doc, ms)) == doc && Layout(Cut(doc, ms), ms, steps, at)
  {
    var pieces := Cut(doc, ms);
    CutIsFaithful(doc, ms);
    at := AllBlocks(doc, pieces, ms, steps, |steps|);
    AlternatingIsLaid(pieces, ms);
    BlocksAreApart(pieces, steps, at);
  }

  /** Regenerating a well-formed document succeeds, and regenerating the result changes nothing. */
  lemma DocumentReachesFixedPoint(doc: string, ms: set<string>, steps: seq<Step>)
    requires WellFormed(doc, ms, steps)
    ensures ReachesFixedPoint(doc, steps)
  {
    var at := CutHasLayout(doc, ms, steps);
    LayoutReachesFixedPoint(Cut(doc, ms), ms, steps, at);
  }

  lemma ThreeOwnMarkers(steps: seq<Step>)
    requires |steps| == 3
    requires steps[0].begin != steps[1].begin && steps[1].begin != steps[2].begin && steps[2].begin != steps[0].begin
    ensures OwnMarkers(steps)
  {
  }

  /** A document with each of the three blocks once, and bodies free of the six markers: the check passes right after
      a run. */
  lemma DocumentCheckPasses(doc: string, modules: string, speeds: string, deviations: string,
                            a: string, b: string, c: string)
    requires modules == MODULES && speeds == SPEEDS && deviations == DEVIATIONS
    requires AllPlaced(doc, SixOf(modules, speeds, deviations), DocSteps(modules, speeds, deviations, a, b, c))
    ensures ReachesFixedPoint(doc, DocSteps(modules, speeds, deviations, a, b, c))
  {
    SixMarkersOf(modules, speeds, deviations);
    var ms, steps := SixOf(modules, speeds, deviations), DocSteps(modules, speeds, deviations, a, b, c);
    ThreeOwnMarkers(steps);
    DocumentReachesFixedPoint(doc, ms, steps);
  }
}
