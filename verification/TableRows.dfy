/** Splitting a Markdown table row into cells (xtask/src/check_deviations.rs, `split_row_cells`). Pipes are escaped
    as in section 4.10 of the GitHub Flavored Markdown Spec. */
module TableRows {
  import opened Orders

  const BACKSLASH := '\\'
  const PIPE := '|'

  /** The cells read so far, at least one, and whether the next character is taken literally. */
  datatype Row = Row(cells: seq<string>, escaped: bool)

  /** `c` is added to the last cell. */
  function Extended(cells: seq<string>, c: char): seq<string>
    requires cells != []
  {
    cells[..|cells| - 1] + [cells[|cells| - 1] + [c]]
  }

  function Step(row: Row, c: char): (r: Row)
    requires row.cells != []
    ensures r.cells != []
  {
    if row.escaped then Row(Extended(row.cells, c), false)
    else if c == BACKSLASH then Row(row.cells, true)
    else if c == PIPE then Row(row.cells + [""], false)
    else Row(Extended(row.cells, c), false)
  }

  function Read(line: string): (r: Row)
    ensures r.cells != []
  {
    if line == "" then Row([""], false) else Step(Read(line[..|line| - 1]), line[|line| - 1])
  }

  method SplitRowCells(line: string) returns (cells: seq<string>)
    ensures cells == Read(line).cells
  {
    cells := [""];
    var escaped := false;
    for i := 0 to |line|
      invariant cells != [] && Row(cells, escaped) == Read(line[..i])
    {
      TakeOneMore(line, i);
      var c := line[i];
      if escaped {
        cells := cells[..|cells| - 1] + [cells[|cells| - 1] + [c]];
        escaped := false;
      } else if c == BACKSLASH {
        escaped := true;
      } else if c == PIPE {
        cells := cells + [""];
      } else {
        cells := cells[..|cells| - 1] + [cells[|cells| - 1] + [c]];
      }
    }
    TakeAll(line);
  }

  // ---- Escaping and joining ----

  function Escape(cell: string): string {
    if cell == "" then "" else Escape(cell[..|cell| - 1]) + EscapeChar(cell[|cell| - 1])
  }

  function EscapeChar(c: char): string { if c == BACKSLASH || c == PIPE then [BACKSLASH, c] else [c] }

  function JoinRow(cells: seq<string>): string
    requires cells != []
  {
    if |cells| == 1 then Escape(cells[0])
    else JoinRow(cells[..|cells| - 1]) + [PIPE] + Escape(cells[|cells| - 1])
  }

  lemma ReadOneMore(line: string, c: char)
    ensures Read(line + [c]) == Step(Read(line), c)
  {
    assert (line + [c])[..|line + [c]| - 1] == line;
  }

  lemma ExtendedLast(front: seq<string>, last: string, c: char)
    ensures Extended(front + [last], c) == front + [last + [c]]
  {
  }

  lemma ReadEscapedChar(line: string, front: seq<string>, last: string, c: char)
    requires Read(line) == Row(front + [last], false)
    ensures Read(line + EscapeChar(c)) == Row(front + [last + [c]], false)
  {
    ExtendedLast(front, last, c);
    if c == BACKSLASH || c == PIPE {
      ReadOneMore(line, BACKSLASH);
      ReadOneMore(line + [BACKSLASH], c);
      assert line + EscapeChar(c) == (line + [BACKSLASH]) + [c];
    } else {
      ReadOneMore(line, c);
    }
  }

  /** Reading `line` ends in a cell that holds `last` so far. */
  ghost predicate EndsIn(read: string -> Row, line: string, front: seq<string>, last: string) {
    read(line) == Row(front + [last], false)
  }

  lemma {:induction false} EscapedCharByChar(read: string -> Row, line: string, front: seq<string>, last: string,
                                             cell: string)
    requires EndsIn(read, line, front, last)
    requires forall l, t, c | EndsIn(read, l, front, t) :: EndsIn(read, l + EscapeChar(c), front, t + [c])
    ensures EndsIn(read, line + Escape(cell), front, last + cell)
  {
    if cell == "" {
      assert line + Escape(cell) == line && last + cell == last;
    } else {
      var rest, c := cell[..|cell| - 1], cell[|cell| - 1];
      EscapedCharByChar(read, line, front, last, rest);
      assert EndsIn(read, line + Escape(rest) + EscapeChar(c), front, last + rest + [c]);
      assert line + Escape(cell) == line + Escape(rest) + EscapeChar(c) && last + cell == last + rest + [c];
    }
  }

  ghost function Reader(): string -> Row { line => Read(line) }

  /** Reading an escaped cell adds the cell's own text. */
  lemma ReadEscaped(line: string, front: seq<string>, last: string, cell: string)
    requires Read(line) == Row(front + [last], false)
    ensures Read(line + Escape(cell)) == Row(front + [last + cell], false)
  {
    forall l, t, c | EndsIn(Reader(), l, front, t) ensures EndsIn(Reader(), l + EscapeChar(c), front, t + [c]) {
      ReadEscapedChar(l, front, t, c);
    }
    EscapedCharByChar(Reader(), line, front, last, cell);
    assert EndsIn(Reader(), line + Escape(cell), front, last + cell);
  }

  lemma ReadOneCell(cell: string)
    ensures Read(Escape(cell)) == Row([cell], false)
  {
    var none: seq<string> := [];
    assert none + [""] == [""];
    ReadEscaped("", none, "", cell);
    assert "" + Escape(cell) == Escape(cell) && "" + cell == cell;
    assert none + [cell] == [cell];
  }

  lemma ReadOneCellMore(line: string, front: seq<string>, last: string)
    requires front != [] && Read(line) == Row(front, false)
    ensures Read(line + [PIPE] + Escape(last)) == Row(front + [last], false)
  {
    ReadOneMore(line, PIPE);
    ReadEscaped(line + [PIPE], front, "", last);
    assert "" + last == last;
  }

  lemma JoinOneMore(front: seq<string>, last: string)
    requires front != []
    ensures JoinRow(front + [last]) == JoinRow(front) + [PIPE] + Escape(last)
  {
    assert (front + [last])[..|front + [last]| - 1] == front;
  }

  /** Splitting undoes escaping and joining. */
  lemma {:induction false} SplitUndoesJoin(cells: seq<string>)
    requires cells != []
    ensures Read(JoinRow(cells)) == Row(cells, false)
  {
    if |cells| == 1 {
      assert cells == [cells[0]];
      ReadOneCell(cells[0]);
    } else {
      var front, last := cells[..|cells| - 1], cells[|cells| - 1];
      assert cells == front + [last];
      SplitUndoesJoin(front);
      ReadOneCellMore(JoinRow(front), front, last);
      JoinOneMore(front, last);
    }
  }

  // ---- Counting ----

  /** The number of backslashes at the end of the text. */
  function Backslashes(text: string): nat {
    if text != "" && text[|text| - 1] == BACKSLASH then 1 + Backslashes(text[..|text| - 1]) else 0
  }

  /** A pipe is escaped if an odd number of backslashes stands right before it. */
  predicate IsUnescapedPipe(line: string, i: nat)
    requires i < |line|
  {
    line[i] == PIPE && Backslashes(line[..i]) % 2 == 0
  }

  function UnescapedPipes(line: string): set<nat> {
    set i: nat | i < |line| && IsUnescapedPipe(line, i)
  }

  lemma {:induction false} EscapedIffOdd(line: string)
    ensures Read(line).escaped <==> Backslashes(line) % 2 == 1
  {
    if line != "" {
      EscapedIffOdd(line[..|line| - 1]);
    }
  }

  lemma PipesOneMore(line: string, c: char)
    ensures UnescapedPipes(line + [c])
         == UnescapedPipes(line) + if c == PIPE && Backslashes(line) % 2 == 0 then {|line|} else {}
  {
    assert (line + [c])[..|line|] == line;
    assert forall i: nat | i < |line| :: (line + [c])[..i] == line[..i];
  }

  /** There is one cell more than there are unescaped pipes. */
  lemma {:induction false} CellCount(line: string)
    ensures |Read(line).cells| == 1 + |UnescapedPipes(line)|
  {
    if line == "" {
      assert UnescapedPipes(line) == {};
    } else {
      var front, c := line[..|line| - 1], line[|line| - 1];
      assert line == front + [c];
      CellCount(front);
      EscapedIffOdd(front);
      PipesOneMore(front, c);
      assert |front| !in UnescapedPipes(front);
    }
  }
}
