/** The rendered screen: one line of text per row of a grid that holds wide cells (pkg/ptysession/session.go). */
module Render {
  import opened Bytes

  /** What the emulator stores for one column. The columns a wide cell spills over hold nothing of their own. */
  datatype Cell = Cell(content: string, width: int)

  type Row = seq<Option<Cell>>

  /** Something printed: a text, and how many columns it takes. */
  datatype Piece = Piece(text: string, cols: nat)

  const SPACE := Piece(" ", 1)

  predicate Blank(c: Option<Cell>) {
    c.None? || c.value.content == ""
  }

  /** How many columns the cell takes: at least one, whatever the emulator says. */
  function Columns(c: Option<Cell>): (n: nat)
    ensures n >= 1
  {
    if Blank(c) || c.value.width < 1 then 1 else c.value.width
  }

  function PieceOf(c: Option<Cell>): Piece {
    if Blank(c) then SPACE else Piece(c.value.content, Columns(c))
  }

  /** What is printed from column `x` on. */
  function Printed(row: Row, x: nat): seq<Piece>
    decreases |row| - x
  {
    if x >= |row| then [] else [PieceOf(row[x])] + Printed(row, x + Columns(row[x]))
  }

  function Text(ps: seq<Piece>): string {
    if ps == [] then "" else ps[0].text + Text(ps[1..])
  }

  function Width(ps: seq<Piece>): nat {
    if ps == [] then 0 else ps[0].cols + Width(ps[1..])
  }

  lemma PrintedEnd(row: Row, x: nat)
    requires x >= |row|
    ensures Printed(row, x) == [] && Text(Printed(row, x)) == "" && Width(Printed(row, x)) == 0
  {
  }

  lemma PrintedStep(row: Row, x: nat)
    requires x < |row|
    ensures var rest := Printed(row, x + Columns(row[x]));
            && Printed(row, x) == [PieceOf(row[x])] + rest
            && Text(Printed(row, x)) == PieceOf(row[x]).text + Text(rest)
            && Width(Printed(row, x)) == Columns(row[x]) + Width(rest)
  {
    assert Printed(row, x)[1..] == Printed(row, x + Columns(row[x]));
  }

  function Line(row: Row): string {
    Text(Printed(row, 0))
  }

  function LineWidth(row: Row): nat {
    Width(Printed(row, 0))
  }

  function Spaces(n: int): string
    decreases n
  {
    if n <= 0 then "" else Spaces(n - 1) + " "
  }

  // ----- Where things are printed -----

  /** Printing from column `from` on gets to the cell at `s`; the cells it skips are under a wide one. */
  predicate Reached(row: Row, from: nat, s: nat)
    decreases |row| - from
  {
    from < |row| && (s == from || Reached(row, from + Columns(row[from]), s))
  }

  /** Column `x` of the grid is under the cell that starts at `s`. */
  predicate Under(row: Row, s: nat, x: nat) {
    s < |row| && s <= x < s + Columns(row[s])
  }

  /** The cell at `s` goes past the right edge. */
  predicate SticksOut(row: Row, s: nat) {
    s < |row| && s + Columns(row[s]) > |row|
  }

  /** What is printed reaches the right edge, and no further unless the last cell sticks out. */
  lemma {:induction false} PrintedReachesTheEdge(row: Row, from: nat) returns (last: nat)
    requires from < |row|
    ensures Reached(row, from, last) && last < |row| <= last + Columns(row[last])
    ensures from + Width(Printed(row, from)) == last + Columns(row[last])
    ensures forall s :: Reached(row, from, s) && SticksOut(row, s) ==> s == last
    decreases |row| - from
  {
    hide Printed, Width, Columns;
    var next := from + Columns(row[from]);
    PrintedStep(row, from);
    if next >= |row| {
      PrintedEnd(row, next);
      last := from;
    } else {
      last := PrintedReachesTheEdge(row, next);
    }
  }

  /** For every column: the piece printed there, and the cell it shows, which is printed where it stands in the grid. */
  lemma {:induction false} PieceAt(row: Row, from: nat, x: nat) returns (k: nat, s: nat)
    requires from <= x < |row|
    ensures k < |Printed(row, from)| && from + Width(Printed(row, from)[..k]) == s
    ensures Reached(row, from, s) && Under(row, s, x) && Printed(row, from)[k] == PieceOf(row[s])
    decreases |row| - from
  {
    var ps := Printed(row, from);
    var next := from + Columns(row[from]);
    if x < next {
      k, s := 0, from;
    } else {
      var j;
      j, s := PieceAt(row, next, x);
      k := j + 1;
      assert ps[1..] == Printed(row, next);
      assert ps[..k][1..] == ps[1..][..j];
    }
  }

  /** A cell that no cell before it covers is printed in its own column, however many wide cells come before it. */
  lemma CellsKeepTheirColumns(row: Row, x: nat) returns (k: nat)
    requires x < |row|
    requires forall s: nat :: s < x ==> !Under(row, s, x)
    ensures k < |Printed(row, 0)|
    ensures Width(Printed(row, 0)[..k]) == x && Printed(row, 0)[k] == PieceOf(row[x])
  {
    var s;
    k, s := PieceAt(row, 0, x);
  }

  /** The emulator leaves the columns under a wide cell empty. */
  ghost predicate Tidy(row: Row) {
    forall s: nat, x: nat :: s < x < |row| && Under(row, s, x) ==> Blank(row[x])
  }

  /** In a tidy row everything that is there to see is printed, in its own column. */
  lemma NothingIsLost(row: Row, x: nat) returns (k: nat)
    requires Tidy(row) && x < |row| && !Blank(row[x])
    ensures k < |Printed(row, 0)|
    ensures Width(Printed(row, 0)[..k]) == x && Printed(row, 0)[k] == Piece(row[x].value.content, Columns(row[x]))
  {
    k := CellsKeepTheirColumns(row, x);
  }

  /** A line fills the grid, and is wider than the grid exactly if some cell that is printed sticks out. */
  lemma LineFillsTheGrid(row: Row)
    ensures LineWidth(row) >= |row|
    ensures LineWidth(row) == |row| <==> forall s: nat :: Reached(row, 0, s) ==> !SticksOut(row, s)
  {
    if row == [] {
      assert Printed(row, 0) == [];
    } else {
      var last := PrintedReachesTheEdge(row, 0);
      assert LineWidth(row) == last + Columns(row[last]);
      assert SticksOut(row, last) <==> LineWidth(row) > |row|;
    }
  }

  /** PROTOCOL.md says that lines are padded to the width of the screen; this one is wider. */
  lemma WiderThanTheScreen(text: string)
    requires text != ""
    ensures LineWidth([Some(Cell(text, 2))]) == 2
  {
    var row := [Some(Cell(text, 2))];
    assert Printed(row, 2) == [];
    assert Printed(row, 0) == [Piece(text, 2)] + [];
    assert Width([Piece(text, 2)]) == 2 + Width([]);
  }

  /** A cell that takes one column and one character. */
  predicate Narrow(c: Option<Cell>) {
    Blank(c) || (|c.value.content| == 1 && c.value.width <= 1)
  }

  function CharOf(c: Option<Cell>): char
    requires Narrow(c)
  {
    if Blank(c) then ' ' else c.value.content[0]
  }

  /** Without wide cells a line has one character per column: the cell's own, or a space. */
  lemma {:induction false} NarrowLine(row: Row, from: nat, x: nat)
    requires from <= x <= |row|
    requires forall k :: 0 <= k < |row| ==> Narrow(row[k])
    ensures |Text(Printed(row, from))| == |row| - from
    ensures x < |row| ==> Text(Printed(row, from))[x - from] == CharOf(row[x])
    decreases |row| - from
  {
    hide Printed, Text;
    if from < |row| {
      PrintedStep(row, from);
      assert Narrow(row[from]) && Columns(row[from]) == 1 && PieceOf(row[from]).text == [CharOf(row[from])];
      NarrowLine(row, from + 1, if x == from then x + 1 else x);
    } else {
      PrintedEnd(row, from);
    }
  }

  /** Said of the cells themselves: with ordinary characters and empty columns only, every character stands in its column. */
  lemma OrdinaryLine(row: Row, x: nat)
    requires x < |row|
    requires forall k :: 0 <= k < |row| && row[k].Some? ==> |row[k].value.content| == 1 && row[k].value.width == 1
    ensures |Line(row)| == |row|
    ensures Line(row)[x] == match row[x] case None => ' ' case Some(c) => c.content[0]
  {
    NarrowLine(row, 0, x);
  }

  /** And in any row a text that no earlier cell reaches is printed as it is, as wide as its cell, in its own column. */
  lemma TextInItsColumn(row: Row, x: nat, text: string, width: int) returns (k: nat)
    requires x < |row| && row[x] == Some(Cell(text, width)) && text != ""
    requires forall s :: 0 <= s < x && row[s].Some? ==> s + row[s].value.width <= x
    ensures k < |Printed(row, 0)| && Width(Printed(row, 0)[..k]) == x
    ensures Printed(row, 0)[k] == Piece(text, if width < 1 then 1 else width)
  {
    k := CellsKeepTheirColumns(row, x);
  }

  // ----- The loops -----

  /** Pads with spaces to the width of the grid. */
  method Pad(buf: string, width: nat, w: nat) returns (line: string)
    ensures line == buf + Spaces(w - width)
  {
    line := buf;
    var n := width;
    while n < w
      invariant n >= width && (n <= w || n == width)
      invariant line == buf + Spaces(n - width)
    {
      Associative(buf, Spaces(n - width), " ");
      line := line + " ";
      n := n + 1;
    }
  }

  /** One row. The padding never adds anything: a blank column has already been printed as a space. */
  method RenderRow(row: Row) returns (line: string)
    ensures line == Line(row)
  {
    hide Printed, Text;
    var buf, width, x := "", 0, 0;
    while x < |row|
      invariant width == x
      invariant buf + Text(Printed(row, x)) == Line(row)
      decreases |row| - x
    {
      var c := row[x];
      PrintedStep(row, x);
      Associative(buf, PieceOf(c).text, Text(Printed(row, x + Columns(c))));
      if c.None? || c.value.content == "" {
        buf := buf + " ";
        width := width + 1;
        x := x + 1;
        continue;
      }
      buf := buf + c.value.content;
      var cw := c.value.width;
      if cw < 1 {
        cw := 1;
      }
      width := width + cw;
      x := x + (cw - 1);
      x := x + 1;
    }
    PrintedEnd(row, x);
    line := Pad(buf, width, |row|);
  }

  /** The visible grid: exactly one line per row, top to bottom. */
  method RenderLocked(w: nat, grid: seq<Row>) returns (lines: array<string>)
    requires forall y :: 0 <= y < |grid| ==> |grid[y]| == w
    ensures fresh(lines) && lines.Length == |grid|
    ensures forall y :: 0 <= y < |grid| ==> lines[y] == Line(grid[y])
  {
    lines := new string[|grid|];
    for y := 0 to |grid|
      invariant forall k :: 0 <= k < y ==> lines[k] == Line(grid[k])
    {
      lines[y] := RenderRow(grid[y]);
    }
  }
}
