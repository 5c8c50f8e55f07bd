/** Drawing symbols from text patterns (`Symbol.with_pattern`).

A pattern is a list of text lines laid over a template grid: line `r`
describes template row `r` (rows taken in ascending order) and character `c`
of it describes template column `c`. `|` draws a vertical stick, `_` a
horizontal one, `+` both, a blank nothing; any other character, or a stick
that the template does not contain, rejects the pattern. Lines and
characters beyond the template's grid are ignored, as is any part of the grid
that the pattern does not reach.
*/
module Patterns {
  import opened Shapes
  import opened Symbols

  /** The outcome of `with_pattern`: the drawn collection, or the `ValueError` it raises. */
  datatype Drawing = Drawn(collection: StickCollection) | Rejected

  /** A symbol built from a pattern, or the `ValueError`. */
  datatype Made = Made(symbol: Symbol) | PatternError

  /** Every stick a digit may use: three horizontal bars at rows 0, 4, 8 and four verticals. */
  function DigitSticks(): (t: set<Stick>)
    ensures |t| == 7
  {
    var s := {Stick(0, 1, Horizontal), Stick(4, 0, Vertical), Stick(4, 1, Horizontal), Stick(4, 2, Vertical),
              Stick(8, 0, Vertical), Stick(8, 1, Horizontal), Stick(8, 2, Vertical)};
    assert |s| == 7;
    s
  }

  /** Every stick an operator may use: three stacked horizontal bars and one vertical. */
  function OperatorSticks(): (t: set<Stick>)
    ensures |t| == 4
  {
    var s := {Stick(1, 1, Horizontal), Stick(2, 1, Horizontal), Stick(3, 1, Horizontal), Stick(4, 1, Vertical)};
    assert |s| == 4;
    s
  }

  /** The template of a symbol class; equality operators inherit the operator template. */
  function TemplateOf(k: Kind): set<Stick> {
    if k == Digit then DigitSticks() else OperatorSticks()
  }

  // ---------------------------------------------------------------------------
  // Sorting the template's rows and columns

  /** The members of a finite set of integers in ascending order (Python's `sorted`). */
  function Ascending(xs: set<int>): (r: seq<int>)
    ensures |r| == |xs|
    ensures forall k | 0 <= k < |r| :: r[k] in xs
    decreases |xs|
  {
    if xs == {} then [] else
    var m := MinOf(xs);
    [m] + Ascending(xs - {m})
  }

  lemma {:induction false} AscendingIncreasing(xs: set<int>)
    ensures Increasing(Ascending(xs))
    decreases |xs|
  {
    if xs != {} {
      var m := MinOf(xs);
      var rest := Ascending(xs - {m});
      AscendingIncreasing(xs - {m});
      var r := Ascending(xs);
      assert r == [m] + rest;
      forall a, b | 0 <= a < b < |r| ensures r[a] < r[b] {
        assert r[b] == rest[b - 1];
        if a == 0 {
          assert rest[b - 1] in xs - {m};
        } else {
          assert r[a] == rest[a - 1];
        }
      }
    }
  }

  /** Every member of the set has its place in the sorted listing. */
  lemma {:induction false} AscendingIndex(xs: set<int>, x: int) returns (k: nat)
    requires x in xs
    ensures k < |Ascending(xs)| && Ascending(xs)[k] == x
    decreases |xs|
  {
    var m := MinOf(xs);
    if x == m {
      k := 0;
    } else {
      var k' := AscendingIndex(xs - {m}, x);
      k := k' + 1;
    }
  }

  /** `sorted` starts with the least member and continues with the rest in order. */
  lemma AscendingStep(xs: set<int>, m: int)
    requires m in xs && forall x | x in xs :: m <= x
    ensures Ascending(xs) == [m] + Ascending(xs - {m})
  {
    hide MinOf;
    assert MinOf(xs) == m;
  }

  // ---------------------------------------------------------------------------
  // Reading a pattern

  /** The pattern characters `with_pattern` accepts. */
  predicate ValidChar(c: char) {
    c == '|' || c == '_' || c == '+' || c == ' '
  }

  /** Does character `c` draw a stick of orientation `o` at its cell? */
  predicate Marks(c: char, o: Orientation) {
    c == '+' || (c == '|' && o == Vertical) || (c == '_' && o == Horizontal)
  }

  /** The sticks one character draws at the cell (`row`, `column`). */
  function Glyph(row: int, column: int, c: char): (r: set<Stick>)
    ensures forall s | s in r :: s.row == row && s.column == column && Marks(c, s.orientation)
    ensures Marks(c, Vertical) ==> Stick(row, column, Vertical) in r
    ensures Marks(c, Horizontal) ==> Stick(row, column, Horizontal) in r
  {
    if c == '|' then {Stick(row, column, Vertical)}
    else if c == '_' then {Stick(row, column, Horizontal)}
    else if c == '+' then {Stick(row, column, Vertical), Stick(row, column, Horizontal)}
    else {}
  }

  /** The characters of `line` that the zip with the template's columns reaches. */
  predicate LineValid(columns: seq<int>, line: string) {
    forall k | 0 <= k < |columns| && k < |line| :: ValidChar(line[k])
  }

  predicate GridValid(rows: seq<int>, columns: seq<int>, pattern: seq<string>) {
    forall k | 0 <= k < |rows| && k < |pattern| :: LineValid(columns, pattern[k])
  }

  /** The sticks drawn by one line, zipped with the columns. */
  function LineSticks(row: int, columns: seq<int>, line: string): (r: set<Stick>)
    ensures forall s | s in r :: s.row == row
    decreases |columns|
  {
    if |columns| == 0 || |line| == 0 then {}
    else Glyph(row, columns[0], line[0]) + LineSticks(row, columns[1..], line[1..])
  }

  /** The sticks drawn by the whole pattern, zipped with the rows. */
  function GridSticks(rows: seq<int>, columns: seq<int>, pattern: seq<string>): set<Stick>
    decreases |rows|
  {
    if |rows| == 0 || |pattern| == 0 then {}
    else LineSticks(rows[0], columns, pattern[0]) + GridSticks(rows[1..], columns, pattern[1..])
  }

  /** Reference meaning of a pattern: stick `s` sits at a cell the zip reaches, whose character marks its orientation. */
  ghost predicate Pictured(rows: seq<int>, columns: seq<int>, pattern: seq<string>, s: Stick) {
    exists a, b | 0 <= a < |rows| && a < |pattern| && 0 <= b < |columns| && b < |pattern[a]| ::
      rows[a] == s.row && columns[b] == s.column && Marks(pattern[a][b], s.orientation)
  }

  ghost predicate LinePictured(row: int, columns: seq<int>, line: string, s: Stick) {
    s.row == row && exists b | 0 <= b < |columns| && b < |line| :: columns[b] == s.column && Marks(line[b], s.orientation)
  }

  lemma {:induction false} LineSticksMeaning(row: int, columns: seq<int>, line: string, s: Stick)
    ensures s in LineSticks(row, columns, line) <==> LinePictured(row, columns, line, s)
    decreases |columns|
  {
    if |columns| != 0 && |line| != 0 {
      LineSticksMeaning(row, columns[1..], line[1..], s);
      if LinePictured(row, columns[1..], line[1..], s) {
        var b :| 0 <= b < |columns| - 1 && b < |line| - 1 && columns[1..][b] == s.column && Marks(line[1..][b], s.orientation);
        assert columns[b + 1] == s.column && Marks(line[b + 1], s.orientation);
      }
      if LinePictured(row, columns, line, s) {
        var b :| 0 <= b < |columns| && b < |line| && columns[b] == s.column && Marks(line[b], s.orientation);
        if b == 0 {
          assert s == Stick(row, columns[0], s.orientation);
          if s.orientation == Vertical {
            assert Marks(line[0], Vertical);
          } else {
            assert Marks(line[0], Horizontal);
          }
        } else {
          assert columns[1..][b - 1] == s.column && Marks(line[1..][b - 1], s.orientation);
        }
      }
    }
  }

  /** The drawn sticks are exactly the pictured ones. */
  lemma {:induction false} GridSticksMeaning(rows: seq<int>, columns: seq<int>, pattern: seq<string>, s: Stick)
    ensures s in GridSticks(rows, columns, pattern) <==> Pictured(rows, columns, pattern, s)
    decreases |rows|
  {
    if |rows| != 0 && |pattern| != 0 {
      LineSticksMeaning(rows[0], columns, pattern[0], s);
      GridSticksMeaning(rows[1..], columns, pattern[1..], s);
      if Pictured(rows[1..], columns, pattern[1..], s) {
        var a, b :| 0 <= a < |rows| - 1 && a < |pattern| - 1 && 0 <= b < |columns| && b < |pattern[1..][a]| &&
          rows[1..][a] == s.row && columns[b] == s.column && Marks(pattern[1..][a][b], s.orientation);
        assert rows[a + 1] == s.row && pattern[a + 1] == pattern[1..][a];
      }
      if LinePictured(rows[0], columns, pattern[0], s) {
        var b :| 0 <= b < |columns| && b < |pattern[0]| && columns[b] == s.column && Marks(pattern[0][b], s.orientation);
        assert rows[0] == s.row;
      }
      if Pictured(rows, columns, pattern, s) {
        var a, b :| 0 <= a < |rows| && a < |pattern| && 0 <= b < |columns| && b < |pattern[a]| &&
          rows[a] == s.row && columns[b] == s.column && Marks(pattern[a][b], s.orientation);
        if a == 0 {
          assert LinePictured(rows[0], columns, pattern[0], s);
        } else {
          assert rows[1..][a - 1] == s.row && pattern[1..][a - 1] == pattern[a];
          assert Pictured(rows[1..], columns, pattern[1..], s);
        }
      }
    }
  }

  /** `with_pattern` on an explicit template: draw the pattern, then reject it if it is malformed or escapes the template. */
  function WithPattern(template: set<Stick>, pattern: seq<string>): (r: Drawing)
    ensures r.Drawn? ==> r.collection.sticks <= template
  {
    var rows := Ascending(Rows(template));
    var columns := Ascending(Columns(template));
    if !GridValid(rows, columns, pattern) then Rejected
    else
      var drawn := GridSticks(rows, columns, pattern);
      if drawn <= template then Drawn(StickCollection(drawn)) else Rejected
  }

  /** The symbol a class builds from a pattern, or the rejection. */
  function MakeSymbol(kind: Kind, pattern: seq<string>, code: string, name: string): (r: Made)
    ensures r.Made? <==> WithPattern(TemplateOf(kind), pattern).Drawn?
    ensures r.Made? ==> r.symbol == Symbol(WithPattern(TemplateOf(kind), pattern).collection, code, name, kind)
    ensures r.Made? ==> r.symbol.sticks.sticks <= TemplateOf(kind)
  {
    match WithPattern(TemplateOf(kind), pattern)
    case Drawn(c) => Made(Symbol(c, code, name, kind))
    case Rejected => PatternError
  }

  /** A pattern is accepted exactly when every character the zip reaches is valid and every pictured stick is in
      the template; an accepted pattern draws exactly the pictured sticks. */
  lemma WithPatternMeaning(template: set<Stick>, pattern: seq<string>)
    ensures var rows, columns := Ascending(Rows(template)), Ascending(Columns(template));
      && (WithPattern(template, pattern).Drawn? <==>
          GridValid(rows, columns, pattern) && forall s | Pictured(rows, columns, pattern, s) :: s in template)
      && (WithPattern(template, pattern).Drawn? ==>
          forall s :: s in WithPattern(template, pattern).collection.sticks <==> Pictured(rows, columns, pattern, s))
  {
    var rows, columns := Ascending(Rows(template)), Ascending(Columns(template));
    forall s ensures s in GridSticks(rows, columns, pattern) <==> Pictured(rows, columns, pattern, s) {
      GridSticksMeaning(rows, columns, pattern, s);
    }
  }

  // ---------------------------------------------------------------------------
  // Rendering: the inverse of reading

  /** The character that draws the given sticks at one cell. */
  function CharOf(vertical: bool, horizontal: bool): (c: char)
    ensures ValidChar(c)
    ensures Marks(c, Vertical) == vertical && Marks(c, Horizontal) == horizontal
  {
    if vertical && horizontal then '+' else if vertical then '|' else if horizontal then '_' else ' '
  }

  /** The pattern that draws `sticks` on the template grid: one line per row, one character per column. */
  function Render(template: set<Stick>, sticks: set<Stick>): (p: seq<string>)
    ensures |p| == |Rows(template)|
    ensures forall a | 0 <= a < |p| :: |p[a]| == |Columns(template)|
  {
    var rows, columns := Ascending(Rows(template)), Ascending(Columns(template));
    seq(|rows|, a requires 0 <= a < |rows| =>
      seq(|columns|, b requires 0 <= b < |columns| =>
        CharOf(Stick(rows[a], columns[b], Vertical) in sticks, Stick(rows[a], columns[b], Horizontal) in sticks)))
  }

  /** The character at a cell of a rendered pattern. */
  lemma RenderCell(template: set<Stick>, sticks: set<Stick>, a: nat, b: nat)
    requires a < |Rows(template)| && b < |Columns(template)|
    ensures var rows, columns := Ascending(Rows(template)), Ascending(Columns(template));
      Render(template, sticks)[a][b]
        == CharOf(Stick(rows[a], columns[b], Vertical) in sticks, Stick(rows[a], columns[b], Horizontal) in sticks)
  {
  }

  /** Reading a rendered pattern gives back the sticks: `with_pattern` inverts `Render` on every subset of the template. */
  lemma RenderRoundTrip(template: set<Stick>, sticks: set<Stick>)
    requires sticks <= template
    ensures WithPattern(template, Render(template, sticks)) == Drawn(StickCollection(sticks))
  {
    var rows, columns := Ascending(Rows(template)), Ascending(Columns(template));
    var p := Render(template, sticks);
    RenderValid(template, sticks);
    forall s ensures s in GridSticks(rows, columns, p) <==> s in sticks {
      GridSticksMeaning(rows, columns, p, s);
      RenderPictured(template, sticks, s);
    }
  }

  /** A rendered pattern uses only characters the reader accepts. */
  lemma RenderValid(template: set<Stick>, sticks: set<Stick>)
    ensures GridValid(Ascending(Rows(template)), Ascending(Columns(template)), Render(template, sticks))
  {
    var rows, columns := Ascending(Rows(template)), Ascending(Columns(template));
    var p := Render(template, sticks);
    hide Render;
    forall a | 0 <= a < |rows| && a < |p| ensures LineValid(columns, p[a]) {
      forall b | 0 <= b < |columns| && b < |p[a]| ensures ValidChar(p[a][b]) {
        RenderCell(template, sticks, a, b);
      }
    }
  }

  /** A rendered pattern pictures exactly the sticks it was rendered from. */
  lemma RenderPictured(template: set<Stick>, sticks: set<Stick>, s: Stick)
    requires sticks <= template
    ensures s in sticks <==> Pictured(Ascending(Rows(template)), Ascending(Columns(template)), Render(template, sticks), s)
  {
    var rows, columns := Ascending(Rows(template)), Ascending(Columns(template));
    var p := Render(template, sticks);
    hide Render;
    if s in sticks {
      assert s.row in Rows(template);
      assert s.column in Columns(template);
      var a := AscendingIndex(Rows(template), s.row);
      var b := AscendingIndex(Columns(template), s.column);
      hide Rows, Columns, Ascending;
      assert s == Stick(rows[a], columns[b], s.orientation);
      RenderCell(template, sticks, a, b);
      if s.orientation == Vertical {
        assert Marks(p[a][b], Vertical);
      } else {
        assert Marks(p[a][b], Horizontal);
      }
    }
    if Pictured(rows, columns, p, s) {
      var a, b :| 0 <= a < |rows| && a < |p| && 0 <= b < |columns| && b < |p[a]| &&
        rows[a] == s.row && columns[b] == s.column && Marks(p[a][b], s.orientation);
      hide Rows, Columns, Ascending;
      assert s == Stick(rows[a], columns[b], s.orientation);
      RenderCell(template, sticks, a, b);
      if s.orientation == Vertical {
        assert Stick(rows[a], columns[b], Vertical) in sticks;
      } else {
        assert Stick(rows[a], columns[b], Horizontal) in sticks;
      }
    }
  }

  /** Any subset of a class's template, rendered, builds a symbol of that class with exactly those sticks. */
  lemma MakeRoundTrip(kind: Kind, sticks: set<Stick>, code: string, name: string)
    requires sticks <= TemplateOf(kind)
    ensures MakeSymbol(kind, Render(TemplateOf(kind), sticks), code, name)
         == Made(Symbol(StickCollection(sticks), code, name, kind))
  {
    RenderRoundTrip(TemplateOf(kind), sticks);
  }

  /** Lines beyond the template's rows are ignored. */
  lemma IgnoresExtraLines(template: set<Stick>, pattern: seq<string>, extra: seq<string>)
    requires |pattern| >= |Rows(template)|
    ensures WithPattern(template, pattern + extra) == WithPattern(template, pattern)
  {
    GridIgnoresExtra(Ascending(Rows(template)), Ascending(Columns(template)), pattern, extra);
  }

  lemma {:induction false} GridIgnoresExtra(rows: seq<int>, columns: seq<int>, pattern: seq<string>, extra: seq<string>)
    requires |pattern| >= |rows|
    ensures GridSticks(rows, columns, pattern + extra) == GridSticks(rows, columns, pattern)
    ensures GridValid(rows, columns, pattern + extra) == GridValid(rows, columns, pattern)
    decreases |rows|
  {
    var q := pattern + extra;
    if |rows| != 0 {
      assert q[0] == pattern[0];
      assert q[1..] == pattern[1..] + extra;
      GridIgnoresExtra(rows[1..], columns, pattern[1..], extra);
    }
    forall k | 0 <= k < |rows| && k < |q| ensures q[k] == pattern[k] { }
  }

  /** The digit template's grid is rows 0, 4, 8 by columns 0, 1, 2. */
  lemma DigitGrid()
    ensures Ascending(Rows(DigitSticks())) == [0, 4, 8]
    ensures Ascending(Columns(DigitSticks())) == [0, 1, 2]
  {
    var t := DigitSticks();
    assert Rows(t) == {0, 4, 8} by {
      assert Stick(0, 1, Horizontal) in t && Stick(4, 0, Vertical) in t && Stick(8, 0, Vertical) in t;
    }
    assert Columns(t) == {0, 1, 2} by {
      assert Stick(4, 0, Vertical) in t && Stick(4, 1, Horizontal) in t && Stick(4, 2, Vertical) in t;
    }
    AscendingOfThree(0, 4, 8);
    AscendingOfThree(0, 1, 2);
  }

  /** Three increasing integers sort to themselves. */
  lemma AscendingOfThree(x: int, y: int, z: int)
    requires x < y < z
    ensures Ascending({x, y, z}) == [x, y, z]
  {
    AscendingStep({x, y, z}, x);
    assert {x, y, z} - {x} == {y, z};
    AscendingStep({y, z}, y);
    assert {y, z} - {y} == {z};
    AscendingStep({z}, z);
    assert {z} - {z} == {};
  }

  /** The six outer sticks of the digit template: the glyph of zero. */
  function ZeroSticks(): set<Stick> {
    {Stick(0, 1, Horizontal), Stick(4, 0, Vertical), Stick(4, 2, Vertical),
     Stick(8, 0, Vertical), Stick(8, 1, Horizontal), Stick(8, 2, Vertical)}
  }

  /** The zero glyph is read as the six outer sticks of the digit template. */
  lemma ZeroPattern()
    ensures WithPattern(DigitSticks(), [" _ ", "| |", "|_|"]) == Drawn(StickCollection(ZeroSticks()))
  {
    RenderRoundTrip(DigitSticks(), ZeroSticks());
    ZeroRender();
  }

  lemma ZeroRender()
    ensures Render(DigitSticks(), ZeroSticks()) == [" _ ", "| |", "|_|"]
  {
    hide Render, Ascending, Rows, Columns, DigitSticks;
    var p := Render(DigitSticks(), ZeroSticks());
    DigitGrid();
    assert |Rows(DigitSticks())| == 3 && |Columns(DigitSticks())| == 3;
    RenderCell(DigitSticks(), ZeroSticks(), 0, 0);
    RenderCell(DigitSticks(), ZeroSticks(), 0, 1);
    RenderCell(DigitSticks(), ZeroSticks(), 0, 2);
    RenderCell(DigitSticks(), ZeroSticks(), 1, 0);
    RenderCell(DigitSticks(), ZeroSticks(), 1, 1);
    RenderCell(DigitSticks(), ZeroSticks(), 1, 2);
    RenderCell(DigitSticks(), ZeroSticks(), 2, 0);
    RenderCell(DigitSticks(), ZeroSticks(), 2, 1);
    RenderCell(DigitSticks(), ZeroSticks(), 2, 2);
    assert p[0] == " _ ";
    assert p[1] == "| |";
    assert p[2] == "|_|";
  }
}
