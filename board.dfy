/** The board of an N x N tic-tac-toe game (game/board.py): its grid of
    positions and the text the console prints for it. */
module Boards {
  import opened Strings

  /** One position: free, or occupied by a player whose string
      representation it holds. */
  datatype Cell = Empty | Occupied(player: string)

  /** `board_dim` and the grid of positions, indexed by row then column. */
  datatype Board = Board(dim: int, positions: seq<seq<Cell>>)

  /** How many values `range(dim)` yields: none for a non-positive dim. */
  function Side(dim: int): nat { if dim < 0 then 0 else dim }

  /** The grid has Side(dim) rows of Side(dim) cells each. */
  predicate WellFormed(b: Board)
  {
    && |b.positions| == Side(b.dim)
    && forall r :: 0 <= r < |b.positions| ==> |b.positions[r]| == Side(b.dim)
  }

  /** `Board(dim)`: a dim x dim grid in which every position is free; the
      dimension is 3 unless given. */
  function NewBoard(dim: int := 3): (b: Board)
    ensures b.dim == dim && WellFormed(b)
    ensures forall r, c :: 0 <= r < Side(dim) && 0 <= c < Side(dim) ==> b.positions[r][c] == Empty
  {
    Board(dim, seq(Side(dim), _ => seq(Side(dim), _ => Empty)))
  }

  /** Number of free positions in one row. */
  function FreeInRow(row: seq<Cell>): (k: nat)
    ensures k <= |row|
  {
    if row == [] then 0 else FreeInRow(row[..|row| - 1]) + (if row[|row| - 1] == Empty then 1 else 0)
  }

  /** Number of free positions on the board. */
  function FreeCells(rows: seq<seq<Cell>>): nat
  {
    if rows == [] then 0 else FreeCells(rows[..|rows| - 1]) + FreeInRow(rows[|rows| - 1])
  }

  lemma {:induction false} FreeInEmptyRow(row: seq<Cell>)
    requires forall c :: 0 <= c < |row| ==> row[c] == Empty
    ensures FreeInRow(row) == |row|
  {
    if row != [] {
      FreeInEmptyRow(row[..|row| - 1]);
    }
  }

  lemma {:induction false} FreeInEmptyRows(rows: seq<seq<Cell>>, n: nat)
    requires forall r :: 0 <= r < |rows| ==> |rows[r]| == n
    requires forall r, c :: 0 <= r < |rows| && 0 <= c < n ==> rows[r][c] == Empty
    ensures FreeCells(rows) == |rows| * n
  {
    if rows != [] {
      FreeInEmptyRows(rows[..|rows| - 1], n);
      FreeInEmptyRow(rows[|rows| - 1]);
    }
  }

  /** On a new board all Side(dim) * Side(dim) positions are free (none
      for a non-positive dim), and there are no others. */
  lemma NewBoardAllFree(dim: int)
    ensures FreeCells(NewBoard(dim).positions) == Side(dim) * Side(dim)
  {
    var b := NewBoard(dim);
    FreeInEmptyRows(b.positions, Side(dim));
  }

  // ---------------------------------------------------------------------
  // Text rendering (`Board.__str__`)

  lemma MulNonNegative(x: int, n: int)
    requires x >= 0 && n >= 0
    ensures x * n >= 0
  {}

  lemma MulDistributes(a: int, b: int, n: int)
    ensures b * n - a * n == (b - a) * n
  {}

  /** Multiplying by a positive number keeps the order of two integers. */
  lemma MulLess(a: int, b: int, n: int)
    requires n > 0
    ensures a < b <==> a * n < b * n
  {
    MulDistributes(a, b, n);
    if a < b {
      MulNonNegative(b - a - 1, n);
      MulDistributes(a + 1, b, n);
    } else {
      MulNonNegative(a - b, n);
    }
  }

  /** Quotient and remainder are determined by k == q * n + r, 0 <= r < n. */
  lemma DivModUnique(k: int, n: int, q: int, r: int)
    requires n > 0 && 0 <= r < n && k == q * n + r
    ensures k / n == q && k % n == r
  {
    var q', r' := k / n, k % n;
    assert q * n + r == q' * n + r';
    MulLess(q, q' + 1, n);
    MulLess(q', q + 1, n);
    assert (q' + 1) * n == q' * n + n;
    assert (q + 1) * n == q * n + n;
  }

  lemma RowMajor(row: nat, col: nat, n: nat)
    requires row < n && col < n
    ensures row * n + col < n * n
    ensures (row * n + col) / n == row && (row * n + col) % n == col
  {
    RowSpan(row, n);
    DivModUnique(row * n + col, n, row, col);
  }

  /** Row i of a dim x dim grid starts at i * n and ends at (i + 1) * n. */
  lemma RowSpan(i: nat, n: nat)
    requires i < n
    ensures (i + 1) * n == i * n + n
    ensures (i + 1) * n <= n * n
  {
    MulLess(i + 1, n + 1, n);
    MulDistributes(i, i + 1, n);
    MulDistributes(n, n + 1, n);
  }

  lemma FlatIndex(k: nat, n: nat)
    requires k < n * n
    ensures k / n < n && k % n < n
    ensures (k / n) * n + k % n == k
  {
    assert n > 0;
    MulLess(k / n, n, n);
  }

  /** What the player sees at one position: the player string when it is
      occupied, otherwise the decimal string of its row-major flat index. */
  function Label(b: Board, row: nat, col: nat): (s: string)
    requires WellFormed(b) && row < Side(b.dim) && col < Side(b.dim)
    ensures b.positions[row][col].Occupied? ==> s == b.positions[row][col].player
    ensures b.positions[row][col] == Empty ==>
              && |s| >= 1 && AllDigits(s) && (|s| > 1 ==> s[0] != '0')
              && DigitsValue(s) == row * b.dim + col
  {
    match b.positions[row][col]
    case Occupied(p) => p
    case Empty => Decimal(row * Side(b.dim) + col)
  }

  /** `positions_repr`: the labels of all positions, in row-major order. */
  function Labels(b: Board): (r: seq<string>)
    requires WellFormed(b)
    ensures |r| == Side(b.dim) * Side(b.dim)
  {
    var n := Side(b.dim);
    seq(n * n, k requires 0 <= k < n * n => FlatIndex(k, n); Label(b, k / n, k % n))
  }

  /** Entry row * dim + col of `positions_repr` is the label of the
      position at (row, col). */
  lemma LabelAt(b: Board, row: nat, col: nat)
    requires WellFormed(b) && row < Side(b.dim) && col < Side(b.dim)
    ensures row * Side(b.dim) + col < |Labels(b)|
    ensures Labels(b)[row * Side(b.dim) + col] == Label(b, row, col)
  {
    RowMajor(row, col, Side(b.dim));
  }

  /** The field width of every entry: none when the board has fewer than
      10 positions, 2 when it has at most 100, and 3 otherwise. */
  function Alignment(dim: int): (w: nat)
    ensures w == 0 <==> dim * dim < 10
    ensures w == 2 <==> 10 <= dim * dim <= 100
    ensures w == 3 <==> 100 < dim * dim
  {
    if dim * dim < 10 then 0 else if dim * dim <= 100 then 2 else 3
  }

  /** `[format(repr, alignment) for repr in row_repr]`. */
  function FormatAll(entries: seq<string>, w: nat): (r: seq<string>)
    ensures |r| == |entries|
    ensures forall j :: 0 <= j < |r| ==> r[j] == Center(entries[j], w)
  {
    seq(|entries|, j requires 0 <= j < |entries| => Center(entries[j], w))
  }

  /** One printed line: "| ", the entries separated by " | ", then " |"
      and a newline. */
  function Line(entries: seq<string>): (r: string)
    ensures |r| == |Join(" | ", entries)| + 5
  {
    "| " + Join(" | ", entries) + " |\n"
  }

  /** A line holds the joined entries between "| " and " |\n". */
  lemma LineShape(entries: seq<string>)
    ensures var r := Line(entries);
            r[..2] == "| " && r[2..|r| - 3] == Join(" | ", entries) && r[|r| - 3..] == " |\n"
  {
    var r := Line(entries);
    assert r == "| " + Join(" | ", entries) + " |\n";
  }

  /** Line i of the rendering: the formatted labels i*dim .. (i+1)*dim-1. */
  function RowText(b: Board, i: nat): (r: string)
    requires WellFormed(b) && i < Side(b.dim)
    ensures |r| >= 5
  {
    var n := Side(b.dim);
    RowSpan(i, n);
    Line(FormatAll(Labels(b)[i * n..(i + 1) * n], Alignment(b.dim)))
  }

  /** The lines of the rendering, one per row, top to bottom. */
  function Lines(b: Board): (r: seq<string>)
    requires WellFormed(b)
    ensures |r| == Side(b.dim)
  {
    seq(Side(b.dim), i requires 0 <= i < Side(b.dim) => RowText(b, i))
  }

  /** The whole rendering: its lines one after another. */
  function Text(b: Board): (r: string)
    requires WellFormed(b)
    ensures r == "" <==> Side(b.dim) == 0
  {
    Concat(Lines(b))
  }

  /** Every line starts with "| " and ends with " |\n". */
  lemma RowTextShape(b: Board, i: nat)
    requires WellFormed(b) && i < Side(b.dim)
    ensures "| " <= RowText(b, i)
    ensures var r := RowText(b, i); r[|r| - 3..] == " |\n"
  {
    var n := Side(b.dim);
    RowSpan(i, n);
    LineShape(FormatAll(Labels(b)[i * n..(i + 1) * n], Alignment(b.dim)));
  }

  /** A rendering with at least one row starts with the first line's "| "
      and ends with the last line's " |\n". */
  lemma TextShape(b: Board)
    requires WellFormed(b) && Side(b.dim) > 0
    ensures var r := Text(b);
            "| " <= r && |r| >= 3 && r[|r| - 3..] == " |\n"
  {
    var lines := Lines(b);
    var n := Side(b.dim);
    RowTextShape(b, 0);
    RowTextShape(b, n - 1);
    ConcatEnds(lines);
    PrefixOfPrefix("| ", lines[0], Concat(lines));
    SuffixOfSuffix(" |\n", lines[n - 1], Concat(lines));
  }

  /** Appending line i to the first i lines gives the first i + 1 lines. */
  lemma LinesStep(b: Board, i: nat)
    requires WellFormed(b) && 0 < b.dim && i < b.dim
    ensures 0 <= i * b.dim <= (i + 1) * b.dim <= |Labels(b)|
    ensures Concat(Lines(b)[..i + 1])
            == Concat(Lines(b)[..i]) + Line(FormatAll(Labels(b)[i * b.dim..(i + 1) * b.dim], Alignment(b.dim)))
  {
    RowSpan(i, b.dim);
    assert Lines(b)[..i + 1][..i] == Lines(b)[..i];
  }

  /** First half of `Board.__str__`: walks the grid row by row and collects
      every position's label into `positions_repr`. */
  method CollectLabels(b: Board) returns (positionsRepr: seq<string>)
    requires WellFormed(b)
    ensures positionsRepr == Labels(b)
  {
    var n := Side(b.dim);
    positionsRepr := [];
    var row := 0;
    while row < b.dim
      invariant 0 <= row <= n
      invariant positionsRepr == Labels(b)[..row * n]
    {
      RowSpan(row, n);
      var col := 0;
      while col < b.dim
        invariant 0 <= col <= n
        invariant positionsRepr == Labels(b)[..row * n + col]
      {
        LabelAt(b, row, col);
        assert Labels(b)[..row * n + col + 1] == Labels(b)[..row * n + col] + [Label(b, row, col)];
        if b.positions[row][col].Occupied? {
          positionsRepr := positionsRepr + [b.positions[row][col].player];
        } else {
          positionsRepr := positionsRepr + [Decimal(row * b.dim + col)];
        }
        col := col + 1;
      }
      assert col == n;
      row := row + 1;
    }
    assert row == n;
  }

  /** `Board.__str__`: the labels of all positions, then the text built
      line by line, each row's labels centred in the board's field width. */
  method ToString(b: Board) returns (boardRepr: string)
    requires WellFormed(b)
    ensures boardRepr == Text(b)
  {
    var n := Side(b.dim);
    var positionsRepr := CollectLabels(b);
    boardRepr := "";
    var i := 0;
    while i < b.dim
      invariant 0 <= i <= n
      invariant boardRepr == Concat(Lines(b)[..i])
    {
      LinesStep(b, i);
      var rowRepr := positionsRepr[i * b.dim..(i + 1) * b.dim];
      boardRepr := boardRepr + Line(FormatAll(rowRepr, Alignment(b.dim)));
      i := i + 1;
    }
    assert i == n;
    assert Lines(b)[..n] == Lines(b);
    assert boardRepr == Concat(Lines(b));
  }

  // ---------------------------------------------------------------------
  // Properties of the rendering

  /** Number of line breaks in a string. */
  function LineBreaks(s: string): nat { Occurrences('\n', s) }

  /** No player string on the board contains a line break. */
  predicate NoBreaksInPlayers(b: Board)
    requires WellFormed(b)
  {
    forall r, c :: 0 <= r < Side(b.dim) && 0 <= c < Side(b.dim) && b.positions[r][c].Occupied?
      ==> '\n' !in b.positions[r][c].player
  }

  /** Each line of the rendering holds exactly one line break, at its end. */
  lemma RowTextLine(b: Board, i: nat)
    requires WellFormed(b) && i < Side(b.dim) && NoBreaksInPlayers(b)
    ensures LineBreaks(RowText(b, i)) == 1
    ensures RowText(b, i)[|RowText(b, i)| - 1] == '\n'
  {
    var n := Side(b.dim);
    RowSpan(i, n);
    var labels := Labels(b)[i * n..(i + 1) * n];
    var entries := FormatAll(labels, Alignment(b.dim));
    forall j | 0 <= j < |entries| ensures '\n' !in entries[j] {
      LabelAt(b, i, j);
      assert labels[j] == Label(b, i, j);
      CenterKeepsOut(labels[j], Alignment(b.dim), '\n');
    }
    JoinKeepsOut(" | ", entries, '\n');
    var joined := Join(" | ", entries);
    assert RowText(b, i) == ("| " + joined) + " |\n";
    OccurrencesConcat('\n', "| ", joined);
    OccurrencesConcat('\n', "| " + joined, " |\n");
  }

  /** The rendering has exactly dim lines, each ended by a line break,
      provided that no player string contains a line break. */
  lemma TextLines(b: Board)
    requires WellFormed(b) && NoBreaksInPlayers(b)
    ensures LineBreaks(Text(b)) == Side(b.dim)
  {
    var lines := Lines(b);
    forall i | 0 <= i < |lines| ensures Occurrences('\n', lines[i]) == 1 {
      RowTextLine(b, i);
    }
    ConcatOccurrences('\n', lines);
  }

  /** The width every entry of a new board is printed with: its field width,
      or one character where no field width is applied. */
  function EntryWidth(dim: int): nat { Max(1, Alignment(dim)) }

  /** On a new board with at most 1000 positions every printed entry has
      the same width, so the columns line up. */
  lemma NewBoardAligned(dim: int, row: nat, col: nat)
    requires Side(dim) * Side(dim) <= 1000
    requires row < Side(dim) && col < Side(dim)
    ensures |Center(Label(NewBoard(dim), row, col), Alignment(dim))| == EntryWidth(dim)
  {
    var n := Side(dim);
    var k := row * n + col;
    RowMajor(row, col, n);
    assert Label(NewBoard(dim), row, col) == Decimal(k);
    assert n * n == dim * dim;
    if dim * dim < 10 {
      DecimalLength(k, 1);
    } else if dim * dim <= 100 {
      DecimalLength(k, 2);
      DecimalLength(k, 1);
    } else {
      DecimalLength(k, 3);
      DecimalLength(k, 2);
    }
  }

  /** On a new board with at most 1000 positions every line of the
      rendering has the same length: the two bars, one entry width per
      column and a three-character separator between neighbouring columns. */
  lemma NewBoardLineLength(dim: int, i: nat)
    requires Side(dim) * Side(dim) <= 1000
    requires i < Side(dim)
    ensures |RowText(NewBoard(dim), i)| == 5 + Side(dim) * EntryWidth(dim) + 3 * (Side(dim) - 1)
  {
    var b := NewBoard(dim);
    var n := Side(dim);
    RowSpan(i, n);
    var entries := FormatAll(Labels(b)[i * n..(i + 1) * n], Alignment(dim));
    forall j | 0 <= j < |entries| ensures |entries[j]| == EntryWidth(dim) {
      LabelAt(b, i, j);
      NewBoardAligned(dim, i, j);
    }
    JoinLength(" | ", entries, EntryWidth(dim));
  }

  /** From 32 x 32 upwards the three-character field is too narrow: on a
      new 32 x 32 board the first position prints three characters wide but
      the last one (index 1023) prints four. */
  lemma MisalignedAt32()
    ensures |Center(Label(NewBoard(32), 0, 0), Alignment(32))| == 3
    ensures |Center(Label(NewBoard(32), 31, 31), Alignment(32))| == 4
  {
    assert Label(NewBoard(32), 31, 31) == Decimal(1023);
    DecimalLength(1023, 3);
    DecimalLength(1023, 4);
  }

  /** The line shown for three unpadded one-character labels. */
  lemma LineOfThree(x: string, y: string, z: string)
    requires |x| == |y| == |z| == 1
    ensures Line(FormatAll([x, y, z], 0)) == "| " + x + " | " + y + " | " + z + " |\n"
  {
    var row := [x, y, z];
    assert FormatAll(row, 0) == row;
    assert row[..2] == [x, y] && [x, y][..1] == [x];
    assert Join(" | ", [x, y]) == x + " | " + y;
    assert Join(" | ", row) == Join(" | ", [x, y]) + " | " + z;
  }

  /** Entry k of the labels of a new 3 x 3 board is the digit k. */
  lemma NewThreeByThreeLabel(k: nat)
    requires k < 9
    ensures k < |Labels(NewBoard(3))| && Labels(NewBoard(3))[k] == [DigitChar(k)]
  {
    FlatIndex(k, 3);
    assert Labels(NewBoard(3))[k] == Label(NewBoard(3), k / 3, k % 3);
  }

  /** Line i of a new 3 x 3 board shows the indices 3i, 3i+1 and 3i+2. */
  lemma NewThreeByThreeLine(i: nat)
    requires i < 3
    ensures Lines(NewBoard(3))[i]
            == "| " + [DigitChar(3 * i)] + " | " + [DigitChar(3 * i + 1)] + " | " + [DigitChar(3 * i + 2)] + " |\n"
  {
    var b := NewBoard(3);
    RowSpan(i, 3);
    var row := Labels(b)[3 * i..3 * i + 3];
    forall j | 0 <= j < 3 ensures row[j] == [DigitChar(3 * i + j)] {
      NewThreeByThreeLabel(3 * i + j);
    }
    assert row == [[DigitChar(3 * i)], [DigitChar(3 * i + 1)], [DigitChar(3 * i + 2)]];
    LineOfThree([DigitChar(3 * i)], [DigitChar(3 * i + 1)], [DigitChar(3 * i + 2)]);
  }

  /** The text of a board of three lines is those lines one after another. */
  lemma TextOfThree(b: Board, x: string, y: string, z: string)
    requires WellFormed(b) && Lines(b) == [x, y, z]
    ensures Text(b) == x + y + z
  {
    assert [x, y, z][..2] == [x, y] && [x, y][..1] == [x] && [x][..0] == [];
    assert Text(b) == Concat([x, y, z]) == Concat([x, y]) + z;
    assert Concat([x, y]) == Concat([x]) + y;
    assert Concat([x]) == x;
  }

  /** The expected text of line i of a new 3 x 3 board. */
  function ThreeByThreeLine(i: nat): string
  {
    if i == 0 then "| 0 | 1 | 2 |\n" else if i == 1 then "| 3 | 4 | 5 |\n" else "| 6 | 7 | 8 |\n"
  }

  lemma ThreeByThreeDigits(i: nat)
    requires i < 3
    ensures "| " + [DigitChar(3 * i)] + " | " + [DigitChar(3 * i + 1)] + " | " + [DigitChar(3 * i + 2)] + " |\n"
            == ThreeByThreeLine(i)
  {
    if i == 0 {
      assert DigitChar(0) == '0' && DigitChar(1) == '1' && DigitChar(2) == '2';
    } else if i == 1 {
      assert DigitChar(3) == '3' && DigitChar(4) == '4' && DigitChar(5) == '5';
    } else {
      assert DigitChar(6) == '6' && DigitChar(7) == '7' && DigitChar(8) == '8';
    }
  }

  lemma ThreeByThreeJoined()
    ensures ThreeByThreeLine(0) + ThreeByThreeLine(1) + ThreeByThreeLine(2)
            == "| 0 | 1 | 2 |\n| 3 | 4 | 5 |\n| 6 | 7 | 8 |\n"
  {
  }

  /** A new 3 x 3 board prints its flat indices 0 to 8, unpadded. */
  lemma NewThreeByThree()
    ensures Text(NewBoard(3)) == "| 0 | 1 | 2 |\n| 3 | 4 | 5 |\n| 6 | 7 | 8 |\n"
  {
    var b := NewBoard(3);
    forall i | 0 <= i < 3 ensures Lines(b)[i] == ThreeByThreeLine(i) {
      NewThreeByThreeLine(i);
      ThreeByThreeDigits(i);
    }
    assert Lines(b) == [ThreeByThreeLine(0), ThreeByThreeLine(1), ThreeByThreeLine(2)];
    TextOfThree(b, ThreeByThreeLine(0), ThreeByThreeLine(1), ThreeByThreeLine(2));
    ThreeByThreeJoined();
  }
}
