/** The contribution grid: PrintCell, PrintDayCol and PrintCells. What
    the Go code writes to standard output is modelled as the string it
    writes; the month header (PrintMonths) is not part of this model. */
module Render {
  import opened Results
  import opened Days

  const WeeksInLastSixMonths := 26

  /** ESC, the first character of every ANSI escape sequence. */
  const Esc: char := 27 as char

  /** The sequence that ends every cell. */
  const Reset: string := [Esc] + "[0m"

  /** The colour a cell is drawn in. */
  datatype Style = Muted | Low | Medium | High | Highlight

  /** PrintCell's choice of colour: the tiers 1..4, 6..9 and 10 and
      above; anything else (0, 5, negative values) stays muted; the
      today cell is highlighted whatever its value. */
  function StyleOf(val: int, today: bool): (s: Style)
    ensures s == Highlight <==> today
    ensures !today ==> (s == Low <==> 0 < val < 5)
    ensures !today ==> (s == Medium <==> 5 < val < 10)
    ensures !today ==> (s == High <==> val >= 10)
    ensures !today ==> (s == Muted <==> val <= 0 || val == 5)
  {
    if today then Highlight
    else if val > 0 && val < 5 then Low
    else if val > 5 && val < 10 then Medium
    else if val >= 10 then High
    else Muted
  }

  /** The escape sequence that selects a style. */
  function Escape(s: Style): (e: string)
    ensures |e| == 10 && e[0] == Esc
  {
    match s
    case Muted => [Esc] + "[0;37;30m"
    case Low => [Esc] + "[0;30;47m"
    case Medium => [Esc] + "[0;30;43m"
    case High => [Esc] + "[0;30;42m"
    case Highlight => [Esc] + "[1;37;45m"
  }

  /** Different styles are announced by different escape sequences. */
  lemma EscapeInjective(s: Style, t: Style)
    ensures Escape(s) == Escape(t) <==> s == t
  {
    if s != t {
      assert Escape(s)[3] != Escape(t)[3] || Escape(s)[8] != Escape(t)[8];
    }
  }

  predicate IsDigit(ch: char)
  {
    '0' <= ch <= '9'
  }

  function DigitValue(ch: char): nat
    requires IsDigit(ch)
  {
    ch as int - '0' as int
  }

  function Digit(d: int): (ch: char)
    requires 0 <= d < 10
    ensures IsDigit(ch) && DigitValue(ch) == d
  {
    "0123456789"[d]
  }

  /** The decimal digits of `n`, as `%d` prints a non-negative number. */
  function DecimalNat(n: nat): (s: string)
    ensures |s| >= 1
    ensures forall i :: 0 <= i < |s| ==> IsDigit(s[i])
    decreases n
  {
    if n < 10 then [Digit(n)] else DecimalNat(n / 10) + [Digit(n % 10)]
  }

  /** `%d` for any int: a minus sign before the digits of a negative one. */
  function Decimal(n: int): string
  {
    if n < 0 then "-" + DecimalNat(-n) else DecimalNat(n)
  }

  /** The number a string of decimal digits denotes. */
  function ParseDigits(s: string): nat
    requires forall i :: 0 <= i < |s| ==> IsDigit(s[i])
    decreases |s|
  {
    if s == [] then 0
    else ParseDigits(s[..|s| - 1]) * 10 + DigitValue(s[|s| - 1])
  }

  /** Reading back what `%d` printed gives the number. */
  lemma {:induction false} DecimalRoundTrip(n: nat)
    ensures ParseDigits(DecimalNat(n)) == n
    decreases n
  {
    if n >= 10 {
      DecimalRoundTrip(n / 10);
      var s := DecimalNat(n);
      assert s[..|s| - 1] == DecimalNat(n / 10);
    }
  }

  /** One, two and three digits for the numbers below 10, 100 and 1000. */
  lemma {:induction false} DecimalWidth(n: nat)
    ensures n < 10 <==> |DecimalNat(n)| == 1
    ensures 10 <= n < 100 <==> |DecimalNat(n)| == 2
    ensures 100 <= n < 1000 <==> |DecimalNat(n)| == 3
    ensures n >= 1000 <==> |DecimalNat(n)| >= 4
    decreases n
  {
    if n >= 10 {
      DecimalWidth(n / 10);
    }
  }

  /** The visible part of a cell as PrintCell writes it: a dash for 0,
      otherwise the number padded by the `switch` whose `val >= 10` case
      comes first, so that its `val >= 100` case is never taken. */
  function GlyphAsWritten(val: int): string
  {
    if val == 0 then "  - "
    else if val >= 10 then " " + Decimal(val) + " "
    else if val >= 100 then Decimal(val) + " "
    else "  " + Decimal(val) + " "
  }

  /** The visible part of a cell with the padding cases in the order that
      keeps every count below 1000 four characters wide. */
  function Glyph(val: int): string
  {
    if val == 0 then "  - "
    else if val >= 100 then Decimal(val) + " "
    else if val >= 10 then " " + Decimal(val) + " "
    else "  " + Decimal(val) + " "
  }

  /** Every count from 0 to 999 takes four characters, and the number it
      shows reads back as the count. */
  lemma GlyphWidth(val: int)
    requires 0 <= val < 1000
    ensures |Glyph(val)| == 4
    ensures val > 0 ==> ParseDigits(Glyph(val)[3 - |DecimalNat(val)|..3]) == val
  {
    DecimalWidth(val);
    DecimalRoundTrip(val);
    if val > 0 {
      assert Glyph(val)[3 - |DecimalNat(val)|..3] == DecimalNat(val);
    }
  }

  /** The padding as written agrees with the intended one below 100, but a
      count of 100 already takes five characters and pushes the rest of
      its row one column to the right. */
  lemma GlyphAsWrittenWidth(val: int)
    requires 0 <= val
    ensures val < 100 ==> GlyphAsWritten(val) == Glyph(val)
    ensures 100 <= val < 1000 ==> |GlyphAsWritten(val)| == 5
  {
    DecimalWidth(val);
  }

  /** What one cell shows: a count, and whether it is the today cell. */
  datatype Cell = Cell(value: int, today: bool)

  /** PrintCell: escape sequence, visible glyph, reset. */
  function CellText(c: Cell): (t: string)
    ensures |t| >= 14
    ensures t[..10] == Escape(StyleOf(c.value, c.today))
    ensures t[|t| - 4..] == Reset
    ensures 0 <= c.value < 1000 ==> |t| == 18
  {
    assert 0 <= c.value < 1000 ==> |Glyph(c.value)| == 4 by {
      if 0 <= c.value < 1000 {
        GlyphWidth(c.value);
      }
    }
    Escape(StyleOf(c.value, c.today)) + Glyph(c.value) + Reset
  }

  /** PrintDayCol: a five-character label, naming Mon, Wed and Fri on the
      rows 1, 3 and 5 and blank on the others. */
  function DayLabel(day: int): (out: string)
    ensures |out| == 5
    ensures out != "     " <==> day == 1 || day == 3 || day == 5
  {
    if day == 1 then " Mon "
    else if day == 3 then " Wed "
    else if day == 5 then " Fri "
    else "     "
  }

  /** The count a week column holds for a day row, or 0 when the week has
      no column or the column is too short. */
  function Entry(cols: map<int, seq<int>>, week: int, day: nat): int
  {
    if week in cols && day < |cols[week]| then cols[week][day] else 0
  }

  /** The cell PrintCells draws for week `week` and day row `day`, with the
      today cell's read guarded like every other read. */
  function CellAt(cols: map<int, seq<int>>, offset: int, week: int, day: nat): (c: Cell)
    ensures c.value == Entry(cols, week, day)
    ensures c.today <==> week == 0 && day == offset - 1 && 0 in cols
  {
    if week in cols then
      var col := cols[week];
      if week == 0 && day == offset - 1 then
        Cell(if day < |col| then col[day] else 0, true)
      else if |col| > day then Cell(col[day], false)
      else Cell(0, false)
    else Cell(0, false)
  }

  /** The cell as PrintCells computes it: the today cell reads `col[j]`
      without looking at the length of the column, which is an index
      panic when the column is too short. */
  function CellAsWritten(cols: map<int, seq<int>>, offset: int, week: int, day: nat): Result<Cell>
  {
    if week in cols then
      var col := cols[week];
      if week == 0 && day == offset - 1 then
        if day < |col| then Success(Cell(col[day], true)) else Failure(IndexOutOfRange)
      else if |col| > day then Success(Cell(col[day], false))
      else Success(Cell(0, false))
    else Success(Cell(0, false))
  }

  /** The code as written panics exactly at a today cell whose week-0
      column is too short, and draws the guarded cell everywhere else. */
  lemma CellAsWrittenFails(cols: map<int, seq<int>>, offset: int, week: int, day: nat)
    ensures CellAsWritten(cols, offset, week, day).Failure?
      <==> week == 0 && 0 in cols && day == offset - 1 && |cols[0]| <= day
    ensures CellAsWritten(cols, offset, week, day).Success? ==>
      CellAsWritten(cols, offset, week, day).value == CellAt(cols, offset, week, day)
  {
  }

  /** One printed line: its day label and its cells, left to right. */
  datatype Row = Row(dayLabel: string, cells: seq<Cell>)

  /** The first `n` cells of the row for day `day`: weeks 27 down to
      28-n. */
  function RowCells(cols: map<int, seq<int>>, offset: int, day: nat, n: nat): (cs: seq<Cell>)
    requires n <= WeeksInLastSixMonths + 2
    ensures |cs| == n
  {
    if n == 0 then []
    else RowCells(cols, offset, day, n - 1) + [CellAt(cols, offset, WeeksInLastSixMonths + 2 - n, day)]
  }

  /** The first `n` rows of the grid: days 6 down to 7-n. */
  function Rows(cols: map<int, seq<int>>, offset: int, n: nat): (rs: seq<Row>)
    requires n <= 7
    ensures |rs| == n
    ensures forall r :: 0 <= r < n ==> |rs[r].cells| == WeeksInLastSixMonths + 2
  {
    if n == 0 then []
    else Rows(cols, offset, n - 1) + [Row(DayLabel(7 - n), RowCells(cols, offset, 7 - n, WeeksInLastSixMonths + 2))]
  }

  /** The body of the grid: rows for day 6 down to day 0, each with the
      weeks 27 down to 0 from left to right. */
  function Grid(cols: map<int, seq<int>>, offset: int): (g: seq<Row>)
    ensures |g| == 7
    ensures forall r :: 0 <= r < 7 ==> |g[r].cells| == WeeksInLastSixMonths + 2
  {
    Rows(cols, offset, 7)
  }

  lemma {:induction false} RowCellsAt(cols: map<int, seq<int>>, offset: int, day: nat, n: nat)
    requires n <= WeeksInLastSixMonths + 2
    ensures |RowCells(cols, offset, day, n)| == n
    ensures forall c :: 0 <= c < n ==> RowCells(cols, offset, day, n)[c] == CellAt(cols, offset, WeeksInLastSixMonths + 1 - c, day)
  {
    if n > 0 {
      RowCellsAt(cols, offset, day, n - 1);
    }
  }

  lemma {:induction false} RowsAt(cols: map<int, seq<int>>, offset: int, n: nat)
    requires n <= 7
    ensures |Rows(cols, offset, n)| == n
    ensures forall r :: 0 <= r < n ==> Rows(cols, offset, n)[r] == Row(DayLabel(6 - r), RowCells(cols, offset, 6 - r, WeeksInLastSixMonths + 2))
  {
    if n > 0 {
      RowsAt(cols, offset, n - 1);
    }
  }

  /** The grid has 7 rows of 28 cells; the cell in row r and column c
      shows the count of week 27-c for day 6-r; and a single cell is
      highlighted, the rightmost one of the row for day offset-1, and
      only when week 0 has a column. */
  lemma GridLayout(cols: map<int, seq<int>>, w: Weekday)
    ensures var g := Grid(cols, CalcOffset(w));
      && |g| == 7
      && (forall r :: 0 <= r < 7 ==> |g[r].cells| == 28 && g[r].dayLabel == DayLabel(6 - r))
      && (forall r, c :: 0 <= r < 7 && 0 <= c < 28 ==> g[r].cells[c].value == Entry(cols, 27 - c, 6 - r))
      && (forall r, c :: 0 <= r < 7 && 0 <= c < 28 ==>
            (g[r].cells[c].today <==> 0 in cols && r == 7 - CalcOffset(w) && c == 27))
  {
    var g := Grid(cols, CalcOffset(w));
    forall r | 0 <= r < 7
      ensures |g[r].cells| == 28 && g[r].dayLabel == DayLabel(6 - r)
    {
      GridCellIs(cols, CalcOffset(w), r, 0);
    }
    forall r, c | 0 <= r < 7 && 0 <= c < 28
      ensures g[r].cells[c].value == Entry(cols, 27 - c, 6 - r)
      ensures g[r].cells[c].today <==> 0 in cols && r == 7 - CalcOffset(w) && c == 27
    {
      GridCellIs(cols, CalcOffset(w), r, c);
    }
  }

  /** The cell in row r and column c of the grid is the one for week 27-c
      and day 6-r. */
  lemma GridCellIs(cols: map<int, seq<int>>, offset: int, r: nat, c: nat)
    requires r < 7 && c < 28
    ensures |Grid(cols, offset)| == 7
    ensures Grid(cols, offset)[r].dayLabel == DayLabel(6 - r)
    ensures |Grid(cols, offset)[r].cells| == 28
    ensures Grid(cols, offset)[r].cells[c] == CellAt(cols, offset, 27 - c, 6 - r)
  {
    RowsAt(cols, offset, 7);
    RowCellsAt(cols, offset, 6 - r, 28);
  }

  /** A cell of weeks 1 to 27 shows its column's entry for the day and is
      not highlighted. */
  lemma GridCellOfColumn(cols: map<int, seq<int>>, offset: int, r: nat, c: nat, column: seq<int>, v: int)
    requires r < 7 && c < 27
    requires 27 - c in cols && cols[27 - c] == column && 6 - r < |column| && column[6 - r] == v
    ensures Grid(cols, offset)[r].cells[c] == Cell(v, false)
  {
    GridCellIs(cols, offset, r, c);
  }

  /** The rightmost cell of row 7-offset shows week 0's entry for day
      offset-1 and is highlighted, when that entry exists. */
  lemma GridTodayOfColumn(cols: map<int, seq<int>>, offset: int, column: seq<int>, v: int)
    requires 1 <= offset <= 7
    requires 0 in cols && cols[0] == column && offset - 1 < |column| && column[offset - 1] == v
    ensures Grid(cols, offset)[7 - offset].cells[27] == Cell(v, true)
  {
    GridCellIs(cols, offset, 7 - offset, 27);
  }

  /** The cells of a row, printed left to right. */
  function CellsText(cells: seq<Cell>): string
    decreases |cells|
  {
    if cells == [] then ""
    else CellsText(cells[..|cells| - 1]) + CellText(cells[|cells| - 1])
  }

  /** One printed line: label, cells, newline. */
  function RowText(row: Row): string
  {
    row.dayLabel + CellsText(row.cells) + "\n"
  }

  /** The rows, printed top to bottom. */
  function Screen(rows: seq<Row>): string
    decreases |rows|
  {
    if rows == [] then ""
    else Screen(rows[..|rows| - 1]) + RowText(rows[|rows| - 1])
  }

  /** Cells showing counts below 1000 take 18 characters each. */
  lemma {:induction false} CellsTextLength(cells: seq<Cell>)
    requires forall i :: 0 <= i < |cells| ==> 0 <= cells[i].value < 1000
    ensures |CellsText(cells)| == 18 * |cells|
    decreases |cells|
  {
    if cells != [] {
      CellsTextLength(cells[..|cells| - 1]);
    }
  }

  /** When every count is below 1000 every printed line has the same
      length: 5 label characters, 28 cells of 18 and the newline. */
  lemma ScreenAligned(cols: map<int, seq<int>>, w: Weekday)
    requires forall k :: k in cols ==> forall d :: 0 <= d < |cols[k]| ==> 0 <= cols[k][d] < 1000
    ensures forall r :: 0 <= r < 7 ==> |RowText(Grid(cols, CalcOffset(w))[r])| == 5 + 28 * 18 + 1
  {
    var g := Grid(cols, CalcOffset(w));
    forall r | 0 <= r < 7
      ensures |RowText(g[r])| == 5 + 28 * 18 + 1
    {
      forall c | 0 <= c < 28
        ensures 0 <= g[r].cells[c].value < 1000
      {
        GridCellIs(cols, CalcOffset(w), r, c);
      }
      GridCellIs(cols, CalcOffset(w), r, 0);
      CellsTextLength(g[r].cells);
    }
  }

  /** PrintCells: for each day row from 6 down to 0, the week loop
      (PrintRow), then a newline. */
  method PrintCells(cols: map<int, seq<int>>, w: Weekday) returns (out: string)
    ensures out == Screen(Grid(cols, CalcOffset(w)))
  {
    var offset := CalcOffset(w);
    out := "";
    var j := 6;
    ghost var n: nat := 0;
    while j >= 0
      invariant -1 <= j <= 6 && n == 6 - j
      invariant out == Screen(Rows(cols, offset, n))
    {
      ghost var done := out;
      out := PrintRow(cols, offset, j, out);
      ScreenStep(cols, offset, j, n, done, out);
      out := out + "\n";
      j := j - 1;
      n := n + 1;
    }
    GridRows(cols, offset, n, out);
  }

  /** The week loop of PrintCells for the row of day `day`: the label,
      printed when the loop starts at week 27, then the cells of weeks 27
      down to 0, appended to what is printed already. */
  method PrintRow(cols: map<int, seq<int>>, offset: int, day: nat, done: string) returns (out: string)
    ensures out == done + DayLabel(day) + CellsText(RowCells(cols, offset, day, WeeksInLastSixMonths + 2))
  {
    out := done;
    var i := WeeksInLastSixMonths + 1;
    while i >= 0
      invariant -1 <= i <= WeeksInLastSixMonths + 1
      invariant i == WeeksInLastSixMonths + 1 ==> out == done
      invariant i < WeeksInLastSixMonths + 1 ==>
        out == done + DayLabel(day) + CellsText(RowCells(cols, offset, day, WeeksInLastSixMonths + 1 - i))
    {
      if i == WeeksInLastSixMonths + 1 {
        out := out + DayLabel(day);
        RowStart(cols, offset, day, out);
      }
      RowStep(cols, offset, day, i, done + DayLabel(day));
      out := out + CellText(CellAt(cols, offset, i, day));
      i := i - 1;
    }
    RowDone(cols, offset, day, i, done, out);
  }

  /** The week loop has run down to week -1. */
  lemma RowDone(cols: map<int, seq<int>>, offset: int, day: nat, week: int, done: string, out: string)
    requires week == -1
    requires out == done + DayLabel(day) + CellsText(RowCells(cols, offset, day, WeeksInLastSixMonths + 1 - week))
    ensures out == done + DayLabel(day) + CellsText(RowCells(cols, offset, day, WeeksInLastSixMonths + 2))
  {
  }

  /** The grid is its first seven rows. */
  lemma GridRows(cols: map<int, seq<int>>, offset: int, n: nat, out: string)
    requires n == 7 && out == Screen(Rows(cols, offset, n))
    ensures out == Screen(Grid(cols, offset))
  {
  }

  /** A row before its first cell. */
  lemma RowStart(cols: map<int, seq<int>>, offset: int, day: nat, prefix: string)
    ensures prefix == prefix + CellsText(RowCells(cols, offset, day, 0))
  {
  }

  /** A row after one more cell. */
  lemma RowStep(cols: map<int, seq<int>>, offset: int, day: nat, week: nat, prefix: string)
    requires week <= WeeksInLastSixMonths + 1
    ensures prefix + CellsText(RowCells(cols, offset, day, WeeksInLastSixMonths + 1 - week)) + CellText(CellAt(cols, offset, week, day))
      == prefix + CellsText(RowCells(cols, offset, day, WeeksInLastSixMonths + 2 - week))
  {
    var cs := RowCells(cols, offset, day, WeeksInLastSixMonths + 1 - week);
    var c := CellAt(cols, offset, week, day);
    CellsTextSnoc(cs, c);
    Concat2(prefix, CellsText(cs), CellText(c));
  }

  /** Printing one more cell appends its text. */
  lemma CellsTextSnoc(cells: seq<Cell>, c: Cell)
    ensures CellsText(cells + [c]) == CellsText(cells) + CellText(c)
  {
    assert (cells + [c])[..|cells|] == cells;
  }

  /** Printing one more row appends its line. */
  lemma ScreenSnoc(rows: seq<Row>, row: Row)
    ensures Screen(rows + [row]) == Screen(rows) + RowText(row)
  {
    assert (rows + [row])[..|rows|] == rows;
  }

  lemma Concat2(a: string, b: string, c: string)
    ensures a + b + c == a + (b + c)
  {
  }

  /** The screen after one more row: `out` is the screen so far, `done`,
      followed by the row of day `day` without its newline. */
  lemma ScreenStep(cols: map<int, seq<int>>, offset: int, day: int, n: nat, done: string, out: string)
    requires 0 <= day <= 6 && n == 6 - day
    requires done == Screen(Rows(cols, offset, n))
    requires out == done + DayLabel(day) + CellsText(RowCells(cols, offset, day, WeeksInLastSixMonths + 2))
    ensures out + "\n" == Screen(Rows(cols, offset, n + 1))
  {
    var row := Row(DayLabel(day), RowCells(cols, offset, day, WeeksInLastSixMonths + 2));
    ScreenSnoc(Rows(cols, offset, 6 - day), row);
    Concat3(done, row.dayLabel, CellsText(row.cells), "\n");
  }

  lemma Concat3(a: string, b: string, c: string, d: string)
    ensures a + b + c + d == a + (b + c + d)
  {
  }
}
