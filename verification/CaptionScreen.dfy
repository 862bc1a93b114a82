/** The memory of one caption or text channel (EIA 608-B) and the commands that change it. */
module CaptionScreen {
  const MAX_ROWS: nat := 15
  const LAST_ROW: nat := 14
  const FIRST_COLUMN: nat := 1
  const LAST_COLUMN: nat := 32

  /** Column 0 holds the preamble of the character in column 1; columns 1 to 32 are displayed.
      Zero is a transparent space. */
  type Row = r: seq<int> | |r| == LAST_COLUMN + 1 witness seq(33, _ => 0)

  function BlankRow(): (r: Row)
    ensures Blank(r)
  {
    seq(LAST_COLUMN + 1, _ => 0)
  }

  predicate BlankUpTo(row: Row, n: nat)
    requires n <= LAST_COLUMN + 1
  {
    forall i :: FIRST_COLUMN <= i < n ==> row[i] == 0
  }

  predicate Blank(row: Row) {
    BlankUpTo(row, LAST_COLUMN + 1)
  }

  /** One of the two buffers of a channel, and the bit mask of rows that are not blank. */
  datatype Screen = Screen(rows: seq<Row>, dirty: seq<bool>)

  datatype Mode = Unknown | RollUp | PopOn | PaintOn | Text

  datatype Channel = Channel(
    shown: Screen, hidden: Screen, row: nat, column: nat, window: nat, lastPac: int, mode: Mode)

  // Invariants.

  ghost predicate Sized(s: Screen) {
    |s.rows| == MAX_ROWS && |s.dirty| == MAX_ROWS
  }

  /** A clear bit means a blank row. The reverse is not true after a roll. */
  ghost predicate CleanIsBlank(s: Screen)
    requires Sized(s)
  {
    forall r :: 0 <= r < MAX_ROWS && !s.dirty[r] ==> Blank(s.rows[r])
  }

  ghost predicate AllBlank(s: Screen)
    requires Sized(s)
  {
    forall r :: 0 <= r < MAX_ROWS ==> Blank(s.rows[r])
  }

  /** The rows of the roll-up window that are on the screen. */
  function WindowRows(row: nat, window: nat): nat {
    if row + 1 < window then row + 1 else window
  }

  /** Nothing is displayed outside the roll-up window. */
  ghost predicate BlankOutside(s: Screen, row: nat, window: nat)
    requires Sized(s)
  {
    forall r :: 0 <= r < MAX_ROWS && !(row + 1 - WindowRows(row, window) <= r <= row) ==> Blank(s.rows[r])
  }

  ghost predicate Valid(ch: Channel) {
    && Sized(ch.shown) && Sized(ch.hidden)
    && CleanIsBlank(ch.shown) && CleanIsBlank(ch.hidden)
    && ch.row < MAX_ROWS && FIRST_COLUMN <= ch.column <= LAST_COLUMN
    && (ch.mode.RollUp? ==> 2 <= ch.window <= 4 && BlankOutside(ch.shown, ch.row, ch.window))
    && (ch.mode.Unknown? ==> AllBlank(ch.shown) && AllBlank(ch.hidden))
  }

  function EmptyScreen(): (s: Screen)
    ensures Sized(s) && CleanIsBlank(s) && AllBlank(s)
  {
    Screen(seq(MAX_ROWS, _ => BlankRow()), seq(MAX_ROWS, _ => false))
  }

  /** A channel after reset; channels 4 to 7 are text channels. */
  function Reset(text: bool): (ch: Channel)
    ensures Valid(ch) && (ch.mode.Text? <==> text)
  {
    if text then Channel(EmptyScreen(), EmptyScreen(), 0, FIRST_COLUMN, 0, 0, Text)
    else Channel(EmptyScreen(), EmptyScreen(), LAST_ROW, FIRST_COLUMN, 4, 0, Unknown)
  }

  // Characters.

  /** Characters go to the non-displayed memory in pop-on mode. */
  function Target(ch: Channel): Screen {
    if ch.mode.PopOn? then ch.hidden else ch.shown
  }

  function WithTarget(ch: Channel, s: Screen): Channel {
    if ch.mode.PopOn? then ch.(hidden := s) else ch.(shown := s)
  }

  function SetRow(s: Screen, r: nat, row: Row, dirty: bool): Screen
    requires Sized(s) && r < MAX_ROWS
  {
    Screen(s.rows[r := row], s.dirty[r := dirty])
  }

  function Back(column: nat): nat {
    if column > FIRST_COLUMN then column - 1 else column
  }

  function Forward(column: nat): nat {
    if column < LAST_COLUMN then column + 1 else column
  }

  /** The row with a character at the column. A displayable character takes the last preamble
      along if nothing is before it. */
  function PutInRow(row: Row, column: nat, c: int, displayable: bool, lastPac: int): Row
    requires FIRST_COLUMN <= column <= LAST_COLUMN
  {
    var r := row[column := c];
    if displayable && (column == FIRST_COLUMN || r[column - 1] == 0) then r[column - 1 := lastPac] else r
  }

  function PutChar(ch: Channel, c: int, displayable: bool, backspace: bool): Channel
    requires Valid(ch)
  {
    var column := if backspace then Back(ch.column) else ch.column;
    var s := Target(ch);
    var row := PutInRow(s.rows[ch.row], column, c, displayable, ch.lastPac);
    var dirty := if !displayable && c == 0 then s.dirty[ch.row] && !Blank(row) else true;
    WithTarget(ch.(column := if backspace then ch.column else Forward(ch.column)), SetRow(s, ch.row, row, dirty))
  }

  function Backspace(ch: Channel): Channel
    requires Valid(ch)
  {
    if ch.column <= FIRST_COLUMN then ch
    else
      var column := ch.column - 1;
      var s := Target(ch);
      if s.rows[ch.row][column] == 0 then ch.(column := column)
      else
        var row: Row := s.rows[ch.row][column := 0];
        WithTarget(ch.(column := column), SetRow(s, ch.row, row, s.dirty[ch.row] && !Blank(row)))
  }

  function ClearFrom(row: Row, column: nat): Row
    requires column <= LAST_COLUMN
  {
    row[..column] + seq(LAST_COLUMN + 1 - column, _ => 0)
  }

  function DeleteToEnd(ch: Channel): Channel
    requires Valid(ch)
  {
    var s := Target(ch);
    if !s.dirty[ch.row] then ch
    else
      var row := ClearFrom(s.rows[ch.row], ch.column);
      WithTarget(ch, SetRow(s, ch.row, row, !BlankUpTo(row, ch.column)))
  }

  // Erasing.

  predicate Clean(s: Screen) {
    forall r :: 0 <= r < |s.dirty| ==> !s.dirty[r]
  }

  function Erase(s: Screen): Screen {
    if Clean(s) then s else EmptyScreen()
  }

  function EraseDisplayed(ch: Channel): Channel
    requires !ch.mode.Text?
  {
    ch.(shown := Erase(ch.shown))
  }

  function EraseNonDisplayed(ch: Channel): Channel {
    ch.(hidden := Erase(ch.hidden))
  }

  // Rolling.

  /** The bit mask shifted to lower rows. */
  function BitsUp(dirty: seq<bool>, k: nat): (r: seq<bool>)
    ensures |r| == |dirty|
    ensures forall i :: 0 <= i < |dirty| ==> r[i] == (i + k < |dirty| && dirty[i + k])
  {
    seq(|dirty|, i requires 0 <= i < |dirty| => i + k < |dirty| && dirty[i + k])
  }

  function BitsDown(dirty: seq<bool>, k: nat): (r: seq<bool>)
    ensures |r| == |dirty|
    ensures forall i :: 0 <= i < |dirty| ==> r[i] == (i >= k && dirty[i - k])
  {
    seq(|dirty|, i requires 0 <= i < |dirty| => i >= k && dirty[i - k])
  }

  /** The rows first + 1 to last move up, and the last one becomes blank. */
  function Rolled(s: Screen, first: nat, last: nat): (r: Screen)
    requires Sized(s) && first <= last < MAX_ROWS
    ensures Sized(r)
  {
    Screen(s.rows[..first] + s.rows[first + 1..last + 1] + [BlankRow()] + s.rows[last + 1..], BitsUp(s.dirty, 1))
  }

  function CarriageReturn(ch: Channel): Channel
    requires Valid(ch)
  {
    match ch.mode
    case Unknown => ch
    case PopOn => ch
    case PaintOn => ch
    case RollUp =>
      var c := ch.(column := FIRST_COLUMN, lastPac := 0);
      if Clean(ch.shown) then c
      else c.(shown := Rolled(ch.shown, ch.row + 1 - WindowRows(ch.row, ch.window), ch.row))
    case Text =>
      var c := ch.(column := FIRST_COLUMN, lastPac := 0);
      if ch.row != LAST_ROW then c.(row := ch.row + 1)
      else if Clean(ch.shown) then c
      else c.(shown := Rolled(ch.shown, 0, LAST_ROW))
  }

  /** The bit mask without the rows above `top`. */
  function BitsFrom(dirty: seq<bool>, top: nat): (r: seq<bool>)
    ensures |r| == |dirty|
    ensures forall i :: 0 <= i < |dirty| ==> r[i] == (i >= top && dirty[i])
  {
    seq(|dirty|, i requires 0 <= i < |dirty| => i >= top && dirty[i])
  }

  /** The top rows of a window that shrinks are erased. */
  function Shrunk(s: Screen, row: nat, oldRows: nat, newRows: nat): (r: Screen)
    requires Sized(s) && newRows <= oldRows <= row + 1 <= MAX_ROWS
    ensures Sized(r)
  {
    Screen(s.rows[..row + 1 - oldRows] + seq(oldRows - newRows, _ => BlankRow()) + s.rows[row + 1 - newRows..],
           BitsFrom(s.dirty, row + 1 - newRows))
  }

  function ResizeWindow(ch: Channel, rows: nat): Channel
    requires Valid(ch)
  {
    var oldRows := WindowRows(ch.row, ch.window);
    var newRows := WindowRows(ch.row, rows);
    if Clean(ch.shown) || newRows == 0 || newRows >= oldRows then ch
    else ch.(shown := Shrunk(ch.shown, ch.row, oldRows, newRows))
  }

  function RollUpCaption(ch: Channel, window: nat): Channel
    requires Valid(ch) && !ch.mode.Text?
  {
    if ch.mode.RollUp? || ch.mode.Unknown? then
      var c := if ch.mode.RollUp? then ResizeWindow(ch, window) else ch;
      c.(mode := RollUp, window := window)
    else
      ch.(mode := RollUp, window := window, row := LAST_ROW, column := FIRST_COLUMN,
          shown := Erase(ch.shown), hidden := Erase(ch.hidden))
  }

  /** Row i after the n rows that end at base row `from` moved to base row `to`. */
  function MovedRow(s: Screen, from: nat, to: nat, n: nat, i: nat): Row
    requires Sized(s) && from < MAX_ROWS && to < MAX_ROWS && n <= from + 1 && n <= to + 1 && i < MAX_ROWS
  {
    if to + 1 - n <= i <= to then s.rows[i - to + from]
    else if (if to < from then to < i <= from else from + 1 - n <= i < to + 1 - n) then BlankRow()
    else s.rows[i]
  }

  function Moved(s: Screen, from: nat, to: nat, n: nat): (r: Screen)
    requires Sized(s) && from < MAX_ROWS && to < MAX_ROWS && n <= from + 1 && n <= to + 1
    ensures Sized(r)
  {
    Screen(seq(MAX_ROWS, i requires 0 <= i < MAX_ROWS => MovedRow(s, from, to, n, i)),
           if to < from then BitsUp(s.dirty, from - to) else BitsDown(s.dirty, to - from))
  }

  function MoveWindow(ch: Channel, to: nat): Channel
    requires Valid(ch) && to < MAX_ROWS
  {
    if to == ch.row || Clean(ch.shown) then ch
    else
      var n := WindowRows(if ch.row < to then ch.row else to, ch.window);
      ch.(shown := Moved(ch.shown, ch.row, to, n))
  }

  // Other commands.

  function ResumeCaptionLoading(ch: Channel): Channel
    requires !ch.mode.Text?
  {
    ch.(mode := PopOn)
  }

  function ResumeDirectCaptioning(ch: Channel): Channel
    requires !ch.mode.Text?
  {
    ch.(mode := PaintOn)
  }

  function EndOfCaption(ch: Channel): Channel
    requires !ch.mode.Text?
  {
    ch.(shown := ch.hidden, hidden := ch.shown, mode := PopOn)
  }

  function TextRestart(ch: Channel): Channel
    requires ch.mode.Text?
  {
    ch.(shown := Erase(ch.shown), row := 0, column := FIRST_COLUMN)
  }

  function TabOffset(ch: Channel, n: nat): Channel {
    ch.(column := if ch.column + n > LAST_COLUMN then LAST_COLUMN else ch.column + n)
  }

  const PAC_ROWS: seq<int> := [10, -1, 0, 1, 2, 3, 11, 12, 13, 14, 4, 5, 6, 7, 8, 9]

  /** The row a preamble address code selects, negative for none. */
  function PacRow(c1: nat, c2: nat): (r: int)
    ensures r < MAX_ROWS
  {
    PAC_ROWS[c1 % 8 * 2 + c2 / 32 % 2]
  }

  /** In roll-up mode the window must fit above the base row. */
  function BaseRow(row: nat, window: nat): nat {
    if window > row + 1 then window - 1 else row
  }

  function Preamble(ch: Channel, c1: nat, c2: nat): Channel
    requires Valid(ch)
  {
    var row := PacRow(c1, c2);
    if row < 0 || ch.mode.Unknown? then ch
    else
      var c := match ch.mode
        case RollUp => MoveWindow(ch, BaseRow(row, ch.window)).(row := BaseRow(row, ch.window))
        case Text => ch
        case _ => ch.(row := row);
      // The indent is a multiple of four columns.
      c.(column := if c2 / 16 % 2 == 1 then FIRST_COLUMN + c2 / 2 % 8 * 4 else c.column, lastPac := 0x1000 + c2)
  }

  /** The displayed part of row `base` - i. */
  function LineAbove(s: Screen, base: nat, i: nat): (r: seq<int>)
    requires Sized(s) && i <= base < MAX_ROWS
    ensures |r| == LAST_COLUMN
  {
    s.rows[base - i][FIRST_COLUMN..]
  }

  function BlankLine(): (r: seq<int>)
    ensures |r| == LAST_COLUMN
  {
    seq(LAST_COLUMN, _ => 0)
  }

  lemma BlankRowsLine(row: Row)
    ensures Blank(row) <==> row[FIRST_COLUMN..] == BlankLine()
  {
    if Blank(row) {
      assert forall i :: 0 <= i < LAST_COLUMN ==> row[FIRST_COLUMN..][i] == BlankLine()[i];
    }
    if row[FIRST_COLUMN..] == BlankLine() {
      forall i | FIRST_COLUMN <= i <= LAST_COLUMN ensures row[i] == 0 {
        assert row[FIRST_COLUMN..][i - FIRST_COLUMN] == row[i];
      }
    }
  }

  // Every command keeps the invariants.

  lemma BlankFrom(row: Row, column: nat)
    requires FIRST_COLUMN <= column <= LAST_COLUMN
    ensures Blank(ClearFrom(row, column)) <==> BlankUpTo(row, column)
    ensures BlankUpTo(ClearFrom(row, column), column) <==> BlankUpTo(row, column)
  {
    var r := ClearFrom(row, column);
    assert forall i :: 0 <= i < column ==> r[i] == row[i];
    assert forall i :: column <= i <= LAST_COLUMN ==> r[i] == 0;
  }

  /** A row that was changed, and its bit. */
  lemma SetRowKeeps(ch: Channel, s: Screen, row: Row, dirty: bool)
    requires Valid(ch) && !ch.mode.Unknown? && s == SetRow(Target(ch), ch.row, row, dirty) && (!dirty ==> Blank(row))
    ensures Valid(WithTarget(ch, s))
  {
    hide Blank;
  }

  lemma BlankStays(row: Row, column: nat, lastPac: int)
    requires FIRST_COLUMN <= column <= LAST_COLUMN && Blank(row)
    ensures Blank(PutInRow(row, column, 0, false, lastPac))
  {
  }

  lemma TargetClean(ch: Channel)
    requires Valid(ch)
    ensures Sized(Target(ch)) && (!Target(ch).dirty[ch.row] ==> Blank(Target(ch).rows[ch.row]))
  {
  }

  lemma PutCharKeeps(ch: Channel, c: int, displayable: bool, backspace: bool)
    requires Valid(ch) && !ch.mode.Unknown?
    ensures Valid(PutChar(ch, c, displayable, backspace))
  {
    var column := if backspace then Back(ch.column) else ch.column;
    var s := Target(ch);
    var row := PutInRow(s.rows[ch.row], column, c, displayable, ch.lastPac);
    TargetClean(ch);
    if Blank(s.rows[ch.row]) {
      BlankStays(s.rows[ch.row], column, ch.lastPac);
    }
    hide Blank;
    hide PutInRow;
    var dirty := if !displayable && c == 0 then s.dirty[ch.row] && !Blank(row) else true;
    SetRowKeeps(ch.(column := if backspace then ch.column else Forward(ch.column)), SetRow(s, ch.row, row, dirty),
        row, dirty);
  }

  lemma BackspaceKeeps(ch: Channel)
    requires Valid(ch) && !ch.mode.Unknown?
    ensures Valid(Backspace(ch))
  {
    TargetClean(ch);
    var s := Target(ch);
    if ch.column > FIRST_COLUMN && s.rows[ch.row][ch.column - 1] != 0 {
      var row: Row := s.rows[ch.row][ch.column - 1 := 0];
      assert !Blank(s.rows[ch.row]);
      hide Blank;
      var dirty := s.dirty[ch.row] && !Blank(row);
      SetRowKeeps(ch.(column := ch.column - 1), SetRow(s, ch.row, row, dirty), row, dirty);
    }
  }

  lemma DeleteToEndKeeps(ch: Channel)
    requires Valid(ch) && !ch.mode.Unknown?
    ensures Valid(DeleteToEnd(ch))
  {
    var s := Target(ch);
    if s.dirty[ch.row] {
      var row := ClearFrom(s.rows[ch.row], ch.column);
      BlankFrom(s.rows[ch.row], ch.column);
      hide BlankUpTo;
      hide ClearFrom;
      SetRowKeeps(ch, SetRow(s, ch.row, row, !BlankUpTo(row, ch.column)), row, !BlankUpTo(row, ch.column));
    }
  }

  lemma EraseClears(s: Screen)
    requires Sized(s) && CleanIsBlank(s)
    ensures Sized(Erase(s)) && CleanIsBlank(Erase(s)) && AllBlank(Erase(s))
  {
  }

  lemma EraseKeeps(ch: Channel)
    requires Valid(ch)
    ensures !ch.mode.Text? ==> Valid(EraseDisplayed(ch)) && AllBlank(EraseDisplayed(ch).shown)
    ensures ch.mode.Text? ==> Valid(TextRestart(ch)) && AllBlank(TextRestart(ch).shown)
    ensures Valid(EraseNonDisplayed(ch)) && AllBlank(EraseNonDisplayed(ch).hidden)
  {
    EraseClears(ch.shown);
    EraseClears(ch.hidden);
    hide Erase;
    hide Blank;
  }

  lemma RolledKeeps(s: Screen, first: nat, last: nat)
    requires Sized(s) && CleanIsBlank(s) && first <= last < MAX_ROWS
    requires forall r :: 0 <= r < MAX_ROWS && !(first <= r <= last) ==> Blank(s.rows[r])
    ensures var t := Rolled(s, first, last);
            && CleanIsBlank(t) && (forall r :: 0 <= r < MAX_ROWS && !(first <= r <= last) ==> Blank(t.rows[r]))
            && Blank(t.rows[last]) && forall r :: first <= r < last ==> t.rows[r] == s.rows[r + 1]
  {
    var t := Rolled(s, first, last);
    hide Blank;
    assert forall r :: 0 <= r < first ==> t.rows[r] == s.rows[r];
    assert forall r :: first <= r < last ==> t.rows[r] == s.rows[r + 1];
    assert forall r :: last < r < MAX_ROWS ==> t.rows[r] == s.rows[r];
  }

  lemma CarriageReturnKeeps(ch: Channel)
    requires Valid(ch)
    ensures Valid(CarriageReturn(ch))
  {
    hide Blank;
    hide Rolled;
    if ch.mode.RollUp? {
      RolledKeeps(ch.shown, ch.row + 1 - WindowRows(ch.row, ch.window), ch.row);
    } else if ch.mode.Text? && ch.row == LAST_ROW {
      RolledKeeps(ch.shown, 0, LAST_ROW);
    }
  }

  lemma ShrunkKeeps(s: Screen, row: nat, oldRows: nat, newRows: nat)
    requires Sized(s) && CleanIsBlank(s) && newRows <= oldRows <= row + 1 <= MAX_ROWS
    requires forall r :: 0 <= r < MAX_ROWS && !(row + 1 - oldRows <= r <= row) ==> Blank(s.rows[r])
    ensures var t := Shrunk(s, row, oldRows, newRows);
            && CleanIsBlank(t)
            && (forall r :: 0 <= r < MAX_ROWS && !(row + 1 - newRows <= r <= row) ==> Blank(t.rows[r]))
            && forall r :: row + 1 - newRows <= r <= row ==> t.rows[r] == s.rows[r]
  {
    var t := Shrunk(s, row, oldRows, newRows);
    hide Blank;
    assert forall r :: 0 <= r < row + 1 - oldRows ==> t.rows[r] == s.rows[r];
    assert forall r :: row + 1 - oldRows <= r < row + 1 - newRows ==> t.rows[r] == BlankRow();
    assert forall r :: row + 1 - newRows <= r < MAX_ROWS ==> t.rows[r] == s.rows[r];
  }

  /** In roll-up mode resizing leaves text in the new window only. */
  lemma ResizeKeeps(ch: Channel, window: nat)
    requires Valid(ch) && ch.mode.RollUp? && 2 <= window <= 4
    ensures Valid(ResizeWindow(ch, window).(window := window))
    ensures forall i: nat :: i < WindowRows(ch.row, if window < ch.window then window else ch.window) ==>
              LineAbove(ResizeWindow(ch, window).shown, ch.row, i) == LineAbove(ch.shown, ch.row, i)
  {
    hide Blank;
    hide Shrunk;
    var oldRows := WindowRows(ch.row, ch.window);
    var newRows := WindowRows(ch.row, window);
    if newRows < oldRows {
      ShrunkKeeps(ch.shown, ch.row, oldRows, newRows);
    }
  }

  lemma RollUpCaptionKeeps(ch: Channel, window: nat)
    requires Valid(ch) && !ch.mode.Text? && 2 <= window <= 4
    ensures Valid(RollUpCaption(ch, window)) && RollUpCaption(ch, window).mode.RollUp?
  {
    hide Blank;
    hide Erase;
    hide ResizeWindow;
    if ch.mode.RollUp? {
      ResizeKeeps(ch, window);
      ResizeOnlyShown(ch, window);
    } else if !ch.mode.Unknown? {
      EraseClears(ch.shown);
      EraseClears(ch.hidden);
    }
  }

  lemma ResizeOnlyShown(ch: Channel, window: nat)
    requires Valid(ch)
    ensures ResizeWindow(ch, window) == ch.(shown := ResizeWindow(ch, window).shown)
  {
  }

  lemma MovedKeeps(s: Screen, from: nat, to: nat, n: nat)
    requires Sized(s) && CleanIsBlank(s) && from < MAX_ROWS && to < MAX_ROWS && n <= from + 1 && n <= to + 1
    requires forall r :: 0 <= r < MAX_ROWS && !(from + 1 - n <= r <= from) ==> Blank(s.rows[r])
    ensures var t := Moved(s, from, to, n);
            && CleanIsBlank(t) && (forall r :: 0 <= r < MAX_ROWS && !(to + 1 - n <= r <= to) ==> Blank(t.rows[r]))
            && forall i: nat :: i < n ==> LineAbove(t, to, i) == LineAbove(s, from, i)
  {
    hide Blank;
    var t := Moved(s, from, to, n);
    forall r | 0 <= r < MAX_ROWS && !(to + 1 - n <= r <= to) ensures Blank(t.rows[r]) {
      assert t.rows[r] == MovedRow(s, from, to, n, r);
    }
    forall r | 0 <= r < MAX_ROWS && !t.dirty[r] ensures Blank(t.rows[r]) {
      assert t.rows[r] == MovedRow(s, from, to, n, r);
    }
  }

  lemma CleanLines(s: Screen)
    requires Sized(s) && CleanIsBlank(s) && Clean(s)
    ensures AllBlank(s)
    ensures forall base: nat, i: nat :: i <= base < MAX_ROWS ==> LineAbove(s, base, i) == BlankLine()
  {
    hide Blank;
    forall base: nat, i: nat | i <= base < MAX_ROWS ensures LineAbove(s, base, i) == BlankLine() {
      BlankRowsLine(s.rows[base - i]);
    }
  }

  lemma MoveWindowKeeps(ch: Channel, to: nat)
    requires Valid(ch) && ch.mode.RollUp? && to < MAX_ROWS && to + 1 >= ch.window
    ensures Valid(MoveWindow(ch, to).(row := to)) && MoveWindow(ch, to) == ch.(shown := MoveWindow(ch, to).shown)
    ensures forall i: nat :: i < WindowRows(ch.row, ch.window) ==>
              LineAbove(MoveWindow(ch, to).shown, to, i) == LineAbove(ch.shown, ch.row, i)
  {
    hide Blank;
    hide Moved;
    if Clean(ch.shown) {
      CleanLines(ch.shown);
    } else if to != ch.row {
      var n := WindowRows(if ch.row < to then ch.row else to, ch.window);
      assert n == WindowRows(ch.row, ch.window);
      MovedKeeps(ch.shown, ch.row, to, n);
    }
  }

  lemma PreambleKeeps(ch: Channel, c1: nat, c2: nat)
    requires Valid(ch)
    ensures Valid(Preamble(ch, c1, c2))
  {
    hide Blank;
    hide MoveWindow;
    var row := PacRow(c1, c2);
    if row >= 0 && ch.mode.RollUp? {
      MoveWindowKeeps(ch, BaseRow(row, ch.window));
    }
  }

  // The roll-up window as a list of lines, the base line first.

  function Lines(ch: Channel): seq<seq<int>>
    requires Valid(ch)
  {
    seq(WindowRows(ch.row, ch.window),
        i requires 0 <= i < WindowRows(ch.row, ch.window) => LineAbove(ch.shown, ch.row, i))
  }

  function BlankLines(n: nat): seq<seq<int>> {
    seq(n, _ => BlankLine())
  }

  /** A carriage return drops the top line and adds a blank base line. */
  lemma CarriageReturnRolls(ch: Channel)
    requires Valid(ch) && ch.mode.RollUp?
    ensures Valid(CarriageReturn(ch))
    ensures Lines(CarriageReturn(ch)) == [BlankLine()] + Lines(ch)[..|Lines(ch)| - 1]
  {
    CarriageReturnKeeps(ch);
    hide Blank;
    hide Rolled;
    var d := CarriageReturn(ch);
    var w := WindowRows(ch.row, ch.window);
    if Clean(ch.shown) {
      CleanLines(ch.shown);
      assert Lines(ch) == BlankLines(w);
    } else {
      RolledKeeps(ch.shown, ch.row + 1 - w, ch.row);
      BlankRowsLine(d.shown.rows[ch.row]);
      forall i: nat | 0 < i < w ensures LineAbove(d.shown, ch.row, i) == LineAbove(ch.shown, ch.row, i - 1) {
        assert d.shown.rows[ch.row - i] == ch.shown.rows[ch.row - i + 1];
      }
    }
  }

  /** Moving the base row keeps the lines, with blank lines above them if more fit now. */
  lemma PreambleKeepsLines(ch: Channel, c1: nat, c2: nat)
    requires Valid(ch) && ch.mode.RollUp?
    ensures Valid(Preamble(ch, c1, c2))
    ensures PacRow(c1, c2) >= 0 ==>
              Lines(Preamble(ch, c1, c2)) == Lines(ch) + BlankLines(ch.window - |Lines(ch)|)
    ensures PacRow(c1, c2) < 0 ==> Preamble(ch, c1, c2) == ch
  {
    PreambleKeeps(ch, c1, c2);
    hide Blank;
    hide MoveWindow;
    var row := PacRow(c1, c2);
    if row >= 0 {
      var to := BaseRow(row, ch.window);
      MoveWindowKeeps(ch, to);
      var d := Preamble(ch, c1, c2);
      var w := |Lines(ch)|;
      assert d.row == to && d.shown == MoveWindow(ch, to).shown;
      if w < ch.window {
        MovePads(ch, to);
      }
    }
  }

  /** A window cut off at the top of the screen becomes whole, with blank lines. */
  lemma MovePads(ch: Channel, to: nat)
    requires Valid(ch) && ch.mode.RollUp? && ch.row + 1 < ch.window <= to + 1 <= MAX_ROWS
    ensures forall i: nat :: ch.row < i < ch.window ==> LineAbove(MoveWindow(ch, to).shown, to, i) == BlankLine()
  {
    hide Blank;
    if Clean(ch.shown) {
      CleanLines(ch.shown);
    } else {
      MovedKeeps(ch.shown, ch.row, to, ch.row + 1);
      hide Moved;
      forall i: nat | ch.row < i < ch.window ensures LineAbove(MoveWindow(ch, to).shown, to, i) == BlankLine() {
        BlankRowsLine(MoveWindow(ch, to).shown.rows[to - i]);
      }
    }
  }

  lemma OutsideIsBlank(ch: Channel, i: nat)
    requires Valid(ch) && ch.mode.RollUp? && WindowRows(ch.row, ch.window) <= i <= ch.row
    ensures LineAbove(ch.shown, ch.row, i) == BlankLine()
  {
    hide Blank;
    BlankRowsLine(ch.shown.rows[ch.row - i]);
  }

  /** Another window height keeps the last lines, with blank lines above them if there are more
      now; entering roll-up mode starts with blank lines. */
  lemma RollUpKeepsLast(ch: Channel, window: nat)
    requires Valid(ch) && !ch.mode.Text? && 2 <= window <= 4
    ensures Valid(RollUpCaption(ch, window))
    ensures var n := WindowRows(ch.row, window);
            ch.mode.RollUp? ==>
              Lines(RollUpCaption(ch, window)) ==
              if n <= |Lines(ch)| then Lines(ch)[..n] else Lines(ch) + BlankLines(n - |Lines(ch)|)
    ensures !ch.mode.RollUp? ==> Lines(RollUpCaption(ch, window)) == BlankLines(|Lines(RollUpCaption(ch, window))|)
  {
    RollUpCaptionKeeps(ch, window);
    hide Blank;
    hide ResizeWindow;
    var d := RollUpCaption(ch, window);
    if ch.mode.RollUp? {
      ResizeKeeps(ch, window);
      ResizeOnlyShown(ch, window);
      var n, w := WindowRows(ch.row, window), WindowRows(ch.row, ch.window);
      if n > w {
        NoResize(ch, window);
        forall i: nat | w <= i < n ensures LineAbove(d.shown, ch.row, i) == BlankLine() {
          OutsideIsBlank(ch, i);
        }
      }
    } else {
      EraseClears(ch.shown);
      hide Erase;
      forall i: nat | i < |Lines(d)| ensures LineAbove(d.shown, d.row, i) == BlankLine() {
        BlankRowsLine(d.shown.rows[d.row - i]);
      }
    }
  }

  lemma NoResize(ch: Channel, window: nat)
    requires Valid(ch) && WindowRows(ch.row, window) >= WindowRows(ch.row, ch.window)
    ensures ResizeWindow(ch, window) == ch
  {
  }

  /** A character changes the base line only, at the cursor or before it. */
  lemma PutCharInBaseLine(ch: Channel, c: int, displayable: bool, backspace: bool)
    requires Valid(ch) && ch.mode.RollUp?
    ensures Valid(PutChar(ch, c, displayable, backspace))
    ensures var column := if backspace then Back(ch.column) else ch.column;
            var d := PutChar(ch, c, displayable, backspace);
            && |Lines(d)| == |Lines(ch)| && Lines(d)[1..] == Lines(ch)[1..]
            && Lines(d)[0][column - 1] == c
            && (forall i :: 0 <= i < LAST_COLUMN && i != column - 1 && i != column - 2 ==>
                  Lines(d)[0][i] == Lines(ch)[0][i])
            && (column > FIRST_COLUMN ==>
                  Lines(d)[0][column - 2]
                  == if displayable && Lines(ch)[0][column - 2] == 0 then ch.lastPac else Lines(ch)[0][column - 2])
  {
    PutCharKeeps(ch, c, displayable, backspace);
    hide Blank;
    var d := PutChar(ch, c, displayable, backspace);
    forall i: nat | 0 < i < |Lines(ch)| ensures LineAbove(d.shown, ch.row, i) == LineAbove(ch.shown, ch.row, i) {
    }
    assert Lines(d)[1..] == Lines(ch)[1..];
    var row := ch.shown.rows[ch.row];
    var column := if backspace then Back(ch.column) else ch.column;
    assert Lines(ch)[0] == row[FIRST_COLUMN..];
    assert Lines(d)[0] == PutInRow(row, column, c, displayable, ch.lastPac)[FIRST_COLUMN..];
  }
}
