/** The memory of a caption channel as it is updated in place. */
module CaptionMemory {
  import opened CaptionScreen
  import D = CaptionDecoder

  function Other(k: nat): nat {
    if k == 0 then 1 else 0
  }

  class CcChannel {
    const buffer0: array<Row>
    const buffer1: array<Row>
    /** The bit masks of rows that may not be blank. */
    var dirty0: seq<bool>
    var dirty1: seq<bool>
    /** The index of the displayed buffer. */
    var displayed: nat
    var row: nat
    var column: nat
    var window: nat
    var lastPac: int
    var mode: Mode

    ghost predicate Shaped()
      reads this
    {
      && buffer0.Length == MAX_ROWS && buffer1.Length == MAX_ROWS && buffer0 != buffer1
      && |dirty0| == MAX_ROWS && |dirty1| == MAX_ROWS && displayed < 2
    }

    ghost predicate Ok()
      reads this, buffer0, buffer1
    {
      Shaped() && Valid(View())
    }

    function Buffer(k: nat): Screen
      reads this, buffer0, buffer1
    {
      if k == 0 then Screen(buffer0[..], dirty0) else Screen(buffer1[..], dirty1)
    }

    /** The buffers in their roles. */
    function View(): Channel
      reads this, buffer0, buffer1
    {
      Channel(Buffer(displayed), Buffer(Other(displayed)), row, column, window, lastPac, mode)
    }

    function Memory(k: nat): array<Row>
    {
      if k == 0 then buffer0 else buffer1
    }

    function Dirty(k: nat): seq<bool>
      reads this
    {
      if k == 0 then dirty0 else dirty1
    }

    method SetDirty(k: nat, dirty: seq<bool>)
      requires Shaped() && k < 2 && |dirty| == MAX_ROWS
      modifies this
      ensures Shaped() && Buffer(k) == old(Buffer(k)).(dirty := dirty) && Buffer(Other(k)) == old(Buffer(Other(k)))
      ensures row == old(row) && column == old(column) && window == old(window) && lastPac == old(lastPac)
      ensures mode == old(mode) && displayed == old(displayed)
    {
      if k == 0 {
        dirty0 := dirty;
      } else {
        dirty1 := dirty;
      }
    }

    /** The buffer characters go to. */
    function TargetIndex(): nat
      reads this
    {
      if mode.PopOn? then Other(displayed) else displayed
    }

    /** Whether the columns before n are blank. */
    static method IsBlank(text: Row, n: nat) returns (blank: bool)
      requires n <= LAST_COLUMN + 1
      ensures blank == BlankUpTo(text, n)
    {
      blank := true;
      var i := FIRST_COLUMN;
      while i < n
        invariant blank == forall j :: FIRST_COLUMN <= j < i && j < n ==> text[j] == 0
      {
        blank := blank && text[i] == 0;
        i := i + 1;
      }
    }

    /** The row of a buffer changes, and its bit. */
    method SetText(k: nat, r: nat, text: Row, dirty: bool)
      requires Shaped() && k < 2 && r < MAX_ROWS
      modifies this, buffer0, buffer1
      ensures Shaped() && Buffer(k) == SetRow(old(Buffer(k)), r, text, dirty)
          && Buffer(Other(k)) == old(Buffer(Other(k)))
      ensures row == old(row) && column == old(column) && window == old(window) && lastPac == old(lastPac)
      ensures mode == old(mode) && displayed == old(displayed)
    {
      Memory(k)[r] := text;
      SetDirty(k, Dirty(k)[r := dirty]);
      assert Memory(k)[..] == old(Memory(k)[..])[r := text];
    }

    method PutChar(c: int, displayable: bool, backspace: bool)
      requires Ok() && !mode.Unknown?
      modifies this, buffer0, buffer1
      ensures Ok() && View() == CaptionScreen.PutChar(old(View()), c, displayable, backspace)
    {
      hide BlankUpTo;
      hide Valid;
      Cursor(View());
      PutCharKeeps(View(), c, displayable, backspace);
      var k := TargetIndex();
      var col := column;
      if backspace {
        if col > FIRST_COLUMN {
          col := col - 1;
        }
      } else if col < LAST_COLUMN {
        column := col + 1;
      }
      var text: Row := Memory(k)[row][col := c];
      var dirty := true;
      if displayable {
        if col == FIRST_COLUMN || text[col - 1] == 0 {
          text := text[col - 1 := lastPac];
        }
      } else if c == 0 {
        var blank := IsBlank(text, LAST_COLUMN + 1);
        dirty := Dirty(k)[row] && !blank;
      }
      SetText(k, row, text, dirty);
    }
  
    method Backspace()
      requires Ok() && !mode.Unknown?
      modifies this, buffer0, buffer1
      ensures Ok() && View() == CaptionScreen.Backspace(old(View()))
    {
      hide BlankUpTo;
      hide Valid;
      Cursor(View());
      BackspaceKeeps(View());
      if column <= FIRST_COLUMN {
        return;
      }
      column := column - 1;
      var k := TargetIndex();
      if Memory(k)[row][column] != 0 {
        var text: Row := Memory(k)[row][column := 0];
        var blank := IsBlank(text, LAST_COLUMN + 1);
        SetText(k, row, text, Dirty(k)[row] && !blank);
      }
    }

    method DeleteToEnd()
      requires Ok() && !mode.Unknown?
      modifies this, buffer0, buffer1
      ensures Ok() && View() == CaptionScreen.DeleteToEnd(old(View()))
    {
      hide BlankUpTo;
      hide Valid;
      Cursor(View());
      DeleteToEndKeeps(View());
      var k := TargetIndex();
      if Dirty(k)[row] {
        var text := ClearFrom(Memory(k)[row], column);
        var blank := IsBlank(text, column);
        SetText(k, row, text, !blank);
      }
    }

    /** Rows of a buffer from `first` up to `end` become blank. */
    method ClearRows(k: nat, first: nat, end: nat)
      requires Shaped() && k < 2 && first <= end <= MAX_ROWS
      modifies buffer0, buffer1
      ensures Memory(k)[..] == Cleared(old(Memory(k)[..]), first, end)
      ensures Memory(Other(k))[..] == old(Memory(Other(k))[..])
    {
      hide BlankRow;
      hide Cleared;
      ghost var was := Memory(k)[..];
      for i := first to end
        invariant forall r :: 0 <= r < MAX_ROWS ==>
                    Memory(k)[r] == if first <= r < i then BlankRow() else old(Memory(k)[r])
        invariant Memory(Other(k))[..] == old(Memory(Other(k))[..])
      {
        Memory(k)[i] := BlankRow();
      }
      IsCleared(was, first, end, Memory(k)[..]);
    }

    /** Moves n rows that start at `from`, which may overlap those that start at `to`. */
    method MoveRows(k: nat, to: nat, from: nat, n: nat)
      requires Shaped() && k < 2 && to + n <= MAX_ROWS && from + n <= MAX_ROWS
      modifies buffer0, buffer1
      ensures Memory(k)[..] == Copied(old(Memory(k)[..]), to, from, n)
      ensures Memory(Other(k))[..] == old(Memory(Other(k))[..])
    {
      hide Copied;
      ghost var was := Memory(k)[..];
      if to <= from {
        for i := 0 to n
          invariant forall r :: 0 <= r < MAX_ROWS ==>
                      Memory(k)[r] == if to <= r < to + i then old(Memory(k)[r - to + from]) else old(Memory(k)[r])
          invariant Memory(Other(k))[..] == old(Memory(Other(k))[..])
        {
          Memory(k)[to + i] := Memory(k)[from + i];
        }
      } else {
        for i := n downto 0
          invariant forall r :: 0 <= r < MAX_ROWS ==>
                      Memory(k)[r] == if to + i <= r < to + n then old(Memory(k)[r - to + from]) else old(Memory(k)[r])
          invariant Memory(Other(k))[..] == old(Memory(Other(k))[..])
        {
          Memory(k)[to + i] := Memory(k)[from + i];
        }
      }
      IsCopied(was, to, from, n, Memory(k)[..]);
    }

    /** Whether a bit mask is zero. */
    static method IsClean(dirty: seq<bool>) returns (clean: bool)
      ensures clean == forall r :: 0 <= r < |dirty| ==> !dirty[r]
    {
      clean := true;
      for r := 0 to |dirty|
        invariant clean == forall i :: 0 <= i < r ==> !dirty[i]
      {
        clean := clean && !dirty[r];
      }
    }

    method EraseMemory(k: nat)
      requires Shaped() && k < 2
      modifies this, buffer0, buffer1
      ensures Shaped() && Buffer(k) == Erase(old(Buffer(k))) && Buffer(Other(k)) == old(Buffer(Other(k)))
      ensures row == old(row) && column == old(column) && window == old(window) && lastPac == old(lastPac)
      ensures mode == old(mode) && displayed == old(displayed)
    {
      var clean := IsClean(Dirty(k));
      if !clean {
        ClearedAll(Memory(k)[..]);
        ClearRows(k, 0, MAX_ROWS);
        SetDirty(k, seq(MAX_ROWS, _ => false));
      }
    }

    method CarriageReturn()
      requires Ok()
      modifies this, buffer0, buffer1
      ensures Ok() && View() == CaptionScreen.CarriageReturn(old(View()))
    {
      hide BlankUpTo;
      hide Valid;
      hide Rolled;
      Cursor(View());
      CarriageReturnKeeps(View());
      var k := displayed;
      var rows: nat;
      match mode {
        case Unknown => return;
        case PopOn => return;
        case PaintOn => return;
        case RollUp =>
          column := FIRST_COLUMN;
          lastPac := 0;
          rows := if row + 1 < window then row + 1 else window;
        case Text =>
          column := FIRST_COLUMN;
          lastPac := 0;
          if row != LAST_ROW {
            row := row + 1;
            return;
          }
          rows := MAX_ROWS;
      }
      var clean := IsClean(Dirty(k));
      if clean {
        return;
      }
      Roll(k, rows);
    }

    /** The rows above the cursor and its own roll up. */
    method Roll(k: nat, rows: nat)
      requires Shaped() && k < 2 && row < MAX_ROWS && 1 <= rows <= row + 1
      modifies this, buffer0, buffer1
      ensures Shaped() && Buffer(k) == Rolled(old(Buffer(k)), old(row) + 1 - rows, old(row))
          && Buffer(Other(k)) == old(Buffer(Other(k)))
      ensures row == old(row) && column == old(column) && window == old(window) && lastPac == old(lastPac)
      ensures mode == old(mode) && displayed == old(displayed)
    {
      hide Rolled;
      hide Copied;
      hide Cleared;
      hide BitsUp;
      ghost var s := Buffer(k);
      var first := row + 1 - rows;
      RolledRows(s, first, row);
      MoveRows(k, first, first + 1, rows - 1);
      ClearRows(k, row, row + 1);
      SetDirty(k, BitsUp(Dirty(k), 1));
    }

    method ResizeWindow(newWindow: nat)
      requires Shaped() && Valid(View()) && 2 <= newWindow <= 4
      modifies this, buffer0, buffer1
      ensures Shaped() && View() == CaptionScreen.ResizeWindow(old(View()), newWindow)
    {
      hide BlankUpTo;
      hide Valid;
      Cursor(View());
      ghost var ch := View();
      var k := displayed;
      var clean := IsClean(Dirty(k));
      if clean {
        return;
      }
      var oldRows := WindowRows(row, window);
      var newRows := WindowRows(row, newWindow);
      if newRows == 0 || newRows >= oldRows {
        return;
      }
      Shrink(k, oldRows, newRows);
    }

    method Shrink(k: nat, oldRows: nat, newRows: nat)
      requires Shaped() && k < 2 && newRows <= oldRows <= row + 1 <= MAX_ROWS
      modifies this, buffer0, buffer1
      ensures Shaped() && Buffer(k) == Shrunk(old(Buffer(k)), old(row), oldRows, newRows)
          && Buffer(Other(k)) == old(Buffer(Other(k)))
      ensures row == old(row) && column == old(column) && window == old(window) && lastPac == old(lastPac)
      ensures mode == old(mode) && displayed == old(displayed)
    {
      ClearRows(k, row + 1 - oldRows, row + 1 - newRows);
      SetDirty(k, BitsFrom(Dirty(k), row + 1 - newRows));
    }

    method RollUpCaption(newWindow: nat)
      requires Ok() && 2 <= newWindow <= 4 && !mode.Text?
      modifies this, buffer0, buffer1
      ensures Ok() && View() == CaptionScreen.RollUpCaption(old(View()), newWindow)
    {
      hide Valid;
      hide CaptionScreen.ResizeWindow;
      hide Erase;
      RollUpCaptionKeeps(View(), newWindow);
      if mode.RollUp? || mode.Unknown? {
        if mode.RollUp? {
          ResizeOnlyShown(View(), newWindow);
          ResizeWindow(newWindow);
        }
        mode := RollUp;
        window := newWindow;
      } else {
        mode := RollUp;
        window := newWindow;
        row := LAST_ROW;
        column := FIRST_COLUMN;
        EraseMemory(displayed);
        EraseMemory(Other(displayed));
      }
    }

    method MoveWindow(base: nat)
      requires Shaped() && Valid(View()) && base < MAX_ROWS
      modifies this, buffer0, buffer1
      ensures Shaped() && View() == CaptionScreen.MoveWindow(old(View()), base)
    {
      hide BlankUpTo;
      hide Valid;
      Cursor(View());
      var k := displayed;
      var clean := IsClean(Dirty(k));
      if base == row || clean {
        return;
      }
      Shift(k, base, WindowRows(if row < base then row else base, window));
    }

    /** The n rows that end at the cursor come to end at `base`, the rows they leave are blank. */
    method Shift(k: nat, base: nat, n: nat)
      requires Shaped() && k < 2 && row < MAX_ROWS && base < MAX_ROWS && n <= row + 1 && n <= base + 1
      modifies this, buffer0, buffer1
      ensures Shaped() && Buffer(k) == Moved(old(Buffer(k)), old(row), base, n)
      ensures Buffer(Other(k)) == old(Buffer(Other(k)))
      ensures row == old(row) && column == old(column) && window == old(window) && lastPac == old(lastPac)
      ensures mode == old(mode) && displayed == old(displayed)
    {
      hide Moved;
      hide Copied;
      hide Cleared;
      hide BitsUp;
      hide BitsDown;
      MovedIs(Buffer(k), row, base, n);
      var eraseBegin, eraseEnd: nat, dirty;
      if base < row {
        eraseBegin, eraseEnd := base + 1, row + 1;
        MoveRows(k, eraseBegin - n, eraseEnd - n, n);
        dirty := BitsUp(Dirty(k), row - base);
      } else {
        eraseBegin, eraseEnd := row + 1 - n, base + 1 - n;
        MoveRows(k, eraseEnd, eraseBegin, n);
        dirty := BitsDown(Dirty(k), base - row);
      }
      ClearRows(k, eraseBegin, eraseEnd);
      SetDirty(k, dirty);
    }

    method Preamble(c1: nat, c2: nat)
      requires Ok()
      modifies this, buffer0, buffer1
      ensures Ok() && View() == CaptionScreen.Preamble(old(View()), c1, c2)
    {
      hide Valid;
      hide CaptionScreen.MoveWindow;
      Cursor(View());
      PreambleKeeps(View(), c1, c2);
      var r := PacRow(c1, c2);
      if r < 0 {
        return;
      }
      match mode {
        case Unknown => return;
        case RollUp =>
          var base: nat := r;
          if window > base + 1 {
            base := window - 1;
          }
          MoveWindowKeeps(View(), base);
          MoveWindow(base);
          row := base;
        case PaintOn => row := r;
        case PopOn => row := r;
        case Text =>
      }
      if c2 / 16 % 2 == 1 {
        column := FIRST_COLUMN + c2 / 2 % 8 * 4;
      }
      lastPac := 0x1000 + c2;
    }
  
    constructor (text: bool)
      ensures Ok() && View() == Reset(text) && fresh(buffer0) && fresh(buffer1)
    {
      buffer0 := new Row[MAX_ROWS](_ => BlankRow());
      buffer1 := new Row[MAX_ROWS](_ => BlankRow());
      dirty0, dirty1 := seq(MAX_ROWS, _ => false), seq(MAX_ROWS, _ => false);
      displayed, lastPac, column := 0, 0, FIRST_COLUMN;
      mode, row, window := Unknown, LAST_ROW, 4;
      if text {
        mode, row, window := Text, 0, 0;
      }
      new;
      assert buffer0[..] == EmptyScreen().rows && buffer1[..] == EmptyScreen().rows;
    }

    method Put(c: int, displayable: bool, backspace: bool)
      requires Ok()
      modifies this, buffer0, buffer1
      ensures Ok() && View() == D.Put(old(View()), c, displayable, backspace)
    {
      hide Valid;
      hide CaptionScreen.PutChar;
      if !mode.Unknown? {
        PutChar(c, displayable, backspace);
      }
    }

    method ExtControl(c2: nat)
      requires Ok()
      modifies this, buffer0, buffer1
      ensures Ok() && View() == D.ExtControl(old(View()), c2)
    {
      hide Valid;
      hide D.Put;
      Cursor(View());
      D.ExtControlKeeps(View(), c2);
      if 0x21 <= c2 <= 0x23 {
        if !mode.Unknown? {
          column := if column + c2 % 4 > LAST_COLUMN then LAST_COLUMN else column + c2 % 4;
        }
      } else if 0x2D <= c2 <= 0x2F {
        Put(0x1700 + c2, false, true);
      }
    }

    method ChannelCode(c1: nat, c2: nat)
      requires Ok()
      modifies this, buffer0, buffer1
      ensures Ok() && View() == D.ChannelCode(old(View()), c1, c2)
    {
      hide Valid;
      hide D.Put;
      hide D.ExtControl;
      hide CaptionScreen.Preamble;
      D.ChannelCodeKeeps(View(), c1, c2);
      if c2 >= 0x40 {
        Preamble(c1, c2);
        return;
      }
      match c1 % 8 {
        case 0 =>
          if c2 < 0x30 {
            Put(0x1000 + c2, false, true);
          }
        case 1 =>
          if c2 < 0x30 {
            Put(0x1100 + c2, false, false);
          } else if c2 == 0x39 {
            Put(0, false, false);
          } else {
            Put(0x1100 + c2, true, false);
          }
        case 2 => Put(0x1200 + c2, true, true);
        case 3 => Put(0x1300 + c2, true, true);
        case 7 => ExtControl(c2);
        case _ =>
      }
    }

    method MiscCommand(c2: nat)
      requires Ok() && D.MiscFits(View(), c2)
      modifies this, buffer0, buffer1
      ensures Ok() && View() == D.MiscCommand(old(View()), c2)
    {
      hide Valid;
      hide Erase;
      hide D.Put;
      hide CaptionScreen.Backspace;
      hide CaptionScreen.DeleteToEnd;
      hide CaptionScreen.CarriageReturn;
      hide CaptionScreen.RollUpCaption;
      D.MiscCommandKeeps(View(), c2);
      match c2 % 16 {
        case 0 => mode := PopOn;
        case 1 => if !mode.Unknown? { Backspace(); }
        case 4 => if !mode.Unknown? { DeleteToEnd(); }
        case 5 => RollUpCaption(2);
        case 6 => RollUpCaption(3);
        case 7 => RollUpCaption(4);
        case 8 => Put(0x1428, false, false);
        case 9 => mode := PaintOn;
        case 10 =>
          EraseMemory(displayed);
          row, column := 0, FIRST_COLUMN;
        case 12 => EraseMemory(displayed);
        case 13 => CarriageReturn();
        case 14 => EraseMemory(Other(displayed));
        case 15 =>
          displayed := Other(displayed);
          mode := PopOn;
        case _ =>
      }
    }
  }

  ghost predicate Apart(a: CcChannel, b: CcChannel) {
    && a != b
    && a.buffer0 != b.buffer0 && a.buffer0 != b.buffer1
    && a.buffer1 != b.buffer0 && a.buffer1 != b.buffer1
  }

  /** Eight channels in their initial state, four for captions and four for text. */
  method NewChannels() returns (cs: seq<CcChannel>)
    ensures |cs| == 8 && forall i, j :: 0 <= i < j < 8 ==> Apart(cs[i], cs[j])
    ensures forall i :: 0 <= i < 8 ==> cs[i].Ok() && cs[i].View() == Reset(i >= 4)
    ensures forall c :: c in cs ==> fresh(c) && fresh(c.buffer0) && fresh(c.buffer1)
  {
    hide Valid;
    hide Reset;
    cs := [];
    for k := 0 to 8
      invariant |cs| == k && forall i, j :: 0 <= i < j < k ==> Apart(cs[i], cs[j])
      invariant forall i :: 0 <= i < k ==> cs[i].Ok() && cs[i].View() == Reset(i >= 4)
      invariant forall i :: 0 <= i < k ==> fresh(cs[i]) && fresh(cs[i].buffer0) && fresh(cs[i].buffer1)
    {
      var c := new CcChannel(k >= 4);
      cs := cs + [c];
    }
  }

  class CcDecoder {
    const channel: seq<CcChannel>
    var current: seq<int>
    var pending: seq<(int, int)>
    var inXds: seq<bool>
    ghost var screens: seq<Channel>

    constructor ()
      ensures Ok() && View() == D.ResetDecoder()
    {
      hide Valid;
      hide Reset;
      hide Apart;
      var cs := NewChannels();
      channel := cs;
      current, pending, inXds := [-1, -1], [(-1, -1), (-1, -1)], [false, false];
      screens := D.ResetDecoder().channels;
    }

    /** Every channel has its own memory. */
    ghost predicate Separate() {
      |channel| == 8 && forall i, j :: 0 <= i < j < 8 ==> Apart(channel[i], channel[j])
    }

    ghost function Memories(): set<object> {
      (set i | 0 <= i < |channel| :: channel[i] as object)
      + (set i | 0 <= i < |channel| :: channel[i].buffer0 as object)
      + (set i | 0 <= i < |channel| :: channel[i].buffer1 as object)
    }

    /** The channels are separate, valid and as `screens` says. */
    ghost predicate Shown()
      reads this, Memories()
    {
      && Separate() && |screens| == 8
      && forall i :: 0 <= i < 8 ==> channel[i].Ok() && channel[i].View() == screens[i]
    }

    ghost function View(): D.Decoder
      reads this
    {
      D.Decoder(screens, current, pending, inXds)
    }

    ghost predicate Ok()
      reads this, Memories()
    {
      Shown() && D.ValidDecoder(View())
    }

    /** The channels but i are as before, and screens is brought up to date. */
    twostate predicate Only(i: nat)
      requires |channel| == 8 && i < 8
      reads this, Memories()
    {
      && |old(screens)| == 8 && screens == old(screens)[i := channel[i].View()]
      && current == old(current) && pending == old(pending) && inXds == old(inXds)
    }

    method Put(i: nat, c: int, displayable: bool, backspace: bool)
      requires Shown() && i < 8
      modifies this, Memories()
      ensures Shown() && Only(i) && screens[i] == D.Put(old(screens)[i], c, displayable, backspace)
    {
      hide Valid;
      hide D.Put;
      channel[i].Put(c, displayable, backspace);
      screens := screens[i := channel[i].View()];
    }
  
    method ChannelCode(i: nat, c1: nat, c2: nat)
      requires Shown() && i < 8
      modifies this, Memories()
      ensures Shown() && Only(i) && screens[i] == D.ChannelCode(old(screens)[i], c1, c2)
    {
      hide Valid;
      hide D.ChannelCode;
      channel[i].ChannelCode(c1, c2);
      screens := screens[i := channel[i].View()];
    }

    method MiscCommand(i: nat, c2: nat)
      requires Shown() && i < 8 && D.MiscFits(screens[i], c2)
      modifies this, Memories()
      ensures Shown() && Only(i) && screens[i] == D.MiscCommand(old(screens)[i], c2)
    {
      hide Valid;
      hide D.MiscCommand;
      channel[i].MiscCommand(c2);
      screens := screens[i := channel[i].View()];
    }

    method MiscControl(f: nat, i: nat, c2: nat)
      requires Ok() && f < 2 && i < 8
      modifies this, Memories()
      ensures Shown() && View() == D.MiscControl(old(View()), f, i, c2)
    {
      hide Valid;
      hide D.MiscCommand;
      hide Shown;
      ChannelCount();
      if D.MiscNeedsChannel(c2) && current[f] == -1 {
        return;
      }
      var j := D.MiscTarget(i, c2);
      if D.MiscSwitches(c2) {
        SwitchTo(f, j);
      }
      MiscCommand(j, c2);
    }

    method SwitchTo(f: nat, j: nat)
      requires Shown() && f < |current|
      modifies this
      ensures Shown() && View() == D.Switch(old(View()), f, j)
    {
      current := current[f := j];
    }

    lemma ChannelCount()
      requires Shown()
      ensures |channel| == 8 && |screens| == 8
      ensures forall i :: 0 <= i < 8 ==> channel[i].Ok() && channel[i].View() == screens[i]
    {
    }

    method ControlCode(f: nat, c1: nat, c2: nat)
      requires Ok() && f < 2
      modifies this, Memories()
      ensures Shown() && View() == D.ControlCode(old(View()), f, c1, c2)
    {
      hide Valid;
      hide Shown;
      hide D.MiscControl;
      hide D.ChannelCode;
      ChannelCount();
      var i := D.Addressed(current[f], f, c1);
      if D.IsMisc(c1, c2) {
        if c2 < 0x30 {
          MiscControl(f, i, c2);
        }
      } else if current[f] != -1 {
        ChannelCode(i, c1, c2);
      }
    }

    method Characters(i: nat, c: int) returns (ok: bool)
      requires Shown() && i < 8
      modifies this, Memories()
      ensures Shown() && Only(i) && (screens[i], ok) == D.Characters(old(screens)[i], c)
    {
      hide Valid;
      hide D.Put;
      ChannelCount();
      if c == 0 {
        return true;
      }
      if c < 0x20 {
        if c < 0 {
          Put(i, 0x7F, true, false);
        }
        return false;
      }
      Put(i, c, true, false);
      return true;
    }

    method TwoCharacters(f: nat, c1: int, c2: int) returns (ok: bool)
      requires Ok() && f < 2
      modifies this, Memories()
      ensures Shown() && (View(), ok) == D.TwoCharacters(old(View()), f, c1, c2)
    {
      hide Valid;
      hide Shown;
      hide D.Characters;
      hide D.TwoCharacters;
      hide D.ValidDecoder;
      ChannelCount();
      ChannelsAreValid();
      if inXds[f] || current[f] == -1 {
        D.NoCharacters(View(), f, c1, c2);
        return true;
      }
      D.TwoSteps(View(), f, c1, c2);
      var i := D.Receiving(current[f], f);
      var ok1 := Characters(i, c1);
      var ok2 := Characters(i, c2);
      ok := ok1 && ok2;
    }

    lemma ChannelsAreValid()
      requires Ok()
      ensures |current| == 2 && |inXds| == 2 && |screens| == 8
      ensures forall i :: 0 <= i < 8 ==> Valid(screens[i])
    {
    }

    method Forget(f: nat)
      requires Shown() && f < 2 && |pending| == 2
      modifies this
      ensures Shown() && View() == D.Forget(old(View()), f)
    {
      pending := pending[f := (-1, pending[f].1)];
    }

    method SetXds(f: nat, xds: bool)
      requires Shown() && f < |inXds|
      modifies this
      ensures Shown() && View() == old(View()).(inXds := old(inXds)[f := xds])
    {
      inXds := inXds[f := xds];
    }

    /** Takes the two bytes of a line of field f. */
    method Feed(f: nat, c1: int, c2: int) returns (ok: bool)
      requires Ok() && D.IsPair(D.Pair(f, c1, c2))
      modifies this, Memories()
      ensures Ok() && (View(), ok) == D.Feed(old(View()), D.Pair(f, c1, c2))
    {
      hide Valid;
      hide Shown;
      hide D.ControlCode;
      hide D.TwoCharacters;
      D.FeedKeeps(View(), D.Pair(f, c1, c2));
      if c1 < 0 {
        Forget(f);
        return false;
      }
      if (c1, c2) == pending[f] {
        Forget(f);
        return true;
      }
      if 0x10 <= c1 < 0x20 {
        SetXds(f, false);
        if c2 < 0x20 {
          Forget(f);
          return false;
        }
        ControlCode(f, c1, c2);
        Expect(f, c1, c2);
        return true;
      }
      Forget(f);
      if c1 >= 0x10 {
        ok := TwoCharacters(f, c1, c2);
      } else if f == 0 || c1 == 0 {
        ok := TwoCharacters(f, 0, c2);
      } else {
        SetXds(1, c1 != 0x0F);
        ok := true;
      }
    }

    method Expect(f: nat, c1: int, c2: int)
      requires Shown() && f < |pending|
      modifies this
      ensures Shown() && View() == old(View()).(pending := old(pending)[f := (c1, c2)])
    {
      pending := pending[f := (c1, c2)];
    }
  }

  function Copied(rows: seq<Row>, to: nat, from: nat, n: nat): (r: seq<Row>)
    requires to + n <= |rows| && from + n <= |rows|
    ensures |r| == |rows|
  {
    rows[..to] + rows[from..from + n] + rows[to + n..]
  }

  function Cleared(rows: seq<Row>, first: nat, end: nat): (r: seq<Row>)
    requires first <= end <= |rows|
    ensures |r| == |rows|
  {
    rows[..first] + seq(end - first, _ => BlankRow()) + rows[end..]
  }

  lemma ClearedAll(rows: seq<Row>)
    requires |rows| == MAX_ROWS
    ensures Cleared(rows, 0, MAX_ROWS) == EmptyScreen().rows
  {
  }

  lemma RolledRows(s: Screen, first: nat, last: nat)
    requires Sized(s) && first <= last < MAX_ROWS
    ensures Rolled(s, first, last)
         == Screen(Cleared(Copied(s.rows, first, first + 1, last - first), last, last + 1), BitsUp(s.dirty, 1))
  {
    hide BlankRow;
    hide BitsUp;
    assert Cleared(Copied(s.rows, first, first + 1, last - first), last, last + 1) == Rolled(s, first, last).rows;
  }

  lemma CopiedAt(rows: seq<Row>, to: nat, from: nat, n: nat, i: nat)
    requires to + n <= |rows| && from + n <= |rows| && i < |rows|
    ensures Copied(rows, to, from, n)[i] == if to <= i < to + n then rows[i - to + from] else rows[i]
  {
  }

  lemma ClearedAt(rows: seq<Row>, first: nat, end: nat, i: nat)
    requires first <= end <= |rows| && i < |rows|
    ensures Cleared(rows, first, end)[i] == if first <= i < end then BlankRow() else rows[i]
  {
    hide BlankRow;
  }

  lemma IsCopied(was: seq<Row>, to: nat, from: nat, n: nat, rows: seq<Row>)
    requires to + n <= |was| && from + n <= |was| && |rows| == |was|
    requires forall i :: 0 <= i < |was| ==> rows[i] == if to <= i < to + n then was[i - to + from] else was[i]
    ensures rows == Copied(was, to, from, n)
  {
    hide Copied;
    forall i | 0 <= i < |was| ensures rows[i] == Copied(was, to, from, n)[i] {
      CopiedAt(was, to, from, n, i);
    }
  }

  lemma IsCleared(was: seq<Row>, first: nat, end: nat, rows: seq<Row>)
    requires first <= end <= |was| && |rows| == |was|
    requires forall i :: 0 <= i < |was| ==> rows[i] == if first <= i < end then BlankRow() else was[i]
    ensures rows == Cleared(was, first, end)
  {
    hide BlankRow;
    hide Cleared;
    forall i | 0 <= i < |was| ensures rows[i] == Cleared(was, first, end)[i] {
      ClearedAt(was, first, end, i);
    }
  }

  /** Moving a window is copying its rows and clearing those that are left behind. */
  lemma MovedIs(s: Screen, row: nat, base: nat, n: nat)
    requires Sized(s) && row < MAX_ROWS && base < MAX_ROWS && n <= row + 1 && n <= base + 1
    ensures if base < row then
              Moved(s, row, base, n)
              == Screen(Cleared(Copied(s.rows, base + 1 - n, row + 1 - n, n), base + 1, row + 1),
                  BitsUp(s.dirty, row - base))
            else
              Moved(s, row, base, n)
              == Screen(Cleared(Copied(s.rows, base + 1 - n, row + 1 - n, n), row + 1 - n, base + 1 - n),
                        BitsDown(s.dirty, base - row))
  {
    hide BlankRow;
    hide Copied;
    hide Cleared;
    hide BitsUp;
    hide BitsDown;
    var copied := Copied(s.rows, base + 1 - n, row + 1 - n, n);
    var first, end := if base < row then base + 1 else row + 1 - n, if base < row then row + 1 else base + 1 - n;
    forall i | 0 <= i < MAX_ROWS ensures Cleared(copied, first, end)[i] == MovedRow(s, row, base, n, i) {
      CopiedAt(s.rows, base + 1 - n, row + 1 - n, n, i);
      ClearedAt(copied, first, end, i);
    }
    assert Cleared(copied, first, end) == Moved(s, row, base, n).rows;
  }

  lemma Cursor(ch: Channel)
    requires Valid(ch)
    ensures ch.row < MAX_ROWS && FIRST_COLUMN <= ch.column <= LAST_COLUMN && (ch.mode.RollUp? ==> 2 <= ch.window <= 4)
    ensures Sized(ch.shown) && Sized(ch.hidden)
  {
  }
}
