/** When the dirty bits of a caption channel say exactly which rows are not blank. */
module CaptionBits {
  import opened CaptionScreen
  import opened CaptionDecoder

  /** A bit is set if and only if something is displayed in the row. */
  ghost predicate ExactBits(s: Screen)
    requires Sized(s)
  {
    forall r :: 0 <= r < MAX_ROWS ==> (s.dirty[r] <==> !Blank(s.rows[r]))
  }

  ghost predicate ExactChannel(ch: Channel)
    requires Valid(ch)
  {
    ExactBits(ch.shown) && ExactBits(ch.hidden)
  }

  /** The top row of the roll-up window. */
  function TopRow(ch: Channel): (r: nat)
    requires ch.row < MAX_ROWS
  {
    ch.row + 1 - WindowRows(ch.row, ch.window)
  }

  /** A carriage return takes away text in the top row of a window below the top of the screen. */
  predicate RollsOffText(ch: Channel)
    requires Valid(ch)
  {
    ch.mode.RollUp? && TopRow(ch) > 0 && !Blank(ch.shown.rows[TopRow(ch)])
  }

  // Rolling.

  lemma RolledBits(s: Screen, first: nat, last: nat)
    requires Sized(s) && ExactBits(s) && first < last < MAX_ROWS
    requires forall r :: 0 <= r < MAX_ROWS && !(first <= r <= last) ==> Blank(s.rows[r])
    ensures ExactBits(Rolled(s, first, last)) <==> first == 0 || Blank(s.rows[first])
  {
    hide Blank;
    var t := Rolled(s, first, last);
    assert Blank(BlankRow());
    assert forall r :: 0 <= r < first ==> t.rows[r] == s.rows[r];
    assert forall r :: first <= r < last ==> t.rows[r] == s.rows[r + 1];
    assert t.rows[last] == BlankRow();
    assert forall r :: last < r < MAX_ROWS ==> t.rows[r] == s.rows[r];
    if first > 0 {
      assert t.dirty[first - 1] == s.dirty[first];
    }
  }

  lemma CleanIsExact(s: Screen)
    requires Sized(s) && CleanIsBlank(s) && Clean(s)
    ensures ExactBits(s) && forall r :: 0 <= r < MAX_ROWS ==> Blank(s.rows[r])
  {
    hide Blank;
  }

  /** The whole mask is shifted although only the rows of the window move: the bit of the row that is
      rolled off ends up above the window, unless the window begins at the top of the screen. */
  lemma CarriageReturnBits(ch: Channel)
    requires Valid(ch) && ch.mode.RollUp? && ExactBits(ch.shown)
    ensures ExactBits(CarriageReturn(ch).shown) <==> TopRow(ch) == 0 || Blank(ch.shown.rows[TopRow(ch)])
  {
    hide Blank;
    hide Rolled;
    if Clean(ch.shown) {
      CleanIsExact(ch.shown);
    } else if TopRow(ch) < ch.row {
      RolledBits(ch.shown, TopRow(ch), ch.row);
    } else {
      RolledTopRow(ch.shown);
    }
  }

  /** A window of one line, at the top of the screen. */
  lemma RolledTopRow(s: Screen)
    requires Sized(s) && ExactBits(s) && forall r :: 0 < r < MAX_ROWS ==> Blank(s.rows[r])
    ensures ExactBits(Rolled(s, 0, 0))
  {
    hide Blank;
    var t := Rolled(s, 0, 0);
    assert Blank(BlankRow());
    assert t.rows[0] == BlankRow();
    assert forall r :: 0 < r < MAX_ROWS ==> t.rows[r] == s.rows[r];
  }

  lemma CarriageReturnExact(ch: Channel)
    requires Valid(ch) && ExactChannel(ch)
    ensures Valid(CarriageReturn(ch)) && (ExactChannel(CarriageReturn(ch)) <==> !RollsOffText(ch))
  {
    hide Blank;
    CarriageReturnKeeps(ch);
    if ch.mode.RollUp? {
      CarriageReturnBits(ch);
    } else if ch.mode.Text? && ch.row == LAST_ROW {
      RolledBits(ch.shown, 0, LAST_ROW);
    }
  }

  // The window moves or changes its height.

  lemma MovedBits(s: Screen, from: nat, to: nat, n: nat)
    requires Sized(s) && ExactBits(s) && from < MAX_ROWS && to < MAX_ROWS && n <= from + 1 && n <= to + 1
    requires forall r :: 0 <= r < MAX_ROWS && !(from + 1 - n <= r <= from) ==> Blank(s.rows[r])
    ensures ExactBits(Moved(s, from, to, n))
  {
    hide Blank;
    var t := Moved(s, from, to, n);
    assert Blank(BlankRow());
    forall r | 0 <= r < MAX_ROWS ensures t.dirty[r] <==> !Blank(t.rows[r]) {
      assert t.rows[r] == MovedRow(s, from, to, n, r);
    }
  }

  lemma MoveWindowExact(ch: Channel, to: nat)
    requires Valid(ch) && ch.mode.RollUp? && to < MAX_ROWS && to + 1 >= ch.window && ExactBits(ch.shown)
    ensures Sized(MoveWindow(ch, to).shown) && ExactBits(MoveWindow(ch, to).shown)
  {
    hide Blank;
    hide Moved;
    if to != ch.row && !Clean(ch.shown) {
      var n := WindowRows(if ch.row < to then ch.row else to, ch.window);
      assert n == WindowRows(ch.row, ch.window);
      MovedBits(ch.shown, ch.row, to, n);
    }
  }

  lemma PreambleExact(ch: Channel, c1: nat, c2: nat)
    requires Valid(ch) && ExactChannel(ch)
    ensures Valid(Preamble(ch, c1, c2)) && ExactChannel(Preamble(ch, c1, c2))
  {
    hide Blank;
    hide MoveWindow;
    PreambleKeeps(ch, c1, c2);
    var row := PacRow(c1, c2);
    if row >= 0 && ch.mode.RollUp? {
      MoveWindowKeeps(ch, BaseRow(row, ch.window));
      MoveWindowExact(ch, BaseRow(row, ch.window));
    }
  }

  lemma ShrunkBits(s: Screen, row: nat, oldRows: nat, newRows: nat)
    requires Sized(s) && ExactBits(s) && newRows <= oldRows <= row + 1 <= MAX_ROWS
    requires forall r :: 0 <= r < MAX_ROWS && !(row + 1 - oldRows <= r <= row) ==> Blank(s.rows[r])
    ensures ExactBits(Shrunk(s, row, oldRows, newRows))
  {
    hide Blank;
    var t := Shrunk(s, row, oldRows, newRows);
    assert Blank(BlankRow());
    assert forall r :: 0 <= r < row + 1 - oldRows ==> t.rows[r] == s.rows[r];
    assert forall r :: row + 1 - oldRows <= r < row + 1 - newRows ==> t.rows[r] == BlankRow();
    assert forall r :: row + 1 - newRows <= r < MAX_ROWS ==> t.rows[r] == s.rows[r];
  }

  lemma EraseExact(s: Screen)
    requires Sized(s) && CleanIsBlank(s)
    ensures Sized(Erase(s)) && ExactBits(Erase(s))
  {
    hide Blank;
    if Clean(s) {
      CleanIsExact(s);
    } else {
      CleanIsExact(EmptyScreen());
    }
  }

  lemma ResizeExact(ch: Channel, window: nat)
    requires Valid(ch) && ch.mode.RollUp? && ExactBits(ch.shown)
    ensures Sized(ResizeWindow(ch, window).shown) && ExactBits(ResizeWindow(ch, window).shown)
  {
    hide Blank;
    hide Shrunk;
    var oldRows, newRows := WindowRows(ch.row, ch.window), WindowRows(ch.row, window);
    if newRows < oldRows {
      ShrunkBits(ch.shown, ch.row, oldRows, newRows);
    }
  }

  lemma RollUpExact(ch: Channel, window: nat)
    requires Valid(ch) && !ch.mode.Text? && 2 <= window <= 4 && ExactChannel(ch)
    ensures Valid(RollUpCaption(ch, window)) && ExactChannel(RollUpCaption(ch, window))
  {
    hide Blank;
    hide Erase;
    hide ResizeWindow;
    RollUpCaptionKeeps(ch, window);
    if ch.mode.RollUp? {
      ResizeExact(ch, window);
      ResizeOnlyShown(ch, window);
    } else if !ch.mode.Unknown? {
      EraseExact(ch.shown);
      EraseExact(ch.hidden);
    }
  }

  lemma EraseCommandsExact(ch: Channel)
    requires Valid(ch) && ExactChannel(ch)
    ensures !ch.mode.Text? ==> Valid(EraseDisplayed(ch)) && ExactChannel(EraseDisplayed(ch))
    ensures ch.mode.Text? ==> Valid(TextRestart(ch)) && ExactChannel(TextRestart(ch))
    ensures Valid(EraseNonDisplayed(ch)) && ExactChannel(EraseNonDisplayed(ch))
  {
    EraseKeeps(ch);
    EraseExact(ch.shown);
    EraseExact(ch.hidden);
    hide Erase;
    hide Blank;
  }

  // Characters.

  lemma SetRowExact(ch: Channel, row: Row, dirty: bool)
    requires Valid(ch) && ExactChannel(ch) && (dirty <==> !Blank(row))
    ensures var d := WithTarget(ch, SetRow(Target(ch), ch.row, row, dirty));
            Sized(d.shown) && Sized(d.hidden) && ExactBits(d.shown) && ExactBits(d.hidden)
  {
    hide Blank;
  }

  lemma TargetExact(ch: Channel)
    requires Valid(ch) && ExactChannel(ch)
    ensures Sized(Target(ch)) && (Target(ch).dirty[ch.row] <==> !Blank(Target(ch).rows[ch.row]))
  {
    hide Blank;
  }

  lemma NotBlankWith(row: Row, column: nat, c: int, displayable: bool, lastPac: int)
    requires FIRST_COLUMN <= column <= LAST_COLUMN && c != 0
    ensures !Blank(PutInRow(row, column, c, displayable, lastPac))
  {
    assert PutInRow(row, column, c, displayable, lastPac)[column] == c;
  }

  /** The characters put by the decoder are not zero, except the transparent space, an attribute. */
  lemma PutExact(ch: Channel, c: int, displayable: bool, backspace: bool)
    requires Valid(ch) && ExactChannel(ch) && (displayable ==> c != 0)
    ensures ExactChannel(Put(ch, c, displayable, backspace))
  {
    if !ch.mode.Unknown? {
      var column := if backspace then Back(ch.column) else ch.column;
      var s := Target(ch);
      var row := PutInRow(s.rows[ch.row], column, c, displayable, ch.lastPac);
      TargetExact(ch);
      if c != 0 {
        NotBlankWith(s.rows[ch.row], column, c, displayable, ch.lastPac);
      } else if Blank(s.rows[ch.row]) {
        BlankStays(s.rows[ch.row], column, ch.lastPac);
      }
      hide Blank;
      hide PutInRow;
      var dirty := if !displayable && c == 0 then s.dirty[ch.row] && !Blank(row) else true;
      SetRowExact(ch.(column := if backspace then ch.column else Forward(ch.column)), row, dirty);
      hide ExactBits;
    }
  }

  lemma BackspaceExact(ch: Channel)
    requires Valid(ch) && !ch.mode.Unknown? && ExactChannel(ch)
    ensures Valid(Backspace(ch)) && ExactChannel(Backspace(ch))
  {
    BackspaceKeeps(ch);
    TargetExact(ch);
    var s := Target(ch);
    if ch.column > FIRST_COLUMN && s.rows[ch.row][ch.column - 1] != 0 {
      var row: Row := s.rows[ch.row][ch.column - 1 := 0];
      assert !Blank(s.rows[ch.row]);
      hide Blank;
      SetRowExact(ch.(column := ch.column - 1), row, s.dirty[ch.row] && !Blank(row));
    }
  }

  lemma DeleteToEndExact(ch: Channel)
    requires Valid(ch) && !ch.mode.Unknown? && ExactChannel(ch)
    ensures Valid(DeleteToEnd(ch)) && ExactChannel(DeleteToEnd(ch))
  {
    DeleteToEndKeeps(ch);
    var s := Target(ch);
    if s.dirty[ch.row] {
      var row := ClearFrom(s.rows[ch.row], ch.column);
      BlankFrom(s.rows[ch.row], ch.column);
      hide BlankUpTo;
      hide ClearFrom;
      SetRowExact(ch, row, !BlankUpTo(row, ch.column));
    }
  }

  // All that the decoder does to a channel.

  /** Of the commands to a channel the carriage return alone can make a bit wrong. */
  lemma MiscCommandExact(ch: Channel, c2: nat)
    requires Valid(ch) && MiscFits(ch, c2) && ExactChannel(ch)
    ensures Valid(MiscCommand(ch, c2))
    ensures ExactChannel(MiscCommand(ch, c2)) <==> !(c2 % 16 == 13 && RollsOffText(ch))
  {
    hide Blank;
    hide Erase;
    hide Backspace;
    hide DeleteToEnd;
    hide CarriageReturn;
    hide RollUpCaption;
    hide TextRestart;
    hide EraseDisplayed;
    hide EraseNonDisplayed;
    hide Put;
    hide RollsOffText;
    MiscCommandKeeps(ch, c2);
    match c2 % 16
    case 1 => if !ch.mode.Unknown? { BackspaceExact(ch); }
    case 4 => if !ch.mode.Unknown? { DeleteToEndExact(ch); }
    case 5 => RollUpExact(ch, 2);
    case 6 => RollUpExact(ch, 3);
    case 7 => RollUpExact(ch, 4);
    case 8 => PutExact(ch, 0x1428, false, false);
    case 10 => EraseCommandsExact(ch);
    case 12 => EraseCommandsExact(ch);
    case 13 => CarriageReturnExact(ch);
    case 14 => EraseCommandsExact(ch);
    case _ =>
  }

  lemma ExtControlExact(ch: Channel, c2: nat)
    requires Valid(ch) && ExactChannel(ch)
    ensures Valid(ExtControl(ch, c2)) && ExactChannel(ExtControl(ch, c2))
  {
    hide Blank;
    hide Put;
    ExtControlKeeps(ch, c2);
    PutExact(ch, 0x1700 + c2, false, true);
  }

  lemma ChannelCodeExact(ch: Channel, c1: nat, c2: nat)
    requires Valid(ch) && ExactChannel(ch)
    ensures Valid(ChannelCode(ch, c1, c2)) && ExactChannel(ChannelCode(ch, c1, c2))
  {
    hide Blank;
    hide ExtControl;
    hide Preamble;
    hide Put;
    hide ExactBits;
    ChannelCodeKeeps(ch, c1, c2);
    if c2 >= 0x40 {
      PreambleExact(ch, c1, c2);
    } else {
      ExtControlExact(ch, c2);
      PutExact(ch, 0x1000 + c2, false, true);
      PutExact(ch, 0x1100 + c2, false, false);
      PutExact(ch, 0, false, false);
      PutExact(ch, 0x1100 + c2, true, false);
      PutExact(ch, 0x1200 + c2, true, true);
      PutExact(ch, 0x1300 + c2, true, true);
    }
  }

  lemma CharactersExact(ch: Channel, c: int)
    requires Valid(ch) && ExactChannel(ch)
    ensures ExactChannel(Characters(ch, c).0)
  {
    hide Put;
    hide ExactBits;
    hide Valid;
    PutExact(ch, 0x7F, true, false);
    if c != 0 {
      PutExact(ch, c, true, false);
    }
  }

  // Every run of the decoder.

  ghost predicate ExactDecoder(d: Decoder)
    requires ValidDecoder(d)
  {
    forall i :: 0 <= i < 8 ==> ExactChannel(d.channels[i])
  }

  /** The pair is a carriage return that is acted upon, and takes text away. */
  predicate TakesTextAway(d: Decoder, p: Pair)
    requires ValidDecoder(d) && IsPair(p)
  {
    && IsControlPair(p) && (p.c1, p.c2) != d.pending[p.field]
    && (p.c1 % 8 == 4 || p.c1 % 8 == 5) && p.c2 == 0x2D
    && d.current[p.field] != -1
    && RollsOffText(d.channels[Addressed(d.current[p.field], p.field, p.c1)])
  }

  lemma WithChannelExact(d: Decoder, e: Decoder, i: nat, ch: Channel)
    requires ValidDecoder(d) && ExactDecoder(d) && i < 8 && Valid(ch)
    requires ValidDecoder(e) && e.channels == d.channels[i := ch]
    ensures ExactDecoder(e) <==> ExactChannel(ch)
  {
    hide Valid;
    hide ExactChannel;
    assert e.channels[i] == ch;
  }

  lemma SameChannelsExact(d: Decoder, e: Decoder)
    requires ValidDecoder(d) && ValidDecoder(e) && e.channels == d.channels
    ensures ExactDecoder(d) <==> ExactDecoder(e)
  {
    hide Valid;
    hide ExactChannel;
  }

  lemma ControlCodeExact(d: Decoder, f: nat, c1: nat, c2: nat)
    requires ValidDecoder(d) && f < 2 && ExactDecoder(d)
    ensures ValidDecoder(ControlCode(d, f, c1, c2))
    ensures ExactDecoder(ControlCode(d, f, c1, c2))
      <==> !(IsMisc(c1, c2) && c2 < 0x30 && c2 % 16 == 13 && d.current[f] != -1
             && RollsOffText(d.channels[Addressed(d.current[f], f, c1)]))
  {
    hide Valid;
    hide ExactChannel;
    hide RollsOffText;
    hide MiscCommand;
    hide ChannelCode;
    ControlCodeKeeps(d, f, c1, c2);
    var i := Addressed(d.current[f], f, c1);
    var e := ControlCode(d, f, c1, c2);
    if IsMisc(c1, c2) {
      var j := MiscTarget(i, c2);
      if c2 < 0x30 && !(MiscNeedsChannel(c2) && d.current[f] == -1) {
        MiscCommandExact(d.channels[j], c2);
        WithChannelExact(d, e, j, MiscCommand(d.channels[j], c2));
      } else {
        SameChannelsExact(d, e);
      }
    } else if d.current[f] != -1 {
      ChannelCodeExact(d.channels[i], c1, c2);
      WithChannelExact(d, e, i, ChannelCode(d.channels[i], c1, c2));
    }
  }

  lemma TwoCharactersExact(d: Decoder, f: nat, c1: int, c2: int)
    requires ValidDecoder(d) && f < 2 && ExactDecoder(d)
    ensures ValidDecoder(TwoCharacters(d, f, c1, c2).0) && ExactDecoder(TwoCharacters(d, f, c1, c2).0)
  {
    hide Valid;
    hide ExactChannel;
    hide Characters;
    TwoCharactersKeep(d, f, c1, c2);
    if !d.inXds[f] && d.current[f] != -1 {
      var i := Receiving(d.current[f], f);
      var a := Characters(d.channels[i], c1).0;
      CharactersExact(d.channels[i], c1);
      CharactersExact(a, c2);
      WithChannelExact(d, TwoCharacters(d, f, c1, c2).0, i, Characters(a, c2).0);
    }
  }

  /** A byte pair leaves all bits exact unless it is a carriage return that takes text away. */
  lemma FeedExact(d: Decoder, p: Pair)
    requires ValidDecoder(d) && IsPair(p) && ExactDecoder(d)
    ensures ValidDecoder(Feed(d, p).0)
    ensures ExactDecoder(Feed(d, p).0) <==> !TakesTextAway(d, p)
  {
    hide Valid;
    hide ExactChannel;
    hide RollsOffText;
    hide ControlCode;
    hide TwoCharacters;
    FeedKeeps(d, p);
    var f := p.field;
    var e := Forget(d, f);
    ForgetOther(d, f);
    SameChannelsExact(d, e);
    if IsControlPair(p) && (p.c1, p.c2) != d.pending[f] {
      var x := NoXds(d, f);
      SameChannelsExact(d, x);
      ControlCodeExact(x, f, p.c1, p.c2);
      SameChannelsExact(ControlCode(x, f, p.c1, p.c2), Feed(d, p).0);
    } else if p.c1 >= 0 && (p.c1, p.c2) != d.pending[f] && !(0x10 <= p.c1 < 0x20) {
      var c1 := if p.c1 >= 0x10 then p.c1 else 0;
      TwoCharactersExact(e, f, c1, p.c2);
      XdsOther(e, 1, p.c1 != 0x0F);
      SameChannelsExact(d, e.(inXds := e.inXds[1 := p.c1 != 0x0F]));
    } else {
      SameChannelsExact(d, Feed(d, p).0);
    }
  }

  predicate NeverTakesTextAway(d: Decoder, pairs: seq<Pair>)
    requires ValidDecoder(d) && forall p :: p in pairs ==> IsPair(p)
    decreases |pairs|
  {
    pairs != [] ==>
      !TakesTextAway(d, pairs[0]) && (FeedKeeps(d, pairs[0]); NeverTakesTextAway(Feed(d, pairs[0]).0, pairs[1..]))
  }

  /** After reset the bits are exact in every run without such a carriage return. */
  lemma {:induction false} ExactInRuns(d: Decoder, pairs: seq<Pair>)
    requires ValidDecoder(d) && ExactDecoder(d) && forall p :: p in pairs ==> IsPair(p)
    requires NeverTakesTextAway(d, pairs)
    ensures ExactDecoder(FeedAll(d, pairs))
    decreases |pairs|
  {
    hide ValidDecoder;
    hide ExactDecoder;
    hide TakesTextAway;
    hide Feed;
    if pairs != [] {
      FeedExact(d, pairs[0]);
      ExactInRuns(Feed(d, pairs[0]).0, pairs[1..]);
    }
  }

  lemma ResetIsExact()
    ensures ExactDecoder(ResetDecoder())
  {
    EmptyIsExact();
    hide ExactBits;
  }

  lemma EmptyIsExact()
    ensures ExactBits(EmptyScreen())
  {
    CleanIsExact(EmptyScreen());
  }

  // A window of two rows at the bottom of the screen, with a character in the upper one.

  function OneCharacter(): Row {
    BlankRow()[FIRST_COLUMN := 0x41]
  }

  function TwoLineChannel(): Channel {
    var s := SetRow(EmptyScreen(), 13, OneCharacter(), true);
    Channel(s, EmptyScreen(), LAST_ROW, FIRST_COLUMN, 2, 0, RollUp)
  }

  /** After a carriage return the bit of row 12 is set although the row is blank. */
  lemma BitOfBlankRow()
    ensures Valid(TwoLineChannel()) && ExactChannel(TwoLineChannel())
    ensures var d := CarriageReturn(TwoLineChannel());
            Valid(d) && d.shown.dirty[12] && Blank(d.shown.rows[12]) && !ExactBits(d.shown)
  {
    var ch := TwoLineChannel();
    EmptyIsExact();
    assert OneCharacter()[FIRST_COLUMN] != 0;
    assert !Blank(OneCharacter());
    hide Blank;
    CarriageReturnKeeps(ch);
    CarriageReturnBits(ch);
    assert !Clean(ch.shown) by { assert ch.shown.dirty[13]; }
    assert CarriageReturn(ch).shown.rows[12] == EmptyScreen().rows[12];
  }
}
