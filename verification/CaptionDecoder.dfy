/** The line 21 caption decoder: eight channels fed by the byte pairs of two fields. */
module CaptionDecoder {
  import opened CaptionScreen

  /** Channels 0 to 3 are CC1 to CC4, channels 4 to 7 are T1 to T4. For each field the channel
      in use, -1 if it is not known yet, the control code whose repetition is ignored, and
      whether XDS data is received. */
  datatype Decoder = Decoder(channels: seq<Channel>, current: seq<int>, pending: seq<(int, int)>, inXds: seq<bool>)

  /** A byte pair without parity bits, -1 for bytes of wrong parity. */
  datatype Pair = Pair(field: nat, c1: int, c2: int)

  predicate IsPair(p: Pair) {
    p.field < 2 && -1 <= p.c1 < 0x80 && -1 <= p.c2 < 0x80
  }

  /** The field that carries a channel. */
  function FieldOf(i: nat): nat {
    i / 2 % 2
  }

  ghost predicate ValidDecoder(d: Decoder) {
    && |d.channels| == 8 && |d.current| == 2 && |d.pending| == 2 && |d.inXds| == 2
    && (forall i :: 0 <= i < 8 ==> Valid(d.channels[i]) && (d.channels[i].mode.Text? <==> i >= 4))
    && (forall f :: 0 <= f < 2 ==> d.current[f] == -1 || (0 <= d.current[f] < 8 && FieldOf(d.current[f]) == f))
  }

  function ResetDecoder(): (d: Decoder)
    ensures ValidDecoder(d)
  {
    var c, t := Reset(false), Reset(true);
    Decoder([c, c, c, c, t, t, t, t], [-1, -1], [(-1, -1), (-1, -1)], [false, false])
  }

  // Commands.

  function Put(ch: Channel, c: int, displayable: bool, backspace: bool): (r: Channel)
    requires Valid(ch)
    ensures Valid(r) && r.mode == ch.mode
  {
    if ch.mode.Unknown? then ch
    else
      PutCharKeeps(ch, c, displayable, backspace);
      PutChar(ch, c, displayable, backspace)
  }

  function WithChannel(d: Decoder, i: nat, ch: Channel): Decoder
    requires i < |d.channels|
  {
    d.(channels := d.channels[i := ch])
  }

  function Switch(d: Decoder, f: nat, i: nat): Decoder
    requires f < |d.current|
  {
    d.(current := d.current[f := i])
  }

  /** The channel a control code addresses: caption or text as the channel in use, the field,
      and the channel bit of the code. */
  function Addressed(current: int, f: nat, c1: nat): (i: nat)
    requires f < 2
    ensures i < 8 && FieldOf(i) == f
  {
    (if current == -1 then 4 else current / 4 % 2 * 4) + f * 2 + c1 / 8 % 2
  }

  function ExtControl(ch: Channel, c2: nat): Channel
    requires Valid(ch)
  {
    if 0x21 <= c2 <= 0x23 then if ch.mode.Unknown? then ch else TabOffset(ch, c2 % 4)
    else if 0x2D <= c2 <= 0x2F then Put(ch, 0x1700 + c2, false, true)
    else ch
  }

  /** The caption channel, the text channel or the channel in use, as the code demands. */
  function MiscTarget(i: nat, c2: nat): (j: nat)
    requires i < 8
    ensures j < 8 && FieldOf(j) == FieldOf(i)
  {
    var code := c2 % 16;
    if code == 10 || code == 11 then 4 + i % 4
    else if code == 1 || code == 2 || code == 3 || code == 4 || code == 8 || code == 13 then i
    else i % 4
  }

  predicate MiscSwitches(c2: nat) {
    var code := c2 % 16;
    code == 0 || (5 <= code <= 7) || (9 <= code <= 11) || code == 15
  }

  /** Codes for the channel in use need one. */
  predicate MiscNeedsChannel(c2: nat) {
    var code := c2 % 16;
    code == 1 || code == 4 || code == 8 || code == 13
  }

  predicate MiscFits(ch: Channel, c2: nat) {
    var code := c2 % 16;
    if code == 10 || code == 11 then ch.mode.Text?
    else code == 1 || code == 2 || code == 3 || code == 4 || code == 8 || code == 13 || !ch.mode.Text?
  }

  function MiscCommand(ch: Channel, c2: nat): Channel
    requires Valid(ch) && MiscFits(ch, c2)
  {
    match c2 % 16
    case 0 => ResumeCaptionLoading(ch)
    case 1 => if ch.mode.Unknown? then ch else Backspace(ch)
    case 4 => if ch.mode.Unknown? then ch else DeleteToEnd(ch)
    case 5 => RollUpCaption(ch, 2)
    case 6 => RollUpCaption(ch, 3)
    case 7 => RollUpCaption(ch, 4)
    case 8 => Put(ch, 0x1428, false, false)
    case 9 => ResumeDirectCaptioning(ch)
    case 10 => TextRestart(ch)
    case 12 => EraseDisplayed(ch)
    case 13 => CarriageReturn(ch)
    case 14 => EraseNonDisplayed(ch)
    case 15 => EndOfCaption(ch)
    case _ => ch
  }

  function MiscControl(d: Decoder, f: nat, i: nat, c2: nat): (r: Decoder)
    requires ValidDecoder(d) && f < 2 && i < 8
    ensures r == d.(channels := r.channels, current := r.current)
  {
    var j := MiscTarget(i, c2);
    if MiscNeedsChannel(c2) && d.current[f] == -1 then d
    else WithChannel(if MiscSwitches(c2) then Switch(d, f, j) else d, j, MiscCommand(d.channels[j], c2))
  }

  /** Preambles, attributes, special and extended characters, and tabs, which affect the channel
      addressed only. */
  function ChannelCode(ch: Channel, c1: nat, c2: nat): Channel
    requires Valid(ch)
  {
    if c2 >= 0x40 then Preamble(ch, c1, c2)
    else
      match c1 % 8
      case 0 => if c2 < 0x30 then Put(ch, 0x1000 + c2, false, true) else ch
      case 1 =>
        if c2 < 0x30 then Put(ch, 0x1100 + c2, false, false)
        else if c2 == 0x39 then Put(ch, 0, false, false)
        else Put(ch, 0x1100 + c2, true, false)
      case 7 => ExtControl(ch, c2)
      // Extended characters replace the one before; the channel bit is not part of the code.
      case 2 => Put(ch, 0x1200 + c2, true, true)
      case 3 => Put(ch, 0x1300 + c2, true, true)
      case _ => ch
  }

  predicate IsMisc(c1: nat, c2: nat) {
    (c1 % 8 == 4 || c1 % 8 == 5) && c2 < 0x40
  }

  function ControlCode(d: Decoder, f: nat, c1: nat, c2: nat): (r: Decoder)
    requires ValidDecoder(d) && f < 2
    ensures r == d.(channels := r.channels, current := r.current)
  {
    var i := Addressed(d.current[f], f, c1);
    if IsMisc(c1, c2) then if c2 < 0x30 then MiscControl(d, f, i, c2) else d
    else if d.current[f] == -1 then d
    else WithChannel(d, i, ChannelCode(d.channels[i], c1, c2))
  }

  function Characters(ch: Channel, c: int): (r: (Channel, bool))
    requires Valid(ch)
    ensures Valid(r.0) && r.0.mode == ch.mode
  {
    if c == 0 then (ch, true)
    else if c < 0x20 then (if c < 0 then Put(ch, 0x7F, true, false) else ch, false)
    else (Put(ch, c, true, false), true)
  }

  // A byte pair.

  function Forget(d: Decoder, f: nat): Decoder
    requires f < 2 && |d.pending| == 2
  {
    d.(pending := d.pending[f := (-1, d.pending[f].1)])
  }

  /** The channel characters go to. */
  function Receiving(current: int, f: nat): (i: nat)
    requires f < 2
    ensures i < 8 && FieldOf(i) == f
  {
    current / 4 % 2 * 4 + current % 2 + f * 2
  }

  function TwoCharacters(d: Decoder, f: nat, c1: int, c2: int): (Decoder, bool)
    requires ValidDecoder(d) && f < 2
  {
    if d.inXds[f] || d.current[f] == -1 then (d, true)
    else
      var i := Receiving(d.current[f], f);
      var (a, ok1) := Characters(d.channels[i], c1);
      var (b, ok2) := Characters(a, c2);
      (WithChannel(d, i, b), ok1 && ok2)
  }

  function Feed(d: Decoder, p: Pair): (Decoder, bool)
    requires ValidDecoder(d) && IsPair(p)
  {
    var f := p.field;
    if p.c1 < 0 then (Forget(d, f), false)
    else if (p.c1, p.c2) == d.pending[f] then (Forget(d, f), true)
    else if 0x10 <= p.c1 < 0x20 then
      var e := d.(inXds := d.inXds[f := false]);
      if p.c2 < 0x20 then (Forget(e, f), false)
      else
        var g := ControlCode(e, f, p.c1, p.c2);
        (g.(pending := g.pending[f := (p.c1, p.c2)]), true)
    else
      var e := Forget(d, f);
      if p.c1 >= 0x10 then TwoCharacters(e, f, p.c1, p.c2)
      else if f == 0 || p.c1 == 0 then TwoCharacters(e, f, 0, p.c2)
      else (e.(inXds := e.inXds[1 := p.c1 != 0x0F]), true)
  }

  // The invariants hold in every run.

  lemma ModeCommandsKeep(ch: Channel)
    requires Valid(ch) && !ch.mode.Text?
    ensures Valid(ResumeCaptionLoading(ch)) && Valid(ResumeDirectCaptioning(ch)) && Valid(EndOfCaption(ch))
  {
    hide Blank;
  }

  lemma KeepsText(ch: Channel, c2: nat)
    requires Valid(ch) && MiscFits(ch, c2)
    ensures MiscCommand(ch, c2).mode.Text? <==> ch.mode.Text?
  {
    hide Valid;
    hide Erase;
    hide Blank;
  }

  lemma MiscCommandKeeps(ch: Channel, c2: nat)
    requires Valid(ch) && MiscFits(ch, c2)
    ensures Valid(MiscCommand(ch, c2))
  {
    hide Valid;
    hide Erase;
    hide Backspace;
    hide DeleteToEnd;
    hide CarriageReturn;
    hide RollUpCaption;
    hide ResumeCaptionLoading;
    hide ResumeDirectCaptioning;
    hide EndOfCaption;
    hide TextRestart;
    EraseKeeps(ch);
    CarriageReturnKeeps(ch);
    if !ch.mode.Unknown? {
      BackspaceKeeps(ch);
      DeleteToEndKeeps(ch);
    }
    if !ch.mode.Text? {
      ModeCommandsKeep(ch);
      RollUpCaptionKeeps(ch, 2);
      RollUpCaptionKeeps(ch, 3);
      RollUpCaptionKeeps(ch, 4);
    }
  }

  lemma MiscControlKeeps(d: Decoder, f: nat, i: nat, c2: nat)
    requires ValidDecoder(d) && f < 2 && i < 8 && FieldOf(i) == f
    ensures ValidDecoder(MiscControl(d, f, i, c2))
  {
    hide Valid;
    hide MiscCommand;
    var j := MiscTarget(i, c2);
    MiscCommandKeeps(d.channels[j], c2);
    KeepsText(d.channels[j], c2);
  }

  lemma ExtControlKeeps(ch: Channel, c2: nat)
    requires Valid(ch)
    ensures Valid(ExtControl(ch, c2)) && ExtControl(ch, c2).mode == ch.mode
  {
    hide Blank;
  }

  lemma PreambleMode(ch: Channel, c1: nat, c2: nat)
    requires Valid(ch)
    ensures Preamble(ch, c1, c2).mode == ch.mode
  {
    hide Valid;
  }

  lemma ChannelCodeKeeps(ch: Channel, c1: nat, c2: nat)
    requires Valid(ch)
    ensures Valid(ChannelCode(ch, c1, c2)) && ChannelCode(ch, c1, c2).mode == ch.mode
  {
    hide Valid;
    hide ExtControl;
    hide Preamble;
    hide Put;
    ExtControlKeeps(ch, c2);
    PreambleKeeps(ch, c1, c2);
    PreambleMode(ch, c1, c2);
  }

  lemma ControlCodeKeeps(d: Decoder, f: nat, c1: nat, c2: nat)
    requires ValidDecoder(d) && f < 2
    ensures ValidDecoder(ControlCode(d, f, c1, c2))
  {
    hide Valid;
    hide MiscControl;
    hide ChannelCode;
    var i := Addressed(d.current[f], f, c1);
    MiscControlKeeps(d, f, i, c2);
    ChannelCodeKeeps(d.channels[i], c1, c2);
  }

  lemma NoCharacters(d: Decoder, f: nat, c1: int, c2: int)
    requires ValidDecoder(d) && f < 2 && (d.inXds[f] || d.current[f] == -1)
    ensures TwoCharacters(d, f, c1, c2) == (d, true)
  {
    hide Characters;
  }

  lemma TwoSteps(d: Decoder, f: nat, c1: int, c2: int)
    requires ValidDecoder(d) && f < 2 && !d.inXds[f] && d.current[f] != -1
    ensures var i := Receiving(d.current[f], f);
            var (a, ok1) := Characters(d.channels[i], c1);
            var (b, ok2) := Characters(a, c2);
            TwoCharacters(d, f, c1, c2) == (d.(channels := d.channels[i := a][i := b]), ok1 && ok2)
  {
    hide Characters;
    var i := Receiving(d.current[f], f);
    var (a, ok1) := Characters(d.channels[i], c1);
    var (b, ok2) := Characters(a, c2);
    assert d.channels[i := a][i := b] == d.channels[i := b];
  }

  lemma TwoCharactersKeep(d: Decoder, f: nat, c1: int, c2: int)
    requires ValidDecoder(d) && f < 2
    ensures ValidDecoder(TwoCharacters(d, f, c1, c2).0)
  {
    hide Valid;
    hide Characters;
  }

  /** Whatever is received, no command meets a channel in a mode it is not made for, a clear
      bit means a blank row, and text in roll-up mode stays in the window. */
  lemma FeedKeeps(d: Decoder, p: Pair)
    requires ValidDecoder(d) && IsPair(p)
    ensures ValidDecoder(Feed(d, p).0)
  {
    hide Valid;
    hide ControlCode;
    hide TwoCharacters;
    var f := p.field;
    if 0x10 <= p.c1 < 0x20 && p.c2 >= 0x20 {
      ControlCodeKeeps(d.(inXds := d.inXds[f := false]), f, p.c1, p.c2);
    }
    TwoCharactersKeep(Forget(d, f), f, p.c1, p.c2);
    TwoCharactersKeep(Forget(d, f), f, 0, p.c2);
  }

  function FeedAll(d: Decoder, pairs: seq<Pair>): (r: Decoder)
    requires ValidDecoder(d) && forall p :: p in pairs ==> IsPair(p)
    ensures ValidDecoder(r)
    decreases |pairs|
  {
    if pairs == [] then d
    else
      FeedKeeps(d, pairs[0]);
      FeedAll(Feed(d, pairs[0]).0, pairs[1..])
  }

  // Fields do not interfere.

  /** All that belongs to field f is the same. */
  ghost predicate AgreeOn(d: Decoder, e: Decoder, f: nat)
    requires ValidDecoder(d) && ValidDecoder(e) && f < 2
  {
    && (forall i :: 0 <= i < 8 && FieldOf(i) == f ==> d.channels[i] == e.channels[i])
    && d.current[f] == e.current[f] && d.pending[f] == e.pending[f] && d.inXds[f] == e.inXds[f]
  }

  lemma MiscControlOther(d: Decoder, f: nat, i: nat, c2: nat)
    requires ValidDecoder(d) && f < 2 && i < 8 && FieldOf(i) == f
    ensures ValidDecoder(MiscControl(d, f, i, c2)) && AgreeOn(MiscControl(d, f, i, c2), d, 1 - f)
  {
    MiscControlKeeps(d, f, i, c2);
    hide Valid;
    hide MiscCommand;
    hide MiscNeedsChannel;
    hide MiscSwitches;
  }

  lemma ControlCodeOther(d: Decoder, f: nat, c1: nat, c2: nat)
    requires ValidDecoder(d) && f < 2
    ensures ValidDecoder(ControlCode(d, f, c1, c2)) && AgreeOn(ControlCode(d, f, c1, c2), d, 1 - f)
  {
    hide Valid;
    hide MiscControl;
    hide ChannelCode;
    ControlCodeKeeps(d, f, c1, c2);
    MiscControlOther(d, f, Addressed(d.current[f], f, c1), c2);
  }

  lemma TwoCharactersOther(d: Decoder, f: nat, c1: int, c2: int)
    requires ValidDecoder(d) && f < 2
    ensures ValidDecoder(TwoCharacters(d, f, c1, c2).0) && AgreeOn(TwoCharacters(d, f, c1, c2).0, d, 1 - f)
  {
    TwoCharactersKeep(d, f, c1, c2);
    hide Valid;
    hide Characters;
  }

  lemma ForgetOther(d: Decoder, f: nat)
    requires ValidDecoder(d) && f < 2
    ensures ValidDecoder(Forget(d, f)) && AgreeOn(Forget(d, f), d, 1 - f)
  {
    hide Valid;
  }

  lemma XdsOther(d: Decoder, f: nat, xds: bool)
    requires ValidDecoder(d) && f < 2
    ensures var e := d.(inXds := d.inXds[f := xds]); ValidDecoder(e) && AgreeOn(e, d, 1 - f)
  {
    hide Valid;
  }

  lemma PendingOther(d: Decoder, f: nat, code: (int, int))
    requires ValidDecoder(d) && f < 2
    ensures var e := d.(pending := d.pending[f := code]); ValidDecoder(e) && AgreeOn(e, d, 1 - f)
  {
    hide Valid;
  }

  lemma FeedControlOther(d: Decoder, p: Pair)
    requires ValidDecoder(d) && IsControlPair(p) && (p.c1, p.c2) != d.pending[p.field]
    ensures ValidDecoder(Feed(d, p).0) && AgreeOn(Feed(d, p).0, d, 1 - p.field)
  {
    hide ControlCode;
    hide AgreeOn;
    var f := p.field;
    var e := d.(inXds := d.inXds[f := false]);
    XdsOther(d, f, false);
    ControlCodeOther(e, f, p.c1, p.c2);
    var g := ControlCode(e, f, p.c1, p.c2);
    PendingOther(g, f, (p.c1, p.c2));
    AgreeTwice(g, e, d, 1 - f);
    AgreeTwice(g.(pending := g.pending[f := (p.c1, p.c2)]), g, d, 1 - f);
    hide ValidDecoder;
  }

  lemma FeedBrokenOther(d: Decoder, p: Pair)
    requires ValidDecoder(d) && IsPair(p) && 0x10 <= p.c1 < 0x20 && p.c2 < 0x20 && (p.c1, p.c2) != d.pending[p.field]
    ensures ValidDecoder(Feed(d, p).0) && AgreeOn(Feed(d, p).0, d, 1 - p.field)
  {
    hide Valid;
    hide ControlCode;
    hide TwoCharacters;
    FeedKeeps(d, p);
  }

  lemma FeedCharactersOther(d: Decoder, p: Pair)
    requires ValidDecoder(d) && IsPair(p) && 0 <= p.c1 && !(0x10 <= p.c1 < 0x20) && (p.c1, p.c2) != d.pending[p.field]
    ensures ValidDecoder(Feed(d, p).0) && AgreeOn(Feed(d, p).0, d, 1 - p.field)
  {
    hide Valid;
    hide AgreeOn;
    hide Forget;
    hide TwoCharacters;
    hide ControlCode;
    var f := p.field;
    var e := Forget(d, f);
    ForgetOther(d, f);
    var c1 := if p.c1 >= 0x10 then p.c1 else 0;
    TwoCharactersOther(e, f, c1, p.c2);
    AgreeTwice(TwoCharacters(e, f, c1, p.c2).0, e, d, 1 - f);
    XdsOther(e, f, p.c1 != 0x0F);
    AgreeTwice(e.(inXds := e.inXds[f := p.c1 != 0x0F]), e, d, 1 - f);
    hide ValidDecoder;
  }

  /** A byte pair of one field changes nothing that belongs to the other field. */
  lemma FeedOther(d: Decoder, p: Pair)
    requires ValidDecoder(d) && IsPair(p)
    ensures ValidDecoder(Feed(d, p).0) && AgreeOn(Feed(d, p).0, d, 1 - p.field)
  {
    hide Valid;
    hide Forget;
    hide AgreeOn;
    hide TwoCharacters;
    hide ControlCode;
    ForgetOther(d, p.field);
    if p.c1 < 0 || (p.c1, p.c2) == d.pending[p.field] {
    } else if IsControlPair(p) {
      FeedControlOther(d, p);
    } else if 0x10 <= p.c1 < 0x20 {
      FeedBrokenOther(d, p);
    } else {
      FeedCharactersOther(d, p);
    }
  }

  lemma ControlCodeSame(d: Decoder, e: Decoder, f: nat, c1: nat, c2: nat)
    requires ValidDecoder(d) && ValidDecoder(e) && f < 2 && AgreeOn(d, e, f)
    ensures ValidDecoder(ControlCode(d, f, c1, c2)) && ValidDecoder(ControlCode(e, f, c1, c2))
    ensures AgreeOn(ControlCode(d, f, c1, c2), ControlCode(e, f, c1, c2), f)
  {
    ControlCodeKeeps(d, f, c1, c2);
    ControlCodeKeeps(e, f, c1, c2);
    hide Valid;
    hide MiscCommand;
    hide ChannelCode;
    assert Addressed(d.current[f], f, c1) == Addressed(e.current[f], f, c1);
  }

  lemma TwoCharactersSame(d: Decoder, e: Decoder, f: nat, c1: int, c2: int)
    requires ValidDecoder(d) && ValidDecoder(e) && f < 2 && AgreeOn(d, e, f)
    ensures ValidDecoder(TwoCharacters(d, f, c1, c2).0) && ValidDecoder(TwoCharacters(e, f, c1, c2).0)
    ensures AgreeOn(TwoCharacters(d, f, c1, c2).0, TwoCharacters(e, f, c1, c2).0, f)
    ensures TwoCharacters(d, f, c1, c2).1 == TwoCharacters(e, f, c1, c2).1
  {
    TwoCharactersKeep(d, f, c1, c2);
    TwoCharactersKeep(e, f, c1, c2);
    hide Valid;
    hide Characters;
  }

  lemma ForgetSame(d: Decoder, e: Decoder, f: nat)
    requires ValidDecoder(d) && ValidDecoder(e) && f < 2 && AgreeOn(d, e, f)
    ensures ValidDecoder(Forget(d, f)) && ValidDecoder(Forget(e, f)) && AgreeOn(Forget(d, f), Forget(e, f), f)
  {
    hide Valid;
  }

  function NoXds(d: Decoder, f: nat): Decoder
    requires f < |d.inXds|
  {
    d.(inXds := d.inXds[f := false])
  }

  /** A control code that is not a repetition. */
  lemma FeedControlSame(d: Decoder, e: Decoder, p: Pair)
    requires ValidDecoder(d) && ValidDecoder(e) && IsPair(p) && AgreeOn(d, e, p.field) && 0x10 <= p.c1 < 0x20
    requires (p.c1, p.c2) != d.pending[p.field]
    ensures ValidDecoder(Feed(d, p).0) && ValidDecoder(Feed(e, p).0)
    ensures AgreeOn(Feed(d, p).0, Feed(e, p).0, p.field) && Feed(d, p).1 == Feed(e, p).1
  {
    hide Valid;
    hide ControlCode;
    hide TwoCharacters;
    FeedKeeps(d, p);
    FeedKeeps(e, p);
    if p.c2 >= 0x20 {
      ControlCodeSame(NoXds(d, p.field), NoXds(e, p.field), p.field, p.c1, p.c2);
    } else {
      ForgetSame(NoXds(d, p.field), NoXds(e, p.field), p.field);
    }
  }

  /** What a byte pair does to its field depends on nothing that belongs to the other field. */
  lemma FeedSame(d: Decoder, e: Decoder, p: Pair)
    requires ValidDecoder(d) && ValidDecoder(e) && IsPair(p) && AgreeOn(d, e, p.field)
    ensures ValidDecoder(Feed(d, p).0) && ValidDecoder(Feed(e, p).0)
    ensures AgreeOn(Feed(d, p).0, Feed(e, p).0, p.field) && Feed(d, p).1 == Feed(e, p).1
  {
    hide Valid;
    hide ControlCode;
    hide TwoCharacters;
    FeedKeeps(d, p);
    FeedKeeps(e, p);
    ForgetSame(d, e, p.field);
    if 0x10 <= p.c1 < 0x20 && (p.c1, p.c2) != d.pending[p.field] {
      FeedControlSame(d, e, p);
    } else if 0x10 <= p.c1 {
      TwoCharactersSame(Forget(d, p.field), Forget(e, p.field), p.field, p.c1, p.c2);
    } else {
      TwoCharactersSame(Forget(d, p.field), Forget(e, p.field), p.field, 0, p.c2);
    }
  }

  function OfField(pairs: seq<Pair>, f: nat): (r: seq<Pair>)
    ensures forall p :: p in r ==> p in pairs
  {
    if pairs == [] then []
    else if pairs[0].field == f then [pairs[0]] + OfField(pairs[1..], f)
    else OfField(pairs[1..], f)
  }

  lemma {:induction false} RunOfField(d: Decoder, e: Decoder, pairs: seq<Pair>, f: nat)
    requires ValidDecoder(d) && ValidDecoder(e) && f < 2 && AgreeOn(d, e, f) && forall p :: p in pairs ==> IsPair(p)
    ensures AgreeOn(FeedAll(d, pairs), FeedAll(e, OfField(pairs, f)), f)
    decreases |pairs|
  {
    hide ValidDecoder;
    hide AgreeOn;
    hide Feed;
    if pairs != [] {
      var p := pairs[0];
      FeedKeeps(d, p);
      if p.field == f {
        FeedSame(d, e, p);
        RunOfField(Feed(d, p).0, Feed(e, p).0, pairs[1..], f);
        assert OfField(pairs, f)[0] == p && OfField(pairs, f)[1..] == OfField(pairs[1..], f);
      } else {
        FeedOther(d, p);
        AgreeTwice(Feed(d, p).0, d, e, f);
        RunOfField(Feed(d, p).0, e, pairs[1..], f);
      }
    }
  }

  lemma AgreeTwice(a: Decoder, b: Decoder, c: Decoder, f: nat)
    requires ValidDecoder(a) && ValidDecoder(b) && ValidDecoder(c) && f < 2 && AgreeOn(a, b, f) && AgreeOn(b, c, f)
    ensures AgreeOn(a, c, f)
  {
  }

  /** For any interleaving of the fields the channels of a field end as if only the byte pairs
      of that field had been received. */
  lemma FieldsDoNotInterfere(d: Decoder, pairs: seq<Pair>, f: nat)
    requires ValidDecoder(d) && f < 2 && forall p :: p in pairs ==> IsPair(p)
    ensures forall i :: 0 <= i < 8 && FieldOf(i) == f ==>
              FeedAll(d, pairs).channels[i] == FeedAll(d, OfField(pairs, f)).channels[i]
  {
    RunOfField(d, d, pairs, f);
  }

  // Repeated control codes.

  predicate IsControlPair(p: Pair) {
    IsPair(p) && 0x10 <= p.c1 < 0x20 && p.c2 >= 0x20
  }

  function Times(p: Pair, n: nat): seq<Pair> {
    if n == 0 then [] else [p] + Times(p, n - 1)
  }

  /** The control code is acted upon n times. */
  function Acted(d: Decoder, p: Pair, n: nat): (r: Decoder)
    requires ValidDecoder(d) && IsControlPair(p)
    ensures ValidDecoder(r)
    decreases n
  {
    if n == 0 then d
    else
      ControlCodeKeeps(d, p.field, p.c1, p.c2);
      Acted(ControlCode(d, p.field, p.c1, p.c2), p, n - 1)
  }

  ghost predicate SameScreens(d: Decoder, e: Decoder) {
    d.channels == e.channels && d.current == e.current
  }

  lemma ControlCodeScreens(d: Decoder, e: Decoder, f: nat, c1: nat, c2: nat)
    requires ValidDecoder(d) && ValidDecoder(e) && f < 2 && SameScreens(d, e)
    ensures SameScreens(ControlCode(d, f, c1, c2), ControlCode(e, f, c1, c2))
  {
    hide Valid;
    hide MiscCommand;
    hide ChannelCode;
  }

  lemma TimesPairs(p: Pair, n: nat)
    requires IsPair(p)
    ensures forall q :: q in Times(p, n) ==> IsPair(q)
  {
  }

  /** Of n identical control code pairs in succession every other one is acted upon, starting
      with the first if no repetition is pending. */
  lemma {:induction false} RepeatsIgnored(d: Decoder, e: Decoder, p: Pair, n: nat)
    requires ValidDecoder(d) && ValidDecoder(e) && IsControlPair(p) && SameScreens(d, e)
    requires d.pending[p.field] != (p.c1, p.c2)
    ensures (forall q :: q in Times(p, n) ==> IsPair(q))
    ensures SameScreens(FeedAll(d, Times(p, n)), Acted(e, p, (n + 1) / 2))
    decreases n
  {
    hide ValidDecoder;
    hide Feed;
    hide ControlCode;
    TimesPairs(p, n);
    if n > 0 {
      FeedKeeps(d, p);
      ControlCodeKeeps(e, p.field, p.c1, p.c2);
      FirstIsActed(d, e, p);
      var d1 := Feed(d, p).0;
      var e1 := ControlCode(e, p.field, p.c1, p.c2);
      FeedTimes(d, p, n);
      if n == 1 {
        assert Acted(e1, p, 0) == e1;
      } else {
        FeedKeeps(d1, p);
        RepetitionIsIgnored(d1, p);
        FeedTimes(d1, p, n - 1);
        RepeatsIgnored(Feed(d1, p).0, e1, p, n - 2);
        assert (n + 1) / 2 - 1 == (n - 2 + 1) / 2;
      }
    }
  }

  lemma FeedTimes(d: Decoder, p: Pair, n: nat)
    requires ValidDecoder(d) && IsControlPair(p) && n > 0
    ensures ValidDecoder(Feed(d, p).0)
    ensures (forall q :: q in Times(p, n) ==> IsPair(q)) && forall q :: q in Times(p, n - 1) ==> IsPair(q)
    ensures FeedAll(d, Times(p, n)) == FeedAll(Feed(d, p).0, Times(p, n - 1))
  {
    hide ValidDecoder;
    hide Feed;
    FeedKeeps(d, p);
    TimesPairs(p, n);
    TimesPairs(p, n - 1);
    assert Times(p, n)[0] == p && Times(p, n)[1..] == Times(p, n - 1);
  }

  lemma FirstIsActed(d: Decoder, e: Decoder, p: Pair)
    requires ValidDecoder(d) && ValidDecoder(e) && IsControlPair(p) && SameScreens(d, e)
        && d.pending[p.field] != (p.c1, p.c2)
    ensures var d1 := Feed(d, p).0;
            SameScreens(d1, ControlCode(e, p.field, p.c1, p.c2)) && |d1.pending| == 2
                && d1.pending[p.field] == (p.c1, p.c2)
  {
    hide Valid;
    var d0 := d.(inXds := d.inXds[p.field := false]);
    ControlCodeScreens(d0, e, p.field, p.c1, p.c2);
    hide ControlCode;
  }

  lemma RepetitionIsIgnored(d: Decoder, p: Pair)
    requires ValidDecoder(d) && IsControlPair(p) && d.pending[p.field] == (p.c1, p.c2)
    ensures var d1 := Feed(d, p).0;
            SameScreens(d1, d) && |d1.pending| == 2 && d1.pending[p.field] != (p.c1, p.c2)
  {
    hide Valid;
    hide ControlCode;
    hide TwoCharacters;
  }
}
