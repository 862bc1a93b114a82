/** The two decoders of subtitle pixels: one that takes half bytes from a buffer, and one that
    takes fields from a stream of bits. */
module PixelDecoders {
  import opened Options
  import opened PixelCodes
  import opened BitFields

  // What the half byte decoder makes of a sub-block.

  /** Strings are limited by the length of the whole block, `length` less one, and other bytes than the
      two known ones are passed over. */
  function NibbleItems(d: seq<Byte>, i: nat, end: nat, length: nat): seq<Item>
    requires 1 <= length && end + length + 1 <= |d|
    decreases end - i
  {
    if i >= end then []
    else if d[i] == FOUR_BIT_STRING then
      var r := Loose(d, 2 * (i + 1), 2 * (i + length));
      Plots(r.runs) + NibbleItems(d, Aligned(r.stop), end, length)
    else if d[i] == END_OF_LINE then [NewLine] + NibbleItems(d, i + 1, end, length)
    else NibbleItems(d, i + 1, end, length)
  }

  /** What the bit stream decoder makes of it: the items up to the place where it gives up, and whether
      it got to the end. */
  datatype BitResult = BitResult(items: seq<Item>, ok: bool)

  predicate PassedOver(x: Byte) {
    x == 0x10 || x == 0x12
  }

  function BitItems(d: seq<Byte>, i: nat): BitResult
    decreases |d| - i
  {
    if i >= |d| then BitResult([], i == |d|)
    else if d[i] == FOUR_BIT_STRING then
      var r := Parse(d, 2 * (i + 1), 2 * |d|);
      if r.ending.Broken? then BitResult(Plots(r.runs), false)
      else
        var rest := BitItems(d, Aligned(r.stop));
        BitResult(Plots(r.runs) + rest.items, rest.ok)
    else if d[i] == END_OF_LINE then
      var rest := BitItems(d, i + 1);
      BitResult([NewLine] + rest.items, rest.ok)
    else if PassedOver(d[i]) then BitItems(d, i + 1)
    else BitResult([], true)
  }

  /** Where the data are proper both see what the data mean. The half byte decoder does not look at what
      follows the block. */
  lemma {:induction false} NibbleItemsAreItems(d: seq<Byte>, i: nat, end: nat, length: nat)
    requires 1 <= length && end + length + 1 <= |d| && end <= i + length && Proper(d, i, end)
    ensures NibbleItems(d, i, end, length) == Items(d, i, end)
    decreases end - i
  {
    if i < end {
      if d[i] == END_OF_LINE {
        NibbleItemsAreItems(d, i + 1, end, length);
      } else {
        var r := Parse(d, 2 * (i + 1), 2 * end);
        LimitBehindEnd(d, 2 * (i + 1), 2 * end, 2 * (i + length));
        LooseIsParse(d, 2 * (i + 1), 2 * (i + length));
        NibbleItemsAreItems(d, Aligned(r.stop), end, length);
      }
    }
  }

  /** A string that is not terminated goes on behind the block if it is not the first of the block, since
      its limit then lies behind the block. */
  lemma {:induction false} GoesOnBehind(d: seq<Byte>, k: nat, limit: nat, more: nat)
    requires k <= limit <= more && more + 4 <= 2 * |d| && Parse(d, k, limit).ending.Exhausted?
    ensures Loose(d, k, more).runs == Parse(d, k, limit).runs + Loose(d, limit, more).runs
    ensures Loose(d, k, more).stop == Loose(d, limit, more).stop
    decreases limit - k
  {
    hide Meaning;
    hide Size;
    if k < limit {
      var next := k + Size(d, k);
      GoesOnBehind(d, next, limit, more);
      var run, a, b := [Meaning(d, k).value], Parse(d, next, limit).runs, Loose(d, limit, more).runs;
      assert run + (a + b) == run + a + b;
    }
  }

  lemma TakesWholeCode(d: seq<Byte>, k: nat, limit: nat)
    requires limit + 4 <= 2 * |d| && k < limit
    ensures Loose(d, k, limit).stop >= k + Size(d, k)
  {
  }

  /** A code that goes over the limit takes the decoder behind it, wherever its own limit is. */
  lemma {:induction false} BrokenGoesOn(d: seq<Byte>, k: nat, limit: nat, more: nat)
    requires limit <= more && more + 4 <= 2 * |d| && Parse(d, k, limit).ending.Broken?
    ensures Loose(d, k, more).stop > limit
    decreases limit - k
  {
    hide Meaning;
    hide Size;
    if k + Size(d, k) <= limit {
      BrokenGoesOn(d, k + Size(d, k), limit, more);
    } else {
      TakesWholeCode(d, k, more);
    }
  }

  /** A string is read no further than its block exactly if it is terminated within the block, or ends
      with the block and is the first one, whose limit is the end of the block. */
  lemma StaysInside(d: seq<Byte>, k: nat, limit: nat, more: nat)
    requires k < limit <= more && more + 4 <= 2 * |d|
    ensures var parsed := Parse(d, k, limit);
      Loose(d, k, more).stop <= limit
      <==> parsed.ending.Terminated? || (parsed.ending.Exhausted? && limit == more)
  {
    LooseIsParse(d, k, more);
    match Parse(d, k, limit).ending
    case Terminated => LimitBehindEnd(d, k, limit, more);
    case Exhausted => GoesOnBehind(d, k, limit, more);
    case Broken => BrokenGoesOn(d, k, limit, more);
  }

  function Pixel(colour: nat): Run {
    Run(1, colour)
  }

  lemma OnePixel(d: seq<Byte>, k: nat, limit: nat)
    requires k < limit && limit <= 2 * |d| && Nib(d, k) != 0
    ensures Parse(d, k, limit).runs == [Pixel(Nib(d, k))] + Parse(d, k + 1, limit).runs
    ensures Parse(d, k, limit).stop == Parse(d, k + 1, limit).stop
    ensures Parse(d, k, limit).ending == Parse(d, k + 1, limit).ending
    ensures limit + 4 <= 2 * |d| ==> Loose(d, k, limit).runs == [Pixel(Nib(d, k))] + Loose(d, k + 1, limit).runs
    ensures limit + 4 <= 2 * |d| ==> Loose(d, k, limit).stop == Loose(d, k + 1, limit).stop
  {
  }

  lemma NoPixel(d: seq<Byte>, k: nat, limit: nat)
    requires k + 1 < limit && limit <= 2 * |d| && Nib(d, k) == Nib(d, k + 1) == 0
    ensures Parse(d, k, limit) == Parsed([], k + 2, Terminated)
    ensures limit + 4 <= 2 * |d| ==> Loose(d, k, limit) == Parsed([], k + 2, Terminated)
  {
  }

  /** A block of four bytes with two strings, the first one empty, the second one of two pixels and
      without an end code, and what follows the block. */
  const UNTERMINATED: seq<Byte> := [0x11, 0x00, 0x11, 0x12, 0x30, 0, 0, 0, 0]

  lemma NibblesOfUnterminated()
    ensures NibbleItems(UNTERMINATED, 0, 4, 4) == Plots([Pixel(1), Pixel(2), Pixel(3)])
  {
    hide Parse;
    hide Loose;
    hide Plots;
    var d := UNTERMINATED;
    NoPixel(d, 2, 8);
    PlotsOfNone();
    OnePixel(d, 6, 12);
    OnePixel(d, 7, 12);
    OnePixel(d, 8, 12);
    NoPixel(d, 9, 12);
    assert Loose(d, 6, 12).runs == [Pixel(1), Pixel(2), Pixel(3)];
    assert NibbleItems(d, 2, 4, 4) == Plots(Loose(d, 6, 12).runs) + [];
  }

  lemma BitsOfUnterminated()
    ensures BitItems(UNTERMINATED[..4], 0) == BitResult(Plots([Pixel(1), Pixel(2)]), true)
  {
    hide Parse;
    hide Plots;
    var b := UNTERMINATED[..4];
    NoPixel(b, 2, 8);
    PlotsOfNone();
    OnePixel(b, 6, 8);
    OnePixel(b, 7, 8);
    ParseEnd(b, 8);
    assert BitItems(b, 4) == BitResult([], true);
    assert Parse(b, 6, 8).runs == [Pixel(1), Pixel(2)];
    assert BitItems(b, 2).items == Plots(Parse(b, 6, 8).runs) + [];
  }

  /** The half byte decoder plots a third pixel, which is none of the block. */
  lemma ReadsBehindBlock()
    ensures NibbleItems(UNTERMINATED, 0, 4, 4) == Plots([Pixel(1), Pixel(2), Pixel(3)])
    ensures BitItems(UNTERMINATED[..4], 0) == BitResult(Plots([Pixel(1), Pixel(2)]), true)
  {
    NibblesOfUnterminated();
    BitsOfUnterminated();
  }

  lemma {:induction false} BitItemsAreItems(d: seq<Byte>, i: nat)
    requires Proper(d, i, |d|)
    ensures BitItems(d, i) == BitResult(Items(d, i, |d|), true)
    decreases |d| - i
  {
    if i < |d| {
      if d[i] == END_OF_LINE {
        BitItemsAreItems(d, i + 1);
      } else {
        BitItemsAreItems(d, Aligned(Parse(d, 2 * (i + 1), 2 * |d|).stop));
      }
    }
  }

  predicate SameNib(d: seq<Byte>, k: nat, e: seq<Byte>, m: nat, j: nat) {
    k + j < 2 * |d| && m + j < 2 * |e| && Nib(d, k + j) == Nib(e, m + j)
  }

  /** The same half bytes in two places. */
  predicate Same(d: seq<Byte>, k: nat, e: seq<Byte>, m: nat, n: nat) {
    k + n <= 2 * |d| && m + n <= 2 * |e| && forall j: nat :: j < n ==> SameNib(d, k, e, m, j)
  }

  lemma SameAt(d: seq<Byte>, k: nat, e: seq<Byte>, m: nat, n: nat, j: nat)
    requires Same(d, k, e, m, n) && j < n
    ensures k + j < 2 * |d| && m + j < 2 * |e| && Nib(d, k + j) == Nib(e, m + j)
  {
    assert SameNib(d, k, e, m, j);
  }

  lemma SameAfter(d: seq<Byte>, k: nat, e: seq<Byte>, m: nat, n: nat, j: nat)
    requires Same(d, k, e, m, n) && j <= n
    ensures Same(d, k + j, e, m + j, n - j)
  {
    var k1, m1 := k + j, m + j;
    forall x: nat | x < n - j ensures SameNib(d, k1, e, m1, x) {
      SameAt(d, k, e, m, n, j + x);
    }
  }

  lemma SameSize(d: seq<Byte>, k: nat, e: seq<Byte>, m: nat, n: nat)
    requires Same(d, k, e, m, n) && n > 0
    ensures if n == 1 then Size(d, k) == 1 <==> Size(e, m) == 1 else Size(d, k) == Size(e, m)
  {
    hide Nib;
    SameAt(d, k, e, m, n, 0);
    if n > 1 {
      SameAt(d, k, e, m, n, 1);
    }
  }

  lemma SameCode(d: seq<Byte>, k: nat, e: seq<Byte>, m: nat, n: nat)
    requires Same(d, k, e, m, n) && n > 0
    ensures Size(d, k) <= n <==> Size(e, m) <= n
    ensures Size(d, k) <= n ==> Size(d, k) == Size(e, m) && Meaning(d, k) == Meaning(e, m)
  {
    hide Nib;
    SameSize(d, k, e, m, n);
    if Size(d, k) <= n {
      SameAt(d, k, e, m, n, 0);
      if Size(d, k) > 1 {
        SameAt(d, k, e, m, n, 1);
      }
      if Size(d, k) > 2 {
        SameAt(d, k, e, m, n, 2);
      }
      if Size(d, k) > 3 {
        SameAt(d, k, e, m, n, 3);
      }
      if Size(d, k) > 4 {
        SameAt(d, k, e, m, n, 4);
      }
    }
  }

  /** The same half bytes mean the same wherever they are. */
  lemma {:induction false} SameParse(d: seq<Byte>, k: nat, e: seq<Byte>, m: nat, n: nat)
    requires Same(d, k, e, m, n)
    ensures var a, b := Parse(d, k, k + n), Parse(e, m, m + n);
      a.runs == b.runs && a.stop - k == b.stop - m && a.ending == b.ending
    decreases n
  {
    hide Size;
    hide Meaning;
    hide SameNib;
    if n > 0 {
      SameCode(d, k, e, m, n);
      if Size(d, k) <= n && Meaning(d, k).Some? {
        SameAfter(d, k, e, m, n, Size(d, k));
        SameParse(d, k + Size(d, k), e, m + Size(d, k), n - Size(d, k));
      }
    }
  }

  lemma SliceSame(d: seq<Byte>, i: nat, end: nat)
    requires i <= end <= |d|
    ensures Same(d, 2 * i, d[i..end], 0, 2 * (end - i))
  {
    forall j: nat | j < 2 * (end - i) ensures SameNib(d, 2 * i, d[i..end], 0, j) {
      assert (2 * i + j) / 2 == i + j / 2;
    }
  }

  lemma PrefixSame(d: seq<Byte>, post: seq<Byte>, k: nat)
    requires k <= 2 * |d|
    ensures Same(d + post, k, d, k, 2 * |d| - k)
  {
  }

  /** The two decoders agree on every string whose codes do not go over its end: the runs and the byte
      where they stop; otherwise the half byte decoder goes on behind the end, and the other gives up. */
  lemma DecodersAgreeOnString(d: seq<Byte>, i: nat, n: nat)
    requires i + n + 2 <= |d|
    ensures var half, bits := Loose(d, 2 * i, 2 * (i + n)), Parse(d[i..i + n], 0, 2 * n);
      if bits.ending.Broken? then half.stop > 2 * (i + n) && bits.runs <= half.runs
      else half.runs == bits.runs && Aligned(half.stop) == i + Aligned(bits.stop)
  {
    hide Parse;
    hide Loose;
    hide Same;
    LooseIsParse(d, 2 * i, 2 * (i + n));
    SliceSame(d, i, i + n);
    SameParse(d, 2 * i, d[i..i + n], 0, 2 * n);
  }

  /** The longest code begins in the last byte of the string: the half byte decoder takes two bytes more
      for it, the other one gives up. */
  lemma CodeCutOff()
    ensures var d: seq<Byte> := [0x0F, 0x12, 0x30];
      && Loose(d, 0, 2) == Parsed([Run(43, 3)], 5, Exhausted)
      && Parse(d[..1], 0, 2) == Parsed([], 0, Broken)
  {
    var d: seq<Byte> := [0x0F, 0x12, 0x30];
    assert Loose(d, 5, 2) == Parsed([], 5, Exhausted);
  }

  /** On pictures encoded line by line both decoders draw the picture, whatever surrounds it. */
  lemma DecodersDraw(lines: seq<seq<Run>>, pre: seq<Byte>, post: seq<Byte>)
    requires LinesHaveCodes(lines) && lines != [] && |post| >= |EncodeLines(lines)| + 1
    ensures var d, e := pre + EncodeLines(lines) + post, EncodeLines(lines);
      && NibbleItems(d, |pre|, |pre| + |e|, |e|) == Drawn(lines)
      && BitItems(e, 0) == BitResult(Drawn(lines), true)
  {
    hide EncodeLines;
    hide Proper;
    hide Items;
    hide Drawn;
    hide NibbleItems;
    hide BitItems;
    var e := EncodeLines(lines);
    LinesRoundTrip([], lines);
    assert [] + e == e;
    BitItemsAreItems(e, 0);
    LinesRoundTrip(pre, lines);
    ProperPrefix(pre + e, post, |pre|);
    SomeBytes(lines);
    NibbleItemsAreItems(pre + e + post, |pre|, |pre| + |e|, |e|);
  }

  lemma SomeBytes(lines: seq<seq<Run>>)
    requires LinesHaveCodes(lines) && lines != []
    ensures |EncodeLines(lines)| >= 1
  {
    LineWithin(lines);
  }

  lemma {:induction false} ProperPrefix(d: seq<Byte>, post: seq<Byte>, i: nat)
    requires Proper(d, i, |d|)
    ensures Proper(d + post, i, |d|) && Items(d + post, i, |d|) == Items(d, i, |d|)
    decreases |d| - i
  {
    if i < |d| {
      if d[i] == END_OF_LINE {
        ProperPrefix(d, post, i + 1);
      } else {
        ParsePrefix(d, post, 2 * (i + 1));
        ProperPrefix(d, post, Aligned(Parse(d, 2 * (i + 1), 2 * |d|).stop));
      }
    }
  }

  lemma ParsePrefix(d: seq<Byte>, post: seq<Byte>, k: nat)
    ensures Parse(d + post, k, 2 * |d|) == Parse(d, k, 2 * |d|)
  {
    hide Same;
    if k < 2 * |d| {
      PrefixSame(d, post, k);
      SameParse(d + post, k, d, k, 2 * |d| - k);
    }
  }

  // Steps of the loops.

  /** Some runs have been seen, the rest is to come. */
  predicate Tail(all: Parsed, seen: seq<Run>, rest: Parsed) {
    all.runs == seen + rest.runs && all.stop == rest.stop && all.ending == rest.ending
  }

  lemma PlotsOfNone()
    ensures Plots([]) == []
  {
  }

  lemma PlotsOfOneMore(seen: seq<Run>, run: Run)
    ensures Plots(seen + [run]) == Plots(seen) + [Plot(run)]
  {
  }

  lemma LooseStep(d: seq<Byte>, k: nat, limit: nat)
    requires limit + 4 <= 2 * |d| && k < limit
    ensures var all := Loose(d, k, limit);
      match Meaning(d, k)
      case None => all.runs == [] && all.stop == k + Size(d, k)
      case Some(run) =>
        forall was, seen :: Tail(was, seen, all) ==> Tail(was, seen + [run], Loose(d, k + Size(d, k), limit))
  {
  }

  lemma LooseEnd(d: seq<Byte>, k: nat, limit: nat)
    requires limit + 4 <= 2 * |d| && k >= limit
    ensures Loose(d, k, limit) == Parsed([], k, Exhausted)
  {
  }

  lemma ParseStep(d: seq<Byte>, k: nat, limit: nat)
    requires limit <= 2 * |d| && k < limit
    ensures var all := Parse(d, k, limit);
      if k + Size(d, k) > limit then all == Parsed([], k, Broken)
      else match Meaning(d, k)
      case None => all == Parsed([], k + Size(d, k), Terminated)
      case Some(run) =>
        forall was, seen :: Tail(was, seen, all) ==> Tail(was, seen + [run], Parse(d, k + Size(d, k), limit))
  {
  }

  lemma ParseEnd(d: seq<Byte>, limit: nat)
    requires limit <= 2 * |d|
    ensures Parse(d, limit, limit) == Parsed([], limit, Exhausted)
  {
  }

  /** The half byte decoder: a place in a buffer and what was plotted. */
  class NibbleDecoder {
    const buf: seq<Byte>
    var i: nat
    var nibbleFlag: nat
    var plotted: seq<Item>

    ghost function Pos(): nat
      reads this
    {
      2 * i + nibbleFlag
    }

    constructor (data: seq<Byte>)
      ensures buf == data && i == 0 && nibbleFlag == 0 && plotted == []
    {
      buf, i, nibbleFlag, plotted := data, 0, 0, [];
    }

    method NextNibble() returns (x: Nibble)
      requires i < |buf| && nibbleFlag < 2
      modifies this`i, this`nibbleFlag
      ensures x == Nib(buf, old(Pos())) && Pos() == old(Pos()) + 1 && nibbleFlag < 2
    {
      if nibbleFlag == 0 {
        x := buf[i] / 16;
        nibbleFlag := 1;
      } else {
        x := buf[i] % 16;
        i := i + 1;
        nibbleFlag := 0;
      }
    }

    method Draw(length: nat, colour: nat)
      modifies this`plotted
      ensures plotted == old(plotted) + [Plot(Run(length, colour))]
    {
      plotted := plotted + [Plot(Run(length, colour))];
    }

    /** One code; false at the end of the string. */
    method DecodeCode() returns (more: bool)
      requires i + 3 <= |buf| && nibbleFlag < 2
      modifies this`i, this`nibbleFlag, this`plotted
      ensures Pos() == old(Pos()) + Size(buf, old(Pos())) && nibbleFlag < 2
      ensures more == Meaning(buf, old(Pos())).Some?
      ensures plotted == old(plotted) + if more then [Plot(Meaning(buf, old(Pos())).value)] else []
    {
      hide Nib;
      var nextBits := NextNibble();
      if nextBits != 0 {
        Draw(1, nextBits);
        return true;
      }
      var data := NextNibble();
      if data / 8 == 0 {
        var runLength: nat := data % 8;
        if runLength == 0 {
          return false;
        }
        Draw(runLength + 2, 0);
      } else if data / 4 % 2 == 0 {
        var runLength: nat := data % 4;
        var pixelCode := NextNibble();
        Draw(runLength + 4, pixelCode);
      } else if data % 4 == 0 {
        Draw(1, 0);
      } else if data % 4 == 1 {
        Draw(2, 0);
      } else if data % 4 == 2 {
        var runLength: nat := NextNibble();
        var pixelCode := NextNibble();
        Draw(runLength + 9, pixelCode);
      } else {
        var high: nat := NextNibble();
        var low: nat := NextNibble();
        var pixelCode := NextNibble();
        Draw(16 * high + low + 25, pixelCode);
      }
      return true;
    }

    method Decode4BitPixelCodeString(n: nat)
      requires i + n + 2 <= |buf|
      modifies this`i, this`nibbleFlag, this`plotted
      ensures nibbleFlag == 0
      ensures var r := Loose(buf, 2 * old(i), 2 * (old(i) + n));
        plotted == old(plotted) + Plots(r.runs) && i == Aligned(r.stop)
    {
      hide Size;
      hide Meaning;
      hide Loose;
      hide Plots;
      nibbleFlag := 0;
      var j := i + n;
      ghost var all, seen: seq<Run> := Loose(buf, 2 * i, 2 * j), [];
      PlotsOfNone();
      while i < j
        invariant nibbleFlag < 2 && Pos() <= 2 * j + 4
        invariant plotted == old(plotted) + Plots(seen)
        invariant Tail(all, seen, Loose(buf, Pos(), 2 * j))
        decreases 2 * j + 4 - Pos()
      {
        ghost var k := Pos();
        ghost var code := Meaning(buf, k);
        LooseStep(buf, k, 2 * j);
        var more := DecodeCode();
        if !more {
          break;
        }
        PlotsOfOneMore(seen, code.value);
        seen := seen + [code.value];
      }
      if i >= j {
        LooseEnd(buf, Pos(), 2 * j);
      }
      assert seen + [] == seen;
      if nibbleFlag == 1 {
        i := i + 1;
        nibbleFlag := 0;
      }
    }

    method ProcessPixelDataSubBlock(n: nat)
      requires 1 <= n && i + 2 * n + 1 <= |buf|
      modifies this`i, this`nibbleFlag, this`plotted
      ensures plotted == old(plotted) + NibbleItems(buf, old(i), old(i) + n, n) && i == old(i) + n
    {
      var j := i + n;
      ghost var rest := NibbleItems(buf, i, j, n);
      while i < j
        invariant old(plotted) + rest == plotted + NibbleItems(buf, i, j, n)
        decreases j - i
      {
        var dataType := buf[i];
        i := i + 1;
        if dataType == 0x11 {
          Decode4BitPixelCodeString(n - 1);
        } else if dataType == 0xF0 {
          plotted := plotted + [NewLine];
        }
      }
      i := j;
    }
  }

  /** The bit stream decoder. A field that goes over the end makes it give up, which is result None. */
  class BitStream {
    const data: seq<Byte>
    var pos: nat
    const end: nat
    var plotted: seq<Item>

    ghost predicate Valid()
    {
      end == 8 * |data|
    }

    constructor (s: seq<Byte>)
      ensures Valid() && data == s && pos == 0 && plotted == []
    {
      data, pos, end, plotted := s, 0, 8 * |s|, [];
    }

    method GetBits(n: nat) returns (r: Option<nat>)
      requires Valid() && 1 <= n <= 8
      modifies this`pos
      ensures r.None? <==> old(pos) + n > end
      ensures r.None? ==> pos == old(pos)
      ensures r.Some? ==> pos == old(pos) + n && r.value == Field(data, old(pos), n)
    {
      hide Field;
      hide Pow2;
      if pos + n > end {
        return None;
      }
      var at := pos;
      pos := at + n;
      var bytePos, bitPos := at / 8, at % 8;
      var value: nat;
      if bitPos + n > 8 {
        var high: nat, low: nat := data[bytePos], data[bytePos + 1];
        value := (256 * high + low) * Pow2(bitPos);
        WindowBits(data, at, n, low);
        ShiftedIsMiddle(256 * high + low, bitPos, n);
      } else {
        var byte: nat := data[bytePos];
        value := byte * Pow2(bitPos + 8);
        WindowBits(data, at, n, 0);
        ShiftedIsMiddle(256 * byte, bitPos, n);
        ByteShift(byte, bitPos);
      }
      var field := Quot(value % 0x10000, Pow2(16 - n));
      return Some(field);
    }

    method GetNibble() returns (r: Option<nat>)
      requires Valid() && pos % 4 == 0
      modifies this`pos
      ensures r.None? <==> old(pos) + 4 > end
      ensures r.Some? ==> pos == old(pos) + 4 && r.value == Nib(data, old(pos) / 4)
    {
      r := GetBits(4);
      if r.Some? {
        FieldIsNibble(data, old(pos) / 4);
      }
    }

    method GetTwoNibbles() returns (r: Option<nat>)
      requires Valid() && pos % 4 == 0
      modifies this`pos
      ensures r.None? <==> old(pos) + 8 > end
      ensures r.Some? ==> pos == old(pos) + 8 && r.value == 16 * Nib(data, old(pos) / 4) + Nib(data, old(pos) / 4 + 1)
    {
      r := GetBits(8);
      if r.Some? {
        FieldIsTwoNibbles(data, old(pos) / 4);
      }
    }
  
    method Draw(length: nat, colour: nat)
      modifies this`plotted
      ensures plotted == old(plotted) + [Plot(Run(length, colour))]
    {
      plotted := plotted + [Plot(Run(length, colour))];
    }

    /** One code; false at the end of the string, nothing if the data end within the code. */
    method ReadCode() returns (r: Option<bool>)
      requires Valid() && pos % 4 == 0 && pos < end
      modifies this`pos, this`plotted
      ensures r.None? <==> old(pos) / 4 + Size(data, old(pos) / 4) > 2 * |data|
      ensures r.None? ==> plotted == old(plotted)
      ensures r.Some? ==>
        && pos == 4 * (old(pos) / 4 + Size(data, old(pos) / 4))
        && r.value == Meaning(data, old(pos) / 4).Some?
        && plotted == old(plotted) + if r.value then [Plot(Meaning(data, old(pos) / 4).value)] else []
    {
      hide Nib;
      var runLength := 1;
      var field := GetNibble();
      if field.None? {
        return None;
      }
      var pixelCode := field.value;
      if pixelCode == 0 {
        field := GetNibble();
        if field.None? {
          return None;
        }
        runLength := field.value;
        if runLength == 0 {
          return Some(false);
        } else if runLength <= 7 {
          runLength := runLength + 2;
        } else if runLength <= 11 {
          runLength := runLength + 4 - 8;
          field := GetNibble();
          if field.None? {
            return None;
          }
          pixelCode := field.value;
        } else if runLength <= 13 {
          runLength := runLength + 1 - 12;
        } else if runLength == 14 {
          field := GetTwoNibbles();
          if field.None? {
            return None;
          }
          pixelCode := field.value;
          runLength := pixelCode / 16;
          runLength := runLength + 9;
          pixelCode := pixelCode % 16;
        } else {
          field := GetTwoNibbles();
          if field.None? {
            return None;
          }
          runLength := field.value;
          runLength := runLength + 25;
          field := GetNibble();
          if field.None? {
            return None;
          }
          pixelCode := field.value;
        }
      }
      Draw(runLength, pixelCode);
      return Some(true);
    }

    /** False if the data end within a code. */
    method FourBitPixelCodeString() returns (ok: bool)
      requires Valid() && pos % 8 == 0 && pos <= end
      modifies this`pos, this`plotted
      ensures var r := Parse(data, old(pos) / 4, 2 * |data|);
        && ok == !r.ending.Broken?
        && plotted == old(plotted) + Plots(r.runs)
        && (ok ==> pos == 4 * r.stop)
    {
      hide Size;
      hide Meaning;
      hide Parse;
      hide Plots;
      ghost var all, seen: seq<Run> := Parse(data, pos / 4, 2 * |data|), [];
      PlotsOfNone();
      while pos < end
        invariant pos % 4 == 0 && pos <= end
        invariant plotted == old(plotted) + Plots(seen)
        invariant Tail(all, seen, Parse(data, pos / 4, 2 * |data|))
        decreases end - pos
      {
        ghost var k := pos / 4;
        ParseStep(data, k, 2 * |data|);
        assert seen + [] == seen;
        var more := ReadCode();
        if more.None? {
          return false;
        }
        if !more.value {
          return true;
        }
        PlotsOfOneMore(seen, Meaning(data, k).value);
        seen := seen + [Meaning(data, k).value];
      }
      ParseEnd(data, 2 * |data|);
      assert seen + [] == seen;
      return true;
    }

    method RealignBitStream(n: nat)
      requires n > 0
      modifies this`pos
      ensures pos % n == 0 && old(pos) <= pos < old(pos) + n
    {
      var last := pos + (n - 1);
      Multiple(last, n);
      pos := last - last % n;
    }

    method PixelDataSubBlockLoop() returns (ok: bool)
      requires Valid() && pos == 0
      modifies this`pos, this`plotted
      ensures plotted == old(plotted) + BitItems(data, 0).items
      ensures ok == BitItems(data, 0).ok
    {
      hide Parse;
      hide Plots;
      hide Field;
      ghost var all := BitItems(data, 0);
      while pos < end
        invariant pos % 8 == 0 && pos <= end
        invariant var rest := BitItems(data, pos / 8);
          old(plotted) + all.items == plotted + rest.items && all.ok == rest.ok
        decreases end - pos
      {
        ghost var at := pos / 8;
        var dataType := GetBits(8);
        FieldIsByte(data, at);
        match dataType.value
        case 0x10 =>
        case 0x11 =>
          var more := FourBitPixelCodeString();
          if !more {
            return false;
          }
          RealignBitStream(8);
        case 0x12 =>
        case 0xF0 =>
          plotted := plotted + [NewLine];
        case _ =>
          return true;
      }
      return pos == end;
    }
  }

  lemma Multiple(x: nat, n: nat)
    requires n > 0
    ensures (x - x % n) % n == 0
  {
    Divided(x, n);
    Quotient(x - x % n, n, x / n, 0);
  }

  lemma ByteShift(x: nat, p: nat)
    ensures x * Pow2(p + 8) == 256 * x * Pow2(p)
  {
    PowAdd(p, 8);
    Powers();
    Associate(x, 256, Pow2(p));
  }
}
