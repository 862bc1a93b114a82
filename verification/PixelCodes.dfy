/** The 4-bit pixel code strings of DVB subtitles (EN 300 743 section 7.2.4): what a string and a
    pixel data sub-block mean, and the code that produces a list of runs. */
module PixelCodes {
  import opened Options

  type Byte = x: nat | x < 256

  type Nibble = x: nat | x < 16

  /** Pixels of one colour in a line. */
  datatype Run = Run(length: nat, colour: nat)

  /** Half byte k, the high half of a byte comes first. */
  function Nib(d: seq<Byte>, k: nat): Nibble
    requires k < 2 * |d|
  {
    if k % 2 == 0 then d[k / 2] / 16 else d[k / 2] % 16
  }

  // One code.

  /** The half bytes of the code at k, as far as its first two tell. */
  function Size(d: seq<Byte>, k: nat): (n: nat)
    requires k < 2 * |d|
    ensures 1 <= n <= 5
  {
    if Nib(d, k) != 0 then 1
    else if k + 1 >= 2 * |d| then 2
    else
      var s := Nib(d, k + 1);
      if s < 8 then 2 else if s < 12 then 3 else if s < 14 then 2 else if s == 14 then 4 else 5
  }

  /** What the code at k says, nothing if it ends the string. */
  function Meaning(d: seq<Byte>, k: nat): Option<Run>
    requires k < 2 * |d| && k + Size(d, k) <= 2 * |d|
  {
    if Nib(d, k) != 0 then Some(Run(1, Nib(d, k)))
    else
      var s := Nib(d, k + 1);
      if s == 0 then None
      else if s < 8 then Some(Run(s + 2, 0))
      else if s < 12 then Some(Run(s - 8 + 4, Nib(d, k + 2)))
      else if s < 14 then Some(Run(s - 12 + 1, 0))
      else if s == 14 then Some(Run(Nib(d, k + 2) + 9, Nib(d, k + 3)))
      else Some(Run(16 * Nib(d, k + 2) + Nib(d, k + 3) + 25, Nib(d, k + 4)))
  }

  // A string.

  /** How a string ends: with the code for that, with its data, or within a code. */
  datatype Ending = Terminated | Exhausted | Broken

  datatype Parsed = Parsed(runs: seq<Run>, stop: nat, ending: Ending)

  /** The string in the half bytes from k to the limit. */
  function Parse(d: seq<Byte>, k: nat, limit: nat): (r: Parsed)
    requires limit <= 2 * |d|
    ensures k <= r.stop && (k <= limit ==> r.stop <= limit)
    decreases limit - k
  {
    if k >= limit then Parsed([], k, Exhausted)
    else if k + Size(d, k) > limit then Parsed([], k, Broken)
    else if Meaning(d, k).None? then Parsed([], k + 2, Terminated)
    else
      var rest := Parse(d, k + Size(d, k), limit);
      Parsed([Meaning(d, k).value] + rest.runs, rest.stop, rest.ending)
  }

  /** The same where a code may go on behind the limit. */
  function Loose(d: seq<Byte>, k: nat, limit: nat): (r: Parsed)
    requires limit + 4 <= 2 * |d|
    ensures k <= r.stop && (k <= limit ==> r.stop <= limit + 4)
    ensures !r.ending.Broken? && (r.ending.Exhausted? ==> r.stop >= limit)
    decreases limit - k
  {
    if k >= limit then Parsed([], k, Exhausted)
    else if Meaning(d, k).None? then Parsed([], k + 2, Terminated)
    else
      var rest := Loose(d, k + Size(d, k), limit);
      Parsed([Meaning(d, k).value] + rest.runs, rest.stop, rest.ending)
  }

  /** Without a check of the limit within codes the result is the same exactly if no code goes over
      it; else the code over the limit is taken as well. */
  lemma {:induction false} LooseIsParse(d: seq<Byte>, k: nat, limit: nat)
    requires limit + 4 <= 2 * |d|
    ensures Parse(d, k, limit).ending.Broken? ==> Parse(d, k, limit).stop < limit
    ensures var a, b := Parse(d, k, limit), Loose(d, k, limit);
      if a.ending.Broken? then
        && b.stop > limit
        && a.runs <= b.runs && b.runs[|a.runs|..] == (match Meaning(d, a.stop) case None => [] case Some(run) => [run])
      else a == b
    decreases limit - k
  {
    if k < limit {
      if k + Size(d, k) <= limit {
        if Meaning(d, k).Some? {
          LooseIsParse(d, k + Size(d, k), limit);
        }
      } else {
        LooseOver(d, k, limit);
      }
    }
  }

  lemma LooseOver(d: seq<Byte>, k: nat, limit: nat)
    requires limit + 4 <= 2 * |d| && k < limit && k + Size(d, k) > limit
    ensures Loose(d, k, limit).stop == k + Size(d, k)
    ensures Loose(d, k, limit).runs == match Meaning(d, k) case None => [] case Some(run) => [run]
  {
    assert Loose(d, k + Size(d, k), limit) == Parsed([], k + Size(d, k), Exhausted);
  }

  /** What follows a terminated string does not matter. */
  lemma {:induction false} LimitBehindEnd(d: seq<Byte>, k: nat, limit: nat, more: nat)
    requires limit <= more && more <= 2 * |d| && Parse(d, k, limit).ending.Terminated?
    ensures Parse(d, k, more) == Parse(d, k, limit)
    decreases limit - k
  {
    if Meaning(d, k).Some? {
      LimitBehindEnd(d, k + Size(d, k), limit, more);
    }
  }

  /** Rounding up to whole bytes. */
  function Aligned(k: nat): nat {
    (k + 1) / 2
  }

  // Encoding.

  /** The runs for which there is a code. Others take two. */
  predicate HasCode(run: Run) {
    && run.colour < 16
    && if run.colour == 0 then 1 <= run.length <= 280
       else run.length == 1 || 4 <= run.length <= 7 || 9 <= run.length <= 280
  }

  predicate HaveCodes(runs: seq<Run>) {
    forall i :: 0 <= i < |runs| ==> HasCode(runs[i])
  }

  function Code(run: Run): (c: seq<Nibble>)
    requires HasCode(run)
    ensures 1 <= |c| <= 5
  {
    var n := run.length;
    if run.colour != 0 && n == 1 then [run.colour]
    else if run.colour == 0 && n <= 2 then [0, 11 + n]
    else if run.colour == 0 && n <= 9 then [0, n - 2]
    else if n <= 7 then [0, 8 + (n - 4), run.colour]
    else if n <= 24 then [0, 14, n - 9, run.colour]
    else [0, 15, (n - 25) / 16, (n - 25) % 16, run.colour]
  }

  function Codes(runs: seq<Run>): seq<Nibble>
    requires HaveCodes(runs)
  {
    if runs == [] then [] else Code(runs[0]) + Codes(runs[1..])
  }

  function Half(x: Nibble, y: Nibble): Byte {
    16 * x + y
  }

  /** Half bytes in bytes, with a zero in the last if need be. */
  function Pack(c: seq<Nibble>): (d: seq<Byte>)
    ensures |d| == Aligned(|c|)
    decreases |c|
  {
    if c == [] then [] else if |c| == 1 then [Half(c[0], 0)] else [Half(c[0], c[1])] + Pack(c[2..])
  }

  function EncodeString(runs: seq<Run>): seq<Byte>
    requires HaveCodes(runs)
  {
    Pack(Codes(runs) + [0, 0])
  }

  /** The half bytes from k on are those of c. */
  predicate Holds(d: seq<Byte>, k: nat, c: seq<Nibble>) {
    k + |c| <= 2 * |d| && forall i :: 0 <= i < |c| ==> Nib(d, k + i) == c[i]
  }

  lemma {:induction false} PackHolds(c: seq<Nibble>)
    ensures Holds(Pack(c), 0, c)
    decreases |c|
  {
    if |c| >= 2 {
      PackHolds(c[2..]);
      var d := Pack(c);
      assert d[1..] == Pack(c[2..]);
      forall i | 0 <= i < |c| ensures Nib(d, i) == c[i] {
        if i >= 2 {
          assert Nib(d, i) == Nib(d[1..], i - 2) == c[2..][i - 2];
        }
      }
    }
  }

  lemma HoldsWithin(pre: seq<Byte>, d: seq<Byte>, post: seq<Byte>, c: seq<Nibble>)
    requires Holds(d, 0, c)
    ensures Holds(pre + d + post, 2 * |pre|, c)
  {
    forall i | 0 <= i < |c| ensures Nib(pre + d + post, 2 * |pre| + i) == c[i] {
      assert (pre + d + post)[|pre| + i / 2] == d[i / 2];
      assert Nib(d, 0 + i) == c[i];
    }
  }

  lemma HoldsAt(d: seq<Byte>, k: nat, c: seq<Nibble>, i: nat)
    requires Holds(d, k, c) && i < |c|
    ensures k + i < 2 * |d| && Nib(d, k + i) == c[i]
  {
  }

  lemma HoldsSplit(d: seq<Byte>, k: nat, a: seq<Nibble>, b: seq<Nibble>)
    requires Holds(d, k, a + b)
    ensures Holds(d, k, a) && Holds(d, k + |a|, b)
  {
    forall i | 0 <= i < |a| ensures Nib(d, k + i) == a[i] {
      HoldsAt(d, k, a + b, i);
    }
    forall i | 0 <= i < |b| ensures Nib(d, k + |a| + i) == b[i] {
      HoldsAt(d, k, a + b, |a| + i);
    }
  }

  lemma CodeMeans(d: seq<Byte>, k: nat, run: Run)
    requires HasCode(run) && Holds(d, k, Code(run))
    ensures Size(d, k) == |Code(run)| && Meaning(d, k) == Some(run)
  {
    var c := Code(run);
    HoldsAt(d, k, c, 0);
    if |c| > 1 {
      HoldsAt(d, k, c, 1);
    }
    if |c| > 2 {
      HoldsAt(d, k, c, 2);
    }
    if |c| > 3 {
      HoldsAt(d, k, c, 3);
    }
    if |c| > 4 {
      HoldsAt(d, k, c, 4);
    }
  }

  lemma CodesHead(runs: seq<Run>)
    requires runs != [] && HaveCodes(runs)
    ensures HasCode(runs[0]) && HaveCodes(runs[1..])
    ensures Codes(runs) + [0, 0] == Code(runs[0]) + (Codes(runs[1..]) + [0, 0])
    ensures |Codes(runs)| == |Code(runs[0])| + |Codes(runs[1..])|
  {
    hide HasCode;
    hide Code;
  }

  lemma {:induction false} CodesParse(d: seq<Byte>, k: nat, limit: nat, runs: seq<Run>)
    requires HaveCodes(runs)
    requires limit <= 2 * |d| && Holds(d, k, Codes(runs) + [0, 0]) && k + |Codes(runs)| + 2 <= limit
    ensures Parse(d, k, limit) == Parsed(runs, k + |Codes(runs)| + 2, Terminated)
    decreases |runs|
  {
    hide Holds;
    hide HaveCodes;
    hide HasCode;
    hide Code;
    hide Nib;
    if runs == [] {
      HoldsAt(d, k, Codes(runs) + [0, 0], 0);
      HoldsAt(d, k, Codes(runs) + [0, 0], 1);
    } else {
      hide Codes;
      hide Size;
      hide Meaning;
      CodesHead(runs);
      HoldsSplit(d, k, Code(runs[0]), Codes(runs[1..]) + [0, 0]);
      CodeMeans(d, k, runs[0]);
      CodesParse(d, k + |Code(runs[0])|, limit, runs[1..]);
      assert runs == [runs[0]] + runs[1..];
    }
  }

  /** A string put anywhere in a block of data decodes to its runs, and ends where it ends. */
  lemma StringRoundTrip(pre: seq<Byte>, runs: seq<Run>, post: seq<Byte>)
    requires HaveCodes(runs)
    ensures var d, s := pre + EncodeString(runs) + post, EncodeString(runs);
      var r := Parse(d, 2 * |pre|, 2 * |d|);
      r.runs == runs && r.ending.Terminated? && Aligned(r.stop) == |pre| + |s|
  {
    var c := Codes(runs) + [0, 0];
    PackHolds(c);
    HoldsWithin(pre, Pack(c), post, c);
    var d := pre + EncodeString(runs) + post;
    CodesParse(d, 2 * |pre|, 2 * |d|, runs);
  }

  // A pixel data sub-block.

  datatype Item = Plot(run: Run) | NewLine

  const FOUR_BIT_STRING := 0x11
  const END_OF_LINE := 0xF0

  function Plots(runs: seq<Run>): (r: seq<Item>)
    ensures |r| == |runs|
  {
    seq(|runs|, i requires 0 <= i < |runs| => Plot(runs[i]))
  }

  /** The block from byte i to the end holds only strings that are terminated and ends of lines. */
  predicate Proper(d: seq<Byte>, i: nat, end: nat)
    requires end <= |d|
    decreases end - i
  {
    if i >= end then i == end
    else if d[i] == END_OF_LINE then Proper(d, i + 1, end)
    else
      && d[i] == FOUR_BIT_STRING
      && Parse(d, 2 * (i + 1), 2 * end).ending.Terminated?
      && Proper(d, Aligned(Parse(d, 2 * (i + 1), 2 * end).stop), end)
  }

  function Items(d: seq<Byte>, i: nat, end: nat): seq<Item>
    requires end <= |d| && Proper(d, i, end)
    decreases end - i
  {
    if i >= end then []
    else if d[i] == END_OF_LINE then [NewLine] + Items(d, i + 1, end)
    else
      var r := Parse(d, 2 * (i + 1), 2 * end);
      Plots(r.runs) + Items(d, Aligned(r.stop), end)
  }

  predicate LinesHaveCodes(lines: seq<seq<Run>>) {
    forall i :: 0 <= i < |lines| ==> HaveCodes(lines[i])
  }

  /** A line of subtitle pixels as a string and the end of line. */
  function EncodeLines(lines: seq<seq<Run>>): seq<Byte>
    requires LinesHaveCodes(lines)
  {
    if lines == [] then [] else
    [FOUR_BIT_STRING] + EncodeString(lines[0]) + [END_OF_LINE] + EncodeLines(lines[1..])
  }

  function Drawn(lines: seq<seq<Run>>): seq<Item> {
    if lines == [] then [] else Plots(lines[0]) + [NewLine] + Drawn(lines[1..])
  }

  lemma ProperLine(d: seq<Byte>, i: nat, end: nat, runs: seq<Run>, next: nat)
    requires end <= |d| && i < next < end && d[i] == FOUR_BIT_STRING && d[next] == END_OF_LINE
    requires Parse(d, 2 * (i + 1), 2 * end).ending.Terminated? && Aligned(Parse(d, 2 * (i + 1), 2 * end).stop) == next
    requires Parse(d, 2 * (i + 1), 2 * end).runs == runs
    requires Proper(d, next + 1, end)
    ensures Proper(d, i, end) && Items(d, i, end) == Plots(runs) + ([NewLine] + Items(d, next + 1, end))
  {
    hide Parse;
    assert Proper(d, next, end);
  }

  /** A line between what comes before and after it. */
  lemma LineShape(pre: seq<Byte>, x: Byte, s: seq<Byte>, y: Byte, rest: seq<Byte>, d: seq<Byte>)
    requires d == pre + ([x] + s + [y] + rest)
    ensures d == pre + [x] + s + ([y] + rest)
    ensures d == pre + [x] + s + [y] + rest
    ensures |pre| + 1 + |s| < |d| && d[|pre|] == x && d[|pre| + 1 + |s|] == y
  {
    assert [x] + s + [y] + rest == [x] + (s + ([y] + rest));
    assert pre + [x] + s + ([y] + rest) == pre + ([x] + (s + ([y] + rest)));
  }

  lemma LineWithin(lines: seq<seq<Run>>)
    requires LinesHaveCodes(lines) && lines != []
    ensures HaveCodes(lines[0]) && LinesHaveCodes(lines[1..])
    ensures EncodeLines(lines) == [FOUR_BIT_STRING] + EncodeString(lines[0]) + [END_OF_LINE] + EncodeLines(lines[1..])
  {
    hide HaveCodes;
    hide EncodeString;
  }

  /** A picture goes through the block unchanged. */
  lemma {:induction false} LinesRoundTrip(pre: seq<Byte>, lines: seq<seq<Run>>)
    requires LinesHaveCodes(lines)
    ensures var d := pre + EncodeLines(lines); Proper(d, |pre|, |d|) && Items(d, |pre|, |d|) == Drawn(lines)
    decreases |lines|
  {
    hide HaveCodes;
    hide LinesHaveCodes;
    hide EncodeString;
    hide Parse;
    if lines != [] {
      hide EncodeLines;
      hide Proper;
      hide Items;
      LineWithin(lines);
      var d, s := pre + EncodeLines(lines), EncodeString(lines[0]);
      LineShape(pre, FOUR_BIT_STRING, s, END_OF_LINE, EncodeLines(lines[1..]), d);
      StringRoundTrip(pre + [FOUR_BIT_STRING], lines[0], [END_OF_LINE] + EncodeLines(lines[1..]));
      LinesRoundTrip(pre + [FOUR_BIT_STRING] + s + [END_OF_LINE], lines[1..]);
      ProperLine(d, |pre|, |d|, lines[0], |pre| + 1 + |s|);
      DrawnHead(lines, Items(d, |pre| + 1 + |s| + 1, |d|));
    }
  }

  lemma DrawnHead(lines: seq<seq<Run>>, rest: seq<Item>)
    requires lines != [] && rest == Drawn(lines[1..])
    ensures Plots(lines[0]) + ([NewLine] + rest) == Drawn(lines)
  {
  }
}
