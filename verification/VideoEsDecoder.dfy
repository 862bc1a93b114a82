/** The start code search of the video elementary stream decoder: data arrives in arbitrary
    pieces in a buffer that is compacted when it runs full. */
module VideoEsDecoder {
  import opened Options
  import opened StartCodes

  const CAPACITY: nat := 0x100000
  const UINT_MAX: nat := 0xFFFF_FFFF

  /** The positions at which no start code is recognized once n bytes arrived behind a gap
      at b, when the search stands at `scan`. */
  ghost function Barrier(b: nat, n: nat, scan: nat): (r: set<int>)
    ensures forall p :: p in r ==> b - 4 <= p < b && Bars(b, n, scan, p)
  {
    set p: int | b - 4 <= p < b && Bars(b, n, scan, p)
  }

  ghost predicate Bars(b: nat, n: nat, scan: nat, p: int) {
    BoundaryKept(b, n, scan) || p < scan
  }

  /** The search looks beyond the gap at once, or has passed it already. */
  predicate BoundaryKept(b: nat, n: nat, scan: nat) {
    scan < b + n - 4 || b <= scan
  }

  lemma BarrierIsDead(s: seq<Byte>, blocked: set<int>, b: nat, n: nat, scan: nat)
    requires BoundaryKept(b, n, scan) && Barrier(b, n, scan) <= blocked && b - 4 <= scan
    ensures Dead(s, blocked, scan, b)
  {
    forall p: int | scan <= p < b ensures p in blocked {
      assert Bars(b, n, scan, p);
      assert p in Barrier(b, n, scan);
    }
  }

  lemma SkipMaskTest(x: Byte)
    ensures x & 0xFE != 0 <==> x != 0 && x != 1
  {
  }

  lemma OrTest(x: Byte, y: Byte)
    ensures x | y != 0 <==> x != 0 || y != 0
  {
  }

  ghost predicate Buffered(data: seq<Byte>, stream: seq<Byte>, start: int) {
    0 <= start <= |stream| && data == stream[start..]
  }

  ghost predicate CutSoFar(stream: seq<Byte>, losses: seq<nat>, blocked: set<int>,
                                  codes: seq<nat>, scan: int)
  {
    && IsCut(stream, blocked, codes, scan)
    && Spaced(codes, |stream|)
    && forall x :: x in losses ==> x <= |stream|
  }

  ghost predicate Passed(blocked: set<int>, scan: int) {
    forall p :: p in blocked ==> p < scan
  }

  lemma PassedLater(blocked: set<int>, scan: int, later: int)
    requires Passed(blocked, scan) && scan <= later
    ensures Passed(blocked, later)
  {
  }

  /** Where the block begins that is not complete yet. */
  function LastCut(codes: seq<nat>): nat {
    if codes == [] then 0 else codes[|codes| - 1]
  }

  // What is known about the block that begins at `start`.
  ghost predicate Pending(stream: seq<Byte>, losses: seq<nat>, codes: seq<nat>,
                                 start: int, scan: int, lastStartCode: int, minBytesValid: nat)
  {
    && 0 <= start <= |stream| && minBytesValid <= UINT_MAX
    && start == LastCut(codes)
    && (if codes == [] then lastStartCode == -1
        else start + 4 <= |stream| && lastStartCode == stream[start + 3] as int)
    && GapKnown(start, losses, if codes == [] then 0 else start + 1, minBytesValid, scan)
  }

  ghost predicate GapKnown(start: int, losses: seq<nat>, lo: nat, minBytesValid: nat, scan: int) {
    var gap := FirstLoss(losses, lo);
    if gap.None? then minBytesValid == UINT_MAX
    else
      && minBytesValid == gap.value - start < UINT_MAX
      && forall x :: x in losses ==> x <= scan || x <= gap.value
  }

  lemma PendingStart(stream: seq<Byte>, losses: seq<nat>, codes: seq<nat>, start: int, scan: int,
                     lastStartCode: int, minBytesValid: nat)
    requires Pending(stream, losses, codes, start, scan, lastStartCode, minBytesValid)
    ensures start == LastCut(codes)
  {
  }

  lemma PendingLater(stream: seq<Byte>, losses: seq<nat>, codes: seq<nat>, start: int, scan: int,
                     lastStartCode: int, minBytesValid: nat, later: int)
    requires Pending(stream, losses, codes, start, scan, lastStartCode, minBytesValid) && scan <= later
    ensures Pending(stream, losses, codes, start, later, lastStartCode, minBytesValid)
  {
  }

  lemma GapMoves(losses: seq<nat>, start: nat, lo: nat, z: nat, minBytesValid: nat)
    requires start <= lo <= start + 1 && start <= z
    requires GapKnown(start, losses, lo, minBytesValid, z)
    ensures GapKnown(z, losses, z + 1, AfterCut(z - start, minBytesValid), z + 4)
  {
    var gap, next := FirstLoss(losses, lo), FirstLoss(losses, z + 1);
    if gap.Some? && gap.value > z {
      assert next.Some? && next.value == gap.value;
    } else {
      assert next.None?;
    }
  }

  /** A gap at b, the end of the stream: only the first gap of a block matters. */
  lemma GapArrives(losses: seq<nat>, start: nat, lo: nat, b: nat, minBytesValid: nat, scan: int, known: int)
    requires start <= lo <= start + 1 && lo <= b && b - start < UINT_MAX && scan <= known
    requires GapKnown(start, losses, lo, minBytesValid, scan)
    requires forall x :: x in losses ==> x <= b
    requires minBytesValid == UINT_MAX || b <= known
    ensures GapKnown(start, losses + [b], lo, if minBytesValid == UINT_MAX then b - start else minBytesValid, known)
  {
    var gap, next := FirstLoss(losses, lo), FirstLoss(losses + [b], lo);
    assert b in losses + [b];
    if gap.Some? {
      assert gap.value in losses + [b];
    }
  }

  /** The gap that is recorded when data arrives: none if there is no gap, or if the boundary
      is not kept and another gap is pending. */
  ghost function NewLoss(b: nat, n: nat, dataLost: bool, minBytesValid: nat, scan: nat): seq<nat> {
    if dataLost && (minBytesValid == UINT_MAX || BoundaryKept(b, n, scan)) then [b] else []
  }

  /** The positions that become blocked when data arrives. */
  ghost function NewlyBlocked(b: nat, n: nat, dataLost: bool, scan: nat): set<int> {
    if dataLost then Barrier(b, n, scan) else {}
  }

  /** All gaps but the first one of the current block lie before this position. */
  ghost function Known(b: nat, n: nat, dataLost: bool, scan: nat): nat {
    if dataLost && BoundaryKept(b, n, scan) && scan < b then b else scan
  }

  lemma NewLossProps(b: nat, n: nat, dataLost: bool, minBytesValid: nat, scan: nat)
    ensures forall x :: x in NewLoss(b, n, dataLost, minBytesValid, scan) ==> x == b
    ensures forall p :: p in NewlyBlocked(b, n, dataLost, scan) ==>
                          b - 4 <= p < b && p < Known(b, n, dataLost, scan)
  {
  }

  lemma PendingExtends(stream: seq<Byte>, buf: seq<Byte>, losses: seq<nat>, codes: seq<nat>, start: int,
                       scan: nat, lastStartCode: int, minBytesValid: nat, dataLost: bool)
    requires Pending(stream, losses, codes, start, scan, lastStartCode, minBytesValid)
    requires forall x :: x in losses ==> x <= |stream|
    requires |stream| - start < UINT_MAX && scan <= |stream|
    ensures var b, n := |stream|, |buf|;
            Pending(stream + buf, losses + NewLoss(b, n, dataLost, minBytesValid, scan), codes, start,
                    Known(b, n, dataLost, scan), lastStartCode,
                    if dataLost && minBytesValid >= UINT_MAX then b - start else minBytesValid)
  {
    var b, n := |stream|, |buf|;
    if NewLoss(b, n, dataLost, minBytesValid, scan) != [] {
      GapArrives(losses, start, if codes == [] then 0 else start + 1, b, minBytesValid, scan,
                 Known(b, n, dataLost, scan));
    } else {
      assert losses + [] == losses;
    }
  }

  lemma MoreData(stream: seq<Byte>, buf: seq<Byte>, losses: seq<nat>, blocked: set<int>, codes: seq<nat>,
                 start: int, scan: nat, lastStartCode: int, minBytesValid: nat, dataLost: bool)
    requires CutSoFar(stream, losses, blocked, codes, scan) && Passed(blocked, scan)
    requires Pending(stream, losses, codes, start, scan, lastStartCode, minBytesValid)
    requires |stream| - start < UINT_MAX && scan <= |stream|
    ensures var b, n := |stream|, |buf|;
            var losses' := losses + NewLoss(b, n, dataLost, minBytesValid, scan);
            var blocked' := blocked + NewlyBlocked(b, n, dataLost, scan);
            && CutSoFar(stream + buf, losses', blocked', codes, scan)
            && Passed(blocked', Known(b, n, dataLost, scan))
            && Pending(stream + buf, losses', codes, start, Known(b, n, dataLost, scan), lastStartCode,
                       if dataLost && minBytesValid >= UINT_MAX then b - start else minBytesValid)
            && Spaced(codes, |stream|) && Spaced(codes, |stream + buf|)
            && Blocks(stream + buf, losses', codes) == Blocks(stream, losses, codes)
  {
    var b, n := |stream|, |buf|;
    hide NewLoss;
    hide NewlyBlocked;
    hide IsCut;
    hide GapKnown;
    NewLossProps(b, n, dataLost, minBytesValid, scan);
    PendingExtends(stream, buf, losses, codes, start, scan, lastStartCode, minBytesValid, dataLost);
    CutExtends(stream, buf, blocked, NewlyBlocked(b, n, dataLost, scan), codes, scan);
    BlocksExtend(stream, buf, losses, NewLoss(b, n, dataLost, minBytesValid, scan), codes);
  }

  lemma BufferedExtends(data: seq<Byte>, stream: seq<Byte>, start: int, buf: seq<Byte>)
    requires Buffered(data, stream, start)
    ensures Buffered(data + buf, stream + buf, start)
  {
  }

  /** The valid bytes left behind a cut n bytes after the previous one. */
  function AfterCut(n: nat, minBytesValid: nat): nat {
    if n < minBytesValid < UINT_MAX then minBytesValid - n else UINT_MAX
  }

  lemma BlockAtCut(stream: seq<Byte>, losses: seq<nat>, start: nat, z: nat, minBytesValid: nat)
    requires start + 4 <= z <= |stream| && GapKnown(start, losses, start + 1, minBytesValid, z)
    ensures MakeBlock(stream, losses, start, z)
         == (if z - start < minBytesValid then Block(stream[start + 3], stream[start..z], z - start, false)
             else Block(stream[start + 3], stream[start..z], minBytesValid, true))
    requires z - start < UINT_MAX
  {
  }

  lemma ArraySplit(a: array<Byte>, i: nat, j: nat, k: nat)
    requires i <= j <= k <= a.Length
    ensures a[i..k] == a[i..j] + a[j..k]
    ensures a[i..j] == a[i..k][..j - i] && a[j..k] == a[i..k][j - i..]
  {
  }

  lemma BufferedParts(data: seq<Byte>, stream: seq<Byte>, start: int, n: nat)
    requires Buffered(data, stream, start) && n <= |data|
    ensures 0 <= start && start + |data| == |stream|
    ensures data[..n] == stream[start..start + n] && Buffered(data[n..], stream, start + n)
    ensures n + 3 < |data| ==> data[n..][3] == stream[start + n + 3]
  {
  }

  lemma CutDone(stream: seq<Byte>, losses: seq<nat>, blocked: set<int>, codes: seq<nat>, scan: nat)
    requires CutSoFar(stream, losses, blocked, codes, scan) && scan + 4 >= |stream|
    ensures codes == Codes(stream, blocked, 0) && Spaced(codes, |stream|)
  {
    CutIsGreedy(stream, blocked, codes, scan);
  }

  /** What EndBlock hands to the block decoder. */
  function Emitted(lastStartCode: int, data: seq<Byte>, minBytesValid: nat): seq<Block> {
    if lastStartCode < 0 || lastStartCode > 255 then []
    else if |data| < minBytesValid then [Block(lastStartCode as Byte, data, |data|, false)]
    else [Block(lastStartCode as Byte, data, minBytesValid, true)]
  }

  lemma NextBlock(stream: seq<Byte>, losses: seq<nat>, blocked: set<int>, codes: seq<nat>,
                  start: int, z: nat, lastStartCode: int, minBytesValid: nat)
    requires CutSoFar(stream, losses, blocked, codes, z) && Accepts(stream, blocked, z)
    requires Pending(stream, losses, codes, start, z, lastStartCode, minBytesValid)
    requires start <= z && z - start < UINT_MAX
    ensures CutSoFar(stream, losses, blocked, codes + [z], z + 4)
    ensures Pending(stream, losses, codes + [z], z, z + 4, stream[z + 3] as int, AfterCut(z - start, minBytesValid))
    ensures Spaced(codes, |stream|) && Spaced(codes + [z], |stream|)
    ensures Blocks(stream, losses, codes + [z])
         == Blocks(stream, losses, codes) + Emitted(lastStartCode, stream[start..z], minBytesValid)
    ensures -1 <= lastStartCode < 256 && minBytesValid <= UINT_MAX
  {
    hide Dead;
    hide GapKnown;
    CutGrows(stream, blocked, codes, z);
    GapMoves(losses, start, if codes == [] then 0 else start + 1, z, minBytesValid);
    if codes != [] {
      BlockAtCut(stream, losses, start, z, minBytesValid);
    }
    assert (codes + [z])[..|codes|] == codes;
  }

  class Decoder {
    // The buffer: unconsumed data is base[out..inp].
    const base: array<Byte>
    var inp: nat
    var out: nat
    // Valid bytes left in the current block before a gap, UINT_MAX if there is no gap.
    var minBytesValid: nat
    // Number of bytes behind `out` already searched.
    var skip: nat
    // The code of the current block, negative if none was received yet.
    var lastStartCode: int
    // The calls of the block decoder so far.
    var blocks: seq<Block>

    ghost var stream: seq<Byte>
    ghost var losses: seq<nat>
    ghost var blocked: set<int>
    ghost var codes: seq<nat>

    ghost function Scan(): int
      reads this
    {
      |stream| - inp + out + skip
    }

    ghost function Start(): int
      reads this
    {
      |stream| - inp + out
    }

    ghost predicate Valid()
      reads this, base
    {
      && base.Length == CAPACITY
      && out + skip <= inp <= CAPACITY && inp <= |stream| && Buffered(base[out..inp], stream, Start())
      && Scan() + 4 >= |stream|
      && CutSoFar(stream, losses, blocked, codes, Scan())
      && Pending(stream, losses, codes, Start(), Scan(), lastStartCode, minBytesValid)
      && blocks == Blocks(stream, losses, codes)
      && Passed(blocked, Scan())
    }

    constructor ()
      ensures Valid() && fresh(base)
      ensures stream == [] && losses == [] && blocked == {} && codes == [] && blocks == []
    {
      base := new Byte[CAPACITY];
      inp, out, skip := 0, 0, 0;
      minBytesValid := UINT_MAX;
      lastStartCode := -1;
      blocks := [];
      stream, losses, blocked, codes := [], [], {}, [];
    }

    /** Moves the unconsumed data to the start of the buffer if that is needed. */
    method MakeRoom(required: nat) returns (ok: bool)
      requires base.Length == CAPACITY && out <= inp <= CAPACITY
      modifies this`inp, this`out, base
      ensures out <= inp <= CAPACITY && inp <= old(inp)
      ensures ok <==> old(inp - out) + required <= CAPACITY
      ensures ok ==> inp + required <= CAPACITY
      ensures inp - out == old(inp - out) && base[out..inp] == old(base[out..inp])
      ensures !ok ==> inp == old(inp) && unchanged(base)
    {
      if inp + required > CAPACITY {
        var consumed := out;
        var unconsumed := inp - consumed;
        if required > CAPACITY - unconsumed {
          return false;
        }
        forall k | 0 <= k < unconsumed {
          base[k] := base[consumed + k];
        }
        inp := unconsumed;
        out := 0;
        assert base[out..inp] == old(base[out..inp]);
      }
      return true;
    }

    method Store(buf: seq<Byte>) returns (fits: bool)
      requires base.Length == CAPACITY && out <= inp <= CAPACITY
      modifies this`inp, this`out, base
      ensures fits <==> old(inp - out) + |buf| <= CAPACITY
      ensures out <= inp <= CAPACITY
      ensures fits ==> inp <= old(inp) + |buf| && inp - out == old(inp - out) + |buf|
      ensures fits ==> base[out..inp] == old(base[out..inp]) + buf
      ensures !fits ==> inp == old(inp) && out == old(out) && unchanged(base)
    {
      fits := MakeRoom(|buf|);
      if fits {
        ghost var pending := base[out..inp];
        forall k | 0 <= k < |buf| {
          base[inp + k] := buf[k];
        }
        assert base[out..inp] == pending;
        assert base[inp..inp + |buf|] == buf;
        inp := inp + |buf|;
        ArraySplit(base, out, inp - |buf|, inp);
      }
    }

    /** Stores the new data in the buffer and takes a note of the gap before it. */
    method Append(buf: seq<Byte>, dataLost: bool) returns (fits: bool)
      requires Valid()
      modifies this, base
      ensures fits <==> old(inp - out) + |buf| <= CAPACITY
      ensures !fits ==> Valid() && stream == old(stream) && losses == old(losses)
                        && blocked == old(blocked) && codes == old(codes) && blocks == old(blocks)
      ensures fits ==>
                && out + skip + |buf| <= inp <= CAPACITY && inp <= |stream| && Buffered(base[out..inp], stream, Start())
                && Scan() == old(Scan()) && codes == old(codes) && blocks == old(blocks)
                && CutSoFar(stream, losses, blocked, codes, Scan())
                && Pending(stream, losses, codes, Start(),
                           Known(|old(stream)|, |buf|, dataLost, Scan()), lastStartCode, minBytesValid)
                && Passed(blocked, Known(|old(stream)|, |buf|, dataLost, Scan()))
                && Spaced(codes, |stream|) && blocks == Blocks(stream, losses, codes)
                && stream == old(stream) + buf
                && blocked == old(blocked + NewlyBlocked(|stream|, |buf|, dataLost, Scan()))
                && losses == old(losses + NewLoss(|stream|, |buf|, dataLost, minBytesValid, Scan()))
    {
      hide IsCut;
      hide Dead;
      hide Spaced;
      hide Blocks;
      hide GapKnown;
      hide Barrier;
      hide NewLoss;
      hide Known;
      hide Passed;
      hide Pending;
      hide CutSoFar;
      hide Buffered;
      hide NewlyBlocked;
      ghost var start, scan, data := Start(), Scan(), base[out..inp];
      fits := Store(buf);
      if !fits {
        return;
      }
      ghost var more := NewlyBlocked(|stream|, |buf|, dataLost, scan);
      ghost var loss := NewLoss(|stream|, |buf|, dataLost, minBytesValid, scan);
      MoreData(stream, buf, losses, blocked, codes, start, scan, lastStartCode, minBytesValid, dataLost);
      BufferedExtends(data, stream, start, buf);
      if dataLost {
        if minBytesValid >= UINT_MAX {
          minBytesValid := inp - |buf| - out;
        }
      }
      stream, losses, blocked := stream + buf, losses + loss, blocked + more;
    }

    /** Searches for a start code from s on, first before e, and if that is not the end of
        the data, then behind the gap at e + 4. */
    method Search(s0: nat, e0: int, n: nat, ghost b: nat, ghost dataLost: bool)
      returns (found: bool, s: nat, e: int)
      requires base.Length == CAPACITY && out <= s0 <= inp <= CAPACITY && n <= inp <= |stream|
      requires Buffered(base[out..inp], stream, Start())
      requires CutSoFar(stream, losses, blocked, codes, |stream| - inp + s0)
      requires e0 == inp - 4 || AtGap(s0, e0, n, b, dataLost)
      requires Passed(blocked, if e0 == inp - 4 || b <= |stream| - inp + s0 then |stream| - inp + s0 else b)
      ensures out <= s0 <= s <= inp && (e == inp - 4 || (e == e0 && s == s0))
      ensures e != inp - 4 ==> !BoundaryKept(b, n, |stream| - inp + s) || b <= |stream| - inp + s
      ensures CutSoFar(stream, losses, blocked, codes, |stream| - inp + s)
      ensures e == inp - 4 ==> Passed(blocked, |stream| - inp + s)
      ensures found ==> s + 4 < inp && e == inp - 4 && Accepts(stream, blocked, |stream| - inp + s)
      ensures !found ==> s >= inp - 4
      ensures AtGap(s0, e0, n, b, dataLost) && e == inp - 4 ==> b <= |stream| - inp + s
    {
      hide IsCut;
      hide Dead;
      hide Spaced;
      hide Barrier;
      s, e := s0, e0;
      var eMax := inp - 4;
      while true
        invariant s0 <= s <= inp
        invariant e == eMax || (e == e0 && s == s0 && AtGap(s0, e0, n, b, dataLost))
        invariant CutSoFar(stream, losses, blocked, codes, |stream| - inp + s)
        invariant e == eMax ==> Passed(blocked, |stream| - inp + s)
        invariant AtGap(s0, e0, n, b, dataLost) && e == eMax ==> b <= |stream| - inp + s
        decreases eMax - e, inp - s
      {
        ghost var p := |stream| - inp + s;
        if s >= e {
          // Need more data.
          if s < eMax {
            // Go on behind the gap.
            BarrierIsDead(stream, blocked, b, n, p);
            CutAdvances(stream, blocked, codes, p, b);
            s := e + 4;
            e := eMax;
            continue;
          }
          return false, s, e;
        }
        SkipMaskTest(base[s + 2]);
        OrTest(base[s], base[s + 1]);
        assert forall k :: s <= k < inp ==> base[k] == stream[|stream| - inp + k];
        if base[s + 2] & 0xFE != 0 {
          // No prefix begins here or at the next two bytes.
          ThreeDead(stream, blocked, p);
          CutAdvances(stream, blocked, codes, p, p + 3);
          s := s + 3;
        } else if base[s] | base[s + 1] != 0 || base[s + 2] != 1 {
          OneDead(stream, blocked, p);
          CutAdvances(stream, blocked, codes, p, p + 1);
          s := s + 1;
        } else {
          return true, s, e;
        }
      }
    }

    ghost predicate AtGap(s: nat, e: int, n: nat, b: nat, dataLost: bool)
      reads this
    {
      var scan := |stream| - inp + s;
      && dataLost && n <= inp <= |stream| && e == inp - n - 4 <= s && b == |stream| - n
      && 0 <= scan <= b && e != inp - 4
      && Barrier(b, n, scan) <= blocked
    }

    /** Takes n more bytes of the stream; dataLost says that bytes are missing before them. */
    method Feed(buf: seq<Byte>, dataLost: bool) returns (fits: bool)
      requires Valid()
      modifies this, base
      ensures Valid()
      ensures fits <==> old(|stream| - LastCut(codes)) + |buf| <= CAPACITY
      ensures !fits ==> stream == old(stream) && losses == old(losses) && blocked == old(blocked)
                        && codes == old(codes) && blocks == old(blocks)
      ensures fits ==> stream == old(stream) + buf
      ensures fits ==> blocked == old(blocked + NewlyBlocked(|stream|, |buf|, dataLost, Scan()))
      ensures fits ==> losses == old(losses + NewLoss(|stream|, |buf|, dataLost, minBytesValid, Scan()))
      ensures codes == Codes(stream, blocked, 0)
      ensures Spaced(codes, |stream|) && blocks == Blocks(stream, losses, codes)
    {
      hide Buffered;
      hide Passed;
      hide CutSoFar;
      hide Spaced;
      hide Blocks;
      hide Barrier;
      hide Pending;
      hide Codes;
      PendingStart(stream, losses, codes, Start(), Scan(), lastStartCode, minBytesValid);
      fits := Append(buf, dataLost);
      if fits {
        FindBlocks(|buf|, dataLost);
      } else {
        CutDone(stream, losses, blocked, codes, Scan());
      }
    }

    /** Cuts off the blocks that are complete now that n more bytes are in the buffer. */
    method FindBlocks(n: nat, dataLost: bool)
      requires base.Length == CAPACITY && out + skip + n <= inp <= CAPACITY && inp <= |stream|
      requires Scan() + n + 4 >= |stream|
      requires Buffered(base[out..inp], stream, Start())
      requires CutSoFar(stream, losses, blocked, codes, Scan())
      requires Pending(stream, losses, codes, Start(), Known(|stream| - n, n, dataLost, Scan()),
                       lastStartCode, minBytesValid)
      requires Passed(blocked, Known(|stream| - n, n, dataLost, Scan()))
      requires dataLost && n > 0 ==> AtGap(out + skip, inp - 4 - n, n, |stream| - n, dataLost)
      requires Spaced(codes, |stream|) && blocks == Blocks(stream, losses, codes)
      modifies this`out, this`skip, this`minBytesValid, this`lastStartCode, this`blocks, this`codes
      ensures Valid()
      ensures codes == Codes(stream, blocked, 0) && Spaced(codes, |stream|)
    {
      hide Buffered;
      hide Passed;
      hide CutSoFar;
      hide Spaced;
      hide Blocks;
      hide Barrier;
      hide Pending;
      hide Codes;
      hide AtGap;
      ghost var b, scan := |stream| - n, Scan();
      var s := out + skip;
      var e := inp - 4;
      var eMax := e;
      ghost var known := Known(b, n, dataLost, scan);
      if dataLost {
        e := e - n;
      }
      while true
        invariant out <= s <= inp && e <= eMax
        invariant e == eMax || (AtGap(s, e, n, b, dataLost) && |stream| - inp + s == scan)
        invariant known == if e == eMax then |stream| - inp + s else Known(b, n, dataLost, scan)
        invariant Buffered(base[out..inp], stream, Start())
        invariant CutSoFar(stream, losses, blocked, codes, |stream| - inp + s)
        invariant Pending(stream, losses, codes, Start(), known, lastStartCode, minBytesValid)
        invariant Passed(blocked, known)
        invariant Spaced(codes, |stream|) && blocks == Blocks(stream, losses, codes)
        decreases eMax - e, inp - s
      {
        var found;
        PassedLater(blocked, known, if e == eMax || b <= known then known else b);
        found, s, e := Search(s, e, n, b, dataLost);
        PendingLater(stream, losses, codes, Start(), known, lastStartCode, minBytesValid, |stream| - inp + s);
        known := |stream| - inp + s;
        if !found {
          StopSearch(s);
          return;
        }

        EndBlock(s, known);
        s := s + 4;
        PassedLater(blocked, known, known + 4);
        known := known + 4;
      }
    }

    /** There is no start code before s, and not enough data to tell what is there. */
    method StopSearch(s: nat)
      requires base.Length == CAPACITY && out <= s <= inp <= CAPACITY && inp <= |stream| && s + 4 >= inp
      requires Buffered(base[out..inp], stream, Start())
      requires CutSoFar(stream, losses, blocked, codes, |stream| - inp + s)
      requires Pending(stream, losses, codes, Start(), |stream| - inp + s, lastStartCode, minBytesValid)
      requires Passed(blocked, |stream| - inp + s)
      requires Spaced(codes, |stream|) && blocks == Blocks(stream, losses, codes)
      modifies this`skip
      ensures Valid() && codes == Codes(stream, blocked, 0)
    {
      hide Buffered;
      hide Passed;
      hide CutSoFar;
      hide Spaced;
      hide Blocks;
      hide Pending;
      hide Codes;
      skip := s - out;
      CutDone(stream, losses, blocked, codes, Scan());
    }

    /** The start code found at s ends the current block and begins the next one. */
    method EndBlock(s: nat, ghost z: nat)
      requires base.Length == CAPACITY && out <= s && s + 4 < inp <= CAPACITY && inp <= |stream|
      requires z == |stream| - inp + s && Buffered(base[out..inp], stream, Start())
      requires CutSoFar(stream, losses, blocked, codes, z) && Accepts(stream, blocked, z)
      requires Pending(stream, losses, codes, Start(), z, lastStartCode, minBytesValid)
      requires Spaced(codes, |stream|) && blocks == Blocks(stream, losses, codes)
      modifies this`minBytesValid, this`out, this`lastStartCode, this`blocks, this`codes
      ensures out == s && codes == old(codes) + [z]
      ensures Buffered(base[out..inp], stream, Start())
      ensures CutSoFar(stream, losses, blocked, codes, z + 4)
      ensures Pending(stream, losses, codes, z, z + 4, lastStartCode, minBytesValid)
      ensures Spaced(codes, |stream|) && blocks == Blocks(stream, losses, codes)
    {
      hide CutSoFar;
      hide Accepts;
      hide Spaced;
      hide Blocks;
      hide Pending;
      hide Emitted;
      hide AfterCut;
      hide Buffered;
      ghost var data := base[out..inp];
      ghost var start := Start();
      NextBlock(stream, losses, blocked, codes, start, z, lastStartCode, minBytesValid);
      BufferedParts(data, stream, start, s - out);
      ArraySplit(base, out, s, inp);
      assert base[s + 3] == base[s..inp][3] == stream[z + 3];
      DecodeBlock(s);
      codes := codes + [z];
    }

    /** Passes the data before s to the block decoder; s is the next start code. */
    method DecodeBlock(s: nat)
      requires out <= s && s + 3 < inp <= base.Length == CAPACITY
      requires -1 <= lastStartCode < 256 && minBytesValid <= UINT_MAX
      modifies this`minBytesValid, this`out, this`lastStartCode, this`blocks
      ensures out == s && lastStartCode == base[s + 3] as int
      ensures minBytesValid == old(AfterCut(s - out, minBytesValid))
      ensures blocks == old(blocks + Emitted(lastStartCode, base[out..s], minBytesValid))
    {
      var nBytes := s - out;
      var valid := nBytes;
      var lost := false;
      if minBytesValid < UINT_MAX {
        if nBytes < minBytesValid {
          // The gap lies behind this block.
          minBytesValid := minBytesValid - nBytes;
        } else {
          valid := minBytesValid;
          minBytesValid := UINT_MAX;
          lost := true;
        }
      }
      if lastStartCode >= 0 {
        blocks := blocks + [Block(lastStartCode as Byte, base[out..s], valid, lost)];
      }
      out := s;
      lastStartCode := base[s + 3] as int;
    }
  }
  /** A piece of the stream as it arrives; `lost` says that bytes are missing before it. */
  datatype Piece = Piece(data: seq<Byte>, lost: bool)

  ghost function Stream(pieces: seq<Piece>): seq<Byte> {
    if pieces == [] then [] else Stream(pieces[..|pieces| - 1]) + pieces[|pieces| - 1].data
  }

  /** The places in the stream where bytes are missing. */
  ghost function Gaps(pieces: seq<Piece>): seq<nat> {
    if pieces == [] then []
    else
      var front := pieces[..|pieces| - 1];
      Gaps(front) + (if pieces[|pieces| - 1].lost then [|Stream(front)|] else [])
  }

  /** The four positions before each gap. */
  ghost function Straddling(gaps: seq<nat>): set<int> {
    if gaps == [] then {} else Straddling(gaps[..|gaps| - 1]) + FourBefore(gaps[|gaps| - 1])
  }

  ghost function FourBefore(b: nat): set<int> {
    {b - 4, b - 3, b - 2, b - 1}
  }

  lemma {:induction false} StraddlingIsNear(gaps: seq<nat>, p: int)
    ensures p in Straddling(gaps) <==> exists b :: b in gaps && b - 4 <= p < b
    decreases |gaps|
  {
    if gaps != [] {
      var k := |gaps| - 1;
      assert gaps == gaps[..k] + [gaps[k]];
      StraddlingIsNear(gaps[..k], p);
      if b :| b in gaps && b - 4 <= p < b {
        assert b in gaps[..k] || b == gaps[k];
      }
      if p in Straddling(gaps[..k]) {
        var b :| b in gaps[..k] && b - 4 <= p < b;
        assert b in gaps;
      } else if p in Straddling(gaps) {
        assert gaps[k] in gaps;
      }
    }
  }

  /** The block pending before piece i does not fit in the buffer together with that piece. */
  ghost predicate Overflows(pieces: seq<Piece>, i: nat)
    requires i < |pieces|
  {
    var s := Stream(pieces[..i]);
    var codes := Codes(s, Straddling(Gaps(pieces[..i])), 0);
    |s| - LastCut(codes) + |pieces[i].data| > CAPACITY
  }

  lemma OneMorePiece(pieces: seq<Piece>, i: nat)
    requires i < |pieces|
    ensures Stream(pieces[..i + 1]) == Stream(pieces[..i]) + pieces[i].data
    ensures Gaps(pieces[..i + 1])
         == Gaps(pieces[..i]) + (if pieces[i].lost then [|Stream(pieces[..i])|] else [])
    ensures Straddling(Gaps(pieces[..i + 1]))
         == Straddling(Gaps(pieces[..i]))
          + (if pieces[i].lost then FourBefore(|Stream(pieces[..i])|) else {})
  {
    assert pieces[..i + 1][..i] == pieces[..i];
    var gaps := Gaps(pieces[..i]);
    if pieces[i].lost {
      assert (gaps + [|Stream(pieces[..i])|])[..|gaps|] == gaps;
    } else {
      assert gaps + [] == gaps;
    }
  }

  /** The boundary of a gap is kept exactly if no start code can straddle it. */
  lemma BarrierIsComplete(b: nat, n: nat, scan: nat)
    ensures BoundaryKept(b, n, scan) <==> Barrier(b, n, scan) == FourBefore(b)
    ensures n >= 4 ==> BoundaryKept(b, n, scan)
    ensures n < 4 <= b ==> !BoundaryKept(b, n, b + n - 4)
  {
    if BoundaryKept(b, n, scan) {
      forall p: int | b - 4 <= p < b ensures p in Barrier(b, n, scan) {
        assert Bars(b, n, scan, p);
      }
    } else {
      assert b - 1 in FourBefore(b);
    }
  }

  /** Where the boundary is not kept a start code is recognized although bytes are missing
      in the middle of it: s ends in the first k bytes of 00 00 01. */
  lemma CodeAcrossGap(x: seq<Byte>, k: nat, n: nat, code: Byte, next: Byte, blocked: set<int>)
    requires 1 <= k <= 3 && n + k <= 4 && |x| !in blocked
    ensures var s, t := x + [0, 0, 1][..k], [0, 0, 1][k..] + [code, next];
            && !BoundaryKept(|s|, n, |x|)
            && Accepts(s + t, blocked + Barrier(|s|, n, |x|), |x|)
  {
    var s, t := x + [0, 0, 1][..k], [0, 0, 1][k..] + [code, next];
    assert s + t == x + [0, 0, 1, code, next];
    assert |x| !in Barrier(|s|, n, |x|) by {
      assert !Bars(|s|, n, |x|, |x|);
    }
  }

  /** Behind a gap with enough data exactly the four positions before it become blocked. */
  lemma GapOfPiece(b: nat, n: nat, lost: bool, minBytesValid: nat, scan: nat)
    requires lost ==> n >= 4
    ensures NewLoss(b, n, lost, minBytesValid, scan) == if lost then [b] else []
    ensures NewlyBlocked(b, n, lost, scan) == if lost then FourBefore(b) else {}
  {
    BarrierIsComplete(b, n, scan);
  }

  /** A start code of four bytes that arrived, together with the byte behind it, without a gap. */
  ghost predicate IntactCode(s: seq<Byte>, gaps: seq<nat>, p: nat) {
    Prefix(s, p) && p + 4 < |s| && forall b :: b in gaps ==> p < b - 4 || b <= p
  }

  lemma IntactIsAccepted(s: seq<Byte>, gaps: seq<nat>, p: nat)
    ensures IntactCode(s, gaps, p) <==> Accepts(s, Straddling(gaps), p)
  {
    StraddlingIsNear(gaps, p);
  }

  ghost predicate OnlyIntact(s: seq<Byte>, gaps: seq<nat>, codes: seq<nat>) {
    forall c :: c in codes ==> IntactCode(s, gaps, c)
  }

  /** Every intact start code is found, or begins inside one that is found. */
  ghost predicate AllIntact(s: seq<Byte>, gaps: seq<nat>, codes: seq<nat>) {
    forall p: nat :: IntactCode(s, gaps, p) ==> exists c :: c in codes && c <= p < c + 4
  }

  /** The stream is cut at all intact start codes and nowhere else, and the blocks put
      together are the stream from the first cut to the last. */
  ghost predicate CutsStream(s: seq<Byte>, gaps: seq<nat>, codes: seq<nat>, blocks: seq<Block>) {
    && Spaced(codes, |s|)
    && OnlyIntact(s, gaps, codes)
    && AllIntact(s, gaps, codes)
    && (codes != [] ==> Join(blocks) == s[codes[0]..codes[|codes| - 1]])
  }

  lemma GreedyFindsIntact(s: seq<Byte>, gaps: seq<nat>)
    ensures OnlyIntact(s, gaps, Codes(s, Straddling(gaps), 0))
    ensures AllIntact(s, gaps, Codes(s, Straddling(gaps), 0))
  {
    hide Accepts;
    hide IntactCode;
    hide Codes;
    hide Straddling;
    var codes := Codes(s, Straddling(gaps), 0);
    forall c | c in codes ensures IntactCode(s, gaps, c) {
      GreedyIsComplete(s, Straddling(gaps), 0, c);
      IntactIsAccepted(s, gaps, c);
    }
    forall p: nat | IntactCode(s, gaps, p) ensures exists c :: c in codes && c <= p < c + 4 {
      IntactIsAccepted(s, gaps, p);
      GreedyIsComplete(s, Straddling(gaps), 0, p);
    }
  }

  lemma GreedyCutsStream(s: seq<Byte>, gaps: seq<nat>)
    requires Spaced(Codes(s, Straddling(gaps), 0), |s|)
    ensures CutsStream(s, gaps, Codes(s, Straddling(gaps), 0), Blocks(s, gaps, Codes(s, Straddling(gaps), 0)))
  {
    hide OnlyIntact;
    hide AllIntact;
    hide Codes;
    hide Blocks;
    hide Join;
    hide Straddling;
    var codes := Codes(s, Straddling(gaps), 0);
    GreedyFindsIntact(s, gaps);
    if codes != [] {
      BlocksPartition(s, gaps, codes);
    }
  }

  /** At least four bytes follow each gap at once. */
  ghost predicate EnoughBehindGaps(pieces: seq<Piece>) {
    forall i :: 0 <= i < |pieces| && pieces[i].lost ==> |pieces[i].data| >= 4
  }

  /** Only positions just before a gap are blocked, and all gaps that are noted are gaps. */
  ghost predicate AtGaps(blocked: set<int>, noted: seq<nat>, gaps: seq<nat>) {
    blocked <= Straddling(gaps) && forall x :: x in noted ==> x in gaps
  }

  lemma NewAtGaps(pieces: seq<Piece>, i: nat, blocked: set<int>, noted: seq<nat>, minBytesValid: nat, scan: nat)
    requires i < |pieces| && AtGaps(blocked, noted, Gaps(pieces[..i]))
    ensures var b, n, lost := |Stream(pieces[..i])|, |pieces[i].data|, pieces[i].lost;
            AtGaps(blocked + NewlyBlocked(b, n, lost, scan), noted + NewLoss(b, n, lost, minBytesValid, scan),
                   Gaps(pieces[..i + 1]))
  {
    hide Stream;
    hide Straddling;
    OneMorePiece(pieces, i);
  }

  /** The blocks are those of the greedy search that does not recognize codes at `blocked`, with the gaps
      noted. */
  ghost predicate CutGreedily(s: seq<Byte>, gaps: seq<nat>, blocks: seq<Block>, blocked: set<int>, noted: seq<nat>) {
    var codes := Codes(s, blocked, 0);
    AtGaps(blocked, noted, gaps) && Spaced(codes, |s|) && blocks == Blocks(s, noted, codes)
  }

  /** However the stream is divided into pieces, the blocks are those of a greedy search of the whole
      stream, in which only positions just before a gap are blocked. If at least four bytes follow each gap
      at once all those are, so that the blocks depend only on the stream and on where bytes are missing. */
  method Decode(pieces: seq<Piece>) returns (ok: bool, blocks: seq<Block>)
    ensures ok ==>
              exists blocked, noted :: CutGreedily(Stream(pieces), Gaps(pieces), blocks, blocked, noted)
    ensures EnoughBehindGaps(pieces) ==>
              && (ok <==> forall i :: 0 <= i < |pieces| ==> !Overflows(pieces, i))
              && (ok ==>
                    var s, gaps := Stream(pieces), Gaps(pieces);
                    && CutGreedily(s, gaps, blocks, Straddling(gaps), gaps)
                    && CutsStream(s, gaps, Codes(s, Straddling(gaps), 0), blocks))
  {
    hide CutsStream;
    hide CutGreedily;
    hide Codes;
    hide Blocks;
    hide Spaced;
    hide Buffered;
    hide Pending;
    hide CutSoFar;
    hide Passed;
    hide Barrier;
    hide NewLoss;
    hide NewlyBlocked;
    hide FourBefore;
    hide AtGaps;
    hide EnoughBehindGaps;
    hide Stream;
    hide Gaps;
    hide Straddling;
    hide Overflows;
    var d := new Decoder();
    ghost var enough := EnoughBehindGaps(pieces);
    CutDone(d.stream, d.losses, d.blocked, d.codes, d.Scan());
    NothingBlocked();
    assert pieces[..0] == [];
    ok := true;
    var i := 0;
    while i < |pieces|
      invariant i <= |pieces| && d.Valid() && fresh(d) && fresh(d.base)
      invariant d.stream == Stream(pieces[..i]) && AtGaps(d.blocked, d.losses, Gaps(pieces[..i]))
      invariant enough ==> d.losses == Gaps(pieces[..i]) && d.blocked == Straddling(d.losses)
      invariant d.codes == Codes(d.stream, d.blocked, 0)
      invariant Spaced(d.codes, |d.stream|) && d.blocks == Blocks(d.stream, d.losses, d.codes)
      invariant enough ==> forall j :: 0 <= j < i ==> !Overflows(pieces, j)
    {
      if enough {
        EnoughBehind(pieces, i);
        GapOfPiece(|d.stream|, |pieces[i].data|, pieces[i].lost, d.minBytesValid, d.Scan());
      }
      NewAtGaps(pieces, i, d.blocked, d.losses, d.minBytesValid, d.Scan());
      OneMorePiece(pieces, i);
      OverflowsIf(pieces, i);
      ok := d.Feed(pieces[i].data, pieces[i].lost);
      if !ok {
        return false, [];
      }
      i := i + 1;
    }
    assert pieces[..i] == pieces;
    blocks := d.blocks;
    IsCutGreedily(d.stream, Gaps(pieces), blocks, d.blocked, d.losses);
    if enough {
      GreedyCutsStream(d.stream, d.losses);
    }
  }

  lemma EnoughBehind(pieces: seq<Piece>, i: nat)
    requires EnoughBehindGaps(pieces) && i < |pieces|
    ensures pieces[i].lost ==> |pieces[i].data| >= 4
  {
  }

  lemma OverflowsIf(pieces: seq<Piece>, i: nat)
    requires i < |pieces|
    ensures var s := Stream(pieces[..i]);
            var codes := Codes(s, Straddling(Gaps(pieces[..i])), 0);
            Overflows(pieces, i) <==> |s| - LastCut(codes) + |pieces[i].data| > CAPACITY
  {
    hide Stream;
    hide Gaps;
    hide Codes;
    hide Straddling;
  }

  lemma IsCutGreedily(s: seq<Byte>, gaps: seq<nat>, blocks: seq<Block>, blocked: set<int>, noted: seq<nat>)
    requires AtGaps(blocked, noted, gaps) && Spaced(Codes(s, blocked, 0), |s|)
    requires blocks == Blocks(s, noted, Codes(s, blocked, 0))
    ensures CutGreedily(s, gaps, blocks, blocked, noted)
  {
    hide Codes;
    hide Blocks;
    hide AtGaps;
  }

  lemma NothingBlocked()
    ensures Stream([]) == [] && Gaps([]) == [] && Straddling([]) == {}
    ensures AtGaps({}, [], [])
  {
  }
}
