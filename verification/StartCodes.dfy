/** Where a video elementary stream is to be cut, independently of how it arrives.

    A start code is the byte sequence 00 00 01 followed by the code itself. The search is
    greedy from left to right and resumes behind the four bytes of a start code. A start
    code is recognized once a fifth byte is known. Positions in `blocked` are never
    recognized; they sit at places where data went missing.  */
module StartCodes {
  import opened Options

  type Byte = bv8

  /** What the block decoder gets: the start code of the block, its bytes from the start
      code prefix on, how many of them precede the first gap, and whether there is a gap. */
  datatype Block = Block(code: Byte, data: seq<Byte>, minBytesValid: nat, dataLost: bool)

  ghost predicate Prefix(s: seq<Byte>, p: int) {
    0 <= p && p + 3 <= |s| && s[p] == 0 && s[p + 1] == 0 && s[p + 2] == 1
  }

  ghost predicate Accepts(s: seq<Byte>, blocked: set<int>, p: int) {
    Prefix(s, p) && p + 4 < |s| && p !in blocked
  }

  /** The greedy search, from position q on. */
  ghost function Codes(s: seq<Byte>, blocked: set<int>, q: nat): seq<nat>
    decreases |s| - q
  {
    if q + 4 >= |s| then []
    else if Accepts(s, blocked, q) then [q] + Codes(s, blocked, q + 4)
    else Codes(s, blocked, q + 1)
  }

  /** No start code begins in lo .. hi, whatever bytes follow s. */
  ghost predicate Dead(s: seq<Byte>, blocked: set<int>, lo: int, hi: int) {
    forall p :: lo <= p < hi ==> p in blocked || (p + 3 <= |s| && !Prefix(s, p))
  }

  ghost predicate Spaced(codes: seq<nat>, n: nat) {
    && (forall i, j :: 0 <= i < j < |codes| ==> codes[i] + 4 <= codes[j])
    && (codes != [] ==> codes[|codes| - 1] <= n)
  }

  /** The cuts of the part of s before `scan`, without reference to a search procedure. */
  ghost predicate IsCut(s: seq<Byte>, blocked: set<int>, codes: seq<nat>, scan: int) {
    && (forall i :: 0 <= i < |codes| ==> Accepts(s, blocked, codes[i]))
    && Spaced(codes, |s|)
    && (forall i, j :: 0 <= i && j == i + 1 < |codes| ==> Dead(s, blocked, codes[i] + 4, codes[j]))
    && Dead(s, blocked, 0, if codes == [] then scan else codes[0])
    && (codes != [] ==>
          codes[|codes| - 1] + 4 <= scan && Dead(s, blocked, codes[|codes| - 1] + 4, scan))
  }

  lemma CutAdvances(s: seq<Byte>, blocked: set<int>, codes: seq<nat>, scan: nat, next: nat)
    requires IsCut(s, blocked, codes, scan) && scan <= next && Dead(s, blocked, scan, next)
    ensures IsCut(s, blocked, codes, next)
  {
  }

  lemma CutGrows(s: seq<Byte>, blocked: set<int>, codes: seq<nat>, scan: nat)
    requires IsCut(s, blocked, codes, scan) && Accepts(s, blocked, scan)
    ensures IsCut(s, blocked, codes + [scan], scan + 4) && Spaced(codes + [scan], |s|)
  {
  }

  /** More data, and blocking positions not yet decided, leave the cut as it is. */
  lemma CutExtends(s: seq<Byte>, t: seq<Byte>, blocked: set<int>, more: set<int>, codes: seq<nat>, scan: int)
    requires IsCut(s, blocked, codes, scan) && forall p :: p in more ==> p + 4 >= |s|
    ensures IsCut(s + t, blocked + more, codes, scan)
    ensures Spaced(codes, |s|) && Spaced(codes, |s + t|)
  {
    forall lo: int, hi: int | Dead(s, blocked, lo, hi) ensures Dead(s + t, blocked + more, lo, hi) {}
  }

  /** The third byte is neither 0 nor 1: none of three positions begins a start code. */
  lemma ThreeDead(s: seq<Byte>, blocked: set<int>, p: nat)
    requires p + 5 <= |s| && s[p + 2] != 0 && s[p + 2] != 1
    ensures Dead(s, blocked, p, p + 3)
  {
  }

  lemma OneDead(s: seq<Byte>, blocked: set<int>, p: nat)
    requires p + 5 <= |s| && !Prefix(s, p)
    ensures Dead(s, blocked, p, p + 1)
  {
  }

  lemma {:induction false} SkipDead(s: seq<Byte>, blocked: set<int>, lo: nat, hi: nat)
    requires lo <= hi && Dead(s, blocked, lo, hi)
    ensures Codes(s, blocked, lo) == Codes(s, blocked, hi)
    decreases hi - lo
  {
    if lo < hi && lo + 4 < |s| {
      SkipDead(s, blocked, lo + 1, hi);
    }
  }

  /** A cut that covers the stream is the result of the greedy search, and is unique. */
  lemma {:induction false} CutIsGreedy(s: seq<Byte>, blocked: set<int>, codes: seq<nat>, scan: nat)
    requires IsCut(s, blocked, codes, scan) && scan + 4 >= |s|
    ensures codes == Codes(s, blocked, 0)
  {
    hide Codes;
    CutFrom(s, blocked, codes, scan, 0);
    SkipDead(s, blocked, 0, if codes == [] then scan else codes[0]);
  }

  lemma CodesFromAccepted(s: seq<Byte>, blocked: set<int>, q: nat)
    requires Accepts(s, blocked, q)
    ensures Codes(s, blocked, q) == [q] + Codes(s, blocked, q + 4)
  {
  }

  lemma CodesFromEnd(s: seq<Byte>, blocked: set<int>, q: nat)
    requires q + 4 >= |s|
    ensures Codes(s, blocked, q) == []
  {
  }

  /** Where the cut goes on behind the i-th start code. */
  ghost function CutAt(codes: seq<nat>, scan: nat, i: nat): nat {
    if i < |codes| then codes[i] else scan
  }

  lemma CutBetween(s: seq<Byte>, blocked: set<int>, codes: seq<nat>, scan: nat, i: nat)
    requires IsCut(s, blocked, codes, scan) && i < |codes|
    ensures Accepts(s, blocked, codes[i]) && codes[i] + 4 <= CutAt(codes, scan, i + 1)
    ensures Dead(s, blocked, codes[i] + 4, CutAt(codes, scan, i + 1))
  {
    hide Accepts;
    hide Dead;
  }

  lemma {:induction false} CutFrom(s: seq<Byte>, blocked: set<int>, codes: seq<nat>, scan: nat, i: nat)
    requires IsCut(s, blocked, codes, scan) && scan + 4 >= |s| && i <= |codes|
    ensures Codes(s, blocked, CutAt(codes, scan, i)) == codes[i..]
    decreases |codes| - i
  {
    hide Accepts;
    hide Dead;
    hide Codes;
    hide IsCut;
    if i < |codes| {
      CutFrom(s, blocked, codes, scan, i + 1);
      CutBetween(s, blocked, codes, scan, i);
      SkipDead(s, blocked, codes[i] + 4, CutAt(codes, scan, i + 1));
      CodesFromAccepted(s, blocked, codes[i]);
      assert codes[i..] == [codes[i]] + codes[i + 1..];
    } else {
      CodesFromEnd(s, blocked, scan);
    }
  }

  /** The greedy search misses nothing: it finds every start code that does not begin inside
      another one it found, and finds start codes only. */
  lemma {:induction false} GreedyIsComplete(s: seq<Byte>, blocked: set<int>, q: nat, p: nat)
    requires q <= p
    ensures forall c :: c in Codes(s, blocked, q) ==> c >= q && Accepts(s, blocked, c)
    ensures Accepts(s, blocked, p) ==>
              exists c :: c in Codes(s, blocked, q) && c <= p < c + 4
    decreases |s| - q
  {
    if q + 4 < |s| {
      if Accepts(s, blocked, q) {
        var rest := Codes(s, blocked, q + 4);
        assert Codes(s, blocked, q) == [q] + rest;
        GreedyIsComplete(s, blocked, q + 4, if p < q + 4 then q + 4 else p);
        assert q in Codes(s, blocked, q);
        forall c | c in rest ensures c in Codes(s, blocked, q) {}
      } else if p > q {
        GreedyIsComplete(s, blocked, q + 1, p);
      } else {
        GreedyIsComplete(s, blocked, q + 1, q + 1);
      }
    }
  }

  /** The first gap at or behind lo. */
  ghost function FirstLoss(losses: seq<nat>, lo: nat): (r: Option<nat>)
    ensures r.None? ==> forall x :: x in losses ==> x < lo
    ensures r.Some? ==> r.value in losses && lo <= r.value
    ensures r.Some? ==> forall x :: x in losses && lo <= x ==> r.value <= x
  {
    if losses == [] then None
    else
      var r := FirstLoss(losses[1..], lo);
      assert losses == [losses[0]] + losses[1..];
      if losses[0] < lo || (r.Some? && r.value <= losses[0]) then r else Some(losses[0])
  }

  /** The block between the start codes at a and z. */
  ghost function MakeBlock(s: seq<Byte>, losses: seq<nat>, a: nat, z: nat): Block
    requires a + 4 <= z <= |s|
  {
    var gap := FirstLoss(losses, a + 1);
    if gap.None? || gap.value > z then Block(s[a + 3], s[a..z], z - a, false)
    else Block(s[a + 3], s[a..z], gap.value - a, true)
  }

  ghost function Blocks(s: seq<Byte>, losses: seq<nat>, codes: seq<nat>): seq<Block>
    requires Spaced(codes, |s|)
  {
    var k := |codes| - 1;
    if k < 1 then []
    else Blocks(s, losses, codes[..k]) + [MakeBlock(s, losses, codes[k - 1], codes[k])]
  }

  /** More data, and gaps behind the last cut, do not change the blocks already cut off. */
  lemma {:induction false} BlocksExtend(s: seq<Byte>, t: seq<Byte>, losses: seq<nat>, more: seq<nat>, codes: seq<nat>)
    requires Spaced(codes, |s|) && forall x :: x in more && codes != [] ==> x > codes[|codes| - 1]
    ensures Blocks(s + t, losses + more, codes) == Blocks(s, losses, codes)
    decreases |codes|
  {
    var k := |codes| - 1;
    if k >= 1 {
      BlocksExtend(s, t, losses, more, codes[..k]);
      MakeBlockExtends(s, t, losses, more, codes[k - 1], codes[k]);
    }
  }

  lemma MakeBlockExtends(s: seq<Byte>, t: seq<Byte>, losses: seq<nat>, more: seq<nat>, a: nat, z: nat)
    requires a + 4 <= z <= |s| && forall x :: x in more ==> x > z
    ensures MakeBlock(s + t, losses + more, a, z) == MakeBlock(s, losses, a, z)
  {
    var g, h := FirstLoss(losses, a + 1), FirstLoss(losses + more, a + 1);
    assert (s + t)[a..z] == s[a..z];
    if g.Some? {
      assert g.value in losses + more;
    }
    if h.Some? && h.value <= z {
      assert h.value in losses;
    }
  }

  ghost function Join(bs: seq<Block>): seq<Byte> {
    if bs == [] then [] else Join(bs[..|bs| - 1]) + bs[|bs| - 1].data
  }

  /** The blocks partition the stream between the first and the last start code. */
  lemma {:induction false} BlocksPartition(s: seq<Byte>, losses: seq<nat>, codes: seq<nat>)
    requires Spaced(codes, |s|) && codes != []
    ensures codes[0] <= codes[|codes| - 1]
    ensures Join(Blocks(s, losses, codes)) == s[codes[0]..codes[|codes| - 1]]
    decreases |codes|
  {
    hide MakeBlock;
    var k := |codes| - 1;
    if k > 0 {
      BlocksPartition(s, losses, codes[..k]);
      BlockData(s, losses, codes[k - 1], codes[k]);
      JoinSnoc(Blocks(s, losses, codes[..k]), MakeBlock(s, losses, codes[k - 1], codes[k]));
      SlicesMeet(s, codes[0], codes[k - 1], codes[k]);
    }
  }

  lemma BlockData(s: seq<Byte>, losses: seq<nat>, a: nat, z: nat)
    requires a + 4 <= z <= |s|
    ensures MakeBlock(s, losses, a, z).data == s[a..z]
  {
  }

  lemma JoinSnoc(bs: seq<Block>, b: Block)
    ensures Join(bs + [b]) == Join(bs) + b.data
  {
    assert (bs + [b])[..|bs|] == bs;
  }

  lemma SlicesMeet(s: seq<Byte>, a: nat, b: nat, c: nat)
    requires a <= b <= c <= |s|
    ensures s[a..b] + s[b..c] == s[a..c]
  {
  }
}
