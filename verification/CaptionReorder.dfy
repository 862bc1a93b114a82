/** Captions arrive with the pictures, in the order in which these are coded. An I or P picture is coded before
    the B pictures that are shown before it, so its captions are held back until the next I or P picture. */
module CaptionReorder {
  type Byte = bv8

  datatype Structure = TopField | BottomField | FramePicture | InvalidStructure
  datatype CodingType = IType | PType | BType | OtherType

  /** Caption data as it is passed to the caption decoder. */
  datatype CcData = CcData(pts: int, data: seq<Byte>)

  datatype Picture = Picture(coding: CodingType, structure: Structure, cc: CcData)

  const BUFFER_SIZE: nat := 128

  function Fit(cc: CcData): CcData {
    if |cc.data| <= BUFFER_SIZE then cc else cc.(data := cc.data[..BUFFER_SIZE])
  }

  /** What is held back. Bit 0 of `pictures` stands for a top field and bit 2 for a frame in
      `first`, bit 1 for a bottom field in `second`. */
  datatype Held = Held(pictures: bv8, first: CcData, second: CcData)

  class Decoder {
    var reorderPictures: bv8
    const reorderPts: array<int>
    const reorderNBytes: array<nat>
    const top: array<Byte>
    const bottom: array<Byte>
    // The calls of the caption decoder so far.
    var decoded: seq<CcData>

    ghost predicate Valid()
      reads this, reorderPts, reorderNBytes
    {
      && reorderPts.Length == reorderNBytes.Length == 2
      && top.Length == bottom.Length == BUFFER_SIZE && top != bottom
      && reorderNBytes[0] <= BUFFER_SIZE && reorderNBytes[1] <= BUFFER_SIZE
      && reorderPictures <= 4
    }

    ghost function View(): Held
      reads this, reorderPts, reorderNBytes, top, bottom
      requires Valid()
    {
      Held(reorderPictures, CcData(reorderPts[0], top[..reorderNBytes[0]]),
           CcData(reorderPts[1], bottom[..reorderNBytes[1]]))
    }

    constructor ()
      ensures Valid() && View().pictures == 0 && decoded == []
    {
      reorderPts := new int[2](_ => -1);
      reorderNBytes := new nat[2](_ => 0);
      top := new Byte[BUFFER_SIZE];
      bottom := new Byte[BUFFER_SIZE];
      reorderPictures := 0;
      decoded := [];
    }

    method DecodeFirst()
      requires Valid()
      modifies this`decoded
      ensures decoded == old(decoded) + [View().first]
    {
      decoded := decoded + [CcData(reorderPts[0], top[..reorderNBytes[0]])];
    }

    method DecodeSecond()
      requires Valid()
      modifies this`decoded
      ensures decoded == old(decoded) + [View().second]
    {
      decoded := decoded + [CcData(reorderPts[1], bottom[..reorderNBytes[1]])];
    }

    method StoreFirst(cc: CcData)
      requires Valid()
      modifies top, reorderPts, reorderNBytes
      ensures Valid() && View() == old(View()).(first := Fit(cc))
    {
      var n := if |cc.data| < BUFFER_SIZE then |cc.data| else BUFFER_SIZE;
      forall k | 0 <= k < n {
        top[k] := cc.data[k];
      }
      assert top[..n] == cc.data[..n] == Fit(cc).data;
      reorderNBytes[0] := n;
      reorderPts[0] := cc.pts;
    }

    method StoreSecond(cc: CcData)
      requires Valid()
      modifies bottom, reorderPts, reorderNBytes
      ensures Valid() && View() == old(View()).(second := Fit(cc))
    {
      var n := if |cc.data| < BUFFER_SIZE then |cc.data| else BUFFER_SIZE;
      forall k | 0 <= k < n {
        bottom[k] := cc.data[k];
      }
      assert bottom[..n] == cc.data[..n] == Fit(cc).data;
      reorderNBytes[1] := n;
      reorderPts[1] := cc.pts;
    }

    method ReorderDecode(structure: Structure, cc: CcData)
      requires Valid()
      modifies this`decoded, this`reorderPictures, top, bottom, reorderPts, reorderNBytes
      ensures Valid()
      ensures View() == Hold(old(View()), structure, cc)
      ensures decoded == old(decoded) + Released(old(View()), structure)
    {
      match structure
      case FramePicture =>
        if reorderPictures != 0 {
          if reorderPictures & 5 != 0 {
            // There is a first field, or a whole frame.
            DecodeFirst();
          }
          if reorderPictures & 2 != 0 {
            // There is a second field.
            DecodeSecond();
          }
        }
        StoreFirst(cc);
        reorderPictures := 4;
      case TopField =>
        if reorderPictures >= 3 {
          // There is a first field, or a whole frame.
          DecodeFirst();
          reorderPictures := reorderPictures & 2;
        }
        StoreFirst(cc);
        reorderPictures := reorderPictures | 1;
      case BottomField =>
        if reorderPictures >= 3 {
          if reorderPictures >= 4 {
            // Both fields are there.
            DecodeFirst();
          } else {
            // There is a second field.
            DecodeSecond();
          }
          reorderPictures := reorderPictures & 1;
        }
        StoreSecond(cc);
        reorderPictures := reorderPictures | 2;
      case InvalidStructure =>
    }

    /** One picture, in coded order. */
    method Feed(pic: Picture)
      requires Valid()
      modifies this`decoded, this`reorderPictures, top, bottom, reorderPts, reorderNBytes
      ensures Valid()
      ensures View() == Step(old(View()), pic)
      ensures decoded == old(decoded) + Output(old(View()), pic)
    {
      match pic.coding
      case IType =>
        ReorderDecode(pic.structure, pic.cc);
      case PType =>
        ReorderDecode(pic.structure, pic.cc);
      case BType =>
        // We must not decode B pictures until both fields of the following I or P picture
        // are buffered.
        if reorderPictures < 3 {
          reorderPictures := 0;
        } else {
          decoded := decoded + [pic.cc];
        }
      case OtherType =>
    }
  }

  // What the decoder does, as functions of what it holds.

  function Hold(h: Held, structure: Structure, cc: CcData): Held {
    match structure
    case FramePicture => h.(pictures := 4, first := Fit(cc))
    case TopField => h.(pictures := (if h.pictures >= 3 then h.pictures & 2 else h.pictures) | 1, first := Fit(cc))
    case BottomField => h.(pictures := (if h.pictures >= 3 then h.pictures & 1 else h.pictures) | 2, second := Fit(cc))
    case InvalidStructure => h
  }

  function Released(h: Held, structure: Structure): seq<CcData> {
    match structure
    case FramePicture =>
      (if h.pictures & 5 != 0 then [h.first] else []) + (if h.pictures & 2 != 0 then [h.second] else [])
    case TopField => if h.pictures >= 3 then [h.first] else []
    case BottomField => if h.pictures >= 4 then [h.first] else if h.pictures == 3 then [h.second] else []
    case InvalidStructure => []
  }

  function Step(h: Held, pic: Picture): Held {
    match pic.coding
    case IType => Hold(h, pic.structure, pic.cc)
    case PType => Hold(h, pic.structure, pic.cc)
    case BType => if h.pictures < 3 then h.(pictures := 0) else h
    case OtherType => h
  }

  function Output(h: Held, pic: Picture): seq<CcData> {
    match pic.coding
    case IType => Released(h, pic.structure)
    case PType => Released(h, pic.structure)
    case BType => if h.pictures < 3 then [] else [pic.cc]
    case OtherType => []
  }

  function Run(h: Held, pics: seq<Picture>): Held
    decreases |pics|
  {
    if pics == [] then h else Run(Step(h, pics[0]), pics[1..])
  }

  function Outputs(h: Held, pics: seq<Picture>): seq<CcData>
    decreases |pics|
  {
    if pics == [] then [] else Output(h, pics[0]) + Outputs(Step(h, pics[0]), pics[1..])
  }

  /** Only the combinations 0 to 4 of the three bits occur, whatever pictures arrive. */
  lemma {:induction false} OnlyFiveStates(h: Held, pics: seq<Picture>)
    requires h.pictures <= 4
    ensures Run(h, pics).pictures <= 4
    decreases |pics|
  {
    if pics != [] {
      assert Step(h, pics[0]).pictures <= 4;
      OnlyFiveStates(Step(h, pics[0]), pics[1..]);
    }
  }

  // A program in display order: an anchor, followed by groups of B pictures with the anchor
  // that follows them on the screen.

  /** An I or P picture: a frame, or two fields in the order they are displayed. */
  datatype Anchor =
    | Frame(intra: bool, cc: CcData)
    | Fields(topFirst: bool, intra: bool, cc: CcData, intra2: bool, cc2: CcData)

  datatype Group = Group(bs: seq<Picture>, anchor: Anchor)

  predicate AllB(pics: seq<Picture>) {
    forall i :: 0 <= i < |pics| ==> pics[i].coding == BType
  }

  predicate WellFormed(groups: seq<Group>) {
    forall i :: 0 <= i < |groups| ==> AllB(groups[i].bs)
  }

  function Coding(intra: bool): CodingType {
    if intra then IType else PType
  }

  function Pictures(a: Anchor): seq<Picture> {
    match a
    case Frame(intra, cc) => [Picture(Coding(intra), FramePicture, cc)]
    case Fields(topFirst, intra, cc, intra2, cc2) =>
      [Picture(Coding(intra), if topFirst then TopField else BottomField, cc),
       Picture(Coding(intra2), if topFirst then BottomField else TopField, cc2)]
  }

  /** Coded order: each anchor before the B pictures which it follows on the screen. */
  function Coded(first: Anchor, groups: seq<Group>): seq<Picture> {
    Pictures(first) + CodedGroups(groups)
  }

  function CodedGroups(groups: seq<Group>): seq<Picture> {
    if groups == [] then []
    else Pictures(groups[0].anchor) + groups[0].bs + CodedGroups(groups[1..])
  }

  function Captions(a: Anchor): seq<CcData> {
    match a
    case Frame(_, cc) => [Fit(cc)]
    case Fields(_, _, cc, _, cc2) => [Fit(cc), Fit(cc2)]
  }

  function BCaptions(bs: seq<Picture>): seq<CcData> {
    if bs == [] then [] else [bs[0].cc] + BCaptions(bs[1..])
  }

  /** The captions in display order, without those of the last anchor. */
  function Displayed(first: Anchor, groups: seq<Group>): seq<CcData>
    decreases |groups|
  {
    if groups == [] then []
    else Captions(first) + BCaptions(groups[0].bs) + Displayed(groups[0].anchor, groups[1..])
  }

  function LastAnchor(first: Anchor, groups: seq<Group>): Anchor {
    if groups == [] then first else groups[|groups| - 1].anchor
  }

  /** The field order of a does not conflict with the anchor that follows: a frame makes the
      top field come first, another field pair its own first field. */
  predicate Compatible(a: Anchor, next: Anchor) {
    a.Frame? || a.topFirst == (next.Frame? || next.topFirst)
  }

  predicate IsHeld(h: Held, a: Anchor) {
    match a
    case Frame(_, cc) => h.pictures == 4 && h.first == Fit(cc)
    case Fields(topFirst, _, cc, _, cc2) =>
      && h.pictures == 3
      && h.first == Fit(if topFirst then cc else cc2)
      && h.second == Fit(if topFirst then cc2 else cc)
  }

  function Swapped(s: seq<CcData>): seq<CcData> {
    if |s| == 2 then [s[1], s[0]] else s
  }

  lemma {:induction false} RunConcat(h: Held, p: seq<Picture>, q: seq<Picture>)
    ensures Run(h, p + q) == Run(Run(h, p), q)
    ensures Outputs(h, p + q) == Outputs(h, p) + Outputs(Run(h, p), q)
    decreases |p|
  {
    if p == [] {
      assert p + q == q;
    } else {
      assert (p + q)[1..] == p[1..] + q;
      RunConcat(Step(h, p[0]), p[1..], q);
    }
  }

  lemma {:induction false} RunBPictures(h: Held, bs: seq<Picture>)
    requires h.pictures >= 3 && AllB(bs)
    ensures Run(h, bs) == h && Outputs(h, bs) == BCaptions(bs)
    decreases |bs|
  {
    if bs != [] {
      RunBPictures(h, bs[1..]);
    }
  }

  lemma RunPictures(h: Held, a: Anchor)
    ensures var ps := Pictures(a);
            if |ps| == 1 then Run(h, ps) == Step(h, ps[0]) && Outputs(h, ps) == Output(h, ps[0])
            else
              && Run(h, ps) == Step(Step(h, ps[0]), ps[1])
              && Outputs(h, ps) == Output(h, ps[0]) + Output(Step(h, ps[0]), ps[1])
  {
    var ps := Pictures(a);
    var h1 := Step(h, ps[0]);
    if |ps| == 2 {
      assert ps[1..] == [ps[1]];
      assert Run(h1, ps[1..]) == Run(Step(h1, ps[1]), []);
      assert Outputs(h1, ps[1..]) == Output(h1, ps[1]) + Outputs(Step(h1, ps[1]), []);
    } else {
      assert Outputs(h, ps) == Output(h, ps[0]) + Outputs(h1, []);
    }
  }

  /** An anchor releases the previous one, and is held instead. */
  lemma RunAnchor(h: Held, a: Anchor, next: Anchor)
    requires IsHeld(h, a)
    ensures IsHeld(Run(h, Pictures(next)), next)
    ensures Outputs(h, Pictures(next)) == if Compatible(a, next) then Captions(a) else Swapped(Captions(a))
  {
    RunPictures(h, next);
  }

  /** What comes out in place of `Displayed`: incompatible field pairs are swapped. */
  function Emitted(first: Anchor, groups: seq<Group>): seq<CcData>
    decreases |groups|
  {
    if groups == [] then []
    else EmittedBy(first, groups[0]) + Emitted(groups[0].anchor, groups[1..])
  }

  function EmittedBy(held: Anchor, g: Group): seq<CcData> {
    (if Compatible(held, g.anchor) then Captions(held) else Swapped(Captions(held))) + BCaptions(g.bs)
  }

  lemma RunGroup(h: Held, first: Anchor, g: Group)
    requires IsHeld(h, first) && AllB(g.bs)
    ensures IsHeld(Run(h, Pictures(g.anchor) + g.bs), g.anchor)
    ensures Outputs(h, Pictures(g.anchor) + g.bs) == EmittedBy(first, g)
  {
    hide Pictures;
    hide Compatible;
    hide Run;
    hide Outputs;
    var h1 := Run(h, Pictures(g.anchor));
    RunConcat(h, Pictures(g.anchor), g.bs);
    RunAnchor(h, first, g.anchor);
    RunBPictures(h1, g.bs);
  }

  lemma {:induction false} RunGroups(h: Held, first: Anchor, groups: seq<Group>)
    requires IsHeld(h, first) && WellFormed(groups)
    ensures IsHeld(Run(h, CodedGroups(groups)), LastAnchor(first, groups))
    ensures Outputs(h, CodedGroups(groups)) == Emitted(first, groups)
    decreases |groups|
  {
    if groups != [] {
      hide Pictures;
      hide IsHeld;
      hide Run;
      hide Outputs;
      hide EmittedBy;
      var g := groups[0];
      RunGroup(h, first, g);
      RunConcat(h, Pictures(g.anchor) + g.bs, CodedGroups(groups[1..]));
      RunGroups(Run(h, Pictures(g.anchor) + g.bs), g.anchor, groups[1..]);
    }
  }

  lemma {:induction false} EmittedLength(first: Anchor, groups: seq<Group>)
    ensures |Emitted(first, groups)| == |Displayed(first, groups)|
    decreases |groups|
  {
    if groups != [] {
      EmittedLength(groups[0].anchor, groups[1..]);
    }
  }

  function AnchorAt(first: Anchor, groups: seq<Group>, i: nat): Anchor
    requires i <= |groups|
  {
    if i == 0 then first else groups[i - 1].anchor
  }

  /** No two successive anchors conflict, unless both fields carry the same data anyway. */
  predicate InOrder(first: Anchor, groups: seq<Group>) {
    forall i :: 0 <= i < |groups| ==> Harmless(AnchorAt(first, groups, i), groups[i].anchor)
  }

  predicate Harmless(a: Anchor, next: Anchor) {
    Compatible(a, next) || Fit(a.cc) == Fit(a.cc2)
  }

  lemma {:induction false} EmittedInOrder(first: Anchor, groups: seq<Group>)
    ensures Emitted(first, groups) == Displayed(first, groups) <==> InOrder(first, groups)
    decreases |groups|
  {
    if groups != [] {
      var a, rest := groups[0].anchor, groups[1..];
      EmittedInOrder(a, rest);
      EmittedLength(a, rest);
      var out := if Compatible(first, a) then Captions(first) else Swapped(Captions(first));
      var bs := BCaptions(groups[0].bs);
      SameParts(out, Captions(first), bs, Emitted(a, rest), Displayed(a, rest));
      assert out == Captions(first) <==> Harmless(first, a);
      InOrderSplit(first, groups);
    }
  }

  lemma InOrderSplit(first: Anchor, groups: seq<Group>)
    requires groups != []
    ensures InOrder(first, groups)
       <==> Harmless(first, groups[0].anchor) && InOrder(groups[0].anchor, groups[1..])
  {
    forall i | 0 < i < |groups| ensures AnchorAt(first, groups, i) == AnchorAt(groups[0].anchor, groups[1..], i - 1) {}
    if Harmless(first, groups[0].anchor) && InOrder(groups[0].anchor, groups[1..]) {
      forall i | 0 <= i < |groups| ensures Harmless(AnchorAt(first, groups, i), groups[i].anchor) {
        if i > 0 {
          assert Harmless(AnchorAt(groups[0].anchor, groups[1..], i - 1), groups[1..][i - 1].anchor);
        }
      }
    }
    if InOrder(first, groups) {
      assert AnchorAt(first, groups, 0) == first;
      forall i | 0 <= i < |groups[1..]|
        ensures Harmless(AnchorAt(groups[0].anchor, groups[1..], i), groups[1..][i].anchor)
      {
        assert Harmless(AnchorAt(first, groups, i + 1), groups[i + 1].anchor);
      }
    }
  }

  lemma SameParts(p: seq<CcData>, p': seq<CcData>, m: seq<CcData>, q: seq<CcData>, q': seq<CcData>)
    requires |p| == |p'| && |q| == |q'|
    ensures p + m + q == p' + m + q' <==> p == p' && q == q'
  {
    if p + m + q == p' + m + q' {
      assert p == (p + m + q)[..|p|] && q == (p + m + q)[|p + m|..];
      assert p' == (p' + m + q')[..|p|] && q' == (p' + m + q')[|p + m|..];
    }
  }

  /** From a reset decoder the captions come out in display order, with only the last anchor
      held back, exactly if successive field pairs and frames do not conflict. In particular
      frames alone, and field pairs of one field order, come out in order. */
  lemma DisplayOrderRestored(h: Held, first: Anchor, groups: seq<Group>)
    requires h.pictures == 0 && WellFormed(groups)
    ensures Outputs(h, Coded(first, groups)) == Displayed(first, groups) <==> InOrder(first, groups)
    ensures IsHeld(Run(h, Coded(first, groups)), LastAnchor(first, groups))
  {
    var ps := Pictures(first);
    RunPictures(h, first);
    assert IsHeld(Run(h, ps), first) && Outputs(h, ps) == [];
    hide Pictures;
    hide IsHeld;
    hide InOrder;
    hide Emitted;
    hide Displayed;
    RunConcat(h, ps, CodedGroups(groups));
    RunGroups(Run(h, ps), first, groups);
    EmittedInOrder(first, groups);
  }

  /** All anchors are frames, or all are field pairs with the same field first. */
  predicate Uniform(first: Anchor, groups: seq<Group>) {
    forall i :: 0 <= i < |groups| ==>
      groups[i].anchor.Frame? == first.Frame?
      && (first.Fields? ==> groups[i].anchor.topFirst == first.topFirst)
  }

  lemma UniformIsInOrder(first: Anchor, groups: seq<Group>)
    requires Uniform(first, groups)
    ensures InOrder(first, groups)
  {
    forall i | 0 <= i < |groups| ensures Harmless(AnchorAt(first, groups, i), groups[i].anchor) {
      if i > 0 {
        assert groups[i - 1].anchor.Frame? == first.Frame?;
      }
    }
  }

  /** The bottom field of a pair is displayed first, a frame follows: the captions of the pair come
      out in the wrong order. */
  lemma FieldsSwapped(h: Held, frame: CcData)
    requires h.pictures == 0
    ensures var one, two := CcData(1, []), CcData(2, []);
            var pair, groups := Fields(false, true, one, false, two), [Group([], Frame(false, frame))];
            Displayed(pair, groups) == [one, two] && Outputs(h, Coded(pair, groups)) == [two, one]
  {
    var one, two := CcData(1, []), CcData(2, []);
    var pair, groups := Fields(false, true, one, false, two), [Group([], Frame(false, frame))];
    assert groups[1..] == [];
    var a, b, c := Pictures(pair)[0], Pictures(pair)[1], Pictures(groups[0].anchor)[0];
    assert Pictures(pair) == [a, b] && Pictures(groups[0].anchor) == [c] && groups[0].bs == [];
    assert CodedGroups(groups) == [c] + [] + CodedGroups(groups[1..]) == [c];
    assert Coded(pair, groups) == [a, b, c];
    assert [a, b, c][1..] == [b, c] && [b, c][1..] == [c] && [c][1..] == [];
    var h1 := Step(h, a);
    var h2 := Step(h1, b);
    assert Outputs(h2, [c]) == Output(h2, c) + [];
  }
}
