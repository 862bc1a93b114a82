/** Inputs for which the page cache does not do what it is meant to do. */
module CacheWitnesses {
  import opened Options
  import opened LinkedLists
  import opened PageCache
  import opened PageEviction
  import opened CachePages
  import opened CachePut
  import opened CacheKeys
  import Bcd

  // A cache that holds idle pages of one number.

  function Net(refs: nat, g: nat, n: nat): Network {
    Network(refs, false, n, 0, map[g := n])
  }

  /** Somebody uses network 0, nobody network 1. */
  function Holding(pages: map<Id, Page>, order: seq<Id>, g: nat, limit: int): Cache {
    Cache(pages, seq(HASH_SIZE, h => if h == Hash(g) then order else []), order, [],
          map[0 := Net(1, g, Count(pages, OfNet(0))), 1 := Net(0, g, Count(pages, OfNet(1)))], [0, 1],
          Sum(pages, order), limit, |pages|, 2, 2)
  }

  ghost predicate Versions(pages: map<Id, Page>, order: seq<Id>, g: nat) {
    && Tracks(order, pages.Keys) && pages != map[]
    && forall id :: id in pages ==>
         && pages[id].net < 2 && pages[id].pgno == g && pages[id].refs == 0 && pages[id].priority != Zombie
  }

  lemma AllOrNone(pages: map<Id, Page>, f: Page -> bool, b: bool)
    requires forall id :: id in pages ==> f(pages[id]) == b
    ensures Where(pages, f) == if b then pages.Keys else {}
    ensures Count(pages, f) == if b then |pages| else 0
  {
    assert Where(pages, f) == if b then pages.Keys else {};
  }

  lemma SameCount(pages: map<Id, Page>, f: Page -> bool, g: Page -> bool)
    requires forall id :: id in pages ==> f(pages[id]) == g(pages[id])
    ensures Count(pages, f) == Count(pages, g)
  {
    assert Where(pages, f) == Where(pages, g);
  }

  lemma HoldingLinked(pages: map<Id, Page>, order: seq<Id>, g: nat, limit: int)
    requires Versions(pages, order, g)
    ensures var c := Holding(pages, order, g, limit); Linked(c.pages, c.hash, c.priority, c.referenced)
  {
    hide Where;
    hide Hash;
    hide Count;
    AllOrNone(pages, IsIdle, true);
    AllOrNone(pages, IsHeld, false);
    forall h: nat | h < HASH_SIZE ensures Tracks(Holding(pages, order, g, limit).hash[h], Where(pages, InChain(h))) {
      AllOrNone(pages, InChain(h), h == Hash(g));
    }
  }

  lemma HoldingCounted(pages: map<Id, Page>, order: seq<Id>, g: nat, limit: int)
    requires Versions(pages, order, g)
    ensures var c := Holding(pages, order, g, limit); Counted(c.pages, c.nets, c.nPages)
  {
    hide Count;
    var c := Holding(pages, order, g, limit);
    assert |pages.Keys| == |pages|;
    forall m | m in c.nets ensures c.nets[m].referenced == Count(pages, HeldOf(m)) {
      AllOrNone(pages, HeldOf(m), false);
    }
    forall m, i | m in c.nets ensures Stat(c.nets[m], i) == Count(pages, SubpageOf(m, i)) {
      if i == g {
        SameCount(pages, SubpageOf(m, i), OfNet(m));
      } else {
        AllOrNone(pages, SubpageOf(m, i), false);
      }
    }
  }

  lemma HoldingValid(pages: map<Id, Page>, order: seq<Id>, g: nat, limit: int)
    requires Versions(pages, order, g) && Sum(pages, order) <= limit
    ensures Valid(Holding(pages, order, g, limit))
  {
    hide Linked;
    hide Counted;
    hide Sum;
    hide Count;
    HoldingLinked(pages, order, g, limit);
    HoldingCounted(pages, order, g, limit);
    var c := Holding(pages, order, g, limit);
    assert Living(c.nets) == {0, 1} && c.nets.Keys == {0, 1};
  }

  lemma {:induction false} NoMatch(pages: map<Id, Page>, chain: seq<Id>, net: Id, pgno: int, subno: Word, mask: Word)
    requires forall id :: id in chain ==> id in pages && pages[id].pgno != pgno
    ensures First(pages, chain, net, pgno, subno, mask) == None
  {
    if chain != [] {
      NoMatch(pages, chain[1..], net, pgno, subno, mask);
    }
  }

  lemma ChainIs(pages: map<Id, Page>, order: seq<Id>, g: nat, limit: int, h: nat)
    requires Versions(pages, order, g) && h < HASH_SIZE
    ensures var c := Holding(pages, order, g, limit);
      && |c.hash| == HASH_SIZE && c.pages == pages
      && forall id :: id in c.hash[h] ==> id in pages && pages[id].pgno == g
  {
    hide Hash;
    hide Count;
    hide Sum;
  }

  /** A page of another number replaces none. */
  lemma NothingToReplace(pages: map<Id, Page>, order: seq<Id>, limit: int, size: nat)
    requires Versions(pages, order, 0x101)
    ensures var c := Holding(pages, order, 0x101, limit);
      && |c.hash| == HASH_SIZE
      && Prepare(c, 0, Received(0x102, 0, UnknownFunction, size, 0), false) == (c, None)
  {
    hide Key;
    hide Agree;
    hide Holding;
    hide Hash;
    hide First;
    hide Prepare;
    var c := Holding(pages, order, 0x101, limit);
    ChainIs(pages, order, 0x101, limit, Hash(0x102));
    var (subno, mask) := Key(0x102, 0, false);
    NoMatch(c.pages, c.hash[Hash(0x102)], 0, 0x102, subno & mask, mask);
    PrepareIs(c, 0, Received(0x102, 0, UnknownFunction, size, 0), false, subno, mask);
  }

  // One page of 60 bytes, with a limit of 100.

  function OnePage(priority: Priority): Cache {
    Holding(map[7 := Page(0, 0x101, 0, 60, 0, 0, priority)], [7], 0x101, 100)
  }

  lemma OnePageValid(priority: Priority)
    requires priority != Zombie
    ensures Valid(OnePage(priority)) && OnePage(priority).used == 60 && |OnePage(priority).hash| == HASH_SIZE
    ensures Prepare(OnePage(priority), 0, Received(0x102, 0, UnknownFunction, 100, 0), false)
         == (OnePage(priority), None)
  {
    hide Prepare;
    hide Valid;
    hide Count;
    var pages := map[7 := Page(0, 0x101, 0, 60, 0, 0, priority)];
    assert [7][1..] == [] && pages.Keys == {7};
    assert 7 in pages && Versions(pages, [7], 0x101);
    SumOfOne(pages, [7]);
    HoldingValid(pages, [7], 0x101, 100);
    NothingToReplace(pages, [7], 100, 100);
  }

  lemma Scans(priority: Priority)
    requires priority != Zombie
    ensures var c := OnePage(priority);
      FirstScan(c, None) == [] && SecondScan(c, None) == (if priority == Normal then [7] else [])
  {
    hide Count;
    var c := OnePage(priority);
    assert 7 in Others(c, priority, true, None);
    assert 7 !in Others(c, priority, false, None);
    var other := if priority == Normal then Special else Normal;
    assert 7 !in Others(c, other, true, None) && 7 !in Others(c, other, false, None);
    OnlySeven(Others(c, Normal, false, None));
    OnlySeven(Others(c, Special, false, None));
    OnlySeven(Others(c, Normal, true, None));
  }

  lemma OnlySeven(s: set<Id>)
    ensures Only([7], s) == if 7 in s then [7] else []
    ensures Only([], s) == []
  {
    assert [7][1..] == [];
  }

  lemma SumOfSeven(pages: map<Id, Page>)
    requires SizeOf(pages, 7) == 60
    ensures Sum(pages, [7]) == 60 && Sum(pages, []) == 0 && Take(pages, [7], 60) == [7] && Take(pages, [], 60) == []
  {
    assert [7][1..] == [];
    assert Take(pages, [7], 60) == [7] + Take(pages, [], 0);
  }

  lemma SevenIsSmall(priority: Priority)
    ensures SizeOf(OnePage(priority).pages, 7) == 60 && OnePage(priority).limit == 100
    ensures 0 in OnePage(priority).nets
  {
  }

  /** What the scans find, and the memory that is free. */
  lemma Scanned(priority: Priority)
    requires priority != Zombie
    ensures var c := OnePage(priority);
      Candidates(c, None) == (if priority == Normal then [7] else []) && Available(c, None) == 40
  {
    OnePageValid(priority);
    Scans(priority);
    SevenIsSmall(priority);
    hide Valid;
    hide OnePage;
    hide FirstScan;
    hide SecondScan;
  }

  lemma RowIs(c: Cache, size: nat, row: seq<Id>, available: int)
    requires Available(c, None) == available && Take(c.pages, Candidates(c, None), size - available) == row
    ensures Row(c, None, size) == row && Chosen(c, None, size) == row
    ensures Found(c, None, size) <==> Sum(c.pages, Candidates(c, None)) >= size - available || size <= available
  {
    hide Available;
    hide Candidates;
    hide Take;
    hide Sum;
    assert FormerRow(None) + row == row;
  }

  lemma TakenOnce()
    ensures var c := OnePage(Normal);
      Found(c, None, 100) && Row(c, None, 100) == [7] && Chosen(c, None, 100) == [7] && Available(c, None) == 40
  {
    hide OnePage;
    hide Candidates;
    hide Available;
    hide Found;
    hide Row;
    hide Chosen;
    hide Take;
    hide Sum;
    var c := OnePage(Normal);
    Scanned(Normal);
    SevenIsSmall(Normal);
    SumOfSeven(c.pages);
    RowIs(c, 100, [7], 40);
  }

  lemma NotFound()
    ensures !Found(OnePage(Special), None, 100)
  {
    hide OnePage;
    hide Candidates;
    hide Available;
    hide Found;
    hide Row;
    hide Chosen;
    var c := OnePage(Special);
    Scanned(Special);
    SevenIsSmall(Special);
    SumOfSeven(c.pages);
    RowIs(c, 100, [], 40);
  }

  /** A page of 100 bytes is written over one of 60 bytes, because memory is not used up and there
      is nothing else to delete. */
  lemma SmallerPageOverwritten()
    ensures var c, r := OnePage(Normal), Received(0x102, 0, UnknownFunction, 100, 0);
      && Valid(c) && |c.hash| == HASH_SIZE
      && Put(c, 0, r, false, None).1 == Some(7) && !Consistent(Put(c, 0, r, false, None).0)
  {
    hide Valid;
    hide Consistent;
    hide OnePage;
    hide Put;
    hide Prepare;
    hide Row;
    hide Found;
    hide Reuses;
    hide Key;
    hide Distinct;
    hide PutResult;
    var c, r := OnePage(Normal), Received(0x102, 0, UnknownFunction, 100, 0);
    OnePageValid(Normal);
    SevenIsSmall(Normal);
    TakenOnce();
    SevenReused();
    PutReusing(c, r, 7);
    PutKeeps(c, 0, r, false, None);
  }

  lemma PutReusing(c: Cache, r: Received, id: Id)
    requires r.pgno <= 0x8FF && r.pgno % 256 != 0xFF && |c.hash| == HASH_SIZE && 0 in c.nets
    requires Prepare(c, 0, r, false) == (c, None) && Found(c, None, r.size) && Reuses(c, None, r.size)
    requires Row(c, None, r.size) == [id] && Cached(c, id)
    ensures Put(c, 0, r, false, None).1 == Some(id)
  {
    hide Prepare;
    hide Found;
    hide Reuses;
    hide Row;
    hide Key;
    hide PriorityOf;
    hide Store;
    hide Reuse;
    var p := NewPage(0, r, Key(r.pgno, r.subno, false).0);
    ReuseSame(c, id, r.size);
    StoreGives(Reuse(c, id, r.size), id, p);
  }

  lemma SevenReused()
    ensures var c := OnePage(Normal); Reuses(c, None, 100) && Cached(c, 7) && Distinct([7])
  {
    hide OnePage;
    hide Row;
    hide Chosen;
    hide Available;
    hide Sum;
    TakenOnce();
    SevenIsSmall(Normal);
    SumOfSeven(OnePage(Normal).pages);
    SevenCached();
  }

  lemma SevenCached()
    ensures Cached(OnePage(Normal), 7)
  {
  }

  lemma ReuseSame(c: Cache, id: Id, size: nat)
    requires Cached(c, id)
    ensures |Reuse(c, id, size).hash| == HASH_SIZE && Reuse(c, id, size).nets.Keys == c.nets.Keys
  {
  }

  lemma StoreGives(c: Cache, id: Id, p: Page)
    requires |c.hash| == HASH_SIZE && p.net in c.nets
    ensures Store(c, id, p).1 == Some(id)
  {
    hide Insert;
  }

  lemma PutRefused(c: Cache, net: Id, r: Received, memory: Option<Id>)
    requires |c.hash| == HASH_SIZE && r.pgno <= 0x8FF && r.pgno % 256 != 0xFF
    requires Prepare(c, net, r, false) == (c, None) && !Found(c, None, r.size)
    ensures Put(c, net, r, false, memory) == (c, None)
  {
    hide Prepare;
    hide Found;
    hide Key;
    hide Replace;
    hide PriorityOf;
  }

  lemma SevenIsIdle(priority: Priority)
    ensures forall id :: id in OnePage(priority).pages ==> OnePage(priority).pages[id].refs == 0
  {
  }

  /** A page of 100 bytes, which is the limit, is refused although all others could be deleted. */
  lemma RoomOverlooked()
    ensures var c, r := OnePage(Special), Received(0x102, 0, UnknownFunction, 100, 0);
      && Valid(c) && |c.hash| == HASH_SIZE && r.size == c.limit
      && (forall id :: id in c.pages ==> c.pages[id].refs == 0)
      && Put(c, 0, r, false, Some(8)) == (c, None)
  {
    hide Prepare;
    hide Found;
    hide Valid;
    hide Put;
    hide OnePage;
    OnePageValid(Special);
    SevenIsSmall(Special);
    SevenIsIdle(Special);
    NotFound();
    PutRefused(OnePage(Special), 0, Received(0x102, 0, UnknownFunction, 100, 0), Some(8));
  }

  // A page of 60 bytes of network 1, which nobody uses, and one of 40 bytes of network 0.

  function TwoNetPages(): map<Id, Page> {
    map[7 := Page(1, 0x101, 0, 60, 0, 0, Normal), 8 := Page(0, 0x101, 1, 40, 0, 0, Normal)]
  }

  function TwoNets(): Cache {
    Holding(TwoNetPages(), [7, 8], 0x101, 100)
  }

  lemma TwoNetSums()
    ensures var pages := TwoNetPages();
      && SizeOf(pages, 7) == 60 && SizeOf(pages, 8) == 40
      && Sum(pages, [7, 8]) == 100 && Sum(pages, [7, 7, 8]) == 160 && Take(pages, [7, 7, 8], 100) == [7, 7]
  {
    var pages := TwoNetPages();
    assert [7, 7, 8][1..] == [7, 8] && [7, 8][1..] == [8] && [8][1..] == [];
    assert 7 in pages && 8 in pages && Sum(pages, [8]) == 40 && Sum(pages, [7, 8]) == 100;
    assert Take(pages, [8], -20) == [] && Take(pages, [7, 8], 40) == [7];
    assert Take(pages, [7, 7, 8], 100) == [7] + Take(pages, [7, 8], 40);
  }

  lemma TwoNetsValid()
    ensures Valid(TwoNets()) && TwoNets().used == 100 && |TwoNets().hash| == HASH_SIZE
    ensures Prepare(TwoNets(), 0, Received(0x102, 0, UnknownFunction, 100, 0), false) == (TwoNets(), None)
  {
    hide Prepare;
    hide Valid;
    hide Count;
    hide Sum;
    var pages := TwoNetPages();
    assert pages.Keys == {7, 8} && 7 in pages && Versions(pages, [7, 8], 0x101);
    TwoNetSums();
    HoldingValid(pages, [7, 8], 0x101, 100);
    NothingToReplace(pages, [7, 8], 100, 100);
  }

  lemma OnlySevenEight(s: set<Id>)
    ensures Only([7, 8], s) == (if 7 in s then [7] else []) + (if 8 in s then [8] else [])
    ensures Only([7], s) == if 7 in s then [7] else []
  {
    assert [7, 8][1..] == [8] && [8][1..] == [] && [7][1..] == [];
    assert Only([8], s) == if 8 in s then [8] else [];
  }

  lemma TwoNetScans()
    ensures Candidates(TwoNets(), None) == [7, 7, 8]
  {
    hide Count;
    hide Only;
    var c := TwoNets();
    assert ButLast([7, 8]) == [7];
    assert 7 in Others(c, Normal, false, None) && 8 !in Others(c, Normal, false, None);
    assert 7 in Others(c, Normal, true, None) && 8 in Others(c, Normal, true, None);
    assert 7 !in Others(c, Special, false, None) && 8 !in Others(c, Special, false, None);
    assert 7 !in Others(c, Special, true, None);
    OnlySevenEight(Others(c, Normal, false, None));
    OnlySevenEight(Others(c, Normal, true, None));
    OnlySevenEight(Others(c, Special, false, None));
    OnlySevenEight(Others(c, Special, true, None));
  }

  /** A page of 100 bytes, the limit, would fit if both were deleted. Instead page 7 is chosen in both
      scans, and deleted twice. */
  lemma PageDeletedTwice()
    ensures var c, r := TwoNets(), Received(0x102, 0, UnknownFunction, 100, 0);
      && Valid(c) && |c.hash| == HASH_SIZE && r.size == c.limit
      && Prepare(c, 0, r, false) == (c, None) && Found(c, None, r.size) && Row(c, None, r.size) == [7, 7]
      && !PutOnce(c, 0, r, false)
  {
    hide Valid;
    hide Holding;
    hide Candidates;
    hide Available;
    hide Found;
    hide Row;
    hide Chosen;
    hide Take;
    hide Sum;
    hide Prepare;
    TwoNetsValid();
    TwoNetScans();
    TwoNetSums();
    TwoNetFree();
    RowIs(TwoNets(), 100, [7, 7], 0);
    assert [7, 7][0] == [7, 7][1];
  }

  lemma TwoNetFree()
    ensures Available(TwoNets(), None) == 0 && TwoNets().limit == 100 && TwoNets().pages == TwoNetPages()
  {
    hide Count;
    TwoNetsValid();
    hide Valid;
  }

  // Two versions.

  /** Subpage 5 and the page without subpages. */
  function TwoPages(): Cache {
    var pages := map[7 := Page(0, 0x101, 5, 60, 0, 0, Special), 8 := Page(0, 0x101, 0, 60, 0, 0, Normal)];
    Holding(pages, [7, 8], 0x101, 200)
  }

  lemma TwoPagesListed()
    ensures var c := TwoPages(); Versions(c.pages, [7, 8], 0x101) && Sum(c.pages, [7, 8]) == 120
    ensures TwoPages() == Holding(TwoPages().pages, [7, 8], 0x101, 200)
  {
    hide Hash;
    var c := TwoPages();
    assert [7, 8][1..] == [8] && [8][1..] == [] && c.pages.Keys == {7, 8};
    assert 7 in c.pages && Sum(c.pages, [8]) == 60;
  }

  lemma TwoPagesValid()
    ensures Valid(TwoPages()) && TwoPages().used == 120 && TwoPages().limit == 200
  {
    hide Valid;
    hide Versions;
    hide Sum;
    hide TwoPages;
    TwoPagesListed();
    HoldingValid(TwoPages().pages, [7, 8], 0x101, 200);
  }

  lemma RowWithRoom(c: Cache, former: Option<Id>, size: nat)
    requires size < c.limit - c.used
    ensures Found(c, former, size) && !Reuses(c, former, size) && Row(c, former, size) == FormerRow(former)
  {
    TakeNothing(c.pages, Candidates(c, former), size - Available(c, former));
    hide Candidates;
    hide Take;
  }

  lemma FormerIsFound(c: Cache, found: Option<Id>)
    ensures Retire(c, found).1.Some? ==> Retire(c, found).1 == found
    ensures Distinct(FormerRow(found)) && forall id :: id in FormerRow(found) ==> Some(id) == found
  {
  }

  lemma PreparedFormer(c: Cache, net: Id, r: Received, clock: bool)
    requires |c.hash| == HASH_SIZE && r.pgno <= 0x8FF
    ensures var former := Prepare(c, net, r, clock).1;
      && Distinct(FormerRow(former))
      && forall id :: id in FormerRow(former) ==> Some(id) == FoundBy(c, net, r, clock)
  {
    hide Key;
    hide Find;
    hide Retire;
    hide Prepare;
    hide FormerRow;
    var (subno, mask) := Key(r.pgno, r.subno, clock);
    PrepareIs(c, net, r, clock, subno, mask);
    var (f, found) := Find(c, net, r.pgno, subno & mask, mask);
    FormerIsFound(f, found);
    FormerIsFound(f, Prepare(c, net, r, clock).1);
  }

  /** With room for the page nothing but the version found is deleted. */
  lemma PutWithRoom(c: Cache, net: Id, r: Received, clock: bool, id: Id)
    requires Valid(c) && net in c.nets && r.pgno <= 0x8FF && r.pgno % 256 != 0xFF && id !in c.pages
    requires r.size < c.limit - c.used
    ensures |c.hash| == HASH_SIZE
    ensures PutOnce(c, net, r, clock) && Put(c, net, r, clock, Some(id)).1 == Some(id)
    ensures forall x :: x in PutRow(c, net, r, clock) ==> Some(x) == FoundBy(c, net, r, clock)
  {
    hide Sound;
    hide Key;
    hide Prepare;
    hide Found;
    hide Reuses;
    hide Row;
    hide EraseAll;
    hide Store;
    hide Distinct;
    hide FoundBy;
    hide PriorityOf;
    PrepareKeeps(c, net, r, clock);
    var (d, former) := Prepare(c, net, r, clock);
    PreparedFormer(c, net, r, clock);
    RowWithRoom(d, former, r.size);
    EraseAllLeaves(d, FormerRow(former));
    var e := EraseAll(d, FormerRow(former));
    NetsSettled(d.nets, e.nets);
    ChainMembers(e, 0);
    StoreGives(e, id, NewPage(net, r, Key(r.pgno, r.subno, clock).0));
  }

  /** The page without subpages is received again. It replaces subpage 5, which was used last, and
      then there are two live pages with the same number. */
  lemma TwoVersionsOfOneKey()
    ensures var c, r := TwoPages(), Received(0x101, 0, UnknownFunction, 50, 0);
      && Valid(c) && |c.hash| == HASH_SIZE
      && Put(c, 0, r, false, Some(9)).1 == Some(9)
      && HasVersion(Put(c, 0, r, false, Some(9)).0.pages, [9], 0, 0x101, Key(0x101, 0, false).0)
  {
    hide Valid;
    hide TwoPages;
    hide HasVersion;
    hide Put;
    hide PutOnce;
    hide PutRow;
    hide FoundBy;
    hide Key;
    var c, r := TwoPages(), Received(0x101, 0, UnknownFunction, 50, 0);
    TwoPagesValid();
    TwoPagesHave();
    FoundFirst();
    KeyOfPage();
    PutWithRoom(c, 0, r, false, 9);
    SecondPage(PutRow(c, 0, r, false));
    VersionsRepeat(c, 0, r, false, Some(9));
  }

  lemma TwoPagesHave()
    ensures 9 !in TwoPages().pages && 0 in TwoPages().nets
  {
  }

  lemma SecondPage(row: seq<Id>)
    requires forall x :: x in row ==> Some(x) == Some(7)
    ensures HasVersion(TwoPages().pages, row, 0, 0x101, 0)
  {
    hide Hash;
    var c := TwoPages();
    assert 8 in c.pages && 8 !in row && Keyed(c.pages[8], 0, 0x101) && c.pages[8].subno == 0;
  }

  lemma KeyOfPage()
    ensures Key(0x101, 0, false) == (0, 0)
  {
    assert Bcd.IsBcd(0x101);
  }

  lemma FoundFirst()
    ensures |TwoPages().hash| == HASH_SIZE
    ensures FoundBy(TwoPages(), 0, Received(0x101, 0, UnknownFunction, 50, 0), false) == Some(7)
  {
    hide Key;
    KeyOfPage();
    var c := TwoPages();
    assert Agree(5, 0, 0);
    assert First(c.pages, c.hash[Hash(0x101)], 0, 0x101, 0 & 0, 0) == Some(7);
  }
}
