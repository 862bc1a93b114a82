/** Storing a page: finding the version it replaces, and making room. */
module CachePut {
  import opened Options
  import opened LinkedLists
  import opened PageCache
  import opened PageEviction
  import opened CacheNetworks
  import opened CachePages
  import Bcd

  /** The subpage number stored, and the bits that distinguish versions of the page. */
  function Key(pgno: nat, subno: Word, clock: bool): (Word, Word)
    requires pgno <= 0x8FF
  {
    if Bcd.IsBcd(pgno as Word) then
      if subno == 0 then (0, 0)
      else if clock || subno >= 0x100 then
        (if Bcd.DigitsGreater(subno, 0x2959) || subno > 0x2300 then 0 else subno, 0)
      else if Bcd.DigitsGreater(subno, 0x79) then (0, 0)
      else (subno, 0xFF)
    else (subno, 0x0F)
  }

  function PriorityOf(r: Received, subno: Word): (p: Priority)
    requires r.pgno <= 0x8FF
    ensures p != Zombie
  {
    if r.pgno % 256 == 0 then Special
    else if r.pgno / 16 == r.pgno % 256 then Special
    else if r.function_.UnknownFunction? then Normal
    else if !r.function_.LopFunction? then Special
    else if Bcd.IsBcd(r.pgno as Word) && 0 < subno <= 0x79 then Special
    else Normal
  }

  function NewPage(net: Id, r: Received, subno: Word): Page
    requires r.pgno <= 0x8FF
  {
    Page(net, r.pgno, subno, r.size, r.content, 1, PriorityOf(r, subno))
  }

  // The version to replace.

  /** A version in use becomes a zombie, another one is the first to be deleted. */
  function Retire(c: Cache, found: Option<Id>): (Cache, Option<Id>) {
    if found.None? || !Cached(c, found.value) then (c, None)
    else if c.pages[found.value].refs > 0 then (Zombify(c, found.value), None)
    else (c, found)
  }

  // Making room.

  function FormerSize(c: Cache, former: Option<Id>): nat {
    if former.Some? then SizeOf(c.pages, former.value) else 0
  }

  function Available(c: Cache, former: Option<Id>): int {
    c.limit - c.used + FormerSize(c, former)
  }

  function FormerRow(former: Option<Id>): seq<Id> {
    if former.Some? then [former.value] else []
  }

  function Others(c: Cache, priority: Priority, any: bool, former: Option<Id>): set<Id> {
    Fitting(c, priority, any) - (if former.Some? then {former.value} else {})
  }

  /** The pages of networks nobody references. */
  function FirstScan(c: Cache, former: Option<Id>): seq<Id> {
    Only(c.priority, Others(c, Normal, false, former)) + Only(c.priority, Others(c, Special, false, former))
  }

  function ButLast(s: seq<Id>): seq<Id> {
    if s == [] then [] else s[..|s| - 1]
  }

  /** All pages, even if they were chosen before. The memory is compared before each step, so
      that choosing the very last page of the list in the last pass comes too late. */
  function SecondScan(c: Cache, former: Option<Id>): seq<Id> {
    Only(c.priority, Others(c, Normal, true, former)) + Only(ButLast(c.priority), Others(c, Special, true, former))
  }

  function Candidates(c: Cache, former: Option<Id>): seq<Id> {
    FirstScan(c, former) + SecondScan(c, former)
  }

  predicate Found(c: Cache, former: Option<Id>, size: nat) {
    Sum(c.pages, Candidates(c, former)) >= size - Available(c, former) || size <= Available(c, former)
  }

  function Chosen(c: Cache, former: Option<Id>, size: nat): seq<Id> {
    Take(c.pages, Candidates(c, former), size - Available(c, former))
  }

  function Row(c: Cache, former: Option<Id>, size: nat): seq<Id> {
    FormerRow(former) + Chosen(c, former, size)
  }

  /** A single page is replaced in place. */
  predicate Reuses(c: Cache, former: Option<Id>, size: nat) {
    |Row(c, former, size)| == 1 && Available(c, former) + Sum(c.pages, Chosen(c, former, size)) == size
  }

  function Reuse(c: Cache, id: Id, size: nat): Cache
    requires Cached(c, id)
  {
    Erase(c, id).(used := c.used - size)
  }

  /** The cache when the version to replace has been dealt with. */
  function Prepare(c: Cache, net: Id, r: Received, clock: bool): (Cache, Option<Id>)
    requires |c.hash| == HASH_SIZE && r.pgno <= 0x8FF
  {
    var (subno, mask) := Key(r.pgno, r.subno, clock);
    var (d, found) := Find(c, net, r.pgno, subno & mask, mask);
    Retire(d, found)
  }

  function Store(c: Cache, id: Id, p: Page): (Cache, Option<Id>) {
    if |c.hash| != HASH_SIZE || p.net !in c.nets then (c, None) else (Insert(c, id, p), Some(id))
  }

  /** The chosen pages make room for the new page; `memory` is the address of new memory, if
      there is any. */
  function Replace(c: Cache, former: Option<Id>, p: Page, memory: Option<Id>): (Cache, Option<Id>) {
    var row := Row(c, former, p.size);
    if Reuses(c, former, p.size) && Cached(c, row[0]) then Store(Reuse(c, row[0], p.size), row[0], p)
    else if memory.None? then (c, None)
    else Store(EraseAll(c, row), memory.value, p)
  }

  function Put(c: Cache, net: Id, r: Received, clock: bool, memory: Option<Id>): (Cache, Option<Id>)
    requires |c.hash| == HASH_SIZE && r.pgno <= 0x8FF
  {
    if r.pgno % 256 == 0xFF then (c, None)
    else
      var (d, former) := Prepare(c, net, r, clock);
      if !Found(d, former, r.size) then (d, None)
      else Replace(d, former, NewPage(net, r, Key(r.pgno, r.subno, clock).0), memory)
  }

  // What putting a page keeps.

  ghost predicate IdlePage(c: Cache, former: Option<Id>) {
    former.Some? ==> former.value in c.pages && c.pages[former.value].refs == 0
  }

  lemma RetireKeeps(c: Cache, found: Option<Id>)
    requires Valid(c) && (found.Some? ==> found.value in c.pages && IsLive(c.pages[found.value]))
    ensures var (d, former) := Retire(c, found);
            && Valid(d) && KeepsHeld(c.pages, d.pages) && IdlePage(d, former)
            && d.pages.Keys == c.pages.Keys && d.nets == c.nets && d.used == c.used && d.limit == c.limit
            && d.priority == c.priority
            && (found.Some? && former.None? ==> d == Zombify(c, found.value) && c.pages[found.value].refs > 0)
            && (former.Some? || found.None? ==> d == c && former == found)
  {
    hide Sound;
    if found.Some? {
      SoundPage(c, found.value);
      if c.pages[found.value].refs > 0 {
        ZombifyKeeps(c, found.value);
      }
    }
  }

  lemma FindLive(c: Cache, net: Id, pgno: nat, subno: Word, mask: Word)
    requires Valid(c)
    ensures |c.hash| == HASH_SIZE
    ensures var (d, found) := Find(c, net, pgno, subno, mask);
            && Valid(d) && OnlyHashed(c, d) && (found.Some? ==> found.value in d.pages && IsLive(d.pages[found.value]))
  {
    hide Sound;
    hide Settled;
    hide Matches;
    hide Miss;
    hide Find;
    hide Front;
    FindKeeps(c, net, pgno, subno, mask);
    HashedIsValid(c, Find(c, net, pgno, subno, mask).0);
  }

  lemma PrepareIs(c: Cache, net: Id, r: Received, clock: bool, subno: Word, mask: Word)
    requires |c.hash| == HASH_SIZE && r.pgno <= 0x8FF && Key(r.pgno, r.subno, clock) == (subno, mask)
    ensures var (d, found) := Find(c, net, r.pgno, subno & mask, mask);
            Prepare(c, net, r, clock) == Retire(d, found)
  {
    hide Key;
    hide Find;
    hide Retire;
  }

  lemma HeldAfterHash(c: Cache, d: Cache, e: Cache)
    requires OnlyHashed(c, d) && KeepsHeld(d.pages, e.pages)
    ensures KeepsHeld(c.pages, e.pages) && d.pages == c.pages && d.nets == c.nets && d.used == c.used
    ensures d.limit == c.limit && d.priority == c.priority
  {
    hide KeepsHeld;
  }

  lemma PrepareKeeps(c: Cache, net: Id, r: Received, clock: bool)
    requires Valid(c) && r.pgno <= 0x8FF
    ensures |c.hash| == HASH_SIZE
    ensures var (d, former) := Prepare(c, net, r, clock);
            && Valid(d) && KeepsHeld(c.pages, d.pages) && IdlePage(d, former)
            && d.pages.Keys == c.pages.Keys && d.nets == c.nets && d.used == c.used && d.limit == c.limit
            && d.priority == c.priority
  {
    hide Find;
    hide Retire;
    hide Key;
    hide Valid;
    hide KeepsHeld;
    hide IdlePage;
    hide Prepare;
    hide OnlyHashed;
    var (subno, mask) := Key(r.pgno, r.subno, clock);
    FindLive(c, net, r.pgno, subno & mask, mask);
    PrepareIs(c, net, r, clock, subno, mask);
    var (d, found) := Find(c, net, r.pgno, subno & mask, mask);
    RetireKeeps(d, found);
    HeldAfterHash(c, d, Retire(d, found).0);
  }

  lemma RetireSized(c: Cache, found: Option<Id>, least: nat, most: nat)
    requires Sized(c.pages, least, most)
    ensures Sized(Retire(c, found).0.pages, least, most)
  {
  }

  lemma PrepareSized(c: Cache, net: Id, r: Received, clock: bool, least: nat, most: nat)
    requires Valid(c) && r.pgno <= 0x8FF && Sized(c.pages, least, most)
    ensures |c.hash| == HASH_SIZE && Sized(Prepare(c, net, r, clock).0.pages, least, most)
  {
    hide Valid;
    hide Key;
    hide Find;
    hide Retire;
    hide Prepare;
    hide Sized;
    var (subno, mask) := Key(r.pgno, r.subno, clock);
    FindLive(c, net, r.pgno, subno & mask, mask);
    PrepareIs(c, net, r, clock, subno, mask);
    var (d, found) := Find(c, net, r.pgno, subno & mask, mask);
    RetireSized(d, found, least, most);
  }

  lemma ScanIsIdle(c: Cache, former: Option<Id>, list: seq<Id>, s: set<Id>)
    requires Sound(c) && IdlePage(c, former) && Distinct(list) && forall id :: id in list ==> id in c.priority
    requires forall id :: id in s ==> FormerRow(former) == [] || id != former.value
    ensures Distinct(Only(list, s)) && AllIdle(c.pages, Only(list, s))
    ensures forall id :: id in Only(list, s) ==> id !in FormerRow(former)
  {
    hide Sound;
    PriorityIn(c);
    OnlyMembers(list, s);
  }

  lemma ButLastMembers(s: seq<Id>)
    requires Distinct(s)
    ensures Distinct(ButLast(s)) && forall id :: id in ButLast(s) ==> id in s
  {
    if s != [] {
      DistinctPrefix(s, |s| - 1);
    }
  }

  ghost predicate GoodScan(c: Cache, former: Option<Id>, scan: seq<Id>) {
    Distinct(scan) && AllIdle(c.pages, scan) && forall id :: id in scan ==> id !in FormerRow(former)
  }

  lemma TwoScansAreIdle(c: Cache, former: Option<Id>, l: seq<Id>, s: set<Id>, m: seq<Id>, t: set<Id>)
    requires Sound(c) && IdlePage(c, former) && Distinct(l) && Distinct(m) && s !! t
    requires forall id :: id in l || id in m ==> id in c.priority
    requires forall id :: id in s || id in t ==> FormerRow(former) == [] || id != former.value
    ensures GoodScan(c, former, Only(l, s) + Only(m, t))
  {
    hide Sound;
    hide Only;
    hide Distinct;
    ScanIsIdle(c, former, l, s);
    ScanIsIdle(c, former, m, t);
    OnlyMembers(l, s);
    OnlyMembers(m, t);
    ConcatDistinct(Only(l, s), Only(m, t));
  }

  /** Each scan on its own chooses a page once. */
  lemma ScansAreIdle(c: Cache, former: Option<Id>)
    requires Sound(c) && IdlePage(c, former)
    ensures GoodScan(c, former, FirstScan(c, former))
    ensures GoodScan(c, former, SecondScan(c, former))
  {
    hide Sound;
    hide Only;
    hide Distinct;
    hide GoodScan;
    PriorityIn(c);
    var l := c.priority;
    ButLastMembers(l);
    TwoScansAreIdle(c, former, l, Others(c, Normal, false, former), l, Others(c, Special, false, former));
    TwoScansAreIdle(c, former, l, Others(c, Normal, true, former), ButLast(l), Others(c, Special, true, former));
  }

  lemma SumOfFormer(c: Cache, former: Option<Id>)
    ensures Sum(c.pages, FormerRow(former)) == FormerSize(c, former)
  {
    if former.Some? {
      assert FormerRow(former)[1..] == [];
    }
  }

  lemma CandidatesAreIdle(c: Cache, former: Option<Id>)
    requires Sound(c) && IdlePage(c, former)
    ensures AllIdle(c.pages, Candidates(c, former))
    ensures forall id :: id in Candidates(c, former) ==> id !in FormerRow(former)
  {
    hide Sound;
    hide FirstScan;
    hide SecondScan;
    ScansAreIdle(c, former);
  }

  lemma RowIsIdle(c: Cache, former: Option<Id>, size: nat)
    requires Sound(c) && IdlePage(c, former)
    ensures AllIdle(c.pages, Row(c, former, size))
    ensures Sum(c.pages, Row(c, former, size)) == FormerSize(c, former) + Sum(c.pages, Chosen(c, former, size))
    ensures Distinct(Row(c, former, size)) <==> Distinct(Chosen(c, former, size))
  {
    hide Sound;
    hide Candidates;
    hide Take;
    hide Sum;
    CandidatesAreIdle(c, former);
    TakeMembers(c.pages, Candidates(c, former), size - Available(c, former));
    SumConcat(c.pages, FormerRow(former), Chosen(c, former, size));
    ConcatDistinct(FormerRow(former), Chosen(c, former, size));
    SumOfFormer(c, former);
  }

  lemma {:induction false} TakeMembers(pages: map<Id, Page>, ids: seq<Id>, need: int)
    ensures forall id :: id in Take(pages, ids, need) ==> id in ids
  {
    if need > 0 && ids != [] {
      TakeMembers(pages, ids[1..], need - SizeOf(pages, ids[0]));
    }
  }

  // Pages chosen twice.

  /** What a scan meets before it meets a member of s. */
  function Ahead(ids: seq<Id>, s: set<Id>): seq<Id> {
    if ids == [] || ids[0] in s then [] else [ids[0]] + Ahead(ids[1..], s)
  }

  lemma {:induction false} AheadMembers(ids: seq<Id>, s: set<Id>)
    ensures var a := Ahead(ids, s);
            && (forall id :: id in a ==> id in ids && id !in s)
            && |a| <= |ids| && ids == a + ids[|a|..]
            && (|a| < |ids| ==> ids[|a|] in s)
  {
    if ids != [] && ids[0] !in s {
      AheadMembers(ids[1..], s);
      var a := Ahead(ids, s);
      assert a[1..] == Ahead(ids[1..], s) && ids[|a|..] == ids[1..][|a| - 1..];
    }
  }

  /** A choice from two scans has no page twice exactly if the second scan need not go as far
      as a page of the first one. */
  lemma ChosenOnce(pages: map<Id, Page>, f: seq<Id>, s: seq<Id>, need: int)
    requires Distinct(f) && Distinct(s) && Sum(pages, f + s) >= need
    ensures Distinct(Take(pages, f + s, need)) <==> Sum(pages, f) + Sum(pages, Ahead(s, Elements(f))) >= need
  {
    SumConcat(pages, f, s);
    TakeConcat(pages, f, s, need);
    TakeIsShortest(pages, f, need);
    hide Sum;
    if Sum(pages, f) >= need {
      ChosenFromFirst(pages, f, s, need);
    } else {
      ChosenFromBoth(pages, f, s, need - Sum(pages, f));
    }
  }

  lemma ChosenFromFirst(pages: map<Id, Page>, f: seq<Id>, s: seq<Id>, need: int)
    requires Distinct(f) && Sum(pages, f) >= need
    ensures Distinct(Take(pages, f + s, need))
  {
    hide Take;
    hide Sum;
    TakeIsShortest(pages, f, need);
    TakeConcat(pages, f, s, need);
    TakeNothing(pages, s, need - Sum(pages, Take(pages, f, need)));
    DistinctPrefix(f, |Take(pages, f, need)|);
    assert Take(pages, f, need) + [] == Take(pages, f, need);
  }

  lemma ChosenFromBoth(pages: map<Id, Page>, f: seq<Id>, s: seq<Id>, m: int)
    requires Distinct(f) && Distinct(s) && m > 0 && Sum(pages, s) >= m
    ensures Distinct(f + Take(pages, s, m)) <==> Sum(pages, Ahead(s, Elements(f))) >= m
  {
    hide Take;
    hide Sum;
    hide Ahead;
    var a := Ahead(s, Elements(f));
    AheadMembers(s, Elements(f));
    var rest := s[|a|..];
    TakeConcat(pages, a, rest, m);
    TakeIsShortest(pages, a, m);
    TakeIsShortest(pages, s, m);
    SumConcat(pages, a, rest);
    DistinctPrefix(s, |Take(pages, s, m)|);
    ConcatDistinct(f, Take(pages, s, m));
    if Sum(pages, a) >= m {
      TakeNothing(pages, rest, m - Sum(pages, Take(pages, a, m)));
      assert Take(pages, a, m) + [] == Take(pages, a, m);
      TakeMembers(pages, a, m);
    } else {
      var x := s[|a|];
      TakeNothing(pages, [], m - Sum(pages, a));
      assert rest != [] && rest[0] == x;
      TakeHead(pages, rest, m - Sum(pages, a));
      assert x in Take(pages, s, m) && x in f;
    }
  }

  /** No page is deleted twice exactly if the second scan need not go as far as a page of the
      first one. In particular nothing is if all networks with idle pages are referenced. */
  lemma NoPageTwice(c: Cache, former: Option<Id>, size: nat)
    requires Sound(c) && IdlePage(c, former) && Found(c, former, size)
    ensures var f, s := FirstScan(c, former), SecondScan(c, former);
            && (Distinct(Row(c, former, size)) <==>
                  Sum(c.pages, f) + Sum(c.pages, Ahead(s, Elements(f))) >= size - Available(c, former))
            && (f == [] ==> Distinct(Row(c, former, size)))
  {
    hide Sound;
    hide FirstScan;
    hide SecondScan;
    hide Take;
    hide Sum;
    hide Available;
    var f, s := FirstScan(c, former), SecondScan(c, former);
    var need := size - Available(c, former);
    ScansAreIdle(c, former);
    RowIsIdle(c, former, size);
    EnoughCandidates(c, former, size);
    ChosenOnce(c.pages, f, s, need);
    if f == [] {
      AheadOfNothing(s);
      SumConcat(c.pages, f, s);
    }
  }

  lemma EnoughCandidates(c: Cache, former: Option<Id>, size: nat)
    requires Found(c, former, size)
    ensures Sum(c.pages, Candidates(c, former)) >= size - Available(c, former)
  {
    hide Candidates;
    hide Available;
  }

  lemma {:induction false} AheadOfNothing(s: seq<Id>)
    ensures Ahead(s, Elements([])) == s
  {
    if s != [] {
      AheadOfNothing(s[1..]);
    }
  }

  // The whole operation.

  /** The size of the page reused is that of the new page exactly if the memory was used up. */
  lemma ReusedSize(c: Cache, former: Option<Id>, size: nat)
    requires Reuses(c, former, size) && Sound(c) && IdlePage(c, former)
    ensures var id := Row(c, former, size)[0];
            SizeOf(c.pages, id) - size == c.used - c.limit
  {
    hide Sound;
    hide Chosen;
    hide IdlePage;
    RowIsIdle(c, former, size);
    SumOfOne(c.pages, Row(c, former, size));
    hide Sum;
  }

  lemma SumOfOne(pages: map<Id, Page>, ids: seq<Id>)
    requires |ids| == 1
    ensures Sum(pages, ids) == SizeOf(pages, ids[0])
  {
    assert ids[1..] == [];
  }

  lemma StoreKeeps(c: Cache, id: Id, p: Page)
    requires Sound(c) && Settled(c.nets) && id !in c.pages && p.net in c.nets && p.refs > 0 && IsLive(p)
    ensures |c.hash| == HASH_SIZE
    ensures var (d, r) := Store(c, id, p);
            && Consistent(d) && r == Some(id) && d.pages == c.pages[id := p] && d.used == c.used && d.limit == c.limit
  {
    hide Sound;
    hide Insert;
    ChainMembers(c, 0);
    InsertKeeps(c, id, p);
    InsertSettles(c, id, p);
  }

  lemma InsertSettles(c: Cache, id: Id, p: Page)
    requires |c.hash| == HASH_SIZE && p.net in c.nets && Settled(c.nets)
    ensures var d := Insert(c, id, p);
            Settled(d.nets) && d.pages == c.pages[id := p] && d.used == c.used && d.limit == c.limit
  {
  }

  /** What a successful or refused put does to the pages. */
  ghost predicate PutResult(c: Cache, d: Cache, net: Id, r: Received, subno: Word, result: Option<Id>)
    requires r.pgno <= 0x8FF
  {
    && KeepsHeld(c.pages, d.pages)
    && (result.Some? ==> result.value in d.pages && d.pages[result.value] == NewPage(net, r, subno)
                         && (result.value in c.pages ==> c.pages[result.value].refs == 0))
  }

  lemma StoreErased(c: Cache, row: seq<Id>, id: Id, net: Id, r: Received, subno: Word)
    requires Valid(c) && Distinct(row) && AllIdle(c.pages, row) && id !in c.pages && net in c.nets && r.pgno <= 0x8FF
    ensures var (d, result) := Store(EraseAll(c, row), id, NewPage(net, r, subno));
            && Consistent(d) && d.used <= c.used && d.limit == c.limit
            && result == Some(id) && PutResult(c, d, net, r, subno, result)
  {
    hide Sound;
    hide EraseAll;
    hide Sum;
    hide Store;
    hide PriorityOf;
    EraseAllLeaves(c, row);
    var e := EraseAll(c, row);
    StoreKeeps(e, id, NewPage(net, r, subno));
  }

  lemma UsedMatters(c: Cache, used: int)
    requires Consistent(c)
    ensures Consistent(c.(used := used)) <==> used == c.used
  {
    hide Linked;
    hide Counted;
    hide Listed;
    hide Sum;
  }

  lemma StoreUsed(c: Cache, used: int, id: Id, p: Page)
    ensures Store(c.(used := used), id, p).0 == Store(c, id, p).0.(used := used)
    ensures Store(c.(used := used), id, p).1 == Store(c, id, p).1
  {
  }

  /** Writing over a page keeps the cache consistent exactly if the memory was used up, so that
      the page has the right size. */
  lemma StoreReused(c: Cache, v: Id, net: Id, r: Received, subno: Word)
    requires Valid(c) && v in c.pages && c.pages[v].refs == 0 && net in c.nets && r.pgno <= 0x8FF
    requires c.pages[v].size - r.size == c.used - c.limit
    ensures Cached(c, v)
    ensures var (d, result) := Store(Reuse(c, v, r.size), v, NewPage(net, r, subno));
            && (Consistent(d) <==> c.used == c.limit)
            && d.used == c.used - r.size && d.limit == c.limit
            && result == Some(v) && PutResult(c, d, net, r, subno, result)
  {
    hide Sound;
    hide Sum;
    hide PriorityOf;
    hide Store;
    hide SameNets;
    EraseLeaves(c, v);
    var e := Erase(c, v);
    var p := NewPage(net, r, subno);
    assert Settled(e.nets) && net in e.nets by {
      EraseNets(c, v);
      NetsSettled(c.nets, e.nets);
    }
    StoreKeeps(e, v, p);
    var g := Store(e, v, p).0;
    assert Reuse(c, v, r.size) == e.(used := c.used - r.size);
    hide Erase;
    StoreUsed(e, c.used - r.size, v, p);
    UsedMatters(g, c.used - r.size);
  }

  lemma NetsSettled(a: map<Id, Network>, b: map<Id, Network>)
    requires SameNets(a, b) && Settled(a)
    ensures Settled(b) && a.Keys == b.Keys
  {
  }

  /** The version replaced, and where it leaves the cache, as the hypotheses of a put see it. */
  ghost predicate PutOnce(c: Cache, net: Id, r: Received, clock: bool)
    requires |c.hash| == HASH_SIZE && r.pgno <= 0x8FF
  {
    var (d, former) := Prepare(c, net, r, clock);
    Found(d, former, r.size) ==> Distinct(Row(d, former, r.size))
  }

  predicate PutReuses(c: Cache, net: Id, r: Received, clock: bool)
    requires |c.hash| == HASH_SIZE && r.pgno <= 0x8FF
  {
    var (d, former) := Prepare(c, net, r, clock);
    r.pgno % 256 != 0xFF && Found(d, former, r.size) && Reuses(d, former, r.size)
  }

  /** If no page is deleted twice, storing a page keeps the cache consistent exactly unless it
      writes over a single page of another size, which happens if memory was not used up. */
  lemma PutKeeps(c: Cache, net: Id, r: Received, clock: bool, memory: Option<Id>)
    requires Valid(c) && net in c.nets && r.pgno <= 0x8FF
    requires memory.Some? ==> memory.value !in c.pages
    requires |c.hash| == HASH_SIZE && PutOnce(c, net, r, clock)
    ensures var (d, result) := Put(c, net, r, clock, memory);
            && (Consistent(d) <==> !PutReuses(c, net, r, clock) || c.used == c.limit)
            && (Consistent(d) ==> Valid(d))
            && PutResult(c, d, net, r, Key(r.pgno, r.subno, clock).0, result)
  {
    hide Sound;
    hide Sum;
    hide Key;
    hide Retire;
    hide Prepare;
    hide Found;
    hide Reuses;
    hide Row;
    hide Store;
    hide EraseAll;
    hide PriorityOf;
    if r.pgno % 256 != 0xFF {
      PrepareKeeps(c, net, r, clock);
      var (d, former) := Prepare(c, net, r, clock);
      if Found(d, former, r.size) {
        var row := Row(d, former, r.size);
        RowIsIdle(d, former, r.size);
        if Reuses(d, former, r.size) {
          ReuseRow(d, former, r.size);
          StoreReused(d, row[0], net, r, Key(r.pgno, r.subno, clock).0);
        } else if memory.Some? {
          StoreErased(d, row, memory.value, net, r, Key(r.pgno, r.subno, clock).0);
        }
      }
    }
  }

  /** The second scan need not go as far as a page of the first one. */
  predicate ScansDiffer(c: Cache, former: Option<Id>, size: nat) {
    Sum(c.pages, FirstScan(c, former)) + Sum(c.pages, Ahead(SecondScan(c, former), Elements(FirstScan(c, former))))
    >= size - Available(c, former)
  }

  predicate PutScansDiffer(c: Cache, net: Id, r: Received, clock: bool)
    requires |c.hash| == HASH_SIZE && r.pgno <= 0x8FF
  {
    var (d, former) := Prepare(c, net, r, clock);
    Found(d, former, r.size) ==> ScansDiffer(d, former, r.size)
  }

  /** A put deletes no page twice and keeps the cache consistent exactly if the scans choose different
      pages and a page is written over only while the memory is used up. */
  lemma PutIsSafe(c: Cache, net: Id, r: Received, clock: bool, memory: Option<Id>)
    requires Valid(c) && net in c.nets && r.pgno <= 0x8FF
    requires memory.Some? ==> memory.value !in c.pages
    ensures |c.hash| == HASH_SIZE
    ensures PutOnce(c, net, r, clock) <==> PutScansDiffer(c, net, r, clock)
    ensures var (d, result) := Put(c, net, r, clock, memory);
            && (PutOnce(c, net, r, clock) && Consistent(d)
                <==> PutScansDiffer(c, net, r, clock) && (!PutReuses(c, net, r, clock) || c.used == c.limit))
            && (PutOnce(c, net, r, clock) ==> PutResult(c, d, net, r, Key(r.pgno, r.subno, clock).0, result))
  {
    hide Sound;
    hide Prepare;
    hide Found;
    hide Row;
    hide Put;
    hide PutReuses;
    hide ScansDiffer;
    hide PutResult;
    hide Key;
    PrepareKeeps(c, net, r, clock);
    var (d, former) := Prepare(c, net, r, clock);
    if Found(d, former, r.size) {
      RowOnce(d, former, r.size);
    }
    if PutOnce(c, net, r, clock) {
      PutKeeps(c, net, r, clock, memory);
    }
  }

  lemma RowOnce(c: Cache, former: Option<Id>, size: nat)
    requires Sound(c) && IdlePage(c, former) && Found(c, former, size)
    ensures Distinct(Row(c, former, size)) <==> ScansDiffer(c, former, size)
  {
    NoPageTwice(c, former, size);
    hide Sound;
    hide Row;
    hide FirstScan;
    hide SecondScan;
  }

  lemma ReuseRow(c: Cache, former: Option<Id>, size: nat)
    requires Reuses(c, former, size) && Sound(c) && IdlePage(c, former)
    ensures |Row(c, former, size)| == 1
    ensures var id := Row(c, former, size)[0];
            id in c.pages && c.pages[id].refs == 0 && c.pages[id].size - size == c.used - c.limit && Cached(c, id)
  {
    hide Sound;
    hide Chosen;
    RowIsIdle(c, former, size);
    ReusedSize(c, former, size);
    SoundPage(c, Row(c, former, size)[0]);
  }

  // When there is room.

  /** The size of the last page of the list, if only the last pass could choose it. */
  function TailSize(c: Cache, former: Option<Id>): nat {
    if c.priority == [] then 0
    else
      var t := c.priority[|c.priority| - 1];
      if t in Others(c, Special, true, former) then SizeOf(c.pages, t) else 0
  }

  lemma OnlyButLast(pages: map<Id, Page>, list: seq<Id>, s: set<Id>)
    requires list != []
    ensures var t := list[|list| - 1];
            Sum(pages, Only(list, s)) == Sum(pages, Only(ButLast(list), s)) + if t in s then SizeOf(pages, t) else 0
  {
    var k := |list| - 1;
    assert list == list[..k] + [list[k]];
    OnlyConcat(list[..k], [list[k]], s);
    SumConcat(pages, Only(list[..k], s), Only([list[k]], s));
    assert Sum(pages, Only([list[k]], s)) == if list[k] in s then SizeOf(pages, list[k]) else 0 by {
      SumOfHead(pages, [list[k]], s);
    }
  }

  lemma {:induction false} OnlyConcat(a: seq<Id>, b: seq<Id>, s: set<Id>)
    ensures Only(a + b, s) == Only(a, s) + Only(b, s)
  {
    if a == [] {
      assert a + b == b;
    } else {
      assert (a + b)[0] == a[0] && (a + b)[1..] == a[1..] + b;
      OnlyConcat(a[1..], b, s);
    }
  }

  /** The second scan reaches everything but the version replaced and, too late, the tail. */
  lemma SumOfSecondScan(c: Cache, former: Option<Id>)
    requires Sound(c) && IdlePage(c, former)
    ensures Sum(c.pages, SecondScan(c, former)) == c.used - FormerSize(c, former) - TailSize(c, former)
  {
    var l := c.priority;
    var f: set<Id> := if former.Some? then {former.value} else {};
    var n, s := Others(c, Normal, true, former), Others(c, Special, true, former);
    OthersCover(c, former);
    SumOfPriority(c);
    PriorityIn(c);
    SumOfFormerInList(c, former);
    hide Sound;
    hide Others;
    hide Sum;
    hide Only;
    SumConcat(c.pages, Only(l, n), Only(ButLast(l), s));
    SumSplits(c.pages, l, n, s);
    SumSplits(c.pages, l, n + s, f);
    OnlyAll(l, n + s + f);
    if l != [] {
      OnlyButLast(c.pages, l, s);
    } else {
      SumOfNone(c.pages, s);
    }
  }

  lemma SumOfNone(pages: map<Id, Page>, s: set<Id>)
    ensures Sum(pages, Only([], s)) == 0
  {
  }

  lemma OthersCover(c: Cache, former: Option<Id>)
    requires Sound(c) && IdlePage(c, former)
    ensures var f: set<Id> := if former.Some? then {former.value} else {};
            var n, s := Others(c, Normal, true, former), Others(c, Special, true, former);
            && n !! s && (n + s) !! f
            && forall id :: id in c.priority ==> id in n + s + f
  {
    PriorityIn(c);
    hide Sound;
    forall id | id in c.priority
      ensures id in Fitting(c, Normal, true) + Fitting(c, Special, true)
    {
      SoundPage(c, id);
    }
  }

  lemma SumOfFormerInList(c: Cache, former: Option<Id>)
    requires Sound(c) && IdlePage(c, former)
    ensures Sum(c.pages, Only(c.priority, if former.Some? then {former.value} else {})) == FormerSize(c, former)
  {
    PriorityIn(c);
    hide Sound;
    if former.Some? {
      OnlyOne(c.priority, former.value);
      SumOfOne(c.pages, [former.value]);
    } else {
      OnlyNone(c.priority);
    }
  }

  lemma {:induction false} OnlyOne(list: seq<Id>, id: Id)
    requires Distinct(list) && id in list
    ensures Only(list, {id}) == [id]
  {
    if list[0] == id {
      OnlySame(list[1..], {id}, {});
      OnlyNone(list[1..]);
    } else {
      OnlyOne(list[1..], id);
    }
  }

  lemma {:induction false} OnlyNone(list: seq<Id>)
    ensures Only(list, {}) == []
  {
    if list != [] {
      OnlyNone(list[1..]);
    }
  }

  /** There is room exactly if the page fits into what is free already, or into the limit without the
      last page of the list and with the pages of unreferenced networks counted twice. The last page
      counts against it only if it is a special page, chosen in the last step of all. */
  lemma RoomIsFound(c: Cache, former: Option<Id>, size: nat)
    requires Sound(c) && IdlePage(c, former)
    ensures Found(c, former, size)
      <==> size <= Available(c, former)
           || size + TailSize(c, former) <= c.limit + Sum(c.pages, FirstScan(c, former))
  {
    SumOfSecondScan(c, former);
    SumConcat(c.pages, FirstScan(c, former), SecondScan(c, former));
    hide Sound;
    hide FirstScan;
    hide SecondScan;
    hide TailSize;
    hide Sum;
  }

  /** With all networks of idle pages referenced none counts twice. */
  lemma RoomIfReferenced(c: Cache, former: Option<Id>, size: nat)
    requires Sound(c) && IdlePage(c, former) && FirstScan(c, former) == []
    ensures Found(c, former, size) <==> size <= Available(c, former) || size + TailSize(c, former) <= c.limit
  {
    RoomIsFound(c, former, size);
    hide Sound;
    hide FirstScan;
    hide SecondScan;
    hide TailSize;
  }

  // The array of pages to delete.

  ghost predicate Sized(pages: map<Id, Page>, least: nat, most: nat) {
    forall id :: id in pages ==> least <= pages[id].size <= most
  }

  lemma {:induction false} SumAtLeast(pages: map<Id, Page>, ids: seq<Id>, least: nat, most: nat)
    requires Sized(pages, least, most) && forall id :: id in ids ==> id in pages
    ensures Sum(pages, ids) >= |ids| * least
  {
    if ids != [] {
      SumAtLeast(pages, ids[1..], least, most);
      assert |ids| * least == (|ids| - 1) * least + least;
    }
  }

  /** All pages the two scans look at, with the one for which the second scan comes too late. */
  function Everything(c: Cache, former: Option<Id>): seq<Id> {
    FirstScan(c, former) +
    (Only(c.priority, Others(c, Normal, true, former)) + Only(c.priority, Others(c, Special, true, former)))
  }

  /** What the array is filled with, whether the put succeeds or is refused. */
  function DeathRow(c: Cache, former: Option<Id>, size: nat): seq<Id> {
    FormerRow(former) + Take(c.pages, Everything(c, former), size - Available(c, former))
  }

  /** The array of twenty entries does not overflow. */
  predicate PutFits(c: Cache, net: Id, r: Received, clock: bool)
    requires |c.hash| == HASH_SIZE && r.pgno <= 0x8FF
  {
    var (d, former) := Prepare(c, net, r, clock);
    r.pgno % 256 != 0xFF ==> |DeathRow(d, former, r.size)| <= 20
  }

  lemma TakeEnough(pages: map<Id, Page>, b: seq<Id>, more: seq<Id>, m: int)
    requires Sum(pages, b) >= m
    ensures Take(pages, b + more, m) == Take(pages, b, m)
  {
    hide Sum;
    hide Take;
    TakeConcat(pages, b, more, m);
    TakeIsShortest(pages, b, m);
    TakeNothing(pages, more, m - Sum(pages, Take(pages, b, m)));
    assert Take(pages, b, m) + [] == Take(pages, b, m);
  }

  lemma TailOfScan(list: seq<Id>, s: set<Id>) returns (tail: seq<Id>)
    ensures Only(list, s) == Only(ButLast(list), s) + tail && |tail| <= 1
  {
    if list == [] {
      tail := [];
    } else {
      var k := |list| - 1;
      assert list == list[..k] + [list[k]];
      OnlyConcat(list[..k], [list[k]], s);
      tail := Only([list[k]], s);
    }
  }

  /** If the put succeeds these are the pages deleted. */
  lemma DeathRowIsRow(c: Cache, former: Option<Id>, size: nat)
    requires Found(c, former, size)
    ensures DeathRow(c, former, size) == Row(c, former, size)
  {
    hide Sum;
    hide Take;
    hide Only;
    hide Others;
    hide Available;
    var need := size - Available(c, former);
    var n, s := Only(c.priority, Others(c, Normal, true, former)), Others(c, Special, true, former);
    var tail := TailOfScan(c.priority, s);
    EnoughCandidates(c, former, size);
    assert Everything(c, former) == Candidates(c, former) + tail;
    TakeEnough(c.pages, Candidates(c, former), tail, need);
  }

  lemma EverythingIsIdle(c: Cache, former: Option<Id>)
    requires Sound(c) && IdlePage(c, former)
    ensures AllIdle(c.pages, Everything(c, former))
  {
    hide Sound;
    hide Only;
    hide Distinct;
    hide GoodScan;
    PriorityIn(c);
    var l := c.priority;
    TwoScansAreIdle(c, former, l, Others(c, Normal, false, former), l, Others(c, Special, false, former));
    TwoScansAreIdle(c, former, l, Others(c, Normal, true, former), l, Others(c, Special, true, former));
    GoodScansIdle(c, former, FirstScan(c, former),
        Only(l, Others(c, Normal, true, former)) + Only(l, Others(c, Special, true, former)));
  }

  lemma GoodScansIdle(c: Cache, former: Option<Id>, a: seq<Id>, b: seq<Id>)
    requires GoodScan(c, former, a) && GoodScan(c, former, b)
    ensures AllIdle(c.pages, a + b)
  {
  }

  /** All but the last page taken are not enough. */
  lemma OneLessIsTooLittle(pages: map<Id, Page>, ids: seq<Id>, need: int)
    requires Take(pages, ids, need) != []
    ensures var r := Take(pages, ids, need); Sum(pages, r[..|r| - 1]) < need
  {
    hide Sum;
    hide Take;
    TakeIsShortest(pages, ids, need);
    var r := Take(pages, ids, need);
    if Sum(pages, ids) < need {
      assert r[..|r| - 1] + [r[|r| - 1]] == ids;
      SumConcat(pages, r[..|r| - 1], [r[|r| - 1]]);
    }
  }

  /** Twenty entries suffice, whether there is room or not, if the new page is no more than twenty times as
      large as any other. */
  lemma TwentySuffice(c: Cache, former: Option<Id>, size: nat, least: nat, most: nat)
    requires Valid(c) && IdlePage(c, former)
    requires Sized(c.pages, least, most) && 0 < least && size <= 20 * least
    ensures |DeathRow(c, former, size)| <= 20
  {
    hide Sound;
    hide Everything;
    hide Sum;
    hide Take;
    var need := size - Available(c, former);
    var r := Take(c.pages, Everything(c, former), need);
    EverythingIsIdle(c, former);
    TakeMembers(c.pages, Everything(c, former), need);
    if r != [] {
      var q := r[..|r| - 1];
      OneLessIsTooLittle(c.pages, Everything(c, former), need);
      SumAtLeast(c.pages, q, least, most);
      assert (|r| - 1) * least < size - FormerSize(c, former);
      if |r| + |FormerRow(former)| > 20 {
        TooMany(|r| - 1, least, |FormerRow(former)|);
      }
    }
  }

  lemma TooMany(k: nat, least: nat, former: nat)
    requires k + former >= 20 && former <= 1
    ensures k * least + former * least >= 20 * least
  {
    assert (k + former) * least >= 20 * least;
  }

  /** The array does not overflow if the new page is no more than twenty times as large as any other. */
  lemma SizedPutFits(c: Cache, net: Id, r: Received, clock: bool, least: nat, most: nat)
    requires Valid(c) && r.pgno <= 0x8FF
    requires Sized(c.pages, least, most) && 0 < least && r.size <= 20 * least
    ensures |c.hash| == HASH_SIZE && PutFits(c, net, r, clock)
  {
    hide Sound;
    hide Prepare;
    hide DeathRow;
    hide Sized;
    PrepareKeeps(c, net, r, clock);
    PrepareSized(c, net, r, clock, least, most);
    var (d, former) := Prepare(c, net, r, clock);
    TwentySuffice(d, former, r.size, least, most);
  }
}
