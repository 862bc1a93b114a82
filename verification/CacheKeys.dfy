/** How many versions of a page the cache holds, and that a lookup returns the last one put. */
module CacheKeys {
  import opened Options
  import opened LinkedLists
  import opened PageCache
  import opened PageEviction
  import opened CacheNetworks
  import opened CachePages
  import opened CachePut
  import opened CacheRecency
  import Bcd

  predicate Keyed(p: Page, net: Id, pgno: nat) {
    IsLive(p) && p.net == net && p.pgno == pgno
  }

  /** No two live pages of this network and number agree in these bits of the subpage number. */
  ghost predicate UniqueUnder(pages: map<Id, Page>, net: Id, pgno: nat, mask: Word) {
    forall i, j ::
      (i in pages && j in pages && Keyed(pages[i], net, pgno) && Keyed(pages[j], net, pgno)
       && Agree(pages[i].subno, pages[j].subno, mask)) ==> i == j
  }

  /** Hex pages: the low four bits of the subpage number tell versions apart. */
  ghost predicate HexUnique(pages: map<Id, Page>) {
    forall net, pgno: nat :: pgno <= 0x8FF && !Bcd.IsBcd(pgno as Word) ==> UniqueUnder(pages, net, pgno, 0x0F)
  }

  lemma KeptUnique(a: map<Id, Page>, b: map<Id, Page>, net: Id, pgno: nat, mask: Word)
    requires KeptKeys(a, b) && UniqueUnder(a, net, pgno, mask)
    ensures UniqueUnder(b, net, pgno, mask)
  {
  }

  lemma KeptHexUnique(a: map<Id, Page>, b: map<Id, Page>)
    requires KeptKeys(a, b) && HexUnique(a)
    ensures HexUnique(b)
  {
    hide UniqueUnder;
    hide KeptKeys;
    forall net, pgno: nat | pgno <= 0x8FF && !Bcd.IsBcd(pgno as Word) ensures UniqueUnder(b, net, pgno, 0x0F) {
      KeptUnique(a, b, net, pgno, 0x0F);
    }
  }

  lemma MaskTwice(s: Word, subno: Word, mask: Word)
    ensures Agree(s, subno & mask, mask) <==> Agree(s, subno, mask)
  {
  }

  lemma AgreeBoth(s: Word, t: Word, subno: Word, mask: Word)
    requires Agree(s, subno, mask)
    ensures Agree(subno, s, mask)
    ensures Agree(t, subno, mask) ==> Agree(s, t, mask)
  {
  }

  /** Only `former` matches, if there is one. */
  ghost predicate OnlyMatch(pages: map<Id, Page>, former: Option<Id>, net: Id, pgno: nat, subno: Word, mask: Word) {
    forall id :: id in pages && IsLive(pages[id]) && Matches(pages[id], net, pgno, subno, mask) ==> Some(id) == former
  }

  lemma HitIsOnlyMatch(pages: map<Id, Page>, id: Id, net: Id, pgno: nat, subno: Word, mask: Word)
    requires UniqueUnder(pages, net, pgno, mask) && Hit(pages, id, net, pgno, subno & mask, mask)
    ensures OnlyMatch(pages, Some(id), net, pgno, subno, mask)
  {
    hide Agree;
    MaskTwice(pages[id].subno, subno, mask);
    forall i | i in pages && IsLive(pages[i]) && Matches(pages[i], net, pgno, subno, mask) ensures i == id {
      AgreeBoth(pages[i].subno, pages[id].subno, subno, mask);
    }
  }

  lemma MissIsNoMatch(pages: map<Id, Page>, net: Id, pgno: nat, subno: Word, mask: Word)
    requires Miss(pages, net, pgno, subno & mask, mask)
    ensures OnlyMatch(pages, None, net, pgno, subno, mask)
  {
    hide Agree;
    forall id | id in pages && IsLive(pages[id]) ensures !Matches(pages[id], net, pgno, subno, mask) {
      MaskTwice(pages[id].subno, subno, mask);
      assert !Matches(pages[id], net, pgno, subno & mask, mask);
    }
  }

  lemma FindClears(c: Cache, net: Id, pgno: nat, subno: Word, mask: Word)
    requires Valid(c) && UniqueUnder(c.pages, net, pgno, mask)
    ensures |c.hash| == HASH_SIZE
    ensures var (d, found) := Find(c, net, pgno, subno & mask, mask);
            && Valid(d) && d.pages == c.pages
            && (found.Some? ==> found.value in d.pages && IsLive(d.pages[found.value]))
            && OnlyMatch(d.pages, found, net, pgno, subno, mask)
  {
    FindKeeps(c, net, pgno, subno & mask, mask);
    FindLive(c, net, pgno, subno & mask, mask);
    hide Valid;
    hide Find;
    hide Hit;
    hide Miss;
    hide UniqueUnder;
    hide OnlyMatch;
    var (d, found) := Find(c, net, pgno, subno & mask, mask);
    if found.Some? {
      HitIsOnlyMatch(c.pages, found.value, net, pgno, subno, mask);
    } else {
      MissIsNoMatch(c.pages, net, pgno, subno, mask);
    }
  }

  lemma RetireClears(c: Cache, found: Option<Id>, net: Id, pgno: nat, subno: Word, mask: Word)
    requires Valid(c) && (found.Some? ==> found.value in c.pages && IsLive(c.pages[found.value]))
    requires OnlyMatch(c.pages, found, net, pgno, subno, mask)
    ensures var (d, former) := Retire(c, found);
            OnlyMatch(d.pages, former, net, pgno, subno, mask) && KeptKeys(c.pages, d.pages)
  {
    hide Sound;
    if found.Some? {
      SoundPage(c, found.value);
    }
  }

  /** If versions are unique under the mask of the page put, none but the version to replace
      is left when it has been looked up. */
  lemma PrepareClears(c: Cache, net: Id, r: Received, clock: bool)
    requires Valid(c) && r.pgno <= 0x8FF
    requires UniqueUnder(c.pages, net, r.pgno, Key(r.pgno, r.subno, clock).1)
    ensures |c.hash| == HASH_SIZE
    ensures var (d, former) := Prepare(c, net, r, clock);
            && OnlyMatch(d.pages, former, net, r.pgno, Key(r.pgno, r.subno, clock).0, Key(r.pgno, r.subno, clock).1)
            && KeptKeys(c.pages, d.pages)
  {
    hide Valid;
    hide Key;
    hide Prepare;
    hide UniqueUnder;
    hide OnlyMatch;
    hide KeptKeys;
    var (subno, mask) := Key(r.pgno, r.subno, clock);
    FindClears(c, net, r.pgno, subno, mask);
    PrepareIs(c, net, r, clock, subno, mask);
    var (d, found) := Find(c, net, r.pgno, subno & mask, mask);
    hide Find;
    hide Retire;
    RetireClears(d, found, net, r.pgno, subno, mask);
  }

  lemma NoneAgrees(pages: map<Id, Page>, net: Id, pgno: nat, subno: Word, mask: Word, i: Id)
    requires OnlyMatch(pages, None, net, pgno, subno, mask) && i in pages && Keyed(pages[i], net, pgno)
    ensures !Agree(pages[i].subno, subno, mask) && !Agree(subno, pages[i].subno, mask)
  {
    hide Agree;
    assert !Matches(pages[i], net, pgno, subno, mask);
    if Agree(subno, pages[i].subno, mask) {
      AgreeBoth(subno, subno, pages[i].subno, mask);
    }
  }

  /** Once the version to replace is gone the new page is the only one with its key. */
  lemma InsertUnique(pages: map<Id, Page>, id: Id, p: Page, mask: Word)
    requires id !in pages && UniqueUnder(pages, p.net, p.pgno, mask)
    requires OnlyMatch(pages, None, p.net, p.pgno, p.subno, mask)
    ensures UniqueUnder(pages[id := p], p.net, p.pgno, mask)
  {
    hide OnlyMatch;
    hide Agree;
    hide Keyed;
    forall i | i in pages && Keyed(pages[i], p.net, p.pgno)
      ensures !Agree(pages[i].subno, p.subno, mask) && !Agree(p.subno, pages[i].subno, mask)
    {
      NoneAgrees(pages, p.net, p.pgno, p.subno, mask, i);
    }
  }

  lemma InsertOthers(pages: map<Id, Page>, id: Id, p: Page, net: Id, pgno: nat, mask: Word)
    requires id !in pages && UniqueUnder(pages, net, pgno, mask) && (p.net != net || p.pgno != pgno)
    ensures UniqueUnder(pages[id := p], net, pgno, mask)
  {
  }

  lemma ClearedOf(a: map<Id, Page>, b: map<Id, Page>, former: Option<Id>, net: Id, pgno: nat, subno: Word, mask: Word)
    requires OnlyMatch(a, former, net, pgno, subno, mask) && KeptKeys(a, b)
    requires former.Some? ==> former.value !in b
    ensures OnlyMatch(b, None, net, pgno, subno, mask)
  {
  }

  /** A put that succeeds inserts the page into a cache e from which only pages were removed,
      among them the version to replace; one that is refused only looks that version up. */
  lemma PutParts(c: Cache, net: Id, r: Received, clock: bool, memory: Option<Id>) returns (e: Cache)
    requires Valid(c) && net in c.nets && r.pgno <= 0x8FF && r.pgno % 256 != 0xFF
    requires memory.Some? ==> memory.value !in c.pages
    requires |c.hash| == HASH_SIZE && PutOnce(c, net, r, clock)
    ensures var (d, former) := Prepare(c, net, r, clock);
            var (out, result) := Put(c, net, r, clock, memory);
            var p := NewPage(net, r, Key(r.pgno, r.subno, clock).0);
            && (result.None? ==> out == d)
            && (result.Some? ==>
                  && (out, result) == Store(e, result.value, p)
                  && ChainsLeft(d, e) && result.value !in e.pages && net in e.nets
                  && (former.Some? ==> former.value !in e.pages)
                  && e.pages == d.pages - Elements(Row(d, former, r.size)))
  {
    hide Sound;
    hide Sum;
    hide Key;
    hide Prepare;
    hide Found;
    hide Reuses;
    hide Row;
    hide Store;
    hide EraseAll;
    hide PriorityOf;
    hide ChainsLeft;
    PrepareKeeps(c, net, r, clock);
    var (d, former) := Prepare(c, net, r, clock);
    e := d;
    if Found(d, former, r.size) {
      var row := Row(d, former, r.size);
      RowIsIdle(d, former, r.size);
      FormerInRow(d, former, r.size);
      if Reuses(d, former, r.size) {
        ReuseRow(d, former, r.size);
        e := Reuse(d, row[0], r.size);
        EraseLeaves(d, row[0]);
        assert Elements(row) == {row[0]};
        ChainsOfErase(d, row[0]);
        ChainsOfUsed(d, Erase(d, row[0]), e.used);
        ChainsHash(d, e);
        StoreResult(e, row[0], NewPage(net, r, Key(r.pgno, r.subno, clock).0));
      } else if memory.Some? {
        e := EraseAll(d, row);
        EraseAllLeaves(d, row);
        ChainsOfEraseAll(d, row);
        ChainsHash(d, e);
        StoreResult(e, memory.value, NewPage(net, r, Key(r.pgno, r.subno, clock).0));
      }
    }
  }

  lemma FormerInRow(c: Cache, former: Option<Id>, size: nat)
    ensures former.Some? ==> former.value in Row(c, former, size)
    ensures former.Some? && |Row(c, former, size)| == 1 ==> Row(c, former, size)[0] == former.value
  {
    hide Chosen;
    if former.Some? {
      assert Row(c, former, size)[0] == former.value;
    }
  }

  lemma ChainsOfUsed(c: Cache, d: Cache, used: int)
    requires ChainsLeft(c, d)
    ensures ChainsLeft(c, d.(used := used))
  {
  }

  lemma ChainsHash(c: Cache, d: Cache)
    requires ChainsLeft(c, d)
    ensures |d.hash| == HASH_SIZE
  {
  }

  lemma StoreResult(c: Cache, id: Id, p: Page)
    ensures Store(c, id, p).1.Some? ==> Store(c, id, p).1 == Some(id) && |c.hash| == HASH_SIZE && p.net in c.nets
    ensures |c.hash| == HASH_SIZE && p.net in c.nets ==> Store(c, id, p).1.Some?
  {
  }

  /** Putting a page keeps versions unique under the mask that the put itself uses, and any
      other pages unique. */
  lemma PutKeepsUnique(c: Cache, net: Id, r: Received, clock: bool, memory: Option<Id>, n: Id, g: nat, mask: Word)
    requires Valid(c) && net in c.nets && r.pgno <= 0x8FF && (memory.Some? ==> memory.value !in c.pages)
    requires |c.hash| == HASH_SIZE && PutOnce(c, net, r, clock)
    requires UniqueUnder(c.pages, n, g, mask)
    requires n == net && g == r.pgno ==> mask == Key(r.pgno, r.subno, clock).1
    ensures UniqueUnder(Put(c, net, r, clock, memory).0.pages, n, g, mask)
  {
    hide Valid;
    hide Key;
    hide Prepare;
    hide Store;
    hide UniqueUnder;
    hide OnlyMatch;
    hide KeptKeys;
    hide PutOnce;
    hide PriorityOf;
    if r.pgno % 256 != 0xFF {
      var e := PutParts(c, net, r, clock, memory);
      var (d, former) := Prepare(c, net, r, clock);
      var (out, result) := Put(c, net, r, clock, memory);
      var (subno, m) := Key(r.pgno, r.subno, clock);
      var p := NewPage(net, r, subno);
      hide Put;
      PrepareKeys(c, net, r, clock);
      KeptUnique(c.pages, d.pages, n, g, mask);
      if result.Some? {
        assert KeptKeys(d.pages, e.pages);
        hide ChainsLeft;
        KeptUnique(d.pages, e.pages, n, g, mask);
        StorePages(e, result.value, p);
        if n == net && g == r.pgno {
          PrepareClears(c, net, r, clock);
          ClearedOf(d.pages, e.pages, former, net, g, subno, m);
          InsertUnique(e.pages, result.value, p, m);
        } else {
          InsertOthers(e.pages, result.value, p, n, g, mask);
        }
      }
    }
  }

  lemma StorePages(c: Cache, id: Id, p: Page)
    ensures Store(c, id, p).1.Some? ==> Store(c, id, p).0.pages == c.pages[id := p]
  {
  }

  lemma PrepareKeys(c: Cache, net: Id, r: Received, clock: bool)
    requires Valid(c) && r.pgno <= 0x8FF
    ensures |c.hash| == HASH_SIZE && KeptKeys(c.pages, Prepare(c, net, r, clock).0.pages)
  {
    hide Sound;
    hide Find;
    hide Key;
    var (subno, mask) := Key(r.pgno, r.subno, clock);
    FindLive(c, net, r.pgno, subno & mask, mask);
    var (d, found) := Find(c, net, r.pgno, subno & mask, mask);
    RetireKeepsKeys(d, found);
  }

  lemma RetireKeepsKeys(c: Cache, found: Option<Id>)
    ensures KeptKeys(c.pages, Retire(c, found).0.pages)
  {
  }

  // Hex pages.

  lemma HexKey(r: Received, clock: bool)
    requires r.pgno <= 0x8FF && !Bcd.IsBcd(r.pgno as Word)
    ensures Key(r.pgno, r.subno, clock) == (r.subno, 0x0F)
  {
  }

  lemma PutKeepsHexUnique(c: Cache, net: Id, r: Received, clock: bool, memory: Option<Id>)
    requires Valid(c) && net in c.nets && r.pgno <= 0x8FF && (memory.Some? ==> memory.value !in c.pages)
    requires |c.hash| == HASH_SIZE && PutOnce(c, net, r, clock)
    requires HexUnique(c.pages)
    ensures HexUnique(Put(c, net, r, clock, memory).0.pages)
  {
    hide Valid;
    hide UniqueUnder;
    hide Put;
    hide PutOnce;
    forall n, g: nat | g <= 0x8FF && !Bcd.IsBcd(g as Word)
      ensures UniqueUnder(Put(c, net, r, clock, memory).0.pages, n, g, 0x0F)
    {
      if g == r.pgno {
        HexKey(r, clock);
      }
      hide Key;
      PutKeepsUnique(c, net, r, clock, memory, n, g, 0x0F);
    }
  }

  /** A lookup of a hex page by its version returns the only live page there is. */
  lemma HexLookup(c: Cache, id: Id, subno: Word)
    requires Valid(c) && HexUnique(c.pages) && id in c.pages && IsLive(c.pages[id])
    requires var p := c.pages[id]; GoodPgno(p.pgno) && !Bcd.IsBcd(p.pgno as Word) && Agree(p.subno, subno, 0x0F)
    requires subno != ANY_SUBNO
    ensures |c.hash| == HASH_SIZE
    ensures Get(c, c.pages[id].net, c.pages[id].pgno, subno, 0x0F).1 == Some(id)
  {
    hide Valid;
    hide Get;
    hide Agree;
    var p := c.pages[id];
    GetKeeps(c, p.net, p.pgno, subno, 0x0F);
    assert UniqueUnder(c.pages, p.net, p.pgno, 0x0F);
    var r := Get(c, p.net, p.pgno, subno, 0x0F).1;
    assert Matches(p, p.net, p.pgno, subno, 0x0F);
    if r.Some? {
      AgreeBoth(c.pages[r.value].subno, p.subno, subno, 0x0F);
      assert Keyed(c.pages[r.value], p.net, p.pgno) && Keyed(p, p.net, p.pgno);
    }
  }

  /** After a put of a hex page a lookup of that version returns it. */
  lemma GetReturnsPut(c: Cache, net: Id, r: Received, clock: bool, memory: Option<Id>)
    requires Valid(c) && net in c.nets && GoodPgno(r.pgno) && !Bcd.IsBcd(r.pgno as Word) && r.subno != ANY_SUBNO
    requires memory.Some? ==> memory.value !in c.pages
    requires |c.hash| == HASH_SIZE && PutOnce(c, net, r, clock) && (PutReuses(c, net, r, clock) ==> c.used == c.limit)
    requires HexUnique(c.pages)
    ensures var (d, result) := Put(c, net, r, clock, memory);
            && |d.hash| == HASH_SIZE
            && (result.Some? ==> Get(d, net, r.pgno, r.subno, 0x0F).1 == result)
  {
    hide Put;
    hide PutOnce;
    hide PutReuses;
    hide Get;
    hide HexUnique;
    hide Sound;
    hide PriorityOf;
    HexKey(r, clock);
    hide Key;
    PutKeeps(c, net, r, clock, memory);
    PutKeepsHexUnique(c, net, r, clock, memory);
    var (d, result) := Put(c, net, r, clock, memory);
    ChainMembers(d, 0);
    if result.Some? {
      var p := d.pages[result.value];
      assert p.net == net && p.pgno == r.pgno && p.subno == r.subno;
      HexLookup(d, result.value, r.subno);
    }
  }

  // Pages whose subpage number may be a time.

  /** A live page with exactly this number that is not in the list. */
  ghost predicate HasVersion(pages: map<Id, Page>, but: seq<Id>, net: Id, pgno: nat, subno: Word) {
    exists id :: id in pages && id !in but && Keyed(pages[id], net, pgno) && pages[id].subno == subno
  }

  lemma RetireVersions(c: Cache, found: Option<Id>, row: seq<Id>, net: Id, pgno: nat, subno: Word)
    requires Valid(c) && (found.Some? ==> found.value in c.pages && IsLive(c.pages[found.value]))
    requires var former := Retire(c, found).1; former.Some? ==> former.value in row
    ensures HasVersion(Retire(c, found).0.pages, row, net, pgno, subno)
        <==> HasVersion(c.pages, FormerRow(found) + row, net, pgno, subno)
  {
    hide Sound;
    var (d, former) := Retire(c, found);
    if found.Some? {
      SoundPage(c, found.value);
      if HasVersion(c.pages, [found.value] + row, net, pgno, subno) {
        var id :| id in c.pages && id !in [found.value] + row && Keyed(c.pages[id], net, pgno)
          && c.pages[id].subno == subno;
        assert id in d.pages && id !in row && Keyed(d.pages[id], net, pgno);
      }
      if HasVersion(d.pages, row, net, pgno, subno) {
        var id :| id in d.pages && id !in row && Keyed(d.pages[id], net, pgno) && d.pages[id].subno == subno;
        assert id in c.pages && id !in [found.value] + row && Keyed(c.pages[id], net, pgno);
      }
    } else {
      assert [] + row == row;
    }
  }

  lemma StoreVersions(pages: map<Id, Page>, rest: map<Id, Page>, row: seq<Id>, id: Id, p: Page)
    requires rest == pages - Elements(row) && id !in rest && IsLive(p)
    ensures HasVersion(rest[id := p], [id], p.net, p.pgno, p.subno)
        <==> HasVersion(pages, row, p.net, p.pgno, p.subno)
  {
    if HasVersion(pages, row, p.net, p.pgno, p.subno) {
      var o :| o in pages && o !in row && Keyed(pages[o], p.net, p.pgno) && pages[o].subno == p.subno;
      assert o in rest && o !in [id] && Keyed(rest[o], p.net, p.pgno);
    }
    if HasVersion(rest[id := p], [id], p.net, p.pgno, p.subno) {
      var out := rest[id := p];
      var o :| o in out && o !in [id] && Keyed(out[o], p.net, p.pgno) && out[o].subno == p.subno;
      assert o in pages && o !in row;
    }
  }

  /** The page a put finds to replace. */
  function FoundBy(c: Cache, net: Id, r: Received, clock: bool): Option<Id>
    requires |c.hash| == HASH_SIZE && r.pgno <= 0x8FF
  {
    var (subno, mask) := Key(r.pgno, r.subno, clock);
    Find(c, net, r.pgno, subno & mask, mask).1
  }

  /** The page a put finds, whether it is in use or not, and those it deletes to make room. */
  function PutRow(c: Cache, net: Id, r: Received, clock: bool): seq<Id>
    requires |c.hash| == HASH_SIZE && r.pgno <= 0x8FF
  {
    var (d, former) := Prepare(c, net, r, clock);
    FormerRow(FoundBy(c, net, r, clock)) + Row(d, former, r.size)
  }

  lemma FoundPages(c: Cache, net: Id, r: Received, subno: Word, mask: Word)
    requires Valid(c) && r.pgno <= 0x8FF
    ensures |c.hash| == HASH_SIZE
    ensures var (f, found) := Find(c, net, r.pgno, subno & mask, mask);
            Valid(f) && f.pages == c.pages && (found.Some? ==> found.value in f.pages && IsLive(f.pages[found.value]))
  {
    hide Valid;
    hide Find;
    FindLive(c, net, r.pgno, subno & mask, mask);
  }

  lemma PutRowIs(c: Cache, net: Id, r: Received, clock: bool, subno: Word, mask: Word)
    requires |c.hash| == HASH_SIZE && r.pgno <= 0x8FF && Key(r.pgno, r.subno, clock) == (subno, mask)
    ensures var (d, former) := Prepare(c, net, r, clock);
            PutRow(c, net, r, clock)
            == FormerRow(Find(c, net, r.pgno, subno & mask, mask).1) + Row(d, former, r.size)
  {
    hide Key;
    hide Find;
    hide Prepare;
    hide Row;
    hide FormerRow;
  }

  lemma PreparedVersions(c: Cache, net: Id, r: Received, clock: bool, subno: Word, mask: Word)
    requires Valid(c) && r.pgno <= 0x8FF && Key(r.pgno, r.subno, clock) == (subno, mask)
    ensures |c.hash| == HASH_SIZE
    ensures var (d, former) := Prepare(c, net, r, clock);
            HasVersion(d.pages, Row(d, former, r.size), net, r.pgno, subno)
            <==> HasVersion(c.pages, PutRow(c, net, r, clock), net, r.pgno, subno)
  {
    hide Valid;
    hide Key;
    hide Find;
    hide Prepare;
    hide Retire;
    hide HasVersion;
    hide Row;
    hide FormerRow;
    hide PutRow;
    FoundPages(c, net, r, subno, mask);
    PrepareIs(c, net, r, clock, subno, mask);
    PutRowIs(c, net, r, clock, subno, mask);
    var (f, found) := Find(c, net, r.pgno, subno & mask, mask);
    var (d, former) := Prepare(c, net, r, clock);
    FormerInRow(d, former, r.size);
    RetireVersions(f, found, Row(d, former, r.size), net, r.pgno, subno);
  }

  /** A put that succeeds leaves a second live page of the same number exactly if there was one besides
      the page it found and those it deleted. For a page without subpages or a clock page, whose put
      compares no bits of the subpage number, the page found is whichever was used last. */
  lemma VersionsRepeat(c: Cache, net: Id, r: Received, clock: bool, memory: Option<Id>)
    requires Valid(c) && net in c.nets && r.pgno <= 0x8FF && (memory.Some? ==> memory.value !in c.pages)
    requires |c.hash| == HASH_SIZE && PutOnce(c, net, r, clock)
    ensures var (out, result) := Put(c, net, r, clock, memory);
            var subno := Key(r.pgno, r.subno, clock).0;
            result.Some? ==>
              (HasVersion(out.pages, [result.value], net, r.pgno, subno)
               <==> HasVersion(c.pages, PutRow(c, net, r, clock), net, r.pgno, subno))
  {
    hide Valid;
    hide Key;
    hide Prepare;
    hide Store;
    hide HasVersion;
    hide PutOnce;
    hide PutRow;
    hide Row;
    hide PriorityOf;
    hide ChainsLeft;
    if r.pgno % 256 != 0xFF {
      var e := PutParts(c, net, r, clock, memory);
      var (out, result) := Put(c, net, r, clock, memory);
      hide Put;
      var (d, former) := Prepare(c, net, r, clock);
      PreparedVersions(c, net, r, clock, Key(r.pgno, r.subno, clock).0, Key(r.pgno, r.subno, clock).1);
      if result.Some? {
        var p := NewPage(net, r, Key(r.pgno, r.subno, clock).0);
        StorePages(e, result.value, p);
        StoreVersions(d.pages, e.pages, Row(d, former, r.size), result.value, p);
      }
    }
  }
}
