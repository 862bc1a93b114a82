/** The page cache as it is updated in place. Every method does to the cache what the function
    of the same purpose says about its value. */
module TeletextCache {
  import opened Options
  import opened LinkedLists
  import C = PageCache
  import opened PageEviction
  import opened CacheNetworks
  import opened CachePages
  import opened CachePut

  type Page = C.Page
  type Network = C.Network
  type Word = C.Word

  /** A page is deleted, or if somebody holds it, taken out of its chain. */
  function Deleted(c: C.Cache, id: Id): C.Cache
    requires C.Cached(c, id)
  {
    var p := c.pages[id];
    if p.refs > 0 then if p.priority == C.Zombie then c else C.Zombify(c, id)
    else if p.priority == C.Zombie then
      c.(referenced := Without(c.referenced, id), nets := c.nets[p.net := C.RemovePage(c.nets[p.net], p.pgno)],
         pages := c.pages - {id}, nPages := c.nPages - 1)
    else C.Erase(c, id)
  }

  /** One step of a loop that deletes the members of s. */
  lemma EraseStep(c: C.Cache, list: seq<Id>, s: set<Id>)
    requires C.Sound(c) && list != [] && Distinct(list) && AllIdle(c.pages, list)
    ensures C.Cached(c, list[0]) && Deleted(c, list[0]) == C.Erase(c, list[0])
    ensures list[0] in s ==>
              var d := C.Erase(c, list[0]);
              && C.Sound(d) && AllIdle(d.pages, list[1..]) && Erased(c, d, {list[0]})
              && EraseAll(c, Only(list, s)) == EraseAll(d, Only(list[1..], s))
    ensures list[0] !in s ==> AllIdle(c.pages, list[1..]) && Only(list, s) == Only(list[1..], s)
  {
    hide C.Sound;
    C.SoundPage(c, list[0]);
    EraseLeaves(c, list[0]);
    if list[0] in s {
      ErasedIdle(c, C.Erase(c, list[0]), list[0], list[1..]);
      assert Only(list, s)[0] == list[0] && Only(list, s)[1..] == Only(list[1..], s);
    }
    hide C.Erase;
  }

  lemma TakeOnlyHead(pages: map<Id, Page>, list: seq<Id>, s: set<Id>, need: int)
    requires list != [] && need > 0 && list[0] in s
    ensures Take(pages, Only(list, s), need) == [list[0]]
        + Take(pages, Only(list[1..], s), need - C.SizeOf(pages, list[0]))
  {
    assert Only(list, s)[0] == list[0] && Only(list, s)[1..] == Only(list[1..], s);
    hide Only;
    TakeHead(pages, Only(list, s), need);
  }

  lemma EraseAllHead(c: C.Cache, id: Id, rest: seq<Id>)
    requires C.Cached(c, id)
    ensures EraseAll(c, [id] + rest) == EraseAll(C.Erase(c, id), rest)
  {
    assert ([id] + rest)[1..] == rest;
  }

  /** One step of a loop that deletes members of s until the memory is within the limit. */
  lemma TakeStep(c: C.Cache, list: seq<Id>, s: set<Id>)
    requires C.Sound(c) && list != [] && Distinct(list) && AllIdle(c.pages, list) && c.used > c.limit
    ensures C.Cached(c, list[0])
    ensures list[0] in s ==>
              var d := C.Erase(c, list[0]);
              EraseAll(c, Take(c.pages, Only(list, s), c.used - c.limit))
              == EraseAll(d, Take(d.pages, Only(list[1..], s), d.used - d.limit))
  {
    hide C.Sound;
    hide Only;
    hide Take;
    hide EraseAll;
    C.SoundPage(c, list[0]);
    EraseLeaves(c, list[0]);
    if list[0] in s {
      var d := C.Erase(c, list[0]);
      var rest := Only(list[1..], s);
      OnlyMembers(list[1..], s);
      TakeOnlyHead(c.pages, list, s, c.used - c.limit);
      TakeFrame(c.pages, d.pages, rest, d.used - d.limit);
      EraseAllHead(c, list[0], Take(c.pages, rest, d.used - d.limit));
    }
    hide C.Erase;
  }

  /** Whether the pages of the list fit is still known from the start of the pass. */
  ghost predicate SameFit(c: C.Cache, list: seq<Id>, pri: C.Priority, any: bool, s: set<Id>) {
    forall id :: id in list ==> (Fits(c, id, pri, any) <==> id in s)
  }

  lemma FitAtFirst(c: C.Cache, list: seq<Id>, pri: C.Priority, any: bool)
    ensures SameFit(c, list, pri, any, Fitting(c, pri, any))
  {
  }

  lemma SameFitStep(c: C.Cache, list: seq<Id>, pri: C.Priority, any: bool, s: set<Id>)
    requires C.Sound(c) && list != [] && Distinct(list) && AllIdle(c.pages, list) && SameFit(c, list, pri, any, s)
    ensures C.Cached(c, list[0]) && (Fits(c, list[0], pri, any) <==> list[0] in s)
    ensures SameFit(c, list[1..], pri, any, s) && SameFit(C.Erase(c, list[0]), list[1..], pri, any, s)
  {
    hide C.Sound;
    hide C.Erase;
    C.SoundPage(c, list[0]);
    EraseLeaves(c, list[0]);
  }

  lemma PassWithinLimit(c: C.Cache, list: seq<Id>, s: set<Id>)
    requires c.used <= c.limit
    ensures EraseAll(c, Take(c.pages, Only(list, s), c.used - c.limit)) == c
  {
  }

  class TeletextCache {
    var pages: map<Id, Page>
    var hash: seq<seq<Id>>
    var priority: seq<Id>
    var referenced: seq<Id>
    var nets: map<Id, Network>
    var netList: seq<Id>
    var used: int
    var limit: int
    var nPages: int
    var nNets: int
    var maxNets: int

    function View(): C.Cache
      reads this
    {
      C.Cache(pages, hash, priority, referenced, nets, netList, used, limit, nPages, nNets, maxNets)
    }

    constructor ()
      ensures Valid(View()) && pages == map[] && nets == map[] && limit == 0x4000_0000 && maxNets == 1
    {
      pages, hash, priority, referenced := map[], seq(C.HASH_SIZE, i => []), [], [];
      nets, netList, used, limit := map[], [], 0, 0x4000_0000;
      nPages, nNets, maxNets := 0, 0, 1;
      new;
      EmptyIsValid(View());
    }

    method Unhash(id: Id)
      requires C.Cached(View(), id)
      modifies this
      ensures View() == old(View()).(hash := C.Unhash(old(View()), id))
    {
      var h := C.Hash(pages[id].pgno);
      hash := hash[h := Without(hash[h], id)];
    }

    method RemoveFromNetwork(id: Id)
      requires C.Cached(View(), id)
      modifies this
      ensures View()
          == old(View()).(nets := old(nets)[old(pages)[id].net := C.RemovePage(old(nets)[old(pages)[id].net],
          old(pages)[id].pgno)])
    {
      var p := pages[id];
      var n := nets[p.net];
      nets := nets[p.net := n.(cached := n.cached - 1, subpages := n.subpages[p.pgno := C.Stat(n, p.pgno) - 1])];
    }

    method DeletePage(id: Id)
      requires C.Cached(View(), id)
      modifies this
      ensures View() == Deleted(old(View()), id)
    {
      var p := pages[id];
      if p.refs > 0 {
        if p.priority != C.Zombie {
          Unhash(id);
          pages := pages[id := p.(priority := C.Zombie)];
        }
        return;
      }
      if p.priority != C.Zombie {
        used := used - p.size;
        Unhash(id);
        priority := Without(priority, id);
      } else {
        referenced := Without(referenced, id);
      }
      RemoveFromNetwork(id);
      pages := pages - {id};
      nPages := nPages - 1;
    }

    method DeleteAllPages(n: Id)
      requires C.Sound(View())
      modifies this
      ensures View() == CacheNetworks.DeleteAllPages(old(View()), n)
    {
      hide C.Sound;
      hide C.Erase;
      hide Deleted;
      ghost var s := C.Where(pages, C.OfNet(n));
      var list := priority;
      PriorityIn(View());
      for i := 0 to |list|
        invariant C.Sound(View()) && Distinct(list[i..]) && AllIdle(pages, list[i..])
        invariant forall id :: id in list[i..] ==> (pages[id].net == n <==> id in s)
        invariant EraseAll(View(), Only(list[i..], s)) == EraseAll(old(View()), Only(list, s))
      {
        EraseStep(View(), list[i..], s);
        assert list[i..][1..] == list[i + 1..];
        if pages[list[i]].net == n {
          DeletePage(list[i]);
        }
      }
    }
  
    /** One pass over the eviction list; TRUE if the memory is within the limit. */
    method ScanPages(pri: C.Priority, any: bool) returns (done: bool)
      requires C.Sound(View())
      modifies this
      ensures View() == Pass(old(View()), pri, any) && C.Sound(View())
      ensures done ==> used <= limit
    {
      hide C.Sound;
      hide C.Erase;
      hide Deleted;
      hide Take;
      hide Only;
      hide EraseAll;
      hide SameFit;
      hide Fitting;
      ghost var s := Fitting(View(), pri, any);
      var list := priority;
      PriorityIn(View());
      FitAtFirst(View(), list, pri, any);
      for i := 0 to |list|
        invariant C.Sound(View()) && Distinct(list[i..]) && AllIdle(pages, list[i..]) && limit == old(limit)
        invariant SameFit(View(), list[i..], pri, any, s)
        invariant EraseAll(View(), Take(pages, Only(list[i..], s), used - limit)) == Pass(old(View()), pri, any)
      {
        if used <= limit {
          PassWithinLimit(View(), list[i..], s);
          return true;
        }
        EraseStep(View(), list[i..], s);
        TakeStep(View(), list[i..], s);
        SameFitStep(View(), list[i..], pri, any, s);
        assert list[i..][1..] == list[i + 1..];
        if pages[list[i]].priority == pri && (any || nets[pages[list[i]].net].refs == 0) {
          DeletePage(list[i]);
        }
      }
      EraseRest(View(), list[|list|..], s);
      done := false;
    }
  
    /** Deletes pages until the memory used is within the limit: of networks nobody references
        first, ordinary pages before special pages, the oldest first. */
    method DeleteSurplusPages()
      requires C.Sound(View())
      modifies this
      ensures View() == WithoutSurplus(old(View()))
    {
      hide C.Sound;
      hide Pass;
      hide WithoutSurplus;
      PassesDeleteSurplus(View());
      var done := ScanPages(C.Normal, false);
      if !done {
        done := ScanPages(C.Special, false);
      } else {
        PassIsOver(View(), C.Special, false);
      }
      if !done {
        done := ScanPages(C.Normal, true);
      } else {
        PassIsOver(View(), C.Normal, true);
      }
      if !done {
        done := ScanPages(C.Special, true);
      } else {
        PassIsOver(View(), C.Special, true);
      }
    }

    method DeleteNetwork(n: Id)
      requires C.Sound(View()) && n in nets
      modifies this
      ensures View() == CacheNetworks.DeleteNetwork(old(View()), n)
    {
      hide C.Sound;
      hide CacheNetworks.DeleteAllPages;
      DeleteAllPagesKeeps(View(), n);
      if nets[n].cached > 0 {
        DeleteAllPages(n);
      }
      if !nets[n].zombie {
        nNets := nNets - 1;
      }
      if nets[n].refs > 0 || nets[n].referenced > 0 {
        nets := nets[n := nets[n].(zombie := true)];
        return;
      }
      netList := Without(netList, n);
      nets := nets - {n};
    }

    /** Looks a page up and moves it to the front of its chain. */
    method PageByPgno(net: Id, pgno: nat, subno: Word, mask: Word) returns (found: Option<Id>)
      requires C.Sound(View()) && |hash| == C.HASH_SIZE
      modifies this
      ensures (View(), found) == Find(old(View()), net, pgno, subno, mask)
    {
      hide C.Sound;
      hide C.Hash;
      hide Matches;
      var h := C.Hash(pgno);
      var list := hash[h];
      for i := 0 to |list|
        invariant View() == old(View())
        invariant First(pages, list[i..], net, pgno, subno, mask) == First(pages, list, net, pgno, subno, mask)
      {
        assert list[i..][1..] == list[i + 1..];
        if list[i] in pages && Matches(pages[list[i]], net, pgno, subno, mask) {
          MatchHash(View(), list[i], net, pgno, subno, mask);
          hash := hash[h := [list[i]] + Without(list, list[i])];
          return Some(list[i]);
        }
      }
      return None;
    }

    method PageRef(id: Id)
      requires C.Cached(View(), id)
      modifies this
      ensures View() == Ref(old(View()), id)
    {
      var p := pages[id];
      if p.refs == 0 {
        var n := nets[p.net];
        if n.zombie {
          nNets := nNets + 1;
        }
        nets := nets[p.net := n.(zombie := false, referenced := n.referenced + 1)];
        used := used - p.size;
        priority := Without(priority, id);
        referenced := referenced + [id];
      }
      pages := pages[id := p.(refs := p.refs + 1)];
    }

    method PageUnref(id: Id)
      requires Valid(View()) && id in pages
      modifies this
      ensures Valid(View())
      ensures C.Cached(old(View()), id) && View() == Unref(old(View()), id)
    {
      hide C.Sound;
      hide CacheNetworks.DeleteNetwork;
      hide WithoutSurplus;
      hide C.EraseZombie;
      hide C.Release;
      C.SoundPage(View(), id);
      UnrefKeeps(View(), id);
      var p := pages[id];
      if p.refs == 0 {
        return;
      }
      if p.refs > 1 {
        pages := pages[id := p.(refs := p.refs - 1)];
        return;
      }
      LastUnref(View(), id);
      GiveUp(id);
      if nets[p.net].zombie && nets[p.net].referenced == 0 && nets[p.net].refs == 0 {
        NoPagesCounted(View(), p.net);
        DeleteNetworkKeeps(View(), p.net);
        DeleteNetwork(p.net);
      } else {
        NoPagesCounted(View(), p.net);
      }
      if used > limit {
        DeleteSurplusPages();
      }
    }

    /** The last reference to a page is given up. */
    method GiveUp(id: Id)
      requires C.Cached(View(), id) && pages[id].refs == 1
      modifies this
      ensures View() == if old(pages)[id].priority
          == C.Zombie then C.EraseZombie(old(View()), id) else C.Release(old(View()), id)
    {
      var p := pages[id];
      pages := pages[id := p.(refs := 0)];
      if p.priority == C.Zombie {
        DeletePage(id);
      } else {
        referenced := Without(referenced, id);
        priority := priority + [id];
        used := used + p.size;
      }
      nets := nets[p.net := nets[p.net].(referenced := nets[p.net].referenced - 1)];
    }

    method GetPage(net: Id, pgno: int, subno: Word, mask: Word) returns (result: Option<Id>)
      requires Valid(View()) && |hash| == C.HASH_SIZE
      modifies this
      ensures (View(), result) == Get(old(View()), net, pgno, subno, mask)
      ensures Valid(View())
    {
      hide C.Sound;
      hide Find;
      hide Ref;
      GetKeeps(View(), net, pgno, subno, mask);
      if pgno < 0x100 || pgno > 0x8FF || pgno % 256 == 0xFF {
        return None;
      }
      var m := if subno == ANY_SUBNO then 0 else mask;
      FindKeeps(View(), net, pgno, subno, m);
      FindLive(View(), net, pgno, subno, m);
      result := PageByPgno(net, pgno, subno, m);
      if result.Some? {
        C.SoundPage(View(), result.value);
        PageRef(result.value);
      }
    }
  
    /** One scan for pages to replace. The memory is compared before each page is looked at. */
    method CollectPages(pri: C.Priority, any: bool, former: Option<Id>, size: nat, row0: seq<Id>, available0: int,
                        ghost rest: seq<Id>)
      returns (row: seq<Id>, available: int, enough: bool)
      requires C.Sound(View()) && used <= limit
      requires var s := Others(View(), pri, any, former);
               |row0| + |Take(pages, Only(priority, s) + rest, size - available0)| <= 20
      requires available0 == limit - used + C.Sum(pages, row0) && forall id :: id in row0 ==> id in pages
      ensures var s := Others(View(), pri, any, former);
              var taken := Take(pages, Only(priority, s), size - available0);
              && row == row0 + taken && available == available0 + C.Sum(pages, taken)
              && (enough <==> priority != [] && C.Sum(pages, Only(ButLast(priority), s)) >= size - available0)
              && (enough ==> available >= size)
      ensures available == limit - used + C.Sum(pages, row) && forall id :: id in row ==> id in pages
    {
      hide C.Sound;
      hide C.Sum;
      hide Take;
      hide Only;
      hide ButLast;
      ghost var s := Others(View(), pri, any, former);
      row, available, enough := row0, available0, false;
      PriorityIn(View());
      OnlyFirst(pages, priority, s);
      assert row0 + [] == row0;
      for i := 0 to |priority|
        invariant row == row0 + Only(priority[..i], s)
        invariant available == available0 + C.Sum(pages, Only(priority[..i], s))
        invariant i > 0 ==> C.Sum(pages, Only(priority[..i - 1], s)) < size - available0
        invariant available == limit - used + C.Sum(pages, row) && forall id :: id in row ==> id in pages
      {
        if available >= size {
          TakeUpTo(pages, priority, i, s, size - available0);
          enough := true;
          return;
        }
        var id := priority[i];
        OnlyNext(pages, priority, i, s);
        C.SoundPage(View(), id);
        if pages[id].priority == pri && (any || nets[pages[id].net].refs == 0) && former != Some(id) {
          MoreToTake(pages, priority, i, s, rest, size - available0);
          assert |row| < 20;
          SumOfOneMore(pages, row, id);
          row := row + [id];
          available := available + pages[id].size;
        }
      }
      TakeUpTo(pages, priority, |priority|, s, size - available0);
    }
  
    /** Chooses the pages to replace, besides the former version of the page. */
    method MakeRoom(former: Option<Id>, size: nat, available0: int)
        returns (row: seq<Id>, available: int, enough: bool)
      requires C.Sound(View()) && used <= limit && IdlePage(View(), former)
      requires |DeathRow(View(), former, size)| <= 20
      requires available0 == Available(View(), former) && size > available0
      ensures enough == Found(View(), former, size)
      ensures enough ==>
                row == Row(View(), former, size) && available == available0 + C.Sum(pages, Chosen(View(), former, size))
    {
      hide C.Sound;
      hide C.Sum;
      hide Take;
      hide Only;
      hide Others;
      ghost var c := View();
      ghost var l, need := priority, size - available0;
      ghost var n0, s0, n1, s1 := Others(c, C.Normal, false, former), Others(c, C.Special, false, former),
          Others(c, C.Normal, true, former), Others(c, C.Special, true, former);
      ghost var a1 := Only(l, n0);
      ghost var a2 := a1 + Only(l, s0);
      ghost var a3 := a2 + Only(l, n1);
      ghost var b := Only(ButLast(l), s1);
      assert Candidates(c, former) == a3 + b;
      ghost var r1, r2, r3 := Only(l, s0) + (Only(l, n1) + Only(l, s1)), Only(l, n1) + Only(l, s1), Only(l, s1);
      assert Everything(c, former) == a1 + r1;
      SumOfFormer(c, former);
      FormerInPages(c, former);
      row := FormerRow(former);
      row, available, enough := CollectPages(C.Normal, false, former, size, row, available0, r1);
      if enough {
        EnoughEarly(pages, former, size, available0, a1, Only(l, s0) + Only(l, n1) + b, row, available);
        assert a1 + (Only(l, s0) + Only(l, n1) + b) == a3 + b;
        return;
      }
      ghost var row1, available1 := row, available;
      RoomForMore(pages, FormerRow(former), available0, a1, r1, size);
      row, available, enough := CollectPages(C.Special, false, former, size, row, available, r2);
      GatherMore(pages, former, size, available0, a1, Only(l, s0), row1, available1, row, available);
      if enough {
        EnoughEarly(pages, former, size, available0, a2, Only(l, n1) + b, row, available);
        assert a2 + (Only(l, n1) + b) == a3 + b;
        return;
      }
      ghost var row2, available2 := row, available;
      RoomForMore(pages, row1, available1, Only(l, s0), r2, size);
      row, available, enough := CollectPages(C.Normal, true, former, size, row, available, r3);
      GatherMore(pages, former, size, available0, a2, Only(l, n1), row2, available2, row, available);
      if enough {
        EnoughEarly(pages, former, size, available0, a3, b, row, available);
        return;
      }
      ghost var row3, available3 := row, available;
      RoomForMore(pages, row2, available2, Only(l, n1), r3, size);
      assert r3 + [] == r3;
      row, available, enough := CollectPages(C.Special, true, former, size, row, available, []);
      ScansOfNothing(l, n0, s0, n1);
      EnoughLast(pages, former, size, available0, l, a3, s1, row3, available3, row, available);
    }
  
    /** A version in use becomes a zombie; another one is the first to be replaced. */
    method RetirePage(found: Option<Id>) returns (former: Option<Id>)
      requires found.Some? ==> C.Cached(View(), found.value)
      modifies this
      ensures (View(), former) == Retire(old(View()), found)
    {
      former := None;
      if found.Some? {
        if pages[found.value].refs > 0 {
          Unhash(found.value);
          pages := pages[found.value := pages[found.value].(priority := C.Zombie)];
        } else {
          former := found;
        }
      }
    }

    /** The pages chosen are deleted. */
    method DeleteRow(row: seq<Id>)
      requires C.Sound(View()) && Distinct(row) && AllIdle(pages, row)
      modifies this
      ensures View() == EraseAll(old(View()), row)
    {
      hide C.Sound;
      hide C.Erase;
      hide Deleted;
      for i := 0 to |row|
        invariant C.Sound(View()) && Distinct(row[i..]) && AllIdle(pages, row[i..])
        invariant EraseAll(View(), row[i..]) == EraseAll(old(View()), row)
      {
        ghost var s := Elements(row[i..]);
        EraseStep(View(), row[i..], s);
        assert row[i..][1..] == row[i + 1..];
        EraseAllHead(View(), row[i], row[i + 1..]);
        assert row[i..] == [row[i]] + row[i + 1..];
        DeletePage(row[i]);
      }
    }

    /** The new page is linked into its chain and the list of referenced pages, and counted. */
    method LinkPage(id: Id, p: Page)
      requires |hash| == C.HASH_SIZE && p.net in nets
      modifies this
      ensures View() == C.Insert(old(View()), id, p).(nPages := old(nPages))
    {
      var h := C.Hash(p.pgno);
      hash := hash[h := [id] + hash[h]];
      var n := nets[p.net];
      referenced := referenced + [id];
      if n.zombie {
        nNets := nNets + 1;
      }
      nets := nets[p.net := n.(zombie := false, referenced := n.referenced + 1, cached := n.cached + 1,
                               subpages := n.subpages[p.pgno := C.Stat(n, p.pgno) + 1])];
      pages := pages[id := p];
    }

    /** The page to replace is unlinked and its memory used for the new page. */
    method ReusePage(id: Id, p: Page)
      requires C.Cached(View(), id) && p.net in nets
      modifies this
      ensures View() == C.Insert(Reuse(old(View()), id, p.size), id, p)
    {
      priority := Without(priority, id);
      Unhash(id);
      RemoveFromNetwork(id);
      used := used - p.size;
      pages := pages - {id};
      LinkPage(id, p);
    }

    /** Looks up the version to replace. */
    method PreparePage(net: Id, r: C.Received, clock: bool) returns (former: Option<Id>)
      requires Valid(View()) && |hash| == C.HASH_SIZE && 0x100 <= r.pgno <= 0x8FF
      modifies this
      ensures (View(), former) == Prepare(old(View()), net, r, clock)
    {
      hide C.Sound;
      hide Find;
      hide Retire;
      hide Key;
      hide Prepare;
      var (subno, mask) := Key(r.pgno, r.subno, clock);
      FindLive(View(), net, r.pgno, subno & mask, mask);
      PrepareIs(View(), net, r, clock, subno, mask);
      var found := PageByPgno(net, r.pgno, subno & mask, mask);
      if found.Some? {
        C.SoundPage(View(), found.value);
      }
      former := RetirePage(found);
    }

    /** The new page replaces the pages chosen. */
    method ReplacePages(former: Option<Id>, p: Page, memory: Option<Id>, row: seq<Id>, available: int)
        returns (result: Option<Id>)
      requires Valid(View()) && IdlePage(View(), former) && |hash| == C.HASH_SIZE && p.net in nets
      requires row == Row(View(), former, p.size) && Distinct(row)
      requires available == Available(View(), former) + C.Sum(pages, Chosen(View(), former, p.size))
      modifies this
      ensures (View(), result) == Replace(old(View()), former, p, memory)
    {
      hide C.Sound;
      hide C.Sum;
      hide Chosen;
      hide C.Insert;
      hide Reuse;
      hide EraseAll;
      RowIsIdle(View(), former, p.size);
      if available == p.size && |row| == 1 {
        C.SoundPage(View(), row[0]);
        ReusePage(row[0], p);
        ReuseStores(old(View()), row[0], p);
        return Some(row[0]);
      }
      if memory.None? {
        return None;
      }
      EraseAllLeaves(View(), row);
      ErasedHash(View(), row);
      DeleteRow(row);
      LinkPage(memory.value, p);
      nPages := nPages + 1;
      InsertCounts(EraseAll(old(View()), row), memory.value, p);
      return memory;
    }

    /** Stores a page in new memory, or in that of a single page it replaces. */
    method PutPage(net: Id, r: C.Received, clock: bool, memory: Option<Id>) returns (result: Option<Id>)
      requires Valid(View()) && |hash| == C.HASH_SIZE && net in nets && 0x100 <= r.pgno <= 0x8FF
      requires memory.Some? ==> memory.value !in pages
      requires PutOnce(View(), net, r, clock)
      requires PutFits(View(), net, r, clock)
      modifies this
      ensures (View(), result) == Put(old(View()), net, r, clock, memory)
    {
      hide C.Sound;
      hide C.Sum;
      hide Prepare;
      hide Key;
      hide Candidates;
      hide Replace;
      hide PriorityOf;
      hide DeathRow;
      if r.pgno % 256 == 0xFF {
        return None;
      }
      PrepareKeeps(View(), net, r, clock);
      var former := PreparePage(net, r, clock);
      var row := FormerRow(former);
      var available := limit - used + if former.Some? then pages[former.value].size else 0;
      var enough := available >= r.size;
      if !enough {
        row, available, enough := MakeRoom(former, r.size, available);
      } else {
        EnoughAlready(View(), former, r.size);
      }
      if !enough {
        return None;
      }
      HashSize(View());
      result := ReplacePages(former, NewPage(net, r, Key(r.pgno, r.subno, clock).0), memory, row, available);
    }
  
    method NetworkRef(n: Id)
      requires n in nets
      modifies this
      ensures View() == RefNetwork(old(View()), n)
    {
      nets := nets[n := nets[n].(refs := nets[n].refs + 1)];
    }

    /** From the network used least recently on, networks not in use are deleted if they are
        marked for deletion or there are too many. */
    method DeleteSurplusNetworks()
      requires C.Sound(View())
      modifies this
      ensures View() == SurplusNetworks(old(View()), old(netList)) && C.Sound(View())
    {
      hide C.Sound;
      hide CacheNetworks.DeleteNetwork;
      var list := netList;
      assert list[..|list|] == list;
      var i := |list|;
      while i > 0
        invariant 0 <= i <= |list| && C.Sound(View())
        invariant SurplusNetworks(View(), list[..i]) == SurplusNetworks(old(View()), list)
      {
        i := i - 1;
        assert list[..i + 1][..i] == list[..i] && list[..i + 1][i] == list[i];
        if list[i] in nets {
          DeleteNetworkSound(View(), list[i]);
          if !(nets[list[i]].refs > 0 || nets[list[i]].referenced > 0) && (nets[list[i]].zombie || nNets > maxNets) {
            DeleteNetwork(list[i]);
          }
        }
      }
    }

    method NetworkUnref(n: Id)
      requires C.Consistent(View()) && n in nets
      modifies this
      ensures View() == UnrefNetwork(old(View()), n)
    {
      hide C.Sound;
      hide SurplusNetworks;
      var x := nets[n];
      if x.refs == 1 {
        SetNetKeeps(View(), n, x.(refs := 0), nNets);
        nets := nets[n := x.(refs := 0)];
        DeleteSurplusNetworks();
      } else if x.refs > 1 {
        nets := nets[n := x.(refs := x.refs - 1)];
      }
    }

    /** A network is found by its identity. */
    method NetworkGet(n: Id)
      requires n in nets
      modifies this
      ensures View() == GetNetwork(old(View()), n)
    {
      netList := [n] + Without(netList, n);
      if nets[n].zombie {
        nNets := nNets + 1;
      }
      nets := nets[n := nets[n].(zombie := false, refs := nets[n].refs + 1)];
    }

    /** The network used least recently that is not in use gives up its pages. */
    method RecycleNetwork() returns (recycled: Option<Id>)
      requires C.Consistent(View())
      modifies this
      ensures var r := Recyclable(old(View()).nets, old(netList));
              && recycled == (if r == [] then None else Some(r[0]))
              && (r == [] ==> View() == old(View()))
              && (r != [] ==> r[0] in old(View()).nets && View() == Recycle(old(View()), r[0]))
    {
      hide C.Sound;
      hide CacheNetworks.DeleteAllPages;
      RecyclableIsIdle(nets, netList);
      assert netList[..|netList|] == netList;
      var i := |netList|;
      while i > 0
        invariant 0 <= i <= |netList| && View() == old(View())
        invariant Recyclable(nets, netList[..i]) == Recyclable(nets, netList)
      {
        i := i - 1;
        assert netList[..i + 1][..i] == netList[..i] && netList[..i + 1][i] == netList[i];
        var n := netList[i];
        if n in nets && nets[n].refs == 0 && !(nets[n].referenced > 0) {
          DeleteAllPagesKeeps(View(), n);
          if nets[n].cached > 0 {
            DeleteAllPages(n);
          }
          netList := [n] + Without(netList, n);
          nets := nets[n := nets[n].(refs := 1, zombie := false, cached := 0, referenced := 0)];
          return Some(n);
        }
      }
      return None;
    }

    method NetworkAdd(memory: Option<Id>) returns (added: Option<Id>)
      requires C.Consistent(View()) && (memory.Some? ==> memory.value !in nets)
      modifies this
      ensures var room := if memory.Some? then [memory.value] else [];
              var (d, r) := AddNetwork(old(View()), room);
              View() == d && added == if r == [] then None else Some(r[0])
    {
      hide C.Sound;
      hide Recycle;
      hide Recyclable;
      RecyclableIsIdle(nets, netList);
      added := None;
      if nNets >= maxNets {
        added := RecycleNetwork();
      }
      if added.None? && memory.Some? {
        netList := [memory.value] + netList;
        nNets := nNets + 1;
        nets := nets[memory.value := C.Network(1, false, 0, 0, map[])];
        added := memory;
      }
    }

    /** Deletes all contents; what is in use is marked for deletion. */
    method PurgeAll()
      requires C.Consistent(View())
      modifies this
      ensures View() == Purge(old(View()), old(netList)) && C.Consistent(View())
    {
      hide C.Sound;
      hide CacheNetworks.DeleteNetwork;
      var list := netList;
      for i := 0 to |list|
        invariant C.Consistent(View())
        invariant Purge(View(), list[i..]) == Purge(old(View()), list)
      {
        assert list[i..][1..] == list[i + 1..];
        if list[i] in nets {
          DeleteNetworkKeeps(View(), list[i]);
          DeleteNetwork(list[i]);
        }
      }
    }
  }

  lemma EmptyIsValid(c: C.Cache)
    requires c == C.Cache(map[], c.hash, [], [], map[], [], 0, 0x4000_0000, 0, 0, 1)
    requires |c.hash| == C.HASH_SIZE && forall h :: 0 <= h < C.HASH_SIZE ==> c.hash[h] == []
    ensures Valid(c)
  {
    assert C.Where(c.pages, C.IsIdle) == {} && C.Where(c.pages, C.IsHeld) == {};
    forall h: nat | h < C.HASH_SIZE ensures Tracks(c.hash[h], C.Where(c.pages, C.InChain(h))) {
      assert C.Where(c.pages, C.InChain(h)) == {};
    }
    assert C.Living(c.nets) == {};
  }

  lemma EnoughAlready(c: C.Cache, former: Option<Id>, size: nat)
    requires size <= Available(c, former)
    ensures Found(c, former, size) && Row(c, former, size) == FormerRow(former)
        && C.Sum(c.pages, Chosen(c, former, size)) == 0
  {
    TakeNothing(c.pages, Candidates(c, former), size - Available(c, former));
    hide Candidates;
    hide Take;
  }

  lemma ReuseStores(c: C.Cache, id: Id, p: Page)
    requires C.Cached(c, id) && p.net in c.nets
    ensures Store(Reuse(c, id, p.size), id, p) == (C.Insert(Reuse(c, id, p.size), id, p), Some(id))
  {
    hide C.Insert;
  }

  lemma ErasedHash(c: C.Cache, row: seq<Id>)
    requires C.Sound(c) && Distinct(row) && AllIdle(c.pages, row)
    ensures |EraseAll(c, row).hash| == C.HASH_SIZE && EraseAll(c, row).nets.Keys == c.nets.Keys
  {
    EraseAllLeaves(c, row);
    HashSize(EraseAll(c, row));
    hide C.Sound;
    hide EraseAll;
  }

  lemma InsertCounts(c: C.Cache, id: Id, p: Page)
    requires |c.hash| == C.HASH_SIZE && p.net in c.nets
    ensures Store(c, id, p) == (C.Insert(c, id, p), Some(id)) && C.Insert(c, id, p).nPages == c.nPages + 1
  {
  }

  lemma FormerInPages(c: C.Cache, former: Option<Id>)
    requires IdlePage(c, former)
    ensures forall id :: id in FormerRow(former) ==> id in c.pages
  {
  }

  lemma ScansOfNothing(l: seq<Id>, n0: set<Id>, s0: set<Id>, n1: set<Id>)
    ensures l == [] ==> Only(l, n0) + Only(l, s0) + Only(l, n1) == []
  {
  }

  /** The row after scans for a. */
  ghost predicate Gathered(pages: map<Id, Page>, former: Option<Id>, size: nat, available0: int, a: seq<Id>,
      row: seq<Id>, available: int) {
    && row == FormerRow(former) + Take(pages, a, size - available0)
    && available == available0 + C.Sum(pages, Take(pages, a, size - available0))
  }

  lemma GatherMore(pages: map<Id, Page>, former: Option<Id>, size: nat, available0: int, a: seq<Id>, b: seq<Id>,
                   row: seq<Id>, available: int, row1: seq<Id>, available1: int)
    requires Gathered(pages, former, size, available0, a, row, available)
    requires row1 == row + Take(pages, b, size - available)
        && available1 == available + C.Sum(pages, Take(pages, b, size - available))
    ensures Gathered(pages, former, size, available0, a + b, row1, available1)
  {
    hide C.Sum;
    hide Take;
    TakeConcat(pages, a, b, size - available0);
    C.SumConcat(pages, Take(pages, a, size - available0), Take(pages, b, size - available));
  }

  lemma EnoughEarly(pages: map<Id, Page>, former: Option<Id>, size: nat, available0: int, a: seq<Id>, rest: seq<Id>,
                    row: seq<Id>, available: int)
    requires Gathered(pages, former, size, available0, a, row, available) && available >= size
    ensures Gathered(pages, former, size, available0, a + rest, row, available)
    ensures C.Sum(pages, a + rest) >= size - available0
  {
    hide C.Sum;
    hide Take;
    var need := size - available0;
    TakeConcat(pages, a, rest, need);
    TakeNothing(pages, rest, need - C.Sum(pages, Take(pages, a, need)));
    TakeIsShortest(pages, a, need);
    C.SumConcat(pages, a, rest);
    assert Take(pages, a, need) + [] == Take(pages, a, need);
  }

  /** The last pass, which comes too late for the last page of the list. */
  lemma EnoughLast(pages: map<Id, Page>, former: Option<Id>, size: nat, available0: int, l: seq<Id>, a: seq<Id>,
      s: set<Id>,
                   row: seq<Id>, available: int, row1: seq<Id>, available1: int)
    requires Gathered(pages, former, size, available0, a, row, available) && size > available0 && (l == [] ==> a == [])
    requires row1 == row + Take(pages, Only(l, s), size - available)
    requires available1 == available + C.Sum(pages, Take(pages, Only(l, s), size - available))
    ensures var b := Only(ButLast(l), s);
            && ((l != [] && C.Sum(pages, b) >= size - available) <==> C.Sum(pages, a + b) >= size - available0)
            && (C.Sum(pages, a + b) >= size - available0
                ==> Gathered(pages, former, size, available0, a + b, row1, available1))
  {
    hide C.Sum;
    hide Take;
    hide Only;
    var b := Only(ButLast(l), s);
    var need := size - available0;
    TakeIsShortest(pages, a, need);
    C.SumConcat(pages, a, b);
    if l == [] {
      ScansOfNothing(l, s, s, s);
      C.SumConcat(pages, [], []);
      assert ButLast(l) == l;
    } else {
      var k := |l| - 1;
      assert l == l[..k] + [l[k]];
      OnlyConcat(l[..k], [l[k]], s);
      if C.Sum(pages, b) >= size - available {
        TakeEnough(pages, b, Only([l[k]], s), size - available);
        GatherMore(pages, former, size, available0, a, b, row, available, row1, available1);
      }
    }
  }

  lemma OnlyFirst(pages: map<Id, Page>, list: seq<Id>, s: set<Id>)
    ensures Only(list[..0], s) == [] && C.Sum(pages, Only(list[..0], s)) == 0
  {
  }

  lemma OnlyNext(pages: map<Id, Page>, list: seq<Id>, i: nat, s: set<Id>)
    requires i < |list|
    ensures Only(list[..i + 1], s) == Only(list[..i], s) + (if list[i] in s then [list[i]] else [])
    ensures C.Sum(pages, Only(list[..i + 1], s)) ==
            C.Sum(pages, Only(list[..i], s)) + if list[i] in s then C.SizeOf(pages, list[i]) else 0
  {
    assert list[..i + 1] == list[..i] + [list[i]];
    OnlyConcat(list[..i], [list[i]], s);
    var one := if list[i] in s then [list[i]] else [];
    assert Only([list[i]], s) == one;
    C.SumConcat(pages, Only(list[..i], s), one);
    if list[i] in s {
      SumOfOne(pages, one);
    }
  }

  lemma SumOfOneMore(pages: map<Id, Page>, row: seq<Id>, id: Id)
    requires id in pages
    ensures C.Sum(pages, row + [id]) == C.Sum(pages, row) + pages[id].size
  {
    C.SumConcat(pages, row, [id]);
    SumOfOne(pages, [id]);
  }

  /** While memory is missing the page looked at is one of those to take. */
  lemma MoreToTake(pages: map<Id, Page>, list: seq<Id>, i: nat, s: set<Id>, rest: seq<Id>, need: int)
    requires i < |list| && list[i] in s && C.Sum(pages, Only(list[..i], s)) < need
    ensures |Take(pages, Only(list, s) + rest, need)| > |Only(list[..i], s)|
  {
    hide C.Sum;
    hide Take;
    hide Only;
    var a, b := Only(list[..i], s), Only(list[i..], s);
    assert list == list[..i] + list[i..];
    OnlyConcat(list[..i], list[i..], s);
    FirstOfRest(list, i, s);
    assert Only(list, s) + rest == a + (b + rest);
    TakeConcat(pages, a, b + rest, need);
    TakeIsShortest(pages, a, need);
    TakeHead(pages, b + rest, need - C.Sum(pages, a));
  }

  lemma FirstOfRest(list: seq<Id>, i: nat, s: set<Id>)
    requires i < |list| && list[i] in s
    ensures Only(list[i..], s) != []
  {
  }

  lemma RoomForMore(pages: map<Id, Page>, row: seq<Id>, available: int, a: seq<Id>, rest: seq<Id>, size: nat)
    requires |row| + |Take(pages, a + rest, size - available)| <= 20
    ensures var t := Take(pages, a, size - available);
            |row + t| + |Take(pages, rest, size - (available + C.Sum(pages, t)))| <= 20
  {
    hide C.Sum;
    hide Take;
    TakeConcat(pages, a, rest, size - available);
  }

  /** A scan that stops before element i, or after the last one, has taken the shortest
      sufficient prefix of what it looked for. */
  lemma TakeUpTo(pages: map<Id, Page>, list: seq<Id>, i: nat, s: set<Id>, need: int)
    requires i <= |list|
    requires i > 0 ==> C.Sum(pages, Only(list[..i - 1], s)) < need
    requires i == |list| || C.Sum(pages, Only(list[..i], s)) >= need
    ensures Take(pages, Only(list, s), need) == Only(list[..i], s)
    ensures i < |list| ==> list != [] && C.Sum(pages, Only(ButLast(list), s)) >= need
    ensures i == |list| && list != [] ==> C.Sum(pages, Only(ButLast(list), s)) < need
  {
    hide C.Sum;
    hide Take;
    hide Only;
    var a, b := list[..i], list[i..];
    assert list == a + b;
    OnlyConcat(a, b, s);
    TakeConcat(pages, Only(a, s), Only(b, s), need);
    TakeWhole(pages, list, i, s, need);
    if i < |list| {
      TakeNothing(pages, Only(b, s), need - C.Sum(pages, Only(a, s)));
      assert ButLast(list) == a + list[i..|list| - 1];
      OnlyConcat(a, list[i..|list| - 1], s);
      C.SumConcat(pages, Only(a, s), Only(list[i..|list| - 1], s));
      assert Only(a, s) + [] == Only(a, s);
    } else {
      assert a == list && b == [];
    }
  }

  lemma TakeWhole(pages: map<Id, Page>, list: seq<Id>, i: nat, s: set<Id>, need: int)
    requires i <= |list|
    requires i > 0 ==> C.Sum(pages, Only(list[..i - 1], s)) < need
    ensures Take(pages, Only(list[..i], s), need) == Only(list[..i], s)
  {
    hide C.Sum;
    hide Take;
    hide Only;
    if i == 0 {
      OnlyFirst(pages, list, s);
      TakeNothing(pages, Only(list[..0], s), need);
    } else {
      OnlyNext(pages, list, i - 1, s);
      var q := Only(list[..i - 1], s);
      var one := if list[i - 1] in s then [list[i - 1]] else [];
      TakeConcat(pages, q, one, need);
      TakeIsShortest(pages, q, need);
      TakeOne(pages, one, need - C.Sum(pages, q));
    }
  }

  lemma TakeOne(pages: map<Id, Page>, one: seq<Id>, need: int)
    requires |one| <= 1 && need > 0
    ensures Take(pages, one, need) == one
  {
    if one != [] {
      TakeNothing(pages, one[1..], need - C.SizeOf(pages, one[0]));
    }
  }

  lemma PassIsOver(c: C.Cache, pri: C.Priority, any: bool)
    requires c.used <= c.limit
    ensures Pass(c, pri, any) == c
  {
  }

  lemma MatchHash(c: C.Cache, id: Id, net: Id, pgno: nat, subno: Word, mask: Word)
    requires C.Sound(c) && id in c.pages && Matches(c.pages[id], net, pgno, subno, mask)
    ensures c.pages[id].pgno == pgno && C.Cached(c, id)
  {
    hide C.Sound;
    C.SoundPage(c, id);
  }

  lemma EraseRest(c: C.Cache, list: seq<Id>, s: set<Id>)
    requires list == []
    ensures EraseAll(c, Take(c.pages, Only(list, s), c.used - c.limit)) == c
  {
  }
}
