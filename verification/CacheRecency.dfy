/** What a lookup finds: the hash chains against one list of pages by last use, and keys. */
module CacheRecency {
  import opened LinkedLists
  import opened PageCache
  import opened PageEviction
  import opened CacheNetworks
  import opened CachePages

  function Live(pages: map<Id, Page>): set<Id> {
    Where(pages, IsLive)
  }

  // One list instead of 113 chains.

  /** Each chain holds its live pages in the order of the list. */
  ghost predicate Represents(c: Cache, recent: seq<Id>) {
    && Tracks(recent, Live(c.pages))
    && |c.hash| == HASH_SIZE
    && forall h: nat :: h < HASH_SIZE ==> c.hash[h] == Only(recent, Where(c.pages, InChain(h)))
  }

  lemma {:induction false} FirstInOnly(pages: map<Id, Page>, list: seq<Id>, s: set<Id>, net: Id, pgno: int,
      subno: Word, mask: Word)
    requires forall id :: id in list && id in pages && Matches(pages[id], net, pgno, subno, mask) ==> id in s
    ensures First(pages, Only(list, s), net, pgno, subno, mask) == First(pages, list, net, pgno, subno, mask)
  {
    hide Matches;
    if list != [] {
      FirstInOnly(pages, list[1..], s, net, pgno, subno, mask);
      if list[0] in s {
        assert Only(list, s)[0] == list[0] && Only(list, s)[1..] == Only(list[1..], s);
      }
    }
  }

  /** A lookup returns the match used last, of all live pages. */
  lemma LookupIsMostRecent(c: Cache, recent: seq<Id>, net: Id, pgno: nat, subno: Word, mask: Word)
    requires Represents(c, recent)
    ensures First(c.pages, c.hash[Hash(pgno)], net, pgno, subno, mask) == First(c.pages, recent, net, pgno, subno, mask)
  {
    var s := Where(c.pages, InChain(Hash(pgno)));
    hide Only;
    hide First;
    forall id | id in recent && id in c.pages && Matches(c.pages[id], net, pgno, subno, mask) ensures id in s {
      InWhere(c.pages, id, IsLive);
      InWhere(c.pages, id, InChain(Hash(pgno)));
    }
    FirstInOnly(c.pages, recent, s, net, pgno, subno, mask);
  }

  lemma RepresentsFront(c: Cache, recent: seq<Id>, id: Id)
    requires Represents(c, recent) && Cached(c, id) && IsLive(c.pages[id])
    ensures Represents(Front(c, id), [id] + Without(recent, id))
  {
    var d := Front(c, id);
    var front := [id] + Without(recent, id);
    InWhere(c.pages, id, IsLive);
    FrontTracks(recent, Live(c.pages), id);
    WithoutMembers(recent, id);
    forall h: nat | h < HASH_SIZE ensures d.hash[h] == Only(front, Where(c.pages, InChain(h))) {
      InWhere(c.pages, id, InChain(h));
      OnlyOfFront(recent, Where(c.pages, InChain(h)), id);
    }
    hide Only;
    hide Where;
    hide Tracks;
  }

  lemma OnlyOfFront(list: seq<Id>, s: set<Id>, id: Id)
    requires Distinct(list)
    ensures Only([id] + Without(list, id), s) == if id in s then [id] + Without(Only(list, s), id) else Only(list, s)
  {
    var rest := Without(list, id);
    assert ([id] + rest)[0] == id && ([id] + rest)[1..] == rest;
    OnlyOfWithout(list, s, id);
  }

  lemma {:induction false} OnlyOfWithout(list: seq<Id>, s: set<Id>, id: Id)
    requires Distinct(list)
    ensures Only(Without(list, id), s) == if id in s then Without(Only(list, s), id) else Only(list, s)
  {
    if list != [] {
      if list[0] != id {
        OnlyOfWithout(list[1..], s, id);
        assert Without(list, id)[0] == list[0] && Without(list, id)[1..] == Without(list[1..], id);
        if list[0] in s {
          assert Only(list, s)[0] == list[0] && Only(list, s)[1..] == Only(list[1..], s);
        }
      } else if id in s {
        assert Only(list, s)[0] == id && Only(list, s)[1..] == Only(list[1..], s);
      }
    }
  }

  lemma RepresentsInsert(c: Cache, recent: seq<Id>, id: Id, p: Page)
    requires Represents(c, recent) && id !in c.pages && p.net in c.nets && IsLive(p)
    ensures Represents(Insert(c, id, p), [id] + recent)
  {
    var d := Insert(c, id, p);
    TracksAfter(recent, c.pages, id, p, IsLive);
    InWhere(c.pages, id, IsLive);
    forall h: nat | h < HASH_SIZE ensures d.hash[h] == Only([id] + recent, Where(d.pages, InChain(h))) {
      assert ([id] + recent)[0] == id && ([id] + recent)[1..] == recent;
      WhereInsert(c.pages, id, p, InChain(h));
      InWhere(c.pages, id, InChain(h));
      OnlySame(recent, Where(c.pages, InChain(h)), Where(d.pages, InChain(h)));
    }
    hide Only;
    hide Where;
    hide Tracks;
  }

  // Operations that only take pages out of the chains.

  ghost predicate SameKey(p: Page, q: Page) {
    p.net == q.net && p.pgno == q.pgno && p.subno == q.subno
  }

  ghost predicate KeptKeys(a: map<Id, Page>, b: map<Id, Page>) {
    forall id :: id in b && IsLive(b[id]) ==> id in a && IsLive(a[id]) && SameKey(a[id], b[id])
  }

  /** The chains of d are those of c without the pages that are no longer live. */
  ghost predicate ChainsLeft(c: Cache, d: Cache) {
    && |c.hash| == |d.hash| == HASH_SIZE && KeptKeys(c.pages, d.pages)
    && forall h: nat :: h < HASH_SIZE ==> d.hash[h] == Only(c.hash[h], Live(d.pages))
  }

  lemma LiveMember(pages: map<Id, Page>, id: Id)
    ensures id in Live(pages) <==> id in pages && IsLive(pages[id])
  {
  }

  lemma ChainsSame(c: Cache, d: Cache)
    requires Sound(c) && d.hash == c.hash && KeptKeys(c.pages, d.pages)
    requires forall id :: id in c.pages && IsLive(c.pages[id]) ==> id in d.pages && IsLive(d.pages[id])
    ensures ChainsLeft(c, d)
  {
    ChainMembers(c, 0);
    forall h: nat | h < HASH_SIZE ensures d.hash[h] == Only(c.hash[h], Live(d.pages)) {
      ChainMembers(c, h);
      hide Sound;
      forall id | id in c.hash[h] ensures id in Live(d.pages) {
        LiveMember(d.pages, id);
      }
      OnlyAll(c.hash[h], Live(d.pages));
    }
  }

  lemma ChainsUnhashed(c: Cache, d: Cache, id: Id)
    requires Sound(c) && Cached(c, id) && IsLive(c.pages[id]) && d.hash == Unhash(c, id) && KeptKeys(c.pages, d.pages)
    requires forall x :: x in c.pages && IsLive(c.pages[x]) && x != id ==> x in d.pages && IsLive(d.pages[x])
    requires !(id in d.pages && IsLive(d.pages[id]))
    ensures ChainsLeft(c, d)
  {
    ChainMembers(c, 0);
    forall h: nat | h < HASH_SIZE ensures d.hash[h] == Only(c.hash[h], Live(d.pages)) {
      ChainMembers(c, h);
      ChainDistinct(c, h);
      hide Sound;
      hide Hash;
      forall x | x in c.hash[h] ensures x in Live(d.pages) <==> x != id {
        LiveMember(d.pages, x);
      }
      OnlyWithout(c.hash[h], id, Live(d.pages));
      WithoutAbsentOr(c.hash[h], id);
    }
  }

  lemma WithoutAbsentOr(s: seq<Id>, id: Id)
    ensures id !in s ==> Without(s, id) == s
  {
    if id !in s {
      WithoutAbsent(s, id);
    }
  }

  lemma ChainDistinct(c: Cache, h: nat)
    requires Sound(c) && h < HASH_SIZE
    ensures |c.hash| == HASH_SIZE && Distinct(c.hash[h])
  {
    assert Tracks(c.hash[h], Where(c.pages, InChain(h)));
  }

  lemma ChainsTwice(c: Cache, d: Cache, e: Cache)
    requires ChainsLeft(c, d) && ChainsLeft(d, e)
    ensures ChainsLeft(c, e)
  {
    forall id | id in Live(e.pages) ensures id in Live(d.pages) {
      LiveMember(e.pages, id);
      LiveMember(d.pages, id);
    }
    assert Live(d.pages) * Live(e.pages) == Live(e.pages);
    forall h: nat | h < HASH_SIZE ensures e.hash[h] == Only(c.hash[h], Live(e.pages)) {
      OnlyOnly(c.hash[h], Live(d.pages), Live(e.pages));
    }
    hide Only;
    hide Live;
  }

  /** The list keeps its order, without the pages that are no longer live. */
  lemma RepresentsAfter(c: Cache, d: Cache, recent: seq<Id>)
    requires Represents(c, recent) && ChainsLeft(c, d)
    ensures Represents(d, Only(recent, Live(d.pages)))
  {
    OnlyMembers(recent, Live(d.pages));
    forall id ensures id in Live(d.pages) ==> id in Live(c.pages) {
      LiveMember(d.pages, id);
      LiveMember(c.pages, id);
    }
    forall h: nat | h < HASH_SIZE
      ensures d.hash[h] == Only(Only(recent, Live(d.pages)), Where(d.pages, InChain(h)))
    {
      OnlyOnly(recent, Where(c.pages, InChain(h)), Live(d.pages));
      OnlyOnly(recent, Live(d.pages), Where(d.pages, InChain(h)));
      forall id
        ensures id in Where(c.pages, InChain(h)) * Live(d.pages) <==> id in Live(d.pages) * Where(d.pages, InChain(h))
      {
        LiveMember(d.pages, id);
        InWhere(c.pages, id, InChain(h));
        InWhere(d.pages, id, InChain(h));
      }
      OnlySame(recent, Where(c.pages, InChain(h)) * Live(d.pages), Live(d.pages) * Where(d.pages, InChain(h)));
    }
    hide Only;
    hide Live;
    hide Where;
  }

  lemma ChainsOfErase(c: Cache, id: Id)
    requires Sound(c) && id in c.pages && c.pages[id].refs == 0
    ensures Cached(c, id) && ChainsLeft(c, Erase(c, id))
  {
    hide Sound;
    hide ChainsLeft;
    SoundPage(c, id);
    ChainsUnhashed(c, Erase(c, id), id);
  }

  lemma {:induction false} ChainsOfEraseAll(c: Cache, ids: seq<Id>)
    requires Sound(c) && Distinct(ids) && AllIdle(c.pages, ids)
    ensures ChainsLeft(c, EraseAll(c, ids))
    decreases |ids|
  {
    hide Sound;
    hide ChainsLeft;
    if ids == [] {
      ChainsSame(c, c);
    } else {
      EraseLeaves(c, ids[0]);
      var d := Erase(c, ids[0]);
      ChainsOfErase(c, ids[0]);
      hide Erase;
      ErasedIdle(c, d, ids[0], ids[1..]);
      ChainsOfEraseAll(d, ids[1..]);
      ChainsTwice(c, d, EraseAll(c, ids));
    }
  }

  lemma ChainsOfZombify(c: Cache, id: Id)
    requires Sound(c) && id in c.pages && IsLive(c.pages[id])
    ensures Cached(c, id) && ChainsLeft(c, Zombify(c, id))
  {
    hide Sound;
    hide ChainsLeft;
    SoundPage(c, id);
    ChainsUnhashed(c, Zombify(c, id), id);
  }

  lemma ChainsOfSetRefs(c: Cache, id: Id, refs: nat)
    requires Sound(c) && id in c.pages
    ensures Cached(c, id) && ChainsLeft(c, SetRefs(c, id, refs))
  {
    hide Sound;
    hide ChainsLeft;
    SoundPage(c, id);
    ChainsSame(c, SetRefs(c, id, refs));
  }

  lemma ChainsOfHold(c: Cache, id: Id)
    requires Sound(c) && id in c.pages
    ensures Cached(c, id) && ChainsLeft(c, Hold(c, id))
  {
    hide Sound;
    hide ChainsLeft;
    SoundPage(c, id);
    ChainsSame(c, Hold(c, id));
  }

  lemma ChainsOfRelease(c: Cache, id: Id)
    requires Sound(c) && id in c.pages
    ensures Cached(c, id) && ChainsLeft(c, Release(c, id))
  {
    hide Sound;
    hide ChainsLeft;
    SoundPage(c, id);
    ChainsSame(c, Release(c, id));
  }

  lemma ChainsOfEraseZombie(c: Cache, id: Id)
    requires Sound(c) && id in c.pages && c.pages[id].priority == Zombie
    ensures Cached(c, id) && ChainsLeft(c, EraseZombie(c, id))
  {
    hide Sound;
    hide ChainsLeft;
    SoundPage(c, id);
    ChainsSame(c, EraseZombie(c, id));
  }

  lemma ChainsOfDeleteAll(c: Cache, n: Id)
    requires Sound(c)
    ensures ChainsLeft(c, DeleteAllPages(c, n))
  {
    hide Sound;
    hide ChainsLeft;
    hide Only;
    hide Where;
    PriorityIn(c);
    OnlyMembers(c.priority, Where(c.pages, OfNet(n)));
    ChainsOfEraseAll(c, Only(c.priority, Where(c.pages, OfNet(n))));
  }

  lemma ChainsOfDeleteNetwork(c: Cache, n: Id)
    requires Sound(c) && n in c.nets
    ensures ChainsLeft(c, DeleteNetwork(c, n))
  {
    hide Sound;
    hide DeleteAllPages;
    ChainsOfDeleteAll(c, n);
    ChainsSame(c, c);
  }

  lemma {:induction false} ChainsOfSurplusNetworks(c: Cache, list: seq<Id>)
    requires Sound(c)
    ensures ChainsLeft(c, SurplusNetworks(c, list))
    decreases |list|
  {
    hide Sound;
    hide ChainsLeft;
    hide DeleteNetwork;
    ChainsSame(c, c);
    if list != [] {
      var n := list[|list| - 1];
      if n in c.nets {
        DeleteNetworkSound(c, n);
        ChainsOfDeleteNetwork(c, n);
      }
      var d := if n in c.nets && !InUse(c.nets[n]) && (c.nets[n].zombie || c.nNets > c.maxNets)
               then DeleteNetwork(c, n) else c;
      ChainsOfSurplusNetworks(d, list[..|list| - 1]);
      ChainsTwice(c, d, SurplusNetworks(c, list));
    }
  }

  lemma {:induction false} ChainsOfPurge(c: Cache, list: seq<Id>)
    requires Consistent(c)
    ensures ChainsLeft(c, Purge(c, list))
    decreases |list|
  {
    hide Sound;
    hide ChainsLeft;
    hide DeleteNetwork;
    ChainsSame(c, c);
    if list != [] {
      if list[0] in c.nets {
        DeleteNetworkKeeps(c, list[0]);
        ChainsOfDeleteNetwork(c, list[0]);
      }
      var d := if list[0] in c.nets then DeleteNetwork(c, list[0]) else c;
      ChainsOfPurge(d, list[1..]);
      ChainsTwice(c, d, Purge(c, list));
    }
  }

  lemma ChainsOfSurplus(c: Cache)
    requires Sound(c) && c.limit >= 0
    ensures ChainsLeft(c, WithoutSurplus(c))
  {
    hide Sound;
    hide ChainsLeft;
    hide Surplus;
    WithoutSurplusKeeps(c);
    ChainsOfEraseAll(c, Surplus(c));
  }

  lemma ChainsOfUnref(c: Cache, id: Id)
    requires Valid(c) && id in c.pages
    ensures Cached(c, id) && ChainsLeft(c, Unref(c, id))
  {
    hide Sound;
    hide ChainsLeft;
    hide DeleteNetwork;
    hide WithoutSurplus;
    SoundPage(c, id);
    ChainsSame(c, c);
    var p := c.pages[id];
    if p.refs > 1 {
      ChainsOfSetRefs(c, id, p.refs - 1);
    } else if p.refs == 1 {
      LastUnref(c, id);
      if p.priority == Zombie {
        ChainsOfEraseZombie(c, id);
      } else {
        ChainsOfRelease(c, id);
      }
      var d := if p.priority == Zombie then EraseZombie(c, id) else Release(c, id);
      hide EraseZombie;
      hide Release;
      ChainsOfUnrefRest(c, d, p.net);
    }
  }

  lemma ChainsOfUnrefRest(c: Cache, d: Cache, n: Id)
    requires ChainsLeft(c, d) && Sound(d) && n in d.nets && SettledBut(d.nets, n) && 0 <= d.limit
    ensures var e := if d.nets[n].zombie && !InUse(d.nets[n]) then DeleteNetwork(d, n) else d;
            ChainsLeft(c, if e.used > e.limit then WithoutSurplus(e) else e)
  {
    hide Sound;
    hide ChainsLeft;
    hide DeleteNetwork;
    hide WithoutSurplus;
    var e := if d.nets[n].zombie && !InUse(d.nets[n]) then DeleteNetwork(d, n) else d;
    DeleteNetworkKeeps(d, n);
    ChainsOfDeleteNetwork(d, n);
    if d.nets[n].zombie && !InUse(d.nets[n]) {
      ChainsTwice(c, d, e);
    }
    ChainsOfSurplus(e);
    ChainsTwice(c, e, WithoutSurplus(e));
  }

  lemma ChainsOfRef(c: Cache, id: Id)
    requires Sound(c) && id in c.pages
    ensures Cached(c, id) && ChainsLeft(c, Ref(c, id))
  {
    hide Sound;
    hide ChainsLeft;
    hide Hold;
    hide SetRefs;
    SoundPage(c, id);
    ChainsOfHold(c, id);
    ChainsOfSetRefs(c, id, c.pages[id].refs + 1);
  }
}
