/** The Teletext page cache: pages, the lists they are linked into, and the accounting. */
module PageCache {
  import opened LinkedLists

  type Word = bv32

  const HASH_SIZE: nat := 113

  datatype Priority = Zombie | Normal | Special

  /** The page function, as far as the cache looks at it. */
  datatype PageFunction = UnknownFunction | LopFunction | OtherFunction

  /** A page as received; its size follows from its function and content. */
  datatype Received = Received(pgno: nat, subno: Word, function_: PageFunction, size: nat, content: int)

  datatype Page = Page(
    net: Id, pgno: nat, subno: Word, size: nat, content: int,
    refs: nat, priority: Priority)

  /** A network; `referenced` counts its referenced pages, `subpages` its pages by number. */
  datatype Network = Network(refs: nat, zombie: bool, cached: int, referenced: int, subpages: map<nat, int>)

  /** The cache: pages and networks by the address of their node, the hash chains, the
      eviction list, the list of referenced pages, and the counters. */
  datatype Cache = Cache(
    pages: map<Id, Page>, hash: seq<seq<Id>>, priority: seq<Id>, referenced: seq<Id>,
    nets: map<Id, Network>, netList: seq<Id>,
    used: int, limit: int, nPages: int, nNets: int, maxNets: int)

  function Hash(pgno: nat): (h: nat)
    ensures h < HASH_SIZE
  {
    pgno % HASH_SIZE
  }

  // Counting pages.

  function Where(pages: map<Id, Page>, f: Page -> bool): set<Id> {
    set id | id in pages && f(pages[id])
  }

  function Count(pages: map<Id, Page>, f: Page -> bool): nat {
    |Where(pages, f)|
  }

  predicate IsIdle(p: Page) {
    p.refs == 0
  }

  predicate IsHeld(p: Page) {
    p.refs > 0
  }

  function InChain(h: nat): Page -> bool {
    (p: Page) => p.priority != Zombie && Hash(p.pgno) == h
  }

  function OfNet(n: Id): Page -> bool {
    (p: Page) => p.net == n
  }

  function HeldOf(n: Id): Page -> bool {
    (p: Page) => p.net == n && p.refs > 0
  }

  function SubpageOf(n: Id, g: nat): Page -> bool {
    (p: Page) => p.net == n && p.pgno == g
  }

  function Stat(n: Network, g: nat): int {
    if g in n.subpages then n.subpages[g] else 0
  }

  lemma WhereInsert(pages: map<Id, Page>, id: Id, p: Page, f: Page -> bool)
    ensures Where(pages[id := p], f) == if f(p) then Where(pages, f) + {id} else Where(pages, f) - {id}
  {
  }

  lemma WhereRemove(pages: map<Id, Page>, id: Id, f: Page -> bool)
    ensures Where(pages - {id}, f) == Where(pages, f) - {id}
  {
  }

  lemma InWhere(pages: map<Id, Page>, id: Id, f: Page -> bool)
    ensures id in Where(pages, f) <==> id in pages && f(pages[id])
  {
  }

  lemma CountInsert(pages: map<Id, Page>, id: Id, p: Page, f: Page -> bool)
    ensures Count(pages[id := p], f) ==
            Count(pages, f) + (if f(p) then 1 else 0) - (if id in pages && f(pages[id]) then 1 else 0)
  {
    WhereInsert(pages, id, p, f);
  }

  lemma CountRemove(pages: map<Id, Page>, id: Id, f: Page -> bool)
    ensures Count(pages - {id}, f) == Count(pages, f) - (if id in pages && f(pages[id]) then 1 else 0)
  {
    WhereRemove(pages, id, f);
  }

  // Sizes.

  function SizeOf(pages: map<Id, Page>, id: Id): nat {
    if id in pages then pages[id].size else 0
  }

  function Sum(pages: map<Id, Page>, ids: seq<Id>): nat {
    if ids == [] then 0 else SizeOf(pages, ids[0]) + Sum(pages, ids[1..])
  }

  lemma {:induction false} SumConcat(pages: map<Id, Page>, a: seq<Id>, b: seq<Id>)
    ensures Sum(pages, a + b) == Sum(pages, a) + Sum(pages, b)
  {
    if a == [] {
      assert a + b == b;
    } else {
      assert (a + b)[0] == a[0] && (a + b)[1..] == a[1..] + b;
      SumConcat(pages, a[1..], b);
    }
  }

  lemma {:induction false} SumWithout(pages: map<Id, Page>, ids: seq<Id>, id: Id)
    requires id in ids
    ensures Sum(pages, Without(ids, id)) == Sum(pages, ids) - SizeOf(pages, id)
  {
    if ids[0] != id {
      SumWithout(pages, ids[1..], id);
      var r := Without(ids, id);
      assert r[0] == ids[0] && r[1..] == Without(ids[1..], id);
    }
  }

  /** The sum depends on the sizes of the summed pages only. */
  lemma {:induction false} SumFrame(pages: map<Id, Page>, other: map<Id, Page>, ids: seq<Id>)
    requires forall id :: id in ids ==> SizeOf(pages, id) == SizeOf(other, id)
    ensures Sum(pages, ids) == Sum(other, ids)
  {
    if ids != [] {
      SumFrame(pages, other, ids[1..]);
    }
  }

  // The invariants.

  ghost predicate Chained(pages: map<Id, Page>, hash: seq<seq<Id>>) {
    |hash| == HASH_SIZE && forall h: nat :: h < HASH_SIZE ==> Tracks(hash[h], Where(pages, InChain(h)))
  }

  ghost predicate ZombiesHeld(pages: map<Id, Page>) {
    forall id :: id in pages && pages[id].priority == Zombie ==> pages[id].refs > 0
  }

  /** Each list tracks its pages; zombies are in no chain, and are held. */
  ghost predicate Linked(pages: map<Id, Page>, hash: seq<seq<Id>>, priority: seq<Id>, referenced: seq<Id>) {
    && Tracks(priority, Where(pages, IsIdle))
    && Tracks(referenced, Where(pages, IsHeld))
    && Chained(pages, hash)
    && ZombiesHeld(pages)
  }

  /** Memory is accounted for pages that nobody holds. */
  ghost predicate Accounted(pages: map<Id, Page>, priority: seq<Id>, used: int) {
    used == Sum(pages, priority)
  }

  ghost predicate NetCounts(pages: map<Id, Page>, nets: map<Id, Network>) {
    && (forall n :: n in nets ==> nets[n].cached == Count(pages, OfNet(n)))
    && (forall n :: n in nets ==> nets[n].referenced == Count(pages, HeldOf(n)))
    && (forall n, g :: n in nets ==> Stat(nets[n], g) == Count(pages, SubpageOf(n, g)))
  }

  ghost predicate Owned(pages: map<Id, Page>, nets: map<Id, Network>) {
    forall id :: id in pages ==> pages[id].net in nets
  }

  /** The counters of the cache, of each network and of each page number. */
  ghost predicate Counted(pages: map<Id, Page>, nets: map<Id, Network>, nPages: int) {
    nPages == |pages.Keys| && Owned(pages, nets) && NetCounts(pages, nets)
  }

  function Living(nets: map<Id, Network>): set<Id> {
    set n | n in nets && !nets[n].zombie
  }

  predicate InUse(n: Network) {
    n.refs > 0 || n.referenced > 0
  }

  ghost predicate Listed(nets: map<Id, Network>, netList: seq<Id>, nNets: int) {
    Tracks(netList, nets.Keys) && nNets == |Living(nets)|
  }

  ghost predicate Sound(c: Cache) {
    && Linked(c.pages, c.hash, c.priority, c.referenced)
    && Accounted(c.pages, c.priority, c.used)
    && Counted(c.pages, c.nets, c.nPages)
    && Listed(c.nets, c.netList, c.nNets)
  }

  /** A network marked for deletion is still in use, so that no network is ever leaked. */
  ghost predicate Settled(nets: map<Id, Network>) {
    forall n :: n in nets && nets[n].zombie ==> InUse(nets[n])
  }

  ghost predicate Consistent(c: Cache) {
    Sound(c) && Settled(c.nets)
  }

  // One page is changed, added or removed.

  lemma TracksAfter(list: seq<Id>, pages: map<Id, Page>, id: Id, p: Page, f: Page -> bool)
    requires Tracks(list, Where(pages, f))
    ensures (id in pages && f(pages[id]) <==> f(p)) ==> Tracks(list, Where(pages[id := p], f))
    ensures !f(p) ==> Tracks(Without(list, id), Where(pages[id := p], f))
    ensures f(p) && !(id in pages && f(pages[id])) ==> Tracks(list + [id], Where(pages[id := p], f))
    ensures f(p) && !(id in pages && f(pages[id])) ==> Tracks([id] + list, Where(pages[id := p], f))
  {
    WhereInsert(pages, id, p, f);
    WithoutTracks(list, Where(pages, f), id);
    if id !in Where(pages, f) {
      AppendTracks(list, Where(pages, f), id);
      PrependTracks(list, Where(pages, f), id);
    }
    assert id in Where(pages, f) <==> id in pages && f(pages[id]);
    if id in Where(pages, f) {
      assert Where(pages, f) + {id} == Where(pages, f);
    } else {
      assert Where(pages, f) - {id} == Where(pages, f);
    }
    hide Tracks;
    hide Where;
  }

  lemma TracksRemoved(list: seq<Id>, pages: map<Id, Page>, id: Id, f: Page -> bool)
    requires Tracks(list, Where(pages, f))
    ensures Tracks(Without(list, id), Where(pages - {id}, f))
    ensures !(id in pages && f(pages[id])) ==> Tracks(list, Where(pages - {id}, f))
  {
    WhereRemove(pages, id, f);
    WithoutTracks(list, Where(pages, f), id);
    if !(id in pages && f(pages[id])) {
      assert Where(pages, f) - {id} == Where(pages, f);
    }
    hide Tracks;
    hide Where;
  }

  lemma ChainedAfter(pages: map<Id, Page>, hash: seq<seq<Id>>, id: Id, p: Page, chain: seq<Id>)
    requires Chained(pages, hash) && (id in pages ==> pages[id].pgno == p.pgno)
    requires Tracks(chain, Where(pages[id := p], InChain(Hash(p.pgno))))
    ensures Chained(pages[id := p], hash[Hash(p.pgno) := chain])
  {
    hide Where;
    hide Tracks;
    hide Hash;
    forall h: nat | h < HASH_SIZE && h != Hash(p.pgno) ensures Tracks(hash[h], Where(pages[id := p], InChain(h))) {
      TracksAfter(hash[h], pages, id, p, InChain(h));
    }
  }

  lemma ChainedRemoved(pages: map<Id, Page>, hash: seq<seq<Id>>, id: Id)
    requires Chained(pages, hash) && id in pages
    ensures var h := Hash(pages[id].pgno); Chained(pages - {id}, hash[h := Without(hash[h], id)])
    ensures pages[id].priority == Zombie ==> Chained(pages - {id}, hash)
  {
    hide Where;
    hide Tracks;
    hide Hash;
    forall h: nat | h < HASH_SIZE
      ensures Tracks(Without(hash[h], id), Where(pages - {id}, InChain(h)))
      ensures h != Hash(pages[id].pgno) || pages[id].priority == Zombie
          ==> Tracks(hash[h], Where(pages - {id}, InChain(h)))
    {
      TracksRemoved(hash[h], pages, id, InChain(h));
    }
  }

  lemma NetCountsAfter(pages: map<Id, Page>, nets: map<Id, Network>, id: Id, p: Page, x: Network)
    requires NetCounts(pages, nets) && p.net in nets
    requires id in pages ==> pages[id].net == p.net && pages[id].pgno == p.pgno
    requires x.cached == nets[p.net].cached + (if id in pages then 0 else 1)
    requires x.referenced == nets[p.net].referenced + (if p.refs > 0 then 1 else 0)
                             - (if id in pages && pages[id].refs > 0 then 1 else 0)
    requires forall g :: Stat(x, g) == Stat(nets[p.net], g) + (if id !in pages && g == p.pgno then 1 else 0)
    ensures NetCounts(pages[id := p], nets[p.net := x])
  {
    hide Count;
    hide Stat;
    forall n | n in nets[p.net := x]
      ensures nets[p.net := x][n].cached == Count(pages[id := p], OfNet(n))
      ensures nets[p.net := x][n].referenced == Count(pages[id := p], HeldOf(n))
    {
      CountInsert(pages, id, p, OfNet(n));
      CountInsert(pages, id, p, HeldOf(n));
    }
    forall n, g | n in nets[p.net := x]
      ensures Stat(nets[p.net := x][n], g) == Count(pages[id := p], SubpageOf(n, g))
    {
      CountInsert(pages, id, p, SubpageOf(n, g));
    }
  }

  lemma NetCountsRemoved(pages: map<Id, Page>, nets: map<Id, Network>, id: Id, x: Network)
    requires NetCounts(pages, nets) && id in pages && pages[id].net in nets
    requires var n := nets[pages[id].net];
             && x.cached == n.cached - 1
             && x.referenced == n.referenced - (if pages[id].refs > 0 then 1 else 0)
             && forall g :: Stat(x, g) == Stat(n, g) - (if g == pages[id].pgno then 1 else 0)
    ensures NetCounts(pages - {id}, nets[pages[id].net := x])
  {
    hide Count;
    hide Stat;
    var nets' := nets[pages[id].net := x];
    forall n | n in nets'
      ensures nets'[n].cached == Count(pages - {id}, OfNet(n))
      ensures nets'[n].referenced == Count(pages - {id}, HeldOf(n))
    {
      CountRemove(pages, id, OfNet(n));
      CountRemove(pages, id, HeldOf(n));
    }
    forall n, g | n in nets'
      ensures Stat(nets'[n], g) == Count(pages - {id}, SubpageOf(n, g))
    {
      CountRemove(pages, id, SubpageOf(n, g));
    }
  }

  /** The number of living networks after one has changed. */
  lemma LivingAfter(nets: map<Id, Network>, n: Id, x: Network)
    requires n in nets
    ensures |Living(nets[n := x])| == |Living(nets)| + (if x.zombie then 0 else 1) - (if nets[n].zombie then 0 else 1)
    ensures nets[n := x].Keys == nets.Keys
  {
    var s := Living(nets);
    assert n in s <==> !nets[n].zombie;
    if x.zombie {
      assert Living(nets[n := x]) == s - {n};
    } else {
      assert Living(nets[n := x]) == s + {n};
      assert n in s ==> s + {n} == s;
    }
  }

  // The steps all operations are made of.

  function RemovePage(n: Network, g: nat): Network {
    n.(cached := n.cached - 1, subpages := n.subpages[g := Stat(n, g) - 1])
  }

  function AddPage(n: Network, g: nat): Network {
    n.(zombie := false, cached := n.cached + 1, subpages := n.subpages[g := Stat(n, g) + 1])
  }

  predicate Cached(c: Cache, id: Id) {
    id in c.pages && c.pages[id].net in c.nets && |c.hash| == HASH_SIZE
  }

  function Unhash(c: Cache, id: Id): seq<seq<Id>>
    requires Cached(c, id)
  {
    var h := Hash(c.pages[id].pgno);
    c.hash[h := Without(c.hash[h], id)]
  }

  /** The page is the first of its chain. */
  function Front(c: Cache, id: Id): Cache
    requires Cached(c, id)
  {
    var h := Hash(c.pages[id].pgno);
    c.(hash := c.hash[h := [id] + Without(c.hash[h], id)])
  }

  /** A page in use is replaced or deleted: it can no longer be found. */
  function Zombify(c: Cache, id: Id): Cache
    requires Cached(c, id)
  {
    c.(hash := Unhash(c, id), pages := c.pages[id := c.pages[id].(priority := Zombie)])
  }

  /** A page nobody holds is freed. */
  function Erase(c: Cache, id: Id): Cache
    requires Cached(c, id)
  {
    var p := c.pages[id];
    c.(used := c.used - p.size, hash := Unhash(c, id), priority := Without(c.priority, id),
      nets := c.nets[p.net := RemovePage(c.nets[p.net], p.pgno)], pages := c.pages - {id}, nPages := c.nPages - 1)
  }

  /** The last reference to a zombie is given up. */
  function EraseZombie(c: Cache, id: Id): Cache
    requires Cached(c, id)
  {
    var p := c.pages[id];
    var n := RemovePage(c.nets[p.net], p.pgno);
    c.(referenced := Without(c.referenced, id), nets := c.nets[p.net := n.(referenced := n.referenced - 1)],
      pages := c.pages - {id}, nPages := c.nPages - 1)
  }

  /** The last reference to a page is given up. */
  function Release(c: Cache, id: Id): Cache
    requires Cached(c, id)
  {
    var p := c.pages[id];
    var n := c.nets[p.net];
    c.(referenced := Without(c.referenced, id), priority := c.priority + [id], used := c.used + p.size,
      pages := c.pages[id := p.(refs := 0)], nets := c.nets[p.net := n.(referenced := n.referenced - 1)])
  }

  /** A page nobody holds is referenced. */
  function Hold(c: Cache, id: Id): Cache
    requires Cached(c, id)
  {
    var p := c.pages[id];
    var n := c.nets[p.net];
    c.(priority := Without(c.priority, id), referenced := c.referenced + [id], used := c.used - p.size,
      pages := c.pages[id := p.(refs := 1)],
          nets := c.nets[p.net := n.(zombie := false, referenced := n.referenced + 1)],
      nNets := c.nNets + if n.zombie then 1 else 0)
  }

  function SetRefs(c: Cache, id: Id, refs: nat): Cache
    requires Cached(c, id)
  {
    c.(pages := c.pages[id := c.pages[id].(refs := refs)])
  }

  /** A new page, held by the caller. */
  function Insert(c: Cache, id: Id, p: Page): Cache
    requires |c.hash| == HASH_SIZE && p.net in c.nets
  {
    var h := Hash(p.pgno);
    var n := AddPage(c.nets[p.net], p.pgno);
    c.(hash := c.hash[h := [id] + c.hash[h]], referenced := c.referenced + [id], nPages := c.nPages + 1,
      pages := c.pages[id := p], nets := c.nets[p.net := n.(referenced := n.referenced + 1)],
      nNets := c.nNets + if c.nets[p.net].zombie then 1 else 0)
  }

  lemma SoundPage(c: Cache, id: Id)
    requires Sound(c) && id in c.pages
    ensures Cached(c, id)
    ensures id in c.priority <==> c.pages[id].refs == 0
    ensures id in c.referenced <==> c.pages[id].refs > 0
    ensures c.pages[id].priority == Zombie ==> c.pages[id].refs > 0
    ensures Distinct(c.priority) && Distinct(c.referenced)
  {
    InWhere(c.pages, id, IsIdle);
    InWhere(c.pages, id, IsHeld);
    hide Where;
  }

  lemma FrontKeeps(c: Cache, id: Id)
    requires Sound(c) && id in c.pages && c.pages[id].priority != Zombie
    ensures Sound(Front(c, id))
  {
    hide Tracks;
    hide Where;
    hide Hash;
    hide NetCounts;
    hide Sum;
    var h := Hash(c.pages[id].pgno);
    InWhere(c.pages, id, InChain(h));
    FrontTracks(c.hash[h], Where(c.pages, InChain(h)), id);
  }

  lemma SameStats(x: Network, y: Network)
    requires x.subpages == y.subpages
    ensures forall g :: Stat(x, g) == Stat(y, g)
  {
  }

  lemma RemoveStats(n: Network, g: nat)
    ensures forall h :: Stat(RemovePage(n, g), h) == Stat(n, h) - (if h == g then 1 else 0)
  {
    forall h ensures Stat(RemovePage(n, g), h) == Stat(n, h) - (if h == g then 1 else 0) {
      if h == g {} else {}
    }
  }

  lemma AddStats(n: Network, g: nat)
    ensures forall h :: Stat(AddPage(n, g), h) == Stat(n, h) + (if h == g then 1 else 0)
  {
    forall h ensures Stat(AddPage(n, g), h) == Stat(n, h) + (if h == g then 1 else 0) {
      if h == g {} else {}
    }
  }

  lemma SameMap<V>(m: map<Id, V>, id: Id)
    requires id in m
    ensures m[id := m[id]] == m
  {
  }

  /** A page of the same network and number stays. */
  lemma CountedAfter(pages: map<Id, Page>, nets: map<Id, Network>, nPages: int, id: Id, p: Page, x: Network)
    requires Counted(pages, nets, nPages) && id in pages && pages[id].net == p.net && pages[id].pgno == p.pgno
    requires x.cached == nets[p.net].cached && x.subpages == nets[p.net].subpages
    requires x.referenced == nets[p.net].referenced
        + (if p.refs > 0 then 1 else 0) - (if pages[id].refs > 0 then 1 else 0)
    ensures Counted(pages[id := p], nets[p.net := x], nPages)
  {
    hide NetCounts;
    SameStats(x, nets[p.net]);
    hide Stat;
    NetCountsAfter(pages, nets, id, p, x);
    assert pages[id := p].Keys == pages.Keys;
  }

  lemma CountedRemoved(pages: map<Id, Page>, nets: map<Id, Network>, nPages: int, id: Id, x: Network)
    requires Counted(pages, nets, nPages) && id in pages
    requires var n := nets[pages[id].net];
             && x.cached == n.cached - 1
             && x.referenced == n.referenced - (if pages[id].refs > 0 then 1 else 0)
             && x.subpages == RemovePage(n, pages[id].pgno).subpages
    ensures Counted(pages - {id}, nets[pages[id].net := x], nPages - 1)
  {
    hide NetCounts;
    var n := nets[pages[id].net];
    RemoveStats(n, pages[id].pgno);
    SameStats(x, RemovePage(n, pages[id].pgno));
    hide Stat;
    NetCountsRemoved(pages, nets, id, x);
    assert (pages - {id}).Keys == pages.Keys - {id};
  }

  lemma CountedAdded(pages: map<Id, Page>, nets: map<Id, Network>, nPages: int, id: Id, p: Page, x: Network)
    requires Counted(pages, nets, nPages) && id !in pages && p.net in nets && p.refs > 0
    requires var n := nets[p.net];
             && x.cached == n.cached + 1
             && x.referenced == n.referenced + 1
             && x.subpages == AddPage(n, p.pgno).subpages
    ensures Counted(pages[id := p], nets[p.net := x], nPages + 1)
  {
    hide NetCounts;
    var n := nets[p.net];
    AddStats(n, p.pgno);
    SameStats(x, AddPage(n, p.pgno));
    hide Stat;
    NetCountsAfter(pages, nets, id, p, x);
    assert pages[id := p].Keys == pages.Keys + {id};
  }

  lemma ListedAfter(nets: map<Id, Network>, netList: seq<Id>, nNets: int, n: Id, x: Network)
    requires Listed(nets, netList, nNets) && n in nets
    ensures Listed(nets[n := x], netList, nNets + (if x.zombie then 0 else 1) - (if nets[n].zombie then 0 else 1))
  {
    LivingAfter(nets, n, x);
    hide Living;
    hide Tracks;
  }

  lemma SumErased(pages: map<Id, Page>, ids: seq<Id>, id: Id)
    requires Distinct(ids) && id in ids
    ensures Sum(pages - {id}, Without(ids, id)) == Sum(pages, ids) - SizeOf(pages, id)
  {
    SumWithout(pages, ids, id);
    WithoutMembers(ids, id);
    SumFrame(pages, pages - {id}, Without(ids, id));
  }

  lemma SumUpdated(pages: map<Id, Page>, ids: seq<Id>, id: Id, p: Page)
    requires id in pages && p.size == pages[id].size
    ensures Sum(pages[id := p], ids) == Sum(pages, ids)
  {
    SumFrame(pages, pages[id := p], ids);
  }

  lemma ZombifyLinked(c: Cache, id: Id)
    requires Linked(c.pages, c.hash, c.priority, c.referenced) && Cached(c, id)
    requires c.pages[id].priority != Zombie && c.pages[id].refs > 0
    ensures var d := Zombify(c, id); Linked(d.pages, d.hash, d.priority, d.referenced)
  {
    var p := c.pages[id].(priority := Zombie);
    hide Tracks;
    hide Where;
    hide Hash;
    TracksAfter(c.priority, c.pages, id, p, IsIdle);
    TracksAfter(c.referenced, c.pages, id, p, IsHeld);
    var h := Hash(p.pgno);
    TracksAfter(c.hash[h], c.pages, id, p, InChain(h));
    ChainedAfter(c.pages, c.hash, id, p, Without(c.hash[h], id));
    hide Chained;
  }

  lemma ZombifyKeeps(c: Cache, id: Id)
    requires Sound(c) && id in c.pages && c.pages[id].priority != Zombie && c.pages[id].refs > 0
    ensures Sound(Zombify(c, id))
  {
    SoundPage(c, id);
    hide Linked;
    hide Sum;
    hide Counted;
    hide Listed;
    var p := c.pages[id].(priority := Zombie);
    ZombifyLinked(c, id);
    SumUpdated(c.pages, c.priority, id, p);
    SameMap(c.nets, p.net);
    CountedAfter(c.pages, c.nets, c.nPages, id, p, c.nets[p.net]);
  }

  lemma EraseLinked(c: Cache, id: Id)
    requires Linked(c.pages, c.hash, c.priority, c.referenced) && Cached(c, id) && c.pages[id].refs == 0
    ensures var d := Erase(c, id); Linked(d.pages, d.hash, d.priority, d.referenced)
  {
    hide Tracks;
    hide Where;
    hide Hash;
    TracksRemoved(c.priority, c.pages, id, IsIdle);
    TracksRemoved(c.referenced, c.pages, id, IsHeld);
    ChainedRemoved(c.pages, c.hash, id);
    hide Chained;
  }

  lemma EraseCounted(c: Cache, id: Id)
    requires Counted(c.pages, c.nets, c.nPages) && Listed(c.nets, c.netList, c.nNets) && Cached(c, id)
        && c.pages[id].refs == 0
    ensures var d := Erase(c, id); Counted(d.pages, d.nets, d.nPages) && Listed(d.nets, d.netList, d.nNets)
  {
    hide Counted;
    hide Listed;
    var n := c.nets[c.pages[id].net];
    var x := RemovePage(n, c.pages[id].pgno);
    CountedRemoved(c.pages, c.nets, c.nPages, id, x);
    ListedAfter(c.nets, c.netList, c.nNets, c.pages[id].net, x);
  }

  lemma EraseKeeps(c: Cache, id: Id)
    requires Sound(c) && id in c.pages && c.pages[id].refs == 0
    ensures Sound(Erase(c, id))
  {
    SoundPage(c, id);
    SumErased(c.pages, c.priority, id);
    hide Linked;
    hide Sum;
    hide Counted;
    hide Listed;
    EraseLinked(c, id);
    EraseCounted(c, id);
  }

  lemma EraseZombieLinked(c: Cache, id: Id)
    requires Linked(c.pages, c.hash, c.priority, c.referenced) && Cached(c, id)
    requires c.pages[id].refs > 0 && c.pages[id].priority == Zombie
    ensures var d := EraseZombie(c, id); Linked(d.pages, d.hash, d.priority, d.referenced)
  {
    hide Tracks;
    hide Where;
    hide Hash;
    TracksRemoved(c.priority, c.pages, id, IsIdle);
    TracksRemoved(c.referenced, c.pages, id, IsHeld);
    ChainedRemoved(c.pages, c.hash, id);
    hide Chained;
  }

  lemma EraseZombieCounted(c: Cache, id: Id)
    requires Counted(c.pages, c.nets, c.nPages) && Listed(c.nets, c.netList, c.nNets) && Cached(c, id)
        && c.pages[id].refs > 0
    ensures var d := EraseZombie(c, id); Counted(d.pages, d.nets, d.nPages) && Listed(d.nets, d.netList, d.nNets)
  {
    hide Counted;
    hide Listed;
    var n := RemovePage(c.nets[c.pages[id].net], c.pages[id].pgno);
    var x := n.(referenced := n.referenced - 1);
    CountedRemoved(c.pages, c.nets, c.nPages, id, x);
    ListedAfter(c.nets, c.netList, c.nNets, c.pages[id].net, x);
  }

  lemma SumOfOthers(pages: map<Id, Page>, ids: seq<Id>, id: Id)
    requires id !in ids
    ensures Sum(pages - {id}, ids) == Sum(pages, ids)
  {
    SumFrame(pages, pages - {id}, ids);
  }

  lemma EraseZombieKeeps(c: Cache, id: Id)
    requires Sound(c) && id in c.pages && c.pages[id].refs > 0 && c.pages[id].priority == Zombie
    ensures Sound(EraseZombie(c, id))
  {
    SoundPage(c, id);
    SumOfOthers(c.pages, c.priority, id);
    hide Linked;
    hide Sum;
    hide Counted;
    hide Listed;
    EraseZombieLinked(c, id);
    EraseZombieCounted(c, id);
  }

  lemma ReleaseLinked(c: Cache, id: Id)
    requires Linked(c.pages, c.hash, c.priority, c.referenced) && Cached(c, id)
    requires c.pages[id].refs > 0 && c.pages[id].priority != Zombie
    ensures var d := Release(c, id); Linked(d.pages, d.hash, d.priority, d.referenced)
  {
    var p := c.pages[id].(refs := 0);
    hide Tracks;
    hide Where;
    hide Hash;
    TracksAfter(c.priority, c.pages, id, p, IsIdle);
    TracksAfter(c.referenced, c.pages, id, p, IsHeld);
    var h := Hash(p.pgno);
    TracksAfter(c.hash[h], c.pages, id, p, InChain(h));
    ChainedAfter(c.pages, c.hash, id, p, c.hash[h]);
    assert c.hash[h := c.hash[h]] == c.hash;
    hide Chained;
  }

  /** The reference count of a page changes. */
  lemma RefsCounted(c: Cache, id: Id, p: Page, x: Network, nNets: int)
    requires Counted(c.pages, c.nets, c.nPages) && Listed(c.nets, c.netList, c.nNets) && Cached(c, id)
    requires p == c.pages[id].(refs := p.refs)
    requires x == c.nets[p.net].(referenced := x.referenced, zombie := x.zombie)
    requires x.referenced == c.nets[p.net].referenced
        + (if p.refs > 0 then 1 else 0) - (if c.pages[id].refs > 0 then 1 else 0)
    requires nNets == c.nNets + (if x.zombie then 0 else 1) - (if c.nets[p.net].zombie then 0 else 1)
    ensures Counted(c.pages[id := p], c.nets[p.net := x], c.nPages) && Listed(c.nets[p.net := x], c.netList, nNets)
  {
    hide Counted;
    hide Listed;
    CountedAfter(c.pages, c.nets, c.nPages, id, p, x);
    ListedAfter(c.nets, c.netList, c.nNets, p.net, x);
  }

  lemma SumAppended(pages: map<Id, Page>, ids: seq<Id>, id: Id, p: Page)
    requires id in pages && p.size == pages[id].size
    ensures Sum(pages[id := p], ids + [id]) == Sum(pages, ids) + p.size
  {
    SumUpdated(pages, ids + [id], id, p);
    SumConcat(pages, ids, [id]);
    assert Sum(pages, [id]) == pages[id].size;
  }

  lemma ReleaseCounted(c: Cache, id: Id)
    requires Counted(c.pages, c.nets, c.nPages) && Listed(c.nets, c.netList, c.nNets) && Cached(c, id)
        && c.pages[id].refs > 0
    ensures var d := Release(c, id); Counted(d.pages, d.nets, d.nPages) && Listed(d.nets, d.netList, d.nNets)
  {
    hide Counted;
    hide Listed;
    var p := c.pages[id].(refs := 0);
    var n := c.nets[p.net];
    RefsCounted(c, id, p, n.(referenced := n.referenced - 1), c.nNets);
  }

  lemma ReleaseKeeps(c: Cache, id: Id)
    requires Sound(c) && id in c.pages && c.pages[id].refs > 0 && c.pages[id].priority != Zombie
    ensures Sound(Release(c, id))
  {
    var p := c.pages[id].(refs := 0);
    SoundPage(c, id);
    hide Sum;
    hide Linked;
    hide Counted;
    hide Listed;
    SumAppended(c.pages, c.priority, id, p);
    ReleaseLinked(c, id);
    ReleaseCounted(c, id);
  }

  lemma HoldLinked(c: Cache, id: Id)
    requires Linked(c.pages, c.hash, c.priority, c.referenced) && Cached(c, id) && c.pages[id].refs == 0
    ensures var d := Hold(c, id); Linked(d.pages, d.hash, d.priority, d.referenced)
  {
    var p := c.pages[id].(refs := 1);
    hide Tracks;
    hide Where;
    hide Hash;
    TracksAfter(c.priority, c.pages, id, p, IsIdle);
    TracksAfter(c.referenced, c.pages, id, p, IsHeld);
    var h := Hash(p.pgno);
    TracksAfter(c.hash[h], c.pages, id, p, InChain(h));
    ChainedAfter(c.pages, c.hash, id, p, c.hash[h]);
    assert c.hash[h := c.hash[h]] == c.hash;
    hide Chained;
  }

  lemma SumHeld(pages: map<Id, Page>, ids: seq<Id>, id: Id, p: Page)
    requires id in pages && p.size == pages[id].size && id in ids
    ensures Sum(pages[id := p], Without(ids, id)) == Sum(pages, ids) - p.size
  {
    SumUpdated(pages, Without(ids, id), id, p);
    SumWithout(pages, ids, id);
  }

  lemma HoldCounted(c: Cache, id: Id)
    requires Counted(c.pages, c.nets, c.nPages) && Listed(c.nets, c.netList, c.nNets) && Cached(c, id)
        && c.pages[id].refs == 0
    ensures var d := Hold(c, id); Counted(d.pages, d.nets, d.nPages) && Listed(d.nets, d.netList, d.nNets)
  {
    hide Counted;
    hide Listed;
    var p := c.pages[id].(refs := 1);
    var n := c.nets[p.net];
    RefsCounted(c, id, p, n.(zombie := false, referenced := n.referenced + 1), c.nNets + if n.zombie then 1 else 0);
  }

  lemma HoldKeeps(c: Cache, id: Id)
    requires Sound(c) && id in c.pages && c.pages[id].refs == 0
    ensures Sound(Hold(c, id))
  {
    var p := c.pages[id].(refs := 1);
    SoundPage(c, id);
    hide Sum;
    hide Linked;
    hide Counted;
    hide Listed;
    SumHeld(c.pages, c.priority, id, p);
    HoldLinked(c, id);
    HoldCounted(c, id);
  }

  lemma SetRefsLinked(c: Cache, id: Id, refs: nat)
    requires Linked(c.pages, c.hash, c.priority, c.referenced) && Cached(c, id) && c.pages[id].refs > 0 && refs > 0
    ensures var d := SetRefs(c, id, refs); Linked(d.pages, d.hash, d.priority, d.referenced)
  {
    var p := c.pages[id].(refs := refs);
    hide Tracks;
    hide Where;
    hide Hash;
    TracksAfter(c.priority, c.pages, id, p, IsIdle);
    TracksAfter(c.referenced, c.pages, id, p, IsHeld);
    var h := Hash(p.pgno);
    TracksAfter(c.hash[h], c.pages, id, p, InChain(h));
    ChainedAfter(c.pages, c.hash, id, p, c.hash[h]);
    assert c.hash[h := c.hash[h]] == c.hash;
    hide Chained;
  }

  lemma SetRefsKeeps(c: Cache, id: Id, refs: nat)
    requires Sound(c) && id in c.pages && c.pages[id].refs > 0 && refs > 0
    ensures Sound(SetRefs(c, id, refs))
  {
    var p := c.pages[id].(refs := refs);
    SoundPage(c, id);
    hide Sum;
    hide Linked;
    hide Counted;
    hide Listed;
    SumUpdated(c.pages, c.priority, id, p);
    SetRefsLinked(c, id, refs);
    SameMap(c.nets, p.net);
    RefsCounted(c, id, p, c.nets[p.net], c.nNets);
  }

  lemma InsertLinked(c: Cache, id: Id, p: Page)
    requires Linked(c.pages, c.hash, c.priority, c.referenced) && id !in c.pages && p.net in c.nets
    requires p.refs > 0 && p.priority != Zombie
    ensures var d := Insert(c, id, p); Linked(d.pages, d.hash, d.priority, d.referenced)
  {
    hide Tracks;
    hide Where;
    hide Hash;
    TracksAfter(c.priority, c.pages, id, p, IsIdle);
    TracksAfter(c.referenced, c.pages, id, p, IsHeld);
    var h := Hash(p.pgno);
    TracksAfter(c.hash[h], c.pages, id, p, InChain(h));
    ChainedAfter(c.pages, c.hash, id, p, [id] + c.hash[h]);
    hide Chained;
  }

  lemma InsertKeeps(c: Cache, id: Id, p: Page)
    requires Sound(c) && id !in c.pages && p.net in c.nets && p.refs > 0 && p.priority != Zombie
    ensures Sound(Insert(c, id, p))
  {
    InWhere(c.pages, id, IsIdle);
    InsertLinked(c, id, p);
    assert id !in c.priority;
    SumFrame(c.pages, c.pages[id := p], c.priority);
    hide Sum;
    hide Linked;
    hide Counted;
    hide Listed;
    var n := AddPage(c.nets[p.net], p.pgno);
    var x := n.(referenced := n.referenced + 1);
    CountedAdded(c.pages, c.nets, c.nPages, id, p, x);
    ListedAfter(c.nets, c.netList, c.nNets, p.net, x);
  }
}
