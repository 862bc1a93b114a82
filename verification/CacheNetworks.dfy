/** Releasing pages and networks of the cache. */
module CacheNetworks {
  import opened LinkedLists
  import opened PageCache
  import opened PageEviction

  // What operations leave alone.

  ghost predicate SamePage(p: Page, q: Page) {
    q.(priority := p.priority) == p
  }

  /** Pages somebody holds are not freed, reused or rewritten; they may become zombies. */
  ghost predicate KeepsHeld(a: map<Id, Page>, b: map<Id, Page>) {
    forall id :: id in a && a[id].refs > 0 ==> id in b && SamePage(a[id], b[id])
  }

  /** No page is added or changed. */
  ghost predicate SubPages(a: map<Id, Page>, b: map<Id, Page>) {
    forall id :: id in b ==> id in a && b[id] == a[id]
  }

  /** All operations but those that give up or add references. */
  ghost predicate KeepsHeldBut(a: map<Id, Page>, b: map<Id, Page>, k: Id) {
    forall id :: id in a && a[id].refs > 0 && id != k ==> id in b && SamePage(a[id], b[id])
  }

  lemma ErasedKeepsHeld(c: Cache, d: Cache, ids: seq<Id>)
    requires Erased(c, d, Elements(ids)) && AllIdle(c.pages, ids)
    ensures KeepsHeld(c.pages, d.pages) && SubPages(c.pages, d.pages)
  {
  }

  // Networks.

  ghost predicate SettledBut(nets: map<Id, Network>, n: Id) {
    forall m :: m in nets && m != n && nets[m].zombie ==> InUse(nets[m])
  }

  function DeleteAllPages(c: Cache, n: Id): Cache {
    EraseAll(c, Only(c.priority, Where(c.pages, OfNet(n))))
  }

  function DeleteNetwork(c: Cache, n: Id): Cache
    requires n in c.nets
  {
    var d := if c.nets[n].cached > 0 then DeleteAllPages(c, n) else c;
    if n !in d.nets then d
    else
      var x := d.nets[n];
      var nNets := d.nNets - if x.zombie then 0 else 1;
      if InUse(x) then d.(nNets := nNets, nets := d.nets[n := x.(zombie := true)])
      else d.(nNets := nNets, nets := d.nets - {n}, netList := Without(d.netList, n))
  }

  lemma DeleteAllPagesKeeps(c: Cache, n: Id)
    requires Sound(c)
    ensures var d := DeleteAllPages(c, n);
            && Sound(d) && Erased(c, d, Elements(Only(c.priority, Where(c.pages, OfNet(n)))))
            && KeepsHeld(c.pages, d.pages) && SubPages(c.pages, d.pages) && d.used <= c.used
            && forall id :: id in d.pages && d.pages[id].net == n ==> d.pages[id].refs > 0
  {
    var ids := Only(c.priority, Where(c.pages, OfNet(n)));
    hide Sound;
    hide Sum;
    hide EraseAll;
    hide Only;
    hide Where;
    PriorityIn(c);
    OnlyMembers(c.priority, Where(c.pages, OfNet(n)));
    assert AllIdle(c.pages, ids);
    EraseAllLeaves(c, ids);
    var d := EraseAll(c, ids);
    ErasedKeepsHeld(c, d, ids);
    OthersHeld(c, d, n);
  }

  lemma OthersHeld(c: Cache, d: Cache, n: Id)
    requires forall id :: id in c.priority <==> id in c.pages && c.pages[id].refs == 0
    requires Erased(c, d, Elements(Only(c.priority, Where(c.pages, OfNet(n)))))
    ensures forall id :: id in d.pages && d.pages[id].net == n ==> d.pages[id].refs > 0
  {
    OnlyMembers(c.priority, Where(c.pages, OfNet(n)));
    hide Only;
    forall id | id in d.pages && d.pages[id].net == n ensures d.pages[id].refs > 0 {
      InWhere(c.pages, id, OfNet(n));
    }
  }

  /** The counters tell whether a network has pages, or pages in use. */
  lemma NoPagesCounted(c: Cache, n: Id)
    requires Sound(c) && n in c.nets
    ensures c.nets[n].cached >= 0 && c.nets[n].referenced >= 0
    ensures c.nets[n].cached == 0 ==> forall id :: id in c.pages ==> c.pages[id].net != n
    ensures c.nets[n].referenced == 0 ==> forall id :: id in c.pages && c.pages[id].net == n ==> c.pages[id].refs == 0
  {
    assert c.nets[n].cached == Count(c.pages, OfNet(n));
    assert c.nets[n].referenced == Count(c.pages, HeldOf(n));
    hide Sound;
    if c.nets[n].cached == 0 {
      forall id | id in c.pages ensures c.pages[id].net != n {
        InWhere(c.pages, id, OfNet(n));
      }
    }
    if c.nets[n].referenced == 0 {
      forall id | id in c.pages && c.pages[id].net == n ensures c.pages[id].refs == 0 {
        InWhere(c.pages, id, HeldOf(n));
      }
    }
  }

  lemma ListedRemoved(nets: map<Id, Network>, netList: seq<Id>, nNets: int, n: Id)
    requires Listed(nets, netList, nNets) && n in nets
    ensures Listed(nets - {n}, Without(netList, n), nNets - (if nets[n].zombie then 0 else 1))
  {
    WithoutTracks(netList, nets.Keys, n);
    hide Tracks;
    assert (nets - {n}).Keys == nets.Keys - {n};
    assert Living(nets - {n}) == Living(nets) - {n};
    assert n in Living(nets) <==> !nets[n].zombie;
  }

  lemma CountedWithoutNet(pages: map<Id, Page>, nets: map<Id, Network>, nPages: int, n: Id)
    requires Counted(pages, nets, nPages) && forall id :: id in pages ==> pages[id].net != n
    ensures Counted(pages, nets - {n}, nPages)
  {
    hide Count;
    hide Stat;
  }

  lemma RemoveNetKeeps(c: Cache, n: Id)
    requires Sound(c) && n in c.nets && forall id :: id in c.pages ==> c.pages[id].net != n
    ensures Sound(c.(nNets := c.nNets - (if c.nets[n].zombie then 0 else 1), nets := c.nets - {n},
        netList := Without(c.netList, n)))
  {
    hide Linked;
    hide Sum;
    hide Counted;
    hide Listed;
    ListedRemoved(c.nets, c.netList, c.nNets, n);
    CountedWithoutNet(c.pages, c.nets, c.nPages, n);
  }

  lemma SetNetCounted(pages: map<Id, Page>, nets: map<Id, Network>, nPages: int, n: Id, x: Network)
    requires Counted(pages, nets, nPages) && n in nets
    requires x.cached == nets[n].cached && x.referenced == nets[n].referenced && x.subpages == nets[n].subpages
    ensures Counted(pages, nets[n := x], nPages)
  {
    hide NetCounts;
    SameNetCounts(pages, nets, n, x);
  }

  lemma SameNetCounts(pages: map<Id, Page>, nets: map<Id, Network>, n: Id, x: Network)
    requires NetCounts(pages, nets) && n in nets
    requires x.cached == nets[n].cached && x.referenced == nets[n].referenced && x.subpages == nets[n].subpages
    ensures NetCounts(pages, nets[n := x])
  {
    hide Count;
    hide Stat;
    SameStats(x, nets[n]);
    var more := nets[n := x];
    forall m, g | m in more ensures Stat(more[m], g) == Count(pages, SubpageOf(m, g)) {
      assert Stat(nets[m], g) == Count(pages, SubpageOf(m, g));
    }
  }

  lemma MarkNetKeeps(c: Cache, n: Id)
    requires Sound(c) && n in c.nets
    ensures Sound(c.(nNets := c.nNets - (if c.nets[n].zombie then 0 else 1),
        nets := c.nets[n := c.nets[n].(zombie := true)]))
  {
    hide Linked;
    hide Sum;
    hide Counted;
    hide Listed;
    var x := c.nets[n].(zombie := true);
    SetNetCounted(c.pages, c.nets, c.nPages, n, x);
    ListedAfter(c.nets, c.netList, c.nNets, n, x);
  }

  /** The networks but n are as before, except for their counts of cached pages. */
  ghost predicate OtherNets(a: map<Id, Network>, b: map<Id, Network>, n: Id) {
    && (forall m :: m != n ==> (m in a <==> m in b))
    && forall m :: m in a && m != n ==>
         a[m].refs == b[m].refs && a[m].zombie == b[m].zombie && a[m].referenced == b[m].referenced
  }

  /** A network is deleted or, if it is in use, marked for deletion; pages in use stay. */
  lemma DeleteNetworkSound(c: Cache, n: Id)
    requires Sound(c) && n in c.nets
    ensures var d := DeleteNetwork(c, n);
            && Sound(d) && KeepsHeld(c.pages, d.pages) && SubPages(c.pages, d.pages)
            && OtherNets(c.nets, d.nets, n)
            && d.used <= c.used && d.limit == c.limit && d.maxNets == c.maxNets
            && d.nNets == c.nNets - (if c.nets[n].zombie then 0 else 1)
            && (n in d.nets <==> InUse(c.nets[n]))
            && (n in d.nets ==> d.nets[n].zombie && d.nets[n].refs == c.nets[n].refs && InUse(d.nets[n]))
            && (forall id :: id in d.pages && d.pages[id].net == n ==> d.pages[id].refs > 0)
  {
    hide Sound;
    hide Sum;
    hide Only;
    hide EraseAll;
    NoPagesCounted(c, n);
    DeleteAllPagesKeeps(c, n);
    var e := if c.nets[n].cached > 0 then DeleteAllPages(c, n) else c;
    hide DeleteAllPages;
    assert SameNets(c.nets, e.nets);
    assert KeepsHeld(c.pages, e.pages);
    NoPagesCounted(e, n);
    MarkNetKeeps(e, n);
    if !InUse(e.nets[n]) {
      RemoveNetKeeps(e, n);
    }
  }

  lemma DeleteNetworkKeeps(c: Cache, n: Id)
    requires Sound(c) && n in c.nets && SettledBut(c.nets, n)
    ensures var d := DeleteNetwork(c, n);
            && Consistent(d) && KeepsHeld(c.pages, d.pages) && SubPages(c.pages, d.pages)
            && d.used <= c.used && d.limit == c.limit
  {
    hide Sound;
    hide DeleteNetwork;
    DeleteNetworkSound(c, n);
  }

  // References to networks.

  function SetNet(c: Cache, n: Id, x: Network): Cache {
    c.(nets := c.nets[n := x])
  }

  /** From the network used last to the first, those not in use are deleted if they are marked
      for deletion, or if there are too many. */
  function SurplusNetworks(c: Cache, list: seq<Id>): Cache
    decreases |list|
  {
    if list == [] then c
    else
      var n := list[|list| - 1];
      var d := if n in c.nets && !InUse(c.nets[n]) && (c.nets[n].zombie || c.nNets > c.maxNets)
               then DeleteNetwork(c, n) else c;
      SurplusNetworks(d, list[..|list| - 1])
  }

  function UnrefNetwork(c: Cache, n: Id): Cache
    requires n in c.nets
  {
    var x := c.nets[n];
    if x.refs == 0 then c
    else if x.refs == 1 then SurplusNetworks(SetNet(c, n, x.(refs := 0)), c.netList)
    else SetNet(c, n, x.(refs := x.refs - 1))
  }

  function RefNetwork(c: Cache, n: Id): Cache
    requires n in c.nets
  {
    SetNet(c, n, c.nets[n].(refs := c.nets[n].refs + 1))
  }

  /** A network found by its identity moves to the front of the list. */
  function FrontNetwork(c: Cache, n: Id): Cache {
    c.(netList := [n] + Without(c.netList, n))
  }

  function GetNetwork(c: Cache, n: Id): Cache
    requires n in c.nets
  {
    var x := c.nets[n];
    SetNet(FrontNetwork(c, n), n, x.(refs := x.refs + 1, zombie := false))
      .(nNets := c.nNets + if x.zombie then 1 else 0)
  }

  /** The network used least recently that is not in use. */
  function Recyclable(nets: map<Id, Network>, list: seq<Id>): seq<Id>
    decreases |list|
  {
    if list == [] then []
    else
      var n := list[|list| - 1];
      if n in nets && !InUse(nets[n]) then [n] else Recyclable(nets, list[..|list| - 1])
  }

  /** The network loses its pages and its identity. */
  function Recycle(c: Cache, n: Id): Cache
    requires n in c.nets
  {
    var d := if c.nets[n].cached > 0 then DeleteAllPages(c, n) else c;
    if n !in d.nets then d
    else SetNet(FrontNetwork(d, n), n, d.nets[n].(refs := 1, zombie := false, cached := 0, referenced := 0))
  }

  /** A network is added, in new memory if there may be more networks or none can be
      recycled. */
  function AddNetwork(c: Cache, memory: seq<Id>): (Cache, seq<Id>) {
    var r := Recyclable(c.nets, c.netList);
    if c.nNets < c.maxNets || r == [] then
      if memory == [] then (c, [])
      else
        (c.(netList := [memory[0]] + c.netList, nNets := c.nNets + 1,
            nets := c.nets[memory[0] := Network(1, false, 0, 0, map[])]), [memory[0]])
    else if r[0] !in c.nets then (c, [])
    else (Recycle(c, r[0]), [r[0]])
  }

  /** All networks are deleted; those in use are marked for deletion. */
  function Purge(c: Cache, list: seq<Id>): Cache
    decreases |list|
  {
    if list == [] then c else Purge(if list[0] in c.nets then DeleteNetwork(c, list[0]) else c, list[1..])
  }

  lemma SetNetKeeps(c: Cache, n: Id, x: Network, nNets: int)
    requires Sound(c) && n in c.nets
    requires x == c.nets[n].(refs := x.refs, zombie := x.zombie)
    requires nNets == c.nNets + (if x.zombie then 0 else 1) - (if c.nets[n].zombie then 0 else 1)
    ensures Sound(SetNet(c, n, x).(nNets := nNets))
  {
    hide Linked;
    hide Sum;
    hide Counted;
    hide Listed;
    SetNetCounted(c.pages, c.nets, c.nPages, n, x);
    ListedAfter(c.nets, c.netList, c.nNets, n, x);
  }

  lemma FrontNetworkKeeps(c: Cache, n: Id)
    requires Sound(c) && n in c.nets
    ensures Sound(FrontNetwork(c, n))
  {
    hide Linked;
    hide Sum;
    hide Counted;
    hide Tracks;
    FrontTracks(c.netList, c.nets.Keys, n);
  }

  lemma GetNetworkKeeps(c: Cache, n: Id)
    requires Consistent(c) && n in c.nets
    ensures var d := GetNetwork(c, n);
            && Consistent(d) && d.pages == c.pages && d.used == c.used && d.limit == c.limit
            && n in d.nets && d.nets[n].refs == c.nets[n].refs + 1 && !d.nets[n].zombie
  {
    hide Sound;
    FrontNetworkKeeps(c, n);
    var x := c.nets[n];
    SetNetKeeps(FrontNetwork(c, n), n, x.(refs := x.refs + 1, zombie := false), c.nNets + if x.zombie then 1 else 0);
  }

  lemma RefNetworkKeeps(c: Cache, n: Id)
    requires Consistent(c) && n in c.nets
    ensures var d := RefNetwork(c, n);
            && Consistent(d) && d.pages == c.pages && d.used == c.used && d.limit == c.limit
  {
    hide Sound;
    SetNetKeeps(c, n, c.nets[n].(refs := c.nets[n].refs + 1), c.nNets);
  }

  /** The networks in use keep their references. */
  ghost predicate SameUse(a: map<Id, Network>, b: map<Id, Network>) {
    && b.Keys <= a.Keys
    && forall n :: n in a && InUse(a[n]) ==> n in b && b[n].refs == a[n].refs && InUse(b[n])
  }

  lemma {:induction false} SurplusNetworksKeep(c: Cache, list: seq<Id>)
    requires Sound(c)
    ensures var d := SurplusNetworks(c, list);
            && Sound(d) && KeepsHeld(c.pages, d.pages) && SubPages(c.pages, d.pages) && SameUse(c.nets, d.nets)
            && d.used <= c.used && d.limit == c.limit && d.maxNets == c.maxNets && d.nNets <= c.nNets
            && (forall n :: n in d.nets && d.nets[n].zombie && n in list ==> InUse(d.nets[n]))
            && (forall n :: n in d.nets && d.nets[n].zombie && n in c.nets && !c.nets[n].zombie ==> InUse(d.nets[n]))
            && (forall n :: n in d.nets && n in list && !InUse(d.nets[n]) ==> d.nNets <= d.maxNets)
    decreases |list|
  {
    hide Sound;
    hide DeleteNetwork;
    if list != [] {
      var n := list[|list| - 1];
      var d := if n in c.nets && !InUse(c.nets[n]) && (c.nets[n].zombie || c.nNets > c.maxNets)
               then DeleteNetwork(c, n) else c;
      if n in c.nets {
        DeleteNetworkSound(c, n);
      }
      SurplusNetworksKeep(d, list[..|list| - 1]);
    }
  }

  lemma ListOfNetworks(c: Cache)
    requires Sound(c)
    ensures Distinct(c.netList) && forall n :: n in c.netList <==> n in c.nets
  {
  }

  /** When the last reference to a network goes, networks marked for deletion that nothing uses
      go too, and afterwards there are too many networks only if all are in use. */
  lemma UnrefNetworkKeeps(c: Cache, n: Id)
    requires Consistent(c) && n in c.nets
    ensures var d := UnrefNetwork(c, n);
            && Consistent(d) && KeepsHeld(c.pages, d.pages) && SubPages(c.pages, d.pages)
            && d.used <= c.used && d.limit == c.limit
            && (c.nets[n].refs == 1 ==> d.nNets <= d.maxNets || forall m :: m in d.nets ==> InUse(d.nets[m]))
  {
    hide Sound;
    hide SurplusNetworks;
    var x := c.nets[n];
    if x.refs == 1 {
      var d := SetNet(c, n, x.(refs := 0));
      SetNetKeeps(c, n, x.(refs := 0), c.nNets);
      ListOfNetworks(c);
      SurplusNetworksKeep(d, c.netList);
    } else if x.refs > 1 {
      SetNetKeeps(c, n, x.(refs := x.refs - 1), c.nNets);
    }
  }

  lemma {:induction false} RecyclableIsIdle(nets: map<Id, Network>, list: seq<Id>)
    ensures var r := Recyclable(nets, list);
            && |r| <= 1
            && (r != [] ==> r[0] in nets && r[0] in list && !InUse(nets[r[0]]))
            && (r == [] ==> forall n :: n in list && n in nets ==> InUse(nets[n]))
    decreases |list|
  {
    if list != [] {
      RecyclableIsIdle(nets, list[..|list| - 1]);
    }
  }

  /** A recycled network has no pages left, so that clearing its counters changes nothing. */
  lemma RecycleKeeps(c: Cache, n: Id)
    requires Consistent(c) && n in c.nets && !InUse(c.nets[n])
    ensures var d := Recycle(c, n);
            && Consistent(d) && KeepsHeld(c.pages, d.pages) && SubPages(c.pages, d.pages)
            && d.used <= c.used && d.limit == c.limit && d.nNets == c.nNets
            && n in d.nets && d.nets[n].refs == 1 && forall id :: id in d.pages ==> d.pages[id].net != n
  {
    hide Sound;
    hide Sum;
    hide Only;
    hide EraseAll;
    NoPagesCounted(c, n);
    DeleteAllPagesKeeps(c, n);
    var d := if c.nets[n].cached > 0 then DeleteAllPages(c, n) else c;
    hide DeleteAllPages;
    assert SameNets(c.nets, d.nets);
    NoPagesCounted(d, n);
    NoneCounted(d, n);
    FrontNetworkKeeps(d, n);
    SetNetKeeps(FrontNetwork(d, n), n, d.nets[n].(refs := 1), d.nNets);
    assert !d.nets[n].zombie;
  }

  lemma NoneCounted(c: Cache, n: Id)
    requires Sound(c) && n in c.nets && forall id :: id in c.pages ==> c.pages[id].net != n
    ensures c.nets[n].cached == 0 && c.nets[n].referenced == 0
  {
    CountNone(c.pages, OfNet(n));
    CountNone(c.pages, HeldOf(n));
  }

  lemma CountNone(pages: map<Id, Page>, f: Page -> bool)
    requires forall id :: id in pages ==> !f(pages[id])
    ensures Count(pages, f) == 0
  {
    assert Where(pages, f) == {};
  }

  lemma NewNetworkCounted(pages: map<Id, Page>, nets: map<Id, Network>, nPages: int, n: Id)
    requires Counted(pages, nets, nPages) && n !in nets
    ensures Counted(pages, nets[n := Network(1, false, 0, 0, map[])], nPages)
  {
    hide Count;
    hide Stat;
    var x := Network(1, false, 0, 0, map[]);
    CountNone(pages, OfNet(n));
    CountNone(pages, HeldOf(n));
    forall g ensures Count(pages, SubpageOf(n, g)) == 0 && Stat(x, g) == 0 {
      CountNone(pages, SubpageOf(n, g));
      NoStat(x, g);
    }
  }

  lemma NoStat(x: Network, g: nat)
    requires x.subpages == map[]
    ensures Stat(x, g) == 0
  {
  }

  lemma LivingIs(nets: map<Id, Network>, s: set<Id>)
    requires forall m :: m in Living(nets) <==> m in s
    ensures Living(nets) == s
  {
    hide Living;
  }

  lemma NewNetworkListed(nets: map<Id, Network>, netList: seq<Id>, nNets: int, n: Id)
    requires Listed(nets, netList, nNets) && n !in nets
    ensures Listed(nets[n := Network(1, false, 0, 0, map[])], [n] + netList, nNets + 1)
  {
    PrependTracks(netList, nets.Keys, n);
    hide Tracks;
    hide Distinct;
    LivingMore(nets, n);
    hide Living;
  }

  lemma LivingMore(nets: map<Id, Network>, n: Id)
    requires n !in nets
    ensures var more := nets[n := Network(1, false, 0, 0, map[])];
            more.Keys == nets.Keys + {n} && |Living(more)| == |Living(nets)| + 1
  {
    var more := nets[n := Network(1, false, 0, 0, map[])];
    forall m ensures m in Living(more) <==> m in Living(nets) || m == n {
    }
    LivingIs(more, Living(nets) + {n});
    assert n !in Living(nets);
  }

  /** Adding a network deletes pages only of a network nothing uses. */
  lemma AddNetworkKeeps(c: Cache, memory: seq<Id>)
    requires Consistent(c) && (memory != [] ==> memory[0] !in c.nets)
    ensures var (d, r) := AddNetwork(c, memory);
            && Consistent(d) && KeepsHeld(c.pages, d.pages) && SubPages(c.pages, d.pages)
            && d.used <= c.used && d.limit == c.limit
            && (r != [] ==> r[0] in d.nets && d.nets[r[0]].refs == 1)
            && (d.nNets <= c.maxNets || d.nNets == c.nNets || forall n :: n in c.nets ==> InUse(c.nets[n]))
  {
    hide Linked;
    hide Sum;
    hide Counted;
    hide Listed;
    ListOfNetworks(c);
    RecyclableIsIdle(c.nets, c.netList);
    hide Recyclable;
    var r := Recyclable(c.nets, c.netList);
    if c.nNets < c.maxNets || r == [] {
      if memory != [] {
        NewNetworkCounted(c.pages, c.nets, c.nPages, memory[0]);
        NewNetworkListed(c.nets, c.netList, c.nNets, memory[0]);
      }
    } else {
      hide Recycle;
      RecycleKeeps(c, r[0]);
    }
  }

  /** After a purge only pages and networks in use are left, all marked for deletion. */
  lemma {:induction false} PurgeKeeps(c: Cache, list: seq<Id>)
    requires Consistent(c) && Distinct(list)
    ensures var d := Purge(c, list);
            && Consistent(d) && KeepsHeld(c.pages, d.pages) && SubPages(c.pages, d.pages)
            && d.used <= c.used && d.limit == c.limit && d.nets.Keys <= c.nets.Keys
            && (forall n :: n in c.nets && n !in list ==> n in d.nets && d.nets[n].zombie == c.nets[n].zombie)
            && (forall n :: n in d.nets && n in list ==> d.nets[n].zombie)
            && (forall id :: id in d.pages && d.pages[id].net in list ==> d.pages[id].refs > 0)
    decreases |list|
  {
    hide Sound;
    hide DeleteNetwork;
    if list != [] {
      var d := if list[0] in c.nets then DeleteNetwork(c, list[0]) else c;
      if list[0] in c.nets {
        DeleteNetworkKeeps(c, list[0]);
        DeleteNetworkSound(c, list[0]);
      } else {
        PageNets(c);
      }
      PurgeKeeps(d, list[1..]);
    }
  }

  lemma PageNets(c: Cache)
    requires Sound(c)
    ensures forall id :: id in c.pages ==> c.pages[id].net in c.nets
  {
  }
}
