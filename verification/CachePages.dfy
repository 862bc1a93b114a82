/** Referencing, finding and storing pages. */
module CachePages {
  import opened Options
  import opened LinkedLists
  import opened PageCache
  import opened PageEviction
  import opened CacheNetworks

  /** The invariant between public calls. */
  ghost predicate Valid(c: Cache) {
    Consistent(c) && 0 <= c.limit && c.used <= c.limit
  }

  // References.

  function Unref(c: Cache, id: Id): Cache
    requires Cached(c, id)
  {
    var p := c.pages[id];
    if p.refs == 0 then c
    else if p.refs > 1 then SetRefs(c, id, p.refs - 1)
    else
      var d := if p.priority == Zombie then EraseZombie(c, id) else Release(c, id);
      var n := d.nets[p.net];
      var e := if n.zombie && !InUse(n) then DeleteNetwork(d, p.net) else d;
      if e.used > e.limit then WithoutSurplus(e) else e
  }

  function Ref(c: Cache, id: Id): Cache
    requires Cached(c, id)
  {
    if c.pages[id].refs == 0 then Hold(c, id) else SetRefs(c, id, c.pages[id].refs + 1)
  }

  lemma RefKeeps(c: Cache, id: Id)
    requires Valid(c) && id in c.pages
    ensures Cached(c, id)
    ensures var d := Ref(c, id);
            && Valid(d) && KeepsHeldBut(c.pages, d.pages, id)
            && id in d.pages && d.pages[id] == c.pages[id].(refs := c.pages[id].refs + 1)
  {
    hide Sound;
    SoundPage(c, id);
    if c.pages[id].refs == 0 {
      HoldKeeps(c, id);
    } else {
      SetRefsKeeps(c, id, c.pages[id].refs + 1);
    }
  }

  /** Giving up the last reference leaves the network perhaps unused, but nothing else. */
  lemma LastUnref(c: Cache, id: Id)
    requires Consistent(c) && id in c.pages && c.pages[id].refs == 1
    ensures Cached(c, id)
    ensures var p := c.pages[id];
            var d := if p.priority == Zombie then EraseZombie(c, id) else Release(c, id);
            && Sound(d) && p.net in d.nets && SettledBut(d.nets, p.net) && KeepsHeldBut(c.pages, d.pages, id)
            && d.limit == c.limit
            && (id in d.pages <==> p.priority != Zombie) && (id in d.pages ==> d.pages[id] == p.(refs := 0))
  {
    hide Sound;
    SoundPage(c, id);
    if c.pages[id].priority == Zombie {
      EraseZombieKeeps(c, id);
    } else {
      ReleaseKeeps(c, id);
    }
  }

  lemma UnrefKeeps(c: Cache, id: Id)
    requires Valid(c) && id in c.pages
    ensures Cached(c, id)
    ensures var d := Unref(c, id);
            && Valid(d) && KeepsHeldBut(c.pages, d.pages, id)
            && (c.pages[id].refs > 1 ==> id in d.pages && d.pages[id] == c.pages[id].(refs := c.pages[id].refs - 1))
            && (c.pages[id].refs == 0 ==> d == c)
            && (c.pages[id].priority == Zombie && c.pages[id].refs == 1 ==> id !in d.pages)
  {
    hide Sound;
    SoundPage(c, id);
    var p := c.pages[id];
    if p.refs > 1 {
      SetRefsKeeps(c, id, p.refs - 1);
    } else if p.refs == 1 {
      LastUnref(c, id);
      var d := if p.priority == Zombie then EraseZombie(c, id) else Release(c, id);
      UnrefRest(c, d, id, p.net);
    }
  }

  lemma SurplusKeeps(c: Cache)
    requires Consistent(c) && 0 <= c.limit
    ensures var d := WithoutSurplus(c); Valid(d) && KeepsHeld(c.pages, d.pages) && SubPages(c.pages, d.pages)
  {
    hide Sound;
    hide WithoutSurplus;
    hide Surplus;
    WithoutSurplusKeeps(c);
    ErasedKeepsHeld(c, WithoutSurplus(c), Surplus(c));
  }

  /** The network goes if nothing uses it any more, and pages that exceed the limit. */
  lemma UnrefRest(c: Cache, d: Cache, id: Id, n: Id)
    requires Sound(d) && n in d.nets && SettledBut(d.nets, n) && KeepsHeldBut(c.pages, d.pages, id) && 0 <= d.limit
    requires id in d.pages ==> d.pages[id].refs == 0
    ensures var e := if d.nets[n].zombie && !InUse(d.nets[n]) then DeleteNetwork(d, n) else d;
            var f := if e.used > e.limit then WithoutSurplus(e) else e;
            && Valid(f) && KeepsHeldBut(c.pages, f.pages, id) && (id !in d.pages ==> id !in f.pages)
  {
    hide Sound;
    hide WithoutSurplus;
    hide DeleteNetwork;
    var e := if d.nets[n].zombie && !InUse(d.nets[n]) then DeleteNetwork(d, n) else d;
    DeleteNetworkKeeps(d, n);
    assert Consistent(e) && KeepsHeld(d.pages, e.pages) && e.limit == d.limit && SubPages(d.pages, e.pages);
    SurplusKeeps(e);
  }

  // Finding pages.

  const ANY_SUBNO: Word := 0x3F7F

  /** The bits of the mask are the same. */
  predicate Agree(s: Word, t: Word, mask: Word) {
    s & mask == t & mask
  }

  predicate Matches(p: Page, net: Id, pgno: int, subno: Word, mask: Word) {
    p.pgno == pgno && Agree(p.subno, subno, mask) && p.net == net
  }

  function First(pages: map<Id, Page>, chain: seq<Id>, net: Id, pgno: int, subno: Word, mask: Word): Option<Id> {
    if chain == [] then None
    else if chain[0] in pages && Matches(pages[chain[0]], net, pgno, subno, mask) then Some(chain[0])
    else First(pages, chain[1..], net, pgno, subno, mask)
  }

  /** The first matching page of its chain, which moves to the front. */
  function Find(c: Cache, net: Id, pgno: nat, subno: Word, mask: Word): (Cache, Option<Id>)
    requires |c.hash| == HASH_SIZE
  {
    var r := First(c.pages, c.hash[Hash(pgno)], net, pgno, subno, mask);
    if r.None? || !Cached(c, r.value) then (c, None) else (Front(c, r.value), r)
  }

  function Get(c: Cache, net: Id, pgno: int, subno: Word, mask: Word): (Cache, Option<Id>)
    requires |c.hash| == HASH_SIZE
  {
    if pgno < 0x100 || pgno > 0x8FF || pgno % 256 == 0xFF then (c, None)
    else
      var (d, r) := Find(c, net, pgno, subno, if subno == ANY_SUBNO then 0 else mask);
      if r.None? || !Cached(d, r.value) then (d, None) else (Ref(d, r.value), r)
  }

  predicate IsLive(p: Page) {
    p.priority != Zombie
  }

  lemma {:induction false} FirstMatches(pages: map<Id, Page>, chain: seq<Id>, net: Id, pgno: int, subno: Word,
      mask: Word)
    ensures var r := First(pages, chain, net, pgno, subno, mask);
            && (r.Some? ==> r.value in chain && r.value in pages && Matches(pages[r.value], net, pgno, subno, mask))
            && (r.None? ==> forall id :: id in chain && id in pages ==> !Matches(pages[id], net, pgno, subno, mask))
  {
    hide Matches;
    if chain != [] {
      FirstMatches(pages, chain[1..], net, pgno, subno, mask);
    }
  }

  ghost predicate Hit(pages: map<Id, Page>, id: Id, net: Id, pgno: int, subno: Word, mask: Word) {
    id in pages && IsLive(pages[id]) && Matches(pages[id], net, pgno, subno, mask)
  }

  ghost predicate Miss(pages: map<Id, Page>, net: Id, pgno: int, subno: Word, mask: Word) {
    forall id :: id in pages && IsLive(pages[id]) ==> !Matches(pages[id], net, pgno, subno, mask)
  }

  /** A page is found exactly if a live page matches; it is then in front of its chain. */
  lemma FindKeeps(c: Cache, net: Id, pgno: nat, subno: Word, mask: Word)
    requires Sound(c)
    ensures |c.hash| == HASH_SIZE
    ensures var (d, r) := Find(c, net, pgno, subno, mask);
            && Sound(d) && d == c.(hash := d.hash)
            && (r.Some? ==>
                  Hit(c.pages, r.value, net, pgno, subno, mask) && Cached(c, r.value) && d == Front(c, r.value))
            && (r.None? ==> d == c && Miss(c.pages, net, pgno, subno, mask))
  {
    ChainMembers(c, Hash(pgno));
    hide Sound;
    hide Hash;
    FirstMatches(c.pages, c.hash[Hash(pgno)], net, pgno, subno, mask);
    var r := First(c.pages, c.hash[Hash(pgno)], net, pgno, subno, mask);
    hide First;
    if r.Some? {
      SoundPage(c, r.value);
      FrontKeeps(c, r.value);
    }
  }

  lemma ChainMembers(c: Cache, h: nat)
    requires Sound(c) && h < HASH_SIZE
    ensures |c.hash| == HASH_SIZE
    ensures forall id ::
              id in c.hash[h] <==> id in c.pages && c.pages[id].priority != Zombie && Hash(c.pages[id].pgno) == h
  {
    assert Tracks(c.hash[h], Where(c.pages, InChain(h)));
    forall id
      ensures id in c.hash[h] <==> id in c.pages && c.pages[id].priority != Zombie && Hash(c.pages[id].pgno) == h
    {
      InWhere(c.pages, id, InChain(h));
    }
  }

  predicate GoodPgno(pgno: int) {
    0x100 <= pgno <= 0x8FF && pgno % 256 != 0xFF
  }

  function MaskFor(subno: Word, mask: Word): Word {
    if subno == ANY_SUBNO then 0 else mask
  }

  lemma GetFinds(c: Cache, net: Id, pgno: int, subno: Word, mask: Word)
    requires |c.hash| == HASH_SIZE
    ensures !GoodPgno(pgno) ==> Get(c, net, pgno, subno, mask) == (c, None)
    ensures GoodPgno(pgno) ==>
              var (d, r) := Find(c, net, pgno, subno, MaskFor(subno, mask));
              Get(c, net, pgno, subno, mask)
              == if r.None? || !Cached(d, r.value) then (d, None) else (Ref(d, r.value), r)
  {
    hide Find;
    hide Ref;
  }

  /** The page returned is a live page that matches, with one more reference. */
  ghost predicate Got(c: Cache, d: Cache, r: Option<Id>, net: Id, pgno: int, subno: Word, mask: Word) {
    if r.Some? then
      && Hit(c.pages, r.value, net, pgno, subno, MaskFor(subno, mask))
      && KeepsHeldBut(c.pages, d.pages, r.value)
      && r.value in d.pages && d.pages[r.value] == c.pages[r.value].(refs := c.pages[r.value].refs + 1)
    else
      d == c && (GoodPgno(pgno) ==> Miss(c.pages, net, pgno, subno, MaskFor(subno, mask)))
  }

  lemma GotRef(c: Cache, d: Cache, id: Id, net: Id, pgno: int, subno: Word, mask: Word)
    requires Valid(d) && OnlyHashed(c, d) && Hit(c.pages, id, net, pgno, subno, MaskFor(subno, mask))
    ensures Cached(d, id) && Valid(Ref(d, id)) && Got(c, Ref(d, id), Some(id), net, pgno, subno, mask)
  {
    hide Sound;
    hide Matches;
    hide Ref;
    hide KeepsHeldBut;
    RefKeeps(d, id);
  }

  ghost predicate OnlyHashed(c: Cache, d: Cache) {
    d == c.(hash := d.hash)
  }

  lemma HashedIsValid(c: Cache, d: Cache)
    requires Valid(c) && Sound(d) && OnlyHashed(c, d)
    ensures Valid(d)
  {
    hide Sound;
  }

  lemma HashSize(c: Cache)
    requires Sound(c)
    ensures |c.hash| == HASH_SIZE
  {
  }

  /** A page is returned exactly if a live page matches. */
  lemma GetKeeps(c: Cache, net: Id, pgno: int, subno: Word, mask: Word)
    requires Valid(c)
    ensures |c.hash| == HASH_SIZE
    ensures var (d, r) := Get(c, net, pgno, subno, mask); Valid(d) && Got(c, d, r, net, pgno, subno, mask)
  {
    hide Sound;
    hide Find;
    hide Get;
    hide Miss;
    hide Hit;
    hide Ref;
    hide Front;
    hide KeepsHeldBut;
    HashSize(c);
    GetFinds(c, net, pgno, subno, mask);
    if GoodPgno(pgno) {
      FindKeeps(c, net, pgno, subno, MaskFor(subno, mask));
      var (d, r) := Find(c, net, pgno, subno, MaskFor(subno, mask));
      if r.Some? {
        HashedIsValid(c, d);
        GotRef(c, d, r.value, net, pgno, subno, mask);
        assert r == Some(r.value);
      }
    }
  }
}
