/** Which pages of the cache are deleted when memory runs out. */
module PageEviction {
  import opened LinkedLists
  import opened PageCache

  /** The members of s in the order of the list. */
  function Only(list: seq<Id>, s: set<Id>): seq<Id> {
    if list == [] then []
    else if list[0] in s then [list[0]] + Only(list[1..], s)
    else Only(list[1..], s)
  }

  lemma {:induction false} OnlyMembers(list: seq<Id>, s: set<Id>)
    ensures forall id :: id in Only(list, s) <==> id in list && id in s
    ensures Distinct(list) ==> Distinct(Only(list, s))
  {
    if list != [] {
      OnlyMembers(list[1..], s);
      assert forall id :: id in list <==> id == list[0] || id in list[1..];
      if list[0] in s {
        var r := Only(list, s);
        assert r[0] == list[0] && r[1..] == Only(list[1..], s);
        assert forall id :: id in r <==> id == r[0] || id in r[1..];
      }
    }
  }

  lemma {:induction false} OnlyOnly(list: seq<Id>, s: set<Id>, t: set<Id>)
    ensures Only(Only(list, s), t) == Only(list, s * t)
  {
    if list != [] {
      OnlyOnly(list[1..], s, t);
      if list[0] in s {
        var r := Only(list, s);
        assert r[0] == list[0] && r[1..] == Only(list[1..], s);
      }
    }
  }

  /** Only the common members of the list and the set matter. */
  lemma {:induction false} OnlySame(list: seq<Id>, s: set<Id>, t: set<Id>)
    requires forall id :: id in list ==> (id in s <==> id in t)
    ensures Only(list, s) == Only(list, t)
  {
    if list != [] {
      OnlySame(list[1..], s, t);
    }
  }

  lemma {:induction false} OnlyAll(list: seq<Id>, s: set<Id>)
    requires forall id :: id in list ==> id in s
    ensures Only(list, s) == list
  {
    if list != [] {
      OnlyAll(list[1..], s);
    }
  }

  lemma {:induction false} OnlyWithout(list: seq<Id>, id: Id, s: set<Id>)
    requires Distinct(list) && forall x :: x in list ==> (x in s <==> x != id)
    ensures Without(list, id) == Only(list, s)
  {
    if list != [] {
      if list[0] == id {
        OnlyAll(list[1..], s);
      } else {
        OnlyWithout(list[1..], id, s);
      }
    }
  }

  /** A list splits into its members of disjoint sets. */
  lemma {:induction false} SumSplits(pages: map<Id, Page>, list: seq<Id>, s: set<Id>, t: set<Id>)
    requires s !! t
    ensures Sum(pages, Only(list, s)) + Sum(pages, Only(list, t)) == Sum(pages, Only(list, s + t))
  {
    if list != [] {
      SumSplits(pages, list[1..], s, t);
      SumOfHead(pages, list, s);
      SumOfHead(pages, list, t);
      SumOfHead(pages, list, s + t);
      hide Sum;
      hide Only;
    }
  }

  lemma SumOfHead(pages: map<Id, Page>, list: seq<Id>, s: set<Id>)
    requires list != []
    ensures Sum(pages, Only(list, s)) ==
            (if list[0] in s then SizeOf(pages, list[0]) else 0) + Sum(pages, Only(list[1..], s))
  {
    if list[0] in s {
      assert Only(list, s)[1..] == Only(list[1..], s);
    }
  }

  // The shortest sufficient prefix.

  function Take(pages: map<Id, Page>, ids: seq<Id>, need: int): seq<Id> {
    if need <= 0 || ids == [] then [] else [ids[0]] + Take(pages, ids[1..], need - SizeOf(pages, ids[0]))
  }

  /** r is the shortest prefix of a sufficient size. */
  ghost predicate Shortest(pages: map<Id, Page>, ids: seq<Id>, need: int, r: seq<Id>) {
    && |r| <= |ids| && r == ids[..|r|]
    && Sum(pages, r) >= need
    && forall k :: 0 <= k < |r| ==> Sum(pages, r[..k]) < need
  }

  lemma {:induction false} TakeIsShortest(pages: map<Id, Page>, ids: seq<Id>, need: int)
    ensures Sum(pages, ids) >= need ==> Shortest(pages, ids, need, Take(pages, ids, need))
    ensures Sum(pages, ids) < need ==> Take(pages, ids, need) == ids
  {
    if need > 0 && ids != [] {
      var rest := Take(pages, ids[1..], need - SizeOf(pages, ids[0]));
      TakeIsShortest(pages, ids[1..], need - SizeOf(pages, ids[0]));
      var r := Take(pages, ids, need);
      assert r[0] == ids[0] && r[1..] == rest;
      forall k | 0 <= k < |r| && Sum(pages, ids) >= need ensures Sum(pages, r[..k]) < need {
        if k > 0 {
          assert r[..k][0] == ids[0] && r[..k][1..] == rest[..k - 1];
        }
      }
    }
  }

  lemma TakeHead(pages: map<Id, Page>, ids: seq<Id>, need: int)
    requires need > 0 && ids != []
    ensures var r := Take(pages, ids[1..], need - SizeOf(pages, ids[0]));
            && Take(pages, ids, need) == [ids[0]] + r
            && Sum(pages, Take(pages, ids, need)) == SizeOf(pages, ids[0]) + Sum(pages, r)
  {
    var t := Take(pages, ids, need);
    assert t[1..] == Take(pages, ids[1..], need - SizeOf(pages, ids[0]));
  }

  lemma TakeNothing(pages: map<Id, Page>, ids: seq<Id>, need: int)
    requires need <= 0 || ids == []
    ensures Take(pages, ids, need) == [] && Sum(pages, Take(pages, ids, need)) == 0
  {
  }

  lemma {:induction false} TakeConcat(pages: map<Id, Page>, a: seq<Id>, b: seq<Id>, need: int)
    ensures Take(pages, a + b, need) == Take(pages, a, need) + Take(pages, b, need - Sum(pages, Take(pages, a, need)))
  {
    hide Take;
    hide Sum;
    if a == [] {
      assert a + b == b;
      TakeNothing(pages, a, need);
    } else if need <= 0 {
      TakeNothing(pages, a, need);
      TakeNothing(pages, b, need);
      TakeNothing(pages, a + b, need);
    } else {
      assert (a + b)[0] == a[0] && (a + b)[1..] == a[1..] + b;
      TakeConcat(pages, a[1..], b, need - SizeOf(pages, a[0]));
      TakeHead(pages, a, need);
      TakeHead(pages, a + b, need);
    }
  }

  lemma {:induction false} TakeFrame(pages: map<Id, Page>, other: map<Id, Page>, ids: seq<Id>, need: int)
    requires forall id :: id in ids ==> SizeOf(pages, id) == SizeOf(other, id)
    ensures Take(pages, ids, need) == Take(other, ids, need)
  {
    if need > 0 && ids != [] {
      TakeFrame(pages, other, ids[1..], need - SizeOf(pages, ids[0]));
    }
  }

  // Deleting pages nobody holds.

  function EraseAll(c: Cache, ids: seq<Id>): Cache
    decreases |ids|
  {
    if ids == [] || !Cached(c, ids[0]) then c else EraseAll(Erase(c, ids[0]), ids[1..])
  }

  ghost predicate SameNets(a: map<Id, Network>, b: map<Id, Network>) {
    && a.Keys == b.Keys
    && forall n :: n in a ==> a[n].refs == b[n].refs && a[n].zombie == b[n].zombie && a[n].referenced == b[n].referenced
  }

  ghost predicate AllIdle(pages: map<Id, Page>, ids: seq<Id>) {
    forall id :: id in ids ==> id in pages && pages[id].refs == 0
  }

  /** What is left after the pages with these addresses were deleted. */
  ghost predicate Erased(c: Cache, d: Cache, ids: set<Id>) {
    && d.pages == c.pages - ids
    && d.priority == Only(c.priority, c.pages.Keys - ids)
    && d.referenced == c.referenced && d.netList == c.netList && d.limit == c.limit && d.maxNets == c.maxNets
    && d.nNets == c.nNets
    && SameNets(c.nets, d.nets)
  }

  lemma PriorityIn(c: Cache)
    requires Sound(c)
    ensures forall id :: id in c.priority <==> id in c.pages && c.pages[id].refs == 0
    ensures Distinct(c.priority)
  {
  }

  lemma EraseNets(c: Cache, id: Id)
    requires Cached(c, id)
    ensures SameNets(c.nets, Erase(c, id).nets)
  {
  }

  lemma EraseLeaves(c: Cache, id: Id)
    requires Sound(c) && id in c.pages && c.pages[id].refs == 0
    ensures Cached(c, id)
    ensures Sound(Erase(c, id)) && Erased(c, Erase(c, id), {id})
    ensures Erase(c, id).used == c.used - c.pages[id].size
  {
    hide Sound;
    hide SameNets;
    EraseKeeps(c, id);
    PriorityIn(c);
    SoundPage(c, id);
    EraseNets(c, id);
    hide Hash;
    OnlyWithout(c.priority, id, c.pages.Keys - {id});
  }

  lemma ErasedTwice(c: Cache, d: Cache, e: Cache, s: set<Id>, t: set<Id>)
    requires Erased(c, d, s) && Erased(d, e, t)
    ensures Erased(c, e, s + t)
  {
    assert c.pages - s - t == c.pages - (s + t);
    OnlyOnly(c.priority, c.pages.Keys - s, d.pages.Keys - t);
    assert (c.pages.Keys - s) * (d.pages.Keys - t) == c.pages.Keys - (s + t);
  }

  function Elements(ids: seq<Id>): set<Id> {
    set id | id in ids
  }

  lemma ErasedNothing(c: Cache)
    requires Sound(c)
    ensures Erased(c, c, {})
  {
    hide Sound;
    PriorityIn(c);
    OnlyAll(c.priority, c.pages.Keys - {});
    assert c.pages - {} == c.pages;
  }

  lemma ErasedIdle(c: Cache, d: Cache, id: Id, ids: seq<Id>)
    requires Erased(c, d, {id}) && id !in ids && AllIdle(c.pages, ids)
    ensures AllIdle(d.pages, ids)
    ensures Sum(d.pages, ids) == Sum(c.pages, ids)
  {
    SumFrame(c.pages, d.pages, ids);
  }

  lemma {:induction false} EraseAllLeaves(c: Cache, ids: seq<Id>)
    requires Sound(c) && Distinct(ids) && AllIdle(c.pages, ids)
    ensures Sound(EraseAll(c, ids)) && Erased(c, EraseAll(c, ids), Elements(ids))
    ensures EraseAll(c, ids).used == c.used - Sum(c.pages, ids)
    decreases |ids|
  {
    hide Sound;
    if ids == [] {
      ErasedNothing(c);
      assert Elements(ids) == {};
    } else {
      EraseLeaves(c, ids[0]);
      var d := Erase(c, ids[0]);
      hide Erase;
      ErasedIdle(c, d, ids[0], ids[1..]);
      hide Erased;
      EraseAllLeaves(d, ids[1..]);
      ErasedTwice(c, d, EraseAll(c, ids), {ids[0]}, Elements(ids[1..]));
      assert {ids[0]} + Elements(ids[1..]) == Elements(ids);
    }
  }

  lemma {:induction false} EraseAllConcat(c: Cache, a: seq<Id>, b: seq<Id>)
    requires Sound(c) && Distinct(a) && AllIdle(c.pages, a)
    ensures EraseAll(c, a + b) == EraseAll(EraseAll(c, a), b)
    decreases |a|
  {
    hide Sound;
    if a == [] {
      assert a + b == b;
    } else {
      assert (a + b)[0] == a[0] && (a + b)[1..] == a[1..] + b;
      EraseLeaves(c, a[0]);
      ErasedIdle(c, Erase(c, a[0]), a[0], a[1..]);
      hide Erase;
      EraseAllConcat(Erase(c, a[0]), a[1..], b);
    }
  }

  // The order of eviction.

  /** A page of this priority, of a network that is referenced or not. */
  predicate Ranks(c: Cache, id: Id, priority: Priority, busy: bool) {
    && id in c.pages && c.pages[id].net in c.nets
    && c.pages[id].priority == priority && (c.nets[c.pages[id].net].refs > 0 <==> busy)
  }

  function Rank(c: Cache, priority: Priority, busy: bool): set<Id> {
    set id | id in c.pages && Ranks(c, id, priority, busy)
  }

  /** Pages of networks nobody references go first, ordinary pages before special pages, and
      the oldest pages of each kind first. */
  function Order(c: Cache): seq<Id> {
    Only(c.priority, Rank(c, Normal, false)) + Only(c.priority, Rank(c, Special, false))
    + Only(c.priority, Rank(c, Normal, true)) + Only(c.priority, Rank(c, Special, true))
  }

  function Surplus(c: Cache): seq<Id> {
    Take(c.pages, Order(c), c.used - c.limit)
  }

  function WithoutSurplus(c: Cache): Cache {
    EraseAll(c, Surplus(c))
  }

  lemma RanksSplit(c: Cache)
    requires Sound(c)
    ensures forall id :: id in c.priority ==>
              id in Rank(c, Normal, false) + Rank(c, Special, false) + Rank(c, Normal, true) + Rank(c, Special, true)
    ensures Rank(c, Normal, false) !! Rank(c, Special, false)
    ensures (Rank(c, Normal, false) + Rank(c, Special, false)) !! Rank(c, Normal, true)
    ensures (Rank(c, Normal, false) + Rank(c, Special, false) + Rank(c, Normal, true)) !! Rank(c, Special, true)
  {
    hide Sound;
    forall id | id in c.priority
      ensures id in Rank(c, Normal, false) + Rank(c, Special, false) + Rank(c, Normal, true) + Rank(c, Special, true)
    {
      PriorityIn(c);
      SoundPage(c, id);
    }
  }

  /** r is the part of the list that lies in s, in some order. */
  ghost predicate Permutes(pages: map<Id, Page>, r: seq<Id>, list: seq<Id>, s: set<Id>) {
    && Distinct(r) && (forall id :: id in r <==> id in list && id in s)
    && Sum(pages, r) == Sum(pages, Only(list, s))
  }

  lemma PermutesOne(pages: map<Id, Page>, list: seq<Id>, s: set<Id>)
    requires Distinct(list)
    ensures Permutes(pages, Only(list, s), list, s)
  {
    OnlyMembers(list, s);
  }

  lemma PermutesMore(pages: map<Id, Page>, r: seq<Id>, list: seq<Id>, s: set<Id>, t: set<Id>)
    requires Distinct(list) && Permutes(pages, r, list, s) && s !! t
    ensures Permutes(pages, r + Only(list, t), list, s + t)
  {
    OnlyMembers(list, t);
    SumSplits(pages, list, s, t);
    SumConcat(pages, r, Only(list, t));
    ConcatDistinct(r, Only(list, t));
    hide Only;
    hide Sum;
    hide Distinct;
  }

  lemma OrderPermutes(c: Cache)
    requires Sound(c)
    ensures Permutes(c.pages, Order(c), c.priority,
              Rank(c, Normal, false) + Rank(c, Special, false) + Rank(c, Normal, true) + Rank(c, Special, true))
  {
    var a, b, d, e := Rank(c, Normal, false), Rank(c, Special, false), Rank(c, Normal, true), Rank(c, Special, true);
    var l := c.priority;
    RanksSplit(c);
    PriorityIn(c);
    hide Sound;
    hide Rank;
    hide Permutes;
    PermutesOne(c.pages, l, a);
    PermutesMore(c.pages, Only(l, a), l, a, b);
    PermutesMore(c.pages, Only(l, a) + Only(l, b), l, a + b, d);
    PermutesMore(c.pages, Only(l, a) + Only(l, b) + Only(l, d), l, a + b + d, e);
  }

  lemma PermutesAll(c: Cache, r: seq<Id>, s: set<Id>)
    requires Sound(c) && Permutes(c.pages, r, c.priority, s) && forall id :: id in c.priority ==> id in s
    ensures Distinct(r) && AllIdle(c.pages, r) && Sum(c.pages, r) == c.used
    ensures forall id :: id in r <==> id in c.priority
  {
    SumOfPriority(c);
    PriorityIn(c);
    hide Sound;
    hide Sum;
    OnlyAll(c.priority, s);
  }

  lemma SumOfPriority(c: Cache)
    requires Sound(c)
    ensures Sum(c.pages, c.priority) == c.used
  {
  }

  /** The order lists every page that may be deleted once. */
  lemma OrderIsComplete(c: Cache)
    requires Sound(c)
    ensures Distinct(Order(c)) && AllIdle(c.pages, Order(c)) && Sum(c.pages, Order(c)) == c.used
    ensures forall id :: id in Order(c) <==> id in c.priority
  {
    hide Sound;
    hide Rank;
    hide Order;
    hide Permutes;
    OrderPermutes(c);
    RanksSplit(c);
    PermutesAll(c, Order(c), Rank(c, Normal, false) + Rank(c, Special, false) + Rank(c, Normal, true)
        + Rank(c, Special, true));
  }

  /** The pages deleted are the shortest prefix of the order that brings the memory used within
      the limit. */
  lemma SurplusIsShortest(c: Cache)
    requires Sound(c) && c.limit >= 0
    ensures Shortest(c.pages, Order(c), c.used - c.limit, Surplus(c))
  {
    hide Sound;
    hide Order;
    hide Sum;
    hide Shortest;
    OrderIsComplete(c);
    TakeIsShortest(c.pages, Order(c), c.used - c.limit);
  }

  lemma {:induction false} DistinctPrefix(s: seq<Id>, k: nat)
    requires Distinct(s) && k <= |s|
    ensures Distinct(s[..k])
  {
    ConcatDistinct(s[..k], s[k..]);
    assert s[..k] + s[k..] == s;
  }

  /** The limit is met, and nothing but the surplus is deleted. */
  lemma WithoutSurplusKeeps(c: Cache)
    requires Sound(c) && c.limit >= 0
    ensures var d := WithoutSurplus(c);
            && Sound(d) && Erased(c, d, Elements(Surplus(c))) && d.used <= d.limit
            && Distinct(Surplus(c)) && AllIdle(c.pages, Surplus(c))
  {
    hide Sound;
    hide Order;
    hide Sum;
    hide Surplus;
    OrderIsComplete(c);
    SurplusIsShortest(c);
    PrefixIsIdle(c.pages, Order(c), c.used - c.limit, Surplus(c));
    hide Shortest;
    EraseAllLeaves(c, Surplus(c));
  }

  lemma PrefixIsIdle(pages: map<Id, Page>, ids: seq<Id>, need: int, r: seq<Id>)
    requires Shortest(pages, ids, need, r) && Distinct(ids) && AllIdle(pages, ids)
    ensures Distinct(r) && AllIdle(pages, r) && Sum(pages, r) >= need
  {
    hide Sum;
    DistinctPrefix(ids, |r|);
  }

  // The passes over the eviction list.

  /** The pages one pass deletes: of this priority, and of networks nobody references unless
      any network will do. */
  predicate Fits(c: Cache, id: Id, priority: Priority, any: bool) {
    && id in c.pages && c.pages[id].net in c.nets
    && c.pages[id].priority == priority && (any || c.nets[c.pages[id].net].refs == 0)
  }

  function Fitting(c: Cache, priority: Priority, any: bool): set<Id> {
    set id | id in c.pages && Fits(c, id, priority, any)
  }

  function Pass(c: Cache, priority: Priority, any: bool): Cache {
    EraseAll(c, Take(c.pages, Only(c.priority, Fitting(c, priority, any)), c.used - c.limit))
  }

  lemma PassAfterEnough(c: Cache, d: Cache, a: seq<Id>, b: seq<Id>, priority: Priority, any: bool)
    requires Sound(c) && Distinct(a) && AllIdle(c.pages, a)
    requires d == EraseAll(c, Take(c.pages, a, c.used - c.limit)) && Sum(c.pages, a) >= c.used - c.limit
    ensures Pass(d, priority, any) == EraseAll(c, Take(c.pages, a + b, c.used - c.limit))
  {
    hide Sound;
    hide Only;
    hide Fitting;
    hide EraseAll;
    hide Take;
    hide Sum;
    var need := c.used - c.limit;
    var taken := Take(c.pages, a, need);
    TakeIsShortest(c.pages, a, need);
    PrefixIsIdle(c.pages, a, need, taken);
    EraseAllLeaves(c, taken);
    TakeConcat(c.pages, a, b, need);
    TakeNothing(c.pages, b, need - Sum(c.pages, taken));
    TakeNothing(d.pages, Only(d.priority, Fitting(d, priority, any)), d.used - d.limit);
    EraseNothing(d);
    assert taken + [] == taken;
  }

  lemma EraseNothing(c: Cache)
    ensures EraseAll(c, []) == c
  {
  }

  lemma PassContinues(c: Cache, d: Cache, a: seq<Id>, b: seq<Id>, priority: Priority, any: bool)
    requires Sound(c) && Distinct(a + b) && AllIdle(c.pages, a + b)
    requires d == EraseAll(c, a) && Sum(c.pages, a) < c.used - c.limit
    requires Only(d.priority, Fitting(d, priority, any)) == b
    ensures Pass(d, priority, any) == EraseAll(c, Take(c.pages, a + b, c.used - c.limit))
  {
    hide Sound;
    hide Only;
    hide Fitting;
    hide EraseAll;
    hide Take;
    hide Sum;
    var need := c.used - c.limit;
    ConcatDistinct(a, b);
    hide Distinct;
    TakeIsShortest(c.pages, a, need);
    EraseAllLeaves(c, a);
    TakeConcat(c.pages, a, b, need);
    TakeFrame(c.pages, d.pages, b, need - Sum(c.pages, a));
    EraseAllConcat(c, a, Take(c.pages, b, need - Sum(c.pages, a)));
  }

  /** After the pages a were considered, and all deleted if they do not suffice, a pass over b
      continues. */
  lemma NextPass(c: Cache, d: Cache, a: seq<Id>, b: seq<Id>, priority: Priority, any: bool)
    requires Sound(c) && Distinct(a + b) && AllIdle(c.pages, a + b)
    requires d == EraseAll(c, Take(c.pages, a, c.used - c.limit))
    requires Sum(c.pages, a) < c.used - c.limit ==> Only(d.priority, Fitting(d, priority, any)) == b
    ensures Pass(d, priority, any) == EraseAll(c, Take(c.pages, a + b, c.used - c.limit))
  {
    ConcatDistinct(a, b);
    TakeIsShortest(c.pages, a, c.used - c.limit);
    hide Sound;
    hide Only;
    hide Fitting;
    hide EraseAll;
    hide Take;
    hide Sum;
    hide Distinct;
    hide Pass;
    if Sum(c.pages, a) < c.used - c.limit {
      PassContinues(c, d, a, b, priority, any);
    } else {
      PassAfterEnough(c, d, a, b, priority, any);
    }
  }

  lemma FitsAfter(c: Cache, d: Cache, ids: set<Id>, id: Id, priority: Priority, any: bool)
    requires Erased(c, d, ids)
    ensures id in Fitting(d, priority, any) <==> id !in ids && Fits(c, id, priority, any)
  {
  }

  lemma PermutesIdle(c: Cache, r: seq<Id>, u: set<Id>)
    requires Sound(c) && Permutes(c.pages, r, c.priority, u)
    ensures Distinct(r) && AllIdle(c.pages, r)
  {
    PriorityIn(c);
    hide Sound;
  }

  /** After the pages a, which are those in u, were deleted the pass sees those in s. */
  lemma FittingAfter(c: Cache, a: seq<Id>, u: set<Id>, s: set<Id>, priority: Priority, any: bool)
    requires Sound(c) && Permutes(c.pages, a, c.priority, u)
    requires forall id :: id in c.priority ==> (id in s <==> id !in u && Fits(c, id, priority, any))
    ensures var d := EraseAll(c, a); Only(d.priority, Fitting(d, priority, any)) == Only(c.priority, s)
  {
    var d := EraseAll(c, a);
    hide Sound;
    hide Sum;
    hide EraseAll;
    hide Distinct;
    hide Fits;
    hide Fitting;
    PriorityIn(c);
    PermutesIdle(c, a, u);
    EraseAllLeaves(c, a);
    var f := Fitting(d, priority, any);
    var m := (c.pages.Keys - Elements(a)) * f;
    OnlyOnly(c.priority, c.pages.Keys - Elements(a), f);
    forall id | id in c.priority ensures id in m <==> id in s {
      FitsAfter(c, d, Elements(a), id, priority, any);
    }
    hide Erased;
    OnlySame(c.priority, m, s);
  }

  lemma PassAfter(c: Cache, d: Cache, a: seq<Id>, u: set<Id>, s: set<Id>, priority: Priority, any: bool)
    requires Sound(c) && Permutes(c.pages, a, c.priority, u) && u !! s
    requires d == EraseAll(c, Take(c.pages, a, c.used - c.limit))
    requires forall id :: id in c.priority ==> (id in s <==> id !in u && Fits(c, id, priority, any))
    ensures var e := a + Only(c.priority, s);
            && Pass(d, priority, any) == EraseAll(c, Take(c.pages, e, c.used - c.limit))
            && Permutes(c.pages, e, c.priority, u + s)
  {
    hide Sound;
    hide Only;
    hide Fitting;
    hide EraseAll;
    hide Take;
    hide Sum;
    hide Distinct;
    hide Pass;
    hide Permutes;
    hide Fits;
    PriorityIn(c);
    PermutesMore(c.pages, a, c.priority, u, s);
    PermutesIdle(c, a + Only(c.priority, s), u + s);
    if Sum(c.pages, a) < c.used - c.limit {
      TakeIsShortest(c.pages, a, c.used - c.limit);
      FittingAfter(c, a, u, s, priority, any);
    }
    NextPass(c, d, a, Only(c.priority, s), priority, any);
  }

  lemma RanksAndFits(c: Cache)
    ensures var n0, s0, n1, s1 := Rank(c, Normal, false), Rank(c, Special, false), Rank(c, Normal, true),
        Rank(c, Special, true);
            forall id :: id in c.pages ==>
              && (id in n0 <==> Fits(c, id, Normal, false))
              && (id in s0 <==> id !in n0 && Fits(c, id, Special, false))
              && (id in n1 <==> id !in n0 + s0 && Fits(c, id, Normal, true))
              && (id in s1 <==> id !in n0 + s0 + n1 && Fits(c, id, Special, true))
  {
  }

  lemma FirstPass(c: Cache)
    requires Sound(c)
    ensures Pass(c, Normal, false)
        == EraseAll(c, Take(c.pages, Only(c.priority, Rank(c, Normal, false)), c.used - c.limit))
  {
    hide Sound;
    hide Rank;
    hide Fits;
    hide EraseAll;
    hide Take;
    hide Only;
    RanksAndFits(c);
    PriorityIn(c);
    OnlySame(c.priority, Fitting(c, Normal, false), Rank(c, Normal, false));
  }

  /** The four passes delete the surplus. */
  lemma PassesDeleteSurplus(c: Cache)
    requires Sound(c)
    ensures Pass(Pass(Pass(Pass(c, Normal, false), Special, false), Normal, true), Special, true) == WithoutSurplus(c)
  {
    hide Sound;
    hide Rank;
    hide Fits;
    hide Only;
    hide Take;
    hide EraseAll;
    hide Permutes;
    FirstPass(c);
    hide Pass;
    PriorityIn(c);
    RanksAndFits(c);
    RanksSplit(c);
    var n0, s0, n1, s1 := Rank(c, Normal, false), Rank(c, Special, false), Rank(c, Normal, true),
        Rank(c, Special, true);
    var l := c.priority;
    PermutesOne(c.pages, l, n0);
    var c1 := Pass(c, Normal, false);
    PassAfter(c, c1, Only(l, n0), n0, s0, Special, false);
    var c2 := Pass(c1, Special, false);
    PassAfter(c, c2, Only(l, n0) + Only(l, s0), n0 + s0, n1, Normal, true);
    var c3 := Pass(c2, Normal, true);
    PassAfter(c, c3, Only(l, n0) + Only(l, s0) + Only(l, n1), n0 + s0 + n1, s1, Special, true);
  }
}
