/** Whole runs of the page cache. */
module CacheRuns {
  import opened Options
  import opened LinkedLists
  import opened PageCache
  import opened PageEviction
  import opened CacheNetworks
  import opened CachePages
  import opened CachePut
  import opened CacheRecency
  import opened CacheKeys
  import Bcd

  datatype Op =
    | GetPage(net: Id, pgno: int, subno: Word, mask: Word)
    | PutPage(net: Id, page: Received, clock: bool, memory: Option<Id>)
    | RefPage(id: Id)
    | UnrefPage(id: Id)
    | RefNet(n: Id)
    | UnrefNet(n: Id)
    | GetNet(n: Id)
    | AddNet(room: seq<Id>)
    | PurgeAll

  /** Callers name pages and networks of the cache, and memory that is not in use. A put is
      allowed where it deletes no page twice and writes over no page of another size. */
  ghost predicate Allowed(c: Cache, op: Op) {
    |c.hash| == HASH_SIZE &&
    match op
    case GetPage(net, pgno, subno, mask) => true
    case PutPage(net, r, clock, memory) =>
      && net in c.nets && r.pgno <= 0x8FF && (memory.Some? ==> memory.value !in c.pages)
      && PutOnce(c, net, r, clock) && (PutReuses(c, net, r, clock) ==> c.used == c.limit)
    case RefPage(id) => id in c.pages && Cached(c, id)
    case UnrefPage(id) => id in c.pages && Cached(c, id)
    case RefNet(n) => n in c.nets
    case UnrefNet(n) => n in c.nets
    case GetNet(n) => n in c.nets
    case AddNet(memory) => memory != [] ==> memory[0] !in c.nets
    case PurgeAll => true
  }

  ghost function Step(c: Cache, op: Op): Cache
    requires Allowed(c, op)
  {
    match op
    case GetPage(net, pgno, subno, mask) => Get(c, net, pgno, subno, mask).0
    case PutPage(net, r, clock, memory) => Put(c, net, r, clock, memory).0
    case RefPage(id) => Ref(c, id)
    case UnrefPage(id) => Unref(c, id)
    case RefNet(n) => RefNetwork(c, n)
    case UnrefNet(n) => UnrefNetwork(c, n)
    case GetNet(n) => GetNetwork(c, n)
    case AddNet(memory) => AddNetwork(c, memory).0
    case PurgeAll => Purge(c, c.netList)
  }

  /** Every operation keeps the lists, chains and counters consistent and the memory used
      within the limit. */
  lemma StepKeeps(c: Cache, op: Op)
    requires Valid(c) && Allowed(c, op)
    ensures Valid(Step(c, op))
  {
    hide Sound;
    hide Get;
    hide Put;
    hide Ref;
    hide Unref;
    hide RefNetwork;
    hide UnrefNetwork;
    hide GetNetwork;
    hide AddNetwork;
    hide Purge;
    hide PutOnce;
    hide PutReuses;
    match op
    case GetPage(net, pgno, subno, mask) => GetKeeps(c, net, pgno, subno, mask);
    case PutPage(net, r, clock, memory) => PutKeeps(c, net, r, clock, memory);
    case RefPage(id) => RefKeeps(c, id);
    case UnrefPage(id) => UnrefKeeps(c, id);
    case RefNet(n) => RefNetworkKeeps(c, n);
    case UnrefNet(n) => UnrefNetworkKeeps(c, n);
    case GetNet(n) => GetNetworkKeeps(c, n);
    case AddNet(memory) => AddNetworkKeeps(c, memory);
    case PurgeAll =>
      ListOfNetworks(c);
      PurgeKeeps(c, c.netList);
  }

  // Pages in use.

  /** The same page with the same content; its reference count and priority may differ. */
  ghost predicate SameContent(p: Page, q: Page) {
    q.(priority := p.priority, refs := p.refs) == p
  }

  predicate LastReference(c: Cache, op: Op, id: Id) {
    op == UnrefPage(id) && id in c.pages && c.pages[id].refs <= 1
  }

  /** A page somebody holds stays what it is until its last reference is given up. */
  lemma StepHolds(c: Cache, op: Op, id: Id)
    requires Valid(c) && Allowed(c, op) && id in c.pages && c.pages[id].refs > 0 && !LastReference(c, op, id)
    ensures var d := Step(c, op); id in d.pages && d.pages[id].refs > 0 && SameContent(c.pages[id], d.pages[id])
  {
    hide Sound;
    hide Get;
    hide Put;
    hide Ref;
    hide Unref;
    hide RefNetwork;
    hide UnrefNetwork;
    hide GetNetwork;
    hide AddNetwork;
    hide Purge;
    hide PutOnce;
    hide PutReuses;
    hide PriorityOf;
    match op
    case GetPage(net, pgno, subno, mask) => GetKeeps(c, net, pgno, subno, mask);
    case PutPage(net, r, clock, memory) => PutKeeps(c, net, r, clock, memory);
    case RefPage(k) => RefKeeps(c, k);
    case UnrefPage(k) => UnrefKeeps(c, k);
    case RefNet(n) => RefNetworkKeeps(c, n);
    case UnrefNet(n) => UnrefNetworkKeeps(c, n);
    case GetNet(n) => GetNetworkKeeps(c, n);
    case AddNet(memory) => AddNetworkKeeps(c, memory);
    case PurgeAll =>
      ListOfNetworks(c);
      PurgeKeeps(c, c.netList);
  }

  // Keys and recency.

  /** All operations but lookups and puts only take pages out of the chains. */
  lemma ChainsOfNetworkOps(c: Cache, op: Op)
    requires Valid(c) && Allowed(c, op) && (op.RefNet? || op.UnrefNet? || op.GetNet? || op.AddNet? || op.PurgeAll?)
    ensures ChainsLeft(c, Step(c, op))
  {
    hide Sound;
    hide ChainsLeft;
    hide SurplusNetworks;
    hide DeleteAllPages;
    hide Recyclable;
    hide Purge;
    ChainsSame(c, c);
    match op
    case RefNet(n) => ChainsSame(c, Step(c, op));
    case UnrefNet(n) =>
      SetNetKeeps(c, n, c.nets[n].(refs := if c.nets[n].refs > 0 then c.nets[n].refs - 1 else 0), c.nNets);
      var d := SetNet(c, n, c.nets[n].(refs := if c.nets[n].refs > 0 then c.nets[n].refs - 1 else 0));
      ChainsSame(c, d);
      ChainsOfSurplusNetworks(d, c.netList);
      ChainsTwice(c, d, SurplusNetworks(d, c.netList));
    case GetNet(n) => ChainsSame(c, Step(c, op));
    case AddNet(memory) =>
      RecyclableIsIdle(c.nets, c.netList);
      var r := Recyclable(c.nets, c.netList);
      if r != [] && !(c.nNets < c.maxNets) {
        ChainsOfRecycle(c, r[0]);
      } else {
        ChainsSame(c, Step(c, op));
      }
    case PurgeAll => ChainsOfPurge(c, c.netList);
  }

  lemma ChainsOfRecycle(c: Cache, n: Id)
    requires Sound(c) && n in c.nets
    ensures ChainsLeft(c, Recycle(c, n))
  {
    hide Sound;
    hide DeleteAllPages;
    ChainsSame(c, c);
    ChainsOfDeleteAll(c, n);
    var d := if c.nets[n].cached > 0 then DeleteAllPages(c, n) else c;
    assert ChainsLeft(c, d);
  }

  lemma ChainsOfOps(c: Cache, op: Op)
    requires Valid(c) && Allowed(c, op) && !op.GetPage? && !op.PutPage?
    ensures ChainsLeft(c, Step(c, op))
  {
    hide Sound;
    hide ChainsLeft;
    if op.RefPage? {
      ChainsOfRef(c, op.id);
    } else if op.UnrefPage? {
      ChainsOfUnref(c, op.id);
    } else {
      ChainsOfNetworkOps(c, op);
    }
  }

  // The simple thing: one list of pages, the one used last in front.

  function Touched(recent: seq<Id>, found: Option<Id>): seq<Id> {
    if found.Some? then [found.value] + Without(recent, found.value) else recent
  }

  /** The page of the list that a put replaces. */
  function FirstFor(c: Cache, recent: seq<Id>, net: Id, r: Received, clock: bool): Option<Id>
    requires r.pgno <= 0x8FF
  {
    var (subno, mask) := Key(r.pgno, r.subno, clock);
    First(c.pages, recent, net, r.pgno, subno & mask, mask)
  }

  function Placed(touched: seq<Id>, d: Cache, result: Option<Id>): seq<Id> {
    if result.None? then Only(touched, Live(d.pages))
    else [result.value] + Only(touched, Live(d.pages) - {result.value})
  }

  function PutRecent(c: Cache, recent: seq<Id>, net: Id, r: Received, clock: bool, memory: Option<Id>): seq<Id>
    requires |c.hash| == HASH_SIZE && r.pgno <= 0x8FF
  {
    if r.pgno % 256 == 0xFF then recent
    else Placed(Touched(recent, FirstFor(c, recent, net, r, clock)),
                Put(c, net, r, clock, memory).0, Put(c, net, r, clock, memory).1)
  }

  /** What an operation does to the list: a page looked up moves to the front, a page put goes
      to the front, and pages that are no longer live disappear. */
  ghost function Recent(c: Cache, recent: seq<Id>, op: Op): seq<Id>
    requires Allowed(c, op)
  {
    match op
    case GetPage(net, pgno, subno, mask) =>
      if GoodPgno(pgno) then Touched(recent, First(c.pages, recent, net, pgno, subno, MaskFor(subno, mask))) else recent
    case PutPage(net, r, clock, memory) =>
      PutRecent(c, recent, net, r, clock, memory)
    case _ => Only(recent, Live(Step(c, op).pages))
  }

  lemma FindTouches(c: Cache, recent: seq<Id>, net: Id, pgno: nat, subno: Word, mask: Word)
    requires Valid(c) && Represents(c, recent)
    ensures var (d, r) := Find(c, net, pgno, subno, mask);
            && Valid(d) && d.pages == c.pages
            && r == First(c.pages, recent, net, pgno, subno, mask)
            && Represents(d, Touched(recent, r))
            && (r.Some? ==> r.value in c.pages && IsLive(c.pages[r.value]) && Cached(d, r.value))
  {
    hide Sound;
    hide Represents;
    hide Matches;
    hide Miss;
    hide Front;
    FindKeeps(c, net, pgno, subno, mask);
    FindLive(c, net, pgno, subno, mask);
    LookupIsMostRecent(c, recent, net, pgno, subno, mask);
    FindFirst(c, net, pgno, subno, mask);
    var (d, r) := Find(c, net, pgno, subno, mask);
    hide Find;
    hide First;
    if r.Some? {
      RepresentsFront(c, recent, r.value);
      SoundPage(d, r.value);
    }
  }

  lemma FindFirst(c: Cache, net: Id, pgno: nat, subno: Word, mask: Word)
    requires Sound(c)
    ensures |c.hash| == HASH_SIZE
    ensures Find(c, net, pgno, subno, mask).1 == First(c.pages, c.hash[Hash(pgno)], net, pgno, subno, mask)
  {
    ChainMembers(c, Hash(pgno));
    hide Sound;
    hide Hash;
    FirstMatches(c.pages, c.hash[Hash(pgno)], net, pgno, subno, mask);
    var r := First(c.pages, c.hash[Hash(pgno)], net, pgno, subno, mask);
    hide First;
    if r.Some? {
      SoundPage(c, r.value);
    }
  }

  lemma RefRepresents(c: Cache, recent: seq<Id>, id: Id)
    requires Valid(c) && id in c.pages && Represents(c, recent)
    ensures Cached(c, id) && Represents(Ref(c, id), recent)
  {
    hide Sound;
    hide ChainsLeft;
    RefKeeps(c, id);
    ChainsOfRef(c, id);
    RepresentsAfter(c, Ref(c, id), recent);
    hide Ref;
    forall k | k in recent ensures k in Live(Ref(c, id).pages) {
      LiveMember(c.pages, k);
      LiveMember(Ref(c, id).pages, k);
    }
    OnlyAll(recent, Live(Ref(c, id).pages));
  }

  lemma GetRepresents(c: Cache, recent: seq<Id>, op: Op)
    requires Valid(c) && Allowed(c, op) && op.GetPage? && Represents(c, recent)
    ensures Represents(Step(c, op), Recent(c, recent, op))
  {
    hide Valid;
    hide Represents;
    hide Find;
    hide First;
    hide Get;
    GetFinds(c, op.net, op.pgno, op.subno, op.mask);
    if GoodPgno(op.pgno) {
      FindTouches(c, recent, op.net, op.pgno, op.subno, MaskFor(op.subno, op.mask));
      var (d, r) := Find(c, op.net, op.pgno, op.subno, MaskFor(op.subno, op.mask));
      if r.Some? {
        RefRepresents(d, Touched(recent, r), r.value);
      }
      hide Ref;
    }
  }

  lemma PrepareRepresents(c: Cache, recent: seq<Id>, net: Id, r: Received, clock: bool, subno: Word, mask: Word)
    requires Valid(c) && r.pgno <= 0x8FF && Represents(c, recent) && Key(r.pgno, r.subno, clock) == (subno, mask)
    ensures |c.hash| == HASH_SIZE
    ensures var d := Prepare(c, net, r, clock).0;
            var touched := Touched(recent, First(c.pages, recent, net, r.pgno, subno & mask, mask));
            exists f: Cache :: Represents(f, touched) && ChainsLeft(f, d)
  {
    hide Sound;
    hide Key;
    hide First;
    hide Represents;
    hide ChainsLeft;
    FindLive(c, net, r.pgno, subno & mask, mask);
    FindTouches(c, recent, net, r.pgno, subno & mask, mask);
    PrepareIs(c, net, r, clock, subno, mask);
    var (f, found) := Find(c, net, r.pgno, subno & mask, mask);
    hide Find;
    ChainsSame(f, f);
    if found.Some? {
      ChainsOfZombify(f, found.value);
    }
  }

  lemma PutRepresents(c: Cache, recent: seq<Id>, net: Id, r: Received, clock: bool, memory: Option<Id>, subno: Word,
      mask: Word)
    requires Valid(c) && |c.hash| == HASH_SIZE && Represents(c, recent) && net in c.nets && r.pgno <= 0x8FF
    requires (memory.Some? ==> memory.value !in c.pages) && PutOnce(c, net, r, clock)
    requires r.pgno % 256 != 0xFF && Key(r.pgno, r.subno, clock) == (subno, mask)
    ensures var touched := Touched(recent, First(c.pages, recent, net, r.pgno, subno & mask, mask));
            Represents(Put(c, net, r, clock, memory).0,
              Placed(touched, Put(c, net, r, clock, memory).0, Put(c, net, r, clock, memory).1))
  {
    hide Valid;
    hide Represents;
    hide First;
    hide Key;
    hide Prepare;
    hide Store;
    hide Only;
    hide Put;
    hide PutOnce;
    hide ChainsLeft;
    hide PriorityOf;
    hide Touched;
    var touched := Touched(recent, First(c.pages, recent, net, r.pgno, subno & mask, mask));
    PrepareRepresents(c, recent, net, r, clock, subno, mask);
    var (d, former) := Prepare(c, net, r, clock);
    var f: Cache :| Represents(f, touched) && ChainsLeft(f, d);
    var e := PutParts(c, net, r, clock, memory);
    var (out, result) := Put(c, net, r, clock, memory);
    if result.None? {
      RepresentsAfter(f, d, touched);
    } else {
      ChainsTwice(f, d, e);
      RepresentsAfter(f, e, touched);
      StoreRepresents(e, Only(touched, Live(e.pages)), result.value, NewPage(net, r, subno));
    }
  }

  lemma StoreRepresents(e: Cache, recent: seq<Id>, id: Id, p: Page)
    requires Represents(e, recent) && id !in e.pages && p.net in e.nets && IsLive(p)
    ensures |e.hash| == HASH_SIZE
    ensures var d := Store(e, id, p).0; Represents(d, [id] + recent) && Live(d.pages) - {id} == Live(e.pages)
  {
    RepresentsInsert(e, recent, id, p);
    hide Only;
  }

  lemma PutRecentRepresents(c: Cache, recent: seq<Id>, net: Id, r: Received, clock: bool, memory: Option<Id>)
    requires Valid(c) && |c.hash| == HASH_SIZE && Represents(c, recent) && net in c.nets && r.pgno <= 0x8FF
    requires (memory.Some? ==> memory.value !in c.pages) && PutOnce(c, net, r, clock)
    ensures Represents(Put(c, net, r, clock, memory).0, PutRecent(c, recent, net, r, clock, memory))
  {
    hide Valid;
    hide Represents;
    hide First;
    hide Key;
    hide Put;
    hide Placed;
    hide PutOnce;
    hide Touched;
    if r.pgno % 256 != 0xFF {
      var (subno, mask) := Key(r.pgno, r.subno, clock);
      PutRepresents(c, recent, net, r, clock, memory, subno, mask);
    } else {
      PutNothing(c, net, r, clock, memory);
    }
  }

  lemma PutNothing(c: Cache, net: Id, r: Received, clock: bool, memory: Option<Id>)
    requires |c.hash| == HASH_SIZE && r.pgno <= 0x8FF && r.pgno % 256 == 0xFF
    ensures Put(c, net, r, clock, memory) == (c, None)
  {
  }

  lemma PutOpRepresents(c: Cache, recent: seq<Id>, op: Op)
    requires Valid(c) && Allowed(c, op) && op.PutPage? && Represents(c, recent)
    ensures Represents(Step(c, op), Recent(c, recent, op))
  {
    hide Valid;
    hide Represents;
    hide Put;
    hide PutRecent;
    hide PutOnce;
    hide PutReuses;
    PutRecentRepresents(c, recent, op.net, op.page, op.clock, op.memory);
  }

  /** Every operation does to the chains what the simple list says, so that a lookup always
      returns the live match used last. */
  lemma StepRepresents(c: Cache, recent: seq<Id>, op: Op)
    requires Valid(c) && Allowed(c, op) && Represents(c, recent)
    ensures Represents(Step(c, op), Recent(c, recent, op))
  {
    hide Valid;
    hide Represents;
    hide Allowed;
    hide Step;
    hide ChainsLeft;
    if op.GetPage? {
      GetRepresents(c, recent, op);
    } else if op.PutPage? {
      PutOpRepresents(c, recent, op);
    } else {
      ChainsOfOps(c, op);
      RepresentsAfter(c, Step(c, op), recent);
    }
  }

  // Runs.

  ghost predicate AllowedRun(c: Cache, ops: seq<Op>)
    decreases |ops|
  {
    ops != [] ==> Allowed(c, ops[0]) && AllowedRun(Step(c, ops[0]), ops[1..])
  }

  ghost function Run(c: Cache, ops: seq<Op>): Cache
    requires AllowedRun(c, ops)
    decreases |ops|
  {
    if ops == [] then c else Run(Step(c, ops[0]), ops[1..])
  }

  /** No operation of the run gives up the last reference to the page. */
  ghost predicate StaysReferenced(c: Cache, ops: seq<Op>, id: Id)
    requires AllowedRun(c, ops)
    decreases |ops|
  {
    ops != [] ==> !LastReference(c, ops[0], id) && StaysReferenced(Step(c, ops[0]), ops[1..], id)
  }

  /** All lists and counters are consistent, and the memory used within the limit, after any
      run of puts, lookups, references, network deletions and purges. */
  lemma {:induction false} ConsistentInEveryRun(c: Cache, ops: seq<Op>)
    requires Valid(c) && AllowedRun(c, ops)
    ensures Valid(Run(c, ops))
    decreases |ops|
  {
    hide Valid;
    hide Allowed;
    hide Step;
    if ops != [] {
      StepKeeps(c, ops[0]);
      ConsistentInEveryRun(Step(c, ops[0]), ops[1..]);
    }
  }

  /** Over any run a page in use is not freed, reused or rewritten until its last reference is
      given up. */
  lemma {:induction false} HeldInEveryRun(c: Cache, ops: seq<Op>, id: Id)
    requires Valid(c) && AllowedRun(c, ops) && StaysReferenced(c, ops, id)
    requires id in c.pages && c.pages[id].refs > 0
    ensures var d := Run(c, ops); id in d.pages && d.pages[id].refs > 0 && SameContent(c.pages[id], d.pages[id])
    decreases |ops|
  {
    hide Valid;
    hide Allowed;
    hide Step;
    if ops != [] {
      StepKeeps(c, ops[0]);
      StepHolds(c, ops[0], id);
      HeldInEveryRun(Step(c, ops[0]), ops[1..], id);
    }
  }

  lemma StepKeepsHexUnique(c: Cache, op: Op)
    requires Valid(c) && Allowed(c, op) && HexUnique(c.pages)
    ensures HexUnique(Step(c, op).pages)
  {
    hide HexUnique;
    hide Sound;
    hide Put;
    hide Get;
    hide PutOnce;
    hide PutReuses;
    hide ChainsLeft;
    if op.PutPage? {
      PutKeepsHexUnique(c, op.net, op.page, op.clock, op.memory);
    } else if op.GetPage? {
      GetKeepsKeys(c, op.net, op.pgno, op.subno, op.mask);
      KeptHexUnique(c.pages, Step(c, op).pages);
    } else {
      ChainsOfOps(c, op);
      ChainsKeepKeys(c, Step(c, op));
      KeptHexUnique(c.pages, Step(c, op).pages);
    }
  }

  lemma ChainsKeepKeys(c: Cache, d: Cache)
    requires ChainsLeft(c, d)
    ensures KeptKeys(c.pages, d.pages)
  {
  }

  lemma RefKeepsKeys(c: Cache, id: Id)
    requires Cached(c, id)
    ensures KeptKeys(c.pages, Ref(c, id).pages)
  {
  }

  lemma GetKeepsKeys(c: Cache, net: Id, pgno: int, subno: Word, mask: Word)
    requires Valid(c)
    ensures |c.hash| == HASH_SIZE && KeptKeys(c.pages, Get(c, net, pgno, subno, mask).0.pages)
  {
    hide Sound;
    hide Find;
    hide Get;
    hide Ref;
    ChainMembers(c, 0);
    GetFinds(c, net, pgno, subno, mask);
    if GoodPgno(pgno) {
      FindLive(c, net, pgno, subno, MaskFor(subno, mask));
      var (d, r) := Find(c, net, pgno, subno, MaskFor(subno, mask));
      if r.Some? && Cached(d, r.value) {
        RefKeepsKeys(d, r.value);
      }
    }
  }

  /** Hex pages have one live version for each key, and each chain keeps the order of last use
      of the simple list, in every run. */
  lemma {:induction false} LookupInEveryRun(c: Cache, recent: seq<Id>, ops: seq<Op>)
    requires Valid(c) && AllowedRun(c, ops) && HexUnique(c.pages) && Represents(c, recent)
    ensures HexUnique(Run(c, ops).pages)
    ensures Represents(Run(c, ops), RunRecent(c, recent, ops))
    decreases |ops|
  {
    hide Valid;
    hide Allowed;
    hide Step;
    hide Represents;
    hide HexUnique;
    hide Recent;
    if ops != [] {
      StepKeeps(c, ops[0]);
      StepKeepsHexUnique(c, ops[0]);
      StepRepresents(c, recent, ops[0]);
      LookupInEveryRun(Step(c, ops[0]), Recent(c, recent, ops[0]), ops[1..]);
    }
  }

  ghost function RunRecent(c: Cache, recent: seq<Id>, ops: seq<Op>): seq<Id>
    requires AllowedRun(c, ops)
    decreases |ops|
  {
    if ops == [] then recent else RunRecent(Step(c, ops[0]), Recent(c, recent, ops[0]), ops[1..])
  }

  // A page put is found as long as it is in the cache.

  /** The page is not deleted and does not become a zombie, and no put writes over it. */
  ghost predicate Survives(c: Cache, op: Op, id: Id)
    requires Allowed(c, op)
  {
    && id in Step(c, op).pages && IsLive(Step(c, op).pages[id])
    && (op.PutPage? ==> Put(c, op.net, op.page, op.clock, op.memory).1 != Some(id))
  }

  ghost predicate SurvivesRun(c: Cache, ops: seq<Op>, id: Id)
    requires AllowedRun(c, ops)
    decreases |ops|
  {
    ops != [] ==> Survives(c, ops[0], id) && SurvivesRun(Step(c, ops[0]), ops[1..], id)
  }

  /** All pages a put leaves live are pages there were, but for the new one. */
  lemma PutKeepsKeys(c: Cache, net: Id, r: Received, clock: bool, memory: Option<Id>)
    requires Valid(c) && |c.hash| == HASH_SIZE && net in c.nets && r.pgno <= 0x8FF
    requires (memory.Some? ==> memory.value !in c.pages) && PutOnce(c, net, r, clock)
    ensures var (out, result) := Put(c, net, r, clock, memory);
            KeptKeys(c.pages, if result.Some? then out.pages - {result.value} else out.pages)
  {
    hide Valid;
    hide Key;
    hide Prepare;
    hide Store;
    hide PutOnce;
    hide Row;
    hide PriorityOf;
    hide ChainsLeft;
    hide KeptKeys;
    hide Put;
    if r.pgno % 256 != 0xFF {
      var e := PutParts(c, net, r, clock, memory);
      var (out, result) := Put(c, net, r, clock, memory);
      var d := Prepare(c, net, r, clock).0;
      PrepareKeys(c, net, r, clock);
      if result.Some? {
        ChainsKeepKeys(d, e);
        StorePages(e, result.value, NewPage(net, r, Key(r.pgno, r.subno, clock).0));
        assert out.pages - {result.value} == e.pages;
        KeptTwice(c.pages, d.pages, e.pages);
      }
    } else {
      PutNothing(c, net, r, clock, memory);
      KeptSame(c.pages);
    }
  }

  lemma KeptTwice(a: map<Id, Page>, b: map<Id, Page>, d: map<Id, Page>)
    requires KeptKeys(a, b) && KeptKeys(b, d)
    ensures KeptKeys(a, d)
  {
  }

  lemma KeptSame(a: map<Id, Page>)
    ensures KeptKeys(a, a)
  {
  }

  lemma KeptKey(a: map<Id, Page>, b: map<Id, Page>, id: Id)
    requires KeptKeys(a, b) && id in b && IsLive(b[id])
    ensures id in a && IsLive(a[id]) && SameKey(a[id], b[id])
  {
  }

  lemma StepKeepsKey(c: Cache, op: Op, id: Id)
    requires Valid(c) && Allowed(c, op) && Survives(c, op, id)
    ensures id in c.pages && IsLive(c.pages[id]) && SameKey(c.pages[id], Step(c, op).pages[id])
  {
    hide Sound;
    hide Put;
    hide Get;
    hide PutOnce;
    hide PutReuses;
    hide ChainsLeft;
    hide KeptKeys;
    var d := Step(c, op);
    if op.PutPage? {
      PutKeepsKeys(c, op.net, op.page, op.clock, op.memory);
      var result := Put(c, op.net, op.page, op.clock, op.memory).1;
      KeptKey(c.pages, if result.Some? then d.pages - {result.value} else d.pages, id);
    } else if op.GetPage? {
      GetKeepsKeys(c, op.net, op.pgno, op.subno, op.mask);
      KeptKey(c.pages, d.pages, id);
    } else {
      ChainsOfOps(c, op);
      ChainsKeepKeys(c, d);
      KeptKey(c.pages, d.pages, id);
    }
  }

  lemma {:induction false} RunKeepsKey(c: Cache, ops: seq<Op>, id: Id)
    requires Valid(c) && AllowedRun(c, ops) && HexUnique(c.pages) && SurvivesRun(c, ops, id)
    requires id in c.pages && IsLive(c.pages[id])
    ensures var d := Run(c, ops);
            && Valid(d) && HexUnique(d.pages)
            && id in d.pages && IsLive(d.pages[id]) && SameKey(c.pages[id], d.pages[id])
    decreases |ops|
  {
    hide Valid;
    hide Allowed;
    hide Step;
    hide HexUnique;
    if ops != [] {
      StepKeeps(c, ops[0]);
      StepKeepsHexUnique(c, ops[0]);
      StepKeepsKey(c, ops[0], id);
      RunKeepsKey(Step(c, ops[0]), ops[1..], id);
    }
  }

  /** Whatever happens after a put of a hex page, a lookup of that version returns the page put as long as
      it has not been deleted or replaced. */
  lemma GetReturnsPutInRuns(c: Cache, net: Id, r: Received, clock: bool, memory: Option<Id>, ops: seq<Op>)
    requires Valid(c) && HexUnique(c.pages) && Allowed(c, PutPage(net, r, clock, memory))
    requires GoodPgno(r.pgno) && !Bcd.IsBcd(r.pgno as Word) && r.subno != ANY_SUBNO
    requires AllowedRun(Step(c, PutPage(net, r, clock, memory)), ops)
    ensures var (d, result) := Put(c, net, r, clock, memory);
            && |Run(d, ops).hash| == HASH_SIZE
            && (result.Some? && SurvivesRun(d, ops, result.value)
                ==> Get(Run(d, ops), net, r.pgno, r.subno, 0x0F).1 == result)
  {
    hide Sound;
    hide Put;
    hide PutOnce;
    hide PutReuses;
    hide Get;
    hide HexUnique;
    hide Key;
    hide PriorityOf;
    hide AllowedRun;
    hide SurvivesRun;
    hide Run;
    var op := PutPage(net, r, clock, memory);
    var (d, result) := Put(c, net, r, clock, memory);
    StepKeeps(c, op);
    StepKeepsHexUnique(c, op);
    PutKeeps(c, net, r, clock, memory);
    ConsistentInEveryRun(d, ops);
    ChainMembers(Run(d, ops), 0);
    if result.Some? && SurvivesRun(d, ops, result.value) {
      HexKey(r, clock);
      RunKeepsKey(d, ops, result.value);
      HexLookup(Run(d, ops), result.value, r.subno);
    }
  }
}
