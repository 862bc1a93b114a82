/** The queue of sliced VBI frames of one device, shared by the clients of the proxy daemon.
    The linked lists of buffers are sequences; the clients point into the queue. */
module FrameQueue {
  import opened QueueCounts
  import R = QueueRuns

  class Buffer {
    var refCount: nat
    var frame: nat

    constructor ()
    {
      refCount, frame := 0, 0;
    }
  }

  class Client {
    // The first buffer of the queue not yet processed by this client.
    var sliced: Buffer?
    // In forwarding state, with at least one service.
    var eligible: bool
    // The number of buffers the client asked for.
    var bufferCount: int

    constructor ()
      ensures sliced == null && !eligible && bufferCount == 0
    {
      sliced, eligible, bufferCount := null, false, 0;
    }
  }

  ghost predicate Distinct<T>(s: seq<T>) {
    forall i, j :: 0 <= i < j < |s| ==> s[i] != s[j]
  }

  lemma DistinctEnds<T>(s: seq<T>, x: T)
    requires Distinct(s) && x !in s
    ensures Distinct([x] + s) && Distinct(s + [x])
  {
  }

  lemma DistinctTail<T>(s: seq<T>)
    requires Distinct(s) && s != []
    ensures Distinct(s[1..]) && s[0] !in s[1..]
    ensures forall x :: x in s <==> x == s[0] || x in s[1..]
  {
  }

  lemma OthersDiffer<T>(s: seq<T>, k: nat)
    requires Distinct(s) && k < |s|
    ensures forall m :: 0 <= m < |s| && m != k ==> s[m] != s[k]
  {
  }

  lemma DistinctWithout<T>(s: seq<T>, k: nat)
    requires Distinct(s) && k < |s|
    ensures Distinct(Without(s, k))
  {
  }

  /** No buffer is in two places. */
  ghost predicate NoOverlap(queue: seq<Buffer>, free: seq<Buffer>, tmp: Buffer?) {
    && Distinct(queue) && Distinct(free)
    && (forall b :: b in queue ==> b !in free && b != tmp)
    && (forall b :: b in free ==> b != tmp)
  }

  ghost function Union(queue: seq<Buffer>, free: seq<Buffer>, tmp: Buffer?): set<Buffer> {
    (set b | b in queue) + (set b | b in free) + (if tmp == null then {} else {tmp})
  }

  /** The buffer at position i, null behind the last one. */
  function At(q: seq<Buffer>, i: nat): Buffer? {
    if i < |q| then q[i] else null
  }

  lemma EndOfQueue(q: seq<Buffer>)
    ensures At(q, |q|) == null
  {
  }

  lemma AtHead(q: seq<Buffer>, i: nat)
    requires Distinct(q) && i <= |q|
    ensures At(q, i) == At(q, 0) <==> i == 0
  {
  }

  /** The position of b in q, |q| for null. */
  function Index(q: seq<Buffer>, b: Buffer?): (r: nat)
    ensures r <= |q|
    ensures r < |q| ==> q[r] == b
    ensures r == |q| ==> b == null || b !in q
  {
    if q == [] then 0 else if q[0] == b then 0 else 1 + Index(q[1..], b)
  }

  lemma IndexAt(q: seq<Buffer>, i: nat)
    requires Distinct(q) && i <= |q|
    ensures Index(q, At(q, i)) == i
  {
    var r := Index(q, At(q, i));
    if i < |q| {
      assert q[i] in q;
    }
  }

  class Device {
    var queue: seq<Buffer>
    var free: seq<Buffer>
    var pTmp: Buffer?
    // The clients in the order of the connection list.
    var clients: seq<Client>
    // Frames captured so far.
    var captured: nat
    // The minimum number of buffers.
    const optBufferCount: nat

    // The state of queue and clients on plain values.
    ghost var counts: Counts
    ghost var frames: seq<nat>
    ghost var logs: seq<Log>
    ghost var eligible: seq<bool>
    ghost var asked: seq<int>

    ghost function View(): Queue
      reads `counts, `frames, `logs, `captured
    {
      Queue(counts, frames, logs, captured)
    }

    ghost predicate AskedShown()
      reads `clients, `asked, clients`bufferCount
    {
      |asked| == |clients| && forall k :: 0 <= k < |clients| ==> clients[k].bufferCount == asked[k]
    }

    ghost function Daemon(): R.Daemon
      reads this
    {
      R.Daemon(View(), eligible, asked, optBufferCount, |queue| + |free|)
    }

    /** All buffers of the device. */
    ghost function All(): set<Buffer>
      reads `queue, `free, `pTmp
    {
      Union(queue, free, pTmp)
    }

    ghost predicate Lists()
      reads `queue, `free, `pTmp
    {
      NoOverlap(queue, free, pTmp)
    }

    ghost predicate BuffersShown()
      reads `queue, `counts, `frames, queue
    {
      && |counts.refs| == |frames| == |queue|
      && forall i :: 0 <= i < |queue| ==> queue[i].refCount == counts.refs[i] && queue[i].frame == frames[i]
    }

    ghost predicate ClientsShown()
      reads `queue, `clients, `counts, `logs, `eligible, clients`sliced, clients`eligible
    {
      && |counts.pos| == |logs| == |eligible| == |clients| && Distinct(clients)
      && forall k :: 0 <= k < |clients| ==>
           counts.pos[k] <= |queue| && clients[k].sliced == At(queue, counts.pos[k])
           && clients[k].eligible == eligible[k]
    }

    ghost predicate Ok()
      reads this, queue, clients
    {
      Lists() && BuffersShown() && ClientsShown() && Valid(View())
    }

    /** All buffers but these are new. */
    twostate predicate NewOnes(buffers: set<Buffer>)
      reads `queue, `free, `pTmp
    {
      forall b :: b in All() && b !in buffers ==> fresh(b)
    }

    /** Between two operations. */
    ghost predicate Ready()
      reads this, queue, clients
    {
      Ok() && pTmp == null && AskedShown() && R.Good(Daemon())
    }

    method AddFree(b: Buffer)
      requires Lists() && b == pTmp
      modifies this`free, this`pTmp
      ensures Lists() && All() == old(All()) && pTmp == null
      ensures free == [b] + old(free)
    {
      DistinctEnds(free, b);
      hide Distinct;
      ghost var f := free;
      free := [b] + free;
      pTmp := null;
      assert forall x :: x in free <==> x == b || x in f;
    }

    method AddTail(b: Buffer)
      requires Lists() && b == pTmp
      modifies this`queue, this`pTmp
      ensures Lists() && All() == old(All()) && pTmp == null
      ensures queue == old(queue) + [b]
    {
      DistinctEnds(queue, b);
      hide Distinct;
      ghost var q := queue;
      queue := queue + [b];
      pTmp := null;
      assert forall x :: x in queue <==> x == b || x in q;
    }

    /** The head of the queue, for which no client waits, moves to the free list. */
    method FreeHead()
      requires Lists() && BuffersShown() && ClientsShown() && queue != []
      requires forall k :: 0 <= k < |counts.pos| ==> counts.pos[k] > 0
      modifies this`queue, this`free, this`counts, this`frames
      ensures Lists() && BuffersShown() && ClientsShown() && All() == old(All())
      ensures counts == old(Counts(counts.refs[1..], Shifted(counts.pos))) && frames == old(frames[1..])
      ensures |free| + |queue| == old(|free| + |queue|)
    {
      DistinctTail(queue);
      DistinctEnds(free, queue[0]);
      hide Distinct;
      ghost var f := free;
      free := [queue[0]] + free;
      queue := queue[1..];
      counts := Counts(counts.refs[1..], Shifted(counts.pos));
      frames := frames[1..];
      assert forall b :: b in free <==> b == old(queue)[0] || b in f;
    }

    /** Takes a buffer from the free list. */
    method GetFree() returns (b: Buffer?)
      requires Ok() && pTmp == null
      modifies this`free, this`pTmp, free
      ensures Ok() && All() == old(All())
      ensures b == pTmp && (b == null <==> old(free) == [])
      ensures if b == null then free == [] else free == old(free)[1..] && b.refCount == 0
    {
      hide Valid;
      b := null;
      if free != [] {
        DistinctTail(free);
        hide Distinct;
        b := free[0];
        pTmp := b;
        free := free[1..];
        assert forall i :: 0 <= i < |queue| ==> queue[i] in queue;
        b.refCount := 0;
      }
    }

    /** The client's pointer moves on and the buffer is wanted by one client less. */
    method Unref(c: Client, ghost k: nat, ghost sent: bool) returns (buf: Buffer)
      requires Lists() && BuffersShown() && ClientsShown()
      requires k < |clients| && clients[k] == c && c.sliced != null && counts.refs[counts.pos[k]] > 0
      modifies c`sliced, queue, this`counts, this`logs
      ensures Lists() && BuffersShown() && ClientsShown() && All() == old(All())
      ensures var j := old(counts.pos[k]);
              && j < |queue| && buf == queue[j] && buf.refCount == counts.refs[j]
              && counts == Counts(old(counts.refs)[j := old(counts.refs)[j] - 1], old(counts.pos)[k := j + 1])
              && logs == old(Logged(View(), k, sent))
    {
      hide Index;
      ghost var j := counts.pos[k];
      IndexAt(queue, j);
      OthersDiffer(queue, j);
      OthersDiffer(clients, k);
      hide Distinct;
      buf := c.sliced;
      c.sliced := At(queue, Index(queue, buf) + 1);
      if buf.refCount > 0 {
        buf.refCount := buf.refCount - 1;
      }
      logs := Logged(View(), k, sent);
      counts := Counts(counts.refs[j := counts.refs[j] - 1], counts.pos[k := j + 1]);
    }

    /** Client c, number k of the list, is done with its next buffer. A buffer nobody waits
        for any more moves from the head of the queue to the free list. */
    method ReleaseSliced(c: Client, ghost k: nat, ghost sent: bool)
      requires Ok() && k < |clients| && clients[k] == c && c.sliced != null
      modifies this`queue, this`free, this`counts, this`frames, this`logs, c`sliced, queue
      ensures Ok() && All() == old(All())
      ensures |logs| == |old(logs)| && old(counts.pos[k]) < |old(frames)|
      ensures View() == Finish(old(View()), k, sent)
      ensures |free| + |queue| == old(|free| + |queue|)
    {
      hide Valid;
      hide Index;
      hide NoOverlap;
      hide BuffersShown;
      hide ClientsShown;
      QueueSize();
      FinishKeeps(View(), k, sent);
      OnlyHeadUnused(View(), k);
      if counts.refs[counts.pos[k]] == 1 {
        FinishLast(View(), k, sent);
      } else {
        FinishMore(View(), k, sent);
      }
      hide Finish;
      hide Shifted;
      hide Logged;
      ghost var q := Finish(View(), k, sent);
      var buf := Unref(c, k, sent);
      if buf.refCount == 0 {
        // Only the head can become unused.
        assert queue[0] == buf;
        FreeHead();
        assert View() == q;
      } else {
        assert View() == q;
      }
    }

    /** The last client of the list waits for the head of the queue. */
    ghost predicate LastWaits()
      reads `counts
    {
      counts.pos != [] && counts.pos[|counts.pos| - 1] == 0
    }

    /** All clients that wait for the head of the queue skip it. */
    method DropHead()
      requires Ok() && queue != []
      requires |queue| == 1 ==> LastWaits()
      modifies this`queue, this`free, this`counts, this`frames, this`logs, clients`sliced, All()
      ensures Ok() && All() == old(All())
      ensures old(Force(View(), 0)).Some? && View() == old(Force(View(), 0)).value
      ensures |queue| == old(|queue|) - 1 && |free| == old(|free|) + 1
    {
      hide Valid;
      hide Finish;
      hide Union;
      hide NoOverlap;
      ghost var q0 := View();
      HeadCanGo(q0);
      var m := 0;
      while m < |clients|
        invariant m <= |clients| == |logs| && Ok() && All() == old(All())
        invariant Force(View(), m) == Force(q0, 0)
        invariant |queue| + |free| == old(|queue| + |free|)
      {
        QueueInAll();
        ListsDistinct();
        AtHead(queue, counts.pos[m]);
        ForceStep(View(), m);
        if clients[m].sliced == At(queue, 0) {
          ReleaseSliced(clients[m], m, false);
        }
        m := m + 1;
      }
    }

    lemma ListsDistinct()
      requires Lists()
      ensures Distinct(queue)
    {
    }

    lemma QueueInAll()
      ensures forall b :: b in queue ==> b in All()
      ensures forall b :: b in free ==> b in All()
      ensures pTmp != null ==> pTmp in All()
    {
    }

    /** Frees the first buffer of the queue by force if no other buffer is free. */
    method ForceFree() returns (b: Buffer?)
      requires Ok() && pTmp == null && (free == [] && |queue| == 1 ==> LastWaits())
      modifies this`queue, this`free, this`counts, this`frames, this`logs, this`pTmp, clients`sliced, All()
      ensures Ok() && All() == old(All()) && b == pTmp
      ensures old(free == [] && queue != []) ==> old(Force(View(), 0)).Some?
      ensures View() == if old(free == [] && queue != []) then old(Force(View(), 0)).value else old(View())
      ensures |queue| + |free| + (if b == null then 0 else 1) == old(|queue| + |free|)
      ensures b == null ==> free == []
      ensures b != null ==> b.refCount == 0
      ensures b == null <==> old(|queue| + |free|) == 0
    {
      hide Valid;
      hide NoOverlap;
      hide BuffersShown;
      hide ClientsShown;
      if free == [] && queue != [] {
        DropHead();
      }
      QueueInAll();
      b := GetFree();
    }

    lemma QueueSize()
      requires BuffersShown() && ClientsShown()
      ensures |counts.refs| == |frames| == |queue| && |counts.pos| == |logs| == |eligible| == |clients|
      ensures forall k :: 0 <= k < |clients| ==> clients[k].sliced == At(queue, counts.pos[k])
    {
    }

    /** Like ClientsShown, with b given to all eligible clients that had nothing to do. */
    ghost predicate Distributed(b: Buffer)
      reads `queue, `clients, `counts, `logs, `eligible, clients`sliced, clients`eligible
    {
      && Distinct(clients) && |counts.pos| == |logs| == |eligible| == |clients|
      && forall k :: 0 <= k < |clients| ==>
           && counts.pos[k] <= |queue|
           && clients[k].eligible == eligible[k]
           && clients[k].sliced == if counts.pos[k] == |queue| && eligible[k] then b else At(queue, counts.pos[k])
    }

    /** Every eligible client will get buffer b. */
    method Distribute(b: Buffer)
      requires Lists() && BuffersShown() && ClientsShown() && b == pTmp && b.refCount == 0
      modifies clients`sliced, b
      ensures BuffersShown() && Distributed(b)
      ensures b.refCount == Count(eligible) && b.frame == captured
    {
      NotQueued();
      hide NoOverlap;
      GiveToClients(b);
    }

    method GiveToClients(b: Buffer)
      requires Distinct(clients) && |eligible| == |clients| && b.refCount == 0
      requires forall k :: 0 <= k < |clients| ==> clients[k].eligible == eligible[k]
      modifies clients`sliced, b
      ensures b.refCount == Count(eligible) && b.frame == captured
      ensures forall k :: 0 <= k < |clients| ==>
                && clients[k].eligible == eligible[k]
                && clients[k].sliced == if old(clients[k].sliced) == null && eligible[k] then b
                                        else old(clients[k].sliced)
    {
      b.frame := captured;
      var m := 0;
      while m < |clients|
        invariant m <= |clients|
        invariant b.frame == captured && b.refCount == Count(eligible[..m])
        invariant forall k :: 0 <= k < |clients| ==> clients[k].eligible == eligible[k]
        invariant forall k :: 0 <= k < |clients| ==>
                clients[k].sliced == if k < m && old(clients[k].sliced) == null && eligible[k] then b
                                     else old(clients[k].sliced)
      {
        assert eligible[..m + 1][..m] == eligible[..m] && eligible[..m + 1][m] == eligible[m];
        if clients[m].eligible {
          b.refCount := b.refCount + 1;
          if clients[m].sliced == null {
            clients[m].sliced := b;
          }
        }
        m := m + 1;
      }
      assert eligible[..m] == eligible;
    }

    /** Buffer b, which some clients already point to, becomes the last one of the queue. */
    method QueueUp(b: Buffer)
      requires Lists() && BuffersShown() && b == pTmp && Distributed(b)
      modifies this`queue, this`pTmp, this`counts, this`frames, this`logs, this`captured
      ensures Lists() && BuffersShown() && ClientsShown() && All() == old(All()) && pTmp == null
      ensures |queue| == old(|queue|) + 1 && captured == old(captured) + 1
      ensures counts == old(Counts(counts.refs + [b.refCount], Joined(|counts.refs|, counts.pos, eligible)))
      ensures frames == old(frames + [b.frame]) && logs == old(Offered(logs, eligible, captured))
    {
      hide NoOverlap;
      hide Union;
      hide Distinct;
      ghost var n := |queue|;
      AddTail(b);
      counts := Counts(counts.refs + [b.refCount], Joined(n, counts.pos, eligible));
      frames := frames + [b.frame];
      logs := Offered(logs, eligible, captured);
      captured := captured + 1;
    }

    /** Buffer b is not wanted by anybody. */
    method Drop(b: Buffer)
      requires Lists() && BuffersShown() && b == pTmp && Distributed(b)
      requires R.Nobody(eligible)
      modifies this`free, this`pTmp, this`captured
      ensures Lists() && BuffersShown() && ClientsShown() && All() == old(All()) && pTmp == null
      ensures |free| == old(|free|) + 1 && captured == old(captured) + 1
    {
      hide NoOverlap;
      hide Union;
      hide Distinct;
      AddFree(b);
      captured := captured + 1;
    }

    /** Queues buffer b with a new frame for all eligible clients, or drops it if there are
        none. */
    method Publish(b: Buffer)
      requires Ok() && b == pTmp && b.refCount == 0
      requires R.PendingServed(View(), eligible)
      modifies this`queue, this`free, this`pTmp, this`counts, this`frames, this`logs, this`captured
      modifies clients`sliced, b
      ensures Ok() && All() == old(All()) && pTmp == null
      ensures |queue| + |free| == old(|queue| + |free|) + 1
      ensures Captured(old(View()), eligible, View())
    {
      hide Valid;
      hide Lists;
      hide Union;
      hide BuffersShown;
      hide Distinct;
      hide ClientsShown;
      hide Distributed;
      hide Capture;
      hide Joined;
      hide Offered;
      hide Count;
      hide R.PendingServed;
      Sizes(View());
      QueueSize();
      ghost var q := Capture(View(), eligible);
      R.CaptureIs(View(), eligible);
      Distribute(b);
      if b.refCount > 0 {
        QueueUp(b);
        assert View() == q;
      } else {
        Drop(b);
        assert View() == q;
      }
    }

    lemma NotQueued()
      requires Lists()
      ensures forall i :: 0 <= i < |queue| ==> queue[i] != pTmp
    {
      forall i | 0 <= i < |queue| ensures queue[i] != pTmp {
        assert queue[i] in queue;
      }
    }

    method ReturnFree(b: Buffer)
      requires Ok() && b == pTmp
      modifies this`free, this`pTmp
      ensures Ok() && All() == old(All()) && pTmp == null
      ensures |free| == |old(free)| + 1
    {
      hide NoOverlap;
      hide Union;
      hide Valid;
      AddFree(b);
    }

    /** Reads a frame, if there is one, and queues it for all eligible clients. */
    method ForwardData(available: bool)
      requires Ready()
      modifies this`queue, this`free, this`counts, this`frames, this`logs, this`pTmp, this`captured
      modifies clients`sliced, All()
      ensures Ready() && All() == old(All()) && Daemon() == R.Forwarded(old(Daemon()), available)
    {
      hide Lists;
      hide Union;
      hide Valid;
      hide Captured;
      hide AskedShown;
      hide BuffersShown;
      hide ClientsShown;
      hide R.Good;
      hide R.Prepared;
      hide R.Forwarded;
      QueueInAll();
      QueueSize();
      ghost var d := Daemon();
      R.PreparedIs(d);
      var b := GetFree();
      if b == null {
        b := ForceFree();
      }
      if b != null {
        QueueInAll();
        if available {
          Publish(b);
        } else {
          ReturnFree(b);
        }
      }
      R.ForwardedIs(d, available, View());
      assert Daemon() == d.(queue := View());
    }

    /** Client c takes no more data; all its buffers are given up. */
    method Flush(c: Client, ghost k: nat)
      requires Ok() && k < |clients| && clients[k] == c
      modifies this`queue, this`free, this`counts, this`frames, this`logs, c`sliced, All()
      ensures Ok() && All() == old(All()) && c.sliced == null
      ensures |logs| == |old(logs)| && View() == Drain(old(View()), k)
      ensures |free| + |queue| == old(|free| + |queue|)
    {
      hide NoOverlap;
      hide Union;
      hide Valid;
      hide Finish;
      while c.sliced != null
        invariant Ok() && All() == old(All()) && k < |logs| == |old(logs)|
        invariant Drain(View(), k) == old(Drain(View(), k))
        invariant |free| + |queue| == old(|free| + |queue|)
        decreases |frames| - counts.pos[k]
      {
        QueueInAll();
        DrainStep(View(), k);
        ReleaseSliced(c, k, false);
      }
    }

    /** The next frame was written to client c. */
    method FrameSent(c: Client, ghost k: nat)
      requires Ready() && k < |clients| && clients[k] == c && c.sliced != null
      modifies this`queue, this`free, this`counts, this`frames, this`logs, c`sliced, queue
      ensures Ready() && All() == old(All())
      ensures R.Possible(old(Daemon()), R.FrameSent(k)) && Daemon() == R.Step(old(Daemon()), R.FrameSent(k))
    {
      hide Valid;
      hide Lists;
      hide R.Good;
      QueueSize();
      R.SentIs(Daemon(), k);
      ReleaseSliced(c, k, true);
    }

    /** All queued buffers are free again. */
    method ReleaseAll()
      requires Ready()
      modifies this`queue, this`free, this`counts, this`frames, this`logs, clients`sliced
      ensures Ready() && All() == old(All()) && Daemon() == R.Step(old(Daemon()), R.ChannelFlush)
    {
      hide Valid;
      hide At;
      hide R.FlushAll;
      R.StepKeeps(Daemon(), R.ChannelFlush);
      ghost var q := R.FlushAll(View());
      Emptied(View());
      FreeQueue();
      ClearPointers();
      EndOfQueue(queue);
      counts, frames, logs := q.counts, q.frames, q.logs;
    }

    lemma Emptied(q: Queue)
      requires Valid(q)
      ensures var r := R.FlushAll(q);
              && r.counts.refs == [] && r.frames == [] && |r.counts.pos| == |r.logs| == |q.logs| == |q.counts.pos|
              && r.captured == q.captured && forall k :: 0 <= k < |r.counts.pos| ==> r.counts.pos[k] == 0
    {
    }

    method FreeQueue()
      requires Lists()
      modifies this`queue, this`free
      ensures Lists() && All() == old(All()) && queue == [] && |free| == old(|queue| + |free|)
    {
      while queue != []
        invariant Lists() && All() == old(All()) && |queue| + |free| == old(|queue| + |free|)
        decreases |queue|
      {
        DistinctTail(queue);
        DistinctEnds(free, queue[0]);
        ghost var f, q := free, queue;
        free := [queue[0]] + free;
        queue := queue[1..];
        assert forall b :: b in free <==> b == q[0] || b in f;
      }
    }

    method ClearPointers()
      requires Distinct(clients)
      modifies clients`sliced
      ensures forall k :: 0 <= k < |clients| ==> clients[k].sliced == null
    {
      for m := 0 to |clients|
        invariant forall k :: 0 <= k < m ==> clients[k].sliced == null
      {
        clients[m].sliced := null;
      }
    }

    constructor (minimum: nat)
      requires minimum >= 1
      ensures Ready() && Daemon() == R.Start(minimum) && clients == []
    {
      queue, free, clients := [], [], [];
      pTmp := null;
      captured := 0;
      optBufferCount := minimum;
      counts, frames, logs, eligible, asked := Counts([], []), [], [], [], [];
    }

    /** The number of buffers the clients need. */
    method BuffersWanted() returns (bufferCount: nat)
      requires AskedShown()
      ensures bufferCount == R.Most(optBufferCount, asked) + |asked|
    {
      bufferCount := optBufferCount;
      for m := 0 to |clients|
        invariant bufferCount == R.Most(optBufferCount, asked[..m])
      {
        assert asked[..m + 1][..m] == asked[..m];
        if bufferCount < clients[m].bufferCount {
          bufferCount := clients[m].bufferCount;
        }
      }
      assert asked[..|clients|] == asked;
      bufferCount := bufferCount + |clients|;
    }

    /** Adds buffers, or removes those that are free if there are too many. */
    method AllocateBuffers()
      requires Lists() && pTmp == null && AskedShown()
      modifies this`free
      ensures Lists() && NewOnes(old(All()))
      ensures |queue| + |free| == R.Max(|queue|, R.Most(optBufferCount, asked) + |asked|)
    {
      var bufferCount := BuffersWanted();
      if |free| + |queue| > bufferCount {
        free := [];
      }
      while |free| + |queue| < bufferCount
        invariant Lists() && NewOnes(old(All()))
        invariant |free| + |queue| <= R.Max(|queue|, bufferCount)
        decreases bufferCount - |free|
      {
        var b := new Buffer();
        DistinctEnds(free, b);
        ghost var f := free;
        free := [b] + free;
        assert forall x :: x in free <==> x == b || x in f;
      }
    }

    /** Acquisition has stopped while a client points to a buffer, which is gone now. */
    ghost predicate Stranded()
      reads `queue, `free, `pTmp, `clients, clients`sliced
    {
      All() == {} && exists k :: 0 <= k < |clients| && clients[k].sliced != null
    }

    /** The services of the clients are agreed upon with the device; `granted` are the clients that
        have any now. Without services acquisition stops. */
    method UpdateServices(granted: seq<bool>)
      requires Ok() && pTmp == null && AskedShown() && |granted| == |clients| && optBufferCount >= 1
      modifies this`free, this`queue, this`eligible, clients`eligible
      ensures NewOnes(old(All()))
      ensures old(R.Nobody(granted) && queue != []) ==> Stranded()
      ensures !old(R.Nobody(granted) && queue != []) ==>
                Ok() && pTmp == null && AskedShown() && Daemon() == R.Updated(old(Daemon()), granted)
      ensures old(R.PendingServed(View(), granted)) ==> Ready()
    {
      hide Valid;
      hide Lists;
      hide BuffersShown;
      hide ClientsShown;
      hide AskedShown;
      hide R.Good;
      hide R.Most;
      hide R.PendingServed;
      QueueSize();
      AskedSize();
      ghost var d := Daemon();
      R.UpdatedKeeps(d, granted);
      if R.PendingServed(View(), granted) && R.Nobody(granted) {
        R.NobodyLeftBehind(View(), granted);
      }
      ghost var someone := 0;
      if queue != [] {
        someone := SomeonePoints();
      }
      var served := GrantServices(granted);
      if served {
        AllocateBuffers();
      } else {
        StopAcquisition();
        assert old(queue) != [] ==> clients[someone].sliced != null;
      }
      assert !(R.Nobody(granted) && old(queue) != []) ==> Daemon() == R.Updated(d, granted);
    }

    lemma SomeonePoints() returns (k: nat)
      requires Ok() && queue != []
      ensures k < |clients| && clients[k].sliced != null
    {
      k := SomeoneWaits(counts.pos, 0);
    }

    lemma AskedSize()
      requires AskedShown()
      ensures |asked| == |clients|
    {
    }

    method GrantServices(granted: seq<bool>) returns (served: bool)
      requires ClientsShown() && |granted| == |clients|
      modifies this`eligible, clients`eligible
      ensures ClientsShown() && eligible == granted && served == !R.Nobody(granted)
    {
      hide At;
      served := SetServices(granted);
      eligible := granted;
    }

    method SetServices(granted: seq<bool>) returns (served: bool)
      requires Distinct(clients) && |granted| == |clients|
      modifies clients`eligible
      ensures forall k :: 0 <= k < |clients| ==> clients[k].eligible == granted[k]
      ensures served == !R.Nobody(granted)
    {
      served := false;
      for m := 0 to |clients|
        invariant forall k :: 0 <= k < m ==> clients[k].eligible == granted[k]
        invariant served == exists k :: 0 <= k < m && granted[k]
      {
        clients[m].eligible := granted[m];
        served := served || granted[m];
      }
    }

    /** All buffers are given back. */
    method StopAcquisition()
      requires Lists() && pTmp == null
      modifies this`free, this`queue
      ensures Lists() && free == queue == [] && All() == {}
    {
      free, queue := [], [];
    }

    /** What an event that changes services leaves: buffers that are gone if it stops acquisition with
        frames pending, and else the next state, which is good if no client loses services with frames
        pending. */
    twostate predicate AfterUpdate(d: R.Daemon, e: R.Event)
      requires R.Good(d) && R.Fits(d, e)
      reads this, queue, clients
    {
      && NewOnes(old(All()))
      && (R.Strands(d, e) ==> Stranded())
      && (!R.Strands(d, e) ==> Ok() && pTmp == null && AskedShown() && Daemon() == R.Step(d, e))
      && (R.Possible(d, e) ==> Ready())
    }

    /** Client c asks for its first services. */
    method TakeConnectRequest(c: Client, k: nat, bufferCount: int, granted: seq<bool>)
      requires Ready() && k < |clients| && clients[k] == c
      requires R.Fits(Daemon(), R.ConnectRequest(k, bufferCount, granted))
      modifies this`free, this`queue, this`eligible, this`asked, clients`eligible, c`bufferCount
      ensures AfterUpdate(old(Daemon()), R.ConnectRequest(k, bufferCount, granted))
    {
      hide Valid;
      hide NoOverlap;
      hide At;
      hide R.Updated;
      OthersDiffer(clients, k);
      c.bufferCount := bufferCount;
      asked := asked[k := bufferCount];
      UpdateServices(granted);
    }

    /** Client c asks for other services. */
    method TakeServiceRequest(c: Client, k: nat, granted: seq<bool>)
      requires Ready() && k < |clients| && clients[k] == c
      requires R.Fits(Daemon(), R.ServiceRequest(k, granted))
      modifies this`queue, this`free, this`counts, this`frames, this`logs, c`sliced, All()
      modifies this`eligible, clients`eligible
      ensures AfterUpdate(old(Daemon()), R.ServiceRequest(k, granted))
    {
      hide Valid;
      hide Lists;
      hide Union;
      hide Drain;
      hide BuffersShown;
      hide R.Updated;
      hide R.Good;
      hide R.PendingServed;
      QueueSize();
      R.DrainedIs(Daemon(), k, granted);
      Flush(c, k);
      QueueSize();
      UpdateServices(granted);
    }

    /** A new connection is appended to the list. */
    method AddConnection(c: Client)
      requires Ready() && c !in clients && c.sliced == null && !c.eligible && c.bufferCount == 0
      modifies this`clients, this`counts, this`logs, this`eligible, this`asked
      ensures Ready() && clients == old(clients) + [c] && Daemon() == R.Step(old(Daemon()), R.Connect)
    {
      hide Valid;
      hide Lists;
      hide Distinct;
      hide At;
      hide R.Good;
      hide R.Step;
      R.JoinIs(Daemon());
      QueueSize();
      AskedSize();
      DistinctEnds(clients, c);
      EndOfQueue(queue);
      ghost var cs, pos, es, numbers := clients, counts.pos, eligible, asked;
      clients := clients + [c];
      counts := counts.(pos := pos + [|counts.refs|]);
      logs, eligible, asked := logs + [Log([], [])], es + [false], numbers + [0];
      forall m | 0 <= m < |clients|
        ensures clients[m].sliced == At(queue, counts.pos[m]) && counts.pos[m] <= |queue|
        ensures clients[m].eligible == eligible[m] && clients[m].bufferCount == asked[m]
      {
        if m < |cs| {
          assert clients[m] == cs[m] && counts.pos[m] == pos[m] && eligible[m] == es[m] && asked[m] == numbers[m];
        }
      }
    }

    /** Client c is closed and leaves the list. If it had services, those of the others are updated. */
    method RemoveConnection(c: Client, k: nat, update: bool, granted: seq<bool>)
      requires Ready() && k < |clients| && clients[k] == c
      requires R.Fits(Daemon(), R.Close(k, update, granted))
      modifies this`queue, this`free, this`counts, this`frames, this`logs, this`eligible, this`asked, this`clients
      modifies c`sliced, clients`eligible, All()
      ensures clients == old(Without(clients, k))
      ensures AfterUpdate(old(Daemon()), R.Close(k, update, granted))
    {
      hide NoOverlap;
      hide Union;
      hide Valid;
      hide Drain;
      hide BuffersShown;
      hide R.Updated;
      ghost var d := Daemon();
      hide ClientsShown;
      hide R.Good;
      R.RemovedIs(d, k);
      Flush(c, k);
      Unlink(k);
      assert Daemon() == R.Removed(d, k);
      QueueSize();
      if update {
        UpdateServices(granted);
      }
    }

    method Unlink(k: nat)
      requires Ok() && AskedShown()
      requires k < |clients| == |counts.pos| == |eligible| == |logs| == |asked| && counts.pos[k] == |frames|
      modifies this`clients, this`counts, this`logs, this`eligible, this`asked
      ensures Ok() && AskedShown() && clients == old(Without(clients, k))
      ensures View() == Leave(old(View()), k) && eligible == old(Without(eligible, k))
          && asked == old(Without(asked, k))
    {
      hide NoOverlap;
      hide Valid;
      hide Distinct;
      hide At;
      LeaveKeeps(View(), k);
      DistinctWithout(clients, k);
      ghost var cs, pos, es, numbers := clients, counts.pos, eligible, asked;
      clients := Without(clients, k);
      counts := counts.(pos := Without(pos, k));
      logs, eligible, asked := Without(logs, k), Without(es, k), Without(numbers, k);
      forall m | 0 <= m < |clients|
        ensures clients[m].sliced == At(queue, counts.pos[m]) && counts.pos[m] <= |queue|
        ensures clients[m].eligible == eligible[m] && clients[m].bufferCount == asked[m]
      {
        var o := if m < k then m else m + 1;
        assert clients[m] == cs[o] && counts.pos[m] == pos[o] && eligible[m] == es[o] && asked[m] == numbers[o];
      }
    }
  }
}
