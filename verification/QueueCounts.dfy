/** Reference counts of the buffers in a queue with many readers, on plain numbers. Buffer i
    has count refs[i]; reader k has read all buffers before pos[k], which is |refs| when it
    has read everything. */
module QueueCounts {
  import opened Options

  datatype Counts = Counts(refs: seq<nat>, pos: seq<nat>)

  /** The number of readers that have not passed buffer i. */
  function Waiting(pos: seq<nat>, i: int): nat {
    if pos == [] then 0
    else Waiting(pos[..|pos| - 1], i) + (if pos[|pos| - 1] <= i then 1 else 0)
  }

  /** Every count is positive and is the number of readers still to come. */
  ghost predicate Exact(q: Counts) {
    && (forall i :: 0 <= i < |q.refs| ==> q.refs[i] == Waiting(q.pos, i) > 0)
    && (forall k :: 0 <= k < |q.pos| ==> q.pos[k] <= |q.refs|)
  }

  function Shifted(pos: seq<nat>): (r: seq<nat>)
    ensures |r| == |pos| && forall k :: 0 <= k < |pos| ==> r[k] == if pos[k] > 0 then pos[k] - 1 else 0
  {
    seq(|pos|, k requires 0 <= k < |pos| => if pos[k] > 0 then pos[k] - 1 else 0)
  }

  /** Reader k is done with its next buffer. A buffer that nobody waits for leaves the queue,
      supposed to be at its head. */
  function Release(q: Counts, k: nat): (r: Counts)
    requires k < |q.pos| && q.pos[k] < |q.refs|
  {
    var j := q.pos[k];
    var n := if q.refs[j] > 0 then q.refs[j] - 1 else 0;
    var pos := q.pos[k := j + 1];
    if n == 0 then Counts(q.refs[1..], Shifted(pos)) else Counts(q.refs[j := n], pos)
  }

  lemma {:induction false} WaitingUpdate(pos: seq<nat>, k: nat, p: nat, i: int)
    requires k < |pos|
    ensures Waiting(pos[k := p], i) == Waiting(pos, i) - (if pos[k] <= i then 1 else 0) + (if p <= i then 1 else 0)
    decreases |pos|
  {
    var n := |pos| - 1;
    if k < n {
      WaitingUpdate(pos[..n], k, p, i);
      assert pos[k := p][..n] == pos[..n][k := p];
    } else {
      assert pos[k := p][..n] == pos[..n];
    }
  }

  lemma {:induction false} WaitingMonotonic(pos: seq<nat>, i: int, j: int)
    requires i <= j
    ensures Waiting(pos, i) <= Waiting(pos, j)
    decreases |pos|
  {
    if pos != [] {
      WaitingMonotonic(pos[..|pos| - 1], i, j);
    }
  }

  lemma {:induction false} WaitingPositive(pos: seq<nat>, k: nat, i: int)
    requires k < |pos| && pos[k] <= i
    ensures Waiting(pos, i) > 0
    decreases |pos|
  {
    if k < |pos| - 1 {
      WaitingPositive(pos[..|pos| - 1], k, i);
    }
  }

  lemma {:induction false} SomeoneWaits(pos: seq<nat>, i: int) returns (k: nat)
    requires Waiting(pos, i) > 0
    ensures k < |pos| && pos[k] <= i
    decreases |pos|
  {
    if pos[|pos| - 1] <= i {
      k := |pos| - 1;
    } else {
      k := SomeoneWaits(pos[..|pos| - 1], i);
    }
  }

  lemma {:induction false} WaitingShifted(pos: seq<nat>, i: nat)
    ensures Waiting(Shifted(pos), i) == Waiting(pos, i + 1)
    decreases |pos|
  {
    if pos != [] {
      var n := |pos| - 1;
      WaitingShifted(pos[..n], i);
      assert Shifted(pos)[..n] == Shifted(pos[..n]);
    }
  }

  /** A count that drops to zero is always at the head of the queue, and the counts remain
      exact. */
  lemma ReleaseKeeps(q: Counts, k: nat)
    requires Exact(q) && k < |q.pos| && q.pos[k] < |q.refs|
    ensures q.refs[q.pos[k]] == 1 ==> q.pos[k] == 0
    ensures Exact(Release(q, k))
    ensures |Release(q, k).refs| == |q.refs| - (if q.refs[q.pos[k]] == 1 then 1 else 0)
    ensures q.refs[q.pos[k]] == 1 ==> forall m :: 0 <= m < |q.pos| && m != k ==> q.pos[m] > 0
  {
    var j := q.pos[k];
    var pos := q.pos[k := j + 1];
    forall i: int {
      WaitingUpdate(q.pos, k, j + 1, i);
    }
    if q.refs[j] == 1 {
      if j > 0 {
        assert q.refs[0] > 0;
        var m := SomeoneWaits(q.pos, 0);
        assert m != k;
        WaitingUpdate(q.pos, k, j + 1, j);
        WaitingPositive(pos, m, j);
        assert false;
      }
      forall m | 0 <= m < |q.pos| && m != k ensures q.pos[m] > 0 {
        if q.pos[m] == 0 {
          WaitingPositive(pos, m, 0);
        }
      }
      var r := Release(q, k);
      forall i | 0 <= i < |r.refs| ensures r.refs[i] == Waiting(r.pos, i) > 0 {
        WaitingShifted(pos, i);
        assert q.refs[i + 1] > 0;
      }
    }
  }

  lemma ReleaseAdvances(q: Counts, k: nat)
    requires Exact(q) && k < |q.pos| && q.pos[k] < |q.refs|
    ensures var r, j := Release(q, k), q.pos[k];
            var gone := |q.refs| - |r.refs|;
            && |r.pos| == |q.pos| && 0 <= gone <= 1
            && forall m :: 0 <= m < |q.pos| ==> r.pos[m] + gone == if m == k then j + 1 else q.pos[m]
  {
    ReleaseKeeps(q, k);
  }

  /** Dropping the head by force: all readers from m on that wait for the current head skip
      it. None stands for an attempt to release a buffer of an empty queue. */
  function ForceFrom(q: Counts, m: nat): Option<Counts>
    requires m <= |q.pos|
    decreases |q.pos| - m
  {
    if m == |q.pos| then Some(q)
    else if q.pos[m] > 0 then ForceFrom(q, m + 1)
    else if |q.refs| == 0 then None
    else ForceFrom(Release(q, m), m + 1)
  }

  /** Each reader skips one buffer at most, counted from the first buffer q still had. */
  ghost predicate AtMostOne(q: Counts, r: Counts, gone: nat) {
    && |r.pos| == |q.pos|
    && forall k :: 0 <= k < |q.pos| ==> q.pos[k] <= r.pos[k] + gone <= q.pos[k] + 1
  }

  lemma {:induction false} ForceDropsOne(q: Counts, m: nat)
    requires Exact(q) && m <= |q.pos| && |q.refs| >= 2
    requires forall k :: 0 <= k < m ==> q.pos[k] > 0
    ensures ForceFrom(q, m).Some?
    ensures var r := ForceFrom(q, m).value;
            && Exact(r) && |r.refs| == |q.refs| - 1
            && AtMostOne(q, r, 1)
            && (forall k :: 0 <= k < m ==> r.pos[k] + 1 == q.pos[k])
    decreases |q.pos| - m
  {
    var someone := SomeoneWaits(q.pos, 0);
    if q.pos[m] > 0 {
      ForceDropsOne(q, m + 1);
    } else {
      var q1 := Release(q, m);
      ReleaseKeeps(q, m);
      if q.refs[0] == 1 {
        ForceDropsNone(q1, m + 1, m);
      } else {
        ForceDropsOne(q1, m + 1);
      }
    }
  }

  lemma {:induction false} ForceDropsNone(q: Counts, m: nat, v: nat)
    requires Exact(q) && v < m <= |q.pos| && |q.refs| >= 1 && q.pos[v] == 0
    ensures ForceFrom(q, m).Some?
    ensures var r := ForceFrom(q, m).value;
            && Exact(r) && |r.refs| == |q.refs|
            && AtMostOne(q, r, 0)
            && (forall k :: 0 <= k < m ==> r.pos[k] == q.pos[k])
    decreases |q.pos| - m
  {
    if m < |q.pos| {
      if q.pos[m] > 0 {
        ForceDropsNone(q, m + 1, v);
      } else {
        ReleaseKeeps(q, m);
        ForceDropsNone(Release(q, m), m + 1, v);
      }
    }
  }

  /** With a single buffer in the queue forced dropping goes wrong exactly if the last reader
      of the list does not wait for that buffer. */
  lemma {:induction false} ForceSingle(q: Counts, m: nat)
    requires Exact(q) && m < |q.pos| && |q.refs| == 1
    requires forall k :: 0 <= k < m ==> q.pos[k] > 0
    ensures ForceFrom(q, m).None? <==> q.pos[|q.pos| - 1] > 0
    ensures ForceFrom(q, m).Some? ==> ForceFrom(q, m).value.refs == []
    decreases |q.pos| - m
  {
    hide Exact;
    if q.pos[m] > 0 {
      ForceSingleStep(q, m);
      ForceSingle(q, m + 1);
    } else {
      SingleReleased(q, m);
      if q.refs[0] != 1 {
        hide Release;
        ForceSingle(Release(q, m), m + 1);
      } else {
        hide Release;
        ForceNothing(Release(q, m), m + 1);
      }
    }
  }

  lemma ForceSingleStep(q: Counts, m: nat)
    requires Exact(q) && m < |q.pos| && |q.refs| == 1 && forall k :: 0 <= k <= m ==> q.pos[k] > 0
    ensures m + 1 < |q.pos|
  {
    var someone := SomeoneWaits(q.pos, 0);
  }

  /** Reader m is done with the only buffer: either others still wait for it, one of them behind
      reader m, or nobody does. */
  lemma SingleReleased(q: Counts, m: nat)
    requires Exact(q) && m < |q.pos| && |q.refs| == 1 && q.pos[m] == 0
    requires forall k :: 0 <= k < m ==> q.pos[k] > 0
    ensures var r := Release(q, m);
            && Exact(r) && |r.pos| == |q.pos| && q.refs[0] >= 1
            && (if q.refs[0] == 1 then
                  && r.refs == [] && (forall k :: 0 <= k < |r.pos| ==> r.pos[k] == 0)
                  && forall k :: 0 <= k < |q.pos| && k != m ==> q.pos[k] > 0
                else
                  && |r.refs| == 1 && (forall k :: 0 <= k < |q.pos| && k != m ==> r.pos[k] == q.pos[k])
                  && r.pos[m] > 0 && m + 1 < |q.pos|)
  {
    ReleaseKeeps(q, m);
    ReleaseAdvances(q, m);
    var r := Release(q, m);
    if q.refs[0] != 1 {
      var other := SomeoneWaits(r.pos, 0);
    }
  }

  /** With an empty queue the next reader without anything to do is taken for one that waits. */
  lemma ForceNothing(q: Counts, m: nat)
    requires m <= |q.pos| && q.refs == [] && forall k :: 0 <= k < |q.pos| ==> q.pos[k] == 0
    ensures ForceFrom(q, m) == if m == |q.pos| then Some(q) else None
  {
  }

  // The list of clients also has those of other devices.

  /** A client of this device, or one of another device with nothing to do, or with frames pending. */
  datatype Entry = Own | OtherIdle | OtherBusy

  function Owns(list: seq<Entry>): nat {
    if list == [] then 0 else (if list[0].Own? then 1 else 0) + Owns(list[1..])
  }

  /** Dropping the head by force as it goes through the whole list: once the queue is empty a client
      with nothing to do is taken for one that waits for its head, whatever device it belongs to. */
  function ForceWalk(q: Counts, m: nat, list: seq<Entry>): Option<Counts>
    requires m + Owns(list) == |q.pos|
    decreases |list|
  {
    if list == [] then Some(q)
    else match list[0]
      case OtherBusy => ForceWalk(q, m, list[1..])
      case OtherIdle => if |q.refs| == 0 then None else ForceWalk(q, m, list[1..])
      case Own =>
        if q.pos[m] > 0 then ForceWalk(q, m + 1, list[1..])
        else if |q.refs| == 0 then None
        else ForceWalk(Release(q, m), m + 1, list[1..])
  }

  predicate AllBusy(list: seq<Entry>) {
    forall e :: e in list ==> e.OtherBusy?
  }

  /** No client of another device with nothing to do is behind the last one of this device. */
  predicate EndsOwn(list: seq<Entry>) {
    list != [] && if AllBusy(list[1..]) then list[0].Own? else EndsOwn(list[1..])
  }

  lemma {:induction false} OwnsAndBusy(list: seq<Entry>)
    ensures EndsOwn(list) ==> Owns(list) > 0
    ensures AllBusy(list) ==> Owns(list) == 0
  {
    if list != [] {
      OwnsAndBusy(list[1..]);
      assert list == [list[0]] + list[1..];
      assert list[0] in list;
    }
  }

  /** With two buffers clients of other devices make no difference. */
  lemma {:induction false} WalkDropsOne(q: Counts, m: nat, list: seq<Entry>)
    requires Exact(q) && m + Owns(list) == |q.pos| && |q.refs| >= 2
    requires forall k :: 0 <= k < m ==> q.pos[k] > 0
    ensures ForceWalk(q, m, list) == ForceFrom(q, m)
    decreases |list|
  {
    if list != [] {
      if list[0].Own? && q.pos[m] == 0 {
        ReleaseKeeps(q, m);
        if q.refs[0] == 1 {
          WalkDropsNone(Release(q, m), m + 1, list[1..], m);
        } else {
          WalkDropsOne(Release(q, m), m + 1, list[1..]);
        }
      } else {
        WalkDropsOne(q, if list[0].Own? then m + 1 else m, list[1..]);
      }
    }
  }

  lemma {:induction false} WalkDropsNone(q: Counts, m: nat, list: seq<Entry>, v: nat)
    requires Exact(q) && m + Owns(list) == |q.pos| && v < m && |q.refs| >= 1 && q.pos[v] == 0
    ensures ForceWalk(q, m, list) == ForceFrom(q, m)
    decreases |list|
  {
    if list != [] {
      if list[0].Own? && q.pos[m] == 0 {
        ReleaseKeeps(q, m);
        WalkDropsNone(Release(q, m), m + 1, list[1..], v);
      } else {
        WalkDropsNone(q, if list[0].Own? then m + 1 else m, list[1..], v);
      }
    }
  }

  lemma {:induction false} WalkNothing(q: Counts, m: nat, list: seq<Entry>)
    requires m + Owns(list) == |q.pos| && q.refs == [] && forall k :: 0 <= k < |q.pos| ==> q.pos[k] == 0
    ensures ForceWalk(q, m, list) == if AllBusy(list) then Some(q) else None
  {
    if list != [] && list[0].OtherBusy? {
      WalkNothing(q, m, list[1..]);
      assert list == [list[0]] + list[1..];
    }
  }

  lemma OwnsHead(list: seq<Entry>)
    requires list != []
    ensures Owns(list) == (if list[0].Own? then 1 else 0) + Owns(list[1..])
  {
  }

  lemma SomeoneBehind(q: Counts, m: nat)
    requires Exact(q) && |q.refs| == 1 && forall k :: 0 <= k < m && k < |q.pos| ==> q.pos[k] > 0
    ensures m < |q.pos|
  {
    var someone := SomeoneWaits(q.pos, 0);
  }

  lemma {:induction false} WalkSingle(q: Counts, m: nat, list: seq<Entry>)
    requires Exact(q) && m + Owns(list) == |q.pos| && |q.refs| == 1
    requires forall k :: 0 <= k < m ==> q.pos[k] > 0
    ensures |q.pos| > 0
    ensures ForceWalk(q, m, list).Some? <==> EndsOwn(list) && q.pos[|q.pos| - 1] == 0
    ensures ForceWalk(q, m, list).Some? ==> ForceWalk(q, m, list).value.refs == []
    decreases |list|
  {
    hide Exact;
    SomeoneBehind(q, m);
    assert list != [];
    var rest := list[1..];
    OwnsHead(list);
    OwnsAndBusy(rest);
    if !list[0].Own? {
      WalkSingle(q, m, rest);
    } else if q.pos[m] > 0 {
      SomeoneBehind(q, m + 1);
      WalkSingle(q, m + 1, rest);
    } else {
      SingleReleased(q, m);
      hide Release;
      if q.refs[0] != 1 {
        WalkSingle(Release(q, m), m + 1, rest);
      } else {
        WalkNothing(Release(q, m), m + 1, rest);
      }
    }
  }

  function Count(eligible: seq<bool>): nat {
    if eligible == [] then 0
    else Count(eligible[..|eligible| - 1]) + (if eligible[|eligible| - 1] then 1 else 0)
  }

  function Joined(n: nat, pos: seq<nat>, eligible: seq<bool>): (r: seq<nat>)
    requires |eligible| == |pos|
    ensures |r| == |pos|
    ensures forall k :: 0 <= k < |pos| ==> r[k] == if pos[k] >= n && !eligible[k] then n + 1 else pos[k]
  {
    seq(|pos|, k requires 0 <= k < |pos| => if pos[k] >= n && !eligible[k] then n + 1 else pos[k])
  }

  /** A new buffer for all eligible readers, dropped at once if there are none. */
  function Enqueue(q: Counts, eligible: seq<bool>): Counts
    requires |eligible| == |q.pos|
  {
    if Count(eligible) == 0 then q
    else Counts(q.refs + [Count(eligible)], Joined(|q.refs|, q.pos, eligible))
  }

  lemma {:induction false} WaitingJoined(n: nat, pos: seq<nat>, eligible: seq<bool>)
    requires |eligible| == |pos| && forall k :: 0 <= k < |pos| ==> pos[k] <= n
    ensures forall i :: i < n ==> Waiting(Joined(n, pos, eligible), i) == Waiting(pos, i)
    ensures Waiting(Joined(n, pos, eligible), n) >= Count(eligible)
    ensures Waiting(Joined(n, pos, eligible), n) == Count(eligible)
       <==> forall k :: 0 <= k < |pos| && pos[k] < n ==> eligible[k]
    decreases |pos|
  {
    if pos != [] {
      var m := |pos| - 1;
      WaitingJoined(n, pos[..m], eligible[..m]);
      assert Joined(n, pos, eligible)[..m] == Joined(n, pos[..m], eligible[..m]);
    }
  }

  /** A new buffer keeps the counts exact exactly if all readers with pending buffers are
      eligible. */
  lemma EnqueueKeeps(q: Counts, eligible: seq<bool>)
    requires Exact(q) && |eligible| == |q.pos| && Count(eligible) > 0
    ensures Exact(Enqueue(q, eligible)) <==> forall k :: 0 <= k < |q.pos| && q.pos[k] < |q.refs| ==> eligible[k]
  {
    var n := |q.refs|;
    var r := Enqueue(q, eligible);
    WaitingJoined(n, q.pos, eligible);
    if Exact(r) {
      assert r.refs[n] == Waiting(r.pos, n);
    }
  }

  /** Client 0 has a buffer pending and is no longer eligible when the next one is queued for client 1.
      When client 1 is done with that, it is taken for unused although it is not at the head, and
      although client 0 will come to it. */
  lemma PendingButIneligible()
    ensures var q := Counts([1], [0, 1]);
            var r := Enqueue(q, [false, true]);
            Exact(q) && !Exact(r) && r.pos == [0, 1] && r.refs[1] == 1
  {
    hide Waiting;
    hide Count;
    var q := Counts([1], [0, 1]);
    TwoClients();
    assert q.refs[0] == Waiting(q.pos, 0);
    EnqueueKeeps(q, [false, true]);
    assert q.pos[0] < |q.refs| && ![false, true][0];
  }

  lemma TwoClients()
    ensures Waiting([0, 1], 0) == 1 && Count([false, true]) == 1
  {
    assert [0, 1][..1] == [0] && |[0][..0]| == 0;
    assert [false, true][..1] == [false] && |[false][..0]| == 0;
    assert Waiting([0], 0) == 1 && Count([false]) == 0;
  }

  // The frames in the queue, and what the readers get of them.

  /** A frame a reader is done with. */
  datatype Outcome = Sent(frame: nat) | Skipped(frame: nat)

  /** The frames captured while the reader was eligible, and what became of the oldest. */
  datatype Log = Log(offered: seq<nat>, outcomes: seq<Outcome>)

  datatype Queue = Queue(counts: Counts, frames: seq<nat>, logs: seq<Log>, captured: nat)

  function Done(outcomes: seq<Outcome>): seq<nat> {
    if outcomes == [] then [] else Done(outcomes[..|outcomes| - 1]) + [outcomes[|outcomes| - 1].frame]
  }

  ghost predicate Increasing(s: seq<nat>) {
    forall i, j :: 0 <= i < j < |s| ==> s[i] < s[j]
  }

  /** What a reader was offered is what it is done with followed by the frames from its
      position to the end of the queue, each frame once and in capture order. */
  ghost predicate Fifo(log: Log, frames: seq<nat>, pos: nat, captured: nat) {
    && pos <= |frames|
    && log.offered == Done(log.outcomes) + frames[pos..]
    && Increasing(log.offered)
    && forall i :: 0 <= i < |log.offered| ==> log.offered[i] < captured
  }

  ghost predicate Valid(q: Queue) {
    && |q.frames| == |q.counts.refs| && |q.logs| == |q.counts.pos|
    && Exact(q.counts)
    && forall k :: 0 <= k < |q.logs| ==> Fifo(q.logs[k], q.frames, q.counts.pos[k], q.captured)
  }

  lemma Sizes(q: Queue)
    requires Valid(q)
    ensures |q.frames| == |q.counts.refs| && |q.logs| == |q.counts.pos|
  {
  }

  function Outcome1(frame: nat, sent: bool): Outcome {
    if sent then Sent(frame) else Skipped(frame)
  }

  function Logged(q: Queue, k: nat, sent: bool): seq<Log>
    requires k < |q.logs| && k < |q.counts.pos| && q.counts.pos[k] < |q.frames|
  {
    q.logs[k := q.logs[k].(outcomes := q.logs[k].outcomes + [Outcome1(q.frames[q.counts.pos[k]], sent)])]
  }

  function Finish(q: Queue, k: nat, sent: bool): Queue
    requires Valid(q) && k < |q.logs| && q.counts.pos[k] < |q.frames|
  {
    var counts := Release(q.counts, k);
    var log := q.logs[k].(outcomes := q.logs[k].outcomes + [Outcome1(q.frames[q.counts.pos[k]], sent)]);
    q.(counts := counts, frames := q.frames[|q.frames| - |counts.refs|..], logs := q.logs[k := log])
  }

  lemma FinishFields(q: Queue, k: nat, sent: bool)
    requires Valid(q) && k < |q.logs| && q.counts.pos[k] < |q.frames|
    ensures var r := Finish(q, k, sent);
            var gone := |q.frames| - |r.frames|;
            && 0 <= gone <= 1 && r.frames == q.frames[gone..] && r.captured == q.captured
            && Exact(r.counts) && |r.frames| == |r.counts.refs|
            && |r.logs| == |q.logs| == |r.counts.pos| == |q.counts.pos|
            && (forall m :: 0 <= m < |r.logs| ==>
                  && r.logs[m] == (if m == k then Logged(q, k, sent)[k] else q.logs[m])
                  && r.counts.pos[m] + gone == if m == k then q.counts.pos[k] + 1 else q.counts.pos[m])
  {
    ReleaseKeeps(q.counts, k);
    ReleaseAdvances(q.counts, k);
    hide Exact;
    hide Release;
    hide Fifo;
  }

  lemma FinishKeeps(q: Queue, k: nat, sent: bool)
    requires Valid(q) && k < |q.logs| && q.counts.pos[k] < |q.frames|
    ensures Valid(Finish(q, k, sent))
  {
    FinishFields(q, k, sent);
    hide Exact;
    hide Finish;
    hide Fifo;
    hide Outcome1;
    var r := Finish(q, k, sent);
    forall m | 0 <= m < |r.logs| ensures Fifo(r.logs[m], r.frames, r.counts.pos[m], r.captured) {
      assert Fifo(q.logs[m], q.frames, q.counts.pos[m], q.captured) by {
        AllFifo(q, m);
      }
      if m == k {
        FifoNext(q.logs[k], q.frames, q.counts.pos[k], q.captured, sent);
        FifoShift(r.logs[k], q.frames, q.counts.pos[k] + 1, q.captured, |q.frames| - |r.frames|);
      } else {
        FifoShift(q.logs[m], q.frames, q.counts.pos[m], q.captured, |q.frames| - |r.frames|);
      }
    }
  }

  lemma AllFifo(q: Queue, m: nat)
    requires Valid(q) && m < |q.logs|
    ensures Fifo(q.logs[m], q.frames, q.counts.pos[m], q.captured)
  {
  }

  /** The reader that makes a count drop to zero was the last one to wait for the head. */
  lemma OnlyHeadUnused(q: Queue, k: nat)
    requires Valid(q) && k < |q.logs| && q.counts.pos[k] < |q.frames|
    ensures q.counts.refs[q.counts.pos[k]] > 0
    ensures q.counts.refs[q.counts.pos[k]] == 1 ==>
              q.counts.pos[k] == 0 && forall m :: 0 <= m < |q.counts.pos| && m != k ==> q.counts.pos[m] > 0
  {
    ReleaseKeeps(q.counts, k);
  }

  lemma FinishLast(q: Queue, k: nat, sent: bool)
    requires Valid(q) && k < |q.logs| && q.counts.pos[k] < |q.frames| && q.counts.refs[q.counts.pos[k]] == 1
    ensures q.counts.pos[k] == 0
    ensures Finish(q, k, sent)
         == Queue(Counts(q.counts.refs[1..], Shifted(q.counts.pos[k := 1])), q.frames[1..], Logged(q, k, sent),
             q.captured)
  {
    OnlyHeadUnused(q, k);
  }

  lemma FinishMore(q: Queue, k: nat, sent: bool)
    requires Valid(q) && k < |q.logs| && q.counts.pos[k] < |q.frames| && q.counts.refs[q.counts.pos[k]] > 1
    ensures var j := q.counts.pos[k];
            Finish(q, k, sent)
            == Queue(Counts(q.counts.refs[j := q.counts.refs[j] - 1], q.counts.pos[k := j + 1]),
                     q.frames, Logged(q, k, sent), q.captured)
  {
  }

  lemma FifoNext(log: Log, frames: seq<nat>, j: nat, captured: nat, sent: bool)
    requires Fifo(log, frames, j, captured) && j < |frames|
    ensures Fifo(log.(outcomes := log.outcomes + [Outcome1(frames[j], sent)]), frames, j + 1, captured)
  {
    assert (log.outcomes + [Outcome1(frames[j], sent)])[..|log.outcomes|] == log.outcomes;
    assert frames[j..] == [frames[j]] + frames[j + 1..];
  }

  lemma FifoShift(log: Log, frames: seq<nat>, pos: nat, captured: nat, gone: nat)
    requires Fifo(log, frames, pos, captured) && gone <= pos
    ensures Fifo(log, frames[gone..], pos - gone, captured)
  {
    assert frames[gone..][pos - gone..] == frames[pos..];
  }

  /** A captured frame becomes the last one of the queue if a reader is eligible. */
  function Capture(q: Queue, eligible: seq<bool>): Queue
    requires |eligible| == |q.counts.pos| == |q.logs|
  {
    Queue(Enqueue(q.counts, eligible),
          if Count(eligible) == 0 then q.frames else q.frames + [q.captured],
          Offered(q.logs, eligible, q.captured), q.captured + 1)
  }

  function Offered(logs: seq<Log>, eligible: seq<bool>, frame: nat): (r: seq<Log>)
    requires |eligible| == |logs|
    ensures |r| == |logs|
    ensures forall k :: 0 <= k < |logs| ==>
              r[k] == if eligible[k] then logs[k].(offered := logs[k].offered + [frame]) else logs[k]
  {
    seq(|logs|, k requires 0 <= k < |logs| =>
      if eligible[k] then logs[k].(offered := logs[k].offered + [frame]) else logs[k])
  }

  lemma CaptureNone(q: Queue, eligible: seq<bool>)
    requires |eligible| == |q.counts.pos| == |q.logs| && Count(eligible) == 0
    ensures Capture(q, eligible) == q.(captured := q.captured + 1)
    ensures forall k :: 0 <= k < |eligible| ==> !eligible[k]
  {
    forall k | 0 <= k < |eligible| ensures !eligible[k] {
      NobodyEligible(eligible, k);
    }
  }

  lemma CaptureSome(q: Queue, eligible: seq<bool>)
    requires |eligible| == |q.counts.pos| == |q.logs| && Count(eligible) > 0
    ensures Capture(q, eligible)
            == Queue(Counts(q.counts.refs + [Count(eligible)], Joined(|q.counts.refs|, q.counts.pos, eligible)),
                     q.frames + [q.captured], Offered(q.logs, eligible, q.captured), q.captured + 1)
  {
  }

  /** r is q after a frame was captured. */
  ghost predicate Captured(q: Queue, eligible: seq<bool>, r: Queue) {
    |eligible| == |q.counts.pos| == |q.logs| && r == Capture(q, eligible)
  }

  lemma {:induction false} NobodyEligible(eligible: seq<bool>, k: nat)
    requires Count(eligible) == 0 && k < |eligible|
    ensures !eligible[k]
    decreases |eligible|
  {
    if k < |eligible| - 1 {
      NobodyEligible(eligible[..|eligible| - 1], k);
    }
  }

  lemma CaptureKeeps(q: Queue, eligible: seq<bool>)
    requires Valid(q) && |eligible| == |q.logs|
    requires forall k :: 0 <= k < |q.logs| && q.counts.pos[k] < |q.frames| ==> eligible[k]
    ensures Valid(Capture(q, eligible))
  {
    var r := Capture(q, eligible);
    var n := |q.frames|;
    if Count(eligible) > 0 {
      EnqueueKeeps(q.counts, eligible);
    }
    forall k | 0 <= k < |r.logs| ensures Fifo(r.logs[k], r.frames, r.counts.pos[k], r.captured) {
      assert Fifo(q.logs[k], q.frames, q.counts.pos[k], q.captured);
      if Count(eligible) == 0 {
        NobodyEligible(eligible, k);
      } else if eligible[k] {
        assert r.frames[q.counts.pos[k]..] == q.frames[q.counts.pos[k]..] + [q.captured];
      } else {
        assert r.frames[n + 1..] == [] == q.frames[n..];
      }
    }
  }

  /** Dropping the head by force, reader by reader. */
  function Force(q: Queue, m: nat): Option<Queue>
    requires Valid(q) && m <= |q.logs|
    decreases |q.logs| - m
  {
    if m == |q.logs| then Some(q)
    else if q.counts.pos[m] > 0 then Force(q, m + 1)
    else if |q.frames| == 0 then None
    else
      FinishKeeps(q, m, false);
      Force(Finish(q, m, false), m + 1)
  }

  lemma ForceStep(q: Queue, m: nat)
    requires Valid(q) && m < |q.logs| && Force(q, m).Some?
    ensures m < |q.counts.pos|
    ensures q.counts.pos[m] > 0 ==> Force(q, m) == Force(q, m + 1)
    ensures q.counts.pos[m] == 0 ==>
              |q.frames| > 0 && Valid(Finish(q, m, false)) && Force(q, m) == Force(Finish(q, m, false), m + 1)
  {
    if q.counts.pos[m] == 0 {
      FinishKeeps(q, m, false);
    }
  }

  lemma {:induction false} ForceCounts(q: Queue, m: nat)
    requires Valid(q) && m <= |q.logs|
    ensures ForceFrom(q.counts, m) == if Force(q, m).None? then None else Some(Force(q, m).value.counts)
    ensures Force(q, m).Some? ==> Valid(Force(q, m).value)
    decreases |q.logs| - m
  {
    if m < |q.logs| {
      if q.counts.pos[m] > 0 {
        ForceCounts(q, m + 1);
      } else if |q.frames| > 0 {
        FinishKeeps(q, m, false);
        ForceCounts(Finish(q, m, false), m + 1);
      }
    }
  }

  /** No reader gets more to do. */
  lemma {:induction false} ForceShrinks(q: Queue, m: nat)
    requires Valid(q) && m <= |q.logs| && Force(q, m).Some?
    ensures var r := Force(q, m).value;
            && Valid(r) && |r.logs| == |q.logs| == |r.counts.pos| == |q.counts.pos|
            && forall k :: 0 <= k < |q.logs| ==> |r.frames| - r.counts.pos[k] <= |q.frames| - q.counts.pos[k]
    decreases |q.logs| - m
  {
    Sizes(q);
    if m < |q.logs| {
      if q.counts.pos[m] > 0 {
        ForceShrinks(q, m + 1);
      } else {
        ForceStep(q, m);
        ReleaseAdvances(q.counts, m);
        hide Valid;
        hide Release;
        ForceShrinks(Finish(q, m, false), m + 1);
      }
    }
  }

  /** With at least two buffers in the queue exactly one is freed by force, and each reader
      skips at most one frame. */
  lemma ForceIsExact(q: Queue)
    requires Valid(q) && |q.frames| >= 2
    ensures Force(q, 0).Some?
    ensures var r := Force(q, 0).value;
            Valid(r) && |r.frames| == |q.frames| - 1 && AtMostOne(q.counts, r.counts, 1)
  {
    ForceCounts(q, 0);
    ForceDropsOne(q.counts, 0);
  }

  /** Clients of other devices on the list make no difference then. */
  lemma OthersDoNotMatter(q: Queue, list: seq<Entry>)
    requires Valid(q) && |q.frames| >= 2 && Owns(list) == |q.counts.pos|
    ensures Force(q, 0).Some? && ForceWalk(q.counts, 0, list) == Some(Force(q, 0).value.counts)
  {
    ForceIsExact(q);
    ForceCounts(q, 0);
    WalkDropsOne(q.counts, 0, list);
  }

  /** With one buffer forced dropping works exactly if the last reader waits for it and no client
      of another device with nothing to do is behind it on the list. */
  lemma ForceOfLastBuffer(q: Queue, list: seq<Entry>)
    requires Valid(q) && |q.frames| == 1 && Owns(list) == |q.counts.pos|
    ensures |q.counts.pos| > 0
    ensures ForceWalk(q.counts, 0, list).Some? <==> EndsOwn(list) && q.counts.pos[|q.counts.pos| - 1] == 0
    ensures ForceWalk(q.counts, 0, list).Some? ==> ForceWalk(q.counts, 0, list).value.refs == []
  {
    WalkSingle(q.counts, 0, list);
  }

  /** The same without clients of other devices. */
  lemma ForceOfOnlyBuffer(q: Queue)
    requires Valid(q) && |q.frames| == 1
    ensures |q.counts.pos| > 0 && (Force(q, 0).Some? <==> q.counts.pos[|q.counts.pos| - 1] == 0)
    ensures Force(q, 0).Some? ==> Valid(Force(q, 0).value) && Force(q, 0).value.frames == []
  {
    var someone := SomeoneWaits(q.counts.pos, 0);
    ForceCounts(q, 0);
    ForceSingle(q.counts, 0);
  }

  /** A drop by force frees exactly one buffer also if that is the only one, and the last reader waits. */
  lemma HeadCanGo(q: Queue)
    requires Valid(q) && q.frames != []
    requires |q.frames| == 1 ==> q.counts.pos != [] && q.counts.pos[|q.counts.pos| - 1] == 0
    ensures Force(q, 0).Some?
    ensures Valid(Force(q, 0).value) && |Force(q, 0).value.frames| == |q.frames| - 1
  {
    hide Valid;
    hide Force;
    if |q.frames| == 1 {
      ForceOfOnlyBuffer(q);
    } else {
      ForceIsExact(q);
    }
  }

  /** Of two clients the first one waits for the only buffer. When the queue is empty the second, which has
      nothing to do, is taken for one that waits. So is an idle client of another device. */
  lemma LastBufferFails()
    ensures Exact(Counts([1], [0, 1])) && ForceFrom(Counts([1], [0, 1]), 0) == None
    ensures Exact(Counts([1], [0])) && Owns([Own, OtherIdle]) == 1
    ensures ForceWalk(Counts([1], [0]), 0, [Own, OtherIdle]) == None
  {
    hide Waiting;
    hide ForceWalk;
    hide ForceFrom;
    TwoClients();
    OneWaits();
    OneOwn();
    ForceSingle(Counts([1], [0, 1]), 0);
    WalkSingle(Counts([1], [0]), 0, [Own, OtherIdle]);
  }

  lemma OneWaits()
    ensures Waiting([0], 0) == 1
  {
    assert [0][..0] == [];
  }

  lemma OneOwn()
    ensures Owns([Own, OtherIdle]) == 1 && !EndsOwn([Own, OtherIdle])
  {
    assert [Own, OtherIdle][1..] == [OtherIdle] && [OtherIdle][1..] == [];
    assert Owns([OtherIdle]) == 0 && OtherIdle in [OtherIdle];
    assert !EndsOwn([OtherIdle]);
  }

  /** Reader k gives up all its buffers. */
  function Drain(q: Queue, k: nat): Queue
    requires Valid(q) && k < |q.logs|
    decreases |q.frames| - q.counts.pos[k]
  {
    if q.counts.pos[k] >= |q.frames| then q
    else
      FinishKeeps(q, k, false);
      Drain(Finish(q, k, false), k)
  }

  lemma DrainStep(q: Queue, k: nat)
    requires Valid(q) && k < |q.logs| && q.counts.pos[k] < |q.frames|
    ensures Valid(Finish(q, k, false)) && Drain(q, k) == Drain(Finish(q, k, false), k)
    ensures var r := Finish(q, k, false);
            |r.frames| - r.counts.pos[k] < |q.frames| - q.counts.pos[k]
  {
    FinishKeeps(q, k, false);
    ReleaseKeeps(q.counts, k);
  }

  lemma {:induction false} DrainKeeps(q: Queue, k: nat)
    requires Valid(q) && k < |q.logs|
    ensures var r := Drain(q, k);
            && Valid(r) && |r.logs| == |q.logs|
            && r.counts.pos[k] == |r.frames|
            && r.logs[k].offered == q.logs[k].offered == Done(r.logs[k].outcomes)
            && (forall m :: 0 <= m < |q.logs| && m != k ==>
                  r.logs[m] == q.logs[m] && |r.frames| - r.counts.pos[m] == |q.frames| - q.counts.pos[m])
    decreases |q.frames| - q.counts.pos[k]
  {
    if q.counts.pos[k] >= |q.frames| {
      assert Fifo(q.logs[k], q.frames, q.counts.pos[k], q.captured);
    } else {
      FinishKeeps(q, k, false);
      ReleaseKeeps(q.counts, k);
      DrainKeeps(Finish(q, k, false), k);
    }
  }

  /** A new reader starts behind the last buffer. */
  function Join(q: Queue): Queue {
    q.(counts := q.counts.(pos := q.counts.pos + [|q.counts.refs|]), logs := q.logs + [Log([], [])])
  }

  lemma JoinKeeps(q: Queue)
    requires Valid(q)
    ensures Valid(Join(q))
  {
    var r := Join(q);
    var n := |q.counts.pos|;
    assert r.counts.pos[..n] == q.counts.pos;
    forall k | 0 <= k < |r.logs| ensures Fifo(r.logs[k], r.frames, r.counts.pos[k], r.captured) {
      if k < n {
        assert Fifo(q.logs[k], q.frames, q.counts.pos[k], q.captured);
      }
    }
  }

  /** A reader that is behind the last buffer leaves. */
  function Leave(q: Queue, k: nat): Queue
    requires k < |q.logs| == |q.counts.pos|
  {
    q.(counts := q.counts.(pos := Without(q.counts.pos, k)), logs := Without(q.logs, k))
  }

  function Without<T>(s: seq<T>, k: nat): (r: seq<T>)
    requires k < |s|
    ensures |r| == |s| - 1
    ensures forall i :: 0 <= i < |r| ==> r[i] == if i < k then s[i] else s[i + 1]
  {
    s[..k] + s[k + 1..]
  }

  lemma {:induction false} WaitingWithout(pos: seq<nat>, k: nat, i: int)
    requires k < |pos| && pos[k] > i
    ensures Waiting(Without(pos, k), i) == Waiting(pos, i)
    decreases |pos|
  {
    var n := |pos| - 1;
    var rest := Without(pos, k);
    if k < n {
      WaitingWithout(pos[..n], k, i);
      assert rest[..n - 1] == Without(pos[..n], k);
    } else {
      assert rest == pos[..n];
    }
  }

  lemma LeaveKeeps(q: Queue, k: nat)
    requires Valid(q) && k < |q.logs| && q.counts.pos[k] == |q.frames|
    ensures Valid(Leave(q, k))
  {
    var r := Leave(q, k);
    forall i | 0 <= i < |r.counts.refs| ensures r.counts.refs[i] == Waiting(r.counts.pos, i) {
      WaitingWithout(q.counts.pos, k, i);
    }
    forall m | 0 <= m < |r.logs| ensures Fifo(r.logs[m], r.frames, r.counts.pos[m], r.captured) {
      var o := if m < k then m else m + 1;
      assert Fifo(q.logs[o], q.frames, q.counts.pos[o], q.captured);
    }
  }
}
