/** The frame queue of a device over whole runs of the proxy daemon: clients come and go and change
    their services, frames are captured, sent and flushed. */
module QueueRuns {
  import opened Options
  import opened QueueCounts

  /** The queue, which clients take part in it, how many buffers each of them asked for, the minimum
      number of buffers, and how many there are, queued or free. */
  datatype Daemon = Daemon(queue: Queue, eligible: seq<bool>, asked: seq<int>, minimum: nat, buffers: nat)

  // The number of buffers.

  function Most(minimum: nat, asked: seq<int>): (r: nat)
    ensures r >= minimum
    ensures forall k :: 0 <= k < |asked| ==> asked[k] <= r
  {
    if asked == [] then minimum
    else
      var r := Most(minimum, asked[..|asked| - 1]);
      if r < asked[|asked| - 1] then asked[|asked| - 1] else r
  }

  function Max(a: nat, b: nat): nat {
    if a < b then b else a
  }

  function Wanted(d: Daemon): nat {
    Most(d.minimum, d.asked) + |d.asked|
  }

  predicate Nobody(eligible: seq<bool>) {
    forall k :: 0 <= k < |eligible| ==> !eligible[k]
  }

  /** The services of the clients have been agreed upon with the device anew. Buffers are added, or
      those that are free removed; without any services acquisition stops. */
  function Updated(d: Daemon, granted: seq<bool>): Daemon {
    d.(eligible := granted,
       buffers := if Nobody(granted) then 0 else Max(|d.queue.frames|, Wanted(d)))
  }

  // The steps.

  /** The channel was changed: all buffers are free again, and all clients miss what was pending. */
  function FlushAll(q: Queue): (r: Queue)
    requires Valid(q)
  {
    Queue(Counts([], seq(|q.counts.pos|, k => 0)), [],
          seq(|q.logs|, k requires 0 <= k < |q.logs| => Missed(q.logs[k], q.frames[q.counts.pos[k]..])), q.captured)
  }

  function Missed(log: Log, frames: seq<nat>): Log {
    log.(outcomes := log.outcomes + SkippedAll(frames))
  }

  function SkippedAll(frames: seq<nat>): (r: seq<Outcome>)
    ensures |r| == |frames|
  {
    seq(|frames|, i requires 0 <= i < |frames| => Skipped(frames[i]))
  }

  /** The queue once a buffer was found for the next frame. */
  function Prepared(d: Daemon): Queue
    requires Good(d)
  {
    if |d.queue.frames| == d.buffers > 0 then
      ForceIsExact(d.queue);
      Force(d.queue, 0).value
    else d.queue
  }

  function Forwarded(d: Daemon, available: bool): Daemon
    requires Good(d)
  {
    if available && d.buffers > 0 then
      PreparedKeeps(d);
      d.(queue := Capture(Prepared(d), d.eligible))
    else d.(queue := Prepared(d))
  }

  function Removed(d: Daemon, k: nat): Daemon
    requires Good(d) && k < |d.eligible|
  {
    DrainKeeps(d.queue, k);
    d.(queue := Leave(Drain(d.queue, k), k), eligible := Without(d.eligible, k), asked := Without(d.asked, k))
  }

  datatype Event =
    | Connect                                                 // a client connects
    | ConnectRequest(k: nat, asked: int, granted: seq<bool>)  // it asks for services
    | ServiceRequest(k: nat, granted: seq<bool>)              // it asks for others
    | Frame(available: bool)                                  // the device has data
    | FrameSent(k: nat)                                       // a frame was written to the client
    | ChannelFlush                                            // the channel was changed
    | Close(k: nat, update: bool, granted: seq<bool>)         // the client is gone

  /** Clients with frames pending are among those served. */
  ghost predicate PendingServed(q: Queue, eligible: seq<bool>) {
    |eligible| == |q.counts.pos| && forall k :: 0 <= k < |eligible| && q.counts.pos[k] < |q.frames| ==> eligible[k]
  }

  ghost predicate Good(d: Daemon) {
    && Valid(d.queue) && PendingServed(d.queue, d.eligible) && |d.asked| == |d.eligible|
    && d.minimum >= 1 && |d.queue.frames| <= d.buffers
    && (d.buffers == 0 || d.buffers >= 2)
  }

  /** The daemon is in the state in which it handles the event. */
  ghost predicate Fits(d: Daemon, e: Event)
    requires Good(d)
  {
    match e
    case Connect => true
    case ConnectRequest(k, asked, granted) => k < |d.eligible| == |granted| && !d.eligible[k]
    case ServiceRequest(k, granted) => k < |d.eligible| == |granted|
    case Frame(available) => true
    case FrameSent(k) => k < |d.eligible| && d.queue.counts.pos[k] < |d.queue.frames|
    case ChannelFlush => true
    case Close(k, update, granted) => k < |d.eligible| && (update ==> |granted| == |d.eligible| - 1)
  }

  /** The queue for which the services are agreed upon anew. */
  function Flushed(d: Daemon, e: Event): Queue
    requires Good(d) && Fits(d, e)
  {
    match e
    case ServiceRequest(k, granted) => Drain(d.queue, k)
    case Close(k, update, granted) => Removed(d, k).queue
    case _ => d.queue
  }

  predicate IsUpdate(e: Event) {
    e.ConnectRequest? || e.ServiceRequest? || (e.Close? && e.update)
  }

  /** Services are taken away from other clients only if they have no frames pending. */
  ghost predicate Possible(d: Daemon, e: Event)
    requires Good(d)
  {
    Fits(d, e) && (IsUpdate(e) ==> PendingServed(Flushed(d, e), e.granted))
  }

  /** All services are taken away, so that acquisition stops, while clients have frames pending. */
  ghost predicate Strands(d: Daemon, e: Event)
    requires Good(d) && Fits(d, e)
  {
    IsUpdate(e) && Nobody(e.granted) && Flushed(d, e).frames != []
  }

  function Step(d: Daemon, e: Event): Daemon
    requires Good(d) && Fits(d, e)
  {
    match e
    case Connect => d.(queue := Join(d.queue), eligible := d.eligible + [false], asked := d.asked + [0])
    case ConnectRequest(k, asked, granted) => Updated(d.(asked := d.asked[k := asked]), granted)
    case ServiceRequest(k, granted) => Updated(d.(queue := Drain(d.queue, k)), granted)
    case Frame(available) => Forwarded(d, available)
    case FrameSent(k) => d.(queue := Finish(d.queue, k, true))
    case ChannelFlush => d.(queue := FlushAll(d.queue))
    case Close(k, update, granted) => if update then Updated(Removed(d, k), granted) else Removed(d, k)
  }

  // What every step keeps.

  /** Nobody is served, so nothing is queued: acquisition can stop without leaving a client behind
      with a buffer that is gone. */
  lemma NobodyLeftBehind(q: Queue, eligible: seq<bool>)
    requires Valid(q) && PendingServed(q, eligible) && Nobody(eligible)
    ensures q.frames == [] && forall k :: 0 <= k < |q.counts.pos| ==> q.counts.pos[k] == 0
  {
    if q.frames != [] {
      var k := SomeoneWaits(q.counts.pos, 0);
      assert false;
    }
  }

  /** After an update of the services there are buffers enough, and counts remain exact from then on,
      exactly if clients with frames pending keep a service. */
  lemma UpdatedKeeps(d: Daemon, granted: seq<bool>)
    requires Valid(d.queue) && |d.asked| == |granted| == |d.queue.counts.pos| && d.minimum >= 1
    ensures Good(Updated(d, granted)) <==> PendingServed(d.queue, granted)
  {
    hide Valid;
    if PendingServed(d.queue, granted) && Nobody(granted) {
      NobodyLeftBehind(d.queue, granted);
    }
  }

  lemma FlushAllKeeps(q: Queue)
    requires Valid(q)
    ensures Valid(FlushAll(q))
  {
    var r := FlushAll(q);
    forall k | 0 <= k < |r.logs| ensures Fifo(r.logs[k], r.frames, r.counts.pos[k], r.captured) {
      AllFifo(q, k);
      DoneMissed(q.logs[k].outcomes, q.frames[q.counts.pos[k]..]);
    }
  }

  lemma {:induction false} DoneMissed(outcomes: seq<Outcome>, frames: seq<nat>)
    ensures Done(outcomes + SkippedAll(frames)) == Done(outcomes) + frames
    decreases |frames|
  {
    if frames == [] {
      assert outcomes + SkippedAll(frames) == outcomes;
    } else {
      var k := |frames| - 1;
      DoneMissed(outcomes, frames[..k]);
      assert (outcomes + SkippedAll(frames))[..|outcomes| + k] == outcomes + SkippedAll(frames[..k]);
    }
  }

  /** A drop by force makes room for the next frame; no client has more to do than before. */
  lemma PreparedKeeps(d: Daemon)
    requires Good(d)
    ensures var q := Prepared(d);
      && Valid(q) && |q.logs| == |d.queue.logs| == |d.eligible| == |q.counts.pos|
      && PendingServed(q, d.eligible)
      && (d.buffers > 0 ==> |q.frames| < d.buffers)
      && |q.frames| == |d.queue.frames| - (if |d.queue.frames| == d.buffers > 0 then 1 else 0)
  {
    hide Valid;
    hide Force;
    Sizes(d.queue);
    if |d.queue.frames| == d.buffers > 0 {
      ForceIsExact(d.queue);
      ForceShrinks(d.queue, 0);
    }
  }

  /** In no run does a client lose more than one frame to a drop by force. */
  lemma AtMostOneIsDropped(d: Daemon)
    requires Good(d)
    ensures |Prepared(d).frames| <= |d.queue.frames|
    ensures AtMostOne(d.queue.counts, Prepared(d).counts, |d.queue.frames| - |Prepared(d).frames|)
  {
    hide Valid;
    Sizes(d.queue);
    if |d.queue.frames| == d.buffers > 0 {
      ForceIsExact(d.queue);
    }
  }

  lemma ForwardedKeeps(d: Daemon, available: bool)
    requires Good(d)
    ensures Good(Forwarded(d, available))
  {
    hide Valid;
    hide Prepared;
    PreparedKeeps(d);
    if available && d.buffers > 0 {
      CaptureKeeps(Prepared(d), d.eligible);
      CapturePending(Prepared(d), d.eligible);
    }
  }

  lemma PreparedIs(d: Daemon)
    requires Good(d)
    ensures var q := Prepared(d);
      && Valid(q) && PendingServed(q, d.eligible) && d.buffers != 1 && |d.queue.frames| <= d.buffers
      && (if |d.queue.frames| == d.buffers > 0 then Force(d.queue, 0) == Some(q) else q == d.queue)
  {
    hide Valid;
    hide Force;
    PreparedKeeps(d);
    if |d.queue.frames| == d.buffers > 0 {
      ForceIsExact(d.queue);
    }
  }

  lemma ForwardedIs(d: Daemon, available: bool, q: Queue)
    requires Good(d)
    requires if available && d.buffers > 0 then Captured(Prepared(d), d.eligible, q) else q == Prepared(d)
    ensures Forwarded(d, available) == d.(queue := q) && Good(d.(queue := q))
  {
    hide Good;
    ForwardedKeeps(d, available);
  }

  lemma CaptureIs(q: Queue, eligible: seq<bool>)
    requires Valid(q) && PendingServed(q, eligible) && |q.logs| == |eligible|
    ensures Valid(Capture(q, eligible))
    ensures Count(eligible) == 0 ==> Nobody(eligible) && Capture(q, eligible) == q.(captured := q.captured + 1)
    ensures Count(eligible) > 0 ==>
              Capture(q, eligible)
              == Queue(Counts(q.counts.refs + [Count(eligible)], Joined(|q.counts.refs|, q.counts.pos, eligible)),
                       q.frames + [q.captured], Offered(q.logs, eligible, q.captured), q.captured + 1)
  {
    hide Valid;
    Sizes(q);
    CaptureKeeps(q, eligible);
    if Count(eligible) == 0 {
      CaptureNone(q, eligible);
    } else {
      CaptureSome(q, eligible);
    }
  }

  lemma CapturePending(q: Queue, eligible: seq<bool>)
    requires Valid(q) && PendingServed(q, eligible) && |q.logs| == |eligible|
    ensures PendingServed(Capture(q, eligible), eligible) && |Capture(q, eligible).frames| <= |q.frames| + 1
  {
    Sizes(q);
    hide Valid;
    if Count(eligible) == 0 {
      CaptureNone(q, eligible);
    } else {
      CaptureSome(q, eligible);
    }
  }

  lemma FinishPending(q: Queue, eligible: seq<bool>, k: nat, sent: bool)
    requires Valid(q) && PendingServed(q, eligible) && k < |eligible| && q.counts.pos[k] < |q.frames|
    ensures Valid(Finish(q, k, sent)) && PendingServed(Finish(q, k, sent), eligible)
    ensures |Finish(q, k, sent).frames| <= |q.frames|
  {
    Sizes(q);
    FinishKeeps(q, k, sent);
    FinishFields(q, k, sent);
    hide Valid;
    hide Finish;
  }

  lemma {:induction false} DrainShrinks(q: Queue, k: nat)
    requires Valid(q) && k < |q.logs|
    ensures |Drain(q, k).frames| <= |q.frames|
    decreases |q.frames| - q.counts.pos[k]
  {
    hide Finish;
    if q.counts.pos[k] < |q.frames| {
      DrainStep(q, k);
      FinishFields(q, k, false);
      DrainShrinks(Finish(q, k, false), k);
    }
  }

  lemma RemovedKeeps(d: Daemon, k: nat)
    requires Good(d) && k < |d.eligible|
    ensures Good(Removed(d, k)) && |Removed(d, k).eligible| == |d.eligible| - 1
  {
    hide Valid;
    hide Drain;
    Sizes(d.queue);
    DrainKeeps(d.queue, k);
    DrainShrinks(d.queue, k);
    Sizes(Drain(d.queue, k));
    LeaveKeeps(Drain(d.queue, k), k);
  }

  lemma RemovedIs(d: Daemon, k: nat)
    requires Good(d) && k < |d.eligible|
    ensures var q := Drain(d.queue, k);
      && Valid(q) && k < |q.logs| == |q.counts.pos| == |d.eligible| == |d.asked| && q.counts.pos[k] == |q.frames|
      && Removed(d, k) == d.(queue := Leave(q, k), eligible := Without(d.eligible, k), asked := Without(d.asked, k))
    ensures Good(Removed(d, k)) && |Removed(d, k).eligible| == |d.eligible| - 1 && d.minimum >= 1
  {
    hide Valid;
    hide Drain;
    Sizes(d.queue);
    DrainKeeps(d.queue, k);
    Sizes(Drain(d.queue, k));
    RemovedKeeps(d, k);
  }

  lemma DrainedIs(d: Daemon, k: nat, granted: seq<bool>)
    requires Good(d) && k < |d.eligible| == |granted|
    ensures d.minimum >= 1 && Valid(Drain(d.queue, k))
    ensures Fits(d, ServiceRequest(k, granted))
    ensures Step(d, ServiceRequest(k, granted)) == Updated(d.(queue := Drain(d.queue, k)), granted)
  {
    hide Valid;
    hide Drain;
    hide Updated;
    Sizes(d.queue);
    DrainKeeps(d.queue, k);
  }

  lemma SentIs(d: Daemon, k: nat)
    requires Good(d) && k < |d.eligible| == |d.queue.counts.pos| && d.queue.counts.pos[k] < |d.queue.frames|
    ensures Possible(d, FrameSent(k)) && Good(Step(d, FrameSent(k)))
    ensures Valid(d.queue) && k < |d.queue.logs| && Step(d, FrameSent(k)) == d.(queue := Finish(d.queue, k, true))
  {
    hide Valid;
    hide Finish;
    Sizes(d.queue);
    StepKeeps(d, FrameSent(k));
  }

  lemma JoinIs(d: Daemon)
    requires Good(d)
    ensures Valid(Join(d.queue)) && Good(Step(d, Connect))
    ensures Step(d, Connect) == d.(queue := Join(d.queue), eligible := d.eligible + [false], asked := d.asked + [0])
  {
    hide Valid;
    JoinKeeps(d.queue);
    StepKeeps(d, Connect);
  }

  lemma JoinPending(q: Queue, eligible: seq<bool>)
    requires Valid(q) && PendingServed(q, eligible)
    ensures Valid(Join(q)) && PendingServed(Join(q), eligible + [false]) && Join(q).frames == q.frames
  {
    JoinKeeps(q);
    Sizes(q);
    hide Valid;
  }

  /** Every step keeps all this exactly if it takes no services from a client with frames pending. */
  lemma StepKeeps(d: Daemon, e: Event)
    requires Good(d) && Fits(d, e)
    ensures Good(Step(d, e)) <==> Possible(d, e)
  {
    hide Valid;
    hide Finish;
    hide Drain;
    hide FlushAll;
    hide Join;
    hide Forwarded;
    hide Removed;
    hide Updated;
    hide PendingServed;
    Pendings(d);
    Sizes(d.queue);
    match e
    case Connect => JoinPending(d.queue, d.eligible);
    case ConnectRequest(k, asked, granted) => UpdatedKeeps(d.(asked := d.asked[k := asked]), granted);
    case ServiceRequest(k, granted) =>
      DrainKeeps(d.queue, k);
      Sizes(Drain(d.queue, k));
      UpdatedKeeps(d.(queue := Drain(d.queue, k)), granted);
    case Frame(available) => ForwardedKeeps(d, available);
    case FrameSent(k) => FinishPending(d.queue, d.eligible, k, true);
    case ChannelFlush => FlushGood(d);
    case Close(k, update, granted) =>
      RemovedKeeps(d, k);
      if update {
        Pendings(Removed(d, k));
        Sizes(Removed(d, k).queue);
        UpdatedKeeps(Removed(d, k), granted);
      }
  }

  lemma Pendings(d: Daemon)
    requires Good(d)
    ensures |d.eligible| == |d.queue.counts.pos| == |d.asked| && Valid(d.queue) && d.minimum >= 1
  {
    hide Valid;
  }

  lemma FlushGood(d: Daemon)
    requires Good(d)
    ensures Good(d.(queue := FlushAll(d.queue)))
  {
    FlushAllKeeps(d.queue);
    Sizes(d.queue);
    hide Valid;
  }

  // Whole runs.

  ghost predicate Legal(d: Daemon, run: seq<Event>)
    requires Good(d)
    decreases |run|
  {
    if run == [] then true
    else
      && Possible(d, run[0])
      && (StepKeeps(d, run[0]); Legal(Step(d, run[0]), run[1..]))
  }

  ghost function Run(d: Daemon, run: seq<Event>): (r: Daemon)
    requires Good(d) && Legal(d, run)
    decreases |run|
  {
    if run == [] then d
    else
      StepKeeps(d, run[0]);
      Run(Step(d, run[0]), run[1..])
  }

  /** The daemon at the start: no clients, no buffers. */
  function Start(minimum: nat): Daemon {
    Daemon(Queue(Counts([], []), [], [], 0), [], [], minimum, 0)
  }

  lemma {:induction false} RunKeeps(d: Daemon, run: seq<Event>)
    requires Good(d) && Legal(d, run)
    ensures Good(Run(d, run))
    decreases |run|
  {
    hide Good;
    hide Step;
    hide Fits;
    hide PendingServed;
    hide Flushed;
    if run != [] {
      StepKeeps(d, run[0]);
      RunKeeps(Step(d, run[0]), run[1..]);
    }
  }

  /** In every run the reference counts are exact, each client gets or misses the frames offered to it
      in the order of capture and each one once, only clients that are served have frames pending,
      and a drop by force finds a second buffer in the queue. */
  lemma GoodInEveryRun(minimum: nat, run: seq<Event>)
    requires minimum >= 1
    ensures Good(Start(minimum))
    ensures Legal(Start(minimum), run) ==>
      var d := Run(Start(minimum), run);
      && Good(d)
      && (|d.queue.frames| == d.buffers > 0 ==> |d.queue.frames| >= 2)
      && forall k :: 0 <= k < |d.queue.logs| ==>
           Increasing(d.queue.logs[k].offered) && Done(d.queue.logs[k].outcomes) <= d.queue.logs[k].offered
  {
    if Legal(Start(minimum), run) {
      RunKeeps(Start(minimum), run);
      var d := Run(Start(minimum), run);
      forall k | 0 <= k < |d.queue.logs|
        ensures Increasing(d.queue.logs[k].offered) && Done(d.queue.logs[k].outcomes) <= d.queue.logs[k].offered
      {
        AllFifo(d.queue, k);
      }
    }
  }

  // A client that loses its services while it has a frame pending.

  /** Two clients are served, and the first one has not got the only frame yet. */
  function OnePending(): Daemon {
    Daemon(Queue(Counts([1], [0, 1]), [0], [Log([0], []), Log([], [])], 1), [true, true], [0, 0], 2, 4)
  }

  lemma OnePendingExact()
    ensures Exact(Counts([1], [0, 1]))
  {
    TwoClients();
    hide Waiting;
  }

  lemma OnePendingFifo()
    ensures Fifo(Log([0], []), [0], 0, 1) && Fifo(Log([], []), [0], 1, 1)
  {
    hide Done;
    NothingDone();
    assert [] + [0][0..] == [0] && [] + [0][1..] == [];
  }

  lemma NothingDone()
    ensures Done([]) == []
  {
  }

  lemma OnePendingGood()
    ensures Good(OnePending()) && Drain(OnePending().queue, 1) == OnePending().queue
  {
    hide Exact;
    hide Fifo;
    OnePendingExact();
    OnePendingFifo();
    assert [0, 1][0] == 0 && [0, 1][1] == 1;
  }

  /** The second client asks for nothing any more, and the device grants nothing to the first either:
      acquisition stops and leaves the first client with a buffer that is gone. */
  lemma ClientIsStranded()
    ensures Good(OnePending()) && Fits(OnePending(), ServiceRequest(1, [false, false]))
    ensures Strands(OnePending(), ServiceRequest(1, [false, false]))
    ensures !Good(Step(OnePending(), ServiceRequest(1, [false, false])))
  {
    OnePendingGood();
    hide Valid;
    hide Drain;
    hide Updated;
    var e := ServiceRequest(1, [false, false]);
    StepKeeps(OnePending(), e);
    assert !PendingServed(OnePending().queue, [false, false]) by {
      assert OnePending().queue.counts.pos[0] < 1 && ![false, false][0];
    }
  }
}
