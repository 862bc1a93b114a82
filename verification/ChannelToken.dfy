/** Which client of the proxy daemon may switch channels: token states, the scheduler for
    background clients, and the handlers of the messages that change them. */
module ChannelToken {
  datatype TokenState =
    | NoToken   // may not change the channel
    | Reclaim   // return of the token will be requested
    | Release   // waiting for the client to release the token
    | Grant     // the client will be sent the token
    | Granted   // the client holds the token
    | Returned  // the client has returned the token but still owns the channel

  predicate Controls(t: TokenState) {
    t.Granted? || t.Returned?
  }

  const BACKGROUND: int := 1
  const INTERACTIVE: int := 2

  datatype Profile = Profile(isValid: bool, subPrio: int, minDuration: int)

  datatype Client = Client(
    dev: nat, prio: int, profile: Profile,
    token: TokenState, completed: bool, cycles: int, lastStart: int, lastDuration: int)

  function NewClient(dev: nat): Client {
    Client(dev, INTERACTIVE, Profile(false, 0, 0), NoToken, false, 0, 0, 0)
  }

  // Invariants.

  /** At most one client of each device has anything to do with the token. */
  ghost predicate OneOwner(cs: seq<Client>) {
    forall i, j :: 0 <= i < j < |cs| && cs[i].dev == cs[j].dev ==> cs[i].token.NoToken? || cs[j].token.NoToken?
  }

  ghost predicate CyclesInRange(cs: seq<Client>) {
    forall i :: 0 <= i < |cs| ==> 0 <= cs[i].cycles <= 2
  }

  ghost predicate Inv(cs: seq<Client>) {
    OneOwner(cs) && CyclesInRange(cs)
  }

  /** Nobody but client k has anything to do with the token of its device. */
  ghost predicate SoleOwner(cs: seq<Client>, k: nat)
    requires k < |cs|
  {
    forall i :: 0 <= i < |cs| && i != k && cs[i].dev == cs[k].dev ==> cs[i].token.NoToken?
  }

  ghost predicate IsOwner(cs: seq<Client>, dev: nat, i: nat) {
    i < |cs| && cs[i].dev == dev && !cs[i].token.NoToken?
  }

  ghost predicate Reclaiming(cs: seq<Client>, dev: nat) {
    exists i: nat :: IsOwner(cs, dev, i) && (cs[i].token.Reclaim? || cs[i].token.Release?)
  }

  lemma OwnerIsUnique(cs: seq<Client>, dev: nat)
    requires OneOwner(cs)
    ensures forall i: nat :: IsOwner(cs, dev, i) ==> i == Owner(cs, dev)
  {
    var o := Owner(cs, dev);
    forall i: nat | IsOwner(cs, dev, i) ensures i == o {
      assert i >= o;
    }
  }

  function WithToken(cs: seq<Client>, k: nat, t: TokenState): seq<Client>
    requires k < |cs|
  {
    cs[k := cs[k].(token := t)]
  }

  // The steps of the daemon as functions of the client list.

  /** The first client of the device with a token state, |cs| if there is none. */
  function Owner(cs: seq<Client>, dev: nat): (r: nat)
    ensures r <= |cs|
    ensures r < |cs| ==> IsOwner(cs, dev, r)
    ensures forall i :: 0 <= i < r ==> !IsOwner(cs, dev, i)
  {
    if cs == [] then 0
    else if cs[0].dev == dev && !cs[0].token.NoToken? then 0
    else
      var r := Owner(cs[1..], dev);
      assert forall i :: 0 < i <= r && i < |cs| ==> (IsOwner(cs, dev, i) <==> IsOwner(cs[1..], dev, i - 1));
      1 + r
  }

  function TokenGrant(cs: seq<Client>, k: nat): (seq<Client>, bool)
    requires k < |cs|
  {
    match cs[k].token
    case NoToken =>
      var o := Owner(cs, cs[k].dev);
      if o == |cs| then (WithToken(cs, k, Grant), true)
      else if cs[o].token.Grant? || cs[o].token.Returned? then (WithToken(WithToken(cs, k, Grant), o, NoToken), true)
      else (if cs[o].token.Release? then cs else WithToken(cs, o, Reclaim), false)
    case Reclaim => (WithToken(cs, k, Granted), true)
    case Release => (WithToken(cs, k, Grant), true)
    case Grant => (cs, true)
    case Granted => (cs, true)
    case Returned => (cs, true)
  }

  function Leveled(cs: seq<Client>, dev: nat): (r: seq<Client>)
    ensures |r| == |cs|
    ensures forall i :: 0 <= i < |cs| ==>
              r[i] == if cs[i].dev == dev && cs[i].cycles > 0 then cs[i].(cycles := cs[i].cycles - 1) else cs[i]
  {
    seq(|cs|, i requires 0 <= i < |cs| =>
      if cs[i].dev == dev && cs[i].cycles > 0 then cs[i].(cycles := cs[i].cycles - 1) else cs[i])
  }

  predicate SomeoneAtMaximum(cs: seq<Client>, dev: nat) {
    exists i :: 0 <= i < |cs| && cs[i].dev == dev && cs[i].cycles >= 2
  }

  function Completed(cs: seq<Client>, k: nat, whence: int): seq<Client>
    requires k < |cs|
  {
    var c := cs[k].(lastDuration := whence - cs[k].lastStart, completed := true, cycles := cs[k].cycles + 1);
    var r := cs[k := c];
    if c.cycles > 2 then Leveled(r, c.dev)
    else if c.cycles == 1 && SomeoneAtMaximum(r, c.dev) then r[k := c.(cycles := 2)]
    else r
  }

  function Expired(c: Client, now: int): bool {
    now - c.lastStart >= c.profile.minDuration && !c.completed
  }

  function Stopped(cs: seq<Client>, k: nat, now: int): seq<Client>
    requires k < |cs|
  {
    var r := if Expired(cs[k], now) then Completed(cs, k, now) else cs;
    r[k := r[k].(completed := false, token := if r[k].token.Granted? then Reclaim else NoToken)]
  }

  lemma CompletedKeepsTokens(cs: seq<Client>, k: nat, whence: int)
    requires k < |cs|
    ensures var r := Completed(cs, k, whence);
            && |r| == |cs|
            && (forall i :: 0 <= i < |cs| ==> r[i].token == cs[i].token && r[i].dev == cs[i].dev
                                              && r[i].prio == cs[i].prio && r[i].profile == cs[i].profile)
            && (OneOwner(cs) ==> OneOwner(r))
  {
  }

  /** The cycle counters hop from 0 to 2 at most, and are leveled before they overflow. */
  lemma CompletedKeepsCycles(cs: seq<Client>, k: nat, whence: int)
    requires k < |cs| && CyclesInRange(cs)
    ensures CyclesInRange(Completed(cs, k, whence))
    ensures Completed(cs, k, whence)[k].cycles >= 1
  {
  }

  lemma StoppedKeeps(cs: seq<Client>, k: nat, now: int)
    requires k < |cs| && Inv(cs) && Controls(cs[k].token)
    ensures var r := Stopped(cs, k, now);
            && Inv(r) && |r| == |cs|
            && (forall i :: 0 <= i < |cs| ==> r[i].dev == cs[i].dev && r[i].prio == cs[i].prio
                                              && r[i].profile == cs[i].profile
                                              && (i != k ==> r[i].token == cs[i].token))
            && !Controls(r[k].token)
  {
    CompletedKeepsTokens(cs, k, now);
    CompletedKeepsCycles(cs, k, now);
  }

  /** A grant changes nothing but tokens, and no tokens of other devices. */
  lemma TokenGrantFrame(cs: seq<Client>, k: nat)
    requires k < |cs|
    ensures var r := TokenGrant(cs, k).0;
            && |r| == |cs|
            && (forall i :: 0 <= i < |cs| && cs[i].dev != cs[k].dev ==> r[i] == cs[i])
            && (forall i :: 0 <= i < |cs| ==> r[i].(token := NoToken) == cs[i].(token := NoToken))
  {
  }

  lemma GrantToOwner(cs: seq<Client>, k: nat)
    requires k < |cs| && Inv(cs) && !cs[k].token.NoToken?
    ensures var (r, granted) := TokenGrant(cs, k);
            && |r| == |cs| && Inv(r) && granted
            && SoleOwner(cs, k) && SoleOwner(r, k) && (r[k].token.Grant? || Controls(r[k].token))
  {
  }

  lemma OwnerAlone(cs: seq<Client>, dev: nat)
    requires OneOwner(cs)
    ensures forall i :: 0 <= i < |cs| && cs[i].dev == dev && i != Owner(cs, dev) ==> cs[i].token.NoToken?
  {
    OwnerIsUnique(cs, dev);
    forall i | 0 <= i < |cs| && cs[i].dev == dev && i != Owner(cs, dev) ensures cs[i].token.NoToken? {
      assert !IsOwner(cs, dev, i);
    }
  }

  /** The token passes from client o, if it was there, to client k. */
  lemma TokenPasses(cs: seq<Client>, k: nat, o: nat)
    requires k < |cs| && Inv(cs) && o <= |cs| && o != k && (o < |cs| ==> cs[o].dev == cs[k].dev)
    requires forall i :: 0 <= i < |cs| && cs[i].dev == cs[k].dev && i != o ==> cs[i].token.NoToken?
    ensures var g := WithToken(cs, k, Grant);
            var r := if o == |cs| then g else WithToken(g, o, NoToken);
            Inv(r) && SoleOwner(r, k) && r[k].token.Grant?
  {
  }

  lemma TokenIsReclaimed(cs: seq<Client>, dev: nat, o: nat)
    requires o < |cs| && Inv(cs) && IsOwner(cs, dev, o)
    ensures var r := if cs[o].token.Release? then cs else WithToken(cs, o, Reclaim);
            Inv(r) && Reclaiming(r, dev)
  {
    var r := if cs[o].token.Release? then cs else WithToken(cs, o, Reclaim);
    assert IsOwner(r, dev, o);
  }

  lemma GrantToOther(cs: seq<Client>, k: nat)
    requires k < |cs| && Inv(cs) && cs[k].token.NoToken?
    ensures var (r, granted) := TokenGrant(cs, k);
            var o := Owner(cs, cs[k].dev);
            && |r| == |cs| && Inv(r)
            && (granted <==> o == |cs| || cs[o].token.Grant? || cs[o].token.Returned?)
            && (granted ==> SoleOwner(r, k) && r[k].token.Grant?)
            && (!granted ==> r[k].token.NoToken? && Reclaiming(r, cs[k].dev))
  {
    hide Inv;
    hide SoleOwner;
    hide Reclaiming;
    var dev := cs[k].dev;
    var o := Owner(cs, dev);
    Unique(cs);
    OwnerAlone(cs, dev);
    if o == |cs| || cs[o].token.Grant? || cs[o].token.Returned? {
      TokenPasses(cs, k, o);
    } else {
      TokenIsReclaimed(cs, dev, o);
    }
  }

  lemma Unique(cs: seq<Client>)
    requires Inv(cs)
    ensures OneOwner(cs)
  {
  }

  /** With a unique owner the grant succeeds exactly if nobody else holds the token or is
      about to return it; then nobody else has anything to do with the token. Otherwise the
      owner is asked to return it. */
  lemma TokenGrantKeeps(cs: seq<Client>, k: nat)
    requires k < |cs| && Inv(cs)
    ensures var (r, granted) := TokenGrant(cs, k);
            && |r| == |cs| && Inv(r)
            && (granted <==> forall i: nat :: i != k && IsOwner(cs, cs[k].dev, i) ==>
                                           cs[i].token.Grant? || cs[i].token.Returned?)
            && (granted ==> SoleOwner(r, k) && (r[k].token.Grant? || Controls(r[k].token)))
            && (!granted ==> r[k].token.NoToken? && Reclaiming(r, cs[k].dev))
  {
    hide TokenGrant;
    OwnerIsUnique(cs, cs[k].dev);
    if cs[k].token.NoToken? {
      GrantToOther(cs, k);
    } else {
      GrantToOwner(cs, k);
    }
  }

  // The scheduler of background clients.

  predicate Candidate(c: Client, dev: nat) {
    c.dev == dev && c.profile.isValid && c.prio == BACKGROUND
  }

  function Rounds(c: Client): int {
    c.cycles + (if Controls(c.token) && c.completed then 1 else 0)
  }

  /** Client w is scheduled rather than s, which comes before it in the list. */
  predicate Prefers(w: Client, s: Client) {
    if Rounds(w) < Rounds(s) then true
    else if w.profile.subPrio > s.profile.subPrio then true
    else if w.profile.subPrio < s.profile.subPrio then false
    else if Controls(w.token) && !w.completed then true
    else if Controls(s.token) && s.completed then true
    else if Controls(w.token) || Controls(s.token) then false
    else w.lastStart < s.lastStart
         || (w.lastStart == s.lastStart && w.profile.minDuration < s.profile.minDuration)
  }

  /** A reservation that has expired is completed. */
  function Visit(cs: seq<Client>, m: nat, now: int): seq<Client>
    requires m < |cs|
  {
    if Controls(cs[m].token) && Expired(cs[m], now) then Completed(cs, m, now) else cs
  }

  /** The state of the walk through the list: the clients, the best candidate so far and the
      candidate that controls the channel, both negative if there is none. */
  datatype Walk = Walk(cs: seq<Client>, best: int, active: int)

  predicate WalkValid(w: Walk) {
    w.best < |w.cs| && w.active < |w.cs|
  }

  function WalkStep(w: Walk, dev: nat, now: int, m: nat): (r: Walk)
    requires WalkValid(w) && m < |w.cs|
    ensures WalkValid(r) && |r.cs| == |w.cs|
  {
    if !Candidate(w.cs[m], dev) then w
    else
      var cs := Visit(w.cs, m, now);
      Walk(cs, if w.best < 0 || Prefers(cs[m], cs[w.best]) then m else w.best,
           if Controls(cs[m].token) then m else w.active)
  }

  function WalkFrom(w: Walk, dev: nat, now: int, m: nat): (r: Walk)
    requires WalkValid(w) && m <= |w.cs|
    ensures WalkValid(r) && |r.cs| == |w.cs|
    decreases |w.cs| - m
  {
    if m == |w.cs| then w else WalkFrom(WalkStep(w, dev, now, m), dev, now, m + 1)
  }

  function Schedule(cs: seq<Client>, dev: nat, now: int): (r: (seq<Client>, int))
    ensures |r.0| == |cs| && r.1 < |cs|
  {
    var w := WalkFrom(Walk(cs, -1, -1), dev, now, 0);
    if w.best != w.active && w.active >= 0 then (Stopped(w.cs, w.active, now), w.best) else (w.cs, w.best)
  }

  /** Tokens, devices, priorities and profiles are the same. */
  ghost predicate SameTokens(cs: seq<Client>, r: seq<Client>) {
    && |r| == |cs|
    && forall i :: 0 <= i < |cs| ==> r[i].token == cs[i].token && r[i].dev == cs[i].dev
                                     && r[i].prio == cs[i].prio && r[i].profile == cs[i].profile
  }

  lemma VisitKeeps(cs: seq<Client>, m: nat, now: int)
    requires m < |cs| && Inv(cs)
    ensures Inv(Visit(cs, m, now)) && SameTokens(cs, Visit(cs, m, now))
  {
    hide Completed;
    CompletedKeepsTokens(cs, m, now);
    CompletedKeepsCycles(cs, m, now);
  }

  /** What a walk over the clients from m to n has found. */
  ghost predicate Found(w: Walk, r: Walk, dev: nat, m: nat, n: nat) {
    && |r.cs| == |w.cs| && n <= |w.cs| && WalkValid(r)
    && (r.best >= 0 ==> r.best == w.best || Candidate(w.cs[r.best], dev))
    && (r.best < 0 <==> w.best < 0 && forall i :: m <= i < n ==> !Candidate(w.cs[i], dev))
    && (r.active >= 0 ==> r.active == w.active || Controls(w.cs[r.active].token))
  }

  lemma WalkStepKeeps(w: Walk, dev: nat, now: int, m: nat)
    requires WalkValid(w) && m < |w.cs| && Inv(w.cs)
    ensures var r := WalkStep(w, dev, now, m); Inv(r.cs) && SameTokens(w.cs, r.cs) && Found(w, r, dev, m, m + 1)
  {
    hide Inv;
    hide Visit;
    hide Prefers;
    VisitKeeps(w.cs, m, now);
  }

  lemma FoundTwice(w: Walk, v: Walk, r: Walk, dev: nat, m: nat, n: nat)
    requires Found(w, v, dev, m, m + 1) && SameTokens(w.cs, v.cs) && Found(v, r, dev, m + 1, n) && m < n
    ensures Found(w, r, dev, m, n)
  {
    forall i | 0 <= i < |w.cs| ensures Candidate(v.cs[i], dev) == Candidate(w.cs[i], dev) {}
  }

  lemma SameTwice(a: seq<Client>, b: seq<Client>, c: seq<Client>)
    requires SameTokens(a, b) && SameTokens(b, c)
    ensures SameTokens(a, c)
  {
  }

  lemma {:induction false} WalkKeeps(w: Walk, dev: nat, now: int, m: nat)
    requires WalkValid(w) && m <= |w.cs| && Inv(w.cs)
    ensures var r := WalkFrom(w, dev, now, m); Inv(r.cs) && SameTokens(w.cs, r.cs) && Found(w, r, dev, m, |w.cs|)
    decreases |w.cs| - m
  {
    hide Inv;
    hide WalkStep;
    if m < |w.cs| {
      hide SameTokens;
      hide Found;
      var v := WalkStep(w, dev, now, m);
      WalkStepKeeps(w, dev, now, m);
      WalkKeeps(v, dev, now, m + 1);
      FoundTwice(w, v, WalkFrom(v, dev, now, m + 1), dev, m, |w.cs|);
      SameTwice(w.cs, v.cs, WalkFrom(v, dev, now, m + 1).cs);
    }
  }

  lemma ScheduleKeeps(cs: seq<Client>, dev: nat, now: int)
    requires Inv(cs)
    ensures var (r, s) := Schedule(cs, dev, now);
            && Inv(r)
            && (s >= 0 ==> Candidate(cs[s], dev) && Candidate(r[s], dev))
            && (s < 0 <==> forall i :: 0 <= i < |cs| ==> !Candidate(cs[i], dev))
  {
    var w := WalkFrom(Walk(cs, -1, -1), dev, now, 0);
    WalkKeeps(Walk(cs, -1, -1), dev, now, 0);
    hide Stopped;
    if w.best != w.active && w.active >= 0 {
      StoppedKeeps(w.cs, w.active, now);
    }
  }

  function MaxPrio(cs: seq<Client>, dev: nat): (r: int)
    ensures r >= BACKGROUND
    ensures forall i :: 0 <= i < |cs| && cs[i].dev == dev ==> cs[i].prio <= r
  {
    if cs == [] then BACKGROUND
    else
      var k := |cs| - 1;
      var r := MaxPrio(cs[..k], dev);
      if cs[k].dev == dev && cs[k].prio > r then cs[k].prio else r
  }

  /** All clients of the device from m on lose control of the channel. */
  function StopFrom(cs: seq<Client>, dev: nat, now: int, m: nat): (r: seq<Client>)
    requires m <= |cs|
    ensures |r| == |cs|
    decreases |cs| - m
  {
    if m == |cs| then cs
    else StopFrom(if cs[m].dev == dev && Controls(cs[m].token) then Stopped(cs, m, now) else cs, dev, now, m + 1)
  }

  lemma {:induction false} StopKeeps(cs: seq<Client>, dev: nat, now: int, m: nat)
    requires m <= |cs| && Inv(cs)
    requires forall i :: 0 <= i < m && cs[i].dev == dev ==> !Controls(cs[i].token)
    ensures var r := StopFrom(cs, dev, now, m);
            && Inv(r)
            && (forall i :: 0 <= i < |cs| ==> r[i].dev == cs[i].dev && r[i].prio == cs[i].prio
                                              && r[i].profile == cs[i].profile)
            && (forall i :: 0 <= i < |cs| && cs[i].dev == dev ==> !Controls(r[i].token))
    decreases |cs| - m
  {
    hide Stopped;
    if m < |cs| {
      if cs[m].dev == dev && Controls(cs[m].token) {
        StoppedKeeps(cs, m, now);
        StopKeeps(Stopped(cs, m, now), dev, now, m + 1);
      } else {
        StopKeeps(cs, dev, now, m + 1);
      }
    }
  }

  /** Client s starts to use the channel. */
  function Started(cs: seq<Client>, s: nat, now: int): seq<Client>
    requires s < |cs|
  {
    cs[s := cs[s].(completed := false, lastDuration := 0, lastStart := now)]
  }

  /** The scheduled client gets the token unless it controls the channel already. */
  function Award(cs: seq<Client>, s: nat, now: int): (r: (seq<Client>, bool))
    requires s < |cs|
    ensures |r.0| == |cs|
  {
    if Controls(cs[s].token) then (cs, false)
    else
      var (g, granted) := TokenGrant(cs, s);
      (if granted then Started(g, s, now) else g, granted)
  }

  /** The clients when those in control have been stopped, if that is necessary. */
  function StoppedAll(cs: seq<Client>, dev: nat, switched: bool, now: int): (r: seq<Client>)
    ensures |r| == |cs|
  {
    if MaxPrio(cs, dev) > BACKGROUND || switched then StopFrom(cs, dev, now, 0) else cs
  }

  /** The channel is reassigned. req is the client that asked for it, or negative; `switched`
      says that the channel was changed already. */
  function Update(cs: seq<Client>, dev: nat, req: int, switched: bool, now: int): (r: (seq<Client>, bool))
    requires req < |cs|
    ensures |r.0| == |cs|
  {
    var stopped := StoppedAll(cs, dev, switched, now);
    if MaxPrio(cs, dev) > BACKGROUND then (stopped, false)
    else
      var (scheduled, s) := Schedule(stopped, dev, now);
      if s < 0 then (scheduled, false)
      else
        var (r, granted) := Award(scheduled, s, now);
        (r, granted && s == req)
  }

  /** Client s may use the channel, or is about to be told so, and nobody else has anything to
      do with the token; or else the token is being claimed back for it. */
  ghost predicate Served(cs: seq<Client>, dev: nat, s: nat) {
    && s < |cs| && Candidate(cs[s], dev)
    && (if cs[s].token.NoToken? then Reclaiming(cs, dev) else SoleOwner(cs, s))
  }

  lemma AwardKeeps(cs: seq<Client>, dev: nat, s: nat, now: int)
    requires Inv(cs) && s < |cs| && Candidate(cs[s], dev)
    ensures var (r, granted) := Award(cs, s, now);
            && Inv(r) && Served(r, dev, s)
            && (granted ==> (r[s].token.Grant? || Controls(r[s].token)) && SoleOwner(r, s))
  {
    TokenGrantKeeps(cs, s);
    TokenGrantFrame(cs, s);
    hide TokenGrant;
    var (g, granted) := TokenGrant(cs, s);
    if granted {
      assert SoleOwner(Started(g, s, now), s);
    } else if !Controls(cs[s].token) {
      assert Reclaiming(g, dev);
    }
  }

  /** The client the scheduler chooses, negative if there is none. */
  function Scheduled(cs: seq<Client>, dev: nat, switched: bool, now: int): (s: int)
    ensures s < |cs|
  {
    Schedule(StoppedAll(cs, dev, switched, now), dev, now).1
  }

  /** Reassigning the channel keeps the invariant. With background clients only, the client the scheduler
      chooses is served, if there is a candidate; TRUE means the request was granted. */
  lemma UpdateKeeps(cs: seq<Client>, dev: nat, req: int, switched: bool, now: int)
    requires Inv(cs) && req < |cs|
    ensures var (r, granted) := Update(cs, dev, req, switched, now);
            var s := Scheduled(cs, dev, switched, now);
            && Inv(r)
            && (granted ==> s == req >= 0 && SoleOwner(r, req) && (r[req].token.Grant? || Controls(r[req].token)))
            && (MaxPrio(cs, dev) > BACKGROUND ==>
                  !granted && forall i :: 0 <= i < |cs| && cs[i].dev == dev ==> !Controls(r[i].token))
            && (MaxPrio(cs, dev) == BACKGROUND ==>
                  && (s < 0 <==> forall i :: 0 <= i < |cs| ==> !Candidate(cs[i], dev))
                  && (s >= 0 ==> Candidate(cs[s], dev) && Served(r, dev, s)))
  {
    var max := MaxPrio(cs, dev);
    var stopped := StoppedAll(cs, dev, switched, now);
    StopKeeps(cs, dev, now, 0);
    hide StopFrom;
    if max == BACKGROUND {
      ScheduleKeeps(stopped, dev, now);
      var (scheduled, s) := Schedule(stopped, dev, now);
      hide Schedule;
      if s >= 0 {
        hide Award;
        AwardKeeps(scheduled, dev, s, now);
      }
    }
  }

  // The messages and other events of the daemon. Clients are named by their position.

  datatype Event =
    | Connect(dev: nat)
    | TokenRequest(k: nat, prio: int, profile: Profile, now: int)
    | Notify(k: nat, flush: bool, release: bool, token: bool, now: int)
    | ReclaimConfirm(k: nat, now: int)
    | SendPending(k: nat)
    | Close(k: nat, capturing: bool, now: int)
    | Timer(prios: seq<int>, now: int)  // the priorities of the devices

  predicate Refers(cs: seq<Client>, e: Event) {
    e.Connect? || e.Timer? || e.k < |cs|
  }

  function Requested(cs: seq<Client>, k: nat, prio: int, profile: Profile, now: int): (r: (seq<Client>, bool))
    requires k < |cs|
    ensures |r.0| == |cs|
  {
    var blank := Client(cs[k].dev, prio, profile, NoToken, false, 0, 0, 0);
    var u := Update(cs[k := blank], cs[k].dev, k, false, now).0;
    if u[k].token.Grant? then (WithToken(u, k, Granted), true) else (u, false)
  }

  function Noted(c: Client, release: bool, token: bool): Client {
    if release then c.(token := NoToken, profile := c.profile.(isValid := false))
    else if token then c.(token := Returned) else c
  }

  function Notified(cs: seq<Client>, k: nat, flush: bool, release: bool, token: bool, now: int): (r: seq<Client>)
    requires k < |cs|
    ensures |r| == |cs|
  {
    var c := cs[k];
    var switched := flush && !Controls(c.token);
    var changed := flush || (if release then !c.token.NoToken? else token);
    var c1 := Noted(c, release, token);
    if changed then Update(cs[k := c1], c.dev, k, switched, now).0 else cs[k := c1]
  }

  function Confirmed(cs: seq<Client>, k: nat, now: int): (r: seq<Client>)
    requires k < |cs|
    ensures |r| == |cs|
  {
    if cs[k].token.Release? then Update(WithToken(cs, k, NoToken), cs[k].dev, -1, false, now).0 else cs
  }

  function Sent(cs: seq<Client>, k: nat): seq<Client>
    requires k < |cs|
  {
    match cs[k].token
    case Reclaim => WithToken(cs, k, Release)
    case Grant => WithToken(cs, k, Granted)
    case _ => cs
  }

  function Closed(cs: seq<Client>, k: nat, capturing: bool, now: int): seq<Client>
    requires k < |cs|
  {
    var rest := cs[..k] + cs[k + 1..];
    if capturing then Update(rest, cs[k].dev, -1, false, now).0 else rest
  }

  function Users(cs: seq<Client>, dev: nat): nat {
    if cs == [] then 0 else Users(cs[..|cs| - 1], dev) + if cs[|cs| - 1].dev == dev then 1 else 0
  }

  /** Somebody has used the channel for as long as was reserved. */
  predicate Overdue(cs: seq<Client>, dev: nat, now: int) {
    exists i :: 0 <= i < |cs| && cs[i].dev == dev && Controls(cs[i].token) && Expired(cs[i], now)
  }

  predicate Due(cs: seq<Client>, dev: nat, prio: int, now: int) {
    prio == BACKGROUND && Overdue(cs, dev, now) && Users(cs, dev) > 1
  }

  /** The alarm has gone off: the channels of the devices from dev on are reassigned where that is
      due. */
  function TimerFrom(cs: seq<Client>, prios: seq<int>, dev: nat, now: int): (r: seq<Client>)
    requires dev <= |prios|
    ensures |r| == |cs|
    decreases |prios| - dev
  {
    if dev == |prios| then cs
    else TimerFrom(if Due(cs, dev, prios[dev], now) then Update(cs, dev, -1, false, now).0 else cs, prios, dev + 1, now)
  }

  function Step(cs: seq<Client>, e: Event): seq<Client>
    requires Refers(cs, e)
  {
    match e
    case Connect(dev) => cs + [NewClient(dev)]
    case TokenRequest(k, prio, profile, now) => Requested(cs, k, prio, profile, now).0
    case Notify(k, flush, release, token, now) => Notified(cs, k, flush, release, token, now)
    case ReclaimConfirm(k, now) => Confirmed(cs, k, now)
    case SendPending(k) => Sent(cs, k)
    case Close(k, capturing, now) => Closed(cs, k, capturing, now)
    case Timer(prios, now) => TimerFrom(cs, prios, 0, now)
  }

  /** A client reports the return of a token only while no other client has anything to do with it, as is
      the case if it returns one it has. */
  ghost predicate Conforming(cs: seq<Client>, e: Event) {
    Refers(cs, e) && (e.Notify? && e.token && !e.release ==> SoleOwner(cs, e.k))
  }

  /** Taking note of a returned token keeps the owner unique exactly if no other client has
      anything to do with it; a conforming client meets this. */
  lemma ReturnIsSafe(cs: seq<Client>, k: nat)
    requires OneOwner(cs) && k < |cs|
    ensures OneOwner(WithToken(cs, k, Returned)) <==> SoleOwner(cs, k)
    ensures !cs[k].token.NoToken? ==> SoleOwner(cs, k)
  {
    var r := WithToken(cs, k, Returned);
    if OneOwner(r) {
      forall i | 0 <= i < |cs| && i != k && cs[i].dev == cs[k].dev ensures cs[i].token.NoToken? {
        assert r[i] == cs[i] && r[k].token == Returned;
      }
    }
  }

  /** The first client reports the return of a token that the second one holds. */
  lemma TwoOwners()
    ensures var idle := NewClient(0);
            var cs := [idle, idle.(token := Granted)];
            OneOwner(cs) && !OneOwner(WithToken(cs, 0, Returned))
  {
    var idle := NewClient(0);
    var cs := [idle, idle.(token := Granted)];
    ReturnIsSafe(cs, 0);
    assert !cs[1].token.NoToken?;
  }

  lemma RequestKeeps(cs: seq<Client>, k: nat, prio: int, profile: Profile, now: int)
    requires Inv(cs) && k < |cs|
    ensures var (r, indicated) := Requested(cs, k, prio, profile, now);
            && Inv(r)
            && (indicated ==> r[k].token.Granted? && SoleOwner(r, k))
            && !r[k].token.Grant?
  {
    var blank := Client(cs[k].dev, prio, profile, NoToken, false, 0, 0, 0);
    UpdateKeeps(cs[k := blank], cs[k].dev, k, false, now);
    hide Update;
    var u := Update(cs[k := blank], cs[k].dev, k, false, now).0;
    if u[k].token.Grant? {
      assert SoleOwner(u, k);
    }
  }

  lemma NotifyKeeps(cs: seq<Client>, k: nat, flush: bool, release: bool, token: bool, now: int)
    requires Inv(cs) && k < |cs|
    requires token && !release ==> SoleOwner(cs, k)
    ensures Inv(Notified(cs, k, flush, release, token, now))
  {
    var c := cs[k];
    var c1 := Noted(c, release, token);
    UpdateKeeps(cs[k := c1], c.dev, k, flush && !Controls(c.token), now);
    hide Update;
  }

  lemma CloseKeeps(cs: seq<Client>, k: nat, capturing: bool, now: int)
    requires Inv(cs) && k < |cs|
    ensures Inv(Closed(cs, k, capturing, now))
  {
    UpdateKeeps(cs[..k] + cs[k + 1..], cs[k].dev, -1, false, now);
    hide Update;
  }

  lemma {:induction false} TimerKeeps(cs: seq<Client>, prios: seq<int>, dev: nat, now: int)
    requires Inv(cs) && dev <= |prios|
    ensures Inv(TimerFrom(cs, prios, dev, now))
    decreases |prios| - dev
  {
    hide Update;
    hide Due;
    hide Inv;
    if dev < |prios| {
      UpdateKeeps(cs, dev, -1, false, now);
      TimerKeeps(if Due(cs, dev, prios[dev], now) then Update(cs, dev, -1, false, now).0 else cs, prios, dev + 1, now);
    }
  }

  lemma StepKeeps(cs: seq<Client>, e: Event)
    requires Inv(cs) && Conforming(cs, e)
    ensures Inv(Step(cs, e))
  {
    match e
    case Connect(dev) =>
    case TokenRequest(k, prio, profile, now) => RequestKeeps(cs, k, prio, profile, now);
    case Notify(k, flush, release, token, now) =>
      NotifyKeeps(cs, k, flush, release, token, now);
    case ReclaimConfirm(k, now) =>
      UpdateKeeps(WithToken(cs, k, NoToken), cs[k].dev, -1, false, now);
    case SendPending(k) =>
    case Close(k, capturing, now) => CloseKeeps(cs, k, capturing, now);
    case Timer(prios, now) => TimerKeeps(cs, prios, 0, now);
  }

  /** A run of conforming events. */
  ghost predicate ConformingRun(cs: seq<Client>, es: seq<Event>)
    decreases |es|
  {
    es != [] ==> Conforming(cs, es[0]) && ConformingRun(Step(cs, es[0]), es[1..])
  }

  ghost function Run(cs: seq<Client>, es: seq<Event>): seq<Client>
    requires ConformingRun(cs, es)
    decreases |es|
  {
    if es == [] then cs else Run(Step(cs, es[0]), es[1..])
  }

  /** Over all runs of conforming clients at most one client of each device has anything to
      do with the token, so that at most one controls the channel, and the cycle counters
      stay within 0 to 2. */
  lemma {:induction false} OneOwnerInEveryRun(cs: seq<Client>, es: seq<Event>)
    requires Inv(cs) && ConformingRun(cs, es)
    ensures Inv(Run(cs, es))
    decreases |es|
  {
    if es != [] {
      StepKeeps(cs, es[0]);
      OneOwnerInEveryRun(Step(cs, es[0]), es[1..]);
    }
  }

  // The daemon itself.

  class Server {
    /** The connected clients, the latest one last. */
    var clients: seq<Client>

    constructor ()
      ensures clients == [] && Inv(clients)
    {
      clients := [];
    }

    /** The position of the owner, -1 if there is none. */
    method GetTokenOwner(dev: nat) returns (owner: int)
      requires OneOwner(clients)
      ensures owner == if Owner(clients, dev) < |clients| then Owner(clients, dev) else -1
      ensures forall i: nat :: IsOwner(clients, dev, i) <==> i == owner
    {
      OwnerIsUnique(clients, dev);
      owner := -1;
      for i := 0 to |clients|
        invariant owner == if Owner(clients, dev) < i then Owner(clients, dev) else -1
      {
        if clients[i].dev == dev && !clients[i].token.NoToken? {
          assert IsOwner(clients, dev, i);
          assert owner == -1;
          owner := i;
        }
      }
    }

    method SetToken(k: nat, t: TokenState)
      requires k < |clients|
      modifies this
      ensures clients == WithToken(old(clients), k, t)
    {
      clients := clients[k := clients[k].(token := t)];
    }

    method GrantToken(k: nat) returns (tokenFree: bool)
      requires k < |clients| && OneOwner(clients)
      modifies this
      ensures (clients, tokenFree) == TokenGrant(old(clients), k)
    {
      tokenFree := true;
      match clients[k].token {
        case NoToken =>
          var owner := GetTokenOwner(clients[k].dev);
          if owner < 0 || clients[owner].token.Grant? || clients[owner].token.Returned? {
            SetToken(k, Grant);
            if owner >= 0 {
              SetToken(owner, NoToken);
            }
          } else {
            if !clients[owner].token.Release? {
              SetToken(owner, Reclaim);
            }
            tokenFree := false;
          }
        case Grant =>
        case Reclaim => SetToken(k, Granted);
        case Release => SetToken(k, Grant);
        case Granted =>
        case Returned =>
      }
    }

    method LevelCycles(dev: nat)
      modifies this
      ensures clients == Leveled(old(clients), dev)
    {
      ghost var was := clients;
      for m := 0 to |clients|
        invariant |clients| == |was|
        invariant forall i :: 0 <= i < m ==> clients[i] == Leveled(was, dev)[i]
        invariant forall i :: m <= i < |was| ==> clients[i] == was[i]
      {
        if clients[m].dev == dev && clients[m].cycles > 0 {
          clients := clients[m := clients[m].(cycles := clients[m].cycles - 1)];
        }
      }
    }

    method FindMaximum(dev: nat) returns (found: bool)
      ensures found == SomeoneAtMaximum(clients, dev)
    {
      found := false;
      for i := 0 to |clients|
        invariant found <==> exists j :: 0 <= j < i && clients[j].dev == dev && clients[j].cycles >= 2
      {
        if clients[i].dev == dev && clients[i].cycles >= 2 {
          found := true;
          break;
        }
      }
    }

    method ChannelCompleted(k: nat, whence: int)
      requires k < |clients| && Controls(clients[k].token)
      modifies this
      ensures clients == Completed(old(clients), k, whence)
    {
      var c := clients[k];
      clients := clients[k := c.(lastDuration := whence - c.lastStart, completed := true, cycles := c.cycles + 1)];
      if clients[k].cycles > 2 {
        LevelCycles(c.dev);
      } else if clients[k].cycles == 1 {
        var found := FindMaximum(c.dev);
        if found {
          clients := clients[k := clients[k].(cycles := 2)];
        }
      }
    }

    method ChannelStopped(k: nat, now: int)
      requires k < |clients| && Controls(clients[k].token)
      modifies this
      ensures clients == Stopped(old(clients), k, now)
    {
      CompletedKeepsTokens(clients, k, now);
      if Expired(clients[k], now) {
        ChannelCompleted(k, now);
      }
      clients := clients[k := clients[k].(completed := false)];
      if clients[k].token.Granted? {
        SetToken(k, Reclaim);
      } else {
        SetToken(k, NoToken);
      }
    }

    /** The client that gets the channel, -1 if none asks for it. */
    method ChannelSchedule(dev: nat, now: int) returns (sched: int)
      modifies this
      ensures (clients, sched) == Schedule(old(clients), dev, now)
    {
      hide Completed;
      hide Stopped;
      sched := -1;
      var active := -1;
      for m := 0 to |clients|
        invariant |clients| == |old(clients)|
        invariant sched < |clients| && active < |clients|
        invariant active >= 0 ==> Controls(clients[active].token)
        invariant WalkFrom(Walk(clients, sched, active), dev, now, m)
            == WalkFrom(Walk(old(clients), -1, -1), dev, now, 0)
      {
        if Candidate(clients[m], dev) {
          if Controls(clients[m].token) {
            CompletedKeepsTokens(clients, m, now);
            if Expired(clients[m], now) {
              ChannelCompleted(m, now);
            }
            active := m;
          }
          if sched < 0 || Prefers(clients[m], clients[sched]) {
            sched := m;
          }
        }
      }
      if sched != active && active >= 0 {
        ChannelStopped(active, now);
      }
    }

    method FindMaxPrio(dev: nat) returns (max: int)
      ensures max == MaxPrio(clients, dev)
    {
      max := BACKGROUND;
      for m := 0 to |clients|
        invariant max == MaxPrio(clients[..m], dev)
      {
        assert clients[..m + 1][..m] == clients[..m];
        if clients[m].dev == dev && clients[m].prio > max {
          max := clients[m].prio;
        }
      }
      assert clients[..|clients|] == clients;
    }

    method StopAll(dev: nat, now: int)
      modifies this
      ensures clients == StopFrom(old(clients), dev, now, 0)
    {
      hide Stopped;
      for m := 0 to |clients|
        invariant |clients| == |old(clients)|
        invariant StopFrom(clients, dev, now, m) == StopFrom(old(clients), dev, now, 0)
      {
        if clients[m].dev == dev && Controls(clients[m].token) {
          ChannelStopped(m, now);
        }
      }
    }

    /** Reassigns the channel. Only background clients are scheduled, others switch channels
        on their own. */
    method ChannelUpdate(dev: nat, req: int, switched: bool, now: int) returns (result: bool)
      requires Inv(clients) && req < |clients|
      modifies this
      ensures (clients, result) == Update(old(clients), dev, req, switched, now)
      ensures Inv(clients) && |clients| == |old(clients)|
    {
      hide Schedule;
      hide StopFrom;
      UpdateKeeps(clients, dev, req, switched, now);
      StopKeeps(clients, dev, now, 0);
      result := false;
      var max := FindMaxPrio(dev);
      if max > BACKGROUND || switched {
        StopAll(dev, now);
      }
      ScheduleKeeps(clients, dev, now);
      var sched := -1;
      if max == BACKGROUND {
        sched := ChannelSchedule(dev, now);
      } else if req >= 0 && clients[req].prio == max {
        sched := req;
      }
      if sched >= 0 && max == BACKGROUND && !Controls(clients[sched].token) {
        var tokenFree := GrantToken(sched);
        if tokenFree {
          clients := clients[sched := clients[sched].(completed := false, lastDuration := 0, lastStart := now)];
          result := sched == req;
        }
      }
    }

    method AddConnection(dev: nat)
      requires Inv(clients)
      modifies this
      ensures clients == Step(old(clients), Connect(dev)) && Inv(clients)
    {
      StepKeeps(clients, Connect(dev));
      clients := clients + [NewClient(dev)];
    }

    /** The client asks for the channel. TRUE means it may switch it at once. */
    method TakeTokenRequest(k: nat, prio: int, profile: Profile, now: int) returns (indicated: bool)
      requires Inv(clients) && k < |clients|
      modifies this
      ensures (clients, indicated) == Requested(old(clients), k, prio, profile, now)
      ensures Inv(clients) && |clients| == |old(clients)|
          && (indicated ==> clients[k].token.Granted? && SoleOwner(clients, k))
    {
      hide Update;
      RequestKeeps(clients, k, prio, profile, now);
      clients := clients[k := Client(clients[k].dev, prio, profile, NoToken, false, 0, 0, 0)];
      var result := ChannelUpdate(clients[k].dev, k, false, now);
      indicated := clients[k].token.Grant?;
      if indicated {
        SetToken(k, Granted);
      }
    }

    /** The client has changed the channel, returns the token or gives up the channel. */
    method TakeNotify(k: nat, flush: bool, release: bool, token: bool, now: int)
      requires Inv(clients) && Conforming(clients, Notify(k, flush, release, token, now))
      modifies this
      ensures clients == Step(old(clients), Notify(k, flush, release, token, now)) && Inv(clients)
    {
      hide Update;
      StepKeeps(clients, Notify(k, flush, release, token, now));
      ghost var was := clients;
      var update, switched := false, false;
      if flush {
        update := true;
        switched := !Controls(clients[k].token);
      }
      if release {
        if !clients[k].token.NoToken? {
          SetToken(k, NoToken);
          update := true;
        }
        clients := clients[k := clients[k].(profile := clients[k].profile.(isValid := false))];
      } else if token {
        SetToken(k, Returned);
        update := true;
      }
      assert clients == was[k := Noted(was[k], release, token)];
      if update {
        var result := ChannelUpdate(clients[k].dev, k, switched, now);
      }
    }

    method TakeReclaimConfirm(k: nat, now: int)
      requires Inv(clients) && k < |clients|
      modifies this
      ensures clients == Step(old(clients), ReclaimConfirm(k, now)) && Inv(clients)
    {
      hide Update;
      if clients[k].token.Release? {
        SetToken(k, NoToken);
        var result := ChannelUpdate(clients[k].dev, -1, false, now);
      }
    }

    /** The socket of the client can be written. */
    method SendPendingMessage(k: nat)
      requires Inv(clients) && k < |clients|
      modifies this
      ensures clients == Step(old(clients), SendPending(k)) && Inv(clients)
    {
      StepKeeps(clients, SendPending(k));
      if clients[k].token.Reclaim? {
        SetToken(k, Release);
      } else if clients[k].token.Grant? {
        SetToken(k, Granted);
      }
    }

    method RemoveConnection(k: nat, capturing: bool, now: int)
      requires Inv(clients) && k < |clients|
      modifies this
      ensures clients == Step(old(clients), Close(k, capturing, now)) && Inv(clients)
    {
      hide Update;
      var dev := clients[k].dev;
      clients := clients[..k] + clients[k + 1..];
      if capturing {
        var result := ChannelUpdate(dev, -1, false, now);
      }
    }

    /** Whether the reservation of a client in control of the channel has run out, and how many clients
        the device has. */
    method CheckReservations(dev: nat, now: int) returns (doSchedule: bool, userCount: nat)
      ensures doSchedule == Overdue(clients, dev, now) && userCount == Users(clients, dev)
    {
      doSchedule, userCount := false, 0;
      for m := 0 to |clients|
        invariant doSchedule == Overdue(clients[..m], dev, now) && userCount == Users(clients[..m], dev)
      {
        assert clients[..m + 1][..m] == clients[..m];
        OverdueMore(clients, m, dev, now);
        if clients[m].dev == dev {
          if Controls(clients[m].token) && !clients[m].completed
             && now - clients[m].lastStart >= clients[m].profile.minDuration {
            doSchedule := true;
          }
          userCount := userCount + 1;
        }
      }
      assert clients[..|clients|] == clients;
    }

    /** Looks for expired reservations on all devices. */
    method ChannelTimer(prios: seq<int>, now: int)
      requires Inv(clients)
      modifies this
      ensures clients == Step(old(clients), Timer(prios, now)) && Inv(clients)
    {
      hide Update;
      for dev := 0 to |prios|
        invariant Inv(clients)
        invariant TimerFrom(clients, prios, dev, now) == TimerFrom(old(clients), prios, 0, now)
      {
        if prios[dev] == BACKGROUND {
          var doSchedule, userCount := CheckReservations(dev, now);
          if doSchedule && userCount > 1 {
            var result := ChannelUpdate(dev, -1, false, now);
          }
        }
      }
    }
  }

  lemma OverdueMore(cs: seq<Client>, m: nat, dev: nat, now: int)
    requires m < |cs|
    ensures Overdue(cs[..m + 1], dev, now)
       <==> Overdue(cs[..m], dev, now) || (cs[m].dev == dev && Controls(cs[m].token) && Expired(cs[m], now))
  {
    var a, b := cs[..m], cs[..m + 1];
    assert forall i :: 0 <= i < m ==> b[i] == a[i];
    if Overdue(a, dev, now) {
      var i :| 0 <= i < |a| && a[i].dev == dev && Controls(a[i].token) && Expired(a[i], now);
      assert b[i] == a[i];
    }
    if cs[m].dev == dev && Controls(cs[m].token) && Expired(cs[m], now) {
      assert b[m] == cs[m];
    }
  }
}
