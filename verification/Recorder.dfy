/** A video recorder controlled by VPS and PDC labels (EN 300 231): its four states, timer control
    when the labels are lost, the delayed stop and the recording schedule. The requirements of the
    functions below are the assertions of the program. */
module Recorder {
  import opened Options
  import opened LinkedLists

  datatype State =
    | Stby  // asleep
    | Scan  // searching for a label
    | Ptr   // a program is about to begin
    | Rec   // recording

  /** A program identification label as received. */
  datatype Pid = Pid(channel: nat, pil: nat, luf: bool, mi: bool, prf: bool)

  const NO_PID := Pid(0, 0, false, false, false)

  /** What was last received on a label channel, pil is zero if there is no signal. */
  datatype Label = Label(pil: nat, lastAt: real)

  datatype Program = Program(
    start: int, end: int, pil: nat, validStart: int, validEnd: int, continues: bool)

  datatype Vcr = Vcr(
    audience: int,               // time of the audience
    time: real,                  // time of the last captured frame
    labels: seq<Label>,
    state: State,
    since: real,                 // time of the last change of state
    timer: bool,                 // recording by time instead of labels
    stopAt: Option<real>,        // a planned stop
    stopPid: Pid,                // what caused it
    schedule: seq<Id>,
    programs: map<Id, Program>,
    current: Option<Id>,
    pid: Pid)                    // the label that selected the current program

  const CHANNELS := 8
  const VPS := 4

  // Service codes: month 15, day 0, hours 31 to 28, minute 63.
  const TIMER_CONTROL := 0x7FFF
  const INHIBIT_TERMINATE := 0x7FBF
  const INTERRUPTION := 0x7F7F
  const CONTINUE := 0x7F3F

  predicate IsServiceCode(pil: nat) {
    pil == TIMER_CONTROL || pil == CONTINUE || pil == INTERRUPTION || pil == INHIBIT_TERMINATE
  }

  /** A conversion of floating point time to whole seconds. */
  function Seconds(t: real): int {
    if t >= 0.0 then t.Floor else -((-t).Floor)
  }

  function Min(a: real, b: real): real {
    if a < b then a else b
  }

  // Invariants.

  predicate Busy(s: State) {
    s.Ptr? || s.Rec?
  }

  ghost predicate Listed(schedule: seq<Id>, programs: map<Id, Program>) {
    Tracks(schedule, programs.Keys)
  }

  predicate OnSchedule(current: Option<Id>, programs: map<Id, Program>) {
    current.Some? ==> current.value in programs
  }

  /** What the assertions of the program rely on. */
  ghost predicate Consistent(s: Vcr) {
    && (s.timer ==> !s.state.Ptr?)
    && (Busy(s.state) ==> s.current.Some?)
    && OnSchedule(s.current, s.programs)
    && (s.stopAt.Some? ==> s.state.Rec?)
    && Listed(s.schedule, s.programs)
    && |s.labels| == CHANNELS && s.pid.channel < CHANNELS
  }

  predicate Planned(programs: map<Id, Program>) {
    forall id <- programs :: programs[id].pil != 0 && programs[id].start <= programs[id].end
  }

  predicate Past(labels: seq<Label>, time: real) {
    forall i :: 0 <= i < |labels| ==> labels[i].lastAt <= time
  }

  /** The current program is the one its label names, except in a recording by timer, which will
      end. */
  predicate Identified(s: Vcr)
    requires OnSchedule(s.current, s.programs) && (Busy(s.state) ==> s.current.Some?)
  {
    Busy(s.state) ==>
      var p := s.programs[s.current.value];
      if s.timer && s.stopAt.None? then s.pid.pil == 0 && p.start < p.end
      else s.pid.pil == p.pil || (s.timer && s.pid.pil == 0)
  }

  /** What does not depend on the times and labels of the programs. */
  ghost predicate Steady(s: Vcr) {
    && Consistent(s)
    && s.since <= s.time
    && Past(s.labels, s.time)
    && (s.stopAt.Some? ==> s.stopAt.value <= s.time + 31.0)
  }

  ghost predicate Valid(s: Vcr) {
    Steady(s) && Planned(s.programs) && Identified(s)
  }

  /** Clocks and label channels stay as they were. */
  predicate Unmoved(s: Vcr, r: Vcr) {
    r.time == s.time && r.audience == s.audience && r.labels == s.labels
  }

  // The schedule.

  function Remove(s: Vcr, id: Id): (r: Vcr)
    requires s.current == Some(id) ==> s.state.Stby? || s.state.Scan?
    requires Consistent(s)
    ensures Unmoved(s, r)
    ensures Consistent(r) && r.programs == s.programs - {id}
  {
    WithoutTracks(s.schedule, s.programs.Keys, id);
    s.(current := if s.current == Some(id) then None else s.current,
       schedule := Without(s.schedule, id), programs := s.programs - {id})
  }

  predicate Stale(p: Program, audience: int) {
    audience >= p.end && audience >= p.validEnd
  }

  function RemoveStale(s: Vcr, list: seq<Id>): (r: Vcr)
    requires s.state.Stby? && Consistent(s)
    ensures Unmoved(s, r)
    ensures Consistent(r) && r.state.Stby?
    decreases |list|
  {
    if list == [] then s
    else if list[0] in s.programs && Stale(s.programs[list[0]], s.audience) then
      RemoveStale(Remove(s, list[0]), list[1..])
    else RemoveStale(s, list[1..])
  }

  function FindByPil(schedule: seq<Id>, programs: map<Id, Program>, pil: nat): (r: Option<Id>)
    requires forall id <- schedule :: id in programs
    ensures r.Some? ==> r.value in schedule && programs[r.value].pil == pil
    ensures r.None? ==> forall id <- schedule :: programs[id].pil != pil
  {
    if schedule == [] then None
    else if programs[schedule[0]].pil == pil then Some(schedule[0])
    else FindByPil(schedule[1..], programs, pil)
  }

  // Changes of state.

  function Enter(s: Vcr, state: State): Vcr {
    if state == s.state then s else s.(state := state, since := s.time)
  }

  function StopNow(s: Vcr): (r: Vcr)
    requires s.state.Rec? && Consistent(s)
    ensures Unmoved(s, r)
    ensures Consistent(r)
  {
    Enter(s, Scan).(stopAt := None)
  }

  function StopLater(s: Vcr, pid: Option<Pid>): (r: Vcr)
    requires s.state.Rec? && Consistent(s)
    ensures Unmoved(s, r)
    ensures Consistent(r)
  {
    s.(stopPid := if pid.None? then NO_PID else pid.value,
       stopAt := Some(if pid.None? && s.pid.pil != 0 then s.labels[s.pid.channel].lastAt + 31.0 else s.time + 30.0))
  }

  function StartByPil(s: Vcr, id: Id, pid: Pid): (r: Vcr)
    requires !s.timer && (s.state.Scan? || s.state.Ptr?)
    requires Consistent(s) && id in s.programs && pid.channel < CHANNELS
    ensures Unmoved(s, r)
    ensures Consistent(r)
  {
    var p := s.programs[id];
    var q :=
      if p.continues then p
      else p.(end := p.end + (s.audience - p.start), start := s.audience, continues := true);
    var t := s.(programs := s.programs[id := q]);
    assert t.programs.Keys == s.programs.Keys;
    Enter(t, Rec).(current := Some(id), pid := pid)
  }

  function PrepareByPil(s: Vcr, id: Id, pid: Pid): (r: Vcr)
    requires !s.timer && s.state.Scan?
    requires Consistent(s) && id in s.programs && pid.channel < CHANNELS
    ensures Unmoved(s, r)
    ensures Consistent(r)
  {
    Enter(s, Ptr).(current := Some(id), pid := pid)
  }

  function StartByTimer(s: Vcr, id: Id): (r: Vcr)
    requires s.timer && s.state.Scan?
    requires Consistent(s) && id in s.programs
    ensures Unmoved(s, r)
    ensures Consistent(r)
  {
    Enter(s, Rec).(current := Some(id), pid := NO_PID)
  }

  function RemoveIfEnded(s: Vcr, id: Id, pid: Option<Pid>): (r: Vcr)
    requires s.state.Scan? && Consistent(s)
    ensures Unmoved(s, r)
    ensures Consistent(r) && r.state == s.state && r.timer == s.timer
  {
    if s.timer || (pid.Some? && pid.value.pil == INTERRUPTION) then s else Remove(s, id)
  }

  /** A recording that was about to begin starts now. */
  function StartUnseen(s: Vcr): (r: Vcr)
    requires s.state.Ptr? && s.timer && s.current.Some?
    requires Consistent(s.(timer := false))
    ensures Unmoved(s, r)
    ensures Consistent(r)
  {
    var p := s.programs[s.current.value];
    var planned := p.end - p.start + s.audience;
    var q := p.(end := Seconds(planned as real + (60.0 - Min(s.since - s.time, 60.0))), start := s.audience);
    var t := s.(programs := s.programs[s.current.value := q]);
    assert t.programs.Keys == s.programs.Keys;
    Enter(t, Rec).(pid := NO_PID)
  }

  function ServiceLost(s: Vcr): (r: Vcr)
    requires !s.state.Stby? && Consistent(s)
    ensures Unmoved(s, r)
    ensures Consistent(r) && r.timer && !r.state.Stby?
  {
    if s.timer then s else
    var t := s.(timer := true);
    if s.state.Scan? then t
    else if s.state.Ptr? then StartUnseen(t)
    else if s.stopAt.Some? then t
    else if s.programs[s.current.value].start == s.programs[s.current.value].end then StopLater(t, None)
    else t.(pid := NO_PID)
  }

  /** The service codes INT and RI/T carry the mode in which they end a program. */
  function EndsAtOnce(s: Vcr, pid: Option<Pid>): bool {
    if pid.Some? && !pid.value.luf && (pid.value.pil == INTERRUPTION || pid.value.pil == INHIBIT_TERMINATE)
    then pid.value.mi
    else s.pid.pil == 0 || s.pid.mi
  }

  function NoLongerTransmitted(s: Vcr, pid: Option<Pid>): (r: Vcr)
    requires Busy(s.state) && !s.timer && Consistent(s)
    ensures Unmoved(s, r)
    ensures Consistent(r) && !r.timer && (r.state.Scan? || r.state.Rec?) && (s.state.Ptr? ==> r.state.Scan?)
  {
    if s.state.Ptr? then Enter(s, Scan)
    else if s.stopAt.Some? then s
    else if EndsAtOnce(s, pid) then RemoveIfEnded(StopNow(s), s.current.value, pid)
    else StopLater(s, pid)
  }

  // Labels.

  function ReceivedEnd(s: Vcr, pid: Pid): (r: Vcr)
    requires !s.state.Stby? && Consistent(s)
    ensures Unmoved(s, r)
    ensures Consistent(r) && !r.state.Stby?
  {
    if s.state.Scan? then s.(timer := false)
    else if s.timer || pid.channel != s.pid.channel then s
    else NoLongerTransmitted(s, Some(pid))
  }

  /** The program the label names begins or is about to. */
  function Select(s: Vcr, pid: Pid): (r: Vcr)
    requires s.state.Scan? && !s.timer && Consistent(s) && pid.channel < CHANNELS
    ensures Unmoved(s, r)
    ensures Consistent(r) && !r.state.Stby?
  {
    var found := FindByPil(s.schedule, s.programs, pid.pil);
    if found.None? then s
    else if pid.prf then PrepareByPil(s, found.value, pid)
    else StartByPil(s, found.value, pid)
  }

  function ReceivedInPtr(s: Vcr, pid: Pid): (r: Vcr)
    requires s.state.Ptr? && Consistent(s) && pid.channel < CHANNELS
    ensures Unmoved(s, r)
    ensures Consistent(r) && !r.state.Stby?
  {
    if pid.channel != s.pid.channel then s
    else if pid.luf then NoLongerTransmitted(s, Some(pid))
    else if pid.pil != s.pid.pil then Select(NoLongerTransmitted(s, Some(pid)), pid)
    else if pid.prf && s.time < s.since + 60.0 then s
    else StartByPil(s, s.current.value, pid)
  }

  function ReceivedInTimerRec(s: Vcr, pid: Pid): (r: Vcr)
    requires s.state.Rec? && s.timer && Consistent(s) && pid.channel < CHANNELS
    ensures Unmoved(s, r)
    ensures Consistent(r) && !r.state.Stby?
  {
    if pid.luf then s else
    var found := FindByPil(s.schedule, s.programs, pid.pil);
    if found == s.current then s.(timer := false, pid := pid, stopAt := None)
    else if found.None? then StopLater(s, None)
    else Select(StopNow(s.(timer := false)), pid)
  }

  function ReceivedInRec(s: Vcr, pid: Pid): (r: Vcr)
    requires s.state.Rec? && !s.timer && Consistent(s) && pid.channel < CHANNELS
    ensures Unmoved(s, r)
    ensures Consistent(r) && !r.state.Stby?
  {
    if pid.channel != s.pid.channel then s
    else if pid.luf then NoLongerTransmitted(s, Some(pid))
    else if pid.pil == s.pid.pil then s.(stopAt := None)
    else
      var t := NoLongerTransmitted(s, Some(pid));
      if t.state.Scan? then Select(t, pid) else t
  }

  function ReceivedPil(s: Vcr, pid: Pid): (r: Vcr)
    requires !s.state.Stby? && Consistent(s) && pid.channel < CHANNELS
    ensures Unmoved(s, r)
    ensures Consistent(r) && !r.state.Stby?
  {
    if s.state.Scan? then
      var t := s.(timer := false);
      if pid.luf then t else Select(t, pid)
    else if s.state.Ptr? then ReceivedInPtr(s, pid)
    else if s.timer then ReceivedInTimerRec(s, pid)
    else ReceivedInRec(s, pid)
  }

  predicate TeletextAvailable(labels: seq<Label>)
    requires |labels| == CHANNELS
  {
    labels[0].pil != 0 || labels[1].pil != 0 || labels[2].pil != 0 || labels[3].pil != 0
  }

  function Act(s: Vcr, pid: Pid): (r: Vcr)
    requires !s.state.Stby? && Consistent(s) && pid.channel < CHANNELS
    ensures Unmoved(s, r)
    ensures Consistent(r) && !r.state.Stby?
  {
    if pid.pil == TIMER_CONTROL || pid.pil == CONTINUE then ServiceLost(s)
    else if pid.pil == INTERRUPTION || pid.pil == INHIBIT_TERMINATE then ReceivedEnd(s, pid)
    else ReceivedPil(s, pid)
  }

  function Received(s: Vcr, pid: Pid): (r: Vcr)
    requires !s.state.Stby? && Consistent(s)
    ensures Consistent(r) && !r.state.Stby?
  {
    if pid.channel > VPS then s else
    var t := if pid.channel == VPS && TeletextAvailable(s.labels) then s else Act(s, pid);
    t.(labels := t.labels[pid.channel := Label(pid.pil, t.time)])
  }

  // Once a second.

  function Timeout(channel: nat): real {
    if channel < VPS then 2.0 else if channel == VPS then 3.0 / 25.0 else 0.0
  }

  predicate Lost(labels: seq<Label>, time: real, i: nat) {
    i < |labels| && labels[i].pil != 0 && time >= labels[i].lastAt + Timeout(i)
  }

  predicate Active(labels: seq<Label>, time: real, i: nat) {
    i < |labels| && labels[i].pil != 0 && time < labels[i].lastAt + Timeout(i)
  }

  function LostChannels(labels: seq<Label>, time: real): set<nat> {
    set i: nat | i < |labels| && Lost(labels, time, i)
  }

  function ActiveChannels(labels: seq<Label>, time: real): set<nat> {
    set i: nat | i < |labels| && Active(labels, time, i)
  }

  function Cleared(labels: seq<Label>, time: real): seq<Label> {
    seq(|labels|, i requires 0 <= i < |labels| => if Lost(labels, time, i) then Label(0, time) else labels[i])
  }

  /** Of the Teletext channels only the first is looked at here. */
  function FallBack(s: Vcr): Vcr
    requires |s.labels| == CHANNELS
  {
    if ActiveChannels(s.labels, s.time) == {VPS} && Lost(s.labels, s.time, 0) && s.pid.pil == s.labels[VPS].pil
    then s.(pid := s.pid.(channel := VPS)) else s
  }

  function SignalCheck(s: Vcr): (r: Vcr)
    requires !s.state.Stby? && Consistent(s)
    ensures Consistent(r) && !r.state.Stby?
  {
    if s.timer then s else
    var t :=
      if ActiveChannels(s.labels, s.time) == {} then
        if LostChannels(s.labels, s.time) != {} then ServiceLost(s) else s
      else
        var u := FallBack(s);
        if Busy(u.state) && u.pid.pil != 0 && Lost(u.labels, u.time, u.pid.channel) then NoLongerTransmitted(u, None)
        else u;
    t.(labels := Cleared(s.labels, s.time))
  }

  function FindByTime(schedule: seq<Id>, programs: map<Id, Program>, audience: int): (r: Option<Id>)
    requires forall id <- schedule :: id in programs
    ensures r.Some? ==> r.value in schedule && programs[r.value].start <= audience < programs[r.value].end
    ensures r.None? ==> forall id <- schedule :: !(programs[id].start <= audience < programs[id].end)
  {
    if schedule == [] then None
    else if programs[schedule[0]].start <= audience < programs[schedule[0]].end then Some(schedule[0])
    else FindByTime(schedule[1..], programs, audience)
  }

  function StartScheduled(s: Vcr): (r: Vcr)
    requires s.timer && s.state.Scan? && Consistent(s)
    ensures Consistent(r) && !r.state.Stby?
  {
    var found := FindByTime(s.schedule, s.programs, s.audience);
    if found.Some? then StartByTimer(s, found.value) else s
  }

  function TimerControl(s: Vcr): (r: Vcr)
    requires s.timer && !s.state.Stby? && Consistent(s)
    ensures Consistent(r) && !r.state.Stby?
  {
    if s.state.Scan? then StartScheduled(s)
    else if s.stopAt.Some? || s.audience < s.programs[s.current.value].end then s
    else StartScheduled(Remove(StopNow(s), s.current.value))
  }

  // A captured frame and the time between captures.

  function NextFrame(s: Vcr, time: real): (r: Vcr)
    requires !s.state.Stby? && Consistent(s)
    ensures Consistent(r) && !r.state.Stby?
  {
    var t := s.(time := time, audience := Seconds(time));
    if s.state.Rec? && s.stopAt.Some? && time >= s.stopAt.value
    then RemoveIfEnded(StopNow(t), s.current.value, Some(s.stopPid)) else t
  }

  function OnceASecond(s: Vcr): (r: Vcr)
    requires !s.state.Stby? && Consistent(s)
    ensures Consistent(r) && !r.state.Stby?
  {
    var t := SignalCheck(s);
    if t.timer then TimerControl(t) else t
  }

  predicate InWindow(p: Program, audience: int) {
    p.start <= audience < p.end || p.validStart <= audience < p.validEnd
  }

  predicate AnyInWindow(s: Vcr) {
    exists id <- s.programs :: InWindow(s.programs[id], s.audience)
  }

  function EndOfFrame(s: Vcr): (r: Vcr)
    requires !s.state.Stby? && Consistent(s)
    ensures Consistent(r)
  {
    if s.state.Scan? && !AnyInWindow(s) then Enter(s, Stby) else s
  }

  /** The earliest time a program of the list may begin. */
  function FirstScan(list: seq<Id>, programs: map<Id, Program>): (r: int)
    requires list != [] && forall id <- list :: id in programs
    ensures forall id <- list :: r <= programs[id].start && r <= programs[id].validStart
    ensures exists id <- list :: r == programs[id].start || r == programs[id].validStart
  {
    var p := programs[list[0]];
    var first := if p.validStart < p.start then p.validStart else p.start;
    if |list| == 1 then first else
    var rest := FirstScan(list[1..], programs);
    if rest < first then rest else first
  }

  /** Programs that are over leave the schedule; the recorder sleeps until the first of the others
      may begin, and starts capturing. With an empty schedule it stays in standby. */
  function Wake(s: Vcr, now: int, woken: int): (r: Vcr)
    requires s.state.Stby? && Consistent(s)
    ensures Consistent(r)
  {
    var t := RemoveStale(s.(audience := now), s.schedule);
    if t.schedule == [] then t else
    var first := FirstScan(t.schedule, t.programs);
    Enter(t.(audience := if first > now then woken else now), Scan)
  }
}
