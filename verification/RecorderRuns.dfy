/** What holds in every run of the video recorder. */
module RecorderRuns {
  import opened Options
  import opened LinkedLists
  import opened Recorder

  // Every step keeps the recorder steady, and valid if its programs are planned well.

  lemma RemoveKeeps(s: Vcr, id: Id)
    requires Steady(s) && !Busy(s.state)
    ensures Steady(Remove(s, id)) && (Valid(s) ==> Valid(Remove(s, id)))
  {
  }

  lemma {:induction false} RemoveStaleKeeps(s: Vcr, list: seq<Id>)
    requires Steady(s) && s.state.Stby?
    ensures Steady(RemoveStale(s, list)) && (Valid(s) ==> Valid(RemoveStale(s, list)))
    decreases |list|
  {
    if list != [] {
      if list[0] in s.programs && Stale(s.programs[list[0]], s.audience) {
        RemoveKeeps(s, list[0]);
        RemoveStaleKeeps(Remove(s, list[0]), list[1..]);
      } else {
        RemoveStaleKeeps(s, list[1..]);
      }
    }
  }

  lemma StartByPilKeeps(s: Vcr, id: Id, pid: Pid)
    requires Steady(s) && !s.timer && (s.state.Scan? || s.state.Ptr?)
    requires id in s.programs && pid.channel < CHANNELS
    ensures Steady(StartByPil(s, id, pid))
    ensures Valid(s) && s.programs[id].pil == pid.pil ==> Valid(StartByPil(s, id, pid))
  {
  }

  lemma StartUnseenKeeps(s: Vcr)
    requires s.state.Ptr? && s.timer && Steady(s.(timer := false))
    ensures Steady(StartUnseen(s)) && (Valid(s.(timer := false)) ==> Valid(StartUnseen(s)))
  {
  }

  lemma ServiceLostKeeps(s: Vcr)
    requires Steady(s) && !s.state.Stby?
    ensures Steady(ServiceLost(s)) && (Valid(s) ==> Valid(ServiceLost(s)))
  {
    if s.state.Ptr? && !s.timer {
      StartUnseenKeeps(s.(timer := true));
    }
  }

  lemma NoLongerTransmittedKeeps(s: Vcr, pid: Option<Pid>)
    requires Steady(s) && Busy(s.state) && !s.timer
    ensures Steady(NoLongerTransmitted(s, pid)) && (Valid(s) ==> Valid(NoLongerTransmitted(s, pid)))
  {
  }

  lemma SelectKeeps(s: Vcr, pid: Pid)
    requires Steady(s) && s.state.Scan? && !s.timer && pid.channel < CHANNELS
    ensures Steady(Select(s, pid)) && (Valid(s) ==> Valid(Select(s, pid)))
  {
    var found := FindByPil(s.schedule, s.programs, pid.pil);
    if found.Some? && !pid.prf {
      StartByPilKeeps(s, found.value, pid);
    }
  }

  lemma ReceivedInPtrKeeps(s: Vcr, pid: Pid)
    requires Steady(s) && s.state.Ptr? && pid.channel < CHANNELS
    ensures Steady(ReceivedInPtr(s, pid)) && (Valid(s) ==> Valid(ReceivedInPtr(s, pid)))
  {
    hide Select;
    hide StartByPil;
    NoLongerTransmittedKeeps(s, Some(pid));
    if pid.channel == s.pid.channel && !pid.luf {
      if pid.pil != s.pid.pil {
        SelectKeeps(NoLongerTransmitted(s, Some(pid)), pid);
      } else {
        StartByPilKeeps(s, s.current.value, pid);
      }
    }
  }

  lemma ReceivedInTimerRecKeeps(s: Vcr, pid: Pid)
    requires Steady(s) && s.state.Rec? && s.timer && pid.channel < CHANNELS
    ensures Steady(ReceivedInTimerRec(s, pid)) && (Valid(s) ==> Valid(ReceivedInTimerRec(s, pid)))
  {
    hide Select;
    if !pid.luf {
      var found := FindByPil(s.schedule, s.programs, pid.pil);
      if found.Some? && found != s.current {
        SelectKeeps(StopNow(s.(timer := false)), pid);
      }
    }
  }

  lemma ReceivedInRecKeeps(s: Vcr, pid: Pid)
    requires Steady(s) && s.state.Rec? && !s.timer && pid.channel < CHANNELS
    ensures Steady(ReceivedInRec(s, pid)) && (Valid(s) ==> Valid(ReceivedInRec(s, pid)))
  {
    hide Select;
    NoLongerTransmittedKeeps(s, Some(pid));
    if NoLongerTransmitted(s, Some(pid)).state.Scan? {
      SelectKeeps(NoLongerTransmitted(s, Some(pid)), pid);
    }
  }

  lemma ActKeeps(s: Vcr, pid: Pid)
    requires Steady(s) && !s.state.Stby? && pid.channel < CHANNELS
    ensures Steady(Act(s, pid)) && (Valid(s) ==> Valid(Act(s, pid)))
  {
    hide Select;
    hide ServiceLost;
    hide ReceivedInPtr;
    hide ReceivedInTimerRec;
    hide ReceivedInRec;
    ServiceLostKeeps(s);
    if Busy(s.state) && !s.timer {
      NoLongerTransmittedKeeps(s, Some(pid));
    }
    if s.state.Scan? {
      SelectKeeps(s.(timer := false), pid);
    } else if s.state.Ptr? {
      ReceivedInPtrKeeps(s, pid);
    } else if s.timer {
      ReceivedInTimerRecKeeps(s, pid);
    } else {
      ReceivedInRecKeeps(s, pid);
    }
  }

  lemma ReceivedKeeps(s: Vcr, pid: Pid)
    requires Steady(s) && !s.state.Stby?
    ensures Steady(Received(s, pid)) && (Valid(s) ==> Valid(Received(s, pid)))
  {
    hide Act;
    if pid.channel <= VPS {
      ActKeeps(s, pid);
    }
  }

  lemma FallBackKeeps(s: Vcr)
    requires Steady(s) && !s.timer
    ensures Steady(FallBack(s)) && (Valid(s) ==> Valid(FallBack(s)))
  {
  }

  lemma ClearedPast(labels: seq<Label>, time: real)
    requires Past(labels, time)
    ensures Past(Cleared(labels, time), time)
  {
  }

  lemma SignalCheckKeeps(s: Vcr)
    requires Steady(s) && !s.state.Stby?
    ensures Steady(SignalCheck(s)) && (Valid(s) ==> Valid(SignalCheck(s)))
  {
    hide NoLongerTransmitted;
    hide ServiceLost;
    hide FallBack;
    hide Past;
    hide Planned;
    if !s.timer {
      ServiceLostKeeps(s);
      ClearedPast(s.labels, s.time);
      FallBackKeeps(s);
      FallBackUnmoved(s);
      if Busy(s.state) {
        NoLongerTransmittedKeeps(FallBack(s), None);
      }
    }
  }

  lemma FallBackUnmoved(s: Vcr)
    requires |s.labels| == CHANNELS
    ensures Unmoved(s, FallBack(s)) && FallBack(s) == s.(pid := FallBack(s).pid)
  {
  }

  lemma StartScheduledKeeps(s: Vcr)
    requires Steady(s) && s.timer && s.state.Scan?
    ensures Steady(StartScheduled(s)) && (Valid(s) ==> Valid(StartScheduled(s)))
  {
  }

  lemma TimerControlKeeps(s: Vcr)
    requires Steady(s) && s.timer && !s.state.Stby?
    ensures Steady(TimerControl(s)) && (Valid(s) ==> Valid(TimerControl(s)))
  {
    hide StartScheduled;
    if s.state.Scan? {
      StartScheduledKeeps(s);
    } else if s.stopAt.None? && s.audience >= s.programs[s.current.value].end {
      var t := StopNow(s);
      RemoveKeeps(t, s.current.value);
      StartScheduledKeeps(Remove(t, s.current.value));
    }
  }

  lemma OnceASecondKeeps(s: Vcr)
    requires Steady(s) && !s.state.Stby?
    ensures Steady(OnceASecond(s)) && (Valid(s) ==> Valid(OnceASecond(s)))
  {
    hide SignalCheck;
    hide TimerControl;
    SignalCheckKeeps(s);
    if SignalCheck(s).timer {
      TimerControlKeeps(SignalCheck(s));
    }
  }

  lemma NextFrameKeeps(s: Vcr, time: real)
    requires Steady(s) && !s.state.Stby? && s.time <= time
    ensures Steady(NextFrame(s, time)) && (Valid(s) ==> Valid(NextFrame(s, time)))
  {
    var t := s.(time := time, audience := Seconds(time));
    assert Steady(t) && (Valid(s) ==> Valid(t));
    if s.state.Rec? {
      RemoveKeeps(StopNow(t), s.current.value);
    }
  }

  lemma WakeKeeps(s: Vcr, now: int, woken: int)
    requires Steady(s) && s.state.Stby?
    ensures Steady(Wake(s, now, woken)) && (Valid(s) ==> Valid(Wake(s, now, woken)))
  {
    hide RemoveStale;
    hide FirstScan;
    RemoveStaleKeeps(s.(audience := now), s.schedule);
  }

  lemma UnderTimer(s: Vcr)
    requires Consistent(s) && s.timer && !s.state.Stby?
    ensures SignalCheck(s) == s
  {
  }

  // Whole runs.

  /** A run in the order of the capture loop is one of the runs considered here: a frame begins
      (Frame), brings labels (Labelled), once a second the signals are checked (Second), and it
      ends (Done); Standby is the sleep between captures. */
  datatype Event =
    | Frame(time: real)
    | Labelled(pid: Pid)
    | Second
    | Done
    | Standby(now: int, woken: int)

  /** Time does not go back. */
  predicate Possible(s: Vcr, e: Event) {
    if e.Standby? then s.state.Stby? else !s.state.Stby? && (e.Frame? ==> s.time <= e.time)
  }

  function Step(s: Vcr, e: Event): (r: Vcr)
    requires Consistent(s) && Possible(s, e)
    ensures Consistent(r)
  {
    match e
    case Frame(time) => NextFrame(s, time)
    case Labelled(pid) => Received(s, pid)
    case Second => OnceASecond(s)
    case Done => EndOfFrame(s)
    case Standby(now, woken) => Wake(s, now, woken)
  }

  ghost predicate Legal(s: Vcr, run: seq<Event>)
    requires Consistent(s)
    decreases |run|
  {
    run == [] || (Possible(s, run[0]) && Legal(Step(s, run[0]), run[1..]))
  }

  ghost function Run(s: Vcr, run: seq<Event>): (r: Vcr)
    requires Consistent(s) && Legal(s, run)
    ensures Consistent(r)
    decreases |run|
  {
    if run == [] then s else Run(Step(s, run[0]), run[1..])
  }

  /** The recorder with a new schedule. */
  function Initial(schedule: seq<Id>, programs: map<Id, Program>): Vcr {
    Vcr(0, 0.0, seq(CHANNELS, i => Label(0, 0.0)), Stby, 0.0, false, None, NO_PID, schedule, programs, None, NO_PID)
  }

  lemma StepKeeps(s: Vcr, e: Event)
    requires Steady(s) && Possible(s, e)
    ensures Steady(Step(s, e)) && (Valid(s) ==> Valid(Step(s, e)))
  {
    hide NextFrame;
    hide Received;
    hide OnceASecond;
    hide Wake;
    match e
    case Frame(time) => NextFrameKeeps(s, time);
    case Labelled(pid) => ReceivedKeeps(s, pid);
    case Second => OnceASecondKeeps(s);
    case Done =>
    case Standby(now, woken) => WakeKeeps(s, now, woken);
  }

  lemma {:induction false} RunKeeps(s: Vcr, run: seq<Event>)
    requires Steady(s) && Legal(s, run)
    ensures Steady(Run(s, run)) && (Valid(s) ==> Valid(Run(s, run)))
    decreases |run|
  {
    hide Step;
    if run != [] {
      StepKeeps(s, run[0]);
      RunKeeps(Step(s, run[0]), run[1..]);
    }
  }

  /** No assertion of the recorder fires in any run, whatever the labels and the schedule, and a planned stop
      is due in 31 seconds at most. If all programs have a label and end no earlier than they start, the label
      in use names the program. */
  lemma ValidInEveryRun(schedule: seq<Id>, programs: map<Id, Program>, run: seq<Event>)
    requires Tracks(schedule, programs.Keys)
    requires Legal(Initial(schedule, programs), run)
    ensures Steady(Run(Initial(schedule, programs), run))
    ensures Planned(programs) ==> Valid(Run(Initial(schedule, programs), run))
  {
    RunKeeps(Initial(schedule, programs), run);
  }

  // The capture loop as a run.

  /** A captured frame: its time and the labels decoded from it. */
  datatype Captured = Captured(time: real, pids: seq<Pid>)

  function ReceivedAll(s: Vcr, pids: seq<Pid>): (r: Vcr)
    requires !s.state.Stby? && Consistent(s)
    ensures Consistent(r) && !r.state.Stby?
    decreases |pids|
  {
    if pids == [] then s else ReceivedAll(Received(s, pids[0]), pids[1..])
  }

  function CaptureFrame(s: Vcr, last: real, f: Captured): (r: Vcr)
    requires !s.state.Stby? && Consistent(s)
    ensures Consistent(r)
  {
    var t := ReceivedAll(NextFrame(s, f.time), f.pids);
    EndOfFrame(if Seconds(last) != Seconds(f.time) then OnceASecond(t) else t)
  }

  /** The loop runs until there is nothing to wait for, or the user quits. */
  function Capture(s: Vcr, last: real, frames: seq<Captured>): (r: Vcr)
    requires Consistent(s)
    ensures Consistent(r)
    decreases |frames|
  {
    if s.state.Stby? || frames == [] then s
    else Capture(CaptureFrame(s, last, frames[0]), frames[0].time, frames[1..])
  }

  function Labels(pids: seq<Pid>): seq<Event> {
    seq(|pids|, i requires 0 <= i < |pids| => Labelled(pids[i]))
  }

  function FrameScript(last: real, f: Captured): seq<Event> {
    [Frame(f.time)] + Labels(f.pids) + (if Seconds(last) != Seconds(f.time) then [Second, Done] else [Done])
  }

  lemma {:induction false} RunConcat(s: Vcr, a: seq<Event>, b: seq<Event>)
    requires Consistent(s) && Legal(s, a) && Legal(Run(s, a), b)
    ensures Legal(s, a + b) && Run(s, a + b) == Run(Run(s, a), b)
    decreases |a|
  {
    hide Step;
    if a == [] {
      assert a + b == b;
    } else {
      assert (a + b)[0] == a[0] && (a + b)[1..] == a[1..] + b;
      RunConcat(Step(s, a[0]), a[1..], b);
    }
  }

  lemma {:induction false} LabelsAreRun(s: Vcr, pids: seq<Pid>)
    requires Consistent(s) && !s.state.Stby?
    ensures Legal(s, Labels(pids)) && Run(s, Labels(pids)) == ReceivedAll(s, pids)
    decreases |pids|
  {
    hide Received;
    if pids != [] {
      assert Labels(pids)[0] == Labelled(pids[0]) && Labels(pids)[1..] == Labels(pids[1..]);
      LabelsAreRun(Received(s, pids[0]), pids[1..]);
    }
  }

  lemma EndIsRun(s: Vcr, second: bool)
    requires Consistent(s) && !s.state.Stby?
    ensures var end := if second then [Second, Done] else [Done];
      Legal(s, end) && Run(s, end) == EndOfFrame(if second then OnceASecond(s) else s)
  {
    hide OnceASecond;
    hide EndOfFrame;
    OneStep(s, Second);
    OneStep(OnceASecond(s), Done);
    RunConcat(s, [Second], [Done]);
    assert [Second] + [Done] == [Second, Done];
    OneStep(s, Done);
  }

  lemma FrameIsRun(s: Vcr, last: real, f: Captured)
    requires Consistent(s) && !s.state.Stby? && s.time <= f.time
    ensures Legal(s, FrameScript(last, f)) && Run(s, FrameScript(last, f)) == CaptureFrame(s, last, f)
  {
    hide NextFrame;
    hide OnceASecond;
    hide EndOfFrame;
    hide ReceivedAll;
    hide Labels;
    hide Legal;
    hide Run;
    var second := Seconds(last) != Seconds(f.time);
    var t := NextFrame(s, f.time);
    OneStep(s, Frame(f.time));
    LabelsAreRun(t, f.pids);
    RunConcat(s, [Frame(f.time)], Labels(f.pids));
    EndIsRun(ReceivedAll(t, f.pids), second);
    RunConcat(s, [Frame(f.time)] + Labels(f.pids), if second then [Second, Done] else [Done]);
  }

  lemma OneStep(s: Vcr, e: Event)
    requires Consistent(s) && Possible(s, e)
    ensures Legal(s, [e]) && Run(s, [e]) == Step(s, e)
  {
    hide Step;
  }

  /** Time does not go back between frames. */
  predicate InOrder(time: real, frames: seq<Captured>)
    decreases |frames|
  {
    frames == [] || (time <= frames[0].time && InOrder(frames[0].time, frames[1..]))
  }

  function CaptureScript(s: Vcr, last: real, frames: seq<Captured>): seq<Event>
    requires Consistent(s)
    decreases |frames|
  {
    if s.state.Stby? || frames == [] then []
    else FrameScript(last, frames[0]) + CaptureScript(CaptureFrame(s, last, frames[0]), frames[0].time, frames[1..])
  }

  lemma {:induction false} ReceivedAllTime(s: Vcr, pids: seq<Pid>)
    requires Consistent(s) && !s.state.Stby?
    ensures ReceivedAll(s, pids).time == s.time
    decreases |pids|
  {
    hide Act;
    if pids != [] {
      ReceivedAllTime(Received(s, pids[0]), pids[1..]);
    }
  }

  lemma CaptureFrameTime(s: Vcr, last: real, f: Captured)
    requires Consistent(s) && !s.state.Stby?
    ensures CaptureFrame(s, last, f).time == f.time
  {
    hide SignalCheck;
    hide TimerControl;
    var t := ReceivedAll(NextFrame(s, f.time), f.pids);
    ReceivedAllTime(NextFrame(s, f.time), f.pids);
    SignalCheckTime(t);
    if SignalCheck(t).timer {
      TimerControlTime(SignalCheck(t));
    }
  }

  lemma SignalCheckTime(s: Vcr)
    requires Consistent(s) && !s.state.Stby?
    ensures SignalCheck(s).time == s.time
  {
    hide ServiceLost;
    hide NoLongerTransmitted;
  }

  lemma TimerControlTime(s: Vcr)
    requires Consistent(s) && s.timer && !s.state.Stby?
    ensures TimerControl(s).time == s.time
  {
  }

  /** Capturing is a run, so what holds in every run holds of it. */
  lemma {:induction false} CaptureIsRun(s: Vcr, last: real, frames: seq<Captured>)
    requires Consistent(s) && InOrder(s.time, frames)
    ensures Legal(s, CaptureScript(s, last, frames))
        && Run(s, CaptureScript(s, last, frames)) == Capture(s, last, frames)
    decreases |frames|
  {
    hide CaptureFrame;
    if !s.state.Stby? && frames != [] {
      var t := CaptureFrame(s, last, frames[0]);
      FrameIsRun(s, last, frames[0]);
      CaptureFrameTime(s, last, frames[0]);
      CaptureIsRun(t, frames[0].time, frames[1..]);
      RunConcat(s, FrameScript(last, frames[0]), CaptureScript(t, frames[0].time, frames[1..]));
    }
  }

  /** One pass of the standby loop: the time when it begins, the time when the sleep ends, and the
      frames captured then. */
  datatype Sitting = Sitting(now: int, woken: int, frames: seq<Captured>)

  function Sit(s: Vcr, t: Sitting): (r: Vcr)
    requires s.state.Stby? && Consistent(s)
    ensures Consistent(r)
  {
    Capture(Wake(s, t.now, t.woken), 0.0, t.frames)
  }

  /** All programs are over. */
  predicate NothingLeft(s: Vcr, t: Sitting)
    requires s.state.Stby? && Consistent(s)
  {
    RemoveStale(s.(audience := t.now), s.schedule).schedule == []
  }

  /** The whole program, until the schedule is empty or the user quits while it captures. */
  function Watch(s: Vcr, sittings: seq<Sitting>): (r: Vcr)
    requires Consistent(s)
    ensures Consistent(r)
    decreases |sittings|
  {
    if !s.state.Stby? || sittings == [] then s
    else if NothingLeft(s, sittings[0]) then Sit(s, sittings[0])
    else Watch(Sit(s, sittings[0]), sittings[1..])
  }

  predicate SittingsInOrder(s: Vcr, sittings: seq<Sitting>)
    requires Consistent(s)
    decreases |sittings|
  {
    !s.state.Stby? || sittings == []
    || (InOrder(s.time, sittings[0].frames)
        && (NothingLeft(s, sittings[0]) || SittingsInOrder(Sit(s, sittings[0]), sittings[1..])))
  }

  lemma {:induction false} RemoveStaleTime(s: Vcr, list: seq<Id>)
    requires s.state.Stby? && Consistent(s)
    ensures RemoveStale(s, list).time == s.time
    decreases |list|
  {
    if list != [] {
      if list[0] in s.programs && Stale(s.programs[list[0]], s.audience) {
        RemoveStaleTime(Remove(s, list[0]), list[1..]);
      } else {
        RemoveStaleTime(s, list[1..]);
      }
    }
  }

  lemma WakeTime(s: Vcr, now: int, woken: int)
    requires s.state.Stby? && Consistent(s)
    ensures Wake(s, now, woken).time == s.time
  {
    hide FirstScan;
    hide RemoveStale;
    RemoveStaleTime(s.(audience := now), s.schedule);
  }

  function SitScript(s: Vcr, t: Sitting): seq<Event>
    requires Consistent(s) && s.state.Stby?
  {
    [Standby(t.now, t.woken)] + CaptureScript(Wake(s, t.now, t.woken), 0.0, t.frames)
  }

  lemma SitIsRun(s: Vcr, t: Sitting)
    requires Consistent(s) && s.state.Stby? && InOrder(s.time, t.frames)
    ensures Legal(s, SitScript(s, t)) && Run(s, SitScript(s, t)) == Sit(s, t)
  {
    hide Capture;
    hide CaptureScript;
    hide Wake;
    hide Consistent;
    hide Legal;
    hide Run;
    WakeTime(s, t.now, t.woken);
    OneStep(s, Standby(t.now, t.woken));
    CaptureIsRun(Wake(s, t.now, t.woken), 0.0, t.frames);
    RunConcat(s, [Standby(t.now, t.woken)], CaptureScript(Wake(s, t.now, t.woken), 0.0, t.frames));
  }

  function WatchScript(s: Vcr, sittings: seq<Sitting>): seq<Event>
    requires Consistent(s)
    decreases |sittings|
  {
    if !s.state.Stby? || sittings == [] then []
    else if NothingLeft(s, sittings[0]) then SitScript(s, sittings[0])
    else SitScript(s, sittings[0]) + WatchScript(Sit(s, sittings[0]), sittings[1..])
  }

  /** Whatever the program does from start to end is a run. */
  lemma {:induction false} WatchIsRun(s: Vcr, sittings: seq<Sitting>)
    requires Consistent(s) && SittingsInOrder(s, sittings)
    ensures Legal(s, WatchScript(s, sittings)) && Run(s, WatchScript(s, sittings)) == Watch(s, sittings)
    decreases |sittings|
  {
    hide Sit;
    hide SitScript;
    hide Consistent;
    hide NothingLeft;
    if s.state.Stby? && sittings != [] {
      SitIsRun(s, sittings[0]);
      if !NothingLeft(s, sittings[0]) {
        WatchIsRun(Sit(s, sittings[0]), sittings[1..]);
        RunConcat(s, SitScript(s, sittings[0]), WatchScript(Sit(s, sittings[0]), sittings[1..]));
      }
    }
  }
}
