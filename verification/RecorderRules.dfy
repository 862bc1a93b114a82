/** What a viewer gets from the video recorder: no program is missed without cause, recordings
    begin and end for a reason, and the standard's rules where the program follows them. */
module RecorderRules {
  import opened Options
  import opened LinkedLists
  import opened Recorder
  import opened RecorderRuns

  // Programs on the schedule.

  predicate Recording(s: Vcr, id: Id) {
    s.state.Rec? && s.current == Some(id)
  }

  /** The same program; its recording may have been moved in time or made longer. */
  predicate SamePlan(p: Program, q: Program) {
    && q.pil == p.pil && q.validStart == p.validStart && q.validEnd == p.validEnd
    && (p.continues ==> q.continues)
    && q.end - q.start >= p.end - p.start
  }

  /** The program being recorded. */
  function Recorded(s: Vcr): Option<Id> {
    if s.state.Rec? then s.current else None
  }

  /** Only the program that was recorded leaves the schedule, only the program that is recorded
      now changes. */
  ghost predicate Kept(p: map<Id, Program>, was: Option<Id>, q: map<Id, Program>, now: Option<Id>) {
    && q.Keys <= p.Keys
    && (forall id <- p :: id !in q ==> was == Some(id))
    && (forall id <- q :: q[id] == p[id] || (now == Some(id) && SamePlan(p[id], q[id])))
  }

  ghost predicate KeptBy(s: Vcr, r: Vcr) {
    Kept(s.programs, Recorded(s), r.programs, Recorded(r))
  }

  lemma KeptSame(p: map<Id, Program>, was: Option<Id>, now: Option<Id>)
    ensures Kept(p, was, p, now)
  {
  }

  lemma KeptWithout(p: map<Id, Program>, id: Id, now: Option<Id>)
    ensures Kept(p, Some(id), p - {id}, now)
  {
  }

  /** Leaving a program, and then perhaps selecting the next. */
  lemma KeptAfter(p: map<Id, Program>, was: Option<Id>, t: map<Id, Program>, q: map<Id, Program>, now: Option<Id>)
    requires Kept(p, was, t, None) && Kept(t, None, q, now)
    ensures Kept(p, was, q, now)
  {
  }

  lemma StartByPilKept(s: Vcr, id: Id, pid: Pid)
    requires Valid(s) && !s.timer && (s.state.Scan? || s.state.Ptr?)
    requires id in s.programs && pid.channel < CHANNELS
    ensures KeptBy(s, StartByPil(s, id, pid))
  {
  }

  lemma SelectKept(s: Vcr, pid: Pid)
    requires Valid(s) && s.state.Scan? && !s.timer && pid.channel < CHANNELS
    ensures Kept(s.programs, None, Select(s, pid).programs, Recorded(Select(s, pid)))
  {
    hide Kept;
    hide StartByPil;
    KeptSame(s.programs, None, Recorded(Select(s, pid)));
    var found := FindByPil(s.schedule, s.programs, pid.pil);
    if found.Some? && !pid.prf {
      StartByPilKept(s, found.value, pid);
    }
  }

  lemma NoLongerTransmittedKept(s: Vcr, pid: Option<Pid>)
    requires Valid(s) && Busy(s.state) && !s.timer
    ensures var r := NoLongerTransmitted(s, pid);
      Kept(s.programs, Recorded(s), r.programs, None) && Kept(s.programs, Recorded(s), r.programs, Recorded(r))
  {
    hide Kept;
    var r := NoLongerTransmitted(s, pid);
    KeptSame(s.programs, Recorded(s), None);
    KeptSame(s.programs, Recorded(s), Recorded(r));
    KeptWithout(s.programs, s.current.value, None);
    KeptWithout(s.programs, s.current.value, Recorded(r));
  }

  lemma StartUnseenKept(s: Vcr)
    requires s.state.Ptr? && s.timer && Valid(s.(timer := false))
    ensures KeptBy(s, StartUnseen(s))
  {
  }

  lemma ServiceLostKept(s: Vcr)
    requires Valid(s) && !s.state.Stby?
    ensures KeptBy(s, ServiceLost(s))
  {
    hide Kept;
    hide StartUnseen;
    KeptSame(s.programs, Recorded(s), Recorded(ServiceLost(s)));
    if s.state.Ptr? && !s.timer {
      StartUnseenKept(s.(timer := true));
    }
  }

  lemma ReceivedInPtrKept(s: Vcr, pid: Pid)
    requires Valid(s) && s.state.Ptr? && pid.channel < CHANNELS
    ensures KeptBy(s, ReceivedInPtr(s, pid))
  {
    hide Kept;
    hide Select;
    hide StartByPil;
    hide NoLongerTransmitted;
    var t := NoLongerTransmitted(s, Some(pid));
    KeptSame(s.programs, Recorded(s), Recorded(s));
    NoLongerTransmittedKept(s, Some(pid));
    NoLongerTransmittedKeeps(s, Some(pid));
    SelectKept(t, pid);
    KeptAfter(s.programs, Recorded(s), t.programs, Select(t, pid).programs, Recorded(Select(t, pid)));
    StartByPilKept(s, s.current.value, pid);
  }

  lemma ReceivedInTimerRecKept(s: Vcr, pid: Pid)
    requires Valid(s) && s.state.Rec? && s.timer && pid.channel < CHANNELS
    ensures KeptBy(s, ReceivedInTimerRec(s, pid))
  {
    hide Kept;
    hide Select;
    var t := StopNow(s.(timer := false));
    KeptSame(s.programs, Recorded(s), Recorded(s));
    KeptSame(s.programs, Recorded(s), None);
    SelectKept(t, pid);
    KeptAfter(s.programs, Recorded(s), t.programs, Select(t, pid).programs, Recorded(Select(t, pid)));
  }

  lemma ReceivedInRecKept(s: Vcr, pid: Pid)
    requires Valid(s) && s.state.Rec? && !s.timer && pid.channel < CHANNELS
    ensures KeptBy(s, ReceivedInRec(s, pid))
  {
    hide Kept;
    hide Select;
    hide NoLongerTransmitted;
    var t := NoLongerTransmitted(s, Some(pid));
    KeptSame(s.programs, Recorded(s), Recorded(s));
    NoLongerTransmittedKept(s, Some(pid));
    NoLongerTransmittedKeeps(s, Some(pid));
    if t.state.Scan? {
      SelectKept(t, pid);
      KeptAfter(s.programs, Recorded(s), t.programs, Select(t, pid).programs, Recorded(Select(t, pid)));
    }
  }

  lemma ReceivedPilKept(s: Vcr, pid: Pid)
    requires Valid(s) && !s.state.Stby? && pid.channel < CHANNELS
    ensures KeptBy(s, ReceivedPil(s, pid))
  {
    hide Kept;
    hide Select;
    hide ReceivedInPtr;
    hide ReceivedInTimerRec;
    hide ReceivedInRec;
    KeptSame(s.programs, Recorded(s), Recorded(s));
    if s.state.Scan? {
      SelectKept(s.(timer := false), pid);
    } else if s.state.Ptr? {
      ReceivedInPtrKept(s, pid);
    } else if s.timer {
      ReceivedInTimerRecKept(s, pid);
    } else {
      ReceivedInRecKept(s, pid);
    }
  }

  lemma ReceivedKept(s: Vcr, pid: Pid)
    requires Valid(s) && !s.state.Stby?
    ensures KeptBy(s, Received(s, pid))
  {
    hide Kept;
    hide ReceivedPil;
    hide ServiceLost;
    hide NoLongerTransmitted;
    KeptSame(s.programs, Recorded(s), Recorded(s));
    if pid.channel <= VPS {
      ServiceLostKept(s);
      ReceivedPilKept(s, pid);
      if Busy(s.state) && !s.timer {
        NoLongerTransmittedKept(s, Some(pid));
      }
    }
  }

  lemma SignalCheckKept(s: Vcr)
    requires Valid(s) && !s.state.Stby?
    ensures KeptBy(s, SignalCheck(s))
  {
    hide Kept;
    hide NoLongerTransmitted;
    hide ServiceLost;
    hide Identified;
    KeptSame(s.programs, Recorded(s), Recorded(s));
    ServiceLostKept(s);
    if Busy(s.state) && !s.timer {
      FallBackKeeps(s);
      NoLongerTransmittedKept(FallBack(s), None);
    }
  }

  lemma TimerControlKept(s: Vcr)
    requires Valid(s) && !s.state.Stby? && s.timer
    ensures KeptBy(s, TimerControl(s))
  {
    hide Kept;
    var r := TimerControl(s);
    KeptSame(s.programs, Recorded(s), Recorded(r));
    if s.state.Rec? {
      KeptWithout(s.programs, s.current.value, Recorded(r));
    }
  }

  /** If the check of the signals started a recording, it does not end in the same second. */
  lemma OnceASecondKept(s: Vcr)
    requires Valid(s) && !s.state.Stby?
    ensures KeptBy(s, OnceASecond(s))
  {
    hide Kept;
    hide SignalCheck;
    hide TimerControl;
    var t := SignalCheck(s);
    SignalCheckKept(s);
    SignalCheckKeeps(s);
    if t.timer {
      TimerControlKept(t);
      LostThenTimed(s);
    }
  }

  lemma TimerIfLost(s: Vcr)
    requires Consistent(s) && !s.state.Stby? && !s.timer && SignalCheck(s).timer
    ensures SignalCheck(s) == ServiceLost(s).(labels := Cleared(s.labels, s.time))
  {
    hide NoLongerTransmitted;
    hide ServiceLost;
    hide Cleared;
  }

  lemma UnseenGoesOn(s: Vcr, labels: seq<Label>)
    requires Valid(s) && s.state.Ptr? && |labels| == CHANNELS
    ensures var t := ServiceLost(s).(labels := labels); Consistent(t) && TimerControl(t) == t
  {
  }

  lemma LostThenTimed(s: Vcr)
    requires Valid(s) && !s.state.Stby? && SignalCheck(s).timer
    ensures var t := SignalCheck(s);
      if Recorded(s) == Recorded(t) then t.programs == s.programs else TimerControl(t) == t
  {
    hide SignalCheck;
    hide TimerControl;
    hide Cleared;
    if s.timer {
      UnderTimer(s);
    } else {
      TimerIfLost(s);
      if s.state.Ptr? {
        UnseenGoesOn(s, Cleared(s.labels, s.time));
      }
    }
  }

  lemma NextFrameKept(s: Vcr, time: real)
    requires Valid(s) && !s.state.Stby?
    ensures KeptBy(s, NextFrame(s, time))
  {
    hide Kept;
    KeptSame(s.programs, Recorded(s), Recorded(NextFrame(s, time)));
    if s.state.Rec? {
      KeptWithout(s.programs, s.current.value, None);
    }
  }

  /** Exactly the programs that are over leave the schedule while the recorder sleeps. */
  lemma {:induction false} RemoveStaleExact(s: Vcr, list: seq<Id>)
    requires Consistent(s) && s.state.Stby? && Distinct(list) && forall id <- list :: id in s.programs
    ensures var r := RemoveStale(s, list);
      forall id <- s.programs :: id in r.programs <==> !(id in list && Stale(s.programs[id], s.audience))
    ensures var r := RemoveStale(s, list);
      r.programs.Keys <= s.programs.Keys && forall id <- r.programs :: r.programs[id] == s.programs[id]
    decreases |list|
  {
    if list != [] {
      var t := if Stale(s.programs[list[0]], s.audience) then Remove(s, list[0]) else s;
      assert forall id <- list :: id == list[0] || id in list[1..];
      RemoveStaleExact(t, list[1..]);
    }
  }

  lemma WakeRemoves(s: Vcr, now: int, woken: int)
    requires Consistent(s) && s.state.Stby?
    ensures var r := Wake(s, now, woken);
      && r.programs.Keys <= s.programs.Keys
      && (forall id <- r.programs :: r.programs[id] == s.programs[id])
      && forall id <- s.programs :: id in r.programs <==> !Stale(s.programs[id], now)
  {
    hide RemoveStale;
    hide FirstScan;
    RemoveStaleExact(s.(audience := now), s.schedule);
  }

  /** The programs that were recorded at some time of a run. */
  ghost function EverRecorded(s: Vcr, run: seq<Event>): set<Id>
    requires Consistent(s) && Legal(s, run)
    decreases |run|
  {
    (if Recorded(s).Some? then {Recorded(s).value} else {})
    + if run == [] then {} else EverRecorded(Step(s, run[0]), run[1..])
  }

  /** The programs that were over at some time of sleep. */
  ghost function Expired(s: Vcr, run: seq<Event>): set<Id>
    requires Consistent(s) && Legal(s, run)
    decreases |run|
  {
    if run == [] then {} else
    (if run[0].Standby? then set id | id in s.programs && Stale(s.programs[id], run[0].now) else {})
    + Expired(Step(s, run[0]), run[1..])
  }

  lemma StepKept(s: Vcr, e: Event)
    requires Valid(s) && Possible(s, e)
    ensures var r := Step(s, e); r.programs.Keys <= s.programs.Keys
    ensures var r := Step(s, e);
      forall id <- s.programs :: id !in r.programs
          ==> Recorded(s) == Some(id) || (e.Standby? && Stale(s.programs[id], e.now))
    ensures var r := Step(s, e); forall id <- r.programs :: SamePlan(s.programs[id], r.programs[id])
    ensures var r := Step(s, e); forall id <- r.programs :: r.programs[id] == s.programs[id] || Recorded(r) == Some(id)
  {
    hide NextFrame;
    hide Received;
    hide OnceASecond;
    hide Wake;
    match e
    case Frame(time) => NextFrameKept(s, time);
    case Labelled(pid) => ReceivedKept(s, pid);
    case Second => OnceASecondKept(s);
    case Done =>
    case Standby(now, woken) => WakeRemoves(s, now, woken);
  }

  lemma {:induction false} FewerPrograms(s: Vcr, run: seq<Event>)
    requires Valid(s) && Legal(s, run)
    ensures Run(s, run).programs.Keys <= s.programs.Keys
    decreases |run|
  {
    hide Step;
    if run != [] {
      StepKept(s, run[0]);
      StepKeeps(s, run[0]);
      FewerPrograms(Step(s, run[0]), run[1..]);
    }
  }

  /** No program gets lost: at the end of a run each is still on the schedule, with the label it
      had and no less time to record, or it was recorded, or it was over when the recorder slept. */
  lemma {:induction false} NoProgramIsLost(s: Vcr, run: seq<Event>, id: Id)
    requires Valid(s) && Legal(s, run) && id in s.programs
    ensures var r := Run(s, run);
      if id in r.programs then SamePlan(s.programs[id], r.programs[id])
      else id in EverRecorded(s, run) || id in Expired(s, run)
    decreases |run|
  {
    hide Step;
    if run != [] {
      StepKept(s, run[0]);
      StepKeeps(s, run[0]);
      FewerPrograms(Step(s, run[0]), run[1..]);
      if id in Step(s, run[0]).programs {
        NoProgramIsLost(Step(s, run[0]), run[1..], id);
      }
    }
  }

  // Why recordings begin.

  /** A label starts a recording only if it names the program and the program is said to be on air:
      PRF is clear, or has been set for a minute. The loss of the service starts one that is about
      to begin. */
  predicate LabelStarts(s: Vcr, r: Vcr, pid: Pid)
    requires r.current.Some? && r.current.value in r.programs
  {
    if pid.pil == TIMER_CONTROL || pid.pil == CONTINUE then s.state.Ptr? && r.current == s.current && r.timer
    else
      && !pid.luf && !r.timer && r.programs[r.current.value].pil == pid.pil && r.pid == pid
      && (pid.prf ==> s.state.Ptr? && r.current == s.current && s.time >= s.since + 60.0)
  }

  predicate Begins(s: Vcr, r: Vcr) {
    Recorded(r).Some? && Recorded(r) != Recorded(s)
  }

  lemma SelectStarts(s: Vcr, pid: Pid)
    requires Valid(s) && s.state.Scan? && !s.timer && pid.channel < CHANNELS
    ensures var r := Select(s, pid);
      && !r.timer
      && (Recorded(r).Some? ==> !pid.prf && r.pid == pid && r.programs[r.current.value].pil == pid.pil)
  {
  }

  lemma LeavesOrStays(s: Vcr, pid: Option<Pid>)
    requires Consistent(s) && Busy(s.state) && !s.timer
    ensures var r := NoLongerTransmitted(s, pid); Recorded(r).None? || Recorded(r) == Recorded(s)
  {
  }

  lemma ReceivedInPtrStarts(s: Vcr, pid: Pid)
    requires Valid(s) && s.state.Ptr? && pid.channel < CHANNELS && Begins(s, ReceivedInPtr(s, pid))
    requires !IsServiceCode(pid.pil)
    ensures LabelStarts(s, ReceivedInPtr(s, pid), pid)
  {
    hide Select;
    hide NoLongerTransmitted;
    NoLongerTransmittedKeeps(s, Some(pid));
    SelectStarts(NoLongerTransmitted(s, Some(pid)), pid);
  }

  lemma ReceivedInRecStarts(s: Vcr, pid: Pid)
    requires Valid(s) && s.state.Rec? && !s.timer && pid.channel < CHANNELS && Begins(s, ReceivedInRec(s, pid))
    requires !IsServiceCode(pid.pil)
    ensures LabelStarts(s, ReceivedInRec(s, pid), pid)
  {
    hide Select;
    hide NoLongerTransmitted;
    LeavesOrStays(s, Some(pid));
    NoLongerTransmittedKeeps(s, Some(pid));
    if NoLongerTransmitted(s, Some(pid)).state.Scan? {
      SelectStarts(NoLongerTransmitted(s, Some(pid)), pid);
    }
  }

  lemma ReceivedPilStarts(s: Vcr, pid: Pid)
    requires Valid(s) && !s.state.Stby? && pid.channel < CHANNELS && Begins(s, ReceivedPil(s, pid))
    requires !IsServiceCode(pid.pil)
    ensures LabelStarts(s, ReceivedPil(s, pid), pid)
  {
    hide Select;
    hide ReceivedInPtr;
    hide ReceivedInRec;
    if s.state.Scan? {
      SelectStarts(s.(timer := false), pid);
    } else if s.state.Ptr? {
      ReceivedInPtrStarts(s, pid);
    } else if s.timer {
      SelectStarts(StopNow(s.(timer := false)), pid);
    } else {
      ReceivedInRecStarts(s, pid);
    }
  }

  lemma ReceivedStarts(s: Vcr, pid: Pid)
    requires Valid(s) && !s.state.Stby? && Begins(s, Received(s, pid))
    ensures LabelStarts(s, Received(s, pid), pid)
  {
    hide ReceivedPil;
    hide NoLongerTransmitted;
    if IsServiceCode(pid.pil) {
      if Busy(s.state) && !s.timer {
        LeavesOrStays(s, Some(pid));
      }
    } else {
      ReceivedPilStarts(s, pid);
    }
  }

  lemma TimerControlStarts(s: Vcr)
    requires Valid(s) && s.timer && !s.state.Stby? && Begins(s, TimerControl(s))
    ensures var r := TimerControl(s);
      && r.timer && r.current.value in s.programs
      && s.programs[r.current.value].start <= s.audience < s.programs[r.current.value].end
  {
  }

  lemma SignalCheckStarts(s: Vcr)
    requires Valid(s) && !s.timer && !s.state.Stby?
    ensures var t := SignalCheck(s);
      if t.timer then
        && ActiveChannels(s.labels, s.time) == {} && t.current == s.current && t.audience == s.audience
        && (if s.state.Ptr? then t.state.Rec? else t.programs == s.programs && t.state == s.state)
      else Recorded(t).None? || Recorded(t) == Recorded(s)
  {
    hide NoLongerTransmitted;
    if Busy(s.state) {
      FallBackUnmoved(s);
      LeavesOrStays(FallBack(s), None);
    }
  }

  /** Otherwise a recording begins only in timer control: of a program that was about to begin
      when all signals were lost, or at its scheduled time. */
  predicate SecondStarts(s: Vcr, r: Vcr) {
    && r.timer && r.current.Some?
    && if s.state.Ptr? then r.current == s.current && !s.timer && ActiveChannels(s.labels, s.time) == {}
       else
         && r.current.value in s.programs
         && s.programs[r.current.value].start <= s.audience < s.programs[r.current.value].end
  }

  lemma OnceASecondStarts(s: Vcr)
    requires Valid(s) && !s.state.Stby? && Begins(s, OnceASecond(s))
    ensures SecondStarts(s, OnceASecond(s))
  {
    hide SignalCheck;
    hide TimerControl;
    var t := SignalCheck(s);
    SignalCheckKeeps(s);
    if s.timer {
      assert t == s by { UnderTimer(s); }
    } else {
      SignalCheckStarts(s);
      if t.timer {
        LostThenTimed(s);
      }
    }
    if t.timer && Begins(t, TimerControl(t)) {
      TimerControlStarts(t);
    }
  }

  // When recordings end.

  /** A planned stop is due 31 seconds after the last frame at the latest, and the first frame at
      that time or later ends the recording. The program is over unless it was interrupted or the
      network sends no labels. */
  lemma StopIsCarriedOut(s: Vcr, time: real)
    requires Valid(s) && !s.state.Stby? && s.time <= time && s.stopAt.Some?
    ensures s.stopAt.value <= s.time + 31.0
    ensures var r := NextFrame(s, time);
      if time < s.stopAt.value then Recorded(r) == Recorded(s) && r.stopAt == s.stopAt
      else (
        && r.state.Scan? && r.stopAt.None?
        && (s.current.value !in r.programs <==> !s.timer && s.stopPid.pil != INTERRUPTION))
  {
  }

  /** In timer control a recording ends in the second its program ends, and only then. */
  lemma TimerEnds(s: Vcr)
    requires Valid(s) && s.timer && s.state.Rec? && s.stopAt.None?
    ensures var r := OnceASecond(s);
      if s.audience < s.programs[s.current.value].end then r == s
      else s.current.value !in r.programs && Recorded(r) != Recorded(s)
  {
  }

  /** The label of the program comes back before a planned stop: as if nothing had happened. */
  lemma ResumeUndoesStop(s: Vcr, lost: Option<Pid>, back: Pid)
    requires Valid(s) && s.state.Rec? && !s.timer && s.stopAt.None? && NoLongerTransmitted(s, lost).stopAt.Some?
    requires back.channel == s.pid.channel && back.pil == s.pid.pil && !back.luf && !IsServiceCode(back.pil)
    requires back.channel <= VPS && (back.channel == VPS ==> !TeletextAvailable(s.labels))
    ensures var r := Received(NoLongerTransmitted(s, lost), back);
      r == s.(stopPid := r.stopPid, labels := s.labels[back.channel := Label(back.pil, s.time)])
  {
  }

  /** Under label control a label ends a recording, or plans to, exactly if it comes on the channel of
      the recording and is another label or announces another date. */
  lemma LabelEndsRecording(s: Vcr, pid: Pid)
    requires Valid(s) && s.state.Rec? && !s.timer && s.stopAt.None?
    requires pid.pil != TIMER_CONTROL && pid.pil != CONTINUE && pid.channel <= VPS
    ensures var r := Received(s, pid);
      (Recorded(r) == Recorded(s) && r.stopAt.None?) <==>
        || pid.channel != s.pid.channel
        || (pid.pil == s.pid.pil && !pid.luf && !IsServiceCode(pid.pil))
        || (pid.channel == VPS && TeletextAvailable(s.labels))
  {
  }

  // Supervision of the label.

  /** A program is selected by a label, and no stop is planned. */
  predicate ByLabel(s: Vcr) {
    Busy(s.state) && !s.timer && s.stopAt.None?
  }

  /** The label that selected the program is the last one seen on its channel. */
  predicate Watched(s: Vcr)
    requires |s.labels| == CHANNELS && s.pid.channel < CHANNELS
  {
    ByLabel(s) ==> s.labels[s.pid.channel].pil == s.pid.pil
  }

  /** The VPS labels go unheard while there are Teletext labels, although the recording follows VPS. */
  predicate Unheard(s: Vcr, pid: Pid)
    requires |s.labels| == CHANNELS
  {
    ByLabel(s) && s.pid.channel == VPS == pid.channel && TeletextAvailable(s.labels) && pid.pil != s.pid.pil
  }

  /** The recorder notices when its label changes, except a change of the VPS label while Teletext
      labels are available. */
  lemma LabelsAreWatched(s: Vcr, pid: Pid)
    requires Valid(s) && !s.state.Stby? && Watched(s)
    ensures Watched(Received(s, pid)) <==> !Unheard(s, pid)
  {
    hide ReceivedPil;
    if pid.channel <= VPS && !(pid.channel == VPS && TeletextAvailable(s.labels)) {
      ActFollows(s, pid);
    }
  }

  /** After the reaction to a label the recorder follows that label, or still the one it followed
      before on another channel. */
  predicate Follows(s: Vcr, r: Vcr, pid: Pid) {
    ByLabel(r) ==>
      || (r.pid.channel == pid.channel && r.pid.pil == pid.pil)
      || (r.pid == s.pid && ByLabel(s) && r.pid.channel != pid.channel)
  }

  lemma SelectFollows(s: Vcr, pid: Pid)
    requires Valid(s) && s.state.Scan? && !s.timer && pid.channel < CHANNELS
    ensures ByLabel(Select(s, pid)) ==> Select(s, pid).pid == pid
  {
  }

  lemma BusyFollows(s: Vcr, pid: Pid)
    requires Valid(s) && Busy(s.state) && !s.timer && pid.channel < CHANNELS
    ensures Follows(s, ReceivedPil(s, pid), pid)
  {
    hide Select;
    hide NoLongerTransmitted;
    hide Identified;
    EndsByLabel(s, Some(pid));
    NoLongerTransmittedKeeps(s, Some(pid));
    if NoLongerTransmitted(s, Some(pid)).state.Scan? {
      SelectFollows(NoLongerTransmitted(s, Some(pid)), pid);
    }
  }

  lemma ReceivedPilFollows(s: Vcr, pid: Pid)
    requires Valid(s) && !s.state.Stby? && pid.channel < CHANNELS
    ensures Follows(s, ReceivedPil(s, pid), pid)
  {
    hide Select;
    hide ReceivedInPtr;
    hide ReceivedInRec;
    if s.state.Scan? {
      SelectFollows(s.(timer := false), pid);
    } else if s.timer {
      SelectFollows(StopNow(s.(timer := false)), pid);
    } else {
      BusyFollows(s, pid);
    }
  }

  lemma ActFollows(s: Vcr, pid: Pid)
    requires Valid(s) && !s.state.Stby? && pid.channel < CHANNELS
    ensures Follows(s, Act(s, pid), pid)
  {
    hide ReceivedPil;
    ReceivedPilFollows(s, pid);
  }

  /** The label of the current program was received not too long ago. */
  predicate Fresh(r: Vcr)
    requires r.current.Some? && r.current.value in r.programs && r.pid.channel < |r.labels|
  {
    Active(r.labels, r.time, r.pid.channel) && r.labels[r.pid.channel].pil == r.programs[r.current.value].pil
  }

  /** Once a second the label of the recording has been received in time, else a stop is planned or
      the recorder no longer records by label. */
  lemma LabelIsFresh(s: Vcr)
    requires Valid(s) && !s.state.Stby? && Watched(s)
    ensures var r := OnceASecond(s);
      ByLabel(r) ==> Watched(r) && Fresh(r)
  {
    hide TimerControl;
    hide StartScheduled;
    var t := SignalCheck(s);
    SignalCheckKeeps(s);
    if t.timer {
      StaysTimed(t);
    } else {
      CheckedLabel(s);
    }
  }

  lemma StaysTimed(s: Vcr)
    requires Valid(s) && s.timer && !s.state.Stby?
    ensures TimerControl(s).timer
  {
  }

  lemma CheckedLabel(s: Vcr)
    requires Valid(s) && !s.state.Stby? && Watched(s) && !SignalCheck(s).timer
    ensures var r := SignalCheck(s);
      ByLabel(r) ==> Watched(r) && Fresh(r)
  {
    hide ServiceLost;
    var u := FallBack(s);
    if Busy(s.state) {
      assert s.programs[s.current.value].pil != 0;
    }
    if ByLabel(SignalCheck(s)) {
      EndsByLabel(u, None);
      if ActiveChannels(s.labels, s.time) == {} {
        NoneActive(s.labels, s.time, s.pid.channel);
      } else if ActiveChannels(s.labels, s.time) == {VPS} {
        assert VPS in ActiveChannels(s.labels, s.time);
      }
    }
  }

  lemma EndsByLabel(s: Vcr, pid: Option<Pid>)
    requires Consistent(s) && Busy(s.state) && !s.timer
    ensures !ByLabel(NoLongerTransmitted(s, pid))
  {
  }

  lemma NoneActive(labels: seq<Label>, time: real, i: nat)
    requires ActiveChannels(labels, time) == {} && i < |labels| && labels[i].pil != 0
    ensures i in LostChannels(labels, time)
  {
    assert i !in ActiveChannels(labels, time);
  }

  ghost predicate Heard(s: Vcr, run: seq<Event>)
    requires Consistent(s) && Legal(s, run)
    decreases |run|
  {
    run == [] || ((run[0].Labelled? ==> !Unheard(s, run[0].pid)) && Heard(Step(s, run[0]), run[1..]))
  }

  lemma StepWatches(s: Vcr, e: Event)
    requires Valid(s) && Possible(s, e) && Watched(s) && (e.Labelled? ==> !Unheard(s, e.pid))
    ensures Watched(Step(s, e))
  {
    hide Received;
    hide OnceASecond;
    hide RemoveStale;
    hide FirstScan;
    if e.Labelled? {
      LabelsAreWatched(s, e.pid);
    } else if e.Second? {
      LabelIsFresh(s);
    }
  }

  /** In every run without such a change of the VPS label. */
  lemma {:induction false} WatchedInRuns(s: Vcr, run: seq<Event>)
    requires Valid(s) && Legal(s, run) && Heard(s, run) && Watched(s)
    ensures Watched(Run(s, run))
    decreases |run|
  {
    hide Step;
    if run != [] {
      StepKeeps(s, run[0]);
      StepWatches(s, run[0]);
      WatchedInRuns(Step(s, run[0]), run[1..]);
    }
  }

  /** A recording by VPS label, a Teletext label, and then the label of the next program on VPS: the
      recording goes on. */
  lemma VpsChangeUnnoticed(s: Vcr, p: Program, pil: nat, next: nat)
    requires s == Wake(Initial([0], map[0 := p]), p.start, p.start)
    requires p.pil == pil != next && p.start <= p.validStart && p.start < p.end && next != 0 && pil != 0
    requires !IsServiceCode(pil) && !IsServiceCode(next)
    ensures !s.state.Stby?
    ensures var t := Received(s, Pid(VPS, pil, false, false, false));
      var u := Received(t, Pid(0, next, false, false, false));
      var v := Received(u, Pid(VPS, next, false, false, false));
      Recording(v, 0) && v.stopAt.None? && v.labels[VPS].pil == next
  {
    hide FirstScan;
    assert s.state.Scan?;
    var t := Received(s, Pid(VPS, pil, false, false, false));
    assert ByLabel(t) && Recording(t, 0) && t.pid.channel == VPS;
    var u := Received(t, Pid(0, next, false, false, false));
    assert u == t.(labels := t.labels[0 := Label(next, t.time)]);
  }

  /** A recording whose Teletext channel falls silent goes on with the same label from VPS exactly if
      the first Teletext channel is among those lost. */
  lemma FallsBackToVps(s: Vcr)
    requires Valid(s) && s.state.Rec? && ByLabel(s)
    requires s.pid.channel < VPS && Lost(s.labels, s.time, s.pid.channel)
    requires ActiveChannels(s.labels, s.time) == {VPS} && s.labels[VPS].pil == s.pid.pil
    ensures var r := SignalCheck(s);
      r.state.Rec? && r.stopAt.None? <==> Lost(s.labels, s.time, 0)
  {
    assert VPS in ActiveChannels(s.labels, s.time);
    if !Lost(s.labels, s.time, 0) {
      EndsByLabel(s, None);
    }
  }

  /** The label of a program on channel 1 is lost while VPS still carries it: the recording stops. */
  lemma NoFallBackFromChannelOne(p: Program)
    requires p.pil != 0 && p.start <= p.end
    ensures var lost, none, vps := Label(p.pil, 0.0), Label(0, 0.0), Label(p.pil, 10.0);
      var s := Vcr(10, 10.0, [none, lost, none, none, vps, none, none, none], Rec, 0.0, false, None, NO_PID,
                   [0], map[0 := p], Some(0), Pid(1, p.pil, false, true, false));
      && Valid(s) && s.labels[VPS].pil == s.pid.pil && ActiveChannels(s.labels, s.time) == {VPS}
      && SignalCheck(s).state.Scan?
  {
    var lost, none, vps := Label(p.pil, 0.0), Label(0, 0.0), Label(p.pil, 10.0);
    var s := Vcr(10, 10.0, [none, lost, none, none, vps, none, none, none], Rec, 0.0, false, None, NO_PID,
                 [0], map[0 := p], Some(0), Pid(1, p.pil, false, true, false));
    assert [0][1..] == [] && s.programs.Keys == {0};
    assert Listed(s.schedule, s.programs);
    assert forall i: nat :: Active(s.labels, s.time, i) <==> i == VPS;
    assert ActiveChannels(s.labels, s.time) == {VPS};
    FallsBackToVps(s);
  }

  // A recording started because the signals were lost.

  /** It lasts for the planned duration, one minute, and the time for which it was about to begin, in
      whole seconds. */
  lemma UnseenDuration(s: Vcr)
    requires Valid(s) && s.state.Ptr? && s.audience >= 0
    ensures var p, r := s.programs[s.current.value], ServiceLost(s);
      && Recording(r, s.current.value) && r.timer
      && r.programs[s.current.value].start == s.audience
      && r.programs[s.current.value].end == s.audience + (p.end - p.start) + 60 + (s.time - s.since).Floor
  {
  }

  /** The end one minute after PRF was set, which is what the recorder aims at. */
  function WithinTheMinute(s: Vcr): int
    requires s.current.Some? && s.current.value in s.programs
  {
    var p := s.programs[s.current.value];
    Seconds((p.end - p.start + s.audience) as real + (60.0 - Min(s.time - s.since, 60.0)))
  }

  /** That is the same only if PRF was set just now. */
  lemma UnseenMinute(s: Vcr)
    requires Valid(s) && s.state.Ptr? && s.audience >= 0
    ensures ServiceLost(s).programs[s.current.value].end == WithinTheMinute(s) <==> s.time == s.since
  {
    UnseenDuration(s);
  }

  /** A program of ten minutes is about to begin for 40 seconds when all signals are lost. Its recording
      ends 80 seconds later than one minute after PRF was set. */
  lemma UnseenTooLong()
    ensures var p := Program(0, 600, 1, 0, 600, false);
      var s := Vcr(40, 40.0, seq(CHANNELS, i => Label(0, 0.0)), Ptr, 0.0, false, None, NO_PID,
                   [0], map[0 := p], Some(0), Pid(VPS, 1, false, true, true));
      && Valid(s) && WithinTheMinute(s) == 660 && ServiceLost(s).programs[0].end == 740
  {
    var p := Program(0, 600, 1, 0, 600, false);
    var s := Vcr(40, 40.0, seq(CHANNELS, i => Label(0, 0.0)), Ptr, 0.0, false, None, NO_PID,
                 [0], map[0 := p], Some(0), Pid(VPS, 1, false, true, true));
    assert s.programs.Keys == {0} && [0][1..] == [];
    assert Listed(s.schedule, s.programs);
    UnseenDuration(s);
  }
}
