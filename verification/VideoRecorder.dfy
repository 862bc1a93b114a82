/** The video recorder as its program: global state changed step by step, with the program's
    assertions. */
module VideoRecorder {
  import opened Options
  import opened LinkedLists
  import R = Recorder
  import Runs = RecorderRuns

  class Recorder {
    var audienceTime: int
    var timestamp: real
    var lcState: seq<R.Label>
    var vcrState: R.State
    var vcrStateSince: real
    var timerControlMode: bool
    var delayedStopAt: Option<real>
    var delayedStopPid: R.Pid
    var schedule: seq<Id>
    var programs: map<Id, R.Program>
    var currProgram: Option<Id>
    var currPid: R.Pid

    ghost function View(): R.Vcr
      reads this
    {
      R.Vcr(audienceTime, timestamp, lcState, vcrState, vcrStateSince, timerControlMode, delayedStopAt,
            delayedStopPid, schedule, programs, currProgram, currPid)
    }

    ghost predicate Consistent()
      reads this
    {
      R.Consistent(View())
    }

    constructor (list: seq<Id>, plans: map<Id, R.Program>)
      requires Tracks(list, plans.Keys)
      ensures View() == Runs.Initial(list, plans) && Consistent()
    {
      audienceTime, timestamp := 0, 0.0;
      lcState := seq(R.CHANNELS, i => R.Label(0, 0.0));
      vcrState, vcrStateSince := R.Stby, 0.0;
      timerControlMode := false;
      delayedStopAt, delayedStopPid := None, R.NO_PID;
      schedule, programs := list, plans;
      currProgram, currPid := None, R.NO_PID;
    }

    method RemoveProgramFromSchedule(p: Id)
      requires Consistent()
      requires currProgram == Some(p) ==> vcrState.Stby? || vcrState.Scan?
      modifies this`currProgram, this`schedule, this`programs
      ensures View() == R.Remove(old(View()), p)
    {
      if currProgram == Some(p) {
        assert vcrState.Stby? || vcrState.Scan?;
        currProgram := None;
      }
      for i := 0 to |schedule|
        invariant schedule == old(schedule) && programs == old(programs)
        invariant p !in schedule[..i]
      {
        if schedule[i] == p {
          WithoutAt(schedule, i, p);
          schedule := schedule[..i] + schedule[i + 1..];
          programs := programs - {p};
          return;
        }
      }
      WithoutAbsent(schedule, p);
      assert programs - {p} == programs;
    }

    method RemoveStaleProgramsFromSchedule()
      requires Consistent() && vcrState.Stby?
      modifies this`currProgram, this`schedule, this`programs
      ensures View() == R.RemoveStale(old(View()), old(schedule))
    {
      var list := schedule;
      while list != []
        invariant Consistent() && vcrState.Stby?
        invariant R.RemoveStale(View(), list) == R.RemoveStale(old(View()), old(schedule))
        invariant Distinct(list) && forall id <- list :: id in programs
        decreases |list|
      {
        var p := list[0];
        assert forall id <- list :: id == p || id in list[1..];
        if audienceTime >= programs[p].end && audienceTime >= programs[p].validEnd {
          RemoveProgramFromSchedule(p);
        }
        list := list[1..];
      }
    }

    method FindProgramByPil(pil: nat) returns (p: Option<Id>)
      requires Consistent()
      ensures p == R.FindByPil(schedule, programs, pil)
    {
      for i := 0 to |schedule|
        invariant R.FindByPil(schedule, programs, pil) == R.FindByPil(schedule[i..], programs, pil)
      {
        assert schedule[i..][1..] == schedule[i + 1..];
        if pil == programs[schedule[i]].pil {
          return Some(schedule[i]);
        }
      }
      return None;
    }

    method ChangeVcrState(newState: R.State)
      modifies this`vcrState, this`vcrStateSince
      ensures View() == R.Enter(old(View()), newState)
    {
      if newState == vcrState {
        return;
      }
      vcrState := newState;
      vcrStateSince := timestamp;
    }

    method StopRecordingNow()
      requires Consistent() && vcrState.Rec?
      modifies this`vcrState, this`vcrStateSince, this`delayedStopAt
      ensures View() == R.StopNow(old(View()))
    {
      assert vcrState.Rec?;
      ChangeVcrState(R.Scan);
      delayedStopAt := None;
    }

    method StopRecordingIn30s(pid: Option<R.Pid>)
      requires Consistent() && vcrState.Rec?
      modifies this`delayedStopPid, this`delayedStopAt
      ensures View() == R.StopLater(old(View()), pid)
    {
      assert vcrState.Rec?;
      delayedStopPid := if pid.None? then R.NO_PID else pid.value;
      if pid.None? && currPid.pil != 0 {
        delayedStopAt := Some(lcState[currPid.channel].lastAt + 31.0);
      } else {
        delayedStopAt := Some(timestamp + 30.0);
      }
    }

    method StartRecordingByPil(p: Id, pid: R.Pid)
      requires Consistent() && !timerControlMode && (vcrState.Scan? || vcrState.Ptr?)
      requires p in programs && pid.channel < R.CHANNELS
      modifies this`programs, this`vcrState, this`vcrStateSince, this`currProgram, this`currPid
      ensures View() == R.StartByPil(old(View()), p, pid)
    {
      assert !timerControlMode;
      assert vcrState.Scan? || vcrState.Ptr?;
      hide R.Listed;
      var q := programs[p];
      if !q.continues {
        q := q.(end := q.end + (audienceTime - q.start));
        q := q.(start := audienceTime);
        q := q.(continues := true);
      }
      programs := programs[p := q];
      ChangeVcrState(R.Rec);
      currProgram := Some(p);
      currPid := pid;
    }

    method PrepareToRecordByPil(p: Id, pid: R.Pid)
      requires Consistent() && !timerControlMode && vcrState.Scan?
      requires p in programs && pid.channel < R.CHANNELS
      modifies this`vcrState, this`vcrStateSince, this`currProgram, this`currPid
      ensures View() == R.PrepareByPil(old(View()), p, pid)
    {
      assert !timerControlMode;
      assert vcrState.Scan?;
      ChangeVcrState(R.Ptr);
      currProgram := Some(p);
      currPid := pid;
    }

    method StartRecordingByTimer(p: Id)
      requires Consistent() && timerControlMode && vcrState.Scan? && p in programs
      modifies this`vcrState, this`vcrStateSince, this`currProgram, this`currPid
      ensures View() == R.StartByTimer(old(View()), p)
    {
      assert timerControlMode;
      assert vcrState.Scan?;
      ChangeVcrState(R.Rec);
      currProgram := Some(p);
      currPid := R.NO_PID;
    }

    method RemoveProgramIfEnded(p: Id, pid: Option<R.Pid>)
      requires Consistent() && vcrState.Scan?
      modifies this`currProgram, this`schedule, this`programs
      ensures View() == R.RemoveIfEnded(old(View()), p, pid)
    {
      if timerControlMode {
        return;
      } else if pid.Some? && pid.value.pil == R.INTERRUPTION {
        return;
      }
      RemoveProgramFromSchedule(p);
    }

    method SignalOrServiceLost()
      requires Consistent() && !vcrState.Stby?
      modifies this
      ensures View() == R.ServiceLost(old(View()))
    {
      if timerControlMode {
        return;
      }
      timerControlMode := true;
      match vcrState
      case Stby =>
        assert false;
      case Scan =>
      case Ptr =>
        var p := currProgram.value;
        var end := programs[p].end - programs[p].start + audienceTime;
        end := R.Seconds(end as real + (60.0 - R.Min(vcrStateSince - timestamp, 60.0)));
        programs := programs[p := programs[p].(end := end, start := audienceTime)];
        ChangeVcrState(R.Rec);
        currPid := R.NO_PID;
      case Rec =>
        if delayedStopAt.Some? {
        } else if programs[currProgram.value].start == programs[currProgram.value].end {
          StopRecordingIn30s(None);
        } else {
          currPid := R.NO_PID;
        }
    }

    method PilNoLongerTransmitted(pid: Option<R.Pid>)
      requires Consistent() && R.Busy(vcrState) && !timerControlMode
      modifies this
      ensures View() == R.NoLongerTransmitted(old(View()), pid)
    {
      match vcrState {
        case Stby =>
          assert false;
        case Scan =>
          assert false;
        case Ptr =>
          assert !timerControlMode;
          ChangeVcrState(R.Scan);
          return;
        case Rec =>
          assert !timerControlMode;
          if delayedStopAt.Some? {
            return;
          }
      }
      var mi: bool;
      if pid.Some? && !pid.value.luf && (pid.value.pil == R.INTERRUPTION || pid.value.pil == R.INHIBIT_TERMINATE) {
        mi := pid.value.mi;
      } else if currPid.pil == 0 {
        mi := true;
      } else {
        mi := currPid.mi;
      }
      if mi {
        StopRecordingNow();
        RemoveProgramIfEnded(currProgram.value, pid);
      } else {
        StopRecordingIn30s(pid);
      }
    }

    method ReceivedIntRit(pid: R.Pid)
      requires Consistent() && !vcrState.Stby?
      modifies this
      ensures View() == R.ReceivedEnd(old(View()), pid)
    {
      match vcrState {
        case Stby =>
          assert false;
        case Scan =>
          timerControlMode := false;
          return;
        case Ptr =>
          assert !timerControlMode;
          if pid.channel != currPid.channel {
            return;
          }
        case Rec =>
          if timerControlMode {
            return;
          } else if pid.channel != currPid.channel {
            return;
          }
      }
      PilNoLongerTransmitted(Some(pid));
    }

    method Select(p: Option<Id>, pid: R.Pid)
      requires Consistent() && vcrState.Scan? && !timerControlMode && pid.channel < R.CHANNELS
      requires p == R.FindByPil(schedule, programs, pid.pil)
      modifies this
      ensures View() == R.Select(old(View()), pid)
    {
      assert vcrState.Scan?;
      if p.None? {
        return;
      }
      if pid.prf {
        PrepareToRecordByPil(p.value, pid);
      } else {
        StartRecordingByPil(p.value, pid);
      }
    }

    method ReceivedPil(pid: R.Pid)
      requires Consistent() && !vcrState.Stby? && pid.channel < R.CHANNELS
      modifies this
      ensures View() == R.ReceivedPil(old(View()), pid)
    {
      hide R.NoLongerTransmitted;
      hide R.Select;
      hide R.StartByPil;
      var p: Option<Id>;
      match vcrState {
        case Stby =>
          assert false;
        case Scan =>
          timerControlMode := false;
          if pid.luf {
            return;
          }
          p := FindProgramByPil(pid.pil);
        case Ptr =>
          assert !timerControlMode;
          if pid.channel != currPid.channel {
            return;
          } else if pid.luf {
            PilNoLongerTransmitted(Some(pid));
            return;
          } else if pid.pil != currPid.pil {
            PilNoLongerTransmitted(Some(pid));
            p := FindProgramByPil(pid.pil);
          } else {
            if pid.prf && timestamp < vcrStateSince + 60.0 {
              return;
            }
            StartRecordingByPil(currProgram.value, pid);
            return;
          }
        case Rec =>
          if timerControlMode {
            if pid.luf {
              return;
            }
            p := FindProgramByPil(pid.pil);
            if p == currProgram {
              timerControlMode := false;
              currPid := pid;
              delayedStopAt := None;
              return;
            } else if p.None? {
              StopRecordingIn30s(None);
              return;
            } else {
              timerControlMode := false;
              StopRecordingNow();
            }
          } else if pid.channel != currPid.channel {
            return;
          } else if pid.luf {
            PilNoLongerTransmitted(Some(pid));
            return;
          } else if pid.pil == currPid.pil {
            delayedStopAt := None;
            return;
          } else {
            PilNoLongerTransmitted(Some(pid));
            if !vcrState.Scan? {
              return;
            }
            p := FindProgramByPil(pid.pil);
          }
      }
      Select(p, pid);
    }

    method EventHandler(pid: R.Pid)
      requires Consistent() && !vcrState.Stby?
      modifies this
      ensures View() == R.Received(old(View()), pid)
    {
      hide R.Act;
      assert !vcrState.Stby?;
      if pid.channel > R.VPS {
        return;
      }
      if pid.channel == R.VPS && R.TeletextAvailable(lcState) {
      } else {
        Dispatch(pid);
      }
      lcState := lcState[pid.channel := R.Label(pid.pil, timestamp)];
    }

    method Dispatch(pid: R.Pid)
      requires Consistent() && !vcrState.Stby? && pid.channel < R.CHANNELS
      modifies this
      ensures View() == R.Act(old(View()), pid)
    {
      hide R.ServiceLost;
      hide R.ReceivedEnd;
      hide R.ReceivedPil;
      if pid.pil == R.TIMER_CONTROL || pid.pil == R.CONTINUE {
        SignalOrServiceLost();
      } else if pid.pil == R.INTERRUPTION || pid.pil == R.INHIBIT_TERMINATE {
        ReceivedIntRit(pid);
      } else {
        ReceivedPil(pid);
      }
    }

    method InPilValidityWindow() returns (r: bool)
      requires Consistent()
      ensures r == R.AnyInWindow(View())
    {
      for i := 0 to |schedule|
        invariant forall k :: 0 <= k < i ==> !R.InWindow(programs[schedule[k]], audienceTime)
      {
        var p := programs[schedule[i]];
        if (audienceTime >= p.start && audienceTime < p.end)
           || (audienceTime >= p.validStart && audienceTime < p.validEnd) {
          assert R.InWindow(programs[schedule[i]], audienceTime);
          return true;
        }
      }
      return false;
    }

    method TimerControl()
      requires Consistent() && timerControlMode && !vcrState.Stby?
      modifies this
      ensures View() == R.TimerControl(old(View()))
    {
      assert timerControlMode;
      match vcrState {
        case Stby =>
          assert false;
        case Ptr =>
          assert false;
        case Scan =>
        case Rec =>
          if delayedStopAt.Some? {
            return;
          } else if audienceTime >= programs[currProgram.value].end {
            StopRecordingNow();
            RemoveProgramFromSchedule(currProgram.value);
          } else {
            return;
          }
          assert vcrState.Scan?;
      }
      ghost var was := View();
      var i := 0;
      while i < |schedule|
        invariant 0 <= i <= |schedule|
        invariant View() == was
        invariant R.FindByTime(schedule, programs, audienceTime) == R.FindByTime(schedule[i..], programs, audienceTime)
      {
        var p := schedule[i];
        assert schedule[i..][1..] == schedule[i + 1..];
        if audienceTime >= programs[p].start && audienceTime < programs[p].end {
          StartRecordingByTimer(p);
          return;
        }
        i := i + 1;
      }
    }

    method FindChannels() returns (activeChs: set<nat>, lostChs: set<nat>)
      requires |lcState| == R.CHANNELS
      ensures activeChs == R.ActiveChannels(lcState, timestamp)
      ensures lostChs == R.LostChannels(lcState, timestamp)
    {
      activeChs, lostChs := {}, {};
      for i := 0 to R.CHANNELS
        invariant activeChs == set k: nat | k < i && R.Active(lcState, timestamp, k)
        invariant lostChs == set k: nat | k < i && R.Lost(lcState, timestamp, k)
      {
        if lcState[i].pil != 0 {
          if timestamp >= lcState[i].lastAt + R.Timeout(i) {
            lostChs := lostChs + {i};
          } else {
            activeChs := activeChs + {i};
          }
        }
      }
    }

    method PdcSignalCheck()
      requires Consistent() && !vcrState.Stby?
      modifies this
      ensures View() == R.SignalCheck(old(View()))
    {
      hide R.ServiceLost;
      hide R.NoLongerTransmitted;
      if timerControlMode {
        return;
      }
      var activeChs, lostChs := FindChannels();
      if activeChs == {} {
        if lostChs != {} {
          SignalOrServiceLost();
        }
      } else {
        if activeChs == {R.VPS} && 0 in lostChs {
          if currPid.pil == lcState[R.VPS].pil {
            currPid := currPid.(channel := R.VPS);
          }
        }
        if (vcrState.Ptr? || vcrState.Rec?) && currPid.pil != 0 && currPid.channel in lostChs {
          PilNoLongerTransmitted(None);
        }
      }
      ClearLost(lostChs);
    }

    method ClearLost(lostChs: set<nat>)
      requires |lcState| == R.CHANNELS && lostChs == R.LostChannels(lcState, timestamp)
      modifies this`lcState
      ensures lcState == R.Cleared(old(lcState), timestamp)
    {
      for i := 0 to R.CHANNELS
        invariant |lcState| == R.CHANNELS
        invariant forall k :: 0 <= k < i ==> lcState[k] == R.Cleared(old(lcState), timestamp)[k]
        invariant forall k :: i <= k < R.CHANNELS ==> lcState[k] == old(lcState)[k]
      {
        if i in lostChs {
          lcState := lcState[i := R.Label(0, timestamp)];
        }
      }
    }

    method DecodeFrame(pids: seq<R.Pid>)
      requires Consistent() && !vcrState.Stby?
      modifies this
      ensures Consistent() && !vcrState.Stby?
      ensures View() == Runs.ReceivedAll(old(View()), pids)
    {
      hide R.Received;
      hide R.Consistent;
      var i := 0;
      while i < |pids|
        invariant 0 <= i <= |pids|
        invariant Consistent() && !vcrState.Stby?
        invariant Runs.ReceivedAll(View(), pids[i..]) == Runs.ReceivedAll(old(View()), pids)
      {
        assert pids[i..][1..] == pids[i + 1..];
        EventHandler(pids[i]);
        i := i + 1;
      }
    }

    method CaptureAndDecodeFrame(f: Runs.Captured)
      requires Consistent() && !vcrState.Stby?
      modifies this
      ensures Consistent() && !vcrState.Stby?
      ensures View() == Runs.ReceivedAll(R.NextFrame(old(View()), f.time), f.pids)
    {
      hide Runs.ReceivedAll;
      timestamp := f.time;
      audienceTime := R.Seconds(timestamp);
      if vcrState.Rec? && delayedStopAt.Some? && timestamp >= delayedStopAt.value {
        StopRecordingNow();
        assert vcrState.Scan?;
        RemoveProgramIfEnded(currProgram.value, Some(delayedStopPid));
      }
      assert View() == R.NextFrame(old(View()), f.time);
      DecodeFrame(f.pids);
    }

    method AfterFrame(lastTimestamp: real)
      requires Consistent() && !vcrState.Stby?
      modifies this
      ensures Consistent()
      ensures View() == R.EndOfFrame(
                if R.Seconds(lastTimestamp) != R.Seconds(timestamp) then R.OnceASecond(old(View())) else old(View()))
      ensures timestamp == old(timestamp)
    {
      hide R.SignalCheck;
      hide R.TimerControl;
      if R.Seconds(lastTimestamp) != R.Seconds(timestamp) {
        Runs.SignalCheckTime(View());
        if timerControlMode {
          Runs.UnderTimer(View());
        } else {
          PdcSignalCheck();
        }
        if timerControlMode {
          Runs.TimerControlTime(View());
          TimerControl();
        }
      }
      var wait := InPilValidityWindow();
      if vcrState.Scan? && !wait {
        ChangeVcrState(R.Stby);
      }
    }

    method CaptureFrame(lastTimestamp: real, f: Runs.Captured)
      requires Consistent() && !vcrState.Stby?
      modifies this
      ensures Consistent() && timestamp == f.time
      ensures View() == Runs.CaptureFrame(old(View()), lastTimestamp, f)
    {
      hide R.NextFrame;
      hide R.EndOfFrame;
      hide R.OnceASecond;
      hide R.Consistent;
      NextTime(View(), f);
      CaptureAndDecodeFrame(f);
      AfterFrame(lastTimestamp);
    }

    /** The user quits when there are no more frames. */
    method CaptureLoop(frames: seq<Runs.Captured>)
      requires Consistent() && vcrState.Stby?
      modifies this
      ensures Consistent()
      ensures View() == Runs.Capture(R.Enter(old(View()), R.Scan), 0.0, frames)
    {
      hide Runs.CaptureFrame;
      hide R.Consistent;
      assert vcrState.Stby?;
      CaptureMayBegin(View());
      ChangeVcrState(R.Scan);
      var lastTimestamp := 0.0;
      var i := 0;
      while !vcrState.Stby? && i < |frames|
        invariant 0 <= i <= |frames|
        invariant Consistent()
        invariant Runs.Capture(View(), lastTimestamp, frames[i..])
            == Runs.Capture(R.Enter(old(View()), R.Scan), 0.0, frames)
        decreases |frames| - i
      {
        assert frames[i..][1..] == frames[i + 1..];
        CaptureFrame(lastTimestamp, frames[i]);
        lastTimestamp := timestamp;
        i := i + 1;
      }
    }

    method FirstScan() returns (first: int)
      requires Consistent() && schedule != []
      ensures first == R.FirstScan(schedule, programs)
    {
      first := programs[schedule[0]].start;
      for i := 0 to |schedule|
        invariant exists id <- schedule :: first == programs[id].start || first == programs[id].validStart
        invariant forall id <- schedule[..i] :: first <= programs[id].start && first <= programs[id].validStart
      {
        var p := schedule[i];
        assert forall id <- schedule[..i + 1] :: id in schedule[..i] || id == p;
        if programs[p].start < first {
          first := programs[p].start;
        }
        if programs[p].validStart < first {
          first := programs[p].validStart;
        }
      }
      assert schedule[..|schedule|] == schedule;
    }

    /** One pass of the standby loop, false when the schedule is empty. */
    method Standby(t: Runs.Sitting) returns (more: bool)
      requires Consistent() && vcrState.Stby?
      modifies this
      ensures Consistent()
      ensures View() == Runs.Sit(old(View()), t)
      ensures more == !Runs.NothingLeft(old(View()), t)
    {
      assert vcrState.Stby?;
      audienceTime := t.now;
      RemoveStaleProgramsFromSchedule();
      if schedule == [] {
        return false;
      }
      var first := FirstScan();
      if first > audienceTime {
        audienceTime := t.woken;
      }
      CaptureLoop(t.frames);
      return true;
    }

    method StandbyLoop(sittings: seq<Runs.Sitting>)
      requires Consistent()
      modifies this
      ensures Consistent()
      ensures View() == Runs.Watch(old(View()), sittings)
    {
      hide Runs.Sit;
      hide Runs.NothingLeft;
      hide R.Consistent;
      var i := 0;
      while vcrState.Stby? && i < |sittings|
        invariant 0 <= i <= |sittings|
        invariant Consistent()
        invariant Runs.Watch(View(), sittings[i..]) == Runs.Watch(old(View()), sittings)
        decreases |sittings| - i
      {
        assert sittings[i..][1..] == sittings[i + 1..];
        var more := Standby(sittings[i]);
        if !more {
          return;
        }
        i := i + 1;
      }
    }
  }

  lemma NextTime(s: R.Vcr, f: Runs.Captured)
    requires R.Consistent(s) && !s.state.Stby?
    ensures Runs.ReceivedAll(R.NextFrame(s, f.time), f.pids).time == f.time
  {
    Runs.ReceivedAllTime(R.NextFrame(s, f.time), f.pids);
  }

  lemma CaptureMayBegin(s: R.Vcr)
    requires R.Consistent(s) && s.state.Stby?
    ensures R.Consistent(R.Enter(s, R.Scan))
  {
  }
}
