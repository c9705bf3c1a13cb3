/**
 How long an alarm lasts (app/alarm.c): over every run of the whole system without an alarm_stop, an alarm ends
 1200 ticks after its trigger and its siren 300, whatever else happens in between, and the next trigger with room
 sounds again.
 */
module AlarmEnds {
  import opened Machine
  import opened AlarmParts
  import opened AlarmRuns
  import opened AlarmCounts

  function Ticked(acts: seq<Step>): nat
  {
    if acts == [] then 0 else (if acts[0] == SirenTick then 1 else 0) + Ticked(acts[1..])
  }

  function Less(a: nat, b: nat): nat { if a < b then b - a else 0 }

  /** An active alarm n ticks on, when it has more of them left. */
  function Later(a: Alarm, n: nat): Alarm
    requires n < a.alarmTmr
  {
    Alarm(AlarmActive, n < a.sirenTmr, Less(n, a.sirenTmr), a.alarmTmr - n, a.cnt)
  }

  /** Only a tick and alarm_stop act on an active alarm. */
  lemma OthersLeave(s: System, u: Setup, a: Step)
    requires Wf(s) && s.alarm.state == AlarmActive && a != SirenTick && a != DisarmStop
    ensures After(s, u, a).alarm == s.alarm && After(s, u, a).sirenTicks == s.sirenTicks
  {
    if a.Go? && a.k < TASKS {
      GoLeaves(s, u, a.k, a.now);
    }
  }

  lemma GoLeaves(s: System, u: Setup, k: nat, now: nat)
    requires Wf(s) && k < TASKS
    ensures Gone(s, u, k, now).alarm == s.alarm && Gone(s, u, k, now).sirenTicks == s.sirenTicks
  {
  }

  /**
   Over every run without an alarm_stop and with fewer ticks than the alarm has left, new alarm events included:
   the alarm stays active, its siren is on for just as long as its own timer says, and nothing is counted.
   */
  lemma {:induction false} StaysActive(s: System, u: Setup, acts: seq<Step>, t: System)
    requires IsRun(s, u, acts, t) && NoStop(acts) && SirenInv(s.alarm)
    requires s.alarm.state == AlarmActive && Ticked(acts) < s.alarm.alarmTmr
    ensures Wf(t) && t.alarm == Later(s.alarm, Ticked(acts))
    ensures t.sirenTicks + t.alarm.sirenTmr == s.sirenTicks + s.alarm.sirenTmr
    decreases |acts|
  {
    if acts != [] {
      assert acts[0] in acts;
      if acts[0] != SirenTick {
        OthersLeave(s, u, acts[0]);
      }
      StaysActive(After(s, u, acts[0]), u, acts[1..], t);
    }
  }

  /** The last of its ticks ends the alarm, and its siren if that is still on. */
  lemma EndsThen(s: System, u: Setup, acts: seq<Step>, m: System)
    requires IsRun(s, u, acts, m) && NoStop(acts) && SirenInv(s.alarm)
    requires s.alarm.state == AlarmActive && Ticked(acts) == s.alarm.alarmTmr - 1
    ensures Wf(m) && After(m, u, SirenTick).alarm == Alarm(AlarmTimeout, false, 0, 0, s.alarm.cnt)
    ensures After(m, u, SirenTick).sirenTicks == s.sirenTicks + s.alarm.sirenTmr
  {
    StaysActive(s, u, acts, m);
  }

  /** A trigger outside an alarm counts, and sounds for 300 ticks of 1200 exactly when it is one of the first three. */
  lemma TriggerExact(a: Alarm)
    requires SirenInv(a) && a.state != AlarmActive && a.cnt < 0xFFFF
    ensures a.cnt < 3 ==> Trigger(a) == Alarm(AlarmActive, true, 300, 1200, a.cnt + 1)
    ensures a.cnt >= 3 ==> Trigger(a) == a.(cnt := a.cnt + 1)
  {
  }

  /** alarm_stop ends everything, and the next trigger counts from one again. */
  lemma StopExact(a: Alarm)
    requires SirenInv(a)
    ensures Stop(a) == Alarm(AlarmIdle, false, 0, 0, 0) && Trigger(Stop(a)) == Alarm(AlarmActive, true, 300, 1200, 1)
  {
  }

  lemma Sounds(s: System, u: Setup)
    requires Wf(s) && SirenInv(s.alarm) && s.alarm.state != AlarmActive && s.alarm.cnt < 3 && s.queued > 0
    ensures var a := After(s, u, Process);
            && a.alarm == Alarm(AlarmActive, true, 300, 1200, s.alarm.cnt + 1)
            && a.queued == s.queued - 1 && a.sirenTicks == s.sirenTicks
  {
    TriggerExact(s.alarm);
  }

  /**
   An alarm event is processed outside an alarm, with room for its sound. Over every run from there without an
   alarm_stop: active for 1199 ticks and sounding for the first 299 of them, ended by the 1200th.
   */
  lemma AlarmLasts(s: System, u: Setup, acts: seq<Step>, m: System)
    requires Wf(s) && SirenInv(s.alarm) && s.alarm.state != AlarmActive && s.alarm.cnt < 3 && s.queued > 0
    requires IsRun(After(s, u, Process), u, acts, m) && NoStop(acts)
    ensures Ticked(acts) < 1200 ==> m.alarm.state == AlarmActive && (m.alarm.siren <==> Ticked(acts) < 300)
    ensures Ticked(acts) == 1199 ==>
              && Wf(m) && After(m, u, SirenTick).alarm == Alarm(AlarmTimeout, false, 0, 0, s.alarm.cnt + 1)
              && After(m, u, SirenTick).sirenTicks == s.sirenTicks + 300
  {
    var a := After(s, u, Process);
    Sounds(s, u);
    if Ticked(acts) < 1200 {
      StaysActive(a, u, acts, m);
    }
    if Ticked(acts) == 1199 {
      EndsThen(a, u, acts, m);
    }
  }

  /** The alarm has run out: the next alarm event sounds again if and only if fewer than three have sounded. */
  lemma NextSounds(s: System, u: Setup)
    requires Wf(s) && SirenInv(s.alarm) && s.alarm.state == AlarmTimeout && s.alarm.cnt < 0xFFFF && s.queued > 0
    ensures var t := After(s, u, Process);
            && (t.alarm.siren <==> s.alarm.cnt < 3)
            && (t.alarm.siren ==> t.alarm.state == AlarmActive && t.alarm.sirenTmr == 300 && t.alarm.alarmTmr == 1200)
  {
    TriggerExact(s.alarm);
  }

  // ---- the sound of three alarms ----

  /** n ticks of 100 ms. */
  lemma {:induction false} TickRun(s: System, u: Setup, n: nat) returns (acts: seq<Step>, t: System)
    requires Wf(s)
    ensures IsRun(s, u, acts, t) && NoStop(acts) && Ticked(acts) == n && t.queued == s.queued
    decreases n
  {
    if n == 0 {
      acts, t := [], s;
    } else {
      var rest;
      rest, t := TickRun(After(s, u, SirenTick), u, n - 1);
      acts := [SirenTick] + rest;
      assert acts[1..] == rest;
      Prepend(s, u, SirenTick, rest, t);
    }
  }

  /** An alarm event processed outside an alarm, and 1200 ticks. */
  lemma OneAlarm(s: System, u: Setup) returns (acts: seq<Step>, t: System)
    requires Inv(s) && s.alarm.state != AlarmActive && s.alarm.cnt < 3 && s.queued > 0
    ensures IsRun(s, u, acts, t) && NoStop(acts) && Inv(t) && t.queued == s.queued - 1
    ensures t.alarm == Alarm(AlarmTimeout, false, 0, 0, s.alarm.cnt + 1) && t.sirenTicks == s.sirenTicks + 300
  {
    var a := After(s, u, Process);
    var m;
    Sounds(s, u);
    acts, m := TickRun(a, u, 1199);
    AlarmLasts(s, u, acts, m);
    t := After(m, u, SirenTick);
    Extend(a, u, acts, m, SirenTick);
    Prepend(s, u, Process, acts + [SirenTick], t);
    acts := [Process] + (acts + [SirenTick]);
    AlarmBounds(s, u, acts, t);
  }

  /** The bound of 900 ticks on the siren is reached: three queued alarms from the idle state. */
  lemma SoundsNineHundred(s: System, u: Setup) returns (acts: seq<Step>, t: System)
    requires Inv(s) && s.alarm.state != AlarmActive && s.alarm.cnt == 0 && s.queued >= 3
    ensures IsRun(s, u, acts, t) && NoStop(acts) && t.sirenTicks == s.sirenTicks + 900
  {
    var m, n, b, c;
    acts, m := OneAlarm(s, u);
    b, n := OneAlarm(m, u);
    c, t := OneAlarm(n, u);
    ExtendAll(s, u, acts, m, b, n);
    ExtendAll(s, u, acts + b, n, c, t);
    acts := acts + b + c;
  }
}
