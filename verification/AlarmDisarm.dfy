/** What is left of the alarm after a disarm: the handlers that were past their test, and the events in the queue. */
module AlarmDisarm {
  import opened Machine
  import opened AlarmParts
  import opened AlarmRuns

  function OnItsWay(st: Stage): nat { if st.Sure? || st.Starting? then 1 else 0 }

  /** How many handlers are past their last test, an entry delay that was let start counting as one. */
  function Loaded(s: System): nat
    requires Wf(s)
  {
    OnItsWay(s.hand[TIMER]) + OnItsWay(s.hand[SLOW]) + if Entering(s) then 1 else 0
  }

  /** Disarmed, and no arming under way. */
  predicate Off(s: System) { s.section.state == StUnset && s.cmd != Arming }

  predicate NoArming(acts: seq<Step>) { forall a :: a in acts ==> !a.ArmTimers? }

  predicate Silent(s: System)
    requires Wf(s)
  {
    !s.alarm.siren && s.queued == 0 && Loaded(s) == 0
  }

  /** A disarmed state without inputs that react around the clock. */
  ghost predicate Guarded(s: System)
  {
    Wf(s) && SectionInv(s) && Off(s) && forall n :: 0 <= n < INPUTS ==> s.inputs[n].reaction != Around24H
  }

  lemma StartingOff(s: System, u: Setup, k: nat, now: nat)
    requires Guarded(s) && k < TASKS && s.hand[k].Starting?
    ensures var t := After(s, u, Go(k, now)); Off(t) && t.total + Loaded(t) <= s.total + Loaded(s)
  {
  }

  lemma AlarmedOff(s: System, u: Setup, k: nat, now: nat)
    requires Guarded(s) && k < TASKS && (s.hand[k].Sure? || s.hand[k].Firing?)
    ensures var t := After(s, u, Go(k, now)); Off(t) && t.total + Loaded(t) <= s.total + Loaded(s)
  {
  }

  lemma GoOff(s: System, u: Setup, k: nat, now: nat)
    requires Guarded(s) && k < TASKS
    ensures var t := After(s, u, Go(k, now)); Off(t) && t.total + Loaded(t) <= s.total + Loaded(s)
  {
    if s.hand[k].Starting? {
      StartingOff(s, u, k, now);
    } else if s.hand[k].Sure? || s.hand[k].Firing? {
      AlarmedOff(s, u, k, now);
    }
  }

  lemma GoSilent(s: System, u: Setup, k: nat, now: nat)
    requires Guarded(s) && k < TASKS && Silent(s)
    ensures Silent(After(s, u, Go(k, now)))
  {
  }

  lemma StepOff(s: System, u: Setup, a: Step)
    requires Inv(s) && Off(s) && !a.ArmTimers?
    ensures var t := After(s, u, a);
            Off(t) && t.total + Loaded(t) <= s.total + Loaded(s) && (Silent(s) ==> Silent(t))
  {
    if a.Go? && a.k < TASKS {
      GoOff(s, u, a.k, a.now);
      if Silent(s) {
        GoSilent(s, u, a.k, a.now);
      }
    }
  }

  /**
   From the end of section_unset to the next arming at most the handlers already past their test make
   an alarm event, each one; if there is none and the siren is off with nothing queued, it stays off.
   */
  lemma {:induction false} NoAlarmAfterDisarm(s: System, u: Setup, acts: seq<Step>, t: System)
    requires Inv(s) && Off(s) && IsRun(s, u, acts, t) && NoArming(acts)
    ensures Inv(t) && Off(t) && t.total + Loaded(t) <= s.total + Loaded(s)
    ensures Silent(s) ==> Silent(t)
    decreases |acts|
  {
    if acts != [] {
      assert acts[0] in acts;
      StepKeeps(s, u, acts[0]);
      StepOff(s, u, acts[0]);
      NoAlarmAfterDisarm(After(s, u, acts[0]), u, acts[1..], t);
    }
  }

  predicate IsHandler(a: Step) { a.Check? || a.Go? }

  function Rank(s: System): nat
    requires Wf(s)
  {
    (if s.hand[FAST] == Firing then 0 else if s.hand[FAST] == Expired then 1 else 2) + if s.section.timer > 0 then 3 else 0
  }

  /** A running entry delay ends in an alarm event. */
  lemma {:induction false} EntryFires(s: System, u: Setup) returns (acts: seq<Step>, t: System)
    requires Inv(s) && TimerInv(s) && Timed(u) && Entering(s)
    ensures IsRun(s, u, acts, t) && t.total == s.total + 1 && forall a :: a in acts ==> IsHandler(a)
    decreases Rank(s)
  {
    var a := if s.hand[FAST] == Free then Check(s.section.timer + 1) else Go(FAST, 0);
    var m := After(s, u, a);
    if s.hand[FAST] == Firing {
      acts, t := [], m;
    } else {
      StepKeeps(s, u, a);
      TimerKeeps(s, u, a);
      acts, t := EntryFires(m, u);
    }
    Prepend(s, u, a, acts, t);
    acts := [a] + acts;
  }

  /** A handler on its way to an entry delay can be followed by an alarm event. */
  lemma {:induction false} StartingFires(s: System, u: Setup, k: nat) returns (acts: seq<Step>, t: System)
    requires Inv(s) && TimerInv(s) && Timed(u) && k < TASKS && s.hand[k].Starting?
    ensures IsRun(s, u, acts, t) && t.total == s.total + 1 && forall a :: a in acts ==> IsHandler(a)
    decreases (if s.hand[FAST] == Expired then 1 else 0) + if s.section.timer > 0 then 2 else 0
  {
    if Entering(s) {
      acts, t := EntryFires(s, u);
    } else {
      var a := if s.hand[FAST] == Expired then Go(FAST, 0)
               else if s.section.timer > 0 then Check(s.section.timer + 1) else Go(k, 0);
      var m := After(s, u, a);
      StepKeeps(s, u, a);
      TimerKeeps(s, u, a);
      if a == Go(k, 0) {
        acts, t := EntryFires(m, u);
      } else {
        acts, t := StartingFires(m, u, k);
      }
      Prepend(s, u, a, acts, t);
      acts := [a] + acts;
    }
  }

  /** A handler past its test makes its event, whatever command has been carried out since. */
  lemma {:induction false} AlarmStillComes(s: System, u: Setup) returns (acts: seq<Step>, t: System)
    requires Inv(s) && TimerInv(s) && Timed(u) && Loaded(s) > 0
    ensures IsRun(s, u, acts, t) && t.total == s.total + 1 && forall a :: a in acts ==> IsHandler(a)
  {
    if Entering(s) {
      acts, t := EntryFires(s, u);
    } else {
      var k := if OnItsWay(s.hand[TIMER]) > 0 then TIMER else SLOW;
      if s.hand[k].Sure? {
        acts, t := [Go(k, 0)], After(s, u, Go(k, 0));
      } else {
        acts, t := StartingFires(s, u, k);
      }
    }
  }

  ghost predicate NoMoreAlarms(s: System, u: Setup)
  {
    forall acts, t :: IsRun(s, u, acts, t) && NoArming(acts) ==> t.total == s.total
  }

  /** After a disarm no run makes an alarm event before the next arming exactly when nothing was past its test. */
  lemma {:induction false} DisarmExact(s: System, u: Setup)
    requires Inv(s) && TimerInv(s) && Timed(u) && Off(s)
    ensures NoMoreAlarms(s, u) <==> Loaded(s) == 0
  {
    if Loaded(s) == 0 {
      forall acts, t | IsRun(s, u, acts, t) && NoArming(acts) ensures t.total == s.total {
        NoAlarmAfterDisarm(s, u, acts, t);
        TotalGrows(s, u, acts, t);
      }
    } else {
      var acts, t := AlarmStillComes(s, u);
    }
  }

  lemma {:induction false} TotalGrows(s: System, u: Setup, acts: seq<Step>, t: System)
    requires IsRun(s, u, acts, t)
    ensures s.total <= t.total
    decreases |acts|
  {
    if acts != [] {
      TotalGrows(After(s, u, acts[0]), u, acts[1..], t);
    }
  }

  function Disarmed(s: System, u: Setup): (t: System)
    requires Wf(s)
    ensures Wf(t)
  {
    After(After(After(After(s, u, DisarmTimers), u, DisarmState), u, DisarmStop), u, DisarmRest)
  }

  /** A disarm that nothing interrupts ends every delay; what it leaves are the handlers past their test. */
  lemma DisarmLeaves(s: System, u: Setup)
    requires Inv(s) && s.cmd == NoCommand && s.section.state != StUnset
    ensures var t := Disarmed(s, u);
            Off(t) && !t.alarm.siren && t.total == s.total && t.hand == s.hand
            && Loaded(t) == OnItsWay(s.hand[TIMER]) + OnItsWay(s.hand[SLOW]) + if s.hand[FAST] == Firing then 1 else 0
  {
  }

  // ---- the siren after a disarm ----

  /** Handlers leave the alarm alone; an event they make joins the queue. */
  lemma {:induction false} HandlersQueue(s: System, u: Setup, acts: seq<Step>, t: System)
    requires IsRun(s, u, acts, t) && forall a :: a in acts ==> IsHandler(a)
    ensures t.alarm == s.alarm && s.total <= t.total
    ensures t.total == s.total ==> t.queued == s.queued
    ensures t.total == s.total + 1 ==> t.queued == Enqueued(s.queued)
    decreases |acts|
  {
    if acts != [] {
      assert acts[0] in acts;
      HandlersQueue(After(s, u, acts[0]), u, acts[1..], t);
    }
  }

  /** Some run before the next arming ends with the siren on. */
  ghost predicate CanSound(s: System, u: Setup)
  {
    exists acts, t :: IsRun(s, u, acts, t) && NoArming(acts) && t.alarm.siren
  }

  lemma ProcessSounds(s: System, u: Setup)
    requires Inv(s) && s.queued > 0 && s.alarm.state != AlarmActive && s.alarm.cnt < ALARMS_MAX
    ensures IsRun(s, u, [Process], After(s, u, Process)) && After(s, u, Process).alarm.siren
  {
    assert [Process][1..] == [];
  }

  /**
   A silent alarm that has room for a trigger can sound before the next arming exactly when an alarm event is
   queued or a handler is past its test.
   */
  lemma {:induction false} SoundExact(s: System, u: Setup)
    requires Inv(s) && TimerInv(s) && Timed(u) && Off(s)
    requires !s.alarm.siren && s.alarm.state != AlarmActive && s.alarm.cnt < ALARMS_MAX
    ensures CanSound(s, u) <==> s.queued > 0 || Loaded(s) > 0
  {
    if s.queued > 0 {
      ProcessSounds(s, u);
    } else if Loaded(s) > 0 {
      var acts, m := AlarmStillComes(s, u);
      HandlersQueue(s, u, acts, m);
      NoAlarmAfterDisarm(s, u, acts, m);
      ProcessSounds(m, u);
      ExtendAll(s, u, acts, m, [Process], After(m, u, Process));
      assert IsRun(s, u, acts + [Process], After(m, u, Process)) && NoArming(acts + [Process]);
    } else {
      forall acts, t | IsRun(s, u, acts, t) && NoArming(acts) ensures !t.alarm.siren {
        NoAlarmAfterDisarm(s, u, acts, t);
      }
    }
  }

  /** Disarming silences the siren; it can sound again before the next arming exactly if an event is queued or to come. */
  lemma LateEventSounds(s: System, u: Setup)
    requires Inv(s) && TimerInv(s) && Timed(u) && s.cmd == Unsetting
    ensures !After(s, u, DisarmStop).alarm.siren
    ensures CanSound(After(s, u, DisarmStop), u) <==> s.queued > 0 || Loaded(s) > 0
  {
    StepKeeps(s, u, DisarmStop);
    TimerKeeps(s, u, DisarmStop);
    SoundExact(After(s, u, DisarmStop), u);
  }

  // ---- a run from boot ----

  /** Armed and nothing under way; input n starts an entry delay after a postponed signal. */
  predicate Ready(s: System, n: nat)
  {
    Wf(s) && n < INPUTS && s.section.state == StSet && s.cmd == NoCommand && s.hand == [Free, Free, Free]
    && s.section.timer == 0 && !s.section.tmIn && !s.section.tmOut
    && s.inputs[n].reaction == Delay && s.inputs[n].postpone > 0 && s.inputs[n].tmr == 0 && s.inputs[n].cnt < ALARM_MAX_CNT
  }

  lemma {:induction false} Ticks(s: System, u: Setup, n: nat) returns (acts: seq<Step>)
    requires Wf(s) && n < INPUTS && s.hand[TIMER] == Free && s.inputs[n].tmr > 0
    ensures IsRun(s, u, acts, s.(inputs := s.inputs[n := s.inputs[n].(tmr := 0)], hand := s.hand[TIMER := Counted(n)]))
    ensures forall a :: a in acts ==> a.Tick?
    decreases s.inputs[n].tmr
  {
    var m := After(s, u, Tick(n));
    var t := s.(inputs := s.inputs[n := s.inputs[n].(tmr := 0)], hand := s.hand[TIMER := Counted(n)]);
    if s.inputs[n].tmr == 1 {
      acts := [];
      assert m == t;
    } else {
      acts := Ticks(m, u, n);
      assert m.inputs[n := m.inputs[n].(tmr := 0)] == t.inputs;
    }
    Prepend(s, u, Tick(n), acts, t);
    acts := [Tick(n)] + acts;
  }

  /** What an activation of input n has become when the section task is past its test of the entry delay. */
  function Due(s: System, n: nat): System
    requires Ready(s, n)
  {
    s.(inputs := s.inputs[n := s.inputs[n].(cnt := s.inputs[n].cnt + 1)], hand := [Free, Firing, Free],
       section := s.section.(alarmInp := Some(n), tmIn := true))
  }

  function Activated(s: System, n: nat): Input
    requires Ready(s, n)
  {
    s.inputs[n].(cnt := s.inputs[n].cnt + 1)
  }

  lemma Counts(s: System, u: Setup, n: nat)
    requires Ready(s, n)
    ensures IsRun(s, u, [Activate(n), Go(SLOW, 0)], s.(inputs := s.inputs[n := Activated(s, n).(tmr := s.inputs[n].postpone)]))
  {
    var m := After(s, u, Activate(n));
    Two(s, u, Activate(n), Go(SLOW, 0));
    assert m.hand == [Free, Free, Asked(n)];
    assert After(m, u, Go(SLOW, 0)).hand == s.hand;
  }

  lemma TicksDown(s: System, u: Setup, n: nat) returns (acts: seq<Step>)
    requires Ready(s, n)
    ensures IsRun(s.(inputs := s.inputs[n := Activated(s, n).(tmr := s.inputs[n].postpone)]), u, acts,
                  s.(inputs := s.inputs[n := Activated(s, n)], hand := [Counted(n), Free, Free]))
    ensures NoCommands(acts)
  {
    var m := s.(inputs := s.inputs[n := Activated(s, n).(tmr := s.inputs[n].postpone)]);
    acts := Ticks(m, u, n);
    assert m.inputs[n := Activated(s, n)] == s.inputs[n := Activated(s, n)];
    assert m.hand[TIMER := Counted(n)] == [Counted(n), Free, Free];
  }

  /** The signal starts the delay, the section task finds it run out. */
  lemma Expires(s: System, u: Setup, n: nat, c: System)
    requires Ready(s, n) && Timed(u) && c == s.(inputs := s.inputs[n := Activated(s, n)], hand := [Counted(n), Free, Free])
    ensures IsRun(c, u, [Go(TIMER, 0), Go(TIMER, 0)] + [Check(u.tmIn + 1), Go(FAST, 0)], Due(s, n))
  {
    var d := After(After(c, u, Go(TIMER, 0)), u, Go(TIMER, 0));
    Two(c, u, Go(TIMER, 0), Go(TIMER, 0));
    assert d.hand == [Free, Free, Free];
    Two(d, u, Check(u.tmIn + 1), Go(FAST, 0));
    var t := After(After(d, u, Check(u.tmIn + 1)), u, Go(FAST, 0));
    assert t.hand == [Free, Firing, Free];
    ExtendAll(c, u, [Go(TIMER, 0), Go(TIMER, 0)], d, [Check(u.tmIn + 1), Go(FAST, 0)], t);
  }

  lemma ActivationDue(s: System, u: Setup, n: nat) returns (acts: seq<Step>)
    requires Ready(s, n) && Timed(u)
    ensures IsRun(s, u, acts, Due(s, n)) && NoCommands(acts)
  {
    var first, last := [Activate(n), Go(SLOW, 0)], [Go(TIMER, 0), Go(TIMER, 0)] + [Check(u.tmIn + 1), Go(FAST, 0)];
    var c := s.(inputs := s.inputs[n := Activated(s, n)], hand := [Counted(n), Free, Free]);
    Counts(s, u, n);
    var ticks := TicksDown(s, u, n);
    Expires(s, u, n, c);
    ExtendAll(s, u, first, s.(inputs := s.inputs[n := Activated(s, n).(tmr := s.inputs[n].postpone)]), ticks, c);
    ExtendAll(s, u, first + ticks, c, last, Due(s, n));
    acts := first + ticks + last;
  }

  const DISARM: seq<Step> := [DisarmTimers, DisarmState] + [DisarmStop, DisarmRest]

  /** A disarm nothing interrupts. */
  lemma DisarmRun(s: System, u: Setup)
    requires Wf(s) && s.cmd == NoCommand
    ensures IsRun(s, u, DISARM, Disarmed(s, u))
  {
    var m := After(After(s, u, DisarmTimers), u, DisarmState);
    Two(s, u, DisarmTimers, DisarmState);
    Two(m, u, DisarmStop, DisarmRest);
    ExtendAll(s, u, [DisarmTimers, DisarmState], m, [DisarmStop, DisarmRest], Disarmed(s, u));
  }

  /**
   A run from boot: the section task is past its test of an entry delay, the whole disarm is carried
   out, and then the task makes its alarm event.
   */
  lemma AlarmAfterDisarm(inputs: seq<Input>, u: Setup, n: nat) returns (acts: seq<Step>, t: System)
    requires Timed(u) && |inputs| == INPUTS && Ready(Boot(inputs, StSet), n)
    ensures IsRun(Boot(inputs, StSet), u, acts + DISARM, t) && NoCommands(acts)
    ensures Wf(t) && Off(t) && t.cmd == NoCommand && t.made[n] == 0
    ensures t.hand == [Free, Firing, Free] && t.section.alarmInp == Some(n)
    ensures t.inputs[n].reaction == Delay && t.inputs[n].postpone > 0
    ensures After(t, u, Go(FAST, 0)).made[n] == 1
  {
    var s := Boot(inputs, StSet);
    acts := ActivationDue(s, u, n);
    t := Disarmed(Due(s, n), u);
    DisarmRun(Due(s, n), u);
    ExtendAll(s, u, acts, Due(s, n), DISARM, t);
  }
}
