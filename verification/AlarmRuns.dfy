/**
 The car alarm as a whole (app/system.c): arming, disarming, inputs, 100 ms ticks, the section task
 and the event queue, what every step keeps and what that bounds. The handlers run in different tasks, so each is cut
 where it tests shared state and where it acts on what it saw, and anything else may happen in between.
 */
module AlarmRuns {
  import opened Machine
  import opened AlarmParts

  const QUEUE: nat := 32     // _EVENT_BUF_SIZE

  /** The tasks whose handlers may signal the section: input ticks, the section task, activations. */
  const TIMER: nat := 0
  const FAST: nat := 1
  const SLOW: nat := 2
  const TASKS: nat := 3

  /**
   Where the handler of a task stands: allowed to count an activation (system.c:88 passed), about to
   signal the section (counted, or its postponed time is up), a section timer found run out
   (section.c:169), past the test of TM_IN (section.c:175), past the tests of section_signal
   (section.c:113-124) on the way to an alarm, or on the way to an entry delay.
   */
  datatype Stage = Free | Asked(n: nat) | Counted(n: nat) | Expired | Firing | Sure(n: nat) | Starting(n: nat)

  /**
   The command in progress: section_set or section_unset before it writes the state, section_set done,
   section_unset done, alarm_stop done as well.
   */
  datatype Command = NoCommand | Arming | Setting | Disarming | Unsetting | Stopped

  /**
   made counts the alarm events of each input since the last alarm_stop, carried what was on its way
   to one at that moment, cleared the counts that resets have taken back since then, resets their
   number; total counts the events ever created, queued those not processed yet, leftover those queued
   at the last alarm_stop, sirenTicks the ticks the siren was on since then.
   */
  datatype System = System(section: Section, inputs: seq<Input>, alarm: Alarm, hand: seq<Stage>, cmd: Command,
                           queued: nat, made: seq<nat>, carried: seq<nat>, cleared: seq<nat>, resets: nat,
                           total: nat, leftover: nat, sirenTicks: nat)

  datatype Step =
    | ArmTimers(now: nat)        // section_set up to the new state
    | ArmState                   // it writes the state
    | ArmRest                    // the rest of system_set: reset the inputs
    | DisarmTimers               // section_unset up to the new state
    | DisarmState                // it writes the state
    | DisarmStop                 // alarm_stop
    | DisarmRest                 // reset the inputs
    | Activate(n: nat)           // system_inp_activated up to its test
    | Tick(n: nat)               // one input of system_input_tick
    | Check(now: nat)            // section_task up to a timer that has run out
    | Go(k: nat, now: nat)       // the handler of a task goes on to its next test or to its end
    | SirenTick
    | Process                    // event_task takes one alarm event off the queue

  /** The queue of event.c comes out empty when a 32nd event is put into it. */
  function Enqueued(q: nat): nat { if q + 1 == QUEUE then 0 else q + 1 }

  function Fire(s: System, ev: seq<Event>): System
  {
    if ev == [] || !ev[0].EvAlarm? || ev[0].inp >= |s.made| then s
    else s.(made := s.made[ev[0].inp := s.made[ev[0].inp] + 1], total := s.total + 1, queued := Enqueued(s.queued))
  }

  function ResetAll(inputs: seq<Input>): (r: seq<Input>)
    ensures |r| == |inputs| && forall n :: 0 <= n < |r| ==> r[n] == ResetInput(inputs[n])
  {
    seq(|inputs|, n requires 0 <= n < |inputs| => ResetInput(inputs[n]))
  }

  /** What section_signal makes of a signal, from the state it sees. */
  function Decide(st: SectionState, r: Reaction, n: nat): Stage
  {
    match st
    case StUnset => if r == Around24H then Sure(n) else Free
    case StService => Free
    case StUnknown => Free
    case _ =>
      match r
      case Delay => Starting(n)
      case Instant => Sure(n)
      case Around24H => Sure(n)
      case _ => Free
  }

  predicate Wf(s: System)
  {
    |s.inputs| == INPUTS == |s.made| == |s.carried| == |s.cleared| && |s.hand| == TASKS
    && forall k :: 0 <= k < TASKS ==>
         (s.hand[k].Asked? || s.hand[k].Counted? || s.hand[k].Sure? || s.hand[k].Starting? ==> s.hand[k].n < INPUTS)
  }

  function Alarmed(s: System, k: nat, n: nat): System
    requires k < |s.hand|
  {
    Fire(s.(section := s.section.(alarm := true), hand := s.hand[k := Free]), [EvAlarm(n)])
  }

  /** _delay_alarm */
  function Delayed(sec: Section, u: Setup, n: nat, now: nat): Section
  {
    if sec.timer == 0 then sec.(alarmInp := Some(n), timer := now + u.tmIn, tmIn := true) else sec
  }

  /** The handler of task k goes on. */
  function Gone(s: System, u: Setup, k: nat, now: nat): (t: System)
    requires Wf(s) && k < TASKS
    ensures Wf(t)
  {
    match s.hand[k]
    case Free => s
    case Asked(n) =>
      var (i, signal) := InputAlarm(s.inputs[n]);
      s.(inputs := s.inputs[n := i], hand := s.hand[k := if signal then Counted(n) else Free])
    case Counted(n) => s.(hand := s.hand[k := Decide(s.section.state, s.inputs[n].reaction, n)])
    case Expired =>
      s.(section := s.section.(tmOut := false),
         hand := s.hand[k := if s.section.tmIn && s.section.alarmInp.Some? then Firing else Free])
    case Firing =>
      if s.section.alarmInp.None? then s.(hand := s.hand[k := Free])
      else Alarmed(s.(section := s.section.(tmIn := false)), k, s.section.alarmInp.value)
    case Sure(n) => Alarmed(s, k, n)
    case Starting(n) => s.(section := Delayed(s.section, u, n, now), hand := s.hand[k := Free])
  }

  /** system_input_reset */
  function Reset(s: System): (t: System)
    requires Wf(s)
    ensures Wf(t)
  {
    s.(inputs := ResetAll(s.inputs), resets := s.resets + 1,
       cleared := seq(INPUTS, n requires 0 <= n < INPUTS => s.cleared[n] + s.inputs[n].cnt))
  }

  function After(s: System, u: Setup, a: Step): (t: System)
    requires Wf(s)
    ensures Wf(t)
  {
    match a
    case ArmTimers(now) =>
      if s.section.state == StSet then s
      else s.(section := s.section.(timer := now + u.tmOut, tmOut := true, alarm := false), cmd := Arming)
    case ArmState => if s.cmd != Arming then s else s.(section := s.section.(state := StSet), cmd := Setting)
    case ArmRest =>
      if s.cmd != Setting then s else Reset(s).(cmd := NoCommand)
    case DisarmTimers =>
      if s.section.state == StUnset then s
      else s.(section := s.section.(tmIn := false, alarm := false, timer := 0), cmd := Disarming)
    case DisarmState => if s.cmd != Disarming then s else s.(section := s.section.(state := StUnset), cmd := Unsetting)
    case DisarmStop =>
      if s.cmd != Unsetting then s
      else s.(alarm := Stop(s.alarm), cmd := Stopped, made := seq(INPUTS, _ => 0), resets := 0, cleared := seq(INPUTS, _ => 0),
              carried := seq(INPUTS, n requires 0 <= n < INPUTS => Pending(s, n)),
              leftover := s.queued, sirenTicks := 0)
    case DisarmRest =>
      if s.cmd != Stopped then s else Reset(s).(cmd := NoCommand)
    case Activate(n) =>
      if n < INPUTS && s.hand[SLOW] == Free && AlarmEnabled(s.section, s.inputs[n].reaction)
      then s.(hand := s.hand[SLOW := Asked(n)]) else s
    case Tick(n) =>
      if n >= INPUTS || s.hand[TIMER] != Free then s
      else
        var (i, due) := InputTick(s.inputs[n]);
        s.(inputs := s.inputs[n := i], hand := if due then s.hand[TIMER := Counted(n)] else s.hand)
    case Check(now) =>
      if s.hand[FAST] != Free || s.section.timer == 0 || now <= s.section.timer then s
      else s.(section := s.section.(timer := 0), hand := s.hand[FAST := Expired])
    case Go(k, now) => if k < TASKS then Gone(s, u, k, now) else s
    case SirenTick => s.(alarm := AlarmTick(s.alarm), sirenTicks := s.sirenTicks + if s.alarm.siren then 1 else 0)
    case Process => if s.queued == 0 then s else s.(queued := s.queued - 1, alarm := Trigger(s.alarm))
  }

  predicate IsCommand(a: Step)
  {
    a.ArmTimers? || a.ArmState? || a.ArmRest? || a.DisarmTimers? || a.DisarmState? || a.DisarmStop? || a.DisarmRest?
  }

  /** One command at a time. */
  predicate Enabled(s: System, a: Step) { (a.ArmTimers? || a.DisarmTimers?) ==> s.cmd == NoCommand }

  function Sum(made: seq<nat>): nat { if made == [] then 0 else Sum(made[..|made| - 1]) + made[|made| - 1] }

  predicate Carries(st: Stage, n: nat) { (st.Counted? || st.Sure? || st.Starting?) && st.n == n }

  /** An entry delay running, or already found run out. */
  predicate Entering(s: System)
    requires Wf(s)
  {
    s.section.tmIn || s.hand[FAST] == Firing
  }

  /**
   What may still become an alarm event of input n without a further activation: its postponed
   signal, its entry delay, and the handlers on their way with it.
   */
  function Pending(s: System, n: nat): (p: nat)
    requires Wf(s) && n < INPUTS
    ensures p <= 4
  {
    (if s.inputs[n].tmr > 0 then 1 else 0) + (if Entering(s) && s.section.alarmInp == Some(n) then 1 else 0)
    + (if Carries(s.hand[TIMER], n) then 1 else 0) + (if Carries(s.hand[SLOW], n) then 1 else 0)
  }

  ghost predicate SirenInv(a: Alarm)
  {
    && (a.siren <==> a.sirenTmr > 0)
    && (a.siren ==> a.state == AlarmActive && a.alarmTmr == a.sirenTmr + (ALARM_TIME - SIREN_TIME))
    && (a.state == AlarmActive ==> a.alarmTmr > 0)
  }

  /** Which stages a task can be in; an entry delay has its input. */
  ghost predicate SectionInv(s: System)
    requires Wf(s)
  {
    && s.section.state != StSetPart
    && (Entering(s) ==> s.section.alarmInp.Some? && s.section.alarmInp.value < INPUTS)
    && (s.hand[TIMER].Free? || s.hand[TIMER].Counted? || s.hand[TIMER].Sure? || s.hand[TIMER].Starting?)
    && (s.hand[FAST].Free? || s.hand[FAST].Expired? || s.hand[FAST].Firing?)
    && !s.hand[SLOW].Expired? && !s.hand[SLOW].Firing?
    && (s.cmd == Setting ==> s.section.state == StSet)
    && (s.cmd == Arming ==> s.section.state != StSet)
    && (s.cmd == Unsetting || s.cmd == Stopped ==> s.section.state == StUnset)
  }

  /** How often the inputs can have been reset since the last alarm_stop. */
  function ResetsMax(s: System): nat
  {
    match s.cmd
    case Stopped => 0
    case Arming => 1
    case Setting => 1
    case Disarming => 2
    case Unsetting => 2
    case NoCommand => if s.section.state == StSet then 2 else 1
  }

  /** The events of an input, made or on their way, less its counted activations. */
  function Balance(s: System, n: nat): int
    requires Wf(s) && n < INPUTS
  {
    s.made[n] + Pending(s, n) - s.inputs[n].cnt as int
  }

  /** Every alarm event is covered by what was on its way at alarm_stop or by an activation counted since. */
  ghost predicate InputInv(s: System)
    requires Wf(s)
  {
    && s.resets <= ResetsMax(s)
    && (forall n :: 0 <= n < INPUTS ==> s.inputs[n].reaction != Around24H && s.inputs[n].cnt <= ALARM_MAX_CNT)
    && (forall n :: 0 <= n < INPUTS ==> s.carried[n] <= 4 && s.cleared[n] <= 3 * s.resets)
    && (forall n: nat :: n < INPUTS ==> Balance(s, n) <= s.carried[n] + s.cleared[n])
  }

  ghost predicate CountInv(s: System)
  {
    && s.queued < QUEUE && s.leftover < QUEUE
    && s.alarm.cnt + s.queued <= s.leftover + Sum(s.made)
    && s.sirenTicks + s.alarm.sirenTmr <= SIREN_TIME * (if s.alarm.cnt < ALARMS_MAX then s.alarm.cnt else ALARMS_MAX)
  }

  ghost predicate Inv(s: System)
  {
    Wf(s) && SirenInv(s.alarm) && SectionInv(s) && InputInv(s) && CountInv(s)
  }

  // ---- sums ----

  lemma {:induction false} SumUpdate(made: seq<nat>, n: nat, x: nat)
    requires n < |made|
    ensures Sum(made[n := x]) + made[n] == Sum(made) + x
  {
    var k := |made| - 1;
    assert made[n := x][..k] == if n == k then made[..k] else made[..k][n := x];
    if n < k {
      SumUpdate(made[..k], n, x);
    }
  }

  lemma {:induction false} SumBound(made: seq<nat>, b: nat)
    requires forall n :: 0 <= n < |made| ==> made[n] <= b
    ensures Sum(made) <= b * |made|
  {
    if made != [] {
      SumBound(made[..|made| - 1], b);
    }
  }

  lemma {:induction false} SumZero(n: nat)
    ensures Sum(seq(n, _ => 0)) == 0
  {
    if n > 0 {
      assert seq(n, _ => 0)[..n - 1] == seq(n - 1, _ => 0);
      SumZero(n - 1);
    }
  }

  // ---- one step ----

  lemma SureBalance(s: System, u: Setup, k: nat, now: nat, n: nat)
    requires Wf(s) && SectionInv(s) && k < TASKS && n < INPUTS && s.hand[k].Sure?
    ensures Balance(After(s, u, Go(k, now)), n) == Balance(s, n)
  {
  }

  lemma FiringBalance(s: System, u: Setup, now: nat, n: nat)
    requires Wf(s) && SectionInv(s) && n < INPUTS && s.hand[FAST].Firing?
    ensures Balance(After(s, u, Go(FAST, now)), n) == Balance(s, n)
  {
  }

  lemma StartingBalance(s: System, u: Setup, k: nat, now: nat, n: nat)
    requires Wf(s) && SectionInv(s) && k < TASKS && n < INPUTS && s.hand[k].Starting?
    ensures Balance(After(s, u, Go(k, now)), n) <= Balance(s, n)
  {
  }

  lemma OtherBalance(s: System, u: Setup, k: nat, now: nat, n: nat)
    requires Wf(s) && SectionInv(s) && k < TASKS && n < INPUTS
    requires s.hand[k].Asked? || s.hand[k].Counted? || s.hand[k].Expired?
    ensures Balance(After(s, u, Go(k, now)), n) <= Balance(s, n)
  {
  }

  lemma GoBalance(s: System, u: Setup, k: nat, now: nat, n: nat)
    requires Wf(s) && SectionInv(s) && k < TASKS && n < INPUTS
    ensures Balance(After(s, u, Go(k, now)), n) <= Balance(s, n)
  {
    match s.hand[k]
    case Free =>
    case Sure(_) => SureBalance(s, u, k, now, n);
    case Firing => FiringBalance(s, u, now, n);
    case Starting(_) => StartingBalance(s, u, k, now, n);
    case _ => OtherBalance(s, u, k, now, n);
  }

  lemma InputBalance(s: System, u: Setup, a: Step, n: nat)
    requires Wf(s) && SectionInv(s) && n < INPUTS && (a.Activate? || a.Tick? || a.Check?)
    ensures Balance(After(s, u, a), n) <= Balance(s, n)
  {
  }

  lemma StepBalance(s: System, u: Setup, a: Step, n: nat)
    requires Wf(s) && SectionInv(s) && n < INPUTS && !IsCommand(a)
    ensures Balance(After(s, u, a), n) <= Balance(s, n)
  {
    if a.Go? {
      if a.k < TASKS {
        GoBalance(s, u, a.k, a.now, n);
      }
    } else if a.Activate? || a.Tick? || a.Check? {
      InputBalance(s, u, a, n);
    }
  }

  lemma CommandSection(s: System, u: Setup, a: Step)
    requires Wf(s) && SectionInv(s) && Enabled(s, a) && IsCommand(a)
    ensures SectionInv(After(s, u, a))
  {
  }

  lemma HandSection(s: System, u: Setup, a: Step)
    requires Wf(s) && SectionInv(s) && (a.Activate? || a.Tick? || a.Check?)
    ensures SectionInv(After(s, u, a))
  {
  }

  lemma StepSection(s: System, u: Setup, a: Step)
    requires Wf(s) && SectionInv(s) && Enabled(s, a)
    ensures SectionInv(After(s, u, a))
  {
    if a.Go? {
      if a.k < TASKS {
        GoSection(s, u, a.k, a.now);
      }
    } else if IsCommand(a) {
      CommandSection(s, u, a);
    } else if a.Activate? || a.Tick? || a.Check? {
      HandSection(s, u, a);
    }
  }

  lemma SignalSection(s: System, u: Setup, k: nat, now: nat)
    requires Wf(s) && SectionInv(s) && k < TASKS && (s.hand[k].Asked? || s.hand[k].Counted? || s.hand[k].Starting?)
    ensures SectionInv(Gone(s, u, k, now))
  {
  }

  lemma AlarmSection(s: System, u: Setup, k: nat, now: nat)
    requires Wf(s) && SectionInv(s) && k < TASKS && (s.hand[k].Sure? || s.hand[k].Firing?)
    ensures SectionInv(Gone(s, u, k, now))
  {
  }

  lemma GoSection(s: System, u: Setup, k: nat, now: nat)
    requires Wf(s) && SectionInv(s) && k < TASKS
    ensures SectionInv(Gone(s, u, k, now))
  {
    if s.hand[k].Sure? || s.hand[k].Firing? {
      AlarmSection(s, u, k, now);
    } else if !s.hand[k].Expired? && !s.hand[k].Free? {
      SignalSection(s, u, k, now);
    }
  }

  /** A step that is no command adds to no balance and leaves the accounts of the commands alone. */
  lemma StepInputs(s: System, u: Setup, a: Step)
    requires Wf(s) && SectionInv(s) && InputInv(s) && !IsCommand(a)
    ensures InputInv(After(s, u, a))
  {
    var t := After(s, u, a);
    Accounts(s, u, a);
    forall n: nat | n < INPUTS ensures Balance(t, n) <= t.carried[n] + t.cleared[n] {
      StepBalance(s, u, a, n);
    }
  }

  lemma Accounts(s: System, u: Setup, a: Step)
    requires Wf(s) && !IsCommand(a)
    ensures var t := After(s, u, a);
            && t.carried == s.carried && t.cleared == s.cleared && t.resets == s.resets && t.cmd == s.cmd
            && t.section.state == s.section.state && t.leftover == s.leftover
            && forall n :: 0 <= n < INPUTS ==>
                 t.inputs[n].reaction == s.inputs[n].reaction && (s.inputs[n].cnt <= 3 ==> t.inputs[n].cnt <= 3)
  {
  }

  lemma FireKeeps(s: System, n: nat)
    requires |s.made| == INPUTS && n < INPUTS && CountInv(s)
    ensures CountInv(Fire(s, [EvAlarm(n)]))
  {
    SumUpdate(s.made, n, s.made[n] + 1);
  }

  lemma MadeBound(s: System)
    requires Wf(s) && InputInv(s)
    ensures Sum(s.made) <= 104
    ensures forall n :: 0 <= n < INPUTS ==> s.made[n] <= s.carried[n] + s.cleared[n] + 3 <= 13
  {
    forall n: nat | n < INPUTS ensures s.made[n] <= s.carried[n] + s.cleared[n] + 3 <= 13 {
      assert Balance(s, n) <= s.carried[n] + s.cleared[n];
    }
    SumBound(s.made, 13);
  }

  /** A handler that makes no event counts nothing; one that does makes one event of its input. */
  lemma GoMakes(s: System, u: Setup, k: nat, now: nat)
    requires Wf(s) && SectionInv(s) && k < TASKS
    ensures var t := Gone(s, u, k, now);
            var made := s.hand[k].Sure? || s.hand[k].Firing?;
            var m := if made then Fire(s, [EvAlarm(if s.hand[k].Sure? then s.hand[k].n else s.section.alarmInp.value)]) else s;
            && t.made == m.made && t.queued == m.queued && t.total == m.total
            && t.alarm == s.alarm && t.leftover == s.leftover && t.sirenTicks == s.sirenTicks
  {
  }

  lemma GoCounts(s: System, u: Setup, k: nat, now: nat)
    requires Wf(s) && SectionInv(s) && CountInv(s) && k < TASKS
    ensures CountInv(Gone(s, u, k, now)) && Gone(s, u, k, now).alarm == s.alarm
  {
    GoMakes(s, u, k, now);
    if s.hand[k].Sure? {
      FireKeeps(s, s.hand[k].n);
    } else if s.hand[k].Firing? {
      FireKeeps(s, s.section.alarmInp.value);
    }
  }

  lemma ProcessCounts(s: System, u: Setup)
    requires Wf(s) && SirenInv(s.alarm) && InputInv(s) && CountInv(s)
    ensures var t := After(s, u, Process); SirenInv(t.alarm) && CountInv(t)
  {
    MadeBound(s);
  }

  lemma StopCounts(s: System, u: Setup)
    requires Inv(s)
    ensures var t := After(s, u, DisarmStop); SirenInv(t.alarm) && CountInv(t)
  {
    SumZero(INPUTS);
  }

  lemma SirenCounts(s: System, u: Setup)
    requires Inv(s)
    ensures var t := After(s, u, SirenTick); SirenInv(t.alarm) && CountInv(t)
  {
  }

  /** Every other step leaves queue, counts and siren alone. */
  lemma OtherCounts(s: System, u: Setup, a: Step)
    requires Wf(s) && !a.DisarmStop? && !a.Go? && !a.SirenTick? && !a.Process?
    ensures var t := After(s, u, a);
            && t.alarm == s.alarm && t.queued == s.queued && t.leftover == s.leftover
            && t.made == s.made && t.sirenTicks == s.sirenTicks
  {
  }

  lemma StepCounts(s: System, u: Setup, a: Step)
    requires Inv(s) && Enabled(s, a)
    ensures var t := After(s, u, a); SirenInv(t.alarm) && CountInv(t)
  {
    match a
    case Go(k, now) => if k < TASKS { GoCounts(s, u, k, now); }
    case Process => ProcessCounts(s, u);
    case DisarmStop => StopCounts(s, u);
    case SirenTick => SirenCounts(s, u);
    case _ => OtherCounts(s, u, a);
  }

  lemma ResetInputs(s: System)
    requires Wf(s) && InputInv(s) && (s.cmd == Setting || s.cmd == Stopped)
    requires s.cmd == Setting ==> s.section.state == StSet
    ensures InputInv(Reset(s).(cmd := NoCommand))
  {
    var t := Reset(s).(cmd := NoCommand);
    forall n: nat | n < INPUTS ensures Balance(t, n) <= t.carried[n] + t.cleared[n] {
      assert Balance(s, n) <= s.carried[n] + s.cleared[n];
    }
  }

  lemma CommandInputs(s: System, u: Setup, a: Step)
    requires Wf(s) && SectionInv(s) && InputInv(s) && Enabled(s, a) && IsCommand(a)
    ensures InputInv(After(s, u, a))
  {
    if (a.ArmRest? && s.cmd == Setting) || (a.DisarmRest? && s.cmd == Stopped) {
      ResetInputs(s);
    } else {
      var t := After(s, u, a);
      forall n: nat | n < INPUTS ensures Balance(t, n) <= t.carried[n] + t.cleared[n] {
        assert Balance(s, n) <= s.carried[n] + s.cleared[n];
      }
    }
  }

  lemma StepKeeps(s: System, u: Setup, a: Step)
    requires Inv(s) && Enabled(s, a)
    ensures Inv(After(s, u, a))
  {
    StepSection(s, u, a);
    StepCounts(s, u, a);
    if IsCommand(a) {
      CommandInputs(s, u, a);
    } else {
      StepInputs(s, u, a);
    }
  }

  // ---- whole runs ----

  ghost predicate IsRun(s: System, u: Setup, acts: seq<Step>, t: System)
    decreases |acts|
  {
    Wf(s) && if acts == [] then s == t else Enabled(s, acts[0]) && IsRun(After(s, u, acts[0]), u, acts[1..], t)
  }

  lemma Prepend(s: System, u: Setup, a: Step, acts: seq<Step>, t: System)
    requires Wf(s) && Enabled(s, a) && IsRun(After(s, u, a), u, acts, t)
    ensures IsRun(s, u, [a] + acts, t)
  {
    assert ([a] + acts)[1..] == acts;
  }

  /**
   Every run: since the last alarm_stop an input makes at most three alarm events, beside those that were on
   their way when it was called and one for each counted activation that a reset has taken back; the u16
   alarm counter stays far from its wrap; the siren was on for at most 900 ticks.
   */
  lemma {:induction false} AlarmBounds(s: System, u: Setup, acts: seq<Step>, t: System)
    requires Inv(s) && IsRun(s, u, acts, t)
    ensures Inv(t)
    ensures forall n :: 0 <= n < INPUTS ==> t.made[n] <= t.carried[n] + t.cleared[n] + 3
    ensures t.resets <= 2 && Sum(t.made) <= 104
    ensures t.alarm.cnt <= 104 + 31 && t.sirenTicks <= 900
    decreases |acts|
  {
    if acts == [] {
      MadeBound(t);
    } else {
      StepKeeps(s, u, acts[0]);
      AlarmBounds(After(s, u, acts[0]), u, acts[1..], t);
    }
  }

  predicate NoCommands(acts: seq<Step>) { forall a :: a in acts ==> !IsCommand(a) }

  predicate Timed(u: Setup) { u.tmIn > 0 && u.tmOut > 0 }

  /** An entry delay has its timer running, or the section task has already seen it run out. */
  ghost predicate TimerInv(s: System)
    requires Wf(s)
  {
    s.section.tmIn ==> s.section.timer > 0 || s.hand[FAST] == Expired || s.hand[FAST] == Firing
  }

  lemma TimerKeeps(s: System, u: Setup, a: Step)
    requires Wf(s) && SectionInv(s) && TimerInv(s) && Timed(u)
    ensures TimerInv(After(s, u, a))
  {
  }

  // ---- runs put together ----

  lemma {:induction false} Extend(s: System, u: Setup, acts: seq<Step>, m: System, a: Step)
    requires IsRun(s, u, acts, m) && Wf(m) && Enabled(m, a)
    ensures IsRun(s, u, acts + [a], After(m, u, a))
    decreases |acts|
  {
    if acts == [] {
      assert ([a])[1..] == [];
    } else {
      assert (acts + [a])[0] == acts[0] && (acts + [a])[1..] == acts[1..] + [a];
      Extend(After(s, u, acts[0]), u, acts[1..], m, a);
    }
  }

  lemma {:induction false} RunsJoin(s: System, u: Setup, acts: seq<Step>, m: System, more: seq<Step>, t: System)
    requires IsRun(s, u, acts, m) && IsRun(m, u, more, t)
    ensures IsRun(s, u, Join(acts, more), t)
    decreases |acts|
  {
    if acts != [] {
      RunsJoin(After(s, u, acts[0]), u, acts[1..], m, more, t);
      Prepend(s, u, acts[0], Join(acts[1..], more), t);
    }
  }

  lemma ExtendAll(s: System, u: Setup, acts: seq<Step>, m: System, more: seq<Step>, t: System)
    requires IsRun(s, u, acts, m) && IsRun(m, u, more, t)
    ensures IsRun(s, u, acts + more, t)
  {
    RunsJoin(s, u, acts, m, more, t);
    JoinIs(acts, more);
  }

  lemma Two(s: System, u: Setup, a: Step, b: Step)
    requires Wf(s) && Enabled(s, a) && Enabled(After(s, u, a), b)
    ensures IsRun(s, u, [a, b], After(After(s, u, a), u, b))
  {
    var m := After(s, u, a);
    Prepend(m, u, b, [], After(m, u, b));
    assert [b] + [] == [b];
    Prepend(s, u, a, [b], After(m, u, b));
    assert [a] + [b] == [a, b];
  }

  // ---- boot ----

  /** The state system_init sets up for a stored armed or disarmed state. */
  function Boot(inputs: seq<Input>, st: SectionState): System
  {
    System(Section(st, 0, false, false, false, None), inputs, Alarm(AlarmIdle, false, 0, 0, 0), [Free, Free, Free],
           NoCommand, 0, seq(INPUTS, _ => 0), seq(INPUTS, _ => 0), seq(INPUTS, _ => 0), 0, 0, 0, 0)
  }

  lemma InitIsSafe(inputs: seq<Input>, st: SectionState)
    requires |inputs| == INPUTS && st != StSetPart
    requires forall n :: 0 <= n < INPUTS ==> inputs[n].reaction != Around24H && inputs[n].tmr == 0 && inputs[n].cnt == 0
    ensures Inv(Boot(inputs, st)) && TimerInv(Boot(inputs, st))
  {
    var s := Boot(inputs, st);
    forall n: nat | n < INPUTS ensures Pending(s, n) == 0 {}
  }
}
