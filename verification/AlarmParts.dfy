/**
 The parts of the car alarm: siren and alarm timers (app/alarm.c), the guarded section
 (app/section.c) and the inputs (app/system_input.c). Each part is a value with its
 operations, and a class that performs them in place.
 */
module AlarmParts {
  import opened Machine

  const INPUTS: nat := 8
  const SIREN_TIME: nat := 300       // [100 ms]
  const ALARM_TIME: nat := 1200      // [100 ms]
  const ALARMS_MAX: U16 := 3         // _ALARMS_MAX, triggers that start the siren
  const ALARM_MAX_CNT: U8 := 3       // alarms counted per input

  datatype AlarmState = AlarmIdle | AlarmActive | AlarmTimeout

  datatype Reaction = NoReaction | Delay | Instant | Around24H | Tamper

  datatype SectionState = StUnknown | StUnset | StSetPart | StSet | StService

  /** Events handed to event_create; an alarm names the input it came from. */
  datatype Event = EvSet | EvUnset | EvAlarm(inp: nat) | EvCancel

  // ---- alarm.c ----

  datatype Alarm = Alarm(state: AlarmState, siren: bool, sirenTmr: nat, alarmTmr: nat, cnt: U16)

  function Trigger(a: Alarm): Alarm
  {
    if a.state == AlarmActive then a
    else
      var b := a.(cnt := (a.cnt + 1) % 0x1_0000);
      if b.cnt > ALARMS_MAX then b
      else
        var c := b.(state := AlarmActive, alarmTmr := ALARM_TIME);
        if c.siren then c else c.(siren := true, sirenTmr := SIREN_TIME)
  }

  function AlarmTick(a: Alarm): Alarm
  {
    var b := if a.sirenTmr == 0 then a
             else if a.sirenTmr == 1 then a.(sirenTmr := 0, siren := false)
             else a.(sirenTmr := a.sirenTmr - 1);
    if b.alarmTmr == 0 then b
    else if b.alarmTmr == 1 then b.(alarmTmr := 0, state := AlarmTimeout)
    else b.(alarmTmr := b.alarmTmr - 1)
  }

  function Stop(a: Alarm): Alarm
  {
    Alarm(AlarmIdle, false, if a.siren then 0 else a.sirenTmr, 0, 0)
  }

  class AlarmUnit {
    var state: AlarmState
    var siren: bool
    var sirenTmr: nat
    var alarmTmr: nat
    var cnt: U16

    function View(): Alarm
      reads this
    {
      Alarm(state, siren, sirenTmr, alarmTmr, cnt)
    }

    constructor ()
      ensures View() == Alarm(AlarmIdle, false, 0, 0, 0)
    {
      state, siren, sirenTmr, alarmTmr, cnt := AlarmIdle, false, 0, 0, 0;
    }

    method SirenOn()
      modifies this
      ensures View() == if old(siren) then old(View()) else old(View()).(siren := true, sirenTmr := SIREN_TIME)
    {
      if siren {
        return;
      }
      sirenTmr, siren := SIREN_TIME, true;
    }

    method SirenOff()
      modifies this
      ensures View() == if old(siren) then old(View()).(siren := false, sirenTmr := 0) else old(View())
    {
      if !siren {
        return;
      }
      sirenTmr, siren := 0, false;
    }

    method TriggerAlarm()
      modifies this
      ensures View() == Trigger(old(View()))
    {
      if state == AlarmActive {
        return;
      }
      cnt := (cnt + 1) % 0x1_0000;
      if cnt > ALARMS_MAX {
        return;
      }
      state, alarmTmr := AlarmActive, ALARM_TIME;
      SirenOn();
    }

    method Tick()
      requires sirenTmr > 0 ==> siren
      modifies this
      ensures View() == AlarmTick(old(View()))
    {
      if sirenTmr != 0 {
        sirenTmr := sirenTmr - 1;
        if sirenTmr == 0 {
          SirenOff();
        }
      }
      if alarmTmr != 0 {
        alarmTmr := alarmTmr - 1;
        if alarmTmr == 0 {
          state := AlarmTimeout;
        }
      }
    }

    method StopAlarm()
      modifies this
      ensures View() == Stop(old(View()))
    {
      SirenOff();
      alarmTmr, cnt, state := 0, 0, AlarmIdle;
    }
  }

  // ---- section.c ----

  /** Timers count in os_timer units; zero means not running. */
  datatype Section = Section(state: SectionState, timer: nat, tmOut: bool, tmIn: bool, alarm: bool,
                             alarmInp: Option<nat>)

  /** Entry and exit delay of the section, both running for some time. */
  datatype Setup = Setup(tmOut: nat, tmIn: nat)

  function SetState(s: Section, u: Setup, st: SectionState, now: nat): (Section, seq<Event>)
  {
    if st == s.state then (s, [])
    else match st
      case StUnset => (s.(state := StUnset, tmIn := false, alarm := false, timer := 0), [EvUnset])
      case StSet => (s.(state := StSet, timer := now + u.tmOut, tmOut := true, alarm := false), [EvSet])
      case _ => (s, [])
  }

  function AlarmEnabled(s: Section, r: Reaction): bool
  {
    match s.state
    case StUnset => r == Around24H
    case StSetPart => r != NoReaction
    case StSet => r != NoReaction
    case _ => false
  }

  function Signal(s: Section, u: Setup, inp: nat, r: Reaction, now: nat): (Section, seq<Event>)
  {
    var instant := (s.(alarm := true), [EvAlarm(inp)]);
    match s.state
    case StUnset => if r == Around24H then instant else (s, [])
    case StService => (s, [])
    case StUnknown => (s, [])
    case _ =>
      match r
      case Delay =>
        if s.timer == 0 then (s.(alarmInp := Some(inp), timer := now + u.tmIn, tmIn := true), []) else (s, [])
      case Instant => instant
      case Around24H => instant
      case _ => (s, [])
  }

  function SectionTask(s: Section, now: nat): (Section, seq<Event>)
  {
    if s.timer == 0 || now <= s.timer then (s, [])
    else
      var t := s.(timer := 0, tmOut := false);
      if t.tmIn && t.alarmInp.Some? then (t.(alarm := true, tmIn := false), [EvAlarm(t.alarmInp.value)]) else (t, [])
  }

  predicate IsSet(s: Section) { s.state == StSet || s.state == StSetPart }

  /**
   What a signal does: an alarm at once for a 24-hour input unless the state is unknown or service, and for an
   instant one while set; an entry delay for a delayed one while set with no timer running; nothing otherwise. Only
   an enabled input can do anything, and an enabled one always does, but for a tamper or a delayed one.
   */
  lemma SignalExact(s: Section, u: Setup, inp: nat, r: Reaction, now: nat)
    ensures var (t, ev) := Signal(s, u, inp, r, now);
            var atOnce := (r == Around24H && (IsSet(s) || s.state == StUnset)) || (r == Instant && IsSet(s));
            var delayed := r == Delay && IsSet(s) && s.timer == 0;
            && (atOnce <==> ev != []) && (atOnce ==> ev == [EvAlarm(inp)] && t == s.(alarm := true))
            && (delayed ==> t == s.(alarmInp := Some(inp), timer := now + u.tmIn, tmIn := true))
            && (!atOnce && !delayed ==> t == s)
            && (atOnce || delayed ==> AlarmEnabled(s, r))
            && (AlarmEnabled(s, r) && r != Tamper && r != Delay ==> atOnce)
  {
  }

  /**
   The entry delay: after the signal of a delayed input in a set section the section task makes its alarm as soon as
   more than tmIn has passed; a disarming before that takes it back.
   */
  lemma EntryDelayExact(s: Section, u: Setup, inp: nat, now: nat, later: nat)
    requires IsSet(s) && s.timer == 0 && now + u.tmIn > 0
    ensures var t := Signal(s, u, inp, Delay, now).0;
            && SectionTask(t, later).1 == (if later > now + u.tmIn then [EvAlarm(inp)] else [])
            && SectionTask(SetState(t, u, StUnset, now).0, later).1 == []
  {
  }

  /**
   The exit delay: armed with no entry delay running, a delayed input is ignored until the section task has seen more
   than tmOut pass, and that makes no alarm; from then on it starts an entry delay. An instant input is not delayed.
   */
  lemma ExitDelayExact(s: Section, u: Setup, inp: nat, now: nat, later: nat)
    requires s.state != StSet && !s.tmIn && now + u.tmOut > 0
    ensures var (t, ev) := SetState(s, u, StSet, now);
            && ev == [EvSet] && t.state == StSet && !t.alarm
            && Signal(t, u, inp, Delay, later) == (t, []) && Signal(t, u, inp, Instant, later).1 == [EvAlarm(inp)]
            && SectionTask(t, later).1 == []
            && ((Signal(SectionTask(t, later).0, u, inp, Delay, later).0.tmIn) <==> later > now + u.tmOut)
  {
  }

  /** Disarming ends whatever the section had under way: its flags, its timer and its alarm. */
  lemma DisarmExact(s: Section, u: Setup, now: nat, later: nat)
    requires s.state != StUnset
    ensures var (t, ev) := SetState(s, u, StUnset, now);
            && ev == [EvUnset] && t.state == StUnset && !t.alarm && !t.tmIn && t.timer == 0
            && SectionTask(t, later) == (t, []) && SetState(t, u, StUnset, later) == (t, [])
  {
  }

  class SectionUnit {
    const setup: Setup
    var state: SectionState
    var timer: nat
    var tmOut: bool
    var tmIn: bool
    var alarm: bool
    var alarmInp: Option<nat>

    function View(): Section
      reads this
    {
      Section(state, timer, tmOut, tmIn, alarm, alarmInp)
    }

    constructor (setup: Setup, state: SectionState)
      ensures this.setup == setup && View() == Section(state, 0, false, false, false, None)
    {
      this.setup, this.state := setup, state;
      timer, tmOut, tmIn, alarm, alarmInp := 0, false, false, false, None;
    }

    method ChangeState(st: SectionState, now: nat) returns (changed: bool, ev: seq<Event>)
      modifies this
      ensures (View(), ev) == SetState(old(View()), setup, st, now) && (changed <==> ev != [])
    {
      if st == state {
        return false, [];
      }
      match st {
        case StUnset =>
          tmIn, alarm, timer := false, false, 0;
          ev := [EvUnset];
        case StSet =>
          timer, tmOut, alarm := now + setup.tmOut, true, false;
          ev := [EvSet];
        case _ =>
          return false, [];
      }
      state := st;
      changed := true;
    }

    method InstantAlarm(inp: nat) returns (ev: seq<Event>)
      modifies `alarm
      ensures alarm && ev == [EvAlarm(inp)]
    {
      alarm := true;
      ev := [EvAlarm(inp)];
    }

    method DelayAlarm(inp: nat, now: nat)
      modifies `alarmInp, `timer, `tmIn
      ensures View() == if old(timer) == 0 then old(View()).(alarmInp := Some(inp), timer := now + setup.tmIn, tmIn := true)
                        else old(View())
    {
      if timer == 0 {
        alarmInp := Some(inp);
        timer := now + setup.tmIn;
        tmIn := true;
      }
    }

    method SignalInput(inp: nat, r: Reaction, now: nat) returns (ev: seq<Event>)
      modifies this
      ensures (View(), ev) == Signal(old(View()), setup, inp, r, now)
    {
      ev := [];
      match state {
        case StUnset =>
          if r == Around24H {
            ev := InstantAlarm(inp);
          }
        case StSet =>
          ev := SignalSet(inp, r, now);
        case StSetPart =>
          ev := SignalSet(inp, r, now);
        case _ =>
      }
    }

    method SignalSet(inp: nat, r: Reaction, now: nat) returns (ev: seq<Event>)
      requires state == StSet || state == StSetPart
      modifies this
      ensures (View(), ev) == Signal(old(View()), setup, inp, r, now)
    {
      ev := [];
      match r {
        case Delay => DelayAlarm(inp, now);
        case Instant => ev := InstantAlarm(inp);
        case Around24H => ev := InstantAlarm(inp);
        case _ =>
      }
    }

    /** section_task; the source asserts that a running entry delay has its input. */
    method Task(now: nat) returns (ev: seq<Event>)
      requires tmIn ==> alarmInp.Some?
      modifies this
      ensures (View(), ev) == SectionTask(old(View()), now)
    {
      ev := [];
      if timer != 0 {
        if now > timer {
          timer := 0;
          if tmOut {
            tmOut := false;
          }
          if tmIn {
            ev := InstantAlarm(alarmInp.value);
            tmIn := false;
          }
        }
      }
    }
  }

  // ---- system_input.c ----

  datatype Input = Input(reaction: Reaction, postpone: U8, tmr: U8, cnt: U8)

  /** system_input_alarm: counts the activation; true asks for a signal at once. */
  function InputAlarm(i: Input): (Input, bool)
  {
    if i.cnt >= ALARM_MAX_CNT then (i, false)
    else
      var j := i.(cnt := i.cnt + 1);
      if j.postpone != 0 then (if j.tmr == 0 then j.(tmr := j.postpone) else j, false) else (j, true)
  }

  function ResetInput(i: Input): Input { i.(tmr := 0, cnt := 0) }

  /**
   An activation: ignored after three; otherwise counted, and signalled at once without a postponement. With one it
   starts the timer, but never a running one anew.
   */
  lemma ActivationExact(i: Input)
    ensures var (j, signal) := InputAlarm(i);
            && (i.cnt >= 3 ==> j == i && !signal)
            && (i.cnt < 3 ==> j.cnt == i.cnt + 1 && (signal <==> i.postpone == 0)
                              && j.tmr == if i.tmr == 0 then i.postpone else i.tmr)
            && j.reaction == i.reaction && j.postpone == i.postpone
  {
  }

  /** One tick of one input; true when its postponed signal is due. */
  function InputTick(i: Input): (Input, bool)
  {
    if i.tmr == 0 then (i, false) else (i.(tmr := i.tmr - 1), i.tmr == 1)
  }

  /** An input after some ticks, each with or without a further activation before it. */
  function InputTicks(i: Input, active: seq<bool>): Input
  {
    if active == [] then i
    else
      var j := InputTicks(i, active[..|active| - 1]);
      InputTick(if active[|active| - 1] then InputAlarm(j).0 else j).0
  }

  lemma {:induction false} TimerRuns(i: Input, active: seq<bool>)
    requires |active| < i.tmr
    ensures InputTicks(i, active).tmr == i.tmr as int - |active|
  {
    if active != [] {
      TimerRuns(i, active[..|active| - 1]);
      ActivationExact(InputTicks(i, active[..|active| - 1]));
    }
  }

  /** A postponed signal is due with the tick its timer gives, however often the input is activated meanwhile. */
  lemma {:induction false} PostponedExact(i: Input, active: seq<bool>, again: bool)
    requires |active| < i.tmr
    ensures var j := InputTicks(i, active);
            InputTick(if again then InputAlarm(j).0 else j).1 <==> |active| + 1 == i.tmr as int
  {
    TimerRuns(i, active);
    ActivationExact(InputTicks(i, active));
  }
}
