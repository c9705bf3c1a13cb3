/** The alarm in place (app/system.c, app/system_input.c): its handlers as they run when nothing interrupts them. */
module AlarmInPlace {
  import opened Machine
  import opened AlarmParts
  import opened AlarmRuns
  import opened AlarmDisarm
  import EventFifo

  /** The number of queued events follows the ring of event.c. */
  lemma QueuedInRing(unread: seq<EventFifo.Event>, e: EventFifo.Event)
    requires |unread| < EventFifo.SIZE
    ensures |EventFifo.Joined(unread, e)| == Enqueued(|unread|)
  {
  }

  /** The handler of a task to its end. */
  function Through(s: System, u: Setup, k: nat, now: nat): (t: System)
    requires Wf(s)
    ensures Wf(t)
  {
    After(After(After(s, u, Go(k, now)), u, Go(k, now)), u, Go(k, now))
  }

  function AfterSignal(s: System, u: Setup, n: nat, r: Reaction, now: nat): System
  {
    var (sec, ev) := Signal(s.section, u, n, r, now);
    Fire(s.(section := sec), ev)
  }

  lemma SignalAlone(s: System, u: Setup, k: nat, n: nat, now: nat)
    requires Wf(s) && k < TASKS && n < INPUTS && s.hand[k] == Free
    ensures var c := s.(hand := s.hand[k := Counted(n)]);
            After(After(c, u, Go(k, now)), u, Go(k, now)) == AfterSignal(s, u, n, s.inputs[n].reaction, now)
  {
    var c := s.(hand := s.hand[k := Counted(n)]);
    var t := After(After(c, u, Go(k, now)), u, Go(k, now));
    assert t.hand == s.hand;
  }

  lemma ActivateAlone(s: System, u: Setup, n: nat, now: nat)
    requires Wf(s) && n < INPUTS && s.hand[SLOW] == Free
    ensures var (i, signal) := InputAlarm(s.inputs[n]);
            Through(After(s, u, Activate(n)), u, SLOW, now)
            == if !AlarmEnabled(s.section, s.inputs[n].reaction) then s
               else if signal then AfterSignal(s.(inputs := s.inputs[n := i]), u, n, i.reaction, now)
               else s.(inputs := s.inputs[n := i])
  {
    if AlarmEnabled(s.section, s.inputs[n].reaction) {
      var (i, signal) := InputAlarm(s.inputs[n]);
      var a := After(s, u, Activate(n));
      var b := After(a, u, Go(SLOW, now));
      if signal {
        assert b.hand == s.hand[SLOW := Counted(n)];
        SignalAlone(s.(inputs := s.inputs[n := i]), u, SLOW, n, now);
      } else {
        assert b.hand == s.hand;
      }
    }
  }

  lemma TickAlone(s: System, u: Setup, n: nat, now: nat)
    requires Wf(s) && n < INPUTS && s.hand[TIMER] == Free
    ensures var (i, due) := InputTick(s.inputs[n]);
            Through(After(s, u, Tick(n)), u, TIMER, now)
            == if due then AfterSignal(s.(inputs := s.inputs[n := i]), u, n, i.reaction, now)
               else s.(inputs := s.inputs[n := i])
  {
    var (i, due) := InputTick(s.inputs[n]);
    if due {
      SignalAlone(s.(inputs := s.inputs[n := i]), u, TIMER, n, now);
    }
  }

  lemma TaskAlone(s: System, u: Setup, now: nat)
    requires Wf(s) && s.hand[FAST] == Free
    ensures var (sec, ev) := SectionTask(s.section, now);
            Through(After(s, u, Check(now)), u, FAST, now) == Fire(s.(section := sec), ev)
  {
    var t := Through(After(s, u, Check(now)), u, FAST, now);
    assert t.hand == s.hand;
  }

  /** system_input_tick that nothing interrupts: input n and those behind it. */
  function TicksFrom(s: System, u: Setup, n: nat, now: nat): (t: System)
    requires Wf(s) && n <= INPUTS
    ensures Wf(t)
    decreases INPUTS - n
  {
    if n == INPUTS then s else TicksFrom(Through(After(s, u, Tick(n)), u, TIMER, now), u, n + 1, now)
  }

  // ---- the module in place ----

  class CarAlarm {
    const section: SectionUnit
    const alarm: AlarmUnit
    const inputs: array<Input>

    ghost predicate Valid()
    {
      inputs.Length == INPUTS
    }

    /** The state of the three parts; the counters of a run play no role in what is done. */
    ghost function View(s: System): System
      reads section, alarm, inputs
    {
      s.(section := section.View(), alarm := alarm.View(), inputs := inputs[..])
    }

    constructor (section: SectionUnit, alarm: AlarmUnit, inputs: array<Input>)
      requires inputs.Length == INPUTS
      ensures Valid() && this.section == section && this.alarm == alarm && this.inputs == inputs
    {
      this.section, this.alarm, this.inputs := section, alarm, inputs;
    }

    method ResetInputs()
      requires Valid()
      modifies inputs
      ensures inputs[..] == ResetAll(old(inputs[..]))
    {
      var i := 0;
      while i < INPUTS
        invariant i <= INPUTS
        invariant forall j :: 0 <= j < INPUTS ==> inputs[j] == if j < i then ResetInput(old(inputs[j])) else old(inputs[j])
      {
        inputs[i] := ResetInput(inputs[i]);
        i := i + 1;
      }
    }

    /** system_inp_activated, its alarm part. */
    method InpActivated(n: nat, now: nat, ghost s: System) returns (ev: seq<Event>)
      requires Valid() && n < INPUTS && View(s) == s && Wf(s) && s.hand[SLOW] == Free
      modifies section, inputs
      ensures Through(After(s, section.setup, Activate(n)), section.setup, SLOW, now) == Fire(View(s), ev)
    {
      ActivateAlone(s, section.setup, n, now);
      ev := [];
      var inp := inputs[n];
      if AlarmEnabled(section.View(), inp.reaction) {
        var (i, signal) := InputAlarm(inp);
        inputs[n] := i;
        assert inputs[..] == s.inputs[n := i];
        if signal {
          ev := section.SignalInput(n, i.reaction, now);
        }
      }
    }

    /** system_input_tick for one input, with the callback into the section. */
    method TickInput(n: nat, now: nat, ghost s: System) returns (ev: seq<Event>)
      requires Valid() && n < INPUTS && View(s) == s && Wf(s) && s.hand[TIMER] == Free
      modifies section, inputs
      ensures Through(After(s, section.setup, Step.Tick(n)), section.setup, TIMER, now) == Fire(View(s), ev)
      ensures ev == [] || ev == [EvAlarm(n)]
    {
      TickAlone(s, section.setup, n, now);
      ev := [];
      var (i, due) := InputTick(inputs[n]);
      inputs[n] := i;
      assert inputs[..] == s.inputs[n := i];
      if due {
        ev := section.SignalInput(n, i.reaction, now);
      }
    }

    /** system_input_tick: every input once, in order; at most one event each. */
    method Tick(now: nat, ghost s: System) returns (ev: seq<Event>)
      requires Valid() && View(s) == s && Wf(s) && s.hand[TIMER] == Free
      modifies section, inputs
      ensures var t := TicksFrom(s, section.setup, 0, now);
              View(t) == t && t.total == s.total + |ev|
      ensures forall e :: e in ev ==> e.EvAlarm?
    {
      ev := [];
      ghost var t := s;
      var n := 0;
      while n < INPUTS
        invariant n <= INPUTS && View(t) == t && Wf(t) && t.hand[TIMER] == Free
        invariant t.total == s.total + |ev| && forall e :: e in ev ==> e.EvAlarm?
        invariant TicksFrom(t, section.setup, n, now) == TicksFrom(s, section.setup, 0, now)
      {
        var e := TickInput(n, now, t);
        t := Fire(View(t), e);
        ev := ev + e;
        n := n + 1;
      }
    }

    /** system_task */
    method Task(now: nat, ghost s: System) returns (ev: seq<Event>)
      requires Valid() && View(s) == s && Wf(s) && s.hand[FAST] == Free && (s.section.tmIn ==> s.section.alarmInp.Some?)
      modifies section
      ensures Through(After(s, section.setup, Check(now)), section.setup, FAST, now) == Fire(View(s), ev)
    {
      TaskAlone(s, section.setup, now);
      ev := section.Task(now);
    }

    method Arm(now: nat, ghost s: System) returns (ev: seq<Event>)
      requires Valid() && View(s) == s && Wf(s) && s.cmd == NoCommand
      modifies section, inputs
      ensures var t := After(After(After(s, section.setup, ArmTimers(now)), section.setup, ArmState), section.setup, ArmRest);
              View(t) == t
    {
      var changed;
      changed, ev := section.ChangeState(StSet, now);
      if changed {
        ResetInputs();
      }
    }

    /** system_unset: all its parts; cancelling an active alarm is reported. */
    method Disarm(now: nat, ghost s: System) returns (ev: seq<Event>)
      requires Valid() && View(s) == s && Wf(s) && s.cmd == NoCommand
      modifies section, alarm, inputs
      ensures View(Disarmed(s, section.setup)) == Disarmed(s, section.setup)
      ensures EvCancel in ev <==> s.section.state != StUnset && s.alarm.state == AlarmActive
    {
      var changed;
      changed, ev := section.ChangeState(StUnset, now);
      if changed {
        if alarm.state == AlarmActive {
          ev := ev + [EvCancel];
        }
        alarm.StopAlarm();
        ResetInputs();
      }
    }
  }
}
