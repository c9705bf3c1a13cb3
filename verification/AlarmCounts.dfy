/**
 How many alarm events an input can make: exactly, from any state of an armed system to the next command, and
 what commands do to that number.
 */
module AlarmCounts {
  import opened Machine
  import opened AlarmParts
  import opened AlarmRuns
  import opened AlarmDisarm

  // ---- no more than ----

  /** Until the next command an input makes at most what is on its way and three less what it has counted. */
  lemma {:induction false} AtMost(s: System, u: Setup, acts: seq<Step>, t: System, n: nat)
    requires Inv(s) && n < INPUTS && IsRun(s, u, acts, t) && NoCommands(acts)
    ensures Inv(t) && t.made[n] <= s.made[n] + Pending(s, n) + 3 - s.inputs[n].cnt as int
    decreases |acts|
  {
    if acts != [] {
      assert acts[0] in acts;
      StepKeeps(s, u, acts[0]);
      StepBalance(s, u, acts[0], n);
      AtMost(After(s, u, acts[0]), u, acts[1..], t, n);
    }
  }

  // ---- and no less ----

  /** Armed, with an input that starts an entry delay or makes an alarm at once. */
  ghost predicate Live(s: System, n: nat)
  {
    Inv(s) && TimerInv(s) && n < INPUTS && s.section.state == StSet
    && (s.inputs[n].reaction == Delay || s.inputs[n].reaction == Instant)
  }

  /** The step that wastes nothing: delays before handlers, the postponed signal before a further activation. */
  function Pick(s: System, n: nat): Step
    requires Wf(s) && n < INPUTS
  {
    if s.hand[FAST] != Free then Go(FAST, 0)
    else if s.section.timer > 0 then Check(s.section.timer + 1)
    else if s.hand[TIMER] != Free then Go(TIMER, 0)
    else if s.inputs[n].tmr > 0 then Tick(n)
    else if s.hand[SLOW] != Free then Go(SLOW, 0)
    else Activate(n)
  }

  predicate Spent(s: System, n: nat)
    requires Wf(s) && n < INPUTS
  {
    s.hand[FAST] == s.hand[TIMER] == s.hand[SLOW] == Free && s.section.timer == 0 && s.inputs[n].tmr == 0
    && s.inputs[n].cnt == ALARM_MAX_CNT
  }

  function Weight(st: Stage): nat
  {
    match st
    case Free => 0
    case Asked(_) => 6
    case Counted(_) => 5
    case Starting(_) => 4
    case Expired => 2
    case Firing => 1
    case Sure(_) => 1
  }

  function Work(s: System, n: nat): nat
    requires Wf(s) && n < INPUTS
  {
    Weight(s.hand[FAST]) + Weight(s.hand[TIMER]) + Weight(s.hand[SLOW]) + (if s.section.timer > 0 then 3 else 0)
    + if s.inputs[n].tmr > 0 then s.inputs[n].tmr as int + 5 else 0
  }

  /** How many activations can still be counted, and whether the next has begun. */
  function Left(s: System, n: nat): nat
    requires Wf(s) && n < INPUTS && s.inputs[n].cnt <= ALARM_MAX_CNT
  {
    2 * (3 - s.inputs[n].cnt as int) + if s.inputs[n].cnt < ALARM_MAX_CNT && s.hand[SLOW] == Asked(n) then 0 else 1
  }

  /** What a step needs to know of the state: the handlers are where they can be, the input counts to three. */
  ghost predicate Armed(s: System, n: nat)
  {
    Wf(s) && SectionInv(s) && n < INPUTS && s.section.state == StSet && s.inputs[n].cnt <= ALARM_MAX_CNT
    && (s.inputs[n].reaction == Delay || s.inputs[n].reaction == Instant)
  }

  /** Nothing of the input is lost, nothing but handlers and activations has run, and it goes on. */
  ghost predicate Advances(s: System, t: System, n: nat)
    requires Armed(s, n) && Wf(t)
  {
    && t.section.state == StSet && t.inputs[n].reaction == s.inputs[n].reaction && t.inputs[n].cnt <= ALARM_MAX_CNT
    && Balance(t, n) == Balance(s, n) && t.cmd == s.cmd && t.carried == s.carried && t.cleared == s.cleared
    && (Left(t, n) < Left(s, n) || (Left(t, n) == Left(s, n) && Work(t, n) < Work(s, n)))
  }

  lemma FastAdvances(s: System, u: Setup, n: nat)
    requires Armed(s, n) && s.hand[FAST] != Free
    ensures Advances(s, After(s, u, Go(FAST, 0)), n)
  {
  }

  lemma CheckAdvances(s: System, u: Setup, n: nat)
    requires Armed(s, n) && s.hand[FAST] == Free && s.section.timer > 0
    ensures Advances(s, After(s, u, Check(s.section.timer + 1)), n)
  {
  }

  lemma StartingAdvances(s: System, u: Setup, k: nat, n: nat)
    requires Armed(s, n) && Timed(u) && s.hand[FAST] == Free && s.section.timer == 0 && !s.section.tmIn
    requires k < TASKS && s.hand[k].Starting?
    ensures Advances(s, After(s, u, Go(k, 0)), n)
  {
  }

  lemma SureAdvances(s: System, u: Setup, k: nat, n: nat)
    requires Armed(s, n) && k < TASKS && s.hand[k].Sure?
    ensures Advances(s, After(s, u, Go(k, 0)), n)
  {
    SureBalance(s, u, k, 0, n);
  }

  lemma CountedAdvances(s: System, u: Setup, k: nat, n: nat)
    requires Armed(s, n) && k < TASKS && s.hand[k].Counted?
    ensures Advances(s, After(s, u, Go(k, 0)), n)
  {
  }

  lemma AskedAdvances(s: System, u: Setup, n: nat)
    requires Armed(s, n) && s.hand[SLOW].Asked? && s.inputs[n].tmr == 0
    ensures Advances(s, After(s, u, Go(SLOW, 0)), n)
  {
  }

  lemma TickAdvances(s: System, u: Setup, n: nat)
    requires Armed(s, n) && s.hand[TIMER] == Free && s.inputs[n].tmr > 0
    ensures Advances(s, After(s, u, Tick(n)), n)
  {
  }

  lemma ActivationAdvances(s: System, u: Setup, n: nat)
    requires Armed(s, n) && s.hand[SLOW] == Free && s.inputs[n].cnt < ALARM_MAX_CNT
    ensures Advances(s, After(s, u, Activate(n)), n)
  {
  }

  lemma GoAdvances(s: System, u: Setup, k: nat, n: nat)
    requires Armed(s, n) && Timed(u) && s.hand[FAST] == Free && s.section.timer == 0 && !s.section.tmIn
    requires (k == TIMER || k == SLOW) && s.hand[k] != Free && (s.hand[k].Asked? ==> s.inputs[n].tmr == 0)
    ensures Advances(s, After(s, u, Go(k, 0)), n)
  {
    match s.hand[k]
    case Sure(_) => SureAdvances(s, u, k, n);
    case Starting(_) => StartingAdvances(s, u, k, n);
    case Counted(_) => CountedAdvances(s, u, k, n);
    case _ => AskedAdvances(s, u, n);
  }

  lemma PickAdvances(s: System, u: Setup, n: nat)
    requires Armed(s, n) && TimerInv(s) && Timed(u) && !Spent(s, n)
    ensures Advances(s, After(s, u, Pick(s, n)), n)
  {
    if s.hand[FAST] != Free {
      FastAdvances(s, u, n);
    } else if s.section.timer > 0 {
      CheckAdvances(s, u, n);
    } else if s.hand[TIMER] != Free {
      GoAdvances(s, u, TIMER, n);
    } else if s.inputs[n].tmr > 0 {
      TickAdvances(s, u, n);
    } else if s.hand[SLOW] != Free {
      GoAdvances(s, u, SLOW, n);
    } else {
      ActivationAdvances(s, u, n);
    }
  }

  /** A run without commands in which everything on its way, and every activation still counted, becomes an event. */
  lemma {:induction false} Drain(s: System, u: Setup, n: nat) returns (acts: seq<Step>, t: System)
    requires Live(s, n) && Timed(u)
    ensures IsRun(s, u, acts, t) && NoCommands(acts) && Live(t, n)
    ensures t.made[n] == s.made[n] + Pending(s, n) + 3 - s.inputs[n].cnt as int
    ensures Pending(t, n) == 0 && t.inputs[n].cnt == 3
    ensures t.cmd == s.cmd && t.carried == s.carried && t.cleared == s.cleared
    decreases Left(s, n), Work(s, n)
  {
    if Spent(s, n) {
      acts, t := [], s;
    } else {
      var a := Pick(s, n);
      PickAdvances(s, u, n);
      StepKeeps(s, u, a);
      TimerKeeps(s, u, a);
      acts, t := Drain(After(s, u, a), u, n);
      Prepend(s, u, a, acts, t);
      acts := [a] + acts;
    }
  }

  // ---- exactly ----

  /** Some run without commands brings the events of the input to this number. */
  ghost predicate CanMake(s: System, u: Setup, n: nat, k: nat)
    requires n < INPUTS
  {
    exists acts, t :: IsRun(s, u, acts, t) && NoCommands(acts) && Wf(t) && t.made[n] >= k
  }

  /** The greatest number of events of an input before the next command. */
  lemma {:induction false} CountExact(s: System, u: Setup, n: nat, k: nat)
    requires Live(s, n) && Timed(u)
    ensures CanMake(s, u, n, k) <==> k <= s.made[n] + Pending(s, n) + 3 - s.inputs[n].cnt as int
  {
    if k <= s.made[n] + Pending(s, n) + 3 - s.inputs[n].cnt as int {
      var acts, t := Drain(s, u, n);
    } else {
      forall acts, t | IsRun(s, u, acts, t) && NoCommands(acts) && Wf(t) ensures t.made[n] < k {
        AtMost(s, u, acts, t, n);
      }
    }
  }

  /**
   More than three further events of an input are possible exactly when more is on its way than it has counted;
   more than three since alarm_stop, exactly when that is so with those it has made.
   */
  lemma FourExact(s: System, u: Setup, n: nat)
    requires Live(s, n) && Timed(u)
    ensures CanMake(s, u, n, s.made[n] + 4) <==> Pending(s, n) > s.inputs[n].cnt as int
    ensures CanMake(s, u, n, 4) <==> s.made[n] + Pending(s, n) > s.inputs[n].cnt as int
  {
    CountExact(s, u, n, s.made[n] + 4);
    CountExact(s, u, n, 4);
  }

  lemma {:induction false} SumGrows(a: seq<nat>, b: seq<nat>)
    requires |a| == |b| && forall n :: 0 <= n < |a| ==> b[n] <= a[n] + 3
    ensures Sum(b) <= Sum(a) + 3 * |a|
  {
    if a != [] {
      SumGrows(a[..|a| - 1], b[..|a| - 1]);
    }
  }

  /** When no input has more on its way than counted: at most three further events each and 24 in all. */
  lemma {:induction false} QuietPeriod(s: System, u: Setup, acts: seq<Step>, t: System)
    requires Inv(s) && IsRun(s, u, acts, t) && NoCommands(acts)
    requires forall n: nat :: n < INPUTS ==> Pending(s, n) <= s.inputs[n].cnt as int
    ensures Inv(t) && forall n :: 0 <= n < INPUTS ==> t.made[n] <= s.made[n] + 3
    ensures Sum(t.made) <= Sum(s.made) + 24
  {
    AtMost(s, u, acts, t, 0);
    forall n: nat | n < INPUTS ensures t.made[n] <= s.made[n] + 3 {
      AtMost(s, u, acts, t, n);
    }
    SumGrows(s.made, t.made);
  }

  // ---- what commands do to the number ----

  /** On its way to an event by a handler or the entry delay. */
  function UnderWay(s: System, n: nat): nat
    requires Wf(s) && n < INPUTS
  {
    Pending(s, n) - if s.inputs[n].tmr > 0 then 1 else 0
  }

  /**
   system_set resets the inputs after it has written the state. From there on more than three events since
   alarm_stop are possible exactly when the input had made one, or had one under way, when it was reset.
   */
  lemma ArmedExact(s: System, u: Setup, n: nat)
    requires Live(s, n) && Timed(u) && s.cmd == Setting
    ensures CanMake(After(s, u, ArmRest), u, n, 4) <==> s.made[n] > 0 || UnderWay(s, n) > 0
  {
    var t := After(s, u, ArmRest);
    StepKeeps(s, u, ArmRest);
    TimerKeeps(s, u, ArmRest);
    assert t.inputs[n] == ResetInput(s.inputs[n]) && Pending(t, n) == UnderWay(s, n);
    FourExact(t, u, n);
  }

  predicate NoStop(acts: seq<Step>) { DisarmStop !in acts }

  /** Armed up to the new state; nothing is on its way and nothing counted that was not before. */
  lemma ArmRun(s: System, u: Setup, n: nat) returns (t: System)
    requires Inv(s) && TimerInv(s) && Timed(u) && n < INPUTS && s.cmd == NoCommand && s.section.state == StUnset
    requires s.inputs[n].reaction == Delay || s.inputs[n].reaction == Instant
    ensures IsRun(s, u, [ArmTimers(0), ArmState], t) && Live(t, n) && t.cmd == Setting
    ensures t.made == s.made && t.carried == s.carried && t.inputs == s.inputs && Pending(t, n) == Pending(s, n)
  {
    var m := After(s, u, ArmTimers(0));
    t := After(m, u, ArmState);
    Two(s, u, ArmTimers(0), ArmState);
    StepKeeps(s, u, ArmTimers(0));
    TimerKeeps(s, u, ArmTimers(0));
    StepKeeps(m, u, ArmState);
    TimerKeeps(m, u, ArmState);
  }

  /** The rest of system_set, and everything the input can make after it. */
  lemma ResetThenDrain(s: System, u: Setup, n: nat) returns (acts: seq<Step>, t: System)
    requires Live(s, n) && Timed(u) && s.cmd == Setting
    ensures IsRun(s, u, [ArmRest] + acts, t) && NoStop([ArmRest] + acts) && Wf(t)
    ensures t.made[n] == s.made[n] + UnderWay(s, n) + 3 && t.carried == s.carried
  {
    var m := After(s, u, ArmRest);
    StepKeeps(s, u, ArmRest);
    TimerKeeps(s, u, ArmRest);
    assert m.inputs[n] == ResetInput(s.inputs[n]) && Pending(m, n) == UnderWay(s, n);
    acts, t := Drain(m, u, n);
    Prepend(s, u, ArmRest, acts, t);
    assert forall a :: a in acts ==> !IsCommand(a);
  }

  /** Armed, and everything the input can make before its count is taken back. */
  lemma ArmThenDrain(s: System, u: Setup, n: nat) returns (acts: seq<Step>, t: System)
    requires Inv(s) && TimerInv(s) && Timed(u) && n < INPUTS && s.cmd == NoCommand && s.section.state == StUnset
    requires s.inputs[n].reaction == Delay || s.inputs[n].reaction == Instant
    ensures IsRun(s, u, acts, t) && NoStop(acts) && Live(t, n) && t.cmd == Setting && Pending(t, n) == 0
    ensures t.made[n] == s.made[n] + Pending(s, n) + 3 - s.inputs[n].cnt as int && t.carried == s.carried
  {
    var a := ArmRun(s, u, n);
    var first;
    first, t := Drain(a, u, n);
    ExtendAll(s, u, [ArmTimers(0), ArmState], a, first, t);
    acts := [ArmTimers(0), ArmState] + first;
    assert forall x :: x in first ==> !IsCommand(x);
  }

  /**
   A run from boot without any alarm_stop and with nothing carried: between the new state and the reset of the
   inputs three activations are counted and make their events, after the reset three more.
   */
  lemma SixAlarms(inputs: seq<Input>, u: Setup, n: nat) returns (acts: seq<Step>, t: System)
    requires Timed(u) && |inputs| == INPUTS && n < INPUTS && (inputs[n].reaction == Delay || inputs[n].reaction == Instant)
    requires forall k :: 0 <= k < INPUTS ==> inputs[k].reaction != Around24H && inputs[k].tmr == 0 && inputs[k].cnt == 0
    ensures IsRun(Boot(inputs, StUnset), u, acts, t) && NoStop(acts) && Wf(t)
    ensures t.made[n] == 6 && t.carried[n] == 0
  {
    InitIsSafe(inputs, StUnset);
    var m, rest;
    acts, m := ArmThenDrain(Boot(inputs, StUnset), u, n);
    rest, t := ResetThenDrain(m, u, n);
    ExtendAll(Boot(inputs, StUnset), u, acts, m, [ArmRest] + rest, t);
    acts := acts + ([ArmRest] + rest);
  }

  /** The run of AlarmAfterDisarm goes on: armed again, the input makes a fourth alarm event after one alarm_stop. */
  lemma FourthAlarm(inputs: seq<Input>, u: Setup, n: nat) returns (acts: seq<Step>, m: System, more: seq<Step>, t: System)
    requires Timed(u) && |inputs| == INPUTS && Ready(Boot(inputs, StSet), n)
    requires forall k :: 0 <= k < INPUTS ==> inputs[k].reaction != Around24H && inputs[k].tmr == 0 && inputs[k].cnt == 0
    ensures IsRun(Boot(inputs, StSet), u, acts + DISARM, m) && IsRun(m, u, more, t) && NoStop(more)
    ensures Wf(m) && m.made[n] == 0 && Wf(t) && t.made[n] == 4
  {
    InitIsSafe(inputs, StSet);
    acts, m := AlarmAfterDisarm(inputs, u, n);
    AlarmBounds(Boot(inputs, StSet), u, acts + DISARM, m);
    var a := ArmRun(m, u, n);
    more, t := ResetThenDrain(a, u, n);
    ExtendAll(m, u, [ArmTimers(0), ArmState], a, [ArmRest] + more, t);
    more := [ArmTimers(0), ArmState] + ([ArmRest] + more);
  }
}
