/**
 Delivery of GPS records over UDP (app/tracer/tracer.c): the steps of the sending task
 interleaved with the receive task, with points stored meanwhile and with reboots.
 */
module TracerProtocol {
  import opened Machine
  import opened TracerBuffer
  import opened TracerRuns

  /** Where tracer_comm_process stands between two atomic steps. */
  datatype Phase =
    | Idle
    | Handover   // record read from flash, packet not built yet
    | Cleared    // acknowledge cleared, packet not handed to the network yet
    | Polling    // packet transmitted, polling for the acknowledge
    | Acked      // acknowledge taken
    | Flagging   // packet released, marking loop running

  /**
   packet is the history index of the record in the packet buffer; dropped counts packets
   thrown away by a reinit since the last marking; sent are the records ever transmitted,
   answered those transmitted before some accepted reply. early tells that a reply was accepted between
   clearing the acknowledge and sending; excused are the records released after such a reply.
   */
  datatype Link = Link(run: Run, phase: Phase, packet: Option<nat>, ack: bool,
                       dropped: nat, sent: set<nat>, answered: set<nat>, early: bool, excused: set<nat>)

  datatype Step =
    | StorePoint(rec: Record) | Reply | Reboot
    | Fetch | Build | Clear | Send | TakeAck | Timeout | Release | MarkStep | Reinit

  const BOOT: Link := Link(TracerRuns.START, Idle, None, false, 0, {}, {}, false, {})

  predicate Enabled(s: Link, a: Step)
  {
    match a
    case StorePoint(rec) => Allowed(s.run, Store(rec))
    case Reboot => Allowed(s.run, TracerRuns.Reboot)
    case Reply => true
    case Fetch => s.phase == Idle && s.packet == None && s.run.ring.read != s.run.ring.save
    case Build => s.phase == Handover
    case Clear => s.phase == Idle && s.packet.Some?
    case Send => s.phase == Cleared
    case TakeAck => s.phase == Polling && s.ack
    case Timeout => s.phase == Polling
    case Release => s.phase == Acked
    case MarkStep => s.phase == Flagging
    case Reinit => s.phase == Idle
  }

  function After(s: Link, a: Step): Link
    requires s.run.ring.save < N && s.run.ring.read < N && s.run.ring.lu < N
  {
    match a
    case StorePoint(rec) => s.(run := Next(s.run, Store(rec)))
    case Reboot =>
      s.(run := Next(s.run, TracerRuns.Reboot), phase := Idle, packet := None, ack := false, dropped := 0)
    case Reply => s.(ack := true, answered := s.answered + s.sent, early := s.early || s.phase == Cleared)
    case Fetch => s.(run := Next(s.run, Read), phase := Handover)
    case Build => s.(phase := Idle, packet := Some(if s.run.passed > 0 then s.run.passed - 1 else 0))
    case Clear => s.(ack := false, phase := Cleared, early := false)
    case Send => s.(phase := Polling, sent := if s.packet.Some? then s.sent + {s.packet.value} else s.sent)
    case TakeAck => s.(ack := false, phase := Acked)
    case Timeout => s.(phase := Idle)
    case Release =>
      s.(packet := None, phase := Flagging,
         excused := if s.early && s.packet.Some? then s.excused + {s.packet.value} else s.excused)
    case MarkStep =>
      if s.run.ring.lu == s.run.ring.read then s.(phase := Idle, dropped := 0)
      else s.(run := Next(s.run, Mark))
    case Reinit =>
      s.(ack := false, packet := None, dropped := s.dropped + if s.packet.Some? then 1 else 0)
  }

  /** What packet, phase and acknowledge say about the records read and not yet flagged. */
  ghost predicate LinkInv(s: Link)
  {
    && (s.phase != Flagging ==>
          s.run.passed - s.run.flagged
          == s.dropped + (if s.packet.Some? then 1 else 0) + (if s.phase == Handover then 1 else 0))
    && (s.packet.Some? ==> s.run.passed > 0 && s.packet.value == s.run.passed - 1)
    && (s.phase == Handover || s.phase == Flagging ==> s.packet == None)
    && (s.phase == Cleared || s.phase == Polling || s.phase == Acked ==> s.packet.Some?)
    && (s.phase == Cleared ==> (s.ack <==> s.early))
    && (s.phase == Polling ==> s.packet.value in s.sent && (s.ack ==> s.packet.value in s.answered || s.early))
    && (s.phase == Acked ==> s.packet.value in s.answered || s.early)
  }

  ghost predicate Inv(s: Link) { TracerRuns.Inv(s.run) && LinkInv(s) }

  predicate Accounted(s: Link, j: nat) { j in s.answered || j in s.excused }

  /** With no packet ever thrown away, only answered or excused records are flagged or about to be. */
  ghost predicate OnlyAnsweredFlagged(s: Link)
  {
    && s.dropped == 0
    && (forall j: nat :: j < s.run.flagged ==> Accounted(s, j))
    && (s.phase == Flagging ==> forall j: nat :: j < s.run.passed ==> Accounted(s, j))
  }

  /** No accepted reply falls between a Clear and its Send. */
  predicate Prompt(s: Link, a: Step) { a == Reply ==> s.phase != Cleared }

  /** How far a step moves reading and flagging. */
  predicate Moves(s: Run, a: Step, t: Run)
  {
    match a
    case Reboot => t.passed == t.flagged == s.flagged
    case Fetch => t.passed == s.passed + 1 && t.flagged == s.flagged
    case MarkStep => t.passed == s.passed && t.flagged == if s.flagged == s.passed then s.flagged else s.flagged + 1
    case _ => t.passed == s.passed && t.flagged == s.flagged
  }

  lemma RunStep(s: Link, a: Step)
    requires Inv(s) && Enabled(s, a)
    ensures TracerRuns.Inv(After(s, a).run) && Moves(s.run, a, After(s, a).run)
    ensures s.run.ring.lu == s.run.ring.read <==> s.run.flagged == s.run.passed
  {
    MarkKeeps(s.run);
    match a
    case StorePoint(rec) => TracerRuns.StepKeeps(s.run, Store(rec));
    case Reboot => TracerRuns.StepKeeps(s.run, TracerRuns.Reboot);
    case Fetch => ReadReturns(s.run); ReadNotEmpty(s.run);
    case _ =>
  }

  lemma LinkStep(s: Link, a: Step)
    requires s.run.ring.save < N && s.run.ring.read < N && s.run.ring.lu < N
    requires LinkInv(s) && Enabled(s, a) && Moves(s.run, a, After(s, a).run)
    requires s.run.ring.lu == s.run.ring.read <==> s.run.flagged == s.run.passed
    ensures LinkInv(After(s, a))
  {
  }

  lemma StepKeeps(s: Link, a: Step)
    requires Inv(s) && Enabled(s, a)
    ensures Inv(After(s, a))
    ensures s.sent <= After(s, a).sent && s.answered <= After(s, a).answered && s.excused <= After(s, a).excused
  {
    RunStep(s, a);
    LinkStep(s, a);
  }

  lemma ReleaseAccounts(s: Link)
    requires Inv(s) && s.phase == Acked && OnlyAnsweredFlagged(s)
    ensures OnlyAnsweredFlagged(After(s, Release))
  {
    var t := After(s, Release);
    forall j: nat | j < t.run.passed ensures Accounted(t, j) {
      assert Accounted(s, j) || j == s.packet.value;
    }
  }

  lemma StepAccounts(s: Link, a: Step)
    requires Inv(s) && Enabled(s, a) && OnlyAnsweredFlagged(s) && a != Reinit
    ensures OnlyAnsweredFlagged(After(s, a))
  {
    var t := After(s, a);
    if a.Release? {
      ReleaseAccounts(s);
    } else {
      if a.Fetch? {
        ReadReturns(s.run);
      } else if a.MarkStep? {
        MarkKeeps(s.run);
      }
      AccountsStay(s, t);
    }
  }

  lemma AccountsStay(s: Link, t: Link)
    requires OnlyAnsweredFlagged(s) && t.dropped == 0 && s.answered <= t.answered && s.excused <= t.excused
    requires if s.phase == Flagging then t.run.flagged <= s.run.passed && t.run.passed <= s.run.passed
             else t.run.flagged <= s.run.flagged && t.phase != Flagging
    ensures OnlyAnsweredFlagged(t)
  {
    forall j: nat | j < t.run.flagged || (t.phase == Flagging && j < t.run.passed) ensures Accounted(t, j) {
      assert Accounted(s, j);
    }
  }

  lemma ReadNotEmpty(r: Run)
    requires TracerRuns.Inv(r)
    ensures r.ring.read == r.ring.save <==> r.passed == |r.hist|
  {
    if r.passed < |r.hist| {
      AtApart(r.passed, |r.hist|);
    }
  }

  // ---- whole runs ----

  ghost predicate IsRun(s: Link, acts: seq<Step>, t: Link)
    decreases |acts|
  {
    if acts == [] then s == t
    else
      && s.run.ring.save < N && s.run.ring.read < N && s.run.ring.lu < N
      && Enabled(s, acts[0]) && IsRun(After(s, acts[0]), acts[1..], t)
  }

  /** A run in which every transmission is Prompt. */
  ghost predicate IsPrompt(s: Link, acts: seq<Step>)
    decreases |acts|
  {
    acts == [] || (s.run.ring.save < N && s.run.ring.read < N && s.run.ring.lu < N
                   && Prompt(s, acts[0]) && IsPrompt(After(s, acts[0]), acts[1..]))
  }

  lemma {:induction false} RunKeeps(s: Link, acts: seq<Step>, t: Link)
    requires Inv(s) && IsRun(s, acts, t)
    ensures Inv(t)
    ensures OnlyAnsweredFlagged(s) && Reinit !in acts ==> OnlyAnsweredFlagged(t)
    ensures !s.early && s.excused == {} && IsPrompt(s, acts) ==> !t.early && t.excused == {}
    decreases |acts|
  {
    if acts != [] {
      StepKeeps(s, acts[0]);
      if OnlyAnsweredFlagged(s) && acts[0] != Reinit {
        StepAccounts(s, acts[0]);
      }
      RunKeeps(After(s, acts[0]), acts[1..], t);
    }
  }

  lemma FlaggedIsAccounted(t: Link, j: nat)
    requires Inv(t) && OnlyAnsweredFlagged(t) && Live(t.run, j)
    ensures Waiting(t.run.ring.flash, At(j)) || j in t.answered || j in t.excused
  {
    assert t.run.hist[j] == t.run.hist[j];
    if j < t.run.flagged {
      assert Accounted(t, j);
    }
  }

  /**
   In every run without a reinit: outside the hand-over steps exactly one record is between
   flagged and read while a packet is pending, and none otherwise; and no record carries
   DELIVERED unless a reply was accepted after it had been transmitted, or one between a clear
   of the acknowledge and the transmission that followed it.
   */
  lemma Delivery(acts: seq<Step>, t: Link)
    requires IsRun(BOOT, acts, t) && Reinit !in acts
    ensures Inv(t) && OnlyAnsweredFlagged(t)
    ensures t.phase in {Idle, Cleared, Polling} ==>
              Back(t.run.ring.read, t.run.ring.lu) == if t.packet.Some? then 1 else 0
    ensures forall j: nat :: Live(t.run, j) ==>
              Waiting(t.run.ring.flash, At(j)) || j in t.answered || j in t.excused
    ensures IsPrompt(BOOT, acts) ==> t.excused == {}
  {
    RunKeeps(BOOT, acts, t);
    if t.phase in {Idle, Cleared, Polling} {
      AtInc(t.run.flagged);
    }
    forall j: nat | Live(t.run, j)
      ensures Waiting(t.run.ring.flash, At(j)) || j in t.answered || j in t.excused
    {
      FlaggedIsAccounted(t, j);
    }
  }

  // ---- what an early reply does ----

  /** Nothing more than this transmission can release the packet. */
  predicate NoOther(acts: seq<Step>) { Clear !in acts && Reinit !in acts }

  /** A run in which this transmission makes its record DELIVERED without an answer to it. */
  ghost predicate FlagsUnanswered(s: Link, p: nat, acts: seq<Step>, t: Link)
  {
    IsRun(s, acts, t) && NoOther(acts) && p < t.run.flagged && p !in t.answered
  }

  lemma {:induction false} Answerless(s: Link, p: nat, acts: seq<Step>, t: Link)
    requires Inv(s) && IsRun(s, acts, t) && NoOther(acts) && p in s.sent
    requires p in s.answered
             || (s.run.flagged <= p && s.phase !in {Cleared, Acked, Flagging} && (s.phase == Polling ==> !s.ack))
    ensures p in t.answered || t.run.flagged <= p
    decreases |acts|
  {
    if acts != [] {
      assert acts[0] in acts;
      StepKeeps(s, acts[0]);
      Answerless(After(s, acts[0]), p, acts[1..], t);
    }
  }

  /** The acknowledge is there: it is taken, the packet released, its record flagged. */
  lemma TakeAndMark(s: Link) returns (acts: seq<Step>, t: Link)
    requires Inv(s) && s.phase == Polling && s.ack
    ensures IsRun(s, acts, t) && Inv(t) && acts == [TakeAck] + ([Release] + [MarkStep])
    ensures t.run.flagged == s.run.flagged + 1 && t.sent == s.sent && t.answered == s.answered
    ensures t.phase == Flagging && t.run.passed == s.run.passed && t.run.hist == s.run.hist && t.packet == None
  {
    var s1 := After(s, TakeAck);
    StepKeeps(s, TakeAck);
    var s2 := After(s1, Release);
    StepKeeps(s1, Release);
    t := After(s2, MarkStep);
    StepKeeps(s2, MarkStep);
    MarkKeeps(s2.run);
    assert IsRun(t, [], t);
    Prepend(s2, MarkStep, [], t);
    Prepend(s1, Release, [MarkStep], t);
    Prepend(s, TakeAck, [Release] + [MarkStep], t);
    acts := [TakeAck] + ([Release] + [MarkStep]);
  }

  /**
   The acknowledge is cleared, the packet about to be sent and its record not answered yet. Its transmission
   can make the record DELIVERED without an answer if and only if a reply was accepted since the clear.
   */
  lemma {:induction false} EarlyExact(s: Link)
    requires Inv(s) && s.phase == Cleared && s.dropped == 0 && s.packet.value !in s.answered
    ensures s.early <==> exists acts, t :: FlagsUnanswered(After(s, Send), s.packet.value, acts, t)
  {
    var p, m := s.packet.value, After(s, Send);
    StepKeeps(s, Send);
    if s.early {
      var acts, t := TakeAndMark(m);
      assert FlagsUnanswered(m, p, acts, t);
    } else {
      forall acts, t ensures !FlagsUnanswered(m, p, acts, t) {
        if IsRun(m, acts, t) && NoOther(acts) {
          Answerless(m, p, acts, t);
        }
      }
    }
  }

  /**
   What one acknowledge flags: the transmitted record and nothing else, exactly when no
   packet was thrown away since the last marking.
   */
  lemma AckFlags(s: Link)
    requires Inv(s) && s.phase == Acked
    ensures MarkUpTo(s.run.ring)
            == s.run.ring.(flash := s.run.ring.flash[At(s.packet.value) := Some(Flagged(s.run.hist[s.packet.value]))],
                           lu := s.run.ring.read)
            <==> s.dropped == 0
  {
    var r, j := s.run, s.packet.value;
    AtInc(j);
    AtInc(r.flagged);
    assert Live(r, r.flagged) && r.hist[r.flagged] == r.hist[r.flagged];
    AtApart(r.flagged, r.passed);
    var one := MarkOne(r.ring);
    assert one.flash[At(r.flagged)] == Some(Flagged(r.hist[r.flagged]));
    if s.dropped == 0 {
      assert MarkUpTo(r.ring) == MarkUpTo(one) == one;
    } else {
      AtApart(r.flagged, j);
      MarkKeepsFlag(one, At(r.flagged));
      assert Some(r.hist[r.flagged]) == r.ring.flash[At(r.flagged)];
    }
  }

  /** The marking loop never clears a flag. */
  lemma {:induction false} MarkKeepsFlag(m: Ring, p: nat)
    requires m.lu < N && m.read < N && p < N
    requires m.flash[p].Some? && IsDelivered(m.flash[p].value)
    ensures MarkUpTo(m).flash[p].Some? && IsDelivered(MarkUpTo(m).flash[p].value)
    decreases Back(m.read, m.lu)
  {
    if m.lu != m.read {
      MarkKeepsFlag(MarkOne(m), p);
    }
  }

  lemma Prepend(s: Link, a: Step, acts: seq<Step>, t: Link)
    requires Inv(s) && Enabled(s, a) && IsRun(After(s, a), acts, t)
    ensures IsRun(s, [a] + acts, t)
  {
    assert ([a] + acts)[1..] == acts;
  }

  const EARLY: seq<Step> := [Clear] + ([Reply] + ([Send] + ([TakeAck] + ([Release] + [MarkStep]))))

  /** A transmission that a reply from before precedes: the record is DELIVERED, sent once and never answered. */
  lemma EarlyReplyFlags(s: Link) returns (t: Link)
    requires Inv(s) && s.phase == Idle && s.packet.Some? && s.dropped == 0
    requires s.packet.value !in s.sent && s.packet.value !in s.answered
    ensures IsRun(s, EARLY, t) && Inv(t) && t.run.hist == s.run.hist
    ensures s.packet.value < t.run.flagged && s.packet.value !in t.answered
  {
    var s1 := After(s, Clear);
    StepKeeps(s, Clear);
    var s2 := After(s1, Reply);
    StepKeeps(s1, Reply);
    var s3 := After(s2, Send);
    StepKeeps(s2, Send);
    var acts;
    acts, t := TakeAndMark(s3);
    Prepend(s2, Send, acts, t);
    Prepend(s1, Reply, [Send] + acts, t);
    Prepend(s, Clear, [Reply] + ([Send] + acts), t);
  }

  /** From a pending packet to one more flagged record: clear, send, reply, take it, release, mark. */
  lemma AcknowledgeAndMark(s: Link) returns (acts: seq<Step>, t: Link)
    requires Inv(s) && s.phase == Idle && s.packet.Some?
    ensures IsRun(s, acts, t) && Inv(t) && Reinit !in acts
    ensures t.run.flagged == s.run.flagged + 1 && t.sent == s.sent + {s.packet.value}
    ensures t.answered == s.answered + t.sent
    ensures t.phase == Flagging && t.run.passed == s.run.passed && t.run.hist == s.run.hist && t.packet == None
  {
    var s1 := After(s, Clear);
    StepKeeps(s, Clear);
    var s2 := After(s1, Send);
    StepKeeps(s1, Send);
    var s3 := After(s2, Reply);
    StepKeeps(s2, Reply);
    acts, t := TakeAndMark(s3);
    Prepend(s2, Reply, acts, t);
    Prepend(s1, Send, [Reply] + acts, t);
    Prepend(s, Clear, [Send] + ([Reply] + acts), t);
    acts := [Clear] + ([Send] + ([Reply] + acts));
  }

  // ---- runs from an erased ring ----

  lemma {:induction false} Concat(s: Link, a: seq<Step>, m: Link, b: seq<Step>, t: Link)
    requires IsRun(s, a, m) && IsRun(m, b, t)
    ensures IsRun(s, a + b, t)
    decreases |a|
  {
    if a == [] {
      assert a + b == b;
    } else {
      assert (a + b)[0] == a[0] && (a + b)[1..] == a[1..] + b;
      Concat(After(s, a[0]), a[1..], m, b, t);
    }
  }

  /** Read and build the next record. */
  lemma NextPacket(s: Link) returns (t: Link)
    requires Inv(s) && s.phase == Idle && s.packet == None && s.run.passed < |s.run.hist|
    ensures IsRun(s, [Fetch] + [Build], t) && Inv(t) && t.run.hist == s.run.hist && t.run.passed == s.run.passed + 1
    ensures t == s.(run := t.run, packet := Some(s.run.passed)) && t.run.flagged == s.run.flagged
  {
    ReadNotEmpty(s.run);
    ReadReturns(s.run);
    var m := After(s, Fetch);
    StepKeeps(s, Fetch);
    t := After(m, Build);
    StepKeeps(m, Build);
    assert IsRun(t, [], t);
    Prepend(m, Build, [], t);
    Prepend(s, Fetch, [Build], t);
  }

  /** Two points are stored, the first is read and its packet built. */
  lemma TwoStored(a: Record, b: Record) returns (acts: seq<Step>, t: Link)
    requires !IsDelivered(a) && !IsDelivered(b) && a.track <= b.track
    ensures IsRun(BOOT, acts, t) && Inv(t) && Reinit !in acts
    ensures t.phase == Idle && t.dropped == 0 && t.packet == Some(0) && t.sent == {} && t.answered == {}
    ensures t.run.hist == [a, b] && t.run.passed == 1 && t.run.flagged == 0
  {
    var s1 := After(BOOT, StorePoint(a));
    StepKeeps(BOOT, StorePoint(a));
    var s2 := After(s1, StorePoint(b));
    StepKeeps(s1, StorePoint(b));
    t := NextPacket(s2);
    Prepend(s1, StorePoint(b), [Fetch] + [Build], t);
    Prepend(BOOT, StorePoint(a), [StorePoint(b)] + ([Fetch] + [Build]), t);
    acts := [StorePoint(a)] + ([StorePoint(b)] + ([Fetch] + [Build]));
  }

  /** The first packet is sent and its answer does not come in time. */
  lemma SentInVain(s: Link) returns (t: Link)
    requires Inv(s) && s.phase == Idle && s.packet.Some?
    ensures IsRun(s, [Clear] + ([Send] + [Timeout]), t) && Inv(t)
    ensures t == s.(ack := false, early := false, sent := s.sent + {s.packet.value})
  {
    var s1 := After(s, Clear);
    StepKeeps(s, Clear);
    var s2 := After(s1, Send);
    StepKeeps(s1, Send);
    t := After(s2, Timeout);
    StepKeeps(s2, Timeout);
    assert IsRun(t, [], t);
    Prepend(s2, Timeout, [], t);
    Prepend(s1, Send, [Timeout], t);
    Prepend(s, Clear, [Send] + [Timeout], t);
  }

  /** The marking loop ends; the next record is read and built. */
  lemma MarkedThenNext(s: Link) returns (t: Link)
    requires Inv(s) && s.phase == Flagging && s.run.flagged == s.run.passed < |s.run.hist|
    ensures IsRun(s, [MarkStep] + ([Fetch] + [Build]), t) && Inv(t)
    ensures t == s.(run := t.run, phase := Idle, dropped := 0, packet := Some(s.run.passed)) && t.run.hist == s.run.hist
  {
    MarkKeeps(s.run);
    var m := After(s, MarkStep);
    StepKeeps(s, MarkStep);
    t := NextPacket(m);
    Prepend(s, MarkStep, [Fetch] + [Build], t);
  }

  /**
   From an erased ring: the first record is sent twice, and answered twice. The first answer flags it; the second
   is accepted between clearing the acknowledge and sending the second record, which is then flagged although
   no reply followed its only transmission.
   */
  lemma LateReplyFlagsNext(a: Record, b: Record) returns (acts: seq<Step>, t: Link)
    requires !IsDelivered(a) && !IsDelivered(b) && a.track <= b.track
    ensures IsRun(BOOT, acts, t) && Inv(t) && Reinit !in acts
    ensures 1 < t.run.flagged && 1 !in t.answered && t.run.hist == [a, b]
  {
    var first, m := SecondBuilt(a, b);
    t := EarlyReplyFlags(m);
    Concat(BOOT, first, m, EARLY, t);
    acts := first + EARLY;
  }

  lemma SecondBuilt(a: Record, b: Record) returns (acts: seq<Step>, t: Link)
    requires !IsDelivered(a) && !IsDelivered(b) && a.track <= b.track
    ensures IsRun(BOOT, acts, t) && Inv(t) && Reinit !in acts && t.run.hist == [a, b]
    ensures t.phase == Idle && t.dropped == 0 && t.packet == Some(1) && t.sent == t.answered == {0}
  {
    var first, s := TwoStored(a, b);
    var more;
    more, t := SecondPending(s);
    Concat(BOOT, first, s, more, t);
    acts := first + more;
  }

  /** The first packet is sent twice and answered, its record flagged, the second packet built. */
  lemma SecondPending(s: Link) returns (acts: seq<Step>, t: Link)
    requires Inv(s) && s.phase == Idle && s.packet.Some? && s.run.passed < |s.run.hist|
    requires s.sent == {} && s.answered == {} && s.dropped == 0
    ensures IsRun(s, acts, t) && Inv(t) && Reinit !in acts
    ensures t.phase == Idle && t.dropped == 0 && t.packet == Some(s.packet.value + 1) && t.run.hist == s.run.hist
    ensures t.sent == t.answered == {s.packet.value}
  {
    var m := SentInVain(s);
    var first, n := AcknowledgeAndMark(m);
    t := MarkedThenNext(n);
    Concat(s, [Clear] + ([Send] + [Timeout]), m, first, n);
    Concat(s, [Clear] + ([Send] + [Timeout]) + first, n, [MarkStep] + ([Fetch] + [Build]), t);
    acts := [Clear] + ([Send] + [Timeout]) + first + ([MarkStep] + ([Fetch] + [Build]));
  }

  /** Why reinit is excluded: a record can become DELIVERED that was never transmitted. */
  lemma ReinitFlagsUnsent(s: Link) returns (acts: seq<Step>, t: Link)
    requires Inv(s) && s.phase == Idle && s.dropped == 0 && s.packet.Some? && s.packet.value !in s.sent
    requires s.run.passed < |s.run.hist|
    ensures IsRun(s, acts, t) && Inv(t)
    ensures s.packet.value < t.run.flagged && s.packet.value !in t.sent
  {
    var s1 := After(s, Reinit);
    StepKeeps(s, Reinit);
    var s2 := NextPacket(s1);
    acts, t := AcknowledgeAndMark(s2);
    Concat(s1, [Fetch] + [Build], s2, acts, t);
    Prepend(s, Reinit, [Fetch] + [Build] + acts, t);
    acts := [Reinit] + ([Fetch] + [Build] + acts);
  }

  /** The same from an erased ring: the first record is flagged and was never sent. */
  lemma ReinitRun(a: Record, b: Record) returns (acts: seq<Step>, t: Link)
    requires !IsDelivered(a) && !IsDelivered(b) && a.track <= b.track
    ensures IsRun(BOOT, acts, t) && 0 < t.run.flagged && 0 !in t.sent
  {
    var first, s := TwoStored(a, b);
    var more;
    more, t := ReinitFlagsUnsent(s);
    Concat(BOOT, first, s, more, t);
    acts := first + more;
  }
}
