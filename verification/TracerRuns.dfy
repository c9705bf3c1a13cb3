/** Every run of store, read, mark and reboot on the GPS ring, and what a reboot may lose. */
module TracerRuns {
  import opened Machine
  import opened TracerBuffer
  import opened TracerRecovery

  /**
   The ring beside its history: all records stored since the erase, how many of them are
   flagged delivered, how many the read index has passed, and which were ever handed out.
   */
  datatype Run = Run(ring: Ring, hist: seq<Record>, flagged: nat, passed: nat, handed: set<nat>)

  datatype Action = Store(rec: Record) | Read | Mark | Reboot

  const START: Run := Run(Ring(seq(N, _ => None), 0, 0, 0), [], 0, 0, {})

  function Next(s: Run, a: Action): Run
    requires s.ring.save < N && s.ring.read < N && s.ring.lu < N
  {
    match a
    case Store(rec) => s.(ring := AfterStore(s.ring, rec), hist := s.hist + [rec])
    case Read =>
      (match ReadNext(s.ring)
       case (_, None) => s
       case (m, Some(_)) => s.(ring := m, passed := s.passed + 1, handed := s.handed + {s.passed}))
    case Mark =>
      if s.ring.lu == s.ring.read then s else s.(ring := MarkOne(s.ring), flagged := s.flagged + 1)
    case Reboot => s.(ring := Recover(s.ring.flash).ring, passed := s.flagged)
  }

  /** The slot of the j-th record. */
  function At(j: nat): (p: nat) ensures p < N { j % N }

  predicate Live(s: Run, j: nat) { |s.hist| - N <= j < |s.hist| }

  /** No track decreases, and records half a ring apart are of different tracks. */
  ghost predicate TracksGrow(h: seq<Record>)
  {
    && (forall j, k :: 0 <= j <= k < |h| ==> h[j].track <= h[k].track)
    && (forall j, k :: 0 <= j && j + N / 2 <= k < |h| ==> h[j].track < h[k].track)
  }

  /** The last N records are in their slots, flagged exactly below s.flagged; the rest is erased. */
  ghost predicate Holds(s: Run)
  {
    && (forall j: nat {:trigger s.hist[j]} :: Live(s, j) ==>
          s.ring.flash[At(j)] == Some(if j < s.flagged then Flagged(s.hist[j]) else s.hist[j]))
    && (forall p :: |s.hist| <= p < N ==> s.ring.flash[p] == None)
  }

  ghost predicate Inv(s: Run)
  {
    && Holds(s)
    && s.flagged <= s.passed <= |s.hist| && |s.hist| - s.flagged < N
    && s.ring.save == At(|s.hist|) && s.ring.read == At(s.passed) && s.ring.lu == At(s.flagged)
    && (forall j :: 0 <= j < |s.hist| ==> !IsDelivered(s.hist[j]))
    && TracksGrow(s.hist)
    && (forall j :: 0 <= j < s.passed ==> j in s.handed)
  }

  /**
   What the run needs of its environment: tracks counted up with at most N/2 points each
   (no u16 wrap), DELIVERED never stored, room in the ring; and no reboot at the one
   moment where the newest record sits in slot 0 with something still undelivered.
   */
  predicate Allowed(s: Run, a: Action)
  {
    var n := |s.hist|;
    match a
    case Store(rec) =>
      && !IsDelivered(rec) && n - s.flagged < N - 1
      && (n > 0 ==> s.hist[n - 1].track <= rec.track)
      && (n >= N / 2 ==> s.hist[n - N / 2].track < rec.track)
    case Reboot => SafeToReboot(s)
    case _ => true
  }

  predicate SafeToReboot(s: Run) { |s.hist| % N != 1 || s.flagged == |s.hist| }

  lemma AtApart(j: nat, k: nat)
    requires j < k < j + N
    ensures At(j) != At(k)
  {
  }

  lemma AtInc(j: nat)
    ensures At(j + 1) == Inc(At(j))
  {
  }

  /** Slot p was last written by this record; negative when it was not written yet. */
  function WrittenBy(n: nat, p: nat): int
    requires 0 < n && p < N
  {
    n - 1 - At(n - 1) + p - (if p <= At(n - 1) then 0 else N)
  }

  lemma WrittenAt(n: nat, p: nat)
    requires 0 < n && p < N
    ensures n - N <= WrittenBy(n, p) < n
    ensures if WrittenBy(n, p) < 0 then n <= p else At(WrittenBy(n, p)) == p
  {
  }

  lemma BackIsAt(n: nat, d: nat)
    requires d < N && d < n
    ensures Back(At(n - 1), d) == At(n - 1 - d)
  {
  }

  lemma BackToFlagged(n: nat, u: nat)
    requires u <= n && 0 < n < u + N
    ensures Back(Inc(At(n - 1)), n - u) == At(u)
    ensures At(n - 1) == 0 <==> n % N == 1
  {
    AtInc(n - 1);
  }

  // ---- one step ----

  lemma TracksStillGrow(h: seq<Record>, rec: Record)
    requires TracksGrow(h)
    requires |h| > 0 ==> h[|h| - 1].track <= rec.track
    requires |h| >= N / 2 ==> h[|h| - N / 2].track < rec.track
    ensures TracksGrow(h + [rec])
  {
    var g := h + [rec];
    forall j, k | 0 <= j && j + N / 2 <= k < |g| ensures g[j].track < g[k].track {
      if k == |h| {
        assert h[j].track <= h[|h| - N / 2].track;
      }
    }
  }

  lemma StoreHolds(s: Run, rec: Record)
    requires Holds(s) && s.ring.save == At(|s.hist|) && s.flagged <= |s.hist|
    requires s.ring.read < N && s.ring.lu < N
    ensures Holds(Next(s, Store(rec)))
  {
    var n, t := |s.hist|, Next(s, Store(rec));
    forall j: nat | Live(t, j)
      ensures t.ring.flash[At(j)] == Some(if j < t.flagged then Flagged(t.hist[j]) else t.hist[j])
    {
      if j < n {
        AtApart(j, n);
        assert Live(s, j) && t.hist[j] == s.hist[j];
      }
    }
  }

  lemma StoreKeeps(s: Run, rec: Record)
    requires Inv(s) && Allowed(s, Store(rec))
    ensures Inv(Next(s, Store(rec)))
  {
    StoreHolds(s, rec);
    AtInc(|s.hist|);
    TracksStillGrow(s.hist, rec);
  }

  /** A read returns exactly the next record of the history, still unflagged. */
  lemma ReadReturns(s: Run)
    requires Inv(s)
    ensures ReadNext(s.ring).1 ==
            if s.passed == |s.hist| then None else Some((At(s.passed), s.hist[s.passed]))
    ensures Inv(Next(s, Read))
  {
    AtInc(s.passed);
    if s.passed < |s.hist| {
      AtApart(s.passed, |s.hist|);
      assert Live(s, s.passed);
    }
  }

  lemma MarkHolds(s: Run)
    requires Inv(s) && s.flagged < s.passed && s.ring.lu != s.ring.read
    ensures Holds(Next(s, Mark))
  {
    assert Live(s, s.flagged) && s.hist[s.flagged] == s.hist[s.flagged];
    var t := Next(s, Mark);
    forall j: nat | Live(t, j)
      ensures t.ring.flash[At(j)] == Some(if j < t.flagged then Flagged(t.hist[j]) else t.hist[j])
    {
      assert Live(s, j) && s.hist[j] == t.hist[j];
      if j != s.flagged {
        AtApart(if j < s.flagged then j else s.flagged, if j < s.flagged then s.flagged else j);
      }
    }
  }

  lemma MarkKeeps(s: Run)
    requires Inv(s)
    ensures s.ring.lu == s.ring.read <==> s.flagged == s.passed
    ensures Inv(Next(s, Mark))
  {
    AtInc(s.flagged);
    if s.flagged < s.passed {
      AtApart(s.flagged, s.passed);
      assert Live(s, s.flagged) && s.hist[s.flagged] == s.hist[s.flagged];
      MarkHolds(s);
    }
  }

  // ---- reboot ----

  /** The last lap stands in front, in the order it was stored. */
  lemma LapIsSorted(s: Run)
    requires Inv(s) && |s.hist| > 0
    ensures Sorted(s.ring.flash, At(|s.hist| - 1))
  {
    var n, f, newest := |s.hist|, s.ring.flash, At(|s.hist| - 1);
    forall p | 0 <= p <= newest
      ensures var j := WrittenBy(n, p); 0 <= j < n && f[p].Some? && f[p].value.track == s.hist[j].track
    {
      WrittenAt(n, p);
      var j: nat := WrittenBy(n, p);
      assert Live(s, j) && s.hist[j] == s.hist[j];
    }
  }

  lemma LastLap(s: Run)
    requires Inv(s) && |s.hist| > 0
    ensures Sorted(s.ring.flash, At(|s.hist| - 1))
    ensures ProbesTell(s.ring.flash, At(|s.hist| - 1))
  {
    LapIsSorted(s);
    var f, newest := s.ring.flash, At(|s.hist| - 1);
    forall i: nat | Probing(i) ensures Told(f, newest, i) {
      LapTells(s, i);
    }
  }

  lemma LapTells(s: Run, i: nat)
    requires Inv(s) && |s.hist| > 0 && Sorted(s.ring.flash, At(|s.hist| - 1)) && Probing(i)
    ensures Told(s.ring.flash, At(|s.hist| - 1), i)
  {
    var newest := At(|s.hist| - 1);
    var a := Floor(newest, 2 * i);
    if newest < a + i < N {
      StaleIsOlder(s, a, a + i);
    }
  }

  lemma StaleIsOlder(s: Run, a: nat, p: nat)
    requires Inv(s) && |s.hist| > 0
    requires a <= At(|s.hist| - 1) < p < N && p - a <= N / 2 && s.ring.flash[a].Some?
    ensures !Good(s.ring.flash, p, a)
  {
    var n := |s.hist|;
    var j, k := WrittenBy(n, p), WrittenBy(n, a);
    WrittenAt(n, p);
    WrittenAt(n, a);
    assert Live(s, k) && s.hist[k] == s.hist[k];
    if j >= 0 {
      assert Live(s, j) && s.hist[j].track < s.hist[k].track;
    }
  }

  lemma WaitingInRun(s: Run)
    requires Inv(s) && |s.hist| > 0
    ensures WaitingRun(s.ring.flash, At(|s.hist| - 1), |s.hist| - s.flagged)
  {
    var n, f := |s.hist|, s.ring.flash;
    forall d: nat {:trigger Back(At(n - 1), d)} | d < N
      ensures Waiting(f, Back(At(n - 1), d)) <==> d < n - s.flagged
    {
      if d < n {
        BackIsAt(n, d);
        assert Live(s, n - 1 - d) && s.hist[n - 1 - d] == s.hist[n - 1 - d];
      } else {
        assert At(n - 1) == n - 1 && Back(n - 1, d) >= n;
      }
    }
  }

  /**
   What a reboot does at any moment of a run: the write index always survives, and
   reading resumes at the first unflagged record exactly when the reboot is safe. The newest record gives its track,
   and gives its info exactly when it is not in slot 0 or that is 0; an erased ring gives 0 for both.
   */
  lemma RebootExact(s: Run)
    requires Inv(s)
    ensures Recover(s.ring.flash).ring.save == s.ring.save
    ensures Recover(s.ring.flash).ring.read == At(s.flagged) <==> SafeToReboot(s)
    ensures |s.hist| > 0 ==>
              && Recover(s.ring.flash).track == s.hist[|s.hist| - 1].track
              && (Recover(s.ring.flash).info == s.hist[|s.hist| - 1].info <==>
                  At(|s.hist| - 1) > 0 || s.hist[|s.hist| - 1].info == 0)
    ensures |s.hist| == 0 ==> Recover(s.ring.flash) == Recovered(Ring(s.ring.flash, 0, 0, 0), 0, 0)
  {
    var n := |s.hist|;
    if n > 0 {
      LastLap(s);
      WaitingInRun(s);
      RecoveryExact(s.ring.flash, At(n - 1), n - s.flagged);
      AtInc(n - 1);
      assert Live(s, n - 1) && s.hist[n - 1] == s.hist[n - 1];
      BackToFlagged(n, s.flagged);
    } else {
      assert s.ring.flash[0] == None;
    }
  }

  /** An unsafe reboot: every undelivered record is passed over, and none of them is read again. */
  lemma UnsafeRebootSkips(s: Run)
    requires Inv(s) && !SafeToReboot(s)
    ensures var m := Recover(s.ring.flash).ring;
            m.read == m.save == s.ring.save && ReadNext(m).1 == None && s.flagged < |s.hist|
  {
    RebootExact(s);
    var n, f := |s.hist|, s.ring.flash;
    LastLap(s);
    WaitingInRun(s);
    FirstStep(|f|);
    NewestExact(f, At(n - 1), 0, Half(|f|));
    SeenExact(f, 0, Half(|f|), PTR_INVALID);
  }

  // ---- whole runs ----

  /** The history only grows, and so do the records flagged and handed out. */
  lemma StepGrows(s: Run, a: Action)
    requires s.ring.save < N && s.ring.read < N && s.ring.lu < N
    ensures |s.hist| <= |Next(s, a).hist| && Next(s, a).hist[..|s.hist|] == s.hist
    ensures s.flagged <= Next(s, a).flagged && s.handed <= Next(s, a).handed
  {
  }

  lemma StepKeeps(s: Run, a: Action)
    requires Inv(s) && Allowed(s, a)
    ensures Inv(Next(s, a))
    ensures |s.hist| <= |Next(s, a).hist| && Next(s, a).hist[..|s.hist|] == s.hist
    ensures s.flagged <= Next(s, a).flagged && s.handed <= Next(s, a).handed
  {
    StepGrows(s, a);
    match a
    case Store(rec) => StoreKeeps(s, rec);
    case Read => ReadReturns(s);
    case Mark => MarkKeeps(s);
    case Reboot => RebootExact(s);
  }

  ghost predicate IsRun(s: Run, acts: seq<Action>, t: Run)
    decreases |acts|
  {
    if acts == [] then s == t
    else
      && s.ring.save < N && s.ring.read < N && s.ring.lu < N
      && Allowed(s, acts[0]) && IsRun(Next(s, acts[0]), acts[1..], t)
  }

  lemma {:induction false} RunKeeps(s: Run, acts: seq<Action>, t: Run)
    requires Inv(s) && IsRun(s, acts, t)
    ensures Inv(t) && |s.hist| <= |t.hist| && t.hist[..|s.hist|] == s.hist
    ensures s.flagged <= t.flagged && s.handed <= t.handed
    decreases |acts|
  {
    if acts != [] {
      StepKeeps(s, acts[0]);
      RunKeeps(Next(s, acts[0]), acts[1..], t);
    }
  }

  /**
   Crash safety from an erased ring: the DELIVERED records are a time-order prefix, each of
   them had been handed out, and reading never stands beyond an unread record.
   */
  lemma CrashSafety(acts: seq<Action>, t: Run)
    requires IsRun(START, acts, t)
    ensures Inv(t)
    ensures forall j: nat :: Live(t, j) ==>
              (t.ring.flash[At(j)].Some? && (IsDelivered(t.ring.flash[At(j)].value) <==> j < t.flagged))
    ensures forall j :: 0 <= j < t.flagged ==> j in t.handed
    ensures forall j: nat :: j < |t.hist| && j !in t.handed ==> t.passed <= j
  {
    RunKeeps(START, acts, t);
    forall j: nat | Live(t, j)
      ensures t.ring.flash[At(j)].Some? && (IsDelivered(t.ring.flash[At(j)].value) <==> j < t.flagged)
    {
      assert t.hist[j] == t.hist[j];
    }
  }

  /** At-least-once: from any reachable state, reading on hands out every record not yet flagged. */
  lemma {:induction false} DrainHandsOutAll(s: Run) returns (acts: seq<Action>, t: Run)
    requires Inv(s)
    ensures IsRun(s, acts, t) && (forall a :: a in acts ==> a == Read)
    ensures Inv(t) && t.hist == s.hist && t.passed == |t.hist|
    ensures forall j :: 0 <= j < |t.hist| ==> j in t.handed
    decreases |s.hist| - s.passed
  {
    ReadReturns(s);
    if s.passed == |s.hist| {
      acts, t := [], s;
    } else {
      acts, t := DrainHandsOutAll(Next(s, Read));
      acts := [Read] + acts;
      assert acts[1..] == acts[1..];
    }
  }

  /** From an erased ring one store leads to an unsafe reboot: the record is never read again. */
  lemma FirstRecordLost(rec: Record) returns (t: Run)
    requires !IsDelivered(rec)
    ensures IsRun(START, [Store(rec)], t) && Inv(t) && |t.hist| == 1 && t.flagged == 0 && t.handed == {}
    ensures !SafeToReboot(t) && ReadNext(Recover(t.ring.flash).ring).1 == None
  {
    StepKeeps(START, Store(rec));
    t := Next(START, Store(rec));
    assert IsRun(t, [], t) && [Store(rec)][1..] == [];
    UnsafeRebootSkips(t);
  }

  /** One record too many: a store makes the ring look empty exactly when N - 1 records are unread. */
  lemma OverfullExact(s: Run, rec: Record)
    requires Inv(s)
    ensures ReadNext(AfterStore(s.ring, rec)).1 == None <==> |s.hist| - s.passed == N - 1
    ensures AfterStore(s.ring, rec).save == s.ring.read <==> |s.hist| - s.passed == N - 1
  {
    AtInc(|s.hist|);
    if |s.hist| - s.passed < N - 1 {
      AtApart(s.passed, |s.hist| + 1);
    }
    if s.passed < |s.hist| {
      AtApart(s.passed, |s.hist|);
      assert Live(s, s.passed) && s.hist[s.passed] == s.hist[s.passed];
    }
  }

  /** The store after that one is written over the oldest unread record, in no other case over an unread one. */
  lemma NextStoreOverwrites(s: Run, rec: Record, more: Record, j: nat)
    requires Inv(s) && s.passed <= j < |s.hist|
    ensures var m := AfterStore(AfterStore(s.ring, rec), more);
            if |s.hist| - s.passed == N - 1 && j == s.passed then m.flash[At(j)] == Some(more)
            else m.flash[At(j)] == Some(s.hist[j])
  {
    AtInc(|s.hist|);
    AtApart(j, |s.hist|);
    if j > |s.hist| + 1 - N {
      AtApart(j, |s.hist| + 1);
    }
    assert Live(s, j) && s.hist[j] == s.hist[j];
  }

  /** The tracks of the first half of the ring are 0, those of the second 1. */
  ghost predicate TwoTracks(s: Run, k: nat)
  {
    |s.hist| == k && s.passed == 0 && forall j :: 0 <= j < k ==> s.hist[j].track == if j < N / 2 then 0 else 1
  }

  lemma FillOne(s: Run, k: nat, rec: Record)
    requires Inv(s) && TwoTracks(s, k) && k + 1 < N && !IsDelivered(rec)
    requires rec.track == if k < N / 2 then 0 else 1
    ensures Allowed(s, Store(rec)) && Inv(Next(s, Store(rec))) && TwoTracks(Next(s, Store(rec)), k + 1)
  {
    StepKeeps(s, Store(rec));
  }

  /** Such a moment is reached by nothing but stores from an erased ring, two tracks being enough. */
  lemma {:induction false} Filled(k: nat, rec: Record) returns (acts: seq<Action>, t: Run)
    requires k < N && !IsDelivered(rec)
    ensures IsRun(START, acts, t) && Inv(t) && |t.hist| == k && t.passed == 0
    ensures forall j :: 0 <= j < k ==> t.hist[j].track == if j < N / 2 then 0 else 1
  {
    if k == 0 {
      acts, t := [], START;
    } else {
      var s;
      acts, s := Filled(k - 1, rec);
      var r := rec.(track := if k - 1 < N / 2 then 0 else 1);
      FillOne(s, k - 1, r);
      t := Next(s, Store(r));
      RunSnoc(START, acts, s, Store(r));
      acts := acts + [Store(r)];
    }
  }

  lemma {:induction false} RunSnoc(s: Run, acts: seq<Action>, m: Run, a: Action)
    requires IsRun(s, acts, m) && Allowed(m, a)
    requires m.ring.save < N && m.ring.read < N && m.ring.lu < N
    ensures IsRun(s, acts + [a], Next(m, a))
    decreases |acts|
  {
    if acts == [] {
      assert ([] + [a])[1..] == [];
    } else {
      assert (acts + [a])[0] == acts[0] && (acts + [a])[1..] == acts[1..] + [a];
      RunSnoc(Next(s, acts[0]), acts[1..], m, a);
    }
  }
}
