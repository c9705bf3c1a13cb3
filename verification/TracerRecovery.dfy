/**
 What the two boot bisections of the GPS ring recover, exactly; and crash safety over
 every run of store, read, mark and reboot.
 */
module TracerRecovery {
  import opened Machine
  import opened TracerBuffer

  // ---- first bisection: the newest record ----

  /** A step that a probe is made with: a power of two, up to half the ring. */
  predicate Probing(i: nat)
  {
    0 < i <= N / 2 && IsStep(i)
  }

  /** x rounded down to a multiple of m. */
  function Floor(x: nat, m: nat): (a: nat)
    requires 0 < m
    ensures a <= x < a + m
    decreases x, m
  {
    if x < m then 0 else m + Floor(x - m, m)
  }

  /** Slots 0 .. newest hold records whose tracks never decrease. */
  ghost predicate Sorted(f: Flash, newest: nat)
  {
    newest < N && forall p, q :: 0 <= p <= q <= newest ==>
      f[p].Some? && f[q].Some? && f[p].value.track <= f[q].value.track
  }

  /**
   The probe with step i on the way to slot newest: newest with its low bits cleared is
   slot a, and where newest lies below a + i, slot a + i must not look newer than slot a.
   */
  ghost predicate Told(f: Flash, newest: nat, i: nat)
    requires Probing(i) && Sorted(f, newest)
  {
    var a := Floor(newest, 2 * i);
    newest < a + i < N ==> !Good(f, a + i, a)
  }

  ghost predicate ProbesTell(f: Flash, newest: nat)
    requires Sorted(f, newest)
  {
    forall i: nat :: Probing(i) ==> Told(f, newest, i)
  }

  lemma {:induction false} StepBelow(j: nat, i: nat)
    requires IsStep(j) && IsStep(i) && 0 < j < i
    ensures j <= Half(i)
  {
    if j > 1 {
      StepBelow(Half(j), Half(i));
    }
  }

  lemma {:induction false} FloorOne(x: nat)
    ensures Floor(x, 1) == x
  {
    if x != 0 {
      FloorOne(x - 1);
    }
  }

  /** One more bit of x: rounding down to i from rounding down to 2i. */
  lemma {:induction false} FloorHalf(x: nat, i: nat)
    requires 0 < i
    ensures var a := Floor(x, 2 * i);
            Floor(x, i) == if a + i <= x then a + i else a
  {
    if x >= 2 * i {
      FloorHalf(x - 2 * i, i);
      assert Floor(x, i) == i + Floor(x - i, i) == i + (i + Floor(x - i - i, i));
    } else if x >= i {
      assert Floor(x - i, i) == 0;
    }
  }

  /** The probes from step i down all tell. */
  ghost predicate TellFrom(f: Flash, newest: nat, i: nat)
    requires Sorted(f, newest)
  {
    forall j: nat :: Probing(j) && j <= i ==> Told(f, newest, j)
  }

  lemma TellStep(f: Flash, newest: nat, i: nat)
    requires Sorted(f, newest) && Probing(i)
    ensures TellFrom(f, newest, i) <==> Told(f, newest, i) && TellFrom(f, newest, Half(i))
  {
    forall j: nat | Probing(j) && j < i ensures j <= Half(i) {
      StepBelow(j, i);
    }
  }

  /** Where the probe with step i at slot a leads, if it leads towards newest. */
  function Towards(newest: nat, a: nat, i: nat): nat { if a + i <= newest then a + i else a }

  lemma NextFloor(newest: nat, a: nat, i: nat)
    requires 0 < i && IsStep(i) && a == Floor(newest, 2 * i) && a + 2 * i <= N
    ensures Towards(newest, a, i) == if Half(i) == 0 then newest else Floor(newest, 2 * Half(i))
    ensures Towards(newest, a, i) + 2 * Half(i) <= N
  {
    FloorHalf(newest, i);
    FloorOne(newest);
  }

  lemma ProbeTells(f: Flash, newest: nat, a: nat, i: nat)
    requires Sorted(f, newest) && Probing(i) && a == Floor(newest, 2 * i) && a + 2 * i <= N
    ensures f[a].Some? && (a + i <= newest ==> Good(f, a + i, a))
    ensures Told(f, newest, i) <==> (Good(f, a + i, a) <==> a + i <= newest)
  {
    assert f[a].Some?;
  }

  lemma ProbeLeads(f: Flash, newest: nat, a: nat, i: nat)
    requires 0 < i && a + 2 * i <= N && f[a].Some? && (a + i <= newest ==> Good(f, a + i, a))
    ensures if Good(f, a + i, a) <==> a + i <= newest
            then f[Towards(newest, a, i)].Some? && Newest(f, a, i) == Newest(f, Towards(newest, a, i), Half(i))
            else newest < Newest(f, a, i)
  {
  }

  /** The probe leads towards newest exactly when it tells. */
  lemma OneProbe(f: Flash, newest: nat, a: nat, i: nat)
    requires Sorted(f, newest) && Probing(i) && a == Floor(newest, 2 * i) && a + 2 * i <= N
    ensures f[a].Some? && f[Towards(newest, a, i)].Some?
    ensures Told(f, newest, i) ==> Newest(f, a, i) == Newest(f, Towards(newest, a, i), Half(i))
    ensures !Told(f, newest, i) ==> newest < Newest(f, a, i)
  {
    ProbeTells(f, newest, a, i);
    ProbeLeads(f, newest, a, i);
  }

  lemma {:induction false} NewestExact(f: Flash, newest: nat, a: nat, i: nat)
    requires Sorted(f, newest) && a + 2 * i <= N && IsStep(i)
    requires a == if i == 0 then newest else Floor(newest, 2 * i)
    ensures f[a].Some?
    ensures Newest(f, a, i) == newest <==> TellFrom(f, newest, i)
    decreases i
  {
    if i != 0 {
      OneProbe(f, newest, a, i);
      TellStep(f, newest, i);
      NextFloor(newest, a, i);
      if Told(f, newest, i) {
        NewestExact(f, newest, Towards(newest, a, i), Half(i));
      }
    }
  }

  // ---- second bisection: the oldest record still waiting ----

  /** Going back around the ring from slot newest, exactly the first k slots still wait. */
  ghost predicate WaitingRun(f: Flash, newest: nat, k: nat)
  {
    newest < N && forall d :: 0 <= d < N ==> (Waiting(f, Back(newest, d)) <==> d < k)
  }

  lemma {:induction false} OldestExact(f: Flash, newest: nat, b: nat, i: nat, k: nat)
    requires WaitingRun(f, newest, k) && IsStep(i)
    requires b < k <= b + 2 * i + (if i == 0 then 1 else 0) && b + 2 * i <= N
    ensures Oldest(f, newest, b, i, Back(newest, b)) == Back(newest, k - 1)
    decreases i
  {
    if i != 0 {
      var h := Half(i);
      assert Waiting(f, Back(newest, b + i)) <==> b + i < k;
      if b + i < k {
        OldestExact(f, newest, b + i, h, k);
      } else {
        OldestExact(f, newest, b, h, k);
      }
    }
  }

  lemma {:induction false} SeenExact(f: Flash, a: nat, i: nat, lu: U16)
    requires a + 2 * i <= N && a < N && f[a].Some?
    ensures var top := Newest(f, a, i);
            && (top == a ==> SeenWaiting(f, a, i, lu) == lu)
            && (top != a && Waiting(f, top) ==> SeenWaiting(f, a, i, lu) == top)
            && ((forall p :: 0 <= p < N ==> !Waiting(f, p)) ==> SeenWaiting(f, a, i, lu) == lu)
    decreases i
  {
    assert i != 0 && Good(f, a + i, a) && !Waiting(f, a + i) ==> IsDelivered(f[a + i].value);
    if i != 0 {
      if Good(f, a + i, a) {
        SeenExact(f, a + i, Half(i), if IsDelivered(f[a + i].value) then lu else a + i);
      } else {
        SeenExact(f, a, Half(i), lu);
      }
    }
  }

  // ---- boot recovery, exactly ----

  lemma RecoveryExact(f: Flash, newest: nat, k: nat)
    requires Sorted(f, newest) && WaitingRun(f, newest, k) && k < N
    // the write index is right exactly when the probed stale slots look older
    ensures Recover(f).ring.save == Inc(newest) <==> ProbesTell(f, newest)
    ensures ProbesTell(f, newest) ==> Recover(f).track == f[newest].value.track
    ensures ProbesTell(f, newest) ==>
              (Recover(f).info == f[newest].value.info <==> 0 < newest || f[0].value.info == 0)
    // the waiting records are found again exactly when the newest is not in slot 0
    ensures ProbesTell(f, newest) ==>
              (Recover(f).ring.read == Back(Inc(newest), k) <==> 0 < newest || k == 0)
  {
    var top := Newest(f, 0, Half(|f|));
    FirstStep(|f|);
    NewestExact(f, newest, 0, Half(|f|));
    assert ProbesTell(f, newest) <==> top == newest;
    if top == newest {
      SeenExact(f, 0, Half(|f|), PTR_INVALID);
      if k == 0 {
        forall p | 0 <= p < N ensures !Waiting(f, p) {
          assert p == Back(newest, Back(newest, p));
        }
      } else {
        assert Waiting(f, Back(newest, 0));
        OldestExact(f, newest, 0, Half(|f|), k);
      }
    }
  }

  /** The bisection is right whenever every stale slot is empty or of an older track than slot 0. */
  lemma OlderLapTells(f: Flash, newest: nat)
    requires Sorted(f, newest)
    requires forall p :: newest < p < N ==> f[p].None? || f[p].value.track < f[0].value.track
    ensures ProbesTell(f, newest)
  {
    forall i: nat | Probing(i) ensures Told(f, newest, i) {
      assert Floor(newest, 2 * i) <= newest;
    }
  }

  /** One track around the whole ring: boot always takes the last slot for the newest. */
  lemma OneTrackMisleads(f: Flash, newest: nat)
    requires newest < N - 1
    requires forall p :: 0 <= p < N ==> f[p].Some?
    requires forall p :: 0 <= p < N ==> f[p].value.track == f[0].value.track
    ensures Recover(f).ring.save == 0 != Inc(newest)
  {
    assert Sorted(f, N - 1);
    FirstStep(|f|);
    NewestExact(f, N - 1, 0, Half(|f|));
  }
}
