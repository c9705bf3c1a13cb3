/**
 The event log of app/event_memory.c: 8192 slots in flash, a write pointer and an event
 counter in RAM that a scan at boot rebuilds. Pointers count slots of 64 bytes here.
 */
module EventMemory {
  import opened Machine

  const M: nat := 8192          // STORAGE_EVENT_MEM_SPACE / _EVENT_MEM_SIZE
  const ID_SIZE: U8 := 16
  const SOURCE_SIZE: U8 := 16

  /** rtcOk stands for what rtc_valid says of the stored time. */
  datatype Event = Event(cnt: U32, rtcOk: bool, id: U8, source: U8)

  predicate EventValid(e: Event) { e.rtcOk && e.id < ID_SIZE && e.source < SOURCE_SIZE }

  type Flash = f: seq<Event> | |f| == M witness seq(M, _ => ERASED)

  const ERASED: Event := Event(0xFFFF_FFFF, false, 0xFF, 0xFF)

  function Inc(p: nat): nat { if p + 1 > M - 1 then 0 else p + 1 }

  function Dec(p: nat): nat { if p >= 1 then p - 1 else M - 1 }

  // ---- boot scan ----

  datatype Scanned = Scanned(ptr: nat, cnt: U32)

  /** The scan from slot i on; it never looks at the last slot. */
  function Scan(f: Flash, i: nat, cntMax: U32, ptrMax: nat): Scanned
    requires i <= M - 1
    decreases M - i, |f|
  {
    if i == M - 1 then Scanned(Inc(ptrMax), cntMax)
    else if !EventValid(f[i]) then Scanned(i, cntMax)
    else if f[i].cnt > cntMax then Scan(f, i + 1, f[i].cnt, i)
    else Scan(f, i + 1, cntMax, ptrMax)
  }

  function Boot(f: Flash): Scanned { Scan(f, 0, 0, 0) }

  /** The (k+1)-th step back from the write pointer. */
  function StepBack(ptr: nat, k: nat): nat
    requires ptr < M && k < M
  {
    if k + 1 <= ptr then ptr - k - 1 else ptr + M - k - 1
  }

  /** What event_memory_read answers; its loop makes M - 1 steps at most. */
  function ReadBack(f: Flash, ptr: nat, k: nat): Option<Event>
    requires ptr < M
  {
    if k < M - 1 && EventValid(f[StepBack(ptr, k)]) then Some(f[StepBack(ptr, k)]) else None
  }

  class EventMem {
    var flash: array<Event>
    var ptr: U32
    var cnt: U32         // _event_cnt of event.c, set by the scan

    ghost predicate Valid()
      reads this
    {
      flash.Length == M && ptr < M
    }

    constructor (device: array<Event>)
      requires device.Length == M
      ensures Valid() && flash == device && ptr == 0 && cnt == 0
    {
      flash, ptr, cnt := device, 0, 0;
    }

    method Init()
      requires Valid()
      modifies this`ptr, this`cnt
      ensures Valid() && Scanned(ptr, cnt) == Boot(flash[..])
    {
      ghost var f: Flash := flash[..];
      var cntMax: U32, ptrMax: nat, i: nat := 0, 0, 0;
      while i < M - 1
        invariant i <= M - 1 && ptrMax < M
        invariant Scan(f, i, cntMax, ptrMax) == Boot(f)
      {
        var e := flash[i];
        if !EventValid(e) {
          ptr, cnt := i, cntMax;
          return;
        }
        if e.cnt > cntMax {
          cntMax, ptrMax := e.cnt, i;
        }
        i := i + 1;
      }
      cnt := cntMax;
      ptr := Inc(ptrMax);
    }

    method Store(e: Event)
      requires Valid()
      modifies this`ptr, flash
      ensures Valid() && ptr == Inc(old(ptr)) && flash[..] == old(flash[..])[old(ptr) as nat := e]
    {
      var p := ptr;
      ptr := Inc(ptr);
      flash[p] := e;
    }

    method Read(backIndex: nat) returns (r: Option<Event>)
      requires Valid()
      ensures r == ReadBack(flash[..], ptr, backIndex)
    {
      var p: nat, back, i: nat := ptr, backIndex, 0;
      while i < M - 1
        invariant i <= M - 1 && p < M && i <= backIndex && back == backIndex - i
        invariant p == if i == 0 then ptr else StepBack(ptr, i - 1)
      {
        p := Dec(p);
        if back == 0 {
          return if EventValid(flash[p]) then Some(flash[p]) else None;
        }
        back := back - 1;
        i := i + 1;
      }
      return None;
    }
  }

  /** A slot whose time, id or source is out of range. */
  predicate Unusable(e: Event) { !e.rtcOk || e.id >= 16 || e.source >= 16 }

  lemma {:induction false} ScanStops(f: Flash, i: nat, n: nat, cntMax: U32, ptrMax: nat)
    requires i <= n <= M - 1 && (forall p :: i <= p < n ==> !Unusable(f[p])) && (n < M - 1 ==> Unusable(f[n]))
    ensures n < M - 1 ==> Scan(f, i, cntMax, ptrMax).ptr == n
    ensures Scan(f, i, cntMax, ptrMax).cnt >= cntMax
    ensures forall p :: i <= p < n ==> f[p].cnt <= Scan(f, i, cntMax, ptrMax).cnt
    decreases n - i
  {
    if i < n {
      if f[i].cnt > cntMax {
        ScanStops(f, i + 1, n, f[i].cnt, i);
      } else {
        ScanStops(f, i + 1, n, cntMax, ptrMax);
      }
    }
  }

  /**
   Whatever the flash holds, boot takes the first unusable slot but the last for the next one to write, and counts on
   from no less than the counters in front of it.
   */
  lemma {:induction false} BootStops(f: Flash, n: nat)
    requires n < M - 1 && Unusable(f[n]) && forall p :: 0 <= p < n ==> !Unusable(f[p])
    ensures Boot(f).ptr == n && forall p :: 0 <= p < n ==> f[p].cnt <= Boot(f).cnt
  {
    ScanStops(f, 0, n, 0, 0);
  }

  // ---- the device as a log ----

  function At(j: nat): (p: nat) ensures p < M { j % M }

  /** Valid events with counters that only grow, starting above zero (event.c counts with ++). */
  ghost predicate Log(log: seq<Event>)
  {
    && (forall j :: 0 <= j < |log| ==> EventValid(log[j]) && 0 < log[j].cnt)
    && (forall j, k :: 0 <= j < k < |log| ==> log[j].cnt < log[k].cnt)
  }

  function LastCnt(log: seq<Event>): U32 { if log == [] then 0 else log[|log| - 1].cnt }

  /**
   The last M events are in their slots and nothing else is, except that the final slot is
   free to hold anything while it is the next to be written.
   */
  ghost predicate Holds(f: Flash, log: seq<Event>)
  {
    var n := |log|;
    && (forall j: nat {:trigger log[j]} | n - M <= j < n && (j + M != n || At(j) != M - 1) :: f[At(j)] == log[j])
    && (forall p: nat | n <= p < M && (p < M - 1 || n < M - 1) :: !EventValid(f[p]))
  }

  datatype Device = Device(flash: Flash, ptr: nat, cnt: U32)

  datatype Step = StoreEvent(e: Event) | Reboot

  function After(d: Device, a: Step): Device
    requires d.ptr < M
  {
    match a
    case StoreEvent(e) => Device(d.flash[d.ptr := e], Inc(d.ptr), e.cnt)
    case Reboot => Device(d.flash, Boot(d.flash).ptr, Boot(d.flash).cnt)
  }

  ghost predicate Rep(d: Device, log: seq<Event>)
  {
    Log(log) && Holds(d.flash, log) && d.ptr == At(|log|) && d.cnt == LastCnt(log)
  }

  /** What a step makes of the log: a reboot forgets the newest event exactly when it is in the final slot. */
  function Logged(log: seq<Event>, a: Step): seq<Event>
  {
    match a
    case StoreEvent(e) => log + [e]
    case Reboot => if log != [] && |log| % M == 0 then log[..|log| - 1] else log
  }

  predicate Allowed(d: Device, a: Step)
  {
    a.StoreEvent? ==> EventValid(a.e) && d.cnt < a.e.cnt
  }

  lemma {:induction false} ScanMeetsGap(f: Flash, i: nat, n: nat, cntMax: U32, ptrMax: nat)
    requires i <= n < M - 1 && !EventValid(f[n])
    requires forall p :: i <= p < n ==> EventValid(f[p]) && cntMax < f[p].cnt
    requires forall p, q :: i <= p < q < n ==> f[p].cnt < f[q].cnt
    ensures Scan(f, i, cntMax, ptrMax) == Scanned(n, if i == n then cntMax else f[n - 1].cnt)
    decreases n - i
  {
    if i < n {
      ScanMeetsGap(f, i + 1, n, f[i].cnt, i);
    }
  }

  lemma {:induction false} ScanFindsTop(f: Flash, i: nat, top: nat, cntMax: U32, ptrMax: nat)
    requires i <= M - 1 && top < M - 1
    requires forall p :: i <= p < M - 1 ==> EventValid(f[p])
    requires forall p :: i <= p < M - 1 && p != top ==> f[p].cnt < f[top].cnt
    requires if i <= top then cntMax < f[top].cnt else cntMax == f[top].cnt && ptrMax == top
    ensures Scan(f, i, cntMax, ptrMax) == Scanned(Inc(top), f[top].cnt)
    decreases M - i
  {
    if i < M - 1 {
      if f[i].cnt > cntMax {
        ScanFindsTop(f, i + 1, top, f[i].cnt, i);
      } else {
        ScanFindsTop(f, i + 1, top, cntMax, ptrMax);
      }
    }
  }

  /** The record last written to slot p. */
  function WrittenBy(n: nat, p: nat): int
    requires 0 < n && p < M
  {
    n - 1 - At(n - 1) + p - (if p <= At(n - 1) then 0 else M)
  }

  lemma WrittenAt(n: nat, p: nat)
    requires 0 < n && p < M
    ensures n - M <= WrittenBy(n, p) < n
    ensures if WrittenBy(n, p) < 0 then n <= p else At(WrittenBy(n, p)) == p
  {
  }

  lemma BootOfFull(f: Flash, log: seq<Event>)
    requires Log(log) && Holds(f, log) && |log| >= M - 1
    ensures var top := if |log| % M == 0 then |log| - 2 else |log| - 1;
            Boot(f) == Scanned(Inc(At(top)), log[top].cnt)
  {
    var n := |log|;
    var top := if n % M == 0 then n - 2 else n - 1;
    forall p | 0 <= p < M - 1
      ensures EventValid(f[p]) && (p != At(top) ==> f[p].cnt < log[top].cnt) && (p == At(top) ==> f[p] == log[top])
    {
      WrittenAt(n, p);
      var j: nat := WrittenBy(n, p);
      assert f[At(j)] == log[j];
      assert log[j] == log[j] && log[top] == log[top];
    }
    ScanFindsTop(f, 0, At(top), 0, 0);
  }

  lemma BootOfShort(f: Flash, log: seq<Event>)
    requires Log(log) && Holds(f, log) && |log| < M - 1
    ensures Boot(f) == Scanned(|log|, LastCnt(log))
  {
    forall p | 0 <= p < |log| ensures f[p] == log[p] {
      assert At(p) == p;
    }
    ScanMeetsGap(f, 0, |log|, 0, 0);
  }

  /** Recovery is right for every log except exactly when its newest event is in the final slot. */
  lemma RecoveryExact(f: Flash, log: seq<Event>)
    requires Log(log) && Holds(f, log)
    ensures Boot(f) == Scanned(At(|log|), LastCnt(log)) <==> log == [] || |log| % M != 0
    ensures Rep(Device(f, Boot(f).ptr, Boot(f).cnt), Logged(log, Reboot))
  {
    var n := |log|;
    if n < M - 1 {
      BootOfShort(f, log);
    } else {
      BootOfFull(f, log);
      if n % M == 0 {
        var rest := log[..n - 1];
        assert log[n - 2].cnt < log[n - 1].cnt;
        forall j: nat | n - 1 - M <= j < n - 1 && (j + M != n - 1 || At(j) != M - 1) ensures f[At(j)] == rest[j] {
          assert rest[j] == log[j];
        }
      }
    }
  }

  lemma AtApart(j: nat, k: nat)
    requires j < k < j + M
    ensures At(j) != At(k)
  {
  }

  lemma AtNext(n: nat)
    ensures Inc(At(n)) == At(n + 1) && (n < M ==> At(n) == n)
  {
  }

  lemma StoreHolds(f: Flash, log: seq<Event>, e: Event)
    requires Holds(f, log)
    ensures Holds(f[At(|log|) := e], log + [e])
  {
    var n, g, more := |log|, f[At(|log|) := e], log + [e];
    AtNext(n);
    forall j: nat | n + 1 - M <= j < n + 1 && (j + M != n + 1 || At(j) != M - 1) ensures g[At(j)] == more[j] {
      if j < n {
        AtApart(j, n);
        assert more[j] == log[j];
      }
    }
  }

  lemma StoreKeeps(d: Device, log: seq<Event>, e: Event)
    requires Rep(d, log) && Allowed(d, StoreEvent(e))
    ensures Rep(After(d, StoreEvent(e)), log + [e])
  {
    StoreHolds(d.flash, log, e);
    AtNext(|log|);
    var more := log + [e];
    assert forall j :: 0 <= j < |log| ==> more[j] == log[j] && log[j].cnt <= LastCnt(log);
  }

  ghost predicate IsRun(d: Device, log: seq<Event>, acts: seq<Step>, d': Device, log': seq<Event>)
    decreases |acts|
  {
    if acts == [] then d == d' && log == log'
    else d.ptr < M && Allowed(d, acts[0]) && IsRun(After(d, acts[0]), Logged(log, acts[0]), acts[1..], d', log')
  }

  /** Over every run of stores and reboots the device is that log: pointer, counter and contents. */
  lemma {:induction false} RunIsLog(d: Device, log: seq<Event>, acts: seq<Step>, d': Device, log': seq<Event>)
    requires Rep(d, log) && IsRun(d, log, acts, d', log')
    ensures Rep(d', log')
    decreases |acts|
  {
    if acts != [] {
      match acts[0] {
        case StoreEvent(e) => StoreKeeps(d, log, e);
        case Reboot => RecoveryExact(d.flash, log);
      }
      RunIsLog(After(d, acts[0]), Logged(log, acts[0]), acts[1..], d', log');
    }
  }

  lemma ErasedIsEmptyLog()
    ensures Rep(Device(seq(M, _ => ERASED), 0, 0), [])
  {
  }

  lemma StepBackAt(n: nat, k: nat)
    requires k < n && k < M
    ensures StepBack(At(n), k) == At(n - 1 - k)
  {
  }

  /** event_memory_read(k) is the (k+1)-th newest event, for every k it can reach. */
  lemma ReadExact(d: Device, log: seq<Event>, k: nat)
    requires Rep(d, log)
    ensures ReadBack(d.flash, d.ptr, k) ==
            if k < |log| && k < M - 1 then Some(log[|log| - 1 - k]) else None
  {
    var n := |log|;
    if k < M - 1 {
      if k < n {
        StepBackAt(n, k);
        assert log[n - 1 - k] == log[n - 1 - k];
      } else {
        AtNext(n);
      }
    }
  }
}
