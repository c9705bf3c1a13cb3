/**
 What the event buffer of app/event_buf.c means: a bounded list of entries in insertion
 order, and what each of its operations makes of that list.
 */
module EventList {
  import opened Machine

  const USER_NONE: U16 := 0xFFFF
  const UNLIMITED: U8 := 0xFF

  type Prio = p: int | 0 <= p <= 2     // EVENT_PRIO_LO, _STD, _HI
  const PRIO_HI: Prio := 2

  datatype Entry<E> = Entry(event: E, prio: Prio, user: U16, processing: bool, zombie: bool, cnt: U8)

  predicate Waits<E>(e: Entry<E>) { !e.processing && !e.zombie }

  // ---- add ----

  /** The lowest stored priority, HI for an empty list. */
  function Lowest<E>(c: seq<Entry<E>>): Prio
  {
    if c == [] then PRIO_HI
    else
      var rest := Lowest(c[..|c| - 1]);
      if c[|c| - 1].prio < rest then c[|c| - 1].prio else rest
  }

  lemma {:induction false} LowestIs<E>(c: seq<Entry<E>>)
    ensures forall e :: e in c ==> Lowest(c) <= e.prio
    ensures Lowest(c) == PRIO_HI || exists e :: e in c && e.prio == Lowest(c)
  {
    if c != [] {
      var d, last := c[..|c| - 1], c[|c| - 1];
      assert c == d + [last];
      LowestIs(d);
    }
  }

  /** The oldest entry of priority p, or |c|. */
  function FirstOf<E>(c: seq<Entry<E>>, p: Prio): (i: nat)
    ensures i <= |c| && (forall j :: 0 <= j < i ==> c[j].prio != p) && (i < |c| ==> c[i].prio == p)
  {
    if c == [] || c[0].prio == p then 0 else 1 + FirstOf(c[1..], p)
  }

  lemma FirstOfIs<E>(c: seq<Entry<E>>, p: Prio, i: nat)
    requires i <= |c| && (forall j :: 0 <= j < i ==> c[j].prio != p) && (i < |c| ==> c[i].prio == p)
    ensures FirstOf(c, p) == i
  {
  }

  /** The entry a full buffer gives up for a new one of this priority. */
  function Victim<E>(c: seq<Entry<E>>, prio: Prio): Option<nat>
    requires c != []
  {
    var low := Lowest(c);
    if low > prio then None else if low == prio then Some(0) else Some(FirstOf(c, low))
  }

  function Without<T>(c: seq<T>, i: nat): (r: seq<T>)
    requires i < |c|
    ensures |r| == |c| - 1
  {
    c[..i] + c[i + 1..]
  }

  function Fresh<E>(event: E, prio: Prio, user: U16): Entry<E> { Entry(event, prio, user, false, false, 0) }

  /** The list after an add; None when the add is refused. */
  function Added<E>(c: seq<Entry<E>>, size: nat, event: Option<E>, prio: Prio, user: U16): Option<seq<Entry<E>>>
    requires |c| <= size && 0 < size
  {
    if event == None || user == USER_NONE then None
    else if |c| < size then Some(c + [Fresh(event.value, prio, user)])
    else match Victim(c, prio)
      case None => None
      case Some(v) => if v < |c| then Some(Without(c, v) + [Fresh(event.value, prio, user)]) else None
  }

  // ---- done, restore, for_each: one pass that keeps, changes or deletes each entry ----

  function Sweep<E>(c: seq<Entry<E>>, f: Entry<E> -> Option<Entry<E>>): (r: seq<Entry<E>>)
    ensures |r| <= |c|
  {
    if c == [] then []
    else
      var last := f(c[|c| - 1]);
      Sweep(c[..|c| - 1], f) + if last.Some? then [last.value] else []
  }

  /** a from p on and b from i on are the same. */
  ghost predicate SameTail<T>(a: seq<T>, p: nat, b: seq<T>, i: nat)
  {
    && p <= |a| && i <= |b| && |a| - p == |b| - i
    && forall k: nat :: k < |a| - p ==> SameAt(a, p, b, i, k)
  }

  ghost predicate SameAt<T>(a: seq<T>, p: nat, b: seq<T>, i: nat, k: nat)
    requires p + k < |a| && i + k < |b|
  {
    a[p + k] == b[i + k]
  }

  lemma TailWithout<T>(a: seq<T>, p: nat, b: seq<T>, i: nat)
    requires SameTail(a, p, b, i) && i < |b|
    ensures SameTail(Without(a, p), p, b, i + 1)
  {
    var r, j := Without(a, p), i + 1;
    forall k: nat | k < |r| - p ensures SameAt(r, p, b, j, k) {
      assert SameAt(a, p, b, i, k + 1);
    }
  }

  lemma TailKept<T>(a: seq<T>, p: nat, x: T, b: seq<T>, i: nat)
    requires SameTail(a, p, b, i) && i < |b|
    ensures SameTail(a[p := x], p + 1, b, i + 1)
  {
    var r, q, j := a[p := x], p + 1, i + 1;
    forall k: nat | k < |r| - q ensures SameAt(r, q, b, j, k) {
      assert SameAt(a, p, b, i, k + 1);
    }
  }

  /** A sweep in progress: i entries of c are done and p of them survive at the front of now. */
  ghost predicate Swept<E>(c: seq<Entry<E>>, i: nat, f: Entry<E> -> Option<Entry<E>>, now: seq<Entry<E>>, p: nat)
  {
    SameTail(now, p, c, i) && now[..p] == Sweep(c[..i], f)
  }

  ghost function SweptNext<E>(c: seq<Entry<E>>, i: nat, f: Entry<E> -> Option<Entry<E>>, now: seq<Entry<E>>, p: nat,
                              then': seq<Entry<E>>): (q: nat)
    requires Swept(c, i, f, now, p) && i < |c|
    requires then' == match f(c[i]) case None => Without(now, p) case Some(e) => now[p := e]
    ensures Swept(c, i + 1, f, then', q) && q == if f(c[i]).Some? then p + 1 else p
  {
    assert c[..i + 1][..i] == c[..i];
    match f(c[i])
    case None =>
      TailWithout(now, p, c, i);
      assert then'[..p] == now[..p];
      p
    case Some(e) =>
      TailKept(now, p, e, c, i);
      assert then'[..p + 1] == now[..p] + [e];
      p + 1
  }

  lemma SweptAll<E>(c: seq<Entry<E>>, f: Entry<E> -> Option<Entry<E>>, now: seq<Entry<E>>, p: nat)
    requires Swept(c, |c|, f, now, p)
    ensures now == Sweep(c, f)
  {
    assert c[..|c|] == c && now[..|now|] == now;
  }

  function DoneEntry<E>(delivered: bool): Entry<E> -> Option<Entry<E>>
  {
    (e: Entry<E>) =>
      if !e.processing then Some(e)
      else if delivered then None
      else Some(e.(processing := false, zombie := true))
  }

  function RestoreEntry<E>(limit: U8): Entry<E> -> Option<Entry<E>>
  {
    (e: Entry<E>) =>
      if Waits(e) then Some(e)
      else
        var back := e.(processing := false, zombie := false);
        if limit == UNLIMITED then Some(back)
        else
          var cnt: U8 := (e.cnt + 1) % 0x100;
          if cnt >= limit then None else Some(back.(cnt := cnt))
  }

  function KeepEntry<E>(keep: E -> bool): Entry<E> -> Option<Entry<E>>
  {
    (e: Entry<E>) => if keep(e.event) then Some(e) else None
  }

  // ---- get ----

  /** The oldest waiting entry, of this user unless user is NONE; |c| when there is none. */
  function NextFor<E>(c: seq<Entry<E>>, user: U16): (i: nat)
    ensures i <= |c|
    ensures i < |c| ==> Waits(c[i]) && (user == USER_NONE || c[i].user == user)
    ensures forall j :: 0 <= j < i ==> !(Waits(c[j]) && (user == USER_NONE || c[j].user == user))
  {
    if c == [] || (Waits(c[0]) && (user == USER_NONE || c[0].user == user)) then 0
    else 1 + NextFor(c[1..], user)
  }

  lemma NextForIs<E>(c: seq<Entry<E>>, user: U16, i: nat)
    requires i <= |c|
    requires forall j :: 0 <= j < i ==> !(Waits(c[j]) && (user == USER_NONE || c[j].user == user))
    requires i < |c| ==> Waits(c[i]) && (user == USER_NONE || c[i].user == user)
    ensures NextFor(c, user) == i
  {
  }

  function Taken<E>(c: seq<Entry<E>>, user: U16): seq<Entry<E>>
  {
    var i := NextFor(c, user);
    if i < |c| then c[i := c[i].(processing := true)] else c
  }

  // ---- what these amount to ----

  /** An add fails exactly without event or user, or when everything stored is of higher priority. */
  lemma AddRefused<E>(c: seq<Entry<E>>, size: nat, event: Option<E>, prio: Prio, user: U16)
    requires |c| <= size && 0 < size
    ensures Added(c, size, event, prio, user) == None <==>
              event == None || user == USER_NONE || (|c| == size && forall e :: e in c ==> e.prio > prio)
  {
    LowestIs(c);
    if |c| == size {
      var low := Lowest(c);
      if low == PRIO_HI {
        assert forall e :: e in c ==> e.prio == low;
        assert c[0] in c;
      }
    }
  }

  /**
   An accepted add: the event stands last, for this user at this priority, waiting and never tried, behind the whole
   old list, or in a full one behind all of it but the victim.
   */
  lemma AddedEnds<E>(c: seq<Entry<E>>, size: nat, event: Option<E>, prio: Prio, user: U16)
    requires |c| <= size && 0 < size && Added(c, size, event, prio, user).Some?
    ensures var d := Added(c, size, event, prio, user).value;
            && d != [] && d[|d| - 1] == Entry(event.value, prio, user, processing := false, zombie := false, cnt := 0)
            && (|c| < size ==> |d| == |c| + 1 && d[..|c|] == c)
            && (|c| == size ==>
                  && |d| == |c| && Victim(c, prio).Some? && Victim(c, prio).value < |c|
                  && forall k :: 0 <= k < |d| - 1 ==> d[k] == if k < Victim(c, prio).value then c[k] else c[k + 1])
  {
  }

  /** The victim is the oldest of the lowest stored priority, except for one branch of the code. */
  lemma VictimExact<E>(c: seq<Entry<E>>, prio: Prio)
    requires c != [] && Victim(c, prio).Some?
    ensures var v := Victim(c, prio).value;
            && v < |c|
            && (v == FirstOf(c, Lowest(c)) <==> Lowest(c) < prio || c[0].prio == Lowest(c))
            && (Lowest(c) == prio ==> v == 0)
  {
    LowestIs(c);
    var low := Lowest(c);
    if low == PRIO_HI {
      assert c[0] in c;
    }
  }

  /** That branch: with LO stored behind HI, adding LO throws out the HI entry. */
  lemma HighPriorityEvicted()
    ensures var c := [Fresh("alarm", 2, 1), Fresh("info", 0, 1)];
            Added(c, 2, Some("boot"), 0, 1) == Some([Fresh("info", 0, 1), Fresh("boot", 0, 1)])
  {
    var c := [Fresh("alarm", 2, 1), Fresh("info", 0, 1)];
    assert c[1] in c;
    LowestIs(c);
    assert Lowest(c) == 0;
    assert Victim(c, 0) == Some(0);
    assert Without(c, 0) + [Fresh("boot", 0, 1)] == [c[1], Fresh("boot", 0, 1)];
  }

  /** A sweep treats every entry once, in order: survivors are the images, in the same order. */
  lemma {:induction false} SweepSplits<E>(a: seq<Entry<E>>, b: seq<Entry<E>>, f: Entry<E> -> Option<Entry<E>>)
    ensures Sweep(a + b, f) == Sweep(a, f) + Sweep(b, f)
  {
    if b == [] {
      assert a + b == a;
    } else {
      assert (a + b)[..|a + b| - 1] == a + b[..|b| - 1];
      SweepSplits(a, b[..|b| - 1], f);
    }
  }

  ghost predicate Ascends(at: seq<nat>)
  {
    forall j, k :: 0 <= j < k < |at| ==> at[j] < at[k]
  }

  /** Where the survivors of a sweep come from: at[k] is the place the k-th of them had before. */
  lemma {:induction false} SweepOrdered<E>(c: seq<Entry<E>>, f: Entry<E> -> Option<Entry<E>>) returns (at: seq<nat>)
    ensures Ascends(at) && |at| == |Sweep(c, f)|
    ensures forall k :: 0 <= k < |at| ==> at[k] < |c| && f(c[at[k]]) == Some(Sweep(c, f)[k])
    ensures forall i: nat :: i < |c| ==> (f(c[i]).Some? <==> i in at)
  {
    at := [];
    if c != [] {
      var d, last := c[..|c| - 1], c[|c| - 1];
      at := SweepOrdered(d, f);
      if f(last).Some? {
        at := at + [|d|];
      }
      assert c == d + [last];
    }
  }

  /** Delivered events leave: exactly the processing entries; the others stay as they were, in order. */
  lemma {:induction false} DoneDelivered<E>(c: seq<Entry<E>>) returns (at: seq<nat>)
    ensures var r := Sweep(c, DoneEntry(true));
            && Ascends(at) && |at| == |r|
            && (forall k :: 0 <= k < |r| ==> at[k] < |c| && r[k] == c[at[k]])
            && (forall i: nat :: i < |c| ==> (i in at <==> !c[i].processing))
  {
    at := SweepOrdered(c, DoneEntry(true));
  }

  lemma {:induction false} DoneMembers<E>(c: seq<Entry<E>>)
    ensures forall e :: e in Sweep(c, DoneEntry(true)) <==> e in c && !e.processing
    ensures (forall e :: e in c ==> !e.processing) <==> Sweep(c, DoneEntry(true)) == c
  {
    if c != [] {
      var d, last := c[..|c| - 1], c[|c| - 1];
      DoneMembers(d);
      assert c == d + [last];
      assert !last.processing ==> Sweep(c, DoneEntry(true)) == Sweep(d, DoneEntry(true)) + [last];
    }
  }

  /** Undelivered processing entries all become zombies; nothing is deleted. */
  lemma {:induction false} DoneFailed<E>(c: seq<Entry<E>>)
    ensures |Sweep(c, DoneEntry(false))| == |c|
    ensures forall i :: 0 <= i < |c| ==>
              Sweep(c, DoneEntry(false))[i] ==
              if c[i].processing then c[i].(processing := false, zombie := true) else c[i]
  {
    if c != [] {
      DoneFailed(c[..|c| - 1]);
    }
  }

  /** An entry a restore gives up: it was handed out, and one more try meets the limit. */
  predicate GivenUp<E>(e: Entry<E>, limit: U8)
  {
    !Waits(e) && limit != UNLIMITED && (e.cnt as int + 1) % 0x100 >= limit
  }

  /**
   A restore: everything left waits again, in the old order and changed in its marks and its count
   alone; exactly the entries whose count meets the limit are gone.
   */
  lemma {:induction false} Restored<E>(c: seq<Entry<E>>, limit: U8) returns (at: seq<nat>)
    ensures var r := Sweep(c, RestoreEntry(limit));
            && Ascends(at) && |at| == |r|
            && (forall i: nat :: i < |c| ==> (i in at <==> !GivenUp(c[i], limit)))
            && (forall k :: 0 <= k < |r| ==>
                  at[k] < |c| && Waits(r[k]) && r[k].event == c[at[k]].event
                  && r[k].prio == c[at[k]].prio && r[k].user == c[at[k]].user
                  && r[k].cnt as int == if Waits(c[at[k]]) || limit == UNLIMITED then c[at[k]].cnt as int
                                        else (c[at[k]].cnt as int + 1) % 0x100)
  {
    at := SweepOrdered(c, RestoreEntry(limit));
  }

  /** A for_each: exactly the entries whose event is to be kept stay, as they were and in order. */
  lemma {:induction false} Kept<E>(c: seq<Entry<E>>, keep: E -> bool) returns (at: seq<nat>)
    ensures var r := Sweep(c, KeepEntry(keep));
            && Ascends(at) && |at| == |r|
            && (forall k :: 0 <= k < |r| ==> at[k] < |c| && r[k] == c[at[k]])
            && (forall i: nat :: i < |c| ==> (i in at <==> keep(c[i].event)))
  {
    at := SweepOrdered(c, KeepEntry(keep));
  }
}
