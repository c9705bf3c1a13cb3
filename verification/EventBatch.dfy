/**
 The rounds of event_comm_task (app/event.c) over the event buffer, with events added by other
 tasks between any two of its steps. Events carry a serial in the order of their adds.
 */
module EventBatch {
  import opened Machine
  import opened EventList

  datatype Tagged<T> = Tagged(serial: nat, event: T)
  type Stored<T> = Entry<Tagged<T>>

  /** Collecting: the get loop; Closed: a get found nothing more; Finished: sent and removed, or idle. */
  datatype Phase = Collecting | Closed | Finished

  /**
   handed are the events of the message in the making, stuck those that were in processing when the round began;
   over all rounds, refused are the events of messages that were not accepted, and lost those removed by an
   accepted send whose message they were not in.
   */
  datatype Run<T> = Run(list: seq<Stored<T>>, next: nat, phase: Phase, user: U16, handed: seq<Tagged<T>>,
                        stuck: set<nat>, refused: set<nat>, lost: set<nat>)

  /** Begin is a call of event_comm_task. */
  datatype Step<T> = Begin | Add(event: T, prio: Prio, user: U16) | Get | Send(ok: bool)

  /** The serials of the entries in processing. */
  function InHand<T>(c: seq<Stored<T>>): set<nat>
  {
    if c == [] then {}
    else InHand(c[..|c| - 1]) + if c[|c| - 1].processing then {c[|c| - 1].event.serial} else {}
  }

  lemma {:induction false} InHandIs<T(!new)>(c: seq<Stored<T>>)
    ensures forall x :: x in InHand(c) <==> exists k :: 0 <= k < |c| && c[k].processing && c[k].event.serial == x
  {
    if c != [] {
      InHandIs(c[..|c| - 1]);
    }
  }

  function Serials<T>(handed: seq<Tagged<T>>): set<nat> { set k | 0 <= k < |handed| :: handed[k].serial }

  lemma SerialsMore<T>(handed: seq<Tagged<T>>, x: Tagged<T>)
    ensures Serials(handed + [x]) == Serials(handed) + {x.serial}
  {
    var more := handed + [x];
    forall n | n in Serials(handed) + {x.serial} ensures n in Serials(more) {
      if n == x.serial {
        assert more[|handed|] == x;
      } else {
        var k :| 0 <= k < |handed| && handed[k].serial == n;
        assert more[k] == handed[k];
      }
    }
  }

  function After<T(!new)>(s: Run<T>, a: Step<T>, size: nat): Run<T>
    requires 0 < size
    requires |s.list| <= size
  {
    match a
    case Begin =>
      if s.phase != Finished then s
      else s.(phase := Collecting, user := USER_NONE, handed := [], stuck := InHand(s.list))
    case Add(event, prio, user) =>
      (match Added(s.list, size, Some(Tagged(s.next, event)), prio, user)
       case None => s
       case Some(list) => s.(list := list, next := s.next + 1))
    case Get =>
      if s.phase != Collecting then s
      else
        var i := NextFor(s.list, s.user);
        if i == |s.list| then s.(phase := if s.handed == [] then Finished else Closed)
        else s.(list := Taken(s.list, s.user), user := s.list[i].user, handed := s.handed + [s.list[i].event])
    case Send(ok) =>
      if s.phase != Closed then s
      else if !ok then s.(phase := Finished, refused := s.refused + Serials(s.handed))
      else s.(phase := Finished, list := Sweep(s.list, DoneEntry(true)),
              lost := s.lost + (InHand(s.list) - Serials(s.handed)))
  }

  /** A buffer between two rounds; what is in processing is there from an earlier refusal. */
  function Between<T>(list: seq<Stored<T>>, next: nat): Run<T>
  {
    Run(list, next, Finished, USER_NONE, [], {}, InHand(list), {})
  }

  /** In the order they were added. */
  ghost predicate Increasing<T>(s: seq<Tagged<T>>) { forall j, k :: 0 <= j < k < |s| ==> s[j].serial < s[k].serial }

  ghost predicate InOrder<T(!new)>(c: seq<Stored<T>>, next: nat)
  {
    && (forall j, k :: 0 <= j < k < |c| ==> c[j].event.serial < c[k].event.serial)
    && (forall k :: 0 <= k < |c| ==> c[k].event.serial < next)
  }

  /** In processing are exactly the events handed out, all of the one user, and those stuck. */
  ghost predicate HandInv<T(!new)>(s: Run<T>)
  {
    forall e :: e in s.list ==>
      && (e.processing <==> e.event.serial in Serials(s.handed) || e.event.serial in s.stuck)
      && (e.event.serial in Serials(s.handed) ==> e.user == s.user)
  }

  ghost predicate Inv<T(!new)>(s: Run<T>, size: nat)
  {
    && |s.list| <= size && InOrder(s.list, s.next) && Increasing(s.handed)
    && (forall x :: x in Serials(s.handed) ==> x < s.next)
    && (s.handed == [] <==> s.user == USER_NONE)
    && (s.phase == Closed ==> s.handed != [])
    && (forall x :: x in s.stuck ==> x < s.next && x !in Serials(s.handed))
    && (s.phase != Finished ==> HandInv(s))
    && (s.phase == Finished ==> forall e :: e in s.list && e.processing ==> e.event.serial in s.refused)
    && s.stuck <= s.refused && s.lost <= s.refused
    // what still waits for that user came after everything handed out
    && (s.phase == Collecting && s.handed != [] ==>
          forall e, h :: e in s.list && Waits(e) && e.user == s.user && h in Serials(s.handed) ==> h < e.event.serial)
    && (forall e :: e in s.list ==> e.user != USER_NONE)
  }

  lemma IncreasingMore<T>(s: seq<Tagged<T>>, x: Tagged<T>)
    requires Increasing(s) && forall h :: h in Serials(s) ==> h < x.serial
    ensures Increasing(s + [x])
  {
    assert forall j :: 0 <= j < |s| ==> s[j].serial in Serials(s);
  }

  lemma TakenKeepsOrder<T(!new)>(c: seq<Stored<T>>, next: nat, user: U16)
    requires InOrder(c, next)
    ensures InOrder(Taken(c, user), next)
  {
    assert forall k :: 0 <= k < |c| ==> Taken(c, user)[k].event == c[k].event;
  }

  lemma AddedKeepsOrder<T(!new)>(c: seq<Stored<T>>, size: nat, e: Tagged<T>, prio: Prio, user: U16)
    requires InOrder(c, e.serial) && |c| <= size && 0 < size
    ensures match Added(c, size, Some(e), prio, user)
            case None => true
            case Some(d) => |d| <= size && InOrder(d, e.serial + 1)
                            && forall x :: x in d ==> x in c || x == Fresh(e, prio, user)
  {
    if c != [] && Victim(c, prio).Some? && Victim(c, prio).value < |c| {
      WithoutKeepsOrder(c, e.serial, Victim(c, prio).value);
    }
  }

  lemma WithoutKeepsOrder<T(!new)>(c: seq<Stored<T>>, next: nat, v: nat)
    requires v < |c| && InOrder(c, next)
    ensures InOrder(Without(c, v), next) && forall e :: e in Without(c, v) ==> e in c
  {
  }

  lemma AddKeeps<T(!new)>(s: Run<T>, a: Step<T>, size: nat)
    requires Inv(s, size) && 0 < size && a.Add?
    ensures Inv(After(s, a, size), size)
  {
    AddedKeepsOrder(s.list, size, Tagged(s.next, a.event), a.prio, a.user);
  }

  /** Taking an entry leaves the others; those that wait for its user come later. */
  lemma TakenEach<T(!new)>(c: seq<Stored<T>>, next: nat, user: U16, e: Stored<T>)
    requires InOrder(c, next) && NextFor(c, user) < |c| && e in Taken(c, user)
    ensures var was := c[NextFor(c, user)];
            || e == was.(processing := true)
            || (e in c && e.event.serial != was.event.serial
                && (Waits(e) && e.user == was.user ==> was.event.serial < e.event.serial))
  {
    var i := NextFor(c, user);
    var k :| 0 <= k < |c| && Taken(c, user)[k] == e;
    if k != i {
      assert c[k] == e;
      assert k < i && Waits(e) ==> e.user != c[i].user;
    }
  }

  lemma GotKeeps<T(!new)>(s: Run<T>, was: Stored<T>, got: seq<Stored<T>>, size: nat)
    requires Inv(s, size) && s.phase == Collecting
    requires was in s.list && Waits(was) && (s.user == USER_NONE || was.user == s.user)
    requires |got| <= size && InOrder(got, s.next)
    requires forall e :: e in got ==>
               || e == was.(processing := true)
               || (e in s.list && e.event.serial != was.event.serial
                   && (Waits(e) && e.user == was.user ==> was.event.serial < e.event.serial))
    ensures Inv(s.(list := got, user := was.user, handed := s.handed + [was.event]), size)
  {
    IncreasingMore(s.handed, was.event);
    SerialsMore(s.handed, was.event);
  }

  lemma GetKeeps<T(!new)>(s: Run<T>, size: nat)
    requires Inv(s, size) && 0 < size
    ensures Inv(After(s, Get, size), size)
  {
    var i := NextFor(s.list, s.user);
    if s.phase == Collecting && i < |s.list| {
      TakenKeepsOrder(s.list, s.next, s.user);
      forall e | e in Taken(s.list, s.user)
        ensures e == s.list[i].(processing := true)
                || (e in s.list && e.event.serial != s.list[i].event.serial
                    && (Waits(e) && e.user == s.list[i].user ==> s.list[i].event.serial < e.event.serial))
      {
        TakenEach(s.list, s.next, s.user, e);
      }
      GotKeeps(s, s.list[i], Taken(s.list, s.user), size);
    }
  }

  lemma FrontInOrder<T(!new)>(c: seq<Stored<T>>, next: nat)
    requires InOrder(c, next) && c != []
    ensures InOrder(c[..|c| - 1], c[|c| - 1].event.serial) && c[|c| - 1].event.serial < next
  {
  }

  /** A later entry at the end, or none. */
  lemma OrderMore<T(!new)>(c: seq<Stored<T>>, e: Stored<T>, next: nat)
    requires InOrder(c, e.event.serial) && e.event.serial < next
    ensures InOrder(c, next) && InOrder(c + [e], next)
  {
  }

  lemma {:induction false} SweepKeepsOrder<T(!new)>(c: seq<Stored<T>>, next: nat)
    requires InOrder(c, next)
    ensures InOrder(Sweep(c, DoneEntry(true)), next)
  {
    if c != [] {
      var d, last := c[..|c| - 1], c[|c| - 1];
      FrontInOrder(c, next);
      SweepKeepsOrder(d, last.event.serial);
      OrderMore(Sweep(d, DoneEntry(true)), last, next);
      assert Sweep(c, DoneEntry(true)) == Sweep(d, DoneEntry(true)) + if last.processing then [] else [last];
    }
  }

  lemma InHandMember<T(!new)>(c: seq<Stored<T>>, e: Stored<T>)
    requires e in c && e.processing
    ensures e.event.serial in InHand(c)
  {
    InHandIs(c);
    var k :| 0 <= k < |c| && c[k] == e;
  }

  lemma SameSerial<T(!new)>(c: seq<Stored<T>>, next: nat, d: Stored<T>, e: Stored<T>)
    requires InOrder(c, next) && d in c && e in c && d.event.serial == e.event.serial
    ensures d == e
  {
    var j :| 0 <= j < |c| && c[j] == d;
    var k :| 0 <= k < |c| && c[k] == e;
  }

  lemma {:induction false} StaysMember<T(!new)>(c: seq<Stored<T>>, e: Stored<T>)
    requires e in Sweep(c, DoneEntry(true))
    ensures e in c && !e.processing
  {
    if c != [] && e in Sweep(c[..|c| - 1], DoneEntry(true)) {
      StaysMember(c[..|c| - 1], e);
    }
  }

  /**
   An accepted send removes exactly the events of its message and those that were in processing when the
   round began: an event not in the message goes if and only if it was stuck.
   */
  lemma SendExact<T(!new)>(s: Run<T>, size: nat)
    requires Inv(s, size) && 0 < size && s.phase == Closed
    ensures var t := After(s, Send(true), size);
            && (forall e :: e in t.list ==> e in s.list && !e.processing)
            && (forall e :: e in s.list ==>
                  (e !in t.list <==> e.event.serial in Serials(s.handed) || e.event.serial in s.stuck))
            && (forall e :: e in s.list && e.event.serial !in Serials(s.handed) ==>
                  (e !in t.list <==> e.event.serial in s.stuck))
            && (forall e :: e in s.list && e.event.serial in s.stuck ==> e.event.serial in t.lost)
  {
    var t := After(s, Send(true), size);
    DoneMembers(s.list);
    forall e | e in t.list ensures e in s.list && !e.processing {
      StaysMember(s.list, e);
    }
    forall e | e in s.list ensures e !in t.list <==> e.event.serial in Serials(s.handed) || e.event.serial in s.stuck {
      assert e in Sweep(s.list, DoneEntry(true)) <==> !e.processing;
    }
    forall e | e in s.list && e.event.serial in s.stuck ensures e.event.serial in After(s, Send(true), size).lost {
      InHandMember(s.list, e);
    }
  }

  lemma SentIsClean<T(!new)>(s: Run<T>, size: nat)
    requires 0 < size && s.phase == Closed && |s.list| <= size
    ensures forall e :: e in After(s, Send(true), size).list ==> !e.processing
  {
    forall e | e in After(s, Send(true), size).list ensures !e.processing {
      StaysMember(s.list, e);
    }
  }

  lemma RefusedKeeps<T(!new)>(s: Run<T>, size: nat)
    requires Inv(s, size) && 0 < size && s.phase == Closed
    ensures Inv(After(s, Send(false), size), size)
  {
  }

  lemma LostWasRefused<T(!new)>(s: Run<T>, size: nat)
    requires Inv(s, size) && s.phase == Closed
    ensures InHand(s.list) - Serials(s.handed) <= s.refused
  {
    InHandIs(s.list);
    forall x | x in InHand(s.list) && x !in Serials(s.handed) ensures x in s.refused {
      var k :| 0 <= k < |s.list| && s.list[k].processing && s.list[k].event.serial == x;
      assert s.list[k] in s.list;
    }
  }

  /** What is left after an accepted send: entries that were there and not in processing, in their order. */
  lemma LeftKeeps<T(!new)>(s: Run<T>, left: seq<Stored<T>>, lost: set<nat>, size: nat)
    requires Inv(s, size) && |left| <= |s.list| && InOrder(left, s.next) && lost <= s.refused
    requires forall e :: e in left ==> e in s.list && !e.processing
    ensures Inv(s.(phase := Finished, list := left, lost := lost), size)
  {
  }

  lemma AcceptedKeeps<T(!new)>(s: Run<T>, size: nat)
    requires Inv(s, size) && 0 < size && s.phase == Closed
    ensures Inv(After(s, Send(true), size), size)
  {
    var t := After(s, Send(true), size);
    forall e | e in t.list ensures e in s.list && !e.processing {
      StaysMember(s.list, e);
    }
    SweepKeepsOrder(s.list, s.next);
    LostWasRefused(s, size);
    LeftKeeps(s, t.list, t.lost, size);
  }

  lemma BeginKeeps<T(!new)>(s: Run<T>, size: nat)
    requires Inv(s, size) && 0 < size
    ensures Inv(After(s, Begin, size), size)
  {
    if s.phase == Finished {
      InHandIs(s.list);
      forall x | x in InHand(s.list) ensures x in s.refused && x < s.next {
        var k :| 0 <= k < |s.list| && s.list[k].processing && s.list[k].event.serial == x;
        assert s.list[k] in s.list;
      }
      forall e | e in s.list ensures e.processing <==> e.event.serial in InHand(s.list) {
        if e.processing {
          InHandMember(s.list, e);
        } else if e.event.serial in InHand(s.list) {
          var k :| 0 <= k < |s.list| && s.list[k].processing && s.list[k].event.serial == e.event.serial;
          SameSerial(s.list, s.next, s.list[k], e);
        }
      }
    }
  }

  lemma StepKeeps<T(!new)>(s: Run<T>, a: Step<T>, size: nat)
    requires 0 < size && Inv(s, size)
    ensures Inv(After(s, a, size), size)
  {
    match a
    case Begin => BeginKeeps(s, size);
    case Add(_, _, _) => AddKeeps(s, a, size);
    case Get => GetKeeps(s, size);
    case Send(ok) =>
      if s.phase == Closed {
        if ok {
          AcceptedKeeps(s, size);
        } else {
          RefusedKeeps(s, size);
        }
      }
  }

  ghost predicate IsRun<T(!new)>(s: Run<T>, acts: seq<Step<T>>, t: Run<T>, size: nat)
    requires 0 < size
    decreases |acts|
  {
    if acts == [] then s == t
    else |s.list| <= size && IsRun(After(s, acts[0], size), acts[1..], t, size)
  }

  lemma {:induction false} RunKeeps<T(!new)>(s: Run<T>, acts: seq<Step<T>>, t: Run<T>, size: nat)
    requires 0 < size && Inv(s, size) && IsRun(s, acts, t, size)
    ensures Inv(t, size)
    decreases |acts|
  {
    if acts != [] {
      StepKeeps(s, acts[0], size);
      RunKeeps(After(s, acts[0], size), acts[1..], t, size);
    }
  }

  lemma BetweenIsSafe<T(!new)>(list: seq<Stored<T>>, next: nat, size: nat)
    requires |list| <= size && InOrder(list, next) && forall e :: e in list ==> e.user != USER_NONE
    ensures Inv(Between(list, next), size)
  {
    forall e | e in list && e.processing ensures e.event.serial in InHand(list) {
      InHandMember(list, e);
    }
  }

  /**
   Any number of rounds from any buffer: in each message the serials increase, so events leave in insertion
   order, and they are all of one user; the last get gives up only when nothing waits for that user; and an
   event lost was in processing from the start or in a message refused before.
   */
  lemma Batch<T(!new)>(start: seq<Stored<T>>, next: nat, size: nat, acts: seq<Step<T>>, t: Run<T>)
    requires 0 < size && |start| <= size && InOrder(start, next) && forall e :: e in start ==> e.user != USER_NONE
    requires IsRun(Between(start, next), acts, t, size)
    ensures Inv(t, size)
    ensures Increasing(t.handed)
    ensures t.phase == Collecting && |After(t, Get, size).handed| == |t.handed| ==>
              forall e :: e in t.list && Waits(e) ==> t.handed != [] && e.user != t.user
    ensures t.lost <= t.refused
  {
    BetweenIsSafe(start, next, size);
    RunKeeps(Between(start, next), acts, t, size);
    forall e | e in t.list && Waits(e) && NextFor(t.list, t.user) == |t.list|
      ensures t.user != USER_NONE && e.user != t.user
    {
      var k :| 0 <= k < |t.list| && t.list[k] == e;
    }
  }

  // ---- what the messages say ----

  /** x is stored for this user. */
  ghost predicate StoredFor<T(!new)>(c: seq<Stored<T>>, x: Tagged<T>, user: U16)
  {
    exists k :: 0 <= k < |c| && c[k].event == x && c[k].user == user
  }

  /** x is an event of a step that adds it for this user, under the serial it got there. */
  ghost predicate AddedBy<T(!new)>(s: Run<T>, a: Step<T>, x: Tagged<T>, user: U16, size: nat)
    requires 0 < size && |s.list| <= size
  {
    a.Add? && a.event == x.event && a.user == user && x.serial == s.next < After(s, a, size).next
  }

  ghost predicate Brought<T(!new)>(s: Run<T>, acts: seq<Step<T>>, x: Tagged<T>, user: U16, size: nat)
    requires 0 < size
    decreases |acts|
  {
    acts != [] && |s.list| <= size
    && (AddedBy(s, acts[0], x, user, size) || Brought(After(s, acts[0], size), acts[1..], x, user, size))
  }

  /** Whatever a step leaves in the buffer was there or is what it adds. */
  lemma StepStores<T(!new)>(s: Run<T>, a: Step<T>, x: Tagged<T>, user: U16, size: nat)
    requires 0 < size && |s.list| <= size && StoredFor(After(s, a, size).list, x, user)
    ensures StoredFor(s.list, x, user) || AddedBy(s, a, x, user, size)
  {
    var t := After(s, a, size);
    var k :| 0 <= k < |t.list| && t.list[k].event == x && t.list[k].user == user;
    match a
    case Begin =>
    case Add(event, prio, owner) =>
      AddedMembers(s.list, size, Tagged(s.next, event), prio, owner);
      assert t.list[k] in t.list;
    case Get => assert s.list[k].event == x && s.list[k].user == user;
    case Send(ok) =>
      if s.phase == Closed && ok {
        StaysMember(s.list, t.list[k]);
      }
  }

  lemma AddedMembers<T(!new)>(c: seq<Stored<T>>, size: nat, e: Tagged<T>, prio: Prio, user: U16)
    requires |c| <= size && 0 < size
    ensures match Added(c, size, Some(e), prio, user)
            case None => true
            case Some(d) => forall y :: y in d ==> y in c || (y.event == e && y.user == user)
  {
  }

  /**
   Over any run: whatever is stored for a user, and whatever a message to it says, was stored for that user or in
   the message at the start, or was added for that user with just this text.
   */
  lemma {:induction false} TextsAreAdded<T(!new)>(s: Run<T>, acts: seq<Step<T>>, t: Run<T>, x: Tagged<T>, user: U16,
                                                  size: nat)
    requires 0 < size && Inv(s, size) && IsRun(s, acts, t, size)
    requires StoredFor(t.list, x, user) || (x in t.handed && t.user == user)
    ensures StoredFor(s.list, x, user) || (x in s.handed && s.user == user) || Brought(s, acts, x, user, size)
    decreases |acts|
  {
    if acts != [] {
      var a, m := acts[0], After(s, acts[0], size);
      StepKeeps(s, a, size);
      TextsAreAdded(m, acts[1..], t, x, user, size);
      if StoredFor(m.list, x, user) {
        StepStores(s, a, x, user, size);
      } else if x in m.handed && m.user == user && !(x in s.handed && s.user == user) {
        assert a == Get && x == s.list[NextFor(s.list, s.user)].event;
      }
    }
  }

  /** Without a refused send nothing is lost. */
  lemma {:induction false} NothingRefused<T(!new)>(s: Run<T>, acts: seq<Step<T>>, t: Run<T>, size: nat)
    requires 0 < size && IsRun(s, acts, t, size) && Send(false) !in acts
    ensures t.refused == s.refused
    decreases |acts|
  {
    if acts != [] {
      assert acts[0] in acts;
      NothingRefused(After(s, acts[0], size), acts[1..], t, size);
    }
  }

  /**
   An event of user 1 is in a message that is refused; the next accepted message goes to user 2 and removes it
   as well, so nobody is ever told of it.
   */
  lemma RefusedThenLost<T(!new)>(a: T, b: T, prio: Prio)
    ensures var ea, eb := Fresh(Tagged(0, a), prio, 1), Fresh(Tagged(1, b), prio, 2);
            var refused := After(After(After(After(Between([ea, eb], 2), Begin, 2), Get, 2), Get, 2), Send(false), 2);
            var closed := After(After(After(refused, Begin, 2), Get, 2), Get, 2);
            var t := After(closed, Send(true), 2);
            && refused.handed == [Tagged(0, a)] && closed.handed == [Tagged(1, b)] && closed.user == 2
            && t.list == [] && t.lost == {0}
  {
    var ea, eb := Fresh(Tagged(0, a), prio, 1), Fresh(Tagged(1, b), prio, 2);
    var pa, pb := ea.(processing := true), eb.(processing := true);
    var s0 := After(Between([ea, eb], 2), Begin, 2);
    NextForIs([ea, eb], USER_NONE, 0);
    var s1 := After(s0, Get, 2);
    assert s1.list == [pa, eb] && s1.handed == [Tagged(0, a)] && s1.user == 1;
    NextForIs([pa, eb], 1, 2);
    var s2 := After(s1, Get, 2);
    var s3 := After(s2, Send(false), 2);
    var s4 := After(s3, Begin, 2);
    NextForIs([pa, eb], USER_NONE, 1);
    var s5 := After(s4, Get, 2);
    assert s5.list == [pa, pb] && s5.handed == [Tagged(1, b)] && s5.user == 2;
    NextForIs([pa, pb], 2, 2);
    var s6 := After(s5, Get, 2);
    BothGone(pa, pb);
    SerialsOne(Tagged(1, b));
  }

  lemma SerialsOne<T>(x: Tagged<T>)
    ensures Serials([x]) == {x.serial}
  {
    SerialsMore([], x);
    assert [] + [x] == [x];
  }

  lemma BothGone<T>(a: Stored<T>, b: Stored<T>)
    requires a.processing && b.processing
    ensures Sweep([a, b], DoneEntry(true)) == [] && InHand([a, b]) == {a.event.serial, b.event.serial}
  {
    assert [a, b][..1] == [a] && [a][..0] == [];
    assert InHand([a]) == {a.event.serial};
  }
}
