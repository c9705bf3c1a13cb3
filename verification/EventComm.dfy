/**
 event_comm_task (app/event.c) as it runs on the event buffer: collect the events of one user, send
 them in one message, remove them once the message is accepted.
 */
module EventComm {
  import opened Machine
  import opened EventList
  import opened EventBuffer
  import opened EventBatch

  /** One more step at the end of a run. */
  lemma {:induction false} RunSnoc<T(!new)>(s: Run<T>, acts: seq<Step<T>>, m: Run<T>, a: Step<T>, size: nat)
    requires 0 < size && IsRun(s, acts, m, size) && |m.list| <= size
    ensures IsRun(s, acts + [a], EventBatch.After(m, a, size), size)
    decreases |acts|
  {
    if acts == [] {
      assert ([] + [a])[1..] == [];
    } else {
      assert (acts + [a])[0] == acts[0] && (acts + [a])[1..] == acts[1..] + [a];
      RunSnoc(EventBatch.After(s, acts[0], size), acts[1..], m, a, size);
    }
  }

  function Waiting<E>(c: seq<Entry<E>>): nat
  {
    if c == [] then 0 else Waiting(c[..|c| - 1]) + if Waits(c[|c| - 1]) then 1 else 0
  }

  lemma {:induction false} MarkedWaitsLess<E>(c: seq<Entry<E>>, i: nat)
    requires i < |c| && Waits(c[i])
    ensures Waiting(c[i := c[i].(processing := true)]) < Waiting(c)
  {
    var d, n := c[i := c[i].(processing := true)], |c| - 1;
    if i < n {
      MarkedWaitsLess(c[..n], i);
      assert d[..n] == c[..n][i := c[i].(processing := true)];
    } else {
      assert d[..n] == c[..n];
    }
  }

  /** Every event handed out leaves one fewer waiting. */
  lemma {:induction false} TakenWaitsLess<E>(c: seq<Entry<E>>, user: U16)
    requires NextFor(c, user) < |c|
    ensures Waiting(Taken(c, user)) < Waiting(c)
  {
    MarkedWaitsLess(c, NextFor(c, user));
  }

  lemma TakenKeepsEvents<T(!new)>(c: seq<Stored<T>>, user: U16, x: Tagged<T>)
    requires InBuffer(Taken(c, user), x)
    ensures InBuffer(c, x)
  {
    var k :| 0 <= k < |c| && Taken(c, user)[k].event == x;
    assert c[k].event == x;
  }

  /** The events another task adds while the sending task is delayed. */
  predicate OnlyAdds<T>(late: seq<Step<T>>) { forall k :: 0 <= k < |late| ==> late[k].Add? }

  /** A buffer as adds leave it: in insertion order, every event with a real user. */
  ghost predicate Proper<T(!new)>(c: seq<Stored<T>>, next: nat)
  {
    InOrder(c, next) && forall e :: e in c ==> e.user != USER_NONE
  }

  ghost predicate InBuffer<T(!new)>(c: seq<Stored<T>>, x: Tagged<T>) { exists k :: 0 <= k < |c| && c[k].event == x }

  /** x is one of these adds, with a serial from n on. */
  ghost predicate FromLate<T(!new)>(late: seq<Step<T>>, n: nat, x: Tagged<T>)
    requires OnlyAdds(late)
  {
    n <= x.serial && exists j :: 0 <= j < |late| && late[j].event == x.event
  }

  /** Nothing waits for this user. */
  ghost predicate NothingFor<T(!new)>(c: seq<Stored<T>>, user: U16)
  {
    forall k :: 0 <= k < |c| && Waits(c[k]) ==> c[k].user != user
  }

  /** What an accepted message leaves behind waited before. */
  lemma SweepLeavesNothingFor<T(!new)>(c: seq<Stored<T>>, user: U16)
    requires NothingFor(c, user)
    ensures NothingFor(Sweep(c, DoneEntry(true)), user)
  {
    var d := Sweep(c, DoneEntry(true));
    forall k | 0 <= k < |d| && Waits(d[k]) ensures d[k].user != user {
      StaysMember(c, d[k]);
      var j :| 0 <= j < |c| && c[j] == d[k];
    }
  }

  /** What an add leaves in the buffer was there or is what it adds. */
  lemma AddStores<T(!new)>(s: Run<T>, a: Step<T>, x: Tagged<T>, size: nat)
    requires 0 < size && |s.list| <= size && a.Add? && InBuffer(EventBatch.After(s, a, size).list, x)
    ensures InBuffer(s.list, x) || x == Tagged(s.next, a.event)
  {
    AddedMembers(s.list, size, Tagged(s.next, a.event), a.prio, a.user);
    var t := EventBatch.After(s, a, size).list;
    var k :| 0 <= k < |t| && t[k].event == x;
    assert t[k] in t;
  }

  /** sms_buf and the tasks that use it; the run they make is recorded beside it. */
  class SmsTask<T(!new, ==)> {
    const smsBuf: EventBuf<Tagged<T>>
    var serial: nat
    ghost var first: Run<T>
    ghost var acts: seq<Step<T>>
    ghost var run: Run<T>

    ghost predicate Valid()
      reads this, smsBuf, smsBuf.items
    {
      && smsBuf.Valid() && 0 < smsBuf.size && |run.list| <= smsBuf.size as nat
      && run.list == smsBuf.Contents() && run.next == serial
      && IsRun(first, acts, run, smsBuf.size as nat)
    }

    /** The buffer between two rounds; serials continue after next. */
    constructor (buf: EventBuf<Tagged<T>>, next: nat)
      requires buf.Valid() && 0 < buf.size && |buf.Contents()| <= buf.size as nat
      ensures Valid() && smsBuf == buf && serial == next && first == run == Between(buf.Contents(), next) && acts == []
    {
      smsBuf, serial := buf, next;
      run := Between(buf.Contents(), next);
      first := Between(buf.Contents(), next);
      acts := [];
    }

    ghost method Record(a: Step<T>)
      requires smsBuf.Valid() && 0 < smsBuf.size && |run.list| <= smsBuf.size as nat
      requires IsRun(first, acts, run, smsBuf.size as nat)
      requires var r := EventBatch.After(run, a, smsBuf.size as nat);
               r.list == smsBuf.Contents() && r.next == serial && |r.list| <= smsBuf.size as nat
      modifies `acts, `run
      ensures Valid() && run == EventBatch.After(old(run), a, smsBuf.size as nat) && acts == old(acts) + [a]
    {
      RunSnoc(first, acts, run, a, smsBuf.size as nat);
      run := EventBatch.After(run, a, smsBuf.size as nat);
      acts := acts + [a];
    }

    /** event_buf_add_event by another task. */
    method Add(event: T, prio: Prio, user: U16)
      requires Valid()
      modifies this`serial, this`acts, this`run, smsBuf, smsBuf.items
      ensures Valid()
      ensures run == EventBatch.After(old(run), Step.Add(event, prio, user), smsBuf.size as nat)
      ensures run.phase == old(run.phase) && run.user == old(run.user) && run.handed == old(run.handed)
      ensures run.lost == old(run.lost) && first == old(first)
      ensures acts == old(acts) + [Step.Add(event, prio, user)]
    {
      ghost var c := smsBuf.Contents();
      var ok := smsBuf.AddEvent(Some(Tagged(serial, event)), prio, user);
      if ok {
        serial := serial + 1;
      }
      AddedFits(c, smsBuf.size as nat, Some(Tagged(run.next, event)), prio, user);
      Record(Step.Add(event, prio, user));
    }

    /** event_buf_get_event for the task: the next event of its user, or the end of the collection. */
    method Get(user: U16) returns (found: bool, event: Option<Tagged<T>>, owner: U16)
      requires Valid() && run.phase == Collecting && user == run.user
      modifies this`acts, this`run, smsBuf.items
      ensures Valid() && run == EventBatch.After(old(run), EventBatch.Get, smsBuf.size as nat)
      ensures acts == old(acts) + [EventBatch.Get]
      ensures found ==> NextFor(old(run.list), user) < |old(run.list)|
      ensures found ==> run.phase == Collecting && run.list == Taken(old(run.list), user)
      ensures found ==> event == Some(old(run.list)[NextFor(old(run.list), user)].event)
      ensures found ==> owner == run.user && run.handed == old(run.handed) + [event.value]
      ensures !found ==> run.handed == old(run.handed) && owner == user && run.list == old(run.list)
      ensures !found ==> NextFor(run.list, user) == |run.list|
      ensures run.lost == old(run.lost)
      ensures !found ==> run.phase == if run.handed == [] then Finished else Closed
    {
      var prio;
      found, event, prio, owner := smsBuf.GetEvent(user);
      Record(EventBatch.Get);
    }

    /** The message is accepted, and its events go. */
    method Remove()
      requires Valid() && run.phase == Closed
      modifies this`acts, this`run, smsBuf, smsBuf.items
      ensures Valid() && run == EventBatch.After(old(run), Send(true), smsBuf.size as nat)
      ensures run.phase == Finished && run.user == old(run.user) && run.handed == old(run.handed)
      ensures run.list == Sweep(old(run.list), DoneEntry(true))
      ensures acts == old(acts) + [Send(true)]
    {
      smsBuf.DoneEvents(true);
      Record(Send(true));
    }

    /** The message is refused, and its events stay as they are. */
    ghost method Refuse()
      requires Valid() && run.phase == Closed
      modifies this`acts, this`run
      ensures Valid() && run == EventBatch.After(old(run), Send(false), smsBuf.size as nat)
      ensures run.phase == Finished && run.user == old(run.user) && run.handed == old(run.handed)
      ensures run.list == old(run.list) && run.lost == old(run.lost)
      ensures acts == old(acts) + [Send(false)]
    {
      Record(Send(false));
    }

    /** The end of a round with a message: it was accepted or it was not. */
    method Conclude(accepted: bool)
      requires Valid() && run.phase == Closed
      modifies this`acts, this`run, smsBuf, smsBuf.items
      ensures Valid() && run.phase == Finished && run.user == old(run.user) && run.handed == old(run.handed)
      ensures accepted ==> forall e :: e in run.list ==> !e.processing
      ensures !accepted ==> run.lost == old(run.lost) && run.list == old(run.list)
      ensures NothingFor(old(run.list), run.user) ==> NothingFor(run.list, run.user)
    {
      if accepted {
        if NothingFor(run.list, run.user) {
          SweepLeavesNothingFor(run.list, run.user);
        }
        SentIsClean(run, smsBuf.size as nat);
        Remove();
      } else {
        Refuse();
      }
    }

    /** The task starts a round. */
    ghost method Start()
      requires Valid() && run.phase == Finished
      modifies `acts, `run
      ensures Valid() && run.phase == Collecting && run.handed == [] && run.user == USER_NONE
      ensures run.list == old(run.list) && run.lost == old(run.lost) && run.next == old(run.next)
    {
      Record(Begin);
    }

    /** What other tasks add during the delay. */
    method AddLate(late: seq<Step<T>>)
      requires Valid() && OnlyAdds(late)
      modifies this`serial, this`acts, this`run, smsBuf, smsBuf.items
      ensures Valid() && run.phase == old(run.phase) && run.user == old(run.user) && run.handed == old(run.handed)
      ensures run.lost == old(run.lost) && old(run.next) <= run.next
      ensures forall x :: InBuffer(run.list, x) ==> InBuffer(old(run.list), x) || FromLate(late, old(run.next), x)
      decreases |late|
    {
      if late != [] {
        ghost var s, n := run, smsBuf.size as nat;
        Add(late[0].event, late[0].prio, late[0].user);
        ghost var m := run;
        AddLate(late[1..]);
        forall x | InBuffer(run.list, x) ensures InBuffer(s.list, x) || FromLate(late, s.next, x) {
          if InBuffer(m.list, x) {
            AddStores(s, late[0], x, n);
          } else {
            var j :| 0 <= j < |late[1..]| && late[1..][j].event == x.event;
            assert late[j + 1].event == x.event;
          }
        }
      }
    }

    /** One more get for the user of the message; every one that finds something leaves one fewer waiting. */
    method GetMore(user: U16) returns (found: bool, event: Option<Tagged<T>>, owner: U16)
      requires Valid() && run.phase == Collecting && user == run.user && run.handed != []
      modifies this`acts, this`run, smsBuf.items
      ensures Valid() && owner == run.user && run.lost == old(run.lost)
      ensures run.phase == if found then Collecting else Closed
      ensures found ==> Waiting(run.list) < Waiting(old(run.list))
      ensures found ==> event.Some? && run.handed == old(run.handed) + [event.value]
      ensures found ==> InBuffer(old(run.list), event.value)
      ensures forall x :: InBuffer(run.list, x) ==> InBuffer(old(run.list), x)
      ensures !found ==> run.handed == old(run.handed) && run.list == old(run.list) && NothingFor(run.list, owner)
    {
      ghost var before := run.list;
      found, event, owner := Get(user);
      if found {
        TakenWaitsLess(before, user);
        forall x | InBuffer(run.list, x) ensures InBuffer(before, x) {
          TakenKeepsEvents(before, user, x);
        }
      }
    }

    /** The inner loop: what else waits for the user. */
    method CollectRest(user: U16, one: Tagged<T>) returns (texts: seq<Tagged<T>>, owner: U16)
      requires Valid() && run.phase == Collecting && user == run.user && run.handed == [one]
      modifies this`acts, this`run, smsBuf.items
      ensures Valid() && run.phase == Closed && owner == run.user && texts == run.handed
      ensures run.lost == old(run.lost) && NothingFor(run.list, owner)
      ensures texts != [] && texts[0] == one
      ensures forall x :: x in texts ==> x == one || InBuffer(old(run.list), x)
    {
      texts, owner := [one], user;
      var found := true;
      while found
        invariant Valid() && owner == run.user && texts == run.handed && run.lost == old(run.lost)
        invariant run.phase == if found then Collecting else Closed
        invariant texts != [] && texts[0] == one
        invariant forall x :: x in texts ==> x == one || InBuffer(old(run.list), x)
        invariant forall x :: InBuffer(run.list, x) ==> InBuffer(old(run.list), x)
        invariant !found ==> NothingFor(run.list, owner)
        decreases Waiting(run.list), found
      {
        var event;
        found, event, owner := GetMore(owner);
        if found {
          texts := texts + [event.value];
        }
      }
    }

    /** What waits for the user of the first event, with what other tasks add before the rest is collected. */
    method Gather(one: Tagged<T>, owner: U16, late: seq<Step<T>>) returns (texts: seq<Tagged<T>>, user: U16)
      requires Valid() && run.phase == Collecting && owner == run.user && run.handed == [one] && OnlyAdds(late)
      modifies this`serial, this`acts, this`run, smsBuf, smsBuf.items
      ensures Valid() && run.phase == Closed && user == run.user && texts == run.handed
      ensures run.lost == old(run.lost) && NothingFor(run.list, user)
      ensures texts != [] && texts[0] == one
      ensures forall x :: x in texts ==> x == one || InBuffer(old(run.list), x) || FromLate(late, old(run.next), x)
    {
      AddLate(late);
      texts, user := CollectRest(owner, one);
    }

    /** event_comm_task, any number of times: the events of the message, and whom it went to. */
    method CommTask(late: seq<Step<T>>, accepted: bool) returns (user: U16, texts: seq<Tagged<T>>)
      requires Valid() && run.phase == Finished && OnlyAdds(late)
      modifies this`serial, this`acts, this`run, smsBuf, smsBuf.items
      ensures Valid() && first == old(first) && run.phase == Finished && user == run.user && texts == run.handed
      // without a message the buffer is as it was, and nothing waits in it
      ensures texts == [] ==> run.list == old(run.list) && user == USER_NONE && run.lost == old(run.lost)
      ensures texts == [] <==> forall k :: 0 <= k < |old(run.list)| ==> !Waits(old(run.list)[k])
      // the message begins with the oldest waiting event, says what is stored or added while it is made, and leaves
      // nothing waiting for its user
      ensures texts != [] ==> NextFor(old(run.list), USER_NONE) < |old(run.list)|
                              && texts[0] == old(run.list)[NextFor(old(run.list), USER_NONE)].event
      ensures forall x :: x in texts ==> InBuffer(old(run.list), x) || FromLate(late, old(run.next), x)
      ensures texts != [] ==> NothingFor(run.list, user)
      ensures texts != [] && accepted ==> forall e :: e in run.list ==> !e.processing
      ensures !accepted ==> run.lost == old(run.lost)
    {
      texts := [];
      ghost var list, next := run.list, run.next;
      Start();
      var found, event;
      found, event, user := Get(USER_NONE);
      if found {
        ghost var m := run.list;
        texts, user := Gather(event.value, user, late);
        forall x | x in texts ensures InBuffer(list, x) || FromLate(late, next, x) {
          if InBuffer(m, x) {
            TakenKeepsEvents(list, USER_NONE, x);
          }
        }
        Conclude(accepted);
      }
    }

    /**
     What all its rounds amount to, from any buffer: the events of the last message in insertion order, each with
     the text it was stored or added with for the user of the message, and nothing lost that was not in processing
     at the start or in a message refused before.
     */
    lemma RoundsKeep(texts: seq<Tagged<T>>)
      requires Valid() && first == Between(first.list, first.next) && |first.list| <= smsBuf.size as nat
      requires texts == run.handed && Proper(first.list, first.next)
      ensures Increasing(texts) && EventBatch.Inv(run, smsBuf.size as nat) && run.lost <= run.refused
      ensures forall x :: x in texts ==>
                StoredFor(first.list, x, run.user) || Brought(first, acts, x, run.user, smsBuf.size as nat)
      ensures Send(false) !in acts ==> run.lost <= InHand(first.list)
    {
      Batch(first.list, first.next, smsBuf.size as nat, acts, run);
      BetweenIsSafe(first.list, first.next, smsBuf.size as nat);
      forall x | x in texts
        ensures StoredFor(first.list, x, run.user) || Brought(first, acts, x, run.user, smsBuf.size as nat)
      {
        TextsAreAdded(first, acts, run, x, run.user, smsBuf.size as nat);
      }
      if Send(false) !in acts {
        NothingRefused(first, acts, run, smsBuf.size as nat);
      }
    }
  }

  lemma {:induction false} AddedFits<E>(c: seq<Entry<E>>, size: nat, event: Option<E>, prio: Prio, user: U16)
    requires |c| <= size && 0 < size
    ensures match Added(c, size, event, prio, user) case None => true case Some(d) => |d| <= size
  {
  }
}
