/** The primary event queue of app/event.c: a ring of 32 whose overflow test never fires. */
module EventFifo {
  import opened Machine

  const SIZE: nat := 32

  datatype Event = Event(cnt: U32, time: nat, id: U8, source: U8)

  /** What lies between the read and the write pointer. */
  function Unread(ring: seq<Event>, rd: nat, wr: nat): seq<Event>
    requires |ring| == SIZE && rd < SIZE && wr < SIZE
  {
    if rd <= wr then ring[rd..wr] else ring[rd..] + ring[..wr]
  }

  /** The unread events once one more is put in: the 32nd empties the ring. */
  function Joined(unread: seq<Event>, e: Event): seq<Event>
  {
    if |unread| == SIZE - 1 then [] else unread + [e]
  }

  class Fifo {
    const ring: array<Event>
    var rd: nat
    var wr: nat
    var cnt: U32

    ghost predicate Valid()
      reads this
    {
      ring.Length == SIZE && rd < SIZE && wr < SIZE
    }

    ghost function Contents(): seq<Event>
      requires Valid()
      reads this, ring
    {
      Unread(ring[..], rd, wr)
    }

    constructor ()
      ensures Valid() && Contents() == [] && cnt == 0 && fresh(ring)
    {
      ring := new Event[SIZE](_ => Event(0, 0, 0, 0));
      rd, wr, cnt := 0, 0, 0;
    }

    /**
     event_create_ext: always accepts. With fewer than 31 events unread the new one joins
     them under the next counter value; with 31 unread all of them are lost.
     */
    method Create(time: nat, id: U8, source: U8) returns (ok: bool)
      requires Valid()
      modifies `wr, `cnt, ring
      ensures Valid() && ok && cnt == (old(cnt) + 1) % 0x1_0000_0000
      ensures Contents() == Joined(old(Contents()), Event(cnt, time, id, source))
    {
      ghost var was := ring[..];
      var p := wr + 1;
      if p == SIZE {
        p := 0;
      }
      if p == wr {
        return false;
      }
      cnt := (cnt + 1) % 0x1_0000_0000;
      ring[wr] := Event(cnt, time, id, source);
      assert ring[..] == was[wr := ring[wr]];
      wr := p;
      return true;
    }

    /** One turn of event_task: the oldest unread event, if any. */
    method Take() returns (e: Option<Event>)
      requires Valid()
      modifies `rd
      ensures Valid()
      ensures if old(Contents()) == [] then e == None && Contents() == []
              else e == Some(old(Contents())[0]) && Contents() == old(Contents())[1..]
    {
      if rd == wr {
        return None;
      }
      e := Some(ring[rd]);
      rd := if rd + 1 == SIZE then 0 else rd + 1;
    }
  }
}
