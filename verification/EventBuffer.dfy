/**
 The event buffer of app/event_buf.c: a doubly linked list threaded through an array with
 u8 indices. Every operation is proved against the list functions of EventList.
 */
module EventBuffer {
  import opened Machine
  import opened EventList

  const NIL: U8 := 0xFF

  datatype Flags = Flags(used: bool, active: bool, processing: bool, zombie: bool)

  const FREE: Flags := Flags(false, false, false, false)

  datatype Item<E> = Item(event: Option<E>, next: U8, prev: U8, prio: Prio, flag: Flags, user: U16, cnt: U8)

  function EntryOf<E>(it: Item<E>): Entry<E>
    requires it.event.Some?
  {
    Entry(it.event.value, it.prio, it.user, it.flag.processing, it.flag.zombie, it.cnt)
  }

  /** The entries in the given slots, in that order. */
  ghost function Entries<E>(s: seq<Item<E>>, order: seq<nat>): (c: seq<Entry<E>>)
    requires Linkable(s, order)
    ensures |c| == |order|
  {
    if order == [] then []
    else
      var k := |order| - 1;
      Entries(s, order[..k]) + [EntryOf(s[order[k]])]
  }

  lemma {:induction false} EntryAt<E>(s: seq<Item<E>>, order: seq<nat>, k: nat)
    requires Linkable(s, order) && k < |order|
    ensures Entries(s, order)[k] == EntryOf(s[order[k]])
    decreases |order|
  {
    if k < |order| - 1 {
      EntryAt(s, order[..|order| - 1], k);
    }
  }

  lemma EachEntry<E>(s: seq<Item<E>>, order: seq<nat>)
    requires Linkable(s, order)
    ensures forall k :: 0 <= k < |order| ==> Entries(s, order)[k] == EntryOf(s[order[k]])
  {
    forall k | 0 <= k < |order| ensures Entries(s, order)[k] == EntryOf(s[order[k]]) {
      EntryAt(s, order, k);
    }
  }

  lemma EntriesAre<E>(s: seq<Item<E>>, order: seq<nat>, c: seq<Entry<E>>)
    requires Linkable(s, order) && |c| == |order|
    requires forall k :: 0 <= k < |order| ==> c[k] == EntryOf(s[order[k]])
    ensures Entries(s, order) == c
  {
    forall k | 0 <= k < |order| ensures Entries(s, order)[k] == c[k] {
      EntryAt(s, order, k);
    }
  }

  /** The k-th used slot: its two links and its flags. */
  ghost predicate Linked<E>(s: seq<Item<E>>, order: seq<nat>, k: nat)
    requires k < |order| && order[k] < |s|
  {
    var it := s[order[k]];
    && it.flag.used && it.flag.active && !(it.flag.processing && it.flag.zombie)
    && it.next as int == (if k + 1 < |order| then order[k + 1] else NIL)
    && it.prev as int == (if 0 < k then order[k - 1] else NIL)
  }

  ghost predicate Distinct(order: seq<nat>, size: nat)
  {
    && (forall k :: 0 <= k < |order| ==> order[k] < size)
    && (forall j: nat, k: nat :: j < |order| && k < |order| && j != k ==> Differ(order, j, k))
  }

  ghost predicate Differ(order: seq<nat>, j: nat, k: nat)
    requires j < |order| && k < |order|
  {
    order[j] != order[k]
  }

  ghost predicate Linkable<E>(s: seq<Item<E>>, order: seq<nat>)
  {
    forall k :: 0 <= k < |order| ==> order[k] < |s| && s[order[k]].event.Some?
  }

  ghost predicate Members<E>(s: seq<Item<E>>, size: nat, order: seq<nat>)
    requires size <= |s|
  {
    forall p: nat :: p < size ==> (s[p].flag != FREE <==> p in order)
  }

  ghost predicate Links<E>(s: seq<Item<E>>, order: seq<nat>)
  {
    && Linkable(s, order)
    && forall k: nat :: k < |order| ==> Linked(s, order, k)
  }

  /** The links visit exactly the used slots, once each, forwards and backwards. */
  ghost predicate Chain<E>(s: seq<Item<E>>, size: U8, order: seq<nat>, start: U8, last: U8)
  {
    && 0 < size as nat <= |s| && |order| <= size as nat
    && Distinct(order, size)
    && Members(s, size, order)
    && Links(s, order)
    && start < size
    && (if order == [] then last == NIL && s[start].next == NIL
        else start as nat == order[0] && last as nat == order[|order| - 1])
  }

  /** A used item as its operations may leave it: same links, still used and active. */
  predicate Rewrites<E>(it: Item<E>, r: Item<E>)
  {
    && r.next == it.next && r.prev == it.prev && r.event.Some?
    && r.flag.used && r.flag.active && !(r.flag.processing && r.flag.zombie)
  }

  datatype Act<E> = Leave | Delete | Rewrite(item: Item<E>)

  /** The act does to the item what f does to its entry; an unused slot is left alone. */
  ghost predicate Right<E>(f: Entry<E> -> Option<Entry<E>>, it: Item<E>, act: Act<E>)
  {
    if !InUse(it) then act == Leave
    else match act
      case Leave => f(EntryOf(it)) == Some(EntryOf(it))
      case Delete => f(EntryOf(it)) == None
      case Rewrite(r) => Rewrites(it, r) && f(EntryOf(it)) == Some(EntryOf(r))
  }

  predicate InUse<E>(it: Item<E>) { it.flag.used && it.flag.active && it.event.Some? }

  /** The three passes over the buffer. */
  datatype Pass<!E> = Done(delivered: bool) | Restore(limit: U8) | Each(keep: E -> bool)

  function On<E>(pass: Pass<E>): Entry<E> -> Option<Entry<E>>
  {
    match pass
    case Done(delivered) => DoneEntry(delivered)
    case Restore(limit) => RestoreEntry(limit)
    case Each(keep) => KeepEntry(keep)
  }

  /** What event_buf_done_events, _restore_events and _for_each do to one item. */
  function Choose<E>(pass: Pass<E>, it: Item<E>): (act: Act<E>)
    ensures Right(On(pass), it, act)
  {
    if !InUse(it) then Leave
    else match pass
      case Done(delivered) =>
        if !it.flag.processing then Leave
        else if delivered then Delete
        else Rewrite(it.(flag := it.flag.(processing := false, zombie := true)))
      case Restore(limit) =>
        if !it.flag.processing && !it.flag.zombie then Leave
        else
          var back := it.(flag := it.flag.(processing := false, zombie := false));
          if limit == UNLIMITED then Rewrite(back)
          else
            var cnt: U8 := (it.cnt + 1) % 0x100;
            if cnt >= limit then Delete else Rewrite(back.(cnt := cnt))
      case Each(keep) =>
        if keep(it.event.value) then Leave else Delete
  }

  class EventBuf<E(==)> {
    const items: array<Item<E>>
    const size: U8
    var start: U8
    var last: U8
    var test: U8
    ghost var order: seq<nat>    // the used slots in insertion order

    ghost predicate Valid()
      reads `start, `last, `order, items
    {
      Chain(items[..], size, order, start, last)
    }

    ghost function Contents(): (c: seq<Entry<E>>)
      requires Valid()
      reads `start, `last, `order, items
      ensures |c| == |order|
    {
      Entries(items[..], order)
    }

    constructor (items: array<Item<E>>, size: U8)
      requires 0 < size <= items.Length
      modifies items
      ensures Valid() && this.items == items && this.size == size && Contents() == []
    {
      this.items := items;
      this.size := size;
      start, last, test := 0, NIL, 0xFF;
      order := [];
      new;
      var i: nat := 0;
      while i < size as nat
        invariant i <= size as nat
        invariant start == 0 && last == NIL && order == []
        invariant forall s :: 0 <= s < i ==> items[s].flag == FREE && items[s].next == NIL
      {
        items[i] := items[i].(flag := FREE, next := NIL, prev := NIL);
        i := i + 1;
      }
    }

    /** The probe after t. */
    function After(t: U8): (n: U8)
      requires 0 < size
      ensures n < size
    {
      if (t + 1) % 0x100 >= size then 0 else (t + 1) % 0x100
    }

    method FindFree() returns (slot: U8)
      requires Valid()
      modifies this`test
      ensures slot == NIL || (slot < size && items[slot].flag == FREE)
      ensures slot == NIL ==> |order| == size as nat
    {
      var t := test;
      slot, t := Probe(t);
      if slot == NIL {
        AllUsed(order, size);
      }
      test := t;
    }

    /** Round-robin search; it misses no free slot. */
    method Probe(t0: U8) returns (slot: U8, t: U8)
      requires 0 < size <= items.Length
      ensures slot == NIL || (slot < size && items[slot].flag == FREE)
      ensures slot == NIL ==> forall p: nat :: p < size as nat ==> items[p].flag != FREE
    {
      t := t0;
      var i: nat := 0;
      ghost var first: nat := After(t);
      while i < size as nat
        invariant i <= size as nat
        invariant After(t) as int == if first + i < size as nat then first + i else first + i - size
        invariant forall p: nat | p < size as nat && (first <= p < first + i || p + size as nat < first + i)
                    :: items[p].flag != FREE
      {
        t := After(t);
        if items[t].flag == FREE {
          return t, t;
        }
        i := i + 1;
      }
      slot := NIL;
    }

    /** Rewrite the k-th item without touching its links. */
    method Update(ghost k: nat, slot: U8, it: Item<E>)
      requires Valid() && k < |order| && order[k] == slot as nat
      requires Rewrites(items[slot], it)
      modifies items
      ensures Valid() && Contents() == old(Contents())[k := EntryOf(it)]
      ensures items[slot] == it
    {
      ghost var s := items[..];
      items[slot] := it;
      assert items[..] == s[slot as nat := it];
      UpdateKeeps(s, size, order, start, last, k, it);
    }

    /** _delete_item: unlink a used slot; the freed slot keeps its stale next link. */
    method DeleteItem(slot: U8) returns (ghost k: nat)
      requires Valid() && slot < size && items[slot].flag != FREE
      modifies `start, `last, `order, items
      ensures Valid() && k < |old(order)| && old(order)[k] == slot as nat
      ensures order == Without(old(order), k) && Contents() == Without(old(Contents()), k)
      ensures items[slot] == old(items[slot]).(flag := FREE)
      ensures order == [] ==> start == slot
    {
      assert slot as nat in order;
      k :| 0 <= k < |order| && order[k] == slot as nat;
      Detach(k, slot);
    }

    method Detach(ghost k: nat, slot: U8)
      requires Valid() && slot < size && k < |order| && order[k] == slot as nat
      modifies `start, `last, `order, items
      ensures Valid() && order == Without(old(order), k) && Contents() == Without(old(Contents()), k)
      ensures items[slot] == old(items[slot]).(flag := FREE)
      ensures order == [] ==> start == slot
    {
      ghost var s := items[..];
      Neighbours(s, size, order, start, last, k, slot);
      DeleteKeeps(s, size, order, start, last, k, slot);
      Relink(slot);
      order := Without(order, k);
    }

    /** The stores of _delete_item; a missing neighbour shows as NIL exactly at the two ends. */
    method Relink(slot: U8)
      requires slot < size <= items.Length && start < size
      requires Surrounded(items[slot], size, start, last, slot)
      modifies `start, `last, items
      ensures items[..] == Unlink(old(items[..]), slot)
      ensures start == StartWithout(old(items[slot]), slot, old(start), old(last))
      ensures last == LastWithout(old(items[slot]), slot, old(last))
    {
      var it := items[slot];
      items[slot] := it.(flag := FREE);
      if slot != start {
        items[it.prev] := items[it.prev].(next := it.next);
        if last == slot {
          last := it.prev;
        } else {
          items[it.next] := items[it.next].(prev := it.prev);
        }
      } else if slot != last {
        start := it.next;
        items[start] := items[start].(prev := NIL);
      } else {
        last := NIL;
      }
    }
  
    /** Where a traversal goes from the k-th item. */
    lemma Following(k: nat)
      requires Valid() && k < |order|
      ensures var it := items[order[k]];
              && it.flag.used && it.flag.active && !(it.flag.processing && it.flag.zombie)
              && it.event.Some? && EntryOf(it) == Contents()[k]
              && (if k + 1 < |order| then it.next as nat == order[k + 1] && it.next != NIL else it.next == NIL)
    {
      assert Linked(items[..], order, k);
      EntryAt(items[..], order, k);
    }

    method IsEmpty() returns (empty: bool)
      requires Valid()
      ensures empty <==> forall e :: e in Contents() ==> !Waits(e)
    {
      ghost var c := Contents();
      var i: nat, b: U8 := 0, start;
      while i < size as nat
        invariant if order == [] then i == 0 && b == start else i < |order| && b as nat == order[i]
        invariant forall j :: 0 <= j < i ==> !Waits(c[j])
      {
        if order != [] {
          Following(i);
        }
        var it := items[b];
        if it.flag.used && it.flag.active && !it.flag.processing && !it.flag.zombie {
          assert c[i] in c;
          return false;
        }
        if it.next == NIL {
          break;
        }
        b := it.next;
        i := i + 1;
      }
      return true;
    }

    /** First loop of _buf_replace_prio, called on a full buffer. */
    method LowestStored() returns (lowest: Prio)
      requires Valid() && order != []
      ensures lowest == Lowest(Contents())
    {
      ghost var c := Contents();
      lowest := PRIO_HI;
      var i: nat, b: U8 := 0, start;
      while i < size as nat
        invariant i < |order| && b as nat == order[i]
        invariant lowest == Lowest(c[..i])
      {
        Following(i);
        assert c[..i + 1][..i] == c[..i];
        if items[b].prio < lowest {
          lowest := items[b].prio;
        }
        if items[b].next == NIL {
          break;
        }
        b := items[b].next;
        i := i + 1;
      }
      assert c[..|order|] == c;
    }

    /** Second loop: the oldest item of the given priority. */
    method OldestOf(prio: Prio) returns (slot: U8)
      requires Valid() && order != []
      ensures if FirstOf(Contents(), prio) == |order| then slot == NIL
              else slot as nat == order[FirstOf(Contents(), prio)]
    {
      ghost var c := Contents();
      var i: nat, b: U8 := 0, start;
      while i < size as nat
        invariant i < |order| && b as nat == order[i]
        invariant forall j :: 0 <= j < i ==> c[j].prio != prio
      {
        Following(i);
        if items[b].prio == prio {
          FirstOfIs(c, prio, i);
          return b;
        }
        if items[b].next == NIL {
          break;
        }
        b := items[b].next;
        i := i + 1;
      }
      FirstOfIs(c, prio, |c|);
      return NIL;
    }

    method ReplacePrio(prio: Prio) returns (slot: U8)
      requires Valid() && order != []
      ensures match Victim(Contents(), prio)
              case None => slot == NIL
              case Some(v) => v < |order| && slot as nat == order[v]
    {
      ghost var c := Contents();
      if Victim(c, prio).Some? {
        VictimExact(c, prio);
      }
      var lowest := LowestStored();
      if lowest > prio {
        return NIL;
      }
      if lowest == prio {
        return start;
      }
      slot := OldestOf(lowest);
    }

    /** The last part of event_buf_add_event: fill a free slot and chain it in. */
    method Append(slot: U8, event: E, prio: Prio, user: U16)
      requires Valid() && slot < size && items[slot].flag == FREE && (order == [] ==> slot == start)
      modifies `last, `order, items
      ensures Valid() && order == old(order) + [slot as nat] && |order| <= size as nat
      ensures Contents() == old(Contents()) + [Fresh(event, prio, user)]
    {
      ghost var s := items[..];
      var it := Item(Some(event), NIL, last, prio, Flags(true, true, false, false), user, 0);
      AppendKeeps(s, size, order, start, last, slot, it);
      items[slot] := it;
      if last != NIL {
        items[last] := items[last].(next := slot);
      }
      assert items[..] == Chained(s, last, slot, it);
      last := slot;
      order := order + [slot as nat];
    }

    /** A slot for a new event: an unused one, or that of the victim, or NIL. */
    method PlaceFor(prio: Prio) returns (slot: U8)
      requires Valid()
      modifies `start, `last, `test, `order, items
      ensures Valid() && (slot != NIL ==> slot < size && items[slot].flag == FREE && (order == [] ==> slot == start))
      ensures if |old(Contents())| < size as nat then slot != NIL && Contents() == old(Contents())
              else match Victim(old(Contents()), prio)
                case None => slot == NIL && Contents() == old(Contents())
                case Some(v) => slot != NIL && v < |old(Contents())| && Contents() == Without(old(Contents()), v)
    {
      if last == NIL {
        return start;
      }
      slot := FindFree();
      if slot == NIL {
        slot := ReplacePrio(prio);
        if slot != NIL {
          assert slot as nat in order;
          var k := DeleteItem(slot);
          assert old(order)[k] == slot as nat;
        }
      } else {
        FreeMeansRoom(items[..], size, order, slot);
      }
    }

    method AddEvent(event: Option<E>, prio: Prio, user: U16) returns (ok: bool)
      requires Valid()
      modifies `start, `last, `test, `order, items
      ensures Valid()
      ensures match Added(old(Contents()), size, event, prio, user)
              case None => !ok && Contents() == old(Contents())
              case Some(c) => ok && Contents() == c
    {
      if event == None || user == USER_NONE {
        return false;
      }
      var slot := PlaceFor(prio);
      if slot == NIL {
        return false;
      }
      Append(slot, event.value, prio, user);
      return true;
    }

    /** The loop of event_buf_get_event, up to the item it takes. */
    method FindWaiting(user: U16) returns (found: bool, slot: U8, owner: U16, ghost i: nat)
      requires Valid()
      ensures var n := NextFor(Contents(), user);
              && (found <==> n < |order|)
              && (if found then i == n && slot as nat == order[n] && owner == items[slot].user else owner == user)
    {
      ghost var c := Contents();
      found, owner := false, user;
      var k: nat, b := 0, start;
      while k < size as nat
        invariant if order == [] then k == 0 && b == start else k < |order| && b as nat == order[k]
        invariant !found && owner == user
        invariant forall j :: 0 <= j < k ==> !(Waits(c[j]) && (user == USER_NONE || c[j].user == user))
      {
        if order != [] {
          Following(k);
        }
        var it := items[b];
        if it.flag.used && it.flag.active && !it.flag.processing && !it.flag.zombie {
          if owner == USER_NONE {
            owner := it.user;
          }
          if owner == it.user {
            found := true;
            break;
          }
        }
        if it.next == NIL {
          break;
        }
        b := it.next;
        k := k + 1;
      }
      slot, i := b, k;
      NextForIs(c, user, if found then k else |c|);
    }

    /** Hand out the oldest waiting event; *user NONE takes any user and is then set. */
    method GetEvent(user: U16) returns (found: bool, event: Option<E>, prio: Prio, owner: U16)
      requires Valid()
      modifies items
      ensures Valid() && Contents() == Taken(old(Contents()), user)
      ensures var i := NextFor(old(Contents()), user);
              && (found <==> i < |old(Contents())|)
              && (if found then var e := old(Contents())[i];
                                event == Some(e.event) && prio == e.prio && owner == e.user
                  else owner == user)
    {
      event, prio := None, 0;
      var slot;
      ghost var i;
      found, slot, owner, i := FindWaiting(user);
      if found {
        Following(i);
        var it := items[slot];
        event, prio := it.event, it.prio;
        Update(i, slot, it.(flag := it.flag.(processing := true)));
      }
    }

    /** i of the slots o that were used at the start are done; the traversal stands at slot b. */
    ghost predicate Standing(o: seq<nat>, i: nat, p: nat, b: U8)
      reads `start, `order
    {
      if o == [] then order == [] && i == 0 && b == start
      else i < |o| && SameTail(order, p, o, i) && b as nat == o[i]
    }

    /** What a traversal sees at its i-th stop; an empty buffer shows it the free start slot. */
    lemma Here(o: seq<nat>, i: nat, p: nat, b: U8, c: seq<Entry<E>>)
      requires Valid() && b < size && Standing(o, i, p, b) && |c| == |o|
      requires SameTail(Contents(), p, c, i)
      ensures var it := items[b];
              if o == [] then it.flag == FREE && it.next == NIL
              else
                && p < |order| && order[p] == b as nat
                && it.flag.used && it.flag.active && it.event.Some? && !(it.flag.processing && it.flag.zombie)
                && EntryOf(it) == c[i] == Contents()[p]
                && (if i + 1 < |o| then it.next as nat == o[i + 1] && it.next < size else it.next == NIL)
    {
      if o == [] {
        assert start as nat !in order;
      } else {
        assert SameAt(order, p, o, i, 0) && SameAt(Contents(), p, c, i, 0);
        assert i + 1 < |o| ==> SameAt(order, p, o, i, 1);
        Following(p);
      }
    }

    /** One stop of a traversal: do to the item what f does to its entry. */
    method Visit(ghost o: seq<nat>, ghost i: nat, ghost p: nat, b: U8, ghost c: seq<Entry<E>>,
                 ghost f: Entry<E> -> Option<Entry<E>>, act: Act<E>) returns (ghost q: nat)
      requires Valid() && Standing(o, i, p, b) && Swept(c, i, f, Contents(), p) && |c| == |o|
      requires b < size && Right(f, items[b], act)
      modifies `start, `last, `order, items
      ensures Valid() && |Contents()| == |old(Contents())| - if act.Delete? then 1 else 0
      ensures if i + 1 < |o|
              then items[b].next < size && Standing(o, i + 1, q, items[b].next) && Swept(c, i + 1, f, Contents(), q)
              else items[b].next == NIL && Contents() == Sweep(c, f)
    {
      Here(o, i, p, b, c);
      ghost var now, left := Contents(), order;
      Perform(p, b, act);
      q := if o == [] then p else OnwardFrom(c, f, i, o, now, left, p, Contents(), order);
    }

    method Perform(ghost p: nat, b: U8, act: Act<E>)
      requires Valid() && b < size
      requires act.Leave? || (p < |order| && order[p] == b as nat)
      requires act.Rewrite? ==> Rewrites(items[b], act.item)
      modifies `start, `last, `order, items
      ensures Valid() && items[b].next == old(items[b].next)
      ensures if act.Delete? then order == Without(old(order), p) else order == old(order)
      ensures match act
              case Leave => Contents() == old(Contents())
              case Delete => Contents() == Without(old(Contents()), p)
              case Rewrite(it) => Contents() == old(Contents())[p := EntryOf(it)]
      ensures act.Leave? && old(order) == [] ==> start == old(start)
    {
      match act {
        case Leave =>
        case Delete =>
          Following(p);
          ghost var k := DeleteItem(b);
          assert k == p;
        case Rewrite(it) =>
          Update(p, b, it);
      }
    }

    /** i of the entries c in the slots o are done and those before p stay; slot b is next. */
    ghost predicate Touring(pass: Pass<E>, o: seq<nat>, c: seq<Entry<E>>, i: nat, p: nat, b: U8)
      reads `start, `last, `order, items
    {
      && Valid() && |c| == |o| <= size as nat && b < size
      && Standing(o, i, p, b) && Swept(c, i, On(pass), Contents(), p)
    }

    lemma AtStart(pass: Pass<E>)
      requires Valid()
      ensures Touring(pass, order, Contents(), 0, 0, start)
    {
    }

    lemma Within(pass: Pass<E>, o: seq<nat>, c: seq<Entry<E>>, i: nat, p: nat, b: U8)
      requires Touring(pass, o, c, i, p, b)
      ensures i < size as nat
    {
    }

    method Turn(pass: Pass<E>, ghost o: seq<nat>, ghost c: seq<Entry<E>>, ghost i: nat, ghost p: nat, b: U8)
      returns (erased: bool, next: U8, ghost q: nat)
      requires Touring(pass, o, c, i, p, b)
      modifies `start, `last, `order, items
      ensures Valid() && |Contents()| == |old(Contents())| - if erased then 1 else 0
      ensures next == NIL ==> Contents() == Sweep(c, On(pass))
      ensures next != NIL ==> Touring(pass, o, c, i + 1, q, next)
    {
      var act := Choose(pass, items[b]);
      q := Visit(o, i, p, b, c, On(pass), act);
      erased, next := act.Delete?, items[b].next;
    }

    /** The traversal of done, restore and for_each: it goes on through slots it has freed. */
    method Tour(pass: Pass<E>) returns (kept: bool)
      requires Valid()
      modifies `start, `last, `order, items
      ensures Valid() && Contents() == Sweep(old(Contents()), On(pass))
      ensures kept <==> |Contents()| == |old(Contents())|
    {
      ghost var o, c, p: nat := order, Contents(), 0;
      AtStart(pass);
      var i: nat, b: U8 := 0, start;
      kept := true;
      while i < size as nat
        invariant Touring(pass, o, c, i, p, b)
        invariant |Contents()| <= |c| && (kept <==> |Contents()| == |c|)
      {
        var erased, next;
        erased, next, p := Turn(pass, o, c, i, p, b);
        kept := kept && !erased;
        if next == NIL {
          break;
        }
        b := next;
        i := i + 1;
      }
    }

    /** Delivered: the processing events leave. Not delivered: they become zombies. */
    method DoneEvents(delivered: bool)
      requires Valid()
      modifies `start, `last, `order, items
      ensures Valid() && Contents() == Sweep(old(Contents()), DoneEntry(delivered))
    {
      var _ := Tour(Done(delivered));
    }

    /** Everything handed out waits again, unless its retry count meets the limit. */
    method RestoreEvents(limit: U8) returns (ok: bool)
      requires Valid()
      modifies `start, `last, `order, items
      ensures Valid() && Contents() == Sweep(old(Contents()), RestoreEntry(limit))
      ensures ok <==> |Contents()| == |old(Contents())|
    {
      ok := Tour(Restore(limit));
    }

    /** Erase every event the callback answers false for. */
    method ForEach(keep: E -> bool)
      requires Valid()
      modifies `start, `last, `order, items
      ensures Valid() && Contents() == Sweep(old(Contents()), KeepEntry(keep))
    {
      var _ := Tour(Each(keep));
    }
  }

  /** After the visit of the i-th of o the traversal stands before the (i+1)-th. */
  ghost function OnwardFrom<E>(c: seq<Entry<E>>, f: Entry<E> -> Option<Entry<E>>, i: nat, o: seq<nat>,
                               now: seq<Entry<E>>, left: seq<nat>, p: nat,
                               then': seq<Entry<E>>, right: seq<nat>): (q: nat)
    requires Swept(c, i, f, now, p) && i < |c| == |o| && |left| == |now| && |right| == |then'|
    requires SameTail(left, p, o, i)
    requires match f(c[i])
             case None => then' == Without(now, p) && right == Without(left, p)
             case Some(e) => then' == now[p := e] && right == left
    ensures Swept(c, i + 1, f, then', q)
    ensures SameTail(right, q, o, i + 1)
    ensures i + 1 == |o| ==> then' == Sweep(c, f)
  {
    var q := SweptNext(c, i, f, now, p, then');
    if i + 1 == |c| then
      SweptAll(c, f, then', q);
      assert SameTail(right, q, o, i + 1);
      q
    else if f(c[i]).None? then
      TailWithout(left, p, o, i);
      q
    else
      TailKept(left, p, left[p], o, i);
      assert left[p := left[p]] == left;
      q
  }

  lemma NoOther(order: seq<nat>, size: nat, k: nat)
    requires Distinct(order, size) && k < |order|
    ensures forall j :: 0 <= j < |order| && j != k ==> order[j] != order[k]
  {
    forall j: nat | j < |order| && j != k ensures order[j] != order[k] {
      assert Differ(order, j, k);
    }
  }

  lemma DistinctMore(order: seq<nat>, size: nat, slot: nat)
    requires Distinct(order, size) && slot < size && slot !in order
    ensures Distinct(order + [slot], size)
  {
    var longer := order + [slot];
    forall j: nat, k: nat | j < |longer| && k < |longer| && j != k ensures Differ(longer, j, k) {
      if j < |order| && k < |order| {
        assert Differ(order, j, k);
      } else {
        assert order[if j < |order| then j else k] in order;
      }
    }
  }

  function Chained<E>(s: seq<Item<E>>, last: U8, slot: U8, it: Item<E>): seq<Item<E>>
    requires slot < |s| && (last < |s| || last == NIL)
  {
    var t := s[slot as nat := it];
    if last == NIL then t else t[last as nat := t[last].(next := slot)]
  }

  lemma AppendKeeps<E>(s: seq<Item<E>>, size: U8, order: seq<nat>, start: U8, last: U8, slot: U8, it: Item<E>)
    requires Chain(s, size, order, start, last) && slot < size && s[slot].flag == FREE
    requires order == [] ==> slot == start
    requires it.event.Some? && it.flag == Flags(true, true, false, false) && it.next == NIL && it.prev == last
    ensures last < size || last == NIL
    ensures var t := Chained(s, last, slot, it);
            && Chain(t, size, order + [slot as nat], start, slot)
            && Entries(t, order + [slot as nat]) == Entries(s, order) + [EntryOf(it)]
  {
    var longer, t := order + [slot as nat], Chained(s, last, slot, it);
    assert order != [] ==> order[|order| - 1] in order;
    DistinctMore(order, size, slot as nat);
    DistinctBound(longer, size);
    LinksAfterAppend(s, size, order, last, slot, it);
    forall k | 0 <= k < |order| ensures EntryOf(t[order[k]]) == EntryOf(s[order[k]]) {
      assert order[k] in order;
    }
    forall p: nat | p < size as nat ensures t[p].flag != FREE <==> p in longer {
    }
    EachEntry(s, order);
    EntriesAre(t, longer, Entries(s, order) + [EntryOf(it)]);
  }

  lemma LinksAfterAppend<E>(s: seq<Item<E>>, size: U8, order: seq<nat>, last: U8, slot: U8, it: Item<E>)
    requires size as nat <= |s| && Distinct(order, size) && Links(s, order) && slot < size && slot as nat !in order
    requires if order == [] then last == NIL else last as nat == order[|order| - 1]
    requires it.event.Some? && it.flag == Flags(true, true, false, false) && it.next == NIL && it.prev == last
    ensures Links(Chained(s, last, slot, it), order + [slot as nat])
  {
    var longer, t := order + [slot as nat], Chained(s, last, slot, it);
    forall j: nat | j < |longer| ensures t[longer[j]].event.Some? && Linked(t, longer, j) {
      if j < |order| {
        assert Linked(s, order, j) && order[j] in order;
        assert j + 1 < |order| ==> Differ(order, j, |order| - 1);
      }
    }
  }

  lemma FreeMeansRoom<E>(s: seq<Item<E>>, size: nat, order: seq<nat>, slot: nat)
    requires size <= |s| && Distinct(order, size) && Members(s, size, order) && slot < size && s[slot].flag == FREE
    ensures |order| < size
  {
    assert slot !in order;
    DistinctMore(order, size, slot);
    DistinctBound(order + [slot], size);
  }

  /** Distinct slots fit the buffer. */
  lemma {:induction false} DistinctBound(order: seq<nat>, size: nat)
    requires Distinct(order, size)
    ensures |order| <= size
    decreases size
  {
    if order != [] {
      assert order[0] < size;
      if size - 1 in order {
        var k :| 0 <= k < |order| && order[k] == size - 1;
        var rest := Without(order, k);
        NoOther(order, size, k);
        forall j | 0 <= j < |rest| ensures rest[j] < size - 1 {
          assert rest[j] == order[if j < k then j else j + 1] != order[k];
        }
        OrderAfterDelete(order, size, k);
        DistinctBound(rest, size - 1);
      } else {
        assert forall k :: 0 <= k < |order| ==> order[k] in order;
        DistinctBound(order, size - 1);
      }
    }
  }

  lemma UpdateKeeps<E>(s: seq<Item<E>>, size: U8, order: seq<nat>, start: U8, last: U8, k: nat, it: Item<E>)
    requires Chain(s, size, order, start, last) && k < |order|
    requires Rewrites(s[order[k]], it)
    ensures Chain(s[order[k] := it], size, order, start, last)
    ensures Entries(s[order[k] := it], order) == Entries(s, order)[k := EntryOf(it)]
  {
    var t := s[order[k] := it];
    NoOther(order, size, k);
    assert s[order[k]].flag != FREE && it.flag != FREE by {
      assert Linked(s, order, k);
    }
    forall j: nat | j < |order| ensures Linked(t, order, j) {
      assert Linked(s, order, j);
    }
    EachEntry(s, order);
    EntriesAre(t, order, Entries(s, order)[k := EntryOf(it)]);
  }

  /** What the links of a used slot and the ends say about its neighbours. */
  predicate Surrounded<E>(it: Item<E>, size: U8, start: U8, last: U8, slot: U8)
  {
    && it.prev != slot && it.next != slot && (it.prev == it.next ==> it.prev == NIL)
    && (if slot == start then it.prev == NIL else it.prev < size)
    && (if slot == last then it.next == NIL else it.next < size)
  }

  lemma Neighbours<E>(s: seq<Item<E>>, size: U8, order: seq<nat>, start: U8, last: U8, k: nat, slot: U8)
    requires Chain(s, size, order, start, last) && k < |order| && order[k] == slot as nat
    ensures Surrounded(s[slot], size, start, last, slot)
  {
    NoOther(order, size, k);
    assert 0 < k && k + 1 < |order| ==> Differ(order, k - 1, k + 1);
    assert Linked(s, order, k);
  }

  /** Slot order[k] is freed and its neighbours are linked past it. */
  ghost predicate Unlinked<E>(s: seq<Item<E>>, order: seq<nat>, k: nat, t: seq<Item<E>>)
    requires k < |order| && Distinct(order, |s|)
  {
    && |t| == |s|
    && t[order[k]] == s[order[k]].(flag := FREE)
    && (0 < k ==> t[order[k - 1]] == s[order[k - 1]].(next := s[order[k]].next))
    && (k + 1 < |order| ==> t[order[k + 1]] == s[order[k + 1]].(prev := s[order[k]].prev))
    && (forall p: nat | p < |s| && p != order[k] && (0 < k ==> p != order[k - 1])
                        && (k + 1 < |order| ==> p != order[k + 1]) :: t[p] == s[p])
  }

  function Unlink<E>(s: seq<Item<E>>, slot: U8): seq<Item<E>>
    requires slot < |s|
    requires s[slot].prev < |s| || s[slot].prev == NIL
    requires s[slot].next < |s| || s[slot].next == NIL
  {
    var it := s[slot];
    var s1 := s[slot as nat := it.(flag := FREE)];
    var s2 := if it.prev == NIL then s1 else s1[it.prev as nat := s1[it.prev].(next := it.next)];
    if it.next == NIL then s2 else s2[it.next as nat := s2[it.next].(prev := it.prev)]
  }

  function StartWithout<E>(it: Item<E>, slot: U8, start: U8, last: U8): U8
  {
    if slot == start && slot != last then it.next else start
  }

  function LastWithout<E>(it: Item<E>, slot: U8, last: U8): U8
  {
    if slot == last then it.prev else last
  }

  lemma UnlinkIs<E>(s: seq<Item<E>>, size: U8, order: seq<nat>, start: U8, last: U8, k: nat, slot: U8)
    requires Chain(s, size, order, start, last) && k < |order| && order[k] == slot as nat
    ensures s[slot].prev < size || s[slot].prev == NIL
    ensures s[slot].next < size || s[slot].next == NIL
    ensures Unlinked(s, order, k, Unlink(s, slot))
  {
    NoOther(order, size, k);
    assert 0 < k && k + 1 < |order| ==> Differ(order, k - 1, k + 1);
    assert Linked(s, order, k);
  }

  lemma MembersAfterDelete<E>(s: seq<Item<E>>, size: nat, order: seq<nat>, k: nat, t: seq<Item<E>>)
    requires size <= |s| && k < |order| && Distinct(order, size) && Members(s, size, order)
    requires Unlinked(s, order, k, t)
    ensures Members(t, size, Without(order, k))
  {
    var rest := Without(order, k);
    NoOther(order, size, k);
    forall p: nat | p < size ensures t[p].flag != FREE <==> p in rest {
      if p in order && p != order[k] {
        var j :| 0 <= j < |order| && order[j] == p;
        assert rest[if j < k then j else j - 1] == p;
      }
    }
  }

  lemma LinksAfterDelete<E>(s: seq<Item<E>>, order: seq<nat>, k: nat, t: seq<Item<E>>)
    requires k < |order| && Distinct(order, |s|) && Links(s, order) && Unlinked(s, order, k, t)
    ensures Links(t, Without(order, k))
  {
    var rest := Without(order, k);
    assert forall j :: 0 <= j < |rest| ==> rest[j] == order[if j < k then j else j + 1];
    forall j: nat | j < |rest| ensures Linked(t, rest, j) {
      var i := if j < k then j else j + 1;
      NoOther(order, |s|, i);
      assert rest[j] == order[i] && Linked(s, order, i) && Linked(s, order, k);
      assert t[order[i]].event == s[order[i]].event && t[order[i]].flag == s[order[i]].flag;
    }
  }

  lemma OrderAfterDelete(order: seq<nat>, size: nat, k: nat)
    requires k < |order| && Distinct(order, size)
    ensures Distinct(Without(order, k), size)
  {
    var rest := Without(order, k);
    assert forall j :: 0 <= j < |rest| ==> rest[j] == order[if j < k then j else j + 1];
    forall i: nat, j: nat | i < |rest| && j < |rest| && i != j ensures Differ(rest, i, j) {
      assert Differ(order, if i < k then i else i + 1, if j < k then j else j + 1);
    }
  }

  lemma EntriesAfterDelete<E>(s: seq<Item<E>>, order: seq<nat>, k: nat, t: seq<Item<E>>)
    requires k < |order| && Distinct(order, |s|) && Linkable(s, order) && Unlinked(s, order, k, t)
    ensures Linkable(t, Without(order, k))
    ensures Entries(t, Without(order, k)) == Without(Entries(s, order), k)
  {
    var rest, c := Without(order, k), Without(Entries(s, order), k);
    EachEntry(s, order);
    NoOther(order, |s|, k);
    forall j: nat | j < |rest| ensures t[rest[j]].event.Some? && c[j] == EntryOf(t[rest[j]]) {
      var i := if j < k then j else j + 1;
      assert rest[j] == order[i] != order[k] && c[j] == Entries(s, order)[i];
      assert EntryOf(t[order[i]]) == EntryOf(s[order[i]]);
    }
    EntriesAre(t, rest, c);
  }

  /** Freeing the k-th slot leaves a chain without it. */
  lemma DeleteKeeps<E>(s: seq<Item<E>>, size: U8, order: seq<nat>, start: U8, last: U8, k: nat, slot: U8)
    requires Chain(s, size, order, start, last) && k < |order| && order[k] == slot as nat
    ensures s[slot].prev < size || s[slot].prev == NIL
    ensures s[slot].next < size || s[slot].next == NIL
    ensures var rest, t := Without(order, k), Unlink(s, slot);
            && Chain(t, size, rest, StartWithout(s[slot], slot, start, last), LastWithout(s[slot], slot, last))
            && Entries(t, rest) == Without(Entries(s, order), k)
    ensures Without(order, k) == [] ==> StartWithout(s[slot], slot, start, last) == slot
  {
    UnlinkIs(s, size, order, start, last, k, slot);
    var t := Unlink(s, slot);
    OrderAfterDelete(order, size, k);
    MembersAfterDelete(s, size, order, k, t);
    LinksAfterDelete(s, order, k, t);
    EntriesAfterDelete(s, order, k, t);
    EndsAfterDelete(s, size, order, start, last, k, slot);
  }

  lemma EndsAfterDelete<E>(s: seq<Item<E>>, size: U8, order: seq<nat>, start: U8, last: U8, k: nat, slot: U8)
    requires Chain(s, size, order, start, last) && k < |order| && order[k] == slot as nat
    ensures var rest := Without(order, k);
            var first, end := StartWithout(s[slot], slot, start, last), LastWithout(s[slot], slot, last);
            if rest == [] then first == slot && end == NIL && s[slot].next == NIL
            else first as nat == rest[0] && end as nat == rest[|rest| - 1]
  {
    NoOther(order, size, k);
    assert Linked(s, order, k);
  }

  lemma AllUsed(order: seq<nat>, size: nat)
    requires forall s: nat :: s < size ==> s in order
    ensures size <= |order|
  {
    if size > 0 {
      assert size - 1 in order;
      var k :| 0 <= k < |order| && order[k] == size - 1;
      var rest := order[..k] + order[k + 1..];
      forall s: nat | s < size - 1 ensures s in rest {
        assert s in order;
        var j :| 0 <= j < |order| && order[j] == s;
        assert s == rest[if j < k then j else j - 1];
      }
      AllUsed(rest, size - 1);
    }
  }
}
