/**
 Reassembly of concatenated short messages (modem/multi_sms.c, 3GPP TS 23.040 section
 9.2.3.24.1): ten slots filled by parts in any order.
 */
module MultiSms {
  import opened Machine

  const BUF_LEN: nat := 10
  const PART_MAX: nat := 160

  datatype Slot = Slot(buffer: Option<string>, order: U8, total: U8, id: U8, len: U8)

  datatype Result = Error | Wait | Done

  const EMPTY: Slot := Slot(None, 0, 0, 0, 0)

  type Slots = s: seq<Slot> | |s| == BUF_LEN witness seq(BUF_LEN, _ => EMPTY)

  // ---- what the functions compute ----

  function FirstFree(s: seq<Slot>): (i: nat)
    ensures i <= |s| && (forall j :: 0 <= j < i ==> s[j].len != 0) && (i < |s| ==> s[i].len == 0)
  {
    if s == [] || s[0].len == 0 then 0 else 1 + FirstFree(s[1..])
  }

  function Evict(x: Slot, id: U8): Slot { if x.id != id then x.(buffer := None, len := 0) else x }

  /** ms_get_free_buf on the slots: evict other ids when nothing is free. */
  function Freed(s: Slots, id: U8): Slots
  {
    if FirstFree(s) < BUF_LEN then s else seq(BUF_LEN, i requires 0 <= i < BUF_LEN => Evict(s[i], id))
  }

  function Find(s: seq<Slot>, id: U8, order: U8): (i: nat)
    ensures i <= |s|
    ensures i < |s| ==> s[i].id == id && s[i].order == order && s[i].buffer.Some?
    ensures i == |s| ==> forall j :: 0 <= j < |s| ==> !(s[j].id == id && s[j].order == order && s[j].buffer.Some?)
  {
    if s == [] || (s[0].id == id && s[0].order == order && s[0].buffer.Some?) then 0
    else 1 + Find(s[1..], id, order)
  }

  predicate Complete(s: Slots, id: U8, total: U8)
  {
    forall o: U8 :: 1 <= o <= total ==> Find(s, id, o) < BUF_LEN
  }

  datatype Part = Part(text: string, id: U8, order: U8, total: U8)

  /** ms_incomming */
  function Incoming(s: Slots, p: Part): (Slots, Result)
  {
    var t := Freed(s, p.id);
    var i := FirstFree(t);
    if i == BUF_LEN || |p.text| > PART_MAX then (t, Error)
    else
      var u: Slots := t[i := Slot(Some(p.text), p.order, p.total, p.id, |p.text|)];
      (u, if Complete(u, p.id, p.total) then Done else Wait)
  }

  /** The stored length of an id over the first n slots. */
  function LenOf(s: seq<Slot>, id: U8, n: nat): nat
    requires n <= |s|
  {
    if n == 0 then 0 else LenOf(s, id, n - 1) + if s[n - 1].len != 0 && s[n - 1].id == id then s[n - 1].len else 0
  }

  /** The total field of the last stored slot of an id among the first n. */
  function TotalOf(s: seq<Slot>, id: U8, n: nat): U8
    requires n <= |s|
  {
    if n == 0 then 0
    else if s[n - 1].len != 0 && s[n - 1].id == id then s[n - 1].total else TotalOf(s, id, n - 1)
  }

  /** Parts 1 .. n joined; None when one is missing. */
  function Joined(s: Slots, id: U8, n: nat): Option<string>
    requires n <= 255
  {
    if n == 0 then Some("")
    else match Joined(s, id, n - 1)
      case None => None
      case Some(front) =>
        var i := Find(s, id, n);
        if i == BUF_LEN then None else Some(front + s[i].buffer.value)
  }

  /** ms_get: the text and the length it returns, or None for its zero. */
  function Get(s: Slots, id: U8): Option<(string, nat)>
  {
    var len := LenOf(s, id, BUF_LEN);
    if len == 0 then None
    else match Joined(s, id, TotalOf(s, id, BUF_LEN))
      case None => None
      case Some(text) => Some((text, len))
  }

  function Wiped(x: Slot, id: U8): Slot
  {
    if x.id == id then x.(id := 0, order := 0, buffer := None, len := 0) else x
  }

  function Deleted(s: Slots, id: U8): Slots { seq(BUF_LEN, i requires 0 <= i < BUF_LEN => Wiped(s[i], id)) }

  // ---- the module itself ----

  class Msms {
    const slots: array<Slot>

    ghost predicate Valid()
      reads this
    {
      slots.Length == BUF_LEN
    }

    constructor ()
      ensures Valid() && fresh(slots) && slots[..] == seq(BUF_LEN, _ => EMPTY)
    {
      slots := new Slot[BUF_LEN](_ => EMPTY);
    }

    method Init()
      requires Valid()
      modifies slots
      ensures forall i :: 0 <= i < BUF_LEN ==> slots[i] == old(slots[i]).(len := 0, buffer := None)
    {
      var i := 0;
      while i < BUF_LEN
        invariant i <= BUF_LEN
        invariant forall j :: 0 <= j < BUF_LEN ==>
                    slots[j] == if j < i then old(slots[j]).(len := 0, buffer := None) else old(slots[j])
      {
        slots[i] := slots[i].(len := 0, buffer := None);
        i := i + 1;
      }
    }

    /** The first slot of zero length, or -1. */
    method ScanFree() returns (r: int)
      requires Valid()
      ensures r == if FirstFree(slots[..]) < BUF_LEN then FirstFree(slots[..]) else -1
    {
      var i := 0;
      while i < BUF_LEN
        invariant i <= BUF_LEN
        invariant forall j :: 0 <= j < i ==> slots[j].len != 0
      {
        if slots[i].len == 0 {
          FirstFreeIs(slots[..], i);
          return i;
        }
        i := i + 1;
      }
      FirstFreeIs(slots[..], BUF_LEN);
      return -1;
    }

    method GetFreeBuf(id: U8) returns (r: int)
      requires Valid()
      modifies slots
      ensures slots[..] == Freed(old(slots[..]), id)
      ensures r == if FirstFree(slots[..]) < BUF_LEN then FirstFree(slots[..]) else -1
    {
      r := ScanFree();
      if r >= 0 {
        return;
      }
      ghost var s := slots[..];
      var i := 0;
      while i < BUF_LEN
        invariant i <= BUF_LEN
        invariant forall j :: 0 <= j < BUF_LEN ==> slots[j] == if j < i then Evict(s[j], id) else s[j]
      {
        if slots[i].id != id {
          slots[i] := slots[i].(buffer := None, len := 0);
        }
        i := i + 1;
      }
      r := ScanFree();
    }

    method FindInBuf(id: U8, order: U8) returns (r: int)
      requires Valid()
      ensures r == if Find(slots[..], id, order) < BUF_LEN then Find(slots[..], id, order) else -1
    {
      var i := 0;
      while i < BUF_LEN
        invariant i <= BUF_LEN
        invariant forall j :: 0 <= j < i ==> !(slots[j].id == id && slots[j].order == order && slots[j].buffer.Some?)
      {
        if slots[i].id == id && slots[i].order == order {
          if slots[i].buffer != None {
            FindIs(slots[..], id, order, i);
            return i;
          }
        }
        i := i + 1;
      }
      FindIs(slots[..], id, order, BUF_LEN);
      return -1;
    }

    method Incomming(p: Part) returns (r: Result)
      requires Valid()
      modifies slots
      ensures (slots[..], r) == Incoming(old(slots[..]), p)
    {
      var i := GetFreeBuf(p.id);
      if i < 0 {
        return Error;
      }
      if |p.text| > PART_MAX {
        return Error;
      }
      ghost var t := slots[..];
      slots[i] := Slot(Some(p.text), p.order, p.total, p.id, |p.text|);
      ghost var u: Slots := t[i := slots[i]];
      assert slots[..] == u;
      var o: nat := 1;
      while o <= p.total
        invariant 1 <= o <= p.total as nat + 1
        invariant slots[..] == u && forall q: U8 :: 1 <= q < o ==> Find(u, p.id, q) < BUF_LEN
      {
        var f := FindInBuf(p.id, o);
        if f < 0 {
          return Wait;
        }
        o := o + 1;
      }
      return Done;
    }

    method GetText(id: U8) returns (r: Option<(string, nat)>)
      requires Valid()
      ensures r == Get(slots[..], id)
    {
      ghost var s: Slots := slots[..];
      var num: U8, len: nat, i: nat := 0, 0, 0;
      while i < BUF_LEN
        invariant i <= BUF_LEN && len == LenOf(s, id, i) && num == TotalOf(s, id, i)
      {
        if slots[i].len != 0 {
          if slots[i].id == id {
            len := len + slots[i].len;
            num := slots[i].total;
          }
        }
        i := i + 1;
      }
      if len == 0 {
        return None;
      }
      var text, o: nat := "", 1;
      while o <= num
        invariant 1 <= o <= num as nat + 1 && Joined(s, id, o - 1) == Some(text)
      {
        var mem := FindInBuf(id, o);
        if mem < 0 {
          JoinedFails(s, id, o, num);
          return None;
        }
        text := text + slots[mem].buffer.value;
        o := o + 1;
      }
      return Some((text, len));
    }

    method Delete(id: U8)
      requires Valid()
      modifies slots
      ensures slots[..] == Deleted(old(slots[..]), id)
    {
      ghost var s := slots[..];
      var i := 0;
      while i < BUF_LEN
        invariant i <= BUF_LEN
        invariant forall j :: 0 <= j < BUF_LEN ==> slots[j] == if j < i then Wiped(s[j], id) else s[j]
      {
        if slots[i].id == id {
          slots[i] := slots[i].(id := 0, order := 0, buffer := None, len := 0);
        }
        i := i + 1;
      }
    }
  }

  lemma FirstFreeIs(s: seq<Slot>, i: nat)
    requires i <= |s| && (forall j :: 0 <= j < i ==> s[j].len != 0) && (i < |s| ==> s[i].len == 0)
    ensures FirstFree(s) == i
  {
  }

  lemma FindIs(s: seq<Slot>, id: U8, order: U8, i: nat)
    requires i <= |s|
    requires forall j :: 0 <= j < i ==> !(s[j].id == id && s[j].order == order && s[j].buffer.Some?)
    requires i < |s| ==> s[i].id == id && s[i].order == order && s[i].buffer.Some?
    ensures Find(s, id, order) == i
  {
    if i > 0 {
      FindIs(s[1..], id, order, i - 1);
    }
  }

  lemma {:induction false} JoinedFails(s: Slots, id: U8, o: nat, n: nat)
    requires 1 <= o <= n <= 255 && Find(s, id, o) == BUF_LEN
    ensures Joined(s, id, n) == None
  {
    if o < n {
      JoinedFails(s, id, o, n - 1);
    }
  }

  // ---- reassembly does not depend on the order of arrival ----

  /** Stored parts are non-empty, and an empty slot has no buffer: kept while no part is empty. */
  predicate Clean(s: Slots)
  {
    forall i :: 0 <= i < BUF_LEN ==>
      (s[i].len != 0 <==> s[i].buffer.Some?) && (s[i].buffer.Some? ==> s[i].len == |s[i].buffer.value|)
  }

  /** Message id of total parts: exactly the parts in got are stored, once each. */
  ghost predicate Holds(s: Slots, id: U8, total: U8, got: map<U8, string>)
  {
    && (forall i :: 0 <= i < BUF_LEN && s[i].id == id && s[i].buffer.Some? ==>
          s[i].order in got && s[i].buffer.value == got[s[i].order] && s[i].total == total)
    && (forall o :: o in got ==> 1 <= o <= total && Find(s, id, o) < BUF_LEN)
    && (forall i, j :: 0 <= i < j < BUF_LEN && s[i].id == s[j].id == id && s[i].buffer.Some? && s[j].buffer.Some?
          ==> s[i].order != s[j].order)
  }

  /** No part 1 .. total is missing. */
  ghost predicate AllThere(got: map<U8, string>, total: nat)
  {
    forall o: U8 :: 1 <= o <= total ==> o in got
  }

  predicate GoodPart(p: Part) { 1 <= |p.text| <= PART_MAX }

  lemma {:induction false} FindStays(s: Slots, i: nat, x: Slot, id: U8, o: U8)
    requires i < BUF_LEN && s[i].buffer.None? && Find(s, id, o) < BUF_LEN
    ensures Find(s[i := x], id, o) < BUF_LEN
  {
    var k := Find(s, id, o);
    var t := s[i := x];
    assert t[k] == s[k];
  }

  /** Part o is there after one more is put into slot i, exactly when it was there or is that one. */
  lemma FoundAfter(s: Slots, i: nat, x: Slot, id: U8, total: U8, got: map<U8, string>, o: U8)
    requires Holds(s, id, total, got) && i < BUF_LEN && s[i].buffer.None? && x.buffer.Some?
    ensures Find(s[i := x], id, o) < BUF_LEN <==> o in got || (x.id == id && x.order == o)
  {
    var t := s[i := x];
    if o in got {
      FindStays(s, i, x, id, o);
    }
    if x.id == id && x.order == o {
      assert t[i].buffer.Some?;
    }
    if Find(t, id, o) < BUF_LEN {
      var k := Find(t, id, o);
      assert k != i ==> t[k] == s[k];
    }
  }

  /** The parts held, with one more put into an empty slot. */
  lemma HoldsAfter(s: Slots, i: nat, x: Slot, id: U8, total: U8, got: map<U8, string>)
    requires Holds(s, id, total, got) && i < BUF_LEN && s[i].buffer.None? && x.buffer.Some?
    requires x.id == id ==> x.total == total && 1 <= x.order <= total && x.order !in got
    ensures Holds(s[i := x], id, total, if x.id == id then got[x.order := x.buffer.value] else got)
    ensures x.id == id ==>
              (Complete(s[i := x], id, total) <==> AllThere(got[x.order := x.buffer.value], total))
  {
    var t := s[i := x];
    forall o: U8 ensures Find(t, id, o) < BUF_LEN <==> o in got || (x.id == id && x.order == o) {
      FoundAfter(s, i, x, id, total, got, o);
    }
  }

  /** One arrival into a free slot. */
  lemma {:induction false} ArrivalKeeps(s: Slots, p: Part, id: U8, total: U8, got: map<U8, string>)
    requires Clean(s) && Holds(s, id, total, got) && FirstFree(s) < BUF_LEN && GoodPart(p)
    requires p.id == id ==> p.total == total && 1 <= p.order <= total && p.order !in got
    ensures var (t, r) := Incoming(s, p);
            var got' := if p.id == id then got[p.order := p.text] else got;
            && Clean(t) && Holds(t, id, total, got')
            // DONE comes exactly with the last missing part
            && (p.id == id ==> (r == Done <==> AllThere(got', total)) && r != Error)
  {
    var i := FirstFree(s);
    var x := Slot(Some(p.text), p.order, p.total, p.id, |p.text|);
    assert Incoming(s, p).0 == s[i := x];
    HoldsAfter(s, i, x, id, total, got);
  }

  function Feed(s: Slots, parts: seq<Part>): Slots
  {
    if parts == [] then s else Incoming(Feed(s, parts[..|parts| - 1]), parts[|parts| - 1]).0
  }

  /** At every arrival a slot is free, so nothing is evicted. */
  predicate Room(s: Slots, parts: seq<Part>)
  {
    parts == [] || (Room(s, parts[..|parts| - 1]) && FirstFree(Feed(s, parts[..|parts| - 1])) < BUF_LEN)
  }

  /** What has arrived of one message. */
  function Arrived(parts: seq<Part>, id: U8): map<U8, string>
  {
    if parts == [] then map[]
    else
      var front, p := Arrived(parts[..|parts| - 1], id), parts[|parts| - 1];
      if p.id == id then front[p.order := p.text] else front
  }

  /** Parts of this message carry its total, have numbers 1 .. total and come once each. */
  ghost predicate Proper(parts: seq<Part>, id: U8, total: U8)
  {
    && (forall k :: 0 <= k < |parts| ==> GoodPart(parts[k]))
    && (forall k :: 0 <= k < |parts| && parts[k].id == id ==> parts[k].total == total && 1 <= parts[k].order <= total)
    && (forall j, k :: 0 <= j < k < |parts| && parts[j].id == parts[k].id == id ==> parts[j].order != parts[k].order)
  }

  lemma {:induction false} ArrivedFrom(parts: seq<Part>, id: U8)
    ensures forall o :: o in Arrived(parts, id) ==> exists k :: 0 <= k < |parts| && parts[k].id == id && parts[k].order == o
  {
    if parts != [] {
      var front := parts[..|parts| - 1];
      ArrivedFrom(front, id);
      forall o | o in Arrived(parts, id) ensures exists k :: 0 <= k < |parts| && parts[k].id == id && parts[k].order == o {
        if o in Arrived(front, id) {
          var k :| 0 <= k < |front| && front[k].id == id && front[k].order == o;
          assert parts[k] == front[k];
        } else {
          assert parts[|parts| - 1].order == o;
        }
      }
    }
  }

  lemma {:induction false} FrontIsProper(parts: seq<Part>, id: U8, total: U8)
    requires parts != [] && Proper(parts, id, total)
    ensures Proper(parts[..|parts| - 1], id, total)
    ensures var p := parts[|parts| - 1];
            GoodPart(p) && (p.id == id ==> p.total == total && 1 <= p.order <= total
                                           && p.order !in Arrived(parts[..|parts| - 1], id))
  {
    var front := parts[..|parts| - 1];
    ArrivedFrom(front, id);
    assert forall k :: 0 <= k < |front| ==> front[k] == parts[k];
  }

  ghost predicate AllFree(s: Slots)
  {
    forall i :: 0 <= i < BUF_LEN ==> s[i].len == 0 && s[i].buffer.None?
  }

  /** From empty slots, parts of many messages interleaved at will: every message is held as arrived. */
  lemma {:induction false} FeedHolds(s: Slots, parts: seq<Part>, id: U8, total: U8)
    requires AllFree(s) && Proper(parts, id, total) && Room(s, parts)
    ensures Clean(Feed(s, parts)) && Holds(Feed(s, parts), id, total, Arrived(parts, id))
  {
    if parts != [] {
      var front, p := parts[..|parts| - 1], parts[|parts| - 1];
      FrontIsProper(parts, id, total);
      FeedHolds(s, front, id, total);
      ArrivalKeeps(Feed(s, front), p, id, total, Arrived(front, id));
    }
  }

  /** An arrival answers DONE exactly when it was the last missing part of its message. */
  lemma {:induction false} DoneAtLastPart(s: Slots, parts: seq<Part>, id: U8, total: U8)
    requires AllFree(s) && Proper(parts, id, total) && Room(s, parts)
    requires parts != [] && parts[|parts| - 1].id == id
    ensures Incoming(Feed(s, parts[..|parts| - 1]), parts[|parts| - 1]).1 ==
            if AllThere(Arrived(parts, id), total) then Done else Wait
  {
    var front, p := parts[..|parts| - 1], parts[|parts| - 1];
    FrontIsProper(parts, id, total);
    FeedHolds(s, front, id, total);
    ArrivalKeeps(Feed(s, front), p, id, total, Arrived(front, id));
  }

  /** The parts in number order. */
  ghost function Text(got: map<U8, string>, n: nat): string
    requires n <= 255 && AllThere(got, n)
  {
    if n == 0 then "" else Text(got, n - 1) + got[n]
  }

  lemma {:induction false} JoinedIsText(s: Slots, id: U8, total: U8, got: map<U8, string>, n: nat)
    requires Holds(s, id, total, got) && n <= total && AllThere(got, total)
    ensures Joined(s, id, n) == Some(Text(got, n))
  {
    if n > 0 {
      JoinedIsText(s, id, total, got, n - 1);
    }
  }

  /** The length of the parts 1 .. n that are in got. */
  function Size(got: map<U8, string>, n: nat): nat
    requires n <= 255
  {
    if n == 0 then 0 else Size(got, n - 1) + if n in got then |got[n]| else 0
  }

  lemma {:induction false} SizeGrows(got: map<U8, string>, o: U8, text: string, n: nat)
    requires n <= 255 && 1 <= o && o !in got
    ensures Size(got[o := text], n) == Size(got, n) + if o <= n then |text| else 0
  {
    if n > 0 {
      SizeGrows(got, o, text, n - 1);
    }
  }

  /** The parts of a message found in the first n slots. */
  ghost function InSlots(s: Slots, id: U8, n: nat): map<U8, string>
    requires n <= BUF_LEN
  {
    if n == 0 then map[]
    else
      var front := InSlots(s, id, n - 1);
      if s[n - 1].id == id && s[n - 1].buffer.Some? then front[s[n - 1].order := s[n - 1].buffer.value] else front
  }

  lemma {:induction false} InSlotsHas(s: Slots, id: U8, n: nat, o: U8)
    requires n <= BUF_LEN
    ensures o in InSlots(s, id, n) <==> exists i :: 0 <= i < n && s[i].id == id && s[i].buffer.Some? && s[i].order == o
  {
    if n > 0 {
      InSlotsHas(s, id, n - 1, o);
    }
  }

  lemma {:induction false} InSlotsIs(s: Slots, id: U8, total: U8, got: map<U8, string>, n: nat)
    requires Clean(s) && Holds(s, id, total, got) && n <= BUF_LEN
    ensures var m := InSlots(s, id, n);
            && (forall o :: o in m ==> o in got && m[o] == got[o])
            && LenOf(s, id, n) == Size(m, total)
            && (m != map[] ==> TotalOf(s, id, n) == total)
  {
    if n == 0 {
      EmptySize(total);
    } else {
      InSlotsIs(s, id, total, got, n - 1);
      var front, x := InSlots(s, id, n - 1), s[n - 1];
      if x.id == id && x.buffer.Some? {
        InSlotsHas(s, id, n - 1, x.order);
        assert x.order in got && x.order !in front;
        SizeGrows(front, x.order, x.buffer.value, total);
      }
    }
  }

  lemma {:induction false} EmptySize(n: nat)
    requires n <= 255
    ensures Size(map[], n) == 0
  {
    if n > 0 {
      EmptySize(n - 1);
    }
  }

  lemma {:induction false} TextSize(got: map<U8, string>, n: nat)
    requires n <= 255 && AllThere(got, n)
    ensures |Text(got, n)| == Size(got, n)
  {
    if n > 0 {
      TextSize(got, n - 1);
    }
  }

  /** With all parts stored, ms_get returns their concatenation in part order and its length. */
  lemma {:induction false} GetExact(s: Slots, id: U8, total: U8, got: map<U8, string>)
    requires Clean(s) && Holds(s, id, total, got) && total >= 1
    requires AllThere(got, total)
    ensures Get(s, id) == Some((Text(got, total), |Text(got, total)|))
  {
    InSlotsIs(s, id, total, got, BUF_LEN);
    var m := InSlots(s, id, BUF_LEN);
    forall o | o in got ensures o in m {
      var k := Find(s, id, o);
      assert s[k].id == id && s[k].buffer.Some? && s[k].order == o;
      InSlotsHas(s, id, BUF_LEN, o);
    }
    assert m == got;
    JoinedIsText(s, id, total, got, total);
    TextSize(got, total);
    assert 1 in got;
    var k := Find(s, id, 1);
    LenPositive(s, id, BUF_LEN, k);
  }

  lemma {:induction false} LenPositive(s: Slots, id: U8, n: nat, k: nat)
    requires k < n <= BUF_LEN && s[k].len != 0 && s[k].id == id
    ensures LenOf(s, id, n) > 0
  {
    if k < n - 1 {
      LenPositive(s, id, n - 1, k);
    }
  }

  // ---- parts stored twice ----

  /** A stored part of the message with an earlier slot of the same number. */
  predicate Copy(s: Slots, id: U8, i: nat)
    requires i < BUF_LEN
  {
    s[i].id == id && s[i].buffer.Some? && Find(s, id, s[i].order) != i
  }

  function Uncopied(s: Slots, id: U8): Slots
  {
    seq(BUF_LEN, i requires 0 <= i < BUF_LEN => if Copy(s, id, i) then s[i].(buffer := None, len := 0) else s[i])
  }

  function CopiedLen(s: Slots, id: U8, n: nat): nat
    requires n <= BUF_LEN
  {
    if n == 0 then 0 else CopiedLen(s, id, n - 1) + if Copy(s, id, n - 1) then s[n - 1].len else 0
  }

  /** Message id of total parts: the parts in got are stored, any of them perhaps more than once. */
  ghost predicate Stores(s: Slots, id: U8, total: U8, got: map<U8, string>)
  {
    && (forall i :: 0 <= i < BUF_LEN && s[i].id == id && s[i].buffer.Some? ==> s[i].order in got && s[i].total == total)
    && (forall o :: o in got ==>
          1 <= o <= total && Find(s, id, o) < BUF_LEN && s[Find(s, id, o)].buffer.value == got[o])
  }

  lemma {:induction false} FindFirst(s: seq<Slot>, id: U8, order: U8, j: nat)
    requires j < |s| && s[j].id == id && s[j].order == order && s[j].buffer.Some?
    ensures Find(s, id, order) <= j
  {
    if Find(s, id, order) > 0 && j > 0 {
      FindFirst(s[1..], id, order, j - 1);
    }
  }

  lemma FindUncopied(s: Slots, id: U8, o: U8)
    ensures Find(Uncopied(s, id), id, o) == Find(s, id, o)
  {
    FindIs(Uncopied(s, id), id, o, Find(s, id, o));
  }

  lemma UncopiedHolds(s: Slots, id: U8, total: U8, got: map<U8, string>)
    requires Clean(s) && Stores(s, id, total, got)
    ensures Clean(Uncopied(s, id)) && Holds(Uncopied(s, id), id, total, got)
  {
    forall o | o in got ensures Find(Uncopied(s, id), id, o) == Find(s, id, o) {
      FindUncopied(s, id, o);
    }
  }

  lemma {:induction false} LenUncopied(s: Slots, id: U8, n: nat)
    requires Clean(s) && n <= BUF_LEN
    ensures LenOf(s, id, n) == LenOf(Uncopied(s, id), id, n) + CopiedLen(s, id, n)
    ensures CopiedLen(s, id, n) == 0 <==> forall i :: 0 <= i < n ==> !Copy(s, id, i)
  {
    if n > 0 {
      LenUncopied(s, id, n - 1);
    }
  }

  lemma {:induction false} JoinedUncopied(s: Slots, id: U8, n: nat)
    requires n <= 255
    ensures Joined(s, id, n) == Joined(Uncopied(s, id), id, n)
  {
    if n > 0 {
      JoinedUncopied(s, id, n - 1);
      FindUncopied(s, id, n);
    }
  }

  lemma {:induction false} TotalIs(s: Slots, id: U8, total: U8, n: nat)
    requires n <= BUF_LEN && Clean(s)
    requires forall i :: 0 <= i < BUF_LEN && s[i].id == id && s[i].buffer.Some? ==> s[i].total == total
    ensures LenOf(s, id, n) > 0 ==> TotalOf(s, id, n) == total
  {
    if n > 0 {
      TotalIs(s, id, total, n - 1);
    }
  }

  ghost predicate StoredOnce(s: Slots, id: U8)
  {
    forall i, j :: 0 <= i < j < BUF_LEN && s[i].id == s[j].id == id && s[i].buffer.Some? && s[j].buffer.Some?
      ==> s[i].order != s[j].order
  }

  /** Slots with the same joined text and total, and more stored length. */
  lemma {:induction false} GetFrom(s: Slots, t: Slots, id: U8, text: string, extra: nat)
    requires Get(t, id) == Some((text, |text|))
    requires LenOf(s, id, BUF_LEN) == LenOf(t, id, BUF_LEN) + extra
    requires TotalOf(s, id, BUF_LEN) == TotalOf(t, id, BUF_LEN)
    requires Joined(s, id, TotalOf(s, id, BUF_LEN)) == Joined(t, id, TotalOf(s, id, BUF_LEN))
    ensures Get(s, id) == Some((text, |text| + extra))
  {
  }

  lemma {:induction false} TotalsAgree(s: Slots, t: Slots, id: U8, total: U8, got: map<U8, string>)
    requires Clean(s) && Clean(t) && Stores(s, id, total, got) && Holds(t, id, total, got) && total >= 1 && AllThere(got, total)
    ensures TotalOf(s, id, BUF_LEN) == TotalOf(t, id, BUF_LEN) == total
  {
    assert 1 in got;
    var j, k := Find(s, id, 1), Find(t, id, 1);
    LenPositive(s, id, BUF_LEN, j);
    LenPositive(t, id, BUF_LEN, k);
    TotalIs(s, id, total, BUF_LEN);
    TotalIs(t, id, total, BUF_LEN);
  }

  lemma {:induction false} GetUncopied(s: Slots, t: Slots, id: U8, total: U8, got: map<U8, string>)
    requires Clean(t) && Holds(t, id, total, got) && total >= 1 && AllThere(got, total)
    requires TotalOf(s, id, BUF_LEN) == TotalOf(t, id, BUF_LEN) == total
    requires LenOf(s, id, BUF_LEN) == LenOf(t, id, BUF_LEN) + CopiedLen(s, id, BUF_LEN)
    requires Joined(s, id, total) == Joined(t, id, total)
    ensures Get(s, id) == Some((Text(got, total), |Text(got, total)| + CopiedLen(s, id, BUF_LEN)))
  {
    GetExact(t, id, total, got);
    GetFrom(s, t, id, Text(got, total), CopiedLen(s, id, BUF_LEN));
  }

  /**
   With all parts stored, some of them perhaps twice, ms_get returns the concatenation; the length it returns
   is that of the text if and only if no part is stored twice, and larger otherwise.
   */
  lemma {:induction false} GetLengthExact(s: Slots, id: U8, total: U8, got: map<U8, string>)
    requires Clean(s) && Stores(s, id, total, got) && total >= 1 && AllThere(got, total)
    ensures Get(s, id) == Some((Text(got, total), |Text(got, total)| + CopiedLen(s, id, BUF_LEN)))
    ensures CopiedLen(s, id, BUF_LEN) == 0 <==> StoredOnce(s, id)
  {
    UncopiedHolds(s, id, total, got);
    LenUncopied(s, id, BUF_LEN);
    JoinedUncopied(s, id, total);
    TotalsAgree(s, Uncopied(s, id), id, total, got);
    GetUncopied(s, Uncopied(s, id), id, total, got);
    CopyExact(s, id);
  }

  lemma CopyExact(s: Slots, id: U8)
    ensures StoredOnce(s, id) <==> forall i :: 0 <= i < BUF_LEN ==> !Copy(s, id, i)
  {
    if i: nat :| i < BUF_LEN && Copy(s, id, i) {
      FindFirst(s, id, s[i].order, i);
    } else {
      forall i, j | 0 <= i < j < BUF_LEN && s[i].id == s[j].id == id && s[i].buffer.Some? && s[j].buffer.Some?
        ensures s[i].order != s[j].order
      {
        assert !Copy(s, id, i) && !Copy(s, id, j);
      }
    }
  }

  /** From empty slots these parts, with whatever else in between, deliver the whole message. */
  ghost predicate Delivers(s: Slots, parts: seq<Part>, id: U8, total: U8, got: map<U8, string>)
  {
    && AllFree(s) && Proper(parts, id, total) && Room(s, parts)
    && total >= 1 && got == Arrived(parts, id) && AllThere(got, total)
  }

  /** Two arrival orders of the same parts, with whatever else in between, give the same text. */
  lemma OrderIndependence(s: Slots, a: seq<Part>, b: seq<Part>, id: U8, total: U8, got: map<U8, string>)
    requires Delivers(s, a, id, total, got) && Delivers(s, b, id, total, got)
    ensures Get(Feed(s, a), id) == Get(Feed(s, b), id) == Some((Text(got, total), |Text(got, total)|))
  {
    FeedHolds(s, a, id, total);
    FeedHolds(s, b, id, total);
    GetExact(Feed(s, a), id, total, got);
    GetExact(Feed(s, b), id, total, got);
  }

  /** A stored part goes only by delete of its id, or when all slots are used and another id arrives. */
  lemma PartStays(s: Slots, i: nat, p: Part, id: U8)
    requires i < BUF_LEN && s[i].len != 0
    ensures Incoming(s, p).0[i] == s[i] <==> FirstFree(s) < BUF_LEN || p.id == s[i].id
    ensures Deleted(s, id)[i] == s[i] <==> id != s[i].id
  {
    if FirstFree(s) == BUF_LEN && p.id != s[i].id {
      var t := Freed(s, p.id);
      assert t[i].len == 0;
    }
  }

  // ---- refusals and deletes ----

  /** A part is refused exactly when it is too long or every slot holds a part of its own message. */
  lemma RefusedExact(s: Slots, p: Part)
    ensures Incoming(s, p).1 == Error <==>
              |p.text| > 160 || forall i :: 0 <= i < BUF_LEN ==> s[i].len != 0 && s[i].id == p.id
  {
    var t := Freed(s, p.id);
    if i: nat :| i < BUF_LEN && !(s[i].len != 0 && s[i].id == p.id) {
      if FirstFree(s) == BUF_LEN {
        assert t[i].len == 0;
      }
    }
  }

  /** No slot in front of the found one is such a part. */
  lemma {:induction false} FindBefore(s: seq<Slot>, id: U8, order: U8)
    ensures forall j :: 0 <= j < Find(s, id, order) ==> !(s[j].id == id && s[j].order == order && s[j].buffer.Some?)
  {
    if Find(s, id, order) > 0 {
      FindBefore(s[1..], id, order);
      forall j | 0 <= j < Find(s, id, order) ensures !(s[j].id == id && s[j].order == order && s[j].buffer.Some?) {
        assert j > 0 ==> s[j] == s[1..][j - 1];
      }
    }
  }

  lemma FindDeleted(s: Slots, id: U8, other: U8, o: U8)
    requires other != id
    ensures Find(Deleted(s, id), other, o) == Find(s, other, o)
  {
    var t, i := Deleted(s, id), Find(s, other, o);
    assert forall j :: 0 <= j < BUF_LEN ==> t[j] == Wiped(s[j], id);
    FindBefore(s, other, o);
    FindIs(t, other, o, i);
  }

  lemma {:induction false} LenDeleted(s: Slots, id: U8, other: U8, n: nat)
    requires n <= BUF_LEN
    ensures LenOf(Deleted(s, id), other, n) == if other == id then 0 else LenOf(s, other, n)
    ensures other != id ==> TotalOf(Deleted(s, id), other, n) == TotalOf(s, other, n)
  {
    if n > 0 {
      LenDeleted(s, id, other, n - 1);
    }
  }

  lemma {:induction false} JoinedDeleted(s: Slots, id: U8, other: U8, n: nat)
    requires n <= 255 && other != id
    ensures Joined(Deleted(s, id), other, n) == Joined(s, other, n)
  {
    if n > 0 {
      JoinedDeleted(s, id, other, n - 1);
      FindDeleted(s, id, other, n);
    }
  }

  /** A delete frees every slot of its message and no other, and leaves what any other message reads as alone. */
  lemma DeleteExact(s: Slots, id: U8, other: U8)
    ensures Get(Deleted(s, id), other) == if other == id then None else Get(s, other)
    ensures forall i :: 0 <= i < BUF_LEN ==>
              (Deleted(s, id)[i].len == 0 <==> s[i].len == 0 || s[i].id == id)
              && (s[i].id == id ==> Deleted(s, id)[i].buffer == None)
  {
    LenDeleted(s, id, other, BUF_LEN);
    if other != id {
      JoinedDeleted(s, id, other, TotalOf(s, other, BUF_LEN));
    }
  }
}
