/**
 The GPS ring of app/tracer/tracer_buffer.c: 32768 record slots in flash and three
 ring indices in RAM that are lost on reboot and rebuilt by two bisections.
 */
module TracerBuffer {
  import opened Machine

  const N: nat := 32768              // BUF_STORE_LIMIT = 1 MiB / 32 B
  const PTR_INVALID: U16 := 0xFFFF
  const DELIVERED: bv8 := 1
  const VERSION: bv8 := 1

  type Position = p: seq<bv8> | |p| == 22 witness seq(22, _ => 0)

  datatype Record = Record(track: U16, point: U16, position: Position, info: U32, flags: bv8)
  datatype Slot = Slot(rec: Record, chsum: bv8)

  // ---- one record ----

  function Byte(x: U8): bv8 { x as bv8 }

  /** The 31 bytes of the packed record in front of its checksum byte. */
  function Bytes(r: Record): (b: seq<bv8>)
    ensures |b| == 31
  {
    [Byte(r.track % 256), Byte(r.track / 256), Byte(r.point % 256), Byte(r.point / 256)]
    + r.position
    + [Byte(r.info % 256), Byte(r.info / 0x100 % 256), Byte(r.info / 0x1_0000 % 256), Byte(r.info / 0x100_0000)]
    + [r.flags]
  }

  /** The packed layout: every field at its offset, numbers low byte first. */
  lemma BytesAt(r: Record)
    ensures var b := Bytes(r);
            && b[0] == Byte(r.track % 256) && b[1] == Byte(r.track / 256)
            && b[2] == Byte(r.point % 256) && b[3] == Byte(r.point / 256)
            && b[4..26] == r.position
            && b[26] == Byte(r.info % 256) && b[27] == Byte(r.info / 0x100 % 256)
            && b[28] == Byte(r.info / 0x1_0000 % 256) && b[29] == Byte(r.info / 0x100_0000)
            && b[30] == r.flags
  {
  }

  /** The byte values that the u8 loop counter of the checksum runs through. */
  const COUNTER: seq<bv8> := [0, 1, 2, 3, 4, 5, 6, 7, 8, 9, 10, 11, 12, 13, 14, 15,
                              16, 17, 18, 19, 20, 21, 22, 23, 24, 25, 26, 27, 28, 29, 30]

  function Plus(x: bv8, y: bv8): bv8 { x + y }

  /** What byte x adds at counter value c. */
  function Term(x: bv8, c: bv8): bv8 { (x ^ c) + VERSION }

  function Sum(b: seq<bv8>, n: nat): bv8
    requires n <= |b| <= 31
  {
    if n == 0 then 0 else Plus(Sum(b, n - 1), Term(b[n - 1], COUNTER[n - 1]))
  }

  function Checksum(r: Record): bv8 { Sum(Bytes(r), |Bytes(r)|) }

  /** tracer_buf_checksum */
  method ComputeChecksum(r: Record) returns (chsum: bv8)
    ensures chsum == Checksum(r)
  {
    var b := Bytes(r);
    chsum := 0;
    for i := 0 to |b|
      invariant chsum == Sum(b, i)
    {
      chsum := Plus(chsum, Term(b[i], COUNTER[i]));
    }
  }

  function Load(s: Slot): Option<Record> { if s.chsum == Checksum(s.rec) then Some(s.rec) else None }

  predicate IsDelivered(r: Record) { r.flags & DELIVERED != 0 }

  function Flagged(r: Record): (d: Record)
    ensures IsDelivered(d) && d.track == r.track && d.info == r.info
    ensures d.(flags := r.flags) == r && d.flags & 0xFE == r.flags & 0xFE
  {
    r.(flags := r.flags | DELIVERED)
  }

  const ERASED: Slot := Slot(Record(0xFFFF, 0xFFFF, seq(22, _ => 0xFF), 0xFFFF_FFFF, 0xFF), 0xFF)

  /** 0 + 1 + ... + (n - 1), wrapped to a byte. */
  function Triangle(n: nat): bv8
    requires n <= 31
  {
    if n == 0 then 0 else Plus(Triangle(n - 1), COUNTER[n - 1])
  }

  function Minus(t: bv8): bv8 { 0 - t }

  lemma StepOnErased(t: bv8, c: bv8)
    ensures Plus(Minus(t), Term(0xFF, c)) == Minus(Plus(t, c))
  {
  }

  lemma {:induction false} SumOfErased(b: seq<bv8>, n: nat)
    requires n <= |b| <= 31
    requires All(b, 0xFF)
    ensures Sum(b, n) == Minus(Triangle(n))
  {
    if n != 0 {
      SumOfErased(b, n - 1);
      StepOnErased(Triangle(n - 1), COUNTER[n - 1]);
    }
  }

  ghost predicate All(s: seq<bv8>, x: bv8) { forall k :: 0 <= k < |s| ==> s[k] == x }

  lemma AllOfParts(a: seq<bv8>, b: seq<bv8>, c: seq<bv8>, d: bv8, x: bv8)
    requires All(a, x) && All(b, x) && All(c, x) && d == x
    ensures All(a + b + c + [d], x)
  {
  }

  lemma ErasedBytes(r: Record, ones: bv8)
    requires ones == Byte(0xFF) && r.flags == ones && r.track == r.point == 0xFFFF && r.info == 0xFFFF_FFFF
    requires All(r.position, ones)
    ensures All(Bytes(r), ones)
  {
    assert r.track % 256 == r.track / 256 == 0xFF;
    assert r.info % 256 == r.info / 0x100 % 256 == r.info / 0x1_0000 % 256 == r.info / 0x100_0000 == 0xFF;
    AllOfParts([ones, ones, ones, ones], r.position, [ones, ones, ones, ones], r.flags, ones);
  }

  lemma ByteOfOnes()
    ensures Byte(0xFF) == 0xFF
  {
  }

  /** Erased flash never loads as a record. */
  lemma ErasedIsInvalid()
    ensures Load(ERASED) == None
  {
    var b := Bytes(ERASED.rec);
    ByteOfOnes();
    ErasedBytes(ERASED.rec, 0xFF);
    SumOfErased(b, 31);
    assert Triangle(2) == 1 && Triangle(4) == 6 && Triangle(6) == 15 && Triangle(8) == 28 && Triangle(10) == 45
           && Triangle(12) == 66 && Triangle(14) == 91 && Triangle(16) == 120 && Triangle(18) == 153 &&
           Triangle(20) == 190 && Triangle(22) == 231 && Triangle(24) == 20 && Triangle(26) == 69 &&
           Triangle(28) == 122 && Triangle(30) == 179 && Triangle(31) == 209;
  }

  lemma BlankIsNone(s: Slot)
    requires s == ERASED
    ensures Load(s) == None
  {
    ErasedIsInvalid();
  }

  // ---- the ring as a value, and what each operation makes of it ----

  /** What each slot loads as. */
  type Flash = f: seq<Option<Record>> | |f| == N witness seq(N, _ => None)

  datatype Ring = Ring(flash: Flash, save: nat, read: nat, lu: nat)

  /** BUF_INC_PTR */
  function Inc(p: nat): nat { if p + 1 >= N then 0 else p + 1 }

  /** The slot d places behind slot p, around the ring. */
  function Back(p: nat, d: nat): nat
    requires p < N && d <= N
  {
    if d <= p then p - d else p + N - d
  }

  function AfterStore(m: Ring, r: Record): Ring
    requires m.save < N
  {
    m.(flash := m.flash[m.save := Some(r)], save := Inc(m.save))
  }

  /** The next unread record; the read index moves only past a record that loads. */
  function ReadNext(m: Ring): (Ring, Option<(nat, Record)>)
    requires m.read < N
  {
    if m.save == m.read then (m, None)
    else match m.flash[m.read]
      case None => (m, None)
      case Some(r) => (m.(read := Inc(m.read)), Some((m.read, r)))
  }

  /** A read hands out the slot of the read index and steps past it, or stops there: read up, or not a record. */
  lemma ReadNextExact(m: Ring)
    requires m.read < N
    ensures var (t, got) := ReadNext(m);
            && (got == None <==> m.read == m.save || m.flash[m.read] == None) && (got == None ==> t == m)
            && (got.Some? ==> got.value.0 == m.read && m.flash[m.read] == Some(got.value.1)
                              && t == m.(read := if m.read == 32767 then 0 else m.read + 1))
  {
  }

  /** One turn of the marking loop: flag the oldest undelivered record, step over it. */
  function MarkOne(m: Ring): Ring
    requires m.lu < N
  {
    match m.flash[m.lu]
    case None => m.(lu := Inc(m.lu))
    case Some(r) => m.(flash := m.flash[m.lu := Some(Flagged(r))], lu := Inc(m.lu))
  }

  function MarkUpTo(m: Ring): (r: Ring)
    requires m.lu < N && m.read < N
    ensures r.lu == r.read == m.read && r.save == m.save
    decreases Back(m.read, m.lu)
  {
    if m.lu == m.read then m else MarkUpTo(MarkOne(m))
  }

  /** The probe of the first bisection: slot p loads and its track is not below slot a's. */
  predicate Good(f: Flash, p: nat, a: nat)
    requires p < N && a < N && f[a].Some?
  {
    f[p].Some? && f[p].value.track >= f[a].value.track
  }

  /** The probe of the second bisection. */
  predicate Waiting(f: Flash, p: nat)
    requires p < N
  {
    f[p].Some? && !IsDelivered(f[p].value)
  }

  /** i >> 1 */
  function Half(i: nat): (h: nat)
    ensures 2 * h <= i <= 2 * h + 1
  {
    i / 2
  }

  /** The values the halved step takes: 2^14 .. 1, then 0. */
  predicate IsStep(i: nat)
  {
    i <= 1 || (i == 2 * Half(i) && IsStep(Half(i)))
  }

  function PowerOfTwo(e: nat): nat { if e == 0 then 1 else 2 * PowerOfTwo(e - 1) }

  lemma DoubleIsStep(i: nat)
    requires IsStep(i)
    ensures IsStep(2 * i)
  {
    assert Half(2 * i) == i;
  }

  lemma {:induction false} PowerIsStep(e: nat)
    ensures 0 < PowerOfTwo(e) && IsStep(PowerOfTwo(e))
  {
    if e != 0 {
      PowerIsStep(e - 1);
      DoubleIsStep(PowerOfTwo(e - 1));
    }
  }

  lemma FirstStep(n: nat)
    requires n == N
    ensures 2 * Half(n) == N && IsStep(Half(n))
  {
    PowerIsStep(14);
    assert PowerOfTwo(14) == N / 2;
  }

  /** First bisection: slot a is good, the newest record is searched in a .. a+2i-1. */
  function Newest(f: Flash, a: nat, i: nat): (p: nat)
    requires a + 2 * i <= N && a < N && f[a].Some?
    ensures a <= p < N && f[p].Some?
    decreases i, |f|
  {
    if i == 0 then a
    else if Good(f, a + i, a) then Newest(f, a + i, Half(i))
    else Newest(f, a, Half(i))
  }

  /** The last good probe that was not delivered, or lu when none was. */
  function SeenWaiting(f: Flash, a: nat, i: nat, lu: U16): (p: U16)
    requires a + 2 * i <= N && a < N && f[a].Some?
    ensures p == lu || p < N
    decreases i, |f|
  {
    if i == 0 then lu
    else if Good(f, a + i, a) then
      SeenWaiting(f, a + i, Half(i), if IsDelivered(f[a + i].value) then lu else a + i)
    else SeenWaiting(f, a, Half(i), lu)
  }

  /** Second bisection, on the distance b back from the newest slot. */
  function Oldest(f: Flash, top: nat, b: nat, i: nat, lu: U16): (p: U16)
    requires top < N && b + 2 * i <= N
    ensures lu < N ==> p < N
    decreases i, |f|
  {
    if i == 0 then lu
    else
      var p := Back(top, b + i);
      if Waiting(f, p) then Oldest(f, top, b + i, Half(i), p) else Oldest(f, top, b, Half(i), lu)
  }

  /** A u16 result followed by the mask with BUF_STORE_LIMIT - 1. */
  method Mask(x: int) returns (p: nat)
    requires 0 <= x + N < 3 * N
    ensures p == if x < 0 then x + N else if x < N then x else x - N
  {
    p := x % 0x1_0000 % N;
  }

  datatype Recovered = Recovered(ring: Ring, track: U16, info: U32)

  /** What tracer_buf_init makes of any flash contents. */
  function Recover(f: Flash): (r: Recovered)
    ensures r.ring.flash == f
    ensures r.ring.save < N && r.ring.read == r.ring.lu < N
  {
    if f[0].None? then Recovered(Ring(f, 0, 0, 0), 0, 0)
    else
      var top := Newest(f, 0, Half(|f|));
      var seen := SeenWaiting(f, 0, Half(|f|), PTR_INVALID);
      var lu := if seen == PTR_INVALID then Inc(top) else Oldest(f, top, 0, Half(|f|), seen);
      Recovered(Ring(f, Inc(top), lu, lu), f[top].value.track, if top == 0 then 0 else f[top].value.info)
  }

  class TracerBuf {
    var flash: array<Slot>
    var read: U16
    var save: U16
    var lu: U16                  // buf_last_undelivered
    ghost var records: Flash     // what the slots load as

    ghost predicate Valid()
      reads this, flash
    {
      && flash.Length == N && read < N && save < N && lu < N
      && forall p {:trigger flash[p]} :: 0 <= p < N ==> records[p] == Load(flash[p])
    }

    ghost function View(): Ring
      reads this
    {
      Ring(records, save, read, lu)
    }

    /** Attach to whatever the flash holds; the indices start as the static zeros. */
    constructor (device: array<Slot>)
      requires device.Length == N
      ensures Valid() && flash == device && save == read == lu == 0
    {
      flash := device;
      read, save, lu := 0, 0, 0;
      records := seq(N, p requires 0 <= p < N reads device => Load(device[p]));
    }

    method Init() returns (track: U16, info: U32)
      requires Valid()
      modifies this`read, this`save, this`lu
      ensures Valid() && flash == old(flash)
      ensures Recovered(View(), track, info) == Recover(old(records))
    {
      track, info := 0, 0;
      var last: U16, top: U16 := PTR_INVALID, PTR_INVALID;
      if Load(flash[0]).Some? {
        top, track, info, last := FindNewest();
        if last != PTR_INVALID {
          last := FindOldest(top, last);
        }
      }
      save := if top == PTR_INVALID then 0 else Inc(top);
      lu := if last == PTR_INVALID then save else last;
      read := lu;
    }

    /** The first loop of tracer_buf_init; it runs only when slot 0 loads. */
    method FindNewest() returns (top: U16, track: U16, info: U32, last: U16)
      requires Valid() && records[0].Some?
      ensures top == Newest(records, 0, Half(flash.Length))
      ensures last == SeenWaiting(records, 0, Half(flash.Length), PTR_INVALID)
      ensures track == records[top].value.track && info == if top == 0 then 0 else records[top].value.info
    {
      ghost var f := records;
      FirstStep(flash.Length);
      top, last, track, info := 0, PTR_INVALID, flash[0].rec.track, 0;
      var i: nat := Half(flash.Length);
      var ptr: int := i;
      ghost var newest, waiting := Newest(f, 0, i), SeenWaiting(f, 0, i, PTR_INVALID);
      while i != 0
        invariant top < N && top + 2 * i <= N && IsStep(i) && f[top].Some?
        invariant i != 0 ==> ptr == top + i
        invariant track == f[top].value.track && info == if top == 0 then 0 else f[top].value.info
        invariant Newest(f, top, i) == newest && SeenWaiting(f, top, i, last) == waiting
      {
        var probed := Load(flash[ptr]);
        i := Half(i);
        if probed.Some? && probed.value.track >= track {
          track, info := probed.value.track, probed.value.info;
          top := ptr;
          ptr := ptr + i;
          if !IsDelivered(probed.value) {
            last := top;
          }
        } else {
          ptr := ptr - i;
        }
      }
    }

    /** One probe of the second loop: what it has seen waiting, and the slot to probe next. */
    method OldestNext(top: U16, ghost b: nat, i: nat, ptr: U16, seen: U16)
      returns (last: U16, next: U16, ghost c: nat)
      requires Valid() && top < N && seen < N
      requires 0 < i && IsStep(i) && b + 2 * i <= N && ptr == Back(top, b + i)
      ensures last < N && c + 2 * Half(i) <= N && (Half(i) != 0 ==> next == Back(top, c + Half(i)))
      ensures Oldest(records, top, c, Half(i), last) == Oldest(records, top, b, i, seen)
    {
      var probed := Load(flash[ptr]);
      if probed.Some? && !IsDelivered(probed.value) {
        c, last := b + i, ptr;
        next := Mask(ptr - Half(i));
      } else {
        c, last := b, seen;
        next := Mask(ptr + Half(i));
      }
    }

    /** The second loop of tracer_buf_init, with its u16 wrap and mask. */
    method FindOldest(top: U16, seen: U16) returns (last: U16)
      requires Valid() && top < N && seen < N
      ensures last == Oldest(records, top, 0, Half(flash.Length), seen)
    {
      FirstStep(flash.Length);
      last := seen;
      var i: nat := Half(flash.Length);
      var ptr: U16 := Mask(top - i);
      ghost var b: nat, oldest := 0, Oldest(records, top, 0, i, seen);
      while i != 0
        invariant b + 2 * i <= N && IsStep(i) && last < N
        invariant i != 0 ==> ptr == Back(top, b + i)
        invariant Oldest(records, top, b, i, last) == oldest
      {
        last, ptr, b := OldestNext(top, b, i, ptr, last);
        i := Half(i);
      }
    }

    /** The erase loop. */
    method EraseSlots(blank: Slot)
      requires flash.Length == N
      modifies flash
      ensures forall j :: 0 <= j < N ==> flash[j] == blank
    {
      var id := 0;
      while id < N
        invariant id <= N
        invariant forall j :: 0 <= j < id ==> flash[j] == blank
      {
        flash[id] := blank;
        id := id + 1;
      }
    }

    /** Erases slot after slot, then starts over at slot 0. */
    method HardErase()
      requires Valid()
      modifies this`read, this`save, this`lu, this`records, flash
      ensures Valid() && flash == old(flash)
      ensures View() == Ring(seq(N, _ => None), 0, 0, 0)
    {
      EraseSlots(ERASED);
      save, lu, read := 0, 0, 0;
      records := seq(N, _ => None);
      forall p | 0 <= p < N ensures Load(flash[p]) == None {
        BlankIsNone(flash[p]);
      }
    }

    method StorePosition(pos: Position, track: U16, point: U16, flags: bv8, info: U32)
      requires Valid()
      modifies this`save, this`records, flash
      ensures Valid() && flash == old(flash)
      ensures View() == AfterStore(old(View()), Record(track, point, pos, info, flags))
    {
      var buf := Record(track, point, pos, info, flags);
      var chsum := ComputeChecksum(buf);
      flash[save] := Slot(buf, chsum);
      records := records[save as nat := Some(buf)];
      save := Inc(save);
    }

    /** Returns the slot number, or -1 when nothing is left or the slot does not load. */
    method ReadNextRecord() returns (slot: int, r: Option<Record>)
      requires Valid()
      modifies this`read
      ensures Valid() && View() == ReadNext(old(View())).0
      ensures match ReadNext(old(View())).1
              case None => slot == -1 && r == None
              case Some((p, rec)) => slot == p && r == Some(rec)
    {
      slot, r := -1, None;
      if save != read {
        r := Load(flash[read]);
        if r.Some? {
          slot := read;
          read := Inc(read);
        }
      }
    }

    method DeliveredAll()
      requires Valid()
      modifies this`lu, this`records, flash
      ensures Valid() && flash == old(flash)
      ensures View() == MarkUpTo(old(View()))
    {
      while lu != read
        invariant Valid() && flash == old(flash) && save == old(save) && read == old(read)
        invariant MarkUpTo(View()) == MarkUpTo(old(View()))
        decreases Back(read, lu)
      {
        MarkNext();
      }
    }

    /** The body of the marking loop. */
    method MarkNext()
      requires Valid()
      modifies this`lu, this`records, flash
      ensures Valid() && flash == old(flash)
      ensures View() == MarkOne(old(View()))
    {
      var buf := Load(flash[lu]);
      if buf.Some? {
        var flagged := Flagged(buf.value);
        var chsum := ComputeChecksum(flagged);
        flash[lu] := Slot(flagged, chsum);
        records := records[lu as nat := Some(Flagged(buf.value))];
      }
      lu := Inc(lu);
    }
  }
}
