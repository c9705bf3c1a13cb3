/**
 ut/app_crc/main.c: the first pass collects the info page and runs the CRC over the application,
 gaps filled with 0xFF; the second prints the patched page and everything else again.
 */
module AppCrcTool {
  import opened Machine
  import opened Layout
  import opened IhexRoundTrip
  import Checksums
  import CrcGap
  import Ihex

  /** How a call of the tool ends: with a value, in a fatal error, or in a write behind an array. */
  datatype Ended<T> = Fine(value: T) | Fatal | Overrun

  /** The two address tests of _compute_crc, their sums in 32 bits. */
  predicate InInfo(r: Chunk) { r.addr >= INFO && End(r.addr, |r.data|) < START }

  predicate InApp(r: Chunk) { START <= r.addr && End(r.addr, |r.data|) <= START + APP_MAX }

  /** A record of the info page, one of the application: its end does not wrap. */
  ghost predicate InfoRecord(r: Chunk) { InInfo(r) && NoWrap(r.addr, |r.data|) }

  ghost predicate AppRecord(r: Chunk) { InApp(r) && NoWrap(r.addr, |r.data|) }

  /** The static variables of the first pass. */
  datatype Pass = Pass(page: seq<U8>, infoSize: nat, crc: bv32, size: nat, dest: nat)

  ghost predicate Wf(p: Pass) { |p.page| == PAGE }

  function Begin(): (p: Pass)
    ensures Wf(p)
  {
    Pass(Erased(PAGE), 0, Checksums.CRC_START, 0, 0)
  }

  function NoDevice(page: seq<U8>): bool
    requires |page| == PAGE
  {
    page[8] == 0xFF && page[9] == 0xFF
  }

  /** The state once a record of the info page is written. */
  function Noted(p: Pass, r: Chunk): Pass
    requires |p.page| == PAGE && INFO <= r.addr && r.addr - INFO + |r.data| <= PAGE
  {
    var a := r.addr - INFO;
    var n := a + |r.data|;
    p.(page := Overwrite(p.page, a, r.data), infoSize := if n > p.infoSize then n else p.infoSize)
  }

  /** _compute_crc on one record. */
  function Take(p: Pass, r: Chunk): (q: Ended<Pass>)
    requires |p.page| == PAGE
    ensures q.Fine? ==> Wf(q.value)
  {
    if InInfo(r) then
      if r.addr - INFO + |r.data| > PAGE then Overrun else Fine(Noted(p, r))
    else if !InApp(r) || NoDevice(p.page) || p.infoSize == 0 || (p.dest != 0 && r.addr < p.dest) then Fatal
    else
      var gap := if p.dest == 0 then [] else Erased(r.addr - p.dest);
      var end := End(r.addr, |r.data|);
      Fine(p.(crc := Checksums.Crc(Checksums.Crc(p.crc, gap), r.data), size := end - START, dest := end))
  }

  /** What the first test lets through is written inside the page exactly when its end does not wrap. */
  lemma InfoExact(p: Pass, r: Chunk)
    requires Wf(p) && InInfo(r)
    ensures Take(p, r).Fine? <==> NoWrap(r.addr, |r.data|)
    ensures !NoWrap(r.addr, |r.data|) ==> Take(p, r) == Overrun
  {
  }

  /** Sixteen bytes at 0xFFFFFFF8 pass that test. */
  lemma InfoWraps(p: Pass, data: seq<U8>)
    requires Wf(p) && |data| == 16
    ensures Take(p, Chunk(0xFFFF_FFF8, data)) == Overrun
  {
    assert Wrap(0x1_0000_0008) == Wrap(8);
  }

  function TakeAll(p: Pass, rs: seq<Chunk>): (q: Ended<Pass>)
    requires |p.page| == PAGE
    ensures q.Fine? ==> Wf(q.value)
    decreases |rs|
  {
    if rs == [] then Fine(p)
    else
      match Take(p, rs[0])
      case Fine(q) => TakeAll(q, rs[1..])
      case stop => stop
  }

  /** The page as it is printed, with the size and the CRC filled in. */
  function Patched(p: Pass): (page: seq<U8>)
    requires |p.page| == PAGE && p.size < 0x1_0000_0000
    ensures |page| == PAGE
  {
    Overwrite(Overwrite(p.page, 0, Le4(p.size)), 4, Le4(Checksums.Finish(p.crc)))
  }

  function DataOf(rs: seq<Chunk>): seq<Chunk>
  {
    if rs == [] then [] else (if InInfo(rs[0]) then [] else [rs[0]]) + DataOf(rs[1..])
  }

  /** What the tool flushes: the used part of the patched page, then the data records of its second pass. */
  function Output(p: Pass, again: seq<Chunk>): seq<Chunk>
    requires |p.page| == PAGE && p.size < 0x1_0000_0000 && p.infoSize <= PAGE
  {
    [Chunk(INFO, Patched(p)[..p.infoSize])] + DataOf(again)
  }

  // ---- the application ----

  /** An image with one more record behind it, the gap filled with 0xFF. */
  function Extend(base: nat, img: seq<U8>, r: Chunk): seq<U8>
    requires base + |img| <= r.addr
  {
    img + Erased(r.addr - base - |img|) + r.data
  }

  /** Records that never step back behind an address, none of them empty. */
  ghost predicate Ascending(end: nat, rs: seq<Chunk>)
    decreases |rs|
  {
    rs == [] || (end <= rs[0].addr && rs[0].data != [] && Ascending(rs[0].addr + |rs[0].data|, rs[1..]))
  }

  function ImageOf(base: nat, img: seq<U8>, rs: seq<Chunk>): (r: seq<U8>)
    requires Ascending(base + |img|, rs)
    ensures img <= r
    decreases |rs|
  {
    if rs == [] then img else ImageOf(base, Extend(base, img, rs[0]), rs[1..])
  }

  /**
   The input the tool is made for: records of the info page first, among them a device id, then
   the application from its start address upwards.
   */
  ghost predicate Good(infos: seq<Chunk>, datas: seq<Chunk>)
  {
    && (forall k :: 0 <= k < |infos| ==> InfoRecord(infos[k]))
    && (forall k :: 0 <= k < |datas| ==> AppRecord(datas[k]))
    && Ascending(START, datas) && datas != [] && datas[0].addr == START
    && HasDevice(infos)
  }

  ghost predicate HasDevice(infos: seq<Chunk>)
  {
    var q := TakeAll(Begin(), infos);
    q.Fine? && !NoDevice(q.value.page)
  }

  /** The application: everything from the start address on, gaps erased. */
  ghost function AppOf(datas: seq<Chunk>): seq<U8>
    requires Ascending(START, datas)
  {
    ImageOf(START, [], datas)
  }

  lemma {:induction false} TakeParts(p: Pass, a: seq<Chunk>, b: seq<Chunk>)
    requires Wf(p)
    ensures TakeAll(p, a + b) ==
            match TakeAll(p, a) case Fine(q) => TakeAll(q, b) case stop => stop
    decreases |a|
  {
    if a == [] {
      assert a + b == b;
    } else {
      assert (a + b)[0] == a[0] && (a + b)[1..] == a[1..] + b;
      match Take(p, a[0]) {
        case Fine(q) => TakeParts(q, a[1..], b);
        case _ =>
      }
    }
  }

  /** Nothing has been written behind the used part of the page. */
  ghost predicate Clean(p: Pass)
  {
    Wf(p) && p.infoSize < PAGE && forall k :: p.infoSize <= k < PAGE ==> p.page[k] == 0xFF
  }

  lemma {:induction false} InfosTaken(p: Pass, infos: seq<Chunk>)
    requires Clean(p) && forall k :: 0 <= k < |infos| ==> InfoRecord(infos[k])
    ensures var q := TakeAll(p, infos);
            && q.Fine? && Clean(q.value)
            && q.value.crc == p.crc && q.value.size == p.size && q.value.dest == p.dest
    decreases |infos|
  {
    if infos != [] {
      assert InfoRecord(infos[0]);
      InfosTaken(Take(p, infos[0]).value, infos[1..]);
    }
  }

  /** The first pass has run over the image so far, which begins at base. */
  ghost predicate Covers(p: Pass, base: nat, img: seq<U8>)
    requires START <= base
  {
    && p.crc == Checksums.Crc(Checksums.CRC_START, img) && (img != [] ==> p.size == base - START + |img|)
    && p.dest == (if img == [] then 0 else base + |img|)
  }

  lemma {:induction false} DataTaken(p: Pass, base: nat, img: seq<U8>, r: Chunk)
    requires START <= base && Wf(p) && Covers(p, base, img) && !NoDevice(p.page) && p.infoSize > 0
    requires AppRecord(r) && r.data != [] && base + |img| <= r.addr && (img == [] ==> r.addr == base)
    ensures var q := Take(p, r);
            && q.Fine? && Covers(q.value, base, Extend(base, img, r))
            && q.value.page == p.page && q.value.infoSize == p.infoSize
  {
    CrcExtends(base, img, r);
    if img == [] {
      assert Erased(0) == [];
    }
  }

  lemma {:induction false} CrcExtends(base: nat, img: seq<U8>, r: Chunk)
    requires base + |img| <= r.addr
    ensures var gap := Erased(r.addr - base - |img|);
            Checksums.Crc(Checksums.Crc(Checksums.Crc(Checksums.CRC_START, img), gap), r.data) ==
            Checksums.Crc(Checksums.CRC_START, Extend(base, img, r))
  {
    var gap := Erased(r.addr - base - |img|);
    Checksums.CrcOfParts(Checksums.CRC_START, img, gap);
    Checksums.CrcOfParts(Checksums.CRC_START, img + gap, r.data);
  }

  /** The streamed CRC and size are those of the whole application from its first record on, with its gaps erased. */
  lemma {:induction false} DatasTaken(p: Pass, base: nat, img: seq<U8>, datas: seq<Chunk>)
    requires START <= base && Wf(p) && Covers(p, base, img) && !NoDevice(p.page) && p.infoSize > 0
    requires Ascending(base + |img|, datas) && (forall k :: 0 <= k < |datas| ==> AppRecord(datas[k]))
    requires img == [] && datas != [] ==> datas[0].addr == base
    ensures var q := TakeAll(p, datas);
            && q.Fine? && Covers(q.value, base, ImageOf(base, img, datas))
            && q.value.page == p.page && q.value.infoSize == p.infoSize
    decreases |datas|
  {
    if datas != [] {
      DataTaken(p, base, img, datas[0]);
      DatasTaken(Take(p, datas[0]).value, base, Extend(base, img, datas[0]), datas[1..]);
    }
  }

  lemma {:induction false} ImageFits(img: seq<U8>, datas: seq<Chunk>)
    requires Ascending(START + |img|, datas) && |img| <= APP_MAX
    requires forall k :: 0 <= k < |datas| ==> AppRecord(datas[k])
    ensures |ImageOf(START, img, datas)| <= APP_MAX
    decreases |datas|
  {
    if datas != [] {
      ImageFits(Extend(START, img, datas[0]), datas[1..]);
    }
  }

  lemma {:induction false} NotEmpty(base: nat, img: seq<U8>, datas: seq<Chunk>)
    requires Ascending(base + |img|, datas) && datas != []
    ensures ImageOf(base, img, datas) != []
    decreases |datas|
  {
    assert Extend(base, img, datas[0]) != [];
  }

  lemma {:induction false} DataOfParts(infos: seq<Chunk>, datas: seq<Chunk>)
    requires forall k :: 0 <= k < |infos| ==> InfoRecord(infos[k])
    requires forall k :: 0 <= k < |datas| ==> AppRecord(datas[k])
    ensures DataOf(infos + datas) == datas
    decreases |infos|
  {
    if infos != [] {
      assert (infos + datas)[0] == infos[0] && (infos + datas)[1..] == infos[1..] + datas;
      DataOfParts(infos[1..], datas);
    } else {
      assert infos + datas == datas;
      DataOfDatas(datas);
    }
  }

  lemma {:induction false} DataOfDatas(datas: seq<Chunk>)
    requires forall k :: 0 <= k < |datas| ==> AppRecord(datas[k])
    ensures DataOf(datas) == datas
  {
    if datas != [] {
      assert AppRecord(datas[0]);
      DataOfDatas(datas[1..]);
      assert datas == [datas[0]] + datas[1..];
    }
  }

  /**
   The first pass over a good input: no fatal error, the info page complete, and the CRC and the
   size of the whole application.
   */
  lemma {:induction false} FirstPass(infos: seq<Chunk>, datas: seq<Chunk>)
    requires Good(infos, datas)
    ensures var q := TakeAll(Begin(), infos + datas);
            && q.Fine? && Clean(q.value) && q.value.infoSize >= 9
            && Covers(q.value, START, AppOf(datas)) && 0 < |AppOf(datas)| <= APP_MAX
            && DataOf(infos + datas) == datas
  {
    InfosTaken(Begin(), infos);
    var p := TakeAll(Begin(), infos).value;
    TakeParts(Begin(), infos, datas);
    DatasTaken(p, START, [], datas);
    NotEmpty(START, [], datas);
    ImageFits([], datas);
    DataOfParts(infos, datas);
  }

  // ---- which inputs the first pass takes ----

  /** The byte of the info page at an offset once the first n records are read. */
  function PageByte(rs: seq<Chunk>, n: nat, at: nat): U8
    requires n <= |rs|
  {
    if n == 0 then 0xFF
    else
      var r := rs[n - 1];
      if InInfo(r) && r.addr <= INFO + at < r.addr + |r.data| then r.data[INFO + at - r.addr]
      else PageByte(rs, n - 1, at)
  }

  /** Where the last application record among the first n ends; 0 without one. */
  function LastEnd(rs: seq<Chunk>, n: nat): nat
    requires n <= |rs|
  {
    if n == 0 then 0
    else if InInfo(rs[n - 1]) then LastEnd(rs, n - 1)
    else End(rs[n - 1].addr, |rs[n - 1].data|)
  }

  /**
   Record k is taken: one of the info page that does not wrap, or one of the application behind a device id and
   behind the end of the application record before it.
   */
  ghost predicate TakenAt(rs: seq<Chunk>, k: nat)
    requires k < |rs|
  {
    var r := rs[k];
    if InInfo(r) then NoWrap(r.addr, |r.data|)
    else
      && START <= r.addr && End(r.addr, |r.data|) <= START + APP_MAX
      && !(PageByte(rs, k, 8) == 0xFF && PageByte(rs, k, 9) == 0xFF)
      && LastEnd(rs, k) <= r.addr
  }

  /** The state after these records. */
  ghost predicate Follows(p: Pass, rs: seq<Chunk>)
  {
    && Wf(p) && p.page[8] == PageByte(rs, |rs|, 8) && p.page[9] == PageByte(rs, |rs|, 9)
    && (p.infoSize == 0 ==> NoDevice(p.page))
    && p.dest == LastEnd(rs, |rs|)
  }

  lemma {:induction false} FrontIs(rs: seq<Chunk>, k: nat, n: nat, at: nat)
    requires n <= k <= |rs|
    ensures PageByte(rs[..k], n, at) == PageByte(rs, n, at) && LastEnd(rs[..k], n) == LastEnd(rs, n)
    decreases n
  {
    if n > 0 {
      FrontIs(rs, k, n - 1, at);
    }
  }

  lemma TakenFront(rs: seq<Chunk>, n: nat, k: nat)
    requires k < n <= |rs|
    ensures TakenAt(rs[..n], k) <==> TakenAt(rs, k)
  {
    FrontIs(rs, n, k, 8);
    FrontIs(rs, n, k, 9);
  }

  lemma NotedFollows(p: Pass, rs: seq<Chunk>, r: Chunk)
    requires Follows(p, rs) && InInfo(r) && r.addr - INFO + |r.data| <= PAGE
    ensures Follows(Noted(p, r), rs + [r])
  {
    var more := rs + [r];
    assert more[..|rs|] == rs;
    FrontIs(more, |rs|, |rs|, 8);
    FrontIs(more, |rs|, |rs|, 9);
    OverwriteAt(p.page, r.addr - INFO, r.data, 8);
    OverwriteAt(p.page, r.addr - INFO, r.data, 9);
  }

  /** One more record of the info page on a state that follows those before it. */
  lemma TakeInfo(p: Pass, rs: seq<Chunk>, r: Chunk)
    requires Follows(p, rs) && InInfo(r)
    ensures Take(p, r).Fine? <==> TakenAt(rs + [r], |rs|)
    ensures Take(p, r).Fine? ==> Follows(Take(p, r).value, rs + [r])
  {
    InfoExact(p, r);
    if Take(p, r).Fine? {
      NotedFollows(p, rs, r);
    }
  }

  /** One more record on a state that follows those before it. */
  lemma TakeNext(p: Pass, rs: seq<Chunk>, r: Chunk)
    requires Follows(p, rs)
    ensures var more := rs + [r];
            && (Take(p, r).Fine? <==> TakenAt(more, |rs|))
            && (Take(p, r).Fine? ==> Follows(Take(p, r).value, more))
  {
    if InInfo(r) {
      TakeInfo(p, rs, r);
    } else {
      var more := rs + [r];
      assert more[..|rs|] == rs;
      FrontIs(more, |rs|, |rs|, 8);
      FrontIs(more, |rs|, |rs|, 9);
    }
  }

  /** The first pass takes exactly the inputs all of whose records are taken. */
  lemma {:induction false} TakenExact(rs: seq<Chunk>)
    ensures TakeAll(Begin(), rs).Fine? <==> forall k :: 0 <= k < |rs| ==> TakenAt(rs, k)
    ensures TakeAll(Begin(), rs).Fine? ==> Follows(TakeAll(Begin(), rs).value, rs)
  {
    if rs != [] {
      var n := |rs| - 1;
      var front, r := rs[..n], rs[n];
      TakenExact(front);
      TakeParts(Begin(), front, [r]);
      assert rs == front + [r];
      forall k | 0 <= k < n ensures TakenAt(front, k) <==> TakenAt(rs, k) {
        TakenFront(rs, n, k);
      }
      if TakeAll(Begin(), front).Fine? {
        var p := TakeAll(Begin(), front).value;
        TakeNext(p, front, r);
        assert [r][1..] == [];
      }
    }
  }

  /** Records that begin behind the start address of the application. */
  lemma {:induction false} ImageBehindGap(gap: nat, img: seq<U8>, datas: seq<Chunk>)
    requires Ascending(START + gap + |img|, datas)
    ensures Ascending(START + |Erased(gap) + img|, datas)
    ensures ImageOf(START, Erased(gap) + img, datas) == Erased(gap) + ImageOf(START + gap, img, datas)
    decreases |datas|
  {
    if datas != [] {
      var r := datas[0];
      assert Extend(START, Erased(gap) + img, r) == Erased(gap) + Extend(START + gap, img, r);
      ImageBehindGap(gap, Extend(START + gap, img, r), datas[1..]);
    }
  }

  /**
   A gap in front of the first record is counted in the size but not in the CRC: the CRC is that of the application,
   its gap erased, exactly when there is no such gap.
   */
  lemma {:induction false} LateStartExact(p: Pass, gap: nat, datas: seq<Chunk>)
    requires Wf(p) && !NoDevice(p.page) && p.infoSize > 0
    requires p.crc == Checksums.CRC_START && p.dest == 0
    requires datas != [] && Ascending(START + gap, datas) && datas[0].addr == START + gap
    requires forall k :: 0 <= k < |datas| ==> AppRecord(datas[k])
    ensures var q, app := TakeAll(p, datas), Erased(gap) + ImageOf(START + gap, [], datas);
            q.Fine? && q.value.size == |app|
            && (q.value.crc == Checksums.Crc(Checksums.CRC_START, app) <==> gap == 0)
  {
    assert AppRecord(datas[0]) && gap <= APP_MAX;
    if gap > 0 {
      CrcGap.NeverBack(Erased(gap));
    }
    var rest := ImageOf(START + gap, [], datas);
    DatasTaken(p, START + gap, [], datas);
    NotEmpty(START + gap, [], datas);
    Checksums.CrcOfParts(Checksums.CRC_START, Erased(gap), rest);
    if Checksums.Crc(Checksums.Crc(Checksums.CRC_START, Erased(gap)), rest) == Checksums.Crc(Checksums.CRC_START, rest) {
      Checksums.CrcStateInjective(Checksums.Crc(Checksums.CRC_START, Erased(gap)), Checksums.CRC_START, rest);
    }
  }

  // ---- the program ----

  class CrcTool {
    const page: array<U8>
    var infoSize: nat
    var crc: bv32
    var appSize: nat
    var destAddr: nat

    constructor ()
      ensures View() == Begin() && fresh(page) && page.Length == PAGE
    {
      page := new U8[PAGE](_ => 0xFF);
      infoSize, crc, appSize, destAddr := 0, Checksums.CRC_START, 0, 0;
      new;
      assert page[..] == Erased(PAGE);
    }

    ghost function View(): Pass
      reads this, page
    {
      Pass(page[..], infoSize, crc, appSize, destAddr)
    }

    /** The gap loop: one erased byte at a time. */
    method FillGap(addr: nat)
      requires destAddr <= addr
      modifies this`crc, this`destAddr
      ensures crc == Checksums.Crc(old(crc), Erased(addr - old(destAddr))) && destAddr == addr
    {
      ghost var start, from := crc, destAddr;
      while addr > destAddr
        invariant from <= destAddr <= addr
        invariant crc == Checksums.Crc(start, Erased(destAddr - from))
      {
        assert Erased(destAddr - from) + [0xFF] == Erased(destAddr + 1 - from);
        Checksums.CrcOfParts(start, Erased(destAddr - from), [0xFF]);
        crc := Checksums.CrcUpdate(crc, [0xFF]);
        destAddr := destAddr + 1;
      }
    }

    /** _compute_crc; after a fatal error or a write behind the page the tool is not followed further. */
    method ComputeCrc(r: Chunk) returns (e: Ended<()>)
      requires page.Length == PAGE
      modifies this, page
      ensures match Take(old(View()), r)
              case Fine(q) => e.Fine? && View() == q
              case Fatal => e == Fatal
              case Overrun => e == Overrun
    {
      var len := |r.data|;
      if r.addr >= INFO && End(r.addr, len) < START {
        var a := r.addr - INFO;
        if a + len > page.Length {
          return Overrun;
        }
        CopyInto(page, a, r.data);
        if a + len > infoSize {
          infoSize := a + len;
        }
        return Fine(());
      }
      if r.addr < START || End(r.addr, len) > START + APP_MAX {
        return Fatal;
      }
      if (page[8] == 0xFF && page[9] == 0xFF) || infoSize == 0 {
        return Fatal;
      }
      if destAddr != 0 && r.addr < destAddr {
        return Fatal;
      }
      FeedData(r);
      e := Fine(());
    }

    /** The CRC over the gap, if there is one before, and over the data. */
    method FeedData(r: Chunk)
      requires (destAddr == 0 || destAddr <= r.addr) && START <= End(r.addr, |r.data|)
      modifies this`crc, this`destAddr, this`appSize
      ensures ghost var gap := if old(destAddr) == 0 then [] else Erased(r.addr - old(destAddr));
              crc == Checksums.Crc(Checksums.Crc(old(crc), gap), r.data)
      ensures destAddr == End(r.addr, |r.data|) && appSize == destAddr - START
    {
      if destAddr != 0 {
        FillGap(r.addr);
      }
      crc := Checksums.CrcUpdate(crc, r.data);
      destAddr := End(r.addr, |r.data|);
      appSize := destAddr - START;
    }

    /** The first pass over the records of the file. */
    method Collect(rs: seq<Chunk>) returns (e: Ended<()>)
      requires page.Length == PAGE && View() == Begin()
      modifies this, page
      ensures match TakeAll(Begin(), rs)
              case Fine(q) => e.Fine? && View() == q && infoSize <= PAGE && appSize <= APP_MAX
              case Fatal => e == Fatal
              case Overrun => e == Overrun
    {
      var i := 0;
      e := Fine(());
      while i < |rs|
        invariant 0 <= i <= |rs| && e.Fine?
        invariant infoSize <= PAGE && appSize <= APP_MAX
        invariant TakeAll(Begin(), rs) == TakeAll(View(), rs[i..])
      {
        assert rs[i..][0] == rs[i] && rs[i..][1..] == rs[i + 1..];
        e := ComputeCrc(rs[i]);
        if !e.Fine? {
          return;
        }
        i := i + 1;
      }
    }

    /** _flush_data on every record: the info page is left out. */
    static method PrintData(printer: Printer, rs: seq<Chunk>)
      modifies printer
      ensures printer.out == old(printer.out) + PrintedAll(old(printer.hiWord), DataOf(rs))
    {
      var i := 0;
      ghost var total := printer.out + PrintedAll(printer.hiWord, DataOf(rs));
      assert rs[0..] == rs;
      while i < |rs|
        invariant 0 <= i <= |rs|
        invariant printer.out + PrintedAll(printer.hiWord, DataOf(rs[i..])) == total
      {
        var r := rs[i];
        ghost var rest := rs[i + 1..];
        assert rs[i..][0] == r && rs[i..][1..] == rest;
        PrintedMore(printer.out, printer.hiWord, r, rest);
        assert [r] + rest == rs[i..];
        if !InInfo(r) {
          printer.Flush(r.addr, r.data);
        }
        i := i + 1;
      }
    }

    /** main on the records its two passes over the file read. */
    method Run(rs: seq<Chunk>, again: seq<Chunk>) returns (lines: Ended<seq<Ihex.Text>>)
      requires page.Length == PAGE && View() == Begin()
      modifies this, page
      ensures match TakeAll(Begin(), rs)
              case Fine(q) =>
                q.infoSize <= PAGE && q.size <= APP_MAX && lines == Fine(PrintedAll(0, Output(q, again)) + [EOF_LINE])
              case Fatal => lines == Fatal
              case Overrun => lines == Overrun
    {
      var e := Collect(rs);
      match e {
        case Fatal => return Fatal;
        case Overrun => return Overrun;
        case Fine(_) =>
      }
      ghost var q := View();
      Patch();
      var printer := new Printer();
      PrintPage(printer);
      PrintData(printer, again);
      PrintedFirst(0, Chunk(INFO, Patched(q)[..q.infoSize]), DataOf(again));
      lines := Fine(printer.out + [EOF_LINE]);
    }

    /** The size and the CRC, written into the page. */
    method Patch()
      requires page.Length == PAGE && appSize <= APP_MAX
      modifies page
      ensures page[..] == Patched(old(View()))
    {
      CopyInto(page, 0, Le4(appSize));
      CopyInto(page, 4, Le4(Checksums.Finish(crc)));
    }

    method PrintPage(printer: Printer)
      requires page.Length == PAGE && infoSize <= PAGE && printer.hiWord == 0 && printer.out == []
      modifies printer
      ensures printer.out == Printed(0, INFO, page[..][..infoSize])
      ensures printer.hiWord == HiAfter(0, INFO, page[..][..infoSize])
    {
      var used := page[..infoSize];
      assert used == page[..][..infoSize];
      printer.Flush(INFO, used);
    }
  }

  lemma {:induction false} PrintedFirst(hi: U16, c: Chunk, rest: seq<Chunk>)
    ensures PrintedAll(hi, [c] + rest) ==
            Printed(hi, c.addr, c.data) + PrintedAll(HiAfter(hi, c.addr, c.data), rest)
  {
    assert ([c] + rest)[1..] == rest;
  }

  /** One more record of the second pass. */
  lemma {:induction false} PrintedMore(out: seq<Ihex.Text>, hi: U16, r: Chunk, rest: seq<Chunk>)
    ensures out + PrintedAll(hi, DataOf([r] + rest)) ==
            if InInfo(r) then out + PrintedAll(hi, DataOf(rest))
            else out + Printed(hi, r.addr, r.data) + PrintedAll(HiAfter(hi, r.addr, r.data), DataOf(rest))
  {
    var rs := [r] + rest;
    assert rs[0] == r && rs[1..] == rest;
    if InInfo(r) {
      assert DataOf(rs) == DataOf(rest);
    } else {
      assert DataOf(rs) == [r] + DataOf(rest);
      assert ([r] + DataOf(rest))[1..] == DataOf(rest);
    }
  }
}
