/**
 ut/app_container/main.c without encryption: the records are laid into an erased image, and the
 image is printed behind a header with both checksums.
 */
module ContainerTool {
  import opened Machine
  import opened Layout
  import opened IhexRoundTrip
  import opened AppCrcTool
  import Checksums
  import Ihex

  const NAME_LEN: nat := 16

  // ---- loading ----

  /** fw_data and the end of what was loaded. */
  datatype Loaded = Loaded(fw: seq<U8>, size: nat)

  ghost predicate Wf(l: Loaded) { |l.fw| == APP_MAX && l.size <= APP_MAX }

  /** The address test of _load_bin, its sum in 32 bits. */
  predicate Addressed(c: Chunk) { INFO <= c.addr && End(c.addr, |c.data|) <= START + APP_MAX }

  /** The record stays inside fw_data. */
  predicate HasRoom(c: Chunk) { INFO <= c.addr && c.addr - INFO + |c.data| <= APP_MAX }

  /**
   What passes the address test stays inside the array exactly when its end neither wraps nor lies in the 512
   bytes behind the array; nothing of the array is refused.
   */
  lemma AddressedExact(c: Chunk)
    ensures Addressed(c) ==> (HasRoom(c) <==> NoWrap(c.addr, |c.data|) && End(c.addr, |c.data|) <= INFO + APP_MAX)
    ensures HasRoom(c) ==> Addressed(c)
  {
  }

  /** _load_bin on one record. */
  function Load(l: Loaded, c: Chunk): (r: Ended<Loaded>)
    requires |l.fw| == APP_MAX
    ensures r.Fine? ==> Wf(r.value)
  {
    if !Addressed(c) || c.addr - INFO < l.size then Fatal
    else if !HasRoom(c) then Overrun
    else
      var a := c.addr - INFO;
      Fine(Loaded(Overwrite(l.fw, a, c.data), a + |c.data|))
  }

  /** A byte in the last place the test allows, and sixteen at 0xFFFFFFF8, go behind the array. */
  lemma RunsOver(l: Loaded, data: seq<U8>)
    requires Wf(l) && |data| == 16
    ensures Load(l, Chunk(START + APP_MAX - 1, data[..1])) == Overrun
    ensures Load(l, Chunk(0xFFFF_FFF8, data)) == Overrun
  {
    assert Wrap(0x1_0000_0008) == Wrap(8);
  }

  function LoadAll(l: Loaded, cs: seq<Chunk>): (r: Ended<Loaded>)
    requires |l.fw| == APP_MAX && l.size <= APP_MAX
    ensures r.Fine? ==> Wf(r.value)
    decreases |cs|
  {
    if cs == [] then Fine(l)
    else
      match Load(l, cs[0])
      case Fine(m) => LoadAll(m, cs[1..])
      case stop => stop
  }

  /** The image so far, the rest of the array erased. */
  ghost predicate Holds(l: Loaded, img: seq<U8>)
  {
    && Wf(l) && l.size == |img| && l.fw[..|img|] == img
    && forall k :: |img| <= k < APP_MAX ==> l.fw[k] == 0xFF
  }

  lemma {:induction false} LoadExtends(l: Loaded, img: seq<U8>, c: Chunk)
    requires Holds(l, img) && INFO + |img| <= c.addr && c.addr - INFO + |c.data| <= APP_MAX
    ensures Load(l, c).Fine? && Holds(Load(l, c).value, Extend(INFO, img, c))
  {
    AddressedExact(c);
    var a, m, r := c.addr - INFO, Load(l, c).value, Extend(INFO, img, c);
    forall k | 0 <= k < |r| ensures m.fw[k] == r[k] {
      if k < |img| {
        assert l.fw[..|img|][k] == img[k];
      }
    }
    assert m.fw[..|r|] == r;
  }

  lemma {:induction false} LoadParts(l: Loaded, a: seq<Chunk>, b: seq<Chunk>)
    requires Wf(l)
    ensures LoadAll(l, a + b) ==
            match LoadAll(l, a) case Fine(m) => LoadAll(m, b) case stop => stop
    decreases |a|
  {
    if a == [] {
      assert a + b == b;
    } else {
      assert (a + b)[0] == a[0] && (a + b)[1..] == a[1..] + b;
      match Load(l, a[0]) {
        case Fine(m) => LoadParts(m, a[1..], b);
        case _ =>
      }
    }
  }

  /** Loading the lines of a flush is loading the flush. */
  lemma ExtendTwice(img: seq<U8>, addr: U32, d: seq<U8>, n: nat)
    requires INFO + |img| <= addr && NoWrap(addr, |d|) && n <= |d|
    ensures Extend(INFO, Extend(INFO, img, Chunk(addr, d[..n])), Chunk(Add32(addr, n), d[n..]))
            == Extend(INFO, img, Chunk(addr, d))
  {
    var gap := img + Erased(addr - INFO - |img|);
    assert Extend(INFO, img, Chunk(addr, d[..n])) == gap + d[..n];
    assert Erased(0) == [] && d == d[..n] + d[n..];
    assert gap + d[..n] + d[n..] == gap + d;
  }

  lemma {:induction false} LoadPieces(l: Loaded, img: seq<U8>, addr: U32, d: seq<U8>)
    requires Holds(l, img) && INFO + |img| <= addr && addr - INFO + |d| <= APP_MAX && d != []
    ensures var cs := Chunks(addr, d);
            LoadAll(l, cs).Fine? && Holds(LoadAll(l, cs).value, Extend(INFO, img, Chunk(addr, d)))
    decreases |d|
  {
    var n := First(d);
    var c, rest := Chunk(addr, d[..n]), Chunks(Add32(addr, n), d[n..]);
    LoadExtends(l, img, c);
    assert Chunks(addr, d) == [c] + rest && ([c] + rest)[1..] == rest;
    if n == |d| {
      assert d[..n] == d && rest == [];
    } else {
      LoadPieces(Load(l, c).value, Extend(INFO, img, c), Add32(addr, n), d[n..]);
      ExtendTwice(img, addr, d, n);
    }
  }

  /** The array after the records of any ascending flushes: their image, erased in the gaps. */
  lemma {:induction false} LoadOps(l: Loaded, img: seq<U8>, ops: seq<Chunk>)
    requires Holds(l, img) && Ascending(INFO + |img|, ops) && |ImageOf(INFO, img, ops)| <= APP_MAX
    ensures var cs := ChunksOf(ops);
            LoadAll(l, cs).Fine? && Holds(LoadAll(l, cs).value, ImageOf(INFO, img, ops))
    decreases |ops|
  {
    if ops != [] {
      var c, next := ops[0], Extend(INFO, img, ops[0]);
      var a, b := Chunks(c.addr, c.data), ChunksOf(ops[1..]);
      LoadPieces(l, img, c.addr, c.data);
      var m := LoadAll(l, a).value;
      LoadOps(m, next, ops[1..]);
      LoadParts(l, a, b);
    }
  }

  // ---- the container ----

  function NameField(name: seq<U8>): (f: seq<U8>)
    ensures |f| == NAME_LEN
  {
    (name + seq(NAME_LEN, _ => 0))[..NAME_LEN]
  }

  /** The header fields behind the size and the checksum of the image: no unit, not encrypted. */
  function HeaderRest(ids: seq<U8>, name: seq<U8>): (h: seq<U8>)
    requires |ids| == 6
    ensures |h| == PAGE - 12
  {
    Le4(0) + ids + NameField(name) + [0] + seq(473, _ => 0)
  }

  /** container_hdr_t without its checksum; ids are the device and hardware fields of the info page. */
  function HeaderBody(image: seq<U8>, ids: seq<U8>, name: seq<U8>): (h: seq<U8>)
    requires |image| < 0x1_0000_0000 && |ids| == 6
    ensures |h| == PAGE - 4
  {
    Le4(|image|) + Le4(Checksums.Chsum(Checksums.CHSUM_START, image)) + HeaderRest(ids, name)
  }

  function Sealed(body: seq<U8>): seq<U8>
  {
    body + Le4(Checksums.Chsum(Checksums.CHSUM_START, body))
  }

  function Header(image: seq<U8>, ids: seq<U8>, name: seq<U8>): (h: seq<U8>)
    requires |image| < 0x1_0000_0000 && |ids| == 6
    ensures |h| == PAGE
  {
    Sealed(HeaderBody(image, ids, name))
  }

  /** The name cut to sixteen bytes, or filled up with NULs. */
  ghost predicate NameAt(c: seq<U8>, at: nat, name: seq<U8>)
    requires at + 16 <= |c|
  {
    forall k :: 0 <= k < 16 ==> c[at + k] == if k < |name| then name[k] else 0
  }

  ghost predicate ZeroAt(c: seq<U8>, from: nat, to: nat)
    requires to <= |c|
  {
    forall k :: from <= k < to ==> c[k] == 0
  }

  /**
   The header fields at the offsets of container_hdr_t: size and checksum of the image, no unit number, the six bytes
   of the device and the hardware versions, the name, not encrypted, the reserve, and the checksum over all that.
   */
  ghost predicate HeaderAt(c: seq<U8>, image: seq<U8>, ids: seq<U8>, name: seq<U8>)
    requires |c| >= 512
  {
    && U32At(c, 0) == |image| && U32At(c, 4) == Checksums.Chsum(Checksums.CHSUM_START, image)
    && ZeroAt(c, 8, 12)
    && c[12..18] == ids
    && NameAt(c, 18, name)
    && ZeroAt(c, 34, 508)
    && U32At(c, 508) == Checksums.Chsum(Checksums.CHSUM_START, c[..508])
  }

  lemma RestLayout(ids: seq<U8>, name: seq<U8>)
    requires |ids| == 6
    ensures var r := HeaderRest(ids, name);
            ZeroAt(r, 0, 4) && r[4..10] == ids && NameAt(r, 10, name) && ZeroAt(r, 26, 500)
  {
    var r := HeaderRest(ids, name);
    assert r[10..26] == NameField(name);
    forall k | 0 <= k < 16 ensures r[10 + k] == if k < |name| then name[k] else 0 {
      assert r[10 + k] == r[10..26][k];
    }
  }

  /** A header has every field in its place. */
  lemma {:induction false} HeaderLayout(image: seq<U8>, ids: seq<U8>, name: seq<U8>)
    requires |image| < 0x1_0000_0000 && |ids| == 6
    ensures HeaderAt(Header(image, ids, name), image, ids, name)
  {
    var r, sum := HeaderRest(ids, name), Checksums.Chsum(Checksums.CHSUM_START, image);
    var body, h := HeaderBody(image, ids, name), Header(image, ids, name);
    var seal := Checksums.Chsum(Checksums.CHSUM_START, body);
    RestLayout(ids, name);
    assert h[0..4] == Le4(|image|) && h[4..8] == Le4(sum) && h[508..512] == Le4(seal) && h[..508] == body;
    FieldRead(|image|, h, 0);
    FieldRead(sum, h, 4);
    FieldRead(seal, h, 508);
    assert h[8..508] == r;
    RestShifted(h, r, ids, name);
  }

  lemma RestShifted(h: seq<U8>, r: seq<U8>, ids: seq<U8>, name: seq<U8>)
    requires |h| == 512 && h[8..508] == r && |ids| == 6
    requires ZeroAt(r, 0, 4) && r[4..10] == ids && NameAt(r, 10, name) && ZeroAt(r, 26, 500)
    ensures ZeroAt(h, 8, 12) && h[12..18] == ids && NameAt(h, 18, name) && ZeroAt(h, 34, 508)
  {
    assert forall k :: 8 <= k < 508 ==> h[k] == r[k - 8];
    assert h[12..18] == r[4..10];
    forall k | 0 <= k < 16 ensures h[18 + k] == if k < |name| then name[k] else 0 {
      assert h[18 + k] == r[10 + k];
    }
  }

  /** The header in front of anything. */
  lemma HeaderInFront(h: seq<U8>, c: seq<U8>, image: seq<U8>, ids: seq<U8>, name: seq<U8>)
    requires |h| == 512 <= |c| && c[..512] == h && HeaderAt(h, image, ids, name)
    ensures HeaderAt(c, image, ids, name)
  {
    assert forall k :: 0 <= k < 512 ==> c[k] == h[k];
    assert c[..508] == h[..508] && c[12..18] == h[12..18];
  }

  function Ids(fw: seq<U8>): (ids: seq<U8>)
    requires |fw| >= 16
    ensures |ids| == 6
  {
    fw[8..14]
  }

  /** What main flushes; None when the size in the info page is not the size loaded. */
  function Packed(l: Loaded, name: seq<U8>): Option<seq<Chunk>>
    requires |l.fw| == APP_MAX && l.size <= APP_MAX
  {
    if Add32(U32At(l.fw, 0), PAGE) != l.size then None
    else
      var image := l.fw[..l.size];
      Some([Chunk(FW_ADDR, Header(image, Ids(l.fw), name)), Chunk(FW_ADDR + PAGE, image)])
  }

  /**
   With at least the page loaded a container is printed exactly when the info page gives the size of what follows
   it; the records are the header and the image, at the place the bootloader expects them.
   */
  lemma PackedExact(l: Loaded, name: seq<U8>)
    requires Wf(l) && 512 <= l.size
    ensures Packed(l, name).Some? <==> U32At(l.fw, 0) + 512 == l.size
    ensures Packed(l, name).Some? ==>
              && |Packed(l, name).value| == 2
              && Packed(l, name).value[1] == Chunk(0x3c_0200, l.fw[..l.size])
              && Packed(l, name).value[0].addr == 0x3c_0000 && |Packed(l, name).value[0].data| == 512
              && HeaderAt(Packed(l, name).value[0].data, l.fw[..l.size], l.fw[8..14], name)
  {
    if Packed(l, name).Some? {
      HeaderLayout(l.fw[..l.size], Ids(l.fw), name);
    }
  }

  // ---- the program ----

  class Packer {
    const fwData: array<U8>
    var destAddr: nat
    var appSize: nat

    ghost predicate Valid()
      reads this
    {
      fwData.Length == APP_MAX && destAddr == appSize <= APP_MAX
    }

    ghost function View(): Loaded
      reads this, fwData
    {
      Loaded(fwData[..], appSize)
    }

    constructor ()
      ensures Valid() && fresh(fwData) && View() == Loaded(Erased(APP_MAX), 0)
    {
      fwData := new U8[APP_MAX](_ => 0xFF);
      destAddr, appSize := 0, 0;
      new;
      assert fwData[..] == Erased(APP_MAX);
    }

    /** _load_bin; after a fatal error or a write behind the array the tool is not followed further. */
    method LoadBin(c: Chunk) returns (r: Ended<()>)
      requires Valid()
      modifies this, fwData
      ensures match Load(old(View()), c)
              case Fine(l) => r.Fine? && Valid() && View() == l
              case Fatal => r == Fatal
              case Overrun => r == Overrun
    {
      if c.addr < INFO || End(c.addr, |c.data|) > START + APP_MAX {
        return Fatal;
      }
      var a := c.addr - INFO;
      if a < destAddr {
        return Fatal;
      }
      while a > destAddr
        invariant destAddr <= a && fwData[..] == old(fwData[..])
      {
        destAddr := destAddr + 1;
      }
      if a + |c.data| > fwData.Length {
        return Overrun;
      }
      CopyInto(fwData, a, c.data);
      destAddr := a + |c.data|;
      appSize := destAddr;
      r := Fine(());
    }

    /** The container header, checksums last. */
    static method BuildHeader(image: seq<U8>, ids: seq<U8>, name: seq<U8>) returns (h: seq<U8>)
      requires |image| < 0x1_0000_0000 && |ids| == 6
      ensures h == Header(image, ids, name) && HeaderAt(h, image, ids, name)
    {
      var chsum := Checksums.Chsum32(image, Checksums.CHSUM_START);
      h := Le4(|image|) + Le4(chsum) + HeaderRest(ids, name);
      var seal := Checksums.Chsum32(h, Checksums.CHSUM_START);
      h := h + Le4(seal);
      HeaderLayout(image, ids, name);
    }

    /** main after loading, with hexadecimal output; no lines after a fatal error. */
    method Print(name: seq<U8>) returns (lines: Option<seq<Ihex.Text>>)
      requires Valid()
      ensures match Packed(View(), name)
              case None => lines.None?
              case Some(ops) => lines == Some(PrintedAll(0, ops) + [EOF_LINE])
    {
      var fw := fwData[..];
      if Add32(U32At(fw, 0), PAGE) != appSize {
        return None;
      }
      var h := BuildHeader(fw[..appSize], Ids(fw), name);
      lines := PrintBoth(Chunk(FW_ADDR, h), Chunk(FW_ADDR + PAGE, fw[..appSize]));
    }

    static method PrintBoth(a: Chunk, b: Chunk) returns (lines: Option<seq<Ihex.Text>>)
      ensures lines == Some(PrintedAll(0, [a, b]) + [EOF_LINE])
    {
      var printer := new Printer();
      printer.Flush(a.addr, a.data);
      assert printer.out == Printed(0, a.addr, a.data);
      printer.Flush(b.addr, b.data);
      PrintedTwo(0, a, b);
      lines := Some(printer.out + [EOF_LINE]);
    }
  }

  lemma {:induction false} PrintedTwo(hi: U16, a: Chunk, b: Chunk)
    ensures var mid := HiAfter(hi, a.addr, a.data);
            PrintedAll(hi, [a, b]) == Printed(hi, a.addr, a.data) + Printed(mid, b.addr, b.data)
  {
    assert [a, b] == [a] + [b] && [b] == [b] + [];
    PrintedFirst(hi, a, [b]);
    PrintedFirst(HiAfter(hi, a.addr, a.data), b, []);
  }
}
