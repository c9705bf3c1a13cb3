/**
 The bootloader: writing records to the external flash, checking the container there, copying the
 firmware into the internal flash, and checking the application before it is started
 (bootloader/ext_storage.c, main.c, container.c, app_info.c).
 */
module Bootloader {
  import opened Machine
  import opened Layout
  import opened IhexRoundTrip
  import Checksums

  const SECTOR: nat := 512

  /** The part of the internal flash behind the bootloader; it starts with the info page. */
  const FLASH_SIZE: nat := PAGE + APP_MAX

  // ---- the external flash ----

  /** The firmware window holds all of these bytes. */
  predicate InWindow(addr: nat, n: nat) { FW_ADDR <= addr && addr + n <= FW_ADDR + FW_MAX }

  /** The test of ext_storage_write_data, its sum in 32 bits. */
  predicate Passes(addr: U32, n: nat) { FW_ADDR <= addr && End(addr, n) <= FW_ADDR + FW_MAX }

  /** What passes the test lies in the window exactly when its end does not wrap; nothing of the window is refused. */
  lemma PassesExact(addr: U32, n: nat)
    ensures Passes(addr, n) ==> (InWindow(addr, n) <==> NoWrap(addr, n))
    ensures InWindow(addr, n) ==> Passes(addr, n)
  {
  }

  /**
   ext_storage_write_data on the firmware window of the flash; None when it refuses. Bytes that pass its test
   without lying in the window go to the flash driver all the same, and not into the window.
   */
  function Write(mem: seq<U8>, c: Chunk): (r: Option<seq<U8>>)
    requires |mem| == FW_MAX
    ensures r.Some? ==> |r.value| == FW_MAX
  {
    if !Passes(c.addr, |c.data|) then None
    else if InWindow(c.addr, |c.data|) then Some(Overwrite(mem, c.addr - FW_ADDR, c.data))
    else Some(mem)
  }

  predicate Strays(c: Chunk) { Passes(c.addr, |c.data|) && !InWindow(c.addr, |c.data|) }

  /** Sixteen bytes at 0xFFFFFFF8 are not refused. */
  lemma EndWraps(data: seq<U8>)
    requires |data| == 16
    ensures Strays(Chunk(0xFFFF_FFF8, data))
  {
    assert Wrap(0x1_0000_0008) == Wrap(8);
  }

  function WriteAll(mem: seq<U8>, cs: seq<Chunk>): (r: Option<seq<U8>>)
    requires |mem| == FW_MAX
    ensures r.Some? ==> |r.value| == FW_MAX
    decreases |cs|
  {
    if cs == [] then Some(mem)
    else
      match Write(mem, cs[0])
      case None => None
      case Some(m) => WriteAll(m, cs[1..])
  }

  lemma {:induction false} WriteParts(mem: seq<U8>, a: seq<Chunk>, b: seq<Chunk>)
    requires |mem| == FW_MAX
    ensures WriteAll(mem, a + b) == match WriteAll(mem, a) case None => None case Some(m) => WriteAll(m, b)
    decreases |a|
  {
    if a == [] {
      assert a + b == b;
    } else {
      assert (a + b)[0] == a[0] && (a + b)[1..] == a[1..] + b;
      match Write(mem, a[0]) {
        case None =>
        case Some(m) => WriteParts(m, a[1..], b);
      }
    }
  }

  /** Writing the lines of a flush is writing the flush. */
  lemma {:induction false} WritePieces(mem: seq<U8>, addr: U32, d: seq<U8>)
    requires |mem| == FW_MAX && InWindow(addr, |d|)
    ensures WriteAll(mem, Chunks(addr, d)) == Some(Overwrite(mem, addr - FW_ADDR, d))
    decreases |d|
  {
    if d != [] {
      var n := First(d);
      var c, at := Chunk(addr, d[..n]), addr - FW_ADDR;
      assert Chunks(addr, d) == [c] + Chunks(Add32(addr, n), d[n..]);
      WritePieces(Overwrite(mem, at, c.data), Add32(addr, n), d[n..]);
      OverwriteTwice(mem, at, c.data, d[n..]);
      assert d == d[..n] + d[n..];
    } else {
      assert Overwrite(mem, addr - FW_ADDR, d) == mem;
    }
  }

  // ---- the checks ----

  /** container_valid of a sector. */
  predicate ContainerValid(h: seq<U8>)
  {
    |h| == PAGE && U32At(h, PAGE - 4) == Checksums.Chsum(Checksums.CHSUM_START, h[..PAGE - 4])
  }

  function DataSize(mem: seq<U8>): U32
    requires |mem| == FW_MAX
  {
    U32At(mem, 0)
  }

  /** What ext_storage_check_fw accepts: a valid header, a size in range, the data behind it whole. */
  predicate Accepts(mem: seq<U8>)
    requires |mem| == FW_MAX
  {
    && ContainerValid(mem[..SECTOR])
    && APP_MIN <= DataSize(mem) <= APP_MAX
    && SECTOR + Sectors(DataSize(mem)) * SECTOR <= FW_MAX
    && Checksums.Chsum(Checksums.CHSUM_START, mem[SECTOR..SECTOR + DataSize(mem)]) == U32At(mem, 4)
  }

  /** The number of sectors that hold n bytes. */
  function Sectors(n: nat): (k: nat)
    ensures n <= k * SECTOR < n + SECTOR
  {
    (n + SECTOR - 1) / SECTOR
  }

  /** What main_flash_app leaves in the internal flash: whole sectors, from the info page on. */
  function Flashed(flash: seq<U8>, mem: seq<U8>): (r: seq<U8>)
    requires |flash| == FLASH_SIZE && |mem| == FW_MAX && Accepts(mem)
    ensures |r| == FLASH_SIZE
  {
    Overwrite(flash, 0, mem[SECTOR..SECTOR + Sectors(DataSize(mem)) * SECTOR])
  }

  /** main_app_ok on the internal flash. */
  predicate AppOk(flash: seq<U8>)
    requires |flash| == FLASH_SIZE
  {
    var size := U32At(flash, 0);
    APP_MIN <= size <= APP_MAX && Checksums.AppCrc(flash[PAGE..PAGE + size]) == U32At(flash, 4)
  }

  // ---- the program ----

  lemma {:induction false} SumMore(mem: seq<U8>, at: nat, n: nat)
    requires SECTOR <= at
    ensures at + n <= |mem| ==>
              (var v := Checksums.Chsum(Checksums.CHSUM_START, mem[SECTOR..at]);
               Checksums.Chsum(v, mem[at..at + n]) == Checksums.Chsum(Checksums.CHSUM_START, mem[SECTOR..at + n]))
  {
    if at + n <= |mem| {
      assert mem[SECTOR..at] + mem[at..at + n] == mem[SECTOR..at + n];
      Checksums.ChsumOfParts(Checksums.CHSUM_START, mem[SECTOR..at], mem[at..at + n]);
    }
  }

  class ExtStorage {
    var ready: bool
    var mem: seq<U8>
    var checked: bool
    const buf: array<U8>
    ghost var stray: seq<Chunk>    // handed to the flash driver for addresses outside the window

    ghost predicate Valid()
      reads this
    {
      |mem| == FW_MAX && buf.Length == SECTOR
    }

    constructor (mem: seq<U8>, ready: bool)
      requires |mem| == FW_MAX
      ensures Valid() && fresh(buf) && this.mem == mem && this.ready == ready && stray == []
    {
      this.mem, this.ready, checked, stray := mem, ready, false, [];
      buf := new U8[SECTOR](_ => 0);
    }

    /** ext_storage_write_data */
    method WriteData(c: Chunk) returns (ok: bool)
      requires Valid()
      modifies this`mem, this`stray
      ensures Valid()
      ensures stray == old(stray) + if ready && Strays(c) then [c] else []
      ensures match (if ready then Write(old(mem), c) else None)
              case None => !ok && mem == old(mem)
              case Some(m) => ok && mem == m
    {
      if !ready {
        return false;
      }
      if c.addr < FW_ADDR || End(c.addr, |c.data|) > FW_ADDR + FW_MAX {
        return false;
      }
      if InWindow(c.addr, |c.data|) {
        mem := Overwrite(mem, c.addr - FW_ADDR, c.data);
      } else {
        stray := stray + [c];
      }
      ok := true;
    }

    /** _sector_read into the sector buffer; sectors are counted from the start of the window. */
    method SectorRead(s: nat) returns (ok: bool)
      requires Valid()
      modifies buf
      ensures ok == ((s + 1) * SECTOR <= FW_MAX)
      ensures ok ==> buf[..] == mem[s * SECTOR..s * SECTOR + SECTOR]
    {
      if (s + 1) * SECTOR > FW_MAX {
        return false;
      }
      CopyInto(buf, 0, mem[s * SECTOR..s * SECTOR + SECTOR]);
      ok := true;
    }

    /** One sector: read it and sum its first n bytes. */
    method SumSector(s: nat, n: nat, start: U32) returns (ok: bool, chsum: U32)
      requires Valid() && n <= SECTOR
      modifies buf
      ensures ok == (s * SECTOR + SECTOR <= FW_MAX)
      ensures ok ==> chsum == Checksums.Chsum(start, mem[s * SECTOR..s * SECTOR + n])
    {
      ok := SectorRead(s);
      chsum := start;
      if ok {
        assert buf[..n] == buf[..][..n] == mem[s * SECTOR..s * SECTOR + n];
        chsum := Checksums.Chsum32(buf[..n], start);
      }
    }

    /** The data sectors, summed one by one; false when the flash ends before the data. */
    method SumSectors(size: U32) returns (ok: bool, chsum: U32)
      requires Valid()
      modifies buf
      ensures ok == (SECTOR + Sectors(size) * SECTOR <= FW_MAX)
      ensures ok ==> chsum == Checksums.Chsum(Checksums.CHSUM_START, mem[SECTOR..SECTOR + size])
    {
      chsum := Checksums.CHSUM_START;
      var l: int, s := size, 0;
      while l > 0
        invariant s >= 0 && s * SECTOR + l == size && 0 < l + SECTOR
        invariant (s + 1) * SECTOR <= FW_MAX
        invariant ghost var done := if l > 0 then s * SECTOR else size;
                  SECTOR + done <= FW_MAX &&
                  chsum == Checksums.Chsum(Checksums.CHSUM_START, mem[SECTOR..SECTOR + done])
      {
        s := s + 1;
        SectorsFrom(size, s - 1);
        var n := if l > SECTOR then SECTOR else l;
        SumMore(mem, s * SECTOR, n);
        ok, chsum := SumSector(s, n, chsum);
        if !ok {
          return;
        }
        l := l - SECTOR;
      }
      SectorsAre(size, s);
      ok := true;
    }

    /** ext_storage_check_fw: the data size of the container when it is accepted. */
    method CheckFw() returns (size: Option<U32>)
      requires Valid()
      modifies this`checked, buf
      ensures size.Some? == (ready && Accepts(mem))
      ensures size.Some? ==> size.value == DataSize(mem) && checked
    {
      if !ready {
        return None;
      }
      var ok := SectorRead(0);
      assert buf[..] == mem[..SECTOR];
      var sum := Checksums.Chsum32(buf[..PAGE - 4], Checksums.CHSUM_START);
      var header := buf[..];
      assert header[..PAGE - 4] == buf[..PAGE - 4];
      if U32At(header, PAGE - 4) != sum {
        return None;
      }
      var dataSize, dataSum := U32At(header, 0), U32At(header, 4);
      assert dataSize == DataSize(mem) && dataSum == U32At(mem, 4);
      if dataSize < APP_MIN || dataSize > APP_MAX {
        return None;
      }
      var chsum;
      ok, chsum := SumSectors(dataSize);
      if !ok || chsum != dataSum {
        return None;
      }
      checked := true;
      size := Some(dataSize);
    }

    /** ext_storage_read_fw of one whole sector; false when the request is not aligned or past the flash. */
    method ReadFw(dest: array<U8>, len: nat, offset: nat) returns (ok: bool)
      requires Valid() && checked && dest != buf && dest.Length == SECTOR
      modifies buf, dest
      ensures ok == (len == SECTOR && offset % SECTOR == 0 && offset + 2 * SECTOR <= FW_MAX)
      ensures ok ==> dest[..] == mem[offset + SECTOR..offset + 2 * SECTOR]
      ensures !ok ==> dest[..] == old(dest[..])
    {
      if len != SECTOR || offset % SECTOR != 0 {
        return false;
      }
      var s := (offset + SECTOR) / SECTOR;
      ok := SectorRead(s);
      if !ok {
        return;
      }
      CopyInto(dest, 0, buf[..]);
    }
  }

  lemma {:induction false} SectorsFrom(size: nat, s: nat)
    requires s * SECTOR < size
    ensures s + 1 <= Sectors(size)
  {
  }

  lemma {:induction false} SectorsAre(size: nat, s: nat)
    requires s * SECTOR - SECTOR < size <= s * SECTOR
    ensures Sectors(size) == s
  {
  }

  lemma {:induction false} CopyMore(flash: seq<U8>, mem: seq<U8>, i: nat)
    requires i + 2 * SECTOR <= |mem| && i + SECTOR <= |flash|
    ensures Overwrite(Overwrite(flash, 0, mem[SECTOR..SECTOR + i]), i, mem[i + SECTOR..i + 2 * SECTOR]) ==
            Overwrite(flash, 0, mem[SECTOR..SECTOR + (i + SECTOR)])
  {
    var a, b := mem[SECTOR..SECTOR + i], mem[i + SECTOR..i + 2 * SECTOR];
    OverwriteTwice(flash, 0, a, b);
    assert a + b == mem[SECTOR..SECTOR + (i + SECTOR)];
  }

  /** reset_get_type: a reset asked for by software, or any other. */
  datatype Reset = UserRequest | OtherReset

  /** GPREG_BOOT; NoRequest is its cleared value. */
  datatype Request = NoRequest | FlashRequest | StayInBoot | OtherRequest(word: U32)

  const LOOP_MAX: nat := 5

  /** GPREG_BOOTLOOP counted up. */
  function Starts(bootloop: U32): U32 { End(bootloop, 1) }

  lemma StartsCounts(bootloop: U32)
    ensures Starts(bootloop) == if bootloop == 0xFFFF_FFFF then 0 else bootloop + 1
  {
    if bootloop == 0xFFFF_FFFF {
      assert Wrap(0x1_0000_0000) == Wrap(0);
    }
  }

  class Board {
    const ext: ExtStorage
    var flash: seq<U8>
    var boot: Request
    var bootloop: U32      // GPREG_BOOTLOOP, cleared by the application

    constructor (ext: ExtStorage, flash: seq<U8>, boot: Request, bootloop: U32)
      requires |flash| == FLASH_SIZE
      ensures this.ext == ext && this.flash == flash && this.boot == boot && this.bootloop == bootloop
    {
      this.ext, this.flash, this.boot, this.bootloop := ext, flash, boot, bootloop;
    }

    /** main_flash_app once the storage is initialised: nothing is written unless the check accepts. */
    method FlashApp() returns (ok: bool)
      requires ext.Valid() && |flash| == FLASH_SIZE
      modifies this`flash, ext`checked, ext.buf
      ensures ext.Valid() && ext.mem == old(ext.mem)
      ensures ok == (ext.ready && Accepts(ext.mem))
      ensures flash == if ok then Flashed(old(flash), ext.mem) else old(flash)
    {
      var size := ext.CheckFw();
      if size.None? {
        return false;
      }
      CopyFirmware(size.value);
      ok := true;
    }

    /** One turn of the copy loop; dest counts from the info page. */
    method CopySector(buf: array<U8>, i: nat, dest: nat)
      requires ext.Valid() && ext.checked && |flash| == FLASH_SIZE
      requires buf.Length == SECTOR && buf != ext.buf
      requires i % SECTOR == 0 && i + 2 * SECTOR <= FW_MAX && dest + SECTOR <= FLASH_SIZE
      modifies this`flash, ext.buf, buf
      ensures |flash| == FLASH_SIZE
      ensures flash == Overwrite(old(flash), dest, ext.mem[i + SECTOR..i + 2 * SECTOR])
    {
      var _ := ext.ReadFw(buf, SECTOR, i);
      flash := Overwrite(flash, dest, buf[..]);
    }

    /** The copy loop of main_flash_app. */
    method CopyFirmware(n: U32)
      requires ext.Valid() && ext.checked && |flash| == FLASH_SIZE
      requires n <= APP_MAX && SECTOR + Sectors(n) * SECTOR <= FW_MAX
      modifies this`flash, ext.buf
      ensures |flash| == FLASH_SIZE
      ensures flash == Overwrite(old(flash), 0, ext.mem[SECTOR..SECTOR + Sectors(n) * SECTOR])
    {
      var buf := new U8[SECTOR](_ => 0);
      ghost var before, mem, k: nat := flash, ext.mem, 0;
      assert Overwrite(before, 0, mem[SECTOR..SECTOR]) == before;
      var i: nat, dest: nat := 0, 0;
      while i < n
        invariant i == dest == k * SECTOR && k <= Sectors(n) && i < n + SECTOR
        invariant ext.Valid() && ext.checked && |flash| == FLASH_SIZE
        invariant flash == Overwrite(before, 0, mem[SECTOR..SECTOR + i])
      {
        SectorsFrom(n, k);
        CopySector(buf, i, dest);
        CopyMore(before, mem, i);
        dest := dest + SECTOR;
        i := i + SECTOR;
        k := k + 1;
      }
      SectorsAre(n, k);
    }

    /** main_app_ok */
    method CheckApp() returns (ok: bool)
      requires |flash| == FLASH_SIZE
      ensures ok == AppOk(flash)
    {
      var size, crc := U32At(flash, 0), U32At(flash, 4);
      if size > APP_MAX || size < APP_MIN {
        return false;
      }
      var reg := Checksums.CrcUpdate(Checksums.CRC_START, flash[PAGE..PAGE + size]);
      ok := Checksums.Finish(reg) == crc;
    }

    /**
     main from the check of the application on, after a reset of this kind. With BOOT_STAY requested, with more
     than five starts since the application last cleared the counter, or without a whole application it ends
     in the terminal; otherwise it starts the application.
     */
    method Boot(reset: Reset) returns (run: bool)
      requires ext.Valid() && |flash| == FLASH_SIZE
      modifies this`flash, this`boot, this`bootloop, ext`checked, ext.buf
      ensures |flash| == FLASH_SIZE
      ensures ghost var stay := reset == UserRequest && old(boot) == StayInBoot;
              ghost var rq := reset == UserRequest && old(boot) == FlashRequest;
              && (run <==> !stay && Starts(old(bootloop)) <= LOOP_MAX && AppOk(flash))
              && flash == (if !stay && (rq || !AppOk(old(flash))) && ext.ready && Accepts(ext.mem)
                           then Flashed(old(flash), ext.mem) else old(flash))
              && bootloop == (if stay then old(bootloop)
                              else if Starts(old(bootloop)) > LOOP_MAX then 0 else Starts(old(bootloop)))
      ensures boot == if !run || reset == UserRequest then NoRequest else old(boot)
    {
      var ok := CheckApp();
      var flashRq := false;
      if reset == UserRequest {
        if boot == FlashRequest {
          flashRq := true;
        } else if boot == StayInBoot {
          boot := NoRequest;
          return false;
        }
        boot := NoRequest;
      }
      if flashRq || !ok {
        var _ := FlashApp();
        ok := CheckApp();
      }
      bootloop := End(bootloop, 1);
      if bootloop > LOOP_MAX {
        bootloop, boot := 0, NoRequest;
        return false;
      }
      if !ok {
        boot := NoRequest;
      }
      run := ok;
    }
  }

  /** A copy cut short after any number of bytes is repaired by the next complete one. */
  lemma {:induction false} RestartHarmless(flash: seq<U8>, mem: seq<U8>, k: nat)
    requires |flash| == FLASH_SIZE && |mem| == FW_MAX && Accepts(mem)
    requires k <= Sectors(DataSize(mem)) * SECTOR
    ensures Flashed(Overwrite(flash, 0, mem[SECTOR..SECTOR + k]), mem) == Flashed(flash, mem)
  {
    var part := Overwrite(flash, 0, mem[SECTOR..SECTOR + k]);
    var n := Sectors(DataSize(mem)) * SECTOR;
    assert part[n..] == flash[n..];
  }
}
