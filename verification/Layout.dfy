/** Memory layout of bootloader/app_info.h and the little-endian fields of the image headers. */
module Layout {
  import opened Machine

  const KB: nat := 1024
  const BL_SIZE: nat := 32 * KB
  const PAGE: nat := 512
  const APP_MAX: nat := 512 * KB - BL_SIZE - PAGE
  const APP_MIN: nat := 1 * KB
  const INFO: U32 := 0x800_0000 + BL_SIZE
  const START: U32 := INFO + PAGE

  /** Where the firmware container lies in the external flash, and how much room it has. */
  const FW_ADDR: U32 := 0x3c_0000
  const FW_MAX: nat := 256 * KB

  function Erased(n: nat): (s: seq<U8>)
    ensures |s| == n && forall k :: 0 <= k < n ==> s[k] == 0xFF
  {
    seq(n, _ => 0xFF)
  }

  // ---- little-endian fields ----

  function Le4(v: U32): (s: seq<U8>)
    ensures |s| == 4
  {
    [v % 256, v / 0x100 % 256, v / 0x1_0000 % 256, v / 0x100_0000]
  }

  function U32At(s: seq<U8>, k: nat): U32
    requires k + 4 <= |s|
  {
    s[k] as int + s[k + 1] as int * 0x100 + s[k + 2] as int * 0x1_0000 + s[k + 3] as int * 0x100_0000
  }

  lemma LeBytes(v: U32)
    ensures v % 256 + v / 0x100 % 256 * 0x100 + v / 0x1_0000 % 256 * 0x1_0000 + v / 0x100_0000 * 0x100_0000 == v
  {
    var v1 := v / 256;
    var v2 := v1 / 256;
    assert v / 0x1_0000 == v2 && v / 0x100_0000 == v2 / 256;
  }

  /** A field written is the field read. */
  lemma {:induction false} FieldRead(v: U32, s: seq<U8>, k: nat)
    requires k + 4 <= |s| && s[k..k + 4] == Le4(v)
    ensures U32At(s, k) == v
  {
    var f := s[k..k + 4];
    assert f[0] == s[k] && f[1] == s[k + 1] && f[2] == s[k + 2] && f[3] == s[k + 3];
    LeBytes(v);
  }

  /** Low byte first. */
  lemma LittleEndian()
    ensures Le4(0x0403_0201) == [1, 2, 3, 4] && U32At([1, 2, 3, 4], 0) == 0x0403_0201
  {
  }

  /** A memory with bytes written over it. */
  function Overwrite(mem: seq<U8>, at: nat, data: seq<U8>): (r: seq<U8>)
    requires at + |data| <= |mem|
    ensures |r| == |mem|
  {
    mem[..at] + data + mem[at + |data|..]
  }

  lemma OverwriteAt(mem: seq<U8>, at: nat, data: seq<U8>, k: nat)
    requires at + |data| <= |mem| && k < |mem|
    ensures Overwrite(mem, at, data)[k] == if at <= k < at + |data| then data[k - at] else mem[k]
  {
  }

  lemma {:induction false} OverwriteTwice(mem: seq<U8>, at: nat, a: seq<U8>, b: seq<U8>)
    requires at + |a| + |b| <= |mem|
    ensures Overwrite(Overwrite(mem, at, a), at + |a|, b) == Overwrite(mem, at, a + b)
  {
  }

  /** memcpy into a buffer. */
  method CopyInto(dst: array<U8>, at: nat, src: seq<U8>)
    requires at + |src| <= dst.Length
    modifies dst
    ensures dst[..] == Overwrite(old(dst[..]), at, src)
  {
    forall i | 0 <= i < |src| {
      dst[at + i] := src[i];
    }
  }
}
