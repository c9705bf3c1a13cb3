/** Integer widths of the firmware and the option type the other modules share. */
module Machine {
  type U8 = x: int | 0 <= x < 0x100
  type U16 = x: int | 0 <= x < 0x1_0000
  type U32 = x: int | 0 <= x < 0x1_0000_0000

  datatype Option<+T> = None | Some(value: T)

  /** The elements of a in front of b; in this form a run over both unfolds as it is made. */
  function Join<T>(a: seq<T>, b: seq<T>): seq<T>
  {
    if a == [] then b else [a[0]] + Join(a[1..], b)
  }

  lemma {:induction false} JoinIs<T>(a: seq<T>, b: seq<T>)
    ensures Join(a, b) == a + b
  {
    if a == [] {
      assert a + b == b;
    } else {
      JoinIs(a[1..], b);
      assert [a[0]] + (a[1..] + b) == a + b;
    }
  }

  /** u8 addition. */
  function Add8(a: U8, b: U8): U8
  {
    if a as int + b as int < 256 then a + b else a + b - 256
  }

  /** u32 addition. */
  function Add32(a: U32, b: U32): U32
  {
    if a as int + b as int < 0x1_0000_0000 then a + b else a + b - 0x1_0000_0000
  }

  /** A number cut to 32 bits. */
  function Wrap(x: nat): (r: U32)
    ensures x < 0x1_0000_0000 ==> r == x
    ensures r <= x
  {
    if x < 0x1_0000_0000 then x else Wrap(x - 0x1_0000_0000)
  }

  /** addr + len of C: the address behind n bytes, in 32 bits. */
  function End(addr: U32, n: nat): (e: U32)
    ensures addr as int + n < 0x1_0000_0000 ==> e as int == addr as int + n
  {
    Wrap(addr + n)
  }

  /** The bytes do not run over the end of the 32-bit address space. */
  predicate NoWrap(addr: U32, n: nat) { addr as int + n < 0x1_0000_0000 }
}
