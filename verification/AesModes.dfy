/**
 The chaining modes of ut/common/aes.c (sections 6.2 and 6.3 of NIST SP 800-38A), for any
 block permutation; the cipher itself is a parameter.
 */
module AesModes {
  const BLOCK: nat := 16

  type Block = b: seq<bv8> | |b| == BLOCK witness seq(BLOCK, _ => 0)

  datatype Cipher = Cipher(enc: Block -> Block, dec: Block -> Block)

  function Enc(c: Cipher, b: Block): Block { c.enc(b) }

  function Dec(c: Cipher, b: Block): Block { c.dec(b) }

  ghost predicate Inverse(c: Cipher)
  {
    forall b: Block :: Dec(c, Enc(c, b)) == b
  }

  /** The xor of the first n bytes. */
  function XorTo(a: Block, b: Block, n: nat): (r: seq<bv8>)
    requires n <= BLOCK
    ensures |r| == n
    decreases n, |a|
  {
    if n == 0 then [] else XorTo(a, b, n - 1) + [a[n - 1] ^ b[n - 1]]
  }

  lemma {:induction false} XorAt(a: Block, b: Block, n: nat, i: nat)
    requires i < n <= BLOCK
    ensures XorTo(a, b, n)[i] == a[i] ^ b[i]
    decreases n
  {
    if i < n - 1 {
      XorAt(a, b, n - 1, i);
    }
  }

  function Xor(a: Block, b: Block): Block { XorTo(a, b, BLOCK) }

  lemma XorTwice(a: Block, b: Block)
    ensures Xor(Xor(a, b), b) == a
  {
    forall i | 0 <= i < BLOCK ensures Xor(Xor(a, b), b)[i] == a[i] {
      XorAt(a, b, BLOCK, i);
      XorAt(Xor(a, b), b, BLOCK, i);
      ByteXorTwice(a[i], b[i]);
    }
  }

  lemma ByteXorTwice(x: bv8, y: bv8)
    ensures (x ^ y) ^ y == x
  {
  }

  // ---- the u32 path ----

  /** Four bytes as a little-endian word. */
  function Word(b0: bv8, b1: bv8, b2: bv8, b3: bv8): bv32
  {
    (b0 as bv32) | ((b1 as bv32) << 8) | ((b2 as bv32) << 16) | ((b3 as bv32) << 24)
  }

  function Low(w: bv32): bv8 { (w & 0xFF) as bv8 }

  /** Four bytes of each side loaded as words, combined, and stored again. */
  function XorWord(a0: bv8, a1: bv8, a2: bv8, a3: bv8, b0: bv8, b1: bv8, b2: bv8, b3: bv8): (r: seq<bv8>)
    ensures r == [a0 ^ b0, a1 ^ b1, a2 ^ b2, a3 ^ b3]
  {
    var w := Word(a0, a1, a2, a3) ^ Word(b0, b1, b2, b3);
    [Low(w), Low(w >> 8), Low(w >> 16), Low(w >> 24)]
  }

  lemma FourAtOnce(x: seq<bv8>, p: bv8, q: bv8, r: bv8, t: bv8)
    ensures (((x + [p]) + [q]) + [r]) + [t] == x + [p, q, r, t]
  {
  }

  /** Four bytes more. */
  lemma FourMore(a: Block, b: Block, k: nat)
    requires k + 4 <= BLOCK
    ensures XorTo(a, b, k + 4) == XorTo(a, b, k) + XorWord(a[k], a[k + 1], a[k + 2], a[k + 3],
                                                           b[k], b[k + 1], b[k + 2], b[k + 3])
  {
    var x := XorTo(a, b, k);
    var x1 := x + [a[k] ^ b[k]];
    assert XorTo(a, b, k + 1) == x1;
    var x2 := x1 + [a[k + 1] ^ b[k + 1]];
    assert XorTo(a, b, k + 2) == x2;
    var x3 := x2 + [a[k + 2] ^ b[k + 2]];
    assert XorTo(a, b, k + 3) == x3;
    FourAtOnce(x, a[k] ^ b[k], a[k + 1] ^ b[k + 1], a[k + 2] ^ b[k + 2], a[k + 3] ^ b[k + 3]);
  }

  /** Xor of the first n bytes word by word: the fast path computes the same bytes. */
  function XorWords(a: Block, b: Block, n: nat): (r: seq<bv8>)
    requires n in {0, 4, 8, 12, 16}
    ensures r == XorTo(a, b, n)
    decreases n, |a|
  {
    if n == 0 then []
    else
      var k := n - 4;
      FourMore(a, b, k);
      XorWords(a, b, k) + XorWord(a[k], a[k + 1], a[k + 2], a[k + 3], b[k], b[k + 1], b[k + 2], b[k + 3])
  }

  // ---- CBC ----

  function CbcEncrypt(c: Cipher, iv: Block, s: seq<bv8>): (r: seq<bv8>)
    requires |s| % BLOCK == 0
    ensures |r| == |s|
    decreases |s|
  {
    if s == [] then []
    else
      var b := Enc(c, Xor(s[..BLOCK], iv));
      b + CbcEncrypt(c, b, s[BLOCK..])
  }

  function CbcDecrypt(c: Cipher, iv: Block, s: seq<bv8>): (r: seq<bv8>)
    requires |s| % BLOCK == 0
    ensures |r| == |s|
    decreases |s|
  {
    if s == [] then []
    else Xor(Dec(c, s[..BLOCK]), iv) + CbcDecrypt(c, s[..BLOCK], s[BLOCK..])
  }

  /** The chaining value after a message: its last ciphertext block. */
  function LastBlock(iv: Block, s: seq<bv8>): Block
    requires |s| % BLOCK == 0
  {
    if s == [] then iv else s[|s| - BLOCK..]
  }

  /** Block i of a message. */
  function Nth(s: seq<bv8>, i: nat): Block
    requires BLOCK * (i + 1) <= |s|
  {
    s[BLOCK * i..BLOCK * (i + 1)]
  }

  /** What block i is chained to: the ciphertext block before it, the vector for the first. */
  function Before(iv: Block, cipher: seq<bv8>, i: nat): Block
    requires BLOCK * i <= |cipher|
  {
    if i == 0 then iv else Nth(cipher, i - 1)
  }

  /** The block behind a first one. */
  lemma NthBehind(b: Block, s: seq<bv8>, i: nat)
    requires BLOCK * (i + 1) <= |s|
    ensures Nth(b + s, i + 1) == Nth(s, i) && Nth(b + s, 0) == b
  {
  }

  lemma BeforeBehind(iv: Block, b: Block, s: seq<bv8>, i: nat)
    requires BLOCK * (i + 1) <= |s|
    ensures Before(iv, b + s, i + 1) == Before(b, s, i)
  {
    if i > 0 {
      NthBehind(b, s, i - 1);
    }
  }

  /** Every block of the output is the encryption of its plaintext xor the ciphertext block before it. */
  lemma {:induction false} CbcEncryptAt(c: Cipher, iv: Block, s: seq<bv8>, i: nat)
    requires |s| % BLOCK == 0 && BLOCK * (i + 1) <= |s|
    ensures var t := CbcEncrypt(c, iv, s);
            Nth(t, i) == Enc(c, Xor(Nth(s, i), Before(iv, t, i)))
    decreases i
  {
    var b, rest := Enc(c, Xor(s[..BLOCK], iv)), s[BLOCK..];
    var t := CbcEncrypt(c, b, rest);
    assert s == s[..BLOCK] + rest;
    if i == 0 {
      assert Nth(b + t, 0) == b;
    } else {
      CbcEncryptAt(c, b, rest, i - 1);
      NthBehind(s[..BLOCK], rest, i - 1);
      NthBehind(b, t, i - 1);
      BeforeBehind(iv, b, t, i - 1);
    }
  }

  /** Every block of the output is the decryption of its ciphertext xor the ciphertext block before it. */
  lemma {:induction false} CbcDecryptAt(c: Cipher, iv: Block, s: seq<bv8>, i: nat)
    requires |s| % BLOCK == 0 && BLOCK * (i + 1) <= |s|
    ensures Nth(CbcDecrypt(c, iv, s), i) == Xor(Dec(c, Nth(s, i)), Before(iv, s, i))
    decreases i
  {
    var b, rest := s[..BLOCK], s[BLOCK..];
    var t := CbcDecrypt(c, b, rest);
    assert s == b + rest;
    var first := Xor(Dec(c, b), iv);
    if i == 0 {
      assert Nth(first + t, 0) == first;
    } else {
      CbcDecryptAt(c, b, rest, i - 1);
      NthBehind(b, rest, i - 1);
      NthBehind(first, t, i - 1);
      BeforeBehind(iv, b, rest, i - 1);
    }
  }

  lemma {:induction false} CbcRoundTrip(c: Cipher, iv: Block, s: seq<bv8>)
    requires Inverse(c) && |s| % BLOCK == 0
    ensures CbcDecrypt(c, iv, CbcEncrypt(c, iv, s)) == s
    decreases |s|
  {
    if s != [] {
      var x := Xor(s[..BLOCK], iv);
      var b, r := Enc(c, x), CbcEncrypt(c, iv, s);
      assert r[..BLOCK] == b && r[BLOCK..] == CbcEncrypt(c, b, s[BLOCK..]);
      CbcRoundTrip(c, b, s[BLOCK..]);
      XorTwice(s[..BLOCK], iv);
      assert Dec(c, b) == x;
      assert s == s[..BLOCK] + s[BLOCK..];
    }
  }

  lemma LastIs(iv: Block, s: seq<bv8>, n: nat)
    requires |s| == BLOCK * n
    ensures Before(iv, s, n) == LastBlock(iv, s)
  {
  }

  lemma OneBlockMore(t: seq<bv8>, i: nat)
    requires BLOCK * (i + 1) <= |t|
    ensures t[..BLOCK * (i + 1)] == t[..BLOCK * i] + Nth(t, i)
  {
  }

  /** Xor as the chosen path does it. */
  function XorPath(aligned: bool, a: Block, b: Block): (r: Block)
    ensures r == Xor(a, b)
  {
    if aligned then XorWords(a, b, BLOCK) else Xor(a, b)
  }

  /** One block stored at an offset. */
  method PutBlock(a: array<bv8>, pos: nat, b: Block)
    requires pos + BLOCK <= a.Length
    modifies a
    ensures a[..pos + BLOCK] == old(a[..pos]) + b
    ensures forall k :: pos + BLOCK <= k < a.Length ==> a[k] == old(a[k])
  {
    var i := 0;
    while i < BLOCK
      invariant i <= BLOCK
      invariant a[..pos + i] == old(a[..pos]) + b[..i]
      invariant forall k :: pos + i <= k < a.Length ==> a[k] == old(a[k])
    {
      a[pos + i] := b[i];
      i := i + 1;
    }
  }

  method EncryptBlock(c: Cipher, aligned: bool, pos: nat, iv: array<bv8>, input: array<bv8>, output: array<bv8>)
    requires pos + BLOCK <= input.Length && pos + BLOCK <= output.Length
    requires iv.Length == BLOCK && iv != input && iv != output
    modifies iv, output
    ensures var b, v := old(input[pos..pos + BLOCK]), old(iv[..]);
            var r := Enc(c, Xor(b, v));
            output[..pos + BLOCK] == old(output[..pos]) + r && iv[..] == r
    ensures forall k :: pos + BLOCK <= k < output.Length ==> output[k] == old(output[k])
  {
    var b: Block, v: Block := input[pos..pos + BLOCK], iv[..];
    var e := Enc(c, XorPath(aligned, b, v));
    PutBlock(output, pos, e);
    PutBlock(iv, 0, e);
    assert iv[..] == iv[..BLOCK];
  }

  /** One turn of the loop: i blocks of the result t are there. */
  method EncryptNext(c: Cipher, aligned: bool, pos: nat, ghost iv0: Block, ghost s: seq<bv8>, ghost t: seq<bv8>,
                     ghost i: nat, iv: array<bv8>, input: array<bv8>, output: array<bv8>)
    requires pos == BLOCK * i && pos + BLOCK <= |s| <= input.Length && |s| <= output.Length
    requires |s| % BLOCK == 0 && t == CbcEncrypt(c, iv0, s)
    requires iv.Length == BLOCK && iv != input && iv != output
    requires forall k :: pos <= k < |s| ==> input[k] == s[k]
    requires output[..pos] == t[..pos] && iv[..] == Before(iv0, t, i)
    modifies iv, output
    ensures output[..pos + BLOCK] == t[..pos + BLOCK] && iv[..] == Before(iv0, t, i + 1)
    ensures forall k :: pos + BLOCK <= k < |s| ==> input[k] == s[k]
    ensures forall k :: |s| <= k < output.Length ==> output[k] == old(output[k])
  {
    assert input[pos..pos + BLOCK] == Nth(s, i);
    CbcEncryptAt(c, iv0, s, i);
    EncryptBlock(c, aligned, pos, iv, input, output);
    OneBlockMore(t, i);
  }

  method CryptCbcEncrypt(c: Cipher, length: nat, aligned: bool, iv: array<bv8>, input: array<bv8>, output: array<bv8>)
    requires length % BLOCK == 0 && length <= input.Length && length <= output.Length
    requires iv.Length == BLOCK && iv != input && iv != output
    modifies iv, output
    ensures output[..length] == CbcEncrypt(c, old(iv[..]), old(input[..length]))
    ensures iv[..] == LastBlock(old(iv[..]), output[..length])
    ensures forall k :: length <= k < output.Length ==> output[k] == old(output[k])
  {
    ghost var iv0: Block, s, i: nat := iv[..], input[..length], 0;
    ghost var t := CbcEncrypt(c, iv0, s);
    var pos := 0;
    while pos < length
      invariant pos == BLOCK * i <= length
      invariant output[..pos] == t[..pos] && iv[..] == Before(iv0, t, i)
      invariant forall k :: pos <= k < length ==> input[k] == s[k]
      invariant forall k :: length <= k < output.Length ==> output[k] == old(output[k])
    {
      EncryptNext(c, aligned, pos, iv0, s, t, i, iv, input, output);
      pos, i := pos + BLOCK, i + 1;
    }
    LastIs(iv0, t, i);
  }

  method DecryptBlock(c: Cipher, aligned: bool, pos: nat, iv: array<bv8>, input: array<bv8>, output: array<bv8>)
    requires pos + BLOCK <= input.Length && pos + BLOCK <= output.Length
    requires iv.Length == BLOCK && iv != input && iv != output
    modifies iv, output
    ensures var b, v := old(input[pos..pos + BLOCK]), old(iv[..]);
            var r := Xor(Dec(c, b), v);
            output[..pos + BLOCK] == old(output[..pos]) + r && iv[..] == b
    ensures forall k :: pos + BLOCK <= k < output.Length ==> output[k] == old(output[k])
  {
    var b: Block, v: Block := input[pos..pos + BLOCK], iv[..];
    PutBlock(output, pos, XorPath(aligned, Dec(c, b), v));
    PutBlock(iv, 0, b);
    assert iv[..] == iv[..BLOCK];
  }

  /** One turn of the loop: i blocks of the result t are there. */
  method DecryptNext(c: Cipher, aligned: bool, pos: nat, ghost iv0: Block, ghost s: seq<bv8>, ghost t: seq<bv8>,
                     ghost i: nat, iv: array<bv8>, input: array<bv8>, output: array<bv8>)
    requires pos == BLOCK * i && pos + BLOCK <= |s| <= input.Length && |s| <= output.Length
    requires |s| % BLOCK == 0 && t == CbcDecrypt(c, iv0, s)
    requires iv.Length == BLOCK && iv != input && iv != output
    requires forall k :: pos <= k < |s| ==> input[k] == s[k]
    requires output[..pos] == t[..pos] && iv[..] == Before(iv0, s, i)
    modifies iv, output
    ensures output[..pos + BLOCK] == t[..pos + BLOCK] && iv[..] == Before(iv0, s, i + 1)
    ensures forall k :: pos + BLOCK <= k < |s| ==> input[k] == s[k]
    ensures forall k :: |s| <= k < output.Length ==> output[k] == old(output[k])
  {
    assert input[pos..pos + BLOCK] == Nth(s, i);
    CbcDecryptAt(c, iv0, s, i);
    DecryptBlock(c, aligned, pos, iv, input, output);
    OneBlockMore(t, i);
  }

  method CryptCbcDecrypt(c: Cipher, length: nat, aligned: bool, iv: array<bv8>, input: array<bv8>, output: array<bv8>)
    requires length % BLOCK == 0 && length <= input.Length && length <= output.Length
    requires iv.Length == BLOCK && iv != input && iv != output
    modifies iv, output
    ensures output[..length] == CbcDecrypt(c, old(iv[..]), old(input[..length]))
    ensures iv[..] == LastBlock(old(iv[..]), old(input[..length]))
    ensures forall k :: length <= k < output.Length ==> output[k] == old(output[k])
  {
    ghost var iv0: Block, s, i: nat := iv[..], input[..length], 0;
    ghost var t := CbcDecrypt(c, iv0, s);
    var pos := 0;
    while pos < length
      invariant pos == BLOCK * i <= length
      invariant output[..pos] == t[..pos] && iv[..] == Before(iv0, s, i)
      invariant forall k :: pos <= k < length ==> input[k] == s[k]
      invariant forall k :: length <= k < output.Length ==> output[k] == old(output[k])
    {
      DecryptNext(c, aligned, pos, iv0, s, t, i, iv, input, output);
      pos, i := pos + BLOCK, i + 1;
    }
    LastIs(iv0, s, i);
  }

  /** aes_crypt_cbc; input and output may be the same buffer. */
  method CryptCbc(c: Cipher, decrypt: bool, length: nat, aligned: bool,
                  iv: array<bv8>, input: array<bv8>, output: array<bv8>)
    requires length % BLOCK == 0 && length <= input.Length && length <= output.Length
    requires iv.Length == BLOCK && iv != input && iv != output
    modifies iv, output
    ensures output[..length] == if decrypt then CbcDecrypt(c, old(iv[..]), old(input[..length]))
                                else CbcEncrypt(c, old(iv[..]), old(input[..length]))
    ensures iv[..] == LastBlock(old(iv[..]), if decrypt then old(input[..length]) else output[..length])
    ensures forall k :: length <= k < output.Length ==> output[k] == old(output[k])
  {
    if decrypt {
      CryptCbcDecrypt(c, length, aligned, iv, input, output);
    } else {
      CryptCbcEncrypt(c, length, aligned, iv, input, output);
    }
  }

  // ---- CFB128 ----

  /** The shift register and the offset into it. */
  datatype Cfb = Cfb(iv: Block, n: nat)

  type CfbState = x: Cfb | x.n < BLOCK witness Cfb(seq(BLOCK, _ => 0), 0)

  /** (n + 1) & 0x0F */
  function Advance(n: nat): (r: nat)
    requires n < BLOCK
    ensures r < BLOCK
  {
    if n + 1 == BLOCK then 0 else n + 1
  }

  /** One byte: what comes out, and the state after it. */
  function CfbByte(c: Cipher, decrypt: bool, x: CfbState, in': bv8): (bv8, CfbState)
  {
    var iv := if x.n == 0 then Enc(c, x.iv) else x.iv;
    var out := in' ^ iv[x.n];
    (out, Cfb(iv[x.n := if decrypt then in' else out], Advance(x.n)))
  }

  function CfbRun(c: Cipher, decrypt: bool, x: CfbState, s: seq<bv8>): (r: (seq<bv8>, CfbState))
    ensures |r.0| == |s|
  {
    if s == [] then ([], x)
    else
      var (front, y) := CfbRun(c, decrypt, x, s[..|s| - 1]);
      var (out, z) := CfbByte(c, decrypt, y, s[|s| - 1]);
      (front + [out], z)
  }

  /** Splitting a call at any byte changes nothing: output, shift register and offset agree. */
  lemma {:induction false} CfbSplit(c: Cipher, decrypt: bool, x: CfbState, a: seq<bv8>, b: seq<bv8>)
    ensures var (p, y) := CfbRun(c, decrypt, x, a);
            var (q, z) := CfbRun(c, decrypt, y, b);
            CfbRun(c, decrypt, x, a + b) == (p + q, z)
  {
    if b == [] {
      assert a + b == a && CfbRun(c, decrypt, x, a).0 + [] == CfbRun(c, decrypt, x, a).0;
    } else {
      assert (a + b)[..|a + b| - 1] == a + b[..|b| - 1];
      CfbSplit(c, decrypt, x, a, b[..|b| - 1]);
      var (p, y) := CfbRun(c, decrypt, x, a);
      var (q, z) := CfbRun(c, decrypt, y, b[..|b| - 1]);
      var out := CfbByte(c, decrypt, z, b[|b| - 1]).0;
      assert CfbRun(c, decrypt, x, a + b).0 == p + q + [out] == p + (q + [out]);
    }
  }

  lemma CfbRunMore(c: Cipher, decrypt: bool, x: CfbState, s: seq<bv8>, b: bv8)
    ensures var (p, y) := CfbRun(c, decrypt, x, s);
            var (out, z) := CfbByte(c, decrypt, y, b);
            CfbRun(c, decrypt, x, s + [b]) == (p + [out], z)
  {
    assert (s + [b])[..|s|] == s;
  }

  /** The register the next bytes are combined with: encrypted when the old one is used up. */
  function Key(c: Cipher, x: CfbState): Block { if x.n == 0 then Enc(c, x.iv) else x.iv }

  /** The ciphertext of a call, whichever way it goes. */
  function Ciphertext(decrypt: bool, s: seq<bv8>, out: seq<bv8>): seq<bv8> { if decrypt then s else out }

  /** The register w with the ciphertext t from byte n on. */
  ghost predicate Shifted(w: Block, n: nat, t: seq<bv8>, iv: Block)
    requires n + |t| <= 16
  {
    forall k :: 0 <= k < 16 ==> iv[k] == if n <= k < n + |t| then t[k - n] else w[k]
  }

  lemma ShiftedMore(w: Block, n: nat, t: seq<bv8>, iv: Block, b: bv8)
    requires n + |t| < 16 && Shifted(w, n, t, iv)
    ensures Shifted(w, n, t + [b], iv[n + |t| := b])
  {
  }

  /** What the register holds after a call that has not used it up, and where it goes on. */
  ghost predicate RegisterHolds(c: Cipher, decrypt: bool, x: CfbState, s: seq<bv8>, key: Block)
    requires x.n + |s| <= 16
  {
    Shifted(Key(c, x), x.n, Ciphertext(decrypt, s, CfbRun(c, decrypt, x, s).0), key)
  }

  lemma RegisterMore(c: Cipher, decrypt: bool, x: CfbState, s: seq<bv8>, y: CfbState, b: bv8)
    requires x.n + |s| < 16 && y == CfbRun(c, decrypt, x, s).1 && y.n == x.n + |s|
    requires RegisterHolds(c, decrypt, x, s, Key(c, y))
    ensures var z := CfbRun(c, decrypt, x, s + [b]).1;
            && RegisterHolds(c, decrypt, x, s + [b], z.iv)
            && z.n == if x.n + |s| + 1 == 16 then 0 else x.n + |s| + 1
  {
    var out := CfbRun(c, decrypt, x, s).0;
    var next := CfbByte(c, decrypt, y, b).0;
    CfbRunMore(c, decrypt, x, s, b);
    ShiftedMore(Key(c, x), x.n, Ciphertext(decrypt, s, out), Key(c, y), if decrypt then b else next);
  }

  /**
   As many bytes as the register has left: the ciphertext takes the place of the bytes used, and a register used up
   starts over.
   */
  lemma {:induction false} CfbRegister(c: Cipher, decrypt: bool, x: CfbState, s: seq<bv8>)
    requires 0 < |s| <= 16 - x.n
    ensures var (out, y) := CfbRun(c, decrypt, x, s);
            && Shifted(Key(c, x), x.n, Ciphertext(decrypt, s, out), y.iv)
            && y.n == if x.n + |s| == 16 then 0 else x.n + |s|
  {
    var a := s[..|s| - 1];
    if a != [] {
      CfbRegister(c, decrypt, x, a);
    }
    assert s == a + [s[|s| - 1]];
    RegisterMore(c, decrypt, x, a, CfbRun(c, decrypt, x, a).1, s[|s| - 1]);
  }

  lemma OutIs(c: Cipher, decrypt: bool, y: CfbState, b: bv8, w: bv8)
    requires Key(c, y)[y.n] == w
    ensures CfbByte(c, decrypt, y, b).0 == b ^ w
  {
  }

  /** Each of them comes out as the input xor its byte of the register. */
  lemma {:induction false} CfbFirst(c: Cipher, decrypt: bool, x: CfbState, s: seq<bv8>, k: nat)
    requires k < |s| <= 16 - x.n
    ensures CfbRun(c, decrypt, x, s).0[k] == s[k] ^ Key(c, x)[x.n + k]
  {
    var a := s[..|s| - 1];
    if k < |a| {
      CfbFirst(c, decrypt, x, a, k);
    } else {
      if a != [] {
        CfbRegister(c, decrypt, x, a);
      }
      var y := CfbRun(c, decrypt, x, a).1;
      assert Key(c, y)[y.n] == Key(c, x)[x.n + k];
      OutIs(c, decrypt, y, s[k], Key(c, x)[x.n + k]);
    }
  }

  /** The bytes of a block or less xor the first bytes of a register. */
  function Xored(w: Block, s: seq<bv8>): (r: seq<bv8>)
    requires |s| <= 16
    ensures |r| == |s|
  {
    if s == [] then [] else Xored(w, s[..|s| - 1]) + [s[|s| - 1] ^ w[|s| - 1]]
  }

  lemma {:induction false} XoredAt(w: Block, s: seq<bv8>, k: nat)
    requires k < |s| <= 16
    ensures Xored(w, s)[k] == s[k] ^ w[k]
  {
    if k < |s| - 1 {
      XoredAt(w, s[..|s| - 1], k);
    }
  }

  lemma CfbIsXored(c: Cipher, decrypt: bool, before: Block, s: seq<bv8>)
    requires |s| <= 16
    ensures CfbRun(c, decrypt, Cfb(before, 0), s).0 == Xored(Enc(c, before), s)
  {
    var x: CfbState := Cfb(before, 0);
    forall k | 0 <= k < |s| ensures CfbRun(c, decrypt, x, s).0[k] == Xored(Enc(c, before), s)[k] {
      CfbFirst(c, decrypt, x, s, k);
      XoredAt(Enc(c, before), s, k);
    }
  }

  /** CFB as the standard has it: each block is combined with the encryption of the ciphertext block before it. */
  function Standard(c: Cipher, decrypt: bool, before: Block, s: seq<bv8>): seq<bv8>
    decreases |s|
  {
    if |s| <= 16 then Xored(Enc(c, before), s)
    else
      var out := Xored(Enc(c, before), s[..16]);
      out + Standard(c, decrypt, Ciphertext(decrypt, s[..16], out), s[16..])
  }

  /** A whole block: the ciphertext is the register for the next one. */
  lemma CfbBlock(c: Cipher, decrypt: bool, before: Block, s: seq<bv8>)
    requires |s| == 16
    ensures var out := Xored(Enc(c, before), s);
            CfbRun(c, decrypt, Cfb(before, 0), s) == (out, Cfb(Ciphertext(decrypt, s, out), 0))
  {
    var x: CfbState := Cfb(before, 0);
    var (out, y) := CfbRun(c, decrypt, x, s);
    CfbIsXored(c, decrypt, before, s);
    CfbRegister(c, decrypt, x, s);
    assert y.iv == Ciphertext(decrypt, s, out);
  }

  /** At a block boundary the byte loop computes just that. */
  lemma {:induction false} CfbIsStandard(c: Cipher, decrypt: bool, before: Block, s: seq<bv8>)
    ensures CfbRun(c, decrypt, Cfb(before, 0), s).0 == Standard(c, decrypt, before, s)
    decreases |s|
  {
    var x: CfbState := Cfb(before, 0);
    if |s| <= 16 {
      CfbIsXored(c, decrypt, before, s);
    } else {
      CfbBlock(c, decrypt, before, s[..16]);
      CfbSplit(c, decrypt, x, s[..16], s[16..]);
      assert s[..16] + s[16..] == s;
      CfbIsStandard(c, decrypt, Ciphertext(decrypt, s[..16], Xored(Enc(c, before), s[..16])), s[16..]);
    }
  }

  /** What the round trip is for, on a message with the run on it. */
  ghost predicate ComesBack(c: Cipher, x: CfbState, s: seq<bv8>)
  {
    CfbRun(c, true, x, CfbRun(c, false, x, s).0) == (s, CfbRun(c, false, x, s).1)
  }

  lemma ComesBackMore(c: Cipher, x: CfbState, s: seq<bv8>, b: bv8)
    requires ComesBack(c, x, s)
    ensures ComesBack(c, x, s + [b])
  {
    var (t, y) := CfbRun(c, false, x, s);
    CfbRunMore(c, false, x, s, b);
    CfbByteBack(c, y, b);
    CfbRunMore(c, true, x, t, CfbByte(c, false, y, b).0);
  }

  lemma {:induction false} FrontComesBack(c: Cipher, x: CfbState, s: seq<bv8>, n: nat)
    requires n <= |s|
    ensures ComesBack(c, x, s[..n])
    decreases n
  {
    if n == 0 {
      assert s[..n] == [];
    } else {
      FrontComesBack(c, x, s, n - 1);
      ComesBackMore(c, x, s[..n - 1], s[n - 1]);
      assert s[..n] == s[..n - 1] + [s[n - 1]];
    }
  }

  /** Decryption undoes encryption and leaves the same state; the cipher only ever encrypts. */
  lemma {:induction false} CfbRoundTrip(c: Cipher, x: CfbState, s: seq<bv8>)
    ensures var (t, y) := CfbRun(c, false, x, s);
            CfbRun(c, true, x, t) == (s, y)
  {
    FrontComesBack(c, x, s, |s|);
    assert s[..|s|] == s;
  }

  lemma CfbByteBack(c: Cipher, x: CfbState, b: bv8)
    ensures var (out, y) := CfbByte(c, false, x, b);
            CfbByte(c, true, x, out) == (b, y)
  {
    ByteXorTwice(b, (if x.n == 0 then Enc(c, x.iv) else x.iv)[x.n]);
  }

  lemma CfbByteIs(c: Cipher, decrypt: bool, x: CfbState, w: Block, ch: bv8, out: bv8)
    requires w == (if x.n == 0 then Enc(c, x.iv) else x.iv) && out == ch ^ w[x.n]
    ensures CfbByte(c, decrypt, x, ch) == (out, Cfb(w[x.n := if decrypt then ch else out], Advance(x.n)))
  {
  }

  /** The register is encrypted in place when it is used up. */
  method Refill(c: Cipher, n: nat, iv: array<bv8>)
    requires iv.Length == BLOCK
    modifies iv
    ensures iv[..] == if n == 0 then Enc(c, old(iv[..])) else old(iv[..])
  {
    if n == 0 {
      PutBlock(iv, 0, Enc(c, iv[..]));
      assert iv[..] == iv[..BLOCK];
    }
  }

  method ShiftIn(iv: array<bv8>, n: nat, b: bv8)
    requires n < iv.Length
    modifies iv
    ensures iv[..] == old(iv[..])[n := b]
  {
    iv[n] := b;
  }

  /** The body of the byte loop. */
  method CfbOne(c: Cipher, decrypt: bool, i: nat, n: nat, iv: array<bv8>, input: array<bv8>, output: array<bv8>)
    returns (m: nat)
    requires i < input.Length && i < output.Length && n < BLOCK
    requires iv.Length == BLOCK && iv != input && iv != output
    modifies iv, output
    ensures m < BLOCK
    ensures CfbByte(c, decrypt, Cfb(old(iv[..]), n), old(input[i])) == (output[i], Cfb(iv[..], m))
    ensures forall k :: 0 <= k < output.Length && k != i ==> output[k] == old(output[k])
  {
    ghost var x: CfbState := Cfb(iv[..], n);
    Refill(c, n, iv);
    ghost var w: Block := iv[..];
    var ch := input[i];
    var out := ch ^ iv[n];
    output[i] := out;
    ShiftIn(iv, n, if decrypt then ch else out);
    CfbByteIs(c, decrypt, x, w, ch, out);
    m := Advance(n);
  }

  /** One turn of the loop: i bytes are done. */
  method CfbNext(c: Cipher, decrypt: bool, i: nat, n: nat, ghost x: CfbState, ghost s: seq<bv8>,
                 iv: array<bv8>, input: array<bv8>, output: array<bv8>) returns (m: nat)
    requires i < |s| <= input.Length && |s| <= output.Length && n < BLOCK
    requires iv.Length == BLOCK && iv != input && iv != output
    requires CfbRun(c, decrypt, x, s[..i]) == (output[..i], Cfb(iv[..], n))
    requires forall k :: i <= k < |s| ==> input[k] == s[k]
    modifies iv, output
    ensures m < BLOCK
    ensures CfbRun(c, decrypt, x, s[..i + 1]) == (output[..i + 1], Cfb(iv[..], m))
    ensures forall k :: i < k < |s| ==> input[k] == s[k]
    ensures forall k :: |s| <= k < output.Length ==> output[k] == old(output[k])
  {
    ghost var done := output[..i];
    assert s[..i + 1][..i] == s[..i];
    m := CfbOne(c, decrypt, i, n, iv, input, output);
    assert output[..i + 1] == done + [output[i]];
  }

  /** aes_crypt_cfb128; input and output may be the same buffer. */
  method CryptCfb128(c: Cipher, decrypt: bool, length: nat, ivOff: nat,
                     iv: array<bv8>, input: array<bv8>, output: array<bv8>) returns (n: nat)
    requires length <= input.Length && length <= output.Length && ivOff < BLOCK
    requires iv.Length == BLOCK && iv != input && iv != output
    modifies iv, output
    ensures n < BLOCK
    ensures CfbRun(c, decrypt, Cfb(old(iv[..]), ivOff), old(input[..length])) == (output[..length], Cfb(iv[..], n))
    ensures forall k :: length <= k < output.Length ==> output[k] == old(output[k])
  {
    ghost var x: CfbState, s := Cfb(iv[..], ivOff), input[..length];
    n := ivOff;
    var i := 0;
    while i < length
      invariant i <= length && n < BLOCK
      invariant CfbRun(c, decrypt, x, s[..i]) == (output[..i], Cfb(iv[..], n))
      invariant forall k :: i <= k < length ==> input[k] == s[k]
      invariant forall k :: length <= k < output.Length ==> output[k] == old(output[k])
    {
      n := CfbNext(c, decrypt, i, n, x, s, iv, input, output);
      i := i + 1;
    }
    assert s[..length] == s;
  }
}
