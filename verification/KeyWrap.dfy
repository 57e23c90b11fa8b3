/** AES Key Wrap as the Lumo client implements it (RFC 3394).

    The block cipher is an arbitrary pair of inverse functions on 16-byte blocks.  The
    in-place loops are proved equal to a step-indexed specification, the specification
    is proved invertible in both directions, and it is proved equal to the
    register-shifting description in section 2.2.1 of RFC 3394. */
module KeyWrap {
  import Blocks
  import opened Outcomes

  type Byte = Blocks.Byte

  const ROUNDS: nat := 6
  const IV_BYTE: Byte := 0xA6

  /** A keyed block cipher. */
  datatype Cipher = Cipher(encrypt: seq<Byte> -> seq<Byte>, decrypt: seq<Byte> -> seq<Byte>)

  /** The two directions are inverse on 16-byte blocks. */
  ghost predicate IsBlockCipher(c: Cipher) {
    && (forall b {:trigger c.encrypt(b)} | |b| == 16 :: |c.encrypt(b)| == 16)
    && (forall b {:trigger c.decrypt(b)} | |b| == 16 :: |c.decrypt(b)| == 16)
    && (forall b {:trigger c.decrypt(c.encrypt(b))} | |b| == 16 :: c.decrypt(c.encrypt(b)) == b)
    && (forall b {:trigger c.encrypt(c.decrypt(b))} | |b| == 16 :: c.encrypt(c.decrypt(b)) == b)
  }

  datatype WrapError = BadLength | BadKey | IntegrityFailure

  /** The accumulator A and the concatenated registers R[1] .. R[n]. */
  datatype Registers = Registers(a: seq<Byte>, r: seq<Byte>)

  ghost predicate Shaped(s: Registers, n: nat) {
    |s.a| == 8 && |s.r| == 8 * n
  }

  // ----- the counter -----

  /** t shifted right by the given number of bytes. */
  function ShiftRight(t: nat, bytes: nat): nat {
    if bytes == 0 then t else ShiftRight(t / 256, bytes - 1)
  }

  /** Go's byte(t >> (8 * bytes)). */
  function ByteAt(t: nat, bytes: nat): Byte {
    (ShiftRight(t, bytes) % 256) as Byte
  }

  /** The big-endian representation of t in the given number of bytes. */
  function BigEndian(t: nat, width: nat): (b: seq<Byte>)
    ensures |b| == width
  {
    if width == 0 then [] else BigEndian(t / 256, width - 1) + [ByteAt(t, 0)]
  }

  /** Exclusive or of the low bits of x and y, bit by bit. */
  function XorBits(x: nat, y: nat, bits: nat): (z: nat)
  {
    if bits == 0 then 0
    else (if x % 2 == y % 2 then 0 else 1) + 2 * XorBits(x / 2, y / 2, bits - 1)
  }

  function Power2(bits: nat): (p: nat)
    ensures p > 0
  {
    if bits == 0 then 1 else 2 * Power2(bits - 1)
  }

  /** Dividing by a power step by step, lowest digit first. */
  lemma PowersDivide(n: nat, base: nat, k: nat)
    requires base in {2, 256} && k > 0
    ensures n / base / k == n / (base * k)
  {
    var q := n / base / k;
    var below := k * q;
    DividesInto(n / base, k, q);
    assert base * k * q == base * below;
    QuotientIs(n, base * k, q);
  }

  lemma DividesInto(n: nat, m: nat, q: nat)
    requires m > 0 && n / m == q
    ensures 0 <= n - m * q < m
  {}

  lemma QuotientIs(n: nat, m: nat, q: nat)
    requires m > 0 && 0 <= n - m * q < m
    ensures n / m == q
  {
    var p := n / m;
    DividesInto(n, m, p);
    if p > q { Spaced(m, q, p); }
    if p < q { Spaced(m, p, q); }
  }

  lemma {:induction false} Spaced(m: nat, p: nat, q: nat)
    requires p < q
    ensures m * p + m <= m * q
  {
    if p < q - 1 { Spaced(m, p, q - 1); }
    assert m * q == m * (q - 1) + m;
  }

  lemma {:induction false} XorBitsAt(x: nat, y: nat, bits: nat, k: nat)
    requires k < bits
    ensures (XorBits(x, y, bits) / Power2(k)) % 2 == if (x / Power2(k)) % 2 == (y / Power2(k)) % 2 then 0 else 1
  {
    if k > 0 {
      XorBitsAt(x / 2, y / 2, bits - 1, k - 1);
      HigherBit(x, k);
      HigherBit(y, k);
      HigherBit(XorBits(x, y, bits), k);
      XorBitsHalf(x, y, bits);
    }
  }

  lemma HigherBit(n: nat, k: nat)
    requires k > 0
    ensures n / Power2(k) == n / 2 / Power2(k - 1)
  {
    PowersDivide(n, 2, Power2(k - 1));
  }

  lemma XorBitsHalf(x: nat, y: nat, bits: nat)
    requires bits > 0
    ensures XorBits(x, y, bits) / 2 == XorBits(x / 2, y / 2, bits - 1)
  {
  }

  /** Each bit of the exclusive or is set exactly when that bit of the two bytes differs. */
  lemma XorByteBits(x: Byte, y: Byte, k: nat)
    requires k < 8
    ensures (XorByte(x, y) as nat / Power2(k)) % 2 == 1 <==>
            (x as nat / Power2(k)) % 2 != (y as nat / Power2(k)) % 2
  {
    XorBitsAt(x as nat, y as nat, 8, k);
  }

  function Power256(k: nat): (p: nat)
    ensures p > 0
  {
    if k == 0 then 1 else 256 * Power256(k - 1)
  }

  /** The bytes xored in are the digits of the counter in base 256. */
  lemma {:induction false} ByteIsDigit(t: nat, k: nat)
    ensures ByteAt(t, k) as nat == (t / Power256(k)) % 256
  {
    ShiftIsDivision(t, k);
  }

  lemma {:induction false} ShiftIsDivision(t: nat, k: nat)
    ensures ShiftRight(t, k) == t / Power256(k)
  {
    if k > 0 {
      ShiftIsDivision(t / 256, k - 1);
      PowersDivide(t, 256, Power256(k - 1));
    }
  }

  lemma {:induction false} XorBitsBound(x: nat, y: nat, bits: nat)
    ensures XorBits(x, y, bits) < Power2(bits)
  {
    if bits > 0 { XorBitsBound(x / 2, y / 2, bits - 1); }
  }

  lemma {:induction false} XorBitsCancels(x: nat, y: nat, bits: nat)
    requires x < Power2(bits)
    ensures XorBits(XorBits(x, y, bits), y, bits) == x
  {
    if bits > 0 { XorBitsCancels(x / 2, y / 2, bits - 1); }
  }

  /** Go's x ^ y on bytes. */
  function XorByte(x: Byte, y: Byte): Byte {
    XorBitsBound(x as nat, y as nat, 8);
    assert Power2(8) == 256;
    XorBits(x as nat, y as nat, 8) as Byte
  }

  function Xor(x: seq<Byte>, y: seq<Byte>): (z: seq<Byte>)
    requires |x| == |y|
    ensures |z| == |x|
  {
    XorPrefix(x, y, |x|)
  }

  function XorPrefix(x: seq<Byte>, y: seq<Byte>, k: nat): (z: seq<Byte>)
    requires k <= |x| == |y|
    ensures |z| == k
  {
    if k == 0 then [] else XorPrefix(x, y, k - 1) + [XorByte(x[k - 1], y[k - 1])]
  }

  lemma {:induction false} XorAt(x: seq<Byte>, y: seq<Byte>, n: nat, k: nat)
    requires k < n <= |x| == |y|
    ensures XorPrefix(x, y, n)[k] == XorByte(x[k], y[k])
  {
    if k < n - 1 { XorAt(x, y, n - 1, k); }
  }

  lemma XorCancels(x: seq<Byte>, y: seq<Byte>)
    requires |x| == |y|
    ensures Xor(Xor(x, y), y) == x
  {
    forall k | 0 <= k < |x|
      ensures Xor(Xor(x, y), y)[k] == x[k]
    {
      XorAt(x, y, |x|, k);
      XorAt(Xor(x, y), y, |x|, k);
      assert Power2(8) == 256;
      XorBitsCancels(x[k] as nat, y[k] as nat, 8);
    }
  }

  function Counter(t: nat): (b: seq<Byte>)
    ensures |b| == 8
  {
    BigEndian(t, 8)
  }

  lemma {:induction false} BigEndianByte(t: nat, width: nat, k: nat)
    requires k < width
    ensures BigEndian(t, width)[k] == ByteAt(t, width - 1 - k)
  {
    if k < width - 1 { BigEndianByte(t / 256, width - 1, k); }
  }

  /** XORs the 8-byte big-endian representation of t into a. */
  method XorCounter(a: array<Byte>, t: nat)
    requires a.Length == 8
    modifies a
    ensures a[..] == Xor(old(a[..]), Counter(t))
  {
    ghost var before := a[..];
    a[0] := XorByte(a[0], ByteAt(t, 7));
    a[1] := XorByte(a[1], ByteAt(t, 6));
    a[2] := XorByte(a[2], ByteAt(t, 5));
    a[3] := XorByte(a[3], ByteAt(t, 4));
    a[4] := XorByte(a[4], ByteAt(t, 3));
    a[5] := XorByte(a[5], ByteAt(t, 2));
    a[6] := XorByte(a[6], ByteAt(t, 1));
    a[7] := XorByte(a[7], ByteAt(t, 0));
    forall k | 0 <= k < 8
      ensures a[..][k] == Xor(before, Counter(t))[k]
    {
      BigEndianByte(t, 8, k);
      XorAt(before, Counter(t), 8, k);
    }
  }

  // ----- one step -----

  /** Replaces register i (0-based) of r. */
  function WithRegister(r: seq<Byte>, i: nat, half: seq<Byte>): (r': seq<Byte>)
    requires 8 * i + 8 <= |r| && |half| == 8
    ensures |r'| == |r|
  {
    r[..8 * i] + half + r[8 * i + 8..]
  }

  /** The wrapping step with counter t on register i (0-based). */
  ghost function Seal(c: Cipher, t: nat, i: nat, s: Registers): (s': Registers)
    requires IsBlockCipher(c) && |s.a| == 8 && 8 * i + 8 <= |s.r|
    ensures |s'.a| == 8 && |s'.r| == |s.r|
  {
    var b := c.encrypt(s.a + s.r[8 * i..8 * i + 8]);
    Registers(Xor(b[..8], Counter(t)), WithRegister(s.r, i, b[8..]))
  }

  ghost function Unseal(c: Cipher, t: nat, i: nat, s: Registers): (s': Registers)
    requires IsBlockCipher(c) && |s.a| == 8 && 8 * i + 8 <= |s.r|
    ensures |s'.a| == 8 && |s'.r| == |s.r|
  {
    var b := c.decrypt(Xor(s.a, Counter(t)) + s.r[8 * i..8 * i + 8]);
    Registers(b[..8], WithRegister(s.r, i, b[8..]))
  }

  /** A step byte by byte: the high half of the enciphered block, with the digits of the
      counter xored in, becomes A, the low half becomes register i, the rest stays. */
  lemma SealBytes(c: Cipher, t: nat, i: nat, s: Registers, k: nat)
    requires IsBlockCipher(c) && |s.a| == 8 && 8 * i + 8 <= |s.r|
    requires k < |s.r|
    ensures var b := c.encrypt(s.a + s.r[8 * i..8 * i + 8]);
            && (k < 8 ==> Seal(c, t, i, s).a[k] == XorByte(b[k], ByteAt(t, 7 - k)))
            && Seal(c, t, i, s).r[k] == if 8 * i <= k < 8 * i + 8 then b[8 + k - 8 * i] else s.r[k]
  {
    var b := c.encrypt(s.a + s.r[8 * i..8 * i + 8]);
    if k < 8 {
      BigEndianByte(t, 8, k);
      XorAt(b[..8], Counter(t), 8, k);
    }
  }

  lemma UnsealSeal(c: Cipher, t: nat, i: nat, s: Registers)
    requires IsBlockCipher(c) && |s.a| == 8 && 8 * i + 8 <= |s.r|
    ensures Unseal(c, t, i, Seal(c, t, i, s)) == s
  {
    var block := s.a + s.r[8 * i..8 * i + 8];
    var b := c.encrypt(block);
    var s' := Seal(c, t, i, s);
    XorCancels(b[..8], Counter(t));
    assert s'.r[8 * i..8 * i + 8] == b[8..];
    assert b[..8] + b[8..] == b;
    assert block[..8] == s.a && block[8..] == s.r[8 * i..8 * i + 8];
    assert WithRegister(s'.r, i, block[8..]) == s.r;
  }

  lemma SealUnseal(c: Cipher, t: nat, i: nat, s: Registers)
    requires IsBlockCipher(c) && |s.a| == 8 && 8 * i + 8 <= |s.r|
    ensures Seal(c, t, i, Unseal(c, t, i, s)) == s
  {
    var block := Xor(s.a, Counter(t)) + s.r[8 * i..8 * i + 8];
    var b := c.decrypt(block);
    var s' := Unseal(c, t, i, s);
    XorCancels(s.a, Counter(t));
    assert s'.r[8 * i..8 * i + 8] == b[8..];
    assert b[..8] + b[8..] == b;
    assert block[..8] == Xor(s.a, Counter(t)) && block[8..] == s.r[8 * i..8 * i + 8];
    assert WithRegister(s'.r, i, block[8..]) == s.r;
  }

  // ----- the whole process, over any step function -----

  /** A step takes the counter, the register (0-based) and the registers. */
  type Step = (nat, nat, Registers) -> Registers

  /** The first i steps of a pass; the step on register k has counter t0 + k + 1. */
  ghost function Pass(f: Step, t0: nat, i: nat, s: Registers): Registers {
    if i == 0 then s else f(t0 + i, i - 1, Pass(f, t0, i - 1, s))
  }

  /** The same i steps, last first. */
  ghost function PassBack(f: Step, t0: nat, i: nat, s: Registers): Registers {
    if i == 0 then s else PassBack(f, t0, i - 1, f(t0 + i, i - 1, s))
  }

  /** j passes over all n registers. */
  ghost function Rounds(f: Step, n: nat, j: nat, s: Registers): Registers {
    if j == 0 then s else Pass(f, n * (j - 1), n, Rounds(f, n, j - 1, s))
  }

  ghost function RoundsBack(f: Step, n: nat, j: nat, s: Registers): Registers {
    if j == 0 then s else RoundsBack(f, n, j - 1, PassBack(f, n * (j - 1), n, s))
  }

  lemma PassBackFrom(f: Step, t0: nat, i: nat, s: Registers)
    ensures PassBack(f, t0, i + 1, s) == PassBack(f, t0, i, f(t0 + i + 1, i, s))
  {
  }

  ghost predicate KeepsShape(f: Step, n: nat) {
    forall t: nat, i: nat, s | i < n && Shaped(s, n) :: Shaped(f(t, i, s), n)
  }

  ghost predicate Undoes(g: Step, f: Step, n: nat) {
    forall t: nat, i: nat, s {:trigger f(t, i, s)} | i < n && Shaped(s, n) :: g(t, i, f(t, i, s)) == s
  }

  lemma {:induction false} PassBackUndoesPass(f: Step, g: Step, n: nat, t0: nat, i: nat, s: Registers)
    requires KeepsShape(f, n) && Undoes(g, f, n) && i <= n && Shaped(s, n)
    ensures PassBack(g, t0, i, Pass(f, t0, i, s)) == s
    ensures Shaped(Pass(f, t0, i, s), n)
  {
    if i > 0 { PassBackUndoesPass(f, g, n, t0, i - 1, s); }
  }

  lemma {:induction false} PassUndoesPassBack(f: Step, g: Step, n: nat, t0: nat, i: nat, s: Registers)
    requires KeepsShape(g, n) && Undoes(f, g, n) && i <= n && Shaped(s, n)
    ensures Pass(f, t0, i, PassBack(g, t0, i, s)) == s
    ensures Shaped(PassBack(g, t0, i, s), n)
  {
    if i > 0 { PassUndoesPassBack(f, g, n, t0, i - 1, g(t0 + i, i - 1, s)); }
  }

  lemma {:induction false} RoundsBackUndoesRounds(f: Step, g: Step, n: nat, j: nat, s: Registers)
    requires KeepsShape(f, n) && Undoes(g, f, n) && Shaped(s, n)
    ensures RoundsBack(g, n, j, Rounds(f, n, j, s)) == s
    ensures Shaped(Rounds(f, n, j, s), n)
  {
    if j > 0 {
      RoundsBackUndoesRounds(f, g, n, j - 1, s);
      PassBackUndoesPass(f, g, n, n * (j - 1), n, Rounds(f, n, j - 1, s));
    }
  }

  lemma {:induction false} RoundsUndoesRoundsBack(f: Step, g: Step, n: nat, j: nat, s: Registers)
    requires KeepsShape(g, n) && Undoes(f, g, n) && Shaped(s, n)
    ensures Rounds(f, n, j, RoundsBack(g, n, j, s)) == s
    ensures Shaped(RoundsBack(g, n, j, s), n)
  {
    if j > 0 {
      PassUndoesPassBack(f, g, n, n * (j - 1), n, s);
      RoundsUndoesRoundsBack(f, g, n, j - 1, PassBack(g, n * (j - 1), n, s));
    }
  }

  // ----- wrapping and unwrapping -----

  ghost function Sealer(c: Cipher): Step
    requires IsBlockCipher(c)
  {
    (t: nat, i: nat, s: Registers) => if |s.a| == 8 && 8 * i + 8 <= |s.r| then Seal(c, t, i, s) else s
  }

  ghost function Unsealer(c: Cipher): Step
    requires IsBlockCipher(c)
  {
    (t: nat, i: nat, s: Registers) => if |s.a| == 8 && 8 * i + 8 <= |s.r| then Unseal(c, t, i, s) else s
  }

  lemma StepsAreInverse(c: Cipher, n: nat)
    requires IsBlockCipher(c)
    ensures KeepsShape(Sealer(c), n) && KeepsShape(Unsealer(c), n)
    ensures Undoes(Unsealer(c), Sealer(c), n)
    ensures Undoes(Sealer(c), Unsealer(c), n)
  {
    forall t: nat, i: nat, s: Registers | i < n && Shaped(s, n)
      ensures Unsealer(c)(t, i, Sealer(c)(t, i, s)) == s
      ensures Sealer(c)(t, i, Unsealer(c)(t, i, s)) == s
    {
      UnsealSeal(c, t, i, s);
      SealUnseal(c, t, i, s);
    }
  }

  function Iv(): seq<Byte> {
    seq(8, _ => IV_BYTE)
  }

  /** The initial value of section 2.2.3.1 of RFC 3394. */
  lemma IvBytes()
    ensures Iv() == [0xA6, 0xA6, 0xA6, 0xA6, 0xA6, 0xA6, 0xA6, 0xA6]
  {}

  /** The result of wrapping.  The cipher is absent when the key has a bad size. */
  ghost function Wrap(cipher: Option<Cipher>, plaintext: seq<Byte>): Result<seq<Byte>, WrapError>
    requires cipher.Some? ==> IsBlockCipher(cipher.value)
  {
    var n := |plaintext| / 8;
    if |plaintext| % 8 != 0 || n < 2 then Err(BadLength)
    else if cipher.None? then Err(BadKey)
    else
      var s := Rounds(Sealer(cipher.value), n, ROUNDS, Registers(Iv(), plaintext));
      Ok(s.a + s.r)
  }

  ghost function Unwrap(cipher: Option<Cipher>, ciphertext: seq<Byte>): Result<seq<Byte>, WrapError>
    requires cipher.Some? ==> IsBlockCipher(cipher.value)
  {
    if |ciphertext| % 8 != 0 || |ciphertext| < 24 then Err(BadLength)
    else if cipher.None? then Err(BadKey)
    else
      var n := |ciphertext| / 8 - 1;
      var s := RoundsBack(Unsealer(cipher.value), n, ROUNDS, Registers(ciphertext[..8], ciphertext[8..]));
      if s.a == Iv() then Ok(s.r) else Err(IntegrityFailure)
  }

  /** What is refused, and why: the length is looked at before the key. */
  lemma Refusals(cipher: Option<Cipher>, input: seq<Byte>)
    requires cipher.Some? ==> IsBlockCipher(cipher.value)
    ensures Wrap(cipher, input) == Err(BadLength) <==> |input| < 16 || |input| % 8 != 0
    ensures Unwrap(cipher, input) == Err(BadLength) <==> |input| < 24 || |input| % 8 != 0
    ensures Wrap(cipher, input) == Err(BadKey) <==> |input| >= 16 && |input| % 8 == 0 && cipher == None
    ensures Unwrap(cipher, input) == Err(BadKey) <==> |input| >= 24 && |input| % 8 == 0 && cipher == None
    ensures Wrap(cipher, input) != Err(IntegrityFailure)
  {}

  /** Unwrapping a ciphertext gives a plaintext exactly when wrapping that plaintext gives
      the ciphertext: the round trip in both directions, and rejection of everything else. */
  lemma UnwrapInvertsWrap(cipher: Option<Cipher>, plaintext: seq<Byte>, ciphertext: seq<Byte>)
    requires cipher.Some? ==> IsBlockCipher(cipher.value)
    ensures Unwrap(cipher, ciphertext) == Ok(plaintext) <==> Wrap(cipher, plaintext) == Ok(ciphertext)
  {
    if Unwrap(cipher, ciphertext) == Ok(plaintext) {
      UnwrapThenWrap(cipher.value, plaintext, ciphertext);
    }
    if Wrap(cipher, plaintext) == Ok(ciphertext) {
      WrapThenUnwrap(cipher.value, plaintext, ciphertext);
    }
  }

  lemma UnwrapThenWrap(c: Cipher, plaintext: seq<Byte>, ciphertext: seq<Byte>)
    requires IsBlockCipher(c) && Unwrap(Some(c), ciphertext) == Ok(plaintext)
    ensures Wrap(Some(c), plaintext) == Ok(ciphertext)
  {
    var n := |ciphertext| / 8 - 1;
    var s := Registers(ciphertext[..8], ciphertext[8..]);
    var back := RoundsBack(Unsealer(c), n, ROUNDS, s);
    assert back == Registers(Iv(), plaintext);
    RoundsUndone(c, n, s);
    assert Shaped(back, n) && back.r == plaintext && |plaintext| / 8 == n;
    assert s.a + s.r == ciphertext;
  }

  lemma RoundsUndone(c: Cipher, n: nat, s: Registers)
    requires IsBlockCipher(c) && Shaped(s, n)
    ensures Rounds(Sealer(c), n, ROUNDS, RoundsBack(Unsealer(c), n, ROUNDS, s)) == s
    ensures Shaped(RoundsBack(Unsealer(c), n, ROUNDS, s), n)
  {
    StepsAreInverse(c, n);
    RoundsUndoesRoundsBack(Sealer(c), Unsealer(c), n, ROUNDS, s);
  }

  lemma WrapThenUnwrap(c: Cipher, plaintext: seq<Byte>, ciphertext: seq<Byte>)
    requires IsBlockCipher(c) && Wrap(Some(c), plaintext) == Ok(ciphertext)
    ensures Unwrap(Some(c), ciphertext) == Ok(plaintext)
  {
    var n := |plaintext| / 8;
    var start := Registers(Iv(), plaintext);
    StepsAreInverse(c, n);
    RoundsBackUndoesRounds(Sealer(c), Unsealer(c), n, ROUNDS, start);
    var s := Rounds(Sealer(c), n, ROUNDS, start);
    assert ciphertext[..8] == s.a && ciphertext[8..] == s.r;
    UnwrapOf(c, plaintext, ciphertext, n);
  }

  lemma UnwrapOf(c: Cipher, plaintext: seq<Byte>, ciphertext: seq<Byte>, n: nat)
    requires IsBlockCipher(c) && n >= 2 && |ciphertext| == 8 * n + 8
    requires RoundsBack(Unsealer(c), n, ROUNDS, Registers(ciphertext[..8], ciphertext[8..])) == Registers(Iv(), plaintext)
    ensures Unwrap(Some(c), ciphertext) == Ok(plaintext)
  {
    var s := RoundsBack(Unsealer(c), n, ROUNDS, Registers(ciphertext[..8], ciphertext[8..]));
    assert |ciphertext| / 8 - 1 == n && |ciphertext| % 8 == 0;
    assert Unwrap(Some(c), ciphertext) == if s.a == Iv() then Ok(s.r) else Err(IntegrityFailure);
  }

  /** Every well-sized key survives: wrapping succeeds and unwrapping returns the key. */
  lemma RoundTrip(cipher: Cipher, plaintext: seq<Byte>)
    requires IsBlockCipher(cipher) && |plaintext| % 8 == 0 && |plaintext| >= 16
    ensures Wrap(Some(cipher), plaintext).Ok?
    ensures |Wrap(Some(cipher), plaintext).value| == |plaintext| + 8
    ensures Unwrap(Some(cipher), Wrap(Some(cipher), plaintext).value) == Ok(plaintext)
  {
    var n := |plaintext| / 8;
    StepsAreInverse(cipher, n);
    RoundsBackUndoesRounds(Sealer(cipher), Unsealer(cipher), n, ROUNDS, Registers(Iv(), plaintext));
    UnwrapInvertsWrap(Some(cipher), plaintext, Wrap(Some(cipher), plaintext).value);
  }

  // ----- the register-shifting description (section 2.2.1 of RFC 3394) -----

  /** One step of the shifting form: register 1 is enciphered, the others move down by one
      place, and the low half becomes register n. */
  ghost function ShiftStep(c: Cipher, t: nat, s: Registers): (s': Registers)
    requires IsBlockCipher(c) && |s.a| == 8 && |s.r| >= 8
    ensures |s'.a| == 8 && |s'.r| == |s.r|
  {
    var b := c.encrypt(s.a + s.r[..8]);
    Registers(Xor(b[..8], Counter(t)), s.r[8..] + b[8..])
  }

  /** The shifting step as a step function; it always works on the first register. */
  ghost function Shifter(c: Cipher): Step
    requires IsBlockCipher(c)
  {
    (t: nat, i: nat, s: Registers) => if |s.a| == 8 && |s.r| >= 8 then ShiftStep(c, t, s) else s
  }

  /** Steps 1 .. k of the shifting form. */
  ghost function ShiftSteps(c: Cipher, k: nat, s: Registers): Registers
    requires IsBlockCipher(c)
  {
    Pass(Shifter(c), 0, k, s)
  }

  /** The steps are counted from one, and step t works with the counter t. */
  lemma ShiftsCounted(c: Cipher, t: nat, s: Registers)
    requires IsBlockCipher(c) && t > 0
    ensures ShiftSteps(c, 0, s) == s
    ensures var before := ShiftSteps(c, t - 1, s);
            |before.a| == 8 && |before.r| >= 8 ==> ShiftSteps(c, t, s) == ShiftStep(c, t, before)
  {
  }

  /** One shifting step byte by byte. */
  lemma ShiftBytes(c: Cipher, t: nat, s: Registers, k: nat)
    requires IsBlockCipher(c) && |s.a| == 8 && |s.r| >= 8 && k < |s.r|
    ensures var b := c.encrypt(s.a + s.r[..8]);
            && (k < 8 ==> ShiftStep(c, t, s).a[k] == XorByte(b[k], ByteAt(t, 7 - k)))
            && ShiftStep(c, t, s).r[k] == if k < |s.r| - 8 then s.r[k + 8] else b[8 + k - (|s.r| - 8)]
  {
    var b := c.encrypt(s.a + s.r[..8]);
    if k < 8 {
      BigEndianByte(t, 8, k);
      XorAt(b[..8], Counter(t), 8, k);
    }
  }

  /** The registers read from register i on, cyclically. */
  function RotatedFrom(r: seq<Byte>, i: nat): seq<Byte>
    requires 8 * i <= |r|
  {
    r[8 * i..] + r[..8 * i]
  }

  ghost predicate HoldsRotated(shifted: Registers, s: Registers, i: nat) {
    && 8 * i <= |s.r| && |s.a| == 8
    && shifted == Registers(s.a, RotatedFrom(s.r, i))
  }

  lemma ShiftFollowsSeal(c: Cipher, t: nat, i: nat, shifted: Registers, s: Registers)
    requires IsBlockCipher(c) && 8 * i + 8 <= |s.r|
    requires HoldsRotated(shifted, s, i)
    ensures HoldsRotated(Shifter(c)(t, 0, shifted), Sealer(c)(t, i, s), i + 1)
  {
    assert shifted.r[..8] == s.r[8 * i..8 * i + 8];
    assert shifted.r[8..] == s.r[8 * i + 8..] + s.r[..8 * i];
    var s' := Seal(c, t, i, s);
    var low := c.encrypt(s.a + shifted.r[..8])[8..];
    assert s'.r[8 * (i + 1)..] == s.r[8 * i + 8..];
    assert s'.r[..8 * (i + 1)] == s.r[..8 * i] + low;
  }

  /** Two steps that agree on every register index run alike. */
  ghost predicate IgnoresIndex(f: Step) {
    forall t: nat, i: nat, s :: f(t, i, s) == f(t, 0, s)
  }

  ghost predicate Follows(f: Step, g: Step, n: nat) {
    forall t: nat, i: nat, shifted, s | i < n && Shaped(s, n) && HoldsRotated(shifted, s, i) ::
      HoldsRotated(f(t, 0, shifted), g(t, i, s), i + 1)
  }

  /** Within a pass the shifting form holds the indexed form, rotated. */
  lemma {:induction false} ShiftFollowsPass(f: Step, g: Step, n: nat, t0: nat, i: nat, start: Registers, s: Registers)
    requires IgnoresIndex(f) && Follows(f, g, n) && KeepsShape(g, n)
    requires Shaped(s, n) && i <= n && Pass(f, 0, t0, start) == s
    ensures HoldsRotated(Pass(f, 0, t0 + i, start), Pass(g, t0, i, s), i)
    ensures Shaped(Pass(g, t0, i, s), n)
  {
    if i == 0 {
      assert RotatedFrom(s.r, 0) == s.r;
    } else {
      ShiftFollowsPass(f, g, n, t0, i - 1, start, s);
      var shifted := Pass(f, 0, t0 + i - 1, start);
      assert Pass(f, 0, t0 + i, start) == f(t0 + i, t0 + i - 1, shifted) == f(t0 + i, 0, shifted);
    }
  }

  /** After each full pass the two forms hold the same registers in the same places. */
  lemma {:induction false} ShiftEqualsRounds(f: Step, g: Step, n: nat, j: nat, s: Registers)
    requires IgnoresIndex(f) && Follows(f, g, n) && KeepsShape(g, n) && Shaped(s, n)
    ensures n * j >= 0 && Pass(f, 0, n * j, s) == Rounds(g, n, j, s)
    ensures Shaped(Rounds(g, n, j, s), n)
  {
    if j > 0 {
      ShiftEqualsRounds(f, g, n, j - 1, s);
      var s' := Rounds(g, n, j - 1, s);
      ShiftFollowsPass(f, g, n, n * (j - 1), n, s, s');
      var s'' := Pass(g, n * (j - 1), n, s');
      assert RotatedFrom(s''.r, n) == s''.r;
      assert n * (j - 1) + n == n * j;
    }
  }

  /** Over the full 6n steps the two descriptions give the same output. */
  lemma IndexedEqualsShifting(c: Cipher, plaintext: seq<Byte>)
    requires IsBlockCipher(c) && |plaintext| % 8 == 0 && |plaintext| >= 16
    ensures var s := ShiftSteps(c, 6 * (|plaintext| / 8), Registers(Iv(), plaintext));
            Wrap(Some(c), plaintext) == Ok(s.a + s.r)
  {
    var n := |plaintext| / 8;
    StepsAreInverse(c, n);
    forall t: nat, i: nat, shifted, s | i < n && Shaped(s, n) && HoldsRotated(shifted, s, i)
      ensures HoldsRotated(Shifter(c)(t, 0, shifted), Sealer(c)(t, i, s), i + 1)
    {
      ShiftFollowsSeal(c, t, i, shifted, s);
    }
    ShiftEqualsRounds(Shifter(c), Sealer(c), n, ROUNDS, Registers(Iv(), plaintext));
    assert n * ROUNDS == 6 * n;
  }

  // ----- the code's loops -----

  method AesKeyWrap(cipher: Option<Cipher>, plaintext: seq<Byte>) returns (out: Result<seq<Byte>, WrapError>)
    requires cipher.Some? ==> IsBlockCipher(cipher.value)
    ensures out == Wrap(cipher, plaintext)
  {
    var n := |plaintext| / 8;
    if |plaintext| % 8 != 0 || n < 2 {
      return Err(BadLength);
    }
    if cipher.None? {
      return Err(BadKey);
    }
    var block := cipher.value;
    var a := new Byte[8](_ => IV_BYTE);
    var r := new Byte[|plaintext|](k requires 0 <= k < |plaintext| => plaintext[k]);
    ghost var start := Registers(Iv(), plaintext);
    assert a[..] == Iv() && r[..] == plaintext;
    for j := 0 to ROUNDS
      invariant Registers(a[..], r[..]) == Rounds(Sealer(block), n, j, start)
    {
      SealAll(block, a, r, n, n * j);
    }
    out := Ok(a[..] + r[..]);
  }

  /** The inner wrapping loop: one pass over the registers. */
  method SealAll(block: Cipher, a: array<Byte>, r: array<Byte>, n: nat, t0: nat)
    requires IsBlockCipher(block) && a != r && a.Length == 8 && r.Length == 8 * n
    modifies a, r
    ensures Registers(a[..], r[..]) == Pass(Sealer(block), t0, n, old(Registers(a[..], r[..])))
  {
    for i := 0 to n
      invariant Registers(a[..], r[..]) == Pass(Sealer(block), t0, i, old(Registers(a[..], r[..])))
    {
      SealNext(block, a, r, i, t0, old(Registers(a[..], r[..])));
    }
  }

  method SealNext(block: Cipher, a: array<Byte>, r: array<Byte>, i: nat, t0: nat, ghost start: Registers)
    requires IsBlockCipher(block) && a != r && a.Length == 8 && 8 * i + 8 <= r.Length
    requires Registers(a[..], r[..]) == Pass(Sealer(block), t0, i, start)
    modifies a, r
    ensures Registers(a[..], r[..]) == Pass(Sealer(block), t0, i + 1, start)
  {
    SealInPlace(block, a, r, i, t0 + i + 1);
  }

  /** The body of the inner wrapping loop. */
  method SealInPlace(block: Cipher, a: array<Byte>, r: array<Byte>, i: nat, t: nat)
    requires IsBlockCipher(block) && a != r && a.Length == 8 && 8 * i + 8 <= r.Length
    modifies a, r
    ensures Registers(a[..], r[..]) == Sealer(block)(t, i, old(Registers(a[..], r[..])))
  {
    var buf := block.encrypt(a[..] + r[i * 8..(i + 1) * 8]);
    CopyInto(a, 0, buf[..8]);
    assert a[..] == buf[..8];
    XorCounter(a, t);
    CopyInto(r, i * 8, buf[8..]);
  }

  /** Go's copy(dst[at:], src) for a source that fits. */
  method CopyInto(dst: array<Byte>, at: nat, src: seq<Byte>)
    requires at + |src| <= dst.Length
    modifies dst
    ensures dst[..] == old(dst[..at]) + src + old(dst[at + |src|..])
  {
    for k := 0 to |src|
      invariant dst[..] == old(dst[..at]) + src[..k] + old(dst[at + k..])
    {
      dst[at + k] := src[k];
    }
    assert src[..|src|] == src;
  }

  method AesKeyUnwrap(cipher: Option<Cipher>, ciphertext: seq<Byte>) returns (out: Result<seq<Byte>, WrapError>)
    requires cipher.Some? ==> IsBlockCipher(cipher.value)
    ensures out == Unwrap(cipher, ciphertext)
  {
    if |ciphertext| % 8 != 0 || |ciphertext| < 24 {
      return Err(BadLength);
    }
    var n := |ciphertext| / 8 - 1;
    if cipher.None? {
      return Err(BadKey);
    }
    var a := new Byte[8](k requires 0 <= k < 8 => ciphertext[k]);
    var r := new Byte[n * 8](k requires 0 <= k < n * 8 => ciphertext[8 + k]);
    assert a[..] == ciphertext[..8] && r[..] == ciphertext[8..];
    UnsealAllRounds(cipher.value, a, r, n);
    var intact := IsIv(a);
    if !intact {
      return Err(IntegrityFailure);
    }
    out := Ok(r[..]);
  }

  /** The outer unwrapping loop. */
  method UnsealAllRounds(block: Cipher, a: array<Byte>, r: array<Byte>, n: nat)
    requires IsBlockCipher(block) && a != r && a.Length == 8 && r.Length == 8 * n
    modifies a, r
    ensures Registers(a[..], r[..]) == RoundsBack(Unsealer(block), n, ROUNDS, old(Registers(a[..], r[..])))
  {
    ghost var goal := RoundsBack(Unsealer(block), n, ROUNDS, Registers(a[..], r[..]));
    for j := ROUNDS downto 0
      invariant RoundsLeft(block, n, j, a, r, goal)
    {
      UnsealRound(block, a, r, n, j, goal);
    }
  }

  /** The j rounds that are left lead from the registers to the goal. */
  ghost predicate RoundsLeft(block: Cipher, n: nat, j: nat, a: array<Byte>, r: array<Byte>, goal: Registers)
    requires IsBlockCipher(block)
    reads a, r
  {
    RoundsBack(Unsealer(block), n, j, Registers(a[..], r[..])) == goal
  }

  method UnsealRound(block: Cipher, a: array<Byte>, r: array<Byte>, n: nat, j: nat, ghost goal: Registers)
    requires IsBlockCipher(block) && a != r && a.Length == 8 && r.Length == 8 * n
    requires RoundsLeft(block, n, j + 1, a, r, goal)
    modifies a, r
    ensures RoundsLeft(block, n, j, a, r, goal)
  {
    UnsealAll(block, a, r, n, n * j);
  }

  /** The byte-by-byte comparison with the initial value. */
  method IsIv(a: array<Byte>) returns (intact: bool)
    requires a.Length == 8
    ensures intact <==> a[..] == Iv()
  {
    for k := 0 to 8
      invariant forall m | 0 <= m < k :: a[m] == IV_BYTE
    {
      if a[k] != IV_BYTE {
        assert a[..][k] != Iv()[k];
        return false;
      }
    }
    return true;
  }

  /** The inner unwrapping loop: one pass over the registers, last first. */
  method UnsealAll(block: Cipher, a: array<Byte>, r: array<Byte>, n: nat, t0: nat)
    requires IsBlockCipher(block) && a != r && a.Length == 8 && r.Length == 8 * n
    modifies a, r
    ensures Registers(a[..], r[..]) == PassBack(Unsealer(block), t0, n, old(Registers(a[..], r[..])))
  {
    ghost var goal := PassBack(Unsealer(block), t0, n, Registers(a[..], r[..]));
    for i := n downto 0
      invariant StepsLeft(block, t0, i, a, r, goal)
    {
      UnsealNext(block, a, r, i, t0, goal);
    }
  }

  /** The i steps that are left lead from the registers to the goal. */
  ghost predicate StepsLeft(block: Cipher, t0: nat, i: nat, a: array<Byte>, r: array<Byte>, goal: Registers)
    requires IsBlockCipher(block)
    reads a, r
  {
    PassBack(Unsealer(block), t0, i, Registers(a[..], r[..])) == goal
  }

  method UnsealNext(block: Cipher, a: array<Byte>, r: array<Byte>, i: nat, t0: nat, ghost goal: Registers)
    requires IsBlockCipher(block) && a != r && a.Length == 8 && 8 * i + 8 <= r.Length
    requires StepsLeft(block, t0, i + 1, a, r, goal)
    modifies a, r
    ensures StepsLeft(block, t0, i, a, r, goal)
  {
    PassBackFrom(Unsealer(block), t0, i, Registers(a[..], r[..]));
    UnsealInPlace(block, a, r, i, t0 + i + 1);
  }

  /** The body of the inner unwrapping loop. */
  method UnsealInPlace(block: Cipher, a: array<Byte>, r: array<Byte>, i: nat, t: nat)
    requires IsBlockCipher(block) && a != r && a.Length == 8 && 8 * i + 8 <= r.Length
    modifies a, r
    ensures Registers(a[..], r[..]) == Unsealer(block)(t, i, old(Registers(a[..], r[..])))
  {
    XorCounter(a, t);
    var buf := block.decrypt(a[..] + r[i * 8..(i + 1) * 8]);
    CopyInto(a, 0, buf[..8]);
    assert a[..] == buf[..8];
    CopyInto(r, i * 8, buf[8..]);
  }
}
