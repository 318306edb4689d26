/** Byte buffers as JavaScript's DataView reads them, the exceptions the
    core can raise, and the 32-bit semantics of JavaScript's shift operators. */
module Bytes {

  /** One octet of an ArrayBuffer. */
  type byte = b: int | 0 <= b < 256

  datatype Option<+T> = None | Some(value: T)

  /** The exceptions the modelled JavaScript raises. */
  datatype Failure =
    | RangeError      // a DataView read or view that reaches past the end of its buffer
    | TypeError       // a property read on `undefined`, or destructuring of `undefined`
    | ReferenceError  // use of an identifier that is declared nowhere

  /** The outcome of a JavaScript call: its value, or the exception it throws. */
  datatype Result<+T> = Ok(value: T) | Err(failure: Failure)

  /** `done` pushed in front of what a later step returns, or that step's exception. */
  function Prepend<T>(done: seq<T>, rest: Result<seq<T>>): Result<seq<T>>
  {
    match rest
    case Ok(v) => Ok(done + v)
    case Err(e) => Err(e)
  }

  lemma PrependNil<T>(rest: Result<seq<T>>)
    ensures Prepend([], rest) == rest
  {
    if rest.Ok? {
      assert [] + rest.value == rest.value;
    }
  }

  lemma PrependTwice<T>(a: seq<T>, b: seq<T>, rest: Result<seq<T>>)
    ensures Prepend(a, Prepend(b, rest)) == Prepend(a + b, rest)
  {
    if rest.Ok? {
      assert a + (b + rest.value) == (a + b) + rest.value;
    }
  }

  const TWO_31: int := 0x8000_0000
  const TWO_32: int := 0x1_0000_0000

  function Pow2(n: nat): (r: int)
    ensures r >= 1
  {
    if n == 0 then 1 else 2 * Pow2(n - 1)
  }

  lemma {:induction false} Pow2Add(a: nat, b: nat)
    ensures Pow2(a + b) == Pow2(a) * Pow2(b)
  {
    if a > 0 {
      Pow2Add(a - 1, b);
      assert Pow2(a + b) == 2 * Pow2(a - 1 + b);
    }
  }

  lemma Pow2Constants()
    ensures Pow2(8) == 256 && Pow2(16) == 0x1_0000
    ensures Pow2(31) == TWO_31 && Pow2(32) == TWO_32
  {
    assert Pow2(4) == 16;
    assert Pow2(8) == 256 by { Pow2Add(4, 4); }
    assert Pow2(16) == 0x1_0000 by { Pow2Add(8, 8); }
    assert Pow2(32) == TWO_32 by { Pow2Add(16, 16); }
    assert Pow2(32) == 2 * Pow2(31);
  }

  // ---------------------------------------------------------------------------
  // DataView reads (little-endian where the source passes `true`)

  /** getInt8: the byte read as a two's-complement signed value. */
  function Int8(b: byte): (r: int)
    ensures -128 <= r < 128
    ensures r == b || r == b - 256
  {
    if b < 128 then b else b - 256
  }

  /** getUint16(i, true). */
  function Uint16(s: seq<byte>, i: nat): (r: int)
    requires i + 2 <= |s|
    ensures 0 <= r < 0x1_0000
    ensures r % 256 == s[i] && r / 256 == s[i + 1]
  {
    s[i] as int + 256 * (s[i + 1] as int)
  }

  /** getInt16(i, true). */
  function Int16(s: seq<byte>, i: nat): (r: int)
    requires i + 2 <= |s|
    ensures -0x8000 <= r < 0x8000
    ensures r == Uint16(s, i) || r == Uint16(s, i) - 0x1_0000
  {
    var u := Uint16(s, i);
    if u < 0x8000 then u else u - 0x1_0000
  }

  /** The three bytes at i, least significant first, as an unsigned 24-bit value. */
  function Uint24(s: seq<byte>, i: nat): (r: int)
    requires i + 3 <= |s|
    ensures 0 <= r < 0x100_0000
    ensures r % 256 == s[i] && r / 256 == Uint16(s, i + 1)
  {
    s[i] as int + 256 * (s[i + 1] as int) + 0x1_0000 * (s[i + 2] as int)
  }

  /** getInt32(i, true). */
  function Int32(s: seq<byte>, i: nat): (r: int)
    requires i + 4 <= |s|
    ensures -TWO_31 <= r < TWO_31
    ensures r % TWO_32 == (s[i] as int + 256 * Uint24(s, i + 1)) % TWO_32
    ensures r == s[i] as int + 256 * Uint24(s, i + 1) || r == s[i] as int + 256 * Uint24(s, i + 1) - TWO_32
  {
    ToInt32(s[i] as int + 256 * Uint24(s, i + 1))
  }

  /** An unsigned little-endian number of any width. */
  function UintLE(s: seq<byte>): (r: nat)
    ensures r < Pow2(8 * |s|)
  {
    if s == [] then 0
    else
      var rest := UintLE(s[1..]);
      assert Pow2(8 * |s|) == 256 * Pow2(8 * |s[1..]|) by {
        Pow2Add(8, 8 * |s[1..]|);
        Pow2Constants();
      }
      s[0] + 256 * rest
  }

  /** getBigUint64(i, true). */
  function BigUint64(s: seq<byte>, i: nat): (r: nat)
    requires i + 8 <= |s|
    ensures r < Pow2(64)
  {
    UintLE(s[i..i + 8])
  }

  /** The bytes of UintLE inverted: `n` written little-endian in `width` bytes. */
  function EncodeLE(n: nat, width: nat): (s: seq<byte>)
    requires n < Pow2(8 * width)
    ensures |s| == width
    ensures UintLE(s) == n
  {
    if width == 0 then []
    else
      assert Pow2(8 * width) == 256 * Pow2(8 * (width - 1)) by {
        Pow2Add(8, 8 * (width - 1));
        Pow2Constants();
      }
      var s := [(n % 256) as byte] + EncodeLE(n / 256, width - 1);
      assert s[1..] == EncodeLE(n / 256, width - 1);
      s
  }

  // ---------------------------------------------------------------------------
  // JavaScript 32-bit integer operators

  /** ToInt32: the integer reduced modulo 2^32 into the signed 32-bit range. */
  function ToInt32(x: int): (r: int)
    ensures -TWO_31 <= r < TWO_31
    ensures r % TWO_32 == x % TWO_32
  {
    var m := x % TWO_32;
    if m < TWO_31 then m else m - TWO_32
  }

  /** `a << b`: the shift count is taken modulo 32 and the product wraps to 32 bits. */
  function ShiftLeft(a: int, b: int): (r: int)
    ensures -TWO_31 <= r < TWO_31
  {
    ToInt32(ToInt32(a) * Pow2(b % 32))
  }

  /** `a >> b`: arithmetic shift, that is, division rounding towards minus infinity. */
  function ShiftRight(a: int, b: int): (r: int)
    ensures -TWO_31 <= r < TWO_31
    ensures r * Pow2(b % 32) <= ToInt32(a) < (r + 1) * Pow2(b % 32)
  {
    var x, d := ToInt32(a), Pow2(b % 32);
    FloorDivBounds(x, d);
    x / d
  }

  /** Division by a positive d rounds towards minus infinity and moves no
      further from zero than x. */
  lemma FloorDivBounds(x: int, d: int)
    requires d >= 1
    ensures (x / d) * d <= x < (x / d + 1) * d
    ensures x >= 0 ==> 0 <= x / d <= x
    ensures x < 0 ==> x <= x / d < 0
  {
    var q := x / d;
    assert x == q * d + x % d;
    assert (q + 1) * d == q * d + d;
    if x >= 0 {
      MulAtLeast(-q, d);
      MulAtLeast(q, d);
    } else {
      MulAtLeast(q, d);
      if q < x {
        assert q * d <= x * d;
        MulAtLeast(-q, d - 1);
      }
    }
  }

  /** The low `n` bits of `x` read as an n-bit two's-complement number. */
  function SignExtend(x: int, n: nat): (r: int)
    requires n >= 1
    ensures -Pow2(n - 1) <= r < Pow2(n - 1)
  {
    var m := x % Pow2(n);
    if m < Pow2(n - 1) then m else m - Pow2(n)
  }

  /** Sign extension keeps the low n bits: it is congruent to x modulo 2^n. */
  lemma SignExtendLowBits(x: int, n: nat)
    requires n >= 1
    ensures SignExtend(x, n) % Pow2(n) == x % Pow2(n)
  {
    var d := Pow2(n);
    var m := x % d;
    if m < Pow2(n - 1) {
      assert SignExtend(x, n) == m;
      DivModUnique(m, d, 0, m);
    } else {
      assert SignExtend(x, n) == m - d;
      DivModUnique(m - d, d, -1, m);
    }
  }

  // ---------------------------------------------------------------------------
  // Division facts used by the shift proofs

  lemma DivModUnique(a: int, d: int, q: int, r: int)
    requires d > 0 && a == q * d + r && 0 <= r < d
    ensures a / d == q && a % d == r
  {
    var k := q - a / d;
    assert k * d == a % d - r;
    MulAtLeast(k, d);
    MulAtLeast(-k, d);
  }

  lemma MulAtLeast(k: int, d: int)
    ensures k > 0 && d > 0 ==> k * d >= d
  {
    if k > 0 && d > 0 {
      assert k * d == (k - 1) * d + d;
      assert (k - 1) * d >= 0;
    }
  }

  /** (a * p) mod (r * p) keeps the factor p: it is (a mod r) * p. */
  lemma MulMod(a: int, r: int, p: int)
    requires r > 0 && p > 0
    ensures (a * p) % (r * p) == (a % r) * p
  {
    var q, m := a / r, a % r;
    assert a * p == q * (r * p) + m * p;
    assert 0 <= m * p < r * p by { MulStrict(m, r, p); }
    DivModUnique(a * p, r * p, q, m * p);
  }

  lemma MulStrict(m: int, r: int, p: int)
    requires 0 <= m < r && p > 0
    ensures 0 <= m * p < r * p
  {
    assert r * p - m * p == (r - m) * p;
  }

  /** Reducing modulo a multiple of r first does not change the residue modulo r. */
  lemma ModOfModMultiple(x: int, r: int, p: int)
    requires r > 0 && p > 0
    ensures (x % (r * p)) % r == x % r
  {
    var q, m := x / (r * p), x % (r * p);
    assert x == (q * p) * r + m;
    var q2, m2 := m / r, m % r;
    assert x == (q * p + q2) * r + m2;
    DivModUnique(x, r, q * p + q2, m2);
  }

  // ---------------------------------------------------------------------------
  // The shift pair `(x << (32 - n)) >> (32 - n)` is sign extension from n bits

  /** Powers of two that split the 32 bits of an int32 into n high and 32 - n low bits. */
  lemma SplitWidth(n: int)
    requires 1 <= n <= 32
    ensures Pow2(n) * Pow2(32 - n) == TWO_32
    ensures Pow2(n - 1) * Pow2(32 - n) == TWO_31
    ensures Pow2(n) == 2 * Pow2(n - 1)
  {
    Pow2Constants();
    Pow2Add(n, 32 - n);
    Pow2Add(n - 1, 32 - n);
  }

  /** ToInt32 does not change a value already in the int32 range. */
  lemma ToInt32InRange(v: int)
    requires -TWO_31 <= v < TWO_31
    ensures ToInt32(v) == v
  {
    if v < 0 {
      DivModUnique(v, TWO_32, -1, v + TWO_32);
    } else {
      DivModUnique(v, TWO_32, 0, v);
    }
  }

  /** Multiplying by 2^(32 - n) and reducing modulo 2^32 keeps just the low n bits of x. */
  lemma LowBitsMovedUp(x: int, n: int)
    requires 1 <= n <= 32
    ensures (ToInt32(x) * Pow2(32 - n)) % TWO_32 == (x % Pow2(n)) * Pow2(32 - n)
  {
    var p, r := Pow2(32 - n), Pow2(n);
    SplitWidth(n);
    var t := ToInt32(x);
    assert t % r == x % r by {
      ModOfModMultiple(t, r, p);
      ModOfModMultiple(x, r, p);
    }
    MulMod(t, r, p);
  }

  /** The wrap of ToInt32 on a product whose residue is m * p, for an n-bit m. */
  lemma WrapProduct(v: int, m: int, h: int, p: int)
    requires h > 0 && p > 0 && 2 * h * p == TWO_32 && h * p == TWO_31
    requires 0 <= m < 2 * h && v % TWO_32 == m * p
    ensures ToInt32(v) == (if m < h then m else m - 2 * h) * p
  {
    if m < h {
      MulStrict(m, h, p);
    } else {
      MulStrict(h, m + 1, p);
      assert m * p - TWO_32 == (m - 2 * h) * p;
    }
  }

  /** `x << (32 - n)`: the low n bits of x, sign-extended, moved up by 32 - n bits. */
  lemma ShiftLeftSignExtends(x: int, n: int)
    requires 1 <= n <= 32
    ensures ShiftLeft(x, 32 - n) == SignExtend(x, n) * Pow2(32 - n)
  {
    var p, h := Pow2(32 - n), Pow2(n - 1);
    assert (32 - n) % 32 == 32 - n;
    SplitWidth(n);
    LowBitsMovedUp(x, n);
    WrapProduct(ToInt32(x) * p, x % Pow2(n), h, p);
  }

  /** `v >> s` undoes a left shift by s that did not overflow. */
  lemma ShiftRightOfMultiple(v: int, s: nat)
    requires s < 32 && -TWO_31 <= v * Pow2(s) < TWO_31
    ensures ShiftRight(v * Pow2(s), s) == v
  {
    ToInt32InRange(v * Pow2(s));
    assert s % 32 == s;
    DivModUnique(v * Pow2(s), Pow2(s), v, 0);
  }

  /** For every x and every width 1..32, shifting left and back right by
      32 - n bits in JavaScript yields the low n bits of x sign-extended. */
  lemma ShiftPairSignExtends(x: int, n: int)
    requires 1 <= n <= 32
    ensures ShiftRight(ShiftLeft(x, 32 - n), 32 - n) == SignExtend(x, n)
  {
    var e, p := SignExtend(x, n), Pow2(32 - n);
    ShiftLeftSignExtends(x, n);
    SplitWidth(n);
    assert -TWO_31 <= e * p < TWO_31 by {
      MulStrict(e + Pow2(n - 1), 2 * Pow2(n - 1), p);
    }
    ShiftRightOfMultiple(e, 32 - n);
  }

  /** `getInt32(i, true) >> 8` is the signed 24-bit value of bytes i+1..i+3:
      the byte at i is shifted out. */
  lemma Int32Shift8(s: seq<byte>, i: nat)
    requires i + 4 <= |s|
    ensures ShiftRight(Int32(s, i), 8) == SignExtend(Uint24(s, i + 1), 24)
  {
    Pow2Constants();
    assert Pow2(24) == 0x100_0000 by { Pow2Add(8, 16); }
    assert Pow2(23) == 0x80_0000;
    var u := Uint24(s, i + 1);
    assert Uint24(s, i + 1) % Pow2(24) == u;
    var w := s[i] as int + 256 * u;
    assert 0 <= w < TWO_32;
    assert ToInt32(Int32(s, i)) == Int32(s, i);
    if u < 0x80_0000 {
      assert Int32(s, i) == w;
    } else {
      assert Int32(s, i) == w - TWO_32;
      assert w - TWO_32 == s[i] + 256 * (u - 0x100_0000);
    }
  }

  // ---------------------------------------------------------------------------
  // Facts the frame decoders rely on

  lemma {:induction false} Pow2Monotone(a: nat, b: nat)
    requires a <= b
    ensures Pow2(a) <= Pow2(b)
  {
    Pow2Add(a, b - a);
    MulAtLeast(Pow2(b - a), Pow2(a));
  }

  /** `1 << k` is 2^k for k up to 30, and `1 << b` is never 0. */
  lemma ShiftLeftOfOne(b: int)
    ensures 0 <= b <= 30 ==> ShiftLeft(1, b) == Pow2(b)
    ensures ShiftLeft(1, b) != 0
  {
    ShiftLeftOfOneNonZero(b);
    if 0 <= b <= 30 {
      ShiftLeftOfOneBelow31(b);
    }
  }

  lemma ShiftLeftOfOneNonZero(b: int)
    ensures ShiftLeft(1, b) != 0
  {
    ShiftLeftOfOneIsPower(b);
    Pow2AsInt32(b % 32);
  }

  lemma ShiftLeftOfOneBelow31(b: nat)
    requires b <= 30
    ensures ShiftLeft(1, b) == Pow2(b)
  {
    assert b % 32 == b;
    ShiftLeftOfOneIsPower(b);
    Pow2AsInt32(b);
  }

  /** 2^k read as an int32 is never 0, and is 2^k itself below bit 31. */
  lemma Pow2AsInt32(k: nat)
    requires k < 32
    ensures ToInt32(Pow2(k)) != 0
    ensures k <= 30 ==> ToInt32(Pow2(k)) == Pow2(k)
  {
    Pow2BelowTwo31(k);
    ToInt32NonZero(Pow2(k));
    if k <= 30 {
      ToInt32InRange(Pow2(k));
    }
  }

  lemma ShiftLeftOfOneIsPower(b: int)
    ensures ShiftLeft(1, b) == ToInt32(Pow2(b % 32))
  {
    assert ToInt32(1) == 1 by {
      ToInt32InRange(1);
    }
  }

  /** 2^k is at most 2^31 for k < 32, and below it for k <= 30. */
  lemma Pow2BelowTwo31(k: nat)
    requires k < 32
    ensures 1 <= Pow2(k) <= TWO_31
    ensures k <= 30 ==> Pow2(k) < TWO_31
  {
    Pow2Constants();
    Pow2Monotone(k, 31);
    if k <= 30 {
      Pow2Monotone(k, 30);
    }
  }

  lemma ToInt32NonZero(p: int)
    requires 1 <= p <= TWO_31
    ensures ToInt32(p) != 0
  {
    if p < TWO_31 {
      ToInt32InRange(p);
    } else {
      DivModUnique(p, TWO_32, 0, p);
    }
  }

  /** Sign extension from n bits leaves an n-bit signed value unchanged. */
  lemma SignExtendOfSigned(x: int, n: nat)
    requires n >= 1 && -Pow2(n - 1) <= x < Pow2(n - 1)
    ensures SignExtend(x, n) == x
  {
    var d := Pow2(n);
    assert d == 2 * Pow2(n - 1);
    if x >= 0 {
      DivModUnique(x, d, 0, x);
    } else {
      DivModUnique(x, d, -1, x + d);
    }
  }

  /** Sign extension from n bits only looks at the residue modulo any 2^w with w >= n. */
  lemma SignExtendOfResidue(x: int, n: nat, w: nat)
    requires 1 <= n <= w
    ensures SignExtend(x % Pow2(w), n) == SignExtend(x, n)
  {
    Pow2Add(n, w - n);
    ModOfModMultiple(x, Pow2(n), Pow2(w - n));
  }

  /** The two little-endian bytes of a 16-bit two's-complement value. */
  function EncodeInt16(v: int): (s: seq<byte>)
    requires -0x8000 <= v < 0x8000
    ensures |s| == 2
  {
    var u := v % 0x1_0000;
    [(u % 256) as byte, (u / 256) as byte]
  }

  lemma Int16RoundTrip(v: int)
    requires -0x8000 <= v < 0x8000
    ensures Int16(EncodeInt16(v), 0) == v
  {
    var u := v % 0x1_0000;
    assert Uint16(EncodeInt16(v), 0) == u;
    if v < 0 {
      DivModUnique(v, 0x1_0000, -1, v + 0x1_0000);
    }
  }

  /** getInt8 inverts the byte of a signed 8-bit value. */
  lemma Int8RoundTrip(v: int)
    requires -128 <= v < 128
    ensures Int8((v % 256) as byte) == v
  {
    if v < 0 {
      DivModUnique(v, 256, -1, v + 256);
    }
  }

  /** The three little-endian bytes of a 24-bit unsigned value. */
  function EncodeUint24(x: int): (s: seq<byte>)
    requires 0 <= x < 0x100_0000
    ensures |s| == 3
  {
    [(x % 256) as byte, ((x / 256) % 256) as byte, (x / 0x1_0000) as byte]
  }

  lemma Uint24RoundTrip(x: int)
    requires 0 <= x < 0x100_0000
    ensures Uint24(EncodeUint24(x), 0) == x
  {
    var s := EncodeUint24(x);
    assert Uint16(s, 1) == x / 256;
  }

  /** `!!(flags & mask)` for a mask with a single bit set. */
  predicate FlagSet(flags: byte, mask: int)
    requires mask > 0
  {
    (flags / mask) % 2 == 1
  }

  /** Values written one after another with setUint16(i, v, true). */
  function EncodeUint16s(values: seq<int>): (s: seq<byte>)
    requires forall k :: 0 <= k < |values| ==> 0 <= values[k] < 0x1_0000
    ensures |s| == 2 * |values|
  {
    if values == [] then []
    else [(values[0] % 256) as byte, (values[0] / 256) as byte] + EncodeUint16s(values[1..])
  }
}
