/** Bytes, big-endian words and the number formats (`{:02x}`, `{:08x}`,
    `{}`, `{:02}`) that the Serato decoders use. */
module Bytes {
  import opened Strings

  newtype byte = x: int | 0 <= x < 256

  function Pow256(k: nat): (p: nat)
    ensures p >= 1
  {
    if k == 0 then 1 else 256 * Pow256(k - 1)
  }

  /** The number that bytes denote read big-endian (`u32::from_be_bytes`,
      `read_u32::<BigEndian>`). */
  function BigEndian(b: seq<byte>): (n: nat)
    ensures n < Pow256(|b|)
  {
    if b == [] then 0
    else
      var m := BigEndian(b[..|b| - 1]);
      assert m * 256 + b[|b| - 1] as nat < Pow256(|b|) by {
        assert m <= Pow256(|b| - 1) - 1;
        assert m * 256 <= (Pow256(|b| - 1) - 1) * 256;
      }
      m * 256 + b[|b| - 1] as nat
  }

  /** The `k` big-endian bytes of `n`. */
  function BigEndianBytes(n: nat, k: nat): (b: seq<byte>)
    requires n < Pow256(k)
    ensures |b| == k && BigEndian(b) == n
  {
    if k == 0 then []
    else
      assert n / 256 < Pow256(k - 1) by {
        assert n < 256 * Pow256(k - 1);
      }
      var b := BigEndianBytes(n / 256, k - 1) + [(n % 256) as byte];
      assert b[..k - 1] == BigEndianBytes(n / 256, k - 1);
      b
  }

  /** The big-endian `u32` at `i`. */
  function U32At(data: seq<byte>, i: nat): (n: nat)
    requires i + 4 <= |data|
    ensures n < Pow256(4)
  {
    BigEndian(data[i..i + 4])
  }

  lemma Pow256Four()
    ensures Pow256(4) == 0x1_0000_0000
  {
  }

  /** Reading back the bytes of a word gives the word. */
  lemma U32AtBytes(prefix: seq<byte>, n: nat, rest: seq<byte>)
    requires n < Pow256(4)
    ensures U32At(prefix + BigEndianBytes(n, 4) + rest, |prefix|) == n
  {
    var d := prefix + BigEndianBytes(n, 4) + rest;
    assert d[|prefix|..|prefix| + 4] == BigEndianBytes(n, 4);
  }

  /** The digit character of `d` in bases up to 16, lower-case. */
  function DigitChar(d: nat): (c: char)
    requires d < 16
  {
    if d < 10 then ('0' as int + d) as char else ('a' as int + d - 10) as char
  }

  /** The value of a digit character; -1 for anything else. */
  function DigitValue(c: char): int {
    if '0' <= c <= '9' then c as int - '0' as int
    else if 'a' <= c <= 'f' then c as int - 'a' as int + 10
    else -1
  }

  lemma DigitCharValue(d: nat)
    requires d < 16
    ensures DigitValue(DigitChar(d)) == d
  {
  }

  predicate IsDigitIn(c: char, base: nat) {
    0 <= DigitValue(c) < base
  }

  /** Division by the base, as the digit functions use it. */
  lemma DivMod(n: nat, base: nat)
    requires 2 <= base
    ensures n == (n / base) * base + n % base && 0 <= n % base < base
    ensures n >= base ==> 1 <= n / base < n
  {
  }

  /** Quotient and remainder are determined by the division identity. */
  lemma DivModOf(n: nat, d: nat, q: nat, r: nat)
    requires r < d && n == d * q + r
    ensures n / d == q && n % d == r
  {
    MulStep(d, q, n / d);
    MulStep(d, n / d, q);
  }

  lemma MulStep(d: nat, a: nat, b: nat)
    ensures a < b ==> d * a + d <= d * b
  {
    if a < b {
      var k := b - a;
      assert d * b == d * a + d * k;
      assert d * k >= d;
    }
  }

  /** The shortest digits of `n` in `base` (`{}` for base 10, `{:x}` for 16). */
  function ToBase(n: nat, base: nat): (s: seq<char>)
    requires 2 <= base <= 16
    ensures 1 <= |s|
    decreases n
  {
    DivMod(n, base);
    if n < base then [DigitChar(n)]
    else ToBase(n / base, base) + [DigitChar(n % base)]
  }

  /** Every character of the digits is a digit of the base. */
  lemma {:induction false} ToBaseDigits(n: nat, base: nat)
    requires 2 <= base <= 16
    ensures forall i :: 0 <= i < |ToBase(n, base)| ==> IsDigitIn(ToBase(n, base)[i], base)
    decreases n
  {
    DivMod(n, base);
    DigitCharValue(n % base);
    if n >= base {
      ToBaseDigits(n / base, base);
    }
  }

  /** The number that digits denote in `base`. */
  function ValueIn(s: seq<char>, base: nat): int {
    if s == [] then 0 else ValueIn(s[..|s| - 1], base) * base + DigitValue(s[|s| - 1])
  }

  /** Digits read back as the number they were written from. */
  lemma {:induction false} ToBaseValue(n: nat, base: nat)
    requires 2 <= base <= 16
    ensures ValueIn(ToBase(n, base), base) == n
    decreases n
  {
    DivMod(n, base);
    DigitCharValue(n % base);
    var s := ToBase(n, base);
    if n < base {
      assert s[..0] == [];
    } else {
      ToBaseValue(n / base, base);
      assert s[..|s| - 1] == ToBase(n / base, base);
      assert ValueIn(s, base) == ValueIn(ToBase(n / base, base), base) * base + n % base;
    }
  }

  /** Leading zeros do not change the value. */
  lemma {:induction false} ValueInZeros(k: nat, s: seq<char>, base: nat)
    ensures ValueIn(Repeat('0', k) + s, base) == ValueIn(s, base)
    decreases |s|
  {
    if s == [] {
      ZerosValue(k, base);
      assert Repeat('0', k) + s == Repeat('0', k);
    } else {
      ValueInZeros(k, s[..|s| - 1], base);
      assert (Repeat('0', k) + s)[..|Repeat('0', k) + s| - 1] == Repeat('0', k) + s[..|s| - 1];
    }
  }

  lemma {:induction false} ZerosValue(k: nat, base: nat)
    ensures ValueIn(Repeat('0', k), base) == 0
  {
    if k > 0 {
      ZerosValue(k - 1, base);
      assert Repeat('0', k)[..k - 1] == Repeat('0', k - 1);
    }
  }

  /** `{:0w}` / `{:0wx}`: the digits, zero-padded on the left to `width`. */
  function ZeroPadded(n: nat, base: nat, width: nat): (s: seq<char>)
    requires 2 <= base <= 16
    ensures |s| == if |ToBase(n, base)| < width then width else |ToBase(n, base)|
  {
    var d := ToBase(n, base);
    if |d| < width then Repeat('0', width - |d|) + d else d
  }

  /** Zero-padded digits read back as the number. */
  lemma ZeroPaddedValue(n: nat, base: nat, width: nat)
    requires 2 <= base <= 16
    ensures ValueIn(ZeroPadded(n, base, width), base) == n
  {
    var d := ToBase(n, base);
    ToBaseValue(n, base);
    if |d| < width {
      assert ZeroPadded(n, base, width) == Repeat('0', width - |d|) + d;
      ValueInZeros(width - |d|, d, base);
    } else {
      assert ZeroPadded(n, base, width) == d;
    }
  }

  /** Numbers below `base^k` have at most `k` digits. */
  lemma {:induction false} ToBaseLength(n: nat, base: nat, k: nat, bound: nat)
    requires 2 <= base <= 16 && 1 <= k && n < bound && bound == PowBase(base, k)
    ensures |ToBase(n, base)| <= k
    decreases k
  {
    DivMod(n, base);
    if n >= base {
      assert k != 1;
      assert n / base < PowBase(base, k - 1) by {
        assert n < base * PowBase(base, k - 1);
      }
      ToBaseLength(n / base, base, k - 1, PowBase(base, k - 1));
    }
  }

  function PowBase(base: nat, k: nat): nat {
    if k == 0 then 1 else base * PowBase(base, k - 1)
  }

  /** `{:02x}`: two lower-case hex digits. */
  function Hex2(b: byte): (s: seq<char>)
    ensures |s| == 2
  {
    [DigitChar(b as nat / 16), DigitChar(b as nat % 16)]
  }

  /** Both characters are hex digits and they read back as the byte. */
  lemma Hex2Value(b: byte)
    ensures ValueIn(Hex2(b), 16) == b as int
    ensures IsDigitIn(Hex2(b)[0], 16) && IsDigitIn(Hex2(b)[1], 16)
  {
    var hi, lo := b as nat / 16, b as nat % 16;
    DigitCharValue(hi);
    DigitCharValue(lo);
    var s := Hex2(b);
    assert s[..1] == [DigitChar(hi)] && s[..1][..0] == [];
    assert ValueIn(s[..1], 16) == hi;
  }

  /** `{:08x}` of an offset below 2^32: exactly eight digits. */
  lemma HexOffsetWidth(n: nat)
    requires n < 0x1_0000_0000
    ensures |ZeroPadded(n, 16, 8)| == 8
  {
    assert PowBase(16, 8) == 0x1_0000_0000;
    ToBaseLength(n, 16, 8, 0x1_0000_0000);
  }
}
