/** Byte strings, the fixed-width ASCII fields of `ar` headers and fixed-width integer
    encodings. Rust's `format!("{:<w}", n)` and `{:<wo}` become Digits + LeftJustify,
    `{:<w}` on a UTF-8 text becomes PadChars, `to_le_bytes`/`to_be_bytes` become
    ToBytes. */
module Bytes {

  type u8 = x: int | 0 <= x < 0x100
  type u16 = x: int | 0 <= x < 0x1_0000
  type u32 = x: int | 0 <= x < 0x1_0000_0000
  type u64 = x: int | 0 <= x < 0x1_0000_0000_0000_0000

  const NUL: u8 := 0
  const NEWLINE: u8 := 10
  const SPACE: u8 := 32
  const HASH: u8 := 35
  const SLASH: u8 := 47
  const ZERO: u8 := 48
  const BACKTICK: u8 := 96

  /** The bytes of an ASCII literal. */
  function Ascii(s: string): (r: seq<u8>)
    requires forall i :: 0 <= i < |s| ==> s[i] < 128 as char
    ensures |r| == |s|
    ensures forall i :: 0 <= i < |s| ==> r[i] == s[i] as int
    ensures IsAscii(r)
  {
    seq(|s|, i requires 0 <= i < |s| => s[i] as int)
  }

  function Repeat(b: u8, n: nat): (r: seq<u8>)
    ensures |r| == n
    ensures forall i :: 0 <= i < n ==> r[i] == b
  {
    seq(n, _ => b)
  }

  function Max(a: nat, b: nat): nat {
    if a < b then b else a
  }

  /** Every byte is a 7-bit ASCII character. */
  predicate IsAscii(s: seq<u8>) {
    forall i :: 0 <= i < |s| ==> s[i] < 0x80
  }

  /** A byte that continues a multi-byte UTF-8 sequence (0b10xx_xxxx). */
  predicate IsContinuation(b: u8) {
    0x80 <= b < 0xC0
  }

  /** The number of chars in a UTF-8 text: the bytes that do not continue a sequence. */
  function CharCount(s: seq<u8>): (r: nat)
    ensures r <= |s|
  {
    if s == [] then 0 else CharCount(s[..|s| - 1]) + (if IsContinuation(s[|s| - 1]) then 0 else 1)
  }

  lemma {:induction false} CharCountAppend(a: seq<u8>, b: seq<u8>)
    ensures CharCount(a + b) == CharCount(a) + CharCount(b)
    decreases |b|
  {
    if b != [] {
      var b' := b[..|b| - 1];
      assert (a + b)[..|a + b| - 1] == a + b';
      CharCountAppend(a, b');
    } else {
      assert a + b == a;
    }
  }

  /** In ASCII text every byte is a char. */
  lemma {:induction false} AsciiCharCount(s: seq<u8>)
    requires IsAscii(s)
    ensures CharCount(s) == |s|
    decreases |s|
  {
    if s != [] {
      AsciiCharCount(s[..|s| - 1]);
    }
  }

  /** Rust's `{:<width}` on a string: the text, then spaces until it holds `width` chars
      (not bytes); it never truncates. */
  function PadChars(s: seq<u8>, width: nat): (r: seq<u8>)
    ensures |r| == |s| + (if CharCount(s) < width then width - CharCount(s) else 0)
    ensures r[..|s|] == s
    ensures forall i :: |s| <= i < |r| ==> r[i] == SPACE
    ensures CharCount(r) == Max(CharCount(s), width)
  {
    var n := CharCount(s);
    if n < width then
      var r := s + Repeat(SPACE, width - n);
      SpacesAreChars(width - n);
      CharCountAppend(s, Repeat(SPACE, width - n));
      r
    else s
  }

  lemma SpacesAreChars(n: nat)
    ensures CharCount(Repeat(SPACE, n)) == n
  {
    AsciiCharCount(Repeat(SPACE, n));
  }

  /** Rust's `{:<width}` on ASCII text, such as the digits of a number, where every byte
      is a char: the text, then spaces up to `width` bytes; it never truncates. */
  function LeftJustify(s: seq<u8>, width: nat): (r: seq<u8>)
    ensures |r| == Max(|s|, width)
    ensures r[..|s|] == s
    ensures forall i :: |s| <= i < |r| ==> r[i] == SPACE
  {
    if |s| < width then s + Repeat(SPACE, width - |s|) else s
  }

  function Pow(b: nat, k: nat): (r: nat)
    ensures b >= 1 ==> r >= 1
  {
    if k == 0 then 1 else b * Pow(b, k - 1)
  }

  predicate IsDigit(c: u8, base: nat) {
    ZERO <= c < ZERO + base
  }

  /** The digits of `n` in `base`, most significant first, without leading zeros
      (Rust's `{}` for base 10 and `{:o}` for base 8). */
  function Digits(n: nat, base: nat): (r: seq<u8>)
    requires 2 <= base <= 10
    ensures 1 <= |r|
    ensures forall i :: 0 <= i < |r| ==> IsDigit(r[i], base)
    decreases n
  {
    if n < base then [ZERO + n] else
      DivMod(n, base, n / base, n % base);
      Digits(n / base, base) + [ZERO + n % base]
  }

  function Decimal(n: nat): seq<u8> {
    Digits(n, 10)
  }

  function Octal(n: nat): seq<u8> {
    Digits(n, 8)
  }

  /** The number a digit string denotes: the reading direction of Digits. */
  function Value(ds: seq<u8>, base: nat): nat
    requires 2 <= base <= 10
    requires forall i :: 0 <= i < |ds| ==> IsDigit(ds[i], base)
  {
    if ds == [] then 0 else
      var last := ds[|ds| - 1];
      assert IsDigit(last, base);
      Value(ds[..|ds| - 1], base) * base + (last - ZERO)
  }

  lemma {:induction false} DigitsRoundTrip(n: nat, base: nat)
    requires 2 <= base <= 10
    ensures Value(Digits(n, base), base) == n
    decreases n
  {
    if n >= base {
      var q, r := n / base, n % base;
      DivMod(n, base, q, r);
      DigitsRoundTrip(q, base);
      DigitsSnoc(n, base, q, r);
      ValueSnoc(Digits(q, base), ZERO + r, base);
    }
  }

  lemma DivMod(n: nat, base: nat, q: nat, r: nat)
    requires base >= 2 && n >= base && q == n / base && r == n % base
    ensures q * base + r == n && r < base && q < n
  {
  }

  lemma DigitsSnoc(n: nat, base: nat, q: nat, r: nat)
    requires 2 <= base <= 10 && n >= base && q == n / base && r == n % base
    ensures Digits(n, base) == Digits(q, base) + [ZERO + r]
  {
  }

  lemma ValueSnoc(ds: seq<u8>, d: u8, base: nat)
    requires 2 <= base <= 10 && IsDigit(d, base)
    requires forall i :: 0 <= i < |ds| ==> IsDigit(ds[i], base)
    ensures Value(ds + [d], base) == Value(ds, base) * base + (d - ZERO)
  {
    assert (ds + [d])[..|ds|] == ds;
  }

  /** A rendering fits a field of width `w` exactly when the value is below base^w. */
  lemma {:induction false} DigitsFit(n: nat, base: nat, w: nat)
    requires 2 <= base <= 10 && 1 <= w
    ensures |Digits(n, base)| <= w <==> n < Pow(base, w)
    decreases n
  {
    if n < base {
      PowAtLeastBase(base, w);
    } else if w == 1 {
      DigitsLength(n, base);
      assert Pow(base, 1) == base;
    } else {
      DigitsLength(n, base);
      DivMod(n, base, n / base, n % base);
      DigitsFit(n / base, base, w - 1);
      PowStep(base, w);
      LemmaDivBound(n, base, Pow(base, w - 1));
    }
  }

  lemma DigitsLength(n: nat, base: nat)
    requires 2 <= base <= 10 && n >= base
    ensures |Digits(n, base)| == |Digits(n / base, base)| + 1
  {
  }

  lemma PowStep(base: nat, w: nat)
    requires w >= 1
    ensures Pow(base, w) == base * Pow(base, w - 1)
  {
  }

  lemma PowAtLeastBase(base: nat, w: nat)
    requires 2 <= base && 1 <= w
    ensures base <= Pow(base, w)
    decreases w
  {
    if w > 1 {
      PowAtLeastBase(base, w - 1);
    }
  }

  lemma LemmaDivBound(n: nat, b: nat, p: nat)
    requires b >= 1
    ensures n / b < p <==> n < b * p
  {
    var q, r := n / b, n % b;
    assert n == b * q + r && r < b;
    if q < p {
      MulLeMono(b, q + 1, p);
      assert b * (q + 1) == b * q + b;
    } else {
      MulLeMono(b, p, q);
    }
  }

  lemma MulLeMono(b: nat, x: nat, y: nat)
    requires x <= y
    ensures b * x <= b * y
  {
    var d: nat := y - x;
    assert b * y == b * x + b * d;
  }

  /** The longest prefix of `field` made of digits. */
  function LeadingDigits(field: seq<u8>, base: nat): (r: seq<u8>)
    ensures |r| <= |field| && r == field[..|r|]
    ensures forall i :: 0 <= i < |r| ==> IsDigit(r[i], base)
    ensures |r| < |field| ==> !IsDigit(field[|r|], base)
  {
    if field == [] || !IsDigit(field[0], base) then []
    else [field[0]] + LeadingDigits(field[1..], base)
  }

  /** What a reader of a space-padded numeric header field sees. */
  function ReadField(field: seq<u8>, base: nat): nat
    requires 2 <= base <= 10
  {
    Value(LeadingDigits(field, base), base)
  }

  lemma {:induction false} LeadingDigitsOfDigits(ds: seq<u8>, rest: seq<u8>, base: nat)
    requires forall i :: 0 <= i < |ds| ==> IsDigit(ds[i], base)
    requires rest == [] || !IsDigit(rest[0], base)
    ensures LeadingDigits(ds + rest, base) == ds
    decreases |ds|
  {
    if ds == [] {
      assert ds + rest == rest;
    } else {
      var f := ds + rest;
      assert f[0] == ds[0] && IsDigit(f[0], base);
      assert f[1..] == ds[1..] + rest;
      LeadingDigitsOfDigits(ds[1..], rest, base);
      assert LeadingDigits(f, base) == [ds[0]] + ds[1..];
      assert [ds[0]] + ds[1..] == ds;
    }
  }

  /** A left-justified numeric field reads back as the number it was rendered from. */
  lemma FieldRoundTrip(n: nat, base: nat, width: nat)
    requires 2 <= base <= 10
    ensures ReadField(LeftJustify(Digits(n, base), width), base) == n
  {
    var ds := Digits(n, base);
    var f := LeftJustify(ds, width);
    var rest := f[|ds|..];
    assert f == ds + rest;
    assert rest == [] || rest[0] == SPACE;
    LeadingDigitsOfDigits(ds, rest, base);
    DigitsRoundTrip(n, base);
  }

  /** The low `k` bytes of `n`: least significant first when `little` (Rust's
      `to_le_bytes` for a k-byte integer), most significant first otherwise
      (`to_be_bytes`). */
  function ToBytes(little: bool, n: nat, k: nat): (r: seq<u8>)
    ensures |r| == k
  {
    if k == 0 then []
    else if little then [n % 256] + ToBytes(little, n / 256, k - 1)
    else ToBytes(little, n / 256, k - 1) + [n % 256]
  }

  /** A u16 as 2 little-endian bytes. */
  function Le16(n: nat): (r: seq<u8>)
    requires n < 0x1_0000
    ensures |r| == 2
  {
    ToBytes(true, n, 2)
  }

  /** A u32 as 4 little-endian bytes. */
  function Le32(n: nat): (r: seq<u8>)
    requires n < 0x1_0000_0000
    ensures |r| == 4
  {
    ToBytes(true, n, 4)
  }

  function FromLittleEndian(bs: seq<u8>): nat {
    if bs == [] then 0 else bs[0] + 256 * FromLittleEndian(bs[1..])
  }

  function FromBigEndian(bs: seq<u8>): nat {
    if bs == [] then 0 else 256 * FromBigEndian(bs[..|bs| - 1]) + bs[|bs| - 1]
  }

  lemma {:induction false} LittleEndianRoundTrip(n: nat, k: nat)
    requires n < Pow(256, k)
    ensures FromLittleEndian(ToBytes(true, n, k)) == n
  {
    if k > 0 {
      LemmaDivBound(n, 256, Pow(256, k - 1));
      LittleEndianRoundTrip(n / 256, k - 1);
      assert ToBytes(true, n, k)[1..] == ToBytes(true, n / 256, k - 1);
    }
  }

  lemma {:induction false} BigEndianRoundTrip(n: nat, k: nat)
    requires n < Pow(256, k)
    ensures FromBigEndian(ToBytes(false, n, k)) == n
  {
    if k > 0 {
      LemmaDivBound(n, 256, Pow(256, k - 1));
      BigEndianRoundTrip(n / 256, k - 1);
      var bs := ToBytes(false, n, k);
      assert bs[..|bs| - 1] == ToBytes(false, n / 256, k - 1);
    }
  }

  lemma EmptyRight(a: seq<u8>)
    ensures a + [] == a
  {
  }

  /** `x` occurs in `bytes` starting at offset `at`. */
  predicate Occurs(bytes: seq<u8>, at: nat, x: seq<u8>) {
    at + |x| <= |bytes| && bytes[at..at + |x|] == x
  }

  /** A slice of the front part of a concatenation. */
  lemma SliceOfFront(a: seq<u8>, b: seq<u8>, lo: nat, hi: nat, x: seq<u8>)
    requires lo <= hi <= |a| && a[lo..hi] == x
    ensures (a + b)[lo..hi] == x
  {
    assert (a + b)[lo..hi] == a[lo..hi];
  }

  /** The back part of a concatenation, as a slice. */
  lemma SliceOfBack(a: seq<u8>, b: seq<u8>, lo: nat, hi: nat)
    requires lo == |a| && hi == |a| + |b|
    ensures (a + b)[lo..hi] == b
  {
  }

  /** A slice of the back part of a concatenation, shifted by the front's length. */
  lemma SliceAfter(a: seq<u8>, b: seq<u8>, lo: nat, hi: nat, x: seq<u8>)
    requires lo <= hi <= |b| && b[lo..hi] == x
    ensures (a + b)[|a| + lo..|a| + hi] == x
  {
    assert (a + b)[|a| + lo..|a| + hi] == b[lo..hi];
  }

  /** Regrouping seven parts around the third. */
  lemma RegroupAfterThird(a: seq<u8>, b: seq<u8>, c: seq<u8>, d: seq<u8>, e: seq<u8>, f: seq<u8>, g: seq<u8>)
    ensures a + (b + c) + d + e + f + g == (a + b + c) + (d + e + f + g)
  {
  }

  /** The middle part of a concatenation, as a slice. */
  lemma SliceInMiddle(a: seq<u8>, b: seq<u8>, c: seq<u8>, lo: nat, hi: nat)
    requires lo == |a| && hi == |a| + |b|
    ensures hi <= |a + b + c| && (a + b + c)[lo..hi] == b
  {
    assert (a + b + c)[lo..hi] == b;
  }

  lemma Regroup(a: seq<u8>, b: seq<u8>, c: seq<u8>, d: seq<u8>)
    ensures a + b + c + d == a + b + (c + d)
  {
  }

  lemma Assoc(a: seq<u8>, b: seq<u8>, c: seq<u8>)
    ensures a + b + c == a + (b + c)
  {
  }

  lemma RegroupTail(a: seq<u8>, b: seq<u8>, c: seq<u8>, d: seq<u8>, e: seq<u8>)
    ensures a + b + c + d + e == a + b + (c + d + e)
  {
  }

  lemma RegroupMiddle(a: seq<u8>, b: seq<u8>, c: seq<u8>, d: seq<u8>, e: seq<u8>)
    ensures a + (b + c + d) + e == (a + b) + c + (d + e)
  {
  }

  /** The first n elements of xs, each rendered by f, one after the other. */
  function ConcatMap<T>(f: T -> seq<u8>, xs: seq<T>, n: nat): seq<u8>
    requires n <= |xs|
  {
    if n == 0 then [] else ConcatMap(f, xs, n - 1) + f(xs[n - 1])
  }

  /** Renderings of equal width w take n * w bytes. */
  lemma {:induction false} ConcatMapLength<T>(f: T -> seq<u8>, xs: seq<T>, n: nat, w: nat)
    requires n <= |xs| && forall x :: |f(x)| == w
    ensures |ConcatMap(f, xs, n)| == n * w
  {
    if n > 0 {
      ConcatMapLength(f, xs, n - 1, w);
      MulStep(n - 1, w);
    }
  }

  /** Rendering element j follows the renderings before it, whatever comes after. */
  lemma {:induction false} ConcatMapSplit<T>(f: T -> seq<u8>, xs: seq<T>, n: nat, j: nat) returns (after: seq<u8>)
    requires j < n <= |xs|
    ensures ConcatMap(f, xs, n) == ConcatMap(f, xs, j) + f(xs[j]) + after
    decreases n
  {
    if j == n - 1 {
      after := [];
    } else {
      var after' := ConcatMapSplit(f, xs, n - 1, j);
      after := after' + f(xs[n - 1]);
      Regroup(ConcatMap(f, xs, j), f(xs[j]), after', f(xs[n - 1]));
    }
  }

  /** Rendering the first n <= |a| elements of a + b renders the first n of a. */
  lemma {:induction false} ConcatMapOfFront<T>(f: T -> seq<u8>, a: seq<T>, b: seq<T>, n: nat)
    requires n <= |a|
    ensures ConcatMap(f, a + b, n) == ConcatMap(f, a, n)
  {
    if n > 0 {
      ConcatMapOfFront(f, a, b, n - 1);
      assert (a + b)[n - 1] == a[n - 1];
    }
  }

  /** Rendering a + b renders a, then b. */
  lemma {:induction false} ConcatMapOfAppend<T>(f: T -> seq<u8>, a: seq<T>, b: seq<T>, k: nat)
    requires k <= |b|
    ensures ConcatMap(f, a + b, |a| + k) == ConcatMap(f, a, |a|) + ConcatMap(f, b, k)
  {
    if k == 0 {
      ConcatMapOfFront(f, a, b, |a|);
    } else {
      ConcatMapOfAppend(f, a, b, k - 1);
      assert (a + b)[|a| + k - 1] == b[k - 1];
      Assoc(ConcatMap(f, a, |a|), ConcatMap(f, b, k - 1), f(b[k - 1]));
    }
  }

  /** A prefix one longer is the shorter prefix and one more element. */
  lemma PrefixSnoc<T>(s: seq<T>, n: nat)
    requires 0 < n <= |s|
    ensures s[..n] == s[..n - 1] + [s[n - 1]]
  {
  }

  lemma MulStep(a: nat, w: nat)
    ensures (a + 1) * w == a * w + w
  {
  }
}
