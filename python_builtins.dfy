/** The parts of Python's run-time that the telegram decoders lean on, stated on
    exact integers and strings: int(_, 16), str() of a non-negative int, string
    slicing, str.count, str.join (which raises on a None item), bin(),
    round(x / 100), and the exceptions these raise. */
module PyBuiltins {

  datatype Option<+T> = None | Some(value: T)

  /** The two exceptions a decoder can let escape: ValueError from int() on an
      empty or non-hexadecimal slice, TypeError from str.join on a None item. */
  datatype Exception = ValueError | TypeError

  /** What a Python call does: return a value or raise.  Usable with `:-`,
      which propagates the exception exactly as Python does. */
  datatype Result<+T> = Ok(value: T) | Raise(error: Exception) {
    predicate IsFailure() { Raise? }
    function PropagateFailure<U>(): Result<U> requires Raise? { Raise(error) }
    function Extract(): T requires Ok? { value }
  }

  /** The NUL character "\x00" the decoders look for. */
  const NUL: char := '\0'

  function Pow2(k: nat): (p: nat)
    ensures p >= 1
  {
    if k == 0 then 1 else 2 * Pow2(k - 1)
  }

  function Pow16(k: nat): (p: nat)
    ensures p >= 1
  {
    if k == 0 then 1 else 16 * Pow16(k - 1)
  }

  lemma {:induction false} Pow2Add(a: nat, b: nat)
    ensures Pow2(a + b) == Pow2(a) * Pow2(b)
  {
    if a > 0 {
      Pow2Add(a - 1, b);
    }
  }

  lemma {:induction false} Pow16Monotone(j: nat, k: nat)
    requires j <= k
    ensures Pow16(j) <= Pow16(k)
  {
    if j < k {
      Pow16Monotone(j, k - 1);
    }
  }

  /** The widths that occur in the telegrams. */
  lemma Pow2Values()
    ensures Pow2(8) == 256 && Pow2(14) == 16384 && Pow2(15) == 32768 && Pow2(16) == 65536
    ensures Pow2(30) == 1073741824 && Pow2(32) == 4294967296
    ensures Pow16(2) == 256 && Pow16(4) == 65536 && Pow16(8) == 4294967296
  {
    assert Pow2(8) == 256;
    Pow2Add(8, 6);
    Pow2Add(8, 7);
    Pow2Add(8, 8);
    Pow2Add(16, 14);
    Pow2Add(16, 16);
    assert Pow16(4) == 65536;
    assert Pow16(8) == 65536 * Pow16(4);
  }

  // ---------------------------------------------------------------------
  // Characters and int(s, 16)
  // ---------------------------------------------------------------------

  /** True when Python's int(_, 16) gives c no special meaning: an ASCII
      character that is neither white space (int() strips it) nor one of
      '_', '+', '-', 'x', 'X' (digit separator, sign, "0x" prefix). */
  predicate IsPlainChar(c: char) {
    var k := c as int;
    k < 128 && !(9 <= k <= 13) && !(28 <= k <= 32)
    && c != '_' && c != '+' && c != '-' && c != 'x' && c != 'X'
  }

  /** Text on which the model of int(_, 16) below is exact. */
  predicate IsPlainText(s: string) {
    forall i :: 0 <= i < |s| ==> IsPlainChar(s[i])
  }

  predicate IsHexDigit(c: char) {
    '0' <= c <= '9' || 'a' <= c <= 'f' || 'A' <= c <= 'F'
  }

  predicate IsHexText(s: string) {
    forall i :: 0 <= i < |s| ==> IsHexDigit(s[i])
  }

  function HexDigitValue(c: char): (d: nat)
    requires IsHexDigit(c)
    ensures d < 16
  {
    if '0' <= c <= '9' then c as int - '0' as int
    else if 'a' <= c <= 'f' then c as int - 'a' as int + 10
    else c as int - 'A' as int + 10
  }

  /** The value of a string of hex digits, most significant digit first. */
  function HexValue(s: string): (v: nat)
    requires IsHexText(s)
    ensures v < Pow16(|s|)
  {
    if s == [] then 0 else 16 * HexValue(s[..|s| - 1]) + HexDigitValue(s[|s| - 1])
  }

  /** int(s, 16) on plain text: a value when s is a non-empty run of hex
      digits, ValueError otherwise (the empty string, NUL, 'g', ...). */
  function ParseHex(s: string): (r: Result<nat>)
    requires IsPlainText(s)
    ensures r.Ok? <==> s != [] && IsHexText(s)
    ensures r.Ok? ==> r.value < Pow16(|s|)
  {
    if s != [] && IsHexText(s) then Ok(HexValue(s)) else Raise(ValueError)
  }

  /** The upper-case hex digits of v, padded with zeros to exactly `width` digits. */
  function HexEncode(v: nat, width: nat): (s: string)
    requires v < Pow16(width)
    ensures |s| == width && IsHexText(s)
  {
    if width == 0 then []
    else HexEncode(v / 16, width - 1) + ["0123456789ABCDEF"[v % 16]]
  }

  // ---------------------------------------------------------------------
  // Slicing, counting, joining
  // ---------------------------------------------------------------------

  function Min(a: nat, b: nat): nat { if a <= b then a else b }

  /** Python's s[lo:hi] for non-negative bounds: both ends are clamped to
      the length, and a reversed range is empty. */
  function Slice(s: string, lo: nat, hi: nat): (r: string)
    ensures |r| == if Min(hi, |s|) >= Min(lo, |s|) then Min(hi, |s|) - Min(lo, |s|) else 0
    ensures forall k :: 0 <= k < |r| ==> r[k] == s[Min(lo, |s|) + k]
  {
    var a := Min(lo, |s|);
    var b := Min(hi, |s|);
    if a <= b then s[a..b] else []
  }

  /** Adjacent slices tile: s[a:b] + s[b:c] == s[a:c]. */
  lemma SliceTiles(s: string, a: nat, b: nat, c: nat)
    requires a <= b <= c
    ensures Slice(s, a, b) + Slice(s, b, c) == Slice(s, a, c)
  {
    var x, y, z := Min(a, |s|), Min(b, |s|), Min(c, |s|);
    assert s[x..y] + s[y..z] == s[x..z];
  }

  /** The cases of Python slicing: past the end or reversed gives "", inside
      the string it is the plain subsequence, and an end past the length
      stops at the length. */
  lemma SliceCases(s: string, lo: nat, hi: nat)
    ensures |s| <= lo ==> Slice(s, lo, hi) == []
    ensures hi <= lo ==> Slice(s, lo, hi) == []
    ensures lo <= hi <= |s| ==> Slice(s, lo, hi) == s[lo..hi]
    ensures lo <= |s| <= hi ==> Slice(s, lo, hi) == s[lo..]
  {
  }

  /** s.count(c) for a one-character c. */
  function CountChar(s: string, c: char): (n: nat)
    ensures n <= |s|
  {
    if s == [] then 0 else CountChar(s[..|s| - 1], c) + (if s[|s| - 1] == c then 1 else 0)
  }

  /** sep.join(xs) for a list of strings. */
  function Join(sep: string, xs: seq<string>): string {
    if |xs| == 0 then ""
    else if |xs| == 1 then xs[0]
    else xs[0] + sep + Join(sep, xs[1..])
  }

  /** Joining two items puts the separator between them. */
  lemma JoinTwo(sep: string, a: string, b: string)
    ensures Join(sep, [a, b]) == a + sep + b
  {
    assert [a, b][1..] == [b];
  }

  predicate AllPresent(xs: seq<Option<string>>) {
    forall k :: 0 <= k < |xs| ==> xs[k].Some?
  }

  /** sep.join(xs) for a list whose items may be None (what dict.get without
      a default returns for a missing key): TypeError as soon as one item is
      None, the joined text otherwise. */
  function JoinItems(sep: string, xs: seq<Option<string>>): Result<string> {
    if AllPresent(xs) then Ok(Join(sep, seq(|xs|, k requires 0 <= k < |xs| => xs[k].value)))
    else Raise(TypeError)
  }

  // ---------------------------------------------------------------------
  // Decimal text, binary text, rounding
  // ---------------------------------------------------------------------

  predicate IsDecimalText(s: string) {
    forall i :: 0 <= i < |s| ==> '0' <= s[i] <= '9'
  }

  function DecimalValue(s: string): nat
    requires IsDecimalText(s)
  {
    if s == [] then 0 else 10 * DecimalValue(s[..|s| - 1]) + (s[|s| - 1] as int - '0' as int)
  }

  /** str(n) for an int n >= 0; also what an f-string prints for it. */
  function Str(n: nat): (s: string)
    ensures |s| >= 1 && IsDecimalText(s)
  {
    if n < 10 then ["0123456789"[n]] else Str(n / 10) + ["0123456789"[n % 10]]
  }

  /** The binary digits of n, most significant first, without leading zeros
      ("0" for zero). */
  function BinaryDigits(n: nat): (s: string)
    ensures |s| >= 1
  {
    if n < 2 then ["01"[n]] else BinaryDigits(n / 2) + ["01"[n % 2]]
  }

  /** bin(n) for an int n >= 0. */
  function Bin(n: nat): string {
    "0b" + BinaryDigits(n)
  }

  /** Python's round(x / 100) for 0 <= x < 2^16: the nearest integer, ties
      to the even one.  For such x the float quotient lies on the same side
      of every half-integer as the exact one and is exact at the ties, so
      exact arithmetic gives Python's answer. */
  function RoundPercent(x: nat): (r: nat)
    ensures -50 <= x - 100 * r <= 50
    ensures x - 100 * r == 50 || x - 100 * r == -50 ==> r % 2 == 0
  {
    var q, m := x / 100, x % 100;
    if m < 50 then q
    else if m > 50 then q + 1
    else if q % 2 == 0 then q
    else q + 1
  }

  // ---------------------------------------------------------------------
  // Partners: each conversion against its inverse
  // ---------------------------------------------------------------------

  /** HexEncode is a right inverse of int(_, 16). */
  lemma {:induction false} HexRoundTrip(v: nat, width: nat)
    requires v < Pow16(width)
    ensures HexValue(HexEncode(v, width)) == v
  {
    if width > 0 {
      var s := HexEncode(v, width);
      var c := "0123456789ABCDEF"[v % 16];
      assert s == HexEncode(v / 16, width - 1) + [c];
      assert s[..|s| - 1] == HexEncode(v / 16, width - 1);
      HexRoundTrip(v / 16, width - 1);
      DigitOfValue(v % 16);
    }
  }

  /** The upper-case digit written for d reads back as d. */
  lemma DigitOfValue(d: nat)
    requires d < 16
    ensures IsHexDigit("0123456789ABCDEF"[d]) && HexDigitValue("0123456789ABCDEF"[d]) == d
  {
    var c := "0123456789ABCDEF"[d];
    if d < 10 {
      assert c as int == '0' as int + d;
    } else {
      assert c as int == 'A' as int + d - 10;
    }
  }

  /** str() prints n as its decimal digits, with no leading zero. */
  lemma {:induction false} StrRoundTrip(n: nat)
    ensures DecimalValue(Str(n)) == n
    ensures |Str(n)| > 1 ==> Str(n)[0] != '0'
  {
    if n >= 10 {
      var s := Str(n);
      assert s == Str(n / 10) + ["0123456789"[n % 10]];
      assert s[..|s| - 1] == Str(n / 10);
      StrRoundTrip(n / 10);
      assert s[0] == Str(n / 10)[0];
    }
  }

  /** str() is injective: distinct values print differently. */
  lemma StrInjective(m: nat, n: nat)
    ensures Str(m) == Str(n) ==> m == n
  {
    StrRoundTrip(m);
    StrRoundTrip(n);
  }

  /** s.count('0') == len(s) exactly when every character is '0'. */
  lemma {:induction false} CountAllZeros(s: string)
    ensures CountChar(s, '0') == |s| <==> forall i :: 0 <= i < |s| ==> s[i] == '0'
  {
    if s != [] {
      var p := s[..|s| - 1];
      CountAllZeros(p);
      assert forall i :: 0 <= i < |p| ==> p[i] == s[i];
    }
  }

  /** A run of hex digits is all '0' exactly when its value is zero. */
  lemma {:induction false} HexZero(s: string)
    requires IsHexText(s)
    ensures HexValue(s) == 0 <==> forall i :: 0 <= i < |s| ==> s[i] == '0'
  {
    if s != [] {
      var p := s[..|s| - 1];
      HexZero(p);
      assert forall i :: 0 <= i < |p| ==> p[i] == s[i];
    }
  }
}
