/** Bit-flag interpretation: an integer's set bits, each mapped to the label
    its position has in a table.  The decoders do this by printing bin(n),
    dropping "0b", reversing the digits so that index i is bit i, and
    collecting the label of every '1' in ascending order; SetBits and
    FlagEntries state the same thing on integers, and the lemmas here show
    that the two agree. */
module BitFlags {
  import opened PyBuiltins

  /** n & (1 << i) != 0 */
  predicate Bit(n: nat, i: nat) {
    if i == 0 then n % 2 == 1 else Bit(n / 2, i - 1)
  }

  /** The positions p >= i of the one bits of n * 2^i, ascending. */
  function SetBitsFrom(n: nat, i: nat): seq<nat> {
    if n == 0 then []
    else (if n % 2 == 1 then [i] else []) + SetBitsFrom(n / 2, i + 1)
  }

  /** The positions of the one bits of n, lowest first. */
  function SetBits(n: nat): seq<nat> {
    SetBitsFrom(n, 0)
  }

  /** dict.get(i) on a table whose keys are 0 .. |table| - 1. */
  function Lookup(table: seq<string>, i: nat): Option<string> {
    if i < |table| then Some(table[i]) else None
  }

  function Entries(table: seq<string>, positions: seq<nat>): seq<Option<string>> {
    seq(|positions|, k requires 0 <= k < |positions| => Lookup(table, positions[k]))
  }

  /** The list the decoders build for a non-zero value n: one dict.get per
      one bit, lowest bit first. */
  function FlagEntries(table: seq<string>, n: nat): seq<Option<string>> {
    Entries(table, SetBits(n))
  }

  /** " | ".join of that list. */
  function FlagText(table: seq<string>, n: nat): Result<string> {
    JoinItems(" | ", FlagEntries(table, n))
  }

  /** list.reverse() */
  function Reversed(s: seq<char>): (r: seq<char>)
    ensures |r| == |s|
    ensures forall k :: 0 <= k < |s| ==> r[k] == s[|s| - 1 - k]
  {
    seq(|s|, k requires 0 <= k < |s| => s[|s| - 1 - k])
  }

  /** Reversing twice gives the list back, and reversing permutes it. */
  lemma {:induction false} ReversedPermutes(s: seq<char>)
    ensures Reversed(Reversed(s)) == s
    ensures multiset(Reversed(s)) == multiset(s)
  {
    if s != [] {
      ReversedPermutes(s[1..]);
      assert Reversed(s) == Reversed(s[1..]) + [s[0]];
      assert s == [s[0]] + s[1..];
    }
  }

  /** The indices i + k of the '1' characters digits[k], ascending: what
      `for key, bit in enumerate(digits): if bit == "1"` visits. */
  function OnesFrom(digits: string, i: nat): seq<nat> {
    if digits == [] then []
    else (if digits[0] == '1' then [i] else []) + OnesFrom(digits[1..], i + 1)
  }

  /** bin(n) without "0b", reversed: digit k is bit k. */
  function LowBitFirst(n: nat): (s: string)
    ensures |s| >= 1
  {
    if n < 2 then ["01"[n]] else ["01"[n % 2]] + LowBitFirst(n / 2)
  }

  // ---------------------------------------------------------------------
  // The list building of the decoders, step by step
  // ---------------------------------------------------------------------

  /** `for character in text: chars.append(character)` */
  method CharList(text: string) returns (chars: seq<char>)
    ensures chars == text
  {
    chars := [];
    for i := 0 to |text|
      invariant chars == text[..i]
    {
      chars := chars + [text[i]];
    }
  }

  /** `for key, bit in enumerate(digits): if bit == "1": labels.append(table.get(key))`,
      starting from an empty list. */
  method CollectLabels(table: seq<string>, digits: string) returns (labels: seq<Option<string>>)
    ensures labels == Entries(table, OnesFrom(digits, 0))
  {
    labels := [];
    for key := 0 to |digits|
      invariant labels == Entries(table, OnesFrom(digits[..key], 0))
    {
      assert digits[..key + 1] == digits[..key] + [digits[key]];
      OnesFromAppend(digits[..key], digits[key], 0);
      if digits[key] == '1' {
        labels := labels + [Lookup(table, key)];
      }
    }
    assert digits[..|digits|] == digits;
  }

  /** The error/warning variant: bin(n), list of characters, drop the first
      two, reverse, collect. */
  method LabelsBySlicing(table: seq<string>, n: nat) returns (labels: seq<Option<string>>)
    ensures labels == FlagEntries(table, n)
  {
    var chars := CharList(Bin(n));
    chars := chars[2..];
    chars := Reversed(chars);
    labels := CollectLabels(table, chars);
    BinReversedIsLowBitFirst(n);
    OnesOfLowBitFirst(n, 0);
  }

  /** The status-byte and mode variant: bin(n), list of characters, reverse,
      pop() twice to drop the trailing "b0", collect. */
  method LabelsByPopping(table: seq<string>, n: nat) returns (labels: seq<Option<string>>)
    ensures labels == FlagEntries(table, n)
  {
    var chars := CharList(Bin(n));
    chars := Reversed(chars);
    ghost var reversedBin := chars;
    chars := chars[..|chars| - 1];
    chars := chars[..|chars| - 1];
    BinReversedIsLowBitFirst(n);
    assert chars == reversedBin[..|reversedBin| - 2];
    labels := CollectLabels(table, chars);
    OnesOfLowBitFirst(n, 0);
  }

  // ---------------------------------------------------------------------
  // The digit manipulations agree with the bits
  // ---------------------------------------------------------------------

  lemma {:induction false} OnesFromAppend(digits: string, c: char, i: nat)
    ensures OnesFrom(digits + [c], i) == OnesFrom(digits, i) + (if c == '1' then [i + |digits|] else [])
  {
    if digits == [] {
      assert OnesFrom([c], i) == (if c == '1' then [i] else []) + OnesFrom([], i + 1);
    } else {
      assert (digits + [c])[1..] == digits[1..] + [c];
      OnesFromAppend(digits[1..], c, i + 1);
    }
  }

  lemma {:induction false} LowBitFirstReversesDigits(n: nat)
    ensures LowBitFirst(n) == Reversed(BinaryDigits(n))
  {
    if n >= 2 {
      LowBitFirstReversesDigits(n / 2);
      var m := BinaryDigits(n / 2);
      assert BinaryDigits(n) == m + ["01"[n % 2]];
      var r := Reversed(BinaryDigits(n));
      assert r == ["01"[n % 2]] + Reversed(m) by {
        forall k | 0 <= k < |r| ensures r[k] == (["01"[n % 2]] + Reversed(m))[k] {
          if k > 0 {
            assert r[k] == BinaryDigits(n)[|m| - k];
          }
        }
      }
    }
  }

  /** Both ways the decoders strip "0b" from reversed bin(n) give the low-bit-first digits. */
  lemma BinReversedIsLowBitFirst(n: nat)
    ensures Reversed(Bin(n)[2..]) == LowBitFirst(n)
    ensures |Bin(n)| >= 3
    ensures Reversed(Bin(n))[..|Bin(n)| - 2] == LowBitFirst(n)
  {
    LowBitFirstReversesDigits(n);
    var b := Bin(n);
    assert b[2..] == BinaryDigits(n);
    var r := Reversed(b);
    assert r[..|b| - 2] == Reversed(BinaryDigits(n)) by {
      forall k | 0 <= k < |b| - 2 ensures r[k] == Reversed(BinaryDigits(n))[k] {
        assert r[k] == b[|b| - 1 - k];
      }
    }
  }

  /** The '1' positions of the low-bit-first digits are the set bits. */
  lemma {:induction false} OnesOfLowBitFirst(n: nat, i: nat)
    ensures OnesFrom(LowBitFirst(n), i) == SetBitsFrom(n, i)
  {
    if n == 0 {
      assert LowBitFirst(0) == "0";
      assert OnesFrom("0", i) == [] + OnesFrom([], i + 1);
    } else if n == 1 {
      assert LowBitFirst(1) == "1";
      assert OnesFrom("1", i) == [i] + OnesFrom([], i + 1);
      assert SetBitsFrom(1, i) == [i] + SetBitsFrom(0, i + 1);
    } else {
      var s := LowBitFirst(n);
      assert s[0] == "01"[n % 2] && s[1..] == LowBitFirst(n / 2);
      OnesOfLowBitFirst(n / 2, i + 1);
    }
  }

  // ---------------------------------------------------------------------
  // What the set bits are
  // ---------------------------------------------------------------------

  /** p is listed exactly when bit p - i of n is set. */
  lemma {:induction false} SetBitsFromMember(n: nat, i: nat, p: nat)
    ensures p in SetBitsFrom(n, i) <==> p >= i && Bit(n, p - i)
  {
    if n > 0 {
      SetBitsFromMember(n / 2, i + 1, p);
    } else if p >= i {
      ZeroHasNoBits(p - i);
    }
  }

  lemma {:induction false} ZeroHasNoBits(i: nat)
    ensures !Bit(0, i)
  {
    if i > 0 {
      ZeroHasNoBits(i - 1);
    }
  }

  /** Every listed position is at least i, and the list ascends strictly. */
  lemma {:induction false} SetBitsFromAscending(n: nat, i: nat)
    ensures forall k :: 0 <= k < |SetBitsFrom(n, i)| ==> SetBitsFrom(n, i)[k] >= i
    ensures forall j, k :: 0 <= j < k < |SetBitsFrom(n, i)| ==> SetBitsFrom(n, i)[j] < SetBitsFrom(n, i)[k]
  {
    if n > 0 {
      SetBitsFromAscending(n / 2, i + 1);
    }
  }

  /** A listed position p has 2^(p - i) <= n. */
  lemma {:induction false} SetBitBound(n: nat, i: nat, p: nat)
    requires p in SetBitsFrom(n, i)
    ensures p >= i && Pow2(p - i) <= n
  {
    SetBitsFromAscending(n, i);
    var tail := SetBitsFrom(n / 2, i + 1);
    if p in tail {
      SetBitBound(n / 2, i + 1, p);
    }
  }

  /** n >= 2^m exactly when some listed position is at least i + m. */
  lemma {:induction false} HighBitListed(n: nat, i: nat, m: nat)
    ensures n >= Pow2(m) <==> exists p :: p in SetBitsFrom(n, i) && p >= i + m
  {
    if n >= Pow2(m) {
      if m == 0 {
        if n % 2 == 1 {
          assert i in SetBitsFrom(n, i);
        } else {
          HighBitListed(n / 2, i + 1, 0);
          var p :| p in SetBitsFrom(n / 2, i + 1) && p >= i + 1;
          assert p in SetBitsFrom(n, i);
        }
      } else {
        HighBitListed(n / 2, i + 1, m - 1);
        var p :| p in SetBitsFrom(n / 2, i + 1) && p >= i + 1 + (m - 1);
        assert p in SetBitsFrom(n, i);
      }
    }
    if exists p :: p in SetBitsFrom(n, i) && p >= i + m {
      var p :| p in SetBitsFrom(n, i) && p >= i + m;
      SetBitBound(n, i, p);
      Pow2Monotone(m, p - i);
    }
  }

  lemma {:induction false} Pow2Monotone(a: nat, b: nat)
    requires a <= b
    ensures Pow2(a) <= Pow2(b)
  {
    if a < b {
      Pow2Monotone(a, b - 1);
    }
  }

  /** The number of labels is the number of '1's in bin(n) (Python's popcount). */
  lemma {:induction false} SetBitsCount(n: nat, i: nat)
    ensures |SetBitsFrom(n, i)| == CountChar(Bin(n), '1')
  {
    var b := Bin(n);
    if n == 0 {
      assert b == "0b0";
      assert b[..2] == "0b" && b[..1] == "0";
    } else if n == 1 {
      assert b == "0b1";
      assert b[..2] == "0b" && b[..2][..1] == "0" && b[..2][..1][..0] == [];
      assert CountChar(b[..2], '1') == 0;
      assert SetBitsFrom(1, i) == [i] + SetBitsFrom(0, i + 1);
    } else {
      SetBitsCount(n / 2, i + 1);
      assert b == Bin(n / 2) + ["01"[n % 2]];
      assert b[..|b| - 1] == Bin(n / 2);
    }
  }

  // ---------------------------------------------------------------------
  // The joined label text
  // ---------------------------------------------------------------------

  /** The join raises TypeError exactly when n has a bit beyond the table,
      that is, when n >= 2^|table|. */
  lemma FlagTextRaisesIff(table: seq<string>, n: nat)
    ensures FlagText(table, n).Raise? <==> n >= Pow2(|table|)
    ensures FlagText(table, n).Raise? ==> FlagText(table, n).error == TypeError
  {
    var ps := SetBits(n);
    var es := FlagEntries(table, n);
    HighBitListed(n, 0, |table|);
    if n >= Pow2(|table|) {
      var p :| p in ps && p >= |table|;
      var k :| 0 <= k < |ps| && ps[k] == p;
      assert es[k].None?;
    } else {
      SetBitsBelow(table, n);
      assert AllPresent(es);
    }
  }

  /** The table's labels at the given positions. */
  function LabelsAt(table: seq<string>, positions: seq<nat>): seq<string>
    requires forall k :: 0 <= k < |positions| ==> positions[k] < |table|
  {
    seq(|positions|, k requires 0 <= k < |positions| => table[positions[k]])
  }

  /** Below 2^|table| every set bit has a position inside the table. */
  lemma SetBitsBelow(table: seq<string>, n: nat)
    requires n < Pow2(|table|)
    ensures forall k :: 0 <= k < |SetBits(n)| ==> SetBits(n)[k] < |table|
  {
    var ps := SetBits(n);
    forall k | 0 <= k < |ps| ensures ps[k] < |table| {
      SetBitBound(n, 0, ps[k]);
      if ps[k] >= |table| {
        Pow2Monotone(|table|, ps[k]);
      }
    }
  }

  /** The labels of the set bits of n, joined by " | ", when all have one. */
  function LabelText(table: seq<string>, n: nat): string
    requires n < Pow2(|table|)
  {
    SetBitsBelow(table, n);
    Join(" | ", LabelsAt(table, SetBits(n)))
  }

  /** n >= 2^m exactly when n has a set bit at position m or above. */
  lemma HighBitSet(n: nat, m: nat)
    ensures n >= Pow2(m) <==> exists p :: p >= m && Bit(n, p)
  {
    HighBitListed(n, 0, m);
    if n >= Pow2(m) {
      var p :| p in SetBitsFrom(n, 0) && p >= m;
      SetBitsFromMember(n, 0, p);
    }
    if exists p :: p >= m && Bit(n, p) {
      var p :| p >= m && Bit(n, p);
      SetBitsFromMember(n, 0, p);
    }
  }

  /** Below 2^w, n has no set bit at w or above. */
  lemma NoBitAbove(n: nat, w: nat, p: nat)
    requires n < Pow2(w) && p >= w
    ensures !Bit(n, p)
  {
    HighBitSet(n, w);
  }

  /** Below 2^|table| every set bit has a label, and the text is those
      labels, lowest bit first, joined by " | ". */
  lemma FlagTextLabels(table: seq<string>, n: nat)
    requires n < Pow2(|table|)
    ensures forall k :: 0 <= k < |SetBits(n)| ==> SetBits(n)[k] < |table|
    ensures FlagText(table, n) == Ok(LabelText(table, n))
  {
    SetBitsBelow(table, n);
    var ps := SetBits(n);
    var es := Entries(table, ps);
    assert AllPresent(es);
    var values := seq(|es|, k requires 0 <= k < |es| => es[k].value);
    assert values == LabelsAt(table, ps);
  }

  /** The label of position p is among the entries exactly when bit p is set,
      and entries come in ascending position order. */
  lemma FlagEntriesMeaning(table: seq<string>, n: nat, p: nat)
    ensures (exists k :: 0 <= k < |SetBits(n)| && SetBits(n)[k] == p) <==> Bit(n, p)
    ensures |FlagEntries(table, n)| == |SetBits(n)| == CountChar(Bin(n), '1')
    ensures forall j, k :: 0 <= j < k < |SetBits(n)| ==> SetBits(n)[j] < SetBits(n)[k]
    ensures forall k :: 0 <= k < |SetBits(n)| ==> FlagEntries(table, n)[k] == Lookup(table, SetBits(n)[k])
  {
    var ps := SetBitsFrom(n, 0);
    SetBitsFromMember(n, 0, p);
    SetBitsFromAscending(n, 0);
    SetBitsCount(n, 0);
    assert ps == SetBits(n);
    if Bit(n, p) {
      assert p in ps;
      var k :| 0 <= k < |ps| && ps[k] == p;
      assert SetBits(n)[k] == p;
    } else {
      forall k | 0 <= k < |ps| ensures ps[k] != p {
        assert ps[k] in ps;
      }
    }
  }
}
