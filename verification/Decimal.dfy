// The kernel's two base-10 converters, kernel/keyboard.cpp and src/main.cpp, on
// NUL-terminated byte buffers.
module Decimal {
  import opened Memory

  const ZERO: Byte := 48

  function DigitOf(d: nat): Byte
    requires d < 10
  {
    ZERO + d
  }

  // The canonical numeral of v.
  function Digits(v: nat): (s: seq<Byte>)
    ensures |s| > 0
  {
    if v < 10 then [DigitOf(v)] else Digits(v / 10) + [DigitOf(v % 10)]
  }

  predicate IsNumeral(s: seq<Byte>) {
    |s| > 0 && forall i :: 0 <= i < |s| ==> '0' as nat <= s[i] <= '9' as nat
  }

  // No leading zero, except for zero itself.
  predicate IsCanonical(s: seq<Byte>) {
    IsNumeral(s) && (|s| > 1 ==> s[0] != '0' as nat)
  }

  function Parse(s: seq<Byte>): nat
    requires forall i :: 0 <= i < |s| ==> ZERO <= s[i]
  {
    if s == [] then 0 else 10 * Parse(s[..|s| - 1]) + (s[|s| - 1] - ZERO)
  }

  // Reading a numeral back gives the number, and numerals are canonical.
  lemma {:induction false} RoundTrip(v: nat)
    ensures IsCanonical(Digits(v)) && Parse(Digits(v)) == v
    ensures v > 0 ==> Digits(v)[0] != ZERO
  {
    if v < 10 {
      assert Digits(v)[..0] == [];
    } else {
      RoundTrip(v / 10);
      assert Digits(v)[..|Digits(v)| - 1] == Digits(v / 10);
    }
  }

  // Conversely every canonical numeral is the numeral of the number it denotes.
  lemma {:induction false} CanonicalUnique(s: seq<Byte>)
    requires IsCanonical(s)
    ensures Digits(Parse(s)) == s
    ensures |s| > 1 ==> Parse(s) >= 10
  {
    var front, d := s[..|s| - 1], s[|s| - 1] - ZERO;
    if |s| > 1 {
      CanonicalUnique(front);
      assert |front| == 1 ==> Parse(front) == front[0] - ZERO by { assert front[..0] == []; }
      assert Parse(s) / 10 == Parse(front) && Parse(s) % 10 == d;
      assert s == front + [s[|s| - 1]];
    } else {
      assert front == [];
    }
  }

  function PowerOfTen(n: nat): nat {
    if n == 0 then 1 else 10 * PowerOfTen(n - 1)
  }

  lemma {:induction false} DigitCount(v: nat, n: nat)
    requires n > 0 && v < PowerOfTen(n)
    ensures |Digits(v)| <= n
  {
    if v >= 10 { DigitCount(v / 10, n - 1); }
  }

  lemma WordDigits(v: Word)
    ensures |Digits(v)| <= 10
  {
    assert PowerOfTen(5) == 100000;
    assert PowerOfTen(10) == 100000 * PowerOfTen(5) by {
      assert PowerOfTen(7) == 100 * PowerOfTen(5) && PowerOfTen(9) == 100 * PowerOfTen(7);
    }
    DigitCount(v, 10);
  }

  function Reversed(s: seq<Byte>): (r: seq<Byte>)
    ensures |r| == |s|
    ensures forall i :: 0 <= i < |s| ==> r[i] == s[|s| - 1 - i]
  {
    seq(|s|, i requires 0 <= i < |s| => s[|s| - 1 - i])
  }

  // Numeral of v, then the digits already split off, which scratch holds backwards.
  lemma SplitDigit(v: nat, scratch: seq<Byte>)
    ensures v >= 10 ==> Digits(v) + Reversed(scratch) == Digits(v / 10) + Reversed(scratch + [DigitOf(v % 10)])
    ensures v < 10 ==> Digits(v) + Reversed(scratch) == Reversed(scratch + [DigitOf(v % 10)])
    ensures v >= 10 ==> |Digits(v)| == |Digits(v / 10)| + 1
  {
  }

  lemma StartSplit(v: nat)
    ensures Digits(v) + Reversed([]) == Digits(v)
  {
  }

  // The do-while of uint_to_dec: fills scratch[10] from the low end.
  method SplitDigits(value: Word, scratch: array<Byte>) returns (len: nat)
    requires scratch.Length == 10
    modifies scratch
    ensures len <= 10 && Reversed(scratch[..len]) == Digits(value)
  {
    hide Digits;
    hide Reversed;
    len := 0;
    var v: nat := value;
    WordDigits(value);
    StartSplit(value);
    while true
      invariant 0 <= len && len + |Digits(v)| <= 10
      invariant Digits(v) + Reversed(scratch[..len]) == Digits(value)
      decreases v
    {
      ghost var before := scratch[..len];
      SplitDigit(v, before);
      scratch[len] := DigitOf(v % 10);
      len := len + 1;
      assert scratch[..len] == before + [DigitOf(v % 10)];
      v := v / 10;
      if !(v > 0) { break; }
    }
  }

  // uint_to_dec: copies the scratch digits backwards and terminates them.
  method UintToDec(value: Word, out: array<Byte>) returns (len: nat)
    requires out.Length >= 11
    modifies out
    ensures len <= 10 && out[..len] == Digits(value) && out[len] == 0
    ensures forall i :: len < i < out.Length ==> out[i] == old(out[i])
  {
    hide Digits;
    var scratch := new Byte[10];
    len := SplitDigits(value, scratch);
    ghost var low := scratch[..len];
    assert Reversed(low)[..len] == Digits(value);
    for i := 0 to len
      invariant scratch[..len] == low && out[..i] == Reversed(low)[..i]
      invariant forall j :: i <= j < out.Length ==> out[j] == old(out[j])
    {
      out[i] := scratch[len - 1 - i];
    }
    ghost var numeral := out[..len];
    out[len] := 0;
    assert out[..len] == numeral;
  }

  // uint_to_string_freestanding: a special case for zero and a wider staging area,
  // and the very same string.
  method UintToString(value: Word, dest: array<Byte>) returns (ghost len: nat)
    requires dest.Length >= 11
    modifies dest
    ensures len <= 10 && dest[..len] == Digits(value) && dest[len] == 0
    ensures forall i :: len < i < dest.Length ==> dest[i] == old(dest[i])
  {
    var i := 0;
    if value == 0 {
      dest[i] := ZERO;
      i := i + 1;
      dest[i] := 0;
      assert dest[..1] == Digits(0);
      return 1;
    }
    var staging := new Byte[16];
    var s := 0;
    var v: nat := value;
    WordDigits(value);
    while v > 0 && s < 15
      invariant 0 <= s && (if v == 0 then 0 else |Digits(v)|) + s == |Digits(value)| && fresh(staging)
      invariant dest[..] == old(dest[..])
      invariant (if v == 0 then [] else Digits(v)) + Reversed(staging[..s]) == Digits(value)
      decreases v
    {
      ghost var before := staging[..s];
      SplitDigit(v, before);
      staging[s] := DigitOf(v % 10);
      s := s + 1;
      assert staging[..s] == before + [DigitOf(v % 10)];
      v := v / 10;
    }
    ghost var low := staging[..s];
    assert [] + Reversed(low) == Reversed(low)[..s] == Digits(value);
    var j := s - 1;
    while j >= 0
      invariant -1 <= j < s && i == s - 1 - j
      invariant staging[..s] == low && dest[..i] == Reversed(low)[..i]
      invariant forall k :: i <= k < dest.Length ==> dest[k] == old(dest[k])
    {
      dest[i] := staging[j];
      i := i + 1;
      j := j - 1;
    }
    ghost var numeral := dest[..i];
    dest[i] := 0;
    assert dest[..i] == numeral;
    len := s;
  }
}
