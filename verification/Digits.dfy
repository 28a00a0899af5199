/** Digit strings and the numbers they stand for. */
module Digits {

  const UINT_MAX: nat := 0xffff_ffff
  const ULLONG_MAX: nat := 0xffff_ffff_ffff_ffff

  /** The value of a character as a digit, in the lookup table of __intscan; 255 for one that is none. */
  function Val(c: int): (v: nat)
    ensures v < 36 || v == 255
  {
    if '0' as int <= c <= '9' as int then c - '0' as int
    else if 'A' as int <= c <= 'Z' as int then c - 'A' as int + 10
    else if 'a' as int <= c <= 'z' as int then c - 'a' as int + 10
    else 255
  }

  /** The character at position i, as shgetc gives it: -1 past the end. */
  function Get(s: string, i: nat): int {
    if i < |s| then s[i] as int else -1
  }

  /** Position of the first character from i on that is not a digit. */
  function DigitEnd(s: string, i: nat, base: nat): (j: nat)
    requires base <= 36
    ensures i <= j && (i <= |s| ==> j <= |s|)
    ensures Val(Get(s, j)) >= base
    ensures forall k :: i <= k < j ==> Val(Get(s, k)) < base
    decreases |s| - i
  {
    if i < |s| && Val(Get(s, i)) < base then DigitEnd(s, i + 1, base) else i
  }

  /** The number that characters i to j stand for. */
  function Value(s: string, i: nat, j: nat, base: nat): nat
    requires i <= j
    decreases j
  {
    if i == j then 0 else Value(s, i, j - 1, base) * base + Val(Get(s, j - 1))
  }

  lemma TimesGrows(v: nat, base: nat)
    requires base > 0
    ensures v <= v * base
  {
  }

  lemma {:induction false} ValueGrows(s: string, i: nat, k: nat, j: nat, base: nat)
    requires i <= k <= j && base > 0
    ensures Value(s, i, k, base) <= Value(s, i, j, base)
    decreases j
  {
    hide Get, Val;
    if k < j {
      ValueGrows(s, i, k, j - 1, base);
      TimesGrows(Value(s, i, j - 1, base), base);
    }
  }

  /** DigitEnd is the only position where the digits from i on stop. */
  lemma {:induction false} DigitEndIs(s: string, i: nat, j: nat, base: nat)
    requires base <= 36 && i <= j && Val(Get(s, j)) >= base
    requires forall k :: i <= k < j ==> Val(Get(s, k)) < base
    ensures DigitEnd(s, i, base) == j
  {
    hide Get, Val;
    var d := DigitEnd(s, i, base);
    assert Val(Get(s, d)) >= base;
  }
}
