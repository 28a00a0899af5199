/** Reading integers: libc/src/internal/intscan.c. */
module IntScan {
  import opened Powers
  import opened Digits

  datatype Errno = Ok | EINVAL | ERANGE

  /** Reading digits from position i while `limit` allows another: the first loop of each of the three pairs. */
  method Narrow(s: string, i: nat, base: nat, limit: nat) returns (x: nat, j: nat)
    requires 2 <= base <= 36 && limit * base + base - 1 <= UINT_MAX
    ensures i <= j <= DigitEnd(s, i, base)
    ensures x == Value(s, i, j, base) && x <= UINT_MAX
    ensures j == DigitEnd(s, i, base) || x > limit
  {
    hide Get, Val, DigitEnd;
    x, j := 0, i;
    while Val(Get(s, j)) < base && x <= limit
      invariant i <= j <= DigitEnd(s, i, base)
      invariant x == Value(s, i, j, base) && x <= UINT_MAX
      decreases DigitEnd(s, i, base) - j
    {
      TimesMono(x, limit, base);
      x := x * base + Val(Get(s, j));
      j := j + 1;
    }
  }

  /** The second loop, for base 10 and bases that are no power of two. */
  method Wide(s: string, i: nat, base: nat, y0: nat, j0: nat) returns (y: nat, j: nat)
    requires 2 <= base <= 36 && i <= j0 <= DigitEnd(s, i, base) && y0 == Value(s, i, j0, base) && y0 <= ULLONG_MAX
    ensures i <= j <= DigitEnd(s, i, base)
    ensures y == Value(s, i, j, base) && y <= ULLONG_MAX
    ensures j < DigitEnd(s, i, base) ==> Value(s, i, DigitEnd(s, i, base), base) > ULLONG_MAX
  {
    hide Get, Val, DigitEnd;
    y, j := y0, j0;
    while Val(Get(s, j)) < base && y <= ULLONG_MAX / base && base * y <= ULLONG_MAX - Val(Get(s, j))
      invariant i <= j <= DigitEnd(s, i, base)
      invariant y == Value(s, i, j, base) && y <= ULLONG_MAX
      decreases DigitEnd(s, i, base) - j
    {
      y := y * base + Val(Get(s, j));
      j := j + 1;
    }
    if j < DigitEnd(s, i, base) {
      assert y > ULLONG_MAX / base ==> y * base > ULLONG_MAX by { DivMul(ULLONG_MAX, base, y); }
      ValueGrows(s, i, j + 1, DigitEnd(s, i, base), base);
    }
  }

  lemma TimesMono(x: nat, y: nat, base: nat)
    requires x <= y
    ensures x * base <= y * base
  {
  }

  lemma DivMul(n: nat, base: nat, y: nat)
    requires base > 0
    ensures y > n / base <==> y * base > n
  {
    assert n == base * (n / base) + n % base;
    if y > n / base {
      assert y * base >= (n / base + 1) * base;
    } else {
      assert y * base <= (n / base) * base;
    }
  }

  predicate ShiftBase(base: nat) {
    base in {2, 4, 8, 16, 32}
  }

  const SHIFTS: seq<nat> := [0, 1, 2, 4, 7, 3, 6, 5]

  /** The table that gives the shift for a base that is a power of two. */
  function Shift(base: nat): nat {
    SHIFTS[0x17 * base / 32 % 8]
  }

  lemma ShiftIs(base: nat)
    requires ShiftBase(base)
    ensures Pow2(Shift(base)) == base
  {
    assert Pow2(1) == 2 && Pow2(2) == 4 && Pow2(3) == 8;
    assert Pow2(4) == 2 * Pow2(3) && Pow2(5) == 2 * Pow2(4);
  }

  lemma ShiftRoom(base: nat, y: nat)
    requires ShiftBase(base)
    ensures y <= ULLONG_MAX / base ==> y * base + base - 1 <= ULLONG_MAX
    ensures y > ULLONG_MAX / base ==> y * base > ULLONG_MAX
  {
    DivMul(ULLONG_MAX, base, y);
    assert ULLONG_MAX / base * base + base - 1 == ULLONG_MAX;
    if y <= ULLONG_MAX / base {
      TimesMono(y, ULLONG_MAX / base, base);
    }
  }

  /** The second loop for bases that are a power of two: a shift multiplies by the base, and leaves room for a digit. */
  method WideShift(s: string, i: nat, base: nat, y0: nat, j0: nat) returns (y: nat, j: nat)
    requires ShiftBase(base) && i <= j0 <= DigitEnd(s, i, base) && y0 == Value(s, i, j0, base) && y0 <= ULLONG_MAX
    ensures i <= j <= DigitEnd(s, i, base)
    ensures y == Value(s, i, j, base) && y <= ULLONG_MAX
    ensures j < DigitEnd(s, i, base) ==> Value(s, i, DigitEnd(s, i, base), base) > ULLONG_MAX
  {
    hide Get, Val, DigitEnd, Pow2, Shift;
    ShiftIs(base);
    var scale := Pow2(Shift(base));
    y, j := y0, j0;
    while Val(Get(s, j)) < base && y <= ULLONG_MAX / scale
      invariant i <= j <= DigitEnd(s, i, base)
      invariant y == Value(s, i, j, base) && y <= ULLONG_MAX
      decreases DigitEnd(s, i, base) - j
    {
      ShiftRoom(base, y);
      y := y * scale + Val(Get(s, j));
      j := j + 1;
    }
    if j < DigitEnd(s, i, base) {
      ShiftRoom(base, y);
      ValueGrows(s, i, j + 1, DigitEnd(s, i, base), base);
    }
  }

  /** All the digits from i on: their value, if it fits 64 bits. */
  method ScanDigits(s: string, i: nat, base: nat) returns (y: nat, j: nat)
    requires 2 <= base <= 36
    ensures i <= j <= DigitEnd(s, i, base) && y <= ULLONG_MAX
    ensures j == DigitEnd(s, i, base) ==> y == Value(s, i, j, base)
    ensures j < DigitEnd(s, i, base) ==> Value(s, i, DigitEnd(s, i, base), base) > ULLONG_MAX
  {
    hide Get, Val, DigitEnd, Value;
    if base == 10 {
      y, j := Narrow(s, i, base, UINT_MAX / 10 - 1);
      y, j := Wide(s, i, base, y, j);
    } else if ShiftBase(base) {
      y, j := Narrow(s, i, base, UINT_MAX / 32);
      y, j := WideShift(s, i, base, y, j);
    } else {
      y, j := Narrow(s, i, base, UINT_MAX / 36 - 1);
      y, j := Wide(s, i, base, y, j);
    }
  }

  // ----- signs and limits -----

  const TWO64: nat := ULLONG_MAX + 1

  function Signed(v: nat, neg: bool): int {
    var n: int := v;
    if neg then -n else n
  }

  /** The number that a conversion with limit lim gives: an odd limit is the largest unsigned value, an even one the least signed. */
  function Limited(v: nat, neg: bool, lim: nat): int {
    if lim % 2 == 1 then (if v > lim then lim else Signed(v, neg))
    else if neg then Signed(if v > lim then lim else v, neg)
    else if v >= lim then lim - 1 else v
  }

  /** The width of the type converted to: values that differ by a multiple of it are the same. */
  function Width(lim: nat): nat {
    if lim % 2 == 1 then TWO64 else 2 * lim
  }

  /** The end of __intscan: y is the value read, or `over` says that it did not fit. */
  method Finish(y0: nat, over: bool, neg0: bool, lim: nat, ghost v: nat) returns (r: nat, err: Errno)
    requires 0 < lim <= ULLONG_MAX && y0 <= ULLONG_MAX
    requires if over then v > ULLONG_MAX else v == y0
    requires lim % 2 == 0 ==> TWO64 % (2 * lim) == 0
    ensures r <= ULLONG_MAX && (r - Limited(v, neg0, lim)) % Width(lim) == 0
    ensures err == if Limited(v, neg0, lim) == Signed(v, neg0) then Ok else ERANGE
  {
    var y, neg := y0, neg0;
    err := Ok;
    if over {
      err := ERANGE;
      y := lim;
      if lim % 2 == 1 {
        neg := false;
      }
    }
    if y >= lim {
      if lim % 2 == 0 && !neg {
        return lim - 1, ERANGE;
      } else if y > lim {
        Multiples(lim);
        return lim, ERANGE;
      }
    }
    Multiples(lim);
    r := if neg && y > 0 then TWO64 - y else y;
  }

  lemma Multiples(lim: nat)
    requires 0 < lim && (lim % 2 == 0 ==> TWO64 % (2 * lim) == 0)
    ensures TWO64 % Width(lim) == 0 && 0 % Width(lim) == 0 && Width(lim) % Width(lim) == 0
  {
  }

  // ----- white space, sign and base -----

  predicate IsSpace(c: int) {
    c == ' ' as int || '\t' as int <= c <= '\r' as int
  }

  function SpaceEnd(s: string, i: nat): (j: nat)
    ensures i <= j && (i <= |s| ==> j <= |s|)
    ensures forall k :: i <= k < j ==> k < |s| && s[k] as int in {9, 10, 11, 12, 13, 32}
    ensures j < |s| ==> s[j] as int !in {9, 10, 11, 12, 13, 32}
    decreases |s| - i
  {
    if i < |s| && IsSpace(Get(s, i)) then SpaceEnd(s, i + 1) else i
  }

  predicate IsSign(c: int) {
    c == '+' as int || c == '-' as int
  }

  /** Position after white space and a sign. */
  function SignEnd(s: string): nat {
    var i := SpaceEnd(s, 0);
    if IsSign(Get(s, i)) then i + 1 else i
  }

  predicate Negative(s: string) {
    Get(s, SpaceEnd(s, 0)) == '-' as int
  }

  /** A prefix 0x at position i, in base 16 or if the base is to be found. */
  predicate HexPrefix(s: string, i: nat, base: nat) {
    (base == 0 || base == 16) && Get(s, i) == '0' as int && (Get(s, i + 1) == 'x' as int || Get(s, i + 1) == 'X' as int)
  }

  /** The base that base 0 stands for. */
  function Radix(s: string, i: nat, base: nat): nat {
    if base != 0 then base
    else if HexPrefix(s, i, base) then 16
    else if Get(s, i) == '0' as int then 8
    else 10
  }

  function DigitStart(s: string, i: nat, base: nat): nat {
    if HexPrefix(s, i, base) then i + 2 else i
  }

  lemma {:induction false} LeadingZero(s: string, i: nat, j: nat, base: nat)
    requires Get(s, i) == '0' as int && i < j
    ensures Value(s, i, j, base) == Value(s, i + 1, j, base)
    decreases j
  {
    if i + 1 < j {
      LeadingZero(s, i, j - 1, base);
    } else {
      assert Value(s, i, i, base) == 0;
    }
  }

  /** What __intscan has to give for the string: the number its longest prefix of the expected form stands for, within the limit. */
  ghost predicate Scanned(s: string, base: nat, pok: bool, lim: nat, y: nat, err: Errno, used: nat)
    requires lim > 0
  {
    if base > 36 || base == 1 then
      y == 0 && err == EINVAL
    else
      var i := SignEnd(s);
      var b, start := Radix(s, i, base), DigitStart(s, i, base);
      2 <= b <= 36 &&
      var end := DigitEnd(s, start, b);
      if start == end then
        // no digits; after 0x, the 0 was one
        if HexPrefix(s, i, base) then y == 0 && err == Ok && used == (if pok then i + 1 else 0)
        else y == 0 && err == EINVAL && used == 0
      else
        var v := Value(s, start, end, b);
        && used == end
        && (y - Limited(v, Negative(s), lim)) % Width(lim) == 0
        && err == (if Limited(v, Negative(s), lim) == Signed(v, Negative(s)) then Ok else ERANGE)
  }

  method SkipSpace(s: string) returns (i: nat)
    ensures i == SpaceEnd(s, 0)
  {
    i := 0;
    while IsSpace(Get(s, i))
      invariant i <= |s| && SpaceEnd(s, 0) == SpaceEnd(s, i)
      decreases |s| - i
    {
      i := i + 1;
    }
  }

  /** Where the digits were found to begin, and their base; or that there are none. */
  datatype Lead = Begin(base: nat, start: nat) | Stop(err: Errno, used: nat)

  ghost predicate Leads(s: string, i: nat, base: nat, pok: bool, lead: Lead) {
    var b, start := Radix(s, i, base), DigitStart(s, i, base);
    && 2 <= b <= 36
    && match lead
       case Stop(err, used) =>
         && start == DigitEnd(s, start, b)
         && (if HexPrefix(s, i, base) then err == Ok && used == (if pok then i + 1 else 0) else err == EINVAL && used == 0)
       case Begin(b', start') =>
         var end := DigitEnd(s, start, b);
         && b' == b && start < end && start' <= end == DigitEnd(s, start', b)
         && Value(s, start', end, b) == Value(s, start, end, b)
  }

  /** The prefix 0x or 0, and the check that a digit follows. */
  method Prefix(s: string, i: nat, base0: nat, pok: bool) returns (lead: Lead)
    requires base0 == 0 || 2 <= base0 <= 36
    ensures Leads(s, i, base0, pok, lead)
  {
    hide Value;
    if (base0 == 0 || base0 == 16) && Get(s, i) == '0' as int {
      if Get(s, i + 1) == 'x' as int || Get(s, i + 1) == 'X' as int {
        if Val(Get(s, i + 2)) >= 16 {
          return Stop(Ok, if pok then i + 1 else 0);
        }
        return Begin(16, i + 2);
      }
      var base := if base0 == 0 then 8 else base0;
      ZeroFirst(s, i, base);
      return Begin(base, i + 1);
    }
    var base := if base0 == 0 then 10 else base0;
    if Val(Get(s, i)) >= base {
      return Stop(EINVAL, 0);
    }
    return Begin(base, i);
  }

  /** __intscan of a string. */
  method Scan(s: string, base: nat, pok: bool, lim: nat) returns (y: nat, err: Errno, used: nat)
    requires 0 < lim <= ULLONG_MAX && (lim % 2 == 0 ==> TWO64 % (2 * lim) == 0)
    ensures Scanned(s, base, pok, lim, y, err, used) && y <= ULLONG_MAX
  {
    hide Val, DigitEnd, Value, Limited, Width, SpaceEnd, Radix, DigitStart, HexPrefix;
    if base > 36 || base == 1 {
      return 0, EINVAL, 0;
    }
    var i := SkipSpace(s);
    var neg := false;
    if Get(s, i) == '+' as int || Get(s, i) == '-' as int {
      neg := Get(s, i) == '-' as int;
      i := i + 1;
    }
    var lead := Prefix(s, i, base, pok);
    match lead
    case Stop(e, n) =>
      y, err, used := 0, e, n;
    case Begin(b, start) =>
      y, err, used := ScanFrom(s, start, b, neg, lim);
  }

  /** A digit 0 read before the others. */
  lemma ZeroFirst(s: string, i: nat, base: nat)
    requires 2 <= base <= 36 && Get(s, i) == '0' as int
    ensures DigitEnd(s, i, base) == DigitEnd(s, i + 1, base) > i
    ensures Value(s, i, DigitEnd(s, i, base), base) == Value(s, i + 1, DigitEnd(s, i, base), base)
  {
    LeadingZero(s, i, DigitEnd(s, i, base), base);
  }

  method ScanFrom(s: string, start: nat, base: nat, neg: bool, lim: nat) returns (y: nat, err: Errno, used: nat)
    requires 2 <= base <= 36 && 0 < lim <= ULLONG_MAX && (lim % 2 == 0 ==> TWO64 % (2 * lim) == 0)
    ensures used == DigitEnd(s, start, base) && y <= ULLONG_MAX
    ensures var v := Value(s, start, used, base);
            && (y - Limited(v, neg, lim)) % Width(lim) == 0
            && err == if Limited(v, neg, lim) == Signed(v, neg) then Ok else ERANGE
  {
    hide Get, Val, DigitEnd, Value, Limited, Width;
    y, used := ScanDigits(s, start, base);
    var over := Val(Get(s, used)) < base;
    var j := used;
    while Val(Get(s, j)) < base
      invariant used <= j <= DigitEnd(s, start, base)
      decreases DigitEnd(s, start, base) - j
    {
      j := j + 1;
    }
    used := j;
    y, err := Finish(y, over, neg, lim, Value(s, start, DigitEnd(s, start, base), base));
  }
}
