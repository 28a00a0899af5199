/** Writing integers: libc++/src/charconv.cpp, and reading them back. */
module Charconv {
  import opened Digits
  import IntScan

  function DigitChar(d: nat): (c: char)
    requires d < 10
    ensures Val(c as int) == d
  {
    ('0' as int + d) as char
  }

  /** The decimal digits of v, and its last n digits. */
  function Dec(v: nat): string {
    if v < 10 then [DigitChar(v)] else Dec(v / 10) + [DigitChar(v % 10)]
  }

  function Padded(v: nat, n: nat): string {
    if n == 0 then [] else Padded(v / 10, n - 1) + [DigitChar(v % 10)]
  }

  lemma Padded2(v: nat)
    ensures Padded(v, 2) == [DigitChar(v / 10 % 10), DigitChar(v % 10)]
  {
    assert Padded(v / 10 / 10, 0) == [];
    assert Padded(v / 10, 1) == [DigitChar(v / 10 % 10)];
  }

  lemma Padded4(v: nat)
    ensures Padded(v, 4) == Padded(v / 100, 2) + Padded(v % 100, 2)
  {
    Padded2(v % 100);
    var w := v / 10;
    assert v / 10 / 10 == v / 100 && v % 100 / 10 % 10 == w % 10 && v % 100 % 10 == v % 10;
    assert Padded(v, 4) == Padded(w, 3) + [DigitChar(v % 10)];
    assert Padded(w, 3) == Padded(w / 10, 2) + [DigitChar(w % 10)];
  }

  lemma Dec2(v: nat)
    requires v >= 100
    ensures Dec(v) == Dec(v / 100) + Padded(v % 100, 2)
  {
    Padded2(v % 100);
    var w := v / 10;
    assert v / 10 / 10 == v / 100 && v % 100 / 10 % 10 == w % 10 && v % 100 % 10 == v % 10;
    assert Dec(v) == Dec(w) + [DigitChar(v % 10)];
    assert Dec(w) == Dec(w / 10) + [DigitChar(w % 10)];
  }

  lemma Dec4(v: nat)
    requires v >= 10000
    ensures Dec(v) == Dec(v / 10000) + Padded(v % 10000, 4)
  {
    hide Dec, Padded;
    Dec2(v);
    Dec2(v / 100);
    Padded4(v % 10000);
    assert v / 100 / 100 == v / 10000 && v % 10000 / 100 == v / 100 % 100 && v % 10000 % 100 == v % 100;
  }

  method Append1(buf: array<char>, at: nat, v: nat) returns (r: nat)
    requires v < 10 && at < buf.Length
    modifies buf
    ensures r == at + 1 && buf[..r] == old(buf[..at]) + [DigitChar(v)]
  {
    buf[at] := DigitChar(v);
    r := at + 1;
  }

  /** Two digits from the table of all pairs. */
  method Append2(buf: array<char>, at: nat, v: nat) returns (r: nat)
    requires v < 100 && at + 2 <= buf.Length
    modifies buf
    ensures r == at + 2 && buf[..r] == old(buf[..at]) + Padded(v, 2)
  {
    Padded2(v);
    buf[at], buf[at + 1] := DigitChar(v / 10), DigitChar(v % 10);
    r := at + 2;
  }

  method Append4(buf: array<char>, at: nat, v: nat) returns (r: nat)
    requires v < 10000 && at + 4 <= buf.Length
    modifies buf
    ensures r == at + 4 && buf[..r] == old(buf[..at]) + Padded(v, 4)
  {
    hide Padded;
    Padded4(v);
    r := Append2(buf, at, v / 100);
    r := Append2(buf, r, v % 100);
  }

  method Append3(buf: array<char>, at: nat, v: nat) returns (r: nat)
    requires 100 <= v < 1000 && at + 3 <= buf.Length
    modifies buf
    ensures r == at + 3 && buf[..r] == old(buf[..at]) + Dec(v)
  {
    hide Padded;
    Dec2(v);
    r := Append1(buf, at, v / 100);
    r := Append2(buf, r, v % 100);
  }

  method Append2NoZeros(buf: array<char>, at: nat, v: nat) returns (r: nat)
    requires v < 100 && at + 2 <= buf.Length
    modifies buf
    ensures at < r <= at + 2 && buf[..r] == old(buf[..at]) + Dec(v)
  {
    if v < 10 {
      r := Append1(buf, at, v);
    } else {
      DecFull(v);
      r := Append2(buf, at, v);
    }
  }

  /** Numbers of two or four digits have no zeros in front. */
  lemma DecFull(v: nat)
    ensures 10 <= v < 100 ==> Dec(v) == Padded(v, 2)
    ensures 1000 <= v < 10000 ==> Dec(v) == Padded(v, 4)
  {
    Padded2(v);
    if 1000 <= v < 10000 {
      Dec2(v);
      Padded2(v / 100);
      Padded4(v);
      assert Dec(v / 100) == Dec(v / 100 / 10) + [DigitChar(v / 100 % 10)];
    }
  }

  method Append4NoZeros(buf: array<char>, at: nat, v: nat) returns (r: nat)
    requires v < 10000 && at + 4 <= buf.Length
    modifies buf
    ensures at < r <= at + 4 && buf[..r] == old(buf[..at]) + Dec(v)
  {
    hide Dec, Padded;
    if v < 100 {
      r := Append2NoZeros(buf, at, v);
    } else if v < 1000 {
      r := Append3(buf, at, v);
    } else {
      DecFull(v);
      r := Append4(buf, at, v);
    }
  }

  method Append8NoZeros(buf: array<char>, at: nat, v: nat) returns (r: nat)
    requires v < 100000000 && at + 8 <= buf.Length
    modifies buf
    ensures at < r <= at + 8 && buf[..r] == old(buf[..at]) + Dec(v)
  {
    hide Dec, Padded;
    if v < 10000 {
      r := Append4NoZeros(buf, at, v);
    } else {
      Dec4(v);
      r := Append4NoZeros(buf, at, v / 10000);
      r := Append4(buf, r, v % 10000);
    }
  }

  /** Eight more digits, as two fours. */
  method AppendTwoFours(buf: array<char>, at: nat, v: nat, ghost high: nat) returns (r: nat)
    requires v < 100000000 && at + 8 <= buf.Length && high > 0
    modifies buf
    ensures r == at + 8
    ensures forall s: string :: old(buf[..at]) == s + Dec(high) ==> buf[..r] == s + Dec(high * 100000000 + v)
  {
    hide Dec, Padded;
    var all := high * 100000000 + v;
    Dec4(all);
    Dec4(all / 10000);
    assert all / 10000 / 10000 == high && all / 10000 % 10000 == v / 10000 && all % 10000 == v % 10000;
    r := Append4(buf, at, v / 10000);
    r := Append4(buf, r, v % 10000);
  }

  method U32toa(value: nat, buf: array<char>) returns (r: nat)
    requires value <= UINT_MAX && buf.Length >= 10
    modifies buf
    ensures r <= 10 && buf[..r] == Dec(value)
  {
    hide Dec, Padded;
    if value < 100000000 {
      r := Append8NoZeros(buf, 0, value);
    } else {
      r := Append2NoZeros(buf, 0, value / 100000000);
      r := AppendTwoFours(buf, r, value % 100000000, value / 100000000);
      assert buf[..r] == "" + Dec(value);
    }
  }

  method U64toa(value: nat, buf: array<char>) returns (r: nat)
    requires value <= ULLONG_MAX && buf.Length >= 20
    modifies buf
    ensures r <= 20 && buf[..r] == Dec(value)
  {
    hide Dec, Padded;
    if value < 100000000 {
      r := Append8NoZeros(buf, 0, value);
    } else if value < 10000000000000000 {
      r := Append8NoZeros(buf, 0, value / 100000000);
      r := AppendTwoFours(buf, r, value % 100000000, value / 100000000);
      assert buf[..r] == "" + Dec(value);
    } else {
      var a, low := value / 10000000000000000, value % 10000000000000000;
      r := Append4NoZeros(buf, 0, a);
      r := AppendTwoFours(buf, r, low / 100000000, a);
      assert buf[..r] == "" + Dec(value / 100000000);
      r := AppendTwoFours(buf, r, low % 100000000, value / 100000000);
      assert buf[..r] == "" + Dec(value);
    }
  }

  // ----- what the digits mean -----

  /** The digits of v stand for v, and there is no zero in front but for 0 itself. */
  lemma {:induction false} DecValue(v: nat)
    ensures Value(Dec(v), 0, |Dec(v)|, 10) == v
    ensures |Dec(v)| > 0 && (Dec(v)[0] == '0' ==> v == 0)
    ensures v > 0 || |Dec(v)| == 1
    ensures forall i :: 0 <= i < |Dec(v)| ==> '0' <= Dec(v)[i] <= '9'
  {
    if v < 10 {
      assert Value(Dec(v), 0, 0, 10) == 0;
    } else {
      DecValue(v / 10);
      var d := Dec(v / 10);
      ValuePrefix(d, [DigitChar(v % 10)], |d|, 10);
      assert Get(Dec(v), |d|) == DigitChar(v % 10) as int;
    }
  }

  lemma {:induction false} ValuePrefix(s: string, t: string, j: nat, base: nat)
    requires j <= |s|
    ensures Value(s + t, 0, j, base) == Value(s, 0, j, base)
  {
    if j > 0 {
      ValuePrefix(s, t, j - 1, base);
    }
  }

  /** Reading back what was written gives the value, with nothing left over and no error. */
  lemma ReadBack(v: nat, pok: bool, y: nat, err: IntScan.Errno, used: nat)
    requires v <= ULLONG_MAX && y <= ULLONG_MAX
    requires IntScan.Scanned(Dec(v), 10, pok, ULLONG_MAX, y, err, used)
    ensures y == v && err == IntScan.Ok && used == |Dec(v)|
  {
    hide Dec, Val, Get, DigitEnd, Value, IntScan.SpaceEnd, IntScan.Radix, IntScan.DigitStart, IntScan.HexPrefix, IntScan.Negative, IntScan.SignEnd;
    DecValue(v);
    Plain(Dec(v));
    SameWord(y, v);
  }

  /** A string of digits only. */
  lemma Plain(s: string)
    requires |s| > 0 && forall i :: 0 <= i < |s| ==> '0' <= s[i] <= '9'
    ensures IntScan.SignEnd(s) == 0 && !IntScan.Negative(s)
    ensures IntScan.Radix(s, 0, 10) == 10 && IntScan.DigitStart(s, 0, 10) == 0 && DigitEnd(s, 0, 10) == |s|
  {
    assert Get(s, 0) == s[0] as int;
    DigitEndIs(s, 0, |s|, 10);
  }

  lemma SameWord(y: nat, v: nat)
    requires y <= ULLONG_MAX && v <= ULLONG_MAX
    ensures (y - v) % (ULLONG_MAX + 1) == 0 ==> y == v
  {
  }

  /** Both together. */
  method RoundTrip(v: nat, pok: bool) returns (y: nat, err: IntScan.Errno)
    requires v <= ULLONG_MAX
    ensures y == v && err == IntScan.Ok
  {
    var buf := new char[20];
    var n := U64toa(v, buf);
    var used;
    y, err, used := IntScan.Scan(buf[..n], 10, pok, ULLONG_MAX);
    ReadBack(v, pok, y, err, used);
  }
}
