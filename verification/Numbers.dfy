/**
 Numbers as text: std::to_string, and std::stoi / std::stoul, which skip white space, take
 an optional sign, read the longest run of digits, ignore the rest and throw when there is
 no digit or the value is out of range.
 */
module Numbers {
  import opened Text

  const ZERO: Byte := 48
  const PLUS: Byte := 43

  /** std::to_string of an unsigned value. */
  function Decimal(n: nat): (s: Str)
    ensures s != [] && forall i :: 0 <= i < |s| ==> IsDigit(s[i])
  {
    if n < 10 then [ZERO + n] else Decimal(n / 10) + [ZERO + n % 10]
  }

  function HexDigit(d: nat): Byte
    requires d < 16
  {
    if d < 10 then ZERO + d else 55 + d
  }

  /** The value of a digit in a base of at most 16, if it is one. */
  function DigitValue(c: Byte, base: nat): (d: int)
    ensures d == -1 || 0 <= d < base
  {
    var v := if IsDigit(c) then c - 48
             else if 65 <= c <= 70 then c - 55
             else if 97 <= c <= 102 then c - 87
             else -1;
    if v < base then v else -1
  }

  /** How many leading bytes of s are digits. */
  function DigitRun(s: Str, base: nat): (n: nat)
    ensures n <= |s|
  {
    if s == [] || DigitValue(s[0], base) == -1 then 0 else 1 + DigitRun(s[1..], base)
  }

  function Value(s: Str, base: nat): nat {
    if s == [] then 0
    else
      var d := DigitValue(s[|s| - 1], base);
      Value(s[..|s| - 1], base) * base + (if d < 0 then 0 else d)
  }

  datatype Number = NoNumber | Number(negative: bool, magnitude: nat)

  /** What strtol and strtoul recognise at the start of s. */
  function Recognised(s: Str, base: nat): Number {
    var t := TrimLeft(s);
    var signed := t != [] && (t[0] == MINUS || t[0] == PLUS);
    var u := if signed then t[1..] else t;
    var n := DigitRun(u, base);
    if n == 0 then NoNumber else Number(signed && t[0] == MINUS, Value(u[..n], base))
  }

  datatype Outcome<+T> = Throws | Returns(value: T)

  function Stoi(s: Str, base: nat): Outcome<int> {
    match Recognised(s, base)
    case NoNumber => Throws
    case Number(neg, m) =>
      var v: int := if neg then 0 - m else m;
      if -0x8000_0000 <= v < 0x8000_0000 then Returns(v) else Throws
  }

  /** Negative input wraps around in 64 bits, as strtoul does. */
  function Stoul(s: Str): Outcome<nat> {
    match Recognised(s, 10)
    case NoNumber => Throws
    case Number(neg, m) =>
      if m >= 0x1_0000_0000_0000_0000 then Throws
      else if neg && m > 0 then Returns(0x1_0000_0000_0000_0000 - m)
      else Returns(m)
  }

  // ---- Printing and reading back ----------------------------------------

  lemma {:induction false} DecimalValue(n: nat)
    ensures Value(Decimal(n), 10) == n
  {
    if n >= 10 {
      DecimalValue(n / 10);
      var s := Decimal(n);
      assert s[..|s| - 1] == Decimal(n / 10);
    } else {
      assert Decimal(n)[..0] == [];
    }
  }

  lemma {:induction false} DigitRunAll(s: Str, base: nat)
    requires forall i :: 0 <= i < |s| ==> DigitValue(s[i], base) >= 0
    ensures DigitRun(s, base) == |s|
  {
    if s != [] {
      DigitRunAll(s[1..], base);
    }
  }

  /** std::to_string is read back by stoul and stoi. */
  lemma {:induction false} DecimalReadBack(n: nat)
    ensures Recognised(Decimal(n), 10) == Number(false, n)
    ensures n < 0x1_0000_0000 ==> Stoul(Decimal(n)) == Returns(n)
    ensures n < 0x8000_0000 ==> Stoi(Decimal(n), 10) == Returns(n)
    ensures IsWord(Decimal(n))
  {
    hide Decimal, Value, DigitRun, Recognised;
    DecimalValue(n);
    DigitsRecognised(Decimal(n));
  }

  /** Digits alone are recognised as a whole. */
  lemma {:induction false} DigitsRecognised(s: Str)
    requires s != [] && forall i :: 0 <= i < |s| ==> IsDigit(s[i])
    ensures Recognised(s, 10) == Number(false, Value(s, 10))
  {
    hide Value, DigitRun;
    DigitRunAll(s, 10);
    assert IsDigit(s[0]);
    assert s[..|s|] == s;
  }

  lemma {:induction false} BlanksSkipped(blanks: Str, t: Str)
    requires (forall i :: 0 <= i < |blanks| ==> IsSpace(blanks[i])) && (t == [] || !IsSpace(t[0]))
    ensures TrimLeft(blanks + t) == t
  {
    if blanks == [] {
      assert blanks + t == t;
    } else {
      assert (blanks + t)[0] == blanks[0] && (blanks + t)[1..] == blanks[1..] + t;
      BlanksSkipped(blanks[1..], t);
    }
  }

  lemma {:induction false} DigitsTaken(digits: Str, rest: Str)
    requires (forall i :: 0 <= i < |digits| ==> IsDigit(digits[i])) && (rest == [] || !IsDigit(rest[0]))
    ensures DigitRun(digits + rest, 10) == |digits|
  {
    if digits == [] {
      assert digits + rest == rest;
    } else {
      assert (digits + rest)[0] == digits[0] && (digits + rest)[1..] == digits[1..] + rest;
      DigitsTaken(digits[1..], rest);
    }
  }

  lemma SignedDigits(s: Str, sign: Str, u: Str, k: nat)
    requires sign in {[], [43], [45]} && TrimLeft(s) == sign + u
    requires u != [] && IsDigit(u[0]) && 0 < k <= |u| && DigitRun(u, 10) == k
    ensures Recognised(s, 10) == Number(sign == [45], Value(u[..k], 10))
  {
    hide Value, DigitRun, TrimLeft;
    var t := sign + u;
    if sign == [] {
      assert t == u;
    } else {
      assert t[0] == sign[0] && t[1..] == u;
    }
  }

  lemma NumberRecognised(blanks: Str, sign: Str, n: nat, rest: Str)
    requires forall i :: 0 <= i < |blanks| ==> IsSpace(blanks[i])
    requires sign in {[], [43], [45]} && (rest == [] || !IsDigit(rest[0]))
    ensures Recognised(blanks + (sign + (Decimal(n) + rest)), 10) == Number(sign == [45], n)
  {
    hide Decimal, Value, DigitRun, TrimLeft, Recognised;
    var d := Decimal(n);
    var u := d + rest;
    assert u[0] == d[0] && IsDigit(d[0]) && u[..|d|] == d;
    assert (sign + u)[0] == if sign == [] then u[0] else sign[0];
    BlanksSkipped(blanks, sign + u);
    DigitsTaken(d, rest);
    DecimalValue(n);
    SignedDigits(blanks + (sign + u), sign, u, |d|);
  }

  /**
   Blanks, a sign, the digits of n and anything that does not go on with a digit: std::stoi
   gives the value if it fits 32 bits, std::stoul the value modulo 2^64 if n fits 64.
   */
  lemma NumberRead(blanks: Str, sign: Str, n: nat, rest: Str)
    requires forall i :: 0 <= i < |blanks| ==> IsSpace(blanks[i])
    requires sign in {[], [43], [45]} && (rest == [] || !IsDigit(rest[0]))
    ensures var text := blanks + (sign + (Decimal(n) + rest)); var v: int := if sign == [45] then 0 - n else n;
      && Stoi(text, 10) == (if -0x8000_0000 <= v <= 0x7fff_ffff then Returns(v) else Throws)
      && Stoul(text) == (if n <= 0xffff_ffff_ffff_ffff then Returns(v % 0x1_0000_0000_0000_0000) else Throws)
  {
    hide Recognised, Decimal;
    NumberRecognised(blanks, sign, n, rest);
  }

  /** Two hexadecimal digits of a byte, upper case. */
  function HexByte(b: Byte): Str {
    [HexDigit(b / 16), HexDigit(b % 16)]
  }

  lemma HexReadBack(b: Byte)
    ensures Stoi(HexByte(b), 16) == Returns(b)
  {
    var s := HexByte(b);
    HexValue(b);
    DigitRunAll(s, 16);
    assert s[..2] == s;
  }

  lemma HexValue(b: Byte)
    ensures var s := HexByte(b);
            && Value(s, 16) == b
            && forall i :: 0 <= i < 2 ==> DigitValue(s[i], 16) >= 0 && !IsSpace(s[i]) && s[i] != MINUS && s[i] != PLUS
  {
    var s := HexByte(b);
    assert DigitValue(s[0], 16) == b / 16 && DigitValue(s[1], 16) == b % 16;
    assert s[..1] == [s[0]] && [s[0]][..0] == [];
    assert Value([], 16) == 0;
    assert Value([s[0]], 16) == b / 16;
    assert Value(s, 16) == b / 16 * 16 + b % 16;
  }

  // ---- Quotients and remainders -------------------------------------------

  lemma MulGrows(m: nat, d: int)
    ensures d >= 1 ==> m * d >= m
    ensures d <= -1 ==> m * d <= 0 - m
  {
  }

  lemma DivParts(y: nat, m: nat)
    requires 0 < m
    ensures y == m * (y / m) + y % m && y % m < m
  {
  }

  lemma Distributed(m: nat, a: int, b: int)
    ensures m * (a - b) == m * a - m * b
  {
  }

  /** Quotient and remainder, told by the parts. */
  lemma Remainder(y: nat, m: nat, k: int, r: nat)
    requires 0 < m && y == m * k + r && r < m
    ensures y % m == r && y / m == k
  {
    DivParts(y, m);
    Distributed(m, y / m, k);
    MulGrows(m, y / m - k);
  }
}
