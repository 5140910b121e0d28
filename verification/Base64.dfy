/**
 Base64 of src/simple-dnsd/protocol/tsig.cpp (section 4 of RFC 4648).  The accumulator is
 never masked: it is a 32-bit word that wraps around, of which only the low bits matter.
 Those bits lie below bit 14, so the sign of the source's int plays no part.
 */
module Base64 {
  import opened Text
  import opened NameCodec
  import opened Records
  import opened Numbers

  const PAD: Byte := 61
  const CARRIAGE_RETURN: Byte := 13

  type Sextet = i: int | 0 <= i < 64

  /** kB64[i]. */
  function Symbol(i: Sextet): Byte {
    if i < 26 then 65 + i
    else if i < 52 then 71 + i
    else if i < 62 then i - 4
    else if i == 62 then 43
    else 47
  }

  /** std::strchr over the table; it also finds the terminating NUL, at position 64. */
  function Position(c: Byte): (p: int)
    ensures -1 <= p <= 64
  {
    if 65 <= c <= 90 then c - 65
    else if 97 <= c <= 122 then c - 71
    else if 48 <= c <= 57 then c + 4
    else if c == 43 then 62
    else if c == 47 then 63
    else if c == 0 then 64
    else -1
  }

  lemma PositionOfSymbol(i: Sextet)
    ensures Position(Symbol(i)) == i && Symbol(i) !in {PAD, NEWLINE, CARRIAGE_RETURN, SPACE}
  {
  }

  function Pow2(k: nat): (p: nat)
    ensures p > 0
  {
    if k == 0 then 1 else 2 * Pow2(k - 1)
  }

  /** (val >> shift) & 0x3f. */
  function Bits6(val: U32, shift: nat): Sextet {
    val / Pow2(shift) % 64
  }

  /** (val >> shift) & 0xff. */
  function Bits8(val: U32, shift: nat): Byte {
    val / Pow2(shift) % 256
  }

  /** (val << 8) + c and (val << 6) + p in 32 bits. */
  function Push8(val: U32, c: nat): U32 {
    (val * 256 + c) % 0x1_0000_0000
  }

  function Push6(val: U32, p: nat): U32 {
    (val * 64 + p) % 0x1_0000_0000
  }

  // ---- Encoding -------------------------------------------------------------

  /** The symbols that the inner loop emits. */
  function Emitted(val: U32, valb: int): Str
    requires -6 <= valb <= 6
    decreases valb + 6
  {
    if valb < 0 then [] else [Symbol(Bits6(val, valb))] + Emitted(val, valb - 6)
  }

  /** valb after the inner loop. */
  function Settle(valb: int): (r: int)
    requires -6 <= valb <= 6
    ensures -6 <= r < 0
  {
    if valb < 0 then valb else if valb < 6 then valb - 6 else -6
  }

  /** The symbol of the bits left over at the end. */
  function LastSymbol(val: U32, valb: int): Str
    requires -6 <= valb < 0
  {
    if valb > -6 then [Symbol(Bits6(Push8(val, 0), valb + 8))] else []
  }

  /** The symbols for the rest of the input from an accumulator state. */
  function Symbols(input: Bytes, val: U32, valb: int): Str
    requires valb in {-6, -4, -2}
  {
    if input == [] then LastSymbol(val, valb)
    else
      var v := Push8(val, input[0]);
      Emitted(v, valb + 8) + Symbols(input[1..], v, Settle(valb + 8))
  }

  function Padding(n: nat): Str {
    if n % 4 == 0 then [] else if n % 4 == 1 then [PAD, PAD, PAD] else if n % 4 == 2 then [PAD, PAD] else [PAD]
  }

  function Encoded(input: Bytes): Str {
    var s := Symbols(input, 0, -6);
    s + Padding(|s|)
  }

  /** The inner loop of encodeBase64. */
  method Emit(val: U32, start: int) returns (s: Str, valb: int)
    requires -6 <= start <= 6
    ensures s == Emitted(val, start) && valb == Settle(start)
  {
    hide Bits6, Symbol, Emitted;
    s, valb := [], start;
    while valb >= 0
      invariant -6 <= valb <= 6 && Settle(valb) == Settle(start)
      invariant Emitted(val, start) == s + Emitted(val, valb)
    {
      EmittedStep(s, val, valb);
      s := s + [Symbol(Bits6(val, valb))];
      valb := valb - 6;
    }
    EmittedStep(s, val, valb);
  }

  lemma EmittedStep(before: Str, val: U32, valb: int)
    requires -6 <= valb <= 6
    ensures before + Emitted(val, valb)
            == if valb < 0 then before else before + [Symbol(Bits6(val, valb))] + Emitted(val, valb - 6)
  {
    hide Bits6, Symbol;
    if valb >= 0 {
      var one, rest := [Symbol(Bits6(val, valb))], Emitted(val, valb - 6);
      assert before + (one + rest) == before + one + rest;
    } else {
      assert before + [] == before;
    }
  }

  method EncodeBase64(input: Bytes) returns (out: Str)
    ensures out == Encoded(input)
  {
    out := EmitAll(input);
    out := Pad(out);
  }

  /** The padding loop of encodeBase64. */
  method Pad(s: Str) returns (out: Str)
    ensures out == s + Padding(|s|)
  {
    out := s;
    while |out| % 4 != 0
      invariant out + Padding(|out|) == s + Padding(|s|)
      decreases 4 - (|out| + 3) % 4
    {
      PaddingStep(|out|);
      assert out + ([PAD] + Padding(|out| + 1)) == out + [PAD] + Padding(|out| + 1);
      out := out + [PAD];
    }
  }

  lemma PaddingStep(n: nat)
    requires n % 4 != 0
    ensures Padding(n) == [PAD] + Padding(n + 1)
    ensures (n + 1 + 3) % 4 == (n + 3) % 4 + 1
  {
  }

  lemma SymbolsStep(before: Str, input: Bytes, i: nat, val: U32, valb: int)
    requires i < |input| && valb in {-6, -4, -2}
    ensures var v := Push8(val, input[i]); var s := Emitted(v, valb + 8); var next := Settle(valb + 8);
      && next in {-6, -4, -2}
      && before + Symbols(input[i..], val, valb) == before + s + Symbols(input[i + 1..], v, next)
  {
    hide Bits6, Push8, Symbol, Emitted;
    assert input[i..][0] == input[i] && input[i..][1..] == input[i + 1..];
    var v := Push8(val, input[i]);
    var s, rest := Emitted(v, valb + 8), Symbols(input[i + 1..], v, Settle(valb + 8));
    assert before + (s + rest) == before + s + rest;
  }

  lemma SymbolsEnd(input: Bytes, val: U32, valb: int)
    requires valb in {-6, -4, -2}
    ensures Symbols(input[|input|..], val, valb) == LastSymbol(val, valb)
  {
  }

  /** The outer loop of encodeBase64 and the bits left over after it. */
  method EmitAll(input: Bytes) returns (out: Str)
    ensures out == Symbols(input, 0, -6)
  {
    hide Bits6, Push8, Symbol, Emitted, Symbols;
    out := [];
    var val: U32 := 0;
    var valb := -6;
    assert input[0..] == input;
    for i := 0 to |input|
      invariant valb in {-6, -4, -2}
      invariant Symbols(input, 0, -6) == out + Symbols(input[i..], val, valb)
    {
      SymbolsStep(out, input, i, val, valb);
      val := Push8(val, input[i]);
      var s, v := Emit(val, valb + 8);
      out := out + s;
      valb := v;
    }
    SymbolsEnd(input, val, valb);
    if valb > -6 {
      out := out + [Symbol(Bits6(Push8(val, 0), valb + 8))];
    }
  }

  // ---- Decoding -------------------------------------------------------------

  predicate Skipped(c: Byte) {
    c == PAD || c == NEWLINE || c == CARRIAGE_RETURN || c == SPACE
  }

  /** The bytes for the rest of the input from an accumulator state, or a refusal. */
  function Octets(input: Str, val: U32, valb: int): Option<Bytes>
    requires -8 <= valb < 0
  {
    if input == [] then Some([])
    else if Skipped(input[0]) then Octets(input[1..], val, valb)
    else if Position(input[0]) < 0 then None
    else
      var v := Push6(val, Position(input[0]));
      if valb + 6 >= 0 then Before(Bits8(v, valb + 6), Octets(input[1..], v, valb - 2))
      else Octets(input[1..], v, valb + 6)
  }

  function Before(b: Byte, rest: Option<Bytes>): Option<Bytes> {
    if rest.None? then None else Some([b] + rest.value)
  }

  function Decoded(input: Str): Option<Bytes> {
    Octets(input, 0, -8)
  }

  function Joining(out: Bytes, rest: Option<Bytes>): Option<Bytes> {
    if rest.None? then None else Some(out + rest.value)
  }

  method DecodeBase64(input: Str) returns (r: Option<Bytes>)
    ensures r == Decoded(input)
  {
    var out: Bytes := [];
    var val: U32 := 0;
    var valb := -8;
    assert Decoded(input).Some? ==> [] + Decoded(input).value == Decoded(input).value;
    for i := 0 to |input|
      invariant -8 <= valb < 0
      invariant Decoded(input) == Joining(out, Octets(input[i..], val, valb))
    {
      assert input[i..][1..] == input[i + 1..];
      var c := input[i];
      if !Skipped(c) {
        var p := Position(c);
        if p < 0 {
          return None;
        }
        val := Push6(val, p);
        valb := valb + 6;
        if valb >= 0 {
          var b := Bits8(val, valb);
          ghost var rest := Octets(input[i + 1..], val, valb - 8);
          assert rest.Some? ==> out + ([b] + rest.value) == out + [b] + rest.value;
          out := out + [b];
          valb := valb - 8;
        }
      }
    }
    assert out + [] == out;
    return Some(out);
  }

  // ---- Round trip -----------------------------------------------------------

  lemma Powers()
    ensures Pow2(0) == 1 && Pow2(1) == 2 && Pow2(2) == 4 && Pow2(3) == 8 && Pow2(4) == 16 && Pow2(5) == 32
    ensures Pow2(6) == 64
  {
    assert Pow2(4) == 2 * Pow2(3) && Pow2(5) == 2 * Pow2(4) && Pow2(6) == 2 * Pow2(5);
  }

  /** Only the low bits of the accumulator reach the output. */
  lemma LowBits8(val: U32, c: nat)
    requires c < 256
    ensures Push8(val, c) % 256 == c
    ensures Push8(val, c) % 0x400 == val % 4 * 256 + c
    ensures Push8(val, c) % 0x1000 == val % 16 * 256 + c
  {
    var q := (val * 256 + c) / 0x1_0000_0000;
    Remainder(Push8(val, c), 256, val - q * 0x100_0000, c);
    Remainder(Push8(val, c), 0x400, val / 4 - q * 0x40_0000, val % 4 * 256 + c);
    Remainder(Push8(val, c), 0x1000, val / 16 - q * 0x10_0000, val % 16 * 256 + c);
  }

  lemma LowBits6(val: U32, p: nat)
    requires p < 64
    ensures Push6(val, p) % 64 == p
    ensures Push6(val, p) % 0x1000 == val % 64 * 64 + p
    ensures Push6(val, p) % 0x400 == val % 16 * 64 + p
    ensures Push6(val, p) % 256 == val % 4 * 64 + p
  {
    var q := (val * 64 + p) / 0x1_0000_0000;
    Remainder(Push6(val, p), 64, val - q * 0x400_0000, p);
    Remainder(Push6(val, p), 0x1000, val / 64 - q * 0x10_0000, val % 64 * 64 + p);
    Remainder(Push6(val, p), 0x400, val / 16 - q * 0x40_0000, val % 16 * 64 + p);
    Remainder(Push6(val, p), 256, val / 4 - q * 0x100_0000, val % 4 * 64 + p);
  }

  lemma FieldsOf(v: nat)
    ensures v / 4 % 64 == v % 256 / 4
    ensures v / 16 % 64 == v % 0x400 / 16
    ensures v / 64 % 64 == v % 0x1000 / 64
  {
    Remainder(v / 4, 64, v / 256, v % 256 / 4);
    Remainder(v / 16, 64, v / 0x400, v % 0x400 / 16);
    Remainder(v / 64, 64, v / 0x1000, v % 0x1000 / 64);
  }

  lemma ByteFieldsOf(v: nat)
    ensures v / 16 % 256 == v % 0x1000 / 16
    ensures v / 4 % 256 == v % 0x400 / 4
  {
    Remainder(v / 16, 256, v / 0x1000, v % 0x1000 / 16);
    Remainder(v / 4, 256, v / 0x400, v % 0x400 / 4);
  }

  /** What the inner loop emits at the three alignments. */
  lemma EmittedAt(v: U32)
    ensures Emitted(v, 2) == [Symbol(v % 256 / 4)]
    ensures Emitted(v, 4) == [Symbol(v % 0x400 / 16)]
    ensures Emitted(v, 6) == [Symbol(v % 0x1000 / 64), Symbol(v % 64)]
  {
    hide Symbol;
    Powers();
    FieldsOf(v);
    assert Emitted(v, -4) == [] && Emitted(v, -2) == [] && Emitted(v, -6) == [];
    assert Emitted(v, 0) == [Symbol(v % 64)];
  }

  /** The symbols of one, two and three bytes, whatever the accumulator held before. */
  lemma SymbolsOfOne(input: Bytes, val: U32)
    requires |input| >= 1
    ensures var v := Push8(val, input[0]);
            v % 4 == input[0] % 4 && Symbols(input, val, -6) == [Symbol(input[0] / 4)] + Symbols(input[1..], v, -4)
  {
    hide Bits6, Push8, Symbol, Emitted;
    EmittedAt(Push8(val, input[0]));
    CarriedBits(val, input[0]);
  }

  /** The bits that stay behind after a byte. */
  lemma CarriedBits(val: U32, a: Byte)
    ensures var v := Push8(val, a);
      && v % 256 == a && v % 4 == a % 4 && v % 16 == a % 16
      && v % 0x400 / 16 == val % 4 * 16 + a / 16 && v % 0x1000 / 64 == val % 16 * 4 + a / 64 && v % 64 == a % 64
  {
    var v := Push8(val, a);
    LowBits8(val, a);
    Remainder(v, 4, v / 256 * 64 + a / 4, a % 4);
    Remainder(v, 16, v / 256 * 16 + a / 16, a % 16);
    Remainder(v, 64, v / 256 * 4 + a / 64, a % 64);
    Remainder(val % 4 * 256 + a, 16, val % 4 * 16 + a / 16, a % 16);
    Remainder(val % 16 * 256 + a, 64, val % 16 * 4 + a / 64, a % 64);
  }

  lemma SymbolsOfNext(input: Bytes, val: U32)
    requires |input| >= 1
    ensures var v := Push8(val, input[0]);
            && v % 16 == input[0] % 16
            && Symbols(input, val, -4) == [Symbol(val % 4 * 16 + input[0] / 16)] + Symbols(input[1..], v, -2)
  {
    hide Bits6, Push8, Symbol, Emitted;
    EmittedAt(Push8(val, input[0]));
    CarriedBits(val, input[0]);
  }

  lemma SymbolsOfLast(input: Bytes, val: U32)
    requires |input| >= 1
    ensures Symbols(input, val, -2)
            == [Symbol(val % 16 * 4 + input[0] / 64), Symbol(input[0] % 64)]
               + Symbols(input[1..], Push8(val, input[0]), -6)
  {
    hide Bits6, Push8, Symbol, Emitted;
    EmittedAt(Push8(val, input[0]));
    CarriedBits(val, input[0]);
  }

  lemma SymbolsOfNone(val: U32)
    ensures Symbols([], val, -4) == [Symbol(val % 4 * 16)]
    ensures Symbols([], val, -2) == [Symbol(val % 16 * 4)]
  {
    hide Symbol, Push8;
    Powers();
    LowBits8(val, 0);
    FieldsOf(Push8(val, 0));
  }

  /** One symbol at each alignment of the decoder. */
  lemma OctetsOfSymbol(s: Sextet, rest: Str, val: U32, valb: int)
    requires -8 <= valb < 0
    ensures Octets([Symbol(s)] + rest, val, valb)
            == if valb + 6 >= 0 then Before(Bits8(Push6(val, s), valb + 6), Octets(rest, Push6(val, s), valb - 2))
               else Octets(rest, Push6(val, s), valb + 6)
  {
    hide Symbol, Position, Push6, Bits8;
    PositionOfSymbol(s);
    assert ([Symbol(s)] + rest)[1..] == rest;
  }

  lemma {:induction false} OctetsOfPads(pads: Str, val: U32, valb: int)
    requires -8 <= valb < 0 && forall i :: 0 <= i < |pads| ==> Skipped(pads[i])
    ensures Octets(pads, val, valb) == Some([])
  {
    if pads != [] {
      OctetsOfPads(pads[1..], val, valb);
    }
  }

  /** Two symbols give a byte back at the start of a quad. */
  lemma OctetsOfTwo(a: Byte, t: Sextet, rest: Str, val: U32)
    requires t / 16 == a % 4
    ensures var v := Push6(Push6(val, a / 4), t);
      && v % 16 == t % 16
      && Octets([Symbol(a / 4)] + ([Symbol(t)] + rest), val, -8) == Before(a, Octets(rest, v, -4))
  {
    hide Symbol, Position, Push6, Bits8, Octets;
    var v1 := Push6(val, a / 4);
    var v2 := Push6(v1, t);
    OctetsOfSymbol(a / 4, [Symbol(t)] + rest, val, -8);
    OctetsOfSymbol(t, rest, v1, -2);
    LowBits6(val, a / 4);
    LowBits6(v1, t);
    assert Bits8(v2, 4) == a && v2 % 16 == t % 16 by { FirstByte(a, t, v1, v2); }
  }

  lemma FirstByte(a: Byte, t: Sextet, v1: U32, v2: U32)
    requires t / 16 == a % 4 && v1 % 64 == a / 4 && v2 % 0x1000 == v1 % 64 * 64 + t && v2 % 64 == t
    ensures Bits8(v2, 4) == a && v2 % 16 == t % 16
  {
    Powers();
    ByteFieldsOf(v2);
    Remainder(a / 4 * 64 + t, 16, a / 4 * 4 + t / 16, t % 16);
    Remainder(v2, 16, v2 / 64 * 4 + t / 16, t % 16);
  }

  /** The third symbol completes the second byte, the fourth the third. */
  lemma OctetsOfThird(b: Byte, u: Sextet, rest: Str, val: U32)
    requires val % 16 == b / 16 && u / 4 == b % 16
    ensures var v := Push6(val, u);
            v % 4 == u % 4 && Octets([Symbol(u)] + rest, val, -4) == Before(b, Octets(rest, v, -6))
  {
    hide Symbol, Position, Push6, Bits8, Octets;
    var v := Push6(val, u);
    OctetsOfSymbol(u, rest, val, -4);
    LowBits6(val, u);
    assert Bits8(v, 2) == b && v % 4 == u % 4 by { SecondByte(b, u, val, v); }
  }

  lemma SecondByte(b: Byte, u: Sextet, val: U32, v: U32)
    requires val % 16 == b / 16 && u / 4 == b % 16 && v % 0x400 == val % 16 * 64 + u && v % 64 == u
    ensures Bits8(v, 2) == b && v % 4 == u % 4
  {
    Powers();
    ByteFieldsOf(v);
    Remainder(b / 16 * 64 + u, 4, b / 16 * 16 + u / 4, u % 4);
    Remainder(v, 4, v / 64 * 16 + u / 4, u % 4);
  }

  lemma OctetsOfFourth(c: Byte, rest: Str, val: U32)
    requires val % 4 == c / 64
    ensures Octets([Symbol(c % 64)] + rest, val, -6) == Before(c, Octets(rest, Push6(val, c % 64), -8))
  {
    hide Symbol, Position, Push6, Octets;
    OctetsOfSymbol(c % 64, rest, val, -6);
    LowBits6(val, c % 64);
    Powers();
  }

  /** Decoding the symbols of any input, from any two accumulators, gives the input back. */
  lemma {:induction false} SymbolsComeBack(input: Bytes, val: U32, val': U32, pads: Str)
    requires forall i :: 0 <= i < |pads| ==> Skipped(pads[i])
    ensures Octets(Symbols(input, val, -6) + pads, val', -8) == Some(input)
    decreases |input|, 2
  {
    hide Symbol, Push8, Push6, Octets, Skipped;
    if input == [] {
      assert Symbols(input, val, -6) == [] && [] + pads == pads;
      OctetsOfPads(pads, val', -8);
    } else {
      var a := input[0];
      var v := Push8(val, a);
      SymbolsOfOne(input, val);
      if |input| == 1 {
        SymbolsOfNone(v);
        var t := a % 4 * 16;
        assert input[1..] == [];
        assert Symbols(input, val, -6) + pads == [Symbol(a / 4)] + ([Symbol(t)] + pads);
        OctetsOfTwo(a, t, pads, val');
        OctetsOfPads(pads, Push6(Push6(val', a / 4), t), -4);
        assert [a] + [] == input;
      } else {
        SecondComesBack(input, val, v, val', pads);
      }
    }
  }

  lemma {:induction false} SecondComesBack(input: Bytes, val: U32, v: U32, val': U32, pads: Str)
    requires |input| >= 2 && forall i :: 0 <= i < |pads| ==> Skipped(pads[i])
    requires v % 4 == input[0] % 4
    requires Symbols(input, val, -6) == [Symbol(input[0] / 4)] + Symbols(input[1..], v, -4)
    ensures Octets(Symbols(input, val, -6) + pads, val', -8) == Some(input)
    decreases |input|, 1
  {
    hide Symbol, Push8, Push6, Octets, Skipped;
    var a, b := input[0], input[1];
    var t := a % 4 * 16 + b / 16;
    var w := Push8(v, b);
    SymbolsOfNext(input[1..], v);
    assert input[1..][1..] == input[2..];
    var tail := Symbols(input[2..], w, -2) + pads;
    assert Symbols(input, val, -6) + pads == [Symbol(a / 4)] + ([Symbol(t)] + tail);
    OctetsOfTwo(a, t, tail, val');
    ThirdComesBack(input, w, Push6(Push6(val', a / 4), t), pads);
    assert [a] + ([b] + input[2..]) == input;
  }

  lemma {:induction false} ThirdComesBack(input: Bytes, w: U32, v2: U32, pads: Str)
    requires |input| >= 2 && forall i :: 0 <= i < |pads| ==> Skipped(pads[i])
    requires w % 16 == input[1] % 16 && v2 % 16 == input[1] / 16
    ensures Octets(Symbols(input[2..], w, -2) + pads, v2, -4) == Some([input[1]] + input[2..])
    decreases |input|, 0
  {
    hide Symbol, Push8, Push6, Octets, Skipped;
    var b := input[1];
    if |input| == 2 {
      assert input[2..] == [];
      SymbolsOfNone(w);
      OctetsOfThird(b, b % 16 * 4, pads, v2);
      OctetsOfPads(pads, Push6(v2, b % 16 * 4), -6);
    } else {
      var c := input[2];
      SymbolsOfLast(input[2..], w);
      assert input[2..][1..] == input[3..];
      var u := b % 16 * 4 + c / 64;
      var tail := Symbols(input[3..], Push8(w, c), -6) + pads;
      assert Symbols(input[2..], w, -2) + pads == [Symbol(u)] + ([Symbol(c % 64)] + tail);
      OctetsOfThird(b, u, [Symbol(c % 64)] + tail, v2);
      OctetsOfFourth(c, tail, Push6(v2, u));
      SymbolsComeBack(input[3..], Push8(w, c), Push6(Push6(v2, u), c % 64), pads);
      assert [c] + input[3..] == input[2..];
    }
  }

  lemma {:induction false} SymbolCount(input: Bytes, val: U32)
    ensures |Symbols(input, val, -6)| == |input| / 3 * 4 + (if |input| % 3 == 0 then 0 else |input| % 3 + 1)
    decreases |input|
  {
    hide Symbol, Push8, Emitted;
    if input != [] {
      var v := Push8(val, input[0]);
      SymbolsOfOne(input, val);
      if |input| == 1 {
        SymbolsOfNone(v);
        assert input[1..] == [];
      } else {
        var w := Push8(v, input[1]);
        SymbolsOfNext(input[1..], v);
        assert input[1..][1..] == input[2..];
        if |input| == 2 {
          SymbolsOfNone(w);
          assert input[2..] == [];
        } else {
          SymbolsOfLast(input[2..], w);
          assert input[2..][1..] == input[3..];
          SymbolCount(input[3..], Push8(w, input[2]));
        }
      }
    }
  }

  /** Base64 round trip: every byte sequence comes back, from four symbols per started triple. */
  lemma RoundTrip(input: Bytes)
    ensures Decoded(Encoded(input)) == Some(input)
    ensures |Encoded(input)| == 4 * ((|input| + 2) / 3)
  {
    hide Symbols, Octets;
    SymbolsComeBack(input, 0, 0, Padding(|Symbols(input, 0, -6)|));
    SymbolCount(input, 0);
  }

  // ---- Section 4 of RFC 4648 ---------------------------------------------------

  function Run(first: Byte, n: Byte): (r: Str)
    requires first + n <= 256
    ensures |r| == n && forall i :: 0 <= i < n ==> r[i] == first + i
  {
    seq(n, i requires 0 <= i < n => first + i)
  }

  /** "A" to "Z", "a" to "z", "0" to "9", "+" and "/". */
  function Alphabet(): (r: Str)
    ensures |r| == 64
  {
    Run(65, 26) + Run(97, 26) + Run(48, 10) + [43, 47]
  }

  lemma SymbolIsLetter(i: Sextet)
    ensures Symbol(i) == Alphabet()[i]
  {
  }

  /** Three octets are four letters of six bits each; one or two are filled up with "=". */
  function Grouped(input: Bytes): Str {
    var abc := Alphabet();
    if input == [] then []
    else if |input| == 1 then [abc[input[0] / 4], abc[input[0] % 4 * 16], 61, 61]
    else if |input| == 2 then
      [abc[input[0] / 4], abc[input[0] % 4 * 16 + input[1] / 16], abc[input[1] % 16 * 4], 61]
    else
      [abc[input[0] / 4], abc[input[0] % 4 * 16 + input[1] / 16], abc[input[1] % 16 * 4 + input[2] / 64],
       abc[input[2] % 64]] + Grouped(input[3..])
  }

  /** The first four symbols of three octets or more. */
  lemma FirstGroup(input: Bytes, val: U32)
    requires |input| >= 3
    ensures exists next: U32 ::
              Symbols(input, val, -6)
              == [Symbol(input[0] / 4), Symbol(input[0] % 4 * 16 + input[1] / 16),
                  Symbol(input[1] % 16 * 4 + input[2] / 64), Symbol(input[2] % 64)] + Symbols(input[3..], next, -6)
  {
    hide Symbol, Push8, Symbols;
    var v := Push8(val, input[0]);
    var w := Push8(v, input[1]);
    SymbolsOfOne(input, val);
    SymbolsOfNext(input[1..], v);
    SymbolsOfLast(input[2..], w);
    assert input[1..][1..] == input[2..] && input[2..][1..] == input[3..];
    var next := Push8(w, input[2]);
    assert Symbols(input, val, -6)
           == [Symbol(input[0] / 4), Symbol(input[0] % 4 * 16 + input[1] / 16),
               Symbol(input[1] % 16 * 4 + input[2] / 64), Symbol(input[2] % 64)] + Symbols(input[3..], next, -6);
  }

  /** The symbols of one or two octets. */
  lemma LastGroup(input: Bytes, val: U32)
    requires 1 <= |input| <= 2
    ensures Symbols(input, val, -6)
            == if |input| == 1 then [Symbol(input[0] / 4), Symbol(input[0] % 4 * 16)]
               else [Symbol(input[0] / 4), Symbol(input[0] % 4 * 16 + input[1] / 16), Symbol(input[1] % 16 * 4)]
  {
    hide Symbol, Push8, Symbols;
    var v := Push8(val, input[0]);
    SymbolsOfOne(input, val);
    if |input| == 1 {
      assert input[1..] == [];
      SymbolsOfNone(v);
    } else {
      SymbolsOfNext(input[1..], v);
      assert input[1..][1..] == [];
      SymbolsOfNone(Push8(v, input[1]));
    }
  }

  lemma PaddedBehind(four: Str, s: Str)
    requires |four| == 4
    ensures four + s + Padding(|four + s|) == four + (s + Padding(|s|))
  {
    assert |four + s| % 4 == |s| % 4;
  }

  lemma {:induction false} SymbolsAreGroups(input: Bytes, val: U32)
    ensures var s := Symbols(input, val, -6); s + Padding(|s|) == Grouped(input)
    decreases |input|
  {
    hide Symbol, Symbols, Alphabet;
    if input == [] {
      NoSymbols(val);
    } else if |input| < 3 {
      LastGroup(input, val);
      SymbolIsLetter(input[0] / 4);
      SymbolIsLetter(input[0] % 4 * 16);
      if |input| == 2 {
        SymbolIsLetter(input[0] % 4 * 16 + input[1] / 16);
        SymbolIsLetter(input[1] % 16 * 4);
      }
    } else {
      FirstGroup(input, val);
      var four := [Symbol(input[0] / 4), Symbol(input[0] % 4 * 16 + input[1] / 16),
                   Symbol(input[1] % 16 * 4 + input[2] / 64), Symbol(input[2] % 64)];
      var next: U32 :| Symbols(input, val, -6) == four + Symbols(input[3..], next, -6);
      SymbolsAreGroups(input[3..], next);
      PaddedBehind(four, Symbols(input[3..], next, -6));
      SymbolIsLetter(input[0] / 4);
      SymbolIsLetter(input[0] % 4 * 16 + input[1] / 16);
      SymbolIsLetter(input[1] % 16 * 4 + input[2] / 64);
      SymbolIsLetter(input[2] % 64);
    }
  }

  lemma NoSymbols(val: U32)
    ensures Symbols([], val, -6) == []
  {
  }

  /** The accumulator computes the encoding of section 4 of RFC 4648. */
  lemma EncodedIsGrouped(input: Bytes)
    ensures Encoded(input) == Grouped(input)
  {
    hide Symbols, Grouped;
    SymbolsAreGroups(input, 0);
  }

  // ---- What the decoder takes ----------------------------------------------------

  /** A letter of the alphabet, or the zero byte, which strchr finds behind it. */
  predicate IsLetter(c: Byte) {
    c in Alphabet() || c == 0
  }

  /** Everything but "=", line ends and blanks. */
  function Letters(s: Str): Str {
    if s == [] then []
    else (if s[0] in {61, 10, 13, 32} then [] else [s[0]]) + Letters(s[1..])
  }

  lemma LetterHasPosition(c: Byte)
    ensures Position(c) >= 0 <==> IsLetter(c)
  {
    var abc := Alphabet();
    if 0 <= Position(c) < 64 {
      SymbolIsLetter(Position(c));
      assert Symbol(Position(c)) == c && abc[Position(c)] == c;
    }
    if c in abc {
      var i :| 0 <= i < |abc| && abc[i] == c;
      SymbolIsLetter(i);
      PositionOfSymbol(i);
    }
  }

  lemma {:induction false} OctetsOfLetters(s: Str, val: U32, valb: int)
    requires -8 <= valb < 0
    ensures Octets(s, val, valb) == Octets(Letters(s), val, valb)
    ensures Octets(s, val, valb).Some? <==> forall i :: 0 <= i < |Letters(s)| ==> IsLetter(Letters(s)[i])
  {
    hide Push6, Bits8, IsLetter, Position;
    if s != [] {
      var rest := Letters(s[1..]);
      if s[0] in {61, 10, 13, 32} {
        OctetsOfLetters(s[1..], val, valb);
        assert Letters(s) == rest;
      } else {
        LetterHasPosition(s[0]);
        var l := Letters(s);
        assert l == [s[0]] + rest && l[0] == s[0] && l[1..] == rest;
        if Position(s[0]) >= 0 {
          var v := Push6(val, Position(s[0]));
          OctetsOfLetters(s[1..], v, if valb + 6 >= 0 then valb - 2 else valb + 6);
        }
      }
    }
  }

  /**
   Text is refused exactly if it has a byte that is no letter, "=", line end or blank, and
   what lies between the letters does not matter: all text with the letters of an encoding
   decodes to the bytes that were encoded.
   */
  lemma LettersDecide(s: Str)
    ensures Decoded(s).Some? <==> forall i :: 0 <= i < |Letters(s)| ==> IsLetter(Letters(s)[i])
    ensures forall input: Bytes :: Letters(s) == Letters(Encoded(input)) ==> Decoded(s) == Some(input)
  {
    hide Octets, IsLetter, Encoded;
    OctetsOfLetters(s, 0, -8);
    forall input: Bytes | Letters(s) == Letters(Encoded(input)) ensures Decoded(s) == Some(input) {
      RoundTrip(input);
      OctetsOfLetters(Encoded(input), 0, -8);
    }
  }
}
