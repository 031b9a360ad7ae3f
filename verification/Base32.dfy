/**
 The unpadded Base32 codec of TOTP secrets (section 6 of RFC 4648), with its sliding 32-bit
 accumulator. The accumulator is never masked: shifting pushes old bits off the top. Since
 a shift leaves the low bits clear, the program's bitwise or is written as addition here.
 */
module Base32 {
  import opened Arithmetic
  import opened Wrappers

  const ALPHABET: string := "ABCDEFGHIJKLMNOPQRSTUVWXYZ234567"
  const WORD: nat := 0x1_0000_0000

  type Byte = b: nat | b < 256
  type Code = c: nat | c < 32
  type Bits = seq<bool>

  // ---- bit strings ----

  function Pow2(n: nat): (p: nat)
    ensures p >= 1
  {
    if n == 0 then 1 else 2 * Pow2(n - 1)
  }

  /** The number a bit string spells, most significant bit first. */
  function Value(bits: Bits): nat {
    if bits == [] then 0
    else 2 * Value(bits[..|bits| - 1]) + if bits[|bits| - 1] then 1 else 0
  }

  function BitsOf(x: nat, width: nat): (bits: Bits)
    ensures |bits| == width
  {
    if width == 0 then [] else BitsOf(x / 2, width - 1) + [x % 2 == 1]
  }

  lemma {:induction false} Pow2Add(a: nat, b: nat)
    ensures Pow2(a + b) == Pow2(a) * Pow2(b)
  {
    if a > 0 {
      Pow2Add(a - 1, b);
      assert 2 * (Pow2(a - 1) * Pow2(b)) == (2 * Pow2(a - 1)) * Pow2(b);
    }
  }

  lemma {:induction false} ValueBound(bits: Bits)
    ensures Value(bits) < Pow2(|bits|)
  {
    if bits != [] {
      ValueBound(bits[..|bits| - 1]);
    }
  }

  lemma {:induction false} ValueOfBits(x: nat, width: nat)
    requires x < Pow2(width)
    ensures Value(BitsOf(x, width)) == x
  {
    if width > 0 {
      ValueOfBits(x / 2, width - 1);
      assert BitsOf(x, width)[..width - 1] == BitsOf(x / 2, width - 1);
    }
  }

  lemma {:induction false} BitsOfValue(bits: Bits)
    ensures BitsOf(Value(bits), |bits|) == bits
  {
    if bits != [] {
      BitsOfValue(bits[..|bits| - 1]);
      assert bits == bits[..|bits| - 1] + [bits[|bits| - 1]];
    }
  }

  lemma {:induction false} ValueConcat(a: Bits, b: Bits)
    ensures Value(a + b) == Value(a) * Pow2(|b|) + Value(b)
  {
    if b == [] {
      assert a + b == a;
    } else {
      var front := b[..|b| - 1];
      ValueConcat(a, front);
      assert (a + b)[..|a + b| - 1] == a + front;
      assert 2 * (Value(a) * Pow2(|front|)) == Value(a) * (2 * Pow2(|front|));
    }
  }

  // ---- division facts ----

  /** Writing `x` as `q * m + r` with a small `r` determines quotient and remainder. */
  lemma DivModUnique(x: int, m: int, q: int, r: int)
    requires m > 0 && x == m * q + r && 0 <= r < m
    ensures x / m == q && x % m == r
  {
    var d, e := x / m, x % m;
    assert x == m * d + e;
    assert m * (d - q) == r - e by {
      assert m * (d - q) == m * d - m * q;
    }
    if d - q >= 1 {
      TimesMonotone(m, 1, d - q);
    } else if d - q <= -1 {
      TimesMonotone(m, d - q, -1);
    }
  }

  /** Dropping high bits first does not change the low ones. */
  lemma ModOfMod(x: int, a: int, b: int)
    requires a > 0 && b > 0
    ensures a * b > 0 && (x % (a * b)) % b == x % b
  {
    TimesMonotone(b, 1, a);
    assert b * a == a * b;
    var m := a * b;
    var y := x % m;
    var q := x / m;
    assert x == m * q + y;
    assert m * q == b * (a * q);
    var d, r := y / b, y % b;
    assert y == b * d + r;
    assert x == b * (a * q + d) + r by {
      assert b * (a * q + d) == b * (a * q) + b * d;
    }
    DivModUnique(x, b, a * q + d, r);
  }

  // ---- the accumulator ----

  /** The low `bits` bits of the accumulator are the pending, not yet emitted ones. */
  ghost predicate Holds(value: nat, pending: Bits) {
    value % Pow2(|pending|) == Value(pending)
  }

  lemma HoldsNothing()
    ensures Holds(0, [])
  {
  }

  /** Shifting in `width` bits, losing whatever leaves the 32-bit word. */
  function ShiftIn(value: nat, width: nat, x: nat): nat {
    (value * Pow2(width)) % WORD + x
  }

  lemma WordIsPow2()
    ensures WORD == Pow2(32)
  {
    assert Pow2(8) == 256;
    Pow2Add(8, 8);
    Pow2Add(16, 16);
  }

  lemma ShiftInHolds(value: nat, pending: Bits, width: nat, x: nat)
    requires Holds(value, pending) && x < Pow2(width) && |pending| + width <= 32
    ensures Holds(ShiftIn(value, width, x), pending + BitsOf(x, width))
  {
    hide Pow2, Value, BitsOf;
    var n, w := Pow2(|pending|), Pow2(width);
    var m := Pow2(|pending| + width);
    Pow2Add(|pending|, width);
    Pow2Add(32 - |pending| - width, |pending| + width);
    WordIsPow2();
    ValueBound(pending);
    ValueConcat(pending, BitsOf(x, width));
    ValueOfBits(x, width);
    Shifted(value, n, w, Value(pending));
    ModOfMod(value * w, Pow2(32 - |pending| - width), m);
    AddLow(value * w % WORD, m, Value(pending) * w, x, w, n);
  }

  lemma Shifted(value: nat, n: nat, w: nat, v: nat)
    requires n >= 1 && w >= 1 && value % n == v
    ensures n * w >= 1 && (value * w) % (n * w) == v * w
  {
    var q := value / n;
    assert value == n * q + v;
    assert value * w == (n * w) * q + v * w by {
      assert (n * q) * w == (n * w) * q;
      assert (n * q + v) * w == (n * q) * w + v * w;
    }
    TimesMonotone(w, 1, n);
    assert w * n == n * w;
    TimesMonotone(w, v, n - 1);
    assert w * (n - 1) == w * n - w;
    assert v * w == w * v;
    DivModUnique(value * w, n * w, q, v * w);
  }

  lemma AddLow(y: nat, m: nat, high: nat, x: nat, w: nat, n: nat)
    requires m == n * w && m >= 1 && y % m == high && x < w
    requires exists v: nat :: v < n && high == v * w
    ensures (y + x) % m == high + x
  {
    var v: nat :| v < n && high == v * w;
    TimesMonotone(w, v, n - 1);
    assert w * (n - 1) == w * n - w;
    assert v * w == w * v && n * w == w * n;
    var q := y / m;
    assert y == m * q + high;
    DivModUnique(y + x, m, q, high + x);
  }

  /** Reading off the top `k` pending bits, and what stays pending. */
  lemma TopBits(value: nat, pending: Bits, k: nat)
    requires Holds(value, pending) && k <= |pending|
    ensures (value / Pow2(|pending| - k)) % Pow2(k) == Value(pending[..k])
    ensures Holds(value, pending[k..])
  {
    hide Pow2, Value;
    var kk, p := Pow2(k), Pow2(|pending| - k);
    var a, b := Value(pending[..k]), Value(pending[k..]);
    Pow2Add(k, |pending| - k);
    assert pending == pending[..k] + pending[k..];
    ValueConcat(pending[..k], pending[k..]);
    ValueBound(pending[..k]);
    ValueBound(pending[k..]);
    SplitWord(value, kk, p, a, b);
  }

  lemma SplitWord(value: nat, kk: nat, p: nat, a: nat, b: nat)
    requires kk >= 1 && p >= 1 && kk * p >= 1 && a < kk && b < p
    requires value % (kk * p) == a * p + b
    ensures (value / p) % kk == a && value % p == b
  {
    var q := value / (kk * p);
    assert value == (kk * p) * q + (a * p + b);
    assert value == p * (kk * q + a) + b by {
      assert (kk * p) * q == p * (kk * q);
      assert p * (kk * q + a) == p * (kk * q) + p * a;
      assert p * a == a * p;
    }
    DivModUnique(value, p, kk * q + a, b);
    DivModUnique(kk * q + a, kk, q, a);
  }

  // ---- what the two directions compute ----

  /** The bits of a byte string. */
  function Stream(raw: seq<Byte>): Bits {
    if raw == [] then [] else BitsOf(raw[0], 8) + Stream(raw[1..])
  }

  /** Five bits a letter, the last group filled up with zeros. */
  function Letters(bits: Bits): string
    decreases |bits|
  {
    if bits == [] then ""
    else if |bits| < 5 then
      Last5(bits);
      [ALPHABET[Value(bits) * Pow2(5 - |bits|)]]
    else
      Group5(bits);
      [ALPHABET[Value(bits[..5])]] + Letters(bits[5..])
  }

  lemma Group5(bits: Bits)
    requires |bits| >= 5
    ensures Value(bits[..5]) < 32
  {
    ValueBound(bits[..5]);
    assert Pow2(5) == 32;
  }

  lemma Last5(bits: Bits)
    requires |bits| < 5
    ensures Value(bits) * Pow2(5 - |bits|) < 32
  {
    ValueBound(bits);
    Pow2Add(|bits|, 5 - |bits|);
    assert Pow2(5) == 32;
    TimesMonotone(Pow2(5 - |bits|), Value(bits), Pow2(|bits|) - 1);
    assert Pow2(5 - |bits|) * (Pow2(|bits|) - 1) == Pow2(5 - |bits|) * Pow2(|bits|) - Pow2(5 - |bits|);
  }

  /** Whole bytes of a bit string; up to seven trailing bits are dropped. */
  function Bytes(bits: Bits): seq<Byte>
    decreases |bits|
  {
    if |bits| < 8 then []
    else
      Group8(bits);
      [Value(bits[..8])] + Bytes(bits[8..])
  }

  lemma Group8(bits: Bits)
    requires |bits| >= 8
    ensures Value(bits[..8]) < 256
  {
    ValueBound(bits[..8]);
    assert Pow2(8) == 256;
  }

  function Upper(c: char): char {
    if 'a' <= c <= 'z' then ((c as int) - 32) as char else c
  }

  /** First place of the letter in the alphabet from `i` on. */
  function Position(c: char, i: nat): (at: Option<Code>)
    requires i <= 32
    ensures at.Some? ==> i <= at.value && ALPHABET[at.value] == c
    decreases 32 - i
  {
    if i == 32 then None else if ALPHABET[i] == c then Some(i) else Position(c, i + 1)
  }

  /** The bits an input spells: case is ignored, foreign characters are skipped. */
  function Spelled(input: string): Bits {
    if input == "" then []
    else
      (match Position(Upper(input[0]), 0) case None => [] case Some(code) => BitsOf(code, 5))
      + Spelled(input[1..])
  }

  // ---- the two loops ----

  lemma StreamStep(raw: seq<Byte>, i: nat)
    requires i < |raw|
    ensures Stream(raw[i..]) == BitsOf(raw[i], 8) + Stream(raw[i + 1..])
  {
    assert raw[i..][1..] == raw[i + 1..];
  }

  lemma StreamEnd(raw: seq<Byte>)
    ensures Stream(raw[|raw|..]) == [] && raw[0..] == raw
  {
  }

  method Encode(raw: seq<Byte>) returns (out: string)
    ensures out == Letters(Stream(raw))
  {
    hide Letters, Holds, Pow2, Value, BitsOf, Stream;
    var bits, value: nat := 0, 0;
    out := "";
    ghost var pending: Bits := [];
    HoldsNothing();
    StreamEnd(raw);
    assert pending + Stream(raw) == Stream(raw);
    for i := 0 to |raw|
      invariant bits == |pending| < 5 && Holds(value, pending)
      invariant Letters(Stream(raw)) == out + Letters(pending + Stream(raw[i..]))
    {
      ghost var rest := Stream(raw[i + 1..]);
      StreamStep(raw, i);
      Powers();
      ShiftInHolds(value, pending, 8, raw[i]);
      value := ShiftIn(value, 8, raw[i]);
      bits := bits + 8;
      assert pending + (BitsOf(raw[i], 8) + rest) == (pending + BitsOf(raw[i], 8)) + rest;
      pending := pending + BitsOf(raw[i], 8);
      while bits >= 5
        invariant bits == |pending| && Holds(value, pending)
        invariant Letters(Stream(raw)) == out + Letters(pending + rest)
      {
        TopBits(value, pending, 5);
        LettersStep(pending, rest);
        out := out + [ALPHABET[(value / Pow2(bits - 5)) % 32]];
        bits := bits - 5;
        pending := pending[5..];
      }
    }
    StreamEnd(raw);
    assert pending + [] == pending;
    if bits > 0 {
      LastLetter(value, pending);
      out := out + [ALPHABET[((value * Pow2(5 - bits)) % WORD) % 32]];
    } else {
      LettersOfNothing(pending);
    }
  }

  lemma Powers()
    ensures Pow2(0) == 1 && Pow2(5) == 32 && Pow2(8) == 256
  {
  }

  lemma LettersOfNothing(pending: Bits)
    requires pending == []
    ensures Letters(pending) == ""
  {
  }

  lemma LettersStep(pending: Bits, rest: Bits)
    requires |pending| >= 5
    ensures Value(pending[..5]) < 32
    ensures Letters(pending + rest) == [ALPHABET[Value(pending[..5])]] + Letters(pending[5..] + rest)
  {
    Group5(pending);
    assert (pending + rest)[..5] == pending[..5];
    assert (pending + rest)[5..] == pending[5..] + rest;
  }

  /** The final partial group: shifting left past the word does not disturb the low five bits. */
  lemma LastLetter(value: nat, pending: Bits)
    requires Holds(value, pending) && 0 < |pending| < 5
    ensures Value(pending) * Pow2(5 - |pending|) < 32
    ensures ((value * Pow2(5 - |pending|)) % WORD) % 32 == Value(pending) * Pow2(5 - |pending|)
    ensures Letters(pending) == [ALPHABET[Value(pending) * Pow2(5 - |pending|)]]
  {
    hide Value;
    Last5(pending);
    Pow2Add(|pending|, 5 - |pending|);
    Powers();
    Shifted(value, Pow2(|pending|), Pow2(5 - |pending|), Value(pending));
    ModOfMod(value * Pow2(5 - |pending|), 0x800_0000, 32);
  }

  lemma SpelledStep(input: string, i: nat)
    requires i < |input|
    ensures
      var code := Position(Upper(input[i]), 0);
      Spelled(input[i..]) == (if code.None? then [] else BitsOf(code.value, 5)) + Spelled(input[i + 1..])
  {
    assert input[i..][1..] == input[i + 1..];
  }

  lemma SpelledEnd(input: string)
    ensures Spelled(input[|input|..]) == [] && input[0..] == input
  {
  }

  method Decode(input: string) returns (out: seq<Byte>)
    ensures out == Bytes(Spelled(input))
  {
    hide Bytes, Holds, Pow2, Value, BitsOf, Upper, Position, Spelled;
    var bits, value: nat := 0, 0;
    out := [];
    ghost var pending: Bits := [];
    HoldsNothing();
    SpelledEnd(input);
    assert pending + Spelled(input) == Spelled(input);
    for i := 0 to |input|
      invariant bits == |pending| < 8 && Holds(value, pending)
      invariant Bytes(Spelled(input)) == out + Bytes(pending + Spelled(input[i..]))
    {
      ghost var rest := Spelled(input[i + 1..]);
      SpelledStep(input, i);
      var index := Position(Upper(input[i]), 0);
      if index.None? {
        assert [] + rest == rest;
        continue;
      }
      Powers();
      ShiftInHolds(value, pending, 5, index.value);
      value := ShiftIn(value, 5, index.value);
      bits := bits + 5;
      assert pending + (BitsOf(index.value, 5) + rest) == (pending + BitsOf(index.value, 5)) + rest;
      pending := pending + BitsOf(index.value, 5);
      if bits >= 8 {
        TopBits(value, pending, 8);
        BytesStep(pending, rest);
        out := out + [(value / Pow2(bits - 8)) % 256];
        bits := bits - 8;
        pending := pending[8..];
      }
    }
    SpelledEnd(input);
    assert pending + [] == pending;
    BytesEnd(pending);
  }

  lemma BytesEnd(pending: Bits)
    requires |pending| < 8
    ensures Bytes(pending) == []
  {
  }

  lemma BytesStep(pending: Bits, rest: Bits)
    requires |pending| >= 8
    ensures Value(pending[..8]) < 256
    ensures Bytes(pending + rest) == [Value(pending[..8])] + Bytes(pending[8..] + rest)
  {
    Group8(pending);
    assert (pending + rest)[..8] == pending[..8];
    assert (pending + rest)[8..] == pending[8..] + rest;
  }

  // ---- the round trip ----

  lemma LetterShape(v: Code)
    ensures ALPHABET[v] == if v < 26 then ('A' as int + v) as char else ('2' as int + (v - 26)) as char
  {
  }

  lemma {:induction false} PositionOfLetter(v: Code, i: nat)
    requires i <= v
    ensures Position(Upper(ALPHABET[v]), i) == Some(v)
    decreases v - i
  {
    LetterShape(v);
    LetterShape(i);
    if i < v {
      PositionOfLetter(v, i + 1);
    }
  }

  /** Reading the letters back spells the same bits, plus at most four zero bits. */
  lemma {:induction false} SpelledLetters(bits: Bits)
    ensures bits <= Spelled(Letters(bits))
    ensures |Spelled(Letters(bits))| < |bits| + 5
    decreases |bits|
  {
    hide Upper, Position, Value, Pow2, BitsOf;
    if bits == [] {
    } else if |bits| < 5 {
      Last5(bits);
      var v := Value(bits) * Pow2(5 - |bits|);
      PositionOfLetter(v, 0);
      assert Letters(bits)[1..] == "";
      assert Spelled(Letters(bits)) == BitsOf(v, 5) + [];
      FilledUp(bits);
    } else {
      Group5(bits);
      PositionOfLetter(Value(bits[..5]), 0);
      BitsOfValue(bits[..5]);
      assert Letters(bits)[1..] == Letters(bits[5..]);
      SpelledLetters(bits[5..]);
      assert bits == bits[..5] + bits[5..];
    }
  }

  lemma FilledUp(bits: Bits)
    requires |bits| < 5
    ensures bits <= BitsOf(Value(bits) * Pow2(5 - |bits|), 5)
  {
    hide Pow2, Value, BitsOf;
    var zeros := BitsOf(0, 5 - |bits|);
    ValueOfZero(5 - |bits|);
    ValueConcat(bits, zeros);
    BitsOfValue(bits + zeros);
  }

  lemma ValueOfZero(width: nat)
    ensures Value(BitsOf(0, width)) == 0
  {
    ValueOfBits(0, width);
  }

  /** Fewer than eight stray bits after a byte stream are dropped. */
  lemma {:induction false} BytesOfStream(raw: seq<Byte>, bits: Bits)
    requires Stream(raw) <= bits && |bits| < |Stream(raw)| + 8
    ensures Bytes(bits) == raw
  {
    if raw != [] {
      var first := BitsOf(raw[0], 8);
      assert bits[..8] == first;
      Powers();
      ValueOfBits(raw[0], 8);
      BytesOfStream(raw[1..], bits[8..]);
    }
  }

  /** Decoding what was encoded gives back every byte string. */
  lemma RoundTrip(raw: seq<Byte>)
    ensures Bytes(Spelled(Letters(Stream(raw)))) == raw
  {
    SpelledLetters(Stream(raw));
    BytesOfStream(raw, Spelled(Letters(Stream(raw))));
  }

  /** Unpadded length: one letter per started group of five bits. */
  lemma {:induction false} LettersLength(bits: Bits)
    ensures |Letters(bits)| == (|bits| + 4) / 5
    decreases |bits|
  {
    if |bits| >= 5 {
      LettersLength(bits[5..]);
    }
  }
}
