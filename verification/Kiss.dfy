/** The KISS pseudo random generator: a linear congruential, an xorshift and a
    multiply-with-carry generator, advanced together. */
module Kiss {
  import opened Bytes
  import Ring

  const B: nat := 0x1_0000_0000_0000_0000
  const A: nat := 0x400_0000_0000_0001

  /** The multiply-with-carry state. */
  datatype Mwc = Mwc(z: u64, c: u64)

  /** The value the state stands for. */
  function Value(m: Mwc): nat {
    m.c * B + m.z
  }

  /** z shifted left by 58 bits, plus the carry, before any overflow is dropped. */
  function Raw(m: Mwc): nat {
    m.z % 64 * 0x400_0000_0000_0000 + m.c
  }

  /** One step in 64-bit arithmetic. */
  function StepMwc(build: Build, m: Mwc): Outcome<Mwc> {
    if Raw(m) >= B && build.Checked? then Panic
    else
      var t := Raw(m) % B;
      var z := (m.z + t) % B;
      Ok(Mwc(z, m.z / 64 + if z < t then 1 else 0))
  }

  /** A 64-bit word after one possible overflow. */
  lemma Wrapped(x: nat)
    requires x < 2 * B
    ensures x % B == if x < B then x else x - B
  {}

  lemma Decomposed(m: Mwc)
    ensures A * m.z + m.c == B * (m.z / 64) + Raw(m) + m.z
    ensures Raw(m) < 2 * B
  {
    assert m.z == 64 * (m.z / 64) + m.z % 64;
  }

  /** Every step leaves a carry of at most 2^58. It is exact, c' * 2^64 + z' = (2^58 + 1) * z + c,
      if and only if the shifted word plus the carry does not overflow; a checked build panics
      exactly when it does. */
  lemma StepExactly(build: Build, m: Mwc)
    ensures StepMwc(build, m).Ok? <==> build.Wrapping? || Raw(m) < B
    ensures StepMwc(build, m).Ok? ==>
              && StepMwc(build, m).value.c < A
              && (Value(StepMwc(build, m).value) == A * m.z + m.c <==> Raw(m) < B)
  {
    Decomposed(m);
    Wrapped(Raw(m));
    var t := Raw(m) % B;
    Wrapped(m.z + t);
  }

  /** With a carry below the multiplier, only z mod 64 = 63 with c = 2^58 overflows. */
  lemma OverflowIff(m: Mwc)
    requires m.c < A
    ensures Raw(m) >= B <==> m.z % 64 == 63 && m.c == A - 1
  {}

  /** The state that overflows is one step away from a state without carry. */
  lemma OverflowReached(build: Build)
    ensures Raw(Mwc(B - 1, 0)) < B && StepMwc(build, Mwc(B - 1, 0)).Ok?
    ensures Raw(StepMwc(build, Mwc(B - 1, 0)).value) >= B
  {
    var m := Mwc(B - 1, 0);
    Wrapped(Raw(m));
    Wrapped(m.z + Raw(m));
  }

  // ---- Multiply-with-carry as modular multiplication ----

  const MODULUS: nat := A * B - 1

  lemma ModulusIs()
    ensures A * B == MODULUS + 1
  {}

  /** An exact step multiplies the value by 2^58 + 1 modulo (2^58 + 1) * 2^64 - 1, and is undone
      by multiplying with 2^64. */
  lemma StepMultiplies(m: Mwc, m': Mwc)
    requires Value(m') == A * m.z + m.c
    ensures A * Value(m) == Value(m') + MODULUS * m.c
    ensures B * Value(m') == Value(m) + MODULUS * m.z
  {
    ModulusIs();
  }

  /** The state after k steps; Panic if one of them overflowed in a checked build. */
  function Steps(build: Build, m: Mwc, k: nat): Outcome<Mwc> {
    if k == 0 then Ok(m)
    else (match Steps(build, m, k - 1) case Ok(n) => StepMwc(build, n) case _ => Panic)
  }

  /** None of the first k steps overflows. */
  predicate Exact(build: Build, m: Mwc, k: nat) {
    k == 0 || (Exact(build, m, k - 1) && Steps(build, m, k - 1).Ok? && Raw(Steps(build, m, k - 1).value) < B)
  }

  function Power(k: nat): nat {
    if k == 0 then 1 else A * Power(k - 1)
  }

  /** k steps without overflow multiply the value by (2^58 + 1)^k modulo (2^58 + 1) * 2^64 - 1. */
  lemma {:induction false} StepsMultiply(build: Build, m: Mwc, k: nat) returns (q: nat)
    requires Exact(build, m, k)
    ensures Steps(build, m, k).Ok?
    ensures Power(k) * Value(m) == Value(Steps(build, m, k).value) + MODULUS * q
  {
    if k == 0 {
      q := 0;
    } else {
      var p := StepsMultiply(build, m, k - 1);
      var n := Steps(build, m, k - 1).value;
      StepExactly(build, n);
      StepMultiplies(n, StepMwc(build, n).value);
      q := A * p + n.c;
      Scaled(Power(k - 1), Value(m), Value(n), p, Value(StepMwc(build, n).value), n.c);
    }
  }

  lemma Scaled(pow: nat, v: nat, w: nat, p: nat, w': nat, c: nat)
    requires pow * v == w + MODULUS * p && A * w == w' + MODULUS * c
    ensures (A * pow) * v == w' + MODULUS * (A * p + c)
  {
    assert (A * pow) * v == A * (pow * v);
    assert A * (w + MODULUS * p) == A * w + MODULUS * (A * p);
  }

  // ---- The three generators together ----

  const MULTIPLIER: nat := 6906969069
  const INCREMENT: nat := 1234567

  function StepLcg(x: u64): u64 {
    (MULTIPLIER * x % B + INCREMENT) % B
  }

  /** A 64-bit word as its bits, the least significant first. */
  type Word = w: seq<bool> | |w| == 64 witness seq(64, _ => false)

  function ToNat(bits: seq<bool>): nat {
    if bits == [] then 0 else (if bits[0] then 1 else 0) + 2 * ToNat(bits[1..])
  }

  /** w ^ (w << k) */
  function XorLeft(w: Word, k: nat): Word {
    seq(64, i requires 0 <= i < 64 => w[i] != (i >= k && w[i - k]))
  }

  /** w ^ (w >> k) */
  function XorRight(w: Word, k: nat): Word {
    seq(64, i requires 0 <= i < 64 => w[i] != (i + k < 64 && w[i + k]))
  }

  function StepXorshift(y: Word): Word {
    XorLeft(XorRight(XorLeft(y, 13), 17), 43)
  }

  datatype State = State(x: u64, y: Word, m: Mwc)

  /** The state after one call of `rand`. */
  function Next(build: Build, s: State): Outcome<State> {
    match StepMwc(build, s.m)
    case Ok(m) => Ok(State(StepLcg(s.x), StepXorshift(s.y), m))
    case _ => Panic
  }

  class Kiss {
    var x: u64
    var y: Word
    var z: u64
    var c: u64

    ghost function View(): State
      reads this
    {
      State(x, y, Mwc(z, c))
    }

    constructor (seed: u64, y: Word, z: u64, c: u64)
      ensures View() == State(seed, y, Mwc(z, c))
    {
      this.x, this.y, this.z, this.c := seed, y, z, c;
    }

    /** The multiply-with-carry part; false stands for an overflow panic. */
    method AdvanceMwc(build: Build) returns (alive: bool)
      modifies this`z, this`c
      ensures alive <==> StepMwc(build, old(Mwc(z, c))).Ok?
      ensures alive ==> Mwc(z, c) == StepMwc(build, old(Mwc(z, c))).value
    {
      var shifted: nat := z % 64 * 0x400_0000_0000_0000;
      if shifted + c >= B && build.Checked? { return false; }
      var t: nat := (shifted + c) % B;
      c := z / 64;
      z := (z + t) % B;
      c := c + if z < t then 1 else 0;
      return true;
    }

    method AdvanceXorshift()
      modifies this`y
      ensures y == StepXorshift(old(y))
    {
      y := XorLeft(y, 13);
      y := XorRight(y, 17);
      y := XorLeft(y, 43);
    }

    /** The next number, and the state it leaves. */
    method Rand(build: Build) returns (alive: bool, r: u64)
      modifies this
      ensures alive <==> Next(build, old(View())).Ok?
      ensures alive ==> View() == Next(build, old(View())).value && r == (x + ToNat(y) + z) % 0x1_0000_0000_0000_0000
    {
      x := StepLcg(x);
      AdvanceXorshift();
      alive := AdvanceMwc(build);
      r := Mixed();
    }

    /** The sum of the three words, in 64-bit arithmetic. */
    method Mixed() returns (r: u64)
      ensures r == (x + ToNat(y) + z) % 0x1_0000_0000_0000_0000
    {
      r := (x + ToNat(y) + z) % B;
    }
  }

  // ---- No two states have the same successor ----

  const INVERSE: nat := 8575357931815410149
  const QUOTIENT: nat := 3210850205

  lemma LcgInjective(x: u64, x': u64)
    requires StepLcg(x) == StepLcg(x')
    ensures x == x'
  {
    LcgUndone(x);
    LcgUndone(x');
  }

  /** The linear congruential step can be undone: its multiplier is odd. */
  lemma LcgUndone(x: u64)
    ensures INVERSE * (StepLcg(x) + B - INCREMENT) % B == x
  {
    assert INVERSE * MULTIPLIER == QUOTIENT * B + 1;
    var k := MULTIPLIER * x / B;
    var w := MULTIPLIER * x - B * k;
    assert w == MULTIPLIER * x % B;
    Wrapped(w + INCREMENT);
    var j := if w + INCREMENT < B then 1 else 0;
    assert StepLcg(x) + B - INCREMENT == w + B * j;
    assert INVERSE * (w + B * j) == x + B * (QUOTIENT * x - INVERSE * k + INVERSE * j);
    Multiple(x, QUOTIENT * x - INVERSE * k + INVERSE * j);
  }

  lemma Multiple(x: u64, q: int)
    ensures (x + B * q) % B == x
  {}

  lemma {:induction false} LeftBitsAgree(v: Word, w: Word, k: nat, i: nat)
    requires k > 0 && i < 64 && XorLeft(v, k) == XorLeft(w, k)
    ensures v[i] == w[i]
  {
    assert XorLeft(v, k)[i] == XorLeft(w, k)[i];
    if i >= k { LeftBitsAgree(v, w, k, i - k); }
  }

  lemma {:induction false} RightBitsAgree(v: Word, w: Word, k: nat, i: nat)
    requires k > 0 && i < 64 && XorRight(v, k) == XorRight(w, k)
    ensures v[i] == w[i]
    decreases 64 - i
  {
    assert XorRight(v, k)[i] == XorRight(w, k)[i];
    if i + k < 64 { RightBitsAgree(v, w, k, i + k); }
  }

  lemma XorshiftInjective(v: Word, w: Word)
    requires StepXorshift(v) == StepXorshift(w)
    ensures v == w
  {
    var v1, w1 := XorLeft(v, 13), XorLeft(w, 13);
    var v2, w2 := XorRight(v1, 17), XorRight(w1, 17);
    forall i: nat | i < 64 ensures v2[i] == w2[i] { LeftBitsAgree(v2, w2, 43, i); }
    assert v2 == w2;
    forall i: nat | i < 64 ensures v1[i] == w1[i] { RightBitsAgree(v1, w1, 17, i); }
    assert v1 == w1;
    forall i: nat | i < 64 ensures v[i] == w[i] { LeftBitsAgree(v, w, 13, i); }
  }

  const ZERO: Word := seq(64, _ => false)

  /** The xorshift word never becomes zero from a nonzero one. */
  lemma XorshiftStaysNonzero(y: Word)
    ensures StepXorshift(y) == ZERO <==> y == ZERO
  {
    assert StepXorshift(ZERO) == ZERO by {
      assert XorLeft(ZERO, 13) == ZERO && XorRight(ZERO, 17) == ZERO && XorLeft(ZERO, 43) == ZERO;
    }
    if StepXorshift(y) == ZERO { XorshiftInjective(y, ZERO); }
  }

  /** Exact steps lead to the same value only from the same state. */
  lemma MwcInjective(m: Mwc, n: Mwc)
    requires m.c < A && n.c < A && A * m.z + m.c == A * n.z + n.c
    ensures m == n
  {
    assert A * (m.z - n.z) == n.c - m.c;
  }

  /** The generator never merges two of its states: where `rand` does not overflow, different
      states have different successors. A carry is below 2^58 + 1 after the first call. */
  lemma StatesNeverMerge(build: Build, s: State, t: State)
    requires s.m.c < A && t.m.c < A && Raw(s.m) < B && Raw(t.m) < B
    requires Next(build, s).Ok? && Next(build, s) == Next(build, t)
    ensures s == t
  {
    LcgInjective(s.x, t.x);
    XorshiftInjective(s.y, t.y);
    StepExactly(build, s.m);
    StepExactly(build, t.m);
    MwcInjective(s.m, t.m);
  }

  // ---- In arithmetic ----

  /** Bitwise exclusive or of natural numbers. */
  function Xor(a: nat, b: nat): nat {
    if a == 0 && b == 0 then 0 else (a + b) % 2 + 2 * Xor(a / 2, b / 2)
  }

  function TwoTo(k: nat): (p: nat)
    ensures p > 0
  {
    if k == 0 then 1 else 2 * TwoTo(k - 1)
  }

  function XorBits(v: seq<bool>, w: seq<bool>): seq<bool>
    requires |v| == |w|
  {
    seq(|v|, i requires 0 <= i < |v| => v[i] != w[i])
  }

  lemma {:induction false} XorOfBits(v: seq<bool>, w: seq<bool>)
    requires |v| == |w|
    ensures ToNat(XorBits(v, w)) == Xor(ToNat(v), ToNat(w))
  {
    if v != [] {
      XorOfBits(v[1..], w[1..]);
      assert XorBits(v, w)[1..] == XorBits(v[1..], w[1..]);
      XorStep(if v[0] then 1 else 0, if w[0] then 1 else 0, ToNat(v[1..]), ToNat(w[1..]));
    }
  }

  lemma XorStep(a: nat, b: nat, m: nat, n: nat)
    requires a <= 1 && b <= 1
    ensures Xor(a + 2 * m, b + 2 * n) == (if a == b then 0 else 1) + 2 * Xor(m, n)
  {
    assert (a + 2 * m) / 2 == m && (b + 2 * n) / 2 == n;
    assert (a + 2 * m + (b + 2 * n)) % 2 == (a + b) % 2;
  }

  lemma Doubled(p: nat, n: nat)
    ensures (2 * p) * n == 2 * (p * n)
  {}

  lemma {:induction false} NatOfConcat(v: seq<bool>, w: seq<bool>)
    ensures ToNat(v + w) == ToNat(v) + TwoTo(|v|) * ToNat(w)
  {
    if v == [] {
      assert v + w == w;
    } else {
      NatOfConcat(v[1..], w);
      assert (v + w)[1..] == v[1..] + w;
      Doubled(TwoTo(|v| - 1), ToNat(w));
    }
  }

  lemma {:induction false} NatBound(v: seq<bool>)
    ensures ToNat(v) < TwoTo(|v|)
  {
    if v != [] { NatBound(v[1..]); }
  }

  lemma {:induction false} NatOfClear(n: nat)
    ensures ToNat(seq(n, _ => false)) == 0
  {
    if n > 0 {
      assert seq(n, _ => false)[1..] == seq(n - 1, _ => false);
      NatOfClear(n - 1);
    }
  }

  lemma {:induction false} TwoToSum(j: nat, k: nat)
    ensures TwoTo(j + k) == TwoTo(j) * TwoTo(k)
  {
    if j > 0 {
      TwoToSum(j - 1, k);
      Doubled(TwoTo(j - 1), TwoTo(k));
    }
  }

  /** The bits of w << k. */
  function Left(w: Word, k: nat): Word
    requires k <= 64
  {
    seq(k, _ => false) + w[..64 - k]
  }

  /** The bits of w >> k. */
  function Right(w: Word, k: nat): Word
    requires k <= 64
  {
    w[k..] + seq(k, _ => false)
  }

  lemma Remainder(x: nat, q: nat, r: nat, n: nat)
    requires x == n * q + r && r < n
    ensures x % n == r && x / n == q
  {
    Ring.UniqueModulo(n, x, q, r);
    if x / n < q { Ring.Laps(n, x / n, q); } else if q < x / n { Ring.Laps(n, q, x / n); }
  }

  lemma LeftParts(w: Word, k: nat, low: nat, high: nat)
    requires k <= 64 && low == ToNat(w[..64 - k]) && high == ToNat(w[64 - k..])
    ensures ToNat(w) == low + TwoTo(64 - k) * high && ToNat(Left(w, k)) == TwoTo(k) * low < TwoTo(64)
  {
    assert w == w[..64 - k] + w[64 - k..];
    NatOfConcat(w[..64 - k], w[64 - k..]);
    NatOfConcat(seq(k, _ => false), w[..64 - k]);
    NatOfClear(k);
    NatBound(Left(w, k));
  }

  lemma LeftIsTimes(w: Word, k: nat)
    requires k <= 64
    ensures ToNat(Left(w, k)) == ToNat(w) * TwoTo(k) % TwoTo(64)
  {
    var low, high := ToNat(w[..64 - k]), ToNat(w[64 - k..]);
    LeftParts(w, k, low, high);
    TwoToSum(64 - k, k);
    ShiftCuts(low, high, TwoTo(64 - k), TwoTo(k), TwoTo(64), ToNat(w));
  }

  lemma ShiftCuts(low: nat, high: nat, p: nat, q: nat, n: nat, w: nat)
    requires w == low + p * high && n == p * q && q * low < n
    ensures w * q % n == q * low
  {
    ShiftedOut(low, high, p, q, w);
    Remainder(w * q, high, q * low, n);
  }

  lemma ShiftedOut(low: nat, high: nat, p: nat, q: nat, w: nat)
    requires w == low + p * high
    ensures w * q == (p * q) * high + q * low
  {
    assert (p * high) * q == (p * q) * high;
  }

  lemma RightIsDivision(w: Word, k: nat)
    requires k <= 64
    ensures ToNat(Right(w, k)) == ToNat(w) / TwoTo(k)
  {
    assert w == w[..k] + w[k..];
    NatOfConcat(w[..k], w[k..]);
    NatBound(w[..k]);
    NatOfConcat(w[k..], seq(k, _ => false));
    NatOfClear(k);
    Remainder(ToNat(w), ToNat(w[k..]), ToNat(w[..k]), TwoTo(k));
  }

  lemma XorLeftIs(w: Word, k: nat)
    requires k <= 64
    ensures ToNat(XorLeft(w, k)) == Xor(ToNat(w), ToNat(w) * TwoTo(k) % TwoTo(64))
  {
    assert XorLeft(w, k) == XorBits(w, Left(w, k));
    XorOfBits(w, Left(w, k));
    LeftIsTimes(w, k);
  }

  lemma XorRightIs(w: Word, k: nat)
    requires k <= 64
    ensures ToNat(XorRight(w, k)) == Xor(ToNat(w), ToNat(w) / TwoTo(k))
  {
    assert XorRight(w, k) == XorBits(w, Right(w, k));
    XorOfBits(w, Right(w, k));
    RightIsDivision(w, k);
  }

  lemma TwoTos()
    ensures TwoTo(13) == 0x2000 && TwoTo(17) == 0x2_0000 && TwoTo(43) == 0x800_0000_0000 && TwoTo(64) == B
  {
    assert TwoTo(1) == 2 && TwoTo(2) == 4;
    TwoToSum(1, 2);
    TwoToSum(2, 2);
    TwoToSum(4, 1);
    TwoToSum(4, 4);
    TwoToSum(8, 5);
    TwoToSum(8, 8);
    TwoToSum(16, 1);
    TwoToSum(16, 16);
    TwoToSum(32, 32);
    TwoToSum(8, 3);
    TwoToSum(32, 11);
  }

  /** The xorshift step on numbers: shifts by 13, 17 and 43 in 64-bit arithmetic. */
  lemma XorshiftIs(y: Word)
    ensures var n := ToNat(y);
            var a := Xor(n, n * 0x2000 % 0x1_0000_0000_0000_0000);
            var b := Xor(a, a / 0x2_0000);
            ToNat(StepXorshift(y)) == Xor(b, b * 0x800_0000_0000 % 0x1_0000_0000_0000_0000)
  {
    TwoTos();
    var y1 := XorLeft(y, 13);
    var y2 := XorRight(y1, 17);
    XorLeftIs(y, 13);
    XorRightIs(y1, 17);
    XorLeftIs(y2, 43);
  }

  /** The linear congruential step, without intermediate wrapping. */
  lemma LcgIs(x: u64)
    ensures StepLcg(x) == (6906969069 * x + 1234567) % 0x1_0000_0000_0000_0000
  {
    var q, r := MULTIPLIER * x / B, MULTIPLIER * x % B;
    Wrapped(r + INCREMENT);
    var j := if r + INCREMENT < B then 0 else 1;
    Remainder(MULTIPLIER * x + INCREMENT, q + j, r + INCREMENT - B * j, B);
  }
}
