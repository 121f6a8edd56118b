/**
  Punycode (RFC 3492): an encoder and a decoder for strings of code points.
 */
module Punycode {
  import opened Sequences

  const MAX_INT: nat := 2147483647
  const MAX_CODE_POINT: nat := 0x10FFFF
  const DELIMITER: nat := 45

  datatype Failure = Overflow | NotBasic | InvalidInput | BadCodePoint

  datatype Result<+T> = Ok(value: T) | Failed(failure: Failure) {
    predicate IsFailure() {
      Failed?
    }

    function PropagateFailure<U>(): Result<U>
      requires Failed?
    {
      Failed(failure)
    }

    function Extract(): T
      requires Ok?
    {
      value
    }
  }

  // ---------------------------------------------------------------- digits (section 5 of RFC 3492)

  /** The value of a basic code point as a digit; 36 if it is none. */
  function DigitOf(c: nat): nat {
    if 48 <= c < 58 then 26 + (c - 48)
    else if 65 <= c < 91 then c - 65
    else if 97 <= c < 123 then c - 97
    else 36
  }

  /** The basic code point, in lower case, for a digit. */
  function UnitOf(digit: nat): nat {
    digit + 22 + if digit < 26 then 75 else 0
  }

  lemma DigitRoundTrip(digit: nat)
    requires digit < 36
    ensures DigitOf(UnitOf(digit)) == digit && UnitOf(digit) != DELIMITER && UnitOf(digit) < 128 && !(65 <= UnitOf(digit) <= 90)
  {
  }

  // ---------------------------------------------------------------- bias adaptation (section 6.1)
  // Base 36, thresholds from 1 to 26, skew 38, damping 700.

  function Settle(delta: nat, k: nat): nat
    decreases delta
  {
    if delta > 455 then Settle(delta / 35, k + 36) else k + 36 * delta / (delta + 38)
  }

  /** `a / b` for a positive `b`. */
  function Div(a: nat, b: nat): (q: nat)
    requires b > 0
    ensures q * b <= a < (q + 1) * b
  {
    DivBounds(a, b);
    a / b
  }

  lemma DivBounds(a: nat, b: nat)
    requires b > 0
    ensures 0 <= a / b && (a / b) * b <= a < (a / b + 1) * b
  {
    assert a == (a / b) * b + a % b;
  }

  function Adapt(delta: nat, points: nat, first: bool): nat
    requires points > 0
  {
    var damped := if first then delta / 700 else delta / 2;
    Settle(damped + Div(damped, points), 0)
  }

  method AdaptBias(delta: nat, points: nat, first: bool) returns (bias: nat)
    requires points > 0
    ensures bias == Adapt(delta, points, first)
  {
    hide Div;
    var d: nat := if first then delta / 700 else delta / 2;
    d := d + Div(d, points);
    ghost var d0 := d;
    var k: nat := 0;
    while d > 455
      invariant Settle(d, k) == Settle(d0, 0)
    {
      d := d / 35;
      k := k + 36;
    }
    return k + 36 * d / (d + 38);
  }

  /** After at most five divisions what is left is small. */
  lemma SettleBound(delta: nat, k: nat)
    requires delta <= 2 * MAX_INT
    ensures Settle(delta, k) <= k + 213
  {
    var d1, d2 := delta / 35, delta / 35 / 35;
    var d3 := d2 / 35;
    var d4 := d3 / 35;
    var d5 := d4 / 35;
    assert d5 <= 455;
    SettleOnce(delta, k);
    SettleOnce(d1, k + 36);
    SettleOnce(d2, k + 72);
    SettleOnce(d3, k + 108);
    SettleOnce(d4, k + 144);
    SettleOnce(d5, k + 180);
  }

  lemma SettleOnce(delta: nat, k: nat)
    ensures Settle(delta, k) == if delta > 455 then Settle(delta / 35, k + 36) else k + 36 * delta / (delta + 38)
    ensures delta <= 455 ==> Settle(delta, k) <= k + 33
  {
    if delta <= 455 {
      SmallShare(delta);
    }
  }

  lemma SmallShare(delta: nat)
    requires delta <= 455
    ensures 36 * delta / (delta + 38) <= 33
  {
    if 36 * delta / (delta + 38) >= 34 {
      DivMod(36 * delta, delta + 38);
      MulMonotone(34, Div(36 * delta, delta + 38), delta + 38);
    }
  }

  /** No bias is ever large enough for the thresholds to be low past the sixth digit. */
  const MAX_BIAS: nat := 226

  lemma AdaptBound(delta: nat, points: nat, first: bool)
    requires points > 0 && delta <= MAX_INT
    ensures Adapt(delta, points, first) <= MAX_BIAS
  {
    hide Settle, Div;
    var damped := if first then delta / 700 else delta / 2;
    QuotientLess(damped, points);
    SettleBound(damped + Div(damped, points), 0);
  }

  lemma QuotientLess(a: nat, b: nat)
    requires b > 0
    ensures Div(a, b) <= a
  {
    if Div(a, b) > 0 {
      MulAtLeast(b, Div(a, b));
    }
  }

  /** The first delta counts a seven-hundredth, where each later one counts half. */
  lemma FirstIsDamped(delta: nat, points: nat)
    requires points > 0
    ensures Adapt(delta, points, true) == Adapt(2 * (delta / 700), points, false)
  {
    assert 2 * (delta / 700) / 2 == delta / 700;
  }

  function PowerOf35(j: nat): (p: nat)
    ensures p > 0
  {
    if j == 0 then 1 else 35 * PowerOf35(j - 1)
  }

  /** Divided by 35 for the `j`th time a delta is at most 455, and not before. */
  ghost predicate SettlesAfter(delta: nat, j: nat) {
    Div(delta, PowerOf35(j)) <= 455 && (j > 0 ==> Div(delta, PowerOf35(j - 1)) > 455)
  }

  /** The bias of section 6.1: 36 for every division by 35 that it takes, and a share of 36 by what is left then. */
  lemma BiasIs(delta: nat, points: nat, j: nat)
    requires points > 0 && SettlesAfter(delta / 2 + Div(delta / 2, points), j)
    ensures var rest := Div(delta / 2 + Div(delta / 2, points), PowerOf35(j));
            Adapt(delta, points, false) == 36 * j + 36 * rest / (rest + 38)
  {
    hide Settle, Div, SettlesAfter;
    SettleIs(delta / 2 + Div(delta / 2, points), 0, j);
  }

  lemma {:induction false} SettleIs(delta: nat, k: nat, j: nat)
    requires SettlesAfter(delta, j)
    ensures var rest := Div(delta, PowerOf35(j));
            Settle(delta, k) == k + 36 * j + 36 * rest / (rest + 38)
    decreases j
  {
    hide Div, Settle;
    SettleOnce(delta, k);
    if j == 0 {
      DivOne(delta);
    } else {
      QuotientLess(delta, PowerOf35(j - 1));
      DivTwice(delta, PowerOf35(j - 1));
      if j > 1 {
        DivTwice(delta, PowerOf35(j - 2));
      }
      SettleIs(delta / 35, k + 36, j - 1);
    }
  }

  lemma DivOne(delta: nat)
    ensures Div(delta, 1) == delta
  {
  }

  lemma DivTwice(delta: nat, p: nat)
    requires p > 0
    ensures Div(delta / 35, p) == Div(delta, 35 * p)
  {
    var q, a, b := delta / 35, Div(delta / 35, p), Div(delta, 35 * p);
    Times35(a, p);
    Times35(a + 1, p);
    Between(a, b, 35 * p, delta) by {
      hide Div;
      assert 35 * (a * p) <= 35 * q && 35 * (q + 1) <= 35 * ((a + 1) * p);
    }
  }

  lemma Times35(a: nat, p: nat)
    ensures a * (35 * p) == 35 * (a * p)
  {
  }

  lemma Between(a: nat, b: nat, p: nat, d: nat)
    requires p > 0 && a * p <= d < (a + 1) * p && b * p <= d < (b + 1) * p
    ensures a == b
  {
    if a < b {
      MulMonotone(a + 1, b, p);
    } else if b < a {
      MulMonotone(b + 1, a, p);
    }
  }

  /** A delta no larger than the number of points does not see how many points there are. */
  lemma AdaptIgnoresPoints(delta: nat, p: nat, q: nat)
    requires delta < p && delta < q
    ensures Adapt(delta, p, false) == Adapt(delta, q, false)
  {
    hide Div, Settle;
    SmallQuotient(delta / 2, p);
    SmallQuotient(delta / 2, q);
  }

  lemma SmallQuotient(a: nat, b: nat)
    requires a < b
    ensures Div(a, b) == 0
  {
    if Div(a, b) >= 1 {
      MulAtLeast(Div(a, b), b);
    }
  }

  lemma MulAtLeast(q: nat, b: nat)
    requires q >= 1
    ensures q * b >= b
  {
    assert q * b == b + (q - 1) * b;
  }

  // ---------------------------------------------------------------- variable-length integers (sections 6.2 and 6.3)

  function Threshold(k: nat, bias: nat): (t: nat)
    ensures 1 <= t <= 26
  {
    if k <= bias then 1 else if k >= bias + 26 then 26 else k - bias
  }

  /** An integer that does not fit one digit: the digit to write, and what is left to write. */
  function LowDigit(q: nat, t: nat): (d: nat)
    requires 1 <= t <= 26 && t <= q
    ensures t <= d < 36
  {
    DigitSplit(q, t);
    t + (q - t) % (36 - t)
  }

  function HighPart(q: nat, t: nat): (h: nat)
    requires 1 <= t <= 26 && t <= q
    ensures h < q
  {
    DigitSplit(q, t);
    Div(q - t, 36 - t)
  }

  lemma DigitSplit(q: nat, t: nat)
    requires 1 <= t <= 26 && t <= q
    ensures 0 <= (q - t) % (36 - t) < 36 - t
    ensures Div(q - t, 36 - t) < q
    ensures t + (q - t) % (36 - t) + Div(q - t, 36 - t) * (36 - t) == q
  {
    var b := 36 - t;
    DivMod(q - t, b);
    if Div(q - t, b) > 0 {
      MulAtLeast(b, Div(q - t, b));
    }
  }

  lemma DivMod(a: nat, b: nat)
    requires b > 0
    ensures 0 <= a % b < b && Div(a, b) * b + a % b == a
  {
  }

  /** The digits of an integer, least significant first. */
  function Digits(q: nat, k: nat, bias: nat): (ds: seq<nat>)
    ensures |ds| > 0
    decreases q
  {
    var t := Threshold(k, bias);
    if q < t then [UnitOf(q)]
    else [UnitOf(LowDigit(q, t))] + Digits(HighPart(q, t), k + 36, bias)
  }

  /** Reads an integer, added to `i`, and where it ends. */
  function Read(units: seq<nat>, pos: nat, i: nat, w: nat, k: nat, bias: nat): (r: Result<(nat, nat)>)
    requires pos <= |units| && w > 0
    ensures r.Ok? ==> pos < r.value.1 <= |units|
    decreases |units| - pos
  {
    if pos >= |units| then Failed(InvalidInput)
    else ReadDigit(DigitOf(units[pos]), units, pos, i, w, k, bias)
  }

  function ReadDigit(digit: nat, units: seq<nat>, pos: nat, i: nat, w: nat, k: nat, bias: nat): (r: Result<(nat, nat)>)
    requires pos < |units| && w > 0
    ensures r.Ok? ==> pos < r.value.1 <= |units|
    decreases |units| - pos, 0
  {
    var t := Threshold(k, bias);
    if digit >= 36 then Failed(InvalidInput)
    else if i > MAX_INT || digit > Div(MAX_INT - i, w) then Failed(Overflow)
    else if digit < t then Ok((i + digit * w, pos + 1))
    else if w > Div(MAX_INT, 36 - t) then Failed(Overflow)
    else
      Product(w, 36 - t);
      Read(units, pos + 1, i + digit * w, w * (36 - t), k + 36, bias)
  }

  lemma Product(a: nat, b: nat)
    requires a > 0 && b > 0
    ensures a * b > 0
  {
  }

  lemma DigitSum(q: nat, t: nat, w: nat)
    requires 1 <= t <= 26 && t <= q
    ensures LowDigit(q, t) * w + HighPart(q, t) * (w * (36 - t)) == q * w
  {
    hide Div;
    DigitSplit(q, t);
    var x, y, b := HighPart(q, t), LowDigit(q, t), 36 - t;
    assert y + x * b == q;
    assert x * (w * b) == (x * b) * w;
    assert y * w + (x * b) * w == (y + x * b) * w;
  }

  /** How large the weight of a digit can be, up to the sixth. */
  function Weight(k: nat): nat {
    if k <= 36 then 1 else if k <= 72 then 35 else if k <= 108 then 1225
    else if k <= 144 then 42875 else if k <= 180 then 1500625 else 52521875
  }

  predicate Weighs(w: nat, k: nat) {
    w > 0 && k >= 36 && k % 36 == 0 && (k <= 216 ==> w <= Weight(k))
  }

  lemma WeighsNext(w: nat, k: nat, t: nat)
    requires Weighs(w, k) && 1 <= t <= 26
    ensures Weighs(w * (36 - t), k + 36) && w * (36 - t) <= 35 * w
  {
    Product(w, 36 - t);
    assert w * (36 - t) == 36 * w - w * t && w * t >= w;
    if k <= 180 {
      assert k == 36 || k == 72 || k == 108 || k == 144 || k == 180;
    }
  }

  /** No digit that goes on makes the weight pass the limit, as long as the integer does not. */
  lemma WeightFits(w: nat, k: nat, bias: nat, q: nat)
    requires Weighs(w, k) && bias <= MAX_BIAS
    requires var t := Threshold(k, bias); t <= q && q * w <= MAX_INT
    ensures w <= Div(MAX_INT, 36 - Threshold(k, bias))
  {
    hide Div;
    var t := Threshold(k, bias);
    if t < 26 {
      assert k <= 216;
      WeighsNext(w, k, t);
    } else {
      MulMonotone(26, q, w);
    }
    assert w * (36 - t) <= MAX_INT;
    DivFits(w, 36 - t, 0);
  }

  /** Reading back what was written gives the integer exactly when it fits. */
  lemma {:induction false} ReadDigits(q: nat, units: seq<nat>, pos: nat, i: nat, w: nat, k: nat, bias: nat)
    requires Weighs(w, k) && bias <= MAX_BIAS && pos + |Digits(q, k, bias)| <= |units|
    requires units[pos..pos + |Digits(q, k, bias)|] == Digits(q, k, bias)
    ensures Read(units, pos, i, w, k, bias) ==
            if i + q * w <= MAX_INT then Ok((i + q * w, pos + |Digits(q, k, bias)|)) else Failed(Overflow)
    decreases q
  {
    hide Div, LowDigit, HighPart, DigitOf, UnitOf, Weighs, ReadDigit;
    var t := Threshold(k, bias);
    var ds := Digits(q, k, bias);
    assert units[pos] == ds[0];
    WeighsPositive(w, k);
    if q < t {
      DigitRoundTrip(q);
      LastDigit(q, units, pos, i, w, k, bias);
    } else {
      var d, h := LowDigit(q, t), HighPart(q, t);
      DigitRoundTrip(d);
      assert ds[1..] == Digits(h, k + 36, bias);
      assert units[pos + 1..pos + |ds|] == ds[1..];
      WeighsNext(w, k, t);
      WeighsPositive(w * (36 - t), k + 36);
      ReadDigits(h, units, pos + 1, i + d * w, w * (36 - t), k + 36, bias);
      FirstDigit(q, units, pos, i, w, k, bias);
    }
  }

  lemma LastDigit(q: nat, units: seq<nat>, pos: nat, i: nat, w: nat, k: nat, bias: nat)
    requires pos < |units| && w > 0 && q < Threshold(k, bias)
    ensures ReadDigit(q, units, pos, i, w, k, bias) ==
            if i + q * w <= MAX_INT then Ok((i + q * w, pos + 1)) else Failed(Overflow)
  {
    hide Div, Read, Threshold;
    assert Threshold(k, bias) <= 26;
    if i <= MAX_INT {
      DivExactly(q, w, i);
    } else {
      MulNat(q, w);
    }
  }

  /** With a digit that goes on, what the rest is read as decides. */
  lemma FirstDigit(q: nat, units: seq<nat>, pos: nat, i: nat, w: nat, k: nat, bias: nat)
    requires pos < |units| && Weighs(w, k) && w > 0 && bias <= MAX_BIAS && Threshold(k, bias) <= q
    requires w * (36 - Threshold(k, bias)) > 0
    ensures var t := Threshold(k, bias);
            var d, h := LowDigit(q, t), HighPart(q, t);
            var v := w * (36 - t);
            && i + d * w + h * v == i + q * w
            && (i + q * w <= MAX_INT ==> ReadDigit(d, units, pos, i, w, k, bias) == Read(units, pos + 1, i + d * w, v, k + 36, bias))
            && (Read(units, pos + 1, i + d * w, v, k + 36, bias) == Failed(Overflow) ==>
                  ReadDigit(d, units, pos, i, w, k, bias) == Failed(Overflow))
  {
    hide Div, Read, Threshold, LowDigit, HighPart, Weighs;
    var t := Threshold(k, bias);
    var d, h := LowDigit(q, t), HighPart(q, t);
    DigitSum(q, t, w);
    LowFits(i, q, d, h, w, t);
    if i + q * w <= MAX_INT {
      WeightFits(w, k, bias, q);
    }
  }

  lemma WeighsPositive(w: nat, k: nat)
    requires Weighs(w, k)
    ensures w > 0
  {
  }

  /** If the whole integer fits, so does its low digit. */
  lemma LowFits(i: nat, q: nat, d: nat, h: nat, w: nat, t: nat)
    requires w > 0 && 1 <= t <= 26 && t <= q && d * w + h * (w * (36 - t)) == q * w
    ensures i + q * w <= MAX_INT ==> i <= MAX_INT && d <= Div(MAX_INT - i, w)
    ensures q * w >= 0
  {
    hide Div;
    MulNat(q, w);
    if i + q * w <= MAX_INT {
      MulNat(w, 36 - t);
      MulNat(h, w * (36 - t));
      DivFits(d, w, i);
    }
  }

  lemma DivExactly(q: nat, w: nat, i: nat)
    requires w > 0 && i <= MAX_INT
    ensures q <= Div(MAX_INT - i, w) <==> i + q * w <= MAX_INT
  {
    hide Div;
    if q <= Div(MAX_INT - i, w) {
      MulMonotone(q, Div(MAX_INT - i, w), w);
    } else {
      MulMonotone(Div(MAX_INT - i, w) + 1, q, w);
    }
  }

  lemma MulNat(a: nat, b: nat)
    ensures a * b >= 0
  {
  }

  lemma DivFits(q: nat, w: nat, i: nat)
    requires w > 0 && i + q * w <= MAX_INT
    ensures q <= Div(MAX_INT - i, w)
  {
  }

  // ---------------------------------------------------------------- decoding

  /** What the decoder has: the code points so far, the last one inserted, where the next search starts, the bias. */
  datatype State = State(out: seq<nat>, n: nat, i: nat, bias: nat)

  /** Inserts the code point that the counter `i` stands for. */
  function Insert(st: State, i: nat): Result<State>
    requires st.i <= i
  {
    var a := |st.out| + 1;
    var bias := Adapt(i - st.i, a, st.i == 0);
    if Div(i, a) > MAX_INT - st.n then Failed(Overflow)
    else
      DivMod(i, a);
      var n, p := st.n + Div(i, a), i % a;
      Ok(State(st.out[..p] + [n] + st.out[p..], n, p + 1, bias))
  }

  lemma {:induction false} ReadGrows(units: seq<nat>, pos: nat, i: nat, w: nat, k: nat, bias: nat)
    requires pos <= |units| && w > 0
    ensures var r := Read(units, pos, i, w, k, bias); r.Ok? ==> i <= r.value.0
    decreases |units| - pos
  {
    if pos < |units| {
      var digit, t := DigitOf(units[pos]), Threshold(k, bias);
      MulNat(digit, w);
      Product(w, 36 - t);
      ReadGrows(units, pos + 1, i + digit * w, w * (36 - t), k + 36, bias);
    }
  }

  function Run(units: seq<nat>, pos: nat, st: State): Result<State>
    requires pos <= |units|
    decreases |units| - pos
  {
    if pos == |units| then Ok(st)
    else
      var (i, end) :- Read(units, pos, st.i, 1, 36, st.bias);
      ReadGrows(units, pos, st.i, 1, 36, st.bias);
      var next :- Insert(st, i);
      Run(units, end, next)
  }

  /** The position of the last delimiter, or -1. */
  function LastDash(units: seq<nat>): (r: int)
    ensures -1 <= r < |units|
  {
    if units == [] then -1
    else if units[|units| - 1] == DELIMITER then |units| - 1
    else LastDash(units[..|units| - 1])
  }

  predicate AllBasic(units: seq<nat>) {
    forall x :: 0 <= x < |units| ==> units[x] < 128
  }

  predicate CodePoints(t: seq<nat>) {
    forall x :: 0 <= x < |t| ==> t[x] <= MAX_CODE_POINT
  }

  function Decode(units: seq<nat>): Result<seq<nat>> {
    var o := if LastDash(units) < 0 then 0 else LastDash(units);
    if !AllBasic(units[..o]) then Failed(NotBasic)
    else
      var st :- Run(units[if o > 0 then o + 1 else 0..], 0, State(units[..o], 128, 0, 72));
      if CodePoints(st.out) then Ok(st.out) else Failed(BadCodePoint)
  }

  // ---------------------------------------------------------------- reading on

  lemma {:induction false} ReadPrefix(p: seq<nat>, q: seq<nat>, pos: nat, i: nat, w: nat, k: nat, bias: nat)
    requires pos <= |p| && w > 0
    ensures var r := Read(p, pos, i, w, k, bias);
            r.Ok? || r == Failed(Overflow) ==> Read(p + q, pos, i, w, k, bias) == r
    decreases |p| - pos
  {
    hide Div, DigitOf;
    if pos < |p| {
      assert (p + q)[pos] == p[pos];
      var digit, t := DigitOf(p[pos]), Threshold(k, bias);
      MulNat(digit, w);
      Product(w, 36 - t);
      ReadPrefix(p, q, pos + 1, i + digit * w, w * (36 - t), k + 36, bias);
    }
  }

  /** What comes after complete integers is read in the state they lead to. */
  lemma {:induction false} RunPrefix(p: seq<nat>, q: seq<nat>, pos: nat, st: State)
    requires pos <= |p|
    ensures match Run(p, pos, st)
            case Ok(next) => Run(p + q, pos, st) == Run(p + q, |p|, next)
            case Failed(f) => f == Overflow ==> Run(p + q, pos, st) == Failed(Overflow)
    decreases |p| - pos
  {
    hide Read, Insert;
    if pos < |p| {
      ReadPrefix(p, q, pos, st.i, 1, 36, st.bias);
      ReadGrows(p, pos, st.i, 1, 36, st.bias);
      var r := Read(p, pos, st.i, 1, 36, st.bias);
      if r.Ok? {
        var next := Insert(st, r.value.0);
        if next.Ok? {
          RunPrefix(p, q, r.value.1, next.value);
        }
      }
    }
  }

  /** A run that comes to `st`, or overflows where something does not fit. */
  ghost predicate Runs(units: seq<nat>, from: State, st: State, fits: bool) {
    Run(units, 0, from) == if fits then Ok(st) else Failed(Overflow)
  }

  lemma DivExact(a: nat, k: nat, q: nat)
    requires a > 0 && q < a
    ensures Div(k * a + q, a) == k && (k * a + q) % a == q
  {
    DivMod(k * a + q, a);
    var d, r := Div(k * a + q, a), (k * a + q) % a;
    assert d * a + r == k * a + q;
    if d > k {
      Distribute(d, k, a);
      MulAtLeast(d - k, a);
    } else if d < k {
      Distribute(k, d, a);
      MulAtLeast(k - d, a);
    }
  }

  /** The insertion that a delta stands for: `m`, as the `q`th of the code points so far. */
  lemma InsertAt(st: State, i: nat, m: nat, q: nat)
    requires st.n <= m <= MAX_INT && q <= |st.out| && i == (m - st.n) * (|st.out| + 1) + q && st.i <= i
    ensures Insert(st, i)
         == Ok(State(st.out[..q] + [m] + st.out[q..], m, q + 1, Adapt(i - st.i, |st.out| + 1, st.i == 0)))
  {
    hide Div, Adapt;
    DivExact(|st.out| + 1, m - st.n, q);
  }

  /** One more delta written is one more code point inserted, if what the counter comes to fits. */
  lemma RunDelta(units: seq<nat>, from: State, st: State, delta: nat, m: nat, q: nat, fits: bool)
    requires Runs(units, from, st, fits) && st.bias <= MAX_BIAS
    requires st.n <= m <= MAX_INT && q <= |st.out| && st.i + delta == (m - st.n) * (|st.out| + 1) + q
    ensures Runs(units + Digits(delta, 36, st.bias), from,
                 State(st.out[..q] + [m] + st.out[q..], m, q + 1, Adapt(delta, |st.out| + 1, st.i == 0)),
                 fits && st.i + delta <= MAX_INT)
  {
    hide Read, Insert, Digits, Adapt;
    var ds := Digits(delta, 36, st.bias);
    var all := units + ds;
    RunPrefix(units, ds, 0, from);
    assert all[|units|..|units| + |ds|] == ds;
    ReadDigits(delta, all, |units|, st.i, 1, 36, st.bias);
    InsertAt(st, st.i + delta, m, q);
  }

  lemma Distribute(x: int, y: int, a: int)
    ensures (x - y) * a == x * a - y * a
  {
  }

  // ---------------------------------------------------------------- encoding

  /** Already written when the encoder looks for `m` and has passed the first `x` code points. */
  predicate Written(t: seq<nat>, m: nat, x: nat, y: nat)
    requires y < |t|
  {
    t[y] < m || (t[y] == m && y < x)
  }

  /** Of the first `k` code points, those already written, in order. */
  function Kept(t: seq<nat>, m: nat, x: nat, k: nat): (r: seq<nat>)
    requires k <= |t|
    ensures |r| <= k
  {
    if k == 0 then []
    else Kept(t, m, x, k - 1) + if Written(t, m, x, k - 1) then [t[k - 1]] else []
  }

  lemma {:induction false} KeptAgree(t: seq<nat>, m: nat, x: nat, n: nat, z: nat, k: nat)
    requires k <= |t| && forall y :: 0 <= y < k ==> Written(t, m, x, y) == Written(t, n, z, y)
    ensures Kept(t, m, x, k) == Kept(t, n, z, k)
  {
    hide Written;
    if k > 0 {
      KeptAgree(t, m, x, n, z, k - 1);
    }
  }

  /** Passing an occurrence of `m` inserts it where it stands among those written. */
  lemma {:induction false} KeptInsert(t: seq<nat>, m: nat, x: nat, k: nat)
    requires x < k <= |t| && t[x] == m
    ensures var p := |Kept(t, m, x, x)|;
            && p <= |Kept(t, m, x, k)|
            && Kept(t, m, x + 1, k) == Kept(t, m, x, k)[..p] + [m] + Kept(t, m, x, k)[p..]
            && |Kept(t, m, x + 1, x + 1)| == p + 1
    decreases k
  {
    if k == x + 1 {
      KeptAgree(t, m, x, m, x + 1, x);
    } else {
      KeptInsert(t, m, x, k - 1);
    }
  }

  lemma KeptPass(t: seq<nat>, m: nat, x: nat, k: nat)
    requires x < |t| && k <= |t| && t[x] != m
    ensures Kept(t, m, x + 1, k) == Kept(t, m, x, k)
    ensures |Kept(t, m, x + 1, x + 1)| == |Kept(t, m, x, x)| + if t[x] < m then 1 else 0
  {
    KeptAgree(t, m, x, m, x + 1, k);
    KeptAgree(t, m, x, m, x + 1, x);
  }

  /** Nothing lies between `m` and the next code point looked for. */
  lemma KeptRaise(t: seq<nat>, m: nat, n: nat)
    requires m <= n && forall y :: 0 <= y < |t| ==> t[y] < m || n <= t[y]
    ensures Kept(t, m, 0, |t|) == Kept(t, n, 0, |t|)
  {
    KeptAgree(t, m, 0, n, 0, |t|);
  }

  lemma KeptNext(t: seq<nat>, m: nat)
    ensures Kept(t, m, |t|, |t|) == Kept(t, m + 1, 0, |t|)
  {
    KeptAgree(t, m, |t|, m + 1, 0, |t|);
  }

  lemma {:induction false} KeptAll(t: seq<nat>, m: nat, x: nat, k: nat)
    requires k <= |t|
    ensures |Kept(t, m, x, k)| == k ==> Kept(t, m, x, k) == t[..k]
    ensures (forall y :: 0 <= y < k ==> Written(t, m, x, y)) ==> |Kept(t, m, x, k)| == k
  {
    hide Written;
    if k > 0 {
      KeptAll(t, m, x, k - 1);
      assert t[..k] == t[..k - 1] + [t[k - 1]];
    }
  }

  /** Fewer are smaller than `m` than are smaller or passed. */
  lemma {:induction false} KeptLess(t: seq<nat>, m: nat, x: nat, k: nat, j: nat)
    requires k <= j <= |t|
    ensures |Kept(t, m, 0, k)| <= |Kept(t, m, 0, j)|
    ensures |Kept(t, m, x, k)| <= |Kept(t, m, x, j)|
    decreases j
  {
    hide Written;
    if k < j {
      KeptLess(t, m, x, k, j - 1);
    }
  }

  /** Large counters come only from long strings. */
  lemma CounterBound(m: nat, n: nat, s: nat, len: nat, q: nat)
    requires n <= m <= MAX_CODE_POINT && s < len && q <= s
    ensures (m - n) * (s + 1) + q <= (MAX_CODE_POINT + 1) * len
  {
    assert (m - n) * (s + 1) <= MAX_CODE_POINT * (s + 1) by {
      MulMonotone(m - n, MAX_CODE_POINT, s + 1);
    }
  }

  lemma MulMonotone(a: nat, b: nat, c: nat)
    requires a <= b
    ensures a * c <= b * c
  {
  }

  method WriteDelta(delta: nat, bias: nat) returns (ds: seq<nat>)
    ensures ds == Digits(delta, 36, bias)
  {
    hide Div, LowDigit, HighPart;
    ds := [];
    var q, k := delta, 36;
    while true
      invariant ds + Digits(q, k, bias) == Digits(delta, 36, bias)
      decreases q
    {
      var t := Threshold(k, bias);
      if q < t {
        break;
      }
      ghost var rest := Digits(HighPart(q, t), k + 36, bias);
      Assoc(ds, [UnitOf(LowDigit(q, t))], rest);
      ds := ds + [UnitOf(LowDigit(q, t))];
      q := HighPart(q, t);
      k := k + 36;
    }
    ds := ds + [UnitOf(q)];
  }

  /** The smallest code point not below `r`. */
  method NextCodePoint(t: seq<nat>, r: nat) returns (l: nat)
    requires CodePoints(t)
    requires exists y :: 0 <= y < |t| && t[y] >= r
    ensures r <= l <= MAX_CODE_POINT && l in t && forall y :: 0 <= y < |t| ==> t[y] < r || l <= t[y]
  {
    l := MAX_INT;
    var x := 0;
    while x < |t|
      invariant x <= |t|
      invariant l == MAX_INT || (r <= l <= MAX_CODE_POINT && l in t)
      invariant forall y :: 0 <= y < x ==> t[y] < r || l <= t[y]
    {
      if t[x] >= r && t[x] < l {
        l := t[x];
      }
      x := x + 1;
    }
  }

  /** Short enough that no guard against overflow can fire. */
  predicate Short(t: seq<nat>) {
    (MAX_CODE_POINT + 1) * |t| <= MAX_INT
  }

  /** Of the first `k` code points, the place of the one written last; -1 if only basic ones are written. */
  function Latest(t: seq<nat>, m: nat, x: nat, k: nat): (h: int)
    requires k <= |t|
    ensures -1 <= h < k
  {
    if k == 0 then -1
    else
      var h := Latest(t, m, x, k - 1);
      if Written(t, m, x, k - 1) && t[k - 1] >= 128 && (h < 0 || t[k - 1] >= t[h]) then k - 1 else h
  }

  lemma {:induction false} LatestAgree(t: seq<nat>, m: nat, x: nat, n: nat, z: nat, k: nat)
    requires k <= |t| && forall y :: 0 <= y < k ==> Written(t, m, x, y) == Written(t, n, z, y)
    ensures Latest(t, m, x, k) == Latest(t, n, z, k)
  {
    hide Written;
    if k > 0 {
      LatestAgree(t, m, x, n, z, k - 1);
    }
  }

  /** Code points are written in order, and equal ones from left to right. */
  predicate NotAfter(t: seq<nat>, y: nat, h: nat)
    requires y < |t| && h < |t|
  {
    t[y] < t[h] || (t[y] == t[h] && y <= h)
  }

  lemma {:induction false} LatestIs(t: seq<nat>, m: nat, x: nat, k: nat)
    requires k <= |t|
    ensures var h := Latest(t, m, x, k);
            && (h >= 0 ==> Written(t, m, x, h) && t[h] >= 128)
            && forall y :: 0 <= y < k && t[y] >= 128 && Written(t, m, x, y) ==> h >= 0 && NotAfter(t, y, h)
  {
    hide Written;
    if k > 0 {
      LatestIs(t, m, x, k - 1);
    }
  }

  /** The code point written last, or the first that is not basic. */
  function Highest(t: seq<nat>, m: nat, x: nat): nat {
    var h := Latest(t, m, x, |t|);
    if h < 0 then 128 else t[h]
  }

  /** The place behind it, among the code points written up to then. */
  function Place(t: seq<nat>, m: nat, x: nat): nat {
    var h := Latest(t, m, x, |t|);
    if h < 0 then 0 else |Kept(t, t[h], h, h)| + 1
  }

  /**
    What the decoder's counter comes to for the code point at `y`: the rows from
    the one written before it, each with a place more than there are code
    points so far, and the places before its own.
   */
  function Counter(t: seq<nat>, y: nat): int
    requires y < |t|
  {
    (t[y] - Highest(t, t[y], y)) * (|Kept(t, t[y], y, |t|)| + 1) + |Kept(t, t[y], y, y)|
  }

  /** What the encoder writes for it: how far that is from where the last insertion left the counter. */
  function Delta(t: seq<nat>, y: nat): int
    requires y < |t|
  {
    Counter(t, y) - Place(t, t[y], y)
  }

  /** The counter fits for every code point that is not basic. */
  predicate CountersFit(t: seq<nat>) {
    forall y :: 0 <= y < |t| && t[y] >= 128 ==> Counter(t, y) <= 2147483647
  }

  predicate DeltasFit(t: seq<nat>) {
    forall y :: 0 <= y < |t| && t[y] >= 128 ==> Delta(t, y) <= 2147483647
  }

  /** The encoder still counts what comes behind the last code point that it writes. */
  predicate TailFits(t: seq<nat>) {
    var h := Latest(t, MAX_CODE_POINT + 1, 0, |t|);
    h < 0 || |t| - 1 - h <= 2147483647
  }

  /** No guard of the encoder fires. */
  predicate Encodable(t: seq<nat>) {
    DeltasFit(t) && TailFits(t)
  }

  /** No guard of either fires: the counters fit, and so do the deltas, which are no larger. */
  predicate RoundTrips(t: seq<nat>) {
    CountersFit(t) && TailFits(t)
  }

  lemma RoundTripsEncodes(t: seq<nat>)
    ensures RoundTrips(t) <==> Encodable(t) && CountersFit(t)
  {
    hide Counter, Place, Latest;
  }

  /** For those already written, the counters fit. */
  predicate FitsSoFar(t: seq<nat>, m: nat, x: nat) {
    forall y :: 0 <= y < |t| && t[y] >= 128 && Written(t, m, x, y) ==> Counter(t, y) <= MAX_INT
  }

  predicate DeltasSoFar(t: seq<nat>, m: nat, x: nat) {
    forall y :: 0 <= y < |t| && t[y] >= 128 && Written(t, m, x, y) ==> Delta(t, y) <= MAX_INT
  }

  lemma FitsAgree(t: seq<nat>, m: nat, x: nat, n: nat, z: nat)
    requires forall y :: 0 <= y < |t| ==> Written(t, m, x, y) == Written(t, n, z, y)
    ensures FitsSoFar(t, m, x) == FitsSoFar(t, n, z) && DeltasSoFar(t, m, x) == DeltasSoFar(t, n, z)
    ensures Highest(t, m, x) == Highest(t, n, z) && Place(t, m, x) == Place(t, n, z)
  {
    hide Written, Counter, Delta, Kept, Latest;
    LatestAgree(t, m, x, n, z, |t|);
  }

  /** One more is written. */
  lemma FitsNext(t: seq<nat>, m: nat, x: nat)
    requires x < |t| && t[x] == m >= 128
    ensures FitsSoFar(t, m, x + 1) <==> FitsSoFar(t, m, x) && Counter(t, x) <= MAX_INT
    ensures DeltasSoFar(t, m, x + 1) <==> DeltasSoFar(t, m, x) && Delta(t, x) <= MAX_INT
    ensures Highest(t, m, x + 1) == m && Place(t, m, x + 1) == |Kept(t, m, x, x)| + 1
  {
    hide Counter, Delta, Latest, Kept;
    LatestIs(t, m, x + 1, |t|);
    assert Written(t, m, x + 1, x);
    assert Latest(t, m, x + 1, |t|) == x;
  }

  lemma HighestBounds(t: seq<nat>, m: nat, x: nat)
    requires m >= 128
    ensures 128 <= Highest(t, m, x) <= m
  {
    LatestIs(t, m, x, |t|);
  }

  /** In a short string every counter fits. */
  lemma ShortFits(t: seq<nat>)
    requires CodePoints(t) && Short(t)
    ensures RoundTrips(t)
  {
    hide Written, Kept, Latest, Highest;
    forall y | 0 <= y < |t| && t[y] >= 128 ensures Counter(t, y) <= MAX_INT {
      var m := t[y];
      HighestBounds(t, m, y);
      NotWrittenYet(t, m, y);
      KeptLess(t, m, y, y, |t|);
      CounterBound(m, Highest(t, m, y), |Kept(t, m, y, |t|)|, |t|, |Kept(t, m, y, y)|);
    }
  }

  /** One more code point than a short string may have. */
  function LongString(): (t: seq<nat>)
    ensures |t| == 1928
  {
    seq(1926, i => 97) + [128, 1113968]
  }

  /** Some basic code points and then two others. */
  predicate Long(t: seq<nat>) {
    |t| == 1928 && t[1926] == 128 && t[1927] == 1113968 && forall k :: 0 <= k < 1926 ==> t[k] == 97
  }

  /** The encoder takes it, but the counter of its last code point does not fit. */
  lemma LongStringOverflows()
    ensures CodePoints(LongString()) && Encodable(LongString()) && !CountersFit(LongString())
  {
    var t := LongString();
    LongIsLong();
    hide LongString, Counter, Place, Latest;
    LongCounters(t);
    LongDeltas(t);
    TailOfLong(t);
  }

  lemma LongIsLong()
    ensures Long(LongString())
  {
  }

  lemma LongDeltas(t: seq<nat>)
    requires Long(t) && Counter(t, 1926) == 1926 && Counter(t, 1927) == 2147485447 && Place(t, 1113968, 1927) == 1927
    ensures CodePoints(t) && DeltasFit(t) && !CountersFit(t)
  {
    hide Counter, Place;
    assert Delta(t, 1926) <= 1926 && Delta(t, 1927) == 2147483520;
    forall y | 0 <= y < |t| && t[y] >= 128 ensures Delta(t, y) <= MAX_INT {
      assert y == 1926 || y == 1927;
    }
  }

  lemma LongCounters(t: seq<nat>)
    requires Long(t)
    ensures Counter(t, 1926) == 1926
    ensures Counter(t, 1927) == 2147485447 && Place(t, 1113968, 1927) == 1927
  {
    hide Kept, Latest;
    LatestIs(t, 128, 1926, |t|);
    assert Latest(t, 128, 1926, |t|) == -1;
    KeptAll(t, 128, 1926, 1926);
    LatestIs(t, 1113968, 1927, |t|);
    assert Written(t, 1113968, 1927, 1926);
    assert Latest(t, 1113968, 1927, |t|) == 1926;
    KeptAll(t, 1113968, 1927, 1927);
    LastNotKept(t, 1113968, 1927);
    assert (1113968 - 128) * (1927 + 1) + 1927 == 2147485447;
  }

  lemma TailOfLong(t: seq<nat>)
    requires |t| <= MAX_INT
    ensures TailFits(t)
  {
    hide Latest;
  }

  lemma LastNotKept(t: seq<nat>, m: nat, y: nat)
    requires |t| == y + 1 && t[y] == m
    ensures Kept(t, m, y, |t|) == Kept(t, m, y, y)
  {
    assert !Written(t, m, y, y);
  }

  lemma NotWrittenYet(t: seq<nat>, m: nat, x: nat)
    requires x < |t| && t[x] == m
    ensures |Kept(t, m, x, |t|)| < |t|
  {
    assert !Written(t, m, x, x);
    if |Kept(t, m, x, |t|)| == |t| {
      KeptOnly(t, m, x, |t|);
    }
  }

  /**
    Between two code points of a pass: the digits so far lead the decoder to the code
    points written, if its counters fit, and `u` counts on from its last insertion.
   */
  ghost predicate Encoding(t: seq<nat>, ext: seq<nat>, init: State, st: State, m: nat, x: nat, u: int, s: nat) {
    && x <= |t| && CodePoints(t)
    && Runs(ext, init, st, FitsSoFar(t, m, x))
    && st.out == Kept(t, m, x, |t|) && s == |st.out|
    && 128 <= st.n <= m <= MAX_CODE_POINT + 1 && st.i <= s
    && u == (m - st.n) * (s + 1) + |Kept(t, m, x, x)| - st.i
    && (st.i == 0 <==> s == |init.out|)
    && st.n == Highest(t, m, x) && st.i == Place(t, m, x) && DeltasSoFar(t, m, x) && st.bias <= MAX_BIAS
  }

  /** Within a pass, `a` is one more than the number written before it; later deltas of the pass are smaller. */
  ghost predicate Passing(t: seq<nat>, st: State, m: nat, x: nat, u: int, s: nat, a: nat) {
    && x <= |t|
    && a == |Kept(t, m, 0, |t|)| + 1
    && (a == s + 1 || (st.n == m && st.i > 0 && a < s + 1 && u <= |Kept(t, m, 0, x)|))
    && (st.n == m || forall y :: 0 <= y < x ==> t[y] != m)
  }

  /** The counter after `d` whole rows of `a` places each. */
  function Raised(u: int, d: int, a: int): int {
    u + d * a
  }

  lemma StartPass(t: seq<nat>, ext: seq<nat>, init: State, st: State, r: nat, u: int, s: nat, l: nat)
    requires Encoding(t, ext, init, st, r, 0, u, s) && r <= l <= MAX_CODE_POINT
    requires forall y :: 0 <= y < |t| ==> t[y] < r || l <= t[y]
    ensures Encoding(t, ext, init, st, l, 0, Raised(u, l - r, s + 1), s)
    ensures Passing(t, st, l, 0, Raised(u, l - r, s + 1), s, s + 1)
  {
    hide Runs, FitsSoFar, DeltasSoFar, Highest, Place;
    KeptRaise(t, r, l);
    FitsAgree(t, r, 0, l, 0);
    Distribute(l - st.n, r - st.n, s + 1);
  }

  lemma PassOver(t: seq<nat>, ext: seq<nat>, init: State, st: State, m: nat, x: nat, u: int, s: nat, a: nat)
    requires Encoding(t, ext, init, st, m, x, u, s) && Passing(t, st, m, x, u, s, a) && x < |t| && t[x] != m
    ensures var v := if t[x] < m then u + 1 else u;
            Encoding(t, ext, init, st, m, x + 1, v, s) && Passing(t, st, m, x + 1, v, s, a)
  {
    hide Runs, CodePoints, FitsSoFar, DeltasSoFar, Highest, Place;
    KeptPass(t, m, x, |t|);
    FitsAgree(t, m, x, m, x + 1);
  }

  /** The bias the encoder goes on with is the decoder's, though it counts only the points before the pass. */
  lemma SameBias(t: seq<nat>, ext: seq<nat>, init: State, st: State, m: nat, x: nat, u: nat, s: nat, a: nat)
    requires Encoding(t, ext, init, st, m, x, u, s) && Passing(t, st, m, x, u, s, a) && x < |t|
    ensures Adapt(u, a, s == |init.out|) == Adapt(u, s + 1, st.i == 0)
  {
    hide Runs, Adapt, Written, FitsSoFar, DeltasSoFar, Highest, Place;
    if a < s + 1 {
      KeptLess(t, m, x, x, |t|);
      AdaptIgnoresPoints(u, a, s + 1);
    }
  }

  /** The decoder's state after the next occurrence of `m`. */
  ghost function Next(st: State, m: nat, q: nat, u: nat): State
    requires q <= |st.out|
  {
    State(st.out[..q] + [m] + st.out[q..], m, q + 1, Adapt(u, |st.out| + 1, st.i == 0))
  }

  lemma WriteOne(t: seq<nat>, ext: seq<nat>, init: State, st: State, m: nat, x: nat, u: nat, s: nat, a: nat)
    requires Encoding(t, ext, init, st, m, x, u, s) && Passing(t, st, m, x, u, s, a) && x < |t| && t[x] == m
    requires |init.out| <= s && u <= MAX_INT
    ensures var q := |Kept(t, m, x, x)|;
            && q <= |st.out| && q <= s < |t|
            && Next(st, m, q, u).bias == Adapt(u, s + 1, st.i == 0)
            && Encoding(t, ext + Digits(u, 36, st.bias), init, Next(st, m, q, u), m, x + 1, 0, s + 1)
            && Passing(t, Next(st, m, q, u), m, x + 1, 0, s + 1, a)
  {
    hide Adapt, Written, Digits, Runs, Kept, FitsSoFar, DeltasSoFar, Highest, Place;
    var q := |Kept(t, m, x, x)|;
    KeptInsert(t, m, x, |t|);
    assert |Kept(t, m, x + 1, |t|)| == s + 1;
    FitsNext(t, m, x);
    assert st.i + u == Counter(t, x);
    RunDelta(ext, init, st, u, m, q, FitsSoFar(t, m, x));
    AdaptBound(u, s + 1, st.i == 0);
  }

  lemma FitsEnd(t: seq<nat>, m: nat)
    ensures FitsSoFar(t, m, |t|) == FitsSoFar(t, m + 1, 0) && DeltasSoFar(t, m, |t|) == DeltasSoFar(t, m + 1, 0)
    ensures Highest(t, m, |t|) == Highest(t, m + 1, 0) && Place(t, m, |t|) == Place(t, m + 1, 0)
  {
    hide FitsSoFar, DeltasSoFar, Highest, Place;
    FitsAgree(t, m, |t|, m + 1, 0);
  }

  lemma EndPass(t: seq<nat>, ext: seq<nat>, init: State, st: State, m: nat, u: int, s: nat, a: nat)
    requires Encoding(t, ext, init, st, m, |t|, u, s) && Passing(t, st, m, |t|, u, s, a) && m in t
    ensures m <= MAX_CODE_POINT && Encoding(t, ext, init, st, m + 1, 0, u + 1, s)
  {
    hide Runs, FitsSoFar, DeltasSoFar, Highest, Place, Written;
    KeptNext(t, m);
    FitsEnd(t, m);
    CodePointIn(t, m);
  }

  /** While some are unwritten, one of them is not below `r`. */
  lemma SomeLeft(t: seq<nat>, ext: seq<nat>, init: State, st: State, r: nat, u: int, s: nat)
    requires Encoding(t, ext, init, st, r, 0, u, s) && s < |t|
    ensures exists y :: 0 <= y < |t| && t[y] >= r
  {
    hide Runs, FitsSoFar, DeltasSoFar, Highest, Place;
    KeptAll(t, r, 0, |t|);
  }

  lemma AllWritten(t: seq<nat>, ext: seq<nat>, init: State, st: State, r: nat, u: int, s: nat)
    requires Encoding(t, ext, init, st, r, 0, u, s) && s >= |t| && u <= MAX_INT + 1
    ensures s == |t| && st.out == t && Runs(ext, init, st, CountersFit(t)) && Encodable(t)
  {
    hide Runs, Counter, Delta, Highest, Place;
    KeptAll(t, r, 0, |t|);
    KeptOnly(t, r, 0, |t|);
    assert FitsSoFar(t, r, 0) == CountersFit(t) && DeltasSoFar(t, r, 0) == DeltasFit(t);
    TailWritten(t, st, r, u);
  }

  /** Everything behind the code point written last was counted. */
  lemma TailWritten(t: seq<nat>, st: State, r: nat, u: int)
    requires CodePoints(t) && (forall y :: 0 <= y < |t| ==> Written(t, r, 0, y))
    requires st.n == Highest(t, r, 0) && st.i == Place(t, r, 0) && st.n <= r && u == (r - st.n) * (|t| + 1) - st.i <= MAX_INT + 1
    ensures TailFits(t)
  {
    hide Kept, Latest;
    var h := Latest(t, r, 0, |t|);
    LatestAgree(t, r, 0, MAX_CODE_POINT + 1, 0, |t|);
    LatestIs(t, r, 0, |t|);
    if h >= 0 {
      LatestIn(t, r, 0, h);
      MulMonotone(1, r - st.n, |t| + 1);
    }
  }

  /** Where all is written, the code point written last has all those before it to its left. */
  lemma LatestIn(t: seq<nat>, r: nat, x: nat, h: nat)
    requires (forall y :: 0 <= y < |t| ==> Written(t, r, x, y)) && h < |t| && h == Latest(t, r, x, |t|)
    ensures |Kept(t, t[h], h, h)| == h
  {
    hide Kept, Latest;
    LatestIs(t, r, x, |t|);
    forall y | 0 <= y < h ensures Written(t, t[h], h, y) {
      assert t[y] < 128 || NotAfter(t, y, h);
    }
    KeptAll(t, t[h], h, h);
  }

  // ---------------------------------------------------------------- where the encoder gives up

  /** The first `m` at `x` or behind it. */
  lemma {:induction false} FirstFrom(t: seq<nat>, m: nat, x: nat, k: nat) returns (y: nat)
    requires x <= k < |t| && t[k] == m
    ensures x <= y <= k && t[y] == m && forall z :: x <= z < y ==> t[z] != m
    decreases k - x
  {
    if t[x] == m {
      y := x;
    } else {
      y := FirstFrom(t, m, x + 1, k);
    }
  }

  /** The lowest code point above `m`. */
  lemma {:induction false} LowestAbove(t: seq<nat>, m: nat, k: nat) returns (y: nat)
    requires k < |t| && t[k] > m
    ensures y < |t| && t[y] > m && forall z :: 0 <= z < |t| && t[z] > m ==> t[y] <= t[z]
    decreases t[k]
  {
    if z :| 0 <= z < |t| && m < t[z] < t[k] {
      y := LowestAbove(t, m, z);
    } else {
      y := k;
    }
  }

  /** If the encoder has counted so far at one place, it counts at least as far up to the next code point it would write. */
  lemma LaterDelta(t: seq<nat>, ext: seq<nat>, init: State, st: State, m: nat, x: nat, u: int, s: nat, y: nat)
    requires Encoding(t, ext, init, st, m, x, u, s) && x <= y < |t| && t[y] == m && forall z :: x <= z < y ==> t[z] != m
    ensures Delta(t, y) >= u
  {
    hide Runs, FitsSoFar, DeltasSoFar, Highest, Place, Kept;
    KeptAgree(t, m, x, m, y, |t|);
    KeptAgree(t, m, x, m, y, x);
    FitsAgree(t, m, x, m, y);
    KeptLess(t, m, y, x, y);
  }

  /** So it does when all occurrences of `m` are written, and the next one to write is above. */
  lemma NextDelta(t: seq<nat>, ext: seq<nat>, init: State, st: State, m: nat, x: nat, u: int, s: nat, y: nat)
    requires Encoding(t, ext, init, st, m, x, u, s) && y < |t| && t[y] > m
    requires (forall z :: x <= z < |t| ==> t[z] != m) && (forall z :: 0 <= z < |t| && t[z] > m ==> t[y] <= t[z])
    requires forall z :: 0 <= z < y ==> t[z] != t[y]
    ensures Delta(t, y) >= u
  {
    hide Runs, FitsSoFar, DeltasSoFar, Highest, Place, Kept;
    var l := t[y];
    KeptAgree(t, m, x, l, y, |t|);
    FitsAgree(t, m, x, l, y);
    KeptLess(t, m, x, x, |t|);
    MulMonotone(m + 1 - st.n, l - st.n, s + 1);
    Distribute(m + 1 - st.n, 1, s + 1);
  }

  /** Behind the last code point to be written it counts only what is there. */
  lemma TailCounted(t: seq<nat>, ext: seq<nat>, init: State, st: State, m: nat, x: nat, u: int, s: nat)
    requires Encoding(t, ext, init, st, m, x, u, s) && m in t
    requires (forall z :: x <= z < |t| ==> t[z] != m) && (forall z :: 0 <= z < |t| ==> t[z] <= m)
    ensures TailFits(t) ==> u <= MAX_INT
  {
    hide Runs, FitsSoFar, DeltasSoFar, Kept, Latest;
    LatestOfAll(t, m, x);
    var h := Latest(t, m, x, |t|);
    assert st.n == m && st.i == h + 1;
    AllBefore(t, m, x);
    hide Encoding, Written;
    assert (m - m) * (s + 1) == 0;
  }

  lemma AllBefore(t: seq<nat>, m: nat, x: nat)
    requires x <= |t| && forall z :: 0 <= z < |t| ==> t[z] <= m
    ensures |Kept(t, m, x, x)| == x
  {
    hide Kept;
    KeptAll(t, m, x, x);
  }

  lemma LatestOfAll(t: seq<nat>, m: nat, x: nat)
    requires CodePoints(t) && m in t && m >= 128 && x <= |t|
    requires (forall z :: x <= z < |t| ==> t[z] != m) && (forall z :: 0 <= z < |t| ==> t[z] <= m)
    ensures var h := Latest(t, m, x, |t|);
            && 0 <= h < x && t[h] == m && |Kept(t, m, h, h)| == h && h == Latest(t, MAX_CODE_POINT + 1, 0, |t|)
  {
    hide Kept, Latest;
    var k :| 0 <= k < |t| && t[k] == m;
    LatestAgree(t, m, x, MAX_CODE_POINT + 1, 0, |t|);
    LatestIs(t, m, x, |t|);
    assert Written(t, m, x, k);
    LatestIn(t, m, x, Latest(t, m, x, |t|));
  }

  /** A counter past the limit means that one of the guards has to fire. */
  lemma NotEncodable(t: seq<nat>, ext: seq<nat>, init: State, st: State, m: nat, x: nat, u: int, s: nat)
    requires Encoding(t, ext, init, st, m, x, u, s) && m in t && u > MAX_INT
    ensures !Encodable(t)
  {
    hide Encoding, Delta, TailFits;
    AtLeast128(t, ext, init, st, m, x, u, s);
    if k :| x <= k < |t| && t[k] == m {
      var y := FirstFrom(t, m, x, k);
      LaterDelta(t, ext, init, st, m, x, u, s, y);
    } else if k :| 0 <= k < |t| && t[k] > m {
      var l := LowestAbove(t, m, k);
      var y := FirstFrom(t, t[l], 0, l);
      NextDelta(t, ext, init, st, m, x, u, s, y);
    } else {
      TailCounted(t, ext, init, st, m, x, u, s);
    }
  }

  lemma AtLeast128(t: seq<nat>, ext: seq<nat>, init: State, st: State, m: nat, x: nat, u: int, s: nat)
    requires Encoding(t, ext, init, st, m, x, u, s)
    ensures m >= 128 && x <= |t|
  {
  }

  // ---------------------------------------------------------------- the delimiter

  /** Neither a delimiter nor a capital letter. */
  predicate Small(units: seq<nat>) {
    forall x :: 0 <= x < |units| ==> units[x] != DELIMITER && !(65 <= units[x] <= 90)
  }

  /** What comes behind the last delimiter, where there are basic code points before it. */
  function Tail(units: seq<nat>): seq<nat> {
    units[if LastDash(units) > 0 then LastDash(units) + 1 else 0..]
  }

  lemma {:induction false} DigitsSmall(q: nat, k: nat, bias: nat)
    ensures Small(Digits(q, k, bias))
    decreases q
  {
    hide Div, LowDigit, HighPart;
    var t := Threshold(k, bias);
    if q < t {
      DigitRoundTrip(q);
    } else {
      DigitRoundTrip(LowDigit(q, t));
      DigitsSmall(HighPart(q, t), k + 36, bias);
    }
  }

  lemma {:induction false} LastDashSkips(p: seq<nat>, q: seq<nat>)
    requires Small(q)
    ensures LastDash(p + q) == LastDash(p)
    decreases |q|
  {
    if q == [] {
      assert p + q == p;
    } else {
      var last := |q| - 1;
      assert (p + q)[..|p + q| - 1] == p + q[..last];
      LastDashSkips(p, q[..last]);
    }
  }

  /** A decoder finds the basic code points, and the digits after them. */
  lemma Splits(basic: seq<nat>, ext: seq<nat>)
    requires Small(ext)
    ensures var units := basic + (if basic == [] then [] else [DELIMITER]) + ext;
            var o := if LastDash(units) < 0 then 0 else LastDash(units);
            && o == |basic| && units[..o] == basic && units[if o > 0 then o + 1 else 0..] == ext && Tail(units) == ext
  {
    var before := basic + (if basic == [] then [] else [DELIMITER]);
    LastDashSkips(before, ext);
  }

  lemma {:induction false} BasicKept(t: seq<nat>, k: nat)
    requires k <= |t|
    ensures AllBasic(Kept(t, 128, 0, k))
  {
    if k > 0 {
      BasicKept(t, k - 1);
    }
  }

  // ---------------------------------------------------------------- the two methods

  /** Writes the code points equal to `m`, in order, as digits after `e`. */
  method WritePass(t: seq<nat>, m: nat, e: seq<nat>, delta: nat, bias: nat, handled: nat, basics: nat,
                   ghost ext: seq<nat>, ghost init: State, ghost st: State)
    returns (r: Result<(seq<nat>, nat, nat, nat)>, ghost digits: seq<nat>, ghost st': State)
    requires Encoding(t, ext, init, st, m, 0, delta, handled) && Passing(t, st, m, 0, delta, handled, handled + 1)
    requires m in t && bias == st.bias && basics == |init.out| <= handled && delta <= MAX_INT
    requires Small(ext)
    ensures r.Failed? ==> r.failure == Overflow && !Encodable(t)
    ensures r.Ok? ==>
      var (e', u, i, s) := r.value;
      && m <= MAX_CODE_POINT && u <= MAX_INT && Encoding(t, ext + digits, init, st', m + 1, 0, u + 1, s)
      && i == st'.bias && handled < s && e' == e + digits && Small(digits)
  {
    hide Encoding, Passing, Digits, Kept, Runs, Adapt, Small, FitsSoFar, Encodable;
    var out := e;
    var u: nat, i: nat, s: nat := delta, bias, handled;
    var a := handled + 1;
    digits, st' := [], st;
    assert ext + [] == ext && e + [] == e;
    SmallEmpty();
    var x := 0;
    while x < |t|
      invariant x <= |t|
      invariant Encoding(t, ext + digits, init, st', m, x, u, s) && Passing(t, st', m, x, u, s, a)
      invariant i == st'.bias && handled <= s && out == e + digits && Small(digits) && u <= MAX_INT
      invariant (exists y :: 0 <= y < x && t[y] == m) ==> handled < s
    {
      var c := t[x];
      if c != m {
        PassOver(t, ext + digits, init, st', m, x, u, s, a);
        if c < m {
          u := u + 1;
          if u > MAX_INT {
            NotEncodable(t, ext + digits, init, st', m, x + 1, u, s);
            return Failed(Overflow), digits, st';
          }
        }
      } else {
        WriteOne(t, ext + digits, init, st', m, x, u, s, a);
        SameBias(t, ext + digits, init, st', m, x, u, s, a);
        var ds := WriteDelta(u, i);
        DigitsSmall(u, 36, i);
        SmallAppend(digits, ds);
        Assoc(ext, digits, ds);
        Assoc(e, digits, ds);
        st' := Next(st', m, |Kept(t, m, x, x)|, u);
        digits := digits + ds;
        out := out + ds;
        i := AdaptBias(u, a, s == basics);
        u := 0;
        s := s + 1;
      }
      x := x + 1;
    }
    EndPass(t, ext + digits, init, st', m, u, s, a);
    return Ok((out, u, i, s)), digits, st';
  }

  lemma SmallEmpty()
    ensures Small([])
  {
  }

  lemma SmallAppend(p: seq<nat>, q: seq<nat>)
    requires Small(p) && Small(q)
    ensures Small(p + q)
  {
  }

  lemma CodePointIn(t: seq<nat>, m: nat)
    requires CodePoints(t) && m in t
    ensures m <= MAX_CODE_POINT
  {
  }

  lemma {:induction false} KeptOnly(t: seq<nat>, m: nat, x: nat, k: nat)
    requires k <= |t| && |Kept(t, m, x, k)| == k
    ensures forall y :: 0 <= y < k ==> Written(t, m, x, y)
  {
    if k > 0 {
      KeptOnly(t, m, x, k - 1);
    }
  }

  /** Moves the counter to the next code point to be written, unless it would pass the limit. */
  method Advance(t: seq<nat>, r: nat, delta: nat, s: nat, ghost ext: seq<nat>, ghost init: State, ghost st: State)
    returns (moved: Result<(nat, nat)>)
    requires Encoding(t, ext, init, st, r, 0, delta, s) && s < |t|
    ensures moved.Failed? ==> moved.failure == Overflow && !Encodable(t)
    ensures moved.Ok? ==>
      var (l, u) := moved.value;
      l in t && Encoding(t, ext, init, st, l, 0, u, s) && Passing(t, st, l, 0, u, s, s + 1) && u <= MAX_INT
  {
    hide Encoding, Passing, Div, Raised, CodePoints, Encodable;
    SomeLeft(t, ext, init, st, r, delta, s);
    AllCodePoints(t, ext, init, st, r, delta, s);
    var l := NextCodePoint(t, r);
    StartPass(t, ext, init, st, r, delta, s, l);
    if delta > MAX_INT || l - r > Div(MAX_INT - delta, s + 1) {
      TooFar(delta, l - r, s + 1);
      NotEncodable(t, ext, init, st, l, 0, Raised(delta, l - r, s + 1), s);
      return Failed(Overflow);
    }
    RaisedIsNat(delta, l - r, s + 1);
    NotTooFar(delta, l - r, s + 1);
    return Ok((l, Raised(delta, l - r, s + 1)));
  }

  lemma AllCodePoints(t: seq<nat>, ext: seq<nat>, init: State, st: State, m: nat, u: int, s: nat)
    requires Encoding(t, ext, init, st, m, 0, u, s)
    ensures CodePoints(t)
  {
  }

  /**
    Encodes code points: the basic ones as they are, then the others as deltas, smallest first.
    It overflows exactly where one of its deltas does not fit. What it writes decodes as what
    it was given, or overflows where a counter of the decoder does not fit.
   */
  method Encode(t: seq<nat>) returns (r: Result<seq<nat>>)
    requires CodePoints(t)
    ensures if Encodable(t) then r.Ok? else r == Failed(Overflow)
    ensures r.Ok? ==> Decode(r.value) == if CountersFit(t) then Ok(t) else Failed(Overflow)
    ensures r.Ok? ==> Small(Tail(r.value))
    ensures r.Ok? && Decode(r.value) == Ok(t) <==> RoundTrips(t)
    ensures Short(t) ==> RoundTrips(t)
  {
    hide Encoding, Passing, Kept, Runs, Small, Decode, Tail, CodePoints, CountersFit, Encodable, RoundTrips;
    RoundTripsEncodes(t);
    if Short(t) {
      ShortFits(t);
    }
    var basic := WriteBasics(t);
    var e := basic + if |basic| > 0 then [DELIMITER] else [];
    ghost var before := e;
    var m: nat, u: nat, i: nat, s: nat := 128, 0, 72, |basic|;
    ghost var init := State(basic, 128, 0, 72);
    ghost var ext: seq<nat> := [];
    ghost var st := init;
    StartEncoding(t, init);
    SmallEmpty();
    assert before + [] == before;
    while s < |t|
      invariant Encoding(t, ext, init, st, m, 0, u, s) && Small(ext)
      invariant e == before + ext && i == st.bias && |basic| <= s && u <= MAX_INT + 1
      decreases |t| - s
    {
      var moved := Advance(t, m, u, s, ext, init, st);
      if moved.Failed? {
        return Failed(Overflow);
      }
      var passed;
      ghost var digits, st';
      passed, digits, st' := WritePass(t, moved.value.0, e, moved.value.1, i, s, |basic|, ext, init, st);
      if passed.Failed? {
        return Failed(Overflow);
      }
      SmallAppend(ext, digits);
      Assoc(before, ext, digits);
      st, ext := st', ext + digits;
      e, u, i, s := passed.value.0, passed.value.1 + 1, passed.value.2, passed.value.3;
      m := moved.value.0 + 1;
    }
    AllWritten(t, ext, init, st, m, u, s);
    Decodes(t, basic, ext, st);
    return Ok(e);
  }

  lemma RaisedIsNat(u: nat, d: nat, a: nat)
    ensures Raised(u, d, a) >= 0
  {
    MulNat(d, a);
  }

  lemma NotTooFar(u: nat, d: nat, a: nat)
    requires a > 0 && u <= MAX_INT && d <= Div(MAX_INT - u, a)
    ensures Raised(u, d, a) <= MAX_INT
  {
    hide Div;
    MulMonotone(d, Div(MAX_INT - u, a), a);
  }

  lemma TooFar(u: nat, d: nat, a: nat)
    requires a > 0 && (u > MAX_INT || d > Div(MAX_INT - u, a))
    ensures Raised(u, d, a) > MAX_INT
  {
    MulNat(d, a);
    if u <= MAX_INT {
      MulMonotone(Div(MAX_INT - u, a) + 1, d, a);
    }
  }

  method WriteBasics(t: seq<nat>) returns (e: seq<nat>)
    ensures e == Kept(t, 128, 0, |t|)
  {
    e := [];
    var x := 0;
    while x < |t|
      invariant x <= |t| && e == Kept(t, 128, 0, x)
    {
      if t[x] < 128 {
        e := e + [t[x]];
      }
      x := x + 1;
    }
  }

  lemma StartEncoding(t: seq<nat>, init: State)
    requires CodePoints(t) && init == State(Kept(t, 128, 0, |t|), 128, 0, 72)
    ensures Encoding(t, [], init, init, 128, 0, 0, |init.out|)
  {
    hide Counter, Delta, Kept, Latest;
    LatestIs(t, 128, 0, |t|);
  }

  /** What was written decodes as what was encoded. */
  lemma Decodes(t: seq<nat>, basic: seq<nat>, ext: seq<nat>, st: State)
    requires CodePoints(t) && basic == Kept(t, 128, 0, |t|) && Small(ext)
    requires Runs(ext, State(basic, 128, 0, 72), st, CountersFit(t)) && st.out == t
    ensures var units := basic + (if |basic| > 0 then [DELIMITER] else []) + ext;
            && Decode(units) == (if CountersFit(t) then Ok(t) else Failed(Overflow))
            && Small(Tail(units))
  {
    hide Run, LastDash, Kept, CodePoints, CountersFit;
    Splits(basic, ext);
    BasicKept(t, |t|);
  }

  /** A string that the encoder takes and the decoder then overflows on. */
  method EncodeLongString() returns (r: Result<seq<nat>>)
    ensures r.Ok? && Decode(r.value) == Failed(Overflow)
  {
    hide Decode, LongString, CodePoints, Encodable, CountersFit;
    LongStringOverflows();
    r := Encode(LongString());
  }

  /** Reads code points back: the basic ones, then one insertion for each delta. */
  method DecodeUnits(t: seq<nat>) returns (r: Result<seq<nat>>)
    ensures r == Decode(t)
  {
    hide Read, Insert, AllBasic, CodePoints;
    var n := |t|;
    var o := FindLastDash(t);
    if o < 0 {
      o := 0;
    }
    var s := 0;
    BasicStart(t);
    while s < o
      invariant s <= o && AllBasic(t[..s])
    {
      BasicNext(t, s);
      if t[s] >= 128 {
        BasicFails(t, o, s);
        return Failed(NotBasic);
      }
      s := s + 1;
    }
    var start := if o > 0 then o + 1 else 0;
    ghost var units, st0 := t[start..], State(t[..o], 128, 0, 72);
    var st := State(t[..o], 128, 0, 72);
    var pos := 0;
    while pos < n - start
      invariant pos <= n - start
      invariant Run(units, 0, st0) == Run(units, pos, st)
    {
      var read := ReadInteger(t[start..], pos, st.i, st.bias);
      if read.Failed? {
        return Failed(read.failure);
      }
      ReadGrows(units, pos, st.i, 1, 36, st.bias);
      var next := Insert(st, read.value.0);
      if next.Failed? {
        return Failed(next.failure);
      }
      st := next.value;
      pos := read.value.1;
    }
    if CodePoints(st.out) {
      return Ok(st.out);
    }
    return Failed(BadCodePoint);
  }

  lemma BasicStart(t: seq<nat>)
    ensures AllBasic(t[..0])
  {
  }

  lemma BasicNext(t: seq<nat>, s: nat)
    requires s < |t| && AllBasic(t[..s])
    ensures t[s] < 128 ==> AllBasic(t[..s + 1])
  {
  }

  lemma BasicFails(t: seq<nat>, o: nat, s: nat)
    requires s < o <= |t| && t[s] >= 128
    ensures !AllBasic(t[..o])
  {
    assert t[..o][s] >= 128;
  }

  method FindLastDash(t: seq<nat>) returns (o: int)
    ensures o == LastDash(t)
  {
    o := |t| - 1;
    assert t[..|t|] == t;
    while o >= 0 && t[o] != DELIMITER
      invariant -1 <= o < |t| && LastDash(t) == LastDash(t[..o + 1])
    {
      assert t[..o + 1][..o] == t[..o];
      o := o - 1;
    }
  }

  /** The loop that reads one integer, digit by digit. */
  method ReadInteger(units: seq<nat>, start: nat, i: nat, bias: nat) returns (r: Result<(nat, nat)>)
    requires start <= |units|
    ensures r == Read(units, start, i, 1, 36, bias)
  {
    hide Div, DigitOf;
    var pos: nat, sum: nat, w: nat, k: nat := start, i, 1, 36;
    while true
      invariant pos <= |units| && w > 0
      invariant Read(units, pos, sum, w, k, bias) == Read(units, start, i, 1, 36, bias)
      decreases |units| - pos
    {
      if pos >= |units| {
        return Failed(InvalidInput);
      }
      var digit := DigitOf(units[pos]);
      pos := pos + 1;
      if digit >= 36 {
        return Failed(InvalidInput);
      }
      if sum > MAX_INT || digit > Div(MAX_INT - sum, w) {
        return Failed(Overflow);
      }
      MulNat(digit, w);
      sum := sum + digit * w;
      var t := Threshold(k, bias);
      if digit < t {
        return Ok((sum, pos));
      }
      if w > Div(MAX_INT, 36 - t) {
        return Failed(Overflow);
      }
      Product(w, 36 - t);
      w := w * (36 - t);
      k := k + 36;
    }
  }
}
