/**
  A sample string of section 7.1 of RFC 3492, digit by digit.
 */
module Samples {
  import opened Punycode
  import opened Spellings

  /** The code points of sample (R). */
  const SAMPLE: seq<nat> := [0x305D, 0x306E, 0x30B9, 0x30D4, 0x30FC, 0x30C9, 0x3067]

  /** What they are encoded as there: d9juau41awczczp. */
  const SPELLED: seq<nat> := [100, 57, 106, 117, 97, 117, 52, 49, 97, 119, 99, 122, 99, 122, 112]

  /** Reads one digit: the last of an integer, or one that goes on. */
  lemma ReadOne(pos: nat, i: nat, w: nat, k: nat, bias: nat, digit: nat, t: nat)
    requires pos < |SPELLED| && digit == DigitOf(SPELLED[pos]) < 36 && t == Threshold(k, bias)
    requires 0 < w <= 35000 && i <= 1000000
    ensures if digit < t then Read(SPELLED, pos, i, w, k, bias) == Ok((i + digit * w, pos + 1))
            else w * (36 - t) > 0 && Read(SPELLED, pos, i, w, k, bias) == Read(SPELLED, pos + 1, i + digit * w, w * (36 - t), k + 36, bias)
  {
    MulNat(digit, w);
    Product(w, 36 - t);
    DivFits(digit, w, i);
    DivFits(w, 36 - t, 0);
    hide Div, DigitOf, Threshold;
  }

  /** One integer read is one code point inserted. */
  lemma OneDelta(pos: nat, st: State, i: nat, end: nat, n: nat, p: nat, bias: nat, out: seq<nat>)
    requires pos < end <= |SPELLED| && st.i <= i && p <= |st.out|
    requires Read(SPELLED, pos, st.i, 1, 36, st.bias) == Ok((i, end))
    requires st.n <= n <= MAX_INT && i == (n - st.n) * (|st.out| + 1) + p && bias == Adapt(i - st.i, |st.out| + 1, st.i == 0)
    requires out == st.out[..p] + [n] + st.out[p..]
    ensures Run(SPELLED, pos, st) == Run(SPELLED, end, State(out, n, p + 1, bias))
  {
    hide Read, Adapt, Insert;
    InsertAt(st, i, n, p);
  }

  lemma Delta1()
    ensures Run(SPELLED, 0, State([], 128, 0, 72)) == Run(SPELLED, 3, State([12381], 12381, 1, 17))
  {
    hide Read, Run;
    ReadOne(0, 0, 1, 36, 72, 3, 1);
    ReadOne(1, 3, 35, 72, 72, 35, 1);
    ReadOne(2, 1228, 1225, 108, 72, 9, 26);
    OneDelta(0, State([], 128, 0, 72), 12253, 3, 12381, 0, 17, [12381]);
  }

  lemma Delta2()
    ensures Run(SPELLED, 3, State([12381], 12381, 1, 17)) == Run(SPELLED, 5, State([12381, 12391], 12391, 2, 10))
  {
    hide Read, Run;
    ReadOne(3, 1, 1, 36, 17, 20, 19);
    ReadOne(4, 21, 17, 72, 17, 0, 26);
    OneDelta(3, State([12381], 12381, 1, 17), 21, 5, 12391, 1, 10, [12381, 12391]);
  }

  lemma Delta3()
    ensures Run(SPELLED, 5, State([12381, 12391], 12391, 2, 10)) == Run(SPELLED, 6, State([12381, 12398, 12391], 12398, 2, 9))
  {
    hide Read, Run;
    ReadOne(5, 2, 1, 36, 10, 20, 26);
    OneDelta(5, State([12381, 12391], 12391, 2, 10), 22, 6, 12398, 1, 9, [12381, 12398, 12391]);
  }

  lemma Delta4()
    ensures Run(SPELLED, 6, State([12381, 12398, 12391], 12398, 2, 9)) == Run(SPELLED, 9, State([12381, 12398, 12473, 12391], 12473, 3, 29))
  {
    hide Read, Run;
    ReadOne(6, 2, 1, 36, 9, 30, 26);
    ReadOne(7, 32, 10, 72, 9, 27, 26);
    ReadOne(8, 302, 100, 108, 9, 0, 26);
    OneDelta(6, State([12381, 12398, 12391], 12398, 2, 9), 302, 9, 12473, 2, 29, [12381, 12398, 12473, 12391]);
  }

  lemma Delta5()
    ensures Run(SPELLED, 9, State([12381, 12398, 12473, 12391], 12473, 3, 29)) == Run(SPELLED, 11, State([12381, 12398, 12473, 12489, 12391], 12489, 4, 20))
  {
    hide Read, Run;
    ReadOne(9, 3, 1, 36, 29, 22, 7);
    ReadOne(10, 25, 29, 72, 29, 2, 26);
    OneDelta(9, State([12381, 12398, 12473, 12391], 12473, 3, 29), 83, 11, 12489, 3, 20, [12381, 12398, 12473, 12489, 12391]);
  }

  lemma Delta6()
    ensures Run(SPELLED, 11, State([12381, 12398, 12473, 12489, 12391], 12489, 4, 20)) == Run(SPELLED, 13, State([12381, 12398, 12473, 12500, 12489, 12391], 12500, 4, 17))
  {
    hide Read, Run;
    ReadOne(11, 4, 1, 36, 20, 25, 16);
    ReadOne(12, 29, 20, 72, 20, 2, 26);
    OneDelta(11, State([12381, 12398, 12473, 12489, 12391], 12489, 4, 20), 69, 13, 12500, 3, 17, [12381, 12398, 12473, 12500, 12489, 12391]);
  }

  lemma Delta7()
    ensures Run(SPELLED, 13, State([12381, 12398, 12473, 12500, 12489, 12391], 12500, 4, 17)) == Run(SPELLED, 15, State([12381, 12398, 12473, 12500, 12540, 12489, 12391], 12540, 5, 29))
  {
    hide Read, Run;
    ReadOne(13, 4, 1, 36, 17, 25, 19);
    ReadOne(14, 29, 17, 72, 17, 15, 26);
    OneDelta(13, State([12381, 12398, 12473, 12500, 12489, 12391], 12500, 4, 17), 284, 15, 12540, 4, 29, [12381, 12398, 12473, 12500, 12540, 12489, 12391]);
  }

  /** The sample decodes to its code points. */
  lemma SampleDecodes()
    ensures Decode(SPELLED) == Ok(SAMPLE) && Small(Tail(SPELLED))
  {
    hide Run;
    Delta1();
    Delta2();
    Delta3();
    Delta4();
    Delta5();
    Delta6();
    Delta7();
    SampleEnds();
  }

  lemma SampleEnds()
    ensures LastDash(SPELLED) == -1 && SPELLED[0..] == SPELLED
    ensures var out := [12381, 12398, 12473, 12500, 12540, 12489, 12391];
            Run(SPELLED, 15, State(out, 12540, 5, 29)) == Ok(State(out, 12540, 5, 29))
  {
    LastDashSkips([], SPELLED);
    assert [] + SPELLED == SPELLED;
  }

  /** And its code points are encoded as the sample. */
  method EncodeSample() returns (r: Result<seq<nat>>)
    ensures r == Ok(SPELLED)
  {
    hide Decode, Small, Tail, RoundTrips;
    SampleDecodes();
    ShortFits(SAMPLE);
    r := EncodeDecoded(SPELLED);
  }
}
