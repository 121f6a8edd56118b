/**
  Punycode has one spelling: apart from capital letters among its digits, no two strings
  decode to the same code points.
 */
module Spellings {
  import opened Punycode

  // ---------------------------------------------------------------- one integer

  lemma UnitRoundTrip(c: nat)
    requires DigitOf(c) < 36 && !(65 <= c <= 90)
    ensures UnitOf(DigitOf(c)) == c
  {
  }

  /** A digit that goes on is followed by the rest of the integer. */
  lemma ReadOn(units: seq<nat>, pos: nat, i: nat, w: nat, k: nat, bias: nat)
    requires pos <= |units| && w > 0 && Read(units, pos, i, w, k, bias).Ok?
    ensures pos < |units| && DigitOf(units[pos]) < 36
    ensures var digit, t := DigitOf(units[pos]), Threshold(k, bias);
            if digit < t then Read(units, pos, i, w, k, bias) == Ok((i + digit * w, pos + 1))
            else
              && w * (36 - t) > 0 && i + digit * w >= 0
              && Read(units, pos, i, w, k, bias) == Read(units, pos + 1, i + digit * w, w * (36 - t), k + 36, bias)
  {
    hide Div, DigitOf;
    Product(w, 36 - Threshold(k, bias));
    MulNat(DigitOf(units[pos]), w);
  }

  /** What is read as an integer is how that integer is written. */
  lemma {:induction false} ReadIsWritten(units: seq<nat>, pos: nat, i: nat, w: nat, k: nat, bias: nat) returns (q: nat)
    requires pos <= |units| && w > 0 && Read(units, pos, i, w, k, bias).Ok? && Small(units)
    ensures var (j, end) := Read(units, pos, i, w, k, bias).value;
            j == i + q * w && units[pos..end] == Digits(q, k, bias)
    decreases |units| - pos
  {
    hide Read, ReadDigit, Div, DigitOf, UnitOf, LowDigit, HighPart, Digits, Threshold;
    ReadOn(units, pos, i, w, k, bias);
    var (j, end) := Read(units, pos, i, w, k, bias).value;
    var digit, t := DigitOf(units[pos]), Threshold(k, bias);
    UnitRoundTrip(units[pos]);
    if digit < t {
      q := digit;
      DigitsOf(q, k, bias);
      assert units[pos..end] == [units[pos]];
    } else {
      var h := ReadIsWritten(units, pos + 1, i + digit * w, w * (36 - t), k + 36, bias);
      MulNat(h, 36 - t);
      q := digit + h * (36 - t);
      WholeDigit(digit, h, t);
      Regroup(digit, h, t, w);
      DigitsOf(q, k, bias);
      assert units[pos..end] == [units[pos]] + units[pos + 1..end];
    }
  }

  lemma DigitsOf(q: nat, k: nat, bias: nat)
    ensures var t := Threshold(k, bias);
            Digits(q, k, bias) == if q < t then [UnitOf(q)] else [UnitOf(LowDigit(q, t))] + Digits(HighPart(q, t), k + 36, bias)
  {
    hide Div, LowDigit, HighPart, UnitOf;
  }

  lemma WholeDigit(digit: nat, h: nat, t: nat)
    requires 1 <= t <= 26 && t <= digit < 36
    ensures var q: nat := digit + h * (36 - t);
            q >= t && LowDigit(q, t) == digit && HighPart(q, t) == h
  {
    hide Div;
    MulNat(h, 36 - t);
    DivExact(36 - t, h, digit - t);
  }

  lemma Regroup(digit: nat, h: nat, t: nat, w: nat)
    requires t <= 36
    ensures digit * w + h * (w * (36 - t)) == (digit + h * (36 - t)) * w
  {
  }

  // ---------------------------------------------------------------- a run as its deltas

  /** The state that the deltas lead to. */
  ghost function Fold(ds: seq<nat>, from: State): Result<State> {
    if ds == [] then Ok(from)
    else
      var st :- Fold(ds[..|ds| - 1], from);
      Insert(st, st.i + ds[|ds| - 1])
  }

  /** How they are written, each with the bias reached. */
  ghost function Spell(ds: seq<nat>, from: State): seq<nat> {
    if ds == [] || Fold(ds[..|ds| - 1], from).Failed? then []
    else Spell(ds[..|ds| - 1], from) + Digits(ds[|ds| - 1], 36, Fold(ds[..|ds| - 1], from).value.bias)
  }

  lemma OneMore(ds: seq<nat>, d: nat, from: State)
    requires Fold(ds, from).Ok?
    ensures Fold(ds + [d], from) == Insert(Fold(ds, from).value, Fold(ds, from).value.i + d)
    ensures Spell(ds + [d], from) == Spell(ds, from) + Digits(d, 36, Fold(ds, from).value.bias)
  {
    hide Insert, Digits;
    assert (ds + [d])[..|ds|] == ds;
  }

  /** A run that ends well goes through a list of deltas, and is over their spelling. */
  lemma {:induction false} RunIsSpelled(units: seq<nat>, pos: nat, from: State, st: State, ds: seq<nat>)
    returns (all: seq<nat>)
    requires pos <= |units| && Small(units) && Fold(ds, from) == Ok(st) && units[..pos] == Spell(ds, from)
    requires Run(units, pos, st).Ok?
    ensures Fold(all, from) == Run(units, pos, st) && units == Spell(all, from)
    decreases |units| - pos
  {
    hide Fold, Spell, Insert, Read, Digits, Small;
    if pos == |units| {
      all := ds;
      assert units[..pos] == units;
    } else {
      var (i, end) := Read(units, pos, st.i, 1, 36, st.bias).value;
      ReadGrows(units, pos, st.i, 1, 36, st.bias);
      var d := ReadIsWritten(units, pos, st.i, 1, 36, st.bias);
      OneMore(ds, d, from);
      assert units[..end] == units[..pos] + units[pos..end];
      all := RunIsSpelled(units, end, from, Insert(st, i).value, ds + [d]);
    }
  }

  // ---------------------------------------------------------------- the deltas are told by the outcome

  /** Its last insertion is the last of the largest code points; before any insertion all are basic. */
  ghost predicate Tells(st: State) {
    && st.n >= 128 && st.i <= |st.out|
    && (forall x :: 0 <= x < |st.out| ==> st.out[x] <= st.n)
    && (forall x :: st.i <= x < |st.out| ==> st.out[x] < st.n)
    && (st.i > 0 ==> st.out[st.i - 1] == st.n)
  }

  ghost predicate Fresh(st: State) {
    st.n == 128 && st.i == 0 && AllBasic(st.out)
  }

  /** Where the insertion puts what. */
  lemma InsertPuts(st: State, i: nat) returns (p: nat)
    requires st.i <= i && Insert(st, i).Ok? && Tells(st)
    ensures var next := Insert(st, i).value;
            && p <= |st.out| && next.n >= st.n && next.i == p + 1
            && next.out == st.out[..p] + [next.n] + st.out[p..]
            && next.bias == Adapt(i - st.i, |st.out| + 1, st.i == 0)
            && i == (next.n - st.n) * (|st.out| + 1) + p
            && Tells(next)
  {
    hide Adapt, Div;
    var a := |st.out| + 1;
    DivMod(i, a);
    p := i % a;
    var next := Insert(st, i).value;
    if next.n == st.n {
      assert Div(i, a) == 0 && p == i;
    }
    forall x | 0 <= x < |next.out| ensures next.out[x] <= next.n && (next.i <= x ==> next.out[x] < next.n) {
      if x > p {
        assert next.out[x] == st.out[x - 1];
      } else if x < p {
        assert next.out[x] == st.out[x];
      }
    }
  }

  lemma FoldLast(ds: seq<nat>, from: State)
    requires ds != [] && Fold(ds, from).Ok?
    ensures var before := Fold(ds[..|ds| - 1], from);
            before.Ok? && Fold(ds, from) == Insert(before.value, before.value.i + ds[|ds| - 1])
  {
    hide Insert;
  }

  lemma {:induction false} FoldTells(ds: seq<nat>, from: State)
    requires Fresh(from) && Fold(ds, from).Ok?
    ensures var st := Fold(ds, from).value;
            Tells(st) && |st.out| == |from.out| + |ds| && (ds == [] <==> st.i == 0)
    decreases |ds|
  {
    if ds != [] {
      hide Insert, Tells;
      FoldTells(ds[..|ds| - 1], from);
      var before := Fold(ds[..|ds| - 1], from).value;
      var p := InsertPuts(before, before.i + ds[|ds| - 1]);
    }
  }

  /** The outcome tells the largest code point and its last place. */
  lemma SameLast(a: State, b: State)
    requires Tells(a) && Tells(b) && a.out == b.out && a.i > 0 && b.i > 0
    ensures a.n == b.n && a.i == b.i
  {
    assert a.out[b.i - 1] == b.n && b.out[a.i - 1] == a.n;
  }

  lemma SameBefore(s: seq<nat>, r: seq<nat>, p: nat, n: nat)
    requires p <= |s| && p <= |r| && s[..p] + [n] + s[p..] == r[..p] + [n] + r[p..]
    ensures s == r
  {
    var whole := s[..p] + [n] + s[p..];
    assert s[..p] == whole[..p] == r[..p];
    assert s[p..] == whole[p + 1..] == r[p..];
    assert s == s[..p] + s[p..] && r == r[..p] + r[p..];
  }

  /** So it tells what there was before that insertion, and what the counter was. */
  lemma SamePrevious(a: State, b: State, i: nat, j: nat)
    requires Tells(a) && Tells(b) && a.i <= i && b.i <= j
    requires Insert(a, i).Ok? && Insert(b, j).Ok? && Insert(a, i).value.out == Insert(b, j).value.out
    ensures a.out == b.out && (a == b ==> i == j)
  {
    hide Insert, Tells, Adapt;
    var p := InsertPuts(a, i);
    var q := InsertPuts(b, j);
    SameLast(Insert(a, i).value, Insert(b, j).value);
    SameBefore(a.out, b.out, p, Insert(a, i).value.n);
  }

  /** Deltas that lead to the same code points are the same. */
  lemma {:induction false} SameDeltas(ds: seq<nat>, es: seq<nat>, from: State)
    requires Fresh(from) && Fold(ds, from).Ok? && Fold(es, from).Ok?
    requires Fold(ds, from).value.out == Fold(es, from).value.out
    ensures ds == es
    decreases |ds|
  {
    hide Insert, Tells, Fresh, Fold;
    FoldTells(ds, from);
    FoldTells(es, from);
    if ds != [] {
      FoldLast(ds, from);
      FoldLast(es, from);
      var ds', es' := ds[..|ds| - 1], es[..|es| - 1];
      FoldTells(ds', from);
      FoldTells(es', from);
      var a, b := Fold(ds', from).value, Fold(es', from).value;
      SamePrevious(a, b, a.i + ds[|ds| - 1], b.i + es[|es| - 1]);
      SameDeltas(ds', es', from);
    }
  }

  // ---------------------------------------------------------------- whole strings

  lemma Untouched(from: State)
    requires Fresh(from)
    ensures Fold([], from) == Ok(from) && Basics(from.out) == from.out
  {
    AllKept(from.out);
  }

  /** What is inserted is not basic. */
  lemma InsertKeepsBasics(st: State, i: nat)
    requires Tells(st) && st.i <= i && Insert(st, i).Ok?
    ensures Basics(Insert(st, i).value.out) == Basics(st.out)
  {
    hide Insert, Basics, Adapt;
    var p := InsertPuts(st, i);
    var n, l, r := Insert(st, i).value.n, st.out[..p], st.out[p..];
    AtLeast(st);
    BasicsAppend(l + [n], r);
    BasicsAppend(l, [n]);
    BasicsAppend(l, r);
    NotBasicKept(n);
    assert st.out == l + r;
  }

  /** The basic code points of the outcome are those it began with. */
  lemma {:induction false} BasicsStay(ds: seq<nat>, from: State)
    requires Fresh(from) && Fold(ds, from).Ok?
    ensures Basics(Fold(ds, from).value.out) == from.out
    decreases |ds|
  {
    hide Insert, Tells, Fresh, Fold, Basics, AllBasic;
    if ds == [] {
      Untouched(from);
    } else {
      FoldLast(ds, from);
      var ds' := ds[..|ds| - 1];
      FoldTells(ds', from);
      var st := Fold(ds', from).value;
      InsertKeepsBasics(st, st.i + ds[|ds| - 1]);
      BasicsStay(ds', from);
    }
  }

  lemma NotBasicKept(n: nat)
    requires n >= 128
    ensures Basics([n]) == []
  {
  }

  lemma AtLeast(st: State)
    requires Tells(st)
    ensures st.n >= 128
  {
  }

  /** The basic code points among some. */
  ghost function Basics(t: seq<nat>): seq<nat> {
    if t == [] then [] else Basics(t[..|t| - 1]) + if t[|t| - 1] < 128 then [t[|t| - 1]] else []
  }

  lemma {:induction false} BasicsAppend(s: seq<nat>, t: seq<nat>)
    ensures Basics(s + t) == Basics(s) + Basics(t)
    decreases |t|
  {
    if t == [] {
      assert s + t == s;
    } else {
      assert (s + t)[..|s + t| - 1] == s + t[..|t| - 1];
      BasicsAppend(s, t[..|t| - 1]);
    }
  }

  lemma {:induction false} AllKept(t: seq<nat>)
    requires AllBasic(t)
    ensures Basics(t) == t
    decreases |t|
  {
    if t != [] {
      AllKept(t[..|t| - 1]);
    }
  }

  /** A string is its basic code points, a delimiter if there are any, and its tail. */
  lemma Parts(units: seq<nat>)
    requires Decode(units).Ok?
    ensures var o := if LastDash(units) < 0 then 0 else LastDash(units);
            units == units[..o] + (if o > 0 then [DELIMITER] else []) + Tail(units)
  {
    hide Run, CodePoints;
    LastDashIs(units);
  }

  lemma {:induction false} LastDashIs(units: seq<nat>)
    ensures LastDash(units) >= 0 ==> units[LastDash(units)] == DELIMITER
    decreases |units|
  {
    if units != [] {
      LastDashIs(units[..|units| - 1]);
    }
  }

  /** What a decoder goes through: a fresh state with the basic code points, and deltas that spell the tail. */
  lemma Decoded(units: seq<nat>) returns (from: State, ds: seq<nat>)
    requires Decode(units).Ok? && Small(Tail(units))
    ensures Fresh(from) && from.bias == 72 && Fold(ds, from).Ok? && Fold(ds, from).value.out == Decode(units).value
    ensures Tail(units) == Spell(ds, from)
    ensures units == from.out + (if from.out == [] then [] else [DELIMITER]) + Tail(units)
  {
    hide Run, Small, LastDash, CodePoints, Fold, Spell;
    var o := if LastDash(units) < 0 then 0 else LastDash(units);
    from := State(units[..o], 128, 0, 72);
    Parts(units);
    var tail := Tail(units);
    Nothing(from);
    assert tail[..0] == [];
    ds := RunIsSpelled(tail, 0, from, from, []);
  }

  lemma Nothing(from: State)
    ensures Fold([], from) == Ok(from) && Spell([], from) == []
  {
  }

  /** Of all strings without capital letters among their digits only one decodes to given code points. */
  lemma OneSpelling(u: seq<nat>, v: seq<nat>)
    requires Decode(u).Ok? && Decode(u) == Decode(v) && Small(Tail(u)) && Small(Tail(v))
    ensures u == v
  {
    hide Decode, Small, Tail, Fold, Spell;
    var from, ds := Decoded(u);
    var from', es := Decoded(v);
    BasicsStay(ds, from);
    BasicsStay(es, from');
    assert from == from';
    SameDeltas(ds, es, from);
  }

  /** So encoding what such a string decodes to gives that string, where it can be encoded and decoded. */
  method EncodeDecoded(units: seq<nat>) returns (r: Result<seq<nat>>)
    requires Decode(units).Ok? && Small(Tail(units)) && RoundTrips(Decode(units).value)
    ensures r == Ok(units)
  {
    hide Decode, Small, Tail, RoundTrips, CountersFit, Encodable;
    DecodesCodePoints(units);
    r := Encode(Decode(units).value);
    OneSpelling(r.value, units);
  }

  lemma DecodesCodePoints(units: seq<nat>)
    requires Decode(units).Ok?
    ensures CodePoints(Decode(units).value)
  {
  }

  // ---------------------------------------------------------------- what decodes at all

  lemma {:induction false} ReadsDigits(units: seq<nat>, pos: nat, i: nat, w: nat, k: nat, bias: nat)
    requires pos <= |units| && w > 0 && Read(units, pos, i, w, k, bias).Ok?
    ensures forall x :: pos <= x < Read(units, pos, i, w, k, bias).value.1 ==> DigitOf(units[x]) < 36
    decreases |units| - pos
  {
    hide Read, Div, DigitOf, Threshold;
    ReadOn(units, pos, i, w, k, bias);
    var digit, t := DigitOf(units[pos]), Threshold(k, bias);
    if digit >= t {
      ReadsDigits(units, pos + 1, i + digit * w, w * (36 - t), k + 36, bias);
    }
  }

  lemma {:induction false} RunsOverDigits(units: seq<nat>, pos: nat, st: State)
    requires pos <= |units| && Run(units, pos, st).Ok?
    ensures forall x :: pos <= x < |units| ==> DigitOf(units[x]) < 36
    decreases |units| - pos
  {
    hide Read, Insert, DigitOf;
    if pos < |units| {
      ReadsDigits(units, pos, st.i, 1, 36, st.bias);
      var (i, end) := Read(units, pos, st.i, 1, 36, st.bias).value;
      ReadGrows(units, pos, st.i, 1, 36, st.bias);
      RunsOverDigits(units, end, Insert(st, i).value);
    }
  }

  /** A string that decodes has basic code points before its last delimiter and only letters and digits behind it, and decodes to code points. */
  lemma DecodesOnly(units: seq<nat>)
    requires Decode(units).Ok?
    ensures forall x :: 0 <= x < |units| - |Tail(units)| ==> units[x] < 128
    ensures forall x :: 0 <= x < |Tail(units)| ==>
      48 <= Tail(units)[x] <= 57 || 65 <= Tail(units)[x] <= 90 || 97 <= Tail(units)[x] <= 122
    ensures forall x :: 0 <= x < |Decode(units).value| ==> Decode(units).value[x] <= 0x10FFFF
  {
    var o := if LastDash(units) < 0 then 0 else LastDash(units);
    Parts(units);
    RunsOverDigits(Tail(units), 0, State(units[..o], 128, 0, 72));
    hide Run, LastDash;
    assert forall x :: 0 <= x < o ==> units[x] == units[..o][x];
  }
}
