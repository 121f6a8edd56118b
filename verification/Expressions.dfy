/**
  Content expressions and the sequences of node types that they allow.
 */
module Expressions {
  import opened Options

  datatype Expr =
    | Name(typ: nat)
    | Choice(exprs: seq<Expr>)
    | Sequence(exprs: seq<Expr>)
    | Star(expr: Expr)
    | Plus(expr: Expr)
    | Opt(expr: Expr)
    | Range(min: nat, max: Option<nat>, expr: Expr)

  function Flat<T>(ws: seq<seq<T>>): seq<T> {
    if ws == [] then [] else ws[0] + Flat(ws[1..])
  }

  /** The sequences an expression allows. */
  ghost predicate Allows(e: Expr, w: seq<nat>)
    decreases e, 0
  {
    match e
    case Name(typ) => w == [typ]
    case Choice(es) => exists i :: 0 <= i < |es| && Allows(es[i], w)
    case Sequence(es) => AllowsAll(es, w)
    case Star(b) => exists ws: seq<seq<nat>> :: Flat(ws) == w && forall i :: 0 <= i < |ws| ==> Allows(b, ws[i])
    case Plus(b) => exists ws: seq<seq<nat>> :: Flat(ws) == w && |ws| >= 1 && forall i :: 0 <= i < |ws| ==> Allows(b, ws[i])
    case Opt(b) => w == [] || Allows(b, w)
    case Range(min, max, b) =>
      exists ws: seq<seq<nat>> ::
        Flat(ws) == w && min <= |ws| && (max.Some? ==> |ws| <= max.value) && forall i :: 0 <= i < |ws| ==> Allows(b, ws[i])
  }

  /** One after the other, all of the expressions. */
  ghost predicate AllowsAll(es: seq<Expr>, w: seq<nat>)
    decreases es, 0
  {
    if es == [] then w == []
    else exists k :: 0 <= k <= |w| && Allows(es[0], w[..k]) && AllowsAll(es[1..], w[k..])
  }

  /** Sequences that `b` allows, one after the other. */
  ghost predicate Repeats(b: Expr, ws: seq<seq<nat>>, w: seq<nat>) {
    Flat(ws) == w && forall i :: 0 <= i < |ws| ==> Allows(b, ws[i])
  }

  // ----------------------------------------------------------------------
  // What follows a point of an expression
  // ----------------------------------------------------------------------

  /** Whatever `a` allows, `b` allows. */
  ghost predicate Within(a: seq<Expr>, b: seq<Expr>) {
    forall w: seq<nat> :: AllowsAll(a, w) ==> AllowsAll(b, w)
  }

  lemma AllowsHead(e: Expr, k: seq<Expr>, x: seq<nat>, y: seq<nat>)
    requires Allows(e, x) && AllowsAll(k, y)
    ensures AllowsAll([e] + k, x + y)
  {
    var es, w := [e] + k, x + y;
    assert es[1..] == k && w[..|x|] == x && w[|x|..] == y;
  }

  lemma HeadSplit(e: Expr, k: seq<Expr>, w: seq<nat>) returns (i: nat)
    requires AllowsAll([e] + k, w)
    ensures i <= |w| && Allows(e, w[..i]) && AllowsAll(k, w[i..])
  {
    assert ([e] + k)[1..] == k;
    i :| 0 <= i <= |w| && Allows(([e] + k)[0], w[..i]) && AllowsAll(([e] + k)[1..], w[i..]);
  }

  lemma AllowsNothing()
    ensures AllowsAll([], [])
  {
  }

  lemma WithinTrans(a: seq<Expr>, b: seq<Expr>, c: seq<Expr>)
    requires Within(a, b) && Within(b, c)
    ensures Within(a, c)
  {
    hide AllowsAll;
  }

  lemma WithinItself(a: seq<Expr>)
    ensures Within(a, a)
  {
  }

  lemma WithinHead(e: Expr, a: seq<Expr>, b: seq<Expr>)
    requires Within(a, b)
    ensures Within([e] + a, [e] + b)
  {
    hide Allows;
    forall w | AllowsAll([e] + a, w) ensures AllowsAll([e] + b, w) {
      var i := HeadSplit(e, a, w);
      AllowsHead(e, b, w[..i], w[i..]);
      assert w[..i] + w[i..] == w;
    }
  }

  lemma {:induction false} WithinFront(x: seq<Expr>, a: seq<Expr>, b: seq<Expr>)
    requires Within(a, b)
    ensures Within(x + a, x + b)
    decreases |x|
  {
    hide AllowsAll;
    if x == [] {
      assert x + a == a && x + b == b;
    } else {
      WithinFront(x[1..], a, b);
      WithinHead(x[0], x[1..] + a, x[1..] + b);
      assert [x[0]] + (x[1..] + a) == x + a && [x[0]] + (x[1..] + b) == x + b;
    }
  }

  /** Where `e` allows nothing at all to come, what follows it may come at once. */
  lemma Skip(e: Expr, k: seq<Expr>)
    requires Allows(e, [])
    ensures Within(k, [e] + k)
  {
    forall w | AllowsAll(k, w) ensures AllowsAll([e] + k, w) {
      AllowsHead(e, k, [], w);
      assert [] + w == w;
    }
  }

  /** Two expressions are alike at the head when what one allows, the other does. */
  lemma Weaken(a: Expr, b: Expr, k: seq<Expr>)
    requires forall w :: Allows(a, w) ==> Allows(b, w)
    ensures Within([a] + k, [b] + k)
  {
    hide Allows;
    forall w | AllowsAll([a] + k, w) ensures AllowsAll([b] + k, w) {
      var i := HeadSplit(a, k, w);
      AllowsHead(b, k, w[..i], w[i..]);
      assert w[..i] + w[i..] == w;
    }
  }

  lemma Pieces(w: seq<nat>, i: nat, j: nat)
    requires i <= |w| && j <= |w[i..]|
    ensures w == (w[..i] + w[i..][..j]) + w[i..][j..]
  {
  }

  /** `a` and then `b` may stand for `c`. */
  lemma Unroll(a: Expr, b: Expr, c: Expr, k: seq<Expr>)
    requires forall x, y :: Allows(a, x) && Allows(b, y) ==> Allows(c, x + y)
    ensures Within([a] + ([b] + k), [c] + k)
  {
    hide Allows, AllowsAll;
    forall w | AllowsAll([a] + ([b] + k), w) ensures AllowsAll([c] + k, w) {
      var i := HeadSplit(a, [b] + k, w);
      var rest := w[i..];
      var j := HeadSplit(b, k, rest);
      AllowsHead(c, k, w[..i] + rest[..j], rest[j..]);
      Pieces(w, i, j);
    }
  }

  lemma RepeatsMore(b: Expr, ws: seq<seq<nat>>, x: seq<nat>, y: seq<nat>)
    requires Allows(b, x) && Repeats(b, ws, y)
    ensures Repeats(b, [x] + ws, x + y)
  {
    hide Allows;
    assert ([x] + ws)[1..] == ws;
  }

  lemma RepeatsNone(b: Expr)
    ensures Repeats(b, [], [])
  {
  }

  lemma ChoiceWithin(es: seq<Expr>, i: nat, k: seq<Expr>)
    requires i < |es|
    ensures Within([es[i]] + k, [Choice(es)] + k)
  {
    Weaken(es[i], Choice(es), k);
  }

  lemma {:induction false} ListWithin(es: seq<Expr>, k: seq<Expr>)
    ensures Within(es + k, [Sequence(es)] + k)
  {
    hide Allows;
    forall w | AllowsAll(es + k, w) ensures AllowsAll([Sequence(es)] + k, w) {
      var i := ListSplit(es, k, w);
      SequenceIs(es, w[..i]);
      AllowsHead(Sequence(es), k, w[..i], w[i..]);
      assert w[..i] + w[i..] == w;
    }
  }

  lemma SequenceIs(es: seq<Expr>, w: seq<nat>)
    ensures Allows(Sequence(es), w) <==> AllowsAll(es, w)
  {
  }

  /** What a sequence allows, its parts allow one after the other. */
  lemma ListUnder(es: seq<Expr>, k: seq<Expr>)
    ensures Within([Sequence(es)] + k, es + k)
  {
    hide Allows;
    forall w | AllowsAll([Sequence(es)] + k, w) ensures AllowsAll(es + k, w) {
      var i := HeadSplit(Sequence(es), k, w);
      SequenceIs(es, w[..i]);
      ListAllows(es, k, w[..i], w[i..]);
      assert w[..i] + w[i..] == w;
    }
  }

  lemma {:induction false} ListAllows(es: seq<Expr>, k: seq<Expr>, x: seq<nat>, y: seq<nat>)
    requires AllowsAll(es, x) && AllowsAll(k, y)
    ensures AllowsAll(es + k, x + y)
    decreases |es|
  {
    hide Allows, AllowsAll;
    if es == [] {
      OnlyNothing(es, x);
      assert es + k == k && x + y == y;
    } else {
      assert es == [es[0]] + es[1..];
      var i := HeadSplit(es[0], es[1..], x);
      ListAllows(es[1..], k, x[i..], y);
      AllowsHead(es[0], es[1..] + k, x[..i], x[i..] + y);
      assert [es[0]] + (es[1..] + k) == es + k;
      PiecesBefore(x, i, y);
    }
  }

  lemma PiecesBefore(x: seq<nat>, i: nat, y: seq<nat>)
    requires i <= |x|
    ensures x[..i] + (x[i..] + y) == x + y
  {
  }

  lemma OneIs(e: Expr, w: seq<nat>)
    ensures AllowsAll([e], w) <==> Allows(e, w)
  {
    hide Allows;
    assert [e] + [] == [e];
    if AllowsAll([e], w) {
      var i := HeadSplit(e, [], w);
      OnlyNothing([], w[i..]);
      assert w[..i] == w;
    }
    if Allows(e, w) {
      AllowsNothing();
      AllowsHead(e, [], w, []);
      assert w + [] == w;
    }
  }

  lemma OnlyNothing(es: seq<Expr>, w: seq<nat>)
    requires es == [] && AllowsAll(es, w)
    ensures w == []
  {
  }

  lemma {:induction false} ListSplit(es: seq<Expr>, k: seq<Expr>, w: seq<nat>) returns (i: nat)
    requires AllowsAll(es + k, w)
    ensures i <= |w| && AllowsAll(es, w[..i]) && AllowsAll(k, w[i..])
    decreases |es|
  {
    hide Allows;
    if es == [] {
      assert es + k == k && w[..0] == [] && w[0..] == w;
      i := 0;
    } else {
      assert es + k == [es[0]] + (es[1..] + k);
      var j := HeadSplit(es[0], es[1..] + k, w);
      var m := ListSplit(es[1..], k, w[j..]);
      i := j + m;
      assert w[..i][..j] == w[..j] && w[..i][j..] == w[j..][..m] && w[i..] == w[j..][m..];
    }
  }

  lemma StarIs(b: Expr, w: seq<nat>)
    ensures Allows(Star(b), w) <==> exists ws: seq<seq<nat>> :: Repeats(b, ws, w)
  {
    if Allows(Star(b), w) {
      var ws: seq<seq<nat>> :| Flat(ws) == w && forall i :: 0 <= i < |ws| ==> Allows(b, ws[i]);
      assert Repeats(b, ws, w);
    }
  }

  /** A star allows nothing, or something of its body and then what it allows again. */
  lemma StarUnrolls(b: Expr, w: seq<nat>)
    ensures Allows(Star(b), w) <==>
            w == [] || exists k :: 0 < k <= |w| && Allows(b, w[..k]) && Allows(Star(b), w[k..])
  {
    hide Allows, Repeats;
    StarIs(b, w);
    if Allows(Star(b), w) {
      var ws: seq<seq<nat>> :| Repeats(b, ws, w);
      FirstNotEmpty(b, ws, w);
    }
    RepeatsNone(b);
    if k :| 0 < k <= |w| && Allows(b, w[..k]) && Allows(Star(b), w[k..]) {
      StarIs(b, w[k..]);
      var ws: seq<seq<nat>> :| Repeats(b, ws, w[k..]);
      RepeatsMore(b, ws, w[..k], w[k..]);
      assert w[..k] + w[k..] == w;
    }
  }

  lemma {:induction false} FirstNotEmpty(b: Expr, ws: seq<seq<nat>>, w: seq<nat>)
    requires Repeats(b, ws, w)
    ensures w == [] || exists k :: 0 < k <= |w| && Allows(b, w[..k]) && Allows(Star(b), w[k..])
    decreases |ws|
  {
    hide Allows;
    if ws != [] {
      if ws[0] == [] {
        FirstNotEmpty(b, ws[1..], w);
      } else {
        var k := |ws[0]|;
        assert w[..k] == ws[0] && w[k..] == Flat(ws[1..]);
        assert Repeats(b, ws[1..], w[k..]);
        StarIs(b, w[k..]);
      }
    }
  }

  lemma PlusIs(b: Expr, w: seq<nat>)
    ensures Allows(Plus(b), w) <==> exists ws: seq<seq<nat>> :: Repeats(b, ws, w) && |ws| >= 1
  {
    if Allows(Plus(b), w) {
      var ws: seq<seq<nat>> :| Flat(ws) == w && |ws| >= 1 && forall i :: 0 <= i < |ws| ==> Allows(b, ws[i]);
      assert Repeats(b, ws, w);
    }
  }

  lemma RangeIs(min: nat, max: Option<nat>, b: Expr, w: seq<nat>)
    ensures Allows(Range(min, max, b), w) <==>
            exists ws: seq<seq<nat>> :: Repeats(b, ws, w) && min <= |ws| && (max.Some? ==> |ws| <= max.value)
  {
    if Allows(Range(min, max, b), w) {
      var ws: seq<seq<nat>> :|
        Flat(ws) == w && min <= |ws| && (max.Some? ==> |ws| <= max.value) && forall i :: 0 <= i < |ws| ==> Allows(b, ws[i]);
      assert Repeats(b, ws, w);
    }
  }

  lemma StarWithin(b: Expr, k: seq<Expr>)
    ensures Within(k, [Star(b)] + k) && Within([b] + ([Star(b)] + k), [Star(b)] + k)
    ensures Within([b] + ([Star(b)] + k), [Plus(b)] + k)
  {
    hide Allows, Repeats, Within;
    RepeatsNone(b);
    StarIs(b, []);
    Skip(Star(b), k);
    forall x, y | Allows(b, x) && Allows(Star(b), y) ensures Allows(Star(b), x + y) && Allows(Plus(b), x + y) {
      StarIs(b, y);
      var ws: seq<seq<nat>> :| Repeats(b, ws, y);
      RepeatsMore(b, ws, x, y);
      StarIs(b, x + y);
      PlusIs(b, x + y);
    }
    Unroll(b, Star(b), Star(b), k);
    Unroll(b, Star(b), Plus(b), k);
  }

  lemma OptWithin(b: Expr, k: seq<Expr>)
    ensures Within(k, [Opt(b)] + k) && Within([b] + k, [Opt(b)] + k)
  {
    Skip(Opt(b), k);
    Weaken(b, Opt(b), k);
  }

  /** One repetition less than at most `max`. */
  function Fewer(max: Option<nat>): Option<nat> {
    if max.Some? && max.value > 0 then Some(max.value - 1) else max
  }

  /** How many copies of a range's body may be passed over. */
  function Optional(min: nat, max: Option<nat>): nat {
    if max.Some? && max.value > min then max.value - min else 0
  }

  /** What is left of a range's upper bound once the copies that have to come are there. */
  function AfterMin(min: nat, max: Option<nat>): Option<nat> {
    if max.Some? then Some(Optional(min, max)) else None
  }

  lemma AfterLess(min: nat, max: Option<nat>)
    ensures AfterMin(min, max) == if min == 0 then max else AfterMin(min - 1, Fewer(max))
  {
  }

  lemma RangeWithin(min: nat, max: Option<nat>, b: Expr, k: seq<Expr>)
    requires min > 0 && (max.Some? ==> min <= max.value)
    ensures Within([b] + ([Range(min - 1, Fewer(max), b)] + k), [Range(min, max, b)] + k)
  {
    OneMore(min - 1, Fewer(max), min, max, b, k);
  }

  /** One repetition and then the fewer there may still be. */
  lemma OneMore(min0: nat, max0: Option<nat>, min: nat, max: Option<nat>, b: Expr, k: seq<Expr>)
    requires min <= min0 + 1 && (max.Some? ==> max0.Some? && max0.value + 1 <= max.value)
    ensures Within([b] + ([Range(min0, max0, b)] + k), [Range(min, max, b)] + k)
  {
    hide Allows, Repeats;
    var fewer, more := Range(min0, max0, b), Range(min, max, b);
    forall x, y | Allows(b, x) && Allows(fewer, y) ensures Allows(more, x + y) {
      RangeIs(min0, max0, b, y);
      var ws: seq<seq<nat>> :| Repeats(b, ws, y) && min0 <= |ws| && (max0.Some? ==> |ws| <= max0.value);
      RepeatsMore(b, ws, x, y);
      RangeIs(min, max, b, x + y);
    }
    Unroll(b, fewer, more, k);
  }

  lemma RangeSkip(max: Option<nat>, b: Expr, k: seq<Expr>)
    ensures Within(k, [Range(0, max, b)] + k)
  {
    hide Repeats;
    RepeatsNone(b);
    RangeIs(0, max, b, []);
    Skip(Range(0, max, b), k);
  }

  lemma RangeUpTo(m: nat, b: Expr, k: seq<Expr>)
    requires m > 0
    ensures Within([Range(0, Some(m - 1), b)] + k, [Range(0, Some(m), b)] + k)
    ensures Within([b] + ([Range(0, Some(m - 1), b)] + k), [Range(0, Some(m), b)] + k)
  {
    hide Allows, Repeats;
    forall w | Allows(Range(0, Some(m - 1), b), w) ensures Allows(Range(0, Some(m), b), w) {
      RangeIs(0, Some(m - 1), b, w);
      RangeIs(0, Some(m), b, w);
    }
    Weaken(Range(0, Some(m - 1), b), Range(0, Some(m), b), k);
    OneMore(0, Some(m - 1), 0, Some(m), b, k);
  }

  lemma RangeOn(b: Expr, k: seq<Expr>)
    ensures Within([b] + ([Range(0, None, b)] + k), [Range(0, None, b)] + k)
  {
    OneMore(0, None, 0, None, b, k);
  }
}
