/**
  How what a compiled content expression stands for compares with what the
  expression allows: never less, and the same where no range without bounds
  shares the node it starts at.
 */
module Faithful {
  import opened Options
  import opened Expressions
  import opened Meanings

  // ----------------------------------------------------------------------
  // What comes before something else
  // ----------------------------------------------------------------------

  /** Whatever `a` allows, `b` allows. */
  ghost predicate Under(a: Expr, b: Expr) {
    forall w: seq<nat> :: Allows(a, w) ==> Allows(b, w)
  }

  lemma UnderHead(a: Expr, b: Expr, k: seq<Expr>)
    requires Under(a, b)
    ensures Within([a] + k, [b] + k)
  {
    hide Allows;
    Weaken(a, b, k);
  }

  /** What goes around keeps `f` the same any number of times. */
  lemma {:induction false} StarInto(b: Expr, f: seq<Expr>)
    requires Within([b] + f, f)
    ensures Within([Star(b)] + f, f)
  {
    hide Allows, AllowsAll;
    forall w | AllowsAll([Star(b)] + f, w) ensures AllowsAll(f, w) {
      var i := HeadSplit(Star(b), f, w);
      StarIs(b, w[..i]);
      var ws: seq<seq<nat>> :| Repeats(b, ws, w[..i]);
      RoundsInto(b, f, ws, w[i..]);
      assert w[..i] + w[i..] == w;
    }
  }

  lemma {:induction false} RoundsInto(b: Expr, f: seq<Expr>, ws: seq<seq<nat>>, v: seq<nat>)
    requires Within([b] + f, f) && Repeats(b, ws, Flat(ws)) && AllowsAll(f, v)
    ensures AllowsAll(f, Flat(ws) + v)
    decreases |ws|
  {
    hide Allows, AllowsAll;
    if ws == [] {
      assert Flat(ws) + v == v;
    } else {
      RoundsInto(b, f, ws[1..], v);
      AllowsHead(b, f, ws[0], Flat(ws[1..]) + v);
      assert Flat(ws) + v == ws[0] + (Flat(ws[1..]) + v);
    }
  }

  lemma ChoiceInto(es: seq<Expr>, k: seq<Expr>, f: seq<Expr>)
    requires forall i :: 0 <= i < |es| ==> Within([es[i]] + k, f)
    ensures Within([Choice(es)] + k, f)
  {
    forall w | AllowsAll([Choice(es)] + k, w) ensures AllowsAll(f, w) {
      var i := HeadSplit(Choice(es), k, w);
      var j :| 0 <= j < |es| && Allows(es[j], w[..i]);
      hide Allows, AllowsAll;
      AllowsHead(es[j], k, w[..i], w[i..]);
      assert w[..i] + w[i..] == w;
      assert Within([es[j]] + k, f);
    }
  }

  lemma OptInto(b: Expr, k: seq<Expr>, f: seq<Expr>)
    requires Within(k, f) && Within([b] + k, f)
    ensures Within([Opt(b)] + k, f)
  {
    forall w | AllowsAll([Opt(b)] + k, w) ensures AllowsAll(f, w) {
      var i := HeadSplit(Opt(b), k, w);
      assert w[..i] == [] || Allows(b, w[..i]);
      hide Allows, AllowsAll;
      assert w[..i] + w[i..] == w;
      if w[..i] == [] {
        assert w[i..] == w;
      } else {
        AllowsHead(b, k, w[..i], w[i..]);
      }
    }
  }

  /** Rounds of loops that `f` absorbs. */
  lemma RoundsIn(loops: seq<Expr>, f: seq<Expr>)
    requires Absorbs(f, loops)
    ensures Within([Star(Choice(loops))] + f, f)
  {
    hide Within;
    ChoiceInto(loops, f, f);
    StarInto(Choice(loops), f);
  }

  /** Of all that an expression may lead from, its own node is the least. */
  lemma GoesIn(f: seq<Expr>, e: Expr, k: seq<Expr>)
    requires Goes(f, e, k)
    ensures Within(Entry(e) + k, f)
  {
    hide AllowsAll, Within, Absorbs, Loops, Through;
    var l := Star(Choice(Loops(e)));
    assert Entry(e) + k == [l] + ([Through(e)] + k);
    WithinHead(l, [Through(e)] + k, f);
    RoundsIn(Loops(e), f);
    WithinTrans([l] + ([Through(e)] + k), [l] + f, f);
  }

  // ----------------------------------------------------------------------
  // Ranges taken apart
  // ----------------------------------------------------------------------

  /** A first repetition, and the others. */
  lemma FirstRound(b: Expr, ws: seq<seq<nat>>, w: seq<nat>)
    requires Repeats(b, ws, w) && ws != []
    ensures |ws[0]| <= |w| && w[..|ws[0]|] == ws[0] && Allows(b, w[..|ws[0]|]) && Repeats(b, ws[1..], w[|ws[0]|..])
  {
    hide Allows;
  }

  /** A round, the other rounds, and the rest. */
  lemma RoundThen(b: Expr, less: Expr, k: seq<Expr>, w: seq<nat>, i: nat, j: nat)
    requires j <= i <= |w| && Allows(b, w[..i][..j]) && Allows(less, w[..i][j..]) && AllowsAll(k, w[i..])
    ensures AllowsAll([b] + ([less] + k), w)
  {
    hide Allows, AllowsAll;
    var y, z, v := w[..i][..j], w[..i][j..], w[i..];
    AllowsHead(less, k, z, v);
    AllowsHead(b, [less] + k, y, z + v);
    assert y + (z + v) == w;
  }

  lemma RangeFirst(min: nat, max: Option<nat>, b: Expr, k: seq<Expr>)
    requires min > 0
    ensures Within([Range(min, max, b)] + k, [b] + ([Range(min - 1, Fewer(max), b)] + k))
  {
    hide Allows, AllowsAll, Repeats;
    var less := Range(min - 1, Fewer(max), b);
    forall w | AllowsAll([Range(min, max, b)] + k, w) ensures AllowsAll([b] + ([less] + k), w) {
      var i := HeadSplit(Range(min, max, b), k, w);
      var x := w[..i];
      RangeIs(min, max, b, x);
      var ws: seq<seq<nat>> :| Repeats(b, ws, x) && min <= |ws| && (max.Some? ==> |ws| <= max.value);
      FirstRound(b, ws, x);
      RangeIs(min - 1, Fewer(max), b, x[|ws[0]|..]);
      RoundThen(b, less, k, w, i, |ws[0]|);
    }
  }

  lemma PlusFirst(b: Expr, k: seq<Expr>)
    ensures Within([Plus(b)] + k, [b] + ([Star(b)] + k))
  {
    hide Allows, AllowsAll, Repeats;
    forall w | AllowsAll([Plus(b)] + k, w) ensures AllowsAll([b] + ([Star(b)] + k), w) {
      var i := HeadSplit(Plus(b), k, w);
      var x := w[..i];
      PlusIs(b, x);
      var ws: seq<seq<nat>> :| Repeats(b, ws, x) && |ws| >= 1;
      FirstRound(b, ws, x);
      StarIs(b, x[|ws[0]|..]);
      RoundThen(b, Star(b), k, w, i, |ws[0]|);
    }
  }

  /** One repetition more is allowed: none at all, or one and then the others. */
  lemma RangeOneLess(m: nat, b: Expr, k: seq<Expr>, f: seq<Expr>)
    requires m > 0
    requires var less := [Range(0, Some(m - 1), b)] + k; Within(less, f) && Within([b] + less, f)
    ensures Within([Range(0, Some(m), b)] + k, f)
  {
    hide Allows, AllowsAll, Repeats;
    var less := [Range(0, Some(m - 1), b)] + k;
    forall w | AllowsAll([Range(0, Some(m), b)] + k, w) ensures AllowsAll(f, w) {
      SomeRound(m, b, k, w);
    }
  }

  lemma SomeRound(m: nat, b: Expr, k: seq<Expr>, w: seq<nat>)
    requires m > 0
    requires AllowsAll([Range(0, Some(m), b)] + k, w)
    ensures var less := [Range(0, Some(m - 1), b)] + k; AllowsAll(less, w) || AllowsAll([b] + less, w)
  {
    hide Allows, AllowsAll, Repeats;
    var i := HeadSplit(Range(0, Some(m), b), k, w);
    var x := w[..i];
    RangeIs(0, Some(m), b, x);
    var ws: seq<seq<nat>> :| Repeats(b, ws, x) && |ws| <= m;
    if ws == [] {
      RangeIs(0, Some(m - 1), b, x);
      AllowsHead(Range(0, Some(m - 1), b), k, x, w[i..]);
      assert x + w[i..] == w;
    } else {
      FirstRound(b, ws, x);
      RangeIs(0, Some(m - 1), b, x[|ws[0]|..]);
      RoundThen(b, Range(0, Some(m - 1), b), k, w, i, |ws[0]|);
    }
  }

  /** A range without bounds is a star. */
  lemma RangeStar(b: Expr)
    ensures Under(Range(0, None, b), Star(b)) && Under(Star(b), Range(0, None, b))
  {
    hide Allows, Repeats;
    forall w: seq<nat> ensures Allows(Range(0, None, b), w) <==> Allows(Star(b), w) {
      RangeIs(0, None, b, w);
      StarIs(b, w);
    }
  }

  lemma RangeOfNone(b: Expr, k: seq<Expr>)
    ensures Within([Range(0, Some(0), b)] + k, k)
  {
    hide Allows, AllowsAll, Repeats;
    forall w | AllowsAll([Range(0, Some(0), b)] + k, w) ensures AllowsAll(k, w) {
      var i := HeadSplit(Range(0, Some(0), b), k, w);
      RangeIs(0, Some(0), b, w[..i]);
      var ws: seq<seq<nat>> :| Repeats(b, ws, w[..i]) && |ws| <= 0;
      NoRound(b, ws, w[..i]);
      assert w[..i] + w[i..] == w;
      assert w[i..] == w;
    }
  }

  lemma NoRound(b: Expr, ws: seq<seq<nat>>, w: seq<nat>)
    requires Repeats(b, ws, w) && ws == []
    ensures w == []
  {
  }

  // ----------------------------------------------------------------------
  // Nothing that is allowed is lost
  // ----------------------------------------------------------------------

  /** Where an expression may be gone into, what it allows may follow. */
  lemma {:induction false} Over(f: seq<Expr>, e: Expr, k: seq<Expr>)
    requires Goes(f, e, k)
    ensures Within([e] + k, f)
    decreases e, 0
  {
    hide AllowsAll, Within, Absorbs, Goes, Around, Remaining;
    match e
    case Name(_) => GoesOn(f, e, k);
    case Choice(es) =>
      forall i | 0 <= i < |es| ensures Within([es[i]] + k, f) {
        GoesChoice(f, es, i, k);
        Over(f, es[i], k);
      }
      ChoiceInto(es, k, f);
    case Sequence(es) =>
      if es == [] {
        GoesOn(f, e, k);
      } else {
        SequenceOver(f, es, k);
      }
    case Star(b) =>
      GoesOn(f, e, k);
      AroundOver(b, k);
      WithinTrans([Star(b)] + k, [Around(b)] + k, f);
    case Plus(b) =>
      var f0 := [Around(b)] + k;
      GoesPlus(f, b, k);
      Over(f, b, f0);
      PlusFirst(b, k);
      AroundOver(b, k);
      WithinHead(b, [Star(b)] + k, f0);
      WithinTrans([Plus(b)] + k, [b] + ([Star(b)] + k), [b] + f0);
      WithinTrans([Plus(b)] + k, [b] + f0, f);
    case Opt(b) =>
      GoesOpt(f, b, k);
      Over(f, b, k);
      OptInto(b, k, f);
    case Range(min, max, b) =>
      RangeOver(f, b, min, max, k);
  }

  lemma GoesOn(f: seq<Expr>, e: Expr, k: seq<Expr>)
    requires Goes(f, e, k)
    ensures Within([Through(e)] + k, f)
  {
  }

  lemma {:induction false} SequenceOver(f: seq<Expr>, es: seq<Expr>, k: seq<Expr>)
    requires es != [] && Goes(f, Sequence(es), k)
    ensures Within([Sequence(es)] + k, f)
    decreases es, 0
  {
    hide AllowsAll, Within, Absorbs, Goes, Entries;
    var rest := Entries(es[1..]) + k;
    GoesFirst(f, es, k);
    Over(f, es[0], rest);
    ListUnder(es, k);
    assert es + k == [es[0]] + (es[1..] + k);
    ListOver(es[1..], k);
    WithinHead(es[0], es[1..] + k, rest);
    WithinTrans([Sequence(es)] + k, es + k, [es[0]] + rest);
    WithinTrans([Sequence(es)] + k, [es[0]] + rest, f);
  }

  lemma {:induction false} ListOver(es: seq<Expr>, k: seq<Expr>)
    ensures Within(es + k, Entries(es) + k)
    decreases es, 0
  {
    hide AllowsAll, Within, Absorbs, Goes, Entry;
    if es == [] {
      assert es + k == Entries(es) + k;
      WithinItself(es + k);
    } else {
      var rest := Entries(es[1..]) + k;
      ListOver(es[1..], k);
      WithinHead(es[0], es[1..] + k, rest);
      GoesEntry(es[0], rest);
      Over(Entry(es[0]) + rest, es[0], rest);
      assert es + k == [es[0]] + (es[1..] + k) && Entries(es) + k == Entry(es[0]) + rest;
      WithinTrans(es + k, [es[0]] + rest, Entries(es) + k);
    }
  }

  lemma {:induction false} AroundOver(b: Expr, k: seq<Expr>)
    ensures Within([Star(b)] + k, [Around(b)] + k)
    decreases b, 1
  {
    hide AllowsAll, Within, Absorbs, Goes, Around;
    var f := [Around(b)] + k;
    GoesAround(b, k);
    Over(f, b, f);
    StarInto(b, f);
    WithinHead(Star(b), k, f);
    WithinTrans([Star(b)] + k, [Star(b)] + f, f);
  }

  lemma {:induction false} RangeOver(f: seq<Expr>, b: Expr, min: nat, max: Option<nat>, k: seq<Expr>)
    requires Goes(f, Range(min, max, b), k)
    ensures Within([Range(min, max, b)] + k, f)
    decreases b, 1, min, if max.Some? then max.value else 0
  {
    hide AllowsAll, Within, Absorbs, Goes, Remaining;
    if min > 0 {
      var c := Remaining(b, min - 1, Fewer(max)) + k;
      GoesMin(f, b, min, max, k);
      Over(f, b, c);
      RangeFirst(min, max, b, k);
      GoesRemaining(b, min - 1, Fewer(max), k);
      RangeOver(c, b, min - 1, Fewer(max), k);
      WithinHead(b, [Range(min - 1, Fewer(max), b)] + k, c);
      WithinTrans([Range(min, max, b)] + k, [b] + ([Range(min - 1, Fewer(max), b)] + k), [b] + c);
      WithinTrans([Range(min, max, b)] + k, [b] + c, f);
    } else if max.None? {
      GoesLoop(f, b, k);
      GoesEnd(f, b, max, k);
      Over(f, b, f);
      StarInto(b, f);
      WithinHead(Star(b), k, f);
      RangeStar(b);
      UnderHead(Range(0, None, b), Star(b), k);
      WithinTrans([Range(0, None, b)] + k, [Star(b)] + k, [Star(b)] + f);
      WithinTrans([Range(0, None, b)] + k, [Star(b)] + f, f);
    } else if max.value == 0 {
      GoesEnd(f, b, max, k);
      RangeOfNone(b, k);
      WithinTrans([Range(0, Some(0), b)] + k, k, f);
    } else {
      var m := max.value;
      var c, rest := Remaining(b, 0, Some(m - 1)) + k, [Range(0, Some(m - 1), b)] + k;
      GoesMax(f, b, m, k);
      Over(f, b, c);
      GoesRemaining(b, 0, Some(m - 1), k);
      RangeOver(c, b, 0, Some(m - 1), k);
      WithinTrans(rest, c, f);
      WithinHead(b, rest, c);
      WithinTrans([b] + rest, [b] + c, f);
      RangeOneLess(m, b, k, f);
    }
  }

  /** Nothing that an expression allows is lost in compiling. */
  lemma NothingLost(e: Expr, w: seq<nat>)
    requires Allows(e, w)
    ensures Allows(Whole(e), w)
  {
    hide Allows, AllowsAll, Goes, Entry;
    GoesEntry(e, []);
    assert Entry(e) + [] == Entry(e) && [e] + [] == [e];
    Over(Entry(e), e, []);
    OneIs(e, w);
    SequenceIs(Entry(e), w);
  }

  // ----------------------------------------------------------------------
  // Nothing is added, either
  // ----------------------------------------------------------------------

  /**
    Ranges without bounds start at nodes of their own: `own` says that nothing
    else starts at the node that `e` starts at, or goes around it. Bounded
    ranges have their bounds in order.
   */
  predicate Meant(e: Expr, own: bool)
    decreases e, 0
  {
    match e
    case Name(_) => true
    case Choice(es) => MeantApart(es)
    case Sequence(es) => MeantInTurn(es, own)
    case Star(b) => Meant(b, false)
    case Plus(b) => Meant(b, false)
    case Opt(b) => Meant(b, false)
    case Range(min, max, b) =>
      if max.None? then Meant(b, false) && (own || min > 0)
      else min <= max.value && Meant(b, own && min == max.value)
  }

  predicate MeantApart(es: seq<Expr>)
    decreases es, 0
  {
    es == [] || (Meant(es[0], false) && MeantApart(es[1..]))
  }

  /** Between the parts of a sequence there are nodes of their own. */
  predicate MeantInTurn(es: seq<Expr>, own: bool)
    decreases es, 0
  {
    es == [] || (Meant(es[0], own) && MeantInTurn(es[1..], true))
  }

  /** Without a loop at its start, an expression can start anywhere. */
  lemma {:induction false} MeantAnywhere(e: Expr)
    requires Meant(e, false)
    ensures Loops(e) == []
    decreases e, 0
  {
    match e
    case Name(_) =>
    case Choice(es) => ApartLoops(es);
    case Sequence(es) =>
      if es != [] {
        MeantAnywhere(es[0]);
      }
    case Star(_) =>
    case Plus(b) => MeantAnywhere(b);
    case Opt(b) => MeantAnywhere(b);
    case Range(min, max, b) => MeantAnywhere(b);
  }

  lemma {:induction false} ApartLoops(es: seq<Expr>)
    requires MeantApart(es)
    ensures LoopsOfAll(es) == []
    decreases es, 0
  {
    if es != [] {
      MeantAnywhere(es[0]);
      ApartLoops(es[1..]);
    }
  }

  lemma {:induction false} MeantMore(e: Expr)
    requires Meant(e, false)
    ensures Meant(e, true)
    decreases e, 0
  {
    match e
    case Name(_) =>
    case Choice(_) =>
    case Sequence(es) =>
      if es != [] {
        MeantMore(es[0]);
      }
    case Star(_) =>
    case Plus(_) =>
    case Opt(_) =>
    case Range(min, max, b) => MeantMore(b);
  }

  /** The same things may follow. */
  ghost predicate Same(a: seq<Expr>, b: seq<Expr>) {
    Within(a, b) && Within(b, a)
  }

  lemma GoesSame(f: seq<Expr>, g: seq<Expr>, e: Expr, k: seq<Expr>)
    requires Goes(f, e, k) && Same(f, g)
    ensures Goes(g, e, k)
  {
    hide AllowsAll, Within, Loops, Through;
    WithinTrans([Through(e)] + k, f, g);
    forall i | 0 <= i < |Loops(e)| ensures Within([Loops(e)[i]] + g, g) {
      WithinHead(Loops(e)[i], g, f);
      WithinTrans([Loops(e)[i]] + g, [Loops(e)[i]] + f, f);
      WithinTrans([Loops(e)[i]] + g, f, g);
    }
  }

  /** Before less, an expression leads from the same. */
  lemma GoesLess(f: seq<Expr>, e: Expr, k: seq<Expr>, k0: seq<Expr>)
    requires Goes(f, e, k) && Within(k0, k)
    ensures Goes(f, e, k0)
  {
    hide AllowsAll, Within, Absorbs, Loops, Through;
    WithinHead(Through(e), k0, k);
    WithinTrans([Through(e)] + k0, [Through(e)] + k, f);
  }

  /** What loops nowhere at its start leads from wherever it may follow. */
  lemma GoesAnywhere(f: seq<Expr>, e: Expr, k: seq<Expr>)
    requires Goes([e] + k, e, k) && Loops(e) == [] && Within([e] + k, f)
    ensures Goes(f, e, k)
  {
    hide AllowsAll, Within, Loops, Through;
    WithinTrans([Through(e)] + k, [e] + k, f);
  }

  /** Meant as it is, an expression may be gone into wherever it may follow. */
  lemma {:induction false} MeantGoes(e: Expr, own: bool, k: seq<Expr>)
    requires Meant(e, own)
    ensures Goes([e] + k, e, k)
    decreases e, 0
  {
    hide AllowsAll, Within, Goes, Around;
    var f := [e] + k;
    match e
    case Name(_) => NameGoes(e, k);
    case Choice(es) => ChoiceGoes(es, k);
    case Sequence(es) => SequenceGoes(es, own, k);
    case Star(b) => StarGoes(b, k);
    case Plus(b) =>
      StarGoes(b, k);
      PlusGoes(b, k);
    case Opt(b) =>
      OptWithin(b, k);
      MeantGoes(b, false, k);
      MeantAnywhere(b);
      GoesAnywhere(f, b, k);
      OptGoes(f, b, k);
    case Range(min, max, b) =>
      if max.Some? && own && min == max.value {
      } else {
        MeantMore(b);
      }
      RangeGoes(b, own, min, max, k);
  }

  lemma NameGoes(e: Expr, k: seq<Expr>)
    requires e.Name?
    ensures Goes([e] + k, e, k)
  {
    hide AllowsAll, Within;
    WithinItself([e] + k);
  }

  lemma {:induction false} ChoiceGoes(es: seq<Expr>, k: seq<Expr>)
    requires MeantApart(es)
    ensures Goes([Choice(es)] + k, Choice(es), k)
    decreases es, 1
  {
    hide AllowsAll, Within, Goes;
    var f := [Choice(es)] + k;
    ApartLoops(es);
    forall i | 0 <= i < |es| ensures Within([ThroughEach(es)[i]] + k, f) {
      ChoiceWithin(es, i, k);
      PartGoes(f, es, i, k);
    }
    ChoiceInto(ThroughEach(es), k, f);
    NowGoes(f, Choice(es), k);
  }

  lemma NowGoes(f: seq<Expr>, e: Expr, k: seq<Expr>)
    requires Within([Through(e)] + k, f) && Loops(e) == []
    ensures Goes(f, e, k)
  {
    hide Within;
  }

  lemma {:induction false} PartGoes(f: seq<Expr>, es: seq<Expr>, i: nat, k: seq<Expr>)
    requires MeantApart(es) && i < |es| && Within([es[i]] + k, f)
    ensures Within([ThroughEach(es)[i]] + k, f)
    decreases es, 0
  {
    hide AllowsAll, Within, Goes, Through;
    if i == 0 {
      MeantGoes(es[0], false, k);
      GoesOn([es[0]] + k, es[0], k);
      WithinTrans([Through(es[0])] + k, [es[0]] + k, f);
    } else {
      PartGoes(f, es[1..], i - 1, k);
      assert ThroughEach(es)[i] == ThroughEach(es[1..])[i - 1];
    }
  }

  lemma {:induction false} SequenceGoes(es: seq<Expr>, own: bool, k: seq<Expr>)
    requires MeantInTurn(es, own)
    ensures Goes([Sequence(es)] + k, Sequence(es), k)
    decreases es, 1
  {
    hide AllowsAll, Within, Goes, Entries;
    var f := [Sequence(es)] + k;
    if es == [] {
      WithinItself(f);
      NowGoes(f, Sequence(es), k);
    } else {
      var rest, c := es[1..] + k, Entries(es[1..]) + k;
      InTurnGoes(es[1..], k);
      MeantGoes(es[0], own, rest);
      assert es + k == [es[0]] + rest;
      ListUnder(es, k);
      ListWithin(es, k);
      GoesSame([es[0]] + rest, f, es[0], rest);
      GoesLess(f, es[0], rest, c);
      FirstGoes(f, es, k);
    }
  }

  lemma FirstGoes(f: seq<Expr>, es: seq<Expr>, k: seq<Expr>)
    requires es != [] && Goes(f, es[0], Entries(es[1..]) + k)
    ensures Goes(f, Sequence(es), k)
  {
    hide AllowsAll, Within, Absorbs, Entries;
    ListIn([Through(es[0])], Entries(es[1..]), k, f);
  }

  lemma {:induction false} InTurnGoes(es: seq<Expr>, k: seq<Expr>)
    requires MeantInTurn(es, true)
    ensures Within(Entries(es) + k, es + k)
    decreases es, 0
  {
    hide AllowsAll, Within, Goes, Entry;
    if es == [] {
      assert Entries(es) + k == es + k;
      WithinItself(es + k);
    } else {
      var rest, c := es[1..] + k, Entries(es[1..]) + k;
      assert Entries(es) + k == Entry(es[0]) + c && es + k == [es[0]] + rest;
      InTurnGoes(es[1..], k);
      MeantGoes(es[0], true, rest);
      GoesLess([es[0]] + rest, es[0], rest, c);
      GoesIn([es[0]] + rest, es[0], c);
    }
  }

  lemma {:induction false} StarGoes(b: Expr, k: seq<Expr>)
    requires Meant(b, false)
    ensures Goes([Star(b)] + k, Star(b), k) && Within([Around(b)] + k, [Star(b)] + k)
    decreases b, 1
  {
    assert Through(Star(b)) == Around(b);
    hide AllowsAll, Within, Goes, Absorbs, Through;
    var f := [Star(b)] + k;
    StarWithin(b, k);
    MeantGoes(b, false, f);
    MeantAnywhere(b);
    GoesAnywhere(f, b, f);
    AroundIn(f, b);
    WithinHead(Around(b), k, f);
    WithinTrans([Around(b)] + k, [Around(b)] + f, f);
    NowGoes(f, Star(b), k);
  }

  lemma AroundIn(f: seq<Expr>, b: Expr)
    requires Goes(f, b, f)
    ensures Within([Around(b)] + f, f)
  {
    hide AllowsAll, Within, Loops, Through;
    RoundsIn(Loops(b) + [Through(b)], f);
  }

  lemma {:induction false} PlusGoes(b: Expr, k: seq<Expr>)
    requires Meant(b, false) && Within([Around(b)] + k, [Star(b)] + k)
    ensures Goes([Plus(b)] + k, Plus(b), k)
    decreases b, 1
  {
    hide AllowsAll, Within, Goes, Absorbs, Around;
    var f, f0, c := [Plus(b)] + k, [Star(b)] + k, [Around(b)] + k;
    StarWithin(b, k);
    MeantGoes(b, false, f0);
    MeantAnywhere(b);
    GoesAnywhere(f, b, f0);
    GoesLess(f, b, f0, c);
    GoesOn(f, b, c);
    var l := [Through(b)] + [Around(b)];
    assert [Through(b), Around(b)] == l;
    assert Through(Plus(b)) == Sequence(l);
    ListIn([Through(b)], [Around(b)], k, f);
    NowGoes(f, Plus(b), k);
  }

  lemma OptGoes(f: seq<Expr>, b: Expr, k: seq<Expr>)
    requires Goes(f, b, k) && Within(k, f)
    ensures Goes(f, Opt(b), k)
  {
    hide AllowsAll, Within, Absorbs;
    OptInto(Through(b), k, f);
  }

  // ----------------------------------------------------------------------
  // Ranges that are meant as they are
  // ----------------------------------------------------------------------

  lemma {:induction false} RangeGoes(b: Expr, own: bool, min: nat, max: Option<nat>, k: seq<Expr>)
    requires Meant(b, true) && Meant(Range(min, max, b), true)
    ensures Goes([Range(min, max, b)] + k, Range(min, max, b), k)
    decreases b, 1, min, if max.Some? then max.value else 0
  {
    hide AllowsAll, Within, Goes, Remaining;
    var f := [Range(min, max, b)] + k;
    if min > 0 {
      var c := [Range(min - 1, Fewer(max), b)] + k;
      RangeGoes(b, true, min - 1, Fewer(max), k);
      MeantGoes(b, true, c);
      RangeFirst(min, max, b, k);
      RangeWithin(min, max, b, k);
      GoesSame([b] + c, f, b, c);
      RemainingIn(c, b, min - 1, Fewer(max), k);
      GoesLess(f, b, c, Remaining(b, min - 1, Fewer(max)) + k);
      MinGoes(f, b, min, max, k);
    } else if max.None? {
      RangeOn(b, k);
      RangeSkip(None, b, k);
      MeantGoes(b, false, f);
      MeantAnywhere(b);
      GoesAnywhere(f, b, f);
      LoopGoes(f, b, k);
    } else if max.value == 0 {
      RangeSkip(max, b, k);
      NoneGoes(f, b, k);
    } else {
      var m := max.value;
      var c := [Range(0, Some(m - 1), b)] + k;
      RangeGoes(b, true, 0, Some(m - 1), k);
      RangeUpTo(m, b, k);
      MeantGoes(b, false, c);
      MeantAnywhere(b);
      GoesAnywhere(f, b, c);
      RemainingIn(c, b, 0, Some(m - 1), k);
      var rest := Remaining(b, 0, Some(m - 1)) + k;
      GoesLess(f, b, c, rest);
      WithinTrans(rest, c, f);
      MaxGoes(f, b, m, k);
    }
  }

  lemma MinGoes(f: seq<Expr>, b: Expr, min: nat, max: Option<nat>, k: seq<Expr>)
    requires min > 0 && Goes(f, b, Remaining(b, min - 1, Fewer(max)) + k)
    ensures Goes(f, Range(min, max, b), k)
  {
    hide AllowsAll, Within, Absorbs, Remaining, Loops, Through;
    ThroughMin(b, min, max);
    ListIn([Through(b)], Remaining(b, min - 1, Fewer(max)), k, f);
  }

  lemma LoopGoes(f: seq<Expr>, b: Expr, k: seq<Expr>)
    requires Goes(f, b, f) && Within(k, f)
    ensures Goes(f, Range(0, None, b), k)
  {
    hide AllowsAll, Within, Remaining, Loops, Through;
    ThroughLoop(b);
    NothingThrough(k);
    WithinTrans([Sequence([])] + k, k, f);
  }

  lemma NoneGoes(f: seq<Expr>, b: Expr, k: seq<Expr>)
    requires Within(k, f)
    ensures Goes(f, Range(0, Some(0), b), k)
  {
    hide AllowsAll, Within, Remaining, Loops, Through;
    ThroughMax(b, 0);
    NothingThrough(k);
    WithinTrans([Sequence([])] + k, k, f);
  }

  lemma MaxGoes(f: seq<Expr>, b: Expr, m: nat, k: seq<Expr>)
    requires m > 0
    requires var c := Remaining(b, 0, Some(m - 1)) + k; Goes(f, b, c) && Within(c, f)
    ensures Goes(f, Range(0, Some(m), b), k)
  {
    hide AllowsAll, Within, Absorbs, Remaining, RangeThrough, Copies, SkipEntry, Loops, Through;
    ThroughMax(b, m);
    ThroughMax(b, m - 1);
    var rest := Remaining(b, 0, Some(m - 1));
    OptInto(Through(b), rest + k, f);
    ListIn([Opt(Through(b))], rest, k, f);
  }

  lemma ListIn(x: seq<Expr>, rest: seq<Expr>, k: seq<Expr>, f: seq<Expr>)
    requires Within(x + (rest + k), f)
    ensures Within([Sequence(x + rest)] + k, f)
  {
    hide AllowsAll, Within;
    ListUnder(x + rest, k);
    assert (x + rest) + k == x + (rest + k);
    WithinTrans([Sequence(x + rest)] + k, (x + rest) + k, f);
  }

  /** What a range may lead from holds the rest of it, from a node of its own. */
  lemma RemainingIn(f: seq<Expr>, b: Expr, min: nat, max: Option<nat>, k: seq<Expr>)
    requires Goes(f, Range(min, max, b), k)
    ensures Within(Remaining(b, min, max) + k, f)
  {
    hide AllowsAll, Within, Goes, Remaining, Loops, Through, Around, Entry, SkipEntry;
    if min > 0 {
      var rest := Remaining(b, min - 1, Fewer(max));
      GoesMin(f, b, min, max, k);
      RemainingLess(b, min, max);
      assert Remaining(b, min, max) + k == Entry(b) + (rest + k);
      GoesIn(f, b, rest + k);
    } else if max.None? {
      GoesLoop(f, b, k);
      GoesEnd(f, b, max, k);
      ThroughLoop(b);
      AroundIn(f, b);
      WithinHead(Around(b), k, f);
      WithinTrans([Around(b)] + k, [Around(b)] + f, f);
    } else {
      ThroughMax(b, max.value);
      SkipsIn(f, b, max.value, k);
    }
  }

  lemma SkipsIn(f: seq<Expr>, b: Expr, m: nat, k: seq<Expr>)
    requires Goes(f, Range(0, Some(m), b), k)
    ensures Within(Copies(SkipEntry(b), m) + k, f)
  {
    hide AllowsAll, Within, Goes, Remaining, Loops, Through, SkipEntry, RangeThrough;
    if m == 0 {
      GoesEnd(f, b, Some(0), k);
      assert [] + k == k;
    } else {
      SomeSkipsIn(f, b, m, k, Copies(SkipEntry(b), m - 1));
    }
  }

  lemma SomeSkipsIn(f: seq<Expr>, b: Expr, m: nat, k: seq<Expr>, rest: seq<Expr>)
    requires m > 0 && Goes(f, Range(0, Some(m), b), k) && rest == Copies(SkipEntry(b), m - 1)
    ensures Within((SkipEntry(b) + rest) + k, f)
  {
    hide AllowsAll, Within, Goes, Remaining, Loops, Through, SkipEntry, RangeThrough, Copies;
    GoesMax(f, b, m, k);
    ThroughMax(b, m - 1);
    SkipIn(f, b, rest + k);
    assert (SkipEntry(b) + rest) + k == SkipEntry(b) + (rest + k);
  }

  lemma SkipIn(f: seq<Expr>, b: Expr, c: seq<Expr>)
    requires Goes(f, b, c) && Within(c, f)
    ensures Within(SkipEntry(b) + c, f)
  {
    hide AllowsAll, Within, Absorbs, Loops, Through;
    var l, x := Star(Choice(Loops(b))), Opt(Through(b));
    OptInto(Through(b), c, f);
    assert SkipEntry(b) + c == [l] + ([x] + c);
    WithinHead(l, [x] + c, f);
    RoundsIn(Loops(b), f);
    WithinTrans([l] + ([x] + c), [l] + f, f);
  }

  /** Then what the compiled expression stands for is what the expression allows. */
  lemma WholeIsMeant(e: Expr, w: seq<nat>)
    requires Meant(e, true)
    ensures Allows(Whole(e), w) <==> Allows(e, w)
  {
    hide Allows, AllowsAll, Goes, Entry, Meant;
    MeantGoes(e, true, []);
    GoesIn([e] + [], e, []);
    assert Entry(e) + [] == Entry(e) && [e] + [] == [e];
    SequenceIs(Entry(e), w);
    OneIs(e, w);
    if Allows(e, w) {
      NothingLost(e, w);
    }
  }

  // ----------------------------------------------------------------------
  // A range without bounds that does share its start
  // ----------------------------------------------------------------------

  /** Either repetitions of `b`, or one of `es`. */
  function RoundsOr(b: Expr, es: seq<Expr>): Expr {
    Choice([Range(0, None, b)] + es)
  }

  /** Repetitions of `b`, and after them nothing or one of `es`. */
  function RoundsThen(b: Expr, es: seq<Expr>): Expr {
    Sequence([Range(0, None, b), Opt(Choice(es))])
  }

  lemma RoundsOver(b: Expr, es: seq<Expr>)
    ensures Within([Range(0, None, b)] + [Opt(Choice(es))], Entry(RoundsOr(b, es)))
  {
    hide AllowsAll, Within, Goes, Entry;
    var g, all, r := Entry(RoundsOr(b, es)), [Range(0, None, b)] + es, Range(0, None, b);
    GoesEntry(RoundsOr(b, es), []);
    assert g + [] == g;
    forall i | 0 <= i < |es| ensures Within([es[i]] + [], g) {
      assert all[i + 1] == es[i];
      GoesChoice(g, all, i + 1, []);
      Over(g, es[i], []);
    }
    ChoiceInto(es, [], g);
    assert all[0] == r;
    GoesChoice(g, all, 0, []);
    GoesEnd(g, b, None, []);
    OptInto(Choice(es), [], g);
    GoesLoop(g, b, []);
    Over(g, b, g);
    StarInto(b, g);
    RangeStar(b);
    UnderHead(r, Star(b), g);
    WithinTrans([r] + g, [Star(b)] + g, g);
    assert [Opt(Choice(es))] + [] == [Opt(Choice(es))];
    WithinHead(r, [Opt(Choice(es))], g);
    WithinTrans([r] + [Opt(Choice(es))], [r] + g, g);
  }

  lemma RoundsUnder(b: Expr, es: seq<Expr>)
    requires Meant(b, false) && MeantApart(es)
    ensures Within(Entry(RoundsOr(b, es)), [Range(0, None, b)] + [Opt(Choice(es))])
  {
    hide AllowsAll, Within, Goes, Meant;
    var r, o := Range(0, None, b), Opt(Choice(es));
    var f, all := [r] + [o], [r] + es;
    RangeOn(b, [o]);
    MeantGoes(b, false, f);
    MeantAnywhere(b);
    GoesAnywhere(f, b, f);
    GoesOn(f, b, f);
    RangeSkip(None, b, [o]);
    OptWithin(Choice(es), []);
    assert [o] + [] == [o];
    WithinTrans([], [o], f);
    forall i | 0 <= i < |all| ensures Within([ThroughEach(all)[i]] + [], f) {
      if i == 0 {
        ThroughLoop(b);
        NothingThrough([]);
        WithinTrans([Sequence([])] + [], [], f);
      } else {
        assert all[1..] == es && ThroughEach(all)[i] == ThroughEach(es)[i - 1];
        ChoiceWithin(es, i - 1, []);
        WithinTrans([es[i - 1]] + [], [Choice(es)] + [], [o]);
        WithinTrans([es[i - 1]] + [], [o], f);
        PartGoes(f, es, i - 1, []);
      }
    }
    ChoiceInto(ThroughEach(all), [], f);
    ApartLoops(es);
    RoundsGo(f, b, es);
    GoesIn(f, Choice(all), []);
    assert Entry(Choice(all)) + [] == Entry(Choice(all));
  }

  lemma RoundsGo(f: seq<Expr>, b: Expr, es: seq<Expr>)
    requires Loops(b) == [] && LoopsOfAll(es) == [] && Within([Through(b)] + f, f)
    requires var all := [Range(0, None, b)] + es; Within([Choice(ThroughEach(all))] + [], f)
    ensures Goes(f, RoundsOr(b, es), [])
  {
    hide Within, Through, ThroughEach;
    var all := [Range(0, None, b)] + es;
    ThroughLoop(b);
    assert all[1..] == es;
    assert LoopsOfAll(all) == ([] + [Through(b)]) + [] == [Through(b)];
    ThroughChoice(all);
  }

  lemma ThroughChoice(es: seq<Expr>)
    ensures Through(Choice(es)) == Choice(ThroughEach(es)) && Loops(Choice(es)) == LoopsOfAll(es)
  {
  }

  /** What starts beside the range can be gone into after any number of rounds. */
  lemma RoundsStandFor(b: Expr, es: seq<Expr>, w: seq<nat>)
    requires Meant(b, false) && MeantApart(es)
    ensures Allows(Whole(RoundsOr(b, es)), w) <==> Allows(RoundsThen(b, es), w)
  {
    hide Allows, AllowsAll, Entry, Meant;
    RoundsOver(b, es);
    RoundsUnder(b, es);
    var l := [Range(0, None, b)] + [Opt(Choice(es))];
    assert [Range(0, None, b), Opt(Choice(es))] == l;
    SequenceIs(l, w);
    SequenceIs(Entry(RoundsOr(b, es)), w);
  }
}
