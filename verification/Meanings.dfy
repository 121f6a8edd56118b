/**
  What a compiled content expression stands for. A range without a lower
  bound and without an upper one goes around the very node it starts at, so
  whatever else starts at that node can be gone into after some rounds.
 */
module Meanings {
  import opened Options
  import opened Expressions

  /** What goes around the node that an expression starts at. */
  function Loops(e: Expr): seq<Expr>
    decreases e, 0
  {
    match e
    case Name(_) => []
    case Choice(es) => LoopsOfAll(es)
    case Sequence(es) => if es == [] then [] else Loops(es[0])
    case Star(_) => []
    case Plus(b) => Loops(b)
    case Opt(b) => Loops(b)
    case Range(min, max, b) =>
      if min == 0 && max.None? then Loops(b) + [Through(b)]
      else if min == 0 && Optional(min, max) == 0 then []
      else Loops(b)
  }

  /** What leads from that node, once it is left for good, to where the expression ends. */
  function Through(e: Expr): Expr
    decreases e, 0
  {
    match e
    case Name(_) => e
    case Choice(es) => Choice(ThroughEach(es))
    case Sequence(es) => if es == [] then e else Sequence([Through(es[0])] + Entries(es[1..]))
    case Star(b) => Around(b)
    case Plus(b) => Sequence([Through(b), Around(b)])
    case Opt(b) => Opt(Through(b))
    case Range(min, max, b) => Sequence(RangeThrough(b, min, max))
  }

  function LoopsOfAll(es: seq<Expr>): seq<Expr>
    decreases es, 0
  {
    if es == [] then [] else Loops(es[0]) + LoopsOfAll(es[1..])
  }

  function ThroughEach(es: seq<Expr>): (r: seq<Expr>)
    ensures |r| == |es|
    decreases es, 0
  {
    if es == [] then [] else [Through(es[0])] + ThroughEach(es[1..])
  }

  /** From a node of its own: rounds of the loops there, and then on. */
  function Entry(e: Expr): seq<Expr>
    decreases e, 1
  {
    [Star(Choice(Loops(e))), Through(e)]
  }

  function Entries(es: seq<Expr>): seq<Expr>
    decreases es, 0
  {
    if es == [] then [] else Entry(es[0]) + Entries(es[1..])
  }

  /** From a node of its own, at which the expression also ends. */
  function Around(b: Expr): Expr
    decreases b, 1
  {
    Star(Choice(Loops(b) + [Through(b)]))
  }

  /** From a node of its own, which may also be passed over. */
  function SkipEntry(b: Expr): seq<Expr>
    decreases b, 1
  {
    [Star(Choice(Loops(b))), Opt(Through(b))]
  }

  function Copies(x: seq<Expr>, n: nat): seq<Expr> {
    if n == 0 then [] else x + Copies(x, n - 1)
  }

  /** From a node of its own, the rest of a range. */
  function Remaining(b: Expr, min: nat, max: Option<nat>): seq<Expr>
    decreases b, 2
  {
    Copies(Entry(b), min) + if max.None? then [Around(b)] else Copies(SkipEntry(b), Optional(min, max))
  }

  function RangeThrough(b: Expr, min: nat, max: Option<nat>): seq<Expr>
    decreases b, 3
  {
    if min > 0 then [Through(b)] + Remaining(b, min - 1, Fewer(max))
    else if max.None? || max.value == 0 then []
    else [Opt(Through(b))] + Copies(SkipEntry(b), max.value - 1)
  }

  /** What the automaton of the whole expression accepts. */
  function Whole(e: Expr): Expr {
    Sequence(Entry(e))
  }

  // ----------------------------------------------------------------------
  // From node to node
  // ----------------------------------------------------------------------

  /** Each of the loops may come before what follows, without changing what follows. */
  ghost predicate Absorbs(f: seq<Expr>, loops: seq<Expr>) {
    forall i :: 0 <= i < |loops| ==> Within([loops[i]] + f, f)
  }

  /** Where `f` may follow, the expression may, and then `k`. */
  ghost predicate Goes(f: seq<Expr>, e: Expr, k: seq<Expr>) {
    Within([Through(e)] + k, f) && Absorbs(f, Loops(e))
  }

  lemma AbsorbsBoth(f: seq<Expr>, a: seq<Expr>, b: seq<Expr>)
    requires Absorbs(f, a + b)
    ensures Absorbs(f, a) && Absorbs(f, b)
  {
    hide AllowsAll, Within;
    forall i | 0 <= i < |a| ensures Within([a[i]] + f, f) {
      assert (a + b)[i] == a[i];
    }
    forall i | 0 <= i < |b| ensures Within([b[i]] + f, f) {
      assert (a + b)[|a| + i] == b[i];
    }
  }

  /** Rounds of loops absorb each of them, and are over at any time. */
  lemma RoundsAbsorb(loops: seq<Expr>, k: seq<Expr>)
    ensures Absorbs([Star(Choice(loops))] + k, loops) && Within(k, [Star(Choice(loops))] + k)
  {
    hide AllowsAll, Within;
    var f := [Star(Choice(loops))] + k;
    StarWithin(Choice(loops), k);
    forall i | 0 <= i < |loops| ensures Within([loops[i]] + f, f) {
      ChoiceWithin(loops, i, f);
      WithinTrans([loops[i]] + f, [Choice(loops)] + f, f);
    }
  }

  lemma {:induction false} PartLoops(f: seq<Expr>, es: seq<Expr>, i: nat)
    requires i < |es| && Absorbs(f, LoopsOfAll(es))
    ensures Absorbs(f, Loops(es[i])) && ThroughEach(es)[i] == Through(es[i])
    decreases i
  {
    hide Absorbs, Loops, Through;
    AbsorbsBoth(f, Loops(es[0]), LoopsOfAll(es[1..]));
    if i > 0 {
      PartLoops(f, es[1..], i - 1);
    }
  }

  lemma GoesChoice(f: seq<Expr>, es: seq<Expr>, i: nat, k: seq<Expr>)
    requires i < |es| && Goes(f, Choice(es), k)
    ensures Goes(f, es[i], k)
  {
    hide AllowsAll, Within, Absorbs;
    PartLoops(f, es, i);
    ChoiceWithin(ThroughEach(es), i, k);
    WithinTrans([Through(es[i])] + k, [Choice(ThroughEach(es))] + k, f);
  }

  /** The first of a list, when the list goes through. */
  lemma ListFirst(f: seq<Expr>, x: Expr, rest: seq<Expr>, k: seq<Expr>)
    requires Within([Sequence([x] + rest)] + k, f)
    ensures Within([x] + (rest + k), f)
  {
    hide AllowsAll;
    ListWithin([x] + rest, k);
    assert [x] + (rest + k) == ([x] + rest) + k;
    WithinTrans([x] + (rest + k), [Sequence([x] + rest)] + k, f);
  }

  lemma GoesFirst(f: seq<Expr>, es: seq<Expr>, k: seq<Expr>)
    requires es != [] && Goes(f, Sequence(es), k)
    ensures Goes(f, es[0], Entries(es[1..]) + k)
  {
    hide AllowsAll, Within, Absorbs;
    ListFirst(f, Through(es[0]), Entries(es[1..]), k);
  }

  lemma GoesEntry(e: Expr, k: seq<Expr>)
    ensures Goes(Entry(e) + k, e, k)
  {
    hide AllowsAll, Within, Absorbs, Loops, Through;
    var l := Star(Choice(Loops(e)));
    assert Entry(e) + k == [l] + ([Through(e)] + k);
    RoundsAbsorb(Loops(e), [Through(e)] + k);
  }

  lemma GoesList(es: seq<Expr>, k: seq<Expr>)
    requires es != []
    ensures Goes(Entries(es) + k, Sequence(es), k)
  {
    hide AllowsAll, Within, Absorbs;
    var rest := Entries(es[1..]);
    assert Entries(es) + k == Entry(es[0]) + (rest + k);
    GoesEntry(es[0], rest + k);
    var f := Entries(es) + k;
    ListUnder([Through(es[0])] + rest, k);
    assert ([Through(es[0])] + rest) + k == [Through(es[0])] + (rest + k);
    WithinTrans([Sequence([Through(es[0])] + rest)] + k, [Through(es[0])] + (rest + k), f);
  }

  /** A node that a loop goes around. */
  lemma GoesAround(b: Expr, k: seq<Expr>)
    ensures Goes([Around(b)] + k, b, [Around(b)] + k) && Within(k, [Around(b)] + k)
  {
    hide AllowsAll, Within, Loops, Through;
    var all, f := Loops(b) + [Through(b)], [Around(b)] + k;
    RoundsAbsorb(all, k);
    AbsorbsBoth(f, Loops(b), [Through(b)]);
    assert Within([[Through(b)][0]] + f, f);
  }

  lemma GoesPlus(f: seq<Expr>, b: Expr, k: seq<Expr>)
    requires Goes(f, Plus(b), k)
    ensures Goes(f, b, [Around(b)] + k)
  {
    hide AllowsAll, Within, Absorbs;
    var l := [Through(b)] + [Around(b)];
    assert [Through(b), Around(b)] == l;
    assert Through(Plus(b)) == Sequence(l);
    ListFirst(f, Through(b), [Around(b)], k);
  }

  lemma GoesOpt(f: seq<Expr>, b: Expr, k: seq<Expr>)
    requires Goes(f, Opt(b), k)
    ensures Goes(f, b, k) && Within(k, f)
  {
    hide AllowsAll, Within, Absorbs;
    OptWithin(Through(b), k);
    WithinTrans(k, [Opt(Through(b))] + k, f);
    WithinTrans([Through(b)] + k, [Opt(Through(b))] + k, f);
  }

  // ----------------------------------------------------------------------
  // Ranges
  // ----------------------------------------------------------------------

  lemma ThroughMin(b: Expr, min: nat, max: Option<nat>)
    requires min > 0
    ensures Through(Range(min, max, b)) == Sequence([Through(b)] + Remaining(b, min - 1, Fewer(max)))
    ensures Loops(Range(min, max, b)) == Loops(b)
  {
    hide Remaining;
    assert RangeThrough(b, min, max) == [Through(b)] + Remaining(b, min - 1, Fewer(max));
  }

  lemma ThroughMax(b: Expr, m: nat)
    ensures Through(Range(0, Some(m), b)) == Sequence(if m == 0 then [] else [Opt(Through(b))] + Copies(SkipEntry(b), m - 1))
    ensures Loops(Range(0, Some(m), b)) == if m == 0 then [] else Loops(b)
    ensures Remaining(b, 0, Some(m)) == Copies(SkipEntry(b), m)
  {
    hide SkipEntry, Entry;
    assert RangeThrough(b, 0, Some(m)) == if m == 0 then [] else [Opt(Through(b))] + Copies(SkipEntry(b), m - 1);
    assert Remaining(b, 0, Some(m)) == [] + Copies(SkipEntry(b), m) == Copies(SkipEntry(b), m);
  }

  lemma ThroughLoop(b: Expr)
    ensures Through(Range(0, None, b)) == Sequence([]) && Loops(Range(0, None, b)) == Loops(b) + [Through(b)]
    ensures Remaining(b, 0, None) == [Around(b)]
  {
    hide Around;
    assert RangeThrough(b, 0, None) == [];
    assert Remaining(b, 0, None) == [] + [Around(b)] == [Around(b)];
  }

  lemma GoesMin(f: seq<Expr>, b: Expr, min: nat, max: Option<nat>, k: seq<Expr>)
    requires min > 0 && Goes(f, Range(min, max, b), k)
    ensures Goes(f, b, Remaining(b, min - 1, Fewer(max)) + k)
  {
    hide AllowsAll, Within, Absorbs, Remaining;
    ThroughMin(b, min, max);
    ListFirst(f, Through(b), Remaining(b, min - 1, Fewer(max)), k);
  }

  /** Through nothing. */
  lemma NothingThrough(k: seq<Expr>)
    ensures Within([Sequence([])] + k, k) && Within(k, [Sequence([])] + k)
  {
    hide AllowsAll;
    ListUnder([], k);
    ListWithin([], k);
    assert [] + k == k;
  }

  lemma GoesEnd(f: seq<Expr>, b: Expr, max: Option<nat>, k: seq<Expr>)
    requires max.None? || max.value == 0
    requires Goes(f, Range(0, max, b), k)
    ensures Within(k, f)
  {
    hide AllowsAll, Within, Absorbs;
    if max.None? {
      ThroughLoop(b);
    } else {
      ThroughMax(b, 0);
    }
    NothingThrough(k);
    WithinTrans(k, [Sequence([])] + k, f);
  }

  lemma GoesLoop(f: seq<Expr>, b: Expr, k: seq<Expr>)
    requires Goes(f, Range(0, None, b), k)
    ensures Goes(f, b, f)
  {
    hide AllowsAll, Within;
    AbsorbsBoth(f, Loops(b), [Through(b)]);
    assert Within([[Through(b)][0]] + f, f);
  }

  /** From a node where copies may be passed over, to the next such node. */
  lemma GoesMax(f: seq<Expr>, b: Expr, m: nat, k: seq<Expr>)
    requires m > 0 && Goes(f, Range(0, Some(m), b), k)
    ensures var c := Remaining(b, 0, Some(m - 1)) + k;
            Goes(f, b, c) && Within(c, f)
  {
    hide AllowsAll, Within, Absorbs;
    var rest := Copies(SkipEntry(b), m - 1);
    ThroughMax(b, m);
    ThroughMax(b, m - 1);
    ListFirst(f, Opt(Through(b)), rest, k);
    OptWithin(Through(b), rest + k);
    WithinTrans(rest + k, [Opt(Through(b))] + (rest + k), f);
    WithinTrans([Through(b)] + (rest + k), [Opt(Through(b))] + (rest + k), f);
  }

  /** The rest of a range, from a node of its own. */
  lemma GoesRemaining(b: Expr, min: nat, max: Option<nat>, k: seq<Expr>)
    ensures Goes(Remaining(b, min, max) + k, Range(min, max, b), k)
  {
    hide AllowsAll, Within, Absorbs, Loops, Through;
    var f := Remaining(b, min, max) + k;
    if min > 0 {
      RemainingMin(b, min, max, k);
    } else if max.None? {
      RemainingLoop(b, k);
    } else {
      RemainingMax(b, max.value, k);
    }
  }

  /** One copy less to come. */
  lemma RemainingLess(b: Expr, min: nat, max: Option<nat>)
    requires min > 0
    ensures Remaining(b, min, max) == Entry(b) + Remaining(b, min - 1, Fewer(max))
  {
    hide Entry, SkipEntry, Around;
    assert Optional(min, max) == Optional(min - 1, Fewer(max));
    var tail := if max.None? then [Around(b)] else Copies(SkipEntry(b), Optional(min, max));
    assert (Entry(b) + Copies(Entry(b), min - 1)) + tail == Entry(b) + (Copies(Entry(b), min - 1) + tail);
  }

  lemma RemainingMin(b: Expr, min: nat, max: Option<nat>, k: seq<Expr>)
    requires min > 0
    ensures Goes(Remaining(b, min, max) + k, Range(min, max, b), k)
  {
    hide AllowsAll, Within, Absorbs, Remaining;
    var rest := Remaining(b, min - 1, Fewer(max));
    ThroughMin(b, min, max);
    RemainingLess(b, min, max);
    assert Remaining(b, min, max) + k == Entry(b) + (rest + k);
    GoesEntry(b, rest + k);
    ListUnder([Through(b)] + rest, k);
    assert ([Through(b)] + rest) + k == [Through(b)] + (rest + k);
    WithinTrans([Sequence([Through(b)] + rest)] + k, [Through(b)] + (rest + k), Remaining(b, min, max) + k);
  }

  lemma RemainingLoop(b: Expr, k: seq<Expr>)
    ensures Goes(Remaining(b, 0, None) + k, Range(0, None, b), k)
  {
    hide AllowsAll, Within, Absorbs;
    var f := [Around(b)] + k;
    ThroughLoop(b);
    RoundsAbsorb(Loops(b) + [Through(b)], k);
    NothingThrough(k);
    WithinTrans([Sequence([])] + k, k, f);
  }

  lemma RemainingMax(b: Expr, m: nat, k: seq<Expr>)
    ensures Goes(Remaining(b, 0, Some(m)) + k, Range(0, Some(m), b), k)
  {
    hide AllowsAll, Within, Absorbs, Loops, Through, Remaining, RangeThrough, SkipEntry;
    ThroughMax(b, m);
    var f := Copies(SkipEntry(b), m) + k;
    if m == 0 {
      assert f == k;
      NothingThrough(k);
      AbsorbsNothing(k);
    } else {
      OneSkipThen(b, Copies(SkipEntry(b), m - 1), k);
    }
  }

  lemma OneSkipThen(b: Expr, rest: seq<Expr>, k: seq<Expr>)
    ensures var f := SkipEntry(b) + rest + k;
            Within([Sequence([Opt(Through(b))] + rest)] + k, f) && Absorbs(f, Loops(b))
  {
    hide AllowsAll, Within, Absorbs, Loops, Through, SkipEntry;
    var x := Opt(Through(b));
    OneSkip(b, rest + k);
    assert SkipEntry(b) + rest + k == SkipEntry(b) + (rest + k);
    ListUnder([x] + rest, k);
    assert ([x] + rest) + k == [x] + (rest + k);
    WithinTrans([Sequence([x] + rest)] + k, [x] + (rest + k), SkipEntry(b) + rest + k);
  }

  lemma AbsorbsNothing(f: seq<Expr>)
    ensures Absorbs(f, [])
  {
  }

  lemma OneSkip(b: Expr, k: seq<Expr>)
    ensures var f := SkipEntry(b) + k;
            Within([Opt(Through(b))] + k, f) && Absorbs(f, Loops(b))
  {
    hide AllowsAll, Within, Absorbs, Loops, Through;
    var x := Opt(Through(b));
    assert SkipEntry(b) + k == [Star(Choice(Loops(b)))] + ([x] + k);
    RoundsAbsorb(Loops(b), [x] + k);
  }
}
