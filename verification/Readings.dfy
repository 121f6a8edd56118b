/**
  What a compiled content expression accepts: everything that it stands for.
 */
module Readings {
  import opened Options
  import opened Expressions
  import opened Meanings
  import opened Nfas
  import opened Wiring

  /** Along `n` edges from `s` to the last node, taking the types of `w`. */
  ghost predicate Reads(f: Nfa, s: nat, w: seq<nat>, n: nat)
    decreases n, 0
  {
    s < |f| &&
    if n == 0 then s == |f| - 1 && w == []
    else exists j :: 0 <= j < |f[s]| && Takes(f, f[s][j], w, n - 1)
  }

  ghost predicate Takes(f: Nfa, e: Edge, w: seq<nat>, n: nat)
    decreases n, 1
  {
    && e.dest.Some?
    && if e.term.None? then Reads(f, e.dest.value, w, n)
       else w != [] && w[0] == e.term.value && Reads(f, e.dest.value, w[1..], n)
  }

  ghost predicate Accepts(f: Nfa, s: nat, w: seq<nat>) {
    exists n: nat :: Reads(f, s, w, n)
  }

  lemma AcceptsOver(f: Nfa, s: nat, q: nat, w: seq<nat>)
    requires HasEdge(f, s, None, q) && Accepts(f, q, w)
    ensures Accepts(f, s, w)
  {
    var n: nat :| Reads(f, q, w, n);
    var j :| 0 <= j < |f[s]| && f[s][j] == Edge(None, Some(q));
    assert Takes(f, f[s][j], w, n);
    assert Reads(f, s, w, n + 1);
  }

  lemma AcceptsType(f: Nfa, s: nat, typ: nat, q: nat, w: seq<nat>)
    requires HasEdge(f, s, Some(typ), q) && Accepts(f, q, w)
    ensures Accepts(f, s, [typ] + w)
  {
    var n: nat :| Reads(f, q, w, n);
    var j :| 0 <= j < |f[s]| && f[s][j] == Edge(Some(typ), Some(q));
    assert ([typ] + w)[1..] == w;
    assert Takes(f, f[s][j], [typ] + w, n);
    assert Reads(f, s, [typ] + w, n + 1);
  }

  lemma EndAccepts(f: Nfa)
    requires f != []
    ensures Accepts(f, |f| - 1, [])
  {
    assert Reads(f, |f| - 1, [], 0);
  }

  /** Expressions as the parser makes them: a sequence has a part. */
  predicate Parsed(e: Expr)
    decreases e, 0
  {
    match e
    case Name(_) => true
    case Choice(es) => ParsedAll(es)
    case Sequence(es) => es != [] && ParsedAll(es)
    case Star(b) => Parsed(b)
    case Plus(b) => Parsed(b)
    case Opt(b) => Parsed(b)
    case Range(_, _, b) => Parsed(b)
  }

  predicate ParsedAll(es: seq<Expr>)
    decreases es, 0
  {
    es == [] || (Parsed(es[0]) && ParsedAll(es[1..]))
  }

  /** No loop over something that may be empty. */
  predicate LoopsRead(e: Expr)
    decreases e, 0
  {
    match e
    case Name(_) => true
    case Choice(es) => LoopsReadAll(es)
    case Sequence(es) => LoopsReadAll(es)
    case Star(b) => LoopsRead(b) && !Nullable(b)
    case Plus(b) => LoopsRead(b) && !Nullable(b)
    case Opt(b) => LoopsRead(b)
    case Range(_, max, b) => LoopsRead(b) && (max.None? ==> !Nullable(b))
  }

  predicate LoopsReadAll(es: seq<Expr>)
    decreases es, 0
  {
    es == [] || (LoopsRead(es[0]) && LoopsReadAll(es[1..]))
  }

  /** Whether the expression allows nothing at all. */
  predicate Nullable(e: Expr)
    decreases e, 0
  {
    match e
    case Name(_) => false
    case Choice(es) => NullableAny(es)
    case Sequence(es) => NullableAll(es)
    case Star(_) => true
    case Plus(b) => Nullable(b)
    case Opt(_) => true
    case Range(min, _, b) => min == 0 || Nullable(b)
  }

  predicate NullableAny(es: seq<Expr>)
    decreases es, 0
  {
    es != [] && (Nullable(es[0]) || NullableAny(es[1..]))
  }

  predicate NullableAll(es: seq<Expr>)
    decreases es, 0
  {
    es == [] || (Nullable(es[0]) && NullableAll(es[1..]))
  }

  // ----------------------------------------------------------------------
  // What can be read on the way from one node to another
  // ----------------------------------------------------------------------

  /** Whatever `x` allows can be read on the way from `p` to `q`. */
  ghost predicate Passes(f: Nfa, p: nat, x: Expr, q: nat) {
    forall w: seq<nat>, v: seq<nat> :: Allows(x, w) && Accepts(f, q, v) ==> Accepts(f, p, w + v)
  }

  ghost predicate PassesAll(f: Nfa, p: nat, xs: seq<Expr>, q: nat) {
    forall w: seq<nat>, v: seq<nat> :: AllowsAll(xs, w) && Accepts(f, q, v) ==> Accepts(f, p, w + v)
  }

  /** Each of the loops goes from `p` back to it. */
  ghost predicate PassesEach(f: Nfa, p: nat, loops: seq<Expr>) {
    forall i :: 0 <= i < |loops| ==> Passes(f, p, loops[i], p)
  }

  /** The compiled expression leads from `p` to `q`. */
  ghost predicate Joins(f: Nfa, p: nat, e: Expr, q: nat) {
    Passes(f, p, Through(e), q) && PassesEach(f, p, Loops(e))
  }

  lemma PassesType(f: Nfa, p: nat, typ: nat, q: nat)
    requires HasEdge(f, p, Some(typ), q)
    ensures Passes(f, p, Name(typ), q)
  {
    hide Accepts, HasEdge;
    forall w: seq<nat>, v | Allows(Name(typ), w) && Accepts(f, q, v) ensures Accepts(f, p, w + v) {
      AcceptsType(f, p, typ, q, v);
    }
  }

  lemma PassesOver(f: Nfa, p: nat, q: nat)
    requires HasEdge(f, p, None, q)
    ensures PassesAll(f, p, [], q)
  {
    hide Accepts, HasEdge;
    forall w: seq<nat>, v | AllowsAll([], w) && Accepts(f, q, v) ensures Accepts(f, p, w + v) {
      assert w + v == v;
      AcceptsOver(f, p, q, v);
    }
  }

  lemma PassesThen(f: Nfa, p: nat, a: Expr, x: nat, rest: seq<Expr>, q: nat)
    requires Passes(f, p, a, x) && PassesAll(f, x, rest, q)
    ensures PassesAll(f, p, [a] + rest, q)
  {
    hide Accepts, AllowsAll, Allows;
    forall w, v | AllowsAll([a] + rest, w) && Accepts(f, q, v) ensures Accepts(f, p, w + v) {
      var i := HeadSplit(a, rest, w);
      assert Accepts(f, x, w[i..] + v);
      assert w[..i] + (w[i..] + v) == w + v;
    }
  }

  lemma PassesList(f: Nfa, p: nat, xs: seq<Expr>, q: nat)
    ensures PassesAll(f, p, xs, q) <==> Passes(f, p, Sequence(xs), q)
  {
    hide Accepts, AllowsAll, Allows;
    forall w ensures Allows(Sequence(xs), w) <==> AllowsAll(xs, w) {
      SequenceIs(xs, w);
    }
  }

  lemma PassesChoice(f: Nfa, p: nat, xs: seq<Expr>, q: nat)
    requires forall i :: 0 <= i < |xs| ==> Passes(f, p, xs[i], q)
    ensures Passes(f, p, Choice(xs), q)
  {
    hide Accepts;
    forall w, v | Allows(Choice(xs), w) && Accepts(f, q, v) ensures Accepts(f, p, w + v) {
      var i :| 0 <= i < |xs| && Allows(xs[i], w);
      hide Allows;
      assert Passes(f, p, xs[i], q);
    }
  }

  lemma PassesOpt(f: Nfa, p: nat, x: Expr, q: nat)
    requires Passes(f, p, x, q) && PassesAll(f, p, [], q)
    ensures Passes(f, p, Opt(x), q)
  {
    hide Accepts;
    forall w, v | Allows(Opt(x), w) && Accepts(f, q, v) ensures Accepts(f, p, w + v) {
      AllowsNothing();
      hide Allows, AllowsAll;
    }
  }

  /** Around any number of times. */
  lemma {:induction false} RoundsPass(f: Nfa, p: nat, x: Expr, ws: seq<seq<nat>>, v: seq<nat>)
    requires Passes(f, p, x, p) && Repeats(x, ws, Flat(ws)) && Accepts(f, p, v)
    ensures Accepts(f, p, Flat(ws) + v)
    decreases |ws|
  {
    hide Accepts, Allows;
    if ws == [] {
      assert Flat(ws) + v == v;
    } else {
      RoundsPass(f, p, x, ws[1..], v);
      assert Flat(ws) + v == ws[0] + (Flat(ws[1..]) + v);
    }
  }

  lemma PassesStar(f: Nfa, p: nat, x: Expr)
    requires Passes(f, p, x, p)
    ensures Passes(f, p, Star(x), p)
  {
    hide Accepts, Allows, Passes;
    forall w, v | Allows(Star(x), w) && Accepts(f, p, v) ensures Accepts(f, p, w + v) {
      StarIs(x, w);
      var ws: seq<seq<nat>> :| Repeats(x, ws, w);
      RoundsPass(f, p, x, ws, v);
    }
    PassesIs(f, p, Star(x), p);
  }

  lemma PassesIs(f: Nfa, p: nat, x: Expr, q: nat)
    requires forall w, v :: Allows(x, w) && Accepts(f, q, v) ==> Accepts(f, p, w + v)
    ensures Passes(f, p, x, q)
  {
    hide Accepts, Allows;
  }

  /** Rounds of loops, and then on. */
  lemma PassesRounds(f: Nfa, p: nat, loops: seq<Expr>, rest: seq<Expr>, q: nat)
    requires PassesEach(f, p, loops) && PassesAll(f, p, rest, q)
    ensures PassesAll(f, p, [Star(Choice(loops))] + rest, q)
  {
    hide Passes, PassesAll;
    PassesChoice(f, p, loops, p);
    PassesStar(f, p, Choice(loops));
    PassesThen(f, p, Star(Choice(loops)), p, rest, q);
  }

  lemma EachBoth(f: Nfa, p: nat, a: seq<Expr>, b: Expr)
    ensures PassesEach(f, p, a + [b]) <==> PassesEach(f, p, a) && Passes(f, p, b, p)
  {
    hide Passes;
    assert forall i :: 0 <= i < |a| ==> (a + [b])[i] == a[i];
    assert (a + [b])[|a|] == b;
  }

  lemma EachOfBoth(f: Nfa, p: nat, a: seq<Expr>, b: seq<Expr>)
    requires PassesEach(f, p, a) && PassesEach(f, p, b)
    ensures PassesEach(f, p, a + b)
  {
    hide Passes;
  }

  // ----------------------------------------------------------------------
  // Everything the expression stands for is accepted
  // ----------------------------------------------------------------------

  lemma {:induction false} Complete(f: Nfa, t: Nfa, e: Expr, p: nat, q: nat)
    requires p < |t| && Fits(f, Compile(t, e, p).0) && Leads(f, Compile(t, e, p).1, q) && Parsed(e)
    ensures Joins(f, p, e, q)
    decreases e, 0
  {
    hide Fits, Leads, Connect, CompileChoice, CompileSequence, CompileMin, CompileMax, CompileLoop, HasEdge, AddEdge, AddNode,
         SameShape, Passes, PassesAll, PassesEach;
    match e
    case Name(typ) =>
      NameStages(f, t, typ, p, q);
      PassesType(f, p, typ, q);
      NoLoops(f, p);
    case Choice(es) =>
      ChoiceComplete(f, t, es, p, q);
      PassesChoice(f, p, ThroughEach(es), q);
    case Sequence(es) =>
      SequenceComplete(f, t, es, p, q);
    case Star(b) =>
      StarComplete(f, t, b, p, q);
    case Plus(b) =>
      PlusComplete(f, t, b, p, q);
    case Opt(b) =>
      OptStages(f, t, b, p, q);
      Complete(f, AddEdge(t, p, None, None), b, p, q);
      PassesOver(f, p, q);
      PassesOpt(f, p, Through(b), q);
    case Range(min, max, b) =>
      RangeComplete(f, t, min, max, b, p, q);
  }

  lemma NoLoops(f: Nfa, p: nat)
    ensures PassesEach(f, p, [])
  {
  }

  lemma {:induction false} ChoiceComplete(f: Nfa, t: Nfa, es: seq<Expr>, p: nat, q: nat)
    requires p < |t| && Fits(f, CompileChoice(t, es, p).0) && Leads(f, CompileChoice(t, es, p).1, q) && ParsedAll(es)
    ensures PassesEach(f, p, LoopsOfAll(es)) && forall i :: 0 <= i < |es| ==> Passes(f, p, ThroughEach(es)[i], q)
    decreases es, 0
  {
    hide Fits, Leads, Compile, CompileChoice, Parsed, Loops, Through, Passes, PassesEach;
    if es == [] {
      NoLoops(f, p);
    } else {
      ChoiceStages(f, t, es, p, q);
      Complete(f, t, es[0], p, q);
      ChoiceComplete(f, Compile(t, es[0], p).0, es[1..], p, q);
      EachOfBoth(f, p, Loops(es[0]), LoopsOfAll(es[1..]));
      assert forall i :: 0 < i < |es| ==> ThroughEach(es)[i] == ThroughEach(es[1..])[i - 1];
    }
  }

  lemma {:induction false} SequenceComplete(f: Nfa, t: Nfa, es: seq<Expr>, p: nat, q: nat)
    requires p < |t| && Fits(f, CompileSequence(t, es, p).0) && Leads(f, CompileSequence(t, es, p).1, q) && ParsedAll(es)
    requires es != []
    ensures Joins(f, p, Sequence(es), q)
    decreases es, 0
  {
    hide Fits, Leads, Compile, Parsed, Connect, SameShape, AddNode, Joins;
    if |es| == 1 {
      Complete(f, t, es[0], p, q);
      FirstJoins(f, p, es, q, q);
    } else {
      SequenceStages(f, t, es, p, q);
      var (t1, d) := Compile(t, es[0], p);
      var x := |t1|;
      SequenceComplete(f, Connect(AddNode(t1), d, x), es[1..], x, q);
      Complete(f, t, es[0], p, x);
      FirstJoins(f, p, es, x, q);
    }
  }

  lemma PassesNothing(f: Nfa, p: nat)
    ensures PassesAll(f, p, [], p)
  {
    hide Accepts;
    forall w: seq<nat>, v | AllowsAll([], w) && Accepts(f, p, v) ensures Accepts(f, p, w + v) {
      assert w + v == v;
    }
  }

  /** The first part of a sequence and the others. */
  lemma FirstJoins(f: Nfa, p: nat, es: seq<Expr>, x: nat, q: nat)
    requires es != [] && Joins(f, p, es[0], x)
    requires if |es| == 1 then x == q else Joins(f, x, Sequence(es[1..]), q)
    ensures Joins(f, p, Sequence(es), q)
  {
    hide Passes, PassesAll, PassesEach;
    var rest := Entries(es[1..]);
    if |es| == 1 {
      PassesNothing(f, q);
    } else {
      hide Loops, Through;
      var first, others := es[1], Entries(es[2..]);
      assert es[1..][0] == first && es[1..][1..] == es[2..];
      PassesList(f, x, [Through(first)] + others, q);
      PassesRounds(f, x, Loops(first), [Through(first)] + others, q);
      assert rest == Entry(first) + others;
      assert rest == [Star(Choice(Loops(first)))] + ([Through(first)] + others);
    }
    PassesThen(f, p, Through(es[0]), x, rest, q);
    PassesList(f, p, [Through(es[0])] + rest, q);
  }

  /** Around a loop whose body leads from `l` back to `l`. */
  lemma AroundJoins(f: Nfa, l: nat, b: Expr, q: nat)
    requires Joins(f, l, b, l) && PassesAll(f, l, [], q)
    ensures PassesAll(f, l, [Around(b)], q)
  {
    hide Passes, PassesAll, PassesEach, Loops, Through;
    EachBoth(f, l, Loops(b), Through(b));
    PassesRounds(f, l, Loops(b) + [Through(b)], [], q);
    assert [Around(b)] + [] == [Around(b)];
  }

  lemma PassesOne(f: Nfa, p: nat, x: Expr, q: nat)
    ensures PassesAll(f, p, [x], q) <==> Passes(f, p, x, q)
  {
    hide Accepts;
    forall w ensures AllowsAll([x], w) <==> Allows(x, w) {
      OneIs(x, w);
    }
    hide Allows, AllowsAll;
  }

  lemma {:induction false} StarComplete(f: Nfa, t: Nfa, b: Expr, p: nat, q: nat)
    requires p < |t| && Fits(f, Compile(t, Star(b), p).0) && Leads(f, Compile(t, Star(b), p).1, q) && Parsed(b)
    ensures Joins(f, p, Star(b), q)
    decreases b, 2
  {
    hide Fits, Leads, Compile, Parsed, HasEdge, SameShape, Passes, PassesAll, PassesEach, Around;
    StarStages(f, t, b, p, q);
    var l := |t|;
    Complete(f, AddEdge(AddNode(t), p, Some(l), None), b, l, l);
    PassesOver(f, l, q);
    AroundJoins(f, l, b, q);
    PassesOver(f, p, l);
    PassesAfter(f, p, l, [Around(b)], q);
    PassesOne(f, p, Around(b), q);
    NoLoops(f, p);
  }

  lemma PassesAfter(f: Nfa, p: nat, l: nat, xs: seq<Expr>, q: nat)
    requires PassesAll(f, p, [], l) && PassesAll(f, l, xs, q)
    ensures PassesAll(f, p, xs, q)
  {
    hide Accepts;
    forall w, v | AllowsAll(xs, w) && Accepts(f, q, v) ensures Accepts(f, p, w + v) {
      AllowsNothing();
      hide AllowsAll;
      assert [] + (w + v) == w + v;
    }
  }

  lemma {:induction false} PlusComplete(f: Nfa, t: Nfa, b: Expr, p: nat, q: nat)
    requires p < |t| && Fits(f, Compile(t, Plus(b), p).0) && Leads(f, Compile(t, Plus(b), p).1, q) && Parsed(b)
    ensures Joins(f, p, Plus(b), q)
    decreases b, 2
  {
    hide Fits, Leads, Compile, Parsed, HasEdge, SameShape, Passes, PassesAll, PassesEach, Around, Connect;
    PlusStages(f, t, b, p, q);
    var l := |t|;
    var (t1, d1) := Compile(AddNode(t), b, p);
    Complete(f, Connect(t1, d1, l), b, l, l);
    PassesOver(f, l, q);
    AroundJoins(f, l, b, q);
    Complete(f, AddNode(t), b, p, l);
    PassesThen(f, p, Through(b), l, [Around(b)], q);
    var xs := [Through(b)] + [Around(b)];
    PassesList(f, p, xs, q);
    assert [Through(b), Around(b)] == xs;
    assert Through(Plus(b)) == Sequence(xs);
  }

  // ----------------------------------------------------------------------
  // Ranges
  // ----------------------------------------------------------------------

  /** The rest of a range, from a node of its own. */
  lemma RemainingPasses(f: Nfa, c: nat, b: Expr, min: nat, max: Option<nat>, q: nat)
    requires Joins(f, c, Range(min, max, b), q)
    ensures PassesAll(f, c, Remaining(b, min, max), q)
  {
    hide Passes, PassesAll, PassesEach, Loops, Through, Remaining;
    if min > 0 {
      var rest := [Through(b)] + Remaining(b, min - 1, Fewer(max));
      ThroughMin(b, min, max);
      PassesList(f, c, rest, q);
      PassesRounds(f, c, Loops(b), rest, q);
      RemainingLess(b, min, max);
      assert Remaining(b, min, max) == [Star(Choice(Loops(b)))] + rest;
    } else if max.None? {
      ThroughLoop(b);
      PassesList(f, c, [], q);
      EachBoth(f, c, Loops(b), Through(b));
      JoinsIs(f, c, b, c);
      AroundJoins(f, c, b, q);
    } else {
      ThroughMax(b, max.value);
      SkipsPass(f, c, b, max.value, q);
    }
  }

  lemma JoinsIs(f: Nfa, p: nat, e: Expr, q: nat)
    requires Passes(f, p, Through(e), q) && PassesEach(f, p, Loops(e))
    ensures Joins(f, p, e, q)
  {
  }

  lemma SkipsPass(f: Nfa, c: nat, b: Expr, m: nat, q: nat)
    requires Passes(f, c, Sequence(if m == 0 then [] else [Opt(Through(b))] + Copies(SkipEntry(b), m - 1)), q)
    requires PassesEach(f, c, if m == 0 then [] else Loops(b))
    ensures PassesAll(f, c, Copies(SkipEntry(b), m), q)
  {
    hide Passes, PassesAll, PassesEach, Loops, Through;
    if m == 0 {
      PassesList(f, c, [], q);
    } else {
      var rest := [Opt(Through(b))] + Copies(SkipEntry(b), m - 1);
      PassesList(f, c, rest, q);
      PassesRounds(f, c, Loops(b), rest, q);
      assert Copies(SkipEntry(b), m) == [Star(Choice(Loops(b)))] + rest;
    }
  }

  lemma {:induction false} MinComplete(f: Nfa, t: Nfa, b: Expr, l: nat, min: nat, max: Option<nat>, q: nat)
    requires l < |t| && Fits(f, CompileMin(t, b, l, min).0) && Parsed(b)
    requires Joins(f, CompileMin(t, b, l, min).1, Range(0, AfterMin(min, max), b), q)
    ensures Joins(f, l, Range(min, max, b), q)
    decreases b, 1, min
  {
    hide Fits, Leads, Compile, Parsed, SameShape, Connect, Joins, Remaining;
    AfterLess(min, max);
    if min > 0 {
      MinStages(f, t, b, l, min);
      var c := |t|;
      var (t1, d) := Compile(AddNode(t), b, l);
      MinComplete(f, Connect(t1, d, c), b, c, min - 1, Fewer(max), q);
      Complete(f, AddNode(t), b, l, c);
      MinJoins(f, l, c, b, min, max, q);
    }
  }

  lemma MinJoins(f: Nfa, l: nat, c: nat, b: Expr, min: nat, max: Option<nat>, q: nat)
    requires min > 0 && Joins(f, l, b, c) && Joins(f, c, Range(min - 1, Fewer(max), b), q)
    ensures Joins(f, l, Range(min, max, b), q)
  {
    hide Passes, PassesAll, PassesEach, Loops, Through, Remaining;
    RemainingPasses(f, c, b, min - 1, Fewer(max), q);
    var rest := Remaining(b, min - 1, Fewer(max));
    PassesThen(f, l, Through(b), c, rest, q);
    PassesList(f, l, [Through(b)] + rest, q);
    ThroughMin(b, min, max);
  }

  lemma {:induction false} MaxComplete(f: Nfa, t: Nfa, b: Expr, l: nat, m: nat, q: nat)
    requires l < |t| && Fits(f, CompileMax(t, b, l, m).0) && Parsed(b)
    requires Joins(f, CompileMax(t, b, l, m).1, Range(0, Some(0), b), q)
    ensures Joins(f, l, Range(0, Some(m), b), q)
    decreases b, 1, m
  {
    hide Fits, Leads, Compile, Parsed, SameShape, Connect, HasEdge, Joins;
    if m > 0 {
      MaxStages(f, t, b, l, m);
      var c := |t|;
      var t0 := AddEdge(AddNode(t), l, Some(c), None);
      var (t1, d) := Compile(t0, b, l);
      MaxComplete(f, Connect(t1, d, c), b, c, m - 1, q);
      Complete(f, t0, b, l, c);
      PassesOver(f, l, c);
      MaxJoins(f, l, c, b, m, q);
    }
  }

  lemma MaxJoins(f: Nfa, l: nat, c: nat, b: Expr, m: nat, q: nat)
    requires m > 0 && Joins(f, l, b, c) && PassesAll(f, l, [], c) && Joins(f, c, Range(0, Some(m - 1), b), q)
    ensures Joins(f, l, Range(0, Some(m), b), q)
  {
    hide Passes, PassesAll, PassesEach, Loops, Through, Remaining;
    RemainingPasses(f, c, b, 0, Some(m - 1), q);
    ThroughMax(b, m - 1);
    ThroughMax(b, m);
    var rest := Copies(SkipEntry(b), m - 1);
    PassesOpt(f, l, Through(b), c);
    PassesThen(f, l, Opt(Through(b)), c, rest, q);
    PassesList(f, l, [Opt(Through(b))] + rest, q);
  }

  /** The last node of a range. */
  lemma EndJoins(f: Nfa, l: nat, b: Expr, max: Option<nat>, q: nat)
    requires PassesAll(f, l, [], q)
    requires if max.None? then Joins(f, l, b, l) else max.value == 0
    ensures Joins(f, l, Range(0, max, b), q)
  {
    hide Passes, PassesAll, PassesEach, Loops, Through;
    PassesList(f, l, [], q);
    NoLoops(f, l);
    if max.None? {
      ThroughLoop(b);
      EachBoth(f, l, Loops(b), Through(b));
    } else {
      ThroughMax(b, 0);
    }
  }

  lemma {:induction false} RangeComplete(f: Nfa, t: Nfa, min: nat, max: Option<nat>, b: Expr, p: nat, q: nat)
    requires p < |t| && Parsed(b)
    requires Fits(f, Compile(t, Range(min, max, b), p).0) && Leads(f, Compile(t, Range(min, max, b), p).1, q)
    ensures Joins(f, p, Range(min, max, b), q)
    decreases b, 2
  {
    hide Fits, Leads, Compile, Parsed, SameShape, HasEdge, CompileMin, CompileMax, Joins, PassesAll;
    RangeStages(f, t, min, max, b, p, q);
    var (t1, l1) := CompileMin(t, b, p, min);
    if max.None? {
      LoopStages(f, t1, b, l1);
      PassesOver(f, l1, q);
      Complete(f, t1, b, l1, l1);
      EndJoins(f, l1, b, None, q);
    } else {
      var m := Optional(min, max);
      var l2 := CompileMax(t1, b, l1, m).1;
      PassesOver(f, l2, q);
      EndJoins(f, l2, b, Some(0), q);
      MaxComplete(f, t1, b, l1, m, q);
    }
    MinComplete(f, t, b, p, min, max, q);
  }
}
