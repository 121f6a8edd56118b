/**
  The automaton of a content expression accepts what the compiled expression
  stands for: never less than the expression allows, and mostly the same.
 */
module ContentAutomata {
  import opened Options
  import opened Expressions
  import opened Nfas
  import opened Wiring
  import opened Readings
  import opened Labels
  import opened Meanings
  import opened Faithful
  import opened Searches
  import opened Rounds

  /** The notes of the whole automaton: the start, the nodes of the expression, and the end. */
  function AllNotes(e: Expr, ranked: bool): seq<Note> {
    var end := Note([], 0, ranked);
    var start := Note(Entry(e), Need(e, 0), ranked);
    [start] + NotesOf(e, start, end) + [end]
  }

  ghost predicate Labelled(f: Nfa, notes: seq<Note>)
    requires |notes| == |f|
  {
    OkSoFar(f, notes, f)
  }

  lemma AutomatonLabels(e: Expr, ranked: bool)
    requires Parsed(e) && (ranked ==> LoopsRead(e))
    ensures var f, notes := Automaton(e), AllNotes(e, ranked);
            && |notes| == |f| > 1 && Labelled(f, notes) && f[|f| - 1] == []
            && notes[0].follows == Entry(e) && notes[0].ranked == ranked && notes[|f| - 1].follows == []
  {
    hide Compile, Leads, OkSoFar, Ready, Parsed, LoopsRead, Fits, NotesOf, Need, Connect, Noted, Entry;
    var f, notes := Automaton(e), AllNotes(e, ranked);
    var (t, d) := Compile([[]], e, 0);
    var start, end := Note(Entry(e), Need(e, 0), ranked), Note([], 0, ranked);
    AutomatonStages(e);
    NotesCount([[]], e, 0, start, end);
    assert notes == [start] + (NotesOf(e, start, end) + [end]);
    NotedAll(notes, [start], NotesOf(e, start, end) + [end]);
    NotedBoth(notes, 1, NotesOf(e, start, end), [end]);
    NotedOne(notes, |t|, end);
    StartReady(notes, e, end);
    NothingYet(f, notes);
    Sound(f, notes, [[]], e, 0, |t|);
    EndAdded(f, notes, t);
    CompileShape([[]], e, 0);
    SameShapeAs(e);
    OkShape(f, notes, AddNode(t), f);
  }

  lemma NotedAll(notes: seq<Note>, x: seq<Note>, y: seq<Note>)
    requires notes == x + y
    ensures Noted(notes, |x|, y)
  {
  }

  lemma StartReady(notes: seq<Note>, e: Expr, end: Note)
    requires notes != [] && notes[0] == Note(Entry(e), Need(e, 0), end.ranked) && end.follows == [] && end.rank == 0
    ensures Ready(notes, 0, e, end)
  {
    hide Goes, Need, Entry;
    GoesEntry(e, []);
    assert Entry(e) + [] == Entry(e);
  }

  lemma NothingYet(f: Nfa, notes: seq<Note>)
    requires |notes| == |f|
    ensures OkSoFar(f, notes, [[]])
  {
  }

  lemma EndAdded(f: Nfa, notes: seq<Note>, t: Nfa)
    requires |notes| == |f| && OkSoFar(f, notes, t)
    ensures OkSoFar(f, notes, AddNode(t))
  {
    hide OkSoFar;
    OkNode(f, notes, t);
  }

  lemma SameShapeAs(e: Expr)
    ensures SameShape(AddNode(Compile([[]], e, 0).0), Automaton(e))
  {
    hide Compile, SameShape;
    var (t, d) := Compile([[]], e, 0);
    ConnectIs(AddNode(t), d, |t|);
  }

  lemma EdgeIsOk(f: Nfa, notes: seq<Note>, s: nat, j: nat)
    requires |notes| == |f| && Labelled(f, notes) && s < |f| && j < |f[s]|
    ensures EdgeOk(f, notes, s, j)
  {
    hide EdgeOk;
    assert EdgeAt(f, notes, s, j);
  }

  /** Whatever is read from a node on may follow it. */
  lemma {:induction false} ReadsAllowed(f: Nfa, notes: seq<Note>, s: nat, w: seq<nat>, n: nat)
    requires |notes| == |f| > 0 && Labelled(f, notes) && notes[|f| - 1].follows == [] && Reads(f, s, w, n)
    ensures s < |f| && AllowsAll(notes[s].follows, w)
    decreases n
  {
    hide Allows, Labelled;
    if n == 0 {
      AllowsNothing();
    } else {
      var j :| 0 <= j < |f[s]| && Takes(f, f[s][j], w, n - 1);
      EdgeIsOk(f, notes, s, j);
      var e := f[s][j];
      if e.term.None? {
        ReadsAllowed(f, notes, e.dest.value, w, n - 1);
      } else {
        ReadsAllowed(f, notes, e.dest.value, w[1..], n - 1);
        assert w == [e.term.value] + w[1..];
      }
    }
  }

  /** The automaton accepts exactly what the compiled expression stands for. */
  lemma AutomatonAccepts(e: Expr, w: seq<nat>)
    requires Parsed(e)
    ensures Accepts(Automaton(e), 0, w) <==> Allows(Whole(e), w)
  {
    hide Allows, AllowsAll, Parsed, Compile, Fits, Leads, Labelled, Entry, Joins, PassesAll;
    var f, notes := Automaton(e), AllNotes(e, false);
    AutomatonLabels(e, false);
    SequenceIs(Entry(e), w);
    if Accepts(f, 0, w) {
      var n: nat :| Reads(f, 0, w, n);
      ReadsAllowed(f, notes, 0, w, n);
    }
    if Allows(Whole(e), w) {
      AutomatonStages(e);
      var (t, d) := Compile([[]], e, 0);
      EndAccepts(f);
      Complete(f, [[]], e, 0, |t|);
      EntryPasses(f, 0, e, |t|);
      PassesOn(f, 0, Entry(e), |t|, w, []);
      assert w + [] == w;
    }
  }

  lemma EntryPasses(f: Nfa, p: nat, e: Expr, q: nat)
    requires Joins(f, p, e, q)
    ensures PassesAll(f, p, Entry(e), q)
  {
    hide Passes, PassesAll, PassesEach, Loops, Through;
    PassesOne(f, p, Through(e), q);
    PassesRounds(f, p, Loops(e), [Through(e)], q);
    assert Entry(e) == [Star(Choice(Loops(e)))] + [Through(e)];
  }

  lemma PassesOn(f: Nfa, p: nat, xs: seq<Expr>, q: nat, w: seq<nat>, v: seq<nat>)
    requires PassesAll(f, p, xs, q) && AllowsAll(xs, w) && Accepts(f, q, v)
    ensures Accepts(f, p, w + v)
  {
    hide Accepts, AllowsAll;
  }

  /** What an expression allows, its automaton always accepts. */
  lemma AllowedIsAccepted(e: Expr, w: seq<nat>)
    requires Parsed(e) && Allows(e, w)
    ensures Accepts(Automaton(e), 0, w)
  {
    hide Allows, Whole, Accepts, Automaton;
    NothingLost(e, w);
    AutomatonAccepts(e, w);
  }

  /** Compiling preserves meaning where ranges without bounds start at nodes of their own. */
  lemma AutomatonMeans(e: Expr, w: seq<nat>)
    requires Parsed(e) && Meant(e, true)
    ensures Accepts(Automaton(e), 0, w) <==> Allows(e, w)
  {
    hide Allows, Whole, Accepts, Automaton, Meant, Parsed;
    AutomatonAccepts(e, w);
    WholeIsMeant(e, w);
  }

  // ----------------------------------------------------------------------
  // A range without bounds beside something else
  // ----------------------------------------------------------------------

  /** Compiled, a choice between repetitions and something else allows the one and then the other. */
  lemma RoundsAccepted(b: Expr, es: seq<Expr>, w: seq<nat>)
    requires Parsed(RoundsOr(b, es)) && Meant(b, false) && MeantApart(es)
    ensures Accepts(Automaton(RoundsOr(b, es)), 0, w) <==> Allows(RoundsThen(b, es), w)
  {
    hide Allows, Whole, Accepts, Automaton, Meant, Parsed;
    AutomatonAccepts(RoundsOr(b, es), w);
    RoundsStandFor(b, es, w);
  }

  /** Such a choice is compiled rightly. */
  ghost predicate RoundsRight(b: Expr, es: seq<Expr>) {
    forall w: seq<nat> :: Accepts(Automaton(RoundsOr(b, es)), 0, w) <==> Allows(RoundsOr(b, es), w)
  }

  /** Repetitions and then one of the others are among what the choice allows. */
  ghost predicate RoundsAddNothing(b: Expr, es: seq<Expr>) {
    forall x: seq<nat>, y: seq<nat> ::
      Allows(Star(b), x) && Allows(Choice(es), y) ==> Allows(Star(b), x + y) || Allows(Choice(es), x + y)
  }

  /** It is exactly where going on after some repetitions adds nothing. */
  lemma RoundsRightExactly(b: Expr, es: seq<Expr>)
    requires Parsed(RoundsOr(b, es)) && Meant(b, false) && MeantApart(es)
    ensures RoundsRight(b, es) <==> RoundsAddNothing(b, es)
  {
    hide Allows, Accepts, Automaton, Meant, Parsed;
    forall w: seq<nat>
      ensures Accepts(Automaton(RoundsOr(b, es)), 0, w) <==> Allows(RoundsThen(b, es), w)
      ensures Allows(RoundsOr(b, es), w) <==> Allows(Star(b), w) || Allows(Choice(es), w)
    {
      RoundsAccepted(b, es, w);
      RoundsOrIs(b, es, w);
    }
    if RoundsRight(b, es) {
      forall x, y | Allows(Star(b), x) && Allows(Choice(es), y)
        ensures Allows(Star(b), x + y) || Allows(Choice(es), x + y)
      {
        RoundsThenIs(b, es, x, y);
      }
    }
    if RoundsAddNothing(b, es) {
      forall w: seq<nat> ensures Accepts(Automaton(RoundsOr(b, es)), 0, w) <==> Allows(RoundsOr(b, es), w) {
        RoundsThenAllowed(b, es, w);
      }
    }
  }

  lemma RoundsOrIs(b: Expr, es: seq<Expr>, w: seq<nat>)
    ensures Allows(RoundsOr(b, es), w) <==> Allows(Star(b), w) || Allows(Choice(es), w)
  {
    var r, all := Range(0, None, b), [Range(0, None, b)] + es;
    RangeStar(b);
    assert Allows(r, w) <==> Allows(Star(b), w);
    assert all[0] == r && forall i :: 0 <= i < |es| ==> all[i + 1] == es[i];
    if i :| 0 <= i < |all| && Allows(all[i], w) {
      assert i > 0 ==> all[i] == es[i - 1];
    }
    if i :| 0 <= i < |es| && Allows(es[i], w) {
      assert all[i + 1] == es[i];
    }
  }

  lemma RoundsThenIs(b: Expr, es: seq<Expr>, x: seq<nat>, y: seq<nat>)
    requires Allows(Star(b), x) && (y == [] || Allows(Choice(es), y))
    ensures Allows(RoundsThen(b, es), x + y)
  {
    var r, o := Range(0, None, b), Opt(Choice(es));
    assert Allows(o, y);
    RangeStar(b);
    hide Allows, AllowsAll;
    OneIs(o, y);
    AllowsHead(r, [o], x, y);
    assert [r] + [o] == [r, o];
    SequenceIs([r, o], x + y);
  }

  lemma RoundsThenSplit(b: Expr, es: seq<Expr>, w: seq<nat>) returns (i: nat)
    requires Allows(RoundsThen(b, es), w)
    ensures i <= |w| && Allows(Star(b), w[..i]) && (w[i..] == [] || Allows(Choice(es), w[i..]))
  {
    var r, o := Range(0, None, b), Opt(Choice(es));
    RangeStar(b);
    hide Allows, AllowsAll;
    assert [r, o] == [r] + [o];
    SequenceIs([r, o], w);
    i := HeadSplit(r, [o], w);
    OneIs(o, w[i..]);
    OptIs(Choice(es), w[i..]);
  }

  /** Where going on adds nothing, repetitions and then something else are allowed. */
  lemma RoundsThenAllowed(b: Expr, es: seq<Expr>, w: seq<nat>)
    requires RoundsAddNothing(b, es)
    ensures Allows(RoundsThen(b, es), w) <==> Allows(Star(b), w) || Allows(Choice(es), w)
  {
    hide Allows;
    if Allows(RoundsThen(b, es), w) {
      var i := RoundsThenSplit(b, es, w);
      assert w[..i] + w[i..] == w;
      if w[i..] == [] {
        assert w[..i] == w;
      }
    }
    if Allows(Choice(es), w) {
      NoRounds(b);
      RoundsThenIs(b, es, [], w);
      assert [] + w == w;
    }
    if Allows(Star(b), w) {
      RoundsThenIs(b, es, w, []);
      assert w + [] == w;
    }
  }

  lemma OptIs(b: Expr, w: seq<nat>)
    ensures Allows(Opt(b), w) <==> w == [] || Allows(b, w)
  {
  }

  lemma NoRounds(b: Expr)
    ensures Allows(Star(b), [])
  {
    hide Repeats;
    RepeatsNone(b);
    StarIs(b, []);
  }

  /** Some repetitions of one type, or another type. */
  function LoopFromZero(): Expr {
    RoundsOr(Name(0), [Name(1)])
  }

  /** It accepts the one type and then the other, which it does not allow. */
  lemma LoopFromZeroWrong()
    ensures Accepts(Automaton(LoopFromZero()), 0, [0, 1]) && !Allows(LoopFromZero(), [0, 1])
  {
    var b: Expr, es: seq<Expr> := Name(0), [Name(1)];
    assert Allows(b, [0]);
    assert Allows(es[0], [1]);
    assert Allows(Choice(es), [1]);
    OneRound(b, [0]);
    RoundsThenIs(b, es, [0], [1]);
    assert [0] + [1] == [0, 1];
    ParsedLoop();
    RoundsAccepted(b, es, [0, 1]);
    NotZeroThenOne();
  }

  lemma ParsedLoop()
    ensures Parsed(LoopFromZero()) && Meant(Name(0), false) && MeantApart([Name(1)])
  {
    var es: seq<Expr> := [Range(0, None, Name(0))] + [Name(1)];
    assert es[1..] == [Name(1)] && es[1..][1..] == [] && es[0] == Range(0, None, Name(0));
    assert ParsedAll(es[1..][1..]);
    assert ParsedAll(es[1..]);
    assert ParsedAll(es);
    assert [Name(1)][1..] == [];
  }

  lemma OneRound(b: Expr, w: seq<nat>)
    requires Allows(b, w)
    ensures Allows(Star(b), w)
  {
    hide Allows, Repeats;
    RepeatsNone(b);
    RepeatsMore(b, [], w, []);
    assert w + [] == w;
    StarIs(b, w);
  }

  lemma NotZeroThenOne()
    ensures !Allows(LoopFromZero(), [0, 1])
  {
    var b: Expr, es: seq<Expr> := Name(0), [Name(1)];
    assert !Allows(Choice(es), [0, 1]);
    hide Allows;
    forall ws: seq<seq<nat>> | Repeats(b, ws, [0, 1]) ensures false {
      OnlyZeros(ws, 1);
    }
    StarIs(b, [0, 1]);
    RoundsOrIs(b, es, [0, 1]);
  }

  lemma {:induction false} OnlyZeros(ws: seq<seq<nat>>, k: nat)
    requires Repeats(Name(0), ws, Flat(ws)) && k < |Flat(ws)|
    ensures Flat(ws)[k] == 0
  {
    if ws != [] {
      assert ws[0] == [0];
      if k > 0 {
        OnlyZeros(ws[1..], k - 1);
      }
    }
  }

  // ----------------------------------------------------------------------
  // Where the search for nodes ends
  // ----------------------------------------------------------------------

  lemma AutomatonConnected(e: Expr)
    requires Parsed(e)
    ensures Connected(Automaton(e))
  {
    hide Parsed, Labelled, Automaton;
    var f: Nfa, notes := Automaton(e), AllNotes(e, false);
    AutomatonLabels(e, false);
    forall s, j | 0 <= s < |f| && 0 <= j < |f[s]| ensures f[s][j].dest.Some? && f[s][j].dest.value < |f| {
      EdgeIsOk(f, notes, s, j);
    }
  }

  /** Wherever an automaton leads from a ranked node, it is ranked. */
  lemma {:induction false} RankedAlong(f: Nfa, notes: seq<Note>, p: seq<nat>, i: nat)
    requires |notes| == |f| && Labelled(f, notes) && Along(f, p) && i < |p| && p[0] < |f| && notes[p[0]].ranked
    ensures p[i] < |f| && notes[p[i]].ranked
    decreases i
  {
    hide Labelled, Within, TypeThen;
    if i > 0 {
      RankedAlong(f, notes, p, i - 1);
      assert Joined(f, p[i - 1], p[i - 1 + 1]);
      var j :| 0 <= j < |f[p[i - 1]]| && f[p[i - 1]][j].dest == Some(p[i]);
      EdgeIsOk(f, notes, p[i - 1], j);
    }
  }

  /** Along edges taken for nothing ranks fall. */
  lemma {:induction false} RankFalls(f: Nfa, notes: seq<Note>, p: seq<nat>, i: nat)
    requires |notes| == |f| && Labelled(f, notes) && 0 < i < |p| && Turns(f, p) && p[0] < |f| && notes[p[0]].ranked
    ensures p[i] < |f| && notes[p[i]].ranked && notes[p[i]].rank < notes[p[0]].rank
    decreases i
  {
    hide Labelled, Turn;
    if i > 1 {
      RankFalls(f, notes, p, i - 1);
    }
    assert Turn(f, p[i - 1], p[i - 1 + 1]);
    TurnIs(f, p[i - 1], p[i]);
    FreeFalls(f, notes, p[i - 1], p[i]);
  }

  lemma FreeFalls(f: Nfa, notes: seq<Note>, u: nat, v: nat)
    requires |notes| == |f| && Labelled(f, notes) && Free(f, u, v) && notes[u].ranked
    ensures notes[v].ranked && notes[v].rank < notes[u].rank
  {
    hide Labelled, Within;
    var j :| 0 <= j < |f[u]| && f[u][j] == Edge(None, Some(v));
    EdgeIsOk(f, notes, u, j);
  }

  /** Where every loop goes around something that takes a type, every search ends. */
  lemma LoopsReadIsSafe(e: Expr)
    requires Parsed(e) && LoopsRead(e)
    ensures Safe(Automaton(e), 0)
  {
    hide Parsed, LoopsRead, Labelled, Automaton, Turns, Comes, Along;
    var f, notes := Automaton(e), AllNotes(e, true);
    AutomatonLabels(e, true);
    forall x: nat | Reached(f, 0, x) ensures !GoesRound(f, x) {
      if GoesRound(f, x) {
        var p: seq<nat> :| Circle(f, p) && Comes(f, x, p[0]);
        ReachedComes(f, 0, x, p[0]);
        var way: seq<nat> :| way != [] && way[0] == 0 && way[|way| - 1] == p[0] && Along(f, way);
        RankedAlong(f, notes, way, |way| - 1);
        RankFalls(f, notes, p, |p| - 1);
      }
    }
  }

  /** A loop around something that may be empty, but only by way of a node that is passed through. */
  function LoopOverNothing(): Expr {
    Star(Range(1, Some(1), Opt(Name(0))))
  }

  /** The nodes of that loop before it is connected to what follows. */
  function LoopNodes(): Nfa {
    [[Edge(None, Some(1))], [Edge(None, Some(2)), Edge(Some(0), Some(2)), Edge(None, None)], [Edge(None, Some(1))]]
  }

  lemma LoopNodesCompiled()
    ensures Compile([[]], LoopOverNothing(), 0) == (LoopNodes(), [(1, 2)])
  {
    hide Compile, CompileMin, Connect;
    var b := Range(1, Some(1), Opt(Name(0)));
    var entry, open: Edge := Edge(None, Some(1)), Edge(None, None);
    var t1: Nfa, t2: Nfa := [[entry], []], [[entry], [Edge(None, Some(2)), Edge(Some(0), Some(2))], []];
    assert AddEdge(AddNode([[]]), 0, Some(1), None) == t1 by {
      assert AddNode([[]]) == [[], []];
      assert [] + [entry] == [entry];
    }
    OnceOrNot(t1, t2);
    OnceFrom(t1, t2, 2);
    LoopClosed(t2);
    var t3 := AddEdge(t2, 2, None, None);
    var d: seq<Spot> := [(2, 0)];
    assert NextSpot(t2, 2) == (2, 0);
    StarFrom([[]], b, 0, t1, t3, d, Connect(t3, d, 1));
  }

  /** The way back to the start of the loop, and the way out of it. */
  lemma LoopClosed(t2: Nfa)
    requires t2 == [[Edge(None, Some(1))], [Edge(None, Some(2)), Edge(Some(0), Some(2))], []]
    ensures var t5 := Connect(AddEdge(t2, 2, None, None), [(2, 0)], 1);
            |t5| == 3 && AddEdge(t5, 1, None, None) == LoopNodes() && NextSpot(t5, 1) == (1, 2)
  {
    var open: Edge := Edge(None, None);
    var t3 := AddEdge(t2, 2, None, None);
    assert [] + [open] == [open] && t3[2] == [open];
    ConnectSingle(t3, (2, 0), 1);
    var t5 := ConnectOne(t3, (2, 0), 1);
    assert t5[2] == LoopNodes()[2];
    assert t5[1] + [open] == LoopNodes()[1] && AddEdge(t5, 1, None, None)[1] == LoopNodes()[1];
  }

  lemma LoopOverNothingCompiled()
    ensures Automaton(LoopOverNothing()) == [
      [Edge(None, Some(1))],
      [Edge(None, Some(2)), Edge(Some(0), Some(2)), Edge(None, Some(3))],
      [Edge(None, Some(1))],
      []]
  {
    hide Compile, Connect;
    LoopNodesCompiled();
    var t := AddNode(LoopNodes());
    ConnectSingle(t, (1, 2), 3);
    assert ConnectOne(t, (1, 2), 3)[1] == [Edge(None, Some(2)), Edge(Some(0), Some(2)), Edge(None, Some(3))];
  }

  lemma ConnectTwo(t: Nfa, a: Spot, b: Spot, q: nat)
    ensures Connect(t, [a] + [b], q) == ConnectOne(ConnectOne(t, a, q), b, q)
  {
    hide ConnectOne;
    var t1 := ConnectOne(t, a, q);
    assert ([a] + [b])[1..] == [b] && [b][1..] == [];
    assert Connect(t1, [b], q) == Connect(ConnectOne(t1, b, q), [], q);
  }

  lemma ConnectSingle(t: Nfa, a: Spot, q: nat)
    ensures Connect(t, [a], q) == ConnectOne(t, a, q)
  {
    hide ConnectOne;
    var t1 := ConnectOne(t, a, q);
    assert [a][1..] == [] && Connect(t1, [], q) == t1;
  }

  lemma StarFrom(t: Nfa, b: Expr, p: nat, t1: Nfa, t2: Nfa, d: seq<Spot>, t3: Nfa)
    requires p < |t| < |t3| && |t| < |t1| && AddEdge(AddNode(t), p, Some(|t|), None) == t1
    requires Compile(t1, b, |t|) == (t2, d) && Connect(t2, d, |t|) == t3
    ensures Compile(t, Star(b), p) == (AddEdge(t3, |t|, None, None), [NextSpot(t3, |t|)])
  {
    hide AddEdge, NextSpot, Connect;
  }

  /** A range of exactly one. */
  lemma OnceFrom(t: Nfa, t1: Nfa, l: nat)
    requires 1 < |t| && l < |t1| && CompileMin(t, Opt(Name(0)), 1, 1) == (t1, l)
    ensures Compile(t, Range(1, Some(1), Opt(Name(0))), 1) == (AddEdge(t1, l, None, None), [NextSpot(t1, l)])
  {
    hide AddEdge, NextSpot, CompileMin;
  }

  lemma OptFrom(t: Nfa, b: Expr, p: nat, t1: Nfa, t2: Nfa, d: seq<Spot>)
    requires p < |t| == |t1| && AddEdge(t, p, None, None) == t1 && Compile(t1, b, p) == (t2, d)
    ensures Compile(t, Opt(b), p) == (t2, [NextSpot(t, p)] + d)
  {
    hide AddEdge, NextSpot;
  }

  lemma MinFrom(t: Nfa, b: Expr, l: nat, t1: Nfa, d: seq<Spot>, t2: Nfa)
    requires l < |t| < |t2| && l < |AddNode(t)| && Compile(AddNode(t), b, l) == (t1, d) && Connect(t1, d, |t|) == t2
    ensures CompileMin(t, b, l, 1) == (t2, |t|)
  {
    hide Compile, Connect, AddNode;
    assert CompileMin(t2, b, |t|, 0) == (t2, |t|);
  }

  lemma OnceOrNot(t1: Nfa, t2: Nfa)
    requires t1 == [[Edge(None, Some(1))], []]
    requires t2 == [[Edge(None, Some(1))], [Edge(None, Some(2)), Edge(Some(0), Some(2))], []]
    ensures CompileMin(t1, Opt(Name(0)), 1, 1) == (t2, 2)
  {
    var open, a: Edge := Edge(None, None), Edge(Some(0), None);
    var u1: Nfa, u2: Nfa := [t1[0], [open], []], [t1[0], [open, a], []];
    assert AddNode(t1) == [t1[0], [], []];
    assert AddEdge(AddNode(t1), 1, None, None) == u1 by {
      assert [] + [open] == [open];
    }
    assert u1[1] + [a] == u2[1] && AddEdge(u1, 1, None, Some(0))[1] == u2[1];
    assert AddEdge(u1, 1, None, Some(0)) == u2;
    var d: seq<Spot> := [(1, 0)] + [(1, 1)];
    assert NextSpot(AddNode(t1), 1) == (1, 0) && NextSpot(u1, 1) == (1, 1);
    assert Compile(u1, Name(0), 1) == (u2, [(1, 1)]);
    OptFrom(AddNode(t1), Name(0), 1, u1, u2, [(1, 1)]);
    ConnectTwo(u2, (1, 0), (1, 1), 2);
    var v := ConnectOne(u2, (1, 0), 2);
    assert v[1] == [Edge(None, Some(2)), a];
    assert ConnectOne(v, (1, 1), 2)[1] == t2[1];
    MinFrom(t1, Opt(Name(0)), 1, u2, d, t2);
  }

  /** Each of its nodes 1 and 2 leads to the other for nothing, and 2 is passed through: the search from the start never ends. */
  lemma LoopOverNothingNeverEnds()
    ensures var f := Automaton(LoopOverNothing());
            Connected(f) && GoesRound(f, 0) && forall n: nat :: Scan(f, 0, [], n).None?
  {
    hide Automaton, Connected, Scan;
    var f := Automaton(LoopOverNothing());
    LoopOverNothingCompiled();
    assert Parsed(LoopOverNothing());
    AutomatonConnected(LoopOverNothing());
    assert f[0][0] == Edge(None, Some(1)) && f[1][0] == Edge(None, Some(2)) && f[2][0] == Edge(None, Some(1));
    var p: seq<nat> := [1, 2, 1];
    assert Turn(f, 1, 2) && Turn(f, 2, 1);
    assert Circle(f, p);
    ComesItself(f, 1);
    assert Free(f, 0, 1);
    ComesFirst(f, 0, 1, 1);
    forall n: nat ensures Scan(f, 0, [], n).None? {
      NeverEnds(f, 0, n);
    }
  }

  /** A loop over something that may be empty, by way of an edge from a node to itself. */
  function LoopOverOption(): Expr {
    Star(Opt(Name(0)))
  }

  lemma LoopOverOptionCompiled()
    ensures Automaton(LoopOverOption()) == [
      [Edge(None, Some(1))],
      [Edge(None, Some(1)), Edge(Some(0), Some(1)), Edge(None, Some(2))],
      []]
  {
    hide Connect;
    var entry, open, a: Edge := Edge(None, Some(1)), Edge(None, None), Edge(Some(0), None);
    var t1: Nfa, u1: Nfa, u2: Nfa := [[entry], []], [[entry], [open]], [[entry], [open] + [a]];
    assert AddEdge(AddNode([[]]), 0, Some(1), None) == t1 by {
      assert AddNode([[]]) == [[], []];
      assert [] + [entry] == [entry];
    }
    assert AddEdge(t1, 1, None, None) == u1 by {
      assert [] + [open] == [open];
    }
    assert AddEdge(u1, 1, None, Some(0))[1] == u2[1];
    assert AddEdge(u1, 1, None, Some(0)) == u2;
    assert NextSpot(t1, 1) == (1, 0) && NextSpot(u1, 1) == (1, 1);
    assert Compile(u1, Name(0), 1) == (u2, [(1, 1)]);
    hide Compile;
    OptFrom(t1, Name(0), 1, u1, u2, [(1, 1)]);
    ConnectTwo(u2, (1, 0), (1, 1), 1);
    var entry0: seq<Edge> := [entry];
    var around: Edge, again: Edge := Edge(None, Some(1)), Edge(Some(0), Some(1));
    var v := ConnectOne(u2, (1, 0), 1);
    assert u2[1] == [open, a] && v[1] == [around, a];
    var t3 := ConnectOne(v, (1, 1), 1);
    assert v == u2[1 := v[1]] && v[0] == entry0;
    assert t3[1] == [around, again] && t3[0] == entry0;
    assert t3 == [entry0, [around, again]];
    StarFrom([[]], Opt(Name(0)), 0, t1, u2, [(1, 0)] + [(1, 1)], t3);
    assert [around, again] + [open] == [around, again, open];
    var t4: Nfa := [[entry], [around, again, open]];
    assert AddEdge(t3, 1, None, None) == t4 && NextSpot(t3, 1) == (1, 2);
    var t5 := AddNode(t4);
    ConnectSingle(t5, (1, 2), 2);
    assert ConnectOne(t5, (1, 2), 2)[1] == [around, again, Edge(None, Some(2))];
  }

  /** That edge is not followed again once its node was found, so the search ends. */
  lemma LoopOverOptionEnds()
    ensures var f := Automaton(LoopOverOption()); Connected(f) && Free(f, 1, 1) && SearchEnds(f, 0)
  {
    hide Automaton, Connected, SearchEnds;
    var f := Automaton(LoopOverOption());
    LoopOverOptionCompiled();
    assert Parsed(LoopOverOption());
    AutomatonConnected(LoopOverOption());
    assert f[1][0] == Edge(None, Some(1));
    forall p: seq<nat> ensures !Circle(f, p) {
      assert |p| > 2 && Turns(f, p) ==> Turn(f, p[0], p[1]) && Turn(f, p[1], p[2]);
      assert |p| == 2 && Turns(f, p) ==> Turn(f, p[0], p[1]);
    }
    SearchEndsExactly(f, 0);
  }
}
