/**
  Nothing else is accepted: each node of a compiled content expression is
  labelled with what may follow it, and every edge agrees with the labels.
 */
module Labels {
  import opened Options
  import opened Expressions
  import opened Meanings
  import opened Nfas
  import opened Wiring
  import opened Readings


  /**
    What is known of a node: the expressions that may follow it, one after the
    other, and, where the automaton is ranked, a number that falls along every
    edge taken for nothing.
   */
  datatype Note = Note(follows: seq<Expr>, rank: nat, ranked: bool)

  /** A note for a node before one with the note `k`. */
  function Before(k: Note, follows: seq<Expr>, rank: nat): Note {
    Note(follows + k.follows, rank, k.ranked)
  }

  ghost predicate TypeThen(typ: nat, a: seq<Expr>, b: seq<Expr>) {
    forall w: seq<nat> :: AllowsAll(a, w) ==> AllowsAll(b, [typ] + w)
  }

  predicate Falls(a: Note, b: Note) {
    a.ranked == b.ranked && (a.ranked ==> b.rank < a.rank)
  }

  /** What may follow the end of an edge may, after the edge, follow its start. */
  ghost predicate EdgeOk(f: Nfa, notes: seq<Note>, s: nat, j: nat)
    requires s < |f| && j < |f[s]| && |notes| == |f|
  {
    var e := f[s][j];
    && e.dest.Some? && e.dest.value < |f|
    && if e.term.None? then
         Within(notes[e.dest.value].follows, notes[s].follows) && Falls(notes[s], notes[e.dest.value])
       else TypeThen(e.term.value, notes[e.dest.value].follows, notes[s].follows) && notes[e.dest.value].ranked == notes[s].ranked
  }

  /** The edges that `t` has are all right in the finished automaton. */
  ghost predicate OkSoFar(f: Nfa, notes: seq<Note>, t: Nfa)
    requires |notes| == |f|
  {
    forall s, j :: 0 <= s < |t| && 0 <= j < |t[s]| ==> EdgeAt(f, notes, s, j)
  }

  ghost predicate EdgeAt(f: Nfa, notes: seq<Note>, s: nat, j: nat)
    requires |notes| == |f|
  {
    s < |f| && j < |f[s]| && EdgeOk(f, notes, s, j)
  }

  function Max(a: nat, b: nat): nat {
    if a < b then b else a
  }

  /** How high a node must rank for an expression to lead from it to a node of rank `r`. */
  function Need(e: Expr, r: nat): nat
    decreases e, 0
  {
    match e
    case Name(_) => 0
    case Choice(es) => NeedAny(es, r)
    case Sequence(es) => NeedAll(es, r)
    case Star(b) => LoopRank(b, r) + 1
    case Plus(b) => Need(b, LoopRank(b, r))
    case Opt(b) => Max(r + 1, Need(b, r))
    case Range(min, max, b) => NeedMin(b, min, if max.None? then LoopRank(b, r) else NeedMax(b, Optional(min, max), r))
  }

  function NeedAny(es: seq<Expr>, r: nat): nat
    decreases es, 0
  {
    if es == [] then 0 else Max(Need(es[0], r), NeedAny(es[1..], r))
  }

  function NeedAll(es: seq<Expr>, r: nat): nat
    decreases es, 0
  {
    if es == [] then r else if |es| == 1 then Need(es[0], r) else Need(es[0], NeedAll(es[1..], r))
  }

  /** The rank of the node a loop goes around: above where it leaves to, and high enough for its body. */
  function LoopRank(b: Expr, r: nat): nat
    decreases b, 1
  {
    Max(r + 1, Need(b, 0))
  }

  function NeedMin(b: Expr, m: nat, r: nat): nat
    decreases b, 1, m
  {
    if m == 0 then r else Need(b, NeedMin(b, m - 1, r))
  }

  function NeedMax(b: Expr, m: nat, r: nat): nat
    decreases b, 1, m
  {
    if m == 0 then r + 1 else Max(NeedMax(b, m - 1, r) + 1, Need(b, NeedMax(b, m - 1, r)))
  }

  /** A body that cannot be empty needs the same rank wherever it leads. */
  lemma {:induction false} NeedFixed(e: Expr, r: nat, r1: nat)
    requires !Nullable(e)
    ensures Need(e, r) == Need(e, r1)
    decreases e, 0
  {
    match e
    case Name(_) =>
    case Choice(es) => NeedAnyFixed(es, r, r1);
    case Sequence(es) => NeedAllFixed(es, r, r1);
    case Star(b) =>
    case Plus(b) => NeedFixed(b, LoopRank(b, r), LoopRank(b, r1));
    case Opt(b) =>
    case Range(min, max, b) =>
      NeedFixed(b, NeedMin(b, min - 1, if max.None? then LoopRank(b, r) else NeedMax(b, Optional(min, max), r)),
                NeedMin(b, min - 1, if max.None? then LoopRank(b, r1) else NeedMax(b, Optional(min, max), r1)));
  }

  lemma {:induction false} NeedAnyFixed(es: seq<Expr>, r: nat, r1: nat)
    requires !NullableAny(es)
    ensures NeedAny(es, r) == NeedAny(es, r1)
    decreases es, 0
  {
    if es != [] {
      NeedFixed(es[0], r, r1);
      NeedAnyFixed(es[1..], r, r1);
    }
  }

  lemma {:induction false} NeedAllFixed(es: seq<Expr>, r: nat, r1: nat)
    requires !NullableAll(es)
    ensures NeedAll(es, r) == NeedAll(es, r1)
    decreases es, 0
  {
    if !Nullable(es[0]) {
      NeedFixed(es[0], if |es| == 1 then r else NeedAll(es[1..], r), if |es| == 1 then r1 else NeedAll(es[1..], r1));
    } else {
      assert |es| > 1;
      NeedAllFixed(es[1..], r, r1);
    }
  }

  // ----------------------------------------------------------------------
  // The notes of the nodes that compiling adds
  // ----------------------------------------------------------------------

  /** The notes of the nodes that compiling adds between a node with the note `s` and one with the note `k`. */
  function NotesOf(e: Expr, s: Note, k: Note): seq<Note>
    decreases e, 0
  {
    match e
    case Name(_) => []
    case Choice(es) => ChoiceNotes(es, s, k)
    case Sequence(es) => SequenceNotes(es, s, k)
    case Star(b) => [LoopNote(b, k)] + NotesOf(b, LoopNote(b, k), LoopNote(b, k))
    case Plus(b) => [LoopNote(b, k)] + NotesOf(b, s, LoopNote(b, k)) + NotesOf(b, LoopNote(b, k), LoopNote(b, k))
    case Opt(b) => NotesOf(b, s, k)
    case Range(min, max, b) =>
      var c := if min == 0 then s else RangeNote(b, 0, AfterMin(min, max), k);
      MinNotes(b, s, min, max, k) + if max.None? then NotesOf(b, c, c) else MaxNotes(b, c, Optional(min, max), k)
  }

  function ChoiceNotes(es: seq<Expr>, s: Note, k: Note): seq<Note>
    decreases es, 0
  {
    if es == [] then [] else NotesOf(es[0], s, k) + ChoiceNotes(es[1..], s, k)
  }

  function SequenceNotes(es: seq<Expr>, s: Note, k: Note): seq<Note>
    decreases es, 0
  {
    if es == [] then []
    else if |es| == 1 then NotesOf(es[0], s, k)
    else
      var x := Before(k, Entries(es[1..]), NeedAll(es[1..], k.rank));
      NotesOf(es[0], s, x) + [x] + SequenceNotes(es[1..], x, k)
  }

  function LoopNote(b: Expr, k: Note): Note {
    Before(k, [Around(b)], LoopRank(b, k.rank))
  }

  /** The note of a node from which a range still has to go on. */
  function RangeNote(b: Expr, min: nat, max: Option<nat>, k: Note): Note {
    Before(k, Remaining(b, min, max), Need(Range(min, max, b), k.rank))
  }

  function MinNotes(b: Expr, s: Note, min: nat, max: Option<nat>, k: Note): seq<Note>
    decreases b, 1, min
  {
    if min == 0 then []
    else
      var c := RangeNote(b, min - 1, Fewer(max), k);
      [c] + NotesOf(b, s, c) + MinNotes(b, c, min - 1, Fewer(max), k)
  }

  function MaxNotes(b: Expr, s: Note, m: nat, k: Note): seq<Note>
    decreases b, 1, m
  {
    if m == 0 then []
    else
      var c := RangeNote(b, 0, Some(m - 1), k);
      [c] + NotesOf(b, s, c) + MaxNotes(b, c, m - 1, k)
  }

  /** From node `n` on, these are the notes. */
  predicate Noted(notes: seq<Note>, n: nat, x: seq<Note>) {
    n + |x| <= |notes| && notes[n..n + |x|] == x
  }

  lemma NotedBoth(notes: seq<Note>, n: nat, x: seq<Note>, y: seq<Note>)
    requires Noted(notes, n, x + y)
    ensures Noted(notes, n, x) && Noted(notes, n + |x|, y)
  {
    assert notes[n..n + |x|] == notes[n..n + |x + y|][..|x|];
    assert notes[n + |x|..n + |x| + |y|] == notes[n..n + |x + y|][|x|..];
  }

  lemma NotedOne(notes: seq<Note>, n: nat, c: Note)
    requires Noted(notes, n, [c])
    ensures n < |notes| && notes[n] == c
  {
    assert notes[n] == notes[n..n + 1][0];
  }

  // ----------------------------------------------------------------------
  // As many notes as nodes
  // ----------------------------------------------------------------------

  lemma {:induction false} NotesCount(t: Nfa, e: Expr, p: nat, s: Note, k: Note)
    requires p < |t|
    ensures |Compile(t, e, p).0| == |t| + |NotesOf(e, s, k)|
    decreases e, 0
  {
    hide LoopRank, Need, RangeNote, LoopNote, CompileChoice, CompileSequence, CompileMin, CompileMax,
         ChoiceNotes, SequenceNotes, MinNotes, MaxNotes;
    match e
    case Name(_) =>
    case Choice(es) => ChoiceCount(t, es, p, s, k);
    case Sequence(es) => SequenceCount(t, es, p, s, k);
    case Star(b) => NotesCount(AddEdge(AddNode(t), p, Some(|t|), None), b, |t|, LoopNote(b, k), LoopNote(b, k));
    case Plus(b) =>
      NotesCount(AddNode(t), b, p, s, LoopNote(b, k));
      var (t1, d) := Compile(AddNode(t), b, p);
      NotesCount(Connect(t1, d, |t|), b, |t|, LoopNote(b, k), LoopNote(b, k));
    case Opt(b) => NotesCount(AddEdge(t, p, None, None), b, p, s, k);
    case Range(min, max, b) =>
      MinCount(t, b, p, s, min, max, k);
      var (t1, l1) := CompileMin(t, b, p, min);
      var c := if min == 0 then s else RangeNote(b, 0, AfterMin(min, max), k);
      NotesCount(t1, b, l1, c, c);
      MaxCount(t1, b, l1, c, Optional(min, max), k);
  }

  lemma {:induction false} ChoiceCount(t: Nfa, es: seq<Expr>, p: nat, s: Note, k: Note)
    requires p < |t|
    ensures |CompileChoice(t, es, p).0| == |t| + |ChoiceNotes(es, s, k)|
    decreases es, 0
  {
    hide Compile, NotesOf;
    if es != [] {
      NotesCount(t, es[0], p, s, k);
      ChoiceCount(Compile(t, es[0], p).0, es[1..], p, s, k);
    }
  }

  lemma {:induction false} SequenceCount(t: Nfa, es: seq<Expr>, p: nat, s: Note, k: Note)
    requires p < |t|
    ensures |CompileSequence(t, es, p).0| == |t| + |SequenceNotes(es, s, k)|
    decreases es, 0
  {
    hide Compile, NotesOf, NeedAll, Entries;
    if es != [] {
      var x := Before(k, Entries(es[1..]), NeedAll(es[1..], k.rank));
      NotesCount(t, es[0], p, s, if |es| == 1 then k else x);
      if |es| > 1 {
        var (t1, d) := Compile(t, es[0], p);
        SequenceCount(Connect(AddNode(t1), d, |t1|), es[1..], |t1|, x, k);
      }
    }
  }

  lemma {:induction false} MinCount(t: Nfa, b: Expr, l: nat, s: Note, min: nat, max: Option<nat>, k: Note)
    requires l < |t|
    ensures |CompileMin(t, b, l, min).0| == |t| + |MinNotes(b, s, min, max, k)|
    decreases b, 1, min
  {
    hide Compile, NotesOf, RangeNote;
    if min > 0 {
      var c := RangeNote(b, min - 1, Fewer(max), k);
      NotesCount(AddNode(t), b, l, s, c);
      var (t1, d) := Compile(AddNode(t), b, l);
      MinCount(Connect(t1, d, |t|), b, |t|, c, min - 1, Fewer(max), k);
    }
  }

  lemma {:induction false} MaxCount(t: Nfa, b: Expr, l: nat, s: Note, m: nat, k: Note)
    requires l < |t|
    ensures |CompileMax(t, b, l, m).0| == |t| + |MaxNotes(b, s, m, k)|
    decreases b, 1, m
  {
    hide Compile, NotesOf, RangeNote;
    if m > 0 {
      var t0 := AddEdge(AddNode(t), l, Some(|t|), None);
      var c := RangeNote(b, 0, Some(m - 1), k);
      NotesCount(t0, b, l, s, c);
      var (t1, d) := Compile(t0, b, l);
      MaxCount(Connect(t1, d, |t|), b, |t|, c, m - 1, k);
    }
  }

  // ----------------------------------------------------------------------
  // One step of compiling
  // ----------------------------------------------------------------------

  lemma OkNode(f: Nfa, notes: seq<Note>, t: Nfa)
    requires |notes| == |f| && OkSoFar(f, notes, t)
    ensures OkSoFar(f, notes, AddNode(t))
  {
    hide EdgeAt;
  }

  lemma OkShape(f: Nfa, notes: seq<Note>, t: Nfa, t1: Nfa)
    requires |notes| == |f| && OkSoFar(f, notes, t) && SameShape(t, t1)
    ensures OkSoFar(f, notes, t1)
  {
    hide EdgeAt;
  }

  /** From a node with one note to a node with another, an edge of this kind is all right. */
  ghost predicate LinkOk(notes: seq<Note>, o: nat, term: Option<nat>, q: nat)
    requires o < |notes| && q < |notes|
  {
    if term.None? then Within(notes[q].follows, notes[o].follows) && Falls(notes[o], notes[q])
    else TypeThen(term.value, notes[q].follows, notes[o].follows) && notes[q].ranked == notes[o].ranked
  }

  lemma OkEdge(f: Nfa, notes: seq<Note>, t: Nfa, o: nat, dest: Option<nat>, term: Option<nat>, q: nat)
    requires |notes| == |f| && OkSoFar(f, notes, t) && o < |t| && o < |f| && q < |f|
    requires Fits(f, AddEdge(t, o, dest, term))
    requires if dest.Some? then dest.value == q else Leads(f, [NextSpot(t, o)], q)
    requires LinkOk(notes, o, term, q)
    ensures OkSoFar(f, notes, AddEdge(t, o, dest, term))
  {
    hide Within, TypeThen;
    var t1 := AddEdge(t, o, dest, term);
    var j := |t[o]|;
    assert t1[o][j] == Edge(term, dest);
    assert [NextSpot(t, o)][0] == (o, j);
    assert EdgeAt(f, notes, o, j);
    hide EdgeAt;
    forall s, i | 0 <= s < |t1| && 0 <= i < |t1[s]| ensures EdgeAt(f, notes, s, i) {
      if s == o && i == j {
      } else {
        assert i < |t[s]|;
      }
    }
  }

  /** Before `e` may follow, with its note `k` after it, the node `p` has to allow it and to rank high enough. */
  ghost predicate Ready(notes: seq<Note>, p: nat, e: Expr, k: Note) {
    p < |notes| && Goes(notes[p].follows, e, k.follows) && Over(notes[p], Need(e, k.rank), k)
  }

  predicate Over(a: Note, rank: nat, k: Note) {
    a.ranked == k.ranked && (a.ranked ==> a.rank >= rank)
  }

  lemma NameReady(notes: seq<Note>, p: nat, typ: nat, q: nat)
    requires q < |notes| && Ready(notes, p, Name(typ), notes[q])
    ensures LinkOk(notes, p, Some(typ), q)
  {
    var k := notes[q].follows;
    forall w: seq<nat> | AllowsAll(k, w) ensures AllowsAll(notes[p].follows, [typ] + w) {
      AllowsHead(Name(typ), k, [typ], w);
    }
  }

  lemma ChoiceReady(notes: seq<Note>, p: nat, es: seq<Expr>, i: nat, k: Note)
    requires i < |es| && Ready(notes, p, Choice(es), k)
    ensures Ready(notes, p, es[i], k)
  {
    hide Goes;
    GoesChoice(notes[p].follows, es, i, k.follows);
    NeedAnyMax(es, i, k.rank);
  }

  lemma {:induction false} NeedAnyMax(es: seq<Expr>, i: nat, r: nat)
    requires i < |es|
    ensures NeedAny(es, r) >= Need(es[i], r)
  {
    if i > 0 {
      NeedAnyMax(es[1..], i - 1, r);
    }
  }

  /** The note of the node between the first part of a sequence and the others. */
  function PartNote(es: seq<Expr>, k: Note): Note
    requires es != []
  {
    if |es| == 1 then k else Before(k, Entries(es[1..]), NeedAll(es[1..], k.rank))
  }

  lemma SequenceReady(notes: seq<Note>, p: nat, es: seq<Expr>, k: Note)
    requires es != [] && Ready(notes, p, Sequence(es), k)
    ensures Ready(notes, p, es[0], PartNote(es, k))
  {
    hide Goes;
    GoesFirst(notes[p].follows, es, k.follows);
    if |es| == 1 {
      assert Entries(es[1..]) == [] && [] + k.follows == k.follows;
    }
    assert Need(Sequence(es), k.rank) == NeedAll(es, k.rank);
  }

  lemma RestReady(notes: seq<Note>, x: nat, es: seq<Expr>, k: Note)
    requires |es| > 1 && x < |notes| && notes[x] == PartNote(es, k)
    ensures Ready(notes, x, Sequence(es[1..]), k)
  {
    hide Goes;
    GoesList(es[1..], k.follows);
  }

  lemma OptReady(notes: seq<Note>, p: nat, b: Expr, q: nat)
    requires q < |notes| && Ready(notes, p, Opt(b), notes[q])
    ensures Ready(notes, p, b, notes[q]) && LinkOk(notes, p, None, q)
  {
    hide Goes, Within;
    GoesOpt(notes[p].follows, b, notes[q].follows);
  }

  /** A node that a loop goes around is ready for its body, and for leaving it. */
  lemma LoopReady(notes: seq<Note>, l: nat, b: Expr, q: nat)
    requires l < |notes| && q < |notes| && notes[l] == LoopNote(b, notes[q]) && (notes[q].ranked ==> !Nullable(b))
    ensures Ready(notes, l, b, notes[l]) && LinkOk(notes, l, None, q)
  {
    hide Goes, Within;
    GoesAround(b, notes[q].follows);
    if notes[q].ranked {
      NeedFixed(b, notes[l].rank, 0);
    }
  }

  lemma StarReady(notes: seq<Note>, p: nat, l: nat, b: Expr, k: Note)
    requires l < |notes| && notes[l] == LoopNote(b, k) && Ready(notes, p, Star(b), k)
    ensures LinkOk(notes, p, None, l)
  {
    hide Within, Absorbs;
  }

  lemma PlusReady(notes: seq<Note>, p: nat, l: nat, b: Expr, k: Note)
    requires l < |notes| && notes[l] == LoopNote(b, k) && Ready(notes, p, Plus(b), k)
    ensures Ready(notes, p, b, notes[l])
  {
    hide Goes;
    GoesPlus(notes[p].follows, b, k.follows);
  }

  lemma NeedRanges(b: Expr, min: nat, max: Option<nat>, m: nat, r: nat)
    ensures min > 0 ==> Need(Range(min, max, b), r) == Need(b, Need(Range(min - 1, Fewer(max), b), r))
    ensures Need(Range(0, Some(m), b), r) == NeedMax(b, m, r)
    ensures Need(Range(0, None, b), r) == LoopRank(b, r)
  {
    assert min > 0 ==> Optional(min, max) == Optional(min - 1, Fewer(max));
  }

  /** The node from which a range goes on, and the node after one copy of its body. */
  lemma MinReady(notes: seq<Note>, l: nat, c: nat, b: Expr, min: nat, max: Option<nat>, k: Note)
    requires l < |notes| && c < |notes| && min > 0
    requires Ready(notes, l, Range(min, max, b), k) && notes[c] == RangeNote(b, min - 1, Fewer(max), k)
    ensures Ready(notes, l, b, notes[c]) && Ready(notes, c, Range(min - 1, Fewer(max), b), k)
  {
    hide Goes;
    NeedRanges(b, min, max, 0, k.rank);
    hide Need;
    GoesMin(notes[l].follows, b, min, max, k.follows);
    GoesRemaining(b, min - 1, Fewer(max), k.follows);
  }

  lemma MaxReady(notes: seq<Note>, l: nat, c: nat, b: Expr, m: nat, k: Note)
    requires l < |notes| && c < |notes| && m > 0
    requires Ready(notes, l, Range(0, Some(m), b), k) && notes[c] == RangeNote(b, 0, Some(m - 1), k)
    ensures Ready(notes, l, b, notes[c]) && LinkOk(notes, l, None, c) && Ready(notes, c, Range(0, Some(m - 1), b), k)
  {
    hide Goes, Within;
    NeedRanges(b, 0, None, m, k.rank);
    NeedRanges(b, 0, None, m - 1, k.rank);
    hide Need;
    GoesMax(notes[l].follows, b, m, k.follows);
    GoesRemaining(b, 0, Some(m - 1), k.follows);
  }

  /** A node at which a range may end. */
  lemma RangeEnds(notes: seq<Note>, l: nat, q: nat, b: Expr, max: Option<nat>)
    requires l < |notes| && q < |notes| && (max.None? || max.value == 0) && Ready(notes, l, Range(0, max, b), notes[q])
    ensures LinkOk(notes, l, None, q)
  {
    hide Goes, Within;
    NeedRanges(b, 0, None, 0, notes[q].rank);
    hide Need;
    GoesEnd(notes[l].follows, b, max, notes[q].follows);
  }

  lemma RangeLoops(notes: seq<Note>, l: nat, b: Expr, k: Note)
    requires l < |notes| && Ready(notes, l, Range(0, None, b), k) && (k.ranked ==> !Nullable(b))
    ensures Ready(notes, l, b, notes[l])
  {
    hide Goes;
    NeedRanges(b, 0, None, 0, k.rank);
    GoesLoop(notes[l].follows, b, k.follows);
    if k.ranked {
      NeedFixed(b, notes[l].rank, 0);
    }
  }

  // ----------------------------------------------------------------------
  // Compiling keeps the labels right
  // ----------------------------------------------------------------------

  lemma {:induction false} Sound(f: Nfa, notes: seq<Note>, t: Nfa, e: Expr, p: nat, q: nat)
    requires p < |t| && p < |notes| == |f| && q < |f| && Parsed(e) && (notes[q].ranked ==> LoopsRead(e))
    requires Fits(f, Compile(t, e, p).0) && Leads(f, Compile(t, e, p).1, q)
    requires Noted(notes, |t|, NotesOf(e, notes[p], notes[q])) && Ready(notes, p, e, notes[q]) && OkSoFar(f, notes, t)
    ensures OkSoFar(f, notes, Compile(t, e, p).0)
    decreases e, 0
  {
    hide Leads, OkSoFar, Ready, LinkOk, CompileChoice, CompileSequence, CompileMin, CompileMax, CompileLoop, Nullable,
         AddEdge, AddNode, Connect, ChoiceNotes, SequenceNotes, MinNotes, MaxNotes, Noted, Fits, HasEdge, SameShape;
    FitsCount(f, t, Compile(t, e, p).0);
    match e
    case Name(typ) =>
      NameReady(notes, p, typ, q);
      OkEdge(f, notes, t, p, None, Some(typ), q);
    case Choice(es) =>
      forall i | 0 <= i < |es| ensures Ready(notes, p, es[i], notes[q]) {
        ChoiceReady(notes, p, es, i, notes[q]);
      }
      ChoiceSound(f, notes, t, es, p, q);
    case Sequence(es) =>
      SequenceSound(f, notes, t, es, p, q);
    case Star(b) =>
      StarSound(f, notes, t, b, p, q);
    case Plus(b) =>
      PlusSound(f, notes, t, b, p, q);
    case Opt(b) =>
      OptStages(f, t, b, p, q);
      OptReady(notes, p, b, q);
      var t1 := AddEdge(t, p, None, None);
      OptLeads(f, t, b, p, q);
      OkEdge(f, notes, t, p, None, None, q);
      Sound(f, notes, t1, b, p, q);
    case Range(min, max, b) =>
      RangeSound(f, notes, t, min, max, b, p, q);
  }

  lemma FitsCount(f: Nfa, t: Nfa, t1: Nfa)
    requires Fits(f, t1) && |t| <= |t1|
    ensures |t| <= |f|
  {
  }

  lemma OptLeads(f: Nfa, t: Nfa, b: Expr, p: nat, q: nat)
    requires p < |t| && Leads(f, Compile(t, Opt(b), p).1, q)
    ensures Leads(f, [NextSpot(t, p)], q)
  {
    hide Leads;
    var t1 := AddEdge(t, p, None, None);
    LeadsBoth(f, [NextSpot(t, p)], Compile(t1, b, p).1, q);
  }

  lemma {:induction false} ChoiceSound(f: Nfa, notes: seq<Note>, t: Nfa, es: seq<Expr>, p: nat, q: nat)
    requires p < |t| && p < |notes| == |f| && q < |f| && ParsedAll(es) && (notes[q].ranked ==> LoopsReadAll(es))
    requires Fits(f, CompileChoice(t, es, p).0) && Leads(f, CompileChoice(t, es, p).1, q)
    requires Noted(notes, |t|, ChoiceNotes(es, notes[p], notes[q])) && OkSoFar(f, notes, t)
    requires forall i :: 0 <= i < |es| ==> Ready(notes, p, es[i], notes[q])
    ensures OkSoFar(f, notes, CompileChoice(t, es, p).0)
    decreases es, 0
  {
    hide Leads, OkSoFar, Ready, Compile, NotesOf, Noted, Fits, Parsed, LoopsRead;
    if es != [] {
      ChoiceStages(f, t, es, p, q);
      NotedBoth(notes, |t|, NotesOf(es[0], notes[p], notes[q]), ChoiceNotes(es[1..], notes[p], notes[q]));
      Sound(f, notes, t, es[0], p, q);
      NotesCount(t, es[0], p, notes[p], notes[q]);
      ChoiceSound(f, notes, Compile(t, es[0], p).0, es[1..], p, q);
    }
  }

  lemma {:induction false} SequenceSound(f: Nfa, notes: seq<Note>, t: Nfa, es: seq<Expr>, p: nat, q: nat)
    requires p < |t| && p < |notes| == |f| && q < |f| && es != [] && ParsedAll(es) && (notes[q].ranked ==> LoopsReadAll(es))
    requires Fits(f, CompileSequence(t, es, p).0) && Leads(f, CompileSequence(t, es, p).1, q)
    requires Noted(notes, |t|, SequenceNotes(es, notes[p], notes[q])) && OkSoFar(f, notes, t)
    requires Ready(notes, p, Sequence(es), notes[q])
    ensures OkSoFar(f, notes, CompileSequence(t, es, p).0)
    decreases es, 0
  {
    hide Leads, OkSoFar, Compile, NotesOf, Noted, Fits, Parsed, LoopsRead, Connect, AddNode, Need, SameShape, Ready, Entries;
    var k, c := notes[q], PartNote(es, notes[q]);
    SequenceReady(notes, p, es, k);
    if |es| == 1 {
      Sound(f, notes, t, es[0], p, q);
    } else {
      SequenceStages(f, t, es, p, q);
      var (t1, d) := Compile(t, es[0], p);
      var x := |t1|;
      var rest := SequenceNotes(es[1..], c, k);
      assert NotesOf(es[0], notes[p], c) + [c] + rest == NotesOf(es[0], notes[p], c) + ([c] + rest);
      NotedBoth(notes, |t|, NotesOf(es[0], notes[p], c), [c] + rest);
      NotesCount(t, es[0], p, notes[p], c);
      NotedBoth(notes, x, [c], rest);
      NotedOne(notes, x, c);
      Sound(f, notes, t, es[0], p, x);
      OkNode(f, notes, t1);
      var t2 := Connect(AddNode(t1), d, x);
      OkShape(f, notes, AddNode(t1), t2);
      NodeCount(t1);
      RestReady(notes, x, es, k);
      SequenceSound(f, notes, t2, es[1..], x, q);
    }
  }

  lemma {:induction false} StarSound(f: Nfa, notes: seq<Note>, t: Nfa, b: Expr, p: nat, q: nat)
    requires p < |t| && p < |notes| == |f| && q < |f| && Parsed(b) && (notes[q].ranked ==> LoopsRead(b) && !Nullable(b))
    requires Fits(f, Compile(t, Star(b), p).0) && Leads(f, Compile(t, Star(b), p).1, q)
    requires Noted(notes, |t|, NotesOf(Star(b), notes[p], notes[q])) && Ready(notes, p, Star(b), notes[q]) && OkSoFar(f, notes, t)
    ensures OkSoFar(f, notes, Compile(t, Star(b), p).0)
    decreases b, 2
  {
    hide Leads, OkSoFar, Ready, LinkOk, Nullable, AddEdge, Connect, Noted, Fits, Parsed, LoopsRead, HasEdge, SameShape, Around, LoopRank;
    var l, c := |t|, LoopNote(b, notes[q]);
    StarStages(f, t, b, p, q);
    NotedBoth(notes, l, [c], NotesOf(b, c, c));
    NotedOne(notes, l, c);
    StarReady(notes, p, l, b, notes[q]);
    LoopReady(notes, l, b, q);
    OkNode(f, notes, t);
    var t1 := AddEdge(AddNode(t), p, Some(l), None);
    OkEdge(f, notes, AddNode(t), p, Some(l), None, l);
    Sound(f, notes, t1, b, l, l);
    var (t2, d) := Compile(t1, b, l);
    var t3 := Connect(t2, d, l);
    OkShape(f, notes, t2, t3);
    OkEdge(f, notes, t3, l, None, None, q);
  }

  lemma {:induction false} PlusSound(f: Nfa, notes: seq<Note>, t: Nfa, b: Expr, p: nat, q: nat)
    requires p < |t| && p < |notes| == |f| && q < |f| && Parsed(b) && (notes[q].ranked ==> LoopsRead(b) && !Nullable(b))
    requires Fits(f, Compile(t, Plus(b), p).0) && Leads(f, Compile(t, Plus(b), p).1, q)
    requires Noted(notes, |t|, NotesOf(Plus(b), notes[p], notes[q])) && Ready(notes, p, Plus(b), notes[q]) && OkSoFar(f, notes, t)
    ensures OkSoFar(f, notes, Compile(t, Plus(b), p).0)
    decreases b, 2
  {
    hide Leads, OkSoFar, Ready, LinkOk, Nullable, AddEdge, Connect, Noted, Fits, Parsed, LoopsRead, HasEdge, SameShape, Around, LoopRank;
    var l, c, s := |t|, LoopNote(b, notes[q]), notes[p];
    PlusStages(f, t, b, p, q);
    NotedBoth(notes, l, [c] + NotesOf(b, s, c), NotesOf(b, c, c));
    NotedBoth(notes, l, [c], NotesOf(b, s, c));
    NotedOne(notes, l, c);
    PlusReady(notes, p, l, b, notes[q]);
    LoopReady(notes, l, b, q);
    OkNode(f, notes, t);
    Sound(f, notes, AddNode(t), b, p, l);
    NotesCount(AddNode(t), b, p, s, c);
    var (t1, d1) := Compile(AddNode(t), b, p);
    var t2 := Connect(t1, d1, l);
    OkShape(f, notes, t1, t2);
    Sound(f, notes, t2, b, l, l);
    var (t3, d2) := Compile(t2, b, l);
    var t4 := Connect(t3, d2, l);
    OkShape(f, notes, t3, t4);
    OkEdge(f, notes, t4, l, None, None, q);
  }

  lemma {:induction false} MinSound(f: Nfa, notes: seq<Note>, t: Nfa, b: Expr, l: nat, min: nat, max: Option<nat>, k: Note)
    requires l < |t| && l < |f| == |notes| && Parsed(b) && (k.ranked ==> LoopsRead(b))
    requires Fits(f, CompileMin(t, b, l, min).0) && Noted(notes, |t|, MinNotes(b, notes[l], min, max, k)) && OkSoFar(f, notes, t)
    requires Ready(notes, l, Range(min, max, b), k)
    ensures var (t1, l1) := CompileMin(t, b, l, min);
            && OkSoFar(f, notes, t1) && l1 < |f| && Ready(notes, l1, Range(0, AfterMin(min, max), b), k)
            && notes[l1] == if min == 0 then notes[l] else RangeNote(b, 0, AfterMin(min, max), k)
    decreases b, 2, min
  {
    hide Leads, OkSoFar, Ready, Compile, Noted, Fits, Parsed, LoopsRead, SameShape, Connect, NotesOf, Need, Remaining;
    AfterLess(min, max);
    if min > 0 {
      hide CompileMin;
      MinStages(f, t, b, l, min);
      var x, c := |t|, RangeNote(b, min - 1, Fewer(max), k);
      var rest := MinNotes(b, c, min - 1, Fewer(max), k);
      NotedBoth(notes, x, [c] + NotesOf(b, notes[l], c), rest);
      NotedBoth(notes, x, [c], NotesOf(b, notes[l], c));
      NotedOne(notes, x, c);
      MinReady(notes, l, x, b, min, max, k);
      OkNode(f, notes, t);
      NodeCount(t);
      Sound(f, notes, AddNode(t), b, l, x);
      NotesCount(AddNode(t), b, l, notes[l], c);
      var (t1, d) := Compile(AddNode(t), b, l);
      var t2 := Connect(t1, d, x);
      OkShape(f, notes, t1, t2);
      MinSound(f, notes, t2, b, x, min - 1, Fewer(max), k);
    }
  }

  lemma {:induction false} MaxSound(f: Nfa, notes: seq<Note>, t: Nfa, b: Expr, l: nat, m: nat, k: Note)
    requires l < |t| && l < |f| == |notes| && Parsed(b) && (k.ranked ==> LoopsRead(b))
    requires Fits(f, CompileMax(t, b, l, m).0) && Noted(notes, |t|, MaxNotes(b, notes[l], m, k)) && OkSoFar(f, notes, t)
    requires Ready(notes, l, Range(0, Some(m), b), k)
    ensures var (t1, l1) := CompileMax(t, b, l, m);
            OkSoFar(f, notes, t1) && l1 < |f| && Ready(notes, l1, Range(0, Some(0), b), k)
    decreases b, 2, m
  {
    hide Leads, OkSoFar, Ready, Compile, Noted, Fits, Parsed, LoopsRead, SameShape, Connect, NotesOf, Need, Remaining,
         HasEdge, AddEdge, LinkOk;
    if m > 0 {
      hide CompileMax;
      MaxStages(f, t, b, l, m);
      var x, c := |t|, RangeNote(b, 0, Some(m - 1), k);
      var rest := MaxNotes(b, c, m - 1, k);
      NotedBoth(notes, x, [c] + NotesOf(b, notes[l], c), rest);
      NotedBoth(notes, x, [c], NotesOf(b, notes[l], c));
      NotedOne(notes, x, c);
      MaxReady(notes, l, x, b, m, k);
      OkNode(f, notes, t);
      NodeCount(t);
      var t0 := AddEdge(AddNode(t), l, Some(x), None);
      OkEdge(f, notes, AddNode(t), l, Some(x), None, x);
      Sound(f, notes, t0, b, l, x);
      NotesCount(t0, b, l, notes[l], c);
      var (t1, d) := Compile(t0, b, l);
      var t2 := Connect(t1, d, x);
      OkShape(f, notes, t1, t2);
      MaxSound(f, notes, t2, b, x, m - 1, k);
    }
  }

  lemma {:induction false} RangeSound(f: Nfa, notes: seq<Note>, t: Nfa, min: nat, max: Option<nat>, b: Expr, p: nat, q: nat)
    requires p < |t| && p < |f| == |notes| && q < |f| && Parsed(b) && (notes[q].ranked ==> LoopsRead(Range(min, max, b)))
    requires Fits(f, Compile(t, Range(min, max, b), p).0) && Leads(f, Compile(t, Range(min, max, b), p).1, q)
    requires Noted(notes, |t|, NotesOf(Range(min, max, b), notes[p], notes[q]))
    requires Ready(notes, p, Range(min, max, b), notes[q]) && OkSoFar(f, notes, t)
    ensures OkSoFar(f, notes, Compile(t, Range(min, max, b), p).0)
    decreases b, 3
  {
    hide Leads, OkSoFar, Nullable, AddEdge, Connect, Noted, Fits, HasEdge, SameShape, CompileMin, CompileMax, LinkOk,
         MinNotes, MaxNotes, Need, Remaining, Ready;
    var s, k := notes[p], notes[q];
    RangeStages(f, t, min, max, b, p, q);
    var (t1, l1) := CompileMin(t, b, p, min);
    var c := if min == 0 then s else RangeNote(b, 0, AfterMin(min, max), k);
    var tail := if max.None? then NotesOf(b, c, c) else MaxNotes(b, c, Optional(min, max), k);
    NotedBoth(notes, |t|, MinNotes(b, s, min, max, k), tail);
    MinSound(f, notes, t, b, p, min, max, k);
    MinCount(t, b, p, s, min, max, k);
    if max.None? {
      LoopStages(f, t1, b, l1);
      RangeLoops(notes, l1, b, k);
      ReadyAgrees(notes, l1, b, notes[l1], Range(0, None, b), k);
      Sound(f, notes, t1, b, l1, l1);
      var (t2, d) := Compile(t1, b, l1);
      OkShape(f, notes, t2, Connect(t2, d, l1));
      RangeEnds(notes, l1, q, b, None);
      OkEdge(f, notes, Connect(t2, d, l1), l1, None, None, q);
    } else {
      var m := Optional(min, max);
      MaxSound(f, notes, t1, b, l1, m, k);
      var (t2, l2) := CompileMax(t1, b, l1, m);
      RangeEnds(notes, l2, q, b, Some(0));
      OkEdge(f, notes, t2, l2, None, None, q);
    }
  }

  lemma ReadyAgrees(notes: seq<Note>, l: nat, b: Expr, c: Note, e: Expr, k: Note)
    requires l < |notes| && Ready(notes, l, b, c) && Ready(notes, l, e, k)
    ensures notes[l].ranked == k.ranked
  {
    hide Goes;
  }
}
