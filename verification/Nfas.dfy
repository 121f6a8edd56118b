/**
  Content expressions compiled to automata whose edges are added first and
  connected later.
 */
module Nfas {
  import opened Options
  import opened Expressions

  /** An edge: taken on a node type or for nothing, and leading nowhere until it is connected. */
  datatype Edge = Edge(term: Option<nat>, dest: Option<nat>)

  type Nfa = seq<seq<Edge>>

  /** The place of an edge: its node and its index there. */
  type Spot = (nat, nat)

  function AddNode(t: Nfa): Nfa {
    t + [[]]
  }

  function AddEdge(t: Nfa, o: nat, dest: Option<nat>, term: Option<nat>): (r: Nfa)
    requires o < |t|
    ensures |r| == |t|
  {
    t[o := t[o] + [Edge(term, dest)]]
  }

  /** Where `AddEdge` puts the edge. */
  function NextSpot(t: Nfa, o: nat): Spot
    requires o < |t|
  {
    (o, |t[o]|)
  }

  predicate HasSpot(t: Nfa, s: Spot) {
    s.0 < |t| && s.1 < |t[s.0]|
  }

  function ConnectOne(t: Nfa, s: Spot, dest: nat): (r: Nfa)
    ensures |r| == |t|
  {
    if HasSpot(t, s) then t[s.0 := t[s.0][s.1 := Edge(t[s.0][s.1].term, Some(dest))]] else t
  }

  function Connect(t: Nfa, spots: seq<Spot>, dest: nat): (r: Nfa)
    ensures |r| == |t|
    decreases |spots|
  {
    if spots == [] then t else Connect(ConnectOne(t, spots[0], dest), spots[1..], dest)
  }

  /** The automaton with an expression added from node `p` on, and the edges that still have to be connected. */
  function Compile(t: Nfa, e: Expr, p: nat): (r: (Nfa, seq<Spot>))
    requires p < |t|
    ensures |t| <= |r.0|
    decreases e, 0
  {
    match e
    case Name(typ) => (AddEdge(t, p, None, Some(typ)), [NextSpot(t, p)])
    case Choice(es) => CompileChoice(t, es, p)
    case Sequence(es) => CompileSequence(t, es, p)
    case Star(b) =>
      var l := |t|;
      var (t1, d) := Compile(AddEdge(AddNode(t), p, Some(l), None), b, l);
      var t2 := Connect(t1, d, l);
      (AddEdge(t2, l, None, None), [NextSpot(t2, l)])
    case Plus(b) =>
      var l := |t|;
      var (t1, d1) := Compile(AddNode(t), b, p);
      var (t2, d2) := Compile(Connect(t1, d1, l), b, l);
      var t3 := Connect(t2, d2, l);
      (AddEdge(t3, l, None, None), [NextSpot(t3, l)])
    case Opt(b) =>
      var (t1, d) := Compile(AddEdge(t, p, None, None), b, p);
      (t1, [NextSpot(t, p)] + d)
    case Range(min, max, b) =>
      var (t1, l1) := CompileMin(t, b, p, min);
      var (t2, l2) := if max.None? then CompileLoop(t1, b, l1) else CompileMax(t1, b, l1, if max.value > min then max.value - min else 0);
      (AddEdge(t2, l2, None, None), [NextSpot(t2, l2)])
  }

  function CompileChoice(t: Nfa, es: seq<Expr>, p: nat): (r: (Nfa, seq<Spot>))
    requires p < |t|
    ensures |t| <= |r.0|
    decreases es, 0
  {
    if es == [] then (t, [])
    else
      var (t1, d1) := Compile(t, es[0], p);
      var (t2, d2) := CompileChoice(t1, es[1..], p);
      (t2, d1 + d2)
  }

  function CompileSequence(t: Nfa, es: seq<Expr>, p: nat): (r: (Nfa, seq<Spot>))
    requires p < |t|
    ensures |t| <= |r.0|
    decreases es, 0
  {
    if es == [] then (t, [])
    else
      var (t1, d) := Compile(t, es[0], p);
      if |es| == 1 then (t1, d)
      else CompileSequence(Connect(AddNode(t1), d, |t1|), es[1..], |t1|)
  }

  /** `m` copies one after the other; the node after the last. */
  function CompileMin(t: Nfa, b: Expr, l: nat, m: nat): (r: (Nfa, nat))
    requires l < |t|
    ensures |t| <= |r.0| && r.1 < |r.0|
    decreases b, m + 1
  {
    if m == 0 then (t, l)
    else
      var c := |t|;
      var (t1, d) := Compile(AddNode(t), b, l);
      CompileMin(Connect(t1, d, c), b, c, m - 1)
  }

  /** `m` copies one after the other, each of which may be passed over. */
  function CompileMax(t: Nfa, b: Expr, l: nat, m: nat): (r: (Nfa, nat))
    requires l < |t|
    ensures |t| <= |r.0| && r.1 < |r.0|
    decreases b, m + 1
  {
    if m == 0 then (t, l)
    else
      var c := |t|;
      var (t1, d) := Compile(AddEdge(AddNode(t), l, Some(c), None), b, l);
      CompileMax(Connect(t1, d, c), b, c, m - 1)
  }

  function CompileLoop(t: Nfa, b: Expr, l: nat): (r: (Nfa, nat))
    requires l < |t|
    ensures |t| <= |r.0| && r.1 < |r.0|
    decreases b, 1
  {
    var (t1, d) := Compile(t, b, l);
    (Connect(t1, d, l), l)
  }

  /** The whole automaton: it starts at node 0 and accepts at its last node. */
  function Automaton(e: Expr): Nfa {
    var (t, d) := Compile([[]], e, 0);
    Connect(AddNode(t), d, |t|)
  }

  // ----------------------------------------------------------------------
  // What compiling leaves alone
  // ----------------------------------------------------------------------

  /** Everything in `t` is still where it was. */
  predicate Extends(t: Nfa, t1: Nfa) {
    && |t| <= |t1|
    && forall s :: 0 <= s < |t| ==> |t[s]| <= |t1[s]| && forall j :: 0 <= j < |t[s]| ==> t1[s][j] == t[s][j]
  }

  /** Edges that lead nowhere yet, all of them newer than `t`. */
  predicate Dangling(t: Nfa, t1: Nfa, spots: seq<Spot>) {
    forall i :: 0 <= i < |spots| ==>
      HasSpot(t1, spots[i]) && t1[spots[i].0][spots[i].1].dest.None? && !HasSpot(t, spots[i])
  }

  lemma ExtendsTrans(t: Nfa, t1: Nfa, t2: Nfa)
    requires Extends(t, t1) && Extends(t1, t2)
    ensures Extends(t, t2)
  {
  }

  lemma DanglingStays(t: Nfa, t1: Nfa, t2: Nfa, spots: seq<Spot>)
    requires Dangling(t, t1, spots) && Extends(t1, t2)
    ensures Dangling(t, t2, spots)
  {
  }

  lemma DanglingSince(t: Nfa, t1: Nfa, t2: Nfa, spots: seq<Spot>)
    requires Extends(t, t1) && Dangling(t1, t2, spots)
    ensures Dangling(t, t2, spots)
  {
  }

  lemma DanglingBoth(t: Nfa, t1: Nfa, a: seq<Spot>, b: seq<Spot>)
    requires Dangling(t, t1, a) && Dangling(t, t1, b)
    ensures Dangling(t, t1, a + b)
  {
  }

  lemma AddNodeExtends(t: Nfa)
    ensures Extends(t, AddNode(t))
  {
  }

  lemma AddEdgeExtends(t: Nfa, o: nat, dest: Option<nat>, term: Option<nat>)
    requires o < |t|
    ensures Extends(t, AddEdge(t, o, dest, term))
    ensures dest.None? ==> Dangling(t, AddEdge(t, o, dest, term), [NextSpot(t, o)])
  {
  }

  lemma {:induction false} ConnectExtends(t: Nfa, t1: Nfa, spots: seq<Spot>, dest: nat)
    requires Extends(t, t1) && forall i :: 0 <= i < |spots| ==> !HasSpot(t, spots[i])
    ensures Extends(t, Connect(t1, spots, dest))
    decreases |spots|
  {
    if spots != [] {
      assert !HasSpot(t, spots[0]);
      ConnectExtends(t, ConnectOne(t1, spots[0], dest), spots[1..], dest);
    }
  }

  /** Compiling and connecting what it left extends the automaton from before. */
  lemma ConnectedExtends(t: Nfa, t1: Nfa, spots: seq<Spot>, dest: nat)
    requires Extends(t, t1) && Dangling(t, t1, spots)
    ensures Extends(t, Connect(t1, spots, dest))
  {
    ConnectExtends(t, t1, spots, dest);
  }

  /** Compiling adds to the automaton, and leaves edges of its own to be connected. */
  lemma {:induction false} CompileShape(t: Nfa, e: Expr, p: nat)
    requires p < |t|
    ensures Extends(t, Compile(t, e, p).0) && Dangling(t, Compile(t, e, p).0, Compile(t, e, p).1)
    decreases e, 0
  {
    hide Extends, Dangling, Connect, AddEdge, AddNode, CompileChoice, CompileSequence, CompileMin, CompileMax, CompileLoop;
    match e
    case Name(typ) => AddEdgeExtends(t, p, None, Some(typ));
    case Choice(es) => ChoiceShape(t, es, p);
    case Sequence(es) => SequenceShape(t, es, p);
    case Star(b) =>
      StarShape(t, b, p);
    case Plus(b) =>
      PlusShape(t, b, p);
    case Opt(b) =>
      AddEdgeExtends(t, p, None, None);
      var t0 := AddEdge(t, p, None, None);
      CompileShape(t0, b, p);
      var (t1, d) := Compile(t0, b, p);
      ExtendsTrans(t, t0, t1);
      DanglingStays(t, t0, t1, [NextSpot(t, p)]);
      DanglingSince(t, t0, t1, d);
      DanglingBoth(t, t1, [NextSpot(t, p)], d);
    case Range(min, max, b) =>
      MinShape(t, b, p, min);
      var (t1, l1) := CompileMin(t, b, p, min);
      var m := if max.Some? && max.value > min then max.value - min else 0;
      LoopShape(t1, b, l1);
      MaxShape(t1, b, l1, m);
      var (t2, l2) := if max.None? then CompileLoop(t1, b, l1) else CompileMax(t1, b, l1, m);
      ExtendsTrans(t, t1, t2);
      LastEdge(t, t2, l2);
  }

  lemma LastEdge(t: Nfa, t1: Nfa, l: nat)
    requires Extends(t, t1) && l < |t1|
    ensures Extends(t, AddEdge(t1, l, None, None)) && Dangling(t, AddEdge(t1, l, None, None), [NextSpot(t1, l)])
  {
    hide Extends, Dangling, AddEdge;
    AddEdgeExtends(t1, l, None, None);
    ExtendsTrans(t, t1, AddEdge(t1, l, None, None));
    DanglingSince(t, t1, AddEdge(t1, l, None, None), [NextSpot(t1, l)]);
  }

  lemma {:induction false} StarShape(t: Nfa, b: Expr, p: nat)
    requires p < |t|
    ensures Extends(t, Compile(t, Star(b), p).0) && Dangling(t, Compile(t, Star(b), p).0, Compile(t, Star(b), p).1)
    decreases b, 2
  {
    hide Extends, Dangling, Connect, AddEdge;
    var l, t0 := |t|, AddNode(t);
    AddNodeExtends(t);
    AddEdgeExtends(t0, p, Some(l), None);
    var t1 := AddEdge(t0, p, Some(l), None);
    ExtendsTrans(t, t0, t1);
    CompileShape(t1, b, l);
    var (t2, d) := Compile(t1, b, l);
    ConnectedExtends(t1, t2, d, l);
    ExtendsTrans(t, t1, Connect(t2, d, l));
    LastEdge(t, Connect(t2, d, l), l);
  }

  lemma {:induction false} PlusShape(t: Nfa, b: Expr, p: nat)
    requires p < |t|
    ensures Extends(t, Compile(t, Plus(b), p).0) && Dangling(t, Compile(t, Plus(b), p).0, Compile(t, Plus(b), p).1)
    decreases b, 2
  {
    hide Extends, Dangling, Connect, AddEdge;
    var l, t0 := |t|, AddNode(t);
    AddNodeExtends(t);
    StepShape(t0, b, p, l);
    var (t1, d1) := Compile(t0, b, p);
    var t2 := Connect(t1, d1, l);
    StepShape(t2, b, l, l);
    var (t3, d2) := Compile(t2, b, l);
    ExtendsTrans(t, t0, t2);
    ExtendsTrans(t, t2, Connect(t3, d2, l));
    LastEdge(t, Connect(t3, d2, l), l);
  }

  /** Compiling from one node to another. */
  lemma {:induction false} StepShape(t: Nfa, b: Expr, p: nat, dest: nat)
    requires p < |t|
    ensures var (t1, d) := Compile(t, b, p);
            Extends(t, Connect(t1, d, dest)) && Extends(t, t1) && Dangling(t, t1, d)
    decreases b, 1
  {
    hide Extends, Dangling, Connect, Compile;
    CompileShape(t, b, p);
    var (t1, d) := Compile(t, b, p);
    ConnectedExtends(t, t1, d, dest);
  }

  lemma {:induction false} ChoiceShape(t: Nfa, es: seq<Expr>, p: nat)
    requires p < |t|
    ensures Extends(t, CompileChoice(t, es, p).0) && Dangling(t, CompileChoice(t, es, p).0, CompileChoice(t, es, p).1)
    decreases es, 0
  {
    hide Compile;
    if es != [] {
      hide Extends, Dangling;
      CompileShape(t, es[0], p);
      var (t1, d1) := Compile(t, es[0], p);
      ChoiceShape(t1, es[1..], p);
      var (t2, d2) := CompileChoice(t1, es[1..], p);
      ExtendsTrans(t, t1, t2);
      DanglingStays(t, t1, t2, d1);
      DanglingSince(t, t1, t2, d2);
      DanglingBoth(t, t2, d1, d2);
    }
  }

  lemma {:induction false} SequenceShape(t: Nfa, es: seq<Expr>, p: nat)
    requires p < |t|
    ensures Extends(t, CompileSequence(t, es, p).0) && Dangling(t, CompileSequence(t, es, p).0, CompileSequence(t, es, p).1)
    decreases es, 0
  {
    hide Compile;
    if es != [] {
      hide Extends, Dangling, Connect, AddNode;
      CompileShape(t, es[0], p);
      var (t1, d) := Compile(t, es[0], p);
      AddNodeExtends(t1);
      var t2 := AddNode(t1);
      ExtendsTrans(t, t1, t2);
      DanglingStays(t, t1, t2, d);
      if |es| > 1 {
        assert |t2| == |t1| + 1 by {
          NodeCount(t1);
        }
        ConnectedExtends(t, t2, d, |t1|);
        var t3 := Connect(t2, d, |t1|);
        SequenceShape(t3, es[1..], |t1|);
        var (t4, d4) := CompileSequence(t3, es[1..], |t1|);
        ExtendsTrans(t, t3, t4);
        DanglingSince(t, t3, t4, d4);
      }
    }
  }

  lemma NodeCount(t: Nfa)
    ensures |AddNode(t)| == |t| + 1
  {
  }

  lemma {:induction false} MinShape(t: Nfa, b: Expr, l: nat, m: nat)
    requires l < |t|
    ensures Extends(t, CompileMin(t, b, l, m).0)
    decreases b, 2, m
  {
    hide Compile;
    if m > 0 {
      hide Extends, Dangling, Connect;
      var c, t0 := |t|, AddNode(t);
      AddNodeExtends(t);
      StepShape(t0, b, l, c);
      var (t1, d) := Compile(t0, b, l);
      var t2 := Connect(t1, d, c);
      MinShape(t2, b, c, m - 1);
      ExtendsTrans(t, t0, t2);
      ExtendsTrans(t, t2, CompileMin(t2, b, c, m - 1).0);
    }
  }

  lemma {:induction false} MaxShape(t: Nfa, b: Expr, l: nat, m: nat)
    requires l < |t|
    ensures Extends(t, CompileMax(t, b, l, m).0)
    decreases b, 2, m
  {
    hide Compile;
    if m > 0 {
      hide Extends, Dangling, Connect, AddEdge;
      var c, t0 := |t|, AddNode(t);
      AddNodeExtends(t);
      AddEdgeExtends(t0, l, Some(c), None);
      var t1 := AddEdge(t0, l, Some(c), None);
      ExtendsTrans(t, t0, t1);
      StepShape(t1, b, l, c);
      var (t2, d) := Compile(t1, b, l);
      var t3 := Connect(t2, d, c);
      MaxShape(t3, b, c, m - 1);
      ExtendsTrans(t, t1, t3);
      ExtendsTrans(t, t3, CompileMax(t3, b, c, m - 1).0);
    }
  }

  lemma {:induction false} LoopShape(t: Nfa, b: Expr, l: nat)
    requires l < |t|
    ensures Extends(t, CompileLoop(t, b, l).0)
    decreases b, 2
  {
    hide Compile, Extends, Dangling, Connect;
    StepShape(t, b, l, l);
  }
}
