/**
  How the parts of a compiled expression lie in a finished automaton, in which
  every edge has been connected.
 */
module Wiring {
  import opened Options
  import opened Expressions
  import opened Nfas

  /** The finished automaton `f` has all that `t` has; what `t` leaves open may lead anywhere. */
  predicate Fits(f: Nfa, t: Nfa) {
    && |t| <= |f|
    && forall s :: 0 <= s < |t| ==> |t[s]| <= |f[s]| && forall j :: 0 <= j < |t[s]| ==>
         f[s][j].term == t[s][j].term && (t[s][j].dest.Some? ==> f[s][j].dest == t[s][j].dest)
  }

  /** In the finished automaton these edges lead to `q`. */
  predicate Leads(f: Nfa, spots: seq<Spot>, q: nat) {
    forall i :: 0 <= i < |spots| ==> HasSpot(f, spots[i]) && f[spots[i].0][spots[i].1].dest == Some(q)
  }

  predicate HasEdge(f: Nfa, s: nat, term: Option<nat>, q: nat) {
    s < |f| && exists j :: 0 <= j < |f[s]| && f[s][j] == Edge(term, Some(q))
  }

  lemma FitsEarlier(f: Nfa, t: Nfa, t1: Nfa)
    requires Fits(f, t1) && Extends(t, t1)
    ensures Fits(f, t)
  {
  }

  lemma LeadsBoth(f: Nfa, a: seq<Spot>, b: seq<Spot>, q: nat)
    requires Leads(f, a + b, q)
    ensures Leads(f, a, q) && Leads(f, b, q)
  {
    forall i | 0 <= i < |a| ensures (a + b)[i] == a[i] {
    }
    forall i | 0 <= i < |b| ensures (a + b)[|a| + i] == b[i] {
    }
  }

  lemma FitsNode(f: Nfa, t: Nfa)
    requires Fits(f, AddNode(t))
    ensures Fits(f, t) && |t| < |f|
  {
  }

  lemma FitsEdge(f: Nfa, t: Nfa, o: nat, q: nat, term: Option<nat>)
    requires o < |t| && Fits(f, AddEdge(t, o, Some(q), term))
    ensures Fits(f, t) && HasEdge(f, o, term, q)
  {
    var t1 := AddEdge(t, o, Some(q), term);
    assert t1[o][|t[o]|] == Edge(term, Some(q));
    AddEdgeExtends(t, o, Some(q), term);
    FitsEarlier(f, t, t1);
  }

  lemma FitsOpenEdge(f: Nfa, t: Nfa, o: nat, q: nat, term: Option<nat>)
    requires o < |t| && Fits(f, AddEdge(t, o, None, term)) && Leads(f, [NextSpot(t, o)], q)
    ensures Fits(f, t) && HasEdge(f, o, term, q)
  {
    var t1 := AddEdge(t, o, None, term);
    assert t1[o][|t[o]|] == Edge(term, None);
    assert [NextSpot(t, o)][0] == (o, |t[o]|);
    AddEdgeExtends(t, o, None, term);
    FitsEarlier(f, t, t1);
  }

  /** Nodes and numbers of edges are the same. */
  predicate SameShape(t: Nfa, t1: Nfa) {
    |t| == |t1| && forall s :: 0 <= s < |t| ==> |t[s]| == |t1[s]|
  }

  lemma {:induction false} ConnectIs(t: Nfa, spots: seq<Spot>, q: nat)
    ensures SameShape(t, Connect(t, spots, q))
    ensures forall s, j :: 0 <= s < |t| && 0 <= j < |t[s]| ==>
              Connect(t, spots, q)[s][j] == if (s, j) in spots then Edge(t[s][j].term, Some(q)) else t[s][j]
    decreases |spots|
  {
    if spots != [] {
      ConnectIs(ConnectOne(t, spots[0], q), spots[1..], q);
      assert spots == [spots[0]] + spots[1..];
    }
  }

  /** What fits after edges were connected fits before, and those edges lead where they were connected to. */
  lemma FitsConnected(f: Nfa, t0: Nfa, t: Nfa, spots: seq<Spot>, q: nat)
    requires Fits(f, Connect(t, spots, q)) && Dangling(t0, t, spots)
    ensures Fits(f, t) && Leads(f, spots, q)
  {
    ConnectIs(t, spots, q);
    var t1 := Connect(t, spots, q);
    forall i | 0 <= i < |spots| ensures HasSpot(f, spots[i]) && f[spots[i].0][spots[i].1].dest == Some(q) {
      var (s, j) := spots[i];
      assert t1[s][j] == Edge(t[s][j].term, Some(q));
    }
    forall s, j | 0 <= s < |t| && 0 <= j < |t[s]|
      ensures f[s][j].term == t[s][j].term && (t[s][j].dest.Some? ==> f[s][j].dest == t[s][j].dest)
    {
      if (s, j) in spots {
        var i :| 0 <= i < |spots| && spots[i] == (s, j);
      }
    }
  }

  // ----------------------------------------------------------------------
  // The stages of compiling, seen in the finished automaton
  // ----------------------------------------------------------------------

  lemma NameStages(f: Nfa, t: Nfa, typ: nat, p: nat, q: nat)
    requires p < |t| && Fits(f, Compile(t, Name(typ), p).0) && Leads(f, Compile(t, Name(typ), p).1, q)
    ensures Fits(f, t) && HasEdge(f, p, Some(typ), q)
  {
    FitsOpenEdge(f, t, p, q, Some(typ));
  }

  lemma ChoiceStages(f: Nfa, t: Nfa, es: seq<Expr>, p: nat, q: nat)
    requires p < |t| && es != [] && Fits(f, CompileChoice(t, es, p).0) && Leads(f, CompileChoice(t, es, p).1, q)
    ensures var (t1, d1) := Compile(t, es[0], p);
            && Fits(f, t1) && Leads(f, d1, q)
            && Fits(f, CompileChoice(t1, es[1..], p).0) && Leads(f, CompileChoice(t1, es[1..], p).1, q)
  {
    hide Compile, Fits, Leads;
    var (t1, d1) := Compile(t, es[0], p);
    var (t2, d2) := CompileChoice(t1, es[1..], p);
    ChoiceShape(t1, es[1..], p);
    FitsEarlier(f, t1, t2);
    LeadsBoth(f, d1, d2, q);
  }

  lemma SequenceStages(f: Nfa, t: Nfa, es: seq<Expr>, p: nat, q: nat)
    requires p < |t| && |es| > 1 && Fits(f, CompileSequence(t, es, p).0) && Leads(f, CompileSequence(t, es, p).1, q)
    ensures var (t1, d) := Compile(t, es[0], p);
            var x := |t1|;
            var t2 := Connect(AddNode(t1), d, x);
            && x < |f| && Fits(f, t1) && Leads(f, d, x) && SameShape(AddNode(t1), t2) && x < |t2|
            && Fits(f, CompileSequence(t2, es[1..], x).0) && Leads(f, CompileSequence(t2, es[1..], x).1, q)
            && Fits(f, t2)
  {
    hide Compile, Fits, Leads, Connect, AddNode, Extends, Dangling;
    var (t1, d) := Compile(t, es[0], p);
    var x := |t1|;
    NodeCount(t1);
    var t2 := Connect(AddNode(t1), d, x);
    CompileShape(t, es[0], p);
    AddNodeExtends(t1);
    DanglingStays(t, t1, AddNode(t1), d);
    SequenceShape(t2, es[1..], x);
    FitsEarlier(f, t2, CompileSequence(t2, es[1..], x).0);
    FitsConnected(f, t, AddNode(t1), d, x);
    FitsNode(f, t1);
    ConnectIs(AddNode(t1), d, x);
  }

  lemma StarStages(f: Nfa, t: Nfa, b: Expr, p: nat, q: nat)
    requires p < |t| && Fits(f, Compile(t, Star(b), p).0) && Leads(f, Compile(t, Star(b), p).1, q)
    ensures var l := |t|;
            var t1 := AddEdge(AddNode(t), p, Some(l), None);
            var (t2, d) := Compile(t1, b, l);
            && l < |f| && HasEdge(f, p, None, l) && Fits(f, t1) && Fits(f, Connect(t2, d, l))
            && Fits(f, t2) && Leads(f, d, l) && SameShape(t2, Connect(t2, d, l))
            && HasEdge(f, l, None, q)
  {
    hide Fits, Leads, Connect, Extends, Dangling, HasEdge, SameShape;
    var l := |t|;
    var t0 := AddNode(t);
    var t1 := AddEdge(t0, p, Some(l), None);
    var (t2, d) := Compile(t1, b, l);
    CompileShape(t1, b, l);
    var t3 := Connect(t2, d, l);
    FitsOpenEdge(f, t3, l, q, None);
    FitsConnected(f, t1, t2, d, l);
    ConnectIs(t2, d, l);
    FitsEarlier(f, t1, t2);
    FitsEdge(f, t0, p, l, None);
    FitsNode(f, t);
  }

  lemma PlusStages(f: Nfa, t: Nfa, b: Expr, p: nat, q: nat)
    requires p < |t| && Fits(f, Compile(t, Plus(b), p).0) && Leads(f, Compile(t, Plus(b), p).1, q)
    ensures var l := |t|;
            var (t1, d1) := Compile(AddNode(t), b, p);
            var (t2, d2) := Compile(Connect(t1, d1, l), b, l);
            && l < |f| && Fits(f, t1) && Leads(f, d1, l) && SameShape(t1, Connect(t1, d1, l))
            && Fits(f, t2) && Leads(f, d2, l) && SameShape(t2, Connect(t2, d2, l)) && HasEdge(f, l, None, q)
            && Fits(f, Connect(t2, d2, l))
  {
    hide Fits, Leads, Connect, Extends, Dangling, HasEdge, SameShape;
    var l := |t|;
    var t0 := AddNode(t);
    var (t1, d1) := Compile(t0, b, p);
    CompileShape(t0, b, p);
    var t2 := Connect(t1, d1, l);
    var (t3, d2) := Compile(t2, b, l);
    CompileShape(t2, b, l);
    FitsOpenEdge(f, Connect(t3, d2, l), l, q, None);
    FitsConnected(f, t2, t3, d2, l);
    ConnectIs(t3, d2, l);
    FitsEarlier(f, t2, t3);
    FitsConnected(f, t0, t1, d1, l);
    ConnectIs(t1, d1, l);
    FitsEarlier(f, t0, t1);
    FitsNode(f, t);
  }

  lemma OptStages(f: Nfa, t: Nfa, b: Expr, p: nat, q: nat)
    requires p < |t| && Fits(f, Compile(t, Opt(b), p).0) && Leads(f, Compile(t, Opt(b), p).1, q)
    ensures var t1 := AddEdge(t, p, None, None);
            var (t2, d) := Compile(t1, b, p);
            HasEdge(f, p, None, q) && Fits(f, t2) && Leads(f, d, q) && Fits(f, t1)
  {
    hide Fits, Leads, Extends, Dangling, HasEdge;
    var t1 := AddEdge(t, p, None, None);
    var (t2, d) := Compile(t1, b, p);
    CompileShape(t1, b, p);
    LeadsBoth(f, [NextSpot(t, p)], d, q);
    FitsEarlier(f, t1, t2);
    FitsOpenEdge(f, t, p, q, None);
  }

  lemma MinStages(f: Nfa, t: Nfa, b: Expr, l: nat, m: nat)
    requires l < |t| && m > 0 && Fits(f, CompileMin(t, b, l, m).0)
    ensures var c := |t|;
            var (t1, d) := Compile(AddNode(t), b, l);
            var t2 := Connect(t1, d, c);
            && c < |f| && Fits(f, t1) && Leads(f, d, c) && SameShape(t1, t2) && Fits(f, t2)
            && CompileMin(t, b, l, m) == CompileMin(t2, b, c, m - 1)
  {
    hide Fits, Leads, Connect, Extends, Dangling, SameShape;
    var c := |t|;
    var (t1, d) := Compile(AddNode(t), b, l);
    CompileShape(AddNode(t), b, l);
    var t2 := Connect(t1, d, c);
    MinShape(t2, b, c, m - 1);
    FitsEarlier(f, t2, CompileMin(t2, b, c, m - 1).0);
    FitsConnected(f, AddNode(t), t1, d, c);
    ConnectIs(t1, d, c);
    FitsEarlier(f, AddNode(t), t1);
    FitsNode(f, t);
  }

  lemma MaxStages(f: Nfa, t: Nfa, b: Expr, l: nat, m: nat)
    requires l < |t| && m > 0 && Fits(f, CompileMax(t, b, l, m).0)
    ensures var c := |t|;
            var t0 := AddEdge(AddNode(t), l, Some(c), None);
            var (t1, d) := Compile(t0, b, l);
            var t2 := Connect(t1, d, c);
            && c < |f| && HasEdge(f, l, None, c) && Fits(f, t0)
            && Fits(f, t1) && Leads(f, d, c) && SameShape(t1, t2) && Fits(f, t2)
            && CompileMax(t, b, l, m) == CompileMax(t2, b, c, m - 1)
  {
    hide Fits, Leads, Connect, Extends, Dangling, HasEdge, SameShape;
    var c := |t|;
    var t0 := AddEdge(AddNode(t), l, Some(c), None);
    var (t1, d) := Compile(t0, b, l);
    CompileShape(t0, b, l);
    var t2 := Connect(t1, d, c);
    MaxShape(t2, b, c, m - 1);
    FitsEarlier(f, t2, CompileMax(t2, b, c, m - 1).0);
    FitsConnected(f, t0, t1, d, c);
    ConnectIs(t1, d, c);
    FitsEarlier(f, t0, t1);
    FitsEdge(f, AddNode(t), l, c, None);
    FitsNode(f, t);
  }

  lemma LoopStages(f: Nfa, t: Nfa, b: Expr, l: nat)
    requires l < |t| && Fits(f, CompileLoop(t, b, l).0)
    ensures var (t1, d) := Compile(t, b, l);
            Fits(f, t1) && Leads(f, d, l) && SameShape(t1, Connect(t1, d, l)) && Fits(f, t)
  {
    hide Fits, Leads, Connect, Extends, Dangling, SameShape;
    var (t1, d) := Compile(t, b, l);
    CompileShape(t, b, l);
    FitsConnected(f, t, t1, d, l);
    ConnectIs(t1, d, l);
    FitsEarlier(f, t, t1);
  }

  lemma RangeStages(f: Nfa, t: Nfa, min: nat, max: Option<nat>, b: Expr, p: nat, q: nat)
    requires p < |t|
    requires Fits(f, Compile(t, Range(min, max, b), p).0) && Leads(f, Compile(t, Range(min, max, b), p).1, q)
    ensures var (t1, l1) := CompileMin(t, b, p, min);
            var (t2, l2) := if max.None? then CompileLoop(t1, b, l1) else CompileMax(t1, b, l1, Optional(min, max));
            && Fits(f, t1) && Fits(f, t2) && HasEdge(f, l2, None, q)
  {
    hide Fits, Leads, Connect, Extends, Dangling, HasEdge, CompileMin, CompileMax, CompileLoop;
    var (t1, l1) := CompileMin(t, b, p, min);
    var (t2, l2) := if max.None? then CompileLoop(t1, b, l1) else CompileMax(t1, b, l1, Optional(min, max));
    FitsOpenEdge(f, t2, l2, q, None);
    LoopShape(t1, b, l1);
    MaxShape(t1, b, l1, Optional(min, max));
    FitsEarlier(f, t1, t2);
  }

  lemma AutomatonStages(e: Expr)
    ensures var f := Automaton(e);
            var (t, d) := Compile([[]], e, 0);
            && |f| == |t| + 1 && f[|t|] == [] && Fits(f, t) && Leads(f, d, |t|)
  {
    hide Compile, Connect, Extends;
    var (t, d) := Compile([[]], e, 0);
    CompileShape([[]], e, 0);
    AddNodeExtends(t);
    DanglingStays([[]], t, AddNode(t), d);
    var f := Automaton(e);
    ConnectIs(AddNode(t), d, |t|);
    FitsItself(f);
    FitsConnected(f, [[]], AddNode(t), d, |t|);
    FitsNode(f, t);
  }

  lemma FitsItself(f: Nfa)
    ensures Fits(f, f)
  {
  }
}
