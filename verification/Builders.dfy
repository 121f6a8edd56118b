/**
  The compiler as it runs: nodes and edges are pushed onto growing arrays, and
  the edges left open are connected in place.
 */
module Builders {
  import opened Options
  import opened Expressions
  import opened Nfas
  import opened Wiring
  import opened Readings
  import opened Meanings
  import opened Faithful
  import opened Searches
  import opened Rounds
  import opened ContentAutomata
  import opened Subsets

  class Builder {
    var nodes: Nfa

    constructor ()
      ensures nodes == [[]]
    {
      nodes := [[]];
    }

    method NewNode() returns (i: nat)
      modifies this
      ensures nodes == AddNode(old(nodes)) && i == |old(nodes)|
    {
      i := |nodes|;
      nodes := nodes + [[]];
    }

    method NewEdge(o: nat, dest: Option<nat>, term: Option<nat>) returns (s: Spot)
      requires o < |nodes|
      modifies this
      ensures nodes == AddEdge(old(nodes), o, dest, term) && s == NextSpot(old(nodes), o)
    {
      s := (o, |nodes[o]|);
      nodes := nodes[o := nodes[o] + [Edge(term, dest)]];
    }

    method ConnectAll(spots: seq<Spot>, dest: nat)
      modifies this
      ensures nodes == Connect(old(nodes), spots, dest)
    {
      var i := 0;
      while i < |spots|
        invariant i <= |spots| && Connect(nodes, spots[i..], dest) == Connect(old(nodes), spots, dest)
      {
        assert spots[i..][1..] == spots[i + 1..];
        nodes := ConnectOne(nodes, spots[i], dest);
        i := i + 1;
      }
    }

    method Add(e: Expr, p: nat) returns (d: seq<Spot>)
      requires p < |nodes|
      modifies this
      ensures (nodes, d) == Compile(old(nodes), e, p)
      decreases e, 0
    {
      hide Connect, AddNode, AddEdge, NextSpot;
      match e
      case Name(typ) =>
        var s := NewEdge(p, None, Some(typ));
        d := [s];
      case Choice(es) =>
        d := AddChoice(es, p);
      case Sequence(es) =>
        d := AddSequence(es, p);
      case Star(b) =>
        NodeCount(nodes);
        var l := NewNode();
        var entry := NewEdge(p, Some(l), None);
        d := Add(b, l);
        ConnectAll(d, l);
        var s := NewEdge(l, None, None);
        d := [s];
      case Plus(b) =>
        NodeCount(nodes);
        var l := NewNode();
        d := Add(b, p);
        ConnectAll(d, l);
        d := Add(b, l);
        ConnectAll(d, l);
        var s := NewEdge(l, None, None);
        d := [s];
      case Opt(b) =>
        var s := NewEdge(p, None, None);
        d := Add(b, p);
        d := [s] + d;
      case Range(min, max, b) =>
        d := AddRange(min, max, b, p);
    }

    method AddChoice(es: seq<Expr>, p: nat) returns (d: seq<Spot>)
      requires p < |nodes|
      modifies this
      ensures (nodes, d) == CompileChoice(old(nodes), es, p)
      decreases es, 1
    {
      hide Compile;
      d := [];
      var l := 0;
      assert es[0..] == es && [] + CompileChoice(nodes, es, p).1 == CompileChoice(nodes, es, p).1;
      while l < |es|
        invariant l <= |es| && p < |nodes|
        invariant var (t, rest) := CompileChoice(nodes, es[l..], p);
                  CompileChoice(old(nodes), es, p) == (t, d + rest)
      {
        assert es[l..][0] == es[l] && es[l..][1..] == es[l + 1..];
        ghost var before := d;
        var a := Add(es[l], p);
        d := d + a;
        assert before + (a + CompileChoice(nodes, es[l + 1..], p).1) == d + CompileChoice(nodes, es[l + 1..], p).1;
        l := l + 1;
      }
      assert d + [] == d;
    }

    method AddSequence(es: seq<Expr>, p: nat) returns (d: seq<Spot>)
      requires p < |nodes|
      modifies this
      ensures (nodes, d) == CompileSequence(old(nodes), es, p)
      decreases es, 1
    {
      hide Compile, Connect, AddNode;
      if es == [] {
        return [];
      }
      var s: nat, l: nat := p, 0;
      assert es[0..] == es;
      while l < |es| - 1
        invariant l < |es| && s < |nodes|
        invariant CompileSequence(nodes, es[l..], s) == CompileSequence(old(nodes), es, p)
      {
        assert es[l..][0] == es[l] && es[l..][1..] == es[l + 1..];
        d := Add(es[l], s);
        NodeCount(nodes);
        s := NewNode();
        ConnectAll(d, s);
        l := l + 1;
      }
      assert es[l..][0] == es[l];
      d := Add(es[l], s);
    }

    method AddMin(b: Expr, p: nat, min: nat) returns (l: nat)
      requires p < |nodes|
      modifies this
      ensures l < |nodes| && (nodes, l) == CompileMin(old(nodes), b, p, min)
      decreases b, 1
    {
      hide Compile, Connect, AddNode;
      l := p;
      var a := 0;
      while a < min
        invariant a <= min && l < |nodes|
        invariant CompileMin(nodes, b, l, min - a) == CompileMin(old(nodes), b, p, min)
      {
        NodeCount(nodes);
        var c := NewNode();
        var d := Add(b, l);
        ConnectAll(d, c);
        l := c;
        a := a + 1;
      }
    }

    method AddMax(b: Expr, p: nat, min: nat, max: nat) returns (l: nat)
      requires p < |nodes|
      modifies this
      ensures l < |nodes| && (nodes, l) == CompileMax(old(nodes), b, p, Optional(min, Some(max)))
      decreases b, 1
    {
      hide Compile, Connect, AddNode, AddEdge, NextSpot;
      l := p;
      var a := min;
      while a < max
        invariant l < |nodes| && min <= a && (a <= max || a == min)
        invariant CompileMax(nodes, b, l, Optional(a, Some(max))) == CompileMax(old(nodes), b, p, Optional(min, Some(max)))
      {
        NodeCount(nodes);
        var c := NewNode();
        var over := NewEdge(l, Some(c), None);
        var d := Add(b, l);
        ConnectAll(d, c);
        l := c;
        a := a + 1;
      }
    }

    method AddRange(min: nat, max: Option<nat>, b: Expr, p: nat) returns (d: seq<Spot>)
      requires p < |nodes|
      modifies this
      ensures (nodes, d) == Compile(old(nodes), Range(min, max, b), p)
      decreases b, 2
    {
      hide Compile, Connect, AddNode, AddEdge, NextSpot, CompileMin, CompileMax;
      RangeIsCompiled(nodes, min, max, b, p);
      var l := AddMin(b, p, min);
      if max.None? {
        d := Add(b, l);
        ConnectAll(d, l);
      } else {
        l := AddMax(b, l, min, max.value);
      }
      var s := NewEdge(l, None, None);
      d := [s];
    }
  }

  lemma RangeIsCompiled(t: Nfa, min: nat, max: Option<nat>, b: Expr, p: nat)
    requires p < |t|
    ensures var (t1, l1) := CompileMin(t, b, p, min);
            var (t2, l2) := if max.None? then CompileLoop(t1, b, l1) else CompileMax(t1, b, l1, Optional(min, max));
            Compile(t, Range(min, max, b), p) == (AddEdge(t2, l2, None, None), [NextSpot(t2, l2)])
  {
    hide CompileMin, CompileMax, CompileLoop, AddEdge, NextSpot;
  }

  /** Builds the automaton of an expression. */
  method Build(e: Expr) returns (f: Nfa)
    ensures f == Automaton(e)
  {
    hide Compile, Connect;
    var b := new Builder();
    var d := b.Add(e, 0);
    NodeCount(b.nodes);
    var end := b.NewNode();
    b.ConnectAll(d, end);
    f := b.nodes;
  }

  /**
    A content expression as a content match. Its states end validly on exactly
    what the compiled expression stands for, which is what the expression
    allows where ranges without bounds start at nodes of their own.
   */
  method CompileContent(e: Expr) returns (states: seq<State>)
    requires Parsed(e) && Safe(Automaton(e), 0)
    ensures states != [] && Linked(states)
    ensures forall w: seq<nat> :: EndsValid(states, 0, w) <==> Allows(Whole(e), w)
    ensures Meant(e, true) ==> forall w: seq<nat> :: EndsValid(states, 0, w) <==> Allows(e, w)
  {
    hide Allows, Automaton, Parsed, EndsValid, Linked, Meant, Whole, Safe, Connected, Accepts;
    var f := Build(e);
    AutomatonConnected(e);
    states := Determinize(f);
    forall w: seq<nat> ensures EndsValid(states, 0, w) <==> Allows(Whole(e), w) {
      AutomatonAccepts(e, w);
    }
    if Meant(e, true) {
      forall w: seq<nat> ensures EndsValid(states, 0, w) <==> Allows(e, w) {
        WholeIsMeant(e, w);
      }
    }
  }
}
