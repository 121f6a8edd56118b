/**
  The nodes made out of nothing to fill a gap: each is filled in turn by the
  types that the search finds for its own content.
 */
module Fillings {
  import opened Options
  import opened Matches

  datatype Tree = Tree(typ: nat, children: seq<Tree>)

  /** A node; nothing, where its content cannot be filled; or an exception, where a node inside it is nothing. */
  datatype Made = Made(tree: Tree) | Refused | Raised

  datatype AllMade = Trees(trees: seq<Tree>) | SomeRefused | SomeRaised

  /** The types put into a new node of type `t`. */
  function Inside(g: Grammar, t: nat): (r: Option<seq<nat>>)
    requires Closed(g) && t < |g.types|
    ensures r.Some? ==> forall k :: 0 <= k < |r.value| ==> Generatable(g, r.value[k])
  {
    FillingFills(g, g.types[t].contentMatch, [], true);
    Filling(g, g.types[t].contentMatch, [], true)
  }

  predicate Exist(g: Grammar, types: seq<nat>) {
    forall k :: 0 <= k < |types| ==> types[k] < |g.types|
  }

  // ----------------------------------------------------------------------
  // Making nodes, given up when the calls go deeper than `fuel`
  // ----------------------------------------------------------------------

  function Make(g: Grammar, t: nat, fuel: nat): Option<Made>
    requires Closed(g) && t < |g.types|
    decreases fuel, 0
  {
    if fuel == 0 then None
    else
      var types := Inside(g, t);
      if types.None? then Some(Refused)
      else
        var r := MakeAll(g, types.value, fuel - 1);
        if r.None? then None else Some(if r.value.Trees? then Made(Tree(t, r.value.trees)) else Raised)
  }

  /** One after the other; an exception ends it, a node that is nothing is noticed only in the end. */
  function MakeAll(g: Grammar, types: seq<nat>, fuel: nat): Option<AllMade>
    requires Closed(g) && Exist(g, types)
    decreases fuel, 1 + |types|
  {
    if types == [] then Some(Trees([]))
    else
      var first := Make(g, types[0], fuel);
      if first.None? then None
      else if first.value.Raised? then Some(SomeRaised)
      else
        var rest := MakeAll(g, types[1..], fuel);
        if rest.None? then None else Some(Before(first.value, rest.value))
  }

  function Before(first: Made, rest: AllMade): AllMade {
    if rest.SomeRaised? || first.Raised? then SomeRaised
    else if first.Made? && rest.Trees? then Trees([first.tree] + rest.trees)
    else SomeRefused
  }

  lemma {:induction false} MakeLonger(g: Grammar, t: nat, n: nat, m: nat)
    requires Closed(g) && t < |g.types| && n <= m && Make(g, t, n).Some?
    ensures Make(g, t, m) == Make(g, t, n)
    decreases n, 0
  {
    hide Closed, Inside;
    var types := Inside(g, t);
    if types.Some? {
      AllLonger(g, types.value, n - 1, m - 1);
    }
  }

  lemma {:induction false} AllLonger(g: Grammar, types: seq<nat>, n: nat, m: nat)
    requires Closed(g) && Exist(g, types) && n <= m && MakeAll(g, types, n).Some?
    ensures MakeAll(g, types, m) == MakeAll(g, types, n)
    decreases n, 1 + |types|
  {
    hide Closed, Make;
    if types != [] {
      MakeLonger(g, types[0], n, m);
      if !Make(g, types[0], n).value.Raised? {
        AllLonger(g, types[1..], n, m);
      }
    }
  }

  // ----------------------------------------------------------------------
  // What is made
  // ----------------------------------------------------------------------

  function TypesOf(trees: seq<Tree>): (types: seq<nat>)
    ensures |types| == |trees| && forall k :: 0 <= k < |trees| ==> types[k] == trees[k].typ
  {
    seq(|trees|, k requires 0 <= k < |trees| => trees[k].typ)
  }

  /** Content that its node accepts to the end, of nodes that can be made out of nothing, all the way down. */
  ghost predicate Fitting(g: Grammar, n: Tree)
    requires Closed(g)
    decreases n
  {
    && n.typ < |g.types|
    && Reaches(g, g.types[n.typ].contentMatch, TypesOf(n.children), true)
    && forall k :: 0 <= k < |n.children| ==>
         && Fitting(g, n.children[k])
         && !g.types[n.children[k].typ].isText && !g.types[n.children[k].typ].requiredAttrs
  }

  lemma {:induction false} MadeFits(g: Grammar, t: nat, n: nat)
    requires Closed(g) && t < |g.types| && Make(g, t, n).Some? && Make(g, t, n).value.Made?
    ensures var tree := Make(g, t, n).value.tree;
            tree.typ == t && Inside(g, t) == Some(TypesOf(tree.children)) && Fitting(g, tree)
    decreases n, 0
  {
    hide Closed, Look;
    StartExists(g, t);
    var types := Inside(g, t).value;
    var trees := Make(g, t, n).value.tree.children;
    AllFit(g, types, n - 1);
    assert TypesOf(trees) == types;
    FillingFills(g, g.types[t].contentMatch, [], true);
    FilledReaches(g, g.types[t].contentMatch, types);
  }

  lemma StartExists(g: Grammar, t: nat)
    requires Closed(g) && t < |g.types|
    ensures g.types[t].contentMatch < |g.states|
  {
  }

  lemma FilledReaches(g: Grammar, q: nat, types: seq<nat>)
    requires Closed(g) && q < |g.states| && Fills(g, q, types, [], true)
    ensures Reaches(g, q, types, true)
  {
  }

  lemma {:induction false} AllFit(g: Grammar, types: seq<nat>, n: nat)
    requires Closed(g) && Exist(g, types) && MakeAll(g, types, n).Some? && MakeAll(g, types, n).value.Trees?
    ensures var trees := MakeAll(g, types, n).value.trees;
            && |trees| == |types|
            && forall k :: 0 <= k < |types| ==> trees[k].typ == types[k] && Fitting(g, trees[k])
    decreases n, 1 + |types|
  {
    hide Closed, Make, Fitting, Inside;
    if types != [] {
      MadeFits(g, types[0], n);
      AllFit(g, types[1..], n);
    }
  }

  // ----------------------------------------------------------------------
  // When there is something
  // ----------------------------------------------------------------------

  /** A new node of type `t` gets one of type `u`. */
  predicate Holds(g: Grammar, t: nat, u: nat)
    requires Closed(g)
  {
    t < |g.types| && Inside(g, t).Some? && u in Inside(g, t).value
  }

  ghost predicate Nested(g: Grammar, p: seq<nat>)
    requires Closed(g)
  {
    forall i :: 0 <= i < |p| - 1 ==> Holds(g, p[i], p[i + 1])
  }

  /** Inside one another, types that come to one that cannot be filled, or to one that was there before. */
  ghost predicate DeadEnd(g: Grammar, p: seq<nat>)
    requires Closed(g)
  {
    && p != [] && Nested(g, p) && p[|p| - 1] < |g.types|
    && (Inside(g, p[|p| - 1]).None? || p[|p| - 1] in p[..|p| - 1])
  }

  /** New nodes of type `t` come to no dead end. A caller can follow the types of the fillings and see. */
  ghost predicate Makeable(g: Grammar, t: nat)
    requires Closed(g)
  {
    forall p: seq<nat> :: p != [] && p[0] == t ==> !DeadEnd(g, p)
  }

  ghost predicate MadeIn(g: Grammar, t: nat, n: nat)
    requires Closed(g) && t < |g.types|
  {
    Make(g, t, n).Some? && Make(g, t, n).value.Made?
  }

  /** What is inside a node was made with less. */
  lemma PartMade(g: Grammar, t: nat, u: nat, n: nat)
    requires Closed(g) && t < |g.types| && MadeIn(g, t, n) && Holds(g, t, u)
    ensures n > 0 && u < |g.types| && MadeIn(g, u, n - 1)
  {
    hide Closed, Inside;
    var types := Inside(g, t).value;
    var k :| 0 <= k < |types| && types[k] == u;
    AllMadeIn(g, types, n - 1, k);
  }

  lemma {:induction false} AllMadeIn(g: Grammar, types: seq<nat>, n: nat, k: nat)
    requires Closed(g) && Exist(g, types) && MakeAll(g, types, n).Some? && MakeAll(g, types, n).value.Trees? && k < |types|
    ensures MadeIn(g, types[k], n)
    decreases |types|
  {
    hide Closed, Make;
    if k > 0 {
      AllMadeIn(g, types[1..], n, k - 1);
    }
  }

  /** Down a nesting, each node is made with less than the one around it. */
  lemma {:induction false} NestedMade(g: Grammar, p: seq<nat>, i: nat, n: nat)
    requires Closed(g) && Nested(g, p) && i < |p| && p[0] < |g.types| && MadeIn(g, p[0], n)
    ensures i <= n && p[i] < |g.types| && MadeIn(g, p[i], n - i)
    decreases i
  {
    hide Closed, Holds, MadeIn;
    if i > 0 {
      NestedMade(g, p, i - 1, n);
      assert Holds(g, p[i - 1], p[i - 1 + 1]);
      PartMade(g, p[i - 1], p[i], n - (i - 1));
    }
  }

  lemma {:induction false} NoRepeat(g: Grammar, p: seq<nat>, n: nat)
    requires Closed(g) && |p| > 1 && Nested(g, p) && p[0] == p[|p| - 1] < |g.types| && MadeIn(g, p[0], n)
    ensures false
    decreases n
  {
    hide Closed, Nested, MadeIn;
    NestedMade(g, p, |p| - 1, n);
    NoRepeat(g, p, n - (|p| - 1));
  }

  lemma NestedFrom(g: Grammar, p: seq<nat>, i: nat)
    requires Closed(g) && Nested(g, p) && i <= |p|
    ensures Nested(g, p[i..])
  {
    hide Closed, Holds;
    var r := p[i..];
    forall k | 0 <= k < |r| - 1 ensures Holds(g, r[k], r[k + 1]) {
      assert Holds(g, p[i + k], p[i + k + 1]);
    }
  }

  lemma MadeHasNoDeadEnd(g: Grammar, p: seq<nat>, n: nat)
    requires Closed(g) && p != [] && p[0] < |g.types| && MadeIn(g, p[0], n)
    ensures !DeadEnd(g, p)
  {
    hide Closed, Nested, MadeIn, Inside;
    if DeadEnd(g, p) {
      var last := |p| - 1;
      NestedMade(g, p, last, n);
      FilledInside(g, p[last], n - last);
      var i :| 0 <= i < last && p[i] == p[last];
      NestedMade(g, p, i, n);
      NestedFrom(g, p, i);
      NoRepeat(g, p[i..], n - i);
    }
  }

  lemma FilledInside(g: Grammar, t: nat, n: nat)
    requires Closed(g) && t < |g.types| && MadeIn(g, t, n)
    ensures Inside(g, t).Some?
  {
    hide Closed, Inside;
  }

  /** Types not met yet on the way down. */
  function Unmet(g: Grammar, p: seq<nat>): set<nat> {
    set x: nat | x < |g.types| && x !in p
  }

  lemma OneMet(g: Grammar, p: seq<nat>, u: nat)
    requires u < |g.types| && u !in p
    ensures Unmet(g, p + [u]) < Unmet(g, p)
  {
    assert u in Unmet(g, p);
    forall x | x in Unmet(g, p + [u]) ensures x in Unmet(g, p) {
      assert x !in p + [u];
    }
  }

  lemma NestedOn(g: Grammar, p: seq<nat>, u: nat)
    requires Closed(g) && p != [] && Nested(g, p) && Holds(g, p[|p| - 1], u)
    ensures Nested(g, p + [u])
  {
    hide Closed, Holds;
    var r := p + [u];
    forall k | 0 <= k < |r| - 1 ensures Holds(g, r[k], r[k + 1]) {
      if k < |p| - 1 {
        assert Holds(g, p[k], p[k + 1]);
      }
    }
  }

  /** Going down without a dead end, everything is made. */
  lemma {:induction false} NestMakes(g: Grammar, p: seq<nat>) returns (n: nat)
    requires Closed(g) && p != [] && Nested(g, p) && p[|p| - 1] < |g.types| && Makeable(g, p[0])
    ensures MadeIn(g, p[|p| - 1], n)
    decreases Unmet(g, p), 0
  {
    hide Closed, Nested, Inside, Unmet, Makeable, MakeAll;
    var t := p[|p| - 1];
    NotDead(g, p);
    n := PartsMake(g, p, Inside(g, t).value);
    n := n + 1;
  }

  lemma NotDead(g: Grammar, p: seq<nat>)
    requires Closed(g) && p != [] && Nested(g, p) && p[|p| - 1] < |g.types| && Makeable(g, p[0])
    ensures Inside(g, p[|p| - 1]).Some? && p[|p| - 1] !in p[..|p| - 1]
  {
    hide Closed, Nested, Inside;
    assert !DeadEnd(g, p);
  }

  lemma {:induction false} PartsMake(g: Grammar, p: seq<nat>, types: seq<nat>) returns (n: nat)
    requires Closed(g) && p != [] && Nested(g, p) && p[|p| - 1] < |g.types| && Makeable(g, p[0]) && Exist(g, types)
    requires forall k :: 0 <= k < |types| ==> Holds(g, p[|p| - 1], types[k])
    ensures MakeAll(g, types, n).Some? && MakeAll(g, types, n).value.Trees?
    decreases Unmet(g, p), 0, |types|
  {
    hide Closed, Nested, Inside, Unmet, Makeable, Make, Holds;
    n := 0;
    if types != [] {
      var u := types[0];
      var q := p + [u];
      NestedOn(g, p, u);
      NotDead(g, q);
      assert q[..|q| - 1] == p;
      OneMet(g, p, u);
      var a := NestMakes(g, q);
      var b := PartsMake(g, p, types[1..]);
      n := if a < b then b else a;
      MakeLonger(g, u, a, n);
      AllLonger(g, types[1..], b, n);
    }
  }

  /** A node is made at some depth of calls exactly when its fillings come to no dead end. */
  lemma MadeExactly(g: Grammar, t: nat)
    requires Closed(g) && t < |g.types|
    ensures (exists n: nat :: MadeIn(g, t, n)) <==> Makeable(g, t)
  {
    hide Closed, MadeIn, DeadEnd;
    if n: nat :| MadeIn(g, t, n) {
      forall p: seq<nat> | p != [] && p[0] == t ensures !DeadEnd(g, p) {
        MadeHasNoDeadEnd(g, p, n);
      }
    }
    if Makeable(g, t) {
      var p: seq<nat> := [t];
      var n := NestMakes(g, p);
    }
  }

  // ----------------------------------------------------------------------
  // The two methods
  // ----------------------------------------------------------------------

  /** Makes a node with content, to a depth that is enough for it. */
  method CreateAndFill(g: Grammar, t: nat, ghost fuel: nat) returns (r: Made)
    requires Closed(g) && t < |g.types| && Make(g, t, fuel).Some?
    ensures Make(g, t, fuel) == Some(r)
    decreases fuel, 0
  {
    StartExists(g, t);
    hide Closed, Filling, MakeAll, Fills;
    var types := FillBefore(g, g.types[t].contentMatch, [], true, 0);
    assert types == Inside(g, t);
    if types.None? {
      return Refused;
    }
    var all := CreateAll(g, types.value, fuel - 1);
    r := if all.Trees? then Made(Tree(t, all.trees)) else Raised;
  }

  method CreateAll(g: Grammar, types: seq<nat>, ghost fuel: nat) returns (r: AllMade)
    requires Closed(g) && Exist(g, types) && MakeAll(g, types, fuel).Some?
    ensures MakeAll(g, types, fuel) == Some(r)
    decreases fuel, 1
  {
    hide Closed, Make;
    r := Trees([]);
    var i := 0;
    assert types[0..] == types;
    while i < |types|
      invariant 0 <= i <= |types| && !r.SomeRaised? && MakeAll(g, types[i..], fuel).Some?
      invariant MakeAll(g, types, fuel).value == After(r, MakeAll(g, types[i..], fuel).value)
    {
      assert types[i..][0] == types[i] && types[i..][1..] == types[i + 1..];
      var first := CreateAndFill(g, types[i], fuel);
      if first.Raised? {
        return SomeRaised;
      }
      AfterOne(r, first, MakeAll(g, types[i + 1..], fuel).value);
      r := if r.Trees? && first.Made? then Trees(r.trees + [first.tree]) else SomeRefused;
      i := i + 1;
    }
    AfterAll(r);
  }

  /** What the first of them came to, and the others. */
  function After(first: AllMade, rest: AllMade): AllMade {
    if first.SomeRaised? || rest.SomeRaised? then SomeRaised
    else if first.Trees? && rest.Trees? then Trees(first.trees + rest.trees)
    else SomeRefused
  }

  lemma AfterOne(r: AllMade, first: Made, rest: AllMade)
    requires !r.SomeRaised? && !first.Raised?
    ensures After(r, Before(first, rest)) ==
            After(if r.Trees? && first.Made? then Trees(r.trees + [first.tree]) else SomeRefused, rest)
  {
    if r.Trees? && first.Made? && rest.Trees? {
      assert r.trees + ([first.tree] + rest.trees) == (r.trees + [first.tree]) + rest.trees;
    }
  }

  lemma AfterAll(r: AllMade)
    ensures After(r, Trees([])) == r
  {
    if r.Trees? {
      assert r.trees + [] == r.trees;
    }
  }

  /** The filling of a gap as nodes: nothing where there is no filling, an exception where one of its nodes cannot be made. */
  method FillWithNodes(g: Grammar, q: nat, types: seq<nat>, toEnd: bool, start: nat, ghost fuel: nat) returns (r: Option<AllMade>)
    requires Closed(g) && q < |g.states|
    requires var filling := Filling(g, q, From(types, start), toEnd);
             filling.Some? ==> Exist(g, filling.value) && MakeAll(g, filling.value, fuel).Some?
    ensures r.None? <==> forall f: seq<nat> :: !Fills(g, q, f, From(types, start), toEnd)
    ensures r.Some? && r.value.Trees? ==>
      && Fills(g, q, TypesOf(r.value.trees), From(types, start), toEnd)
      && forall k :: 0 <= k < |r.value.trees| ==> Fitting(g, r.value.trees[k])
    ensures r.Some? && !r.value.Trees? ==>
      var filling := Filling(g, q, From(types, start), toEnd);
      filling.Some? && exists k :: 0 <= k < |filling.value| && !Makeable(g, filling.value[k])
  {
    hide Closed, Filling, MakeAll, Fills, Fitting, Makeable, MatchTypes;
    var filling := FillBefore(g, q, types, toEnd, start);
    if filling.None? {
      return None;
    }
    var all := CreateAll(g, filling.value, fuel);
    r := Some(all);
    if all.Trees? {
      AllFit(g, filling.value, fuel);
      assert TypesOf(all.trees) == filling.value;
    } else {
      ghost var k := NotAllMade(g, filling.value, fuel);
    }
  }

  /** Where not all nodes are made, one of them comes to a dead end. */
  lemma {:induction false} NotAllMade(g: Grammar, types: seq<nat>, n: nat) returns (k: nat)
    requires Closed(g) && Exist(g, types) && MakeAll(g, types, n).Some? && !MakeAll(g, types, n).value.Trees?
    ensures k < |types| && !Makeable(g, types[k])
    decreases |types|
  {
    hide Closed, Make, Makeable;
    if Make(g, types[0], n).value.Made? {
      k := NotAllMade(g, types[1..], n);
      k := k + 1;
    } else {
      k := 0;
      NeverMade(g, types[0], n);
    }
  }

  lemma NeverMade(g: Grammar, t: nat, n: nat)
    requires Closed(g) && t < |g.types| && Make(g, t, n).Some? && !Make(g, t, n).value.Made?
    ensures !Makeable(g, t)
  {
    hide Closed, Make, Makeable;
    MadeExactly(g, t);
    if Makeable(g, t) {
      var m: nat :| MadeIn(g, t, m);
      var k := if n < m then m else n;
      MakeLonger(g, t, n, k);
      MakeLonger(g, t, m, k);
    }
  }

  // ----------------------------------------------------------------------
  // What the check of schemas leaves open
  // ----------------------------------------------------------------------

  /** The check: each state that content may not end in has a type on it that can be made out of nothing. */
  predicate NoDeadEnds(g: Grammar) {
    forall q :: 0 <= q < |g.states| ==>
      g.states[q].validEnd || exists k :: 0 <= k < |g.states[q].next| && Generatable(g, g.states[q].next[k].typ)
  }

  /** Two types, each of which has to hold the other. */
  function EachOther(): Grammar {
    Grammar([State(false, [Edge(1, 1)]), State(true, []), State(false, [Edge(0, 3)]), State(true, [])],
            [NodeType(false, false, false, 0), NodeType(false, false, false, 2)])
  }

  lemma EachOtherIs()
    ensures var g := EachOther();
            && |g.states| == 4 && g.states[0] == State(false, [Edge(1, 1)]) && g.states[2] == State(false, [Edge(0, 3)])
            && g.states[1] == State(true, []) && g.states[3] == State(true, [])
            && |g.types| == 2 && g.types[0] == NodeType(false, false, false, 0) && g.types[1] == NodeType(false, false, false, 2)
  {
  }

  lemma EachOtherInside()
    ensures var g := EachOther(); Closed(g) && NoDeadEnds(g) && Inside(g, 0) == Some([1]) && Inside(g, 1) == Some([0])
  {
    EachOtherIs();
    hide EachOther, Look, Reaches;
    var g := EachOther();
    assert g.states[0].next[0] == Edge(1, 1) && g.states[2].next[0] == Edge(0, 3);
    assert Generatable(g, 1) && Generatable(g, 0);
    assert Closed(g);
    OneFills(g, 0, 1, 1);
    OneFills(g, 2, 0, 3);
  }

  /** A state with one way on, to where content may end. */
  lemma OneFills(g: Grammar, q: nat, t: nat, f: nat)
    requires Closed(g) && q < |g.states| && f < |g.states| && q != f && g.states[q] == State(false, [Edge(t, f)])
    requires g.states[f].validEnd && Generatable(g, t)
    ensures Filling(g, q, [], true) == Some([t])
  {
    OneSeen(g, q);
    OneMoreSeen(g, [q], f);
    assert [] + [t] == [t] && [q] + [f] == [q, f];
    assert !Reaches(g, q, [], true) && Reaches(g, f, [], true);
    assert Look(g, f, [t], [q] + [f], [], true).0 == Some([t]);
    assert g.states[q].next[0] == Edge(t, f);
    assert LookOn(g, q, 0, [], [q], [], true).0 == Some([t]);
  }

  /** It passes the check, but neither type is ever made: each calls for the other. */
  lemma {:induction false} EachOtherNeverMade(t: nat, n: nat)
    requires t < 2
    ensures var g := EachOther(); Closed(g) && NoDeadEnds(g) && Make(g, t, n).None?
    decreases n
  {
    EachOtherIs();
    EachOtherInside();
    hide EachOther, Closed, Inside, NoDeadEnds;
    var g := EachOther();
    if n > 0 {
      var u := 1 - t;
      EachOtherNeverMade(u, n - 1);
      assert Inside(g, t).value[0] == u;
    }
  }
}
