/**
  Content matches: the states of the automaton that says which nodes may
  follow one another in a parent, and two searches over it.
 */
module Matches {
  import opened Options

  /** One way on from a state, and whether the type on it can be made out of nothing. */
  datatype Edge = Edge(typ: nat, next: nat)

  datatype State = State(validEnd: bool, next: seq<Edge>)

  /**
    What a schema knows of a node type: whether it is text, whether it has
    attributes without a default, whether it is a leaf, and the state its own
    content starts in.
   */
  datatype NodeType = NodeType(isText: bool, requiredAttrs: bool, isLeaf: bool, contentMatch: nat)

  datatype Grammar = Grammar(states: seq<State>, types: seq<NodeType>)

  /** The states mentioned exist, and no state has two edges for one type. */
  predicate Closed(g: Grammar) {
    && (forall q :: 0 <= q < |g.states| ==> forall k :: 0 <= k < |g.states[q].next| ==> g.states[q].next[k].next < |g.states|)
    && (forall q :: 0 <= q < |g.states| ==> forall j, k :: 0 <= j < k < |g.states[q].next| ==>
          g.states[q].next[j].typ != g.states[q].next[k].typ)
    && (forall t :: 0 <= t < |g.types| ==> g.types[t].contentMatch < |g.states|)
  }

  // ----------------------------------------------------------------------
  // Matching
  // ----------------------------------------------------------------------

  function FirstEdge(edges: seq<Edge>, typ: nat): Option<nat> {
    if edges == [] then None
    else if edges[0].typ == typ then Some(edges[0].next)
    else FirstEdge(edges[1..], typ)
  }

  lemma {:induction false} FirstEdgeIs(edges: seq<Edge>, typ: nat)
    ensures FirstEdge(edges, typ).Some? ==> Edge(typ, FirstEdge(edges, typ).value) in edges
    ensures FirstEdge(edges, typ).None? ==> forall k :: 0 <= k < |edges| ==> edges[k].typ != typ
  {
    if edges != [] && edges[0].typ != typ {
      FirstEdgeIs(edges[1..], typ);
    }
  }

  /** The state after a node of one type, if such a node may come. */
  function MatchType(g: Grammar, q: nat, typ: nat): (r: Option<nat>)
    requires Closed(g) && q < |g.states|
    ensures r.Some? ==> r.value < |g.states|
  {
    FirstEdgeIs(g.states[q].next, typ);
    FirstEdge(g.states[q].next, typ)
  }

  /** An edge is the way its type takes. */
  lemma EdgeMatches(g: Grammar, q: nat, k: nat)
    requires Closed(g) && q < |g.states| && k < |g.states[q].next|
    ensures MatchType(g, q, g.states[q].next[k].typ) == Some(g.states[q].next[k].next)
  {
    FirstEdgeIs(g.states[q].next, g.states[q].next[k].typ);
  }

  /** The state after nodes of these types, one after the other. */
  function MatchTypes(g: Grammar, q: nat, types: seq<nat>): (r: Option<nat>)
    requires Closed(g) && q < |g.states|
    ensures r.Some? ==> r.value < |g.states|
    decreases |types|
  {
    if types == [] then Some(q)
    else
      var n := MatchType(g, q, types[0]);
      if n.None? then None else MatchTypes(g, n.value, types[1..])
  }

  lemma {:induction false} MatchSplit(g: Grammar, q: nat, x: seq<nat>, y: seq<nat>)
    requires Closed(g) && q < |g.states|
    ensures MatchTypes(g, q, x + y) ==
            if MatchTypes(g, q, x).None? then None else MatchTypes(g, MatchTypes(g, q, x).value, y)
    decreases |x|
  {
    if x == [] {
      assert x + y == y;
    } else {
      assert (x + y)[1..] == x[1..] + y;
      var n := MatchType(g, q, x[0]);
      if n.Some? {
        MatchSplit(g, n.value, x[1..], y);
      }
    }
  }

  /** What a fragment holds from `start` on. */
  function From<T>(s: seq<T>, start: nat): seq<T> {
    if start <= |s| then s[start..] else []
  }

  /** The nodes of a fragment from `start` on, matched in a loop. */
  method MatchFragment(g: Grammar, q: nat, types: seq<nat>, start: nat) returns (r: Option<nat>)
    requires Closed(g) && q < |g.states|
    ensures r == MatchTypes(g, q, From(types, start))
  {
    r := Some(q);
    var i := start;
    while r.Some? && i < |types|
      invariant start <= i && (start <= |types| ==> i <= |types|)
      invariant r.Some? ==> r.value < |g.states|
      invariant MatchTypes(g, q, From(types, start)) ==
                if r.None? then None else MatchTypes(g, r.value, From(types, i))
    {
      assert types[i..][1..] == types[i + 1..];
      r := MatchType(g, r.value, types[i]);
      i := i + 1;
    }
  }

  // ----------------------------------------------------------------------
  // Filling
  // ----------------------------------------------------------------------

  /** Nodes that can be made out of nothing: not text, and with no attribute that must be given. */
  predicate Generatable(g: Grammar, t: nat) {
    t < |g.types| && !g.types[t].isText && !g.types[t].requiredAttrs
  }

  /** From `q` the nodes after the gap match, and to the end if that is asked for. */
  predicate Reaches(g: Grammar, q: nat, after: seq<nat>, toEnd: bool)
    requires Closed(g) && q < |g.states|
  {
    var r := MatchTypes(g, q, after);
    r.Some? && (toEnd ==> g.states[r.value].validEnd)
  }

  /** Types that can be made out of nothing and that close the gap between `q` and the nodes after it. */
  predicate Fills(g: Grammar, q: nat, filling: seq<nat>, after: seq<nat>, toEnd: bool)
    requires Closed(g) && q < |g.states|
  {
    && (forall k :: 0 <= k < |filling| ==>
          filling[k] < |g.types| && !g.types[filling[k]].isText && !g.types[filling[k]].requiredAttrs)
    && MatchTypes(g, q, filling).Some?
    && Reaches(g, MatchTypes(g, q, filling).value, after, toEnd)
  }

  /** From `x` the gap is not closed already, and each way on has been seen. */
  predicate Explored(g: Grammar, x: nat, seen: seq<nat>, after: seq<nat>, toEnd: bool)
    requires Closed(g) && x < |g.states|
  {
    && !Reaches(g, x, after, toEnd)
    && forall k :: 0 <= k < |g.states[x].next| ==> Generatable(g, g.states[x].next[k].typ) ==> g.states[x].next[k].next in seen
  }

  predicate Distinct(s: seq<nat>) {
    forall j, k :: 0 <= j < k < |s| ==> s[j] != s[k]
  }

  predicate Below(s: seq<nat>, n: nat) {
    forall k :: 0 <= k < |s| ==> s[k] < n
  }

  function Numbers(n: nat): (r: set<nat>)
    ensures |r| == n && forall k: nat :: k in r <==> k < n
  {
    if n == 0 then {} else Numbers(n - 1) + {n - 1}
  }

  function Elements(s: seq<nat>): set<nat> {
    set x | x in s
  }

  lemma {:induction false} DistinctCount(s: seq<nat>)
    requires Distinct(s)
    ensures |Elements(s)| == |s|
  {
    if s == [] {
      assert Elements(s) == {};
    } else {
      var n := |s| - 1;
      DistinctCount(s[..n]);
      assert s == s[..n] + [s[n]];
      assert Elements(s) == Elements(s[..n]) + {s[n]};
      assert s[n] !in s[..n];
    }
  }

  lemma SeenBound(s: seq<nat>, n: nat)
    requires Distinct(s) && Below(s, n)
    ensures |s| <= n
  {
    DistinctCount(s);
    assert Elements(s) <= Numbers(n);
    Subset(Elements(s), Numbers(n));
  }

  lemma Subset(a: set<nat>, b: set<nat>)
    requires a <= b
    ensures |a| <= |b|
  {
    assert b == a + (b - a);
  }

  /** Everything seen since the first `n` has been explored. */
  predicate Covered(g: Grammar, seen: seq<nat>, n: nat, after: seq<nat>, toEnd: bool)
    requires Closed(g) && Below(seen, |g.states|)
  {
    forall k :: n <= k < |seen| ==> Explored(g, seen[k], seen, after, toEnd)
  }

  lemma CoveredMore(g: Grammar, seen: seq<nat>, more: seq<nat>, n: nat, m: nat, after: seq<nat>, toEnd: bool)
    requires Closed(g) && n <= m <= |seen| <= |more| && seen == more[..|seen|] && Below(more, |g.states|)
    requires Below(seen, |g.states|)
    requires forall k :: n <= k < m ==> Explored(g, seen[k], seen, after, toEnd)
    requires forall k :: m <= k < |more| ==> Explored(g, more[k], more, after, toEnd)
    ensures Covered(g, more, n, after, toEnd)
  {
    hide Reaches, Generatable, Closed;
    forall k | n <= k < |more| ensures Explored(g, more[k], more, after, toEnd) {
      if k < m {
        assert more[k] == seen[k];
        Prefix(seen, more);
      }
    }
  }

  lemma Prefix(seen: seq<nat>, more: seq<nat>)
    requires |seen| <= |more| && seen == more[..|seen|]
    ensures forall x :: x in seen ==> x in more
  {
  }

  /** Along nodes made out of nothing, a search that has explored what it saw cannot have missed the end. */
  lemma {:induction false} NothingMissed(g: Grammar, q: nat, seen: seq<nat>, filling: seq<nat>, after: seq<nat>, toEnd: bool)
    requires Closed(g) && Below(seen, |g.states|) && q < |g.states| && q in seen && Covered(g, seen, 0, after, toEnd)
    ensures !Fills(g, q, filling, after, toEnd)
    decreases |filling|
  {
    hide Closed, MatchType;
    var at :| 0 <= at < |seen| && seen[at] == q;
    assert Explored(g, seen[at], seen, after, toEnd);
    if filling == [] {
    } else {
      var n := MatchType(g, q, filling[0]);
      if n.Some? && Generatable(g, filling[0]) {
        MatchedEdge(g, q, filling[0]);
        NothingMissed(g, n.value, seen, filling[1..], after, toEnd);
        FillsRest(g, q, filling, after, toEnd);
      }
    }
  }

  lemma FillsRest(g: Grammar, q: nat, filling: seq<nat>, after: seq<nat>, toEnd: bool)
    requires Closed(g) && q < |g.states| && filling != [] && MatchType(g, q, filling[0]).Some?
    ensures Fills(g, q, filling, after, toEnd) ==> Fills(g, MatchType(g, q, filling[0]).value, filling[1..], after, toEnd)
  {
    hide Reaches, Generatable, Closed;
    assert forall k :: 0 <= k < |filling[1..]| ==> filling[1..][k] == filling[k + 1];
  }

  lemma MatchedEdge(g: Grammar, q: nat, t: nat)
    requires Closed(g) && q < |g.states| && MatchType(g, q, t).Some?
    ensures exists k :: 0 <= k < |g.states[q].next| && g.states[q].next[k] == Edge(t, MatchType(g, q, t).value)
  {
    FirstEdgeIs(g.states[q].next, t);
  }

  /** The path to a state that the search is at. */
  predicate Way(g: Grammar, root: nat, path: seq<nat>, q: nat)
    requires Closed(g) && root < |g.states|
  {
    (forall k :: 0 <= k < |path| ==> Generatable(g, path[k])) && MatchTypes(g, root, path) == Some(q)
  }

  lemma WayOn(g: Grammar, root: nat, path: seq<nat>, q: nat, k: nat)
    requires Closed(g) && root < |g.states| && q < |g.states| && Way(g, root, path, q) && k < |g.states[q].next|
    requires Generatable(g, g.states[q].next[k].typ)
    ensures Way(g, root, path + [g.states[q].next[k].typ], g.states[q].next[k].next)
  {
    hide Generatable, MatchType;
    var t := g.states[q].next[k].typ;
    EdgeMatches(g, q, k);
    MatchSplit(g, root, path, [t]);
    assert [t][1..] == [];
  }

  /**
    The depth-first search: `seen` holds every state that it has gone to, so
    that each is gone to once. It gives what fills, and what it has seen.
   */
  function Look(g: Grammar, o: nat, s: seq<nat>, seen: seq<nat>, after: seq<nat>, toEnd: bool): (r: (Option<seq<nat>>, seq<nat>))
    requires Closed(g) && o < |g.states| && Below(seen, |g.states|) && Distinct(seen)
    ensures |seen| <= |r.1| && r.1[..|seen|] == seen && Below(r.1, |g.states|) && Distinct(r.1)
    decreases Unseen(g, seen), |g.states[o].next| + 1
  {
    if Reaches(g, o, after, toEnd) then (Some(s), seen) else LookOn(g, o, 0, s, seen, after, toEnd)
  }

  /** Along the edges of a state from the `a`th on. */
  function LookOn(g: Grammar, o: nat, a: nat, s: seq<nat>, seen: seq<nat>, after: seq<nat>, toEnd: bool)
    : (r: (Option<seq<nat>>, seq<nat>))
    requires Closed(g) && o < |g.states| && a <= |g.states[o].next| && Below(seen, |g.states|) && Distinct(seen)
    ensures |seen| <= |r.1| && r.1[..|seen|] == seen && Below(r.1, |g.states|) && Distinct(r.1)
    decreases Unseen(g, seen), |g.states[o].next| - a
  {
    if a == |g.states[o].next| then (None, seen)
    else
      var Edge(c, f) := g.states[o].next[a];
      if Generatable(g, c) && f !in seen then
        OneMoreSeen(g, seen, f);
        var r := Look(g, f, s + [c], seen + [f], after, toEnd);
        KeptPrefix(seen, f, r.1);
        if r.0.Some? then r
        else
          var r1 := LookOn(g, o, a + 1, s, r.1, after, toEnd);
          LongerPrefix(seen, r.1, r1.1);
          r1
      else LookOn(g, o, a + 1, s, seen, after, toEnd)
  }

  function Unseen(g: Grammar, seen: seq<nat>): nat
    requires Below(seen, |g.states|) && Distinct(seen)
  {
    SeenBound(seen, |g.states|);
    |g.states| - |seen|
  }

  lemma KeptPrefix(seen: seq<nat>, f: nat, more: seq<nat>)
    requires |seen| < |more| && more[..|seen + [f]|] == seen + [f]
    ensures more[..|seen|] == seen && more[|seen|] == f
  {
    assert more[..|seen|] == more[..|seen + [f]|][..|seen|];
  }

  lemma LongerPrefix(a: seq<nat>, b: seq<nat>, c: seq<nat>)
    requires |a| <= |b| <= |c| && b[..|a|] == a && c[..|b|] == b
    ensures c[..|a|] == a
  {
    assert c[..|a|] == c[..|b|][..|a|];
  }

  /** What the search finds fills; when it finds nothing, what it saw is explored. */
  lemma {:induction false} LookFinds(g: Grammar, root: nat, o: nat, s: seq<nat>, seen: seq<nat>, after: seq<nat>, toEnd: bool)
    requires Closed(g) && root < |g.states| && o < |g.states|
    requires Below(seen, |g.states|) && Distinct(seen) && |s| < |seen| && Way(g, root, s, o)
    ensures var (found, more) := Look(g, o, s, seen, after, toEnd);
            && (found.Some? ==> Fills(g, root, found.value, after, toEnd) && |found.value| < |g.states|)
            && (found.None? ==> Explored(g, o, more, after, toEnd) && Covered(g, more, |seen|, after, toEnd))
    decreases Unseen(g, seen), |g.states[o].next| + 1
  {
    hide Closed, Generatable, MatchTypes, Distinct, Covered, Below, Way, LookOn, Reaches, Unseen;
    SeenBound(seen, |g.states|);
    if Reaches(g, o, after, toEnd) {
      WayFills(g, root, s, o, after, toEnd);
    } else {
      NothingCovered(g, seen, after, toEnd);
      LookOnFinds(g, root, o, 0, s, |seen|, seen, after, toEnd);
    }
  }

  /** With `n` states seen before this one, and its edges before the `a`th gone along. */
  lemma {:induction false} LookOnFinds(g: Grammar, root: nat, o: nat, a: nat, s: seq<nat>, n: nat, seen: seq<nat>,
                                       after: seq<nat>, toEnd: bool)
    requires Closed(g) && root < |g.states| && o < |g.states| && a <= |g.states[o].next| && !Reaches(g, o, after, toEnd)
    requires Below(seen, |g.states|) && Distinct(seen) && |s| < n <= |seen| && Way(g, root, s, o)
    requires Covered(g, seen, n, after, toEnd)
    requires forall k :: 0 <= k < a ==> Generatable(g, g.states[o].next[k].typ) ==> g.states[o].next[k].next in seen
    ensures var (found, more) := LookOn(g, o, a, s, seen, after, toEnd);
            && (found.Some? ==> Fills(g, root, found.value, after, toEnd) && |found.value| < |g.states|)
            && (found.None? ==> Explored(g, o, more, after, toEnd) && Covered(g, more, n, after, toEnd))
    decreases Unseen(g, seen), |g.states[o].next| - a
  {
    hide Closed, Generatable, MatchTypes, Distinct, Covered, Below, Way, Look, Reaches, Fills, Unseen;
    if a < |g.states[o].next| {
      var Edge(c, f) := g.states[o].next[a];
      EdgeInside(g, o, a);
      if Generatable(g, c) && f !in seen {
        OneMoreSeen(g, seen, f);
        LessUnseen(g, seen, f);
        WayOn(g, root, s, o, a);
        var r := Look(g, f, s + [c], seen + [f], after, toEnd);
        LookFinds(g, root, f, s + [c], seen + [f], after, toEnd);
        KeptPrefix(seen, f, r.1);
        if r.0.None? {
          AllCovered(g, seen, r.1, n, after, toEnd);
          Prefix(seen, r.1);
          FewerUnseen(g, seen + [f], r.1);
          assert f in r.1;
          LookOnFinds(g, root, o, a + 1, s, n, r.1, after, toEnd);
        }
      } else {
        LookOnFinds(g, root, o, a + 1, s, n, seen, after, toEnd);
      }
    }
  }

  lemma LessUnseen(g: Grammar, seen: seq<nat>, f: nat)
    requires Below(seen, |g.states|) && Distinct(seen) && Below(seen + [f], |g.states|) && Distinct(seen + [f])
    ensures Unseen(g, seen + [f]) < Unseen(g, seen)
  {
  }

  lemma FewerUnseen(g: Grammar, seen: seq<nat>, more: seq<nat>)
    requires Below(seen, |g.states|) && Distinct(seen) && Below(more, |g.states|) && Distinct(more) && |seen| <= |more|
    ensures Unseen(g, more) <= Unseen(g, seen)
  {
  }

  /** The search as it runs, with a loop over the edges of each state. */
  method Search(g: Grammar, o: nat, s: seq<nat>, seen: seq<nat>, types: seq<nat>, start: nat, toEnd: bool)
    returns (found: Option<seq<nat>>, more: seq<nat>)
    requires Closed(g) && o < |g.states| && Below(seen, |g.states|) && Distinct(seen)
    ensures (found, more) == Look(g, o, s, seen, From(types, start), toEnd)
    decreases Unseen(g, seen)
  {
    hide Closed, Generatable, MatchTypes, Distinct, Below, Unseen;
    ghost var after := From(types, start);
    more := seen;
    var l := MatchFragment(g, o, types, start);
    if l.Some? && (!toEnd || g.states[l.value].validEnd) {
      return Some(s), more;
    }
    var a := 0;
    while a < |g.states[o].next|
      invariant a <= |g.states[o].next| && |seen| <= |more| && Below(more, |g.states|) && Distinct(more)
      invariant LookOn(g, o, a, s, more, after, toEnd) == Look(g, o, s, seen, after, toEnd)
    {
      var Edge(c, f) := g.states[o].next[a];
      EdgeInside(g, o, a);
      if Generatable(g, c) && f !in more {
        OneMoreSeen(g, more, f);
        LessUnseen(g, more, f);
        FewerUnseen(g, seen, more);
        found, more := Search(g, f, s + [c], more + [f], types, start, toEnd);
        if found.Some? {
          return;
        }
      }
      a := a + 1;
    }
    found := None;
  }

  lemma EdgeInside(g: Grammar, o: nat, a: nat)
    requires Closed(g) && o < |g.states| && a < |g.states[o].next|
    ensures g.states[o].next[a].next < |g.states|
  {
  }

  lemma NothingCovered(g: Grammar, seen: seq<nat>, after: seq<nat>, toEnd: bool)
    requires Closed(g) && Below(seen, |g.states|)
    ensures Covered(g, seen, |seen|, after, toEnd)
  {
  }

  lemma OneMoreSeen(g: Grammar, seen: seq<nat>, f: nat)
    requires Below(seen, |g.states|) && Distinct(seen) && f !in seen && f < |g.states|
    ensures Below(seen + [f], |g.states|) && Distinct(seen + [f]) && |seen| < |g.states|
  {
    SeenBound(seen + [f], |g.states|);
  }

  lemma AllCovered(g: Grammar, before: seq<nat>, more: seq<nat>, n: nat, after: seq<nat>, toEnd: bool)
    requires Closed(g) && n <= |before| < |more| && before == more[..|before|]
    requires Below(before, |g.states|) && Below(more, |g.states|)
    requires Covered(g, before, n, after, toEnd) && Explored(g, more[|before|], more, after, toEnd)
    requires Covered(g, more, |before| + 1, after, toEnd)
    ensures Covered(g, more, n, after, toEnd)
  {
    hide Explored, Closed;
    CoveredMore(g, before, more, n, |before|, after, toEnd);
  }

  lemma WayFills(g: Grammar, root: nat, path: seq<nat>, q: nat, after: seq<nat>, toEnd: bool)
    requires Closed(g) && root < |g.states| && q < |g.states| && Way(g, root, path, q) && Reaches(g, q, after, toEnd)
    ensures Fills(g, root, path, after, toEnd)
  {
  }

  /** The types that the search puts before a fragment so that it matches. */
  function Filling(g: Grammar, q: nat, after: seq<nat>, toEnd: bool): (r: Option<seq<nat>>)
    requires Closed(g) && q < |g.states|
  {
    OneSeen(g, q);
    Look(g, q, [], [q], after, toEnd).0
  }

  lemma OneSeen(g: Grammar, q: nat)
    requires q < |g.states|
    ensures Below([q], |g.states|) && Distinct([q])
  {
  }

  /** They fill, and are found exactly when any do. */
  lemma FillingFills(g: Grammar, q: nat, after: seq<nat>, toEnd: bool)
    requires Closed(g) && q < |g.states|
    ensures var filling := Filling(g, q, after, toEnd);
            && (filling.Some? ==> Fills(g, q, filling.value, after, toEnd) && |filling.value| < |g.states|)
            && (filling.None? ==> forall f: seq<nat> :: !Fills(g, q, f, after, toEnd))
  {
    hide Closed, Generatable, Explored, Fills, Look, Covered;
    OneSeen(g, q);
    LookFinds(g, q, q, [], [q], after, toEnd);
    var seen := Look(g, q, [], [q], after, toEnd).1;
    if Filling(g, q, after, toEnd).None? {
      AllExplored(g, q, seen, after, toEnd);
      forall f: seq<nat> ensures !Fills(g, q, f, after, toEnd) {
        NothingMissed(g, q, seen, f, after, toEnd);
      }
    }
  }

  /** Types to put before a fragment so that it matches: found exactly when there are any. */
  method FillBefore(g: Grammar, q: nat, types: seq<nat>, toEnd: bool, start: nat) returns (filling: Option<seq<nat>>)
    requires Closed(g) && q < |g.states|
    ensures filling == Filling(g, q, From(types, start), toEnd)
    ensures filling.Some? ==> Fills(g, q, filling.value, From(types, start), toEnd) && |filling.value| < |g.states|
    ensures filling.None? ==> forall f: seq<nat> :: !Fills(g, q, f, From(types, start), toEnd)
  {
    hide Closed, Fills, Look;
    OneSeen(g, q);
    var seen;
    filling, seen := Search(g, q, [], [q], types, start, toEnd);
    FillingFills(g, q, From(types, start), toEnd);
  }

  lemma AllExplored(g: Grammar, q: nat, seen: seq<nat>, after: seq<nat>, toEnd: bool)
    requires Closed(g) && Below(seen, |g.states|) && q < |g.states| && |seen| > 0 && seen[..1] == [q]
    requires Explored(g, q, seen, after, toEnd) && Covered(g, seen, 1, after, toEnd)
    ensures q in seen && Covered(g, seen, 0, after, toEnd)
  {
    hide Closed, Explored;
    assert seen[0] == seen[..1][0] == q;
  }
}
