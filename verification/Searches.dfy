/**
  The search for the nodes that an automaton can be in without taking a type,
  and what it finds.
 */
module Searches {
  import opened Options
  import opened Nfas
  import opened Wiring

  /** A finished automaton: every edge leads to a node, and nothing leads on from the last. */
  predicate Connected(f: Nfa) {
    && f != [] && f[|f| - 1] == []
    && forall s, j :: 0 <= s < |f| && 0 <= j < |f[s]| ==> f[s][j].dest.Some? && f[s][j].dest.value < |f|
  }

  /** What an edge leads to. */
  function Dest(f: Nfa, u: nat, j: nat): (r: nat)
    requires Connected(f) && u < |f| && j < |f[u]|
    ensures r < |f| && f[u][j].dest == Some(r)
  {
    f[u][j].dest.value
  }

  /** A node whose one edge is taken for nothing. */
  predicate PassedThrough(f: Nfa, u: nat)
    requires u < |f|
  {
    |f[u]| == 1 && f[u][0].term.None?
  }

  // ----------------------------------------------------------------------
  // The search, given up when its calls go deeper than `fuel`
  // ----------------------------------------------------------------------

  /** From a node that is passed through the search goes on at once; any other is noted, whether it was or not, and its edges are followed. */
  function Scan(f: Nfa, u: nat, found: seq<nat>, fuel: nat): (r: Option<seq<nat>>)
    requires Connected(f) && u < |f|
    decreases fuel, 0
  {
    if fuel == 0 then None
    else if PassedThrough(f, u) then Scan(f, Dest(f, u, 0), found, fuel - 1)
    else ScanEdges(f, u, 0, found + [u], fuel - 1)
  }

  function ScanEdges(f: Nfa, u: nat, o: nat, found: seq<nat>, fuel: nat): (r: Option<seq<nat>>)
    requires Connected(f) && u < |f| && o <= |f[u]|
    decreases fuel, 1 + |f[u]| - o
  {
    if o == |f[u]| then Some(found)
    else if f[u][o].term.None? && Dest(f, u, o) !in found then
      var r := Scan(f, Dest(f, u, o), found, fuel);
      if r.None? then None else ScanEdges(f, u, o + 1, r.value, fuel)
    else ScanEdges(f, u, o + 1, found, fuel)
  }

  lemma {:induction false} ScanLonger(f: Nfa, u: nat, found: seq<nat>, n: nat, m: nat)
    requires Connected(f) && u < |f| && n <= m && Scan(f, u, found, n).Some?
    ensures Scan(f, u, found, m) == Scan(f, u, found, n)
    decreases n, 0
  {
    hide Connected;
    if PassedThrough(f, u) {
      ScanLonger(f, Dest(f, u, 0), found, n - 1, m - 1);
    } else {
      EdgesLonger(f, u, 0, found + [u], n - 1, m - 1);
    }
  }

  lemma {:induction false} EdgesLonger(f: Nfa, u: nat, o: nat, found: seq<nat>, n: nat, m: nat)
    requires Connected(f) && u < |f| && o <= |f[u]| && n <= m && ScanEdges(f, u, o, found, n).Some?
    ensures ScanEdges(f, u, o, found, m) == ScanEdges(f, u, o, found, n)
    decreases n, 1 + |f[u]| - o
  {
    hide Connected;
    if o < |f[u]| {
      if f[u][o].term.None? && Dest(f, u, o) !in found {
        ScanLonger(f, Dest(f, u, o), found, n, m);
        EdgesLonger(f, u, o + 1, Scan(f, Dest(f, u, o), found, n).value, n, m);
      } else {
        EdgesLonger(f, u, o + 1, found, n, m);
      }
    }
  }

  // ----------------------------------------------------------------------
  // What the search finds
  // ----------------------------------------------------------------------

  /** Following at most `n` nodes that are only passed through, `u` comes to a node that was found. */
  ghost predicate CoveredIn(f: Nfa, found: seq<nat>, u: nat, n: nat)
    requires Connected(f) && u < |f|
    decreases n
  {
    if PassedThrough(f, u) then n > 0 && CoveredIn(f, found, Dest(f, u, 0), n - 1) else u in found
  }

  ghost predicate Covered(f: Nfa, found: seq<nat>, u: nat)
    requires Connected(f) && u < |f|
  {
    exists n: nat :: CoveredIn(f, found, u, n)
  }

  lemma CoveredOn(f: Nfa, found: seq<nat>, u: nat)
    requires Connected(f) && u < |f| && PassedThrough(f, u)
    ensures Covered(f, found, u) <==> Covered(f, found, Dest(f, u, 0))
  {
    hide Connected;
    if Covered(f, found, u) {
      var n: nat :| CoveredIn(f, found, u, n);
      assert CoveredIn(f, found, Dest(f, u, 0), n - 1);
    }
    if Covered(f, found, Dest(f, u, 0)) {
      var n: nat :| CoveredIn(f, found, Dest(f, u, 0), n);
      assert CoveredIn(f, found, u, n + 1);
    }
  }

  lemma CoveredHere(f: Nfa, found: seq<nat>, u: nat)
    requires Connected(f) && u < |f| && !PassedThrough(f, u)
    ensures Covered(f, found, u) <==> u in found
  {
    hide Connected;
    if u in found {
      assert CoveredIn(f, found, u, 0);
    }
  }

  lemma CoveredMore(f: Nfa, found: seq<nat>, more: seq<nat>, u: nat)
    requires Connected(f) && u < |f| && Covered(f, found, u) && forall x :: x in found ==> x in more
    ensures Covered(f, more, u)
  {
    hide Connected, CoveredIn;
    var n: nat :| CoveredIn(f, found, u, n);
    CoveredInMore(f, found, more, u, n);
  }

  lemma {:induction false} CoveredInMore(f: Nfa, found: seq<nat>, more: seq<nat>, u: nat, n: nat)
    requires Connected(f) && u < |f| && CoveredIn(f, found, u, n) && forall x :: x in found ==> x in more
    ensures CoveredIn(f, more, u, n)
    decreases n
  {
    hide Connected;
    if PassedThrough(f, u) {
      CoveredInMore(f, found, more, Dest(f, u, 0), n - 1);
    }
  }

  /** A node that was found is not passed through, and where it leads for nothing was found too. */
  ghost predicate Settled(f: Nfa, found: seq<nat>, x: nat)
    requires Connected(f)
  {
    && x < |f| && !PassedThrough(f, x)
    && forall j :: 0 <= j < |f[x]| && f[x][j].term.None? ==> Covered(f, found, Dest(f, x, j))
  }

  ghost predicate ClosedSet(f: Nfa, found: seq<nat>)
    requires Connected(f)
  {
    forall x :: x in found ==> Settled(f, found, x)
  }

  /** An edge taken for nothing. */
  ghost predicate Free(f: Nfa, u: nat, v: nat) {
    u < |f| && v < |f| && HasEdge(f, u, None, v)
  }

  ghost predicate ForNothing(f: Nfa, p: seq<nat>) {
    forall i :: 0 <= i < |p| - 1 ==> Free(f, p[i], p[i + 1])
  }

  /** From `u` to `v` over edges taken for nothing. */
  ghost predicate Comes(f: Nfa, u: nat, v: nat) {
    exists p: seq<nat> :: p != [] && p[0] == u && p[|p| - 1] == v && ForNothing(f, p)
  }

  lemma ComesItself(f: Nfa, u: nat)
    ensures Comes(f, u, u)
  {
    var p: seq<nat> := [u];
    assert p[0] == u && p[|p| - 1] == u && ForNothing(f, p);
  }

  lemma ComesFirst(f: Nfa, u: nat, x: nat, v: nat)
    requires Free(f, u, x) && Comes(f, x, v)
    ensures Comes(f, u, v)
  {
    hide Free;
    var p: seq<nat> :| p != [] && p[0] == x && p[|p| - 1] == v && ForNothing(f, p);
    var more := [u] + p;
    forall i | 0 <= i < |more| - 1 ensures Free(f, more[i], more[i + 1]) {
      if i > 0 {
        assert Free(f, p[i - 1], p[i]);
      }
    }
    assert more[0] == u && more[|more| - 1] == v;
  }

  lemma EdgeIs(f: Nfa, u: nat, j: nat)
    requires Connected(f) && u < |f| && j < |f[u]| && f[u][j].term.None?
    ensures Free(f, u, Dest(f, u, j))
  {
    assert f[u][j] == Edge(None, Some(Dest(f, u, j)));
  }

  lemma StepIs(f: Nfa, p: seq<nat>, i: nat)
    requires ForNothing(f, p) && i < |p| - 1
    ensures p[i] < |f| && p[i + 1] < |f| && HasEdge(f, p[i], None, p[i + 1])
  {
    assert Free(f, p[i], p[i + 1]);
  }

  lemma SettledMore(f: Nfa, found: seq<nat>, more: seq<nat>, x: nat)
    requires Connected(f) && Settled(f, found, x) && forall y :: y in found ==> y in more
    ensures Settled(f, more, x)
  {
    hide Covered, Connected;
    forall j | 0 <= j < |f[x]| && f[x][j].term.None? ensures Covered(f, more, Dest(f, x, j)) {
      CoveredMore(f, found, more, Dest(f, x, j));
    }
  }

  /** The nodes found since the first `n` are complete. */
  ghost predicate SettledFrom(f: Nfa, found: seq<nat>, n: nat)
    requires Connected(f)
  {
    forall k :: n <= k < |found| ==> Settled(f, found, found[k])
  }

  ghost predicate AllCome(f: Nfa, s: nat, found: seq<nat>, n: nat) {
    forall k :: n <= k < |found| ==> Comes(f, s, found[k])
  }

  lemma SettledOn(f: Nfa, found: seq<nat>, more: seq<nat>, n: nat, m: nat)
    requires Connected(f) && n <= m <= |found| <= |more| && more[..|found|] == found
    requires (forall k :: n <= k < m ==> Settled(f, found, found[k])) && SettledFrom(f, more, m)
    ensures SettledFrom(f, more, n)
  {
    hide Settled, Connected;
    PrefixIn(found, more);
    forall k | n <= k < m ensures Settled(f, more, more[k]) {
      assert more[k] == found[k];
      SettledMore(f, found, more, found[k]);
    }
  }

  lemma PrefixIn(found: seq<nat>, more: seq<nat>)
    requires |found| <= |more| && more[..|found|] == found
    ensures forall x :: x in found ==> x in more
  {
  }

  lemma AllComeFirst(f: Nfa, s: nat, u: nat, found: seq<nat>, n: nat)
    requires Free(f, s, u) && AllCome(f, u, found, n)
    ensures AllCome(f, s, found, n)
  {
    hide Free, Comes;
    forall k | n <= k < |found| ensures Comes(f, s, found[k]) {
      ComesFirst(f, s, u, found[k]);
    }
  }

  /** Nodes that are only passed through are never noted. */
  predicate NonePassed(f: Nfa, found: seq<nat>) {
    forall k :: 0 <= k < |found| ==> found[k] < |f| && !PassedThrough(f, found[k])
  }

  /** What the edges of `u` before `o` lead to for nothing has been found. */
  ghost predicate EdgesCovered(f: Nfa, found: seq<nat>, u: nat, o: nat)
    requires Connected(f) && u < |f| && o <= |f[u]|
  {
    forall j :: 0 <= j < o && f[u][j].term.None? ==> Covered(f, found, Dest(f, u, j))
  }

  /** `more` goes on from `found`, with nodes that are not passed through. */
  ghost predicate Grown(f: Nfa, found: seq<nat>, more: seq<nat>) {
    |found| <= |more| && more[..|found|] == found && NonePassed(f, more)
  }

  /** What the search from `u` finds is complete, and nothing is found that `u` does not come to. */
  lemma {:induction false} ScanFinds(f: Nfa, u: nat, found: seq<nat>, n: nat)
    requires Connected(f) && u < |f| && NonePassed(f, found) && Scan(f, u, found, n).Some?
    ensures var more := Scan(f, u, found, n).value;
            Grown(f, found, more) && Covered(f, more, u) && SettledFrom(f, more, |found|) && AllCome(f, u, more, |found|)
    decreases n, 0
  {
    hide Connected, SettledFrom, AllCome, Free, Covered, EdgesCovered, Grown, ScanEdges, NonePassed;
    var more := Scan(f, u, found, n).value;
    if PassedThrough(f, u) {
      ScanFinds(f, Dest(f, u, 0), found, n - 1);
      CoveredOn(f, more, u);
      EdgeIs(f, u, 0);
      AllComeFirst(f, u, Dest(f, u, 0), more, |found|);
    } else {
      ScanStarts(f, found, u);
      EdgesFind(f, u, 0, |found|, found + [u], n - 1);
      LastSettled(f, found, u, more);
    }
  }

  /** Where the edges of `u` have been followed up to `o`, with `u` noted at `at`. */
  ghost predicate Following(f: Nfa, u: nat, o: nat, at: nat, found: seq<nat>)
    requires Connected(f) && u < |f| && o <= |f[u]|
  {
    && NonePassed(f, found) && at < |found| && found[at] == u
    && EdgesCovered(f, found, u, o) && SettledFrom(f, found, at + 1) && AllCome(f, u, found, at)
  }

  lemma {:induction false} EdgesFind(f: Nfa, u: nat, o: nat, at: nat, found: seq<nat>, n: nat)
    requires Connected(f) && u < |f| && o <= |f[u]| && Following(f, u, o, at, found) && ScanEdges(f, u, o, found, n).Some?
    ensures var more := ScanEdges(f, u, o, found, n).value;
            Grown(f, found, more) && Following(f, u, |f[u]|, at, more)
    decreases n, 1 + |f[u]| - o
  {
    hide Connected, Covered, Following, Scan, Grown;
    if o == |f[u]| {
      GrownItself(f, u, o, at, found);
    } else if f[u][o].term.None? && Dest(f, u, o) !in found {
      var next := Scan(f, Dest(f, u, o), found, n).value;
      FollowingNone(f, u, o, at, found);
      ScanFinds(f, Dest(f, u, o), found, n);
      ScannedOn(f, u, o, at, found, next);
      EdgesFind(f, u, o + 1, at, next, n);
      GrownTrans(f, found, next, ScanEdges(f, u, o + 1, next, n).value);
    } else {
      EdgePassed(f, u, o, at, found);
      EdgesFind(f, u, o + 1, at, found, n);
    }
  }

  lemma GrownItself(f: Nfa, u: nat, o: nat, at: nat, found: seq<nat>)
    requires Connected(f) && u < |f| && o <= |f[u]| && Following(f, u, o, at, found)
    ensures Grown(f, found, found)
  {
    hide Connected, EdgesCovered, SettledFrom, AllCome;
  }

  lemma GrownTrans(f: Nfa, a: seq<nat>, b: seq<nat>, c: seq<nat>)
    requires Grown(f, a, b) && Grown(f, b, c)
    ensures Grown(f, a, c)
  {
    assert c[..|a|] == c[..|b|][..|a|];
  }

  lemma FollowingNone(f: Nfa, u: nat, o: nat, at: nat, found: seq<nat>)
    requires Connected(f) && u < |f| && o <= |f[u]| && Following(f, u, o, at, found)
    ensures NonePassed(f, found)
  {
  }

  lemma ScanStarts(f: Nfa, found: seq<nat>, u: nat)
    requires Connected(f) && u < |f| && !PassedThrough(f, u) && NonePassed(f, found)
    ensures Following(f, u, 0, |found|, found + [u])
  {
    hide Comes, Connected;
    ComesItself(f, u);
  }

  /** An edge that takes a type, or leads to a node found before. */
  lemma EdgePassed(f: Nfa, u: nat, o: nat, at: nat, found: seq<nat>)
    requires Connected(f) && u < |f| && o < |f[u]| && Following(f, u, o, at, found)
    requires f[u][o].term.None? ==> Dest(f, u, o) in found
    ensures Following(f, u, o + 1, at, found)
  {
    hide Connected, Covered, SettledFrom, AllCome;
    if f[u][o].term.None? {
      var x := Dest(f, u, o);
      var k :| 0 <= k < |found| && found[k] == x;
      CoveredHere(f, found, found[k]);
    }
  }

  /** After the search from an edge's end, what was noted since is complete, and above it is `u`. */
  lemma ScannedOn(f: Nfa, u: nat, o: nat, at: nat, before: seq<nat>, more: seq<nat>)
    requires Connected(f) && u < |f| && o < |f[u]| && f[u][o].term.None? && Following(f, u, o, at, before)
    requires Grown(f, before, more) && Covered(f, more, Dest(f, u, o))
    requires SettledFrom(f, more, |before|) && AllCome(f, Dest(f, u, o), more, |before|)
    ensures Following(f, u, o + 1, at, more)
  {
    hide Comes, Free, Settled, Connected, Covered, NonePassed;
    SettledOn(f, before, more, at + 1, |before|);
    EdgeIs(f, u, o);
    AllComeFirst(f, u, Dest(f, u, o), more, |before|);
    forall k | at <= k < |more| ensures Comes(f, u, more[k]) {
      if k < |before| {
        assert more[k] == before[k];
      }
    }
    PrefixIn(before, more);
    forall j | 0 <= j < o && f[u][j].term.None? ensures Covered(f, more, Dest(f, u, j)) {
      CoveredMore(f, before, more, Dest(f, u, j));
    }
    assert more[at] == before[at];
  }

  lemma LastSettled(f: Nfa, found: seq<nat>, u: nat, more: seq<nat>)
    requires Connected(f) && u < |f| && !PassedThrough(f, u)
    requires Grown(f, found + [u], more) && Following(f, u, |f[u]|, |found|, more)
    ensures Grown(f, found, more) && Covered(f, more, u) && SettledFrom(f, more, |found|) && AllCome(f, u, more, |found|)
  {
    hide Covered, Connected, AllCome, NonePassed;
    assert more[|found|] == u;
    assert more[..|found|] == more[..|found| + 1][..|found|] == found;
    CoveredHere(f, more, u);
    assert Settled(f, more, u);
  }
}
