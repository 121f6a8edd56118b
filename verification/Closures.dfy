/**
  The nodes that an automaton can be in without taking a type: those reached
  over edges taken for nothing, leaving out nodes that are only passed through.
 */
module Closures {
  import opened Options
  import opened Expressions
  import opened Nfas
  import opened Wiring
  import opened Readings
  import opened Searches
  import opened Rounds

  /** The search as it runs, to a depth that is enough for it. */
  method Follow(f: Nfa, u: nat, found: seq<nat>, ghost fuel: nat) returns (more: seq<nat>)
    requires Connected(f) && u < |f| && Scan(f, u, found, fuel).Some?
    ensures Scan(f, u, found, fuel) == Some(more)
    decreases fuel
  {
    hide Connected;
    var edges := f[u];
    if PassedThrough(f, u) {
      more := Follow(f, Dest(f, u, 0), found, fuel - 1);
      return;
    }
    more := found + [u];
    var o := 0;
    while o < |edges|
      invariant 0 <= o <= |edges|
      invariant ScanEdges(f, u, o, more, fuel - 1) == Scan(f, u, found, fuel)
    {
      if edges[o].term.None? && Dest(f, u, o) !in more {
        more := Follow(f, Dest(f, u, o), more, fuel - 1);
      }
      o := o + 1;
    }
  }

  // ----------------------------------------------------------------------
  // The sorted closure of one node
  // ----------------------------------------------------------------------

  /** Puts `x` before everything in a falling sequence that is not above it. */
  function InsertDown(s: seq<nat>, x: nat): seq<nat> {
    if s == [] || s[0] <= x then [x] + s else [s[0]] + InsertDown(s[1..], x)
  }

  /** The elements from the highest to the lowest. */
  function SortDown(s: seq<nat>): seq<nat> {
    if s == [] then [] else InsertDown(SortDown(s[1..]), s[0])
  }

  predicate Falling(s: seq<nat>) {
    forall j, k :: 0 <= j < k < |s| ==> s[j] > s[k]
  }

  lemma {:induction false} InsertDownElements(s: seq<nat>, x: nat, y: nat)
    ensures y in InsertDown(s, x) <==> y == x || y in s
  {
    if s != [] && s[0] > x {
      InsertDownElements(s[1..], x, y);
      assert s == [s[0]] + s[1..];
    }
  }

  lemma {:induction false} SameElements(s: seq<nat>, y: nat)
    ensures y in SortDown(s) <==> y in s
  {
    if s != [] {
      SameElements(s[1..], y);
      InsertDownElements(SortDown(s[1..]), s[0], y);
      assert s == [s[0]] + s[1..];
    }
  }

  lemma {:induction false} InsertDownFalls(s: seq<nat>, x: nat)
    requires Falling(s) && x !in s
    ensures Falling(InsertDown(s, x))
  {
    if s != [] && s[0] > x {
      var r := InsertDown(s[1..], x);
      InsertDownFalls(s[1..], x);
      forall k | 0 <= k < |r| ensures s[0] > r[k] {
        InsertDownElements(s[1..], x, r[k]);
      }
    }
  }

  /** Elements that are all different come out strictly falling. */
  lemma {:induction false} SortDownFalls(s: seq<nat>)
    requires forall j, k :: 0 <= j < k < |s| ==> s[j] != s[k]
    ensures Falling(SortDown(s))
  {
    if s != [] {
      SortDownFalls(s[1..]);
      SameElements(s[1..], s[0]);
      InsertDownFalls(SortDown(s[1..]), s[0]);
    }
  }

  /** What `y` accepts, `s` accepts. */
  ghost predicate Above(f: Nfa, s: nat, y: nat) {
    forall w: seq<nat> :: Accepts(f, y, w) ==> Accepts(f, s, w)
  }

  lemma AboveFree(f: Nfa, u: nat, q: nat)
    requires Free(f, u, q)
    ensures Above(f, u, q)
  {
    hide Accepts, HasEdge;
    forall w | Accepts(f, q, w) ensures Accepts(f, u, w) {
      AcceptsOver(f, u, q, w);
    }
  }

  lemma {:induction false} AboveAlong(f: Nfa, p: seq<nat>, i: nat)
    requires ForNothing(f, p) && i < |p|
    ensures Above(f, p[0], p[i])
    decreases i
  {
    hide Accepts, Free;
    if i > 0 {
      AboveAlong(f, p, i - 1);
      assert Free(f, p[i - 1], p[i - 1 + 1]);
      AboveFree(f, p[i - 1], p[i]);
    }
  }

  /** What a node comes to for nothing accepts, the node accepts. */
  lemma ComesAbove(f: Nfa, u: nat, v: nat)
    requires Comes(f, u, v)
    ensures Above(f, u, v)
  {
    hide Above, ForNothing;
    var p: seq<nat> :| p != [] && p[0] == u && p[|p| - 1] == v && ForNothing(f, p);
    AboveAlong(f, p, |p| - 1);
  }

  /** The nodes of the closure, from the last to the first. */
  method Closure(f: Nfa, s: nat) returns (r: seq<nat>)
    requires Connected(f) && s < |f| && !GoesRound(f, s)
    ensures Covered(f, r, s) && ClosedSet(f, r) && forall y :: y in r ==> y < |f| && Comes(f, s, y)
  {
    hide Connected, Comes, Covered, Settled, GoesRound, Scan, NonePassed;
    NoneYet(f);
    ghost var fuel := Ends(f, s, []);
    var found := Follow(f, s, [], fuel);
    ScanFinds(f, s, [], fuel);
    r := SortDown(found);
    forall x: nat ensures x in r <==> x in found {
      SameElements(found, x);
    }
    CoveredMore(f, found, r, s);
    forall x | x in r ensures Settled(f, r, x) && x < |f| && Comes(f, s, x) {
      var k :| 0 <= k < |found| && found[k] == x;
      SettledMore(f, found, r, found[k]);
      SettledExists(f, r, x);
    }
  }

  lemma NoneYet(f: Nfa)
    ensures NonePassed(f, [])
  {
  }

  lemma SettledExists(f: Nfa, found: seq<nat>, x: nat)
    requires Connected(f) && Settled(f, found, x)
    ensures x < |f|
  {
  }

  // ----------------------------------------------------------------------
  // Reading from a closed set of nodes
  // ----------------------------------------------------------------------

  /** Reading on from a node that is covered, a node of the set takes the first type, or the end is in the set. */
  lemma {:induction false} ReadsFrom(f: Nfa, found: seq<nat>, u: nat, w: seq<nat>, n: nat) returns (x: nat, j: nat)
    requires Connected(f) && u < |f| && Covered(f, found, u) && ClosedSet(f, found) && Reads(f, u, w, n)
    ensures w == [] ==> |f| - 1 in found
    ensures w != [] ==>
      && x in found && x < |f| && j < |f[x]| && f[x][j].term == Some(w[0])
      && Accepts(f, Dest(f, x, j), w[1..])
    decreases n
  {
    hide Accepts, Settled, Covered;
    x, j := 0, 0;
    if n == 0 {
      CoveredHere(f, found, u);
    } else {
      var i: nat :| i < |f[u]| && Takes(f, f[u][i], w, n - 1);
      var q := Dest(f, u, i);
      if f[u][i].term.None? {
        if PassedThrough(f, u) {
          CoveredOn(f, found, u);
        } else {
          CoveredNext(f, found, u, i);
        }
        x, j := ReadsFrom(f, found, q, w, n - 1);
      } else {
        x, j := u, i;
        CoveredHere(f, found, u);
        ReadsAccepts(f, q, w[1..], n - 1);
      }
    }
  }

  lemma CoveredNext(f: Nfa, found: seq<nat>, u: nat, i: nat)
    requires Connected(f) && u < |f| && !PassedThrough(f, u) && Covered(f, found, u) && ClosedSet(f, found)
    requires i < |f[u]| && f[u][i].term.None?
    ensures Covered(f, found, Dest(f, u, i))
  {
    hide Connected, Covered;
    CoveredHere(f, found, u);
    assert Settled(f, found, u);
  }

  lemma ReadsAccepts(f: Nfa, s: nat, w: seq<nat>, n: nat)
    requires Reads(f, s, w, n)
    ensures Accepts(f, s, w)
  {
  }
}
