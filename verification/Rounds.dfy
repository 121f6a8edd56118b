/**
  When the search for the nodes that an automaton can be in without taking a
  type ends: when it cannot come to a way around on which it never looks at
  what it has found.
 */
module Rounds {
  import opened Options
  import opened Nfas
  import opened Wiring
  import opened Searches

  /** One that the search follows whatever was found: it leads from or to a node that is passed through. */
  ghost predicate Turn(f: Nfa, u: nat, v: nat) {
    Free(f, u, v) && (PassedThrough(f, u) || PassedThrough(f, v))
  }

  ghost predicate Turns(f: Nfa, p: seq<nat>) {
    forall i :: 0 <= i < |p| - 1 ==> Turn(f, p[i], p[i + 1])
  }

  /** Around, over edges that are followed whatever was found. */
  ghost predicate Circle(f: Nfa, p: seq<nat>) {
    |p| > 1 && p[0] == p[|p| - 1] && Turns(f, p)
  }

  /** From `u` a way around can be come to for nothing. A caller can look for one in the automaton. */
  ghost predicate GoesRound(f: Nfa, u: nat) {
    exists p: seq<nat> :: Circle(f, p) && Comes(f, u, p[0])
  }

  ghost predicate TurnsTo(f: Nfa, u: nat, v: nat) {
    exists p: seq<nat> :: |p| > 1 && p[0] == u && p[|p| - 1] == v && Turns(f, p)
  }

  lemma TurnsFirst(f: Nfa, u: nat, x: nat, v: nat)
    requires Turn(f, u, x) && (x == v || TurnsTo(f, x, v))
    ensures TurnsTo(f, u, v)
  {
    hide Turn;
    var p: seq<nat> := [x];
    if x != v {
      p :| |p| > 1 && p[0] == x && p[|p| - 1] == v && Turns(f, p);
    }
    var more := [u] + p;
    forall i | 0 <= i < |more| - 1 ensures Turn(f, more[i], more[i + 1]) {
      if i > 0 {
        assert Turn(f, p[i - 1], p[i]);
      }
    }
    assert more[0] == u && more[|more| - 1] == v;
  }

  lemma RoundFirst(f: Nfa, u: nat, x: nat)
    requires Free(f, u, x) && !GoesRound(f, u)
    ensures !GoesRound(f, x)
  {
    hide Free, Comes;
    if GoesRound(f, x) {
      var p: seq<nat> :| Circle(f, p) && Comes(f, x, p[0]);
      ComesFirst(f, u, x, p[0]);
    }
  }

  // ----------------------------------------------------------------------
  // Without a way around, the search ends
  // ----------------------------------------------------------------------

  /** The nodes that the search can still note. */
  function Unfound(f: Nfa, found: seq<nat>): set<nat> {
    set x: nat | x < |f| && !PassedThrough(f, x) && x !in found
  }

  ghost function TurnsBelow(f: Nfa, u: nat): set<nat> {
    set v: nat | v < |f| && TurnsTo(f, u, v)
  }

  lemma BelowLess(f: Nfa, u: nat, x: nat)
    requires Turn(f, u, x) && !GoesRound(f, u)
    ensures TurnsBelow(f, x) < TurnsBelow(f, u)
  {
    TurnIs(f, u, x);
    hide Turn, Free, TurnsTo, GoesRound;
    TurnsFirst(f, u, x, x);
    forall v | v in TurnsBelow(f, x) ensures v in TurnsBelow(f, u) {
      TurnsFirst(f, u, x, v);
    }
    NeverBack(f, u, x);
    assert x in TurnsBelow(f, u) && x !in TurnsBelow(f, x);
  }

  lemma NeverBack(f: Nfa, u: nat, x: nat)
    requires Free(f, u, x) && !GoesRound(f, u)
    ensures !TurnsTo(f, x, x)
  {
    hide Free, Comes, Turns;
    if TurnsTo(f, x, x) {
      var p: seq<nat> :| |p| > 1 && p[0] == x && p[|p| - 1] == x && Turns(f, p);
      ComesItself(f, x);
      ComesFirst(f, u, x, x);
    }
  }

  lemma TurnIs(f: Nfa, u: nat, x: nat)
    requires Turn(f, u, x)
    ensures u < |f| && x < |f| && Free(f, u, x)
  {
  }

  lemma {:induction false} Ends(f: Nfa, u: nat, found: seq<nat>) returns (n: nat)
    requires Connected(f) && u < |f| && NonePassed(f, found) && !GoesRound(f, u)
    ensures Scan(f, u, found, n).Some?
    decreases Unfound(f, found) - {u}, TurnsBelow(f, u), |f[u]| + 1
  {
    hide Connected, GoesRound, NonePassed, Unfound, TurnsBelow, ScanEdges, Turn, Free;
    if PassedThrough(f, u) {
      var x := Dest(f, u, 0);
      EdgeIs(f, u, 0);
      RoundFirst(f, u, x);
      TurnHere(f, u, x);
      BelowLess(f, u, x);
      LessPassed(f, found, u, x);
      n := Ends(f, x, found);
      n := n + 1;
    } else {
      NoteOne(f, found, u);
      n := EdgesEnd(f, u, 0, found + [u], Unfound(f, found) - {u});
      n := n + 1;
    }
  }

  lemma {:induction false} EdgesEnd(f: Nfa, u: nat, o: nat, found: seq<nat>, open: set<nat>) returns (n: nat)
    requires Connected(f) && u < |f| && o <= |f[u]| && NonePassed(f, found) && !GoesRound(f, u)
    requires !PassedThrough(f, u) && Unfound(f, found) <= open
    ensures ScanEdges(f, u, o, found, n).Some?
    decreases open, TurnsBelow(f, u), |f[u]| - o
  {
    hide Connected, GoesRound, NonePassed, Unfound, TurnsBelow, Scan, Turn, Free;
    n := 0;
    if o < |f[u]| {
      if f[u][o].term.None? && Dest(f, u, o) !in found {
        var x := Dest(f, u, o);
        EdgeIs(f, u, o);
        RoundFirst(f, u, x);
        if PassedThrough(f, x) {
          TurnHere(f, u, x);
          BelowLess(f, u, x);
        } else {
          LessOpen(f, found, x, open);
        }
        var a := Ends(f, x, found);
        var more := Scan(f, x, found, a).value;
        ScanFinds(f, x, found, a);
        GrownLess(f, found, more);
        var b := EdgesEnd(f, u, o + 1, more, open);
        n := if a < b then b else a;
        ScanLonger(f, x, found, a, n);
        EdgesLonger(f, u, o + 1, more, b, n);
      } else {
        n := EdgesEnd(f, u, o + 1, found, open);
      }
    }
  }

  lemma TurnHere(f: Nfa, u: nat, x: nat)
    requires u < |f| && x < |f| && Free(f, u, x) && (PassedThrough(f, u) || PassedThrough(f, x))
    ensures Turn(f, u, x)
  {
  }

  lemma LessPassed(f: Nfa, found: seq<nat>, u: nat, x: nat)
    requires u < |f| && PassedThrough(f, u)
    ensures Unfound(f, found) - {x} <= Unfound(f, found) - {u}
  {
  }

  lemma NoteOne(f: Nfa, found: seq<nat>, u: nat)
    requires u < |f| && !PassedThrough(f, u) && NonePassed(f, found)
    ensures NonePassed(f, found + [u]) && Unfound(f, found + [u]) <= Unfound(f, found) - {u}
  {
  }

  lemma LessOpen(f: Nfa, found: seq<nat>, x: nat, open: set<nat>)
    requires x < |f| && !PassedThrough(f, x) && x !in found && Unfound(f, found) <= open
    ensures Unfound(f, found) - {x} < open
  {
    assert x in Unfound(f, found);
  }

  lemma GrownLess(f: Nfa, found: seq<nat>, more: seq<nat>)
    requires Grown(f, found, more)
    ensures NonePassed(f, more) && Unfound(f, more) <= Unfound(f, found)
  {
    PrefixIn(found, more);
  }

  // ----------------------------------------------------------------------
  // With a way around, it does not
  // ----------------------------------------------------------------------

  /** The search from `u` searches from wherever `u` turns to. */
  lemma TurnCalled(f: Nfa, u: nat, v: nat, found: seq<nat>, n: nat) returns (found1: seq<nat>, n1: nat)
    requires Connected(f) && Turn(f, u, v) && NonePassed(f, found) && Scan(f, u, found, n).Some?
    ensures n1 < n && NonePassed(f, found1) && Scan(f, v, found1, n1).Some?
  {
    hide Connected, NonePassed, ScanEdges;
    var j :| 0 <= j < |f[u]| && f[u][j] == Edge(None, Some(v));
    if PassedThrough(f, u) {
      found1, n1 := found, n - 1;
    } else {
      NoteOne(f, found, u);
      found1 := EdgeCalled(f, u, v, 0, j, found + [u], n - 1);
      n1 := n - 1;
    }
  }

  lemma {:induction false} EdgeCalled(f: Nfa, u: nat, v: nat, o: nat, j: nat, found: seq<nat>, n: nat) returns (found1: seq<nat>)
    requires Connected(f) && u < |f| && v < |f| && o <= j < |f[u]| && f[u][j] == Edge(None, Some(v)) && PassedThrough(f, v)
    requires NonePassed(f, found) && ScanEdges(f, u, o, found, n).Some?
    ensures NonePassed(f, found1) && Scan(f, v, found1, n).Some?
    decreases j - o
  {
    hide Connected, Scan, Covered, SettledFrom, AllCome;
    found1 := found;
    if o == j {
      assert v !in found;
    } else if f[u][o].term.None? && Dest(f, u, o) !in found {
      ScanFinds(f, Dest(f, u, o), found, n);
      found1 := EdgeCalled(f, u, v, o + 1, j, Scan(f, Dest(f, u, o), found, n).value, n);
    } else {
      found1 := EdgeCalled(f, u, v, o + 1, j, found, n);
    }
  }

  /** What was noted was searched from. */
  lemma {:induction false} Called(f: Nfa, u: nat, found: seq<nat>, n: nat, x: nat) returns (found1: seq<nat>, n1: nat)
    requires Connected(f) && u < |f| && NonePassed(f, found) && Scan(f, u, found, n).Some?
    requires x in Scan(f, u, found, n).value && x !in found
    ensures x < |f| && NonePassed(f, found1) && Scan(f, x, found1, n1).Some?
    decreases n, 0
  {
    hide Connected, ScanEdges, NonePassed;
    if PassedThrough(f, u) {
      found1, n1 := Called(f, Dest(f, u, 0), found, n - 1, x);
    } else if x == u {
      found1, n1 := found, n;
    } else {
      NoteOne(f, found, u);
      found1, n1 := CalledLater(f, u, 0, found + [u], n - 1, x);
    }
  }

  lemma {:induction false} CalledLater(f: Nfa, u: nat, o: nat, found: seq<nat>, n: nat, x: nat) returns (found1: seq<nat>, n1: nat)
    requires Connected(f) && u < |f| && o <= |f[u]| && NonePassed(f, found) && ScanEdges(f, u, o, found, n).Some?
    requires x in ScanEdges(f, u, o, found, n).value && x !in found
    ensures x < |f| && NonePassed(f, found1) && Scan(f, x, found1, n1).Some?
    decreases n, 1 + |f[u]| - o
  {
    hide Connected, Scan, Covered, SettledFrom, AllCome, NonePassed;
    if f[u][o].term.None? && Dest(f, u, o) !in found {
      var next := Scan(f, Dest(f, u, o), found, n).value;
      if x in next {
        found1, n1 := Called(f, Dest(f, u, o), found, n, x);
      } else {
        ScanFinds(f, Dest(f, u, o), found, n);
        found1, n1 := CalledLater(f, u, o + 1, next, n, x);
      }
    } else {
      found1, n1 := CalledLater(f, u, o + 1, found, n, x);
    }
  }

  /** Whatever can be come to for nothing was found, or leads on to what was. */
  lemma {:induction false} ComesCovered(f: Nfa, found: seq<nat>, p: seq<nat>, i: nat)
    requires Connected(f) && ClosedSet(f, found) && ForNothing(f, p) && i < |p| && p[0] < |f| && Covered(f, found, p[0])
    ensures p[i] < |f| && Covered(f, found, p[i])
    decreases i
  {
    hide Connected, Covered, ForNothing;
    if i > 0 {
      ComesCovered(f, found, p, i - 1);
      StepIs(f, p, i - 1);
      var j :| 0 <= j < |f[p[i - 1]]| && f[p[i - 1]][j] == Edge(None, Some(p[i]));
      if PassedThrough(f, p[i - 1]) {
        CoveredOn(f, found, p[i - 1]);
      } else {
        CoveredHere(f, found, p[i - 1]);
        assert Settled(f, found, p[i - 1]);
      }
    }
  }

  /** The next place on a way around. */
  function Next(p: seq<nat>, i: nat): (r: nat)
    requires |p| > 1 && i < |p|
    ensures r < |p|
  {
    if i < |p| - 1 then i + 1 else 1
  }

  lemma NextTurn(f: Nfa, p: seq<nat>, i: nat)
    requires Circle(f, p) && i < |p|
    ensures Turn(f, p[i], p[Next(p, i)])
  {
    hide Turn;
    var j: nat := if i < |p| - 1 then i else 0;
    assert p[j] == p[i];
    assert Turn(f, p[j], p[j + 1]);
  }

  /** A way around that leads to what was found goes by it. */
  lemma {:induction false} FoundOnCircle(f: Nfa, found: seq<nat>, p: seq<nat>, i: nat, n: nat) returns (k: nat)
    requires Connected(f) && Circle(f, p) && i < |p| && p[i] < |f| && CoveredIn(f, found, p[i], n)
    ensures k < |p| && p[k] in found
    decreases n
  {
    hide Connected, Turns;
    if PassedThrough(f, p[i]) {
      NextTurn(f, p, i);
      k := FoundOnCircle(f, found, p, Next(p, i), n - 1);
    } else {
      k := i;
    }
  }

  /** Going around, the search would go ever deeper. */
  lemma {:induction false} RoundAndRound(f: Nfa, p: seq<nat>, i: nat, found: seq<nat>, n: nat)
    requires Connected(f) && Circle(f, p) && i < |p| && p[i] < |f| && NonePassed(f, found) && Scan(f, p[i], found, n).Some?
    ensures false
    decreases n
  {
    hide Connected, Turns, NonePassed, Scan, Turn;
    NextTurn(f, p, i);
    TurnIs(f, p[i], p[Next(p, i)]);
    var found1, n1 := TurnCalled(f, p[i], p[Next(p, i)], found, n);
    RoundAndRound(f, p, Next(p, i), found1, n1);
  }

  lemma NeverEnds(f: Nfa, u: nat, n: nat)
    requires Connected(f) && u < |f| && GoesRound(f, u)
    ensures Scan(f, u, [], n).None?
  {
    hide Connected, Turns, Scan, ForNothing, CoveredIn, Settled;
    if Scan(f, u, [], n).Some? {
      var found := Scan(f, u, [], n).value;
      ScanFinds(f, u, [], n);
      var p: seq<nat> :| Circle(f, p) && Comes(f, u, p[0]);
      var way: seq<nat> :| way != [] && way[0] == u && way[|way| - 1] == p[0] && ForNothing(f, way);
      AllSettled(f, found);
      ComesCovered(f, found, way, |way| - 1);
      var m: nat :| CoveredIn(f, found, p[0], m);
      var k := FoundOnCircle(f, found, p, 0, m);
      var found1, n1 := Called(f, u, [], n, p[k]);
      RoundAndRound(f, p, k, found1, n1);
    }
  }

  lemma AllSettled(f: Nfa, found: seq<nat>)
    requires Connected(f) && SettledFrom(f, found, 0)
    ensures ClosedSet(f, found)
  {
    hide Settled, Connected;
    forall x | x in found ensures Settled(f, found, x) {
      var k :| 0 <= k < |found| && found[k] == x;
      assert Settled(f, found, found[k]);
    }
  }

  /** Some depth is enough for the search. */
  ghost predicate SearchEnds(f: Nfa, u: nat)
    requires Connected(f) && u < |f|
  {
    exists n: nat :: Scan(f, u, [], n).Some?
  }

  /** The search from a node ends exactly when no way around can be come to from it for nothing. */
  lemma SearchEndsExactly(f: Nfa, u: nat)
    requires Connected(f) && u < |f|
    ensures SearchEnds(f, u) <==> !GoesRound(f, u)
  {
    hide Connected, Scan, GoesRound;
    if GoesRound(f, u) {
      forall n: nat ensures Scan(f, u, [], n).None? {
        NeverEnds(f, u, n);
      }
    } else {
      var n := Ends(f, u, []);
    }
  }

  // ----------------------------------------------------------------------
  // Searching from one node after another
  // ----------------------------------------------------------------------

  ghost predicate Joined(f: Nfa, u: nat, v: nat) {
    u < |f| && v < |f| && exists j :: 0 <= j < |f[u]| && f[u][j].dest == Some(v)
  }

  /** From `s` over edges of any kind. */
  ghost predicate Reached(f: Nfa, s: nat, x: nat) {
    exists p: seq<nat> :: p != [] && p[0] == s && p[|p| - 1] == x && Along(f, p)
  }

  ghost predicate Along(f: Nfa, p: seq<nat>) {
    forall i :: 0 <= i < |p| - 1 ==> Joined(f, p[i], p[i + 1])
  }

  /** From no node that `s` leads to can a way around be come to. */
  ghost predicate Safe(f: Nfa, s: nat) {
    forall x: nat :: Reached(f, s, x) ==> !GoesRound(f, x)
  }

  lemma ReachedItself(f: Nfa, s: nat)
    ensures Reached(f, s, s)
  {
    var p: seq<nat> := [s];
    assert p[0] == s && p[|p| - 1] == s && Along(f, p);
  }

  lemma ReachedOn(f: Nfa, s: nat, x: nat, y: nat)
    requires Reached(f, s, x) && Joined(f, x, y)
    ensures Reached(f, s, y)
  {
    hide Joined;
    var p: seq<nat> :| p != [] && p[0] == s && p[|p| - 1] == x && Along(f, p);
    var more := p + [y];
    forall i | 0 <= i < |more| - 1 ensures Joined(f, more[i], more[i + 1]) {
      if i < |p| - 1 {
        assert Joined(f, p[i], p[i + 1]);
      }
    }
    assert more[0] == s && more[|more| - 1] == y;
  }

  lemma FreeJoins(f: Nfa, u: nat, v: nat)
    requires Free(f, u, v)
    ensures Joined(f, u, v)
  {
  }

  lemma {:induction false} ReachedAlong(f: Nfa, s: nat, p: seq<nat>, i: nat)
    requires p != [] && Reached(f, s, p[0]) && ForNothing(f, p) && i < |p|
    ensures Reached(f, s, p[i])
    decreases i
  {
    hide Reached, Free, Joined;
    if i > 0 {
      ReachedAlong(f, s, p, i - 1);
      assert Free(f, p[i - 1], p[i - 1 + 1]);
      FreeJoins(f, p[i - 1], p[i]);
      ReachedOn(f, s, p[i - 1], p[i]);
    }
  }

  lemma ReachedComes(f: Nfa, s: nat, x: nat, y: nat)
    requires Reached(f, s, x) && Comes(f, x, y)
    ensures Reached(f, s, y)
  {
    hide Reached, ForNothing;
    var p: seq<nat> :| p != [] && p[0] == x && p[|p| - 1] == y && ForNothing(f, p);
    ReachedAlong(f, s, p, |p| - 1);
  }

  /** The nodes that making the states searches from: the start, and where edges that take a type lead. */
  ghost predicate Started(f: Nfa, s: nat, x: nat) {
    x == s || exists y: nat, typ: nat :: y < |f| && Reached(f, s, y) && HasEdge(f, y, Some(typ), x)
  }

  lemma {:induction false} StartedBefore(f: Nfa, s: nat, p: seq<nat>, i: nat) returns (z: nat)
    requires p != [] && p[0] == s < |f| && Along(f, p) && i < |p|
    ensures Started(f, s, z) && Comes(f, z, p[i]) && Reached(f, s, p[i]) && z < |f|
    decreases i
  {
    hide Reached, Comes, HasEdge;
    if i == 0 {
      z := s;
      ReachedItself(f, s);
      ComesItself(f, s);
    } else {
      z := StartedBefore(f, s, p, i - 1);
      var x, y := p[i - 1], p[i];
      assert Joined(f, p[i - 1], p[i - 1 + 1]);
      ReachedOn(f, s, x, y);
      var j :| 0 <= j < |f[x]| && f[x][j].dest == Some(y);
      JoinedBy(f, x, j, y);
      if f[x][j].term.None? {
        ComesLast(f, z, x, y);
      } else {
        z := y;
        ComesItself(f, y);
      }
    }
  }

  lemma JoinedBy(f: Nfa, x: nat, j: nat, y: nat)
    requires x < |f| && y < |f| && j < |f[x]| && f[x][j].dest == Some(y)
    ensures if f[x][j].term.None? then Free(f, x, y) else HasEdge(f, x, Some(f[x][j].term.value), y)
  {
    assert f[x][j] == Edge(f[x][j].term, Some(y));
  }

  lemma ComesLast(f: Nfa, z: nat, x: nat, y: nat)
    requires Comes(f, z, x) && Free(f, x, y)
    ensures Comes(f, z, y)
  {
    hide Free;
    var p: seq<nat> :| p != [] && p[0] == z && p[|p| - 1] == x && ForNothing(f, p);
    var more := p + [y];
    forall i | 0 <= i < |more| - 1 ensures Free(f, more[i], more[i + 1]) {
      if i < |p| - 1 {
        assert Free(f, p[i], p[i + 1]);
      }
    }
    assert more[0] == z && more[|more| - 1] == y;
  }

  lemma ComesOn(f: Nfa, z: nat, x: nat, y: nat)
    requires Comes(f, z, x) && Comes(f, x, y)
    ensures Comes(f, z, y)
  {
    hide ForNothing;
    var p: seq<nat> :| p != [] && p[0] == x && p[|p| - 1] == y && ForNothing(f, p);
    ComesAlong(f, z, p, |p| - 1);
  }

  lemma {:induction false} ComesAlong(f: Nfa, z: nat, p: seq<nat>, i: nat)
    requires p != [] && Comes(f, z, p[0]) && ForNothing(f, p) && i < |p|
    ensures Comes(f, z, p[i])
    decreases i
  {
    hide Comes, Free;
    if i > 0 {
      ComesAlong(f, z, p, i - 1);
      assert Free(f, p[i - 1], p[i - 1 + 1]);
      ComesLast(f, z, p[i - 1], p[i]);
    }
  }

  lemma RoundFrom(f: Nfa, z: nat, x: nat)
    requires Comes(f, z, x) && GoesRound(f, x)
    ensures GoesRound(f, z)
  {
    hide Comes, Turns;
    var p: seq<nat> :| Circle(f, p) && Comes(f, x, p[0]);
    ComesOn(f, z, x, p[0]);
  }

  lemma EndStarted(f: Nfa, s: nat, x: nat)
    requires Connected(f) && s < |f| && Started(f, s, x)
    ensures x < |f| && Reached(f, s, x)
  {
    hide Reached;
    if x == s {
      ReachedItself(f, s);
    } else {
      var y: nat, typ: nat :| y < |f| && Reached(f, s, y) && HasEdge(f, y, Some(typ), x);
      var j :| 0 <= j < |f[y]| && f[y][j] == Edge(Some(typ), Some(x));
      assert Joined(f, y, x);
      ReachedOn(f, s, y, x);
    }
  }

  /** All searches that making the states needs end exactly when the start is safe. */
  lemma SafeExactly(f: Nfa, s: nat)
    requires Connected(f) && s < |f|
    ensures Safe(f, s) <==> forall x: nat :: x < |f| && Started(f, s, x) ==> SearchEnds(f, x)
  {
    hide Connected, SearchEnds, GoesRound, Reached, Started, Comes;
    if Safe(f, s) {
      forall x: nat | x < |f| && Started(f, s, x) ensures SearchEnds(f, x) {
        EndStarted(f, s, x);
        SearchEndsExactly(f, x);
      }
    } else {
      var x: nat :| Reached(f, s, x) && GoesRound(f, x);
      var z := StartedFor(f, s, x);
      RoundFrom(f, z, x);
      SearchEndsExactly(f, z);
    }
  }

  lemma StartedFor(f: Nfa, s: nat, x: nat) returns (z: nat)
    requires s < |f| && Reached(f, s, x)
    ensures z < |f| && Started(f, s, z) && Comes(f, z, x)
  {
    hide Started, Comes, Along;
    var p: seq<nat> :| p != [] && p[0] == s && p[|p| - 1] == x && Along(f, p);
    z := StartedBefore(f, s, p, |p| - 1);
  }
}
