/**
  The states of a content match: sets of automaton nodes, made as they are
  first reached, with one edge for each type.
 */
module Subsets {
  import opened Options
  import opened Expressions
  import opened Nfas
  import opened Wiring
  import opened Readings
  import opened Searches
  import opened Rounds
  import opened Closures
  import Matches

  type State = Matches.State

  // ----------------------------------------------------------------------
  // The sets a state leads to
  // ----------------------------------------------------------------------

  /** For one type, the nodes that taking it leads to. */
  datatype Group = Group(typ: nat, nodes: seq<nat>)

  function GroupOf(u: seq<Group>, typ: nat): Option<nat> {
    if u == [] then None
    else if u[0].typ == typ then Some(0)
    else
      var k := GroupOf(u[1..], typ);
      if k.None? then None else Some(k.value + 1)
  }

  lemma {:induction false} GroupOfIs(u: seq<Group>, typ: nat)
    ensures GroupOf(u, typ).Some? ==> GroupOf(u, typ).value < |u| && u[GroupOf(u, typ).value].typ == typ
    ensures GroupOf(u, typ).None? ==> forall k :: 0 <= k < |u| ==> u[k].typ != typ
  {
    if u != [] && u[0].typ != typ {
      GroupOfIs(u[1..], typ);
    }
  }

  predicate Different(s: seq<nat>) {
    forall j, k :: 0 <= j < k < |s| ==> s[j] != s[k]
  }

  predicate DifferentTypes(u: seq<Group>) {
    forall j, k :: 0 <= j < k < |u| ==> u[j].typ != u[k].typ
  }

  /** Each of `more` goes to the end, unless it is there already. */
  method AddAll(s: seq<nat>, more: seq<nat>) returns (r: seq<nat>)
    requires Different(s)
    ensures Different(r) && forall x :: x in r <==> x in s || x in more
  {
    r := s;
    var i := 0;
    while i < |more|
      invariant i <= |more| && Different(r)
      invariant forall x :: x in r <==> x in s || x in more[..i]
    {
      assert more[..i + 1] == more[..i] + [more[i]];
      if more[i] !in r {
        r := r + [more[i]];
      }
      i := i + 1;
    }
    assert more[..i] == more;
  }

  /** A node to which taking the type leads from a node of the key. */
  ghost predicate Source(f: Nfa, key: seq<nat>, typ: nat, y: nat, x: nat, j: nat)
    requires Connected(f)
  {
    x in key && x < |f| && j < |f[x]| && f[x][j].term == Some(typ) && Dest(f, x, j) == y
  }

  /** Every node of the group is below the end of some edge for its type. */
  ghost predicate Grounded(f: Nfa, key: seq<nat>, g: Group)
    requires Connected(f)
  {
    forall z :: z in g.nodes ==> exists y: nat, x: nat, j: nat :: Source(f, key, g.typ, y, x, j) && Comes(f, y, z)
  }

  /** The group of an edge's type covers where the edge leads. */
  ghost predicate Gathered(f: Nfa, u: seq<Group>, x: nat, j: nat)
    requires Connected(f)
  {
    x < |f| && j < |f[x]| &&
    (f[x][j].term.Some? ==>
       exists k :: 0 <= k < |u| && u[k].typ == f[x][j].term.value && Covered(f, u[k].nodes, Dest(f, x, j)))
  }

  ghost predicate AllGathered(f: Nfa, key: seq<nat>, u: seq<Group>)
    requires Connected(f)
  {
    forall x, j :: x in key && x < |f| && 0 <= j < |f[x]| ==> Gathered(f, u, x, j)
  }

  ghost predicate GroupsOk(f: Nfa, key: seq<nat>, u: seq<Group>)
    requires Connected(f)
  {
    && DifferentTypes(u)
    && forall k :: 0 <= k < |u| ==>
         Different(u[k].nodes) && ClosedSet(f, u[k].nodes) && Grounded(f, key, u[k])
  }

  lemma ClosedUnion(f: Nfa, a: seq<nat>, b: seq<nat>, r: seq<nat>)
    requires Connected(f) && ClosedSet(f, a) && ClosedSet(f, b)
    requires forall x :: x in r <==> x in a || x in b
    ensures ClosedSet(f, r)
  {
    hide Settled, Connected;
    forall x | x in r ensures Settled(f, r, x) {
      if x in a {
        SettledMore(f, a, r, x);
      } else {
        SettledMore(f, b, r, x);
      }
    }
  }

  lemma ClosedElements(f: Nfa, a: seq<nat>, r: seq<nat>)
    requires Connected(f) && ClosedSet(f, a) && forall x :: x in r <==> x in a
    ensures ClosedSet(f, r)
  {
    hide Settled, Connected;
    forall x | x in r ensures Settled(f, r, x) {
      SettledMore(f, a, r, x);
    }
  }

  lemma GroundedUnion(f: Nfa, key: seq<nat>, g: Group, x: nat, j: nat, c: seq<nat>, r: seq<nat>)
    requires Connected(f) && Grounded(f, key, g) && x in key && x < |f| && j < |f[x]|
    requires f[x][j].term == Some(g.typ) && forall z :: z in c ==> Comes(f, Dest(f, x, j), z)
    requires forall z :: z in r <==> z in g.nodes || z in c
    ensures Grounded(f, key, Group(g.typ, r))
  {
    hide Comes, Connected;
    forall z | z in r ensures exists y: nat, x: nat, j: nat :: Source(f, key, g.typ, y, x, j) && Comes(f, y, z) {
      if z in g.nodes {
      } else {
        assert Source(f, key, g.typ, Dest(f, x, j), x, j);
      }
    }
  }

  /** From wherever an edge of the key leads, the search ends. */
  ghost predicate SafeKey(f: Nfa, key: seq<nat>)
    requires Connected(f)
  {
    forall x, j :: x in key && x < |f| && 0 <= j < |f[x]| ==> !GoesRound(f, Dest(f, x, j))
  }

  /** Adds where one edge leads to the group of its type. */
  method AddTarget(f: Nfa, ghost key: seq<nat>, u: seq<Group>, x: nat, j: nat) returns (r: seq<Group>)
    requires Connected(f) && x in key && x < |f| && j < |f[x]| && f[x][j].term.Some? && GroupsOk(f, key, u)
    requires !GoesRound(f, Dest(f, x, j))
    ensures GroupsOk(f, key, r) && Gathered(f, r, x, j)
    ensures |u| <= |r| && forall k :: 0 <= k < |u| ==> r[k].typ == u[k].typ && forall z :: z in u[k].nodes ==> z in r[k].nodes
  {
    hide Connected, Grounded, ClosedSet, Covered, Comes, GoesRound;
    var typ := f[x][j].term.value;
    var q := Dest(f, x, j);
    var c := Closure(f, q);
    GroupOfIs(u, typ);
    var a := GroupOf(u, typ);
    var before := if a.Some? then u[a.value] else Group(typ, []);
    if a.None? {
      EmptyGroup(f, key, typ);
    }
    var nodes := AddAll(before.nodes, c);
    ClosedUnion(f, before.nodes, c, nodes);
    GroundedUnion(f, key, before, x, j, c, nodes);
    CoveredMore(f, c, nodes, q);
    r := if a.Some? then u[a.value := Group(typ, nodes)] else u + [Group(typ, nodes)];
    assert r[if a.Some? then a.value else |u|] == Group(typ, nodes);
  }

  lemma EmptyGroup(f: Nfa, key: seq<nat>, typ: nat)
    requires Connected(f)
    ensures Different([]) && ClosedSet(f, []) && Grounded(f, key, Group(typ, []))
  {
  }

  lemma GatheredMore(f: Nfa, u: seq<Group>, r: seq<Group>, x: nat, j: nat)
    requires Connected(f) && Gathered(f, u, x, j)
    requires |u| <= |r| && forall k :: 0 <= k < |u| ==> r[k].typ == u[k].typ && forall z :: z in u[k].nodes ==> z in r[k].nodes
    ensures Gathered(f, r, x, j)
  {
    hide Connected, Covered;
    if f[x][j].term.Some? {
      var k :| 0 <= k < |u| && u[k].typ == f[x][j].term.value && Covered(f, u[k].nodes, Dest(f, x, j));
      CoveredMore(f, u[k].nodes, r[k].nodes, Dest(f, x, j));
    }
  }

  /** Where the key's nodes lead, type by type. */
  method GroupTargets(f: Nfa, key: seq<nat>) returns (u: seq<Group>)
    requires Connected(f) && SafeKey(f, key) && forall i :: 0 <= i < |key| ==> key[i] < |f|
    ensures GroupsOk(f, key, u)
    ensures AllGathered(f, key, u)
  {
    hide Connected, GroupsOk, Gathered, GoesRound;
    u := [];
    NoGroups(f, key);
    var o := 0;
    while o < |key|
      invariant 0 <= o <= |key| && GroupsOk(f, key, u)
      invariant forall i, j :: 0 <= i < o && 0 <= j < |f[key[i]]| ==> Gathered(f, u, key[i], j)
    {
      var x, e := key[o], 0;
      while e < |f[x]|
        invariant 0 <= e <= |f[x]| && GroupsOk(f, key, u)
        invariant forall i, j :: 0 <= i < o && 0 <= j < |f[key[i]]| ==> Gathered(f, u, key[i], j)
        invariant forall j :: 0 <= j < e ==> Gathered(f, u, x, j)
      {
        ghost var before := u;
        if f[x][e].term.Some? {
          u := AddTarget(f, key, u, x, e);
          forall i, j | 0 <= i < o && 0 <= j < |f[key[i]]| ensures Gathered(f, u, key[i], j) {
            GatheredMore(f, before, u, key[i], j);
          }
          forall j | 0 <= j < e ensures Gathered(f, u, x, j) {
            GatheredMore(f, before, u, x, j);
          }
        } else {
          NotGathered(f, u, x, e);
        }
        e := e + 1;
      }
      o := o + 1;
    }
  }

  lemma NoGroups(f: Nfa, key: seq<nat>)
    requires Connected(f)
    ensures GroupsOk(f, key, [])
  {
  }

  lemma NotGathered(f: Nfa, u: seq<Group>, x: nat, j: nat)
    requires Connected(f) && x < |f| && j < |f[x]| && f[x][j].term.None?
    ensures Gathered(f, u, x, j)
  {
  }

  // ----------------------------------------------------------------------
  // Only so many states
  // ----------------------------------------------------------------------

  function AllSubsets(n: nat): set<set<nat>> {
    if n == 0 then {{}}
    else AllSubsets(n - 1) + Extended(AllSubsets(n - 1), n - 1)
  }

  function Extended(sets: set<set<nat>>, x: nat): set<set<nat>> {
    set s | s in sets :: s + {x}
  }

  lemma {:induction false} InAllSubsets(n: nat, s: set<nat>)
    requires forall x :: x in s ==> x < n
    ensures s in AllSubsets(n)
  {
    if n == 0 {
      assert s == {};
    } else {
      var rest := s - {n - 1};
      InAllSubsets(n - 1, rest);
      if n - 1 in s {
        assert s == rest + {n - 1};
      } else {
        assert s == rest;
      }
    }
  }

  function Elements(s: seq<nat>): set<nat> {
    set x | x in s
  }

  /** A key as sorting makes it. */
  predicate Canonical(n: nat, key: seq<nat>) {
    Falling(key) && forall i :: 0 <= i < |key| ==> key[i] < n
  }

  lemma NoElements(s: seq<nat>)
    ensures Elements(s) == {} <==> s == []
  {
    if s != [] {
      assert s[0] in Elements(s);
    }
  }

  /** Sorted keys are the same when their elements are. */
  lemma {:induction false} SameKey(a: seq<nat>, b: seq<nat>)
    requires Falling(a) && Falling(b) && Elements(a) == Elements(b)
    ensures a == b
    decreases |a|
  {
    NoElements(a);
    NoElements(b);
    if a != [] {
      assert a[0] in Elements(b) && b[0] in Elements(a);
      assert a[0] == b[0];
      assert a == [a[0]] + a[1..] && b == [b[0]] + b[1..];
      forall x ensures x in Elements(a[1..]) <==> x in Elements(b[1..]) {
        assert x in a[1..] <==> x in a && x != a[0];
        assert x in b[1..] <==> x in b && x != b[0];
        assert x in a <==> x in Elements(a);
        assert x in b <==> x in Elements(b);
      }
      SameKey(a[1..], b[1..]);
    }
  }

  /** The sets of nodes that states have been made for. */
  ghost function Made(n: nat, keys: seq<seq<nat>>): set<set<nat>> {
    set k | k in keys && Canonical(n, k) :: Elements(k)
  }

  /** One more sorted key is one more set of nodes. */
  lemma OneMoreMade(n: nat, keys: seq<seq<nat>>, key: seq<nat>, keys1: seq<seq<nat>>)
    requires key !in keys && |keys| < |keys1| && keys1[..|keys| + 1] == keys + [key]
    ensures AllSubsets(n) - Made(n, keys1) <= AllSubsets(n) - Made(n, keys)
    ensures Canonical(n, key) ==> AllSubsets(n) - Made(n, keys1) < AllSubsets(n) - Made(n, keys)
  {
    var all := AllSubsets(n);
    assert forall k :: k in keys + [key] ==> k in keys1;
    assert Made(n, keys) <= Made(n, keys1);
    if Canonical(n, key) {
      InAllSubsets(n, Elements(key));
      assert key in keys + [key];
      assert Elements(key) in Made(n, keys1);
      if Elements(key) in Made(n, keys) {
        var k :| k in keys && Canonical(n, k) && Elements(k) == Elements(key);
        SameKey(k, key);
      }
      assert Elements(key) in all - Made(n, keys);
    }
  }

  function IndexOf(keys: seq<seq<nat>>, key: seq<nat>): (r: Option<nat>)
    ensures r.Some? ==> r.value < |keys| && keys[r.value] == key
    ensures r.None? ==> key !in keys
  {
    if keys == [] then None
    else if keys[|keys| - 1] == key then Some(|keys| - 1)
    else IndexOf(keys[..|keys| - 1], key)
  }

  // ----------------------------------------------------------------------
  // Making the states
  // ----------------------------------------------------------------------

  /** The first edges of a state lead, type by type, to the states of the groups. */
  predicate EdgesTo(keys: seq<seq<nat>>, next: seq<Matches.Edge>, u: seq<Group>)
  {
    && |next| <= |u|
    && forall k :: 0 <= k < |next| ==>
         next[k].typ == u[k].typ && next[k].next < |keys| && keys[next[k].next] == SortDown(u[k].nodes)
  }

  /** A state with all its edges. */
  ghost predicate Finished(f: Nfa, keys: seq<seq<nat>>, states: seq<State>, i: nat)
    requires Connected(f) && |keys| == |states|
  {
    && i < |keys|
    && ClosedSet(f, keys[i])
    && (states[i].validEnd <==> |f| - 1 in keys[i])
    && exists u: seq<Group> ::
         && GroupsOk(f, keys[i], u) && |states[i].next| == |u| && EdgesTo(keys, states[i].next, u)
         && AllGathered(f, keys[i], u)
  }

  lemma FinishedMore(f: Nfa, keys: seq<seq<nat>>, states: seq<State>,
                     keys1: seq<seq<nat>>, states1: seq<State>, i: nat)
    requires Connected(f) && |keys| == |states| <= |keys1| == |states1| && keys1[..|keys|] == keys
    requires Finished(f, keys, states, i) && states1[i] == states[i]
    ensures Finished(f, keys1, states1, i)
  {
    hide Connected, GroupsOk, AllGathered, ClosedSet;
    assert forall k :: 0 <= k < |keys| ==> keys1[k] == keys1[..|keys|][k] == keys[k];
    var u: seq<Group> :|
      && GroupsOk(f, keys[i], u) && |states[i].next| == |u| && EdgesTo(keys, states[i].next, u)
      && AllGathered(f, keys[i], u);
    assert EdgesTo(keys1, states1[i].next, u);
  }

  /** From `n` on, all states have been finished. */
  ghost predicate FinishedFrom(f: Nfa, keys: seq<seq<nat>>, states: seq<State>, n: nat)
    requires Connected(f) && |keys| == |states|
  {
    forall k :: n <= k < |keys| ==> Finished(f, keys, states, k)
  }

  /** A key that can be looked up or given a state: closed, and of nodes that the start leads to. */
  ghost predicate GoodKey(f: Nfa, start: nat, key: seq<nat>)
    requires Connected(f)
  {
    ClosedSet(f, key) && forall i :: 0 <= i < |key| ==> key[i] < |f| && Reached(f, start, key[i])
  }

  lemma GoodIsSafe(f: Nfa, start: nat, key: seq<nat>)
    requires Connected(f) && Safe(f, start) && GoodKey(f, start, key)
    ensures SafeKey(f, key) && ClosedSet(f, key) && forall i :: 0 <= i < |key| ==> key[i] < |f|
  {
    hide Connected, Reached, GoesRound, ClosedSet;
    forall x, j | x in key && x < |f| && 0 <= j < |f[x]| ensures !GoesRound(f, Dest(f, x, j)) {
      var i :| 0 <= i < |key| && key[i] == x;
      JoinedTo(f, x, j);
      ReachedOn(f, start, x, Dest(f, x, j));
    }
  }

  lemma JoinedTo(f: Nfa, x: nat, j: nat)
    requires Connected(f) && x < |f| && j < |f[x]|
    ensures Joined(f, x, Dest(f, x, j))
  {
    assert f[x][j].dest == Some(Dest(f, x, j));
  }

  /** Makes the state of a key, and those it leads to that have not been made. */
  method Explore(f: Nfa, ghost start: nat, key: seq<nat>, keys: seq<seq<nat>>, states: seq<State>)
    returns (i: nat, keys1: seq<seq<nat>>, states1: seq<State>)
    requires Connected(f) && Safe(f, start) && |keys| == |states| && key !in keys && GoodKey(f, start, key)
    ensures |keys| < |keys1| == |states1| && keys1[..|keys|] == keys && states1[..|states|] == states
    ensures i == |keys| && keys1[i] == key && FinishedFrom(f, keys1, states1, |keys|)
    decreases AllSubsets(|f|) - Made(|f|, keys), if Canonical(|f|, key) then 0 else 1
  {
    hide Connected, GroupsOk, AllGathered, ClosedSet, Finished, FinishedFrom, AllSubsets, Made, Canonical, EdgesTo, SortDown, Safe, GoodKey;
    GoodIsSafe(f, start, key);
    hide SafeKey;
    var u := GroupTargets(f, key);
    i := |keys|;
    var valid := |f| - 1 in key;
    var next: seq<Matches.Edge> := [];
    keys1, states1 := keys + [key], states + [Matches.State(valid, next)];
    var o := 0;
    NothingFinished(f, keys1, states1, u);
    while o < |u|
      invariant 0 <= o <= |u| && |next| == o
      invariant |keys| < |keys1| == |states1| && keys1[..|keys| + 1] == keys + [key]
      invariant states1[..|states|] == states && states1[i] == Matches.State(valid, next)
      invariant EdgesTo(keys1, next, u) && FinishedFrom(f, keys1, states1, |keys| + 1)
    {
      var s := SortDown(u[o].nodes);
      var known := IndexOf(keys1, s);
      var to1: nat;
      GroupKey(f, start, key, u, o);
      if known.Some? {
        to1 := known.value;
      } else {
        OneMoreMade(|f|, keys, key, keys1);
        ghost var keys0, states0 := keys1, states1;
        to1, keys1, states1 := Explore(f, start, s, keys1, states1);
        KeptPrefix(keys0, keys1, keys + [key]);
        KeptStates(states0, states1, states, i);
        FinishedBoth(f, keys0, states0, keys1, states1, |keys| + 1);
        EdgesMore(keys0, keys1, next, u);
      }
      EdgesOn(keys1, next, u, to1);
      next := next + [Matches.Edge(u[o].typ, to1)];
      ghost var states0 := states1;
      states1 := states1[i := Matches.State(valid, next)];
      FinishedAfter(f, keys1, states0, states1, i);
      o := o + 1;
    }
    NowFinished(f, keys, key, keys1, states1, u);
  }

  lemma NothingFinished(f: Nfa, keys: seq<seq<nat>>, states: seq<State>, u: seq<Group>)
    requires Connected(f) && |keys| == |states|
    ensures FinishedFrom(f, keys, states, |keys|) && EdgesTo(keys, [], u)
  {
  }

  /** The key of a group is sorted, closed and of nodes that the start leads to. */
  lemma GroupKey(f: Nfa, start: nat, key: seq<nat>, u: seq<Group>, o: nat)
    requires Connected(f) && GoodKey(f, start, key) && GroupsOk(f, key, u) && o < |u|
    ensures var s := SortDown(u[o].nodes); GoodKey(f, start, s) && Canonical(|f|, s)
  {
    hide Connected, Settled, Reached, Comes, Source;
    var nodes := u[o].nodes;
    var s := SortDown(nodes);
    SortDownFalls(nodes);
    forall x: nat ensures x in s <==> x in nodes {
      SameElements(nodes, x);
    }
    ClosedElements(f, nodes, s);
    forall i | 0 <= i < |s| ensures s[i] < |f| && Reached(f, start, s[i]) {
      MemberExists(f, s, s[i]);
      var y: nat, x: nat, j: nat :| Source(f, key, u[o].typ, y, x, j) && Comes(f, y, s[i]);
      SourceReached(f, start, key, u[o].typ, y, x, j);
      ReachedComes(f, start, y, s[i]);
    }
  }

  lemma MemberExists(f: Nfa, s: seq<nat>, x: nat)
    requires Connected(f) && ClosedSet(f, s) && x in s
    ensures x < |f|
  {
    hide Connected, Covered;
    assert Settled(f, s, x);
  }

  lemma SourceReached(f: Nfa, start: nat, key: seq<nat>, typ: nat, y: nat, x: nat, j: nat)
    requires Connected(f) && GoodKey(f, start, key) && Source(f, key, typ, y, x, j)
    ensures Reached(f, start, y)
  {
    hide Connected, Reached, ClosedSet;
    var i :| 0 <= i < |key| && key[i] == x;
    JoinedTo(f, x, j);
    ReachedOn(f, start, x, y);
  }

  lemma KeptPrefix(keys0: seq<seq<nat>>, keys1: seq<seq<nat>>, first: seq<seq<nat>>)
    requires |first| <= |keys0| <= |keys1| && keys1[..|keys0|] == keys0 && keys0[..|first|] == first
    ensures keys1[..|first|] == first
  {
    assert keys1[..|first|] == keys1[..|keys0|][..|first|];
  }

  lemma KeptStates(states0: seq<State>, states1: seq<State>, first: seq<State>, i: nat)
    requires |first| == i < |states0| <= |states1| && states1[..|states0|] == states0 && states0[..i] == first
    ensures states1[..i] == first && states1[i] == states0[i]
  {
    assert states1[..i] == states1[..|states0|][..i];
    assert states1[i] == states1[..|states0|][i];
  }

  lemma FinishedBoth(f: Nfa, keys0: seq<seq<nat>>, states0: seq<State>,
                     keys1: seq<seq<nat>>, states1: seq<State>, n: nat)
    requires Connected(f) && n <= |keys0| == |states0| <= |keys1| == |states1|
    requires keys1[..|keys0|] == keys0 && states1[..|states0|] == states0
    requires FinishedFrom(f, keys0, states0, n) && FinishedFrom(f, keys1, states1, |keys0|)
    ensures FinishedFrom(f, keys1, states1, n)
  {
    hide Connected, Finished;
    forall k | n <= k < |keys1| ensures Finished(f, keys1, states1, k) {
      if k < |keys0| {
        assert states1[k] == states1[..|states0|][k];
        FinishedMore(f, keys0, states0, keys1, states1, k);
      }
    }
  }

  lemma EdgesMore(keys0: seq<seq<nat>>, keys1: seq<seq<nat>>, next: seq<Matches.Edge>, u: seq<Group>)
    requires |keys0| <= |keys1| && keys1[..|keys0|] == keys0 && EdgesTo(keys0, next, u)
    ensures EdgesTo(keys1, next, u)
  {
    hide SortDown;
    assert forall k :: 0 <= k < |keys0| ==> keys1[k] == keys1[..|keys0|][k] == keys0[k];
  }

  lemma EdgesOn(keys: seq<seq<nat>>, next: seq<Matches.Edge>, u: seq<Group>, to1: nat)
    requires EdgesTo(keys, next, u) && |next| < |u| && to1 < |keys| && keys[to1] == SortDown(u[|next|].nodes)
    ensures EdgesTo(keys, next + [Matches.Edge(u[|next|].typ, to1)], u)
  {
    hide SortDown;
  }

  lemma FinishedAfter(f: Nfa, keys: seq<seq<nat>>, states0: seq<State>, states1: seq<State>, i: nat)
    requires Connected(f) && |keys| == |states0| == |states1| && i < |keys| && FinishedFrom(f, keys, states0, i + 1)
    requires forall k :: i < k < |keys| ==> states1[k] == states0[k]
    ensures FinishedFrom(f, keys, states1, i + 1)
  {
    hide Connected, Finished;
    assert keys[..|keys|] == keys;
    forall k | i + 1 <= k < |keys| ensures Finished(f, keys, states1, k) {
      FinishedMore(f, keys, states0, keys, states1, k);
    }
  }

  lemma NowFinished(f: Nfa, keys: seq<seq<nat>>, key: seq<nat>,
                    keys1: seq<seq<nat>>, states1: seq<State>, u: seq<Group>)
    requires Connected(f) && |keys| < |keys1| == |states1| && keys1[..|keys| + 1] == keys + [key]
    requires ClosedSet(f, key) && GroupsOk(f, key, u)
    requires AllGathered(f, key, u)
    requires var s := states1[|keys|]; (s.validEnd <==> |f| - 1 in key) && |s.next| == |u| && EdgesTo(keys1, s.next, u)
    requires FinishedFrom(f, keys1, states1, |keys| + 1)
    ensures keys1[..|keys|] == keys && keys1[|keys|] == key && FinishedFrom(f, keys1, states1, |keys|)
  {
    hide Connected, GroupsOk, AllGathered, ClosedSet, EdgesTo;
    assert keys1[..|keys|] == keys1[..|keys| + 1][..|keys|] == keys;
    assert keys1[|keys|] == keys1[..|keys| + 1][|keys|] == key;
    assert Finished(f, keys1, states1, |keys|);
  }

  // ----------------------------------------------------------------------
  // What the states accept
  // ----------------------------------------------------------------------

  /** The states by themselves, without what a schema knows of the types. */
  function Bare(states: seq<State>): Matches.Grammar {
    Matches.Grammar(states, [])
  }

  /** Edges lead to states that there are, and no state has two for one type. */
  predicate Linked(states: seq<State>) {
    Matches.Closed(Bare(states))
  }

  ghost predicate EndsValid(states: seq<State>, i: nat, w: seq<nat>)
    requires i < |states| && Linked(states)
  {
    var r := Matches.MatchTypes(Bare(states), i, w);
    r.Some? && states[r.value].validEnd
  }

  /** Some node of the key accepts. */
  ghost predicate Accepting(f: Nfa, key: seq<nat>, w: seq<nat>) {
    exists x :: x in key && Accepts(f, x, w)
  }

  ghost predicate Determined(f: Nfa, keys: seq<seq<nat>>, states: seq<State>) {
    Connected(f) && |keys| == |states| && Linked(states) && FinishedFrom(f, keys, states, 0)
  }

  lemma FinishedLinked(f: Nfa, keys: seq<seq<nat>>, states: seq<State>)
    requires Connected(f) && |keys| == |states| && FinishedFrom(f, keys, states, 0)
    ensures Linked(states)
  {
    hide Connected, GroupsOk, AllGathered, ClosedSet, SortDown;
    forall i | 0 <= i < |states|
      ensures forall k :: 0 <= k < |states[i].next| ==> states[i].next[k].next < |states|
      ensures forall j, k :: 0 <= j < k < |states[i].next| ==> states[i].next[j].typ != states[i].next[k].typ
    {
      assert Finished(f, keys, states, i);
      var u: seq<Group> :| GroupsOk(f, keys[i], u) && |states[i].next| == |u| && EdgesTo(keys, states[i].next, u);
      OwnTypes(f, keys[i], u);
    }
  }

  lemma OwnTypes(f: Nfa, key: seq<nat>, u: seq<Group>)
    requires Connected(f) && GroupsOk(f, key, u)
    ensures DifferentTypes(u)
  {
    hide Connected, ClosedSet, Grounded;
  }

  /** A covered node that accepts has one of the set that accepts as well. */
  lemma {:induction false} CoveredAccepts(f: Nfa, found: seq<nat>, u: nat, w: seq<nat>, n: nat)
    requires Connected(f) && u < |f| && Covered(f, found, u) && Reads(f, u, w, n)
    ensures Accepting(f, found, w)
    decreases n
  {
    hide Accepts, Covered;
    if PassedThrough(f, u) {
      NotTheEnd(f, u, w, n);
      CoveredOn(f, found, u);
      var i: nat :| i < |f[u]| && Takes(f, f[u][i], w, n - 1);
      CoveredAccepts(f, found, Dest(f, u, 0), w, n - 1);
    } else {
      CoveredHere(f, found, u);
      ReadsAccepts(f, u, w, n);
    }
  }

  lemma NotTheEnd(f: Nfa, u: nat, w: seq<nat>, n: nat)
    requires f != [] && f[|f| - 1] == [] && u < |f| && f[u] != [] && Reads(f, u, w, n)
    ensures n > 0
  {
  }

  /** The groups that a state's edges were made for. */
  lemma GroupsOf(f: Nfa, keys: seq<seq<nat>>, states: seq<State>, i: nat) returns (u: seq<Group>)
    requires Determined(f, keys, states) && i < |states|
    ensures GroupsOk(f, keys[i], u) && |states[i].next| == |u| && EdgesTo(keys, states[i].next, u)
    ensures AllGathered(f, keys[i], u) && ClosedSet(f, keys[i])
    ensures states[i].validEnd <==> |f| - 1 in keys[i]
  {
    hide Connected, GroupsOk, AllGathered, ClosedSet, EdgesTo;
    assert Finished(f, keys, states, i);
    u :|
      && GroupsOk(f, keys[i], u) && |states[i].next| == |u| && EdgesTo(keys, states[i].next, u)
      && AllGathered(f, keys[i], u);
  }

  /** Each edge's type has its own group, so an edge is found by its type. */
  lemma EdgeFound(f: Nfa, key: seq<nat>, keys: seq<seq<nat>>, next: seq<Matches.Edge>, u: seq<Group>, k: nat)
    requires Connected(f) && GroupsOk(f, key, u) && |next| == |u| && EdgesTo(keys, next, u) && k < |u|
    ensures Matches.FirstEdge(next, u[k].typ) == Some(next[k].next)
  {
    hide Connected, ClosedSet, Grounded, SortDown;
    Matches.FirstEdgeIs(next, u[k].typ);
    var r := Matches.FirstEdge(next, u[k].typ);
    assert next[k].typ == u[k].typ;
    var j :| 0 <= j < |next| && next[j] == Matches.Edge(u[k].typ, r.value);
    assert u[j].typ == u[k].typ;
  }

  /** Taking a type, the nodes of a key that can accept lead to a state that can. */
  lemma TakesOn(f: Nfa, keys: seq<seq<nat>>, states: seq<State>, i: nat, w: seq<nat>)
    requires Determined(f, keys, states) && i < |states| && w != [] && Accepting(f, keys[i], w)
    ensures var n := Matches.FirstEdge(states[i].next, w[0]);
            n.Some? && n.value < |keys| && Accepting(f, keys[n.value], w[1..])
  {
    hide Connected, ClosedSet, Grounded, SortDown, Covered, GroupsOk, EdgesTo, FinishedFrom;
    var u := GroupsOf(f, keys, states, i);
    var s :| s in keys[i] && Accepts(f, s, w);
    var n: nat :| Reads(f, s, w, n);
    MemberExists(f, keys[i], s);
    MemberCovered(f, keys[i], s);
    var x, j := ReadsFrom(f, keys[i], s, w, n);
    assert Gathered(f, u, x, j);
    var q := Dest(f, x, j);
    var k :| 0 <= k < |u| && u[k].typ == f[x][j].term.value && Covered(f, u[k].nodes, q);
    EdgeFound(f, keys[i], keys, states[i].next, u, k);
    var m: nat :| Reads(f, q, w[1..], m);
    CoveredAccepts(f, u[k].nodes, q, w[1..], m);
    KeyAccepts(f, keys, states[i].next, u, k, w[1..]);
  }

  lemma MemberCovered(f: Nfa, found: seq<nat>, s: nat)
    requires Connected(f) && ClosedSet(f, found) && s in found
    ensures s < |f| && Covered(f, found, s)
  {
    hide Connected, Covered;
    assert Settled(f, found, s);
    CoveredHere(f, found, s);
  }

  lemma KeyAccepts(f: Nfa, keys: seq<seq<nat>>, next: seq<Matches.Edge>, u: seq<Group>, k: nat, w: seq<nat>)
    requires |next| == |u| && EdgesTo(keys, next, u) && k < |u|
    ensures next[k].next < |keys| && (Accepting(f, keys[next[k].next], w) <==> Accepting(f, u[k].nodes, w))
  {
    hide Accepts, SortDown;
    forall x: nat ensures x in SortDown(u[k].nodes) <==> x in u[k].nodes {
      SameElements(u[k].nodes, x);
    }
  }

  /** A state that can accept was reached from nodes of the key that can. */
  lemma TakesBack(f: Nfa, keys: seq<seq<nat>>, states: seq<State>, i: nat, w: seq<nat>)
    requires Determined(f, keys, states) && i < |states| && w != []
    requires var n := Matches.FirstEdge(states[i].next, w[0]);
             n.Some? && n.value < |keys| && Accepting(f, keys[n.value], w[1..])
    ensures Accepting(f, keys[i], w)
  {
    hide Connected, ClosedSet, SortDown, Covered, AllGathered, EdgesTo, FinishedFrom, Comes;
    var u := GroupsOf(f, keys, states, i);
    Matches.FirstEdgeIs(states[i].next, w[0]);
    var n := Matches.FirstEdge(states[i].next, w[0]);
    var k :| 0 <= k < |states[i].next| && states[i].next[k] == Matches.Edge(w[0], n.value);
    EdgeType(keys, states[i].next, u, k);
    KeyAccepts(f, keys, states[i].next, u, k, w[1..]);
    var z :| z in u[k].nodes && Accepts(f, z, w[1..]);
    assert Grounded(f, keys[i], u[k]);
    var y: nat, x: nat, j: nat :| Source(f, keys[i], u[k].typ, y, x, j) && Comes(f, y, z);
    ComesAbove(f, y, z);
    assert f[x][j] == Edge(Some(w[0]), Some(y));
    AcceptsType(f, x, w[0], y, w[1..]);
    assert w == [w[0]] + w[1..];
  }

  lemma EdgeType(keys: seq<seq<nat>>, next: seq<Matches.Edge>, u: seq<Group>, k: nat)
    requires EdgesTo(keys, next, u) && k < |next|
    ensures next[k].typ == u[k].typ
  {
  }

  lemma EndAccepting(f: Nfa, keys: seq<seq<nat>>, states: seq<State>, i: nat)
    requires Determined(f, keys, states) && i < |states|
    ensures states[i].validEnd <==> Accepting(f, keys[i], [])
  {
    hide Connected, Covered, AllGathered, EdgesTo, FinishedFrom, GroupsOk, Settled;
    var u := GroupsOf(f, keys, states, i);
    if |f| - 1 in keys[i] {
      EndAccepts(f);
    }
    if Accepting(f, keys[i], []) {
      var s :| s in keys[i] && Accepts(f, s, []);
      var n: nat :| Reads(f, s, [], n);
      MemberCovered(f, keys[i], s);
      var x, j := ReadsFrom(f, keys[i], s, [], n);
    }
  }

  /** A state ends validly on exactly what the nodes of its key accept. */
  lemma {:induction false} StateAccepts(f: Nfa, keys: seq<seq<nat>>, states: seq<State>, i: nat, w: seq<nat>)
    requires Determined(f, keys, states) && i < |states|
    ensures EndsValid(states, i, w) <==> Accepting(f, keys[i], w)
    decreases |w|
  {
    hide Connected, FinishedFrom, Accepting;
    if w == [] {
      EndAccepting(f, keys, states, i);
    } else {
      Matches.FirstEdgeIs(states[i].next, w[0]);
      var n := Matches.FirstEdge(states[i].next, w[0]);
      if Accepting(f, keys[i], w) {
        TakesOn(f, keys, states, i, w);
      }
      if n.Some? {
        StateAccepts(f, keys, states, n.value, w[1..]);
        if Accepting(f, keys[n.value], w[1..]) {
          TakesBack(f, keys, states, i, w);
        }
      }
    }
  }

  // ----------------------------------------------------------------------
  // The whole of compiling
  // ----------------------------------------------------------------------

  /** The states made from an automaton; content begins in the first of them. */
  method Determinize(f: Nfa) returns (states: seq<State>)
    requires Connected(f) && Safe(f, 0)
    ensures states != [] && Linked(states)
    ensures forall w: seq<nat> :: EndsValid(states, 0, w) <==> Accepts(f, 0, w)
  {
    hide FinishedFrom, Accepting, Comes, Covered, ClosedSet, EndsValid, Linked, Accepts, Reached, GoesRound;
    ReachedItself(f, 0);
    var key := Closure(f, 0);
    forall i | 0 <= i < |key| ensures key[i] < |f| && Reached(f, 0, key[i]) {
      ReachedComes(f, 0, 0, key[i]);
    }
    var i, keys;
    i, keys, states := Explore(f, 0, key, [], []);
    FinishedLinked(f, keys, states);
    forall w: seq<nat> ensures EndsValid(states, 0, w) <==> Accepts(f, 0, w) {
      StateAccepts(f, keys, states, 0, w);
      RootAccepts(f, key, w);
    }
  }

  lemma RootAccepts(f: Nfa, key: seq<nat>, w: seq<nat>)
    requires Connected(f) && Covered(f, key, 0) && forall y :: y in key ==> Comes(f, 0, y)
    ensures Accepting(f, key, w) <==> Accepts(f, 0, w)
  {
    hide Covered, Connected, Comes;
    if Accepts(f, 0, w) {
      var n: nat :| Reads(f, 0, w, n);
      CoveredAccepts(f, key, 0, w, n);
    }
    if Accepting(f, key, w) {
      var y :| y in key && Accepts(f, y, w);
      ComesAbove(f, 0, y);
    }
  }

  /** What a schema knows of the types does not change the way matching goes. */
  lemma {:induction false} MatchingIsRunning(g: Matches.Grammar, i: nat, w: seq<nat>)
    requires Matches.Closed(g) && i < |g.states|
    ensures Linked(g.states) && Matches.MatchTypes(g, i, w) == Matches.MatchTypes(Bare(g.states), i, w)
    decreases |w|
  {
    if w != [] {
      var n := Matches.MatchType(g, i, w[0]);
      if n.Some? {
        MatchingIsRunning(g, n.value, w[1..]);
      }
    }
  }
}
