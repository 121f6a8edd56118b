/**
  The search for node types to wrap around a node so that it fits: breadth
  first, each type tried once.
 */
module Wrappings {
  import opened Options
  import opened Matches

  predicate Usable(g: Grammar, t: nat) {
    t < |g.types| && !g.types[t].isLeaf && !g.types[t].requiredAttrs
  }

  /** The state inside the innermost of some wrappers, or `q` where there are none. */
  function At(g: Grammar, q: nat, chain: seq<nat>): nat
    requires forall k :: 0 <= k < |chain| ==> chain[k] < |g.types|
  {
    if chain == [] then q else g.types[chain[|chain| - 1]].contentMatch
  }

  /** `t` may come in state `q`; inside another wrapper it must also complete the content. */
  predicate Fits(g: Grammar, q: nat, t: nat, outermost: bool)
    requires Closed(g) && q < |g.states|
  {
    var n := MatchType(g, q, t);
    && t < |g.types| && !g.types[t].isLeaf && !g.types[t].requiredAttrs
    && n.Some? && (outermost || g.states[n.value].validEnd)
  }

  /** Each wrapper fits in the one around it, the outermost in `q`. */
  predicate Leads(g: Grammar, q: nat, chain: seq<nat>)
    requires Closed(g) && q < |g.states|
    ensures Leads(g, q, chain) ==>
      (forall k :: 0 <= k < |chain| ==> chain[k] < |g.types|) && At(g, q, chain) < |g.states|
  {
    if chain == [] then true
    else
      var n := |chain| - 1;
      Leads(g, q, chain[..n]) && Fits(g, At(g, q, chain[..n]), chain[n], n == 0)
  }

  /** Wrappers that make room for a node of the target type. */
  predicate Wraps(g: Grammar, q: nat, chain: seq<nat>, target: nat)
    requires Closed(g) && q < |g.states|
  {
    Leads(g, q, chain) && MatchType(g, At(g, q, chain), target).Some?
  }

  // ----------------------------------------------------------------------
  // The queue
  // ----------------------------------------------------------------------

  /** A state in the queue and how the search came to it: by the type before it, if any. */
  datatype Trail = Root(match_: nat) | Via(match_: nat, typ: nat, via: Trail)

  function Path(t: Trail): seq<nat> {
    match t
    case Root(_) => []
    case Via(_, typ, via) => Path(via) + [typ]
  }

  predicate Good(g: Grammar, q: nat, t: Trail)
    requires Closed(g) && q < |g.states|
  {
    Leads(g, q, Path(t)) && t.match_ == At(g, q, Path(t))
  }

  function Reversed<T>(s: seq<T>): seq<T> {
    if s == [] then [] else Reversed(s[1..]) + [s[0]]
  }

  lemma {:induction false} ReversedPush<T>(s: seq<T>, x: T)
    ensures Reversed(s + [x]) == [x] + Reversed(s)
  {
    if s == [] {
      assert [] + [x] == [x] && [x][1..] == [];
    } else {
      assert (s + [x])[1..] == s[1..] + [x];
      ReversedPush(s[1..], x);
    }
  }

  /** Reads a trail back to its root. */
  method TypesOf(t: Trail) returns (r: seq<nat>)
    ensures r == Path(t)
  {
    var o, s := [], t;
    while s.Via?
      invariant Path(t) == Path(s) + Reversed(o)
      decreases s
    {
      ReversedPush(o, s.typ);
      assert Path(s.via) + [s.typ] + Reversed(o) == Path(s.via) + ([s.typ] + Reversed(o));
      o, s := o + [s.typ], s.via;
    }
    r := Reversed(o);
  }

  /** The state that the search for wrappers is in after `t`. */
  function Inner(g: Grammar, t: nat): nat
    requires t < |g.types|
  {
    g.types[t].contentMatch
  }

  /** Every type that fits in state `q` has been met, at most `d` wrappers deep. */
  ghost predicate Expanded(g: Grammar, q: nat, outermost: bool, depth: map<nat, nat>, d: nat)
    requires Closed(g) && q < |g.states|
  {
    forall t :: Fits(g, q, t, outermost) ==> t in depth && depth[t] <= d
  }

  ghost predicate Queued(g: Grammar, q: nat, queue: seq<Trail>, depth: map<nat, nat>)
    requires Closed(g) && q < |g.states|
  {
    forall k :: 0 <= k < |queue| ==>
      Good(g, q, queue[k]) && queue[k].Via? && queue[k].typ in depth && depth[queue[k].typ] == |Path(queue[k])|
  }

  /** The queue is ordered by the number of wrappers, and holds at most two numbers of them. */
  predicate Ordered(queue: seq<Trail>) {
    forall j, k :: 0 <= j < k < |queue| ==> |Path(queue[j])| <= |Path(queue[k])| <= |Path(queue[0])| + 1
  }

  ghost predicate Finished(g: Grammar, target: nat, queue: seq<Trail>, depth: map<nat, nat>, t: nat)
    requires Closed(g)
  {
    && t in depth && t < |g.types| && MatchType(g, Inner(g, t), target).None?
    && Expanded(g, Inner(g, t), false, depth, depth[t] + 1)
    && (queue != [] ==> depth[t] <= |Path(queue[0])|)
  }

  /**
    The types met so far, with the number of wrappers at which each was met, are
    those done with and those in the queue. Those done with do not take the
    target, and whatever fits inside them has been met.
   */
  ghost predicate Searching(g: Grammar, q: nat, target: nat, queue: seq<Trail>, depth: map<nat, nat>, done: set<nat>)
    requires Closed(g) && q < |g.states|
  {
    && Queued(g, q, queue, depth) && Ordered(queue)
    && (forall t :: t in depth ==> t < |g.types| && (t in done || InQueue(queue, t)))
    && MatchType(g, q, target).None? && Expanded(g, q, true, depth, 1)
    && (forall t :: t in done ==> Finished(g, target, queue, depth, t))
  }

  predicate InQueue(queue: seq<Trail>, t: nat) {
    exists k :: 0 <= k < |queue| && queue[k].Via? && queue[k].typ == t
  }

  // ----------------------------------------------------------------------
  // Nothing is missed
  // ----------------------------------------------------------------------

  /** Wrappers that lead somewhere within `d` end in a type met no deeper than they are many. */
  lemma {:induction false} MetInTime(g: Grammar, q: nat, target: nat, queue: seq<Trail>, depth: map<nat, nat>, done: set<nat>,
                                     chain: seq<nat>, d: nat)
    requires Closed(g) && q < |g.states| && Searching(g, q, target, queue, depth, done)
    requires forall t :: t in depth && depth[t] < d ==> t in done
    requires Leads(g, q, chain) && 0 < |chain| <= d
    ensures var t := chain[|chain| - 1]; t in depth && depth[t] <= |chain|
    decreases |chain|
  {
    hide Fits, Closed, MatchType;
    var n := |chain| - 1;
    if n > 0 {
      MetInTime(g, q, target, queue, depth, done, chain[..n], d);
      var t := chain[n - 1];
      assert chain[..n][n - 1] == t && t in done;
      assert Expanded(g, Inner(g, t), false, depth, depth[t] + 1);
    }
  }

  lemma NoneNearer(g: Grammar, q: nat, target: nat, queue: seq<Trail>, depth: map<nat, nat>, done: set<nat>, chain: seq<nat>, d: nat)
    requires Closed(g) && q < |g.states| && Searching(g, q, target, queue, depth, done)
    requires forall t :: t in depth && depth[t] < d ==> t in done
    requires |chain| < d
    ensures !Wraps(g, q, chain, target)
  {
    hide Fits, Closed, MatchType, Expanded;
    if Leads(g, q, chain) && chain != [] {
      MetInTime(g, q, target, queue, depth, done, chain, d);
    }
  }

  // ----------------------------------------------------------------------
  // The search
  // ----------------------------------------------------------------------

  /** The queue after the new trails of one state; `added` are those. */
  ghost predicate Grown(g: Grammar, q: nat, u: Trail, queue: seq<Trail>, depth: map<nat, nat>,
                        queue1: seq<Trail>, depth1: map<nat, nat>, added: seq<Trail>)
    requires Closed(g) && q < |g.states|
  {
    && queue1 == queue + added
    && (forall k :: 0 <= k < |added| ==>
          && Good(g, q, added[k]) && added[k].Via? && |Path(added[k])| == |Path(u)| + 1
          && added[k].typ in depth1 && added[k].typ !in depth)
    && (forall t :: t in depth ==> t in depth1 && depth1[t] == depth[t])
    && (forall t :: t in depth1 && t !in depth ==> t < |g.types| && depth1[t] == |Path(u)| + 1 && InQueue(added, t))
  }

  lemma GrownByOne(g: Grammar, q: nat, u: Trail, queue: seq<Trail>, depth: map<nat, nat>,
                   queue1: seq<Trail>, depth1: map<nat, nat>, added: seq<Trail>, k: nat)
    requires Closed(g) && q < |g.states| && Good(g, q, u) && Grown(g, q, u, queue, depth, queue1, depth1, added)
    requires u.match_ < |g.states| && k < |g.states[u.match_].next|
    requires var t := g.states[u.match_].next[k].typ; t !in depth1 && t < |g.types| && Fits(g, u.match_, t, u.Root?)
    ensures var t := g.states[u.match_].next[k].typ;
            var n := Via(Inner(g, t), t, u);
            Grown(g, q, u, queue, depth, queue1 + [n], depth1[t := |Path(u)| + 1], added + [n])
  {
    hide Fits, Closed, Good, Path, InQueue, Grown;
    var t := g.states[u.match_].next[k].typ;
    var n := Via(Inner(g, t), t, u);
    ViaGood(g, q, u, t);
    GrownWith(g, q, u, queue, depth, queue1, depth1, added, n);
  }

  lemma GrownWith(g: Grammar, q: nat, u: Trail, queue: seq<Trail>, depth: map<nat, nat>,
                  queue1: seq<Trail>, depth1: map<nat, nat>, added: seq<Trail>, n: Trail)
    requires Closed(g) && q < |g.states| && Grown(g, q, u, queue, depth, queue1, depth1, added)
    requires Good(g, q, n) && n.Via? && |Path(n)| == |Path(u)| + 1 && n.typ < |g.types| && n.typ !in depth1
    ensures Grown(g, q, u, queue, depth, queue1 + [n], depth1[n.typ := |Path(u)| + 1], added + [n])
  {
    hide Closed, Good, Path, InQueue;
    var added1, depth2 := added + [n], depth1[n.typ := |Path(u)| + 1];
    assert queue1 + [n] == queue + added1;
    forall s | s in depth2 && s !in depth ensures s < |g.types| && depth2[s] == |Path(u)| + 1 && InQueue(added1, s) {
      QueuedMore(added, n, s);
    }
    forall k | 0 <= k < |added1|
      ensures Good(g, q, added1[k]) && added1[k].Via? && |Path(added1[k])| == |Path(u)| + 1
      ensures added1[k].typ in depth2 && added1[k].typ !in depth
    {
    }
  }

  lemma QueuedMore(added: seq<Trail>, n: Trail, s: nat)
    requires n.Via?
    ensures s == n.typ || InQueue(added, s) ==> InQueue(added + [n], s)
  {
    var added1 := added + [n];
    if s == n.typ {
      assert added1[|added|] == n;
    } else if InQueue(added, s) {
      var j :| 0 <= j < |added| && added[j].Via? && added[j].typ == s;
      assert added1[j] == added[j];
    }
  }

  lemma ViaGood(g: Grammar, q: nat, u: Trail, t: nat)
    requires Closed(g) && q < |g.states| && Good(g, q, u) && u.match_ < |g.states|
    requires t < |g.types| && Fits(g, u.match_, t, u.Root?)
    ensures var n := Via(Inner(g, t), t, u);
            Good(g, q, n) && |Path(n)| == |Path(u)| + 1
  {
    hide Fits, Closed;
    var n := Via(Inner(g, t), t, u);
    assert Path(n)[..|Path(u)|] == Path(u);
    PathRoot(u);
  }

  lemma PathRoot(t: Trail)
    ensures t.Root? <==> Path(t) == []
  {
  }

  /** Adds to the queue whatever fits in a state and has not been met. */
  method Expand(g: Grammar, ghost q: nat, u: Trail, queue: seq<Trail>, seen: set<nat>, ghost depth: map<nat, nat>)
    returns (queue1: seq<Trail>, seen1: set<nat>, ghost depth1: map<nat, nat>, ghost added: seq<Trail>)
    requires Closed(g) && q < |g.states| && Good(g, q, u) && u.match_ < |g.states| && seen == depth.Keys
    ensures seen1 == depth1.Keys && Grown(g, q, u, queue, depth, queue1, depth1, added)
    ensures forall t :: t in seen1 <==> t in seen || Fits(g, u.match_, t, u.Root?)
  {
    hide Closed, Good, Fits, Grown;
    queue1, seen1, depth1, added := queue, seen, depth, [];
    NothingGrown(g, q, u, queue, depth);
    var edges := g.states[u.match_].next;
    var o := 0;
    while o < |edges|
      invariant 0 <= o <= |edges| && seen1 == depth1.Keys && Grown(g, q, u, queue, depth, queue1, depth1, added)
      invariant seen <= seen1 && forall t :: t in seen1 ==> t in seen || Fits(g, u.match_, t, u.Root?)
      invariant forall k :: 0 <= k < o ==> Fits(g, u.match_, edges[k].typ, u.Root?) ==> edges[k].typ in depth1
    {
      var Edge(s, l) := edges[o];
      EdgeInside(g, u.match_, o);
      EdgeFits(g, u.match_, o, u.Root?);
      if Usable(g, s) && s !in seen1 && (u.Root? || g.states[l].validEnd) {
        GrownByOne(g, q, u, queue, depth, queue1, depth1, added, o);
        var n := Via(Inner(g, s), s, u);
        queue1, seen1 := queue1 + [n], seen1 + {s};
        depth1, added := depth1[s := |Path(u)| + 1], added + [n];
      }
      o := o + 1;
    }
    forall t | Fits(g, u.match_, t, u.Root?) ensures t in depth1 {
      FitsByEdge(g, u.match_, t, u.Root?);
    }
  }

  lemma NothingGrown(g: Grammar, q: nat, u: Trail, queue: seq<Trail>, depth: map<nat, nat>)
    requires Closed(g) && q < |g.states|
    ensures Grown(g, q, u, queue, depth, queue, depth, [])
  {
    assert queue + [] == queue;
  }

  lemma EdgeFits(g: Grammar, q: nat, k: nat, outermost: bool)
    requires Closed(g) && q < |g.states| && k < |g.states[q].next|
    ensures var Edge(t, l) := g.states[q].next[k];
            l < |g.states| && (Fits(g, q, t, outermost) <==> Usable(g, t) && (outermost || g.states[l].validEnd))
  {
    EdgeMatches(g, q, k);
  }

  lemma FitsByEdge(g: Grammar, q: nat, t: nat, outermost: bool)
    requires Closed(g) && q < |g.states| && Fits(g, q, t, outermost)
    ensures exists k :: 0 <= k < |g.states[q].next| && g.states[q].next[k].typ == t
  {
    MatchedEdge(g, q, t);
  }

  // ----------------------------------------------------------------------
  // The whole search
  // ----------------------------------------------------------------------

  lemma DepthBound(g: Grammar, depth: map<nat, nat>)
    requires forall t :: t in depth ==> t < |g.types|
    ensures |depth.Keys| <= |g.types|
  {
    var all := Numbers(|g.types|);
    assert depth.Keys <= all;
    Subset(depth.Keys, all);
  }

  lemma RootDone(g: Grammar, q: nat, target: nat, queue: seq<Trail>, depth: map<nat, nat>, added: seq<Trail>)
    requires Closed(g) && q < |g.states| && MatchType(g, q, target).None?
    requires Grown(g, q, Root(q), [], map[], queue, depth, added)
    requires forall t :: Fits(g, q, t, true) ==> t in depth
    ensures Searching(g, q, target, queue, depth, {})
  {
    hide Closed, Fits, Good, MatchType, InQueue;
    assert queue == added;
  }

  lemma RootGood(g: Grammar, q: nat)
    requires Closed(g) && q < |g.states|
    ensures Good(g, q, Root(q)) && Path(Root(q)) == []
  {
  }

  lemma FirstGood(g: Grammar, q: nat, target: nat, queue: seq<Trail>, depth: map<nat, nat>, done: set<nat>)
    requires Closed(g) && q < |g.states| && Searching(g, q, target, queue, depth, done) && queue != []
    ensures Good(g, q, queue[0]) && queue[0].Via? && queue[0].match_ < |g.states|
  {
    hide Closed, Fits, MatchType, Expanded, Leads, Path;
    assert Good(g, q, queue[0]);
  }

  lemma GoodWraps(g: Grammar, q: nat, u: Trail, target: nat)
    requires Closed(g) && q < |g.states| && Good(g, q, u) && u.match_ < |g.states| && MatchType(g, u.match_, target).Some?
    ensures Wraps(g, q, Path(u), target)
  {
    hide Closed, Fits, MatchType, Leads, Path;
  }

  lemma GrownSeen(g: Grammar, q: nat, u: Trail, queue: seq<Trail>, depth: map<nat, nat>,
                  queue1: seq<Trail>, depth1: map<nat, nat>, added: seq<Trail>)
    requires Closed(g) && q < |g.states| && Grown(g, q, u, queue, depth, queue1, depth1, added)
    requires forall t :: t in depth ==> t < |g.types|
    ensures forall t :: t in depth1 ==> t < |g.types|
    ensures depth.Keys <= depth1.Keys && |queue1| == |queue| + |added|
    ensures added != [] ==> |depth.Keys| < |depth1.Keys|
    ensures added == [] ==> |depth.Keys| <= |depth1.Keys|
  {
    hide Closed, Good, Path, InQueue;
    if added != [] {
      assert added[0].typ in depth1 && added[0].typ !in depth;
      Subset(depth.Keys + {added[0].typ}, depth1.Keys);
    } else {
      Subset(depth.Keys, depth1.Keys);
    }
  }

  lemma AllDone(g: Grammar, q: nat, target: nat, depth: map<nat, nat>, done: set<nat>)
    requires Closed(g) && q < |g.states| && Searching(g, q, target, [], depth, done)
    ensures forall t :: t in depth ==> t in done
  {
    hide Closed, Fits, MatchType, Expanded;
  }

  lemma QueueOrder(queue: seq<Trail>, added: seq<Trail>)
    requires Ordered(queue) && queue != [] && forall k :: 0 <= k < |added| ==> |Path(added[k])| == |Path(queue[0])| + 1
    ensures Ordered(queue[1..] + added)
    ensures queue[1..] + added != [] ==> |Path(queue[0])| <= |Path((queue[1..] + added)[0])|
  {
    hide Path;
    var queue1 := queue[1..] + added;
    var n := |Path(queue[0])|;
    forall k | 0 <= k < |queue1| ensures n <= |Path(queue1[k])| <= n + 1 {
      if k < |queue| - 1 {
        assert queue1[k] == queue[k + 1];
      }
    }
    forall j, k | 0 <= j < k < |queue1| ensures |Path(queue1[j])| <= |Path(queue1[k])| {
      if k < |queue| - 1 {
        assert queue1[k] == queue[k + 1] && queue1[j] == queue[j + 1];
      }
    }
  }

  lemma StillQueued(g: Grammar, q: nat, queue: seq<Trail>, depth: map<nat, nat>, queue1: seq<Trail>, depth1: map<nat, nat>,
                    added: seq<Trail>, done: set<nat>, t: nat)
    requires Closed(g) && q < |g.states| && queue != [] && queue[0].Via?
    requires Grown(g, q, queue[0], queue[1..], depth, queue1, depth1, added)
    requires forall s :: s in depth ==> s < |g.types| && (s in done || InQueue(queue, s))
    requires t in depth1
    ensures t < |g.types| && (t in done + {queue[0].typ} || InQueue(queue1, t))
  {
    hide Good, Path, Closed;
    var n := |queue| - 1;
    if t !in depth {
      var k :| 0 <= k < |added| && added[k].Via? && added[k].typ == t;
      assert queue1[n + k] == added[k];
    } else if t !in done {
      var k :| 0 <= k < |queue| && queue[k].Via? && queue[k].typ == t;
      assert k > 0 ==> queue1[k - 1] == queue[k];
    }
  }

  lemma NowQueued(g: Grammar, q: nat, queue: seq<Trail>, depth: map<nat, nat>, queue1: seq<Trail>, depth1: map<nat, nat>,
                  added: seq<Trail>)
    requires Closed(g) && q < |g.states| && queue != [] && Queued(g, q, queue, depth)
    requires Grown(g, q, queue[0], queue[1..], depth, queue1, depth1, added)
    ensures Queued(g, q, queue1, depth1)
  {
    hide Good, Path, Closed, InQueue;
  }

  lemma ExpandedMore(g: Grammar, q: nat, outermost: bool, depth: map<nat, nat>, depth1: map<nat, nat>, d: nat)
    requires Closed(g) && q < |g.states| && Expanded(g, q, outermost, depth, d)
    requires forall t :: t in depth ==> t in depth1 && depth1[t] == depth[t]
    ensures Expanded(g, q, outermost, depth1, d)
  {
    hide Fits, Closed;
  }

  lemma ExpandedNow(g: Grammar, q: nat, u: Trail, queue: seq<Trail>, depth: map<nat, nat>,
                    queue1: seq<Trail>, depth1: map<nat, nat>, added: seq<Trail>, outermost: bool)
    requires Closed(g) && q < |g.states| && u.match_ < |g.states| && Grown(g, q, u, queue, depth, queue1, depth1, added)
    requires forall t :: t in depth ==> depth[t] <= |Path(u)| + 1
    requires forall t :: Fits(g, u.match_, t, outermost) ==> t in depth1
    ensures Expanded(g, u.match_, outermost, depth1, |Path(u)| + 1)
  {
    hide Fits, Closed, Good, InQueue, Path;
  }

  /** No type has been met further away than one wrapper more than the first of the queue. */
  lemma MetSoFar(g: Grammar, q: nat, target: nat, queue: seq<Trail>, depth: map<nat, nat>, done: set<nat>)
    requires Closed(g) && q < |g.states| && Searching(g, q, target, queue, depth, done) && queue != []
    ensures forall t :: t in depth ==> depth[t] <= |Path(queue[0])| + 1
    ensures forall t :: t in depth && depth[t] < |Path(queue[0])| ==> t in done
  {
    hide Fits, Closed, Good, Path, MatchType, Expanded;
    forall t | t in depth
      ensures depth[t] <= |Path(queue[0])| + 1 && (depth[t] < |Path(queue[0])| ==> t in done)
    {
      if t !in done {
        var k :| 0 <= k < |queue| && queue[k].Via? && queue[k].typ == t;
        assert depth[queue[k].typ] == |Path(queue[k])|;
      }
    }
  }

  /** The first of the queue moves to those done with, once what fits inside it has been met. */
  lemma NextDone(g: Grammar, q: nat, target: nat, queue: seq<Trail>, depth: map<nat, nat>, done: set<nat>,
                 queue1: seq<Trail>, depth1: map<nat, nat>, added: seq<Trail>)
    requires Closed(g) && q < |g.states| && Searching(g, q, target, queue, depth, done) && queue != []
    requires Grown(g, q, queue[0], queue[1..], depth, queue1, depth1, added)
    requires var u := queue[0];
             && Good(g, q, u) && u.match_ < |g.states| && MatchType(g, u.match_, target).None?
             && forall t :: Fits(g, u.match_, t, u.Root?) ==> t in depth1
    ensures queue[0].Via? && Searching(g, q, target, queue1, depth1, done + {queue[0].typ})
  {
    hide Closed, Fits, MatchType, Expanded, Path, Good, InQueue, Ordered;
    var u := queue[0];
    var done1 := done + {u.typ};
    assert u.typ in depth && depth[u.typ] == |Path(u)|;
    LastOf(g, q, u);
    QueueOrder(queue, added);
    NowQueued(g, q, queue, depth, queue1, depth1, added);
    MetSoFar(g, q, target, queue, depth, done);
    assert !u.Root?;
    ExpandedNow(g, q, u, queue[1..], depth, queue1, depth1, added, false);
    ExpandedMore(g, q, true, depth, depth1, 1);
    forall t | t in depth1 ensures t < |g.types| && (t in done1 || InQueue(queue1, t)) {
      StillQueued(g, q, queue, depth, queue1, depth1, added, done, t);
    }
    forall t | t in done1 ensures Finished(g, target, queue1, depth1, t) {
      if t in done {
        assert Finished(g, target, queue, depth, t);
        InnerInside(g, t);
        ExpandedMore(g, Inner(g, t), false, depth, depth1, depth[t] + 1);
      }
    }
  }

  lemma InnerInside(g: Grammar, t: nat)
    requires Closed(g) && t < |g.types|
    ensures Inner(g, t) < |g.states|
  {
  }

  lemma LastOf(g: Grammar, q: nat, u: Trail)
    requires Closed(g) && q < |g.states| && Good(g, q, u) && u.Via?
    ensures u.typ < |g.types| && u.match_ == Inner(g, u.typ)
  {
  }

  /** The shortest chain of wrappers inside which a node of the target type may come, or nothing when there is none. */
  method ComputeWrapping(g: Grammar, q: nat, target: nat) returns (r: Option<seq<nat>>)
    requires Closed(g) && q < |g.states|
    ensures r.Some? ==> Wraps(g, q, r.value, target)
    ensures r.Some? ==> forall chain: seq<nat> :: Wraps(g, q, chain, target) ==> |r.value| <= |chain|
    ensures r.None? ==> forall chain: seq<nat> :: !Wraps(g, q, chain, target)
  {
    hide Closed, Fits, MatchType, Grown, Searching, Path, Good, Leads, Wraps;
    var queue: seq<Trail>, seen: set<nat> := [Root(q)], {};
    ghost var depth: map<nat, nat>, done: set<nat>, atRoot := map[], {}, true;
    RootGood(g, q);
    while queue != []
      invariant atRoot ==> queue == [Root(q)] && depth == map[] && done == {}
      invariant !atRoot ==> Searching(g, q, target, queue, depth, done)
      invariant seen == depth.Keys
      invariant forall t :: t in depth ==> t < |g.types|
      decreases |g.types| - |seen|, |queue|
    {
      var u := queue[0];
      if !atRoot {
        FirstGood(g, q, target, queue, depth, done);
      }
      if MatchType(g, u.match_, target).Some? {
        var o := TypesOf(u);
        GoodWraps(g, q, u, target);
        forall chain: seq<nat> | |chain| < |o| ensures !Wraps(g, q, chain, target) {
          if !atRoot {
            MetSoFar(g, q, target, queue, depth, done);
            NoneNearer(g, q, target, queue, depth, done, chain, |o|);
          }
        }
        return Some(o);
      }
      ghost var before, depth0, added, seen0 := queue, depth, [], seen;
      queue, seen, depth, added := Expand(g, q, u, queue[1..], seen, depth);
      GrownSeen(g, q, u, before[1..], depth0, queue, depth, added);
      assert forall t :: t in depth ==> t < |g.types|;
      DepthBound(g, depth);
      if atRoot {
        assert before[1..] == [];
        RootDone(g, q, target, queue, depth, added);
      } else {
        NextDone(g, q, target, before, depth0, done, queue, depth, added);
        done := done + {u.typ};
      }
      atRoot := false;
    }
    forall chain: seq<nat> ensures !Wraps(g, q, chain, target) {
      AllDone(g, q, target, depth, done);
      NoneNearer(g, q, target, queue, depth, done, chain, |chain| + 1);
    }
    r := None;
  }
}
