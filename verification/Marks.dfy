/**
  Sets of marks: kept in the order of their ranks, and free of marks that
  exclude each other.
 */
module Marks {
  datatype Mark = Mark(typ: nat, attrs: nat)

  /** What a schema says of mark types: their ranks, and which exclude which. */
  datatype MarkTypes = MarkTypes(rank: nat -> int, excludes: (nat, nat) -> bool)

  predicate Clash(ts: MarkTypes, a: Mark, b: Mark) {
    ts.excludes(a.typ, b.typ) || ts.excludes(b.typ, a.typ)
  }

  predicate Ranked(ts: MarkTypes, e: seq<Mark>) {
    forall j, k :: 0 <= j < k < |e| ==> ts.rank(e[j].typ) <= ts.rank(e[k].typ)
  }

  /** In order, without repetition, and with no two marks of which one excludes the other. */
  predicate Proper(ts: MarkTypes, e: seq<Mark>) {
    && Ranked(ts, e)
    && forall j, k :: 0 <= j < k < |e| ==> e[j] != e[k] && !Clash(ts, e[j], e[k])
  }

  /** A mark already in the set, or excluded by one that it does not exclude itself. */
  predicate Blocked(ts: MarkTypes, m: Mark, e: seq<Mark>) {
    exists k :: 0 <= k < |e| && (e[k] == m || (ts.excludes(e[k].typ, m.typ) && !ts.excludes(m.typ, e[k].typ)))
  }

  predicate Outranks(ts: MarkTypes, m: Mark, e: seq<Mark>) {
    exists k :: 0 <= k < |e| && ts.rank(e[k].typ) > ts.rank(m.typ) && !ts.excludes(m.typ, e[k].typ)
  }

  /** The marks that `m` does not exclude, with `m` before the first that ranks higher, if one does. */
  function Placed(ts: MarkTypes, m: Mark, e: seq<Mark>): seq<Mark> {
    if e == [] then []
    else
      var n := |e| - 1;
      if ts.excludes(m.typ, e[n].typ) then Placed(ts, m, e[..n])
      else if ts.rank(e[n].typ) > ts.rank(m.typ) && !Outranks(ts, m, e[..n]) then Placed(ts, m, e[..n]) + [m] + [e[n]]
      else Placed(ts, m, e[..n]) + [e[n]]
  }

  function Added(ts: MarkTypes, m: Mark, e: seq<Mark>): seq<Mark> {
    if Blocked(ts, m, e) then e
    else if Outranks(ts, m, e) then Placed(ts, m, e)
    else Placed(ts, m, e) + [m]
  }

  /** Adds a mark; the copy is only made once it differs from the set. */
  method AddToSet(ts: MarkTypes, m: Mark, e: seq<Mark>) returns (r: seq<Mark>)
    ensures r == Added(ts, m, e)
  {
    hide Blocked, Outranks, Placed;
    var copy: seq<Mark>, copied, placed := [], false, false;
    NoMarks(ts, m);
    var u := 0;
    while u < |e|
      invariant u <= |e| && !Blocked(ts, m, e[..u])
      invariant placed <==> Outranks(ts, m, e[..u])
      invariant (if copied then copy else e[..u]) == Placed(ts, m, e[..u])
    {
      var i := e[u];
      NextMark(ts, m, e, u);
      PlacedNext(ts, m, e, u);
      if i == m {
        return e;
      }
      if ts.excludes(m.typ, i.typ) {
        if !copied {
          copy, copied := e[..u], true;
        }
      } else {
        if ts.excludes(i.typ, m.typ) {
          return e;
        }
        if !placed && ts.rank(i.typ) > ts.rank(m.typ) {
          if !copied {
            copy, copied := e[..u], true;
          }
          copy, placed := copy + [m], true;
        }
        if copied {
          copy := copy + [i];
        }
      }
      u := u + 1;
    }
    assert e[..u] == e;
    if !copied {
      copy := e;
    }
    if !placed {
      copy := copy + [m];
    }
    r := copy;
  }

  lemma NoMarks(ts: MarkTypes, m: Mark)
    ensures !Blocked(ts, m, []) && !Outranks(ts, m, []) && Placed(ts, m, []) == []
  {
  }

  lemma PlacedNext(ts: MarkTypes, m: Mark, e: seq<Mark>, u: nat)
    requires u < |e|
    ensures Placed(ts, m, e[..u + 1]) == Placed(ts, m, e[..u]) +
      if ts.excludes(m.typ, e[u].typ) then []
      else if ts.rank(e[u].typ) > ts.rank(m.typ) && !Outranks(ts, m, e[..u]) then [m, e[u]]
      else [e[u]]
  {
    hide Outranks;
    assert e[..u + 1][..u] == e[..u];
  }

  lemma NextMark(ts: MarkTypes, m: Mark, e: seq<Mark>, u: nat)
    requires u < |e|
    ensures Blocked(ts, m, e[..u + 1]) <==>
      Blocked(ts, m, e[..u]) || e[u] == m || (ts.excludes(e[u].typ, m.typ) && !ts.excludes(m.typ, e[u].typ))
    ensures Blocked(ts, m, e[..u + 1]) ==> Blocked(ts, m, e)
    ensures Outranks(ts, m, e[..u + 1]) <==>
      Outranks(ts, m, e[..u]) || (ts.rank(e[u].typ) > ts.rank(m.typ) && !ts.excludes(m.typ, e[u].typ))
  {
    var a, b := e[..u], e[..u + 1];
    assert forall k :: 0 <= k < u ==> a[k] == b[k] == e[k];
    assert b[u] == e[u];
  }

  // ----------------------------------------------------------------------
  // What adding keeps
  // ----------------------------------------------------------------------

  /** The marks of the outcome: those that were spared, and the new one where something outranks it. */
  lemma {:induction false} PlacedMarks(ts: MarkTypes, m: Mark, e: seq<Mark>, x: Mark)
    ensures x in Placed(ts, m, e) <==>
      (x in e && !ts.excludes(m.typ, x.typ)) || (x == m && Outranks(ts, m, e))
  {
    if e != [] {
      var n := |e| - 1;
      PlacedMarks(ts, m, e[..n], x);
      assert e[..n + 1] == e;
      NextMark(ts, m, e, n);
      assert x in e <==> x in e[..n] || x == e[n];
    }
  }

  /**
    A mark that is there already, or that some mark excludes which it does not exclude itself, changes nothing; any
    other is in the outcome, with exactly the marks that it does not exclude.
   */
  lemma AddedMarks(ts: MarkTypes, m: Mark, e: seq<Mark>, x: Mark)
    ensures if m in e || exists y :: y in e && ts.excludes(y.typ, m.typ) && !ts.excludes(m.typ, y.typ)
            then Added(ts, m, e) == e
            else x in Added(ts, m, e) <==> x == m || (x in e && !ts.excludes(m.typ, x.typ))
  {
    hide Outranks, Placed;
    PlacedMarks(ts, m, e, x);
  }

  /** Neither repeats nor clashes, and ranks no higher than, anything in the set. */
  predicate Follows(ts: MarkTypes, e: seq<Mark>, x: Mark) {
    forall k :: 0 <= k < |e| ==> e[k] != x && !Clash(ts, e[k], x) && ts.rank(e[k].typ) <= ts.rank(x.typ)
  }

  lemma ProperNext(ts: MarkTypes, e: seq<Mark>, x: Mark)
    requires Proper(ts, e) && Follows(ts, e, x)
    ensures Proper(ts, e + [x])
  {
  }

  lemma {:induction false} PlacedProper(ts: MarkTypes, m: Mark, e: seq<Mark>)
    requires Proper(ts, e) && !Blocked(ts, m, e)
    ensures Proper(ts, Placed(ts, m, e)) && (!Outranks(ts, m, e) ==> Follows(ts, Placed(ts, m, e), m))
  {
    hide Clash;
    if e != [] {
      var n := |e| - 1;
      var before, last := e[..n], e[n];
      assert e[..n + 1] == e;
      NextMark(ts, m, e, n);
      PlacedProper(ts, m, before);
      if !ts.excludes(m.typ, last.typ) {
        NotClashing(ts, m, last);
        if ts.rank(last.typ) > ts.rank(m.typ) && !Outranks(ts, m, before) {
          ProperNext(ts, Placed(ts, m, before), m);
        }
        LastFollows(ts, m, e);
        ProperNext(ts, Placed(ts, m, e)[..|Placed(ts, m, e)| - 1], last);
        assert Placed(ts, m, e) == Placed(ts, m, e)[..|Placed(ts, m, e)| - 1] + [last];
      }
    }
  }

  lemma NotClashing(ts: MarkTypes, m: Mark, x: Mark)
    requires !ts.excludes(m.typ, x.typ) && !ts.excludes(x.typ, m.typ)
    ensures !Clash(ts, m, x) && !Clash(ts, x, m)
  {
  }

  /** The last mark, if it is spared, follows all that is placed before it. */
  lemma LastFollows(ts: MarkTypes, m: Mark, e: seq<Mark>)
    requires e != [] && Proper(ts, e) && !Blocked(ts, m, e) && !ts.excludes(m.typ, e[|e| - 1].typ)
    ensures var p := Placed(ts, m, e);
            p != [] && p[|p| - 1] == e[|e| - 1] && Follows(ts, p[..|p| - 1], e[|e| - 1])
  {
    var n := |e| - 1;
    var p, last := Placed(ts, m, e), e[n];
    var init := p[..|p| - 1];
    assert e[n] != m && !ts.excludes(last.typ, m.typ);
    forall k | 0 <= k < |init| ensures init[k] != last && !Clash(ts, init[k], last) && ts.rank(init[k].typ) <= ts.rank(last.typ) {
      InInit(ts, m, e, init[k]);
    }
  }

  lemma InInit(ts: MarkTypes, m: Mark, e: seq<Mark>, x: Mark)
    requires e != [] && Proper(ts, e) && !ts.excludes(m.typ, e[|e| - 1].typ)
    requires var p := Placed(ts, m, e); x in p[..|p| - 1]
    ensures x in e[..|e| - 1] || (x == m && ts.rank(m.typ) <= ts.rank(e[|e| - 1].typ))
  {
    var n := |e| - 1;
    PlacedMarks(ts, m, e[..n], x);
    if Outranks(ts, m, e[..n]) {
      var k :| 0 <= k < n && ts.rank(e[..n][k].typ) > ts.rank(m.typ) && !ts.excludes(m.typ, e[..n][k].typ);
      assert ts.rank(e[k].typ) <= ts.rank(e[n].typ);
    }
    assert Placed(ts, m, e)[..|Placed(ts, m, e)| - 1] ==
      if ts.rank(e[n].typ) > ts.rank(m.typ) && !Outranks(ts, m, e[..n]) then Placed(ts, m, e[..n]) + [m] else Placed(ts, m, e[..n]);
  }

  /** Adding a mark to a proper set makes a proper set, whatever excludes what. */
  lemma AddedProper(ts: MarkTypes, m: Mark, e: seq<Mark>)
    requires Proper(ts, e)
    ensures Proper(ts, Added(ts, m, e))
  {
    hide Proper, Follows, Blocked, Outranks, Placed;
    if !Blocked(ts, m, e) {
      PlacedProper(ts, m, e);
      if !Outranks(ts, m, e) {
        ProperNext(ts, Placed(ts, m, e), m);
      }
    }
  }

  /** Adding it again changes nothing. */
  lemma AddingAgain(ts: MarkTypes, m: Mark, e: seq<Mark>)
    ensures Added(ts, m, Added(ts, m, e)) == Added(ts, m, e)
  {
    hide Placed, Outranks;
    var r := Added(ts, m, e);
    if !Blocked(ts, m, e) {
      AddedMarks(ts, m, e, m);
      var k :| 0 <= k < |r| && r[k] == m;
      assert Blocked(ts, m, r);
    }
  }
}
