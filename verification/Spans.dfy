/**
  Overlapping decorations: sorted spans are split, while they are scanned,
  until any two that overlap are equal.
 */
module Spans {
  datatype Span<+T> = Span(typ: T, from: int, until: int)

  function Compare<T>(a: Span<T>, b: Span<T>): int {
    if a.from != b.from then a.from - b.from else a.until - b.until
  }

  predicate Sorted<T>(e: seq<Span<T>>) {
    && (forall k :: 0 <= k < |e| ==> e[k].from <= e[k].until)
    && (forall k, j :: 0 <= k < j < |e| ==> Compare(e[k], e[j]) <= 0)
  }

  function Insert<T>(e: seq<T>, p: nat, s: T): seq<T>
    requires p <= |e|
  {
    e[..p] + [s] + e[p..]
  }

  // ----------------------------------------------------------------------
  // What splitting conserves
  // ----------------------------------------------------------------------

  function Sum<T>(e: seq<Span<T>>, f: Span<T> -> int): int {
    if e == [] then 0 else Sum(e[..|e| - 1], f) + f(e[|e| - 1])
  }

  /** The places where some span begins or ends. */
  function Boundaries<T>(e: seq<Span<T>>): set<int> {
    if e == [] then {} else Boundaries(e[..|e| - 1]) + {e[|e| - 1].from, e[|e| - 1].until}
  }

  /** Cutting a span in two at one of the boundaries adds nothing to the measure and takes nothing away. */
  ghost predicate Additive<T(!new)>(at: set<int>, f: Span<T> -> int) {
    forall typ: T, a: int, b: int, c: int :: a < b < c && b in at ==>
      f(Span(typ, a, c)) == f(Span(typ, a, b)) + f(Span(typ, b, c))
  }

  /** The boundaries are the same, and so is every measure that is additive at them. */
  ghost predicate Conserves<T(!new)>(e: seq<Span<T>>, r: seq<Span<T>>) {
    && Boundaries(r) == Boundaries(e)
    && forall f: Span<T> -> int :: Additive(Boundaries(e), f) ==> Sum(r, f) == Sum(e, f)
  }

  lemma {:induction false} SumSplit<T>(x: seq<Span<T>>, y: seq<Span<T>>, f: Span<T> -> int)
    ensures Sum(x + y, f) == Sum(x, f) + Sum(y, f)
  {
    if y == [] {
      assert x + y == x;
    } else {
      SumSplit(x, y[..|y| - 1], f);
      assert (x + y)[..|x + y| - 1] == x + y[..|y| - 1];
    }
  }

  lemma SumOne<T>(s: Span<T>, f: Span<T> -> int)
    ensures Sum([s], f) == f(s)
  {
    assert [s][..0] == [];
  }

  lemma SumInsert<T>(e: seq<Span<T>>, p: nat, s: Span<T>, f: Span<T> -> int)
    requires p <= |e|
    ensures Sum(Insert(e, p, s), f) == Sum(e, f) + f(s)
  {
    hide Sum;
    SumSplit(e[..p] + [s], e[p..], f);
    SumSplit(e[..p], [s], f);
    SumSplit(e[..p], e[p..], f);
    SumOne(s, f);
    assert e == e[..p] + e[p..];
  }

  lemma SumUpdate<T>(e: seq<Span<T>>, k: nat, s: Span<T>, f: Span<T> -> int)
    requires k < |e|
    ensures Sum(e[k := s], f) == Sum(e, f) - f(e[k]) + f(s)
  {
    hide Sum;
    var rest := e[..k] + e[k + 1..];
    assert e[k := s] == Insert(rest, k, s);
    assert e == Insert(rest, k, e[k]);
    SumInsert(rest, k, s, f);
    SumInsert(rest, k, e[k], f);
  }

  lemma {:induction false} BoundariesSplit<T>(x: seq<Span<T>>, y: seq<Span<T>>)
    ensures Boundaries(x + y) == Boundaries(x) + Boundaries(y)
  {
    if y == [] {
      assert x + y == x;
    } else {
      BoundariesSplit(x, y[..|y| - 1]);
      assert (x + y)[..|x + y| - 1] == x + y[..|y| - 1];
    }
  }

  lemma BoundariesInsert<T>(e: seq<Span<T>>, p: nat, s: Span<T>)
    requires p <= |e|
    ensures Boundaries(Insert(e, p, s)) == Boundaries(e) + {s.from, s.until}
  {
    hide Boundaries;
    BoundariesSplit(e[..p] + [s], e[p..]);
    BoundariesSplit(e[..p], [s]);
    BoundariesSplit(e[..p], e[p..]);
    assert e == e[..p] + e[p..];
    BoundariesOne(s);
  }

  lemma BoundariesOne<T>(s: Span<T>)
    ensures Boundaries([s]) == {s.from, s.until}
  {
    assert [s][..0] == [];
  }

  lemma BoundariesUpdate<T>(e: seq<Span<T>>, k: nat, s: Span<T>)
    requires k < |e|
    ensures Boundaries(e[k := s]) + {e[k].from, e[k].until} == Boundaries(e) + {s.from, s.until}
    ensures {e[k].from, e[k].until} <= Boundaries(e) && {s.from, s.until} <= Boundaries(e[k := s])
  {
    hide Boundaries;
    var rest := e[..k] + e[k + 1..];
    assert e[k := s] == Insert(rest, k, s);
    assert e == Insert(rest, k, e[k]);
    BoundariesInsert(rest, k, s);
    BoundariesInsert(rest, k, e[k]);
  }

  /** Replacing one span by its two halves conserves what `Conserves` says. */
  lemma HalvesConserve<T(!new)>(e: seq<Span<T>>, k: nat, cut: int, near: Span<T>, far: Span<T>, p: nat)
    requires k < |e| && e[k].from < cut < e[k].until && cut in Boundaries(e) && p <= |e|
    requires near.typ == far.typ == e[k].typ
    requires (near.from, near.until, far.from, far.until) == (e[k].from, cut, cut, e[k].until)
    ensures Conserves(e, Insert(e[k := near], p, far))
  {
    hide Sum, Boundaries, Additive;
    BoundariesUpdate(e, k, near);
    BoundariesInsert(e[k := near], p, far);
    forall f: Span<T> -> int | Additive(Boundaries(e), f)
      ensures Sum(Insert(e[k := near], p, far), f) == Sum(e, f)
    {
      SumUpdate(e, k, near, f);
      SumInsert(e[k := near], p, far, f);
      AdditiveAt(Boundaries(e), f, e[k], cut);
    }
  }

  lemma AdditiveAt<T(!new)>(at: set<int>, f: Span<T> -> int, s: Span<T>, cut: int)
    requires Additive(at, f) && s.from < cut < s.until && cut in at
    ensures f(s) == f(Span(s.typ, s.from, cut)) + f(Span(s.typ, cut, s.until))
  {
    assert s == Span(s.typ, s.from, s.until);
  }

  lemma ConservesAgain<T(!new)>(a: seq<Span<T>>, b: seq<Span<T>>, c: seq<Span<T>>)
    requires Conserves(a, b) && Conserves(b, c)
    ensures Conserves(a, c)
  {
    hide Sum, Additive, Boundaries;
  }

  lemma ConservesItself<T(!new)>(e: seq<Span<T>>)
    ensures Conserves(e, e)
  {
  }

  /** The boundaries strictly inside a stretch. */
  function Inside(at: set<int>, a: int, c: int): set<int> {
    set b | b in at && a < b < c
  }

  /** Into how many pieces the boundaries cut a span. */
  function Pieces<T>(at: set<int>): Span<T> -> int {
    (s: Span<T>) => if s.from < s.until then |Inside(at, s.from, s.until)| + 1 else 1
  }

  lemma PiecesAdd<T(!new)>(at: set<int>)
    ensures Additive(at, Pieces<T>(at))
  {
    forall typ: T, a: int, b: int, c: int | a < b < c && b in at
      ensures Pieces<T>(at)(Span(typ, a, c)) == Pieces<T>(at)(Span(typ, a, b)) + Pieces<T>(at)(Span(typ, b, c))
    {
      var l, r := Inside(at, a, b), Inside(at, b, c);
      assert Inside(at, a, c) == l + {b} + r;
      assert l !! {b} && (l + {b}) !! r;
    }
  }

  lemma {:induction false} PiecesBound<T>(e: seq<Span<T>>, at: set<int>)
    ensures |e| <= Sum(e, Pieces(at))
  {
    if e != [] {
      PiecesBound(e[..|e| - 1], at);
    }
  }

  /** However far the spans have been cut, there are no more of them than pieces in the end. */
  lemma LengthBound<T(!new)>(e: seq<Span<T>>, r: seq<Span<T>>)
    requires Conserves(e, r)
    ensures |r| <= Sum(e, Pieces(Boundaries(e)))
  {
    hide Sum, Boundaries, Pieces, Additive;
    PiecesAdd<T>(Boundaries(e));
    PiecesBound(r, Boundaries(e));
  }

  // ----------------------------------------------------------------------
  // Inserting in order
  // ----------------------------------------------------------------------

  /** Inserts a span into sorted ones, at or after place `i`. */
  method InsertAhead<T>(e: seq<Span<T>>, i: nat, s: Span<T>) returns (r: seq<Span<T>>, ghost p: nat)
    requires Sorted(e) && i <= |e| && s.from <= s.until
    requires forall k :: 0 <= k < i ==> Compare(e[k], s) <= 0
    ensures i <= p <= |e| && r == Insert(e, p, s) && Sorted(r)
  {
    var k := i;
    while k < |e| && Compare(s, e[k]) > 0
      invariant i <= k <= |e|
      invariant forall j :: 0 <= j < k ==> Compare(e[j], s) <= 0
    {
      k := k + 1;
    }
    p := k;
    r := e[..k] + [s] + e[k..];
    InsertedSorted(e, p, s);
  }

  lemma InsertedSorted<T>(e: seq<Span<T>>, p: nat, s: Span<T>)
    requires Sorted(e) && p <= |e| && s.from <= s.until
    requires forall k :: 0 <= k < p ==> Compare(e[k], s) <= 0
    requires p < |e| ==> Compare(s, e[p]) <= 0
    ensures Sorted(Insert(e, p, s))
  {
    forall k | p <= k < |e| ensures Compare(s, e[k]) <= 0 {
    }
  }

  // ----------------------------------------------------------------------
  // What the scan keeps
  // ----------------------------------------------------------------------

  /** `b`, which does not come before `a`, covers the same as `a` or begins after it. */
  predicate Apart<T>(a: Span<T>, b: Span<T>) {
    a.from < a.until ==> (b.from == a.from && b.until == a.until) || b.from >= a.until
  }

  /** Sorted, and no two partly overlap. */
  predicate Split<T>(e: seq<Span<T>>) {
    Sorted(e) && forall k, j :: 0 <= k < j < |e| ==> Apart(e[k], e[j])
  }

  /** As `Apart`, but `b` may still be longer than `a`. */
  predicate Beyond<T>(a: Span<T>, b: Span<T>) {
    a.from < a.until ==> (b.from == a.from && b.until >= a.until) || b.from >= a.until
  }

  predicate Begins<T>(e: seq<Span<T>>, n: nat, at: int) {
    exists k :: n <= k < |e| && e[k].from == at
  }

  /** Whatever is still longer than `a` will be cut where `a` was, for a span begins there. */
  predicate Pending<T>(e: seq<Span<T>>, n: nat, a: Span<T>) {
    a.from < a.until ==>
      Begins(e, n, a.until) || forall k :: n <= k < |e| ==> e[k].from == a.from ==> e[k].until == a.until
  }

  predicate AllBeyond<T>(e: seq<Span<T>>, n: nat, a: Span<T>) {
    forall k :: n <= k < |e| ==> Beyond(a, e[k])
  }

  /** The spans before `n` are done with each other and with what follows. */
  predicate Scanned<T>(e: seq<Span<T>>, n: nat)
    requires n <= |e|
  {
    && (forall k, j :: 0 <= k < j < n ==> Apart(e[k], e[j]))
    && (forall k :: 0 <= k < n ==> AllBeyond(e, n, e[k]) && Pending(e, n, e[k]))
  }

  /** One more span inserted behind `n`, and one cut there, leaves what is before `n` as it was. */
  lemma CutKeeps<T>(e: seq<Span<T>>, n: nat, k: nat, near: Span<T>, far: Span<T>, p: nat, a: Span<T>)
    requires n <= k < p <= |e| && near.from == e[k].from
    requires AllBeyond(e, n, a) && Pending(e, n, a)
    requires Beyond(a, near) && Beyond(a, far)
    requires a.from < a.until ==> far.from > a.from
    requires near.from == a.from ==> Begins(e, n, a.until) || near.until == a.until || a.from >= a.until
    ensures var r := Insert(e[k := near], p, far);
            AllBeyond(r, n, a) && Pending(r, n, a)
  {
    var r := Insert(e[k := near], p, far);
    if Begins(e, n, a.until) {
      var j :| n <= j < |e| && e[j].from == a.until;
      assert r[if j < p then j else j + 1].from == a.until;
    }
  }

  /** `near` and `far` in place of the span at `k`, and everything still sorted. */
  lemma NearSorted<T>(e: seq<Span<T>>, k: nat, near: Span<T>)
    requires Sorted(e) && k < |e| && near.from == e[k].from && near.from <= near.until <= e[k].until
    requires forall j :: 0 <= j < k ==> Compare(e[j], near) <= 0
    ensures Sorted(e[k := near])
  {
  }

  /** A span that shares its beginning with the one at `n` is cut where that one ends. */
  lemma CutRest<T>(e: seq<Span<T>>, n: nat, u: nat, near: Span<T>, far: Span<T>, p: nat)
    requires Sorted(e) && n < u < p <= |e| && Scanned(e, n)
    requires e[n].from < e[n].until < e[u].until && e[u].from == e[n].from
    requires (near.from, near.until, far.from, far.until) == (e[n].from, e[n].until, e[n].until, e[u].until)
    ensures Scanned(Insert(e[u := near], p, far), n)
  {
    hide Sorted, AllBeyond, Pending;
    var r := Insert(e[u := near], p, far);
    forall k | 0 <= k < n ensures AllBeyond(r, n, e[k]) && Pending(r, n, e[k]) {
      AgainstFirst(e, n, e[k]);
      CutKeeps(e, n, u, near, far, p, e[k]);
    }
  }

  lemma AgainstFirst<T>(e: seq<Span<T>>, n: nat, a: Span<T>)
    requires n < |e| && AllBeyond(e, n, a) && Pending(e, n, a)
    ensures Beyond(a, e[n])
    ensures e[n].from == a.from && a.from < a.until ==> Begins(e, n, a.until) || e[n].until == a.until
  {
  }

  /** The span at `n` is cut where a later one begins inside it. */
  lemma CutFirst<T>(e: seq<Span<T>>, n: nat, u: nat, near: Span<T>, far: Span<T>, p: nat)
    requires Sorted(e) && n < u <= p <= |e| && u < |e| && Scanned(e, n)
    requires e[n].from < e[u].from < e[n].until
    requires (near.from, near.until, far.from, far.until) == (e[n].from, e[u].from, e[u].from, e[n].until)
    ensures Scanned(Insert(e[n := near], p, far), n)
    ensures forall k :: 0 <= k < n ==> Compare(e[k], near) <= 0
  {
    hide AllBeyond, Pending;
    var r := Insert(e[n := near], p, far);
    forall k | 0 <= k < n
      ensures AllBeyond(r, n, e[k]) && Pending(r, n, e[k]) && Compare(e[k], near) <= 0
    {
      AgainstFirst(e, n, e[k]);
      AgainstLater(e, n, u, e[k]);
      CutKeeps(e, n, n, near, far, p, e[k]);
    }
  }

  lemma AgainstLater<T>(e: seq<Span<T>>, n: nat, u: nat, a: Span<T>)
    requires n <= u < |e| && AllBeyond(e, n, a)
    ensures Beyond(a, e[u])
  {
  }

  /** The span at `n` is done with when all that share its beginning reach as far, or are about to be cut where it ends. */
  lemma Advance<T>(e: seq<Span<T>>, n: nat)
    requires Sorted(e) && n < |e| && Scanned(e, n)
    requires AllBeyond(e, n + 1, e[n]) && Pending(e, n + 1, e[n])
    requires forall k :: n <= k < |e| && e[k].from != e[n].from ==> e[k].from >= e[n].until
    ensures Scanned(e, n + 1)
  {
    forall k | 0 <= k < n
      ensures Apart(e[k], e[n]) && AllBeyond(e, n + 1, e[k]) && Pending(e, n + 1, e[k])
    {
      var a := e[k];
      assert Beyond(a, e[n]) && Pending(e, n, a);
      if Begins(e, n, a.until) {
        var j :| n <= j < |e| && e[j].from == a.until;
        assert j > n ==> Begins(e, n + 1, a.until);
      }
    }
  }

  // ----------------------------------------------------------------------
  // The scan
  // ----------------------------------------------------------------------

  /** The spans from `n` to before `u` cover the same as `r`. */
  predicate Alike<T>(e: seq<Span<T>>, n: nat, u: nat, r: Span<T>)
    requires n <= u <= |e|
  {
    forall k :: n <= k < u ==> e[k].from == r.from && e[k].until == r.until
  }

  /** Cuts what begins with the span at `n` to its length, and that span where the next one begins inside it. */
  method CutAt<T(!new)>(e0: seq<Span<T>>, n: nat, ghost start: seq<Span<T>>) returns (e: seq<Span<T>>)
    requires Sorted(e0) && n < |e0| && Scanned(e0, n) && Conserves(start, e0) && e0[n].from < e0[n].until
    ensures Sorted(e) && n < |e| && Scanned(e, n + 1) && Conserves(start, e)
  {
    hide Sorted, Scanned, Conserves, Boundaries, Sum, Pieces;
    e := e0;
    var r := e[n];
    var u := n + 1;
    LengthBound(start, e);
    while u < |e|
      invariant n < u <= |e| && Sorted(e) && Scanned(e, n) && Conserves(start, e) && e[n] == r
      invariant Alike(e, n, u, r)
      invariant |e| <= Sum(start, Pieces(Boundaries(start)))
      decreases Sum(start, Pieces(Boundaries(start))) - u
    {
      var i := e[u];
      if i.from == r.from {
        if i.until != r.until {
          e := CutLonger(e, n, u, start);
          LengthBound(start, e);
        }
        u := u + 1;
      } else {
        if i.from < r.until {
          e := CutShorter(e, n, u, start);
        } else {
          NotInside(e, n, u);
        }
        return;
      }
    }
    NotInside(e, n, u);
  }

  method CutLonger<T(!new)>(e: seq<Span<T>>, n: nat, u: nat, ghost start: seq<Span<T>>) returns (r: seq<Span<T>>)
    requires Sorted(e) && n < u < |e| && Scanned(e, n) && Conserves(start, e)
    requires e[n].from < e[n].until != e[u].until && e[u].from == e[n].from && Alike(e, n, u, e[n])
    ensures Sorted(r) && u < |r| && Scanned(r, n) && Conserves(start, r) && r[n] == e[n] && Alike(r, n, u + 1, e[n])
  {
    hide Scanned, Conserves, Boundaries;
    assert Compare(e[n], e[u]) <= 0;
    var near, far := Span(e[u].typ, e[u].from, e[n].until), Span(e[u].typ, e[n].until, e[u].until);
    NearSorted(e, u, near);
    var e1 := e[u := near];
    ghost var p;
    r, p := InsertAhead(e1, u + 1, far);
    CutRest(e, n, u, near, far, p);
    BoundariesUpdate(e, n, e[n]);
    HalvesConserve(e, u, e[n].until, near, far, p);
    ConservesAgain(start, e, r);
  }

  method CutShorter<T(!new)>(e: seq<Span<T>>, n: nat, u: nat, ghost start: seq<Span<T>>) returns (r: seq<Span<T>>)
    requires Sorted(e) && n < u < |e| && Scanned(e, n) && Conserves(start, e) && Alike(e, n, u, e[n])
    requires e[n].from != e[u].from < e[n].until
    ensures Sorted(r) && n < |r| && Scanned(r, n + 1) && Conserves(start, r)
  {
    hide Scanned, Conserves, Boundaries;
    assert Compare(e[n], e[u]) <= 0;
    var near, far := Span(e[n].typ, e[n].from, e[u].from), Span(e[n].typ, e[u].from, e[n].until);
    CutFirst(e, n, u, near, far, |e|);
    NearSorted(e, n, near);
    var e1 := e[n := near];
    ghost var p;
    r, p := InsertAhead(e1, u, far);
    CutFirst(e, n, u, near, far, p);
    BoundariesUpdate(e, u, e[u]);
    HalvesConserve(e, n, e[u].from, near, far, p);
    ConservesAgain(start, e, r);
    FirstIsDone(e, n, u, near, far, p);
  }

  lemma FirstIsDone<T>(e: seq<Span<T>>, n: nat, u: nat, near: Span<T>, far: Span<T>, p: nat)
    requires Sorted(e) && n < u <= p <= |e| && u < |e| && Alike(e, n, u, e[n])
    requires e[n].from < e[u].from < e[n].until
    requires (near.from, near.until, far.from, far.until) == (e[n].from, e[u].from, e[u].from, e[n].until)
    requires var r := Insert(e[n := near], p, far); Sorted(r) && Scanned(r, n)
    ensures Scanned(Insert(e[n := near], p, far), n + 1)
  {
    hide Scanned;
    var r := Insert(e[n := near], p, far);
    assert r[p].from == near.until;
    assert Begins(r, n + 1, near.until);
    forall k | n < k < |r| ensures Beyond(near, r[k]) && (r[k].from != near.from ==> r[k].from >= near.until) {
      if k < u {
      } else if k < p {
        assert r[k] == e[k] && Compare(e[u], e[k]) <= 0;
      } else if k > p {
        assert r[k] == e[k - 1] && Compare(e[u], e[k - 1]) <= 0;
      }
    }
    Advance(r, n);
  }

  lemma NotInside<T>(e: seq<Span<T>>, n: nat, u: nat)
    requires Sorted(e) && n < u <= |e| && Scanned(e, n) && Alike(e, n, u, e[n])
    requires u < |e| ==> e[n].until <= e[u].from
    ensures Scanned(e, n + 1)
  {
    hide Scanned;
    forall k | u <= k < |e| ensures e[n].until <= e[k].from {
      assert k == u || Compare(e[u], e[k]) <= 0;
    }
    if e[n].from < e[n].until && u < |e| {
      assert e[u].from != e[n].from;
    }
    forall k | n <= k < |e| ensures e[k].from != e[n].from ==> e[k].from >= e[n].until {
    }
    Advance(e, n);
  }

  /** Splits sorted spans until any two that overlap cover the same. */
  method RemoveOverlap<T(!new)>(spans: seq<Span<T>>) returns (e: seq<Span<T>>)
    requires Sorted(spans)
    ensures Split(e) && Conserves(spans, e)
  {
    hide Sorted, Conserves, Boundaries, Sum, Pieces;
    e := spans;
    ConservesItself(spans);
    LengthBound(spans, e);
    var n := 0;
    while n < |e| - 1
      invariant n <= |e| && Sorted(e) && Scanned(e, n) && Conserves(spans, e)
      invariant |e| <= Sum(spans, Pieces(Boundaries(spans)))
      decreases Sum(spans, Pieces(Boundaries(spans))) - n
    {
      if e[n].from != e[n].until {
        SpanForward(e, n);
        e := CutAt(e, n, spans);
        LengthBound(spans, e);
      } else {
        EmptyIsDone(e, n);
      }
      n := n + 1;
    }
    if n < |e| {
      LastIsDone(e, n);
    }
  }

  lemma SpanForward<T>(e: seq<Span<T>>, n: nat)
    requires Sorted(e) && n < |e|
    ensures e[n].from <= e[n].until
  {
  }

  lemma EmptyIsDone<T>(e: seq<Span<T>>, n: nat)
    requires Sorted(e) && n < |e| && Scanned(e, n) && e[n].from == e[n].until
    ensures Scanned(e, n + 1)
  {
    hide Scanned;
    forall k | n <= k < |e| ensures e[k].from >= e[n].from {
      assert k == n || Compare(e[n], e[k]) <= 0;
    }
    Advance(e, n);
  }

  lemma LastIsDone<T>(e: seq<Span<T>>, n: nat)
    requires Sorted(e) && n == |e| - 1 && Scanned(e, n)
    ensures Scanned(e, n + 1)
  {
    hide Scanned;
    Advance(e, n);
  }

  // ----------------------------------------------------------------------
  // What comes out
  // ----------------------------------------------------------------------

  predicate Overlap<T>(a: Span<T>, b: Span<T>) {
    a.from < b.until && b.from < a.until
  }

  /** Two spans that are not empty overlap only if they cover the same, and no span begins or ends inside another. */
  lemma SplitIsDisjoint<T>(e: seq<Span<T>>, k: nat, j: nat)
    requires Split(e) && k < |e| && j < |e| && e[k].from < e[k].until
    ensures e[j].from < e[j].until && Overlap(e[k], e[j]) ==> e[j].from == e[k].from && e[j].until == e[k].until
    ensures !(e[k].from < e[j].from < e[k].until) && !(e[k].from < e[j].until < e[k].until)
  {
    if k < j {
      assert Apart(e[k], e[j]);
    } else if j < k {
      assert Apart(e[j], e[k]) && Compare(e[j], e[k]) <= 0;
    }
  }

  /** How many spans of one type cover the stretch from `x` to `x + 1`. */
  ghost function Cover<T>(typ: T, x: int): Span<T> -> int {
    (s: Span<T>) => if s.typ == typ && s.from <= x < s.until then 1 else 0
  }

  /** How many empty spans of one type lie at `x`. */
  ghost function Point<T>(typ: T, x: int): Span<T> -> int {
    (s: Span<T>) => if s.typ == typ && s.from == s.until == x then 1 else 0
  }

  /** Splitting leaves every stretch covered by as many spans of each type as before, and every empty span where it was. */
  lemma CoverageKept<T(!new)>(spans: seq<Span<T>>, e: seq<Span<T>>, typ: T, x: int)
    requires Conserves(spans, e)
    ensures Sum(e, Cover(typ, x)) == Sum(spans, Cover(typ, x))
    ensures Sum(e, Point(typ, x)) == Sum(spans, Point(typ, x))
  {
    hide Sum, Boundaries;
    assert Additive(Boundaries(spans), Cover(typ, x));
    assert Additive(Boundaries(spans), Point(typ, x));
  }

  lemma {:induction false} BoundaryOf<T>(e: seq<Span<T>>, b: int)
    requires b in Boundaries(e)
    ensures exists k :: 0 <= k < |e| && (e[k].from == b || e[k].until == b)
  {
    var n := |e| - 1;
    if b == e[n].from || b == e[n].until {
    } else {
      BoundaryOf(e[..n], b);
      var k :| 0 <= k < n && (e[..n][k].from == b || e[..n][k].until == b);
      assert e[k] == e[..n][k];
    }
  }

  lemma {:induction false} WholePieces<T>(e: seq<Span<T>>, at: set<int>)
    requires forall k :: 0 <= k < |e| && e[k].from < e[k].until ==> Inside(at, e[k].from, e[k].until) == {}
    ensures Sum(e, Pieces(at)) == |e|
  {
    if e != [] {
      WholePieces(e[..|e| - 1], at);
    }
  }

  /** Each span is cut into exactly as many pieces as the boundaries inside it make, and no more. */
  lemma PiecesAreExact<T(!new)>(spans: seq<Span<T>>, e: seq<Span<T>>)
    requires Conserves(spans, e) && Split(e)
    ensures |e| == Sum(spans, Pieces(Boundaries(spans)))
  {
    hide Sum, Boundaries, Split, Additive;
    var at := Boundaries(spans);
    PiecesAdd<T>(at);
    forall k | 0 <= k < |e| && e[k].from < e[k].until
      ensures Inside(at, e[k].from, e[k].until) == {}
    {
      forall b | b in Inside(at, e[k].from, e[k].until)
        ensures false
      {
        BoundaryOf(e, b);
        var j :| 0 <= j < |e| && (e[j].from == b || e[j].until == b);
        SplitIsDisjoint(e, k, j);
      }
    }
    WholePieces(e, at);
  }
}
