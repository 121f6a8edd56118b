/**
  Taking a slice out of a document.
 */
module Slicing {
  import opened Options
  import opened Sequences
  import opened Documents
  import opened Positions
  import opened Replace
  import opened Splice
  import opened Outcomes
  import opened Exactness
  import opened Cutting
  import opened ReplaceExactly
  import opened Stacks

  /** The depth of the innermost node around the position whose content reaches offset `e`; found from the inside out. */
  function SharedDepth(p: Pos, e: int): (d: nat)
    requires Valid(p)
    ensures d <= Depth(p)
  {
    if p.Here? then 0
    else
      var inner := e - Size(p.node.content[..p.index]) - 1;
      var deeper := SharedDepth(p.inner, inner);
      if deeper > 0 then deeper + 1
      else if 0 <= inner <= Size(p.inner.node.content) then 1
      else 0
  }

  /** The node around the position at some depth, and where its content starts. */
  function NodeAt(p: Pos, depth: nat): Node
    requires depth <= Depth(p)
    decreases depth
  {
    if depth == 0 then p.node else NodeAt(p.inner, depth - 1)
  }

  function StartAt(p: Pos, depth: nat): nat
    requires Valid(p) && depth <= Depth(p)
    decreases depth
  {
    if depth == 0 then 0 else Size(p.node.content[..p.index]) + 1 + StartAt(p.inner, depth - 1)
  }

  /** The part of a document between two offsets, open at both ends as deep as it has to be. */
  function SliceOf(doc: Node, from: nat, to: nat): Result<Slice>
    requires doc.Elem? && ProperNode(doc) && from <= to
  {
    if from == to then Ok(Slice([], 0, 0))
    else if to > Size(doc.content) then Failed(OutOfRange)
    else
      ResolveValid(doc, from);
      ResolveValid(doc, to);
      var f, t := Resolve(doc, from), Resolve(doc, to);
      var depth := SharedDepth(f, to);
      SharedInside(f, t);
      var node, start := NodeAt(f, depth), StartAt(f, depth);
      Ok(Slice(Cut(node.content, from - start, to - start), Depth(f) - depth, Depth(t) - depth))
  }

  /** At the shared depth both positions are in the same node. */
  ghost predicate Shared(f: Pos, t: Pos, d: nat)
    requires Valid(f) && Valid(t)
  {
    && d <= Depth(f) && d <= Depth(t)
    && NodeAt(f, d).Elem? && ProperNode(NodeAt(f, d))
    && StartAt(f, d) <= Offset(f) && Offset(t) - StartAt(f, d) <= Size(NodeAt(f, d).content)
    && Around(f)[..d] == Around(t)[..d]
    && NodeAt(t, d) == NodeAt(f, d) && StartAt(t, d) == StartAt(f, d)
  }

  lemma {:induction false} SharedInside(f: Pos, t: Pos)
    requires Valid(f) && Valid(t) && f.node == t.node && ProperNode(f.node) && Offset(f) <= Offset(t)
    ensures Shared(f, t, SharedDepth(f, Offset(t)))
    decreases f
  {
    hide Tokens, NodeTokens, ProperNode, Size, NodeSize, Shared, Left, Right;
    LeftRightSlices(t);
    if f.Inside? {
      var inner := Offset(t) - Size(f.node.content[..f.index]) - 1;
      LeftRightSlices(f.inner);
      if 0 <= inner <= Size(f.inner.node.content) {
        InsideToo(f, t);
        ProperChild(f);
        SharedInside(f.inner, t.inner);
        SharedDeeper(f, t, SharedDepth(f.inner, inner));
      } else {
        SharedOutside(f.inner, inner);
        SharedHere(f, t);
      }
    } else {
      SharedHere(f, t);
    }
  }

  lemma ProperChild(p: Pos)
    requires Valid(p) && p.Inside? && ProperNode(p.node)
    ensures ProperNode(p.inner.node)
  {
  }

  lemma SharedHere(f: Pos, t: Pos)
    requires Valid(f) && Valid(t) && f.node == t.node && ProperNode(f.node) && Offset(t) <= Size(t.node.content)
    ensures Shared(f, t, 0)
  {
  }

  lemma SharedDeeper(f: Pos, t: Pos, d: nat)
    requires Valid(f) && Valid(t) && f.node == t.node && f.Inside? && t.Inside? && f.index == t.index
    requires Shared(f.inner, t.inner, d)
    ensures Shared(f, t, d + 1)
  {
    hide ProperNode, Tokens, NodeTokens, Size, NodeSize;
    var m := f.inner.node.markup;
    assert Around(f)[..d + 1] == [m] + Around(f.inner)[..d];
    assert Around(t)[..d + 1] == [m] + Around(t.inner)[..d];
  }

  /** A position within the content of the child `f` is in is in that child too. */
  lemma InsideToo(f: Pos, t: Pos)
    requires Valid(f) && Valid(t) && f.node == t.node && ProperNode(f.node) && f.Inside? && f.inner.node.Elem?
    requires 0 <= Offset(t) - Size(f.node.content[..f.index]) - 1 <= Size(f.inner.node.content)
    ensures t.Inside? && t.index == f.index && t.inner.node == f.inner.node
    ensures Offset(t.inner) == Offset(t) - Size(f.node.content[..f.index]) - 1
  {
    hide Tokens, NodeTokens, FindIndex, Size;
    ResolveUnique(t);
    IndexInside(f.node.content, Offset(t), f.index);
  }

  lemma {:induction false} SharedOutside(p: Pos, e: int)
    requires Valid(p) && p.node.Elem? && (e < 0 || e > Size(p.node.content))
    ensures SharedDepth(p, e) == 0
  {
    hide Tokens, NodeTokens;
    if p.Inside? {
      ChildFits(p.node.content, p.index);
      SharedOutside(p.inner, e - Size(p.node.content[..p.index]) - 1);
    }
  }

  lemma ChildFits(ns: seq<Node>, i: nat)
    requires i < |ns| && ns[i].Elem?
    ensures Size(ns[..i]) + 2 + Size(ns[i].content) <= Size(ns)
  {
    hide Tokens, NodeTokens;
    SizeUpTo(ns, i);
    SizeMonotone(ns, i + 1, |ns|);
    SizeUpTo(ns, |ns|);
  }

  // ---------------------------------------------------------------- what a slice holds

  /** The list starts with the opening tokens of these markups. */
  ghost predicate StartsOpen(ts: seq<Token>, ms: seq<Markup>) {
    |ms| <= |ts| && forall i :: 0 <= i < |ms| ==> ts[i] == Open(ms[i])
  }

  ghost predicate EndsClosed(ts: seq<Token>, n: nat) {
    n <= |ts| && forall i :: |ts| - n <= i < |ts| ==> ts[i] == Close
  }

  /** Opening tokens at the start come from a chain of first children. */
  lemma {:induction false} OpensLeftFrom(ns: seq<Node>, ms: seq<Markup>)
    requires Normal(ns) && StartsOpen(Tokens(ns), ms)
    ensures OpensLeft(ns, |ms|) && LeftMarks(ns, |ms|) == ms
    decreases |ms|
  {
    hide Tokens, NodeTokens;
    if ms != [] {
      TokensNone();
      FirstToken(ns);
      assert Tokens(ns)[0] == Open(ms[0]);
      NormalTail(ns);
      InnerStarts(ns, ms);
      OpensLeftFrom(ns[0].content, ms[1..]);
      assert ms == [ms[0]] + ms[1..];
    }
  }

  lemma InnerStarts(ns: seq<Node>, ms: seq<Markup>)
    requires ns != [] && ns[0].Elem? && ms != [] && StartsOpen(Tokens(ns), ms)
    ensures StartsOpen(Tokens(ns[0].content), ms[1..])
  {
    hide Tokens, NodeTokens;
    var inner, rest := Tokens(ns[0].content), Tokens(ns[1..]);
    TokensFirst(ns);
    ElemTokensAre(ns[0]);
    assert Tokens(ns)[1 + |inner|] == Close;
    assert |ms| - 1 <= |inner|;
    forall i | 0 <= i < |ms| - 1 ensures inner[i] == Open(ms[1..][i]) {
      assert Tokens(ns)[i + 1] == inner[i];
    }
  }

  /** Closing tokens at the end come from a chain of last children. */
  lemma {:induction false} OpensRightFrom(ns: seq<Node>, n: nat)
    requires Normal(ns) && EndsClosed(Tokens(ns), n)
    ensures OpensRight(ns, n)
    decreases n
  {
    hide Tokens, NodeTokens;
    if n > 0 {
      TokensNone();
      assert ns != [];
      var last := |ns| - 1;
      assert NormalNode(ns[last]);
      LastToken(ns);
      assert Tokens(ns)[|Tokens(ns)| - 1] == Close;
      InnerEnds(ns, n);
      OpensRightFrom(ns[last].content, n - 1);
    }
  }

  lemma LastToken(ns: seq<Node>)
    requires ns != [] && NormalNode(ns[|ns| - 1])
    ensures Tokens(ns) != []
    ensures Tokens(ns)[|Tokens(ns)| - 1].Close? ==> ns[|ns| - 1].Elem?
  {
    hide Tokens, Normal;
    TokensLast(ns);
    var n := ns[|ns| - 1];
    assert Tokens(ns)[|Tokens(ns)| - 1] == NodeTokens(n)[|NodeTokens(n)| - 1];
  }

  lemma InnerEnds(ns: seq<Node>, n: nat)
    requires ns != [] && ns[|ns| - 1].Elem? && n > 0 && EndsClosed(Tokens(ns), n)
    ensures EndsClosed(Tokens(ns[|ns| - 1].content), n - 1)
  {
    hide Tokens, NodeTokens;
    var last := ns[|ns| - 1];
    var before, inner := Tokens(ns[..|ns| - 1]), Tokens(last.content);
    TokensLast(ns);
    ElemTokensAre(last);
    assert Tokens(ns)[|before|] == Open(last.markup);
    assert n - 1 <= |inner|;
    forall i | |inner| - (n - 1) <= i < |inner| ensures inner[i] == Close {
      assert Tokens(ns)[|before| + 1 + i] == inner[i];
    }
  }

  /** The position as seen from the node around it at some depth. */
  ghost function Below(p: Pos, depth: nat): Pos
    requires depth <= Depth(p)
    decreases depth
  {
    if depth == 0 then p else Below(p.inner, depth - 1)
  }

  lemma {:induction false} BelowIs(p: Pos, d: nat)
    requires Valid(p) && d <= Depth(p)
    ensures var q := Below(p, d);
            && Valid(q) && q.node == NodeAt(p, d) && Depth(q) == Depth(p) - d
            && Offset(p) == StartAt(p, d) + Offset(q) && Around(q) == Around(p)[d..]
    decreases d
  {
    hide Tokens, NodeTokens, Size, NodeSize;
    if d > 0 {
      BelowIs(p.inner, d - 1);
    }
  }

  /** The content of a node around a position is a range of the outermost content. */
  lemma {:induction false} NodeTokensWithin(p: Pos, d: nat)
    requires Valid(p) && d <= Depth(p) && NodeAt(p, d).Elem?
    ensures var ts, start := Tokens(NodeAt(p, d).content), StartAt(p, d);
            && start + |ts| <= Size(p.node.content)
            && Tokens(p.node.content)[start..start + |ts|] == ts
    decreases d
  {
    hide Tokens, NodeTokens, Size, NodeSize;
    if d > 0 {
      NodeTokensWithin(p.inner, d - 1);
      var inner := Tokens(p.inner.node.content);
      var before := Tokens(p.node.content[..p.index]);
      TokensSplit(p.node.content, p.index);
      ElemTokensAre(p.inner.node);
      assert Tokens(p.node.content)[|before| + 1..|before| + 1 + |inner|] == inner;
      Subrange(Tokens(p.node.content), |before| + 1, |inner|, StartAt(p.inner, d - 1), |Tokens(NodeAt(p, d).content)|);
    }
  }

  lemma Subrange<T>(all: seq<T>, i: nat, n: nat, j: nat, m: nat)
    requires i + n <= |all| && j + m <= n
    ensures all[i..i + n][j..j + m] == all[i + j..i + j + m]
  {
    var inner := all[i..i + n];
    var l, r := inner[j..j + m], all[i + j..i + j + m];
    forall k | 0 <= k < m ensures l[k] == r[k] {
      assert l[k] == inner[j + k];
    }
    assert l == r;
  }

  /** A slice as the tokens of the range, with what is open at its two ends. */
  ghost predicate Holds(sl: Slice, f: seq<Markup>, t: seq<Markup>, range: seq<Token>) {
    && WellFormed(sl) && Normal(sl.content)
    && sl.openStart <= |f| && |f| - sl.openStart == |t| - sl.openEnd
    && (var k := |f| - sl.openStart;
        && f[..k] == t[..k]
        && LeftMarks(sl.content, sl.openStart) == f[k..]
        && RightMarks(sl.content, sl.openEnd) == t[k..])
    && sl.openStart + sl.openEnd <= Size(sl.content)
    && SliceTokens(sl) == range
  }

  lemma CutHolds(ns: seq<Node>, a: nat, b: nat, f: Pos, t: Pos)
    requires Normal(ns) && Proper(ns) && a < b <= Size(ns)
    requires Valid(f) && Valid(t) && f.node.Elem? && t.node.Elem? && f.node.content == ns && t.node.content == ns
    requires Offset(f) == a && Offset(t) == b
    ensures Holds(Slice(Cut(ns, a, b), Depth(f), Depth(t)), Around(f), Around(t), Tokens(ns)[a..b])
  {
    hide Tokens, NodeTokens, Normal, Cut, OpenAfter, Left, Right, Around, LeftMarks, RightMarks, OpensLeft, OpensRight, Proper, Valid,
         SliceTokens, Size, NodeSize;
    var ts := Tokens(ns);
    var c := Cut(ns, a, b);
    CutTokens(ns, a, b);
    CutNormal(ns, a, b);
    NormalIsProper(c);
    EnclosingAround(f);
    EnclosingAround(t);
    var opens, closes := Opens(Around(f)), Closes(Depth(t));
    assert Tokens(c) == opens + ts[a..b] + closes;
    OpensLeftFrom(c, Around(f));
    OpensRightFrom(c, Depth(t));
    RightMarksOpen(c, Depth(t));
    BalancedEnd(ts, a, b);
    assert Tokens(c)[..|Tokens(c)| - Depth(t)] == opens + ts[a..b];
    TrimmedHolds(c, opens, ts[a..b], closes, Depth(f), Depth(t));
  }

  lemma TrimmedHolds(c: seq<Node>, opens: seq<Token>, mid: seq<Token>, closes: seq<Token>, a: nat, b: nat)
    requires Tokens(c) == opens + mid + closes && |opens| == a && |closes| == b
    ensures a + b <= Size(c) && SliceTokens(Slice(c, a, b)) == mid
  {
  }

  lemma EnclosingAround(p: Pos)
    requires Valid(p)
    ensures Offset(p) <= Size(p.node.content)
    ensures Enclosing(Tokens(p.node.content), Offset(p)) == Around(p)
  {
    hide Tokens, Left, Right, OpenAfter, Around;
    LeftRightSlices(p);
    AroundIsOpen(p, []);
    assert [] + Around(p) == Around(p);
  }

  /** Reopening what is open at `from` and reading on to `to` leaves open what is open at `to`. */
  lemma BalancedEnd(ts: seq<Token>, from: nat, to: nat)
    requires from <= to <= |ts|
    ensures OpenAfter([], Opens(Enclosing(ts, from)) + ts[from..to]) == Enclosing(ts, to)
  {
    hide OpenAfter;
    var f := Enclosing(ts, from);
    OpenAfterAppend([], Opens(f), ts[from..to]);
    OpenAfterOpens([], f);
    assert [] + f == f;
    assert ts[..to] == ts[..from] + ts[from..to];
    OpenAfterAppend([], ts[..from], ts[from..to]);
  }

  lemma {:induction false} OpenAfterOpens(stack: seq<Markup>, ms: seq<Markup>)
    ensures OpenAfter(stack, Opens(ms)) == stack + ms
    decreases |ms|
  {
    hide OpenAfter;
    if ms == [] {
      OpenAfterFlat(stack, Opens(ms));
      assert stack + ms == stack;
    } else {
      assert Opens(ms) == [Open(ms[0])] + Opens(ms[1..]);
      OpenAfterEnter(stack, ms[0], Opens(ms[1..]));
      OpenAfterOpens(stack + [ms[0]], ms[1..]);
      assert stack + [ms[0]] + ms[1..] == stack + ms;
    }
  }

  /** What `slice` returns holds the tokens between its two offsets, open to the depths of both. */
  lemma SliceHolds(doc: Node, from: nat, to: nat)
    requires doc.Elem? && NormalNode(doc) && ProperNode(doc) && from <= to <= Size(doc.content)
    ensures SliceOf(doc, from, to).Ok?
    ensures Holds(SliceOf(doc, from, to).value, Context(doc, from), Context(doc, to), Tokens(doc.content)[from..to])
  {
    hide Tokens, NodeTokens, Cut, Left, Right, Resolve, Holds, Context, Around, ProperNode, Size, Normal, Shared, SharedDepth;
    if from == to {
      EmptyHolds(Tokens(doc.content), Context(doc, from), from);
    } else {
      ContextIsAround(doc, from);
      ContextIsAround(doc, to);
      SharedInside(Resolve(doc, from), Resolve(doc, to));
      SharedHolds(doc, Resolve(doc, from), Resolve(doc, to), SharedDepth(Resolve(doc, from), to));
    }
  }

  lemma EmptyHolds(ts: seq<Token>, f: seq<Markup>, at: nat)
    requires at <= |ts|
    ensures Holds(Slice([], 0, 0), f, f, ts[at..at])
  {
    assert f[..|f|] == f && f[|f|..] == [];
  }

  lemma SharedHolds(doc: Node, f: Pos, t: Pos, d: nat)
    requires doc.Elem? && NormalNode(doc) && Valid(f) && Valid(t) && f.node == t.node == doc
    requires Shared(f, t, d) && Offset(f) < Offset(t) <= Size(doc.content)
    ensures var start, ns := StartAt(f, d), NodeAt(f, d).content;
            Holds(Slice(Cut(ns, Offset(f) - start, Offset(t) - start), Depth(f) - d, Depth(t) - d),
                  Around(f), Around(t), Tokens(doc.content)[Offset(f)..Offset(t)])
  {
    hide Tokens, NodeTokens, Cut, Around, Size, NodeSize, ProperNode, Holds, Valid, StartAt, NodeAt, NormalNode;
    var start := StartAt(f, d);
    NormalAt(f, d);
    RangeWithin(f, d, Offset(f) - start, Offset(t) - start);
    NodeHolds(f, t, d, NodeAt(f, d), Offset(f) - start, Offset(t) - start);
  }

  lemma NodeHolds(f: Pos, t: Pos, d: nat, node: Node, a: nat, b: nat)
    requires Valid(f) && Valid(t) && d <= Depth(f) && d <= Depth(t) && Around(f)[..d] == Around(t)[..d]
    requires node.Elem? && node == NodeAt(f, d) == NodeAt(t, d) && NormalNode(node)
    requires Offset(f) == StartAt(f, d) + a && Offset(t) == StartAt(t, d) + b && a < b <= Size(node.content)
    ensures Holds(Slice(Cut(node.content, a, b), Depth(f) - d, Depth(t) - d), Around(f), Around(t),
                  Tokens(node.content)[a..b])
  {
    hide Tokens, NodeTokens, Cut, Around, Size, NodeSize, Normal, Proper, Holds, Valid, StartAt, NodeAt, Below;
    BelowIs(f, d);
    BelowIs(t, d);
    NormalContent(node);
    CutHolds(node.content, a, b, Below(f, d), Below(t, d));
    HoldsBelow(Slice(Cut(node.content, a, b), Depth(f) - d, Depth(t) - d), Around(f), Around(t), d, Tokens(node.content)[a..b]);
  }

  lemma RangeWithin(p: Pos, d: nat, a: nat, b: nat)
    requires Valid(p) && d <= Depth(p) && NodeAt(p, d).Elem? && a <= b <= Size(NodeAt(p, d).content)
    ensures StartAt(p, d) + b <= Size(p.node.content)
    ensures Tokens(NodeAt(p, d).content)[a..b] == Tokens(p.node.content)[StartAt(p, d) + a..StartAt(p, d) + b]
  {
    hide Tokens, NodeTokens, Size, NodeSize;
    NodeTokensWithin(p, d);
    var n := |Tokens(NodeAt(p, d).content)|;
    Subrange(Tokens(p.node.content), StartAt(p, d), n, a, b - a);
  }

  lemma NormalContent(n: Node)
    requires n.Elem? && NormalNode(n)
    ensures Normal(n.content) && Proper(n.content)
  {
    NormalIsProper(n.content);
  }

  lemma HoldsBelow(sl: Slice, f: seq<Markup>, t: seq<Markup>, d: nat, range: seq<Token>)
    requires d <= |f| && d <= |t| && f[..d] == t[..d] && sl.openStart == |f| - d && sl.openEnd == |t| - d
    requires Holds(sl, f[d..], t[d..], range)
    ensures Holds(sl, f, t, range)
  {
    hide LeftMarks, RightMarks, OpensLeft, OpensRight, Normal, Proper, SliceTokens;
    assert f[d..][0..] == f[d..] && t[d..][0..] == t[d..];
  }

  lemma {:induction false} NormalAt(p: Pos, d: nat)
    requires Valid(p) && d <= Depth(p) && NormalNode(p.node)
    ensures NormalNode(NodeAt(p, d))
    decreases d
  {
    hide Unmerged, Size;
    if d > 0 {
      NormalAt(p.inner, d - 1);
    }
  }

  // ---------------------------------------------------------------- no deeper than it has to be

  /** Below the shared depth, where both positions are in children, those are different ones: one ends in between. */
  lemma {:induction false} EndBetween(f: Pos, t: Pos) returns (i: nat)
    requires Valid(f) && Valid(t) && f.node == t.node && ProperNode(f.node) && Offset(f) < Offset(t)
    requires SharedDepth(f, Offset(t)) < Depth(f) && SharedDepth(f, Offset(t)) < Depth(t)
    ensures var d := SharedDepth(f, Offset(t));
            var node, start := NodeAt(f, d), StartAt(f, d);
            && node.Elem? && i < |node.content|
            && Offset(f) - start < Size(node.content[..i + 1]) < Offset(t) - start
    decreases f
  {
    hide Tokens, NodeTokens, ProperNode, Size, NodeSize, Left, Right;
    LeftRightSlices(t);
    var inner := Offset(t) - Size(f.node.content[..f.index]) - 1;
    LeftRightSlices(f.inner);
    if 0 <= inner <= Size(f.inner.node.content) {
      InsideToo(f, t);
      ProperChild(f);
      i := EndBetween(f.inner, t.inner);
    } else {
      SharedOutside(f.inner, inner);
      i := f.index;
      ChildEnds(f);
      NotAtEnd(t, i);
    }
  }

  lemma ChildEnds(p: Pos)
    requires Valid(p) && p.Inside? && Offset(p.inner) <= Size(p.inner.node.content)
    ensures Size(p.node.content[..p.index + 1]) == Size(p.node.content[..p.index]) + 2 + Size(p.inner.node.content)
    ensures Offset(p) < Size(p.node.content[..p.index + 1])
  {
    hide Tokens, NodeTokens;
    SizeUpTo(p.node.content, p.index);
  }

  /** A position in a child is not at the end of any. */
  lemma NotAtEnd(p: Pos, i: nat)
    requires Valid(p) && p.Inside? && i < |p.node.content|
    ensures Offset(p) != Size(p.node.content[..i + 1])
  {
    hide Tokens, NodeTokens, Size;
    LeftRightSlices(p.inner);
    ChildEnds(p);
    if i < p.index {
      SizeMonotone(p.node.content, i + 1, p.index);
    } else {
      SizeMonotone(p.node.content, p.index + 1, i + 1);
    }
  }

  /** Cutting from before the end of a child to behind it leaves at least two. */
  lemma {:induction false} CutApart(ns: seq<Node>, a: int, b: int, i: nat)
    requires a < b <= Size(ns) && i < |ns| && a < Size(ns[..i + 1]) < b
    ensures |CutFrom(ns, a, b)| >= 2
    decreases |ns|
  {
    hide CutNode, NodeSize, Tokens, NodeTokens;
    var end := NodeSize(ns[0]);
    SizeRest(ns, i);
    SizeRest(ns, |ns| - 1);
    assert ns[..|ns|] == ns && ns[1..][..|ns| - 1] == ns[1..];
    if i == 0 {
      assert ns[1..] != [];
      assert |CutFrom(ns[1..], a - end, b - end)| >= 1;
    } else {
      CutApart(ns[1..], a - end, b - end, i - 1);
    }
  }

  lemma SizeRest(ns: seq<Node>, i: nat)
    requires i < |ns|
    ensures Size(ns[..i + 1]) == NodeSize(ns[0]) + Size(ns[1..][..i])
  {
    hide NodeSize;
    assert ns[..i + 1][1..] == ns[1..][..i];
  }

  /** What `slice` returns is open no deeper than it has to be: no node of it is open on both sides. */
  lemma SliceIsTight(doc: Node, from: nat, to: nat)
    requires doc.Elem? && ProperNode(doc) && from <= to <= Size(doc.content)
    ensures var sl := SliceOf(doc, from, to);
            sl.Ok? && (sl.value.openStart > 0 && sl.value.openEnd > 0 ==> |sl.value.content| > 1)
  {
    hide Tokens, NodeTokens, Cut, CutFrom, Left, Right, Resolve, Around, ProperNode, Size, SharedDepth, Valid, StartAt, NodeAt, SliceOf,
         Context, Offset, Shared;
    SliceParts(doc, from, to);
    if from < to {
      var f, t := Resolve(doc, from), Resolve(doc, to);
      var d := SharedDepth(f, to);
      if d < Depth(f) && d < Depth(t) {
        var i := EndBetween(f, t);
        CutAcross(NodeAt(f, d).content, from - StartAt(f, d), to - StartAt(f, d), i);
      }
    }
  }

  lemma SliceParts(doc: Node, from: nat, to: nat)
    requires doc.Elem? && ProperNode(doc) && from <= to <= Size(doc.content)
    ensures SliceOf(doc, from, to).Ok?
    ensures from == to ==> SliceOf(doc, from, to).value == Slice([], 0, 0)
    ensures from < to ==>
      var f, t := Resolve(doc, from), Resolve(doc, to);
      && Valid(f) && Valid(t) && f.node == t.node == doc && Offset(f) == from && Offset(t) == to
      && var d := SharedDepth(f, to);
         && d <= Depth(f) && d <= Depth(t) && NodeAt(f, d).Elem? && StartAt(f, d) <= from
         && to - StartAt(f, d) <= Size(NodeAt(f, d).content)
         && SliceOf(doc, from, to).value
            == Slice(Cut(NodeAt(f, d).content, from - StartAt(f, d), to - StartAt(f, d)), Depth(f) - d, Depth(t) - d)
  {
    hide Tokens, NodeTokens, Cut, CutFrom, Left, Right, Resolve, Around, ProperNode, Size, SharedDepth, Valid, StartAt, NodeAt, Context, Offset;
    ContextIsAround(doc, from);
    ContextIsAround(doc, to);
    if from < to {
      SharedInside(Resolve(doc, from), Resolve(doc, to));
    }
  }

  lemma CutAcross(ns: seq<Node>, a: nat, b: nat, i: nat)
    requires b <= Size(ns) && i < |ns| && a < Size(ns[..i + 1]) < b
    ensures |Cut(ns, a, b)| >= 2
  {
    hide Tokens, NodeTokens, Size, CutFrom;
    CutApart(ns, a, b, i);
    assert ns[..|ns|] == ns;
  }
}
