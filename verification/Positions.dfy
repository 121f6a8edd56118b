/**
  Resolved positions.  The original stores the path from the root as (node, index,
  offset) triples; here the path is linked, so that the part from depth r on is a
  value of its own, and the tree algorithms can recurse on it.
 */
module Positions {
  import opened Sequences
  import opened Documents

  datatype Pos =
    | Here(node: Node, index: nat, offset: nat)
    | Inside(node: Node, index: nat, inner: Pos)

  function Depth(p: Pos): nat {
    if p.Here? then 0 else 1 + Depth(p.inner)
  }

  /** Index and offset of the child that holds offset `e`; the next child when `e` is a boundary. */
  function FindIndex(ns: seq<Node>, e: nat): (r: (nat, nat))
    requires e <= Size(ns)
    ensures r.0 <= |ns| && r.1 <= e
  {
    if e == 0 then (0, 0)
    else if e == Size(ns) then (|ns|, e)
    else FindFrom(ns, e, 0, 0)
  }

  function FindFrom(ns: seq<Node>, e: nat, n: nat, r: nat): (res: (nat, nat))
    requires n <= |ns| && r == Size(ns[..n])
    requires r < e <= Size(ns)
    ensures res.0 <= |ns| && res.1 <= e
    decreases |ns| - n
  {
    SizeUpTo(ns, n);
    var i := r + NodeSize(ns[n]);
    if i >= e then (if i == e then (n + 1, i) else (n, r))
    else FindFrom(ns, e, n + 1, i)
  }

  lemma SizeUpTo(ns: seq<Node>, n: nat)
    requires n <= |ns|
    ensures n < |ns| ==> Size(ns[..n + 1]) == Size(ns[..n]) + NodeSize(ns[n])
    ensures n == |ns| ==> Size(ns[..n]) == Size(ns)
  {
    if n < |ns| {
      TokensUpTo(ns, n);
    } else {
      assert ns[..n] == ns;
    }
  }

  function Resolve(node: Node, i: nat): Pos
    requires node.Elem? && ProperNode(node) && i <= Size(node.content)
    decreases node
  {
    var (index, offset) := FindIndex(node.content, i);
    var a := i - offset;
    if a == 0 then Here(node, index, i)
    else
      FindIndexPlace(node.content, i);
      var child := node.content[index];
      if child.Text? then Here(node, index, i)
      else Inside(node, index, Resolve(child, a - 1))
  }

  /** Where `FindIndex` lands: on a boundary, or strictly inside the child it names. */
  lemma FindIndexPlace(ns: seq<Node>, e: nat)
    requires e <= Size(ns)
    ensures var (n, r) := FindIndex(ns, e);
            r == Size(ns[..n]) && (e == r || (n < |ns| && r < e < r + NodeSize(ns[n])))
  {
    if e == 0 {
    } else if e == Size(ns) {
      SizeUpTo(ns, |ns|);
    } else {
      FindFromPlace(ns, e, 0, 0);
    }
  }

  lemma {:induction false} FindFromPlace(ns: seq<Node>, e: nat, n: nat, r: nat)
    requires n <= |ns| && r == Size(ns[..n])
    requires r < e <= Size(ns)
    ensures var (m, s) := FindFrom(ns, e, n, r);
            s == Size(ns[..m]) && (e == s || (m < |ns| && s < e < s + NodeSize(ns[m])))
    decreases |ns| - n
  {
    hide Tokens, NodeTokens;
    SizeUpTo(ns, n);
    var i := r + NodeSize(ns[n]);
    if i < e {
      FindFromPlace(ns, e, n + 1, i);
    }
  }

  // ---------------------------------------------------------------- the token view of a position

  /** The path agrees with the tree: every index points at the child descended into. */
  ghost predicate Valid(p: Pos) {
    && p.node.Elem?
    && p.index <= |p.node.content|
    && match p
       case Here(node, index, offset) =>
         var start := Size(node.content[..index]);
         offset == start
         || (index < |node.content| && node.content[index].Text?
             && start < offset < start + NodeSize(node.content[index]))
       case Inside(node, index, inner) =>
         index < |node.content| && inner.node == node.content[index] && Valid(inner)
  }

  /** The offset of the position in the content of its outermost node. */
  function Offset(p: Pos): nat
    requires Valid(p)
  {
    match p
    case Here(_, _, offset) => offset
    case Inside(node, index, inner) => Size(node.content[..index]) + 1 + Offset(inner)
  }

  /** The tokens of the outermost node's content before, and after, the position. */
  ghost function Left(p: Pos): seq<Token>
    requires Valid(p)
  {
    Before(p) + if p.Here? then [] else [Open(p.inner.node.markup)] + Left(p.inner)
  }

  ghost function Right(p: Pos): seq<Token>
    requires Valid(p)
  {
    (if p.Here? then [] else Right(p.inner) + [Close]) + After(p)
  }

  /** The tokens before (after) the child the path descends into, or before (after) the position itself. */
  ghost function Before(p: Pos): seq<Token>
    requires Valid(p)
  {
    if p.Inside? then Tokens(p.node.content[..p.index])
    else HereInRange(p); Tokens(p.node.content)[..p.offset]
  }

  ghost function After(p: Pos): seq<Token>
    requires Valid(p)
  {
    if p.Inside? then Tokens(p.node.content[p.index + 1..])
    else HereInRange(p); Tokens(p.node.content)[p.offset..]
  }

  lemma HereInRange(p: Pos)
    requires Valid(p)
    ensures Size(p.node.content[..p.index]) <= Size(p.node.content)
    ensures p.Here? ==> p.offset <= Size(p.node.content)
  {
    TokensCut(p.node.content, p.index);
    if p.index < |p.node.content| {
      TokensSplit(p.node.content, p.index);
    }
  }

  lemma {:induction false} LeftLength(p: Pos)
    requires Valid(p)
    ensures |Left(p)| == Offset(p)
  {
    hide Tokens, NodeTokens, Size, NodeSize;
    HereInRange(p);
    if p.Inside? {
      LeftLength(p.inner);
    }
  }

  lemma {:induction false} LeftRight(p: Pos)
    requires Valid(p)
    ensures Left(p) + Right(p) == Tokens(p.node.content)
  {
    hide Tokens, Size, NodeSize;
    HereInRange(p);
    if p.Inside? {
      LeftRight(p.inner);
      TokensSplit(p.node.content, p.index);
      ElemTokensAre(p.inner.node);
      Nest(Before(p), [Open(p.inner.node.markup)], Left(p.inner), Right(p.inner), [Close], After(p));
    } else {
      assert Left(p) == Before(p) && Right(p) == After(p);
    }
  }

  /** `Left` and `Right` as slices of the token list. */
  lemma LeftRightSlices(p: Pos)
    requires Valid(p)
    ensures Offset(p) <= Size(p.node.content)
    ensures Left(p) == Tokens(p.node.content)[..Offset(p)]
    ensures Right(p) == Tokens(p.node.content)[Offset(p)..]
  {
    hide Tokens, Left, Right, Size;
    LeftLength(p);
    LeftRight(p);
  }

  lemma {:induction false} ResolveValid(node: Node, i: nat)
    requires node.Elem? && ProperNode(node) && i <= Size(node.content)
    ensures var p := Resolve(node, i); Valid(p) && p.node == node && Offset(p) == i
    decreases node
  {
    hide Tokens, NodeTokens, FindIndex;
    var (index, offset) := FindIndex(node.content, i);
    FindIndexPlace(node.content, i);
    var a := i - offset;
    if a > 0 {
      var child := node.content[index];
      assert child.Elem? || child.Text?;
      if child.Elem? {
        ResolveValid(child, a - 1);
      }
    }
  }

  lemma SizeMonotone(ns: seq<Node>, i: nat, j: nat)
    requires i <= j <= |ns|
    ensures Size(ns[..i]) <= Size(ns[..j])
  {
    TokensCut(ns[..j], i);
    assert ns[..j][..i] == ns[..i];
  }

  /** An offset strictly inside a child is found in that child. */
  lemma IndexInside(ns: seq<Node>, e: nat, k: nat)
    requires k < |ns| && e <= Size(ns)
    requires Size(ns[..k]) < e < Size(ns[..k]) + NodeSize(ns[k])
    ensures FindIndex(ns, e) == (k, Size(ns[..k]))
  {
    FindIndexPlace(ns, e);
    var (n, r) := FindIndex(ns, e);
    SizeUpTo(ns, k);
    if n < k {
      SizeUpTo(ns, n);
      SizeMonotone(ns, n + 1, k);
    } else if k < n {
      SizeMonotone(ns, k + 1, n);
    }
  }

  /** A boundary is found as the child after it. */
  lemma IndexBoundary(ns: seq<Node>, k: nat)
    requires Proper(ns) && k <= |ns|
    ensures Size(ns[..k]) <= Size(ns)
    ensures FindIndex(ns, Size(ns[..k])) == (k, Size(ns[..k]))
  {
    hide Tokens, NodeTokens, FindIndex, Size;
    var e := Size(ns[..k]);
    SizeMonotone(ns, k, |ns|);
    SizeUpTo(ns, |ns|);
    FindIndexPlace(ns, e);
    var (n, r) := FindIndex(ns, e);
    if n < k {
      assert ProperNode(ns[n]);
      SizeUpTo(ns, n);
      SizeMonotone(ns, n + 1, k);
    } else if k < n {
      assert ProperNode(ns[k]);
      SizeUpTo(ns, k);
      SizeMonotone(ns, k + 1, n);
    }
  }

  /** A valid path is the only one for its offset. */
  lemma {:induction false} ResolveUnique(p: Pos)
    requires Valid(p) && ProperNode(p.node)
    ensures Offset(p) <= Size(p.node.content)
    ensures Resolve(p.node, Offset(p)) == p
  {
    hide Tokens, NodeTokens, Left, Right, FindIndex;
    var ns := p.node.content;
    LeftRightSlices(p);
    if p.Inside? {
      LeftRightSlices(p.inner);
      IndexInside(ns, Offset(p), p.index);
      assert ProperNode(p.inner.node);
      ResolveUnique(p.inner);
    } else if p.offset == Size(ns[..p.index]) {
      IndexBoundary(ns, p.index);
    } else {
      IndexInside(ns, p.offset, p.index);
    }
  }

  /** The markups of the nodes around the position, outermost first, without the outermost node's own. */
  function Around(p: Pos): (ms: seq<Markup>)
    ensures |ms| == Depth(p)
  {
    if p.Here? then [] else [p.inner.node.markup] + Around(p.inner)
  }

  // ---------------------------------------------------------------- the same, from tokens alone

  /** The markups of the elements opened but not closed by `ts`, on top of those in `stack`. */
  function OpenAfter(stack: seq<Markup>, ts: seq<Token>): seq<Markup>
    decreases ts
  {
    if ts == [] then stack
    else OpenAfter(Step(stack, ts[0]), ts[1..])
  }

  function Step(stack: seq<Markup>, t: Token): seq<Markup> {
    match t
    case Open(m) => stack + [m]
    case Close => if stack == [] then [] else stack[..|stack| - 1]
    case Atom(_) => stack
    case Char(_, _) => stack
  }

  lemma {:induction false} OpenAfterAppend(stack: seq<Markup>, a: seq<Token>, b: seq<Token>)
    ensures OpenAfter(stack, a + b) == OpenAfter(OpenAfter(stack, a), b)
    decreases a
  {
    if a == [] {
      assert a + b == b;
    } else {
      assert (a + b)[1..] == a[1..] + b;
      OpenAfterAppend(Step(stack, a[0]), a[1..], b);
    }
  }

  /** Whole nodes leave the stack as it was. */
  lemma {:induction false} OpenAfterNodes(stack: seq<Markup>, ns: seq<Node>)
    ensures OpenAfter(stack, Tokens(ns)) == stack
    decreases ns, 0
  {
    if ns != [] {
      OpenAfterAppend(stack, NodeTokens(ns[0]), Tokens(ns[1..]));
      OpenAfterNode(stack, ns[0]);
      OpenAfterNodes(stack, ns[1..]);
    }
  }

  lemma {:induction false} OpenAfterNode(stack: seq<Markup>, n: Node)
    ensures OpenAfter(stack, NodeTokens(n)) == stack
    decreases n, 1
  {
    match n {
      case Text(m, text) => OpenAfterFlat(stack, Chars(m, text));
      case Leaf(m) => OpenAfterFlat(stack, [Atom(m)]);
      case Elem(m, content) =>
        OpenAfterAppend(stack, [Open(m)] + Tokens(content), [Close]);
        OpenAfterAppend(stack, [Open(m)], Tokens(content));
        OpenAfterOne(stack, Open(m));
        OpenAfterNodes(stack + [m], content);
        OpenAfterOne(stack + [m], Close);
    }
  }

  lemma OpenAfterOne(stack: seq<Markup>, t: Token)
    ensures OpenAfter(stack, [t]) == Step(stack, t)
  {
    assert [t][1..] == [];
  }

  lemma {:induction false} OpenAfterFlat(stack: seq<Markup>, ts: seq<Token>)
    requires forall t :: t in ts ==> t.Char? || t.Atom?
    ensures OpenAfter(stack, ts) == stack
  {
    if ts != [] {
      assert ts[0] in ts;
      OpenAfterFlat(stack, ts[1..]);
    }
  }

  lemma OpenAfterEnter(stack: seq<Markup>, m: Markup, ts: seq<Token>)
    ensures OpenAfter(stack, [Open(m)] + ts) == OpenAfter(stack + [m], ts)
  {
    assert ([Open(m)] + ts)[1..] == ts;
  }

  /** The nodes around a position are the elements its left-hand tokens leave open. */
  lemma {:induction false} AroundIsOpen(p: Pos, stack: seq<Markup>)
    requires Valid(p)
    ensures OpenAfter(stack, Left(p)) == stack + Around(p)
  {
    hide Tokens, OpenAfter, Step;
    if p.Inside? {
      var m := p.inner.node.markup;
      OpenAfterAppend(stack, Before(p), [Open(m)] + Left(p.inner));
      OpenAfterNodes(stack, p.node.content[..p.index]);
      OpenAfterEnter(stack, m, Left(p.inner));
      AroundIsOpen(p.inner, stack + [m]);
      Assoc(stack, [m], Around(p.inner));
    } else {
      OpenAfterPrefix(p, stack);
      assert Left(p) == Before(p);
      assert stack + Around(p) == stack;
    }
  }

  lemma OpenAfterPrefix(p: Pos, stack: seq<Markup>)
    requires Valid(p) && p.Here?
    ensures OpenAfter(stack, Before(p)) == stack
  {
    var ns := p.node.content;
    TokensCut(ns, p.index);
    OpenAfterNodes(stack, ns[..p.index]);
    var start := Size(ns[..p.index]);
    if p.offset == start {
      assert Before(p) == Tokens(ns[..p.index]);
    } else {
      TokensSplit(ns, p.index);
      var text := Chars(ns[p.index].markup, ns[p.index].text)[..p.offset - start];
      assert Before(p) == Tokens(ns[..p.index]) + text;
      OpenAfterAppend(stack, Tokens(ns[..p.index]), text);
      OpenAfterFlat(stack, text);
    }
  }
}
