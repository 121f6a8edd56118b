/**
  What the tree operations do to token lists: cutting, slicing, and replacing as splicing.
 */
module Splice {
  import opened Options
  import opened Sequences
  import opened Documents
  import opened Positions
  import opened Replace

  // ---------------------------------------------------------------- cutting

  function Opens(ms: seq<Markup>): (ts: seq<Token>)
    ensures |ts| == |ms|
  {
    seq(|ms|, i requires 0 <= i < |ms| => Open(ms[i]))
  }

  function Closes(n: nat): (ts: seq<Token>)
    ensures |ts| == n
  {
    seq(n, i requires 0 <= i < n => Close)
  }

  /** The markups of the elements around offset `k` of a balanced token list. */
  function Enclosing(ts: seq<Token>, k: nat): seq<Markup>
    requires k <= |ts|
  {
    OpenAfter([], ts[..k])
  }

  /** A range of tokens, balanced by reopening what is open at its start and closing what is open at its end. */
  function Balanced(ts: seq<Token>, from: nat, to: nat): seq<Token>
    requires from <= to <= |ts|
  {
    Opens(Enclosing(ts, from)) + ts[from..to] + Closes(|Enclosing(ts, to)|)
  }

  ghost predicate Neutral(ts: seq<Token>) {
    forall stack :: OpenAfter(stack, ts) == stack
  }

  lemma NodesNeutral(ns: seq<Node>)
    ensures Neutral(Tokens(ns))
  {
    forall stack ensures OpenAfter(stack, Tokens(ns)) == stack {
      OpenAfterNodes(stack, ns);
    }
  }

  lemma NodeNeutral(n: Node)
    ensures Neutral(NodeTokens(n))
  {
    forall stack ensures OpenAfter(stack, NodeTokens(n)) == stack {
      OpenAfterNode(stack, n);
    }
  }

  lemma EnclosingPast(a: seq<Token>, b: seq<Token>, k: nat)
    requires Neutral(a) && |a| <= k <= |a| + |b|
    ensures Enclosing(a + b, k) == Enclosing(b, k - |a|)
  {
    assert (a + b)[..k] == a + b[..k - |a|];
    OpenAfterAppend([], a, b[..k - |a|]);
  }

  lemma EnclosingWithin(a: seq<Token>, b: seq<Token>, k: nat)
    requires k <= |a|
    ensures Enclosing(a + b, k) == Enclosing(a, k)
  {
    assert (a + b)[..k] == a[..k];
  }

  lemma EnclosingAll(a: seq<Token>)
    requires Neutral(a)
    ensures Enclosing(a, |a|) == [] && Enclosing(a, 0) == []
  {
    assert a[..|a|] == a && a[..0] == [];
  }

  lemma BalancedPast(a: seq<Token>, b: seq<Token>, from: nat, to: nat)
    requires Neutral(a) && |a| <= from <= to <= |a| + |b|
    ensures Balanced(a + b, from, to) == Balanced(b, from - |a|, to - |a|)
  {
    EnclosingPast(a, b, from);
    EnclosingPast(a, b, to);
    assert (a + b)[from..to] == b[from - |a|..to - |a|];
  }

  lemma BalancedWithin(a: seq<Token>, b: seq<Token>, from: nat, to: nat)
    requires from <= to <= |a|
    ensures Balanced(a + b, from, to) == Balanced(a, from, to)
  {
    EnclosingWithin(a, b, from);
    EnclosingWithin(a, b, to);
    assert (a + b)[from..to] == a[from..to];
  }

  lemma BalancedAcross(a: seq<Token>, b: seq<Token>, from: nat, to: nat)
    requires Neutral(a) && from <= |a| <= to <= |a| + |b|
    ensures Balanced(a + b, from, to) == Balanced(a, from, |a|) + Balanced(b, 0, to - |a|)
  {
    EnclosingWithin(a, b, from);
    EnclosingPast(a, b, to);
    EnclosingAll(a);
    assert b[..0] == [];
    assert (a + b)[from..to] == a[from..] + b[..to - |a|];
  }

  lemma BalancedAll(a: seq<Token>)
    requires Neutral(a)
    ensures Balanced(a, 0, |a|) == a
  {
    EnclosingAll(a);
    assert a[0..|a|] == a;
  }

  /** A prefix of a node list never closes more than it has opened. */
  lemma PrefixStacks(ns: seq<Node>, k: nat, stack: seq<Markup>)
    requires Proper(ns) && k <= Size(ns)
    ensures OpenAfter(stack, Tokens(ns)[..k]) == stack + Enclosing(Tokens(ns), k)
  {
    var node := Elem(Markup(0, 0, []), ns);
    ResolveValid(node, k);
    var p := Resolve(node, k);
    LeftRightSlices(p);
    AroundIsOpen(p, stack);
    AroundIsOpen(p, []);
    assert [] + Around(p) == Around(p);
  }

  lemma EnclosingElem(m: Markup, ns: seq<Node>, k: nat)
    requires Proper(ns) && 0 < k < Size(ns) + 2
    ensures Enclosing(NodeTokens(Elem(m, ns)), k) == [m] + Enclosing(Tokens(ns), k - 1)
  {
    hide Tokens, OpenAfter;
    var inner := Tokens(ns);
    assert NodeTokens(Elem(m, ns))[..k] == [Open(m)] + inner[..k - 1];
    OpenAfterEnter([], m, inner[..k - 1]);
    assert [] + [m] == [m];
    PrefixStacks(ns, k - 1, [m]);
  }

  lemma EnclosingFlat(ts: seq<Token>, k: nat)
    requires k <= |ts| && forall t :: t in ts ==> t.Char? || t.Atom?
    ensures Enclosing(ts, k) == []
  {
    OpenAfterFlat([], ts[..k]);
  }

  lemma {:induction false} CutTokens(ns: seq<Node>, from: nat, to: nat)
    requires Proper(ns) && from < to <= Size(ns)
    ensures Tokens(Cut(ns, from, to)) == Balanced(Tokens(ns), from, to)
    decreases ns, 1
  {
    if from == 0 && to == Size(ns) {
      NodesNeutral(ns);
      BalancedAll(Tokens(ns));
    } else {
      CutFromTokens(ns, from, to);
    }
  }

  /** What the loop makes of a child that ends before the range. */
  lemma CutFromPast(ns: seq<Node>, from: int, to: int)
    requires Proper(ns) && from < to <= Size(ns) && 0 < to
    requires NodeSize(ns[0]) <= from
    ensures CutFrom(ns, from, to) == CutFrom(ns[1..], from - NodeSize(ns[0]), to - NodeSize(ns[0]))
  {
    hide NodeTokens, Tokens, CutNode, Cut, ProperNode;
  }

  /** What it makes of a child that the range reaches. */
  lemma CutFromHead(ns: seq<Node>, from: int, to: int)
    requires Proper(ns) && from < to <= Size(ns) && 0 < to
    requires from < NodeSize(ns[0])
    ensures var end := NodeSize(ns[0]);
            var head := if 0 < from || to < end then CutNode(ns[0], from, to) else ns[0];
            Tokens(CutFrom(ns, from, to)) == NodeTokens(head) + Tokens(CutFrom(ns[1..], from - end, to - end))
  {
    hide NodeTokens, CutNode, Cut, ProperNode;
    var end := NodeSize(ns[0]);
    var cut := CutFrom(ns[1..], from - end, to - end);
    var head := if 0 < from || to < end then CutNode(ns[0], from, to) else ns[0];
    assert ([head] + cut)[0] == head && ([head] + cut)[1..] == cut;
  }

  lemma ProperRest(ns: seq<Node>)
    requires Proper(ns) && ns != []
    ensures Proper(ns[1..]) && ProperNode(ns[0])
    ensures Size(ns) == NodeSize(ns[0]) + Size(ns[1..]) && Tokens(ns) == NodeTokens(ns[0]) + Tokens(ns[1..])
  {
    hide NodeTokens, ProperNode, NodeSize;
    assert forall i :: 0 <= i < |ns[1..]| ==> ns[1..][i] == ns[i + 1];
  }

  /** Past the end of the range the loop takes nothing. */
  lemma CutFromNothing(ns: seq<Node>, from: int, to: int)
    requires from < to <= Size(ns) && to <= 0
    ensures CutFrom(ns, from, to) == []
  {
  }

  lemma {:induction false} CutFromTokens(ns: seq<Node>, from: int, to: int)
    requires Proper(ns) && from < to <= Size(ns) && 0 < to
    ensures Tokens(CutFrom(ns, from, to)) == Balanced(Tokens(ns), Max(0, from), to)
    decreases ns, 0
  {
    NonEmptySize(ns);
    hide NodeTokens, Balanced, Neutral, CutNode, Cut, CutFrom, Tokens, Size, NodeSize, Proper, ProperNode, OpenAfter;
    var first, rest := NodeTokens(ns[0]), Tokens(ns[1..]);
    var end := NodeSize(ns[0]);
    ProperRest(ns);
    NodeNeutral(ns[0]);
    if end <= from {
      CutFromPast(ns, from, to);
      CutFromTokens(ns[1..], from - end, to - end);
      BalancedPast(first, rest, from, to);
    } else {
      CutFromHead(ns, from, to);
      HeadTokens(ns[0], from, to);
      if end < to {
        CutFromTokens(ns[1..], from - end, to - end);
        BalancedHead(first, rest, from, to);
      } else {
        CutFromNothing(ns[1..], from - end, to - end);
        TokensNone();
        BalancedWithin(first, rest, Max(0, from), to);
      }
    }
  }

  /** A range that begins before or in `a` and goes on into `b`. */
  lemma BalancedHead(a: seq<Token>, b: seq<Token>, from: int, to: int)
    requires Neutral(a) && from < |a| < to <= |a| + |b|
    ensures Balanced(a + b, Max(0, from), to)
         == Balanced(a, Max(0, from), Min(|a|, to)) + Balanced(b, Max(0, from - |a|), to - |a|)
  {
    hide Balanced, Neutral;
    BalancedAcross(a, b, Max(0, from), to);
  }

  lemma NonEmptySize(ns: seq<Node>)
    requires 0 < Size(ns)
    ensures ns != []
  {
  }

  lemma {:induction false} HeadTokens(n: Node, from: int, to: int)
    requires ProperNode(n) && from < to && from < NodeSize(n) && 0 < to
    ensures var head := if 0 < from || to < NodeSize(n) then CutNode(n, from, to) else n;
            NodeTokens(head) == Balanced(NodeTokens(n), Max(0, from), Min(NodeSize(n), to))
    decreases n, 2
  {
    var low, high := Max(0, from), Min(NodeSize(n), to);
    if from <= 0 && NodeSize(n) <= to {
      NodeNeutral(n);
      BalancedAll(NodeTokens(n));
    } else {
      match n {
        case Text(m, text) =>
          EnclosingFlat(NodeTokens(n), low);
          EnclosingFlat(NodeTokens(n), high);
          assert Chars(m, text[low..high]) == NodeTokens(n)[low..high];
        case Elem(m, content) =>
          ElemTokens(m, content, from, to);
      }
    }
  }

  lemma {:induction false} ElemTokens(m: Markup, ns: seq<Node>, from: int, to: int)
    requires Proper(ns) && from < to && from < Size(ns) + 2 && 0 < to
    requires 0 < from || to < Size(ns) + 2
    ensures NodeTokens(CutNode(Elem(m, ns), from, to))
         == Balanced(NodeTokens(Elem(m, ns)), Max(0, from), Min(Size(ns) + 2, to))
    decreases ns, 2
  {
    hide Tokens, NodeTokens, CutNode;
    TokensNone();
    ElemTokensAre(Elem(m, ns));
    var n := Elem(m, ns);
    var all, inner := NodeTokens(n), Tokens(ns);
    var size := Size(ns) + 2;
    var low, high := Max(0, from), Min(size, to);
    var a, b := Max(0, from - 1), Min(Size(ns), to - 1);
    var cut := Tokens(Cut(ns, a, b));
    NodeNeutral(n);
    NodesNeutral(ns);
    EnclosingAll(all);
    EnclosingAll(inner);
    if a < b {
      CutTokens(ns, a, b);
    } else {
      assert Cut(ns, a, b) == [];
    }
    assert cut == if a < b then Balanced(inner, a, b) else [];
    CutElem(m, ns, from, to);
    if 0 < low {
      EnclosingElem(m, ns, low);
    }
    if high < size {
      EnclosingElem(m, ns, high);
    }
    var before, after := Enclosing(inner, a), Enclosing(inner, b);
    var mid := if a < b then inner[a..b] else [];
    assert cut == Opens(before) + mid + Closes(|after|);
    OpenSide(m, before, low);
    CloseSide(m, after, size - high);
    MiddleSide(m, inner, low, high, mid);
    Regroup([Open(m)], Opens(before), mid, Closes(|after|), [Close],
            Opens(Enclosing(all, low)), if low == 0 then [Open(m)] else [],
            if high == size then [Close] else [], Closes(|Enclosing(all, high)|));
  }

  lemma CutElem(m: Markup, ns: seq<Node>, from: int, to: int)
    requires from < to && from < Size(ns) + 2 && 0 < to
    ensures NodeTokens(CutNode(Elem(m, ns), from, to))
         == [Open(m)] + Tokens(Cut(ns, Max(0, from - 1), Min(Size(ns), to - 1))) + [Close]
  {
  }

  lemma OpenSide(m: Markup, before: seq<Markup>, low: nat)
    requires low == 0 ==> before == []
    ensures Opens(if low == 0 then [] else [m] + before) + (if low == 0 then [Open(m)] else [])
         == [Open(m)] + Opens(before)
  {
  }

  lemma CloseSide(m: Markup, after: seq<Markup>, left: nat)
    requires left == 0 ==> after == []
    ensures (if left == 0 then [Close] else []) + Closes(|if left == 0 then [] else [m] + after|)
         == Closes(|after|) + [Close]
  {
  }

  lemma MiddleSide(m: Markup, inner: seq<Token>, low: nat, high: nat, mid: seq<Token>)
    requires low < high <= |inner| + 2 && (0 < low || high < |inner| + 2)
    requires var a, b := Max(0, low - 1), Min(|inner|, high - 1);
             mid == if a < b then inner[a..b] else []
    ensures ([Open(m)] + inner + [Close])[low..high]
         == (if low == 0 then [Open(m)] else []) + mid + (if high == |inner| + 2 then [Close] else [])
  {
  }

  // ---------------------------------------------------------------- collecting children

  lemma ReplaceLast(ns: seq<Node>, n: Node)
    requires ns != []
    ensures Tokens(ns[|ns| - 1 := n]) == Tokens(ns[..|ns| - 1]) + NodeTokens(n)
  {
    assert ns[|ns| - 1 := n] == ns[..|ns| - 1] + [n];
    TokensPush(ns[..|ns| - 1], n);
  }

  lemma CharsAppend(m: Markup, a: string, b: string)
    ensures Chars(m, a + b) == Chars(m, a) + Chars(m, b)
  {
  }

  lemma MergeTokens(ns: seq<Node>, m: Markup, text: string)
    requires ns != [] && ns[|ns| - 1].Text? && ns[|ns| - 1].markup == m
    ensures Tokens(ns[|ns| - 1 := Text(m, ns[|ns| - 1].text + text)]) == Tokens(ns) + Chars(m, text)
  {
    var last := |ns| - 1;
    ReplaceLast(ns, Text(m, ns[last].text + text));
    CharsAppend(m, ns[last].text, text);
    TokensUpTo(ns, last);
    assert ns[..|ns|] == ns;
  }

  lemma AddNodeTokens(child: Node, target: seq<Node>)
    ensures Tokens(AddNode(child, target)) == Tokens(target) + NodeTokens(child)
  {
    var last := |target| - 1;
    if last >= 0 && Mergeable(target[last], child) {
      MergeTokens(target, child.markup, child.text);
    } else {
      TokensPush(target, child);
    }
  }

  lemma {:induction false} AddNodesTokens(children: seq<Node>, target: seq<Node>)
    ensures Tokens(AddNodes(children, target)) == Tokens(target) + Tokens(children)
    decreases children
  {
    if children != [] {
      AddNodeTokens(children[0], target);
      AddNodesTokens(children[1..], AddNode(children[0], target));
    }
  }

  lemma AppendTokens(a: seq<Node>, b: seq<Node>)
    ensures Tokens(Append(a, b)) == Tokens(a) + Tokens(b)
  {
    if a != [] && b != [] {
      if Mergeable(a[|a| - 1], b[0]) {
        var joined := a[|a| - 1 := Text(b[0].markup, a[|a| - 1].text + b[0].text)];
        MergeTokens(a, b[0].markup, b[0].text);
        TokensAppend(joined, b[1..]);
      } else {
        TokensAppend(a, b);
      }
    }
  }

  /** A text node split at an offset: the tokens of its two parts, among those of its siblings. */
  lemma TextSplit(ns: seq<Node>, i: nat, k: nat)
    requires i < |ns| && ns[i].Text? && k <= |ns[i].text|
    ensures Size(ns[..i]) + k <= Size(ns)
    ensures var m, text, at := ns[i].markup, ns[i].text, Size(ns[..i]) + k;
            && Tokens(ns)[..at] == Tokens(ns[..i]) + NodeTokens(Text(m, text[..k]))
            && Tokens(ns)[at..] == NodeTokens(Text(m, text[k..])) + Tokens(ns[i + 1..])
  {
    hide Tokens;
    var m, text := ns[i].markup, ns[i].text;
    TokensSplit(ns, i);
    CharsAppend(m, text[..k], text[k..]);
    assert text == text[..k] + text[k..];
    SplitInside(Tokens(ns), Tokens(ns[..i]), Chars(m, text[..k]), Chars(m, text[k..]), Tokens(ns[i + 1..]));
  }

  lemma ChildSplit(ns: seq<Node>, i: nat)
    requires i <= |ns|
    ensures Size(ns[..i]) <= Size(ns)
    ensures Tokens(ns)[..Size(ns[..i])] == Tokens(ns[..i])
    ensures Tokens(ns)[Size(ns[..i])..] == Tokens(ns[i..])
  {
    hide Tokens;
    TokensCut(ns, i);
  }

  /** Everything before a position, collected: the text cut at the position counts as far as it goes. */
  lemma AddBefore(end: Pos, target: seq<Node>)
    requires Valid(end)
    ensures Tokens(AddRange(None, Some(end), target)) == Tokens(target) + Before(end)
  {
    hide Tokens, NodeTokens, AddNodes, AddNode;
    var ns := end.node.content;
    var i := end.index;
    assert ns[0..i] == ns[..i];
    AddNodesTokens(ns[..i], target);
    ChildSplit(ns, i);
    if end.Here? && TextOffset(end) != 0 {
      AddNodeTokens(NodeBefore(end), AddNodes(ns[..i], target));
      TextSplit(ns, i, TextOffset(end));
      Assoc(Tokens(target), Tokens(ns[..i]), NodeTokens(NodeBefore(end)));
    }
  }

  lemma AddAfter(start: Pos, target: seq<Node>)
    requires Valid(start)
    ensures Tokens(AddRange(Some(start), None, target)) == Tokens(target) + After(start)
  {
    hide Tokens, NodeTokens, AddNodes, AddNode;
    var ns := start.node.content;
    var i := start.index;
    var (first, begun) := AddStart(Some(start), target);
    assert first <= |ns|;
    assert ns[first..|ns|] == ns[first..];
    AddNodesTokens(ns[first..], begun);
    ChildSplit(ns, i);
    if start.Here? && TextOffset(start) != 0 {
      AddNodeTokens(NodeAfter(start), target);
      TextSplit(ns, i, TextOffset(start));
      Assoc(Tokens(target), NodeTokens(NodeAfter(start)), Tokens(ns[i + 1..]));
    }
  }

  /** Between the two open ends of a slice lie the children that neither end descends into. */
  lemma AddBetween(node: Node, a: nat, b: nat, target: seq<Node>)
    requires node.Elem? && OpensLeft(node.content, a) && OpensRight(node.content, b)
    requires a > 0 && b > 0 ==> |node.content| > 1
    requires Valid(StartPos(node, a)) && Valid(EndPos(node, b))
    ensures Tokens(AddRange(Some(StartPos(node, a)), Some(EndPos(node, b)), target))
         == Tokens(target) + Tokens(Inner(node.content, a, b))
  {
    var ns := node.content;
    SizeUpTo(ns, |ns|);
    AddNodesTokens(Inner(ns, a, b), target);
  }

  /** The children that are not on an open end. */
  function Inner(ns: seq<Node>, a: nat, b: nat): seq<Node>
    requires a > 0 ==> ns != []
    requires b > 0 ==> ns != []
    requires a > 0 && b > 0 ==> |ns| > 1
  {
    ns[if a > 0 then 1 else 0..if b > 0 then |ns| - 1 else |ns|]
  }

  // ---------------------------------------------------------------- replacing splices

  /** A node closed over joined content, with what is before it on the left and after it on the right. */
  function Rejoined(from: Pos, to: Pos, content: seq<Node>): seq<Node>
    requires Valid(from) && Valid(to) && from.Inside?
  {
    AddRange(Some(to), None, AddNode(Elem(from.inner.node.markup, content), AddRange(None, Some(from), [])))
  }

  lemma RejoinedTokens(from: Pos, to: Pos, content: seq<Node>, middle: seq<Token>)
    requires Valid(from) && Valid(to) && from.Inside? && to.Inside?
    requires Tokens(content) == Left(from.inner) + middle + Right(to.inner)
    ensures Tokens(Rejoined(from, to, content)) == Left(from) + middle + Right(to)
  {
    AddBefore(from, []);
    var all := AddNode(Elem(from.inner.node.markup, content), AddRange(None, Some(from), []));
    JoinedTokens(from, to, AddRange(None, Some(from), []), content, middle);
    AddAfter(to, all);
  }

  lemma JoinedTokens(from: Pos, to: Pos, before: seq<Node>, content: seq<Node>, middle: seq<Token>)
    requires Valid(from) && Valid(to) && from.Inside? && to.Inside?
    requires Tokens(before) == Before(from)
    requires Tokens(content) == Left(from.inner) + middle + Right(to.inner)
    ensures var closed := Elem(from.inner.node.markup, content);
            Tokens(AddNode(closed, before)) + After(to) == Left(from) + middle + Right(to)
  {
    var closed := Elem(from.inner.node.markup, content);
    AddNodeTokens(closed, before);
    Nested(Before(from), [Open(closed.markup)], Left(from.inner), middle, Right(to.inner), [Close], After(to));
  }

  lemma TwoWayStep(s: Schema, from: Pos, to: Pos)
    requires Valid(from) && Valid(to) && Depth(from) == Depth(to) && from.Inside?
    requires ReplaceTwoWay(s, from, to).Ok?
    ensures ReplaceTwoWay(s, from.inner, to.inner).Ok?
    ensures ReplaceTwoWay(s, from, to).value
         == Rejoined(from, to, ReplaceTwoWay(s, from.inner, to.inner).value)
  {
  }

  lemma TwoWayFlat(s: Schema, from: Pos, to: Pos)
    requires Valid(from) && Valid(to) && from.Here? && to.Here?
    ensures ReplaceTwoWay(s, from, to).Ok?
    ensures Tokens(ReplaceTwoWay(s, from, to).value) == Left(from) + Right(to)
  {
    hide Tokens, NodeTokens, AddRange;
    TokensNone();
    var before := AddRange(None, Some(from), []);
    AddBefore(from, []);
    AddAfter(to, before);
  }

  lemma {:induction false} TwoWayTokens(s: Schema, from: Pos, to: Pos)
    requires Valid(from) && Valid(to) && Depth(from) == Depth(to)
    requires ReplaceTwoWay(s, from, to).Ok?
    ensures Tokens(ReplaceTwoWay(s, from, to).value) == Left(from) + Right(to)
    decreases from
  {
    hide Tokens, NodeTokens, AddRange, ReplaceTwoWay, Rejoined, Left, Right;
    if from.Inside? {
      TwoWayStep(s, from, to);
      TwoWayTokens(s, from.inner, to.inner);
      assert Left(from.inner) + [] + Right(to.inner) == Left(from.inner) + Right(to.inner);
      assert Left(from) + [] + Right(to) == Left(from) + Right(to);
      RejoinedTokens(from, to, ReplaceTwoWay(s, from.inner, to.inner).value, []);
    } else {
      TwoWayFlat(s, from, to);
    }
  }

  /** The tokens of the child that `left` is in, joined to the one `right` is in. */
  ghost function Child(left: Pos, right: Pos): seq<Token>
    requires Valid(left) && Valid(right) && Depth(left) == Depth(right)
  {
    if left.Here? then []
    else [Open(left.inner.node.markup)] + (Left(left.inner) + Right(right.inner)) + [Close]
  }

  lemma AddJoinedTokens(s: Schema, left: Pos, right: Pos, target: seq<Node>)
    requires Valid(left) && Valid(right) && Depth(left) == Depth(right)
    requires AddJoined(s, left, right, target).Ok?
    ensures Tokens(AddJoined(s, left, right, target).value)
         == Tokens(target) + Child(left, right)
  {
    hide Tokens, AddNode, ReplaceTwoWay;
    if left.Inside? {
      TwoWayTokens(s, left.inner, right.inner);
      AddNodeTokens(Elem(left.inner.node.markup, ReplaceTwoWay(s, left.inner, right.inner).value), target);
    }
  }

  /** The tokens of a node list without its first `a` and last `b`. */
  function Trimmed(ts: seq<Token>, a: nat, b: nat): seq<Token>
    requires a + b <= |ts|
  {
    ts[a..|ts| - b]
  }

  /** The part of an open first child that is inside the slice, with its end; likewise for an open last child. */
  ghost function LeftPart(start: Pos): seq<Token>
    requires Valid(start)
  {
    if start.Here? then [] else Right(start.inner) + [Close]
  }

  ghost function RightPart(end: Pos): seq<Token>
    requires Valid(end)
  {
    if end.Here? then [] else [Open(end.inner.node.markup)] + Left(end.inner)
  }

  lemma EndsHold(node: Node, a: nat, b: nat)
    requires node.Elem? && OpensLeft(node.content, a) && OpensRight(node.content, b)
    ensures OpenEnds(node, a, b, StartPos(node, a), EndPos(node, b))
    ensures a + b <= Size(node.content)
  {
    StartPosValid(node, a);
    EndPosValid(node, b);
    OpensLeftSize(node.content, a);
    OpensRightSize(node.content, b);
  }

  lemma TrimmedApart(node: Node, a: nat, b: nat, start: Pos, end: Pos)
    requires OpenEnds(node, a, b, start, end)
    requires a > 0 && b > 0 ==> |node.content| > 1
    ensures Trimmed(Tokens(node.content), a, b)
         == LeftPart(start) + Tokens(Inner(node.content, a, b)) + RightPart(end)
  {
    hide Tokens, NodeTokens, LeftPart, RightPart, StartPos, EndPos;
    var ns := node.content;
    var i, j := if a > 0 then 1 else 0, if b > 0 then |ns| - 1 else |ns|;
    TokensThree(ns, i, j);
    LeftPartIs(node, a, start);
    RightPartIs(node, b, end);
    TrimThree(Tokens(ns), Tokens(ns[..i]), Tokens(ns[i..j]), Tokens(ns[j..]), a, b);
  }

  lemma LeftPartIs(node: Node, a: nat, start: Pos)
    requires node.Elem? && OpensLeft(node.content, a) && start == StartPos(node, a) && Valid(start)
    ensures var l := Tokens(node.content[..if a > 0 then 1 else 0]);
            a <= |l| && l[a..] == LeftPart(start)
  {
    hide Tokens, NodeTokens, Right, Valid, Size, NodeSize;
    if a > 0 {
      var child := node.content[0];
      assert node.content[..1] == [child];
      TokensSingle(child);
      ElemTokensAre(child);
      StartPosValid(child, a - 1);
      LeftRightSlices(start.inner);
    } else {
      TokensNone();
      assert node.content[..0] == [];
    }
  }

  lemma RightPartIs(node: Node, b: nat, end: Pos)
    requires node.Elem? && OpensRight(node.content, b) && end == EndPos(node, b) && Valid(end)
    ensures var r := Tokens(node.content[if b > 0 then |node.content| - 1 else |node.content|..]);
            b <= |r| && r[..|r| - b] == RightPart(end)
  {
    hide Tokens, NodeTokens, Left, Valid;
    if b > 0 {
      var child := node.content[|node.content| - 1];
      assert node.content[|node.content| - 1..] == [child];
      TokensSingle(child);
      ElemTokensAre(child);
      EndPosValid(child, b - 1);
      LeftRightSlices(end.inner);
    } else {
      TokensNone();
      assert node.content[|node.content|..] == [];
    }
  }

  lemma TrimThree(ts: seq<Token>, l: seq<Token>, m: seq<Token>, r: seq<Token>, a: nat, b: nat)
    requires ts == l + m + r && a <= |l| && b <= |r|
    ensures Trimmed(ts, a, b) == l[a..] + m + r[..|r| - b]
  {
  }

  lemma TokensThree(ns: seq<Node>, i: nat, j: nat)
    requires i <= j <= |ns|
    ensures Tokens(ns) == Tokens(ns[..i]) + Tokens(ns[i..j]) + Tokens(ns[j..])
  {
    TokensCut(ns, j);
    TokensCut(ns[..j], i);
    assert ns[..j][..i] == ns[..i] && ns[..j][i..] == ns[i..j];
  }

  lemma TrimmedSingle(child: Node, a: nat, b: nat)
    requires child.Elem? && a > 0 && b > 0 && a - 1 + b - 1 <= Size(child.content)
    ensures a + b <= Size([child])
    ensures Trimmed(Tokens([child]), a, b) == Trimmed(Tokens(child.content), a - 1, b - 1)
  {
    hide Tokens, NodeTokens;
    ElemTokensAre(child);
    TokensSingle(child);
  }

  lemma SingleEnds(node: Node, a: nat, b: nat, start: Pos, end: Pos)
    requires OpenEnds(node, a, b, start, end) && a > 0 && b > 0 && |node.content| == 1
    ensures start.index == end.index == 0
    ensures OpenEnds(node.content[0], a - 1, b - 1, start.inner, end.inner)
    ensures Trimmed(Tokens(node.content), a, b) == Trimmed(Tokens(node.content[0].content), a - 1, b - 1)
  {
    assert node.content == [node.content[0]];
    EndsHold(node.content[0], a - 1, b - 1);
    TrimmedSingle(node.content[0], a, b);
  }

  lemma {:induction false} ThreeWayTokens(s: Schema, from: Pos, node: Node, a: nat, b: nat,
                                          start: Pos, end: Pos, to: Pos)
    requires Valid(from) && Valid(to) && OpenEnds(node, a, b, start, end)
    requires Depth(from) == a && Depth(to) == b
    requires ReplaceThreeWay(s, from, start, end, to).Ok?
    ensures Tokens(ReplaceThreeWay(s, from, start, end, to).value)
         == Left(from) + Trimmed(Tokens(node.content), a, b) + Right(to)
    decreases from
  {
    hide Tokens, NodeTokens, Left, Right, AddRange, ReplaceThreeWay, Trimmed, OpensLeft, OpensRight, StartPos, EndPos;
    if a > 0 && b > 0 && |node.content| == 1 {
      SingleEnds(node, a, b, start, end);
      ThreeWayNested(s, from, start, end, to);
      ThreeWayTokens(s, from.inner, node.content[0], a - 1, b - 1, start.inner, end.inner, to.inner);
      NestedTokens(s, from, start, end, to, Trimmed(Tokens(node.content), a, b));
    } else {
      TrimmedApart(node, a, b, start, end);
      ThreeWayApart(s, from, node, a, b, start, end, to);
    }
  }

  lemma NestedTokens(s: Schema, from: Pos, start: Pos, end: Pos, to: Pos, middle: seq<Token>)
    requires Valid(from) && Valid(start) && Valid(end) && Valid(to)
    requires start.node == end.node
    requires Depth(from) == Depth(start) && Depth(end) == Depth(to)
    requires from.Inside? && to.Inside? && start.index == end.index
    requires ReplaceThreeWay(s, from, start, end, to).Ok?
    requires var inner := ReplaceThreeWay(s, from.inner, start.inner, end.inner, to.inner);
             inner.Ok? ==> Tokens(inner.value) == Left(from.inner) + middle + Right(to.inner)
    ensures Tokens(ReplaceThreeWay(s, from, start, end, to).value) == Left(from) + middle + Right(to)
  {
    ThreeWayNested(s, from, start, end, to);
    RejoinedTokens(from, to, ReplaceThreeWay(s, from.inner, start.inner, end.inner, to.inner).value, middle);
  }

  lemma ThreeWayNested(s: Schema, from: Pos, start: Pos, end: Pos, to: Pos)
    requires Valid(from) && Valid(start) && Valid(end) && Valid(to)
    requires start.node == end.node
    requires Depth(from) == Depth(start) && Depth(end) == Depth(to)
    requires from.Inside? && to.Inside? && start.index == end.index
    requires ReplaceThreeWay(s, from, start, end, to).Ok?
    ensures ReplaceThreeWay(s, from.inner, start.inner, end.inner, to.inner).Ok?
    ensures ReplaceThreeWay(s, from, start, end, to).value
         == Rejoined(from, to, ReplaceThreeWay(s, from.inner, start.inner, end.inner, to.inner).value)
  {
  }

  lemma ThreeWayApart(s: Schema, from: Pos, node: Node, a: nat, b: nat, start: Pos, end: Pos, to: Pos)
    requires Valid(from) && Valid(to) && OpenEnds(node, a, b, start, end)
    requires Depth(from) == a && Depth(to) == b
    requires a > 0 && b > 0 ==> |node.content| > 1
    requires ReplaceThreeWay(s, from, start, end, to).Ok?
    ensures Tokens(ReplaceThreeWay(s, from, start, end, to).value)
         == Left(from) + (LeftPart(start) + Tokens(Inner(node.content, a, b)) + RightPart(end)) + Right(to)
  {
    ThreeWaySteps(s, from, start, end, to);
    StartJoined(s, from, start);
    BetweenAndAfter(s, node, a, b, start, end, to, AddJoined(s, from, start, AddRange(None, Some(from), [])).value);
    Reassociate(Left(from), LeftPart(start), Tokens(Inner(node.content, a, b)), RightPart(end), Right(to));
  }

  lemma StartJoined(s: Schema, from: Pos, start: Pos)
    requires Valid(from) && Valid(start) && Depth(from) == Depth(start)
    requires AddJoined(s, from, start, AddRange(None, Some(from), [])).Ok?
    ensures Tokens(AddJoined(s, from, start, AddRange(None, Some(from), [])).value) == Left(from) + LeftPart(start)
  {
    AddBefore(from, []);
    JoinedAfter(s, from, start, AddRange(None, Some(from), []));
  }

  lemma JoinedAfter(s: Schema, from: Pos, start: Pos, before: seq<Node>)
    requires Valid(from) && Valid(start) && Depth(from) == Depth(start)
    requires Tokens(before) == Before(from)
    requires AddJoined(s, from, start, before).Ok?
    ensures Tokens(AddJoined(s, from, start, before).value) == Left(from) + LeftPart(start)
  {
    AddJoinedTokens(s, from, start, before);
    LeftOpened(from, start);
  }

  lemma LeftOpened(from: Pos, start: Pos)
    requires Valid(from) && Valid(start) && Depth(from) == Depth(start)
    ensures Left(from) + LeftPart(start) == Before(from) + Child(from, start)
  {
    hide Tokens, NodeTokens, Right, Before;
  }

  lemma RightOpened(end: Pos, to: Pos)
    requires Valid(to) && Valid(end) && Depth(end) == Depth(to)
    ensures RightPart(end) + Right(to) == Child(end, to) + After(to)
  {
    hide Tokens, NodeTokens, Left, After;
  }

  lemma BetweenAndAfter(s: Schema, node: Node, a: nat, b: nat, start: Pos, end: Pos, to: Pos, joined: seq<Node>)
    requires Valid(to) && OpenEnds(node, a, b, start, end) && Depth(to) == b
    requires a > 0 && b > 0 ==> |node.content| > 1
    requires AddJoined(s, end, to, AddRange(Some(start), Some(end), joined)).Ok?
    ensures Tokens(AddRange(Some(to), None, AddJoined(s, end, to, AddRange(Some(start), Some(end), joined)).value))
         == Tokens(joined) + Tokens(Inner(node.content, a, b)) + (RightPart(end) + Right(to))
  {
    var between := AddRange(Some(start), Some(end), joined);
    AddBetween(node, a, b, joined);
    EndAndAfter(s, end, to, between);
  }

  lemma EndAndAfter(s: Schema, end: Pos, to: Pos, between: seq<Node>)
    requires Valid(to) && Valid(end) && Depth(to) == Depth(end)
    requires AddJoined(s, end, to, between).Ok?
    ensures Tokens(AddRange(Some(to), None, AddJoined(s, end, to, between).value))
         == Tokens(between) + (RightPart(end) + Right(to))
  {
    AddJoinedTokens(s, end, to, between);
    AddAfter(to, AddJoined(s, end, to, between).value);
    RightOpened(end, to);
    Assoc(Tokens(between), Child(end, to), After(to));
  }

  lemma ThreeWaySteps(s: Schema, from: Pos, start: Pos, end: Pos, to: Pos)
    requires Valid(from) && Valid(start) && Valid(end) && Valid(to)
    requires start.node == end.node
    requires Depth(from) == Depth(start) && Depth(end) == Depth(to)
    requires !(from.Inside? && to.Inside? && start.index == end.index)
    requires ReplaceThreeWay(s, from, start, end, to).Ok?
    ensures var joined := AddJoined(s, from, start, AddRange(None, Some(from), []));
            && joined.Ok?
            && var middle := AddJoined(s, end, to, AddRange(Some(start), Some(end), joined.value));
            && middle.Ok?
            && ReplaceThreeWay(s, from, start, end, to).value == AddRange(Some(to), None, middle.value)
  {
  }
}
