/**
  Cutting a child list: the result stays normal, and at a position that is in no
  child it is exactly the children on that side.
 */
module Cutting {
  import opened Sequences
  import opened Documents
  import opened Positions
  import opened Replace
  import opened Splice
  import opened Outcomes

  predicate SameKind(a: Node, b: Node) {
    a.markup == b.markup && a.Text? == b.Text?
  }

  lemma {:induction false} CutNormal(ns: seq<Node>, from: nat, to: nat)
    requires Normal(ns) && to <= Size(ns)
    ensures Normal(Cut(ns, from, to))
    decreases ns, 1
  {
    if !(from == 0 && to == Size(ns)) && from < to {
      CutFromNormal(ns, from, to);
    }
  }

  lemma {:induction false} CutFromNormal(ns: seq<Node>, from: int, to: int)
    requires Normal(ns) && from < to <= Size(ns)
    ensures Normal(CutFrom(ns, from, to))
    ensures ns != [] && from < NodeSize(ns[0]) && 0 < to ==>
      CutFrom(ns, from, to) != [] && SameKind(CutFrom(ns, from, to)[0], ns[0])
    decreases ns, 0
  {
    hide Tokens, NodeTokens, CutNode, NormalNode;
    if ns != [] && 0 < to {
      var end := NodeSize(ns[0]);
      var rest := CutFrom(ns[1..], from - end, to - end);
      NormalTail(ns);
      CutFromNormal(ns[1..], from - end, to - end);
      if from < end {
        var head := if 0 < from || to < end then CutNode(ns[0], from, to) else ns[0];
        CutNodeNormal(ns[0], from, to);
        if rest != [] {
          assert !Mergeable(ns[0], ns[1]);
          NormalNonEmpty(ns[1]);
        }
        PrependNormal(head, rest);
      }
    }
  }

  lemma NormalNonEmpty(n: Node)
    requires NormalNode(n)
    ensures NodeSize(n) > 0
  {
  }

  lemma PrependNormal(n: Node, ns: seq<Node>)
    requires NormalNode(n) && Normal(ns)
    requires ns != [] ==> !Mergeable(n, ns[0])
    ensures Normal([n] + ns)
  {
    hide NormalNode;
    var all := [n] + ns;
    forall i | 0 <= i < |all| ensures NormalNode(all[i]) {
      if i > 0 {
        assert NormalNode(ns[i - 1]);
      }
    }
    forall i | 0 < i < |all| ensures !Mergeable(all[i - 1], all[i]) {
      if i > 1 {
        assert !Mergeable(ns[i - 2], ns[i - 1]);
      }
    }
  }

  lemma {:induction false} CutNodeNormal(n: Node, from: int, to: int)
    requires NormalNode(n) && from < to && from < NodeSize(n) && 0 < to
    ensures NormalNode(CutNode(n, from, to)) && SameKind(CutNode(n, from, to), n)
    decreases n, 2
  {
    hide Tokens, NodeTokens, Unmerged;
    if n.Elem? {
      CutNormal(n.content, Max(0, from - 1), Min(Size(n.content), to - 1));
    }
  }

  lemma AppendNormal(a: seq<Node>, b: seq<Node>)
    requires Normal(a) && Normal(b)
    ensures Normal(Append(a, b))
  {
    hide NormalNode;
    if a != [] && b != [] {
      var r := Append(a, b);
      var last := |a| - 1;
      var merged := Mergeable(a[last], b[0]);
      if merged {
        assert NormalNode(r[last]) by {
          MergedNormal(a[last], b[0]);
        }
      }
      forall i | 0 <= i < |r| ensures NormalNode(r[i]) {
        if i < last {
          assert r[i] == a[i] && NormalNode(a[i]);
        } else if i > last {
          assert r[i] == b[if merged then i - last else i - |a|];
        } else if !merged {
          assert r[i] == a[i] && NormalNode(a[i]);
        }
      }
      forall i | 0 < i < |r| ensures !Mergeable(r[i - 1], r[i]) {
        if i <= last {
          assert !Mergeable(a[i - 1], a[i]);
        } else if merged {
          assert !Mergeable(b[i - last - 1], b[i - last]);
        } else if i > |a| {
          assert !Mergeable(b[i - |a| - 1], b[i - |a|]);
        }
      }
    }
  }

  lemma MergedNormal(a: Node, b: Node)
    requires Mergeable(a, b) && NormalNode(a)
    ensures NormalNode(Text(b.markup, a.text + b.text))
  {
  }

  lemma AppendValid(s: Schema, a: seq<Node>, b: seq<Node>)
    requires ValidNodes(s, a) && ValidNodes(s, b)
    ensures ValidNodes(s, Append(a, b))
  {
    hide Markups;
    if a != [] && b != [] {
      var r := Append(a, b);
      var last := |a| - 1;
      var merged := Mergeable(a[last], b[0]);
      forall i | 0 <= i < |r| ensures ValidNode(s, r[i]) {
        if i < last || (i == last && !merged) {
          assert r[i] == a[i] && ValidNode(s, a[i]);
        } else if i > last {
          var j := if merged then i - last else i - |a|;
          assert r[i] == b[j] && ValidNode(s, b[j]);
        }
      }
    }
  }

  /** The children before a position that is in no child, with the text it cuts. */
  function PiecesBefore(p: Pos): seq<Node>
    requires Valid(p) && p.Here?
  {
    p.node.content[..p.index] + if TextOffset(p) != 0 then [NodeBefore(p)] else []
  }

  function PiecesAfter(p: Pos): seq<Node>
    requires Valid(p) && p.Here?
  {
    if TextOffset(p) != 0 then [NodeAfter(p)] + p.node.content[p.index + 1..] else p.node.content[p.index..]
  }

  lemma NormalRange(ns: seq<Node>, i: nat, j: nat)
    requires Normal(ns) && i <= j <= |ns|
    ensures Normal(ns[i..j])
  {
    hide NormalNode;
    var part := ns[i..j];
    forall k | 0 <= k < |part| ensures NormalNode(part[k]) {
      assert NormalNode(ns[i + k]);
    }
    forall k | 0 < k < |part| ensures !Mergeable(part[k - 1], part[k]) {
      assert !Mergeable(ns[i + k - 1], ns[i + k]);
    }
  }

  lemma PushNormal(ns: seq<Node>, n: Node)
    requires NormalNode(n) && Normal(ns)
    requires ns != [] ==> !Mergeable(ns[|ns| - 1], n)
    ensures Normal(ns + [n])
  {
    hide NormalNode;
    assert AddNode(n, ns) == ns + [n];
    AddNodeNormal(n, ns);
  }

  lemma CutIsBefore(p: Pos)
    requires Valid(p) && p.Here? && NormalNode(p.node)
    ensures p.offset <= Size(p.node.content)
    ensures Cut(p.node.content, 0, p.offset) == PiecesBefore(p)
  {
    hide Tokens, NodeTokens, Cut, Left, Unmerged, Size, NodeSize;
    var ns := p.node.content;
    var i := p.index;
    NormalNodeIsProper(p.node);
    LeftRightSlices(p);
    FlatCutBefore(p);
    CutNormal(ns, 0, p.offset);
    NormalRange(ns, 0, i);
    assert ns[0..i] == ns[..i];
    ChildSplit(ns, i);
    if TextOffset(p) != 0 {
      TextSplit(ns, i, TextOffset(p));
      TokensPush(ns[..i], NodeBefore(p));
      assert NormalNode(ns[i]);
      TextPartNormal(ns, p);
      PushNormal(ns[..i], NodeBefore(p));
    } else {
      assert PiecesBefore(p) == ns[..i];
    }
    NormalTreesEqual(Cut(ns, 0, p.offset), PiecesBefore(p));
  }

  lemma TextPartNormal(ns: seq<Node>, p: Pos)
    requires Valid(p) && p.Here? && TextOffset(p) != 0 && p.node.content == ns && Normal(ns)
    ensures NormalNode(NodeBefore(p)) && NormalNode(NodeAfter(p))
    ensures p.index > 0 ==> !Mergeable(ns[p.index - 1], NodeBefore(p))
    ensures p.index + 1 < |ns| ==> !Mergeable(NodeAfter(p), ns[p.index + 1])
  {
    hide Tokens, Size;
    if p.index > 0 {
      assert !Mergeable(ns[p.index - 1], ns[p.index]);
    }
    if p.index + 1 < |ns| {
      assert !Mergeable(ns[p.index], ns[p.index + 1]);
    }
  }

  lemma CutIsAfter(p: Pos)
    requires Valid(p) && p.Here? && NormalNode(p.node)
    ensures p.offset <= Size(p.node.content)
    ensures Cut(p.node.content, p.offset, Size(p.node.content)) == PiecesAfter(p)
  {
    hide Tokens, NodeTokens, Cut, Right, Unmerged, Size, NodeSize;
    var ns := p.node.content;
    var i := p.index;
    NormalNodeIsProper(p.node);
    LeftRightSlices(p);
    FlatCutAfter(p);
    CutNormal(ns, p.offset, Size(ns));
    ChildSplit(ns, i);
    if TextOffset(p) != 0 {
      NormalRange(ns, i + 1, |ns|);
      assert ns[i + 1..|ns|] == ns[i + 1..];
      TextSplit(ns, i, TextOffset(p));
      TokensFirst([NodeAfter(p)] + ns[i + 1..]);
      assert ([NodeAfter(p)] + ns[i + 1..])[1..] == ns[i + 1..];
      TextPartNormal(ns, p);
      PrependNormal(NodeAfter(p), ns[i + 1..]);
    } else {
      NormalRange(ns, i, |ns|);
      assert ns[i..|ns|] == ns[i..];
    }
    NormalTreesEqual(Cut(ns, p.offset, Size(ns)), PiecesAfter(p));
  }

  /** A closed slice put between two positions in no child: normal, and valid if everything was. */
  lemma FlatResult(s: Schema, from: Pos, to: Pos, content: seq<Node>)
    requires Valid(from) && Valid(to) && from.node == to.node && from.Here? && to.Here?
    requires from.offset <= Size(from.node.content) && to.offset <= Size(from.node.content)
    requires NormalNode(from.node) && Normal(content)
    ensures var r := ReplaceFlat(from.node.content, from.offset, to.offset, content);
            && Normal(r)
            && (ValidNodes(s, from.node.content) && ValidNodes(s, content) ==> ValidNodes(s, r))
  {
    hide Cut, Append, Unmerged, NodeSize, ValidNode;
    var ns := from.node.content;
    var a, b := Cut(ns, 0, from.offset), Cut(ns, to.offset, Size(ns));
    CutNormal(ns, 0, from.offset);
    CutNormal(ns, to.offset, Size(ns));
    AppendNormal(a, content);
    AppendNormal(Append(a, content), b);
    if ValidNodes(s, ns) && ValidNodes(s, content) {
      PiecesValid(s, from, to);
      AppendValid(s, a, content);
      AppendValid(s, Append(a, content), b);
    }
  }

  lemma PiecesValid(s: Schema, from: Pos, to: Pos)
    requires Valid(from) && Valid(to) && from.node == to.node && from.Here? && to.Here?
    requires from.offset <= Size(from.node.content) && to.offset <= Size(from.node.content)
    requires NormalNode(from.node) && ValidNodes(s, from.node.content)
    ensures ValidNodes(s, Cut(from.node.content, 0, from.offset))
    ensures ValidNodes(s, Cut(from.node.content, to.offset, Size(from.node.content)))
  {
    hide Cut, Unmerged, NodeSize, Markups;
    CutIsBefore(from);
    CutIsAfter(to);
    forall i | 0 <= i < |PiecesBefore(from)| ensures ValidNode(s, PiecesBefore(from)[i]) {
      if i < from.index {
        assert ValidNode(s, from.node.content[i]);
      }
    }
    forall i | 0 <= i < |PiecesAfter(to)| ensures ValidNode(s, PiecesAfter(to)[i]) {
      if TextOffset(to) == 0 || i > 0 {
        assert ValidNode(s, to.node.content[to.index + i]);
      }
    }
  }
}
