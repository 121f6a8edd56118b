/**
  When a replacement succeeds, and with what: which joins are checked, which contents,
  and what shape the result has.
 */
module Outcomes {
  import opened Options
  import opened Sequences
  import opened Documents
  import opened Positions
  import opened Replace
  import opened Splice

  // ---------------------------------------------------------------- tokens of the whole replacement

  function SliceTokens(slice: Slice): seq<Token>
    requires slice.openStart + slice.openEnd <= Size(slice.content)
  {
    Trimmed(Tokens(slice.content), slice.openStart, slice.openEnd)
  }

  lemma SliceHasTokens(slice: Slice)
    requires WellFormed(slice)
    ensures slice.openStart + slice.openEnd <= Size(slice.content)
  {
    OpensLeftSize(slice.content, slice.openStart);
    OpensRightSize(slice.content, slice.openEnd);
  }

  lemma {:induction false} WrapTokens(along: Pos, levels: nat, slice: Slice)
    requires levels <= Depth(along) && WellFormed(slice)
    ensures slice.openStart + slice.openEnd <= Size(slice.content)
    ensures var wrapped := Wrap(along, levels, slice.content);
            && slice.openStart + levels + (slice.openEnd + levels) <= Size(wrapped.content)
            && Trimmed(Tokens(wrapped.content), slice.openStart + levels, slice.openEnd + levels) == SliceTokens(slice)
    decreases levels
  {
    hide Tokens, NodeTokens, Proper, Size, NodeSize, OpensLeft, OpensRight;
    SliceHasTokens(slice);
    if levels > 0 {
      WrapTokens(along.inner, levels - 1, slice);
      TrimmedSingle(Wrap(along.inner, levels - 1, slice.content), slice.openStart + levels, slice.openEnd + levels);
    }
  }

  lemma FlatTokens(from: Pos, to: Pos, content: seq<Node>)
    requires Valid(from) && Valid(to) && from.node == to.node && from.Here? && to.Here?
    requires ProperNode(from.node)
    requires from.offset <= Size(from.node.content) && to.offset <= Size(from.node.content)
    ensures Tokens(ReplaceFlat(from.node.content, from.offset, to.offset, content))
         == Left(from) + Tokens(content) + Right(to)
  {
    var ns := from.node.content;
    FlatCutBefore(from);
    FlatCutAfter(to);
    AppendTokens(Cut(ns, 0, from.offset), content);
    AppendTokens(Append(Cut(ns, 0, from.offset), content), Cut(ns, to.offset, Size(ns)));
  }

  lemma FlatCutBefore(p: Pos)
    requires Valid(p) && p.Here? && ProperNode(p.node) && p.offset <= Size(p.node.content)
    ensures Tokens(Cut(p.node.content, 0, p.offset)) == Left(p)
  {
    hide Tokens, NodeTokens, Left, Right, OpenAfter, CutFrom;
    TokensNone();
    var ts := Tokens(p.node.content);
    LeftRightSlices(p);
    AroundIsOpen(p, []);
    NodesNeutral(p.node.content);
    EnclosingAll(ts);
    if p.offset > 0 {
      CutTokens(p.node.content, 0, p.offset);
      assert Opens([]) + ts[0..p.offset] + Closes(0) == ts[..p.offset];
    }
  }

  lemma FlatCutAfter(p: Pos)
    requires Valid(p) && p.Here? && ProperNode(p.node) && p.offset <= Size(p.node.content)
    ensures Tokens(Cut(p.node.content, p.offset, Size(p.node.content))) == Right(p)
  {
    hide Tokens, NodeTokens, Left, Right, OpenAfter, CutFrom;
    TokensNone();
    var ts := Tokens(p.node.content);
    LeftRightSlices(p);
    AroundIsOpen(p, []);
    NodesNeutral(p.node.content);
    EnclosingAll(ts);
    if p.offset < |ts| {
      CutTokens(p.node.content, p.offset, |ts|);
      assert Opens([]) + ts[p.offset..|ts|] + Closes(0) == ts[p.offset..];
    }
  }

  lemma ContentTokens(s: Schema, from: Pos, to: Pos, slice: Slice)
    requires Replaceable(from, to, slice)
    requires ReplaceContent(s, from, to, slice).Ok?
    ensures slice.openStart + slice.openEnd <= Size(slice.content)
    ensures Tokens(ReplaceContent(s, from, to, slice).value) == Left(from) + SliceTokens(slice) + Right(to)
  {
    hide Tokens, NodeTokens, OpenEnds, OpensLeft, OpensRight, AddRange, Proper, Left, Right, Size, NodeSize, ReplaceFlat, ProperNode;
    TokensNone();
    SliceHasTokens(slice);
    if Size(slice.content) != 0 {
      if slice.openStart == 0 && slice.openEnd == 0 && from.Here? && to.Here? {
        HereInRange(from);
        HereInRange(to);
        FlatTokens(from, to, slice.content);
        assert SliceTokens(slice) == Tokens(slice.content);
      } else {
        var (start, end) := PrepareSlice(slice, from);
        PreparedEnds(slice, from);
        ContentThreeWay(s, from, start, end, to, slice);
      }
    } else {
      EmptySlice(slice);
      TwoWayTokens(s, from, to);
      assert Left(from) + [] + Right(to) == Left(from) + Right(to);
    }
  }

  lemma ContentThreeWay(s: Schema, from: Pos, start: Pos, end: Pos, to: Pos, slice: Slice)
    requires Replaceable(from, to, slice)
    requires slice.openStart + slice.openEnd <= Size(slice.content)
    requires start.node == Wrap(from, Depth(from) - slice.openStart, slice.content)
    requires OpenEnds(start.node, Depth(from), Depth(to), start, end)
    requires ReplaceThreeWay(s, from, start, end, to).Ok?
    ensures Tokens(ReplaceThreeWay(s, from, start, end, to).value) == Left(from) + SliceTokens(slice) + Right(to)
  {
    hide Tokens, NodeTokens, OpenEnds, OpensLeft, OpensRight, AddRange, Proper, StartPos, EndPos, Left, Right, Size, Valid, ReplaceThreeWay, Wrap, ProperNode;
    WrapTokens(from, Depth(from) - slice.openStart, slice);
    ThreeWayTokens(s, from, start.node, Depth(from), Depth(to), start, end, to);
  }

  lemma {:induction false} OuterTokens(s: Schema, from: Pos, to: Pos, slice: Slice)
    requires Replaceable(from, to, slice)
    requires ReplaceOuter(s, from, to, slice).Ok?
    ensures slice.openStart + slice.openEnd <= Size(slice.content)
    ensures var r := ReplaceOuter(s, from, to, slice).value;
            && r.Elem? && r.markup == from.node.markup
            && Tokens(r.content) == Left(from) + SliceTokens(slice) + Right(to)
    decreases from
  {
    hide Tokens, NodeTokens, ReplaceContent, Left, Right, Proper, OpensLeft, OpensRight;
    SliceHasTokens(slice);
    if from.index == to.index && slice.openStart < Depth(from) {
      SameChild(from, to);
      OuterTokens(s, from.inner, to.inner, slice);
      var inner := ReplaceOuter(s, from.inner, to.inner, slice).value;
      UpdatedChild(from, to, inner, SliceTokens(slice));
    } else {
      ContentTokens(s, from, to, slice);
    }
  }

  lemma UpdatedChild(from: Pos, to: Pos, inner: Node, middle: seq<Token>)
    requires Valid(from) && Valid(to) && from.node == to.node && from.index == to.index
    requires from.Inside? && to.Inside?
    requires inner.Elem? && inner.markup == from.inner.node.markup
    requires Tokens(inner.content) == Left(from.inner) + middle + Right(to.inner)
    ensures Tokens(from.node.content[from.index := inner]) == Left(from) + middle + Right(to)
  {
    var ns := from.node.content;
    var i := from.index;
    var updated := ns[i := inner];
    TokensSplit(updated, i);
    assert updated[..i] == ns[..i] && updated[i + 1..] == ns[i + 1..];
    Nested(Before(from), [Open(inner.markup)], Left(from.inner), middle, Right(to.inner), [Close], After(to));
    Assoc(Before(from), NodeTokens(inner), After(to));
  }

  // ---------------------------------------------------------------- collecting keeps trees normal and valid

  lemma AddNodeNormal(child: Node, target: seq<Node>)
    requires NormalNode(child) && Normal(target)
    ensures Normal(AddNode(child, target))
  {
    var r := AddNode(child, target);
    var last := |target| - 1;
    forall i | 0 < i < |r| ensures !Mergeable(r[i - 1], r[i]) {
      if i <= last {
        assert !Mergeable(target[i - 1], target[i]);
      }
    }
    forall i | 0 <= i < |r| ensures NormalNode(r[i]) {
      if i <= last {
        assert NormalNode(target[i]);
      }
    }
  }

  lemma {:induction false} AddNodesNormal(children: seq<Node>, target: seq<Node>)
    requires (forall i :: 0 <= i < |children| ==> NormalNode(children[i])) && Normal(target)
    ensures Normal(AddNodes(children, target))
    decreases children
  {
    hide Normal, NormalNode, AddNode;
    if children != [] {
      AddNodeNormal(children[0], target);
      AddNodesNormal(children[1..], AddNode(children[0], target));
    }
  }

  lemma AddRangeNormal(start: Option<Pos>, end: Option<Pos>, target: seq<Node>)
    requires start.Some? || end.Some?
    requires start.Some? ==> Valid(start.value) && NormalNode(start.value.node)
    requires end.Some? ==> Valid(end.value) && NormalNode(end.value.node)
    requires start.Some? && end.Some? ==> start.value.node == end.value.node
    requires Normal(target)
    ensures Normal(AddRange(start, end, target))
  {
    hide AddNode, AddNodes, Unmerged, Size, NodeSize;
    if start.Some? && start.value.Here? && TextOffset(start.value) != 0 {
      AddNodeNormal(NodeAfter(start.value), target);
    }
    var (first, begun) := AddStart(start, target);
    var node := if end.Some? then end.value.node else start.value.node;
    var stop := if end.Some? then end.value.index else |node.content|;
    var all := if first <= stop then AddNodes(node.content[first..stop], begun) else begun;
    if first <= stop {
      AddNodesNormal(node.content[first..stop], begun);
    }
    if end.Some? && end.value.Here? && TextOffset(end.value) != 0 {
      AddNodeNormal(NodeBefore(end.value), all);
    }
  }

  /** Every element, at any depth, has content its type accepts. */
  ghost predicate ValidNodes(s: Schema, ns: seq<Node>)
    decreases ns, 0
  {
    forall i :: 0 <= i < |ns| ==> ValidNode(s, ns[i])
  }

  ghost predicate ValidNode(s: Schema, n: Node)
    decreases n, 1
  {
    n.Elem? ==> s.accepts(n.markup.typ, Markups(n.content)) && ValidNodes(s, n.content)
  }

  lemma AddNodeValid(s: Schema, child: Node, target: seq<Node>)
    ensures ValidNodes(s, AddNode(child, target)) <==> ValidNode(s, child) && ValidNodes(s, target)
  {
    hide Markups;
    var r := AddNode(child, target);
    var last := |target| - 1;
    assert forall i :: 0 <= i < last ==> r[i] == target[i];
    if last >= 0 && Mergeable(target[last], child) {
      assert ValidNode(s, r[last]) && ValidNode(s, target[last]);
      if ValidNodes(s, r) {
        forall i | 0 <= i < |target| ensures ValidNode(s, target[i]) {
          assert ValidNode(s, r[i]);
        }
      }
    } else {
      assert r[last + 1] == child;
      if ValidNodes(s, r) {
        assert ValidNode(s, r[last + 1]);
        forall i | 0 <= i < |target| ensures ValidNode(s, target[i]) {
          assert ValidNode(s, r[i]);
        }
      }
    }
  }

  lemma {:induction false} AddNodesValid(s: Schema, children: seq<Node>, target: seq<Node>)
    ensures ValidNodes(s, AddNodes(children, target)) <==> ValidNodes(s, children) && ValidNodes(s, target)
    decreases children
  {
    hide AddNode, ValidNode;
    if children != [] {
      AddNodeValid(s, children[0], target);
      AddNodesValid(s, children[1..], AddNode(children[0], target));
      if ValidNodes(s, children[1..]) && ValidNode(s, children[0]) {
        forall i | 0 <= i < |children| ensures ValidNode(s, children[i]) {
          if i > 0 {
            assert ValidNode(s, children[1..][i - 1]);
          }
        }
      }
      if ValidNodes(s, children) {
        assert ValidNode(s, children[0]);
        forall i | 0 <= i < |children[1..]| ensures ValidNode(s, children[1..][i]) {
          assert ValidNode(s, children[i + 1]);
        }
      }
    }
  }

  lemma ValidPart(s: Schema, ns: seq<Node>, i: nat, j: nat)
    requires i <= j <= |ns| && ValidNodes(s, ns)
    ensures ValidNodes(s, ns[i..j])
  {
    hide ValidNode;
    forall k | 0 <= k < |ns[i..j]| ensures ValidNode(s, ns[i..j][k]) {
      assert ValidNode(s, ns[i + k]);
    }
  }

  /** Collected children do not affect what was collected before; valid ones keep everything valid. */
  lemma AddRangeValid(s: Schema, start: Option<Pos>, end: Option<Pos>, target: seq<Node>)
    requires start.Some? || end.Some?
    requires start.Some? ==> Valid(start.value)
    requires end.Some? ==> Valid(end.value)
    requires start.Some? && end.Some? ==> start.value.node == end.value.node
    ensures ValidNodes(s, AddRange(start, end, target)) ==> ValidNodes(s, target)
    ensures var node := if end.Some? then end.value.node else start.value.node;
            var first := AddStart(start, target).0;
            var stop := if end.Some? then end.value.index else |node.content|;
            ValidNodes(s, target) && (first <= stop ==> ValidNodes(s, node.content[first..stop]))
            ==> ValidNodes(s, AddRange(start, end, target))
  {
    hide AddNode, AddNodes, ValidNodes, Size, NodeSize;
    if start.Some? && start.value.Here? && TextOffset(start.value) != 0 {
      AddNodeValid(s, NodeAfter(start.value), target);
    }
    var (first, begun) := AddStart(start, target);
    var node := if end.Some? then end.value.node else start.value.node;
    var stop := if end.Some? then end.value.index else |node.content|;
    var all := if first <= stop then AddNodes(node.content[first..stop], begun) else begun;
    if first <= stop {
      AddNodesValid(s, node.content[first..stop], begun);
    }
    if end.Some? && end.value.Here? && TextOffset(end.value) != 0 {
      AddNodeValid(s, NodeBefore(end.value), all);
    }
  }

  /** The children left of the position are valid, at every level; likewise right of it. */
  ghost predicate ValidBefore(s: Schema, p: Pos)
    requires Valid(p)
  {
    ValidNodes(s, p.node.content[..p.index]) && (p.Inside? ==> ValidBefore(s, p.inner))
  }

  ghost predicate ValidAfter(s: Schema, p: Pos)
    requires Valid(p)
  {
    ValidNodes(s, p.node.content[if p.Inside? then p.index + 1 else p.index..]) && (p.Inside? ==> ValidAfter(s, p.inner))
  }

  lemma {:induction false} ValidAround(s: Schema, p: Pos)
    requires Valid(p) && ValidNodes(s, p.node.content)
    ensures ValidBefore(s, p) && ValidAfter(s, p)
    decreases p
  {
    hide Markups;
    var ns := p.node.content;
    ValidPart(s, ns, 0, p.index);
    assert ns[0..p.index] == ns[..p.index];
    if p.Inside? {
      ValidPart(s, ns, p.index + 1, |ns|);
      assert ns[p.index + 1..|ns|] == ns[p.index + 1..];
      assert ValidNode(s, ns[p.index]);
      ValidAround(s, p.inner);
    } else {
      ValidPart(s, ns, p.index, |ns|);
      assert ns[p.index..|ns|] == ns[p.index..];
    }
  }

  lemma AddBeforeValid(s: Schema, end: Pos)
    requires Valid(end) && ValidBefore(s, end)
    ensures ValidNodes(s, AddRange(None, Some(end), []))
  {
    hide ValidNode, AddRange;
    assert end.node.content[0..end.index] == end.node.content[..end.index];
    AddRangeValid(s, None, Some(end), []);
  }

  lemma AddAfterValid(s: Schema, start: Pos, target: seq<Node>)
    requires Valid(start) && ValidAfter(s, start) && ValidNodes(s, target)
    ensures ValidNodes(s, AddRange(Some(start), None, target))
  {
    hide ValidNode, ValidNodes, AddRange, AddStart, Valid;
    FirstWhole(start, target);
    var ns := start.node.content;
    var first := AddStart(Some(start), target).0;
    var i := if start.Inside? then start.index + 1 else start.index;
    ValidPart(s, ns[i..], first - i, |ns| - i);
    assert ns[i..][first - i..|ns| - i] == ns[first..|ns|];
    AddRangeValid(s, Some(start), None, target);
  }

  lemma FirstWhole(start: Pos, target: seq<Node>)
    requires Valid(start)
    ensures start.node.Elem?
    ensures (if start.Inside? then start.index + 1 else start.index) <= AddStart(Some(start), target).0 <= |start.node.content|
  {
    hide Size, NodeSize, AddNode, Tokens, NodeTokens, Left, Right;
  }
}
