/**
  `replace` as a specification: it succeeds exactly when the depths agree, the joined
  types are compatible, and the spliced token list is that of a valid document, and it
  then returns that document.
 */
module ReplaceExactly {
  import opened Sequences
  import opened Documents
  import opened Positions
  import opened Replace
  import opened Splice
  import opened Outcomes
  import opened Exactness
  import opened Cutting

  // ---------------------------------------------------------------- joins of the whole replacement

  /** The markups of the first (last) children a slice is open in. */
  function LeftMarks(ns: seq<Node>, depth: nat): (ms: seq<Markup>)
    requires OpensLeft(ns, depth)
    ensures |ms| == depth
    decreases depth
  {
    if depth == 0 then [] else [ns[0].markup] + LeftMarks(ns[0].content, depth - 1)
  }

  function RightMarks(ns: seq<Node>, depth: nat): (ms: seq<Markup>)
    requires OpensRight(ns, depth)
    ensures |ms| == depth
    decreases depth
  {
    if depth == 0 then [] else [ns[|ns| - 1].markup] + RightMarks(ns[|ns| - 1].content, depth - 1)
  }

  lemma {:induction false} AroundStart(node: Node, a: nat)
    requires node.Elem? && OpensLeft(node.content, a)
    ensures Around(StartPos(node, a)) == LeftMarks(node.content, a)
    decreases a
  {
    if a > 0 {
      AroundStart(node.content[0], a - 1);
      StartPosValid(node.content[0], a - 1);
    }
  }

  lemma {:induction false} AroundEnd(node: Node, b: nat)
    requires node.Elem? && OpensRight(node.content, b)
    ensures Around(EndPos(node, b)) == RightMarks(node.content, b)
    decreases b
  {
    if b > 0 {
      AroundEnd(node.content[|node.content| - 1], b - 1);
      EndPosValid(node.content[|node.content| - 1], b - 1);
    }
  }

  lemma {:induction false} WrapMarks(along: Pos, levels: nat, slice: Slice)
    requires levels <= Depth(along) && WellFormed(slice)
    ensures var ns := Wrap(along, levels, slice.content).content;
            && OpensLeft(ns, slice.openStart + levels) && OpensRight(ns, slice.openEnd + levels)
            && LeftMarks(ns, slice.openStart + levels)
               == Around(along)[..levels] + LeftMarks(slice.content, slice.openStart)
            && RightMarks(ns, slice.openEnd + levels)
               == Around(along)[..levels] + RightMarks(slice.content, slice.openEnd)
    decreases levels
  {
    hide Normal, Proper, Tokens, Size, NodeSize, NodeTokens;
    WrapOpens(along, levels, slice);
    if levels > 0 {
      WrapMarks(along.inner, levels - 1, slice);
      assert Around(along)[..levels] == [along.inner.node.markup] + Around(along.inner)[..levels - 1];
      Assoc([along.inner.node.markup], Around(along.inner)[..levels - 1], LeftMarks(slice.content, slice.openStart));
      Assoc([along.inner.node.markup], Around(along.inner)[..levels - 1], RightMarks(slice.content, slice.openEnd));
    }
  }

  /**
    The joins a replacement makes, in terms of the nodes around its two ends (`f` and `t`):
    the slice's start continues `f`, and `t` continues the slice's end; outside the slice,
    `t` continues `f`.
   */
  ghost predicate Joins(s: Schema, f: seq<Markup>, t: seq<Markup>, slice: Slice)
    requires WellFormed(slice) && slice.openStart <= |f| && |f| - slice.openStart == |t| - slice.openEnd
  {
    var shared := f[..|f| - slice.openStart];
    && AllCompatible(s, shared + LeftMarks(slice.content, slice.openStart), f)
    && AllCompatible(s, t, shared + RightMarks(slice.content, slice.openEnd))
  }

  lemma AllCompatibleReflexive(s: Schema, a: seq<Markup>)
    ensures AllCompatible(s, a, a)
  {
  }

  // ---------------------------------------------------------------- the rebuilt node

  lemma PreparedAligned(from: Pos, to: Pos, slice: Slice)
    requires Replaceable(from, to, slice)
    ensures var (start, end) := PrepareSlice(slice, from);
            && Aligned(from, start, end, to)
            && OpenEnds(start.node, Depth(from), Depth(to), start, end)
            && start.node == Wrap(from, Depth(from) - slice.openStart, slice.content)
  {
    hide Normal, Proper, Tokens, Wrap, OpensLeft, OpensRight, ProperNode, PrepareSlice, OpenEnds;
    PreparedEnds(slice, from);
  }

  lemma PreparedAround(from: Pos, to: Pos, slice: Slice)
    requires Replaceable(from, to, slice)
    ensures var (start, end) := PrepareSlice(slice, from);
            var shared := Around(from)[..Depth(from) - slice.openStart];
            && Around(start) == shared + LeftMarks(slice.content, slice.openStart)
            && Around(end) == shared + RightMarks(slice.content, slice.openEnd)
  {
    hide Normal, Proper, Tokens, Wrap, Around, ProperNode, PrepareSlice, OpenEnds, OpensLeft, OpensRight, Replaceable, Valid, LeftMarks,
         RightMarks;
    ReplaceableParts(from, to, slice);
    var (start, end) := PrepareSlice(slice, from);
    PreparedAligned(from, to, slice);
    WrappedAround(from, Depth(from) - slice.openStart, slice, start, end);
  }

  lemma WrappedAround(along: Pos, levels: nat, slice: Slice, start: Pos, end: Pos)
    requires levels <= Depth(along) && WellFormed(slice)
    requires OpenEnds(Wrap(along, levels, slice.content), slice.openStart + levels, slice.openEnd + levels, start, end)
    ensures Around(start) == Around(along)[..levels] + LeftMarks(slice.content, slice.openStart)
    ensures Around(end) == Around(along)[..levels] + RightMarks(slice.content, slice.openEnd)
  {
    hide Normal, Proper, Tokens, Wrap, Around, StartPos, EndPos, LeftMarks, RightMarks, Valid, OpensLeft, OpensRight, Size;
    WrapMarks(along, levels, slice);
    AroundStart(start.node, slice.openStart + levels);
    AroundEnd(end.node, slice.openEnd + levels);
  }

  lemma PreparedJoins(s: Schema, from: Pos, to: Pos, slice: Slice)
    requires Replaceable(from, to, slice)
    ensures var (start, end) := PrepareSlice(slice, from);
            && Aligned(from, start, end, to)
            && OpenEnds(start.node, Depth(from), Depth(to), start, end)
            && start.node == Wrap(from, Depth(from) - slice.openStart, slice.content)
            && (AllCompatible(s, Around(start), Around(from)) && AllCompatible(s, Around(to), Around(end))
                <==> Joins(s, Around(from), Around(to), slice))
  {
    hide AllCompatible, Normal, Proper, Tokens, Wrap, Around, OpensLeft, OpensRight, ProperNode, PrepareSlice, OpenEnds, LeftMarks, RightMarks;
    PreparedAligned(from, to, slice);
    PreparedAround(from, to, slice);
  }

  predicate IsFlat(from: Pos, to: Pos, slice: Slice) {
    Size(slice.content) != 0 && slice.openStart == 0 && slice.openEnd == 0 && from.Here? && to.Here?
  }

  lemma ContentLenient(from: Pos, to: Pos, slice: Slice)
    requires Replaceable(from, to, slice)
    ensures ReplaceContent(Lenient(), from, to, slice).Ok?
  {
    hide Normal, Proper, Tokens, ProperNode, ReplaceThreeWay, ReplaceTwoWay, ReplaceFlat, PrepareSlice, OpensLeft, OpensRight;
    if Size(slice.content) == 0 {
      EmptySlice(slice);
      TwoWayLenient(from, to);
    } else if !IsFlat(from, to, slice) {
      PreparedJoins(Lenient(), from, to, slice);
      var (start, end) := PrepareSlice(slice, from);
      ThreeWayLenient(from, start, end, to);
    }
  }

  lemma TrivialJoins(s: Schema, f: seq<Markup>, slice: Slice, t: seq<Markup>)
    requires WellFormed(slice) && slice.openStart == 0 && slice.openEnd == 0 && |f| == |t|
    ensures Joins(s, f, t, slice) <==> AllCompatible(s, t, f)
  {
    AllCompatibleReflexive(s, f);
    assert f[..|f|] + [] == f;
  }

  lemma ContentSound(s: Schema, from: Pos, to: Pos, slice: Slice)
    requires Replaceable(from, to, slice)
    requires ReplaceContent(s, from, to, slice).Ok?
    ensures Joins(s, Around(from), Around(to), slice)
    ensures ReplaceContent(s, from, to, slice) == ReplaceContent(Lenient(), from, to, slice)
  {
    hide Normal, Proper, Tokens, ProperNode, ReplaceThreeWay, ReplaceTwoWay, ReplaceFlat, PrepareSlice, Around, AllCompatible, Joins, OpensLeft, OpensRight, OpenEnds, Wrap;
    if Size(slice.content) == 0 {
      EmptySlice(slice);
      TwoWaySound(s, from, to);
      TrivialJoins(s, Around(from), slice, Around(to));
    } else if IsFlat(from, to, slice) {
      AllCompatibleReflexive(s, Around(from));
      AroundHere(from, to);
      TrivialJoins(s, Around(from), slice, Around(to));
    } else {
      PreparedJoins(s, from, to, slice);
      var (start, end) := PrepareSlice(slice, from);
      ThreeWaySound(s, from, start, end, to);
    }
  }

  lemma AroundHere(from: Pos, to: Pos)
    requires from.Here? && to.Here?
    ensures Around(from) == Around(to) == []
  {
  }

  lemma ContentComplete(s: Schema, from: Pos, to: Pos, slice: Slice)
    requires Replaceable(from, to, slice)
    requires Joins(s, Around(from), Around(to), slice)
    requires var r := ReplaceContent(Lenient(), from, to, slice); r.Ok? && ValidNodes(s, r.value)
    ensures ReplaceContent(s, from, to, slice) == ReplaceContent(Lenient(), from, to, slice)
  {
    hide Normal, Proper, Tokens, ProperNode, ReplaceThreeWay, ReplaceTwoWay, ReplaceFlat, PrepareSlice, Around, AllCompatible, Joins, ValidNodes, OpensLeft, OpensRight, OpenEnds, Wrap;
    if Size(slice.content) == 0 {
      EmptySlice(slice);
      TrivialJoins(s, Around(from), slice, Around(to));
      TwoWayComplete(s, from, to);
    } else if !IsFlat(from, to, slice) {
      PreparedJoins(s, from, to, slice);
      var (start, end) := PrepareSlice(slice, from);
      ThreeWayComplete(s, from, start, end, to);
    }
  }

  ghost predicate ValidSlice(s: Schema, slice: Slice)
    requires WellFormed(slice)
  {
    OpenValid(s, slice.content, slice.openStart, slice.openEnd)
  }

  lemma {:induction false} WrapKeeps(s: Schema, along: Pos, levels: nat, slice: Slice)
    requires levels <= Depth(along) && WellFormed(slice)
    ensures var node := Wrap(along, levels, slice.content);
            && (Normal(slice.content) ==> NormalNode(node))
            && OpensLeft(node.content, slice.openStart + levels) && OpensRight(node.content, slice.openEnd + levels)
            && (ValidSlice(s, slice) ==> OpenValid(s, node.content, slice.openStart + levels, slice.openEnd + levels))
    decreases levels
  {
    hide Tokens, Size, NodeTokens, ValidNodes;
    WrapOpens(along, levels, slice);
    if levels > 0 {
      WrapKeeps(s, along.inner, levels - 1, slice);
    }
  }

  lemma ContentNormalValid(s: Schema, from: Pos, to: Pos, slice: Slice)
    requires Replaceable(from, to, slice) && NormalNode(from.node) && Normal(slice.content)
    requires ReplaceContent(s, from, to, slice).Ok?
    ensures Normal(ReplaceContent(s, from, to, slice).value)
    ensures ValidNodes(s, from.node.content) && ValidSlice(s, slice)
            ==> ValidNodes(s, ReplaceContent(s, from, to, slice).value)
  {
    hide Normal, NormalNode, Proper, Tokens, ProperNode, ReplaceThreeWay, ReplaceTwoWay, ReplaceFlat, PrepareSlice, Around, AllCompatible, Joins,
         ValidNodes, OpensLeft, OpensRight, OpenEnds, Wrap, ValidBefore, ValidAfter, OpenValid;
    if ValidNodes(s, from.node.content) {
      ValidAround(s, from);
      ValidAround(s, to);
    }
    if Size(slice.content) == 0 {
      EmptySlice(slice);
      TwoWayNormal(s, from, to);
      if ValidNodes(s, from.node.content) {
        TwoWayValid(s, from, to);
      }
    } else if IsFlat(from, to, slice) {
      HereInRange(from);
      HereInRange(to);
      ClosedSliceValid(s, slice);
      FlatResult(s, from, to, slice.content);
    } else {
      PreparedJoins(s, from, to, slice);
      var (start, end) := PrepareSlice(slice, from);
      WrapKeeps(s, from, Depth(from) - slice.openStart, slice);
      ThreeWayNormal(s, from, start, end, to);
      if ValidNodes(s, from.node.content) && ValidSlice(s, slice) {
        ThreeWayValid(s, from, start.node, Depth(from), Depth(to), start, end, to);
      }
    }
  }

  lemma ClosedSliceValid(s: Schema, slice: Slice)
    requires WellFormed(slice) && slice.openStart == 0 && slice.openEnd == 0
    ensures ValidSlice(s, slice) ==> ValidNodes(s, slice.content)
  {
    assert Inner(slice.content, 0, 0) == slice.content;
  }

  // ---------------------------------------------------------------- the descent

  lemma JoinsBelow(s: Schema, m: Markup, f: seq<Markup>, t: seq<Markup>, slice: Slice)
    requires WellFormed(slice) && slice.openStart <= |f| && |f| - slice.openStart == |t| - slice.openEnd
    ensures Joins(s, [m] + f, [m] + t, slice) <==> Joins(s, f, t, slice)
  {
    hide AllCompatible, LeftMarks, RightMarks, Normal, Proper, OpensLeft, OpensRight;
    var shared := f[..|f| - slice.openStart];
    var l, r := LeftMarks(slice.content, slice.openStart), RightMarks(slice.content, slice.openEnd);
    assert ([m] + f)[..|f| + 1 - slice.openStart] == [m] + shared;
    Assoc([m], shared, l);
    Assoc([m], shared, r);
    CompatibleCons(s, m, shared + l, m, f);
    CompatibleCons(s, m, t, m, shared + r);
  }

  lemma InnerReplaceable(from: Pos, to: Pos, slice: Slice)
    requires Replaceable(from, to, slice)
    requires from.index == to.index && slice.openStart < Depth(from)
    ensures to.Inside? && Replaceable(from.inner, to.inner, slice)
  {
    SameChild(from, to);
  }

  lemma {:induction false} OuterSound(s: Schema, from: Pos, to: Pos, slice: Slice)
    requires Replaceable(from, to, slice)
    requires ReplaceOuter(s, from, to, slice).Ok?
    ensures Joins(s, Around(from), Around(to), slice)
    ensures ReplaceOuter(s, from, to, slice) == ReplaceOuter(Lenient(), from, to, slice)
    decreases from
  {
    hide Normal, Proper, Tokens, ProperNode, ReplaceContent, AllCompatible, Joins, OpensLeft, OpensRight, Markups, Replaceable, WellFormed;
    if from.index == to.index && slice.openStart < Depth(from) {
      InnerReplaceable(from, to, slice);
      OuterSound(s, from.inner, to.inner, slice);
      ReplaceableParts(from, to, slice);
      ReplaceableParts(from.inner, to.inner, slice);
      JoinsBelow(s, from.inner.node.markup, Around(from.inner), Around(to.inner), slice);
    } else {
      ContentSound(s, from, to, slice);
    }
  }

  lemma ReplaceableParts(from: Pos, to: Pos, slice: Slice)
    requires Replaceable(from, to, slice)
    ensures WellFormed(slice) && from.node == to.node && Valid(from) && Valid(to)
    ensures slice.openStart <= Depth(from) && Depth(from) - slice.openStart == Depth(to) - slice.openEnd
  {
  }

  lemma {:induction false} OuterLenient(from: Pos, to: Pos, slice: Slice)
    requires Replaceable(from, to, slice)
    ensures ReplaceOuter(Lenient(), from, to, slice).Ok?
    decreases from
  {
    hide Normal, Proper, Tokens, ProperNode, ReplaceContent, OpensLeft, OpensRight, Replaceable;
    if from.index == to.index && slice.openStart < Depth(from) {
      InnerReplaceable(from, to, slice);
      OuterLenient(from.inner, to.inner, slice);
    } else {
      ContentLenient(from, to, slice);
    }
  }

  lemma {:induction false} OuterComplete(s: Schema, from: Pos, to: Pos, slice: Slice)
    requires Replaceable(from, to, slice)
    requires Joins(s, Around(from), Around(to), slice)
    requires var r := ReplaceOuter(Lenient(), from, to, slice); r.Ok? && ValidNode(s, r.value)
    ensures ReplaceOuter(s, from, to, slice) == ReplaceOuter(Lenient(), from, to, slice)
    decreases from
  {
    hide Normal, Proper, Tokens, ProperNode, ReplaceContent, AllCompatible, Joins, OpensLeft, OpensRight, Markups, Replaceable, WellFormed;
    if from.index == to.index && slice.openStart < Depth(from) {
      InnerReplaceable(from, to, slice);
      ReplaceableParts(from, to, slice);
      ReplaceableParts(from.inner, to.inner, slice);
      JoinsBelow(s, from.inner.node.markup, Around(from.inner), Around(to.inner), slice);
      var inner := ReplaceOuter(Lenient(), from.inner, to.inner, slice).value;
      var updated := from.node.content[from.index := inner];
      assert ValidNodes(s, updated);
      assert updated[from.index] == inner;
      OuterComplete(s, from.inner, to.inner, slice);
    } else {
      ContentComplete(s, from, to, slice);
    }
  }

  lemma {:induction false} OuterNormalValid(s: Schema, from: Pos, to: Pos, slice: Slice)
    requires Replaceable(from, to, slice) && NormalNode(from.node) && Normal(slice.content)
    requires ReplaceOuter(s, from, to, slice).Ok?
    ensures var r := ReplaceOuter(s, from, to, slice).value;
            && r.Elem? && r.markup == from.node.markup && NormalNode(r)
            && (ValidNode(s, from.node) && ValidSlice(s, slice) ==> ValidNode(s, r))
    decreases from
  {
    hide Tokens, ProperNode, ReplaceContent, OpensLeft, OpensRight, Replaceable, ValidSlice, Unmerged, ValidNodes, WellFormed;
    ReplaceableParts(from, to, slice);
    if from.index == to.index && slice.openStart < Depth(from) {
      InnerReplaceable(from, to, slice);
      OuterNormalValid(s, from.inner, to.inner, slice);
      ChildReplaced(s, from.node, from.index, ReplaceOuter(s, from.inner, to.inner, slice).value);
      if ValidNode(s, from.node) {
        ChildValid(s, from.node, from.index);
      }
    } else {
      ContentNormalValid(s, from, to, slice);
    }
  }

  lemma ChildValid(s: Schema, node: Node, i: nat)
    requires node.Elem? && i < |node.content| && ValidNode(s, node)
    ensures ValidNode(s, node.content[i])
  {
  }

  lemma ChildReplaced(s: Schema, node: Node, i: nat, child: Node)
    requires node.Elem? && i < |node.content| && node.content[i].Elem?
    requires child.Elem? && child.markup == node.content[i].markup
    requires NormalNode(node) && NormalNode(child)
    ensures var r := Elem(node.markup, node.content[i := child]);
            NormalNode(r) && (ValidNode(s, node) && ValidNode(s, child) ==> ValidNode(s, r))
  {
    var old_, new_ := node.content, node.content[i := child];
    assert Markups(old_) == Markups(new_) by {
      assert forall k :: 0 <= k < |new_| ==> new_[k].markup == old_[k].markup;
    }
    forall k | 0 < k < |new_| ensures !Mergeable(new_[k - 1], new_[k]) {
      assert !Mergeable(old_[k - 1], old_[k]);
    }
    forall k | 0 <= k < |new_| ensures NormalNode(new_[k]) {
      assert NormalNode(old_[k]);
    }
    if ValidNode(s, node) && ValidNode(s, child) {
      forall k | 0 <= k < |new_| ensures ValidNode(s, new_[k]) {
        ChildValid(s, node, k);
      }
    }
  }

  // ---------------------------------------------------------------- the theorem

  /** The markups of the nodes around an offset of a document, read off its tokens. */
  function Context(doc: Node, pos: nat): seq<Markup>
    requires doc.Elem? && pos <= Size(doc.content)
  {
    Enclosing(Tokens(doc.content), pos)
  }

  lemma ContextIsAround(doc: Node, pos: nat)
    requires doc.Elem? && ProperNode(doc) && pos <= Size(doc.content)
    ensures Context(doc, pos) == Around(Resolve(doc, pos))
    ensures var p := Resolve(doc, pos);
            && Valid(p) && p.node == doc && Offset(p) == pos
            && Left(p) == Tokens(doc.content)[..pos] && Right(p) == Tokens(doc.content)[pos..]
  {
    hide Tokens, Resolve, Left, Right, OpenAfter;
    ResolveValid(doc, pos);
    LeftRightSlices(Resolve(doc, pos));
    AroundIsOpen(Resolve(doc, pos), []);
    assert [] + Around(Resolve(doc, pos)) == Around(Resolve(doc, pos));
  }

  function Spliced(ts: seq<Token>, from: nat, to: nat, slice: Slice): seq<Token>
    requires from <= to <= |ts| && slice.openStart + slice.openEnd <= Size(slice.content)
  {
    ts[..from] + SliceTokens(slice) + ts[to..]
  }

  /**
    A slice fits a range: it is open no deeper than the range's start, closes to the
    depth of its end, and every join it makes is between compatible types.
   */
  ghost predicate Fits(s: Schema, doc: Node, from: nat, to: nat, slice: Slice)
    requires doc.Elem? && WellFormed(slice)
  {
    && from <= to <= Size(doc.content)
    && var f, t := Context(doc, from), Context(doc, to);
       && slice.openStart <= |f|
       && |f| - slice.openStart == |t| - slice.openEnd
       && Joins(s, f, t, slice)
  }

  lemma Opened(doc: Node, from: nat, to: nat, slice: Slice)
    requires doc.Elem? && ProperNode(doc) && WellFormed(slice) && from <= to <= Size(doc.content)
    ensures var f, t := Resolve(doc, from), Resolve(doc, to);
            slice.openStart <= Depth(f) && Depth(f) - slice.openStart == Depth(t) - slice.openEnd
            ==> Replaceable(f, t, slice)
  {
    hide Normal, Proper, Tokens, Resolve;
    ResolveValid(doc, from);
    ResolveValid(doc, to);
  }

  /** Whatever a replacement returns is the splice, and its slice fitted: for any document and slice. */
  lemma ReplaceSplices(s: Schema, doc: Node, from: nat, to: nat, slice: Slice)
    requires doc.Elem? && ProperNode(doc) && WellFormed(slice) && from <= to
    requires ReplaceRange(s, doc, from, to, slice).Ok?
    ensures slice.openStart + slice.openEnd <= Size(slice.content)
    ensures to <= Size(doc.content) && Fits(s, doc, from, to, slice)
    ensures var r := ReplaceRange(s, doc, from, to, slice).value;
            && r.Elem? && r.markup == doc.markup
            && Tokens(r.content) == Spliced(Tokens(doc.content), from, to, slice)
  {
    hide Normal, Proper, Tokens, NodeTokens, Resolve, Left, Right, Joins, ReplaceOuter, ValidNode, ValidSlice, NormalNode, ProperNode,
         Context, OpensLeft, OpensRight, Around;
    Opened(doc, from, to, slice);
    ContextIsAround(doc, from);
    ContextIsAround(doc, to);
    var f, t := Resolve(doc, from), Resolve(doc, to);
    OuterTokens(s, f, t, slice);
    OuterSound(s, f, t, slice);
  }

  /** Replacing keeps documents normal and valid. */
  lemma ReplaceKeeps(s: Schema, doc: Node, from: nat, to: nat, slice: Slice)
    requires doc.Elem? && ProperNode(doc) && NormalNode(doc) && WellFormed(slice) && Normal(slice.content) && from <= to
    requires ReplaceRange(s, doc, from, to, slice).Ok?
    ensures var r := ReplaceRange(s, doc, from, to, slice).value;
            NormalNode(r) && (ValidNode(s, doc) && ValidSlice(s, slice) ==> ValidNode(s, r))
  {
    hide Normal, Proper, Tokens, NodeTokens, Resolve, Left, Right, Joins, ReplaceOuter, ValidNode, ValidSlice, NormalNode, ProperNode,
         Context, OpensLeft, OpensRight, Around;
    Opened(doc, from, to, slice);
    ContextIsAround(doc, from);
    ContextIsAround(doc, to);
    OuterNormalValid(s, Resolve(doc, from), Resolve(doc, to), slice);
  }

  /** If the slice fits and the splice is the token list of a valid document, that document is returned. */
  lemma ReplaceReaches(s: Schema, doc: Node, from: nat, to: nat, slice: Slice, goal: Node)
    requires doc.Elem? && NormalNode(doc) && ProperNode(doc) && WellFormed(slice) && Normal(slice.content)
    requires Fits(s, doc, from, to, slice)
    requires slice.openStart + slice.openEnd <= Size(slice.content)
    requires goal.Elem? && goal.markup == doc.markup && NormalNode(goal) && ValidNode(s, goal)
    requires Tokens(goal.content) == Spliced(Tokens(doc.content), from, to, slice)
    ensures ReplaceRange(s, doc, from, to, slice) == Ok(goal)
  {
    hide Normal, Proper, Tokens, NodeTokens, Resolve, Left, Right, Joins, ReplaceOuter, ValidNode, ValidSlice, ProperNode, Context,
         OpensLeft, OpensRight, Around;
    Opened(doc, from, to, slice);
    ContextIsAround(doc, from);
    ContextIsAround(doc, to);
    var f, t := Resolve(doc, from), Resolve(doc, to);
    OuterLenient(f, t, slice);
    OuterTokens(Lenient(), f, t, slice);
    OuterNormalValid(Lenient(), f, t, slice);
    var r := ReplaceOuter(Lenient(), f, t, slice).value;
    NormalTreesEqual(r.content, goal.content);
    OuterComplete(s, f, t, slice);
  }

  /**
    Replacing is splicing: on valid documents and slices it succeeds exactly when the
    slice fits and the spliced tokens are those of a valid document, and it returns that
    document.
   */
  lemma ReplaceIsSplice(s: Schema, doc: Node, from: nat, to: nat, slice: Slice, r: Node)
    requires doc.Elem? && NormalNode(doc) && ProperNode(doc) && ValidNode(s, doc)
    requires WellFormed(slice) && Normal(slice.content) && ValidSlice(s, slice) && from <= to
    ensures slice.openStart + slice.openEnd <= Size(slice.content)
    ensures ReplaceRange(s, doc, from, to, slice) == Ok(r) <==>
      && Fits(s, doc, from, to, slice)
      && r.Elem? && r.markup == doc.markup && NormalNode(r) && ValidNode(s, r)
      && Tokens(r.content) == Spliced(Tokens(doc.content), from, to, slice)
  {
    hide Normal, Proper, Tokens, NodeTokens, ReplaceRange, ValidNode, ValidSlice, ProperNode, OpensLeft, OpensRight, NormalNode,
         Context, Joins;
    SliceHasTokens(slice);
    if ReplaceRange(s, doc, from, to, slice) == Ok(r) {
      ReplaceSplices(s, doc, from, to, slice);
      ReplaceKeeps(s, doc, from, to, slice);
    }
    if Fits(s, doc, from, to, slice) && r.Elem? && r.markup == doc.markup && NormalNode(r) && ValidNode(s, r) {
      if Tokens(r.content) == Spliced(Tokens(doc.content), from, to, slice) {
        ReplaceReaches(s, doc, from, to, slice, r);
      }
    }
  }
}
