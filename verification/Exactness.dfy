/**
  The exact condition under which a replacement succeeds, and its unique result.
 */
module Exactness {
  import opened Options
  import opened Sequences
  import opened Documents
  import opened Positions
  import opened Replace
  import opened Splice
  import opened Outcomes

  /** A schema that refuses nothing. */
  function Lenient(): Schema {
    Schema((t: nat, ms: seq<Markup>) => true, (a: nat, b: nat) => true)
  }

  /** At every level the type that comes after the join can follow the one before it. */
  ghost predicate AllCompatible(s: Schema, after: seq<Markup>, before: seq<Markup>)
    requires |after| == |before|
  {
    forall i :: 0 <= i < |after| ==> Compatible(s, after[i].typ, before[i].typ)
  }

  lemma CompatibleCons(s: Schema, x: Markup, a: seq<Markup>, y: Markup, b: seq<Markup>)
    requires |a| == |b|
    ensures AllCompatible(s, [x] + a, [y] + b) <==> Compatible(s, x.typ, y.typ) && AllCompatible(s, a, b)
  {
    if AllCompatible(s, [x] + a, [y] + b) {
      assert Compatible(s, ([x] + a)[0].typ, ([y] + b)[0].typ);
      forall i | 0 <= i < |a| ensures Compatible(s, a[i].typ, b[i].typ) {
        assert Compatible(s, ([x] + a)[i + 1].typ, ([y] + b)[i + 1].typ);
      }
    }
  }

  // ---------------------------------------------------------------- joining two sides

  lemma AroundCompatible(s: Schema, before: Pos, after: Pos)
    requires Depth(before) == Depth(after)
    ensures before.Here? ==> AllCompatible(s, Around(after), Around(before))
    ensures before.Inside? ==>
      (AllCompatible(s, Around(after), Around(before)) <==>
       Compatible(s, after.inner.node.markup.typ, before.inner.node.markup.typ)
       && AllCompatible(s, Around(after.inner), Around(before.inner)))
  {
    if before.Inside? {
      CompatibleCons(s, after.inner.node.markup, Around(after.inner), before.inner.node.markup, Around(before.inner));
    }
  }

  lemma {:induction false} TwoWayLenient(from: Pos, to: Pos)
    requires Valid(from) && Valid(to) && Depth(from) == Depth(to)
    ensures ReplaceTwoWay(Lenient(), from, to).Ok?
    decreases from
  {
    hide AddRange, AddNode;
    if from.Inside? {
      TwoWayLenient(from.inner, to.inner);
    }
  }

  /** Success means the joins were allowed, and gives what a schema refusing nothing would. */
  lemma {:induction false} TwoWaySound(s: Schema, from: Pos, to: Pos)
    requires Valid(from) && Valid(to) && Depth(from) == Depth(to)
    requires ReplaceTwoWay(s, from, to).Ok?
    ensures AllCompatible(s, Around(to), Around(from))
    ensures ReplaceTwoWay(s, from, to) == ReplaceTwoWay(Lenient(), from, to)
    decreases from
  {
    hide AddRange, AddNode, AllCompatible, Around, Markups;
    AroundCompatible(s, from, to);
    if from.Inside? {
      TwoWaySound(s, from.inner, to.inner);
      TwoWayStep(s, from, to);
      TwoWayLenient(from, to);
      TwoWayStep(Lenient(), from, to);
    }
  }

  /** If the joins are allowed and the lenient result is valid, the replacement succeeds. */
  lemma {:induction false} TwoWayComplete(s: Schema, from: Pos, to: Pos)
    requires Valid(from) && Valid(to) && Depth(from) == Depth(to)
    requires AllCompatible(s, Around(to), Around(from))
    requires var r := ReplaceTwoWay(Lenient(), from, to); r.Ok? && ValidNodes(s, r.value)
    ensures ReplaceTwoWay(s, from, to) == ReplaceTwoWay(Lenient(), from, to)
    decreases from
  {
    hide AddRange, AddNode, AllCompatible, Around, Markups, ValidNodes;
    AroundCompatible(s, from, to);
    if from.Inside? {
      TwoWayStep(Lenient(), from, to);
      var content := ReplaceTwoWay(Lenient(), from.inner, to.inner).value;
      RejoinedValid(s, from, to, content);
      TwoWayComplete(s, from.inner, to.inner);
    }
  }

  /** The child closed over the joined content is part of the result. */
  lemma RejoinedValid(s: Schema, from: Pos, to: Pos, content: seq<Node>)
    requires Valid(from) && Valid(to) && from.Inside? && to.Inside?
    requires ValidNodes(s, Rejoined(from, to, content))
    ensures s.accepts(from.inner.node.markup.typ, Markups(content)) && ValidNodes(s, content)
  {
    hide AddRange, AddNode, ValidNodes;
    var closed := Elem(from.inner.node.markup, content);
    var before := AddRange(None, Some(from), []);
    AddRangeValid(s, Some(to), None, AddNode(closed, before));
    AddNodeValid(s, closed, before);
  }

  lemma {:induction false} TwoWayNormal(s: Schema, from: Pos, to: Pos)
    requires Valid(from) && Valid(to) && Depth(from) == Depth(to)
    requires ReplaceTwoWay(s, from, to).Ok?
    requires NormalNode(from.node) && NormalNode(to.node)
    ensures Normal(ReplaceTwoWay(s, from, to).value)
    decreases from
  {
    hide AddRange, AddNode, Unmerged;
    if from.Inside? {
      TwoWayStep(s, from, to);
      TwoWayNormal(s, from.inner, to.inner);
      RejoinedNormal(from, to, ReplaceTwoWay(s, from.inner, to.inner).value);
    } else {
      NormalEmpty();
      AddRangeNormal(None, Some(from), []);
      AddRangeNormal(Some(to), None, AddRange(None, Some(from), []));
    }
  }

  lemma NormalEmpty()
    ensures Normal([])
  {
  }

  lemma RejoinedNormal(from: Pos, to: Pos, content: seq<Node>)
    requires Valid(from) && Valid(to) && from.Inside? && to.Inside?
    requires NormalNode(from.node) && NormalNode(to.node) && Normal(content)
    ensures Normal(Rejoined(from, to, content))
  {
    hide AddRange, AddNode, Normal;
    NormalEmpty();
    AddRangeNormal(None, Some(from), []);
    AddNodeNormal(Elem(from.inner.node.markup, content), AddRange(None, Some(from), []));
    AddRangeNormal(Some(to), None, AddNode(Elem(from.inner.node.markup, content), AddRange(None, Some(from), [])));
  }

  lemma {:induction false} TwoWayValid(s: Schema, from: Pos, to: Pos)
    requires Valid(from) && Valid(to) && Depth(from) == Depth(to)
    requires ReplaceTwoWay(s, from, to).Ok?
    requires ValidBefore(s, from) && ValidAfter(s, to)
    ensures ValidNodes(s, ReplaceTwoWay(s, from, to).value)
    decreases from
  {
    hide AddRange, AddNode, Markups, ValidNodes;
    if from.Inside? {
      TwoWayStep(s, from, to);
      TwoWayValid(s, from.inner, to.inner);
      RejoinedKeepsValid(s, from, to, ReplaceTwoWay(s, from.inner, to.inner).value);
    } else {
      AddBeforeValid(s, from);
      AddAfterValid(s, to, AddRange(None, Some(from), []));
    }
  }

  lemma RejoinedKeepsValid(s: Schema, from: Pos, to: Pos, content: seq<Node>)
    requires Valid(from) && Valid(to) && from.Inside? && to.Inside?
    requires ValidBefore(s, from) && ValidAfter(s, to)
    requires s.accepts(from.inner.node.markup.typ, Markups(content)) && ValidNodes(s, content)
    ensures ValidNodes(s, Rejoined(from, to, content))
  {
    hide AddRange, AddNode, ValidNodes;
    var closed := Elem(from.inner.node.markup, content);
    AddBeforeValid(s, from);
    AddNodeValid(s, closed, AddRange(None, Some(from), []));
    AddAfterValid(s, to, AddNode(closed, AddRange(None, Some(from), [])));
  }

  // ---------------------------------------------------------------- joining three parts

  lemma AddJoinedLenient(left: Pos, right: Pos, target: seq<Node>)
    requires Valid(left) && Valid(right) && Depth(left) == Depth(right)
    ensures AddJoined(Lenient(), left, right, target).Ok?
  {
    hide AddNode, ReplaceTwoWay;
    if left.Inside? {
      TwoWayLenient(left.inner, right.inner);
    }
  }

  lemma AddJoinedSound(s: Schema, left: Pos, right: Pos, target: seq<Node>)
    requires Valid(left) && Valid(right) && Depth(left) == Depth(right)
    requires AddJoined(s, left, right, target).Ok?
    ensures AddJoined(s, left, right, target) == AddJoined(Lenient(), left, right, target)
    ensures left.Inside? ==> AllCompatible(s, Around(right.inner), Around(left.inner))
  {
    hide AddNode, ReplaceTwoWay, AllCompatible, Markups;
    if left.Inside? {
      TwoWaySound(s, left.inner, right.inner);
    }
  }

  lemma AddJoinedComplete(s: Schema, left: Pos, right: Pos, target: seq<Node>)
    requires Valid(left) && Valid(right) && Depth(left) == Depth(right)
    requires AllCompatible(s, Around(right), Around(left))
    requires var r := AddJoined(Lenient(), left, right, target); r.Ok? && ValidNodes(s, r.value)
    ensures AddJoined(s, left, right, target) == AddJoined(Lenient(), left, right, target)
    ensures ValidNodes(s, target)
  {
    hide AddNode, ReplaceTwoWay, AllCompatible, Markups, ValidNodes, Around;
    AroundCompatible(s, left, right);
    if left.Inside? {
      TwoWayLenient(left.inner, right.inner);
      var content := ReplaceTwoWay(Lenient(), left.inner, right.inner).value;
      AddNodeValid(s, Elem(left.inner.node.markup, content), target);
      TwoWayComplete(s, left.inner, right.inner);
    }
  }

  lemma AddJoinedNormal(s: Schema, left: Pos, right: Pos, target: seq<Node>)
    requires Valid(left) && Valid(right) && Depth(left) == Depth(right)
    requires NormalNode(left.node) && NormalNode(right.node) && Normal(target)
    requires AddJoined(s, left, right, target).Ok?
    ensures Normal(AddJoined(s, left, right, target).value)
  {
    hide AddNode, ReplaceTwoWay, Unmerged;
    if left.Inside? {
      TwoWayNormal(s, left.inner, right.inner);
      AddNodeNormal(Elem(left.inner.node.markup, ReplaceTwoWay(s, left.inner, right.inner).value), target);
    }
  }

  lemma AddJoinedValid(s: Schema, left: Pos, right: Pos, target: seq<Node>)
    requires Valid(left) && Valid(right) && Depth(left) == Depth(right)
    requires left.Inside? ==> ValidBefore(s, left.inner) && ValidAfter(s, right.inner)
    requires ValidNodes(s, target)
    requires AddJoined(s, left, right, target).Ok?
    ensures ValidNodes(s, AddJoined(s, left, right, target).value)
  {
    hide AddNode, ReplaceTwoWay, ValidNodes, Markups;
    if left.Inside? {
      TwoWayValid(s, left.inner, right.inner);
      AddNodeValid(s, Elem(left.inner.node.markup, ReplaceTwoWay(s, left.inner, right.inner).value), target);
    }
  }

  /** The positions of a three-way replacement, two by two at the same depth. */
  ghost predicate Aligned(from: Pos, start: Pos, end: Pos, to: Pos) {
    && Valid(from) && Valid(start) && Valid(end) && Valid(to)
    && start.node == end.node
    && Depth(from) == Depth(start) && Depth(end) == Depth(to)
  }

  /** Both ends of the slice are in one child, which is then joined on both sides. */
  predicate Nests(from: Pos, start: Pos, end: Pos, to: Pos) {
    from.Inside? && to.Inside? && start.index == end.index
  }

  lemma AlignedInner(from: Pos, start: Pos, end: Pos, to: Pos)
    requires Aligned(from, start, end, to) && Nests(from, start, end, to)
    ensures start.Inside? && end.Inside?
    ensures Aligned(from.inner, start.inner, end.inner, to.inner)
  {
  }

  lemma {:induction false} ThreeWayLenient(from: Pos, start: Pos, end: Pos, to: Pos)
    requires Aligned(from, start, end, to)
    ensures ReplaceThreeWay(Lenient(), from, start, end, to).Ok?
    decreases from
  {
    hide AddRange, AddNode, AddJoined;
    if Nests(from, start, end, to) {
      AlignedInner(from, start, end, to);
      ThreeWayLenient(from.inner, start.inner, end.inner, to.inner);
    } else {
      var before := AddRange(None, Some(from), []);
      AddJoinedLenient(from, start, before);
      var joined := AddJoined(Lenient(), from, start, before).value;
      AddJoinedLenient(end, to, AddRange(Some(start), Some(end), joined));
    }
  }

  lemma {:induction false} ThreeWaySound(s: Schema, from: Pos, start: Pos, end: Pos, to: Pos)
    requires Aligned(from, start, end, to)
    requires ReplaceThreeWay(s, from, start, end, to).Ok?
    ensures AllCompatible(s, Around(start), Around(from)) && AllCompatible(s, Around(to), Around(end))
    ensures ReplaceThreeWay(s, from, start, end, to) == ReplaceThreeWay(Lenient(), from, start, end, to)
    decreases from
  {
    hide AddRange, AddNode, AddJoined, AllCompatible, Around, Markups;
    AroundCompatible(s, from, start);
    AroundCompatible(s, end, to);
    ThreeWayLenient(from, start, end, to);
    if Nests(from, start, end, to) {
      AlignedInner(from, start, end, to);
      ThreeWaySound(s, from.inner, start.inner, end.inner, to.inner);
    } else {
      var before := AddRange(None, Some(from), []);
      ThreeWaySteps(s, from, start, end, to);
      AddJoinedSound(s, from, start, before);
      AddJoinedSound(s, end, to, AddRange(Some(start), Some(end), AddJoined(s, from, start, before).value));
    }
  }

  lemma {:induction false} ThreeWayComplete(s: Schema, from: Pos, start: Pos, end: Pos, to: Pos)
    requires Aligned(from, start, end, to)
    requires AllCompatible(s, Around(start), Around(from)) && AllCompatible(s, Around(to), Around(end))
    requires var r := ReplaceThreeWay(Lenient(), from, start, end, to); r.Ok? && ValidNodes(s, r.value)
    ensures ReplaceThreeWay(s, from, start, end, to) == ReplaceThreeWay(Lenient(), from, start, end, to)
    decreases from
  {
    hide AddRange, AddNode, AddJoined, AllCompatible, Around, Markups, ValidNodes;
    AroundCompatible(s, from, start);
    AroundCompatible(s, end, to);
    if Nests(from, start, end, to) {
      AlignedInner(from, start, end, to);
      ThreeWayNested(Lenient(), from, start, end, to);
      RejoinedValid(s, from, to, ReplaceThreeWay(Lenient(), from.inner, start.inner, end.inner, to.inner).value);
      ThreeWayComplete(s, from.inner, start.inner, end.inner, to.inner);
    } else {
      var before := AddRange(None, Some(from), []);
      ThreeWaySteps(Lenient(), from, start, end, to);
      var joined := AddJoined(Lenient(), from, start, before).value;
      var between := AddRange(Some(start), Some(end), joined);
      AddRangeValid(s, Some(to), None, AddJoined(Lenient(), end, to, between).value);
      AddJoinedComplete(s, end, to, between);
      AddRangeValid(s, Some(start), Some(end), joined);
      AddJoinedComplete(s, from, start, before);
    }
  }

  lemma {:induction false} ThreeWayNormal(s: Schema, from: Pos, start: Pos, end: Pos, to: Pos)
    requires Aligned(from, start, end, to)
    requires NormalNode(from.node) && NormalNode(start.node) && NormalNode(to.node)
    requires ReplaceThreeWay(s, from, start, end, to).Ok?
    ensures Normal(ReplaceThreeWay(s, from, start, end, to).value)
    decreases from
  {
    hide AddRange, AddNode, AddJoined, ReplaceThreeWay, Unmerged;
    NormalEmpty();
    if Nests(from, start, end, to) {
      AlignedInner(from, start, end, to);
      ThreeWayNested(s, from, start, end, to);
      ThreeWayNormal(s, from.inner, start.inner, end.inner, to.inner);
      RejoinedNormal(from, to, ReplaceThreeWay(s, from.inner, start.inner, end.inner, to.inner).value);
    } else {
      ApartNormal(s, from, start, end, to);
    }
  }

  lemma ApartNormal(s: Schema, from: Pos, start: Pos, end: Pos, to: Pos)
    requires Aligned(from, start, end, to) && !Nests(from, start, end, to)
    requires NormalNode(from.node) && NormalNode(start.node) && NormalNode(to.node)
    requires ReplaceThreeWay(s, from, start, end, to).Ok?
    ensures Normal(ReplaceThreeWay(s, from, start, end, to).value)
  {
    hide AddRange, AddNode, AddJoined, ReplaceThreeWay, Normal, NormalNode;
    NormalEmpty();
    var before := AddRange(None, Some(from), []);
    ThreeWaySteps(s, from, start, end, to);
    var joined := AddJoined(s, from, start, before).value;
    var between := AddRange(Some(start), Some(end), joined);
    AddRangeNormal(None, Some(from), []);
    AddJoinedNormal(s, from, start, before);
    AddRangeNormal(Some(start), Some(end), joined);
    AddJoinedNormal(s, end, to, between);
    AddRangeNormal(Some(to), None, AddJoined(s, end, to, between).value);
  }

  /** The nodes of a slice are valid, except those it is open in. */
  ghost predicate OpenValid(s: Schema, ns: seq<Node>, a: nat, b: nat)
    requires OpensLeft(ns, a) && OpensRight(ns, b)
    decreases a + b
  {
    if a > 0 && b > 0 && |ns| == 1 then OpenValid(s, ns[0].content, a - 1, b - 1)
    else
      && (a > 0 ==> OpenValid(s, ns[0].content, a - 1, 0))
      && (b > 0 ==> OpenValid(s, ns[|ns| - 1].content, 0, b - 1))
      && ValidNodes(s, Inner(ns, a, b))
  }

  lemma {:induction false} StartValid(s: Schema, node: Node, a: nat)
    requires node.Elem? && OpensLeft(node.content, a) && OpenValid(s, node.content, a, 0)
    requires Valid(StartPos(node, a))
    ensures ValidAfter(s, StartPos(node, a))
    decreases a
  {
    hide ValidNodes;
    var ns := node.content;
    if a > 0 {
      assert Inner(ns, a, 0) == ns[1..];
      StartValid(s, ns[0], a - 1);
    } else {
      assert Inner(ns, 0, 0) == ns[0..];
    }
  }

  lemma {:induction false} EndValid(s: Schema, node: Node, b: nat)
    requires node.Elem? && OpensRight(node.content, b) && OpenValid(s, node.content, 0, b)
    requires Valid(EndPos(node, b))
    ensures ValidBefore(s, EndPos(node, b))
    decreases b
  {
    hide ValidNodes;
    var ns := node.content;
    if b > 0 {
      assert Inner(ns, 0, b) == ns[..|ns| - 1];
      EndValid(s, ns[|ns| - 1], b - 1);
    } else {
      assert Inner(ns, 0, 0) == ns[..|ns|];
    }
  }

  lemma {:induction false} ThreeWayValid(s: Schema, from: Pos, node: Node, a: nat, b: nat,
                                         start: Pos, end: Pos, to: Pos)
    requires Aligned(from, start, end, to) && OpenEnds(node, a, b, start, end)
    requires ReplaceThreeWay(s, from, start, end, to).Ok?
    requires ValidBefore(s, from) && ValidAfter(s, to) && OpenValid(s, node.content, a, b)
    ensures ValidNodes(s, ReplaceThreeWay(s, from, start, end, to).value)
    decreases from
  {
    hide AddRange, AddNode, AddJoined, ValidNodes, Markups, Tokens, NodeTokens;
    if a > 0 && b > 0 && |node.content| == 1 {
      SingleEnds(node, a, b, start, end);
      AlignedInner(from, start, end, to);
      ThreeWayNested(s, from, start, end, to);
      ThreeWayValid(s, from.inner, node.content[0], a - 1, b - 1, start.inner, end.inner, to.inner);
      RejoinedKeepsValid(s, from, to, ReplaceThreeWay(s, from.inner, start.inner, end.inner, to.inner).value);
    } else {
      ApartValid(s, from, node, a, b, start, end, to);
    }
  }

  lemma ApartValid(s: Schema, from: Pos, node: Node, a: nat, b: nat, start: Pos, end: Pos, to: Pos)
    requires Aligned(from, start, end, to) && OpenEnds(node, a, b, start, end)
    requires a > 0 && b > 0 ==> |node.content| > 1
    requires ReplaceThreeWay(s, from, start, end, to).Ok?
    requires ValidBefore(s, from) && ValidAfter(s, to) && OpenValid(s, node.content, a, b)
    ensures ValidNodes(s, ReplaceThreeWay(s, from, start, end, to).value)
  {
    hide AddRange, AddNode, AddJoined, ReplaceThreeWay, ValidNodes, Tokens, NodeTokens;
    var before := AddRange(None, Some(from), []);
    ThreeWaySteps(s, from, start, end, to);
    var joined := AddJoined(s, from, start, before).value;
    var between := AddRange(Some(start), Some(end), joined);
    AddBeforeValid(s, from);
    if a > 0 {
      StartValid(s, start.inner.node, a - 1);
    }
    AddJoinedValid(s, from, start, before);
    assert AddStart(Some(start), joined).0 == if a > 0 then 1 else 0;
    AddRangeValid(s, Some(start), Some(end), joined);
    if b > 0 {
      EndValid(s, end.inner.node, b - 1);
    }
    AddJoinedValid(s, end, to, between);
    AddAfterValid(s, to, AddJoined(s, end, to, between).value);
  }
}
