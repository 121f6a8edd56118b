/**
  Replacing a range of a document by a slice: the recursive tree algorithm.
 */
module Replace {
  import opened Options
  import opened Documents
  import opened Positions

  /**
    What the node types contribute: which child markups make valid content for a type,
    and whether two different types share some allowed first child.
   */
  datatype Schema = Schema(accepts: (nat, seq<Markup>) -> bool, mixes: (nat, nat) -> bool)

  datatype Slice = Slice(content: seq<Node>, openStart: nat, openEnd: nat)

  datatype Reason = TooDeep | InconsistentDepths | CannotJoin | InvalidContent | OutOfRange | StructureContent

  datatype Result<+T> = Ok(value: T) | Failed(reason: Reason) {
    predicate IsFailure() {
      Failed?
    }

    function PropagateFailure<U>(): Result<U>
      requires Failed?
    {
      Failed(reason)
    }

    function Extract(): T
      requires Ok?
    {
      value
    }
  }

  // ---------------------------------------------------------------- checks

  function Markups(ns: seq<Node>): (ms: seq<Markup>)
    ensures |ms| == |ns| && forall i :: 0 <= i < |ns| ==> ms[i] == ns[i].markup
  {
    seq(|ns|, i requires 0 <= i < |ns| => ns[i].markup)
  }

  predicate Compatible(s: Schema, a: nat, b: nat) {
    a == b || s.mixes(a, b)
  }

  /** The node at the join, unless the two types cannot be joined. */
  function Join(s: Schema, before: Node, after: Node): Result<Node> {
    if Compatible(s, after.markup.typ, before.markup.typ) then Ok(before) else Failed(CannotJoin)
  }

  function CloseNode(s: Schema, node: Node, content: seq<Node>): Result<Node> {
    if s.accepts(node.markup.typ, Markups(content)) then Ok(Elem(node.markup, content)) else Failed(InvalidContent)
  }

  // ---------------------------------------------------------------- collecting children

  /** Adds a child, merging it into a preceding text node of the same markup. */
  function AddNode(child: Node, target: seq<Node>): seq<Node> {
    var last := |target| - 1;
    if last >= 0 && Mergeable(target[last], child)
    then target[last := Text(child.markup, target[last].text + child.text)]
    else target + [child]
  }

  function AddNodes(children: seq<Node>, target: seq<Node>): seq<Node> {
    if children == [] then target else AddNodes(children[1..], AddNode(children[0], target))
  }

  function TextOffset(p: Pos): (k: nat)
    requires Valid(p)
    ensures p.Here? && k != 0 ==> p.index < |p.node.content| && p.node.content[p.index].Text?
                                  && k < |p.node.content[p.index].text|
  {
    if p.Inside? then 0 else p.offset - Size(p.node.content[..p.index])
  }

  /** The rest of the text node that the position is in. */
  function NodeAfter(p: Pos): Node
    requires Valid(p) && p.Here? && TextOffset(p) != 0
  {
    var text := p.node.content[p.index];
    Text(text.markup, text.text[TextOffset(p)..])
  }

  function NodeBefore(p: Pos): Node
    requires Valid(p) && p.Here? && TextOffset(p) != 0
  {
    var text := p.node.content[p.index];
    Text(text.markup, text.text[..TextOffset(p)])
  }

  /**
    Adds the children lying between two positions in the same node; no `start` means
    from the first child, no `end` to the last.
   */
  function AddRange(start: Option<Pos>, end: Option<Pos>, target: seq<Node>): seq<Node>
    requires start.Some? || end.Some?
    requires start.Some? ==> Valid(start.value)
    requires end.Some? ==> Valid(end.value)
    requires start.Some? && end.Some? ==> start.value.node == end.value.node
  {
    var node := if end.Some? then end.value.node else start.value.node;
    var stop := if end.Some? then end.value.index else |node.content|;
    var begun := AddStart(start, target);
    var all := if begun.0 <= stop then AddNodes(node.content[begun.0..stop], begun.1) else begun.1;
    if end.Some? && end.value.Here? && TextOffset(end.value) != 0 then AddNode(NodeBefore(end.value), all) else all
  }

  /** The first whole child after `start`, and the children with any partial one added. */
  function AddStart(start: Option<Pos>, target: seq<Node>): (nat, seq<Node>)
    requires start.Some? ==> Valid(start.value)
  {
    if start.None? then (0, target)
    else if start.value.Inside? then (start.value.index + 1, target)
    else if TextOffset(start.value) != 0 then (start.value.index + 1, AddNode(NodeAfter(start.value), target))
    else (start.value.index, target)
  }

  // ---------------------------------------------------------------- the replacement itself

  /** Joins what is left of `from` to what is right of `to`. */
  function ReplaceTwoWay(s: Schema, from: Pos, to: Pos): Result<seq<Node>>
    requires Valid(from) && Valid(to) && Depth(from) == Depth(to)
    decreases from
  {
    var before := AddRange(None, Some(from), []);
    if from.Inside? then
      var node :- Join(s, from.inner.node, to.inner.node);
      var content :- ReplaceTwoWay(s, from.inner, to.inner);
      var closed :- CloseNode(s, node, content);
      Ok(AddRange(Some(to), None, AddNode(closed, before)))
    else
      Ok(AddRange(Some(to), None, before))
  }

  /** Adds the child that `left` is in, joined to the one `right` is in; nothing if they are in no child. */
  function AddJoined(s: Schema, left: Pos, right: Pos, target: seq<Node>): Result<seq<Node>>
    requires Valid(left) && Valid(right) && Depth(left) == Depth(right)
  {
    if left.Inside? then
      var content :- ReplaceTwoWay(s, left.inner, right.inner);
      var closed :- CloseNode(s, left.inner.node, content);
      Ok(AddNode(closed, target))
    else Ok(target)
  }

  /** Joins what is left of `from`, what is between `start` and `end`, and what is right of `to`. */
  function ReplaceThreeWay(s: Schema, from: Pos, start: Pos, end: Pos, to: Pos): Result<seq<Node>>
    requires Valid(from) && Valid(start) && Valid(end) && Valid(to)
    requires start.node == end.node
    requires Depth(from) == Depth(start) && Depth(end) == Depth(to)
    decreases from
  {
    var before := AddRange(None, Some(from), []);
    var openStart :- if from.Inside? then Join(s, from.inner.node, start.inner.node) else Ok(from.node);
    var openEnd :- if to.Inside? then Join(s, end.inner.node, to.inner.node) else Ok(to.node);
    if from.Inside? && to.Inside? && start.index == end.index then
      var _ :- Join(s, openStart, openEnd);
      var content :- ReplaceThreeWay(s, from.inner, start.inner, end.inner, to.inner);
      var closed :- CloseNode(s, openStart, content);
      Ok(AddRange(Some(to), None, AddNode(closed, before)))
    else
      var joined :- AddJoined(s, from, start, before);
      var between := AddRange(Some(start), Some(end), joined);
      var middle :- AddJoined(s, end, to, between);
      Ok(AddRange(Some(to), None, middle))
  }

  /** The slice's content wrapped in copies of `levels + 1` of the nodes around the position. */
  function Wrap(along: Pos, levels: nat, content: seq<Node>): (node: Node)
    requires levels <= Depth(along)
    ensures node.Elem? && node.markup == along.node.markup
    decreases levels
  {
    Elem(along.node.markup, if levels == 0 then content else [Wrap(along.inner, levels - 1, content)])
  }

  /** Joins two child lists, merging the text that meets. */
  function Append(a: seq<Node>, b: seq<Node>): seq<Node> {
    if b == [] then a
    else if a == [] then b
    else if Mergeable(a[|a| - 1], b[0])
    then a[|a| - 1 := Text(b[0].markup, a[|a| - 1].text + b[0].text)] + b[1..]
    else a + b
  }

  /** The part of a child list between two offsets, with the nodes that are cut through. */
  function Cut(ns: seq<Node>, from: nat, to: nat): seq<Node>
    requires to <= Size(ns)
    decreases ns, 1
  {
    if from == 0 && to == Size(ns) then ns
    else if to > from then CutFrom(ns, from, to)
    else []
  }

  /** The loop of `Cut` over the children that are left, with offsets relative to the first of them. */
  function CutFrom(ns: seq<Node>, from: int, to: int): seq<Node>
    requires from < to <= Size(ns)
    decreases ns, 0
  {
    if ns == [] || to <= 0 then []
    else
      var end := NodeSize(ns[0]);
      var rest := CutFrom(ns[1..], from - end, to - end);
      if end <= from then rest
      else if 0 < from || to < end then [CutNode(ns[0], from, to)] + rest
      else [ns[0]] + rest
  }

  function CutNode(n: Node, from: int, to: int): Node
    requires from < to && from < NodeSize(n) && 0 < to
    decreases n, 2
  {
    match n
    case Text(m, text) => Text(m, text[Max(0, from)..Min(|text|, to)])
    case Elem(m, content) => Elem(m, Cut(content, Max(0, from - 1), Min(Size(content), to - 1)))
    case Leaf(m) => Leaf(m)
  }

  function Max(a: int, b: int): int { if a < b then b else a }
  function Min(a: int, b: int): int { if a < b then a else b }

  // ---------------------------------------------------------------- slices and the entry point

  /** A slice may be open at the start only through a chain of first children (at the end, of last ones). */
  predicate OpensLeft(ns: seq<Node>, depth: nat)
    decreases depth
  {
    depth == 0 || (ns != [] && ns[0].Elem? && OpensLeft(ns[0].content, depth - 1))
  }

  predicate OpensRight(ns: seq<Node>, depth: nat)
    decreases depth
  {
    depth == 0 || (ns != [] && ns[|ns| - 1].Elem? && OpensRight(ns[|ns| - 1].content, depth - 1))
  }

  ghost predicate WellFormed(slice: Slice) {
    && Proper(slice.content)
    && OpensLeft(slice.content, slice.openStart)
    && OpensRight(slice.content, slice.openEnd)
  }

  /** Wraps the slice in the nodes around a position, and resolves the slice's two open ends in the result. */
  function PrepareSlice(slice: Slice, along: Pos): (Pos, Pos)
    requires WellFormed(slice) && slice.openStart <= Depth(along)
  {
    var levels := Depth(along) - slice.openStart;
    var wrapped := Wrap(along, levels, slice.content);
    WrapResolvable(along, levels, slice);
    (Resolve(wrapped, slice.openStart + levels), Resolve(wrapped, Size(wrapped.content) - slice.openEnd - levels))
  }

  /** The content of a node with a closed slice put in place of the range between two of its own offsets. */
  function ReplaceFlat(ns: seq<Node>, from: nat, to: nat, content: seq<Node>): seq<Node>
    requires from <= Size(ns) && to <= Size(ns)
  {
    Append(Append(Cut(ns, 0, from), content), Cut(ns, to, Size(ns)))
  }

  ghost predicate Replaceable(from: Pos, to: Pos, slice: Slice) {
    && Valid(from) && Valid(to) && from.node == to.node && ProperNode(from.node)
    && Offset(from) <= Offset(to)
    && WellFormed(slice) && slice.openStart <= Depth(from)
    && Depth(from) - slice.openStart == Depth(to) - slice.openEnd
  }

  /**
    Descends while both positions are in the same child and the slice is not yet due,
    then rebuilds the node it has reached.
   */
  function ReplaceOuter(s: Schema, from: Pos, to: Pos, slice: Slice): Result<Node>
    requires Replaceable(from, to, slice)
    decreases from
  {
    if from.index == to.index && slice.openStart < Depth(from) then
      SameChild(from, to);
      var inner :- ReplaceOuter(s, from.inner, to.inner, slice);
      Ok(Elem(from.node.markup, from.node.content[from.index := inner]))
    else
      var content :- ReplaceContent(s, from, to, slice);
      CloseNode(s, from.node, content)
  }

  function ReplaceContent(s: Schema, from: Pos, to: Pos, slice: Slice): Result<seq<Node>>
    requires Replaceable(from, to, slice)
  {
    hide OpenEnds, ProperNode, Proper, OpensLeft, OpensRight;
    if Size(slice.content) != 0 then
      if slice.openStart == 0 && slice.openEnd == 0 && from.Here? && to.Here? then
        HereInRange(from);
        HereInRange(to);
        Ok(ReplaceFlat(from.node.content, from.offset, to.offset, slice.content))
      else
        var (start, end) := PrepareSlice(slice, from);
        PreparedEnds(slice, from);
        ReplaceThreeWay(s, from, start, end, to)
    else
      EmptySlice(slice);
      ReplaceTwoWay(s, from, to)
  }

  /** Replaces the range between two offsets of a document by a slice. */
  function ReplaceRange(s: Schema, doc: Node, from: nat, to: nat, slice: Slice): Result<Node>
    requires doc.Elem? && ProperNode(doc) && WellFormed(slice) && from <= to
  {
    if to > Size(doc.content) then Failed(OutOfRange)
    else
      ResolveValid(doc, from);
      ResolveValid(doc, to);
      var f, t := Resolve(doc, from), Resolve(doc, to);
      if slice.openStart > Depth(f) then Failed(TooDeep)
      else if Depth(f) - slice.openStart != Depth(t) - slice.openEnd then Failed(InconsistentDepths)
      else ReplaceOuter(s, f, t, slice)
  }

  lemma SameChild(from: Pos, to: Pos)
    requires Valid(from) && Valid(to) && from.node == to.node && ProperNode(from.node)
    requires Offset(from) <= Offset(to)
    requires from.index == to.index && from.Inside?
    ensures to.Inside? && from.inner.node == to.inner.node
    ensures Offset(from.inner) <= Offset(to.inner)
    ensures ProperNode(from.inner.node)
  {
  }

  lemma WrapProper(along: Pos, levels: nat, content: seq<Node>)
    requires levels <= Depth(along) && Proper(content)
    ensures ProperNode(Wrap(along, levels, content))
    decreases levels
  {
    if levels > 0 {
      WrapProper(along.inner, levels - 1, content);
    }
  }

  lemma OpensLeftSize(ns: seq<Node>, depth: nat)
    requires OpensLeft(ns, depth)
    ensures 2 * depth <= Size(ns)
    decreases depth
  {
    if depth > 0 {
      OpensLeftSize(ns[0].content, depth - 1);
    }
  }

  lemma OpensRightSize(ns: seq<Node>, depth: nat)
    requires OpensRight(ns, depth)
    ensures 2 * depth <= Size(ns)
    decreases depth
  {
    if depth > 0 {
      var last := |ns| - 1;
      OpensRightSize(ns[last].content, depth - 1);
      TokensCut(ns, last);
      assert ns[last..] == [ns[last]];
      TokensSingle(ns[last]);
    }
  }

  /** The position `depth` levels down the first (last) children, before (after) everything there. */
  function StartPos(node: Node, depth: nat): Pos
    requires node.Elem? && OpensLeft(node.content, depth)
    decreases depth
  {
    if depth == 0 then Here(node, 0, 0) else Inside(node, 0, StartPos(node.content[0], depth - 1))
  }

  function EndPos(node: Node, depth: nat): Pos
    requires node.Elem? && OpensRight(node.content, depth)
    decreases depth
  {
    var n := |node.content|;
    if depth == 0 then Here(node, n, Size(node.content))
    else Inside(node, n - 1, EndPos(node.content[n - 1], depth - 1))
  }

  lemma {:induction false} StartPosValid(node: Node, depth: nat)
    requires node.Elem? && OpensLeft(node.content, depth)
    ensures var p := StartPos(node, depth); Valid(p) && p.node == node && Depth(p) == depth && Offset(p) == depth
    decreases depth
  {
    if depth > 0 {
      StartPosValid(node.content[0], depth - 1);
    }
  }

  lemma {:induction false} EndPosValid(node: Node, depth: nat)
    requires node.Elem? && OpensRight(node.content, depth)
    ensures var p := EndPos(node, depth);
            Valid(p) && p.node == node && Depth(p) == depth && Offset(p) + depth == Size(node.content)
    decreases depth
  {
    hide Tokens, NodeTokens;
    SizeUpTo(node.content, |node.content|);
    if depth > 0 {
      SizeUpTo(node.content, |node.content| - 1);
      EndPosValid(node.content[|node.content| - 1], depth - 1);
    }
  }

  /** The two positions a slice's open ends resolve to in a node around its content. */
  ghost predicate OpenEnds(node: Node, a: nat, b: nat, start: Pos, end: Pos) {
    && node.Elem? && OpensLeft(node.content, a) && OpensRight(node.content, b)
    && start == StartPos(node, a) && end == EndPos(node, b)
    && start.node == end.node == node
    && Valid(start) && Valid(end) && Depth(start) == a && Depth(end) == b
    && a + b <= Size(node.content)
  }

  lemma ResolveEnds(node: Node, a: nat, b: nat)
    requires node.Elem? && ProperNode(node) && OpensLeft(node.content, a) && OpensRight(node.content, b)
    ensures a + b <= Size(node.content)
    ensures var start, end := Resolve(node, a), Resolve(node, Size(node.content) - b);
            && OpenEnds(node, a, b, start, end)
            && start.node == end.node == node
            && Valid(start) && Valid(end) && Depth(start) == a && Depth(end) == b
  {
    hide Tokens, NodeTokens, Resolve, StartPos, EndPos, OpensLeft, OpensRight;
    StartPosValid(node, a);
    EndPosValid(node, b);
    OpensLeftSize(node.content, a);
    OpensRightSize(node.content, b);
    ResolveUnique(StartPos(node, a));
    ResolveUnique(EndPos(node, b));
  }

  lemma WrapOpens(along: Pos, levels: nat, slice: Slice)
    requires levels <= Depth(along) && WellFormed(slice)
    ensures var ns := Wrap(along, levels, slice.content).content;
            && Size(ns) == Size(slice.content) + 2 * levels
            && OpensLeft(ns, slice.openStart + levels) && OpensRight(ns, slice.openEnd + levels)
    decreases levels
  {
    hide Tokens, NodeTokens;
    if levels > 0 {
      WrapOpens(along.inner, levels - 1, slice);
      TokensSingle(Wrap(along.inner, levels - 1, slice.content));
    }
  }

  lemma WrapResolvable(along: Pos, levels: nat, slice: Slice)
    requires levels <= Depth(along) && WellFormed(slice)
    ensures var wrapped := Wrap(along, levels, slice.content);
            && ProperNode(wrapped)
            && slice.openStart + levels <= Size(wrapped.content)
            && slice.openEnd + levels <= Size(wrapped.content)
  {
    hide Wrap, Proper, ProperNode, OpensLeft, OpensRight, Tokens, NodeTokens;
    WrapOpens(along, levels, slice);
    WrapProper(along, levels, slice.content);
    OpensLeftSize(Wrap(along, levels, slice.content).content, slice.openStart + levels);
    OpensRightSize(Wrap(along, levels, slice.content).content, slice.openEnd + levels);
  }

  lemma PreparedEnds(slice: Slice, along: Pos)
    requires WellFormed(slice) && slice.openStart <= Depth(along)
    ensures var levels := Depth(along) - slice.openStart;
            var ends := PrepareSlice(slice, along);
            && ends.0.node == ends.1.node == Wrap(along, levels, slice.content)
            && Valid(ends.0) && Valid(ends.1)
            && Depth(ends.0) == Depth(along) && Depth(ends.1) == slice.openEnd + levels
            && OpenEnds(ends.0.node, Depth(along), slice.openEnd + levels, ends.0, ends.1)
  {
    hide Wrap, Proper, ProperNode, OpensLeft, OpensRight, Tokens, NodeTokens, Size, Resolve, OpenEnds;
    var levels := Depth(along) - slice.openStart;
    var size := Size(Wrap(along, levels, slice.content).content);
    assert size - slice.openEnd - levels == size - (slice.openEnd + levels);
    WrapResolvable(along, levels, slice);
    WrapOpens(along, levels, slice);
    ResolveEnds(Wrap(along, levels, slice.content), slice.openStart + levels, slice.openEnd + levels);
  }

  lemma EmptySlice(slice: Slice)
    requires WellFormed(slice) && Size(slice.content) == 0
    ensures slice.content == [] && slice.openStart == 0 && slice.openEnd == 0
  {
    OpensLeftSize(slice.content, slice.openStart);
    OpensRightSize(slice.content, slice.openEnd);
    if slice.content != [] {
      NonEmptySize(slice.content);
    }
  }

  lemma NonEmptySize(ns: seq<Node>)
    requires Proper(ns) && ns != []
    ensures Size(ns) > 0
  {
    assert ProperNode(ns[0]);
  }
}
