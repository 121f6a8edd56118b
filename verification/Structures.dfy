/**
  The guard of structure steps: whether a range holds anything besides the ends
  and then the starts of elements.
 */
module Structures {
  import opened Options
  import opened Sequences
  import opened Documents
  import opened Positions

  // ----------------------------------------------------------------------
  // On tokens
  // ----------------------------------------------------------------------

  /** The next `d` tokens open elements. */
  predicate OnlyOpens(ts: seq<Token>, d: nat) {
    d == 0 || (ts != [] && ts[0].Open? && OnlyOpens(ts[1..], d - 1))
  }

  /** The next `d` tokens close elements, and then open some. */
  predicate OnlyStructure(ts: seq<Token>, d: nat) {
    d == 0 || OnlyOpens(ts, d) || (ts != [] && ts[0].Close? && OnlyStructure(ts[1..], d - 1))
  }

  lemma {:induction false} OnlyOpensAre(ts: seq<Token>, d: nat)
    ensures OnlyOpens(ts, d) <==> d <= |ts| && forall k :: 0 <= k < d ==> ts[k].Open?
  {
    if d > 0 && ts != [] {
      OnlyOpensAre(ts[1..], d - 1);
      RestOpens(ts, d);
    }
  }

  lemma RestOpens(ts: seq<Token>, d: nat)
    requires d > 0 && ts != []
    ensures (forall k :: 0 <= k < d && k < |ts| ==> ts[k].Open?) <==>
            ts[0].Open? && forall k :: 0 <= k < d - 1 && k < |ts| - 1 ==> ts[1..][k].Open?
  {
    if ts[0].Open? && forall k :: 0 <= k < d - 1 && k < |ts| - 1 ==> ts[1..][k].Open? {
      forall k | 0 <= k < d && k < |ts| ensures ts[k].Open? {
        if k > 0 {
          assert ts[1..][k - 1] == ts[k];
        }
      }
    }
  }

  /** No leaf or character is among the next `d` tokens, and no element that is opened ends there. */
  lemma {:induction false} OnlyStructureIs(ts: seq<Token>, d: nat)
    ensures OnlyStructure(ts, d) <==>
            d <= |ts| && exists c :: 0 <= c <= d && ClosesThenOpens(ts, c, d)
  {
    OnlyOpensAre(ts, d);
    if OnlyOpens(ts, d) {
      assert ClosesThenOpens(ts, 0, d);
    } else if d > 0 && ts != [] {
      var rest, e := ts[1..], d - 1;
      OnlyStructureIs(rest, e);
      if ts[0].Close? && d <= |ts| {
        if c :| 0 <= c <= e && ClosesThenOpens(rest, c, e) {
          ClosesMore(ts, c, d);
        }
        if c :| 0 <= c <= d && ClosesThenOpens(ts, c, d) {
          assert c > 0;
          ClosesLess(ts, c, d);
        }
      }
    }
  }

  predicate ClosesThenOpens(ts: seq<Token>, c: nat, d: nat)
    requires c <= d <= |ts|
  {
    (forall k :: 0 <= k < c ==> ts[k].Close?) && forall k :: c <= k < d ==> ts[k].Open?
  }

  lemma ClosesMore(ts: seq<Token>, c: nat, d: nat)
    requires 0 < d <= |ts| && c < d && ts[0].Close? && ClosesThenOpens(ts[1..], c, d - 1)
    ensures ClosesThenOpens(ts, c + 1, d)
  {
    forall k | 0 < k < d ensures if k < c + 1 then ts[k].Close? else ts[k].Open? {
      assert ts[1..][k - 1] == ts[k];
    }
  }

  lemma ClosesLess(ts: seq<Token>, c: nat, d: nat)
    requires 0 < c <= d <= |ts| && ClosesThenOpens(ts, c, d)
    ensures ClosesThenOpens(ts[1..], c - 1, d - 1)
  {
  }

  // ----------------------------------------------------------------------
  // On the tree
  // ----------------------------------------------------------------------

  /** A node around a position, and the index of the child after it; a text that the position is in counts as before it. */
  datatype Level = Level(node: Node, index: nat)

  function IndexAfter(p: Pos): nat
    requires Valid(p)
  {
    if p.Here? && p.offset == Size(p.node.content[..p.index]) then p.index else p.index + 1
  }

  /** The nodes around a position, outermost first. */
  function Levels(p: Pos): (ls: seq<Level>)
    requires Valid(p)
    ensures |ls| == Depth(p) + 1
  {
    [Level(p.node, IndexAfter(p))] + if p.Inside? then Levels(p.inner) else []
  }

  predicate LevelsOk(ls: seq<Level>) {
    forall i :: 0 <= i < |ls| ==> ls[i].node.Elem? && ls[i].index <= |ls[i].node.content|
  }

  lemma {:induction false} LevelsAreOk(p: Pos)
    requires Valid(p)
    ensures LevelsOk(Levels(p))
  {
    if p.Inside? {
      LevelsAreOk(p.inner);
    }
  }

  /** Out of nodes that end, as far as the distance goes: the level come to, and the distance left. */
  function ClimbFrom(ls: seq<Level>, i: nat, d: nat): (r: (nat, nat))
    requires LevelsOk(ls) && i < |ls|
    ensures r.0 <= i
    decreases i
  {
    if d > 0 && i > 0 && ls[i].index == |ls[i].node.content| then ClimbFrom(ls, i - 1, d - 1) else (i, d)
  }

  function FirstOf(ns: seq<Node>): Option<Node> {
    if ns == [] then None else Some(ns[0])
  }

  /** Into first children, as far as the distance goes: whether there is none, or a leaf, on the way. */
  predicate Stopped(next: Option<Node>, d: nat)
    decreases d
  {
    d > 0 && (next.None? || !next.value.Elem? || Stopped(FirstOf(next.value.content), d - 1))
  }

  function ContentAfter(ls: seq<Level>, i: nat, d: nat): bool
    requires LevelsOk(ls) && i < |ls|
  {
    var (j, left) := ClimbFrom(ls, i, d);
    Stopped(FirstOf(ls[j].node.content[ls[j].index..]), left)
  }

  /** Whether a structure step may not replace the range. */
  function ContentBetween(doc: Node, from: nat, to: nat): bool
    requires doc.Elem? && ProperNode(doc) && from <= to && from <= Size(doc.content)
  {
    ResolveValid(doc, from);
    var p := Resolve(doc, from);
    LevelsAreOk(p);
    ContentAfter(Levels(p), Depth(p), to - from)
  }

  /** The guard as it runs: out of nodes that end here, then into nodes that start here. */
  method FindContentBetween(doc: Node, from: nat, until: nat) returns (r: bool)
    requires doc.Elem? && ProperNode(doc) && from <= until && from <= Size(doc.content)
    ensures r == ContentBetween(doc, from, until)
  {
    hide Resolve, Valid, Levels, ProperNode, Size;
    ResolveValid(doc, from);
    var p := Resolve(doc, from);
    var ls := Levels(p);
    LevelsAreOk(p);
    var d, i := until - from, Depth(p);
    while d > 0 && i > 0 && ls[i].index == |ls[i].node.content|
      invariant d >= 0 && 0 <= i < |ls| && ContentAfter(ls, i, d) == ContentAfter(ls, Depth(p), until - from)
    {
      i, d := i - 1, d - 1;
    }
    if d == 0 {
      return false;
    }
    var next := FirstOf(ls[i].node.content[ls[i].index..]);
    while d > 0
      invariant d >= 0 && Stopped(next, d) == ContentBetween(doc, from, until)
    {
      if next.None? || !next.value.Elem? {
        return true;
      }
      next := FirstOf(next.value.content);
      d := d - 1;
    }
    return false;
  }

  // ----------------------------------------------------------------------
  // What the guard looks at
  // ----------------------------------------------------------------------

  /** The tokens from a level on. */
  ghost function Onward(ls: seq<Level>, i: nat): seq<Token>
    requires LevelsOk(ls) && i < |ls|
    decreases i
  {
    Tokens(ls[i].node.content[ls[i].index..]) + if i == 0 then [] else [Close] + Onward(ls, i - 1)
  }

  lemma {:induction false} StoppedIs(ns: seq<Node>, rest: seq<Token>, d: nat)
    requires Proper(ns) && (rest == [] || rest[0].Close?)
    ensures !Stopped(FirstOf(ns), d) <==> OnlyOpens(Tokens(ns) + rest, d)
    decreases d
  {
    if d > 0 {
      if ns == [] {
        assert Tokens(ns) + rest == rest;
      } else {
        var n, ts := ns[0], Tokens(ns) + rest;
        FirstToken(ns, rest);
        if n.Elem? {
          ProperContent(n);
          var after := [Close] + (Tokens(ns[1..]) + rest);
          StoppedIs(n.content, after, d - 1);
        }
      }
    }
  }

  lemma ProperContent(n: Node)
    requires n.Elem? && ProperNode(n)
    ensures Proper(n.content)
  {
  }

  /** The first token tells an element from a leaf, and the others follow. */
  lemma FirstToken(ns: seq<Node>, rest: seq<Token>)
    requires ns != [] && ProperNode(ns[0])
    ensures var ts := Tokens(ns) + rest;
            && ts != [] && (ts[0].Open? <==> ns[0].Elem?) && !ts[0].Close?
            && (ns[0].Elem? ==> ts[1..] == Tokens(ns[0].content) + ([Close] + (Tokens(ns[1..]) + rest)))
  {
    TokensFirst(ns);
    var ts := Tokens(ns) + rest;
    match ns[0]
    case Text(markup, text) => assert ts[0] == NodeTokens(ns[0])[0] == Char(markup, text[0]);
    case Leaf(markup) => assert ts[0] == Atom(markup);
    case Elem(markup, content) =>
      assert NodeTokens(ns[0]) == [Open(markup)] + (Tokens(content) + [Close]);
      assert ts == [Open(markup)] + (Tokens(content) + ([Close] + (Tokens(ns[1..]) + rest)));
  }

  lemma {:induction false} ContentAfterIs(ls: seq<Level>, i: nat, d: nat)
    requires LevelsOk(ls) && i < |ls| && forall k :: 0 <= k < |ls| ==> ProperNode(ls[k].node)
    ensures !ContentAfter(ls, i, d) <==> OnlyStructure(Onward(ls, i), d)
    decreases i
  {
    hide Tokens, NodeTokens;
    var l := ls[i];
    var ns, rest := l.node.content[l.index..], if i == 0 then [] else [Close] + Onward(ls, i - 1);
    assert Onward(ls, i) == Tokens(ns) + rest;
    if d > 0 {
      if i > 0 && ns == [] {
        TokensNone();
        assert Tokens(ns) + rest == rest && rest[1..] == Onward(ls, i - 1);
        ContentAfterIs(ls, i - 1, d - 1);
      } else {
        ProperContent(l.node);
        StoppedIs(ns, rest, d);
        NotClosing(ns, rest, i);
      }
    }
  }

  lemma NotClosing(ns: seq<Node>, rest: seq<Token>, i: nat)
    requires Proper(ns) && (ns != [] || (i == 0 && rest == []))
    ensures var ts := Tokens(ns) + rest; ts == [] || !ts[0].Close?
  {
    if ns != [] {
      FirstToken(ns, rest);
    }
  }

  // ----------------------------------------------------------------------
  // Where it looks from
  // ----------------------------------------------------------------------

  /** How much of the text around a position is behind it. */
  function TextBehind(p: Pos): nat
    requires Valid(p)
  {
    if p.Inside? then TextBehind(p.inner)
    else if p.offset == Size(p.node.content[..p.index]) then 0
    else Size(p.node.content[..p.index]) + NodeSize(p.node.content[p.index]) - p.offset
  }

  ghost function Ahead(p: Pos): seq<Token>
    requires Valid(p)
  {
    if p.Here? then Tokens(p.node.content[IndexAfter(p)..])
    else Ahead(p.inner) + ([Close] + Tokens(p.node.content[p.index + 1..]))
  }

  lemma {:induction false} OnwardInside(p: Pos, i: nat)
    requires Valid(p) && p.Inside? && i <= Depth(p.inner) && p.node.Elem? && p.index < |p.node.content|
    ensures LevelsOk(Levels(p)) && LevelsOk(Levels(p.inner))
    ensures Onward(Levels(p), i + 1) == Onward(Levels(p.inner), i) + ([Close] + Tokens(p.node.content[p.index + 1..]))
    decreases i
  {
    hide Tokens, Valid;
    LevelsAreOk(p);
    InnerValid(p);
    LevelsAreOk(p.inner);
    var ls, inner := Levels(p), Levels(p.inner);
    assert ls[i + 1] == inner[i];
    var here, out := Tokens(inner[i].node.content[inner[i].index..]), [Close] + Tokens(p.node.content[p.index + 1..]);
    if i == 0 {
      assert Onward(ls, 0) == Tokens(p.node.content[p.index + 1..]) + [] == Tokens(p.node.content[p.index + 1..]);
      assert here + out == (here + []) + out;
    } else {
      OnwardInside(p, i - 1);
      var on := Onward(inner, i - 1);
      Assoc([Close], on, out);
      Assoc(here, [Close] + on, out);
    }
  }

  lemma InnerValid(p: Pos)
    requires Valid(p) && p.Inside?
    ensures Valid(p.inner) && p.node.Elem? && p.index < |p.node.content|
  {
  }

  lemma {:induction false} OnwardIsAhead(p: Pos)
    requires Valid(p)
    ensures LevelsOk(Levels(p)) && Onward(Levels(p), Depth(p)) == Ahead(p)
    decreases Depth(p)
  {
    hide Valid, Tokens, Size, Levels, Onward, LevelsOk, Ahead;
    LevelsAreOk(p);
    if p.Inside? {
      InnerValid(p);
      OnwardIsAhead(p.inner);
      OnwardInside(p, Depth(p.inner));
      AheadInside(p);
    } else {
      OnwardHere(p);
    }
  }

  lemma AheadInside(p: Pos)
    requires Valid(p) && p.Inside? && p.node.Elem? && p.index < |p.node.content| && Valid(p.inner)
    ensures Ahead(p) == Ahead(p.inner) + ([Close] + Tokens(p.node.content[p.index + 1..]))
  {
    hide Tokens;
  }

  lemma OnwardHere(p: Pos)
    requires Valid(p) && p.Here? && LevelsOk(Levels(p))
    ensures Onward(Levels(p), 0) == Ahead(p)
  {
    hide Tokens, Size, IndexAfter, Valid;
    assert Levels(p)[0] == Level(p.node, IndexAfter(p));
    var ts := Tokens(p.node.content[IndexAfter(p)..]);
    assert ts + [] == ts;
  }

  /** What the guard looks at is what comes after the position, without the rest of the text that it is in. */
  lemma {:induction false} AheadIsRight(p: Pos)
    requires Valid(p)
    ensures TextBehind(p) <= |Right(p)| && Ahead(p) == Right(p)[TextBehind(p)..]
    decreases Depth(p)
  {
    hide Tokens, NodeTokens;
    if p.Inside? {
      AheadIsRight(p.inner);
      var out := [Close] + Tokens(p.node.content[p.index + 1..]);
      assert Right(p) == Right(p.inner) + out;
      assert (Right(p.inner) + out)[TextBehind(p)..] == Right(p.inner)[TextBehind(p)..] + out;
    } else {
      HereAhead(p);
    }
  }

  lemma HereAhead(p: Pos)
    requires Valid(p) && p.Here?
    ensures TextBehind(p) <= |Right(p)| && Ahead(p) == Right(p)[TextBehind(p)..]
  {
    hide Tokens, NodeTokens;
    var ns, k := p.node.content, IndexAfter(p);
    HereInRange(p);
    RightHere(p);
    TextEnds(p);
    hide Right, TextBehind, Size;
    CutBehind(ns, k);
    TailOfTail(Tokens(ns), p.offset, TextBehind(p));
  }

  lemma TailOfTail<T>(s: seq<T>, i: nat, j: nat)
    requires i + j <= |s|
    ensures s[i..][j..] == s[i + j..]
  {
  }

  lemma RightHere(p: Pos)
    requires Valid(p) && p.Here? && p.offset <= Size(p.node.content)
    ensures Right(p) == Tokens(p.node.content)[p.offset..]
  {
    hide Tokens, NodeTokens;
    var r := Tokens(p.node.content)[p.offset..];
    assert [] + r == r;
  }

  /** The rest of a text ends where the next child begins. */
  lemma TextEnds(p: Pos)
    requires Valid(p) && p.Here?
    ensures IndexAfter(p) <= |p.node.content| && p.offset + TextBehind(p) == Size(p.node.content[..IndexAfter(p)])
  {
    hide Tokens, NodeTokens;
    var ns := p.node.content;
    if p.offset != Size(ns[..p.index]) {
      SizeUpTo(ns, p.index);
    }
  }

  lemma CutBehind(ns: seq<Node>, k: nat)
    requires k <= |ns|
    ensures Size(ns[..k]) <= Size(ns) && Tokens(ns)[Size(ns[..k])..] == Tokens(ns[k..])
  {
    hide Tokens, NodeTokens;
    TokensCut(ns, k);
  }

  /** The guard lets a range pass exactly when, from the end of the text it starts in, only structure comes. */
  lemma GuardLooksBehindText(doc: Node, from: nat, to: nat)
    requires doc.Elem? && ProperNode(doc) && from <= to && from <= Size(doc.content)
    ensures var p := Resolve(doc, from);
            && Valid(p) && from + TextBehind(p) <= Size(doc.content)
            && (!ContentBetween(doc, from, to) <==> OnlyStructure(Tokens(doc.content)[from + TextBehind(p)..], to - from))
  {
    hide Tokens, NodeTokens, Right, TextBehind, Valid, Levels, Resolve, ProperNode, Onward, Ahead, ContentAfter, OnlyStructure;
    ResolveValid(doc, from);
    var p := Resolve(doc, from);
    LeftRightSlices(p);
    OnwardIsAhead(p);
    AheadIsRight(p);
    LevelsProper(p);
    ContentAfterIs(Levels(p), Depth(p), to - from);
    assert Tokens(doc.content)[from..][TextBehind(p)..] == Tokens(doc.content)[from + TextBehind(p)..];
  }

  lemma {:induction false} LevelsProper(p: Pos)
    requires Valid(p) && ProperNode(p.node)
    ensures forall k :: 0 <= k < |Levels(p)| ==> ProperNode(Levels(p)[k].node)
    decreases Depth(p)
  {
    if p.Inside? {
      LevelsProper(p.inner);
    }
  }

  /** Where the range does not start inside a text, the guard lets it pass exactly when it holds only structure. */
  lemma GuardIsRight(doc: Node, from: nat, to: nat)
    requires doc.Elem? && ProperNode(doc) && from <= to && from <= Size(doc.content)
    requires Valid(Resolve(doc, from)) && TextBehind(Resolve(doc, from)) == 0
    ensures !ContentBetween(doc, from, to) <==> OnlyStructure(Tokens(doc.content)[from..], to - from)
  {
    hide Tokens, ContentBetween, OnlyStructure, TextBehind, Valid, Resolve, ProperNode;
    GuardLooksBehindText(doc, from, to);
  }

  /** Inside a text it is right exactly when the range is empty, or as many tokens behind the text are not all structure. */
  lemma GuardRightExactly(doc: Node, from: nat, to: nat)
    requires doc.Elem? && ProperNode(doc) && from <= to && from <= Size(doc.content)
    requires Valid(Resolve(doc, from)) && TextBehind(Resolve(doc, from)) > 0
    ensures var n := TextBehind(Resolve(doc, from));
            && from + n <= Size(doc.content)
            && ((!ContentBetween(doc, from, to) <==> OnlyStructure(Tokens(doc.content)[from..], to - from))
                <==> from == to || !OnlyStructure(Tokens(doc.content)[from + n..], to - from))
  {
    hide Tokens, NodeTokens, ContentBetween, Resolve, ProperNode, OnlyStructure, TextBehind, Valid, Right, Left;
    GuardLooksBehindText(doc, from, to);
    if from < to {
      TextIsNotStructure(doc, from, to);
    } else {
      NoTokens(Tokens(doc.content)[from..]);
      NoTokens(Tokens(doc.content)[from + TextBehind(Resolve(doc, from))..]);
    }
  }

  lemma TextIsNotStructure(doc: Node, from: nat, to: nat)
    requires doc.Elem? && ProperNode(doc) && from < to && from <= Size(doc.content)
    requires Valid(Resolve(doc, from)) && TextBehind(Resolve(doc, from)) > 0
    ensures !OnlyStructure(Tokens(doc.content)[from..], to - from)
  {
    hide Tokens, NodeTokens, Resolve, ProperNode, OnlyStructure, TextBehind, Valid, Right, Left;
    var p := Resolve(doc, from);
    ResolveValid(doc, from);
    LeftRightSlices(p);
    CharBehind(p);
    NotStructure(Right(p), to - from);
  }

  lemma NoTokens(ts: seq<Token>)
    ensures OnlyStructure(ts, 0)
  {
  }

  lemma NotStructure(ts: seq<Token>, d: nat)
    requires d > 0 && ts != [] && ts[0].Char?
    ensures !OnlyStructure(ts, d)
  {
  }

  /** Behind a position inside a text comes a character. */
  lemma {:induction false} CharBehind(p: Pos)
    requires Valid(p) && TextBehind(p) > 0
    ensures Right(p) != [] && Right(p)[0].Char?
    decreases Depth(p)
  {
    hide Tokens;
    if p.Inside? {
      CharBehind(p.inner);
    } else {
      var ns, k := p.node.content, p.index;
      HereInRange(p);
      TokensSplit(ns, k);
      var t := ns[k];
      assert Right(p) == [] + Tokens(ns)[p.offset..];
      var start := Size(ns[..k]);
      assert NodeTokens(t) == Chars(t.markup, t.text);
      assert Tokens(ns)[p.offset] == NodeTokens(t)[p.offset - start];
    }
  }

  /** A paragraph with two characters. */
  function Paragraph(m: Markup): Node {
    Elem(m, [Elem(m, [Text(m, "ab")])])
  }

  /** Between the two characters the guard lets the second one be replaced. */
  lemma GuardMissesText(m: Markup)
    ensures var doc := Paragraph(m);
            && ProperNode(doc) && Size(doc.content) == 4
            && !ContentBetween(doc, 2, 3) && Tokens(doc.content)[2] == Char(m, 'b')
  {
    var doc := Paragraph(m);
    var child, text := Elem(m, [Text(m, "ab")]), Text(m, "ab");
    ParagraphTokens(m);
    var p := Inside(doc, 0, Here(child, 0, 1));
    assert Size(child.content[..0]) == 0 && Size(doc.content[..0]) == 0;
    assert Valid(p.inner) && Valid(p);
    ResolveUnique(p);
    assert Offset(p) == 2;
    assert Levels(p) == [Level(doc, 1), Level(child, 1)];
    assert ClimbFrom(Levels(p), 1, 1) == (0, 0) by {
      LevelsAreOk(p);
    }
  }

  lemma ParagraphTokens(m: Markup)
    ensures var doc := Paragraph(m);
            && ProperNode(doc) && Tokens(doc.content) == [Open(m), Char(m, 'a'), Char(m, 'b'), Close]
            && Tokens(doc.content[0].content) == [Char(m, 'a'), Char(m, 'b')]
  {
    var doc := Paragraph(m);
    var child, text := Elem(m, [Text(m, "ab")]), Text(m, "ab");
    TokensSingle(child);
    TokensSingle(text);
    assert NodeTokens(text) == [Char(m, 'a'), Char(m, 'b')];
    assert NodeTokens(child) == [Open(m)] + Tokens([text]) + [Close];
  }
}
