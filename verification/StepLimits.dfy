/**
  Where inverting and merging stop short: compatibility of types is not transitive.
  Type 1 holds images, type 3 rules, and type 2 either, so 1 joins with 2 and 2 with 3,
  but 1 does not join with 3.
 */
module StepLimits {
  import opened Options
  import opened Sequences
  import opened Documents
  import opened Positions
  import opened Replace
  import opened Splice
  import opened Outcomes
  import opened Exactness
  import opened ReplaceExactly
  import opened Slicing
  import opened Steps

  function Mark(t: nat): Markup {
    Markup(t, 0, [])
  }

  function Holding(): Schema {
    Schema((t: nat, ms: seq<Markup>) => forall i :: 0 <= i < |ms| ==> MayHold(t, ms[i].typ),
           (a: nat, b: nat) => (a == 2 && 1 <= b <= 3) || (b == 2 && 1 <= a <= 3))
  }

  const IMAGE: nat := 4
  const RULE: nat := 5

  predicate MayHold(parent: nat, child: nat) {
    match parent
    case 0 => 1 <= child <= 3
    case 1 => child == IMAGE
    case 2 => child == IMAGE || child == RULE
    case 3 => child == RULE
    case _ => false
  }

  const ALBUM := Elem(Mark(1), [Leaf(Mark(IMAGE))])

  function Sheet(t: nat): Node {
    Elem(Mark(t), [])
  }

  function Doc(ns: seq<Node>): Node {
    Elem(Mark(0), ns)
  }

  lemma AlbumTokens()
    ensures NodeTokens(ALBUM) == [Open(Mark(1)), Atom(Mark(IMAGE)), Close]
    ensures forall t :: NodeTokens(Sheet(t)) == [Open(Mark(t)), Close]
  {
    TokensSingle(Leaf(Mark(IMAGE)));
    TokensNone();
  }

  lemma TwoTokens(a: Node, b: Node)
    ensures Tokens([a, b]) == NodeTokens(a) + NodeTokens(b)
  {
    TokensPush([a], b);
    TokensSingle(a);
    assert [a] + [b] == [a, b];
  }

  predicate IsPart(n: Node) {
    n == ALBUM || n == Sheet(1) || n == Sheet(2) || n == Sheet(3)
  }

  lemma PartCases(n: Node)
    requires IsPart(n)
    ensures n == ALBUM || (n.Elem? && n.content == [] && n == Sheet(n.markup.typ) && 1 <= n.markup.typ <= 3)
  {
  }

  lemma PartOk(n: Node)
    requires IsPart(n)
    ensures NormalNode(n) && ValidNode(Holding(), n) && 1 <= n.markup.typ <= 3
  {
    hide Tokens, NodeTokens, Size, NodeSize, IsPart;
    PartCases(n);
    if n == ALBUM {
      assert NormalNode(Leaf(Mark(IMAGE))) && ValidNode(Holding(), Leaf(Mark(IMAGE)));
      assert Markups(n.content) == [Mark(IMAGE)];
    } else {
      assert Markups(n.content) == [];
    }
  }

  lemma SmallDocOk(ns: seq<Node>)
    requires forall i :: 0 <= i < |ns| ==> IsPart(ns[i])
    ensures DocOk(Holding(), Doc(ns))
  {
    hide Tokens, NodeTokens, MayHold;
    forall i | 0 <= i < |ns| ensures NormalNode(ns[i]) && ValidNode(Holding(), ns[i]) && MayHold(0, ns[i].markup.typ) {
      PartOk(ns[i]);
      TopHolds(ns[i].markup.typ);
    }
    forall i | 0 < i < |ns| ensures !Mergeable(ns[i - 1], ns[i]) {
      assert IsPart(ns[i]);
    }
    assert NormalNode(Doc(ns));
    NormalNodeIsProper(Doc(ns));
    assert forall i :: 0 <= i < |ns| ==> Markups(ns)[i] == ns[i].markup;
    assert Holding().accepts(0, Markups(ns));
    assert ValidNode(Holding(), Doc(ns));
  }

  lemma TopHolds(t: nat)
    requires 1 <= t <= 3
    ensures MayHold(0, t)
  {
  }

  lemma OpenAfterTwo(stack: seq<Markup>, a: Token, b: Token)
    ensures OpenAfter(stack, [a, b]) == Positions.Step(Positions.Step(stack, a), b)
  {
    hide Positions.Step;
    assert [a, b][1..] == [b];
    OpenAfterOne(Positions.Step(stack, a), b);
  }

  lemma OpenAfterFour(stack: seq<Markup>, a: Token, b: Token, c: Token, d: Token)
    ensures OpenAfter(stack, [a, b, c, d])
         == Positions.Step(Positions.Step(Positions.Step(Positions.Step(stack, a), b), c), d)
  {
    hide Positions.Step, OpenAfter;
    assert [a, b] + [c, d] == [a, b, c, d];
    OpenAfterAppend(stack, [a, b], [c, d]);
    OpenAfterTwo(stack, a, b);
    OpenAfterTwo(Positions.Step(Positions.Step(stack, a), b), c, d);
  }

  lemma ContextsOf(m: nat, n: nat)
    ensures OpenAfter([], [Open(Mark(m)), Atom(Mark(IMAGE))]) == [Mark(m)]
    ensures OpenAfter([], [Open(Mark(m)), Atom(Mark(IMAGE)), Close, Open(Mark(n))]) == [Mark(n)]
  {
    hide OpenAfter;
    OpenAfterTwo([], Open(Mark(m)), Atom(Mark(IMAGE)));
    OpenAfterFour([], Open(Mark(m)), Atom(Mark(IMAGE)), Close, Open(Mark(n)));
  }

  lemma OneSheetSlice()
    ensures var sl := Slice([Sheet(2)], 1, 1);
            && WellFormed(sl) && Normal(sl.content) && Size(sl.content) == 2
            && LeftMarks(sl.content, 1) == [Mark(2)] && RightMarks(sl.content, 1) == [Mark(2)]
            && SliceTokens(sl) == []
  {
    var sl := Slice([Sheet(2)], 1, 1);
    AlbumTokens();
    TokensSingle(Sheet(2));
    assert NormalNode(Sheet(2)) && ProperNode(Sheet(2));
    assert LeftMarks(sl.content[0].content, 0) == [] && RightMarks(sl.content[0].content, 0) == [];
  }

  lemma JoiningContexts()
    ensures var doc, r := Doc([ALBUM, Sheet(3)]), Doc([ALBUM]);
            && Size(doc.content) == 5 && Size(r.content) == 3
            && Context(doc, 2) == Context(r, 2) == [Mark(1)] && Context(doc, 4) == [Mark(3)]
            && Tokens(r.content) == Tokens(doc.content)[..2] + [] + Tokens(doc.content)[4..]
  {
    hide Tokens, NodeTokens, OpenAfter, Size, NodeSize;
    AlbumTokens();
    TwoTokens(ALBUM, Sheet(3));
    TokensSingle(ALBUM);
    ContextsOf(1, 3);
    var ts, rs := Tokens([ALBUM, Sheet(3)]), Tokens([ALBUM]);
    assert ts == [Open(Mark(1)), Atom(Mark(IMAGE)), Close, Open(Mark(3)), Close];
    assert ts[..4] == [Open(Mark(1)), Atom(Mark(IMAGE)), Close, Open(Mark(3))];
    assert ts[..2] == rs[..2] == [Open(Mark(1)), Atom(Mark(IMAGE))];
  }

  const JOINING := Step(2, 4, Slice([Sheet(2)], 1, 1), false)

  lemma JoiningApplies()
    ensures var s, doc, r := Holding(), Doc([ALBUM, Sheet(3)]), Doc([ALBUM]);
            && DocOk(s, doc) && DocOk(s, r) && StepOk(JOINING)
            && Apply(s, JOINING, doc) == Ok(r)
  {
    hide Tokens, NodeTokens, Context, LeftMarks, RightMarks, Apply, NormalNode, ValidNode, ProperNode, Normal, Proper,
         OpensLeft, OpensRight, NodeSize, Fits, SliceTokens;
    var s, doc, r := Holding(), Doc([ALBUM, Sheet(3)]), Doc([ALBUM]);
    SmallDocOk([ALBUM, Sheet(3)]);
    SmallDocOk([ALBUM]);
    OneSheetSlice();
    JoiningContexts();
    StepFits(s, doc, JOINING, Mark(1), Mark(3));
    ApplyReaches(s, JOINING, doc, r);
  }

  /**
    A slice open on both sides in one node of type 2 joins an album to a sheet of rules;
    its inverse would have to join the two directly, and is refused.
   */
  lemma InverseRefused()
    ensures var s, doc, r := Holding(), Doc([ALBUM, Sheet(3)]), Doc([ALBUM]);
            && DocOk(s, doc) && DocOk(s, r) && StepOk(JOINING)
            && Apply(s, JOINING, doc) == Ok(r)
            && 0 <= SliceSize(JOINING.slice)
            && Invert(JOINING, doc).Ok? && StepOk(Invert(JOINING, doc).value)
            && Apply(s, Invert(JOINING, doc).value, r) != Ok(doc)
  {
    hide Tokens, NodeTokens, Context, LeftMarks, RightMarks, Apply, Invert, NormalNode, ValidNode, ProperNode, Normal, Proper,
         OpensLeft, OpensRight, NodeSize, StepOk, SliceTokens;
    var s, doc, r := Holding(), Doc([ALBUM, Sheet(3)]), Doc([ALBUM]);
    OneSheetSlice();
    JoiningApplies();
    JoiningContexts();
    InvertUndoes(s, JOINING, doc);
    assert !Compatible(s, Context(r, 2)[0].typ, Context(doc, 4)[0].typ);
  }

  lemma StepFits(s: Schema, doc: Node, step: Step, f: Markup, t: Markup)
    requires doc.Elem? && step.from <= step.to <= Size(doc.content) && step.slice == Slice([Sheet(2)], 1, 1)
    requires Context(doc, step.from) == [f] && Context(doc, step.to) == [t]
    requires WellFormed(step.slice)
    requires LeftMarks(step.slice.content, 1) == [Mark(2)] && RightMarks(step.slice.content, 1) == [Mark(2)]
    requires Compatible(s, 2, f.typ) && Compatible(s, t.typ, 2)
    ensures Fits(s, doc, step.from, step.to, step.slice)
  {
    hide Context, LeftMarks, RightMarks, OpensLeft, OpensRight, Proper, Tokens, NodeTokens, Size;
    assert [f][..0] + [Mark(2)] == [Mark(2)];
  }

  lemma NoSlice()
    ensures WellFormed(EMPTY_SLICE) && Normal(EMPTY_SLICE.content) && Size(EMPTY_SLICE.content) == 0
    ensures SliceTokens(EMPTY_SLICE) == [] && ValidSlice(Holding(), EMPTY_SLICE)
  {
  }

  lemma DeletionFits(s: Schema, doc: Node, from: nat, to: nat, f: Markup, t: Markup)
    requires doc.Elem? && from <= to <= Size(doc.content)
    requires Context(doc, from) == [f] && Context(doc, to) == [t]
    requires Compatible(s, t.typ, f.typ)
    ensures WellFormed(EMPTY_SLICE) && Fits(s, doc, from, to, EMPTY_SLICE)
  {
    hide Context, Tokens, NodeTokens, Size;
    NoSlice();
    TrivialJoins(s, [f], EMPTY_SLICE, [t]);
  }

  lemma DeletionEffect(s: Schema, doc: Node, from: nat, to: nat, r: Node)
    requires doc.Elem? && from <= to <= Size(doc.content) && Fits(s, doc, from, to, EMPTY_SLICE)
    requires DocOk(s, doc) && DocOk(s, r) && r.markup == doc.markup
    requires Tokens(r.content) == Tokens(doc.content)[..from] + Tokens(doc.content)[to..]
    ensures StepOk(Step(from, to, EMPTY_SLICE, false)) && Apply(s, Step(from, to, EMPTY_SLICE, false), doc) == Ok(r)
  {
    hide Tokens, NodeTokens, Fits, Apply, NormalNode, ValidNode, ProperNode, Normal, Proper, Size, SliceTokens;
    NoSlice();
    var ts := Tokens(doc.content);
    assert ts[..from] + [] + ts[to..] == ts[..from] + ts[to..];
    ApplyReaches(s, Step(from, to, EMPTY_SLICE, false), doc, r);
  }

  lemma ThreeTokens()
    ensures Tokens([ALBUM, Sheet(2), Sheet(3)])
         == [Open(Mark(1)), Atom(Mark(IMAGE)), Close, Open(Mark(2)), Close, Open(Mark(3)), Close]
    ensures Tokens([ALBUM, Sheet(2)]) == [Open(Mark(1)), Atom(Mark(IMAGE)), Close, Open(Mark(2)), Close]
    ensures Tokens([ALBUM]) == [Open(Mark(1)), Atom(Mark(IMAGE)), Close]
  {
    hide Tokens, NodeTokens;
    AlbumTokens();
    TokensSingle(ALBUM);
    TwoTokens(ALBUM, Sheet(2));
    TokensPush([ALBUM, Sheet(2)], Sheet(3));
    assert [ALBUM, Sheet(2)] + [Sheet(3)] == [ALBUM, Sheet(2), Sheet(3)];
  }

  lemma LastContext(ts: seq<Token>)
    requires ts == [Open(Mark(1)), Atom(Mark(IMAGE)), Close, Open(Mark(2)), Close, Open(Mark(3)), Close]
    ensures OpenAfter([], ts[..6]) == [Mark(3)]
  {
    hide OpenAfter;
    ContextsOf(1, 2);
    var first := [Open(Mark(1)), Atom(Mark(IMAGE)), Close, Open(Mark(2))];
    assert ts[..6] == first + [Close, Open(Mark(3))];
    OpenAfterAppend([], first, [Close, Open(Mark(3))]);
    OpenAfterTwo([Mark(2)], Close, Open(Mark(3)));
  }

  lemma DeletionContexts()
    ensures var doc, d1, d2 := Doc([ALBUM, Sheet(2), Sheet(3)]), Doc([ALBUM, Sheet(2)]), Doc([ALBUM]);
            && Size(doc.content) == 7 && Size(d1.content) == 5 && Size(d2.content) == 3
            && Context(doc, 4) == [Mark(2)] && Context(doc, 6) == [Mark(3)]
            && Context(d1, 2) == [Mark(1)] && Context(d1, 4) == [Mark(2)] && Context(d2, 2) == [Mark(1)]
            && Tokens(d1.content) == Tokens(doc.content)[..4] + Tokens(doc.content)[6..]
            && Tokens(d2.content) == Tokens(d1.content)[..2] + Tokens(d1.content)[4..]
  {
    hide Tokens, NodeTokens, OpenAfter, Size, NodeSize;
    ThreeTokens();
    ContextsOf(1, 2);
    var ts, ts1, ts2 := Tokens([ALBUM, Sheet(2), Sheet(3)]), Tokens([ALBUM, Sheet(2)]), Tokens([ALBUM]);
    LastContext(ts);
    assert ts[..4] == ts1[..4] == [Open(Mark(1)), Atom(Mark(IMAGE)), Close, Open(Mark(2))];
    assert ts1[..2] == ts2[..2] == [Open(Mark(1)), Atom(Mark(IMAGE))];
  }

  lemma DeletionsInTurn()
    ensures var s, doc, d1, d2 := Holding(), Doc([ALBUM, Sheet(2), Sheet(3)]), Doc([ALBUM, Sheet(2)]), Doc([ALBUM]);
            InTurn(s, Step(4, 6, EMPTY_SLICE, false), Step(2, 4, EMPTY_SLICE, false), doc, d1, d2)
  {
    hide Tokens, NodeTokens, Context, Apply, NormalNode, ValidNode, ProperNode, Normal, Proper, Fits, ValidSlice, Size, NodeSize,
         Refused, Resolve, OpensLeft, OpensRight, SliceTokens, OpenAfter;
    var s, doc, d1, d2 := Holding(), Doc([ALBUM, Sheet(2), Sheet(3)]), Doc([ALBUM, Sheet(2)]), Doc([ALBUM]);
    SmallDocOk([ALBUM, Sheet(2), Sheet(3)]);
    SmallDocOk([ALBUM, Sheet(2)]);
    SmallDocOk([ALBUM]);
    NoSlice();
    DeletionContexts();
    DeletionFits(s, doc, 4, 6, Mark(2), Mark(3));
    DeletionEffect(s, doc, 4, 6, d1);
    DeletionFits(s, d1, 2, 4, Mark(1), Mark(2));
    DeletionEffect(s, d1, 2, 4, d2);
  }

  /**
    Two deletions, the second ending where the first began, each join compatible types;
    the merged deletion would join the outer two directly, and is refused.
   */
  lemma MergeRefused()
    ensures var s, doc, d1, d2 := Holding(), Doc([ALBUM, Sheet(2), Sheet(3)]), Doc([ALBUM, Sheet(2)]), Doc([ALBUM]);
            var a, b := Step(4, 6, EMPTY_SLICE, false), Step(2, 4, EMPTY_SLICE, false);
            && InTurn(s, a, b, doc, d1, d2)
            && Merge(a, b) == Some(Step(2, 6, EMPTY_SLICE, false)) && StepOk(Step(2, 6, EMPTY_SLICE, false))
            && Apply(s, Step(2, 6, EMPTY_SLICE, false), doc) != Ok(d2)
  {
    hide Tokens, NodeTokens, Context, Apply, NormalNode, ValidNode, ProperNode, Normal, Proper, Fits, ValidSlice, NodeSize, InTurn, Doc,
         Refused, Resolve, OpensLeft, OpensRight, Size, SliceTokens, OpenAfter;
    var s, doc, d1, d2 := Holding(), Doc([ALBUM, Sheet(2), Sheet(3)]), Doc([ALBUM, Sheet(2)]), Doc([ALBUM]);
    DeletionsInTurn();
    DeletionContexts();
    NoSlice();
    MergeBackward(s, Step(4, 6, EMPTY_SLICE, false), Step(2, 4, EMPTY_SLICE, false), doc, d1, d2);
    assert !Compatible(s, Context(doc, 6)[0].typ, Context(d2, 2)[0].typ);
  }
}
