/**
  Documents as the editor holds them (trees of nodes) and as positions see them
  (a flat list of tokens).  A position is an index into that list: an element
  contributes one opening and one closing token, a leaf one token, a text node
  one token per character.
 */
module Documents {
  import opened Options
  import opened Sequences

  /** A node's type together with its attributes and marks, compared as a whole by `sameMarkup`. */
  datatype Markup = Markup(typ: nat, attrs: nat, marks: seq<nat>)

  datatype Node =
    | Text(markup: Markup, text: string)
    | Leaf(markup: Markup)
    | Elem(markup: Markup, content: seq<Node>)

  datatype Token =
    | Open(markup: Markup)
    | Close
    | Atom(markup: Markup)
    | Char(markup: Markup, c: char)

  // ---------------------------------------------------------------- the two views

  function NodeSize(n: Node): (size: nat)
    ensures size == |NodeTokens(n)|
    decreases n, 1
  {
    match n
    case Text(_, text) => |text|
    case Leaf(_) => 1
    case Elem(_, content) => 2 + Size(content)
  }

  function Size(ns: seq<Node>): (size: nat)
    ensures size == |Tokens(ns)|
    decreases ns, 0
  {
    if ns == [] then 0 else NodeSize(ns[0]) + Size(ns[1..])
  }

  function NodeTokens(n: Node): seq<Token>
    decreases n, 1
  {
    match n
    case Text(markup, text) => Chars(markup, text)
    case Leaf(markup) => [Atom(markup)]
    case Elem(markup, content) => [Open(markup)] + Tokens(content) + [Close]
  }

  function Tokens(ns: seq<Node>): seq<Token>
    decreases ns, 0
  {
    if ns == [] then [] else NodeTokens(ns[0]) + Tokens(ns[1..])
  }

  function Chars(markup: Markup, text: string): (ts: seq<Token>)
    ensures |ts| == |text|
  {
    seq(|text|, i requires 0 <= i < |text| => Char(markup, text[i]))
  }

  lemma {:induction false} TokensAppend(a: seq<Node>, b: seq<Node>)
    ensures Tokens(a + b) == Tokens(a) + Tokens(b)
  {
    if a == [] {
      assert a + b == b;
    } else {
      assert (a + b)[1..] == a[1..] + b;
      TokensAppend(a[1..], b);
    }
  }

  lemma TokensNone()
    ensures Tokens([]) == []
  {
  }

  lemma ElemTokensAre(n: Node)
    requires n.Elem?
    ensures NodeTokens(n) == [Open(n.markup)] + Tokens(n.content) + [Close]
  {
  }

  lemma TokensFirst(ns: seq<Node>)
    requires ns != []
    ensures Tokens(ns) == NodeTokens(ns[0]) + Tokens(ns[1..])
  {
  }

  lemma TokensSingle(n: Node)
    ensures Tokens([n]) == NodeTokens(n)
  {
    assert [n][1..] == [];
  }

  lemma TokensCut(ns: seq<Node>, i: nat)
    requires i <= |ns|
    ensures Tokens(ns) == Tokens(ns[..i]) + Tokens(ns[i..])
  {
    assert ns == ns[..i] + ns[i..];
    TokensAppend(ns[..i], ns[i..]);
  }

  lemma TokensPush(ns: seq<Node>, n: Node)
    ensures Tokens(ns + [n]) == Tokens(ns) + NodeTokens(n)
  {
    TokensAppend(ns, [n]);
    TokensSingle(n);
  }

  lemma TokensLast(ns: seq<Node>)
    requires ns != []
    ensures Tokens(ns) == Tokens(ns[..|ns| - 1]) + NodeTokens(ns[|ns| - 1])
  {
    hide Tokens, NodeTokens;
    assert ns == ns[..|ns| - 1] + [ns[|ns| - 1]];
    TokensPush(ns[..|ns| - 1], ns[|ns| - 1]);
  }

  lemma TokensUpTo(ns: seq<Node>, i: nat)
    requires i < |ns|
    ensures Tokens(ns[..i + 1]) == Tokens(ns[..i]) + NodeTokens(ns[i])
  {
    hide Tokens, NodeTokens;
    assert ns[..i + 1] == ns[..i] + [ns[i]];
    TokensPush(ns[..i], ns[i]);
  }

  /** The tokens around the child at `i`. */
  lemma TokensSplit(ns: seq<Node>, i: nat)
    requires i < |ns|
    ensures Tokens(ns) == Tokens(ns[..i]) + (NodeTokens(ns[i]) + Tokens(ns[i + 1..]))
  {
    TokensCut(ns, i);
    assert ns[i..][0] == ns[i] && ns[i..][1..] == ns[i + 1..];
  }

  // ---------------------------------------------------------------- invariants of trees

  /** The text constructor refuses empty text. */
  ghost predicate Proper(ns: seq<Node>) {
    forall i :: 0 <= i < |ns| ==> ProperNode(ns[i])
  }

  ghost predicate ProperNode(n: Node) {
    match n
    case Text(_, text) => text != []
    case Leaf(_) => true
    case Elem(_, content) => forall i :: 0 <= i < |content| ==> ProperNode(content[i])
  }

  predicate Mergeable(a: Node, b: Node) {
    a.Text? && b.Text? && a.markup == b.markup
  }

  /** No empty text and no two neighbouring text nodes with equal markup, at any depth. */
  ghost predicate Normal(ns: seq<Node>)
    decreases ns, 0
  {
    && (forall i :: 0 <= i < |ns| ==> NormalNode(ns[i]))
    && Unmerged(ns)
  }

  ghost predicate NormalNode(n: Node)
    decreases n, 1
  {
    match n
    case Text(_, text) => text != []
    case Leaf(_) => true
    case Elem(_, content) => Normal(content)
  }

  ghost predicate Unmerged(ns: seq<Node>) {
    forall i :: 0 < i < |ns| ==> !Mergeable(ns[i - 1], ns[i])
  }

  lemma NormalTail(ns: seq<Node>)
    requires Normal(ns) && ns != []
    ensures NormalNode(ns[0]) && Normal(ns[1..])
  {
    assert forall i :: 0 <= i < |ns[1..]| ==> ns[1..][i] == ns[i + 1];
  }

  lemma {:induction false} NormalNodeIsProper(n: Node)
    requires NormalNode(n)
    ensures ProperNode(n)
  {
    if n.Elem? {
      forall i | 0 <= i < |n.content| ensures ProperNode(n.content[i]) {
        NormalNodeIsProper(n.content[i]);
      }
    }
  }

  lemma NormalIsProper(ns: seq<Node>)
    requires Normal(ns)
    ensures Proper(ns)
  {
    forall i | 0 <= i < |ns| ensures ProperNode(ns[i]) {
      NormalNodeIsProper(ns[i]);
    }
  }

  // ---------------------------------------------------------------- the token list determines the tree

  /** Is this the first token of a node (rather than the close of its parent)? */
  predicate Starts(ts: seq<Token>) {
    ts != [] && !ts[0].Close?
  }

  /** What may follow a complete list of siblings: nothing, or the close of their parent. */
  predicate Ends(ts: seq<Token>) {
    ts == [] || ts[0].Close?
  }

  /** May not extend a run of characters with this markup. */
  predicate StopsRun(markup: Markup, ts: seq<Token>) {
    ts == [] || !(ts[0].Char? && ts[0].markup == markup)
  }

  lemma FirstToken(ns: seq<Node>)
    requires Normal(ns) && ns != []
    ensures Starts(Tokens(ns))
    ensures match ns[0] {
      case Text(m, text) => Tokens(ns)[0].Char? && Tokens(ns)[0].markup == m
      case Leaf(m) => Tokens(ns)[0] == Atom(m)
      case Elem(m, _) => Tokens(ns)[0] == Open(m)
    }
  {
    assert NormalNode(ns[0]);
    assert Tokens(ns) == NodeTokens(ns[0]) + Tokens(ns[1..]);
  }

  /** After a leading text node the next token is not another character of the same markup. */
  lemma RunEndsAt(ns: seq<Node>, rest: seq<Token>)
    requires Normal(ns) && ns != [] && ns[0].Text? && Ends(rest)
    ensures StopsRun(ns[0].markup, Tokens(ns[1..]) + rest)
  {
    if |ns| > 1 {
      assert !Mergeable(ns[0], ns[1]);
      NormalTail(ns);
      FirstToken(ns[1..]);
    }
  }

  lemma LongerRun(m: Markup, x: string, y: string, p: seq<Token>, q: seq<Token>)
    requires Chars(m, x) + p == Chars(m, y) + q
    requires |x| < |y|
    ensures !StopsRun(m, p)
  {
    assert (Chars(m, x) + p)[|x|] == Chars(m, y)[|x|];
  }

  lemma RunInjective(m: Markup, x: string, y: string, p: seq<Token>, q: seq<Token>)
    requires Chars(m, x) + p == Chars(m, y) + q
    requires StopsRun(m, p) && StopsRun(m, q)
    ensures x == y && p == q
  {
    var all := Chars(m, x) + p;
    if |x| < |y| {
      LongerRun(m, x, y, p, q);
    } else if |y| < |x| {
      LongerRun(m, y, x, q, p);
    }
    assert forall i :: 0 <= i < |x| ==> all[i] == Char(m, x[i]) && all[i] == Char(m, y[i]);
    assert p == all[|x|..] == q;
  }

  /** A list of siblings can be read back off the front of a token list in at most one way. */
  lemma {:induction false} TokensInjective(a: seq<Node>, b: seq<Node>, ra: seq<Token>, rb: seq<Token>)
    requires Normal(a) && Normal(b)
    requires Ends(ra) && Ends(rb)
    requires Tokens(a) + ra == Tokens(b) + rb
    ensures a == b && ra == rb
    decreases a, 0
  {
    hide Tokens, NodeTokens, Normal, NormalNode;
    TokensNone();
    if a != [] {
      FirstToken(a);
      TokensFirst(a);
      assert (Tokens(a) + ra)[0] == Tokens(a)[0];
    }
    if b != [] {
      FirstToken(b);
      TokensFirst(b);
      assert (Tokens(b) + rb)[0] == Tokens(b)[0];
    }
    if a == [] {
      assert b == [];
      assert [] + ra == ra && [] + rb == rb;
    } else {
      assert b != [];
      NormalTail(a);
      NormalTail(b);
      var pa, pb := Tokens(a[1..]) + ra, Tokens(b[1..]) + rb;
      if a[0].Text? {
        RunEndsAt(a, ra);
        RunEndsAt(b, rb);
      }
      Assoc(NodeTokens(a[0]), Tokens(a[1..]), ra);
      Assoc(NodeTokens(b[0]), Tokens(b[1..]), rb);
      NodeInjective(a[0], b[0], pa, pb);
      TokensInjective(a[1..], b[1..], ra, rb);
      assert a == [a[0]] + a[1..] && b == [b[0]] + b[1..];
    }
  }

  lemma {:induction false} NodeInjective(a: Node, b: Node, pa: seq<Token>, pb: seq<Token>)
    requires NormalNode(a) && NormalNode(b)
    requires a.markup == b.markup && a.Text? == b.Text? && a.Leaf? == b.Leaf?
    requires a.Text? ==> StopsRun(a.markup, pa) && StopsRun(a.markup, pb)
    requires NodeTokens(a) + pa == NodeTokens(b) + pb
    ensures a == b && pa == pb
    decreases a, 1
  {
    var all := NodeTokens(a) + pa;
    match a {
      case Text(m, x) => RunInjective(m, x, b.text, pa, pb);
      case Leaf(m) =>
        assert pa == all[1..] == pb;
      case Elem(m, x) =>
        var y := b.content;
        var ca, cb := [Close] + pa, [Close] + pb;
        assert Tokens(x) + ca == all[1..] == Tokens(y) + cb;
        TokensInjective(x, y, ca, cb);
        assert pa == ca[1..] == cb[1..] == pb;
    }
  }

  lemma NormalTreesEqual(a: seq<Node>, b: seq<Node>)
    requires Normal(a) && Normal(b) && Tokens(a) == Tokens(b)
    ensures a == b
  {
    TokensInjective(a, b, [], []);
  }
}
