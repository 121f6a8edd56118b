/**
  Ropes: sequences kept as trees of short arrays, so that appending and
  slicing share structure.
 */
module Ropes {
  import opened Options
  import opened Sequences

  const GOOD_LEAF_SIZE: nat := 200

  datatype Rope<+T> = Leaf(values: seq<T>) | Append(left: Rope<T>, right: Rope<T>, length: nat, depth: nat)

  function Length<T>(r: Rope<T>): nat {
    match r
    case Leaf(values) => |values|
    case Append(_, _, length, _) => length
  }

  function Depth<T>(r: Rope<T>): nat {
    match r
    case Leaf(_) => 0
    case Append(_, _, _, depth) => depth
  }

  function Max(a: int, b: int): int {
    if a < b then b else a
  }

  function Min(a: int, b: int): int {
    if a < b then a else b
  }

  /** The sequence that a rope stands for. */
  function Flatten<T>(r: Rope<T>): seq<T> {
    match r
    case Leaf(values) => values
    case Append(left, right, _, _) => Flatten(left) + Flatten(right)
  }

  /** The height of the tree, counted rather than stored. */
  function Height<T>(r: Rope<T>): nat {
    match r
    case Leaf(_) => 0
    case Append(left, right, _, _) => Max(Height(left), Height(right)) + 1
  }

  /** At every branch the stored length and depth are those of the tree below it. */
  predicate Exact<T>(r: Rope<T>) {
    match r
    case Leaf(_) => true
    case Append(left, right, length, depth) =>
      && Exact(left) && Exact(right)
      && length == |Flatten(left)| + |Flatten(right)|
      && depth == Max(Height(left), Height(right)) + 1
  }

  lemma {:induction false} StoredSizes<T>(r: Rope<T>)
    requires Exact(r)
    ensures Length(r) == |Flatten(r)| && Depth(r) == Height(r)
  {
  }

  function Branch<T>(left: Rope<T>, right: Rope<T>): Rope<T> {
    Append(left, right, Length(left) + Length(right), Max(Depth(left), Depth(right)) + 1)
  }

  lemma BranchIsExact<T>(left: Rope<T>, right: Rope<T>)
    requires Exact(left) && Exact(right)
    ensures Exact(Branch(left, right)) && Flatten(Branch(left, right)) == Flatten(left) + Flatten(right)
    ensures Length(Branch(left, right)) == Length(left) + Length(right)
  {
    StoredSizes(left);
    StoredSizes(right);
  }

  // ----------------------------------------------------------------------
  // Appending
  // ----------------------------------------------------------------------

  /** Adds `e` to the last leaf, if that leaf stays short. */
  function LeafAppend<T>(r: Rope<T>, e: Rope<T>): Option<Rope<T>> {
    match r
    case Leaf(values) =>
      if |values| + Length(e) <= GOOD_LEAF_SIZE then Some(Leaf(values + Flatten(e))) else None
    case Append(left, right, _, _) =>
      var u := LeafAppend(right, e);
      if u.Some? then Some(Branch(left, u.value)) else None
  }

  /** Adds `e` before the first leaf, if that leaf stays short. */
  function LeafPrepend<T>(r: Rope<T>, e: Rope<T>): Option<Rope<T>> {
    match r
    case Leaf(values) =>
      if |values| + Length(e) <= GOOD_LEAF_SIZE then Some(Leaf(Flatten(e) + values)) else None
    case Append(left, right, _, _) =>
      var u := LeafPrepend(left, e);
      if u.Some? then Some(Branch(u.value, right)) else None
  }

  function AppendInner<T>(r: Rope<T>, e: Rope<T>): Rope<T> {
    if r.Append? && Depth(r.left) >= Max(Depth(r.right), Depth(e)) + 1
    then Branch(r.left, Branch(r.right, e))
    else Branch(r, e)
  }

  function Concat<T>(r: Rope<T>, e: Rope<T>): Rope<T> {
    if Length(e) == 0 then r
    else if Length(r) == 0 then e
    else
      var a := if Length(e) < GOOD_LEAF_SIZE then LeafAppend(r, e) else None;
      if a.Some? then a.value
      else
        var p := if Length(r) < GOOD_LEAF_SIZE then LeafPrepend(e, r) else None;
        if p.Some? then p.value else AppendInner(r, e)
  }

  lemma {:induction false} LeafAppendFlat<T>(r: Rope<T>, e: Rope<T>)
    requires Exact(r) && Exact(e)
    ensures var u := LeafAppend(r, e);
            u.Some? ==> Exact(u.value) && Flatten(u.value) == Flatten(r) + Flatten(e)
  {
    if r.Append? {
      LeafAppendFlat(r.right, e);
      var u := LeafAppend(r.right, e);
      if u.Some? {
        BranchIsExact(r.left, u.value);
      }
    }
  }

  lemma {:induction false} LeafPrependFlat<T>(r: Rope<T>, e: Rope<T>)
    requires Exact(r) && Exact(e)
    ensures var u := LeafPrepend(r, e);
            u.Some? ==> Exact(u.value) && Flatten(u.value) == Flatten(e) + Flatten(r)
  {
    if r.Append? {
      LeafPrependFlat(r.left, e);
      var u := LeafPrepend(r.left, e);
      if u.Some? {
        BranchIsExact(u.value, r.right);
      }
    }
  }

  lemma AppendInnerFlat<T>(r: Rope<T>, e: Rope<T>)
    requires Exact(r) && Exact(e)
    ensures Exact(AppendInner(r, e)) && Flatten(AppendInner(r, e)) == Flatten(r) + Flatten(e)
  {
    hide Exact, Flatten, Branch, Depth;
    BranchIsExact(r, e);
    if r.Append? {
      Parts(r);
      BranchIsExact(r.right, e);
      BranchIsExact(r.left, Branch(r.right, e));
      Assoc(Flatten(r.left), Flatten(r.right), Flatten(e));
    }
  }

  lemma Parts<T>(r: Rope<T>)
    requires r.Append? && Exact(r)
    ensures Exact(r.left) && Exact(r.right) && Flatten(r) == Flatten(r.left) + Flatten(r.right)
  {
  }

  /** Appending ropes is appending sequences, and leaves exact sizes behind. */
  lemma ConcatIsConcat<T>(r: Rope<T>, e: Rope<T>)
    requires Exact(r) && Exact(e)
    ensures Exact(Concat(r, e)) && Flatten(Concat(r, e)) == Flatten(r) + Flatten(e)
  {
    hide Exact, Flatten, LeafAppend, LeafPrepend, AppendInner;
    StoredSizes(r);
    StoredSizes(e);
    LeafAppendFlat(r, e);
    LeafPrependFlat(e, r);
    AppendInnerFlat(r, e);
  }

  /** Adding to a leaf leaves the height of the tree alone. */
  lemma {:induction false} LeafAppendHeight<T>(r: Rope<T>, e: Rope<T>)
    requires Exact(r) && Exact(e)
    ensures LeafAppend(r, e).Some? ==> Height(LeafAppend(r, e).value) == Height(r)
  {
    if r.Append? {
      LeafAppendHeight(r.right, e);
    }
  }

  lemma {:induction false} LeafPrependHeight<T>(r: Rope<T>, e: Rope<T>)
    requires Exact(r) && Exact(e)
    ensures LeafPrepend(r, e).Some? ==> Height(LeafPrepend(r, e).value) == Height(r)
  {
    if r.Append? {
      LeafPrependHeight(r.left, e);
    }
  }

  /** Appending makes a tree at most one level higher than the higher of the two. */
  lemma ConcatHeight<T>(r: Rope<T>, e: Rope<T>)
    requires Exact(r) && Exact(e) && Length(r) > 0 && Length(e) > 0
    ensures Height(Concat(r, e)) <= Max(Height(r), Height(e)) + 1
  {
    hide Exact, Flatten, LeafAppend, LeafPrepend;
    StoredSizes(r);
    StoredSizes(e);
    if r.Append? {
      Parts(r);
      StoredSizes(r.left);
      StoredSizes(r.right);
    }
    LeafAppendHeight(r, e);
    LeafPrependHeight(e, r);
  }

  // ----------------------------------------------------------------------
  // Slicing
  // ----------------------------------------------------------------------

  /** An array's own `slice`: a negative bound counts from the end. */
  function ArraySlice<T>(s: seq<T>, from: int, until: int): seq<T> {
    var a := if from < 0 then Max(0, |s| + from) else Min(from, |s|);
    var b := if until < 0 then Max(0, |s| + until) else Min(until, |s|);
    if a < b then s[a..b] else []
  }

  function Slice<T>(r: Rope<T>, from: int, until: int): Rope<T>
    decreases r, 1
  {
    if from >= until then Leaf([]) else SliceInner(r, Max(0, from), Min(Length(r), until))
  }

  function SliceInner<T>(r: Rope<T>, from: int, until: int): Rope<T>
    decreases r, 0
  {
    if from == 0 && until == Length(r) then r
    else
      match r
      case Leaf(values) => Leaf(ArraySlice(values, from, until))
      case Append(left, right, _, _) =>
        if until <= Length(left) then Slice(left, from, until)
        else if from >= Length(left) then Slice(right, from - Length(left), until - Length(left))
        else Concat(Slice(left, from, Length(left)), Slice(right, 0, until - Length(left)))
  }

  /** The elements of a sequence between two places, wherever these are. */
  function Between<T>(s: seq<T>, from: int, until: int): seq<T> {
    var a := Max(0, from);
    var b := Min(|s|, until);
    if a < b then s[a..b] else []
  }

  lemma BetweenLeft<T>(a: seq<T>, b: seq<T>, from: int, until: int)
    requires until <= |a|
    ensures Between(a + b, from, until) == Between(a, from, until)
  {
  }

  lemma BetweenRight<T>(a: seq<T>, b: seq<T>, from: int, until: int)
    requires from >= |a|
    ensures Between(a + b, from, until) == Between(b, from - |a|, until - |a|)
  {
    if from < Min(|a + b|, until) {
      assert (a + b)[from..Min(|a + b|, until)] == b[from - |a|..Min(|b|, until - |a|)];
    }
  }

  lemma BetweenAcross<T>(a: seq<T>, b: seq<T>, from: int, until: int)
    requires 0 <= from < |a| < until <= |a| + |b|
    ensures Between(a + b, from, until) == Between(a, from, |a|) + Between(b, 0, until - |a|)
  {
    assert (a + b)[from..until] == a[from..] + b[..until - |a|];
  }

  lemma BetweenAll<T>(s: seq<T>)
    ensures Between(s, 0, |s|) == s
  {
  }

  /** Where an array would read a negative end from behind, which the rope's own `slice` never means. */
  predicate EndFromBehind<T>(r: Rope<T>, from: int, until: int) {
    r.Leaf? && from < until < 0 && |r.values| + until > 0
  }

  /** Slicing ropes is slicing sequences exactly unless a single leaf is cut at a negative end. */
  lemma {:induction false} SliceIsBetween<T>(r: Rope<T>, from: int, until: int)
    requires Exact(r)
    ensures Exact(Slice(r, from, until))
    ensures Flatten(Slice(r, from, until)) == Between(Flatten(r), from, until) <==> !EndFromBehind(r, from, until)
    decreases r
  {
    hide Concat, Exact, Between;
    StoredSizes(r);
    if from < until {
      var a, b := Max(0, from), Min(Length(r), until);
      SameBetween(Flatten(r), from, until);
      if a == 0 && b == Length(r) {
        BetweenAll(Flatten(r));
      } else if r.Append? {
        SliceParts(r, a, b);
      } else {
        LeafSlice(r, from, until);
      }
    } else {
      LeafIsExact<T>([]);
      NoneBetween(Flatten(r), from, until);
    }
  }

  /** Cut at a negative end, a single leaf of two gives its first element, where there is nothing between the two places. */
  lemma LeafFromBehind(a: int, b: int)
    ensures var r := Leaf([a, b]);
            && Exact(r) && Flatten(Slice(r, -3, -1)) == [a] && Between(Flatten(r), -3, -1) == []
  {
    assert [a, b][0..1] == [a];
  }

  lemma LeafIsExact<T>(s: seq<T>)
    ensures Exact(Leaf(s)) && Flatten(Leaf(s)) == s
  {
  }

  lemma SameBetween<T>(s: seq<T>, from: int, until: int)
    ensures Between(s, Max(0, from), Min(|s|, until)) == Between(s, from, until)
  {
  }

  lemma NoneBetween<T>(s: seq<T>, from: int, until: int)
    requires from >= until
    ensures Between(s, from, until) == []
  {
  }

  lemma LeafSlice<T>(r: Rope<T>, from: int, until: int)
    requires r.Leaf? && from < until
    ensures var a, b := Max(0, from), Min(|r.values|, until);
            && Exact(Leaf(ArraySlice(r.values, a, b)))
            && (ArraySlice(r.values, a, b) == Between(r.values, from, until) <==> !EndFromBehind(r, from, until))
  {
    if until < 0 && |r.values| + until > 0 {
      assert |ArraySlice(r.values, Max(0, from), Min(|r.values|, until))| == |r.values| + until;
    }
  }

  lemma {:induction false} SliceParts<T>(r: Rope<T>, a: int, b: int)
    requires r.Append? && Exact(r) && 0 <= a && b <= Length(r)
    requires a != 0 || b != Length(r)
    ensures Exact(SliceInner(r, a, b))
    ensures Flatten(SliceInner(r, a, b)) == Between(Flatten(r), a, b)
    decreases r, 0
  {
    hide Concat, Between, Slice;
    var left, right := r.left, r.right;
    StoredSizes(left);
    StoredSizes(right);
    StoredSizes(r);
    var n := Length(left);
    if b <= n {
      SliceIsBetween(left, a, b);
      BetweenLeft(Flatten(left), Flatten(right), a, b);
    } else if a >= n {
      SliceIsBetween(right, a - n, b - n);
      BetweenRight(Flatten(left), Flatten(right), a, b);
    } else {
      SliceIsBetween(left, a, n);
      SliceIsBetween(right, 0, b - n);
      BetweenAcross(Flatten(left), Flatten(right), a, b);
      ConcatIsConcat(Slice(left, a, n), Slice(right, 0, b - n));
    }
  }

  // ----------------------------------------------------------------------
  // Reading
  // ----------------------------------------------------------------------

  function Get<T>(r: Rope<T>, i: int): Option<T>
    requires Exact(r)
    ensures Get(r, i) == if 0 <= i < |Flatten(r)| then Some(Flatten(r)[i]) else None
  {
    if i < 0 || i >= Length(r) then
      StoredSizes(r);
      None
    else
      StoredSizes(r);
      match r
      case Leaf(values) => Some(values[i])
      case Append(left, right, _, _) =>
        StoredSizes(left);
        if i < Length(left) then Get(left, i) else Get(right, i - Length(left))
  }

  /** What a visit has made of its state, and whether it asked to stop. */
  datatype Visit<+A> = Visit(state: A, stopped: bool)

  /** Visits the elements from `from` up to `to`, numbered from `start`, until one asks to stop. */
  function Up<T, A>(s: seq<T>, f: (A, T, int) -> Visit<A>, a: A, from: nat, until: nat, start: int): Visit<A>
    requires from <= until <= |s|
    decreases until - from
  {
    if from == until then Visit(a, false)
    else
      var v := f(a, s[from], start + from);
      if v.stopped then v else Up(s, f, v.state, from + 1, until, start)
  }

  /** Visits the elements from the one before `from` down to `to`. */
  function Down<T, A>(s: seq<T>, f: (A, T, int) -> Visit<A>, a: A, from: nat, until: nat, start: int): Visit<A>
    requires until <= from <= |s|
    decreases from - until
  {
    if from == until then Visit(a, false)
    else
      var v := f(a, s[from - 1], start + from - 1);
      if v.stopped then v else Down(s, f, v.state, from - 1, until, start)
  }

  lemma {:induction false} UpSplit<T, A>(s: seq<T>, f: (A, T, int) -> Visit<A>, a: A, from: nat, mid: nat, until: nat, start: int)
    requires from <= mid <= until <= |s|
    ensures var v := Up(s, f, a, from, mid, start);
            Up(s, f, a, from, until, start) == if v.stopped then v else Up(s, f, v.state, mid, until, start)
    decreases mid - from
  {
    if from < mid {
      var v := f(a, s[from], start + from);
      if !v.stopped {
        UpSplit(s, f, v.state, from + 1, mid, until, start);
      }
    }
  }

  lemma {:induction false} DownSplit<T, A>(s: seq<T>, f: (A, T, int) -> Visit<A>, a: A, from: nat, mid: nat, until: nat, start: int)
    requires until <= mid <= from <= |s|
    ensures var v := Down(s, f, a, from, mid, start);
            Down(s, f, a, from, until, start) == if v.stopped then v else Down(s, f, v.state, mid, until, start)
    decreases from - mid
  {
    if mid < from {
      var v := f(a, s[from - 1], start + from - 1);
      if !v.stopped {
        DownSplit(s, f, v.state, from - 1, mid, until, start);
      }
    }
  }

  /** A visit sees only the elements it passes and the numbers it gives them. */
  lemma {:induction false} UpShift<T, A>(s: seq<T>, t: seq<T>, f: (A, T, int) -> Visit<A>, a: A, from: nat, until: nat, start: int, k: nat)
    requires from <= until <= |t| && k + until <= |s| && s[k + from..k + until] == t[from..until]
    ensures Up(s, f, a, k + from, k + until, start) == Up(t, f, a, from, until, start + k)
    decreases until - from
  {
    if from < until {
      assert s[k + from] == s[k + from..k + until][0] == t[from];
      assert s[k + from + 1..k + until] == s[k + from..k + until][1..];
      assert t[from + 1..until] == t[from..until][1..];
      var v := f(a, t[from], start + k + from);
      if !v.stopped {
        UpShift(s, t, f, v.state, from + 1, until, start, k);
      }
    }
  }

  lemma {:induction false} DownShift<T, A>(s: seq<T>, t: seq<T>, f: (A, T, int) -> Visit<A>, a: A, from: nat, until: nat, start: int, k: nat)
    requires until <= from <= |t| && k + from <= |s| && s[k + until..k + from] == t[until..from]
    ensures Down(s, f, a, k + from, k + until, start) == Down(t, f, a, from, until, start + k)
    decreases from - until
  {
    if until < from {
      assert s[k + from - 1] == s[k + until..k + from][from - until - 1] == t[from - 1];
      assert s[k + until..k + from - 1] == s[k + until..k + from][..from - until - 1];
      assert t[until..from - 1] == t[until..from][..from - until - 1];
      var v := f(a, t[from - 1], start + k + from - 1);
      if !v.stopped {
        DownShift(s, t, f, v.state, from - 1, until, start, k);
      }
    }
  }

  /** A walk over two sequences in a row walks the first, and then, unless stopped, the second. */
  lemma UpAcross<T, A>(l: seq<T>, r: seq<T>, f: (A, T, int) -> Visit<A>, a: A, from: nat, until: nat, start: int)
    requires from <= until <= |l| + |r|
    ensures var s := |l|;
            var v := if from < s then Up(l, f, a, from, Min(until, s), start) else Visit(a, false);
            Up(l + r, f, a, from, until, start) ==
            if v.stopped || until <= s then v else Up(r, f, v.state, Max(from - s, 0), until - s, start + s)
  {
    hide Up;
    var s, mid: nat := |l|, Min(until, |l|);
    if from < s {
      UpShift(l + r, l, f, a, from, mid, start, 0);
      UpSplit(l + r, f, a, from, mid, until, start);
      var v := Up(l, f, a, from, mid, start);
      if until <= s {
        UpNothing(l + r, f, v.state, until, start);
      } else {
        UpShift(l + r, r, f, v.state, 0, until - s, start, s);
      }
    } else if until <= s {
      UpNothing(l + r, f, a, until, start);
    } else {
      UpShift(l + r, r, f, a, from - s, until - s, start, s);
    }
  }

  lemma UpNothing<T, A>(s: seq<T>, f: (A, T, int) -> Visit<A>, a: A, at: nat, start: int)
    requires at <= |s|
    ensures Up(s, f, a, at, at, start) == Visit(a, false)
  {
  }

  lemma DownAcross<T, A>(l: seq<T>, r: seq<T>, f: (A, T, int) -> Visit<A>, a: A, from: nat, until: nat, start: int)
    requires until <= from <= |l| + |r|
    ensures var s := |l|;
            var v := if from > s then Down(r, f, a, from - s, Max(until, s) - s, start + s) else Visit(a, false);
            Down(l + r, f, a, from, until, start) ==
            if v.stopped || until >= s then v else Down(l, f, v.state, Min(from, s), until, start)
  {
    hide Down;
    var s, mid: nat := |l|, Max(until, |l|);
    if from > s {
      DownShift(l + r, r, f, a, from - s, mid - s, start, s);
      DownSplit(l + r, f, a, from, mid, until, start);
      var v := Down(r, f, a, from - s, mid - s, start + s);
      if until >= s {
        DownNothing(l + r, f, v.state, until, start);
      } else {
        DownShift(l + r, l, f, v.state, s, until, start, 0);
      }
    } else if until >= s {
      DownNothing(l + r, f, a, until, start);
    } else {
      DownShift(l + r, l, f, a, from, until, start, 0);
    }
  }

  lemma DownNothing<T, A>(s: seq<T>, f: (A, T, int) -> Visit<A>, a: A, at: nat, start: int)
    requires at <= |s|
    ensures Down(s, f, a, at, at, start) == Visit(a, false)
  {
  }

  method ForEachInner<T, A>(r: Rope<T>, f: (A, T, int) -> Visit<A>, a: A, from: nat, until: nat, start: int) returns (v: Visit<A>)
    requires Exact(r) && from <= until <= Length(r)
    ensures Length(r) == |Flatten(r)| && v == Up(Flatten(r), f, a, from, until, start)
    decreases r
  {
    hide Up, Exact, Flatten;
    StoredSizes(r);
    v := Visit(a, false);
    match r
    case Leaf(values) =>
      v := ForEachLeaf(values, f, a, from, until, start);
      LeafIsExact(values);
    case Append(left, right, length, _) =>
      Parts(r);
      StoredSizes(left);
      StoredSizes(right);
      UpAcross(Flatten(left), Flatten(right), f, a, from, until, start);
      var s := Length(left);
      if from < s {
        v := ForEachInner(left, f, a, from, Min(until, s), start);
      }
      if !v.stopped && until > s {
        v := ForEachInner(right, f, v.state, Max(from - s, 0), Min(length, until) - s, start + s);
      }
  }

  method ForEachLeaf<T, A>(values: seq<T>, f: (A, T, int) -> Visit<A>, a: A, from: nat, until: nat, start: int) returns (v: Visit<A>)
    requires from <= until <= |values|
    ensures v == Up(values, f, a, from, until, start)
  {
    v := Visit(a, false);
    var l := from;
    while l < until && !v.stopped
      invariant from <= l <= until
      invariant Up(values, f, a, from, until, start) == if v.stopped then v else Up(values, f, v.state, l, until, start)
    {
      v := f(v.state, values[l], start + l);
      l := l + 1;
    }
  }

  method ForEachInvertedInner<T, A>(r: Rope<T>, f: (A, T, int) -> Visit<A>, a: A, from: nat, until: nat, start: int)
    returns (v: Visit<A>)
    requires Exact(r) && until <= from <= Length(r)
    ensures Length(r) == |Flatten(r)| && v == Down(Flatten(r), f, a, from, until, start)
    decreases r
  {
    hide Down, Exact, Flatten;
    StoredSizes(r);
    v := Visit(a, false);
    match r
    case Leaf(values) =>
      v := ForEachInvertedLeaf(values, f, a, from, until, start);
      LeafIsExact(values);
    case Append(left, right, _, _) =>
      Parts(r);
      StoredSizes(left);
      StoredSizes(right);
      DownAcross(Flatten(left), Flatten(right), f, a, from, until, start);
      var s := Length(left);
      if from > s {
        v := ForEachInvertedInner(right, f, a, from - s, Max(until, s) - s, start + s);
      }
      if !v.stopped && until < s {
        v := ForEachInvertedInner(left, f, v.state, Min(from, s), until, start);
      }
  }

  method ForEachInvertedLeaf<T, A>(values: seq<T>, f: (A, T, int) -> Visit<A>, a: A, from: nat, until: nat, start: int)
    returns (v: Visit<A>)
    requires until <= from <= |values|
    ensures v == Down(values, f, a, from, until, start)
  {
    v := Visit(a, false);
    var l := from - 1;
    while l >= until && !v.stopped
      invariant until - 1 <= l < from
      invariant Down(values, f, a, from, until, start) == if v.stopped then v else Down(values, f, v.state, l + 1, until, start)
    {
      v := f(v.state, values[l], start + l);
      l := l - 1;
    }
  }

  /** Visits part of a rope: upwards when the first bound is not above the second, else downwards. */
  method ForEach<T, A>(r: Rope<T>, f: (A, T, int) -> Visit<A>, a: A, from: nat, until: nat) returns (v: Visit<A>)
    requires Exact(r) && from <= Length(r) && until <= Length(r)
    ensures Length(r) == |Flatten(r)|
    ensures v == if from <= until then Up(Flatten(r), f, a, from, until, 0) else Down(Flatten(r), f, a, from, until, 0)
  {
    if from <= until {
      v := ForEachInner(r, f, a, from, until, 0);
    } else {
      v := ForEachInvertedInner(r, f, a, from, until, 0);
    }
  }
}
