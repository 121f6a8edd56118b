/** Regrouping of concatenations, and a few facts about slices. */
module Sequences {

  lemma Assoc<T>(a: seq<T>, b: seq<T>, c: seq<T>)
    ensures (a + b) + c == a + (b + c)
  {
  }

  lemma Nest<T>(b: seq<T>, o: seq<T>, l: seq<T>, r: seq<T>, c: seq<T>, a: seq<T>)
    ensures (b + (o + l)) + ((r + c) + a) == b + ((o + (l + r) + c) + a)
  {
  }

  lemma Nested<T>(b: seq<T>, o: seq<T>, l: seq<T>, m: seq<T>, r: seq<T>, c: seq<T>, a: seq<T>)
    ensures b + (o + (l + m + r) + c) + a == (b + (o + l)) + m + ((r + c) + a)
  {
  }

  lemma Reassociate<T>(l: seq<T>, lp: seq<T>, m: seq<T>, rp: seq<T>, r: seq<T>)
    ensures l + (lp + m + rp) + r == (l + lp) + m + (rp + r)
  {
  }

  lemma Regroup<T>(o: seq<T>, b: seq<T>, mid: seq<T>, a: seq<T>, c: seq<T>,
                   b': seq<T>, o': seq<T>, c': seq<T>, a': seq<T>)
    requires b' + o' == o + b && c' + a' == a + c
    ensures o + (b + mid + a) + c == b' + (o' + mid + c') + a'
  {
    assert o + (b + mid + a) + c == (o + b) + mid + (a + c);
    assert b' + (o' + mid + c') + a' == (b' + o') + mid + (c' + a');
  }

  lemma SplitInside<T>(all: seq<T>, a: seq<T>, x: seq<T>, y: seq<T>, b: seq<T>)
    requires all == a + ((x + y) + b)
    ensures all[..|a| + |x|] == a + x
    ensures all[|a| + |x|..] == y + b
  {
  }
}
