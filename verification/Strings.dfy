/**
  Strings of 16-bit units: taken apart into code points before Punycode
  encoding, and put together from them after decoding.
 */
module Strings {
  import opened Punycode

  predicate Units(s: seq<nat>) {
    forall k :: 0 <= k < |s| ==> s[k] < 0x10000
  }

  predicate IsHigh(c: nat) {
    55296 <= c <= 56319
  }

  predicate IsLow(c: nat) {
    56320 <= c <= 57343
  }

  function Combined(high: nat, low: nat): nat {
    high % 1024 * 1024 + low % 1024 + 65536
  }

  /** The code points of a string; a surrogate without its other half stands for itself. */
  function CodePointsOf(s: seq<nat>): seq<nat> {
    if s == [] then []
    else if IsHigh(s[0]) && |s| > 1 && IsLow(s[1]) then [Combined(s[0], s[1])] + CodePointsOf(s[2..])
    else [s[0]] + CodePointsOf(s[1..])
  }

  function UnitsOfOne(c: nat): seq<nat> {
    if c < 65536 then [c] else [55296 + (c - 65536) / 1024, 56320 + (c - 65536) % 1024]
  }

  function FromCodePoints(t: seq<nat>): seq<nat> {
    if t == [] then [] else UnitsOfOne(t[0]) + FromCodePoints(t[1..])
  }

  /** Takes a string apart, unit by unit. */
  method DecodeUcs2(s: seq<nat>) returns (t: seq<nat>)
    ensures t == CodePointsOf(s)
  {
    t := [];
    var n := 0;
    while n < |s|
      invariant n <= |s| && t + CodePointsOf(s[n..]) == CodePointsOf(s)
    {
      var u := s[n];
      ghost var before := t;
      n := n + 1;
      if IsHigh(u) && n < |s| {
        var i := s[n];
        n := n + 1;
        if i / 1024 == 55 {
          t := t + [Combined(u, i)];
          assert s[n - 2..][2..] == s[n..];
        } else {
          t := t + [u];
          n := n - 1;
          assert s[n - 1..][1..] == s[n..];
        }
      } else {
        t := t + [u];
        assert s[n - 1..][1..] == s[n..];
      }
      Regroup(before, t, s, n);
    }
  }

  lemma Regroup(before: seq<nat>, t: seq<nat>, s: seq<nat>, n: nat)
    requires n <= |s| && |before| < |t| && t[..|before|] == before
    ensures before + (t[|before|..] + CodePointsOf(s[n..])) == t + CodePointsOf(s[n..])
  {
    assert t == before + t[|before|..];
  }

  lemma CombinedUnits(high: nat, low: nat)
    requires IsHigh(high) && IsLow(low)
    ensures UnitsOfOne(Combined(high, low)) == [high, low] && 65536 <= Combined(high, low) <= MAX_CODE_POINT
  {
    assert high % 1024 == high - 55296 && low % 1024 == low - 56320;
    var c := Combined(high, low);
    assert (c - 65536) / 1024 == high - 55296 && (c - 65536) % 1024 == low - 56320;
  }

  lemma BackFrom(s: seq<nat>, c: nat, n: nat)
    requires n <= |s| && CodePointsOf(s) == [c] + CodePointsOf(s[n..]) && UnitsOfOne(c) == s[..n]
    requires FromCodePoints(CodePointsOf(s[n..])) == s[n..]
    ensures FromCodePoints(CodePointsOf(s)) == s
  {
    hide CodePointsOf, UnitsOfOne;
    assert CodePointsOf(s)[1..] == CodePointsOf(s[n..]);
    assert s == s[..n] + s[n..];
  }

  lemma CodePointsOn(c: nat, t: seq<nat>)
    requires c <= MAX_CODE_POINT && CodePoints(t)
    ensures CodePoints([c] + t)
  {
  }

  /** Any string comes back from its code points, which are code points that Punycode takes. */
  lemma {:induction false} StringComesBack(s: seq<nat>)
    requires Units(s)
    ensures FromCodePoints(CodePointsOf(s)) == s && CodePoints(CodePointsOf(s))
    decreases |s|
  {
    hide FromCodePoints, Combined, CodePoints;
    if s == [] {
      NoCodePoints();
    } else if IsHigh(s[0]) && |s| > 1 && IsLow(s[1]) {
      StringComesBack(s[2..]);
      CombinedUnits(s[0], s[1]);
      assert s[..2] == [s[0], s[1]];
      BackFrom(s, Combined(s[0], s[1]), 2);
      CodePointsOn(Combined(s[0], s[1]), CodePointsOf(s[2..]));
    } else {
      StringComesBack(s[1..]);
      assert s[..1] == [s[0]];
      BackFrom(s, s[0], 1);
      CodePointsOn(s[0], CodePointsOf(s[1..]));
    }
  }

  lemma NoCodePoints()
    ensures FromCodePoints(CodePointsOf([])) == [] && CodePoints(CodePointsOf([]))
  {
  }

  /** Two code points that would be read as one: the two halves of a pair. */
  predicate HasPair(t: seq<nat>) {
    exists k :: 0 <= k < |t| - 1 && IsHigh(t[k]) && IsLow(t[k + 1])
  }

  lemma SplitUnits(c: nat)
    requires 65536 <= c <= MAX_CODE_POINT
    ensures var u := UnitsOfOne(c);
            |u| == 2 && IsHigh(u[0]) && IsLow(u[1]) && Combined(u[0], u[1]) == c
  {
    var q, r := (c - 65536) / 1024, (c - 65536) % 1024;
    assert q < 1024 && c - 65536 == q * 1024 + r;
    assert (55296 + q) % 1024 == q && (56320 + r) % 1024 == r;
  }

  lemma HasPairFirst(t: seq<nat>)
    requires t != []
    ensures HasPair(t) <==> HasPair(t[1..]) || (|t| > 1 && IsHigh(t[0]) && IsLow(t[1]))
  {
    if HasPair(t[1..]) {
      var k :| 0 <= k < |t[1..]| - 1 && IsHigh(t[1..][k]) && IsLow(t[1..][k + 1]);
      assert IsHigh(t[k + 1]) && IsLow(t[k + 1 + 1]);
    }
    if HasPair(t) {
      var k :| 0 <= k < |t| - 1 && IsHigh(t[k]) && IsLow(t[k + 1]);
      if k > 0 {
        assert IsHigh(t[1..][k - 1]) && IsLow(t[1..][k - 1 + 1]);
      } else {
        assert k + 1 == 1;
      }
    }
  }

  /** The first unit of a string is that of its first code point, if this needs no pair. */
  lemma FirstUnit(t: seq<nat>)
    requires t != [] && CodePoints(t)
    ensures var s := FromCodePoints(t);
            s != [] && (t[0] < 65536 ==> s[0] == t[0]) && (t[0] >= 65536 ==> IsHigh(s[0]))
  {
    if t[0] >= 65536 {
      SplitUnits(t[0]);
    }
  }

  /** Code points come back from the string they make exactly when no two of them are the halves of a pair. */
  lemma {:induction false} CodePointsComeBack(t: seq<nat>)
    requires CodePoints(t)
    ensures CodePointsOf(FromCodePoints(t)) == t <==> !HasPair(t)
    decreases |t|
  {
    hide Combined, HasPair;
    if t == [] {
      NoPair(t);
    } else {
      var rest, c := t[1..], t[0];
      var s, u := FromCodePoints(t), FromCodePoints(rest);
      CodePointsComeBack(rest);
      HasPairFirst(t);
      assert t == [c] + rest;
      if c >= 65536 {
        SplitUnits(c);
        assert s[0] == UnitsOfOne(c)[0] && s[1] == UnitsOfOne(c)[1] && s[2..] == u;
      } else {
        assert s[0] == c && s[1..] == u;
        if rest != [] {
          FirstUnit(rest);
        }
        if IsHigh(c) && rest != [] && IsLow(rest[0]) {
          PairedDiffers(s, c);
        }
      }
    }
  }

  lemma NoPair(t: seq<nat>)
    requires t == []
    ensures !HasPair(t) && CodePointsOf(FromCodePoints(t)) == t
  {
  }

  lemma PairedDiffers(s: seq<nat>, c: nat)
    requires |s| > 1 && s[0] == c && IsHigh(c) && IsLow(s[1])
    ensures CodePointsOf(s) != [] && CodePointsOf(s)[0] != c
  {
  }

  // ----------------------------------------------------------------------
  // Punycode over strings
  // ----------------------------------------------------------------------

  function DecodeString(units: seq<nat>): Result<seq<nat>> {
    var t :- Decode(units);
    Ok(FromCodePoints(t))
  }

  /**
    Encoding a string overflows exactly where a delta does not fit; decoding the
    outcome gives back the string exactly when every counter fits as well, as
    in a short string all of them do.
   */
  method EncodeString(s: seq<nat>) returns (r: Result<seq<nat>>)
    requires Units(s)
    ensures if Encodable(CodePointsOf(s)) then r.Ok? else r == Failed(Overflow)
    ensures r.Ok? ==> DecodeString(r.value) == if CountersFit(CodePointsOf(s)) then Ok(s) else Failed(Overflow)
    ensures r.Ok? && DecodeString(r.value) == Ok(s) <==> RoundTrips(CodePointsOf(s))
    ensures Short(CodePointsOf(s)) ==> RoundTrips(CodePointsOf(s))
  {
    hide CodePointsOf, FromCodePoints, Decode, CountersFit, CodePoints, Encodable, RoundTrips;
    RoundTripsEncodes(CodePointsOf(s));
    StringComesBack(s);
    var t := DecodeUcs2(s);
    r := Encode(t);
  }
}
