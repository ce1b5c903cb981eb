/**
 * Order statistics, sums and threshold counts over depth vectors, shared by the
 * dense coverage vector (coverage.rs) and the legacy depth histogram
 * (calibrate.rs).
 */
module Stats {
  import opened Wrappers

  predicate AllNonNegative(s: seq<int>) {
    forall i :: 0 <= i < |s| ==> s[i] >= 0
  }

  /** Smallest element: absent exactly for the empty sequence. */
  function Min(s: seq<int>): (r: Option<int>)
    ensures r.None? <==> s == []
    ensures r.Some? ==> r.value in s && forall i :: 0 <= i < |s| ==> r.value <= s[i]
  {
    if s == [] then None
    else match Min(s[1..])
      case None => Some(s[0])
      case Some(m) => Some(if s[0] <= m then s[0] else m)
  }

  /** Largest element: absent exactly for the empty sequence. */
  function Max(s: seq<int>): (r: Option<int>)
    ensures r.None? <==> s == []
    ensures r.Some? ==> r.value in s && forall i :: 0 <= i < |s| ==> s[i] <= r.value
  {
    if s == [] then None
    else match Max(s[1..])
      case None => Some(s[0])
      case Some(m) => Some(if s[0] >= m then s[0] else m)
  }

  function Sum(s: seq<int>): int {
    if s == [] then 0 else Sum(s[..|s| - 1]) + s[|s| - 1]
  }

  /** Number of entries at or above `t`. */
  function CountAtLeast(s: seq<int>, t: int): (r: nat)
    ensures r <= |s|
  {
    if s == [] then 0
    else CountAtLeast(s[..|s| - 1], t) + (if s[|s| - 1] >= t then 1 else 0)
  }

  /** A sum of non-negative entries is zero exactly when every entry is. */
  lemma {:induction false} SumZeroIffAllZero(s: seq<int>)
    requires AllNonNegative(s)
    ensures Sum(s) >= 0
    ensures Sum(s) == 0 <==> forall i :: 0 <= i < |s| ==> s[i] == 0
  {
    if s != [] {
      var init := s[..|s| - 1];
      assert AllNonNegative(init) by {
        forall i | 0 <= i < |init| ensures init[i] >= 0 { assert init[i] == s[i]; }
      }
      SumZeroIffAllZero(init);
      if Sum(s) == 0 {
        forall i | 0 <= i < |s| ensures s[i] == 0 {
          if i < |s| - 1 { assert s[i] == init[i]; }
        }
      }
    }
  }

  /** Every entry lies at or above the threshold when the threshold is at most
      the minimum, so the count is the full length. */
  lemma {:induction false} CountAtLeastAll(s: seq<int>, t: int)
    requires forall i :: 0 <= i < |s| ==> s[i] >= t
    ensures CountAtLeast(s, t) == |s|
  {
    if s != [] {
      var init := s[..|s| - 1];
      assert forall i :: 0 <= i < |init| ==> init[i] == s[i];
      CountAtLeastAll(init, t);
    }
  }

  /** Raising the threshold never increases the count. */
  lemma {:induction false} CountAtLeastAntitone(s: seq<int>, t: int, u: int)
    requires t <= u
    ensures CountAtLeast(s, u) <= CountAtLeast(s, t)
  {
    if s != [] {
      CountAtLeastAntitone(s[..|s| - 1], t, u);
    }
  }

  /** No entry reaches a threshold above the maximum, so the count is zero. */
  lemma {:induction false} CountAtLeastNone(s: seq<int>, t: int)
    requires forall i :: 0 <= i < |s| ==> s[i] < t
    ensures CountAtLeast(s, t) == 0
  {
    if s != [] {
      var init := s[..|s| - 1];
      assert forall i :: 0 <= i < |init| ==> init[i] == s[i];
      CountAtLeastNone(init, t);
    }
  }

  /** A sum lies between length times any lower bound and length times any upper
      bound of its entries. */
  lemma {:induction false} SumBounds(s: seq<int>, lo: int, hi: int)
    requires forall i :: 0 <= i < |s| ==> lo <= s[i] <= hi
    ensures |s| * lo <= Sum(s) <= |s| * hi
  {
    if s != [] {
      var init := s[..|s| - 1];
      assert forall i :: 0 <= i < |init| ==> init[i] == s[i];
      SumBounds(init, lo, hi);
      assert |s| * lo == |init| * lo + lo;
      assert |s| * hi == |init| * hi + hi;
    }
  }

  lemma CastProduct(a: int, b: int)
    ensures (a * b) as real == a as real * b as real
  {
  }

  lemma DivBetween(x: real, n: real, lo: real, hi: real)
    requires n > 0.0 && n * lo <= x <= n * hi
    ensures lo <= x / n <= hi
  {
    var q := x / n;
    assert q * n == x;
  }

  /** The average of a non-empty sequence lies between any lower and upper
      bound of its entries, in particular between its minimum and maximum. */
  lemma AverageBetween(s: seq<int>, lo: int, hi: int)
    requires s != []
    requires forall i :: 0 <= i < |s| ==> lo <= s[i] <= hi
    ensures lo as real <= Sum(s) as real / |s| as real <= hi as real
  {
    var n := |s|;
    var x := Sum(s);
    SumBounds(s, lo, hi);
    ScaledBounds(n, x, lo, hi);
  }

  lemma ScaledBounds(n: int, x: int, lo: int, hi: int)
    requires n > 0 && n * lo <= x <= n * hi
    ensures lo as real <= x as real / n as real <= hi as real
  {
    CastProduct(n, lo);
    CastProduct(n, hi);
    DivBetween(x as real, n as real, lo as real, hi as real);
  }
}
