/**
 * The enumeration behind `itertools.combinations(players, 5)`: every choice
 * of k positions out of a range, each listed in increasing order, the
 * choices themselves listed in lexicographic order.
 */
module Enumeration {

  /** c picks k distinct positions from [lo, hi), listed in increasing order. */
  predicate IsCombination(c: seq<nat>, lo: nat, hi: nat, k: nat) {
    |c| == k &&
    (forall j :: 0 <= j < |c| ==> lo <= c[j] < hi) &&
    (forall i, j :: 0 <= i < j < |c| ==> c[i] < c[j])
  }

  /** Strict lexicographic order on position lists (as Python compares tuples of equal length). */
  predicate LexLess(a: seq<nat>, b: seq<nat>)
    decreases |a|
  {
    a != [] && b != [] &&
    (a[0] < b[0] || (a[0] == b[0] && LexLess(a[1..], b[1..])))
  }

  lemma {:induction false} LexLessIrreflexive(a: seq<nat>)
    ensures !LexLess(a, a)
    decreases |a|
  {
    if a != [] {
      LexLessIrreflexive(a[1..]);
    }
  }

  /** Puts x in front of every list of cs. */
  function Prepend(x: nat, cs: seq<seq<nat>>): seq<seq<nat>> {
    seq(|cs|, j requires 0 <= j < |cs| => [x] + cs[j])
  }

  /**
   * All k-combinations of [lo, hi) in lexicographic order: first those that
   * take lo (followed by the (k-1)-combinations of [lo+1, hi)), then those
   * that skip it. This is the order in which `itertools.combinations`
   * yields them.
   */
  function Combinations(lo: nat, hi: nat, k: nat): (cs: seq<seq<nat>>)
    ensures forall j :: 0 <= j < |cs| ==> IsCombination(cs[j], lo, hi, k)
    decreases hi - lo
  {
    if k == 0 then [[]]
    else if hi <= lo then []
    else
      var taken := Combinations(lo + 1, hi, k - 1);
      assert forall j :: 0 <= j < |taken| ==> IsCombination([lo] + taken[j], lo, hi, k);
      Prepend(lo, taken) + Combinations(lo + 1, hi, k)
  }

  lemma PrependHas(x: nat, cs: seq<seq<nat>>, d: seq<nat>)
    requires d in cs
    ensures [x] + d in Prepend(x, cs)
  {
    var j :| 0 <= j < |cs| && cs[j] == d;
    assert Prepend(x, cs)[j] == [x] + d;
  }

  /** The recursive case of the enumeration: those taking lo, then those skipping it. */
  lemma CombinationsStep(lo: nat, hi: nat, k: nat)
    requires 0 < k && lo < hi
    ensures Combinations(lo, hi, k) == Prepend(lo, Combinations(lo + 1, hi, k - 1)) + Combinations(lo + 1, hi, k)
  {
  }

  /** Every k-combination of [lo, hi) is enumerated. */
  lemma {:induction false} CombinationsComplete(c: seq<nat>, lo: nat, hi: nat, k: nat)
    requires IsCombination(c, lo, hi, k)
    ensures c in Combinations(lo, hi, k)
    decreases hi - lo
  {
    if k > 0 {
      assert lo <= c[0] < hi;
      var taken := Combinations(lo + 1, hi, k - 1);
      var skipped := Combinations(lo + 1, hi, k);
      CombinationsStep(lo, hi, k);
      if c[0] == lo {
        assert c in Prepend(lo, taken) by {
          assert IsCombination(c[1..], lo + 1, hi, k - 1);
          CombinationsComplete(c[1..], lo + 1, hi, k - 1);
          PrependHas(lo, taken, c[1..]);
          assert c == [lo] + c[1..];
        }
      } else {
        assert c in skipped by {
          assert IsCombination(c, lo + 1, hi, k);
          CombinationsComplete(c, lo + 1, hi, k);
        }
      }
    }
  }

  /** The enumeration is strictly increasing in lexicographic order. */
  lemma {:induction false} CombinationsSorted(lo: nat, hi: nat, k: nat)
    ensures forall i, j :: 0 <= i < j < |Combinations(lo, hi, k)| ==>
      LexLess(Combinations(lo, hi, k)[i], Combinations(lo, hi, k)[j])
    decreases hi - lo
  {
    if k > 0 && lo < hi {
      var cs := Combinations(lo, hi, k);
      var taken := Combinations(lo + 1, hi, k - 1);
      var skipped := Combinations(lo + 1, hi, k);
      CombinationsSorted(lo + 1, hi, k - 1);
      CombinationsSorted(lo + 1, hi, k);
      var t := |taken|;
      forall i, j | 0 <= i < j < |cs|
        ensures LexLess(cs[i], cs[j])
      {
        if j < t {
          assert cs[i] == [lo] + taken[i] && cs[j] == [lo] + taken[j];
          assert cs[i][1..] == taken[i] && cs[j][1..] == taken[j];
          assert LexLess(taken[i], taken[j]);
        } else if i < t {
          assert cs[i] == [lo] + taken[i];
          assert cs[j] == skipped[j - t];
          assert IsCombination(skipped[j - t], lo + 1, hi, k);
          assert cs[i][0] < cs[j][0];
        } else {
          assert cs[i] == skipped[i - t] && cs[j] == skipped[j - t];
          assert LexLess(skipped[i - t], skipped[j - t]);
        }
      }
    }
  }

  /** Being strictly sorted, the enumeration lists nothing twice. */
  lemma CombinationsDistinct(lo: nat, hi: nat, k: nat)
    ensures forall i, j :: 0 <= i < j < |Combinations(lo, hi, k)| ==>
      Combinations(lo, hi, k)[i] != Combinations(lo, hi, k)[j]
  {
    var cs := Combinations(lo, hi, k);
    CombinationsSorted(lo, hi, k);
    forall i, j | 0 <= i < j < |cs|
      ensures cs[i] != cs[j]
    {
      LexLessIrreflexive(cs[i]);
    }
  }

  /** The binomial coefficient, by Pascal's rule. */
  function Binomial(n: nat, k: nat): nat {
    if k == 0 then 1
    else if n == 0 then 0
    else Binomial(n - 1, k - 1) + Binomial(n - 1, k)
  }

  /** The enumeration lists Binomial(hi - lo, k) combinations. */
  lemma {:induction false} CombinationsCount(lo: nat, hi: nat, k: nat)
    ensures |Combinations(lo, hi, k)| == Binomial(if lo <= hi then hi - lo else 0, k)
    decreases hi - lo
  {
    if k > 0 && lo < hi {
      CombinationsCount(lo + 1, hi, k - 1);
      CombinationsCount(lo + 1, hi, k);
    }
  }

  /** There is a k-combination of n positions exactly when k <= n. */
  lemma {:induction false} BinomialPositive(n: nat, k: nat)
    ensures Binomial(n, k) > 0 <==> k <= n
  {
    if k > 0 && n > 0 {
      BinomialPositive(n - 1, k - 1);
      BinomialPositive(n - 1, k);
    }
  }

  /** There is exactly one way to take all n positions. */
  lemma {:induction false} BinomialDiagonal(n: nat)
    ensures Binomial(n, n) == 1
  {
    if n > 0 {
      BinomialDiagonal(n - 1);
      BinomialPositive(n - 1, n);
    }
  }

  /** Row 5 of Pascal's triangle, built from rows 1 to 4. */
  lemma PascalRowFive()
    ensures Binomial(5, 1) == 5 && Binomial(5, 2) == 10 && Binomial(5, 3) == 10
    ensures Binomial(5, 4) == 5 && Binomial(5, 5) == 1
  {
    BinomialDiagonal(1);
    BinomialDiagonal(2);
    BinomialDiagonal(3);
    BinomialDiagonal(4);
    BinomialDiagonal(5);
    assert Binomial(2, 1) == 2;
    assert Binomial(3, 1) == 3;
    assert Binomial(3, 2) == 3;
    assert Binomial(4, 1) == 4;
    assert Binomial(4, 2) == 6;
    assert Binomial(4, 3) == 4;
  }

  /** Ten players give C(10, 5) = 252 candidate teams. */
  lemma TenChooseFive()
    ensures Binomial(10, 5) == 252
  {
    PascalRowFive();
    assert Binomial(6, 1) == 6;
    assert Binomial(6, 2) == 15;
    assert Binomial(6, 3) == 20;
    assert Binomial(6, 4) == 15;
    assert Binomial(6, 5) == 6;
    assert Binomial(7, 2) == 21;
    assert Binomial(7, 3) == 35;
    assert Binomial(7, 4) == 35;
    assert Binomial(7, 5) == 21;
    assert Binomial(8, 3) == 56;
    assert Binomial(8, 4) == 70;
    assert Binomial(8, 5) == 56;
    assert Binomial(9, 4) == 126;
    assert Binomial(9, 5) == 126;
  }
}
