/** Counting multisets, and a rank of multisets given by their histogram. */
module Multichoose {
  import opened Arithmetic

  /** Number of multisets of size `size` over `values` distinct values. */
  function Multisets(values: nat, size: nat): nat
    decreases values + size
  {
    if size == 0 then 1
    else if values == 0 then 0
    else Multisets(values - 1, size) + Multisets(values, size - 1)
  }

  /** Pascal's triangle. */
  function Choose(n: nat, k: nat): nat
  {
    if k == 0 then 1
    else if n == 0 then 0
    else Choose(n - 1, k - 1) + Choose(n - 1, k)
  }

  lemma {:induction false} ChooseBeyond(n: nat, k: nat)
    requires k > n
    ensures Choose(n, k) == 0
  {
    if n > 0 {
      ChooseBeyond(n - 1, k - 1);
      ChooseBeyond(n - 1, k);
    }
  }

  /** The usual closed form: multisets of size k over n + 1 values number "n + k choose k". */
  lemma {:induction false} MultisetsAreChoices(n: nat, k: nat)
    ensures Multisets(n + 1, k) == Choose(n + k, k)
    decreases n + k
  {
    if k > 0 {
      MultisetsAreChoices(n, k - 1);
      if n > 0 {
        MultisetsAreChoices(n - 1, k);
      } else {
        ChooseBeyond(k - 1, k);
      }
    }
  }

  /** With at least two slots and at least one value to climb, the count passes `values`. */
  lemma {:induction false} MultisetsGrow(values: nat, size: nat)
    requires values >= 2 && size >= 2
    ensures Multisets(values, size) > values
    decreases values + size
  {
    MultisetsOfOne(values);
    MultisetsPositive(values - 1, size);
    if size > 2 {
      MultisetsGrow(values, size - 1);
    }
  }

  lemma {:induction false} MultisetsOfOne(values: nat)
    ensures Multisets(values, 1) == values
  {
    if values > 0 {
      MultisetsOfOne(values - 1);
    }
  }

  lemma {:induction false} MultisetsPositive(values: nat, size: nat)
    requires values > 0
    ensures Multisets(values, size) >= 1
    decreases size
  {
    if size > 0 {
      MultisetsPositive(values, size - 1);
    }
  }

  function Power(k: nat, n: nat): nat {
    if n == 0 then 1 else k * Power(k, n - 1)
  }

  /** k + k^2 + ... + k^n */
  function Geometric(k: nat, n: nat): nat {
    if n == 0 then 0 else Geometric(k, n - 1) + Power(k, n)
  }

  /** One more value multiplies the multisets by at most the size plus one. */
  lemma {:induction false} MultisetsStep(n: nat, size: nat)
    requires n > 0
    ensures Multisets(n + 1, size) <= (size + 1) * Multisets(n, size)
  {
    if size > 0 {
      MultisetsStep(n, size - 1);
      MulMonotone(Multisets(n, size - 1), Multisets(n, size), size);
      assert (size + 1) * Multisets(n, size) == Multisets(n, size) * size + Multisets(n, size);
    }
  }

  lemma {:induction false} MultisetsBelowPower(n: nat, size: nat)
    ensures Multisets(n + 1, size) <= Power(size + 1, n)
  {
    if n == 0 {
      OneValue(size);
    } else {
      MultisetsBelowPower(n - 1, size);
      MultisetsStep(n, size);
      MulMonotone(Multisets(n, size), Power(size + 1, n - 1), size + 1);
    }
  }

  lemma {:induction false} OneValue(size: nat)
    ensures Multisets(1, size) == 1
  {
    if size > 0 {
      OneValue(size - 1);
    }
  }

  lemma {:induction false} MultisetsBelowGeometric(n: nat, k: nat)
    ensures Multisets(n + 1, k) <= 1 + Geometric(k, n)
  {
    if n == 0 {
      OneValue(k);
    } else if k > 0 {
      MultisetsBelowGeometric(n - 1, k);
      MultisetsBelowPower(n, k - 1);
    }
  }

  function Sum(h: seq<nat>): nat
  {
    if h == [] then 0 else h[0] + Sum(h[1..])
  }

  lemma {:induction false} SumBump(h: seq<nat>, i: nat)
    requires i < |h|
    ensures Sum(h[i := h[i] + 1]) == Sum(h) + 1
  {
    if i == 0 {
      assert h[0 := h[0] + 1][1..] == h[1..];
    } else {
      SumBump(h[1..], i - 1);
      assert h[i := h[i] + 1][1..] == h[1..][i - 1 := h[1..][i - 1] + 1];
    }
  }

  lemma {:induction false} SumZeros(h: seq<nat>)
    requires forall v | 0 <= v < |h| :: h[v] == 0
    ensures Sum(h) == 0
  {
    if h != [] {
      SumZeros(h[1..]);
    }
  }

  /** Multisets(n, m) + Multisets(n, m - 1) + ..., j terms. */
  function Rungs(n: nat, m: nat, j: nat): nat
    requires j <= m
  {
    if j == 0 then 0 else Rungs(n, m, j - 1) + Multisets(n, m - (j - 1))
  }

  /** How many multisets of the same size are lexicographically above the one with histogram `h`. */
  function Rank(h: seq<nat>): nat
  {
    if h == [] then 0 else Rungs(|h| - 1, Sum(h), h[0]) + Rank(h[1..])
  }

  lemma {:induction false} RungsTelescope(n: nat, m: nat, j: nat)
    requires j <= m
    ensures Rungs(n, m, j) + Multisets(n + 1, m - j) == Multisets(n + 1, m)
  {
    if j > 0 {
      RungsTelescope(n, m, j - 1);
      assert Multisets(n + 1, m - j + 1) == Multisets(n, m - j + 1) + Multisets(n + 1, m - j);
    }
  }

  lemma {:induction false} RungsMonotone(n: nat, m: nat, i: nat, j: nat)
    requires i <= j <= m
    ensures Rungs(n, m, i) <= Rungs(n, m, j)
  {
    if i < j {
      RungsMonotone(n, m, i, j - 1);
    }
  }

  lemma {:induction false} RankBound(h: seq<nat>)
    requires h != []
    ensures Rank(h) < Multisets(|h|, Sum(h))
  {
    RungsTelescope(|h| - 1, Sum(h), h[0]);
    if |h| == 1 {
      assert Sum(h) == h[0] by { assert h[1..] == []; }
    } else {
      RankBound(h[1..]);
    }
  }

  lemma {:induction false} RankZeros(h: seq<nat>)
    requires forall v | 0 <= v < |h| :: h[v] == 0
    ensures Rank(h) == 0 && Sum(h) == 0
  {
    if h != [] {
      RankZeros(h[1..]);
    }
  }

  /** All in one place: below it are the multisets of the values from there on. */
  lemma {:induction false} RankAt(h: seq<nat>, i: nat)
    requires i < |h| && forall v | 0 <= v < |h| && v != i :: h[v] == 0
    ensures Rank(h) + 1 == Multisets(|h| - i, h[i])
  {
    if i == 0 {
      RankZeros(h[1..]);
      RungsTelescope(|h| - 1, h[0], h[0]);
    } else {
      RankAt(h[1..], i - 1);
    }
  }

  /** A lexicographic drop at `d` with the same total lowers the rank. */
  lemma {:induction false} RankDrops(h: seq<nat>, h': seq<nat>, d: nat)
    requires d < |h| == |h'| && Sum(h) == Sum(h')
    requires h[..d] == h'[..d] && h'[d] < h[d]
    ensures Rank(h') < Rank(h)
  {
    if d == 0 {
      var n, m := |h| - 1, Sum(h);
      RungsMonotone(n, m, h'[0] + 1, h[0]);
      if n > 0 {
        RankBound(h'[1..]);
      }
    } else {
      assert h[0] == h[..d][0] == h'[..d][0] == h'[0];
      assert h[1..][..d - 1] == h[..d][1..] == h'[..d][1..] == h'[1..][..d - 1];
      RankDrops(h[1..], h'[1..], d - 1);
    }
  }
}
