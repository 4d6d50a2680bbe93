/** Sums over a sequence, and how one changed element moves them.

    The concurrent models keep their threads in a sequence and relate every shared
    counter to a sum of per-thread contributions. */
module Tally {

  function Sum<T>(s: seq<T>, f: T -> int): (total: int) {
    if |s| == 0 then 0 else f(s[0]) + Sum(s[1..], f)
  }

  /** Replacing one element moves the sum by exactly the difference of the two contributions. */
  lemma {:induction false} SumUpdate<T>(s: seq<T>, i: nat, x: T, f: T -> int)
    requires i < |s|
    ensures Sum(s[i := x], f) == Sum(s, f) - f(s[i]) + f(x)
  {
    if i == 0 {
      assert s[i := x][1..] == s[1..];
    } else {
      assert s[i := x][1..] == s[1..][i - 1 := x];
      SumUpdate(s[1..], i - 1, x, f);
    }
  }

  lemma {:induction false} SumAppend<T>(s: seq<T>, x: T, f: T -> int)
    ensures Sum(s + [x], f) == Sum(s, f) + f(x)
  {
    if |s| == 0 {
      assert s + [x] == [x];
    } else {
      assert (s + [x])[1..] == s[1..] + [x];
      SumAppend(s[1..], x, f);
    }
  }

  /** A sum of contributions that are never negative is at least any one of them. */
  lemma {:induction false} SumAtLeast<T>(s: seq<T>, i: nat, f: T -> int)
    requires i < |s|
    requires forall k :: 0 <= k < |s| ==> f(s[k]) >= 0
    ensures f(s[i]) <= Sum(s, f)
    decreases |s|
  {
    SumNonNegative(s[1..], f);
    if i != 0 {
      SumAtLeast(s[1..], i - 1, f);
    }
  }

  lemma {:induction false} SumNonNegative<T>(s: seq<T>, f: T -> int)
    requires forall k :: 0 <= k < |s| ==> f(s[k]) >= 0
    ensures Sum(s, f) >= 0
  {
    if |s| != 0 {
      SumNonNegative(s[1..], f);
    }
  }

  /** If every contribution is zero, so is the sum. */
  lemma {:induction false} SumZero<T>(s: seq<T>, f: T -> int)
    requires forall k :: 0 <= k < |s| ==> f(s[k]) == 0
    ensures Sum(s, f) == 0
  {
    if |s| != 0 {
      SumZero(s[1..], f);
    }
  }

  /** If a sum of contributions that are never negative is zero, every contribution is zero. */
  lemma SumZeroAll<T>(s: seq<T>, f: T -> int)
    requires forall k :: 0 <= k < |s| ==> f(s[k]) >= 0
    requires Sum(s, f) == 0
    ensures forall k :: 0 <= k < |s| ==> f(s[k]) == 0
  {
    forall k | 0 <= k < |s| ensures f(s[k]) == 0 {
      SumAtLeast(s, k, f);
    }
  }

  /** Two contribution functions that agree on the elements give the same sum. */
  lemma {:induction false} SumAgree<T>(s: seq<T>, f: T -> int, g: T -> int)
    requires forall k :: 0 <= k < |s| ==> f(s[k]) == g(s[k])
    ensures Sum(s, f) == Sum(s, g)
  {
    if |s| != 0 {
      SumAgree(s[1..], f, g);
    }
  }

  /** Pointwise smaller contributions give a smaller sum. */
  lemma {:induction false} SumLe<T>(s: seq<T>, f: T -> int, g: T -> int)
    requires forall k :: 0 <= k < |s| ==> f(s[k]) <= g(s[k])
    ensures Sum(s, f) <= Sum(s, g)
  {
    if |s| != 0 {
      SumLe(s[1..], f, g);
    }
  }

  /** A positive sum has a positive contribution. */
  lemma {:induction false} SumPositive<T>(s: seq<T>, f: T -> int) returns (i: nat)
    requires Sum(s, f) > 0
    ensures i < |s| && f(s[i]) > 0
  {
    if f(s[0]) > 0 {
      i := 0;
    } else {
      var j := SumPositive(s[1..], f);
      i := j + 1;
    }
  }

  /** Two different elements contribute together. */
  lemma {:induction false} SumTwo<T>(s: seq<T>, i: nat, j: nat, f: T -> int)
    requires i < |s| && j < |s| && i != j
    requires forall k :: 0 <= k < |s| ==> f(s[k]) >= 0
    ensures f(s[i]) + f(s[j]) <= Sum(s, f)
    decreases |s|
  {
    if i == 0 {
      SumAtLeast(s[1..], j - 1, f);
    } else if j == 0 {
      SumAtLeast(s[1..], i - 1, f);
    } else {
      SumTwo(s[1..], i - 1, j - 1, f);
    }
  }

  /** Sequences whose elements contribute alike have the same sum. */
  lemma {:induction false} SumAlike<T>(s: seq<T>, s': seq<T>, f: T -> int)
    requires |s| == |s'| && forall k :: 0 <= k < |s| ==> f(s[k]) == f(s'[k])
    ensures Sum(s, f) == Sum(s', f)
  {
    if |s| != 0 {
      SumAlike(s[1..], s'[1..], f);
    }
  }
}
