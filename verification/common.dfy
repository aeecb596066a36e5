/**
 * Constants shared by the four schedulers and the integer arithmetic their
 * metric loops perform: sums, counts and maxima over the process table.
 */
module Common {

  /** Time units charged for one swap-in or one swap-out (SWAP_TIME). */
  const SWAP_TIME: int := 2
  /** Memory pool of the demo runs, in MB (TOTAL_MEMORY). */
  const TOTAL_MEMORY: int := 6000
  /** Size of the process table and of the round-robin `visited` flags. */
  const MAX_PROCESSES: int := 10
  /** Round-robin time quantum of the demo run (TIME_QUANTUM). */
  const TIME_QUANTUM: int := 3
  /** Largest value of a 32-bit C `int`; the selection scans start from it. */
  const INT_MAX: int := 0x7fff_ffff

  /** The positive part of a number: what a requirement can claim from a pool. */
  function Pos(x: int): nat
  {
    if x < 0 then 0 else x
  }

  /** Sum of a sequence, accumulated left to right as the metric loops do. */
  function Sum(s: seq<int>): int
  {
    if s == [] then 0 else Sum(s[..|s| - 1]) + s[|s| - 1]
  }

  /** Number of true entries of a sequence of flags. */
  function Count(s: seq<bool>): (c: nat)
    ensures c <= |s|
  {
    if s == [] then 0 else Count(s[..|s| - 1]) + (if s[|s| - 1] then 1 else 0)
  }

  /** An upper bound of every element, attained by one of them when `s` is not empty. */
  function MaxOf(s: seq<int>): (m: int)
    ensures forall k :: 0 <= k < |s| ==> s[k] <= m
    ensures |s| > 0 ==> exists k :: 0 <= k < |s| && s[k] == m
  {
    if |s| <= 1 then (if s == [] then 0 else s[0])
    else
      var m := MaxOf(s[..|s| - 1]);
      if s[|s| - 1] > m then s[|s| - 1] else m
  }

  /** Extending a prefix by one element adds that element to the sum. */
  lemma SumStep(s: seq<int>, i: nat)
    requires i < |s|
    ensures Sum(s[..i + 1]) == Sum(s[..i]) + s[i]
  {
    assert s[..i + 1][..i] == s[..i];
  }

  /** Appending an element adds it to the sum. */
  lemma SumAppend(s: seq<int>, x: int)
    ensures Sum(s + [x]) == Sum(s) + x
  {
    assert (s + [x])[..|s|] == s;
  }

  /** Replacing one element changes the sum by the difference. */
  lemma {:induction false} SumUpdate(s: seq<int>, k: nat, v: int)
    requires k < |s|
    ensures Sum(s[k := v]) == Sum(s) - s[k] + v
  {
    var t := s[k := v];
    if k == |s| - 1 {
      assert t[..|t| - 1] == s[..|s| - 1];
    } else {
      SumUpdate(s[..|s| - 1], k, v);
      assert t[..|t| - 1] == s[..|s| - 1][k := v];
    }
  }

  /** In a sequence of non-negative numbers every element is at most the sum. */
  lemma {:induction false} SumBoundsElement(s: seq<int>, k: nat)
    requires k < |s|
    requires forall i :: 0 <= i < |s| ==> s[i] >= 0
    ensures 0 <= s[k] <= Sum(s)
  {
    if k < |s| - 1 {
      SumBoundsElement(s[..|s| - 1], k);
    } else if |s| > 1 {
      SumNonneg(s[..|s| - 1]);
    }
  }

  /** A sum of non-negative numbers is non-negative. */
  lemma {:induction false} SumNonneg(s: seq<int>)
    requires forall i :: 0 <= i < |s| ==> s[i] >= 0
    ensures Sum(s) >= 0
  {
    if s != [] {
      SumNonneg(s[..|s| - 1]);
    }
  }

  /** The sum of pointwise sums is the sum of the two sums. */
  lemma {:induction false} SumAdd(a: seq<int>, b: seq<int>, c: seq<int>)
    requires |a| == |b| == |c|
    requires forall i :: 0 <= i < |a| ==> a[i] == b[i] + c[i]
    ensures Sum(a) == Sum(b) + Sum(c)
  {
    if a != [] {
      SumAdd(a[..|a| - 1], b[..|b| - 1], c[..|c| - 1]);
    }
  }

  /** A sequence of equal elements sums to that element times its length. */
  lemma {:induction false} SumConstant(s: seq<int>, v: int)
    requires forall i :: 0 <= i < |s| ==> s[i] == v
    ensures Sum(s) == v * |s|
  {
    if s != [] {
      SumConstant(s[..|s| - 1], v);
    }
  }

  /** Extending a prefix by one flag adds one exactly when the flag is set. */
  lemma CountStep(s: seq<bool>, i: nat)
    requires i < |s|
    ensures Count(s[..i + 1]) == Count(s[..i]) + (if s[i] then 1 else 0)
  {
    assert s[..i + 1][..i] == s[..i];
  }

  /** Setting one unset flag adds exactly one to the count. */
  lemma {:induction false} CountSet(s: seq<bool>, k: nat)
    requires k < |s| && !s[k]
    ensures Count(s[k := true]) == Count(s) + 1
  {
    var t := s[k := true];
    if k == |s| - 1 {
      assert t[..|t| - 1] == s[..|s| - 1];
    } else {
      CountSet(s[..|s| - 1], k);
      assert t[..|t| - 1] == s[..|s| - 1][k := true];
    }
  }

  /** A sequence with no flag set counts zero. */
  lemma {:induction false} CountNone(s: seq<bool>)
    requires forall i :: 0 <= i < |s| ==> !s[i]
    ensures Count(s) == 0
  {
    if s != [] {
      CountNone(s[..|s| - 1]);
    }
  }

  /** The count reaches the length exactly when every flag is set. */
  lemma {:induction false} CountFull(s: seq<bool>)
    ensures Count(s) == |s| <==> forall i :: 0 <= i < |s| ==> s[i]
  {
    if s != [] {
      CountFull(s[..|s| - 1]);
      if Count(s) == |s| {
        forall i | 0 <= i < |s| ensures s[i] {
          if i < |s| - 1 {
            assert s[..|s| - 1][i] == s[i];
          }
        }
      }
    }
  }
}
