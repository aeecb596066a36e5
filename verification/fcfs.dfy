/**
 * First-come-first-served scheduling with memory swapping (fcfs.c).
 *
 * `calculate_fcfs` bubble-sorts the process table by arrival time, then runs
 * every process to completion in that order. Before a process runs it is
 * swapped in (SWAP_TIME, its memory taken from the pool); when it does not fit,
 * earlier processes that have completed and are still resident are swapped out
 * one by one, in table order, until it fits or none is left.
 */
module Fcfs {
  import opened Common

  /** One row of the process table of fcfs.c; the name and type strings are display only. */
  datatype Process = Process(
    pid: int,
    arrivalTime: int,
    burstTime: int,
    completionTime: int,
    turnaroundTime: int,
    waitingTime: int,
    responseTime: int,
    startTime: int,
    memoryRequired: int,
    isSwapped: bool,
    swapOutTime: int,
    swapInTime: int,
    totalSwapTime: int)

  /** `p` and `q` describe the same workload item: the fields the scheduler only reads. */
  predicate SameDescriptor(p: Process, q: Process)
  {
    p.pid == q.pid && p.arrivalTime == q.arrivalTime && p.burstTime == q.burstTime
    && p.memoryRequired == q.memoryRequired
  }

  predicate SortedByArrival(s: seq<Process>)
  {
    forall k, l :: 0 <= k < l < |s| ==> s[k].arrivalTime <= s[l].arrivalTime
  }

  /** `perm` maps positions 0..n-1 injectively into 0..n-1. */
  predicate IsPermutation(perm: seq<int>, n: int)
  {
    |perm| == n
    && (forall k :: 0 <= k < n ==> 0 <= perm[k] < n)
    && (forall k, l :: 0 <= k < l < n ==> perm[k] != perm[l])
  }

  /**
   * The row of a process after it has run: swapped in once, then executed
   * for its whole burst, with the timing identities of fcfs.c:181-199.
   */
  predicate Ran(p: Process, d: Process)
  {
    SameDescriptor(p, d)
    && p.totalSwapTime == SWAP_TIME
    && p.swapInTime == p.startTime
    && p.startTime >= p.arrivalTime + SWAP_TIME
    && p.responseTime == p.startTime - p.arrivalTime
    && p.completionTime == p.startTime + p.burstTime
    && p.turnaroundTime == p.completionTime - p.arrivalTime
    && p.waitingTime == p.turnaroundTime - p.burstTime
  }

  /** Memory a process holds in the pool once it has been swapped in. */
  function Held(p: Process): int
  {
    if p.isSwapped then 0 else p.memoryRequired
  }

  /** Memory held by the processes of `s`, all of which have been swapped in. */
  function HeldMemory(s: seq<Process>): int
  {
    Sum(seq(|s|, k requires 0 <= k < |s| => Held(s[k])))
  }

  /** Number of processes of `s` that have been swapped out. */
  function SwappedCount(s: seq<Process>): nat
  {
    Count(seq(|s|, k requires 0 <= k < |s| => s[k].isSwapped))
  }

  lemma HeldMemoryStep(s: seq<Process>, i: nat)
    requires i < |s|
    ensures HeldMemory(s[..i + 1]) == HeldMemory(s[..i]) + Held(s[i])
  {
    var h := seq(|s|, k requires 0 <= k < |s| => Held(s[k]));
    assert seq(i + 1, k requires 0 <= k < i + 1 => Held(s[..i + 1][k])) == h[..i + 1];
    assert seq(i, k requires 0 <= k < i => Held(s[..i][k])) == h[..i];
    SumStep(h, i);
  }

  lemma HeldMemoryUpdate(s: seq<Process>, k: nat, p: Process)
    requires k < |s|
    ensures HeldMemory(s[k := p]) == HeldMemory(s) - Held(s[k]) + Held(p)
  {
    var h := seq(|s|, j requires 0 <= j < |s| => Held(s[j]));
    assert seq(|s|, j requires 0 <= j < |s| => Held(s[k := p][j])) == h[k := Held(p)];
    SumUpdate(h, k, Held(p));
  }

  lemma SwappedCountStep(s: seq<Process>, i: nat)
    requires i < |s|
    ensures SwappedCount(s[..i + 1]) == SwappedCount(s[..i]) + (if s[i].isSwapped then 1 else 0)
  {
    var f := seq(|s|, k requires 0 <= k < |s| => s[k].isSwapped);
    assert seq(i + 1, k requires 0 <= k < i + 1 => s[..i + 1][k].isSwapped) == f[..i + 1];
    assert seq(i, k requires 0 <= k < i => s[..i][k].isSwapped) == f[..i];
    CountStep(f, i);
  }

  lemma SwappedCountSet(s: seq<Process>, k: nat, p: Process)
    requires k < |s| && !s[k].isSwapped && p.isSwapped
    ensures SwappedCount(s[k := p]) == SwappedCount(s) + 1
  {
    var f := seq(|s|, j requires 0 <= j < |s| => s[j].isSwapped);
    assert seq(|s|, j requires 0 <= j < |s| => s[k := p][j].isSwapped) == f[k := true];
    CountSet(f, k);
  }

  /**
   * `s` is `o` rearranged by `perm`, with rows of equal arrival time still in
   * their order in `o`.
   */
  ghost predicate Arranged(s: seq<Process>, o: seq<Process>, perm: seq<int>)
  {
    |o| == |s| && IsPermutation(perm, |s|)
    && (forall k :: 0 <= k < |s| ==> s[k] == o[perm[k]])
    && (forall k, l :: 0 <= k < l < |s| && s[k].arrivalTime == s[l].arrivalTime ==> perm[k] < perm[l])
  }

  /** Rows from `lo` on are in arrival order. */
  ghost predicate SortedFrom(s: seq<Process>, lo: nat)
  {
    forall k, l :: lo <= k < l < |s| ==> s[k].arrivalTime <= s[l].arrivalTime
  }

  /** No row before `mid` arrives later than a row from `mid` on. */
  ghost predicate SplitAt(s: seq<Process>, mid: nat)
  {
    forall k, l :: 0 <= k < mid <= l < |s| ==> s[k].arrivalTime <= s[l].arrivalTime
  }

  /** Row `j` arrives no earlier than any row before it. */
  ghost predicate LatestAt(s: seq<Process>, j: nat)
  {
    j < |s| && forall k :: 0 <= k < j ==> s[k].arrivalTime <= s[j].arrivalTime
  }

  /**
   * One step of the inner loop of the bubble sort (fcfs.c:132-136): rows `j`
   * and `j + 1` are exchanged exactly when the left one arrives strictly
   * later. The rows are the same, the pair ends in arrival order and every
   * other row stays where it was.
   */
  function CompareExchanged(s: seq<Process>, j: nat): (r: seq<Process>)
    requires j + 1 < |s|
    ensures |r| == |s| && multiset(r) == multiset(s)
    ensures r[j].arrivalTime <= r[j + 1].arrivalTime
    ensures r[j + 1].arrivalTime == if s[j].arrivalTime > s[j + 1].arrivalTime then s[j].arrivalTime else s[j + 1].arrivalTime
    ensures forall k :: 0 <= k < |s| && k != j && k != j + 1 ==> r[k] == s[k]
  {
    if s[j].arrivalTime > s[j + 1].arrivalTime then s[j := s[j + 1]][j + 1 := s[j]] else s
  }

  /** The arrangement that follows the rows through `CompareExchanged`. */
  ghost function ExchangedPerm(perm: seq<int>, s: seq<Process>, j: nat): seq<int>
    requires j + 1 < |s| == |perm|
  {
    if s[j].arrivalTime > s[j + 1].arrivalTime then perm[j := perm[j + 1]][j + 1 := perm[j]] else perm
  }

  /** Exchanging two neighbours that arrive strictly out of order keeps the arrangement. */
  lemma ExchangeKeepsArranged(s: seq<Process>, o: seq<Process>, perm: seq<int>, j: nat)
    requires Arranged(s, o, perm)
    requires j + 1 < |s| && s[j].arrivalTime > s[j + 1].arrivalTime
    ensures Arranged(s[j := s[j + 1]][j + 1 := s[j]], o, perm[j := perm[j + 1]][j + 1 := perm[j]])
  {
    var t := s[j := s[j + 1]][j + 1 := s[j]];
    var p := perm[j := perm[j + 1]][j + 1 := perm[j]];
    forall k, l | 0 <= k < l < |t| && t[k].arrivalTime == t[l].arrivalTime
      ensures p[k] < p[l]
    {
      var k' := if k == j then j + 1 else if k == j + 1 then j else k;
      var l' := if l == j then j + 1 else if l == j + 1 then j else l;
      assert t[k] == s[k'] && t[l] == s[l'] && p[k] == perm[k'] && p[l] == perm[l'];
      assert k' < l';
    }
  }

  /**
   * A compare-exchange step at `j` during the pass that ends at row `last`
   * keeps the arrangement, carries the latest arrival among rows 0..j to
   * row `j + 1`, and leaves the rows after `last` alone.
   */
  lemma PassStep(s: seq<Process>, o: seq<Process>, perm: seq<int>, j: nat, last: nat)
    requires Arranged(s, o, perm) && j < last < |s|
    requires LatestAt(s, j) && SplitAt(s, last + 1)
    ensures Arranged(CompareExchanged(s, j), o, ExchangedPerm(perm, s, j))
    ensures LatestAt(CompareExchanged(s, j), j + 1) && SplitAt(CompareExchanged(s, j), last + 1)
    ensures CompareExchanged(s, j)[last + 1..] == s[last + 1..]
  {
    if s[j].arrivalTime > s[j + 1].arrivalTime {
      ExchangeKeepsArranged(s, o, perm, j);
    }
    ExchangeKeepsSplit(s, j, last);
  }

  /** A compare-exchange before row `last + 1` keeps the split there and the rows after it. */
  lemma ExchangeKeepsSplit(s: seq<Process>, j: nat, last: nat)
    requires j < last < |s| && SplitAt(s, last + 1)
    ensures SplitAt(CompareExchanged(s, j), last + 1)
    ensures CompareExchanged(s, j)[last + 1..] == s[last + 1..]
  {
    var r := CompareExchanged(s, j);
    forall k, l | 0 <= k < last + 1 <= l < |r| ensures r[k].arrivalTime <= r[l].arrivalTime {
      assert r[l] == s[l];
      if k != j && k != j + 1 {
        assert r[k] == s[k];
      }
    }
  }

  /**
   * After the pass that ends at `last`, the rows from `last` on are sorted and
   * no earlier row arrives later than them.
   */
  lemma PassExtendsSorted(s0: seq<Process>, s1: seq<Process>, last: nat)
    requires last < |s0| == |s1|
    requires SortedFrom(s0, last + 1) && s1[last + 1..] == s0[last + 1..]
    requires LatestAt(s1, last) && SplitAt(s1, last + 1)
    ensures SortedFrom(s1, last) && SplitAt(s1, last)
  {
    forall k, l | last <= k < l < |s1| ensures s1[k].arrivalTime <= s1[l].arrivalTime {
      assert s1[l] == s0[l];
      if k > last {
        assert s1[k] == s0[k];
      }
    }
  }

  /**
   * The sorting phase of calculate_fcfs (fcfs.c:129-138): an in-place bubble
   * sort on arrival time that exchanges neighbours only when the left one
   * arrives strictly later. The result is sorted, is a permutation of the
   * input, and keeps processes with equal arrival times in their input order.
   */
  method SortByArrival(proc: array<Process>) returns (ghost perm: seq<int>)
    modifies proc
    ensures SortedByArrival(proc[..])
    ensures multiset(proc[..]) == multiset(old(proc[..]))
    ensures Arranged(proc[..], old(proc[..]), perm)
  {
    var n := proc.Length;
    perm := seq(n, k => k);
    ArrangedIdentity(proc[..]);
    var i := 0;
    while i < n - 1
      invariant 0 <= i <= n
      invariant SortedFrom(proc[..], n - i) && SplitAt(proc[..], n - i)
      invariant multiset(proc[..]) == multiset(old(proc[..]))
      invariant Arranged(proc[..], old(proc[..]), perm)
    {
      ghost var s0 := proc[..];
      perm := BubblePass(proc, n - i - 1, old(proc[..]), perm);
      PassExtendsSorted(s0, proc[..], n - i - 1);
      i := i + 1;
    }
    SortedWhenSplit(proc[..], n - i);
  }

  /** Once at most the first row is left, the whole table is sorted. */
  lemma SortedWhenSplit(s: seq<Process>, lo: nat)
    requires lo <= 1 && SortedFrom(s, lo) && SplitAt(s, lo)
    ensures SortedByArrival(s)
  {
  }

  /** The identity arrangement. */
  lemma ArrangedIdentity(s: seq<Process>)
    ensures Arranged(s, s, seq(|s|, k => k))
  {
  }

  /**
   * One pass of the inner loop of the bubble sort (fcfs.c:131-137) over
   * rows 0..last: the latest arrival among them ends at row `last`; rows after
   * `last`, which arrive no earlier than any of them, are untouched.
   */
  method BubblePass(proc: array<Process>, last: int, ghost o: seq<Process>, ghost perm: seq<int>)
      returns (ghost perm': seq<int>)
    requires 0 <= last < proc.Length
    requires SplitAt(proc[..], last + 1) && Arranged(proc[..], o, perm)
    modifies proc
    ensures LatestAt(proc[..], last) && SplitAt(proc[..], last + 1)
    ensures proc[last + 1..] == old(proc[last + 1..])
    ensures multiset(proc[..]) == multiset(old(proc[..]))
    ensures Arranged(proc[..], o, perm')
  {
    var j := 0;
    perm' := perm;
    while j < last
      invariant 0 <= j <= last
      invariant LatestAt(proc[..], j) && SplitAt(proc[..], last + 1)
      invariant proc[last + 1..] == old(proc[last + 1..])
      invariant multiset(proc[..]) == multiset(old(proc[..]))
      invariant Arranged(proc[..], o, perm')
    {
      ghost var s := proc[..];
      PassStep(s, o, perm', j, last);
      CompareExchange(proc, j);
      perm' := ExchangedPerm(perm', s, j);
      j := j + 1;
    }
  }

  /** The comparison and the exchange through `temp` (fcfs.c:132-136). */
  method CompareExchange(proc: array<Process>, j: int)
    requires 0 <= j && j + 1 < proc.Length
    modifies proc
    ensures proc[..] == CompareExchanged(old(proc[..]), j)
  {
    if proc[j].arrivalTime > proc[j + 1].arrivalTime {
      var temp := proc[j];
      proc[j] := proc[j + 1];
      proc[j + 1] := temp;
    }
  }

  /**
   * The clock when the swap-out scan, started at `from`, reaches row `k` of
   * `t0`: SWAP_TIME has passed for every earlier row it swapped out, which is
   * every earlier row not already swapped out (fcfs.c:157-163).
   */
  function ScanClock(t0: seq<Process>, from: int, k: int): (c: int)
    requires 0 <= k <= |t0|
    ensures from <= c <= from + SWAP_TIME * k
  {
    from + SWAP_TIME * (k - SwappedCount(t0[..k]))
  }

  /**
   * `t1` is table `t0` after the swap-out scan, started at clock `from`, has
   * looked at the rows before `j`: exactly the rows among them that were not
   * yet swapped out are marked swapped out, each at the clock the scan had
   * reached it (fcfs.c:159-160), and every other row is untouched.
   */
  ghost predicate Swept(t0: seq<Process>, t1: seq<Process>, j: int, from: int)
  {
    |t1| == |t0| && 0 <= j <= |t0|
    && forall k :: 0 <= k < |t0|
         ==> if k < j && !t0[k].isSwapped
             then t1[k] == t0[k].(isSwapped := true, swapOutTime := ScanClock(t0, from, k))
             else t1[k] == t0[k]
  }

  lemma SweptSwap(t0: seq<Process>, t1: seq<Process>, j: int, from: int)
    requires Swept(t0, t1, j, from) && j < |t0| && !t0[j].isSwapped
    ensures Swept(t0, t1[j := t0[j].(isSwapped := true, swapOutTime := ScanClock(t0, from, j))], j + 1, from)
  {
  }

  lemma SweptSkip(t0: seq<Process>, t1: seq<Process>, j: int, from: int)
    requires Swept(t0, t1, j, from) && j < |t0| && t0[j].isSwapped
    ensures Swept(t0, t1, j + 1, from)
  {
  }

  /**
   * Where the swap-out scan of fcfs.c:151-173 stops for process `i`, which
   * needs `need` MB while `avail` MB are free: at 0 when the process fits, as
   * the scan then does not run; otherwise right after the first row whose
   * memory makes the process fit, which is a row still resident, or at row
   * `i`. Before `stop` the process never fits.
   */
  ghost predicate Evicts(t: seq<Process>, i: int, stop: int, avail: int, need: int)
  {
    0 <= stop <= i <= |t|
    && (need <= avail ==> stop == 0)
    && (avail < need ==>
          stop == i || (0 < stop && need <= avail + HeldMemory(t[..stop]) && !t[stop - 1].isSwapped))
    && forall m :: 0 <= m < stop ==> avail + HeldMemory(t[..m]) < need
  }

  /**
   * The swap-out scan of calculate_fcfs (fcfs.c:150-178), entered when process
   * `i` needs more memory than is available. It walks the earlier rows in table
   * order; a row that has completed by the current time and is still resident
   * is swapped out (its memory returns to the pool, SWAP_TIME passes, one swap
   * operation is counted), and the scan stops at the first row after which
   * process `i` fits, or after row `i - 1`. `stop` is the index after the last
   * row the scan looked at.
   */
  method SwapOut(proc: array<Process>, i: int, currentTime: int, availableMemory: int)
      returns (time: int, avail: int, swaps: int, ghost stop: int)
    requires 0 <= i < proc.Length
    requires availableMemory < proc[i].memoryRequired
    requires forall j :: 0 <= j < i ==> 0 < proc[j].completionTime <= currentTime
    modifies proc
    ensures Swept(old(proc[..]), proc[..], stop, currentTime)
    ensures Evicts(old(proc[..]), i, stop, availableMemory, old(proc[i].memoryRequired))
    ensures swaps == stop - SwappedCount(old(proc[..stop]))
    ensures time == currentTime + SWAP_TIME * swaps
    ensures avail == availableMemory + HeldMemory(old(proc[..stop]))
    ensures avail + HeldMemory(proc[..i]) == availableMemory + HeldMemory(old(proc[..i]))
    ensures SwappedCount(proc[..i]) == SwappedCount(old(proc[..i])) + swaps
  {
    ghost var s := proc[..];
    time, avail, swaps := currentTime, availableMemory, 0;
    var j := 0;
    stop := i;
    assert s[..0] == [];
    while j < i
      invariant Scanning(s, proc[..], i, j, currentTime, availableMemory, time, avail, swaps)
      invariant avail < s[i].memoryRequired
    {
      if proc[j].completionTime > 0 && proc[j].completionTime <= time && !proc[j].isSwapped {
        ghost var before := proc[..];
        proc[j] := proc[j].(isSwapped := true, swapOutTime := time);
        assert proc[..] == before[j := s[j].(isSwapped := true, swapOutTime := time)];
        ScanSwap(s, before, i, j, currentTime, availableMemory, time, avail, swaps);
        avail := avail + proc[j].memoryRequired;
        time := time + SWAP_TIME;
        swaps := swaps + 1;
        if avail >= proc[i].memoryRequired {
          stop := j + 1;
          return;
        }
      } else {
        ScanSkip(s, proc[..], i, j, currentTime, availableMemory, time, avail, swaps);
      }
      j := j + 1;
    }
  }

  /**
   * The swap-out scan for row `i` of table `s`, started at clock `from` with
   * `avail0` MB free, has looked at the rows before `j` and left table `t`, the
   * clock at `time`, `avail` MB free and `swaps` rows swapped out; before `j`
   * row `i` never fitted.
   */
  ghost predicate Scanning(s: seq<Process>, t: seq<Process>, i: int, j: int, from: int, avail0: int, time: int,
                           avail: int, swaps: int)
  {
    0 <= j <= i < |s| && Swept(s, t, j, from)
    && (forall k :: 0 <= k < i ==> 0 < s[k].completionTime <= from)
    && swaps == j - SwappedCount(s[..j]) && time == from + SWAP_TIME * swaps
    && avail == avail0 + HeldMemory(s[..j])
    && avail + HeldMemory(t[..i]) == avail0 + HeldMemory(s[..i])
    && SwappedCount(t[..i]) == SwappedCount(s[..i]) + swaps
    && forall m :: 0 <= m < j ==> avail0 + HeldMemory(s[..m]) < s[i].memoryRequired
  }

  /** The scan swapping out resident row `j` moves `Scanning` on by one row. */
  lemma ScanSwap(s: seq<Process>, t: seq<Process>, i: int, j: int, from: int, avail0: int, time: int, avail: int,
                 swaps: int)
    requires Scanning(s, t, i, j, from, avail0, time, avail, swaps) && j < i && !t[j].isSwapped
    requires avail < s[i].memoryRequired
    ensures !s[j].isSwapped
    ensures Scanning(s, t[j := s[j].(isSwapped := true, swapOutTime := time)], i, j + 1, from, avail0,
                     time + SWAP_TIME, avail + s[j].memoryRequired, swaps + 1)
  {
    var t' := t[j := s[j].(isSwapped := true, swapOutTime := time)];
    HeldMemoryStep(s, j);
    SwappedCountStep(s, j);
    SweptSwap(s, t, j, from);
    assert t'[..i] == t[..i][j := t'[j]];
    HeldMemoryUpdate(t[..i], j, t'[j]);
    SwappedCountSet(t[..i], j, t'[j]);
  }

  /** The scan passing over row `j`, already swapped out, moves `Scanning` on by one row. */
  lemma ScanSkip(s: seq<Process>, t: seq<Process>, i: int, j: int, from: int, avail0: int, time: int, avail: int,
                 swaps: int)
    requires Scanning(s, t, i, j, from, avail0, time, avail, swaps) && j < i
    requires !(0 < t[j].completionTime <= time && !t[j].isSwapped)
    requires avail < s[i].memoryRequired
    ensures Scanning(s, t, i, j + 1, from, avail0, time, avail, swaps)
  {
    HeldMemoryStep(s, j);
    SwappedCountStep(s, j);
    SweptSkip(s, t, j, from);
  }

  /**
   * calculate_fcfs (fcfs.c:124-206): sort the table by arrival time, then run
   * each process to completion in that order.
   */
  method CalculateFcfs(proc: array<Process>, totalMemory: int)
      returns (totalSwapOperations: int, availableMemory: int, ghost sorted: seq<Process>, ghost perm: seq<int>,
               ghost ev: seq<int>, ghost roomy: bool)
    requires forall k :: 0 <= k < proc.Length ==> proc[k].burstTime >= 0 && !proc[k].isSwapped
    modifies proc
    ensures SortedByArrival(sorted) && Arranged(sorted, old(proc[..]), perm)
    ensures forall k :: 0 <= k < proc.Length ==> Ran(proc[k], sorted[k])
    ensures Paced(proc[..], proc.Length, ev) && Sum(ev) == SwappedCount(proc[..])
    ensures forall k, l :: 0 <= k < l < proc.Length ==> proc[k].completionTime + SWAP_TIME <= proc[l].startTime
    ensures forall k :: 0 <= k < proc.Length && proc[k].isSwapped
              ==> k < proc.Length - 1 && proc[k].completionTime <= proc[k].swapOutTime
    ensures availableMemory + HeldMemory(proc[..]) == totalMemory
    ensures totalSwapOperations == proc.Length + SwappedCount(proc[..])
    ensures 0 < proc.Length ==> !proc[proc.Length - 1].isSwapped
    ensures roomy == (Pending(sorted) <= totalMemory) && (roomy ==> SwappedCount(proc[..]) == 0)
  {
    perm := SortByArrival(proc);
    sorted := proc[..];
    ArrangedRows(sorted, old(proc[..]), perm);
    totalSwapOperations, availableMemory, ev, roomy := RunInOrder(proc, totalMemory, sorted);
  }

  /** The rows of an arrangement are rows of the original table. */
  lemma ArrangedRows(s: seq<Process>, o: seq<Process>, perm: seq<int>)
    requires Arranged(s, o, perm)
    ensures forall k :: 0 <= k < |s| ==> s[k] in o
  {
    forall k | 0 <= k < |s| ensures s[k] in o {
      assert 0 <= perm[k] < |o| && s[k] == o[perm[k]];
    }
  }

  /** Running row `i` after rows 0..i-1 adds its memory and its flag to the prefix totals. */
  lemma LedgerExtend(before: seq<Process>, after: seq<Process>, i: nat)
    requires i < |before| == |after|
    requires forall k :: 0 <= k < i ==> after[k] == before[k]
    ensures HeldMemory(after[..i + 1]) == HeldMemory(before[..i]) + Held(after[i])
    ensures SwappedCount(after[..i + 1]) == SwappedCount(before[..i]) + (if after[i].isSwapped then 1 else 0)
  {
    assert after[..i] == before[..i];
    HeldMemoryStep(after, i);
    SwappedCountStep(after, i);
  }

  /**
   * The table `t` after rows 0..i-1 of the arrival-sorted table `s` have run,
   * the clock standing at `now`: those rows satisfy `Ran` in dispatch order,
   * finished by `now`, and any of them swapped out left after completing;
   * rows from `i` on are as sorted.
   */
  ghost predicate Dispatched(t: seq<Process>, s: seq<Process>, i: int, now: int)
  {
    |t| == |s| && 0 <= i <= |t| && 0 <= now
    && (forall k :: i <= k < |t| ==> t[k] == s[k])
    && (forall k :: 0 <= k < i ==> Ran(t[k], s[k]) && 0 < t[k].completionTime <= now)
    && (forall k, l :: 0 <= k < l < i ==> t[k].completionTime + SWAP_TIME <= t[l].startTime)
    && (forall k :: 0 <= k < i && t[k].isSwapped ==> t[k].completionTime <= t[k].swapOutTime)
  }

  /** The clock moving forward keeps the dispatched prefix intact. */
  lemma DispatchedLater(t: seq<Process>, s: seq<Process>, i: int, now0: int, now1: int)
    requires Dispatched(t, s, i, now0) && now0 <= now1
    ensures Dispatched(t, s, i, now1)
  {
  }

  /** Swap-outs after the clock reached `from` keep the dispatched prefix intact. */
  lemma SweptKeepsDispatched(t0: seq<Process>, t1: seq<Process>, s: seq<Process>, i: int, stop: int, from: int, until: int)
    requires Dispatched(t0, s, i, from) && Swept(t0, t1, stop, from) && stop <= i && from <= until
    ensures Dispatched(t1, s, i, until)
  {
  }

  /**
   * Row `p` after being swapped in at `start - SWAP_TIME` and run from `start`
   * (fcfs.c:180-199): charged SWAP_TIME once, started at `start`, ran its
   * whole burst.
   */
  function Executed(p: Process, start: int): (r: Process)
    ensures start >= p.arrivalTime + SWAP_TIME ==> Ran(r, p)
    ensures r.isSwapped == p.isSwapped && r.swapOutTime == p.swapOutTime
    ensures r.startTime == start && r.completionTime == start + p.burstTime
  {
    p.(swapInTime := start, totalSwapTime := SWAP_TIME, startTime := start, responseTime := start - p.arrivalTime,
       completionTime := start + p.burstTime, turnaroundTime := start + p.burstTime - p.arrivalTime,
       waitingTime := start + p.burstTime - p.arrivalTime - p.burstTime)
  }

  /** Running row `i` no earlier than `now` extends the dispatched prefix by one. */
  lemma RunKeepsDispatched(t1: seq<Process>, t2: seq<Process>, s: seq<Process>, i: int, now: int)
    requires Dispatched(t1, s, i, now) && i < |t1|
    requires s[i].arrivalTime <= now && s[i].burstTime >= 0 && !s[i].isSwapped
    requires t2 == t1[i := Executed(t1[i], now + SWAP_TIME)]
    ensures Dispatched(t2, s, i + 1, now + SWAP_TIME + s[i].burstTime)
  {
    forall k, l | 0 <= k < l < i + 1 ensures t2[k].completionTime + SWAP_TIME <= t2[l].startTime {
      if l == i {
        assert t2[k] == t1[k];
      }
    }
  }

  /**
   * The time row `k` was picked (fcfs.c:145-147): the clock stood at 0 for
   * the first row and at the completion of row `k - 1` otherwise, and waits
   * for the arrival of row `k` when that is later.
   */
  function PickTime(t: seq<Process>, k: int): int
    requires 0 <= k < |t|
  {
    var free := if k == 0 then 0 else t[k - 1].completionTime;
    if free < t[k].arrivalTime then t[k].arrivalTime else free
  }

  /** `p` has the arrival, start and completion times of `q`. */
  predicate SameTiming(p: Process, q: Process)
  {
    p.arrivalTime == q.arrivalTime && p.startTime == q.startTime && p.completionTime == q.completionTime
  }

  /**
   * Each of the rows before `i` started exactly after the `ev[k]` swap-outs
   * its memory check made and its own swap-in, each costing SWAP_TIME,
   * counted from the time it was picked.
   */
  ghost predicate Paced(t: seq<Process>, i: int, ev: seq<int>)
  {
    0 <= i == |ev| <= |t|
    && forall k {:trigger PickTime(t, k)} :: 0 <= k < i
         ==> 0 <= ev[k] && t[k].startTime == PickTime(t, k) + SWAP_TIME * (ev[k] + 1)
  }

  /**
   * One pass that leaves the timing of the earlier rows alone, picks row `i`
   * at the later of the clock `now` (the previous completion, or 0) and its
   * arrival, and starts it after `e` swap-outs and its swap-in extends the
   * pacing by `e`; the swap-outs counted so far are those of the prefix.
   */
  lemma PacedStep(t0: seq<Process>, t2: seq<Process>, i: int, ev: seq<int>, now: int, e: int)
    requires Paced(t0, i, ev) && Sum(ev) == SwappedCount(t0[..i]) && i < |t0| == |t2|
    requires now == (if i == 0 then 0 else t0[i - 1].completionTime)
    requires forall k :: 0 <= k < i ==> SameTiming(t2[k], t0[k])
    requires 0 <= e && t2[i].startTime == (if now < t2[i].arrivalTime then t2[i].arrivalTime else now) + SWAP_TIME * (e + 1)
    requires SwappedCount(t2[..i + 1]) == SwappedCount(t0[..i]) + e
    ensures Paced(t2, i + 1, ev + [e]) && Sum(ev + [e]) == SwappedCount(t2[..i + 1])
  {
    SumAppend(ev, e);
    assert PickTime(t2, i) == (if now < t2[i].arrivalTime then t2[i].arrivalTime else now);
    forall k | 0 <= k < i ensures PickTime(t2, k) == PickTime(t0, k) {
    }
  }

  /**
   * With the swap-outs of a whole run shared among its dispatches, every
   * process started between SWAP_TIME and SWAP_TIME times one more than the
   * number of swapped-out rows after it was picked; in a run that swapped
   * nothing out, exactly SWAP_TIME after.
   */
  lemma {:induction false} PacedBounds(t: seq<Process>, ev: seq<int>)
    requires Paced(t, |t|, ev) && Sum(ev) == SwappedCount(t)
    ensures forall k :: 0 <= k < |t|
              ==> PickTime(t, k) + SWAP_TIME <= t[k].startTime <= PickTime(t, k) + SWAP_TIME * (SwappedCount(t) + 1)
    ensures SwappedCount(t) == 0 ==> forall k :: 0 <= k < |t| ==> t[k].startTime == PickTime(t, k) + SWAP_TIME
  {
    forall k | 0 <= k < |t| ensures 0 <= ev[k] {
      assert t[k].startTime == PickTime(t, k) + SWAP_TIME * (ev[k] + 1);
    }
    forall k | 0 <= k < |t| ensures ev[k] <= SwappedCount(t) {
      SumBoundsElement(ev, k);
    }
  }

  /**
   * The dispatch loop of calculate_fcfs (fcfs.c:144-203) over the sorted
   * table: every process runs once, in table order, each starting only after
   * the one before it has finished and been charged a swap; each starts
   * exactly after the swap-outs made for it (`ev`) and its swap-in, and the
   * swap-outs of all dispatches are the swapped-out rows.
   */
  method RunInOrder(proc: array<Process>, totalMemory: int, ghost s: seq<Process>)
      returns (totalSwapOperations: int, availableMemory: int, ghost ev: seq<int>, ghost roomy: bool)
    requires proc[..] == s && forall k :: 0 <= k < |s| ==> s[k].burstTime >= 0 && !s[k].isSwapped
    modifies proc
    ensures forall k :: 0 <= k < proc.Length ==> Ran(proc[k], s[k])
    ensures Paced(proc[..], proc.Length, ev) && Sum(ev) == SwappedCount(proc[..])
    ensures forall k, l :: 0 <= k < l < proc.Length ==> proc[k].completionTime + SWAP_TIME <= proc[l].startTime
    ensures forall k :: 0 <= k < proc.Length && proc[k].isSwapped
              ==> k < proc.Length - 1 && proc[k].completionTime <= proc[k].swapOutTime
    ensures availableMemory + HeldMemory(proc[..]) == totalMemory
    ensures totalSwapOperations == proc.Length + SwappedCount(proc[..])
    ensures 0 < proc.Length ==> !proc[proc.Length - 1].isSwapped
    ensures roomy == (Pending(s) <= totalMemory) && (roomy ==> SwappedCount(proc[..]) == 0)
  {
    ghost var now;
    totalSwapOperations, availableMemory, ev, now, roomy := RunPasses(proc, totalMemory, s);
  }

  /**
   * The passes of the dispatch loop (fcfs.c:144-203) from the start of the
   * table: afterwards every row has been dispatched and the last one is
   * still resident.
   */
  method RunPasses(proc: array<Process>, totalMemory: int, ghost s: seq<Process>)
      returns (totalSwapOperations: int, availableMemory: int, ghost ev: seq<int>, ghost now: int,
               ghost roomy: bool)
    requires Dispatched(proc[..], s, 0, 0)
    requires forall k :: 0 <= k < |s| ==> s[k].burstTime >= 0 && !s[k].isSwapped
    modifies proc
    ensures Dispatched(proc[..], s, proc.Length, now)
    ensures Paced(proc[..], proc.Length, ev) && Sum(ev) == SwappedCount(proc[..])
    ensures now == (if proc.Length == 0 then 0 else proc[proc.Length - 1].completionTime)
    ensures 0 < proc.Length ==> !proc[proc.Length - 1].isSwapped
    ensures availableMemory + HeldMemory(proc[..]) == totalMemory
    ensures totalSwapOperations == proc.Length + SwappedCount(proc[..])
    ensures roomy == (Pending(s) <= totalMemory) && (roomy ==> SwappedCount(proc[..]) == 0)
  {
    var n := proc.Length;
    var currentTime := 0;
    availableMemory := totalMemory;
    totalSwapOperations := 0;
    ev := [];
    roomy := Pending(s) <= totalMemory;
    PassedStart(proc[..], s, totalMemory, roomy);
    for i := 0 to n
      invariant Passed(proc[..], s, i, currentTime, ev, availableMemory, totalMemory, totalSwapOperations, roomy)
    {
      var swaps;
      currentTime, availableMemory, swaps :=
        Pass(proc, i, currentTime, availableMemory, s, ev, totalMemory, totalSwapOperations, roomy);
      ev := ev + [swaps];
      totalSwapOperations := totalSwapOperations + swaps + 1;
    }
    now := currentTime;
    PassedDone(proc[..], s, now, ev, availableMemory, totalMemory, totalSwapOperations, roomy);
  }

  /**
   * The state the loop of calculate_fcfs carries after `i` passes
   * (fcfs.c:144-202): the first `i` rows have run in order, the last of
   * them is resident, the clock is its completion time, every start is
   * paced by its pass's swap-outs, the pool and the swap counter balance,
   * and a roomy run stays roomy.
   */
  ghost predicate Passed(t: seq<Process>, s: seq<Process>, i: int, now: int, ev: seq<int>, avail: int,
                         total: int, ops: int, roomy: bool)
  {
    0 <= i <= |t| && Dispatched(t, s, i, now) && (0 < i ==> !t[i - 1].isSwapped)
    && now == (if i == 0 then 0 else t[i - 1].completionTime)
    && Paced(t, i, ev) && Sum(ev) == SwappedCount(t[..i])
    && avail + HeldMemory(t[..i]) == total
    && ops == i + SwappedCount(t[..i])
    && (roomy ==> Roomy(t, i, avail))
  }

  /** Before the first pass nothing has run and the whole pool is free. */
  lemma PassedStart(t: seq<Process>, s: seq<Process>, total: int, roomy: bool)
    requires Dispatched(t, s, 0, 0) && roomy == (Pending(s) <= total)
    ensures Passed(t, s, 0, 0, [], total, total, 0, roomy)
  {
    assert Sum([]) == 0 == SwappedCount(t[..0]);
    assert t[0..] == s;
  }

  /** After the last pass `Passed` speaks of the whole table. */
  lemma PassedDone(t: seq<Process>, s: seq<Process>, now: int, ev: seq<int>, avail: int, total: int, ops: int,
                   roomy: bool)
    requires Passed(t, s, |t|, now, ev, avail, total, ops, roomy)
    ensures Dispatched(t, s, |t|, now)
    ensures Paced(t, |t|, ev) && Sum(ev) == SwappedCount(t)
    ensures now == (if |t| == 0 then 0 else t[|t| - 1].completionTime)
    ensures 0 < |t| ==> !t[|t| - 1].isSwapped
    ensures avail + HeldMemory(t) == total
    ensures ops == |t| + SwappedCount(t)
    ensures roomy ==> SwappedCount(t) == 0
  {
    assert t[..|t|] == t;
  }

  /** One pass of the loop of fcfs.c:144-202, as a step of `Passed`. */
  method Pass(proc: array<Process>, i: int, currentTime: int, availableMemory: int, ghost s: seq<Process>,
              ghost ev: seq<int>, ghost totalMemory: int, ghost ops: int, ghost roomy: bool)
      returns (time: int, avail: int, swaps: int)
    requires Passed(proc[..], s, i, currentTime, ev, availableMemory, totalMemory, ops, roomy) && i < proc.Length
    requires s[i].burstTime >= 0 && !s[i].isSwapped
    modifies proc
    ensures Passed(proc[..], s, i + 1, time, ev + [swaps], avail, totalMemory, ops + swaps + 1, roomy)
  {
    ghost var t0 := proc[..];
    ghost var stop;
    time, avail, swaps, stop := RunNext(proc, i, currentTime, availableMemory, s, ev);
    PassKeeps(t0, proc[..], s, i, currentTime, time, ev, swaps, availableMemory, avail, totalMemory, ops, roomy);
  }

  /** One pass of `RunNext` takes `Passed` from `i` rows to `i + 1`. */
  lemma PassKeeps(t0: seq<Process>, t: seq<Process>, s: seq<Process>, i: int, now0: int, now: int, ev: seq<int>,
                  swaps: int, avail0: int, avail: int, total: int, ops: int, roomy: bool)
    requires Passed(t0, s, i, now0, ev, avail0, total, ops, roomy) && i < |t0| == |t|
    requires Dispatched(t, s, i + 1, now) && !t[i].isSwapped && now == t[i].completionTime
    requires Paced(t, i + 1, ev + [swaps]) && Sum(ev + [swaps]) == SwappedCount(t[..i + 1])
    requires avail + HeldMemory(t[..i + 1]) == avail0 + HeldMemory(t0[..i])
    requires SwappedCount(t[..i + 1]) == SwappedCount(t0[..i]) + swaps
    requires Roomy(t0, i, avail0) ==> Roomy(t, i + 1, avail)
    ensures Passed(t, s, i + 1, now, ev + [swaps], avail, total, ops + swaps + 1, roomy)
  {
  }

  /**
   * The memory side and the run of one pass for row `i` of table `t0`,
   * picked at `pick` with `avail0` MB free (fcfs.c:150-186): the swap-out
   * scan stops where `Evicts` says, the `swaps` rows it swaps out are the
   * rows before `stop` still resident, every row but `i` ends as the scan
   * left it, row `i` runs after the swap-outs and its swap-in, and the pool
   * ends with the freed memory, less the memory of `i`.
   */
  ghost predicate Turn(t0: seq<Process>, t2: seq<Process>, i: int, stop: int, pick: int, avail0: int, avail: int,
                       swaps: int)
  {
    0 <= i < |t0| == |t2| && Evicts(t0, i, stop, avail0, t0[i].memoryRequired)
    && swaps == stop - SwappedCount(t0[..stop])
    && Swept(t0, t2[i := t0[i]], stop, pick)
    && t2[i] == Executed(t0[i], pick + SWAP_TIME * (swaps + 1))
    && avail == avail0 + HeldMemory(t0[..stop]) - t0[i].memoryRequired
  }

  /** The memory the rows of `u` will claim when they are swapped in. */
  function Pending(u: seq<Process>): nat
  {
    if u == [] then 0 else Pos(u[0].memoryRequired) + Pending(u[1..])
  }

  /**
   * The free memory covers what the rows from `i` on will claim, and none of
   * the rows before `i` has been swapped out: the state of a run whose total
   * demand fits the pool.
   */
  ghost predicate Roomy(t: seq<Process>, i: int, avail: int)
  {
    0 <= i <= |t| && Pending(t[i..]) <= avail && SwappedCount(t[..i]) == 0
  }

  /** A pass from a roomy state finds its process fitting, swaps nothing out and leaves the state roomy. */
  lemma TurnRoomy(t0: seq<Process>, t2: seq<Process>, i: int, stop: int, pick: int, avail0: int, avail: int,
                  swaps: int)
    requires Turn(t0, t2, i, stop, pick, avail0, avail, swaps) && Roomy(t0, i, avail0)
    requires SwappedCount(t2[..i + 1]) == SwappedCount(t0[..i]) + swaps
    ensures stop == 0 && swaps == 0 && Roomy(t2, i + 1, avail)
  {
    assert t0[i..][0] == t0[i] && t0[i..][1..] == t0[i + 1..];
    assert t0[..0] == [];
    assert forall k :: 0 <= k < |t0| && k != i ==> t2[k] == t2[i := t0[i]][k] == t0[k];
    assert t2[i + 1..] == t0[i + 1..];
  }

  /**
   * One pass of the dispatch loop (fcfs.c:145-202): the clock waits for the
   * arrival of process `i` (the pick time), room is made for it, and it
   * runs: the pass is the `Turn` of row `i` picked then, so the scan stopped
   * where the memory rule says, the rows it swapped out carry the clock at
   * which it reached them, row `i` starts after the `swaps` swap-outs and its
   * own swap-in and stays resident, and the clock moves to its completion.
   * The dispatched prefix grows by row `i`, the pacing by `swaps`, and a
   * roomy state stays roomy.
   */
  method RunNext(proc: array<Process>, i: int, currentTime: int, availableMemory: int, ghost s: seq<Process>,
                 ghost ev: seq<int>)
      returns (time: int, avail: int, swaps: int, ghost stop: int)
    requires 0 <= i < proc.Length && Dispatched(proc[..], s, i, currentTime)
    requires s[i].burstTime >= 0 && !s[i].isSwapped
    requires currentTime == (if i == 0 then 0 else proc[i - 1].completionTime)
    requires Paced(proc[..], i, ev) && Sum(ev) == SwappedCount(proc[..i])
    modifies proc
    ensures Turn(old(proc[..]), proc[..], i, stop,
                 if currentTime < s[i].arrivalTime then s[i].arrivalTime else currentTime,
                 availableMemory, avail, swaps)
    ensures Dispatched(proc[..], s, i + 1, time) && !proc[i].isSwapped
    ensures time == proc[i].completionTime
    ensures Paced(proc[..], i + 1, ev + [swaps]) && Sum(ev + [swaps]) == SwappedCount(proc[..i + 1])
    ensures avail + HeldMemory(proc[..i + 1]) == availableMemory + HeldMemory(old(proc[..i]))
    ensures SwappedCount(proc[..i + 1]) == SwappedCount(old(proc[..i])) + swaps
    ensures Roomy(old(proc[..]), i, availableMemory) ==> Roomy(proc[..], i + 1, avail)
  {
    ghost var t0 := proc[..];
    time := currentTime;
    if time < proc[i].arrivalTime {
      time := proc[i].arrivalTime;
    }
    DispatchedLater(proc[..], s, i, currentTime, time);
    ghost var pick := time;
    time, avail, swaps, stop := MakeRoom(proc, i, time, availableMemory, s);
    ghost var t1, until := proc[..], time;
    time, avail := Dispatch(proc, i, time, avail, s);
    PassPaced(t0, t1, proc[..], i, ev, currentTime, pick, until, stop, swaps);
    PassTurn(t0, t1, proc[..], i, stop, pick, until, availableMemory, avail, swaps);
  }

  /** The scan and the run of one pass make up its `Turn`; a roomy state stays roomy. */
  lemma PassTurn(t0: seq<Process>, t1: seq<Process>, t2: seq<Process>, i: int, stop: int, pick: int, until: int,
                 avail0: int, avail: int, swaps: int)
    requires 0 <= i < |t0| && Evicts(t0, i, stop, avail0, t0[i].memoryRequired)
    requires Swept(t0, t1, stop, pick) && swaps == stop - SwappedCount(t0[..stop])
    requires until == pick + SWAP_TIME * swaps && t2 == t1[i := Executed(t1[i], until + SWAP_TIME)]
    requires avail == avail0 + HeldMemory(t0[..stop]) - t0[i].memoryRequired
    requires SwappedCount(t2[..i + 1]) == SwappedCount(t0[..i]) + swaps
    ensures Turn(t0, t2, i, stop, pick, avail0, avail, swaps)
    ensures Roomy(t0, i, avail0) ==> Roomy(t2, i + 1, avail)
  {
    assert t1[i] == t0[i];
    assert t2[i := t0[i]] == t1;
    if Roomy(t0, i, avail0) {
      TurnRoomy(t0, t2, i, stop, pick, avail0, avail, swaps);
    }
  }

  /**
   * The pacing facts of one pass: row `i`, picked at `pick`, starts after the
   * `swaps` swap-outs of the scan that stopped at `stop` and its swap-in, and
   * the earlier rows keep their timing.
   */
  lemma PassPaced(t0: seq<Process>, t1: seq<Process>, t2: seq<Process>, i: int, ev: seq<int>, now: int, pick: int,
                  until: int, stop: int, swaps: int)
    requires Paced(t0, i, ev) && Sum(ev) == SwappedCount(t0[..i]) && i < |t0| && !t0[i].isSwapped
    requires now == (if i == 0 then 0 else t0[i - 1].completionTime)
    requires pick == (if now < t0[i].arrivalTime then t0[i].arrivalTime else now)
    requires 0 <= stop <= i && Swept(t0, t1, stop, pick) && until == pick + SWAP_TIME * swaps
    requires swaps == stop - SwappedCount(t0[..stop]) && SwappedCount(t1[..i]) == SwappedCount(t0[..i]) + swaps
    requires t2 == t1[i := Executed(t1[i], until + SWAP_TIME)]
    ensures Paced(t2, i + 1, ev + [swaps]) && Sum(ev + [swaps]) == SwappedCount(t2[..i + 1])
    ensures t2[i].startTime == pick + SWAP_TIME * (swaps + 1)
  {
    assert |t0[..stop]| == stop;
    assert t2[..i] == t1[..i];
    SwappedCountStep(t2, i);
    PacedStep(t0, t2, i, ev, now, swaps);
  }

  /**
   * The memory check before process `i` runs (fcfs.c:149-178): when it does
   * not fit, the swap-out scan runs up to row `stop`, swapping out the rows
   * before it that were still resident and charging SWAP_TIME for each;
   * otherwise nothing changes. Either way the rows already run keep their
   * timings and the pool's ledger balances.
   */
  method MakeRoom(proc: array<Process>, i: int, currentTime: int, availableMemory: int, ghost s: seq<Process>)
      returns (time: int, avail: int, swaps: int, ghost stop: int)
    requires 0 <= i < proc.Length && Dispatched(proc[..], s, i, currentTime)
    modifies proc
    ensures Swept(old(proc[..]), proc[..], stop, currentTime)
    ensures Evicts(old(proc[..]), i, stop, availableMemory, old(proc[i].memoryRequired))
    ensures swaps == stop - SwappedCount(old(proc[..stop]))
    ensures time == currentTime + SWAP_TIME * swaps
    ensures avail == availableMemory + HeldMemory(old(proc[..stop]))
    ensures Dispatched(proc[..], s, i, time)
    ensures avail + HeldMemory(proc[..i]) == availableMemory + HeldMemory(old(proc[..i]))
    ensures SwappedCount(proc[..i]) == SwappedCount(old(proc[..i])) + swaps
    ensures availableMemory >= old(proc[i].memoryRequired) ==>
              (proc[..] == old(proc[..]) && time == currentTime && avail == availableMemory && swaps == 0)
  {
    time, avail, swaps, stop := currentTime, availableMemory, 0, 0;
    if proc[i].memoryRequired > availableMemory {
      ghost var t0 := proc[..];
      time, avail, swaps, stop := SwapOut(proc, i, currentTime, availableMemory);
      SweptKeepsDispatched(t0, proc[..], s, i, stop, currentTime, time);
    } else {
      assert proc[..0] == [];
    }
  }

  /**
   * Swap-in and execution of process `i` (fcfs.c:180-199) with the pool
   * charged its memory: the dispatched prefix grows by row `i`, which is
   * resident and not swapped out.
   */
  method Dispatch(proc: array<Process>, i: int, currentTime: int, availableMemory: int, ghost s: seq<Process>)
      returns (time: int, avail: int)
    requires 0 <= i < proc.Length && Dispatched(proc[..], s, i, currentTime)
    requires s[i].arrivalTime <= currentTime && s[i].burstTime >= 0 && !s[i].isSwapped
    modifies proc
    ensures proc[..] == old(proc[..])[i := Executed(old(proc[i]), currentTime + SWAP_TIME)]
    ensures time == proc[i].completionTime
    ensures Dispatched(proc[..], s, i + 1, time) && !proc[i].isSwapped
    ensures avail == availableMemory - old(proc[i].memoryRequired)
    ensures avail + HeldMemory(proc[..i + 1]) == availableMemory + HeldMemory(old(proc[..i]))
    ensures SwappedCount(proc[..i + 1]) == SwappedCount(old(proc[..i]))
  {
    ghost var t1 := proc[..];
    time := RunProcess(proc, i, currentTime);
    avail := availableMemory - proc[i].memoryRequired;
    RunKeepsDispatched(t1, proc[..], s, i, currentTime);
    LedgerExtend(t1, proc[..], i);
  }

  /**
   * Swap-in and execution of process `i` at time `currentTime`
   * (fcfs.c:180-199); the returned time is its completion time.
   */
  method RunProcess(proc: array<Process>, i: int, currentTime: int) returns (time: int)
    requires 0 <= i < proc.Length
    modifies proc
    ensures proc[..] == old(proc[..])[i := Executed(old(proc[i]), currentTime + SWAP_TIME)]
    ensures time == proc[i].completionTime
  {
    time := currentTime + SWAP_TIME;
    proc[i] := proc[i].(swapInTime := time, totalSwapTime := SWAP_TIME);
    proc[i] := proc[i].(startTime := time);
    proc[i] := proc[i].(responseTime := proc[i].startTime - proc[i].arrivalTime);
    time := time + proc[i].burstTime;
    proc[i] := proc[i].(completionTime := time);
    proc[i] := proc[i].(turnaroundTime := proc[i].completionTime - proc[i].arrivalTime);
    proc[i] := proc[i].(waitingTime := proc[i].turnaroundTime - proc[i].burstTime);
  }

  /** The per-process columns that print_performance_metrics adds up. */
  function Waitings(t: seq<Process>): seq<int>
  {
    seq(|t|, k requires 0 <= k < |t| => t[k].waitingTime)
  }

  function Turnarounds(t: seq<Process>): seq<int>
  {
    seq(|t|, k requires 0 <= k < |t| => t[k].turnaroundTime)
  }

  function Bursts(t: seq<Process>): seq<int>
  {
    seq(|t|, k requires 0 <= k < |t| => t[k].burstTime)
  }

  function SwapTimes(t: seq<Process>): seq<int>
  {
    seq(|t|, k requires 0 <= k < |t| => t[k].totalSwapTime)
  }

  function Completions(t: seq<Process>): seq<int>
  {
    seq(|t|, k requires 0 <= k < |t| => t[k].completionTime)
  }

  /**
   * The integer part of print_performance_metrics (fcfs.c:208-222): the sums
   * of waiting, turnaround, burst and swap times, the number of rows swapped
   * out, and the makespan read off the last row. The averages, throughput and
   * utilisation are floating-point quotients of these.
   */
  method PerformanceTotals(proc: array<Process>)
      returns (totalWt: int, totalTat: int, totalBurst: int, makespan: int, totalSwapTime: int, swappedCount: int)
    requires proc.Length > 0
    ensures totalWt == Sum(Waitings(proc[..])) && totalTat == Sum(Turnarounds(proc[..]))
    ensures totalBurst == Sum(Bursts(proc[..])) && totalSwapTime == Sum(SwapTimes(proc[..]))
    ensures swappedCount == SwappedCount(proc[..])
    ensures makespan == proc[proc.Length - 1].completionTime
  {
    var n := proc.Length;
    totalWt, totalTat, totalBurst, totalSwapTime, swappedCount := 0, 0, 0, 0, 0;
    makespan := proc[n - 1].completionTime;
    for i := 0 to n
      invariant totalWt == Sum(Waitings(proc[..])[..i]) && totalTat == Sum(Turnarounds(proc[..])[..i])
      invariant totalBurst == Sum(Bursts(proc[..])[..i]) && totalSwapTime == Sum(SwapTimes(proc[..])[..i])
      invariant swappedCount == SwappedCount(proc[..i])
    {
      SumStep(Waitings(proc[..]), i);
      SumStep(Turnarounds(proc[..]), i);
      SumStep(Bursts(proc[..]), i);
      SumStep(SwapTimes(proc[..]), i);
      SwappedCountStep(proc[..], i);
      assert proc[..][..i + 1] == proc[..i + 1] && proc[..][..i] == proc[..i];
      totalWt := totalWt + proc[i].waitingTime;
      totalTat := totalTat + proc[i].turnaroundTime;
      totalBurst := totalBurst + proc[i].burstTime;
      totalSwapTime := totalSwapTime + proc[i].totalSwapTime;
      if proc[i].isSwapped {
        swappedCount := swappedCount + 1;
      }
    }
    assert Waitings(proc[..])[..n] == Waitings(proc[..]);
    assert Turnarounds(proc[..])[..n] == Turnarounds(proc[..]);
    assert Bursts(proc[..])[..n] == Bursts(proc[..]);
    assert SwapTimes(proc[..])[..n] == SwapTimes(proc[..]);
    assert proc[..n] == proc[..];
  }

  /**
   * After a run, every waiting time equals the response time and is at least
   * SWAP_TIME; total turnaround is total waiting plus total burst, and the
   * total swap time is SWAP_TIME per process (fcfs.c:183, 190-199).
   */
  lemma TotalsAfterRun(t: seq<Process>, d: seq<Process>)
    requires |t| == |d| && forall k :: 0 <= k < |t| ==> Ran(t[k], d[k])
    ensures forall k :: 0 <= k < |t| ==> t[k].waitingTime == t[k].responseTime >= SWAP_TIME
    ensures Sum(Turnarounds(t)) == Sum(Waitings(t)) + Sum(Bursts(t))
    ensures Sum(SwapTimes(t)) == SWAP_TIME * |t|
  {
    SumAdd(Turnarounds(t), Waitings(t), Bursts(t));
    SumConstant(SwapTimes(t), SWAP_TIME);
  }

  /**
   * The makespan read off the last row is the latest completion time: rows run
   * one after another in table order (fcfs.c:211).
   */
  lemma MakespanIsLatest(t: seq<Process>, d: seq<Process>)
    requires |t| == |d| > 0 && forall k :: 0 <= k < |t| ==> Ran(t[k], d[k]) && t[k].burstTime >= 0
    requires forall k, l :: 0 <= k < l < |t| ==> t[k].completionTime + SWAP_TIME <= t[l].startTime
    ensures t[|t| - 1].completionTime == MaxOf(Completions(t))
  {
    var c := Completions(t);
    forall j | 0 <= j < |c| ensures c[j] <= c[|c| - 1] {
      if j < |c| - 1 {
        assert t[j].completionTime + SWAP_TIME <= t[|t| - 1].startTime;
      }
    }
    var k :| 0 <= k < |c| && c[k] == MaxOf(c);
  }
}
