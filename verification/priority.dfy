/**
 * Non-preemptive priority scheduling with memory swapping (PS.c).
 *
 * `calculate_priority` repeats a scan of the process table for the arrived,
 * uncompleted process with the lowest priority value (ties: shorter burst,
 * then lower index). If there is none the clock ticks by one. Otherwise
 * completed, still-resident processes are swapped out in table order until
 * the chosen one fits, the chosen one is swapped in and runs to completion.
 */
module Priority {
  import opened Common

  /** One row of the process table of PS.c; the name and type strings are display only. */
  datatype Process = Process(
    pid: int,
    arrivalTime: int,
    burstTime: int,
    priority: int,
    completionTime: int,
    turnaroundTime: int,
    waitingTime: int,
    responseTime: int,
    startTime: int,
    memoryRequired: int,
    isSwapped: bool,
    totalSwapTime: int,
    isCompleted: bool)

  /** The scan considers a process that has arrived by `now` and has not completed. */
  predicate Eligible(p: Process, now: int)
  {
    p.arrivalTime <= now && !p.isCompleted
  }

  /**
   * Row `i` holding `p` is preferred to row `j` holding `q` (or is the same row):
   * lower priority value, then shorter burst, then lower index.
   */
  predicate Beats(p: Process, i: int, q: Process, j: int)
  {
    p.priority < q.priority
    || (p.priority == q.priority && (p.burstTime < q.burstTime || (p.burstTime == q.burstTime && i <= j)))
  }

  /**
   * `idx` is the scheduling choice for table `s` at time `now`: -1 exactly when
   * no process is eligible, otherwise the eligible row preferred to every
   * other eligible row.
   */
  predicate IsSelection(s: seq<Process>, now: int, idx: int)
  {
    if idx == -1 then
      forall j :: 0 <= j < |s| ==> !Eligible(s[j], now)
    else
      0 <= idx < |s| && Eligible(s[idx], now)
      && forall j :: 0 <= j < |s| && Eligible(s[j], now) ==> Beats(s[idx], idx, s[j], j)
  }

  /** At most one index is the selection: the preference order is total and antisymmetric. */
  lemma SelectionUnique(s: seq<Process>, now: int, a: int, b: int)
    requires IsSelection(s, now, a) && IsSelection(s, now, b)
    ensures a == b
  {
    if a != -1 && b != -1 {
      assert Beats(s[a], a, s[b], b) && Beats(s[b], b, s[a], a);
    }
  }

  /**
   * The choice of a scan over the rows in table order: the last row replaces
   * the choice among the earlier rows when it is eligible and strictly
   * preferred.
   */
  function Pick(s: seq<Process>, now: int): (idx: int)
    ensures -1 <= idx < |s|
  {
    if s == [] then -1
    else
      var i := |s| - 1;
      var r := Pick(s[..i], now);
      if Eligible(s[i], now) && (r == -1 || !Beats(s[r], r, s[i], i)) then i else r
  }

  /** The scan's choice is the selection. */
  lemma {:induction false} PickIsSelection(s: seq<Process>, now: int)
    ensures IsSelection(s, now, Pick(s, now))
  {
    if s != [] {
      var i := |s| - 1;
      var p := s[..i];
      PickIsSelection(p, now);
      assert forall j :: 0 <= j < i ==> p[j] == s[j];
    }
  }

  /** Tables that agree on every field the scan reads have the same choice. */
  lemma PickView(t: seq<Process>, u: seq<Process>, now: int)
    requires SameView(t, u)
    ensures Pick(t, now) == Pick(u, now)
  {
    PickIsSelection(t, now);
    PickIsSelection(u, now);
    ViewSelection(t, u, now, Pick(t, now));
    SelectionUnique(u, now, Pick(t, now), Pick(u, now));
  }

  /**
   * The selection scan of PS.c:78-95 as written: `highest_priority` starts at
   * INT_MAX and a row replaces the candidate only with a strictly smaller
   * priority, so a row whose priority is INT_MAX is never taken while the
   * candidate is still -1. The scan answers -1 exactly when every eligible
   * row has priority INT_MAX, and otherwise makes the intended choice.
   */
  method SelectAsWritten(proc: array<Process>, currentTime: int) returns (idx: int)
    requires forall k :: 0 <= k < proc.Length ==> proc[k].priority <= INT_MAX
    ensures idx == -1 <==> forall j :: 0 <= j < proc.Length && Eligible(proc[j], currentTime) ==> proc[j].priority == INT_MAX
    ensures idx != -1 ==> IsSelection(proc[..], currentTime, idx)
  {
    idx := -1;
    var highestPriority := INT_MAX;
    for i := 0 to proc.Length
      invariant idx == -1 ==> highestPriority == INT_MAX
      invariant idx == -1 <==> forall j :: 0 <= j < i && Eligible(proc[j], currentTime) ==> proc[j].priority == INT_MAX
      invariant idx != -1 ==> 0 <= idx < i && highestPriority == proc[idx].priority < INT_MAX
      invariant idx != -1 ==> IsSelection(proc[..i], currentTime, idx)
    {
      if proc[i].arrivalTime <= currentTime && !proc[i].isCompleted {
        if proc[i].priority < highestPriority {
          highestPriority := proc[i].priority;
          idx := i;
        } else if proc[i].priority == highestPriority && idx != -1 {
          if proc[i].burstTime < proc[idx].burstTime {
            idx := i;
          }
        }
      }
    }
    assert proc[..proc.Length] == proc[..];
  }

  /**
   * A one-process table whose only process has arrived and has priority
   * INT_MAX: the scan as written finds nothing although a process is
   * eligible, so calculate_priority would tick the clock forever.
   */
  method IntMaxNeverSelected() returns (proc: array<Process>, idx: int)
    ensures proc.Length == 1 && Eligible(proc[0], 0)
    ensures idx == -1 && IsSelection(proc[..], 0, 0)
  {
    proc := new Process[1];
    proc[0] := Process(1, 0, 5, INT_MAX, 0, 0, 0, 0, 0, 100, false, 0, false);
    idx := SelectAsWritten(proc, 0);
  }

  /**
   * The selection scan with the evident intent of PS.c:78-95: the first
   * eligible row becomes the candidate whatever its priority, and a later
   * row replaces it when it has a smaller priority or an equal priority and
   * a strictly shorter burst. The answer is the scan's choice `Pick`, which
   * is the selection.
   */
  method SelectHighestPriority(proc: array<Process>, currentTime: int) returns (idx: int)
    ensures idx == Pick(proc[..], currentTime) && IsSelection(proc[..], currentTime, idx)
  {
    idx := -1;
    for i := 0 to proc.Length
      invariant idx == Pick(proc[..i], currentTime)
    {
      assert proc[..i + 1][..i] == proc[..i];
      if proc[i].arrivalTime <= currentTime && !proc[i].isCompleted {
        if idx == -1 || proc[i].priority < proc[idx].priority {
          idx := i;
        } else if proc[i].priority == proc[idx].priority && proc[i].burstTime < proc[idx].burstTime {
          idx := i;
        }
      }
    }
    assert proc[..proc.Length] == proc[..];
    PickIsSelection(proc[..], currentTime);
  }

  /** A completed process that still holds its memory. */
  predicate Resident(p: Process)
  {
    p.isCompleted && !p.isSwapped
  }

  function Held(p: Process): int
  {
    if Resident(p) then p.memoryRequired else 0
  }

  /** Memory held by the resident processes of `s`. */
  function HeldMemory(s: seq<Process>): int
  {
    Sum(seq(|s|, k requires 0 <= k < |s| => Held(s[k])))
  }

  /** Number of resident processes of `s`. */
  function ResidentCount(s: seq<Process>): nat
  {
    Count(seq(|s|, k requires 0 <= k < |s| => Resident(s[k])))
  }

  /** Number of completed processes of `s`. */
  function CompletedCount(s: seq<Process>): nat
  {
    Count(seq(|s|, k requires 0 <= k < |s| => s[k].isCompleted))
  }

  /** Only completed processes have been swapped out. */
  predicate OnlyCompletedSwapped(s: seq<Process>)
  {
    forall k :: 0 <= k < |s| ==> !s[k].isSwapped || s[k].isCompleted
  }

  lemma HeldMemoryStep(s: seq<Process>, i: nat)
    requires i < |s|
    ensures HeldMemory(s[..i + 1]) == HeldMemory(s[..i]) + Held(s[i])
  {
    var h := seq(|s|, k requires 0 <= k < |s| => Held(s[k]));
    assert seq(i + 1, k requires 0 <= k < i + 1 => Held(s[..i + 1][k])) == h[..i + 1];
    assert seq(i, k requires 0 <= k < i => Held(s[..i][k])) == h[..i];
    SumStep(h, i);
  }

  lemma HeldMemoryUpdate(s: seq<Process>, k: nat, p: Process)
    requires k < |s|
    ensures HeldMemory(s[k := p]) == HeldMemory(s) - Held(s[k]) + Held(p)
  {
    var h := seq(|s|, j requires 0 <= j < |s| => Held(s[j]));
    assert seq(|s|, j requires 0 <= j < |s| => Held(s[k := p][j])) == h[k := Held(p)];
    SumUpdate(h, k, Held(p));
  }

  lemma ResidentCountStep(s: seq<Process>, i: nat)
    requires i < |s|
    ensures ResidentCount(s[..i + 1]) == ResidentCount(s[..i]) + (if Resident(s[i]) then 1 else 0)
  {
    var f := seq(|s|, k requires 0 <= k < |s| => Resident(s[k]));
    assert seq(i + 1, k requires 0 <= k < i + 1 => Resident(s[..i + 1][k])) == f[..i + 1];
    assert seq(i, k requires 0 <= k < i => Resident(s[..i][k])) == f[..i];
    CountStep(f, i);
  }

  /**
   * The swap-out scan of calculate_priority (PS.c:102-117), entered when the
   * chosen process `idx` needs more memory than is available. It walks the
   * whole table in order; every resident (completed, not yet swapped) row it
   * meets is swapped out, returning its memory and costing SWAP_TIME, and the
   * scan stops as soon as process `idx` fits. `stop` is the index after the
   * last row the scan looked at.
   */
  method SwapOut(proc: array<Process>, idx: int, currentTime: int, availableMemory: int)
      returns (time: int, avail: int, ghost stop: int)
    requires 0 <= idx < proc.Length
    requires availableMemory < proc[idx].memoryRequired
    modifies proc
    ensures Swept(old(proc[..]), proc[..], stop)
    ensures time == currentTime + SWAP_TIME * ResidentCount(old(proc[..stop]))
    ensures avail == availableMemory + HeldMemory(old(proc[..stop]))
    ensures avail + HeldMemory(proc[..]) == availableMemory + HeldMemory(old(proc[..]))
    ensures stop == proc.Length || (avail >= proc[idx].memoryRequired && Resident(old(proc[stop - 1])))
    ensures forall m :: 0 <= m < stop ==> availableMemory + HeldMemory(old(proc[..m])) < proc[idx].memoryRequired
  {
    ghost var s := proc[..];
    var n := proc.Length;
    time, avail := currentTime, availableMemory;
    var j := 0;
    stop := n;
    while j < n
      invariant Swept(s, proc[..], j)
      invariant proc[idx].memoryRequired == s[idx].memoryRequired
      invariant time == currentTime + SWAP_TIME * ResidentCount(s[..j])
      invariant avail == availableMemory + HeldMemory(s[..j])
      invariant avail + HeldMemory(proc[..]) == availableMemory + HeldMemory(s)
      invariant avail < proc[idx].memoryRequired
      invariant forall m :: 0 <= m <= j ==> availableMemory + HeldMemory(s[..m]) < proc[idx].memoryRequired
    {
      HeldMemoryStep(s, j);
      ResidentCountStep(s, j);
      ghost var before := proc[..];
      if proc[j].isCompleted && !proc[j].isSwapped {
        proc[j] := proc[j].(isSwapped := true);
        assert proc[..] == before[j := s[j].(isSwapped := true)];
        SweptSwap(s, before, j);
        HeldMemoryUpdate(before, j, proc[j]);
        avail := avail + proc[j].memoryRequired;
        time := time + SWAP_TIME;
        if avail >= proc[idx].memoryRequired {
          stop := j + 1;
          return;
        }
      } else {
        SweptSkip(s, before, j);
      }
      j := j + 1;
    }
  }

  /**
   * `t1` is table `t0` after the swap-out scan has looked at the rows before
   * `j`: exactly the resident rows among them are marked swapped out, every
   * other row is untouched.
   */
  ghost predicate Swept(t0: seq<Process>, t1: seq<Process>, j: int)
  {
    |t1| == |t0| && 0 <= j <= |t0|
    && forall k :: 0 <= k < |t0|
         ==> t1[k] == (if k < j && Resident(t0[k]) then t0[k].(isSwapped := true) else t0[k])
  }

  lemma SweptSwap(t0: seq<Process>, t1: seq<Process>, j: int)
    requires Swept(t0, t1, j) && j < |t0| && Resident(t0[j])
    ensures Swept(t0, t1[j := t0[j].(isSwapped := true)], j + 1)
  {
  }

  lemma SweptSkip(t0: seq<Process>, t1: seq<Process>, j: int)
    requires Swept(t0, t1, j) && j < |t0| && !Resident(t0[j])
    ensures Swept(t0, t1, j + 1)
  {
  }

  /**
   * Where the swap-out scan of PS.c:103-117 stops for a process needing
   * `need` MB while `avail` MB are free: at 0 when the process fits, as the
   * scan then does not run; otherwise right after the first row whose
   * memory makes the process fit, which is a resident row, or at the end of
   * the table. Before `stop` the process never fits.
   */
  ghost predicate Evicts(t: seq<Process>, stop: int, avail: int, need: int)
  {
    0 <= stop <= |t|
    && (need <= avail ==> stop == 0)
    && (avail < need ==>
          stop == |t| || (0 < stop && need <= avail + HeldMemory(t[..stop]) && Resident(t[stop - 1])))
    && forall m :: 0 <= m < stop ==> avail + HeldMemory(t[..m]) < need
  }

  /** The scan's stopping row is determined by the table, the free memory and the requirement. */
  lemma EvictsUnique(t: seq<Process>, s1: int, s2: int, avail: int, need: int)
    requires Evicts(t, s1, avail, need) && Evicts(t, s2, avail, need)
    ensures s1 == s2
  {
  }

  /**
   * The memory side of one dispatch of row `idx` from table `t0` with
   * `avail0` MB free (PS.c:102-122): the swap-out scan stops where `Evicts`
   * says, the `e` rows it swaps out are the resident rows before `stop`,
   * every row but `idx` ends as the scan left it, and the pool ends with the
   * freed memory, less the memory of `idx`.
   */
  ghost predicate Turn(t0: seq<Process>, t2: seq<Process>, idx: int, stop: int, avail0: int, avail: int, e: int)
  {
    0 <= idx < |t0| == |t2| && Evicts(t0, stop, avail0, t0[idx].memoryRequired)
    && e == ResidentCount(t0[..stop])
    && Swept(t0, t2[idx := t0[idx]], stop)
    && avail == avail0 + HeldMemory(t0[..stop]) - t0[idx].memoryRequired
  }

  /** Memory a row will still claim: its requirement, unless it has completed or needs none. */
  function Claim(p: Process): nat
  {
    if p.isCompleted then 0 else Pos(p.memoryRequired)
  }

  /** Memory the rows not yet completed will still claim. */
  function Pending(t: seq<Process>): nat
  {
    if t == [] then 0 else Pending(t[..|t| - 1]) + Claim(t[|t| - 1])
  }

  /** A row's claim is part of the pending total. */
  lemma {:induction false} PendingBound(t: seq<Process>, k: nat)
    requires k < |t|
    ensures Claim(t[k]) <= Pending(t)
    decreases |t|
  {
    if k < |t| - 1 {
      PendingBound(t[..|t| - 1], k);
    }
  }

  /** Tables whose rows claim the same have the same pending total. */
  lemma {:induction false} PendingSame(t: seq<Process>, u: seq<Process>)
    requires |t| == |u| && forall k :: 0 <= k < |t| ==> Claim(u[k]) == Claim(t[k])
    ensures Pending(u) == Pending(t)
    decreases |t|
  {
    if t != [] {
      PendingSame(t[..|t| - 1], u[..|u| - 1]);
    }
  }

  /** Changing the claim of one row changes the pending total by the difference. */
  lemma {:induction false} PendingChange(t: seq<Process>, u: seq<Process>, idx: nat)
    requires |t| == |u| && idx < |t| && forall k :: 0 <= k < |t| && k != idx ==> Claim(u[k]) == Claim(t[k])
    ensures Pending(u) == Pending(t) - Claim(t[idx]) + Claim(u[idx])
    decreases |t|
  {
    if idx == |t| - 1 {
      PendingSame(t[..|t| - 1], u[..|u| - 1]);
    } else {
      PendingChange(t[..|t| - 1], u[..|u| - 1], idx);
    }
  }

  /**
   * The free memory covers everything still to be claimed, and nothing has
   * been swapped out: the state of a run whose total demand fits the pool.
   */
  ghost predicate Roomy(t: seq<Process>, avail: int)
  {
    Pending(t) <= avail && SwappedCount(t) == 0
  }

  /**
   * A dispatch from a roomy state finds its process fitting, swaps nothing
   * out and leaves the state roomy.
   */
  lemma TurnRoomy(t0: seq<Process>, t2: seq<Process>, idx: int, stop: int, avail0: int, avail: int, e: int)
    requires Turn(t0, t2, idx, stop, avail0, avail, e) && Roomy(t0, avail0)
    requires !t0[idx].isCompleted && t2[idx].isCompleted && t2[idx].memoryRequired == t0[idx].memoryRequired
    requires SwappedCount(t2) == SwappedCount(t0) + e
    ensures stop == 0 && e == 0 && Roomy(t2, avail)
  {
    PendingBound(t0, idx);
    assert t0[..0] == [];
    assert forall k :: 0 <= k < |t0| && k != idx ==> t2[k] == t2[idx := t0[idx]][k] == t0[k];
    PendingChange(t0, t2, idx);
  }

  /**
   * The row of a process after it has run (PS.c:120-137): swapped in once,
   * executed for its whole burst and marked completed, with the timing
   * identities of the source.
   */
  predicate Done(p: Process, d: Process)
  {
    p.pid == d.pid && p.arrivalTime == d.arrivalTime && p.burstTime == d.burstTime
    && p.priority == d.priority && p.memoryRequired == d.memoryRequired
    && p.isCompleted && p.totalSwapTime == SWAP_TIME
    && p.startTime >= p.arrivalTime + SWAP_TIME
    && p.responseTime == p.startTime - p.arrivalTime
    && p.completionTime == p.startTime + p.burstTime
    && p.turnaroundTime == p.completionTime - p.arrivalTime
    && p.waitingTime == p.turnaroundTime - p.burstTime
  }

  /**
   * Row `p` after being swapped in and run from time `start`: it was charged
   * SWAP_TIME once, started at `start`, ran its whole burst and is completed.
   */
  function Executed(p: Process, start: int): (r: Process)
    ensures start >= p.arrivalTime + SWAP_TIME ==> Done(r, p)
    ensures r.isSwapped == p.isSwapped && r.completionTime == start + p.burstTime
  {
    p.(totalSwapTime := SWAP_TIME, startTime := start, responseTime := start - p.arrivalTime,
       completionTime := start + p.burstTime, turnaroundTime := start + p.burstTime - p.arrivalTime,
       waitingTime := start + p.burstTime - p.arrivalTime - p.burstTime, isCompleted := true)
  }

  /** The table `s` with exactly the rows listed in `done` marked completed. */
  function Marked(s: seq<Process>, done: seq<int>): seq<Process>
  {
    seq(|s|, k requires 0 <= k < |s| => s[k].(isCompleted := k in done))
  }

  /** `t` and `u` agree on every field the selection scan reads. */
  predicate SameView(t: seq<Process>, u: seq<Process>)
  {
    |t| == |u|
    && forall k :: 0 <= k < |t|
         ==> t[k].arrivalTime == u[k].arrivalTime && t[k].burstTime == u[k].burstTime
             && t[k].priority == u[k].priority && t[k].isCompleted == u[k].isCompleted
  }

  lemma ViewSelection(t: seq<Process>, u: seq<Process>, now: int, idx: int)
    requires SameView(t, u) && IsSelection(t, now, idx)
    ensures IsSelection(u, now, idx)
  {
  }

  predicate Distinct(o: seq<int>)
  {
    forall a, b :: 0 <= a < b < |o| ==> o[a] != o[b]
  }

  predicate InRange(o: seq<int>, n: int)
  {
    forall a :: 0 <= a < |o| ==> 0 <= o[a] < n
  }

  /** The time the CPU became free before the `a`-th dispatch: 0, or the previous completion. */
  function PrevEnd(t: seq<Process>, order: seq<int>, a: int): int
    requires 0 <= a <= |order| && InRange(order, |t|)
  {
    if a == 0 then 0 else t[order[a - 1]].completionTime
  }

  /**
   * Bookkeeping of calculate_priority relative to the initial table `s`: the
   * processes dispatched so far are the distinct rows `order`, exactly the
   * completed rows of `t`; the other rows are as they were.
   */
  ghost predicate Shape(t: seq<Process>, s: seq<Process>, order: seq<int>, picked: seq<int>)
  {
    |t| == |s| && |picked| == |order|
    && Distinct(order) && InRange(order, |t|)
    && SameView(t, Marked(s, order))
    && (forall k :: 0 <= k < |t| && !t[k].isCompleted ==> t[k] == s[k])
  }

  /**
   * Every dispatched process, picked at time `picked[a]`, was swapped in no
   * earlier than SWAP_TIME later and ran its whole burst.
   */
  ghost predicate Timing(t: seq<Process>, s: seq<Process>, order: seq<int>, picked: seq<int>)
  {
    |t| == |s| && |picked| == |order| && InRange(order, |t|)
    && forall a :: 0 <= a < |order|
         ==> Done(t[order[a]], s[order[a]]) && picked[a] + SWAP_TIME <= t[order[a]].startTime
  }

  /** Each dispatched process was the scan's choice among those not dispatched before it. */
  ghost predicate Choices(s: seq<Process>, order: seq<int>, picked: seq<int>)
  {
    |picked| == |order|
    && forall a {:trigger Marked(s, order[..a])} :: 0 <= a < |order| ==> order[a] == Pick(Marked(s, order[..a]), picked[a])
  }

  /**
   * Each pick, and the current time `now`, came no earlier than the previous
   * completion, and the clock ticked past that completion only when the scan
   * found nothing.
   */
  ghost predicate Idling(t: seq<Process>, s: seq<Process>, order: seq<int>, picked: seq<int>, now: int)
  {
    |picked| == |order| && InRange(order, |t|)
    && (forall a {:trigger PrevEnd(t, order, a)} :: 0 <= a < |order|
          ==> PrevEnd(t, order, a) <= picked[a]
              && (picked[a] == PrevEnd(t, order, a) || Pick(Marked(s, order[..a]), picked[a] - 1) == -1))
    && PrevEnd(t, order, |order|) <= now
    && (now == PrevEnd(t, order, |order|) || Pick(Marked(s, order), now - 1) == -1)
  }

  /** The state of calculate_priority at the head of its loop. */
  ghost predicate Progress(t: seq<Process>, s: seq<Process>, order: seq<int>, picked: seq<int>, now: int)
  {
    Shape(t, s, order, picked) && Timing(t, s, order, picked)
    && Choices(s, order, picked) && Idling(t, s, order, picked, now)
  }

  /**
   * Dispatch `a`, picked at `picked[a]`, started exactly after the `ev[a]`
   * swap-outs its memory check made and its own swap-in, each costing
   * SWAP_TIME.
   */
  ghost predicate Paced(t: seq<Process>, order: seq<int>, picked: seq<int>, ev: seq<int>)
  {
    |picked| == |order| == |ev| && InRange(order, |t|)
    && forall a :: 0 <= a < |order|
         ==> 0 <= ev[a] && t[order[a]].startTime == picked[a] + SWAP_TIME * (ev[a] + 1)
  }

  /**
   * With the swap-outs of a whole run shared among its dispatches, every
   * process started between SWAP_TIME and SWAP_TIME times one more than the
   * number of swapped-out rows after being picked; in a run that swapped
   * nothing out, exactly SWAP_TIME after.
   */
  lemma {:induction false} PacedBounds(t: seq<Process>, order: seq<int>, picked: seq<int>, ev: seq<int>)
    requires Paced(t, order, picked, ev) && Sum(ev) == SwappedCount(t)
    ensures forall a :: 0 <= a < |order|
              ==> picked[a] + SWAP_TIME <= t[order[a]].startTime <= picked[a] + SWAP_TIME * (SwappedCount(t) + 1)
    ensures SwappedCount(t) == 0 ==> forall a :: 0 <= a < |order| ==> t[order[a]].startTime == picked[a] + SWAP_TIME
  {
    forall a | 0 <= a < |order| ensures 0 <= ev[a] <= SwappedCount(t) {
      SumBoundsElement(ev, a);
    }
  }

  /**
   * A dispatch of the scan's choice `idx` at `now` that leaves every other
   * start time alone and starts `idx` after `e` swap-outs and its swap-in
   * extends the pacing of the schedule by one entry.
   */
  lemma PacedExtend(t0: seq<Process>, t2: seq<Process>, s: seq<Process>, order: seq<int>, picked: seq<int>,
                    ev: seq<int>, now: int, idx: int, e: int)
    requires Shape(t0, s, order, picked) && Paced(t0, order, picked, ev)
    requires idx == Pick(t0, now) && idx != -1 && 0 <= e
    requires |t2| == |t0| && forall k :: 0 <= k < |t0| && k != idx ==> t2[k].startTime == t0[k].startTime
    requires t2[idx].startTime == now + SWAP_TIME * (e + 1)
    ensures Paced(t2, order + [idx], picked + [now], ev + [e])
  {
    PickIsSelection(t0, now);
    assert !t0[idx].isCompleted && t0[idx].isCompleted == Marked(s, order)[idx].isCompleted;
    forall a | 0 <= a < |order| ensures order[a] != idx {
      assert order[a] in order;
    }
  }

  /**
   * A dispatch whose swap-out scan stopped at `stop` and whose run of the
   * scan's choice `idx` started right after those swap-outs and its swap-in:
   * the growth `e` of the swapped count is the number of swap-outs, the
   * pacing grows by `e`, and the process completes `e + 1` swaps and its
   * burst after being picked.
   */
  lemma DispatchPaced(t0: seq<Process>, t1: seq<Process>, t2: seq<Process>, s: seq<Process>, order: seq<int>,
                      picked: seq<int>, ev: seq<int>, now: int, idx: int, stop: int, start: int, avail0: int,
                      avail: int, e: int)
    requires Shape(t0, s, order, picked) && Paced(t0, order, picked, ev) && OnlyCompletedSwapped(t0)
    requires idx == Pick(t0, now) && idx != -1 && Evicts(t0, stop, avail0, t0[idx].memoryRequired)
    requires Swept(t0, t1, stop) && start == now + SWAP_TIME * ResidentCount(t0[..stop]) + SWAP_TIME
    requires avail == avail0 + HeldMemory(t0[..stop]) - t0[idx].memoryRequired
    requires t2 == t1[idx := Executed(t1[idx], start)] && e == SwappedCount(t2) - SwappedCount(t0)
    ensures Paced(t2, order + [idx], picked + [now], ev + [e])
    ensures t2[idx].completionTime == now + SWAP_TIME * (e + 1) + t0[idx].burstTime
    ensures Turn(t0, t2, idx, stop, avail0, avail, e) && !t2[idx].isSwapped
    ensures Roomy(t0, avail0) ==> Roomy(t2, avail)
  {
    SweptCount(t0, t1, stop);
    SwappedCountKeep(t1, idx, t2[idx]);
    PacedExtend(t0, t2, s, order, picked, ev, now, idx, e);
    DispatchTurn(t0, t1, t2, now, idx, stop, start, avail0, avail, e);
  }

  /**
   * The memory check and the run of the scan's choice `idx` give the
   * dispatch's `Turn`; the process stays resident, and a roomy state stays
   * roomy.
   */
  lemma DispatchTurn(t0: seq<Process>, t1: seq<Process>, t2: seq<Process>, now: int, idx: int, stop: int,
                     start: int, avail0: int, avail: int, e: int)
    requires idx == Pick(t0, now) && idx != -1 && OnlyCompletedSwapped(t0)
    requires Evicts(t0, stop, avail0, t0[idx].memoryRequired) && Swept(t0, t1, stop)
    requires avail == avail0 + HeldMemory(t0[..stop]) - t0[idx].memoryRequired
    requires t2 == t1[idx := Executed(t1[idx], start)] && e == SwappedCount(t2) - SwappedCount(t0)
    ensures Turn(t0, t2, idx, stop, avail0, avail, e) && !t2[idx].isSwapped
    ensures Roomy(t0, avail0) ==> Roomy(t2, avail)
  {
    PickIsSelection(t0, now);
    assert t1[idx] == t0[idx];
    SweptCount(t0, t1, stop);
    SwappedCountKeep(t1, idx, t2[idx]);
    assert t2[idx := t0[idx]] == t1;
    if Roomy(t0, avail0) {
      TurnRoomy(t0, t2, idx, stop, avail0, avail, e);
    }
  }

  /**
   * Running the scan's choice `idx` from `start`, SWAP_TIME or more after it
   * was picked at `now`, extends the schedule by `idx`, completes one more
   * row and makes its memory resident.
   */
  lemma DispatchProgress(t0: seq<Process>, t1: seq<Process>, t2: seq<Process>, s: seq<Process>, order: seq<int>,
                         picked: seq<int>, now: int, idx: int, stop: int, start: int)
    requires Progress(t0, s, order, picked, now) && OnlyCompletedSwapped(t0)
    requires idx == Pick(t0, now) && idx != -1 && Swept(t0, t1, stop)
    requires now + SWAP_TIME <= start && t2 == t1[idx := Executed(t1[idx], start)]
    ensures Progress(t2, s, order + [idx], picked + [now], t2[idx].completionTime)
    ensures CompletedCount(t2) == CompletedCount(t0) + 1 && OnlyCompletedSwapped(t2)
    ensures HeldMemory(t2) == HeldMemory(t1) + t1[idx].memoryRequired
  {
    SwapFacts(t0, t1, s, order, picked, now, idx, stop);
    RunFacts(t1, t2, now, idx, start);
    RunKeepsProgress(t1, t2, s, order, picked, now, idx);
    RunLedger(t1, t2, idx);
  }

  /** Before the first pass nothing is dispatched, completed or resident. */
  lemma ProgressStart(s: seq<Process>)
    requires forall k :: 0 <= k < |s| ==> !s[k].isCompleted && !s[k].isSwapped
    ensures Progress(s, s, [], [], 0) && OnlyCompletedSwapped(s)
    ensures CompletedCount(s) == 0 && HeldMemory(s) == 0 && SwappedCount(s) == 0
  {
    assert SameView(s, Marked(s, []));
    CountNone(seq(|s|, k requires 0 <= k < |s| => s[k].isCompleted));
    CountNone(seq(|s|, k requires 0 <= k < |s| => s[k].isSwapped));
    SumConstant(seq(|s|, k requires 0 <= k < |s| => Held(s[k])), 0);
  }

  /** An idle tick: when the scan finds nothing at `now` the clock moves to `now + 1`. */
  lemma IdleKeepsProgress(t: seq<Process>, s: seq<Process>, order: seq<int>, picked: seq<int>, now: int)
    requires Progress(t, s, order, picked, now) && Pick(t, now) == -1
    ensures Progress(t, s, order, picked, now + 1)
  {
    PickView(t, Marked(s, order), now);
  }

  /** Swapping out resident rows changes nothing the schedule depends on. */
  lemma SwapKeepsProgress(t0: seq<Process>, t1: seq<Process>, s: seq<Process>, order: seq<int>, picked: seq<int>,
                          now: int, stop: int)
    requires Progress(t0, s, order, picked, now) && Swept(t0, t1, stop)
    ensures Progress(t1, s, order, picked, now)
  {
    forall k | 0 <= k < |t1|
      ensures t1[k].isCompleted == t0[k].isCompleted && (!t1[k].isCompleted ==> t1[k] == t0[k])
      ensures t1[k].arrivalTime == t0[k].arrivalTime && t1[k].burstTime == t0[k].burstTime
      ensures t1[k].priority == t0[k].priority && t1[k].completionTime == t0[k].completionTime
      ensures t1[k].startTime == t0[k].startTime
      ensures Done(t0[k], s[k]) ==> Done(t1[k], s[k])
    {
    }
    assert Shape(t1, s, order, picked);
    assert Timing(t1, s, order, picked);
    forall a | 0 <= a <= |order| ensures PrevEnd(t1, order, a) == PrevEnd(t0, order, a) {
    }
  }

  lemma RunKeepsShape(t1: seq<Process>, t2: seq<Process>, s: seq<Process>, order: seq<int>, picked: seq<int>,
                      now: int, idx: int)
    requires Shape(t1, s, order, picked) && 0 <= idx < |t1| && !t1[idx].isCompleted
    requires |t2| == |t1| && forall k :: 0 <= k < |t2| && k != idx ==> t2[k] == t1[k]
    requires Done(t2[idx], t1[idx])
    ensures Shape(t2, s, order + [idx], picked + [now])
  {
    var order' := order + [idx];
    assert idx !in order;
    forall k | 0 <= k < |t2| ensures t2[k].isCompleted == Marked(s, order')[k].isCompleted {
      if k != idx {
        assert (k in order') == (k in order);
      }
    }
  }

  lemma RunKeepsTiming(t1: seq<Process>, t2: seq<Process>, s: seq<Process>, order: seq<int>, picked: seq<int>,
                       now: int, idx: int)
    requires Timing(t1, s, order, picked) && 0 <= idx < |t1| && idx !in order && t1[idx] == s[idx]
    requires |t2| == |t1| && forall k :: 0 <= k < |t2| && k != idx ==> t2[k] == t1[k]
    requires Done(t2[idx], t1[idx]) && now + SWAP_TIME <= t2[idx].startTime
    ensures Timing(t2, s, order + [idx], picked + [now])
  {
    var order', picked' := order + [idx], picked + [now];
    forall a | 0 <= a < |order'|
      ensures Done(t2[order'[a]], s[order'[a]]) && picked'[a] + SWAP_TIME <= t2[order'[a]].startTime
    {
      if a < |order| {
        assert order[a] != idx && t2[order'[a]] == t1[order[a]];
      }
    }
  }

  /** Appending a row that was not dispatched before leaves the earlier completion times in place. */
  lemma PrevEndExtend(t1: seq<Process>, t2: seq<Process>, order: seq<int>, idx: int)
    requires InRange(order, |t1|) && 0 <= idx < |t1| && idx !in order
    requires |t2| == |t1| && forall k :: 0 <= k < |t2| && k != idx ==> t2[k] == t1[k]
    ensures forall a :: 0 <= a <= |order| ==> PrevEnd(t2, order + [idx], a) == PrevEnd(t1, order, a)
    ensures PrevEnd(t2, order + [idx], |order| + 1) == t2[idx].completionTime
  {
    forall a | 0 <= a <= |order| ensures PrevEnd(t2, order + [idx], a) == PrevEnd(t1, order, a) {
      if a > 0 {
        assert order[a - 1] != idx;
      }
    }
  }

  lemma RunKeepsIdling(t1: seq<Process>, t2: seq<Process>, s: seq<Process>, order: seq<int>, picked: seq<int>,
                       now: int, idx: int)
    requires Idling(t1, s, order, picked, now) && 0 <= idx < |t1| && idx !in order
    requires |t2| == |t1| && forall k :: 0 <= k < |t2| && k != idx ==> t2[k] == t1[k]
    ensures Idling(t2, s, order + [idx], picked + [now], t2[idx].completionTime)
  {
    var order' := order + [idx];
    assert order'[..|order|] == order;
    PrevEndExtend(t1, t2, order, idx);
    forall a | 0 <= a < |order| ensures order'[..a] == order[..a] {
    }
  }

  lemma ChoicesExtend(s: seq<Process>, order: seq<int>, picked: seq<int>, now: int, idx: int)
    requires Choices(s, order, picked) && idx == Pick(Marked(s, order), now)
    ensures Choices(s, order + [idx], picked + [now])
  {
    var order' := order + [idx];
    assert order'[..|order|] == order;
    forall a | 0 <= a < |order| ensures order'[..a] == order[..a] {
    }
  }

  /**
   * Dispatching the scan's choice `idx`, picked at time `now` and swapped in
   * no earlier than SWAP_TIME later, extends the schedule by one process.
   */
  lemma RunKeepsProgress(t1: seq<Process>, t2: seq<Process>, s: seq<Process>, order: seq<int>, picked: seq<int>,
                         now: int, idx: int)
    requires Progress(t1, s, order, picked, now) && idx == Pick(t1, now) && idx != -1
    requires |t2| == |t1| && forall k :: 0 <= k < |t2| && k != idx ==> t2[k] == t1[k]
    requires Done(t2[idx], t1[idx]) && now + SWAP_TIME <= t2[idx].startTime
    ensures Progress(t2, s, order + [idx], picked + [now], t2[idx].completionTime)
  {
    PickIsSelection(t1, now);
    PickView(t1, Marked(s, order), now);
    assert idx !in order;
    RunKeepsShape(t1, t2, s, order, picked, now, idx);
    RunKeepsTiming(t1, t2, s, order, picked, now, idx);
    RunKeepsIdling(t1, t2, s, order, picked, now, idx);
    ChoicesExtend(s, order, picked, now, idx);
  }

  /** Completing the uncompleted row `idx` adds its memory to the resident total and one to the count. */
  lemma RunLedger(t1: seq<Process>, t2: seq<Process>, idx: int)
    requires 0 <= idx < |t1| == |t2| && forall k :: 0 <= k < |t2| && k != idx ==> t2[k] == t1[k]
    requires !t1[idx].isCompleted && t2[idx].isCompleted && !t2[idx].isSwapped
    ensures HeldMemory(t2) == HeldMemory(t1) + t2[idx].memoryRequired
    ensures CompletedCount(t2) == CompletedCount(t1) + 1
  {
    assert t2 == t1[idx := t2[idx]];
    HeldMemoryUpdate(t1, idx, t2[idx]);
    var f := seq(|t1|, k requires 0 <= k < |t1| => t1[k].isCompleted);
    assert seq(|t2|, k requires 0 <= k < |t2| => t2[k].isCompleted) == f[idx := true];
    CountSet(f, idx);
  }

  /** Rows that agree on their completion flags have the same completed count. */
  lemma SameCompletedCount(t0: seq<Process>, t1: seq<Process>)
    requires |t0| == |t1| && forall k :: 0 <= k < |t0| ==> t1[k].isCompleted == t0[k].isCompleted
    ensures CompletedCount(t1) == CompletedCount(t0)
  {
    assert seq(|t1|, k requires 0 <= k < |t1| => t1[k].isCompleted)
        == seq(|t0|, k requires 0 <= k < |t0| => t0[k].isCompleted);
  }

  /** Everything the rest of a dispatch needs survives a swap-out scan. */
  lemma SwapFacts(t0: seq<Process>, t1: seq<Process>, s: seq<Process>, order: seq<int>, picked: seq<int>, now: int,
                  idx: int, stop: int)
    requires Progress(t0, s, order, picked, now) && Swept(t0, t1, stop) && OnlyCompletedSwapped(t0)
    ensures Progress(t1, s, order, picked, now) && Pick(t1, now) == Pick(t0, now)
    ensures CompletedCount(t1) == CompletedCount(t0) && OnlyCompletedSwapped(t1)
  {
    SwapKeepsProgress(t0, t1, s, order, picked, now, stop);
    PickView(t0, t1, now);
    SameCompletedCount(t0, t1);
  }

  /** The facts about the run of the scan's choice that the schedule and the ledger need. */
  lemma RunFacts(t1: seq<Process>, t2: seq<Process>, now: int, idx: int, start: int)
    requires idx == Pick(t1, now) && idx != -1 && OnlyCompletedSwapped(t1)
    requires now + SWAP_TIME <= start && t2 == t1[idx := Executed(t1[idx], start)]
    ensures |t2| == |t1| && forall k :: 0 <= k < |t2| && k != idx ==> t2[k] == t1[k]
    ensures Done(t2[idx], t1[idx]) && now + SWAP_TIME <= t2[idx].startTime
    ensures !t1[idx].isCompleted && t2[idx].isCompleted && !t2[idx].isSwapped
    ensures OnlyCompletedSwapped(t2)
  {
    PickIsSelection(t1, now);
    assert Eligible(t1[idx], now) && !t1[idx].isSwapped;
  }

  /**
   * Once every row has completed, every process has been dispatched exactly
   * once (`order` is a permutation of the rows) and each ended with the
   * timing identities of `Done`.
   */
  lemma ScheduleComplete(t: seq<Process>, s: seq<Process>, order: seq<int>, picked: seq<int>, now: int)
    requires Progress(t, s, order, picked, now) && CompletedCount(t) == |t|
    ensures Distinct(order) && InRange(order, |t|)
    ensures forall k :: 0 <= k < |t| ==> k in order && Done(t[k], s[k])
  {
    var f := seq(|t|, k requires 0 <= k < |t| => t[k].isCompleted);
    CountFull(f);
    forall k | 0 <= k < |t| ensures k in order && Done(t[k], s[k]) {
      assert f[k] == t[k].isCompleted == Marked(s, order)[k].isCompleted;
      var a :| 0 <= a < |order| && order[a] == k;
    }
  }

  /**
   * Each dispatched process was the selection (`IsSelection`) among the
   * processes not dispatched before it, at the time it was picked.
   */
  lemma ChoicesAreSelections(t: seq<Process>, s: seq<Process>, order: seq<int>, picked: seq<int>, now: int)
    requires Progress(t, s, order, picked, now)
    ensures forall a :: 0 <= a < |order| ==> IsSelection(Marked(s, order[..a]), picked[a], order[a])
  {
    forall a | 0 <= a < |order| ensures IsSelection(Marked(s, order[..a]), picked[a], order[a]) {
      PickIsSelection(Marked(s, order[..a]), picked[a]);
    }
  }

  /**
   * The CPU never idles while a process waits: at every tick from the
   * previous completion up to a pick, no process outside those already
   * dispatched had arrived.
   */
  lemma NoIdleWhileWaiting(t: seq<Process>, s: seq<Process>, order: seq<int>, picked: seq<int>, now: int,
                           a: int, tick: int)
    requires Progress(t, s, order, picked, now)
    requires 0 <= a < |order| && PrevEnd(t, order, a) <= tick < picked[a]
    ensures IsSelection(Marked(s, order[..a]), tick, -1)
  {
    IdlingForced(t, s, order, picked, now, a, tick);
  }

  lemma IdlingForced(t: seq<Process>, s: seq<Process>, order: seq<int>, picked: seq<int>, now: int,
                     a: int, tick: int)
    requires Idling(t, s, order, picked, now)
    requires 0 <= a < |order| && PrevEnd(t, order, a) <= tick < picked[a]
    ensures IsSelection(Marked(s, order[..a]), tick, -1)
  {
    var m := Marked(s, order[..a]);
    assert Pick(m, picked[a] - 1) == -1;
    PickIsSelection(m, picked[a] - 1);
  }

  /**
   * The timing facts the ordering of runs rests on: each dispatched process
   * was picked no earlier than the previous completion, started at least
   * SWAP_TIME after being picked and ran its whole burst.
   */
  ghost predicate Chained(t: seq<Process>, order: seq<int>, picked: seq<int>)
  {
    |picked| == |order| && InRange(order, |t|)
    && forall a {:trigger picked[a]} :: 0 <= a < |order|
         ==> PrevEnd(t, order, a) <= picked[a] && picked[a] + SWAP_TIME <= t[order[a]].startTime
             && t[order[a]].completionTime == t[order[a]].startTime + t[order[a]].burstTime
  }

  lemma ProgressChained(t: seq<Process>, s: seq<Process>, order: seq<int>, picked: seq<int>, now: int)
    requires Timing(t, s, order, picked) && Idling(t, s, order, picked, now)
    ensures Chained(t, order, picked)
  {
  }

  /**
   * With non-negative bursts the runs follow one another: each dispatched
   * process completes at least SWAP_TIME before any later one starts.
   */
  lemma RunsInSequence(t: seq<Process>, s: seq<Process>, order: seq<int>, picked: seq<int>, now: int)
    requires Progress(t, s, order, picked, now)
    requires forall k :: 0 <= k < |t| ==> t[k].burstTime >= 0
    ensures forall a, b :: 0 <= a < b < |order|
              ==> t[order[a]].completionTime + SWAP_TIME <= t[order[b]].startTime
  {
    ProgressChained(t, s, order, picked, now);
    ChainedInSequence(t, order, picked);
  }

  lemma ChainedInSequence(t: seq<Process>, order: seq<int>, picked: seq<int>)
    requires Chained(t, order, picked)
    requires forall k :: 0 <= k < |t| ==> t[k].burstTime >= 0
    ensures forall a, b :: 0 <= a < b < |order|
              ==> t[order[a]].completionTime + SWAP_TIME <= t[order[b]].startTime
  {
    forall a, b | 0 <= a < b < |order|
      ensures t[order[a]].completionTime + SWAP_TIME <= t[order[b]].startTime
    {
      CompletionsIncrease(t, order, picked, a, b - 1);
      assert PrevEnd(t, order, b) <= picked[b];
    }
  }

  lemma {:induction false} CompletionsIncrease(t: seq<Process>, order: seq<int>, picked: seq<int>, a: int, c: int)
    requires Chained(t, order, picked)
    requires forall k :: 0 <= k < |t| ==> t[k].burstTime >= 0
    requires 0 <= a <= c < |order|
    ensures t[order[a]].completionTime <= t[order[c]].completionTime
    decreases c - a
  {
    if a < c {
      CompletionsIncrease(t, order, picked, a, c - 1);
      assert PrevEnd(t, order, c) <= picked[c];
    }
  }

  /** With fewer than all processes completed and nothing chosen, a later arrival is pending. */
  lemma IdleBound(t: seq<Process>, s: seq<Process>, order: seq<int>, picked: seq<int>, now: int)
    requires Shape(t, s, order, picked) && CompletedCount(t) < |t| && Pick(t, now) == -1
    ensures now < MaxOf(Arrivals(s))
  {
    PickIsSelection(t, now);
    var f := seq(|t|, k requires 0 <= k < |t| => t[k].isCompleted);
    CountFull(f);
    var k :| 0 <= k < |t| && !f[k];
    assert Marked(s, order)[k].arrivalTime == s[k].arrivalTime;
    assert Arrivals(s)[k] == s[k].arrivalTime;
  }

  function Arrivals(t: seq<Process>): seq<int>
  {
    seq(|t|, k requires 0 <= k < |t| => t[k].arrivalTime)
  }

  /**
   * Swap-in and execution of the chosen process `idx` at time `currentTime`
   * (PS.c:120-140): SWAP_TIME passes, the process starts, runs its whole
   * burst and is marked completed; the returned time is its completion time.
   */
  method RunProcess(proc: array<Process>, idx: int, currentTime: int) returns (time: int)
    requires 0 <= idx < proc.Length
    modifies proc
    ensures proc[..] == old(proc[..])[idx := Executed(old(proc[idx]), currentTime + SWAP_TIME)]
    ensures time == proc[idx].completionTime
  {
    time := currentTime + SWAP_TIME;
    proc[idx] := proc[idx].(totalSwapTime := SWAP_TIME);
    proc[idx] := proc[idx].(startTime := time);
    proc[idx] := proc[idx].(responseTime := proc[idx].startTime - proc[idx].arrivalTime);
    time := time + proc[idx].burstTime;
    proc[idx] := proc[idx].(completionTime := time);
    proc[idx] := proc[idx].(turnaroundTime := proc[idx].completionTime - proc[idx].arrivalTime);
    proc[idx] := proc[idx].(waitingTime := proc[idx].turnaroundTime - proc[idx].burstTime);
    proc[idx] := proc[idx].(isCompleted := true);
  }

  /**
   * The memory check of one dispatch (PS.c:102-117): when the scan's choice
   * `idx` does not fit, the swap-out scan runs up to row `stop`, swapping out
   * exactly the resident rows before it and charging SWAP_TIME for each;
   * when it fits nothing happens. Nothing the schedule depends on changes,
   * the choice stays the same and the ledger still balances.
   */
  method MakeRoom(proc: array<Process>, idx: int, currentTime: int, availableMemory: int, ghost totalMemory: int)
      returns (time: int, avail: int, ghost stop: int)
    requires 0 <= idx < proc.Length
    requires availableMemory + HeldMemory(proc[..]) == totalMemory
    modifies proc
    ensures Swept(old(proc[..]), proc[..], stop)
    ensures time == currentTime + SWAP_TIME * ResidentCount(old(proc[..stop]))
    ensures avail == availableMemory + HeldMemory(old(proc[..stop]))
    ensures Evicts(old(proc[..]), stop, availableMemory, old(proc[idx].memoryRequired))
    ensures avail + HeldMemory(proc[..]) == totalMemory
  {
    ghost var t0 := proc[..];
    time, avail, stop := currentTime, availableMemory, 0;
    if proc[idx].memoryRequired > avail {
      time, avail, stop := SwapOut(proc, idx, time, avail);
    } else {
      assert proc[..] == t0 && t0[..0] == [];
    }
  }

  /**
   * One dispatch of calculate_priority (PS.c:102-140): the scan's choice
   * `idx` is swapped in, after swapping out resident processes if it does
   * not fit, and runs to completion. The schedule grows by `idx`, picked at
   * `currentTime`; it starts after the `e` swap-outs of this dispatch (the
   * growth of the swapped count) and its own swap-in, and the returned clock
   * is its completion; the memory ledger still balances.
   */
  method Dispatch(proc: array<Process>, idx: int, currentTime: int, availableMemory: int, ghost totalMemory: int,
                  ghost s: seq<Process>, ghost order: seq<int>, ghost picked: seq<int>, ghost ev: seq<int>)
      returns (time: int, avail: int, ghost e: int, ghost stop: int)
    requires Progress(proc[..], s, order, picked, currentTime) && Paced(proc[..], order, picked, ev)
    requires idx == Pick(proc[..], currentTime) && idx != -1
    requires OnlyCompletedSwapped(proc[..])
    requires availableMemory + HeldMemory(proc[..]) == totalMemory
    modifies proc
    ensures Progress(proc[..], s, order + [idx], picked + [currentTime], time)
    ensures e == SwappedCount(proc[..]) - SwappedCount(old(proc[..]))
    ensures Turn(old(proc[..]), proc[..], idx, stop, availableMemory, avail, e) && !proc[idx].isSwapped
    ensures Paced(proc[..], order + [idx], picked + [currentTime], ev + [e])
    ensures time == currentTime + SWAP_TIME * (e + 1) + old(proc[idx].burstTime)
    ensures CompletedCount(proc[..]) == CompletedCount(old(proc[..])) + 1 && OnlyCompletedSwapped(proc[..])
    ensures avail + HeldMemory(proc[..]) == totalMemory
    ensures Roomy(old(proc[..]), availableMemory) ==> Roomy(proc[..], avail)
  {
    ghost var t0 := proc[..];
    time, avail, stop := MakeRoom(proc, idx, currentTime, availableMemory, totalMemory);
    ghost var t1 := proc[..];
    ghost var start := time + SWAP_TIME;
    time := RunProcess(proc, idx, time);
    ghost var t2 := proc[..];
    DispatchProgress(t0, t1, t2, s, order, picked, currentTime, idx, stop, start);
    e := SwappedCount(t2) - SwappedCount(t0);
    avail := avail - proc[idx].memoryRequired;
    DispatchPaced(t0, t1, t2, s, order, picked, ev, currentTime, idx, stop, start, availableMemory, avail, e);
  }

  /** The process dispatched last has not been swapped out. */
  ghost predicate LastResident(t: seq<Process>, order: seq<int>)
  {
    0 < |order| ==> 0 <= order[|order| - 1] < |t| && !t[order[|order| - 1]].isSwapped
  }

  /**
   * The state the loop of calculate_priority carries: the schedule so far
   * and its pacing, the completed rows, the memory ledger, the last
   * dispatched process still resident, and, when the run started with
   * enough memory for every process (`roomy`), free memory covering what is
   * still pending.
   */
  ghost predicate Running(t: seq<Process>, s: seq<Process>, order: seq<int>, picked: seq<int>, ev: seq<int>,
                          now: int, avail: int, total: int, roomy: bool)
  {
    Progress(t, s, order, picked, now) && Paced(t, order, picked, ev) && Sum(ev) == SwappedCount(t)
    && |order| == CompletedCount(t) && OnlyCompletedSwapped(t)
    && avail + HeldMemory(t) == total
    && LastResident(t, order)
    && (roomy ==> Roomy(t, avail))
  }

  /**
   * An idle tick (the scan finds nothing eligible while some process is
   * still to complete) happens before the latest arrival and keeps the
   * state the loop carries.
   */
  lemma IdleKeepsRunning(t: seq<Process>, s: seq<Process>, order: seq<int>, picked: seq<int>, ev: seq<int>,
                         now: int, avail: int, total: int, roomy: bool)
    requires Running(t, s, order, picked, ev, now, avail, total, roomy)
    requires Pick(t, now) == -1 && |order| < |t|
    ensures Running(t, s, order, picked, ev, now + 1, avail, total, roomy) && now < MaxOf(Arrivals(s))
  {
    IdleKeepsProgress(t, s, order, picked, now);
    IdleBound(t, s, order, picked, now);
  }

  /** A dispatch of `idx` picked at `now` extends the state the loop carries by that process. */
  lemma DispatchKeepsRunning(t0: seq<Process>, t: seq<Process>, s: seq<Process>, order: seq<int>,
                             picked: seq<int>, ev: seq<int>, now: int, avail0: int, total: int, roomy: bool,
                             idx: int, e: int, time: int, avail: int)
    requires Running(t0, s, order, picked, ev, now, avail0, total, roomy)
    requires Progress(t, s, order + [idx], picked + [now], time) && Paced(t, order + [idx], picked + [now], ev + [e])
    requires e == SwappedCount(t) - SwappedCount(t0) && 0 <= idx < |t| && !t[idx].isSwapped
    requires CompletedCount(t) == |order| + 1 && OnlyCompletedSwapped(t) && avail + HeldMemory(t) == total
    requires Roomy(t0, avail0) ==> Roomy(t, avail)
    ensures Running(t, s, order + [idx], picked + [now], ev + [e], time, avail, total, roomy)
  {
    SumAppend(ev, e);
  }

  /**
   * The dispatch branch of the scheduling loop (PS.c:102-140): `Dispatch`
   * runs the scan's choice `idx`, and the state the loop carries grows by
   * `idx`, picked at `currentTime`, and the `e` swap-outs it took.
   */
  method Serve(proc: array<Process>, idx: int, currentTime: int, availableMemory: int, ghost totalMemory: int,
               ghost s: seq<Process>, ghost order: seq<int>, ghost picked: seq<int>, ghost ev: seq<int>,
               ghost roomy: bool)
      returns (time: int, avail: int, ghost e: int)
    requires Running(proc[..], s, order, picked, ev, currentTime, availableMemory, totalMemory, roomy)
    requires idx == Pick(proc[..], currentTime) && idx != -1
    modifies proc
    ensures Running(proc[..], s, order + [idx], picked + [currentTime], ev + [e], time, avail, totalMemory, roomy)
  {
    ghost var t0 := proc[..];
    ghost var stop;
    time, avail, e, stop := Dispatch(proc, idx, currentTime, availableMemory, totalMemory, s, order, picked, ev);
    DispatchKeepsRunning(t0, proc[..], s, order, picked, ev, currentTime, availableMemory, totalMemory, roomy,
                         idx, e, time, avail);
  }

  /**
   * calculate_priority (PS.c:65-142): the loop runs until every process has
   * completed. `order` lists the processes in dispatch order, `picked[a]` is
   * the time the scan chose `order[a]` and `now` the final clock. The final
   * state satisfies `Progress` (each choice was the scan's choice among the
   * processes not yet dispatched, each process ran its whole burst after
   * being picked, the clock idled only while nothing was eligible), every
   * row is completed (`ScheduleComplete`, `ChoicesAreSelections` and
   * `NoIdleWhileWaiting` draw the consequences), and the memory pool plus
   * the memory of resident processes is `totalMemory`.
   */
  method CalculatePriority(proc: array<Process>, totalMemory: int)
      returns (availableMemory: int, ghost order: seq<int>, ghost picked: seq<int>, ghost ev: seq<int>,
               ghost now: int, ghost roomy: bool)
    requires forall k :: 0 <= k < proc.Length ==> !proc[k].isCompleted && !proc[k].isSwapped
    modifies proc
    ensures Progress(proc[..], old(proc[..]), order, picked, now)
    ensures Paced(proc[..], order, picked, ev) && Sum(ev) == SwappedCount(proc[..])
    ensures |order| == CompletedCount(proc[..]) == proc.Length
    ensures availableMemory + HeldMemory(proc[..]) == totalMemory
    ensures LastResident(proc[..], order)
    ensures roomy == (Pending(old(proc[..])) <= totalMemory) && (roomy ==> SwappedCount(proc[..]) == 0)
  {
    ghost var s := proc[..];
    ProgressStart(s);
    assert Sum([]) == 0 == SwappedCount(s);
    roomy := Pending(s) <= totalMemory;
    availableMemory, order, picked, ev, now := RunLoop(proc, totalMemory, s, roomy);
  }

  /** The scheduling loop of PS.c:82-136, from an empty table until every process has completed. */
  method RunLoop(proc: array<Process>, totalMemory: int, ghost s: seq<Process>, ghost roomy: bool)
      returns (availableMemory: int, ghost order: seq<int>, ghost picked: seq<int>, ghost ev: seq<int>,
               ghost now: int)
    requires Running(proc[..], s, [], [], [], 0, totalMemory, totalMemory, roomy)
    modifies proc
    ensures Running(proc[..], s, order, picked, ev, now, availableMemory, totalMemory, roomy)
    ensures |order| == proc.Length
  {
    var n := proc.Length;
    var currentTime := 0;
    availableMemory := totalMemory;
    var completed := 0;
    order, picked, ev := [], [], [];
    while completed < n
      invariant completed == |order|
      invariant Running(proc[..], s, order, picked, ev, currentTime, availableMemory, totalMemory, roomy)
      decreases n - completed, MaxOf(Arrivals(s)) - currentTime
    {
      var idx := SelectHighestPriority(proc, currentTime);
      if idx == -1 {
        IdleKeepsRunning(proc[..], s, order, picked, ev, currentTime, availableMemory, totalMemory, roomy);
        currentTime := currentTime + 1;
      } else {
        ghost var e;
        ghost var time0 := currentTime;
        currentTime, availableMemory, e :=
          Serve(proc, idx, currentTime, availableMemory, totalMemory, s, order, picked, ev, roomy);
        order, picked, ev := order + [idx], picked + [time0], ev + [e];
        completed := completed + 1;
      }
    }
    now := currentTime;
  }

  function Waitings(t: seq<Process>): seq<int>
  {
    seq(|t|, k requires 0 <= k < |t| => t[k].waitingTime)
  }

  function Turnarounds(t: seq<Process>): seq<int>
  {
    seq(|t|, k requires 0 <= k < |t| => t[k].turnaroundTime)
  }

  function Responses(t: seq<Process>): seq<int>
  {
    seq(|t|, k requires 0 <= k < |t| => t[k].responseTime)
  }

  function Bursts(t: seq<Process>): seq<int>
  {
    seq(|t|, k requires 0 <= k < |t| => t[k].burstTime)
  }

  function SwapTimes(t: seq<Process>): seq<int>
  {
    seq(|t|, k requires 0 <= k < |t| => t[k].totalSwapTime)
  }

  /** Number of processes of `t` that have been swapped out. */
  function SwappedCount(t: seq<Process>): nat
  {
    Count(seq(|t|, k requires 0 <= k < |t| => t[k].isSwapped))
  }

  lemma SwappedCountSet(t: seq<Process>, k: nat, p: Process)
    requires k < |t| && !t[k].isSwapped && p.isSwapped
    ensures SwappedCount(t[k := p]) == SwappedCount(t) + 1
  {
    var f := seq(|t|, j requires 0 <= j < |t| => t[j].isSwapped);
    assert seq(|t|, j requires 0 <= j < |t| => t[k := p][j].isSwapped) == f[k := true];
    CountSet(f, k);
  }

  lemma SwappedCountKeep(t: seq<Process>, k: nat, p: Process)
    requires k < |t| && p.isSwapped == t[k].isSwapped
    ensures SwappedCount(t[k := p]) == SwappedCount(t)
  {
    assert seq(|t|, j requires 0 <= j < |t| => t[k := p][j].isSwapped)
        == seq(|t|, j requires 0 <= j < |t| => t[j].isSwapped);
  }

  /**
   * A swap-out scan that looked at the rows before `j` swapped out exactly
   * the resident ones among them: the swapped count grows by their number,
   * which is also the number of SWAP_TIME charges it made.
   */
  lemma {:induction false} SweptCount(t0: seq<Process>, t1: seq<Process>, j: int)
    requires Swept(t0, t1, j)
    ensures SwappedCount(t1) == SwappedCount(t0) + ResidentCount(t0[..j])
    decreases j
  {
    if j == 0 {
      assert t1 == t0;
    } else {
      var u := t1[j - 1 := t0[j - 1]];
      assert Swept(t0, u, j - 1);
      SweptCount(t0, u, j - 1);
      ResidentCountStep(t0, j - 1);
      assert t0[..j - 1 + 1] == t0[..j];
      if Resident(t0[j - 1]) {
        assert t1 == u[j - 1 := t1[j - 1]];
        SwappedCountSet(u, j - 1, t1[j - 1]);
      } else {
        assert t1 == u;
      }
    }
  }

  lemma SwappedCountStep(s: seq<Process>, i: nat)
    requires i < |s|
    ensures SwappedCount(s[..i + 1]) == SwappedCount(s[..i]) + (if s[i].isSwapped then 1 else 0)
  {
    var f := seq(|s|, k requires 0 <= k < |s| => s[k].isSwapped);
    assert seq(i + 1, k requires 0 <= k < i + 1 => s[..i + 1][k].isSwapped) == f[..i + 1];
    assert seq(i, k requires 0 <= k < i => s[..i][k].isSwapped) == f[..i];
    CountStep(f, i);
  }

  /** One more row of the table added to each running column sum and to the swapped count. */
  lemma ColumnsStep(t: seq<Process>, i: nat)
    requires i < |t|
    ensures Sum(Waitings(t)[..i + 1]) == Sum(Waitings(t)[..i]) + t[i].waitingTime
    ensures Sum(Turnarounds(t)[..i + 1]) == Sum(Turnarounds(t)[..i]) + t[i].turnaroundTime
    ensures Sum(Responses(t)[..i + 1]) == Sum(Responses(t)[..i]) + t[i].responseTime
    ensures Sum(Bursts(t)[..i + 1]) == Sum(Bursts(t)[..i]) + t[i].burstTime
    ensures Sum(SwapTimes(t)[..i + 1]) == Sum(SwapTimes(t)[..i]) + t[i].totalSwapTime
    ensures SwappedCount(t[..i + 1]) == SwappedCount(t[..i]) + (if t[i].isSwapped then 1 else 0)
  {
    SumStep(Waitings(t), i);
    SumStep(Turnarounds(t), i);
    SumStep(Responses(t), i);
    SumStep(Bursts(t), i);
    SumStep(SwapTimes(t), i);
    SwappedCountStep(t, i);
  }

  /**
   * The integer part of print_performance_metrics (PS.c:144-161): the sums of
   * waiting, turnaround, response, burst and swap times, the makespan (the
   * largest completion time, or 0), the number of rows swapped out and the
   * context-switch count n - 1. The averages, throughput and utilisation are
   * floating-point quotients of these.
   */
  method PerformanceTotals(proc: array<Process>)
      returns (totalWt: int, totalTat: int, totalRt: int, totalBurst: int, makespan: int,
               totalSwapTime: int, swappedCount: int, contextSwitches: int)
    ensures totalWt == Sum(Waitings(proc[..])) && totalTat == Sum(Turnarounds(proc[..]))
    ensures totalRt == Sum(Responses(proc[..])) && totalBurst == Sum(Bursts(proc[..]))
    ensures totalSwapTime == Sum(SwapTimes(proc[..]))
    ensures 0 <= makespan && forall k :: 0 <= k < proc.Length ==> proc[k].completionTime <= makespan
    ensures makespan == 0 || exists k :: 0 <= k < proc.Length && proc[k].completionTime == makespan
    ensures swappedCount == SwappedCount(proc[..])
    ensures contextSwitches == proc.Length - 1
  {
    var n := proc.Length;
    ghost var t := proc[..];
    totalWt, totalTat, totalRt, totalBurst, makespan, totalSwapTime, swappedCount := 0, 0, 0, 0, 0, 0, 0;
    contextSwitches := n - 1;
    for i := 0 to n
      invariant totalWt == Sum(Waitings(t)[..i]) && totalTat == Sum(Turnarounds(t)[..i])
      invariant totalRt == Sum(Responses(t)[..i]) && totalBurst == Sum(Bursts(t)[..i])
      invariant totalSwapTime == Sum(SwapTimes(t)[..i])
      invariant 0 <= makespan && forall k :: 0 <= k < i ==> t[k].completionTime <= makespan
      invariant makespan == 0 || exists k :: 0 <= k < i && t[k].completionTime == makespan
      invariant swappedCount == SwappedCount(t[..i])
    {
      ColumnsStep(t, i);
      totalWt := totalWt + proc[i].waitingTime;
      totalTat := totalTat + proc[i].turnaroundTime;
      totalRt := totalRt + proc[i].responseTime;
      totalBurst := totalBurst + proc[i].burstTime;
      totalSwapTime := totalSwapTime + proc[i].totalSwapTime;
      if proc[i].completionTime > makespan {
        makespan := proc[i].completionTime;
      }
      if proc[i].isSwapped {
        swappedCount := swappedCount + 1;
      }
    }
    assert Waitings(t)[..n] == Waitings(t) && Turnarounds(t)[..n] == Turnarounds(t);
    assert Responses(t)[..n] == Responses(t) && Bursts(t)[..n] == Bursts(t);
    assert SwapTimes(t)[..n] == SwapTimes(t) && t[..n] == t;
  }

  /**
   * After a run, every waiting time equals the response time and is at least
   * SWAP_TIME; total turnaround is total waiting plus total burst, total
   * response equals total waiting, and the total swap time is SWAP_TIME per
   * process (PS.c:120-136).
   */
  lemma TotalsAfterRun(t: seq<Process>, s: seq<Process>)
    requires |t| == |s| && forall k :: 0 <= k < |t| ==> Done(t[k], s[k])
    ensures forall k :: 0 <= k < |t| ==> t[k].waitingTime == t[k].responseTime >= SWAP_TIME
    ensures Sum(Turnarounds(t)) == Sum(Waitings(t)) + Sum(Bursts(t))
    ensures Sum(Responses(t)) == Sum(Waitings(t))
    ensures Sum(SwapTimes(t)) == SWAP_TIME * |t|
  {
    SumAdd(Turnarounds(t), Waitings(t), Bursts(t));
    assert Responses(t) == Waitings(t);
    SumConstant(SwapTimes(t), SWAP_TIME);
  }
}
