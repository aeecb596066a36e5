/**
 * Round-robin scheduling with a fixed quantum and memory swapping (RR.c).
 *
 * `calculate_rr` keeps a FIFO ready queue in an array of 100 slots with
 * `front`/`rear` indices, and a `visited` flag per process that admits each
 * process to the queue once, when it has arrived. The head of the queue runs
 * for at most one quantum; on its first dispatch it is swapped in (after
 * finished, still-resident processes have been swapped out in table order
 * until it fits). Processes that arrived meanwhile are queued before the
 * preempted process goes back to the tail. With an empty queue the clock
 * ticks by one.
 */
module RoundRobin {
  import opened Common

  /** Number of slots of the ready queue (`int queue[100]`). */
  const QUEUE_CAPACITY: int := 100

  /**
   * One row of the process table of RR.c; the name and type strings are
   * display only. `firstExecution` is the flag RR.c sets when the process is
   * dispatched for the first time.
   */
  datatype Process = Process(
    pid: int,
    arrivalTime: int,
    burstTime: int,
    remainingTime: int,
    completionTime: int,
    turnaroundTime: int,
    waitingTime: int,
    responseTime: int,
    startTime: int,
    memoryRequired: int,
    isSwapped: bool,
    totalSwapTime: int,
    firstExecution: bool)

  /**
   * A row as initialize_processes sets it up: a positive burst, all of it
   * still to run, never dispatched, swapped in or out.
   */
  predicate Fresh(p: Process)
  {
    p.burstTime > 0 && p.remainingTime == p.burstTime && !p.isSwapped
    && p.totalSwapTime == 0 && !p.firstExecution
  }

  /** `p` and `q` describe the same workload item: the fields the scheduler only reads. */
  predicate SameDescriptor(p: Process, q: Process)
  {
    p.pid == q.pid && p.arrivalTime == q.arrivalTime && p.burstTime == q.burstTime
    && p.memoryRequired == q.memoryRequired
  }

  /** Number of slices of at most `q` units that a burst of `a` units is cut into. */
  function Quanta(a: int, q: int): nat
    requires q > 0
    decreases a
  {
    if a <= 0 then 0 else 1 + Quanta(a - q, q)
  }

  /**
   * Queue appends a row still causes: one admission and one re-append per
   * later slice when it has not been admitted yet; one re-append per slice
   * after the next when it is admitted and unfinished; none when finished.
   */
  function Owed(p: Process, seen: bool, q: int): nat
    requires q > 0
  {
    if !seen then Quanta(p.burstTime, q)
    else if p.remainingTime <= 0 then 0
    else Quanta(p.remainingTime, q) - 1
  }

  /** Appends still owed by rows 0..m-1. */
  function Debt(t: seq<Process>, seen: seq<bool>, q: int, m: nat): nat
    requires q > 0 && m <= |t| <= |seen|
  {
    if m == 0 then 0 else Debt(t, seen, q, m - 1) + Owed(t[m - 1], seen[m - 1], q)
  }

  /** Total appends a whole run makes: the slices of every burst. */
  function Budget(s: seq<Process>, q: int): int
    requires q > 0
  {
    if s == [] then 0 else Budget(s[..|s| - 1], q) + Quanta(s[|s| - 1].burstTime, q)
  }

  /** A process holds its memory from its swap-in until it is swapped out. */
  function Held(p: Process): int
  {
    if p.totalSwapTime != 0 && !p.isSwapped then p.memoryRequired else 0
  }

  /** Memory held by the swapped-in processes among rows 0..m-1. */
  function HeldTotal(t: seq<Process>, m: nat): int
    requires m <= |t|
  {
    if m == 0 then 0 else HeldTotal(t, m - 1) + Held(t[m - 1])
  }

  /** Number of finished processes (no time left to run) among rows 0..m-1. */
  function Finished(t: seq<Process>, m: nat): nat
    requires m <= |t|
  {
    if m == 0 then 0 else Finished(t, m - 1) + (if t[m - 1].remainingTime == 0 then 1 else 0)
  }

  /** Execution time still owed to rows 0..m-1. */
  function Left(t: seq<Process>, m: nat): int
    requires m <= |t|
  {
    if m == 0 then 0 else Left(t, m - 1) + t[m - 1].remainingTime
  }

  predicate Distinct(xs: seq<int>)
  {
    forall a, b :: 0 <= a < b < |xs| ==> xs[a] != xs[b]
  }

  predicate InRange(xs: seq<int>, n: int)
  {
    forall a :: 0 <= a < |xs| ==> 0 <= xs[a] < n
  }

  /**
   * The admission test of the three arrival scans (RR.c:77, 87, 140): the
   * process has arrived by `now` and has not been visited; the scan after a
   * slice also asks for time left to run.
   */
  predicate Admits(p: Process, seen: bool, now: int, afterSlice: bool)
  {
    p.arrivalTime <= now && !seen && (!afterSlice || p.remainingTime > 0)
  }

  /** The indices a scan of rows 0..m-1 appends to the queue, in table order. */
  function Admissions(t: seq<Process>, seen: seq<bool>, now: int, afterSlice: bool, m: nat): seq<int>
    requires m <= |t| <= |seen|
  {
    if m == 0 then []
    else Admissions(t, seen, now, afterSlice, m - 1)
         + (if Admits(t[m - 1], seen[m - 1], now, afterSlice) then [m - 1] else [])
  }

  /** The visited flags after a scan of rows 0..m-1. */
  function Marked(seen: seq<bool>, t: seq<Process>, now: int, afterSlice: bool, m: nat): seq<bool>
    requires m <= |t| <= |seen|
  {
    seq(|seen|, k requires 0 <= k < |seen| => seen[k] || (k < m && Admits(t[k], seen[k], now, afterSlice)))
  }

  /**
   * A scan appends exactly the rows it admits, each once, in increasing
   * table order.
   */
  lemma {:induction false} AdmissionsMembers(t: seq<Process>, seen: seq<bool>, now: int, afterSlice: bool, m: nat)
    requires m <= |t| <= |seen|
    ensures forall k :: k in Admissions(t, seen, now, afterSlice, m) <==> 0 <= k < m && Admits(t[k], seen[k], now, afterSlice)
    ensures forall a, b :: 0 <= a < b < |Admissions(t, seen, now, afterSlice, m)|
              ==> Admissions(t, seen, now, afterSlice, m)[a] < Admissions(t, seen, now, afterSlice, m)[b]
  {
    if m > 0 {
      var p := Admissions(t, seen, now, afterSlice, m - 1);
      AdmissionsMembers(t, seen, now, afterSlice, m - 1);
      forall a | 0 <= a < |p| ensures p[a] < m - 1 {
        assert p[a] in p;
      }
    }
  }

  /**
   * An arrival scan (RR.c:76-81, 86-91, 139-144): every row in table order
   * that passes the admission test is appended at `rear` and marked visited.
   */
  method AdmitArrivals(proc: array<Process>, visited: array<bool>, queue: array<int>, rear: int,
                       currentTime: int, afterSlice: bool)
      returns (rear': int)
    requires proc.Length <= visited.Length && queue.Length == QUEUE_CAPACITY && 0 <= rear
    requires rear + |Admissions(proc[..], visited[..], currentTime, afterSlice, proc.Length)| <= QUEUE_CAPACITY
    modifies visited, queue
    ensures visited[..] == Marked(old(visited[..]), proc[..], currentTime, afterSlice, proc.Length)
    ensures rear' == rear + |Admissions(proc[..], old(visited[..]), currentTime, afterSlice, proc.Length)|
    ensures queue[..rear'] == old(queue[..rear]) + Admissions(proc[..], old(visited[..]), currentTime, afterSlice, proc.Length)
  {
    ghost var seen0, queue0, t := visited[..], queue[..rear], proc[..];
    rear' := rear;
    for i := 0 to proc.Length
      invariant |Admissions(t, seen0, currentTime, afterSlice, i)| <= |Admissions(t, seen0, currentTime, afterSlice, proc.Length)|
      invariant rear' == rear + |Admissions(t, seen0, currentTime, afterSlice, i)|
      invariant queue[..rear'] == queue0 + Admissions(t, seen0, currentTime, afterSlice, i)
      invariant visited[..] == Marked(seen0, t, currentTime, afterSlice, i)
    {
      ScanStep(t, seen0, queue0, currentTime, afterSlice, i);
      rear' := AdmitRow(proc, visited, queue, rear', i, currentTime, afterSlice);
    }
  }

  /**
   * The test and the append for row `i` within an arrival scan
   * (RR.c:77-80, 87-90, 140-143).
   */
  method AdmitRow(proc: array<Process>, visited: array<bool>, queue: array<int>, rear: int, i: int,
                  currentTime: int, afterSlice: bool)
      returns (rear': int)
    requires 0 <= i < proc.Length <= visited.Length && 0 <= rear <= queue.Length
    requires Admits(proc[i], visited[i], currentTime, afterSlice) ==> rear < queue.Length
    modifies visited, queue
    ensures var admit := Admits(proc[i], old(visited[i]), currentTime, afterSlice);
            rear' == rear + (if admit then 1 else 0)
            && queue[..rear'] == old(queue[..rear]) + (if admit then [i] else [])
            && visited[..] == (if admit then old(visited[..])[i := true] else old(visited[..]))
  {
    rear' := rear;
    if proc[i].arrivalTime <= currentTime && !visited[i] && (!afterSlice || proc[i].remainingTime > 0) {
      queue[rear'] := i;
      visited[i] := true;
      rear' := rear' + 1;
    }
  }

  /** What one more row of a scan adds to the queue and to the visited flags. */
  lemma ScanStep(t: seq<Process>, seen: seq<bool>, queue0: seq<int>, now: int, afterSlice: bool, i: nat)
    requires i < |t| <= |seen|
    ensures |Admissions(t, seen, now, afterSlice, i + 1)| <= |Admissions(t, seen, now, afterSlice, |t|)|
    ensures queue0 + Admissions(t, seen, now, afterSlice, i + 1)
            == (queue0 + Admissions(t, seen, now, afterSlice, i))
               + (if Admits(t[i], seen[i], now, afterSlice) then [i] else [])
    ensures Marked(seen, t, now, afterSlice, i)[i] == seen[i]
    ensures Marked(seen, t, now, afterSlice, i + 1)
            == if Admits(t[i], seen[i], now, afterSlice) then Marked(seen, t, now, afterSlice, i)[i := true]
               else Marked(seen, t, now, afterSlice, i)
  {
    MarkedStep(seen, t, now, afterSlice, i);
    AdmissionsGrow(t, seen, now, afterSlice, i + 1, |t|);
  }

  /** A scan of one more row marks it exactly when it is admitted. */
  lemma MarkedStep(seen: seq<bool>, t: seq<Process>, now: int, afterSlice: bool, i: nat)
    requires i < |t| <= |seen|
    ensures Marked(seen, t, now, afterSlice, i)[i] == seen[i]
    ensures Marked(seen, t, now, afterSlice, i + 1)
            == if Admits(t[i], seen[i], now, afterSlice) then Marked(seen, t, now, afterSlice, i)[i := true]
               else Marked(seen, t, now, afterSlice, i)
  {
  }

  /** A longer scan appends at least as many rows. */
  lemma {:induction false} AdmissionsGrow(t: seq<Process>, seen: seq<bool>, now: int, afterSlice: bool, i: nat, m: nat)
    requires i <= m <= |t| <= |seen|
    ensures |Admissions(t, seen, now, afterSlice, i)| <= |Admissions(t, seen, now, afterSlice, m)|
    decreases m - i
  {
    if i < m {
      AdmissionsGrow(t, seen, now, afterSlice, i + 1, m);
    }
  }

  /**
   * Each admission uses up one of the appends the admitted row owed, so a
   * scan appends no more rows than the queue still has to take.
   */
  lemma {:induction false} AdmissionsDebts(t: seq<Process>, seen: seq<bool>, now: int, afterSlice: bool, q: int, m: nat)
    requires q > 0 && m <= |t| <= |seen|
    requires forall k :: 0 <= k < |t| && !seen[k] ==> t[k].remainingTime == t[k].burstTime > 0
    ensures |Admissions(t, seen, now, afterSlice, m)| + Debt(t, Marked(seen, t, now, afterSlice, m), q, |t|)
            == Debt(t, seen, q, |t|)
  {
    if m == 0 {
      assert Marked(seen, t, now, afterSlice, 0) == seen;
    } else {
      AdmissionsDebts(t, seen, now, afterSlice, q, m - 1);
      var marked := Marked(seen, t, now, afterSlice, m - 1);
      MarkedStep(seen, t, now, afterSlice, m - 1);
      if Admits(t[m - 1], seen[m - 1], now, afterSlice) {
        DebtUpdate(t, marked, q, m - 1, t[m - 1], true, |t|);
        assert t[m - 1 := t[m - 1]] == t;
      }
    }
  }

  /** Changing one row changes the debt by the change of that row's own debt. */
  lemma {:induction false} DebtUpdate(t: seq<Process>, seen: seq<bool>, q: int, i: nat, p: Process, b: bool, m: nat)
    requires q > 0 && i < |t| <= |seen| && m <= |t|
    ensures Debt(t[i := p], seen[i := b], q, m)
            == Debt(t, seen, q, m) + (if i < m then Owed(p, b, q) - Owed(t[i], seen[i], q) else 0)
  {
    if m > 0 {
      DebtUpdate(t, seen, q, i, p, b, m - 1);
    }
  }

  /** Changing row `i` changes each running total by the change of that row's own term. */
  lemma {:induction false} TotalsUpdate(t: seq<Process>, seen: seq<bool>, q: int, i: nat, p: Process, m: nat)
    requires q > 0 && i < |t| <= |seen| && m <= |t|
    ensures Debt(t[i := p], seen, q, m) == Debt(t, seen, q, m) + (if i < m then Owed(p, seen[i], q) - Owed(t[i], seen[i], q) else 0)
    ensures HeldTotal(t[i := p], m) == HeldTotal(t, m) + (if i < m then Held(p) - Held(t[i]) else 0)
    ensures Finished(t[i := p], m) + (if i < m && t[i].remainingTime == 0 then 1 else 0)
            == Finished(t, m) + (if i < m && p.remainingTime == 0 then 1 else 0)
    ensures Left(t[i := p], m) == Left(t, m) + (if i < m then p.remainingTime - t[i].remainingTime else 0)
  {
    if m > 0 {
      TotalsUpdate(t, seen, q, i, p, m - 1);
    }
  }

  /** Tables that agree on every row's progress owe the same appends, time and completions. */
  lemma {:induction false} ProgressAgree(t: seq<Process>, u: seq<Process>, seen: seq<bool>, q: int, m: nat)
    requires q > 0 && m <= |t| == |u| <= |seen|
    requires forall k :: 0 <= k < m ==> t[k].remainingTime == u[k].remainingTime && t[k].burstTime == u[k].burstTime
    ensures Debt(t, seen, q, m) == Debt(u, seen, q, m)
    ensures Finished(t, m) == Finished(u, m) && Left(t, m) == Left(u, m)
  {
    if m > 0 {
      ProgressAgree(t, u, seen, q, m - 1);
    }
  }

  // -------------------------------------------------------------------------
  // Swapping (RR.c:97-122)

  /** A finished process that still holds its memory: what the eviction scan takes (RR.c:104). */
  predicate Evictable(p: Process)
  {
    p.remainingTime == 0 && !p.isSwapped
  }

  /** Memory the eviction scan frees from rows 0..m-1. */
  function Freed(t: seq<Process>, m: nat): int
    requires m <= |t|
  {
    if m == 0 then 0 else Freed(t, m - 1) + (if Evictable(t[m - 1]) then t[m - 1].memoryRequired else 0)
  }

  /** Number of rows among 0..m-1 the eviction scan swaps out. */
  function Evictions(t: seq<Process>, m: nat): nat
    requires m <= |t|
  {
    if m == 0 then 0 else Evictions(t, m - 1) + (if Evictable(t[m - 1]) then 1 else 0)
  }

  /**
   * `t1` is table `t0` after the eviction scan has looked at the rows before
   * `j`: exactly the evictable rows among them are marked swapped out, every
   * other row is untouched.
   */
  ghost predicate Swept(t0: seq<Process>, t1: seq<Process>, j: int)
  {
    |t1| == |t0| && 0 <= j <= |t0|
    && forall k :: 0 <= k < |t0|
         ==> t1[k] == (if k < j && Evictable(t0[k]) then t0[k].(isSwapped := true) else t0[k])
  }

  /**
   * Where the eviction scan of RR.c:99-113 stops for a process that needs
   * `need` MB while `avail` MB are free: at 0 when the process fits, as the
   * scan then does not run; otherwise right after the first evictable row
   * whose memory makes the process fit, or after the last row. Before `stop`
   * the process never fits.
   */
  ghost predicate Evicts(t: seq<Process>, stop: int, avail: int, need: int)
  {
    0 <= stop <= |t|
    && (need <= avail ==> stop == 0)
    && (avail < need ==> stop == |t| || (0 < stop && need <= avail + Freed(t, stop) && Evictable(t[stop - 1])))
    && forall m :: 0 <= m < stop ==> avail + Freed(t, m) < need
  }

  /**
   * The eviction scan (RR.c:103-113), entered when process `idx` needs more
   * memory than is available. Finished processes still in memory are
   * swapped out in table order, each returning its memory and costing
   * SWAP_TIME, until `idx` fits; `stop` is the index after the last row the
   * scan looked at.
   */
  method SwapOut(proc: array<Process>, idx: int, currentTime: int, availableMemory: int)
      returns (time: int, avail: int, ghost stop: int)
    requires 0 <= idx < proc.Length
    requires availableMemory < proc[idx].memoryRequired
    modifies proc
    ensures Swept(old(proc[..]), proc[..], stop)
    ensures time == currentTime + SWAP_TIME * Evictions(old(proc[..]), stop)
    ensures avail == availableMemory + Freed(old(proc[..]), stop)
    ensures stop == proc.Length
            || (0 < stop && avail >= old(proc[idx].memoryRequired) && Evictable(old(proc[stop - 1])))
    ensures forall m :: 0 <= m < stop ==> availableMemory + Freed(old(proc[..]), m) < old(proc[idx].memoryRequired)
  {
    ghost var s := proc[..];
    var n := proc.Length;
    var req := proc[idx].memoryRequired;
    time, avail := currentTime, availableMemory;
    stop := n;
    var j := 0;
    while j < n
      invariant 0 <= j <= n
      invariant Swept(s, proc[..], j)
      invariant time == currentTime + SWAP_TIME * Evictions(s, j)
      invariant avail == availableMemory + Freed(s, j)
      invariant forall m :: 0 <= m <= j ==> availableMemory + Freed(s, m) < req
    {
      if proc[j].remainingTime == 0 && !proc[j].isSwapped {
        proc[j] := proc[j].(isSwapped := true);
        avail := avail + proc[j].memoryRequired;
        time := time + SWAP_TIME;
        if avail >= req {
          stop := j + 1;
          return;
        }
      }
      j := j + 1;
    }
  }

  /** The row after its swap-in (RR.c:117): one more SWAP_TIME charged to it. */
  function Loaded(p: Process): Process
  {
    p.(totalSwapTime := p.totalSwapTime + SWAP_TIME)
  }

  /**
   * The memory step of a dispatch (RR.c:98-122): a process with all of its
   * burst left is swapped in, after the eviction scan when it does not fit;
   * a process that has run before keeps its memory and nothing happens.
   * `evicted` is the table after the scan and `stop` how far the scan got
   * (0 when it did not run).
   */
  method Load(proc: array<Process>, idx: int, currentTime: int, availableMemory: int)
      returns (time: int, avail: int, ghost evicted: seq<Process>, ghost stop: int)
    requires 0 <= idx < proc.Length
    modifies proc
    ensures Swept(old(proc[..]), evicted, stop)
    ensures stop > 0 ==> old(proc[idx].remainingTime == proc[idx].burstTime)
                         && availableMemory < old(proc[idx].memoryRequired)
    ensures old(proc[idx].remainingTime == proc[idx].burstTime) ==>
              Evicts(old(proc[..]), stop, availableMemory, old(proc[idx].memoryRequired))
    ensures old(proc[idx].remainingTime == proc[idx].burstTime) ==>
              proc[..] == evicted[idx := Loaded(evicted[idx])]
              && time == currentTime + SWAP_TIME * Evictions(old(proc[..]), stop) + SWAP_TIME
              && avail == availableMemory + Freed(old(proc[..]), stop) - old(proc[idx].memoryRequired)
    ensures old(proc[idx].remainingTime != proc[idx].burstTime) ==>
              proc[..] == evicted && time == currentTime && avail == availableMemory
  {
    time, avail := currentTime, availableMemory;
    evicted, stop := proc[..], 0;
    if proc[idx].remainingTime == proc[idx].burstTime {
      if proc[idx].memoryRequired > avail {
        time, avail, stop := SwapOut(proc, idx, time, avail);
        evicted := proc[..];
      }
      time := time + SWAP_TIME;
      proc[idx] := proc[idx].(totalSwapTime := proc[idx].totalSwapTime + SWAP_TIME);
      avail := avail - proc[idx].memoryRequired;
    }
  }

  // -------------------------------------------------------------------------
  // Running a slice (RR.c:124-155)

  /** Length of one slice: the quantum, or what is left when that is less (RR.c:130). */
  function Slice(remaining: int, q: int): (e: int)
    ensures e <= remaining && e <= q && (e == remaining || e == q)
  {
    if remaining < q then remaining else q
  }

  /** The row when a slice begins at `now`: a first dispatch records its start and response (RR.c:124-128). */
  function Begun(p: Process, now: int): Process
  {
    if p.firstExecution then p
    else p.(startTime := now, responseTime := now - p.arrivalTime, firstExecution := true)
  }

  /** The row after a slice that begins at `now` (RR.c:124-135). */
  function Sliced(p: Process, now: int, q: int): Process
  {
    var b := Begun(p, now);
    b.(remainingTime := b.remainingTime - Slice(b.remainingTime, q))
  }

  /**
   * One slice of process `idx` (RR.c:124-136): on its first dispatch its
   * start and response times are recorded, then it runs for the quantum or
   * for what is left of its burst, whichever is less.
   */
  method RunSlice(proc: array<Process>, idx: int, currentTime: int, timeQuantum: int) returns (time: int)
    requires 0 <= idx < proc.Length
    modifies proc
    ensures proc[..] == old(proc[..])[idx := Sliced(old(proc[idx]), currentTime, timeQuantum)]
    ensures time == currentTime + Slice(old(proc[idx].remainingTime), timeQuantum)
  {
    if !proc[idx].firstExecution {
      proc[idx] := proc[idx].(startTime := currentTime);
      proc[idx] := proc[idx].(responseTime := proc[idx].startTime - proc[idx].arrivalTime);
      proc[idx] := proc[idx].(firstExecution := true);
    }
    var execTime := if proc[idx].remainingTime < timeQuantum then proc[idx].remainingTime else timeQuantum;
    proc[idx] := proc[idx].(remainingTime := proc[idx].remainingTime - execTime);
    time := currentTime + execTime;
  }

  /** The row of a process that completes at `now` (RR.c:150-152). */
  function Closed(p: Process, now: int): Process
  {
    p.(completionTime := now, turnaroundTime := now - p.arrivalTime, waitingTime := now - p.arrivalTime - p.burstTime)
  }

  /**
   * The end of a slice (RR.c:146-155): a process with time left goes back to
   * the tail of the queue; otherwise it completes now and is counted.
   */
  method Finish(proc: array<Process>, queue: array<int>, idx: int, rear: int, currentTime: int, completed: int)
      returns (rear': int, completed': int)
    requires 0 <= idx < proc.Length && 0 <= rear <= queue.Length
    requires proc[idx].remainingTime > 0 ==> rear < queue.Length
    modifies proc, queue
    ensures old(proc[idx].remainingTime) > 0 ==>
              proc[..] == old(proc[..]) && rear' == rear + 1 && queue[..rear'] == old(queue[..rear]) + [idx]
              && completed' == completed
    ensures old(proc[idx].remainingTime) <= 0 ==>
              proc[..] == old(proc[..])[idx := Closed(old(proc[idx]), currentTime)]
              && rear' == rear && queue[..rear'] == old(queue[..rear]) && completed' == completed + 1
  {
    rear', completed' := rear, completed;
    if proc[idx].remainingTime > 0 {
      queue[rear'] := idx;
      rear' := rear' + 1;
    } else {
      proc[idx] := proc[idx].(completionTime := currentTime);
      proc[idx] := proc[idx].(turnaroundTime := proc[idx].completionTime - proc[idx].arrivalTime);
      proc[idx] := proc[idx].(waitingTime := proc[idx].turnaroundTime - proc[idx].burstTime);
      completed' := completed' + 1;
    }
  }

  // -------------------------------------------------------------------------
  // The state of a run

  /** The timing identities of a process that has completed by `now` (RR.c:150-152). */
  predicate Accounted(p: Process, now: int)
  {
    p.startTime + p.burstTime <= p.completionTime <= now
    && p.turnaroundTime == p.completionTime - p.arrivalTime
    && p.waitingTime == p.turnaroundTime - p.burstTime
  }

  /**
   * A process that has been dispatched, as of time `now`: swapped in once,
   * started no earlier than SWAP_TIME after its arrival, with the executed
   * part of its burst behind it; resident while it has time left, and
   * accounted for once it has none.
   */
  predicate Started(p: Process, now: int)
  {
    p.firstExecution && p.totalSwapTime == SWAP_TIME
    && p.startTime >= p.arrivalTime + SWAP_TIME && p.responseTime == p.startTime - p.arrivalTime
    && p.startTime + p.burstTime - p.remainingTime <= now
    && (p.remainingTime > 0 ==> !p.isSwapped)
    && (p.remainingTime == 0 ==> Accounted(p, now))
  }

  /** Row `p` of a visited process whose initial row was `d`, as of time `now`. */
  predicate Underway(p: Process, d: Process, now: int)
  {
    SameDescriptor(p, d) && d.arrivalTime <= now && 0 <= p.remainingTime <= p.burstTime
    && (p.remainingTime == p.burstTime ==> p == d)
    && (p.remainingTime < p.burstTime ==> Started(p, now))
  }

  ghost predicate AllFresh(s: seq<Process>)
  {
    forall k :: 0 <= k < |s| ==> Fresh(s[k])
  }

  /** Visited rows are under way; rows not visited yet are as they started. */
  ghost predicate Rows(t: seq<Process>, seen: seq<bool>, s: seq<Process>, now: int)
    requires |t| == |s| <= |seen|
  {
    forall k :: 0 <= k < |t| ==> if seen[k] then Underway(t[k], s[k], now) else t[k] == s[k]
  }

  /** Every process that has arrived by `now` has been visited. */
  ghost predicate Arrived(s: seq<Process>, seen: seq<bool>, now: int)
    requires |s| <= |seen|
  {
    forall k :: 0 <= k < |s| && s[k].arrivalTime <= now ==> seen[k]
  }

  /** The live queue holds each visited, unfinished process once, and nothing else. */
  ghost predicate Live(qs: seq<int>, t: seq<Process>, seen: seq<bool>)
    requires |t| <= |seen|
  {
    Distinct(qs) && InRange(qs, |t|)
    && forall k :: 0 <= k < |t| ==> (k in qs <==> seen[k] && t[k].remainingTime > 0)
  }

  /**
   * The invariant of the scheduling loop of calculate_rr, for the table `t`
   * grown from the initial table `s`, the visited flags, the live queue
   * segment `qs` and the clock: besides the row, arrival and queue facts, the
   * appends made so far plus those still owed are the budget, the free pool
   * plus the memory of resident processes is the total, and `completed`
   * counts the finished rows.
   */
  ghost predicate Inv(t: seq<Process>, seen: seq<bool>, qs: seq<int>, s: seq<Process>, q: int, now: int,
                      rear: int, avail: int, total: int, completed: int)
  {
    q > 0 && |t| == |s| <= |seen| && AllFresh(s) && Budget(s, q) <= QUEUE_CAPACITY
    && Rows(t, seen, s, now) && Arrived(s, seen, now) && Live(qs, t, seen)
    && rear + Debt(t, seen, q, |t|) == Budget(s, q)
    && avail + HeldTotal(t, |t|) == total
    && completed == Finished(t, |t|)
  }

  // -------------------------------------------------------------------------
  // One dispatch (RR.c:95-155)

  /** The facts Load and RunSlice leave behind for a dispatch of row `idx`. */
  ghost predicate SliceRan(t0: seq<Process>, t1: seq<Process>, t2: seq<Process>, t3: seq<Process>, stop: int,
                           idx: int, q: int, now: int, time2: int, time3: int, avail0: int, avail2: int)
  {
    0 <= idx < |t0| && Swept(t0, t1, stop)
    && (stop > 0 ==> t0[idx].remainingTime == t0[idx].burstTime)
    && (t0[idx].remainingTime == t0[idx].burstTime ==>
          t2 == t1[idx := Loaded(t1[idx])]
          && time2 == now + SWAP_TIME * Evictions(t0, stop) + SWAP_TIME
          && avail2 == avail0 + Freed(t0, stop) - t0[idx].memoryRequired)
    && (t0[idx].remainingTime != t0[idx].burstTime ==> t2 == t1 && time2 == now && avail2 == avail0)
    && t3 == t2[idx := Sliced(t2[idx], time2, q)] && time3 == time2 + Slice(t2[idx].remainingTime, q)
  }

  /** The row of a dispatched process after its slice that begins at `start`. */
  function Served(p: Process, start: int, q: int): Process
  {
    var r := Sliced(if p.remainingTime == p.burstTime then Loaded(p) else p, start, q);
    if r.remainingTime > 0 then r else Closed(r, start + Slice(p.remainingTime, q))
  }

  /** A slice begins after a first dispatch's swap-in; each slice leaves the row under way. */
  lemma ServedUnderway(p: Process, d: Process, now: int, start: int, q: int)
    requires q > 0 && Fresh(d) && Underway(p, d, now) && p.remainingTime > 0
    requires now <= start && (p.remainingTime == p.burstTime ==> now + SWAP_TIME <= start)
    ensures Underway(Served(p, start, q), d, start + Slice(p.remainingTime, q))
    ensures Served(p, start, q).remainingTime == p.remainingTime - Slice(p.remainingTime, q)
    ensures Held(Served(p, start, q)) == if p.remainingTime == p.burstTime then p.memoryRequired else Held(p)
  {
  }

  /** A slice uses up exactly one of the slices a remaining time is cut into. */
  lemma QuantaSlice(a: int, q: int)
    requires q > 0 && a > 0
    ensures Quanta(a, q) == 1 + Quanta(a - Slice(a, q), q)
  {
  }

  /** The facts Finish leaves behind: the process goes back to the tail, or it completes at `now`. */
  ghost predicate Ended(t3: seq<Process>, t5: seq<Process>, q4: seq<int>, q5: seq<int>, idx: int, now: int,
                        completed: int, completed': int)
  {
    0 <= idx < |t3|
    && (t3[idx].remainingTime > 0 ==> t5 == t3 && q5 == q4 + [idx] && completed' == completed)
    && (t3[idx].remainingTime <= 0 ==>
          t5 == t3[idx := Closed(t3[idx], now)] && q5 == q4 && completed' == completed + 1)
  }

  /**
   * A whole dispatch of row `idx` from table `t0` at time `now`: `t1` is the
   * table after the eviction scan, `t3` after the slice and `t5` the final
   * one, in which only the evicted rows and row `idx` have changed.
   */
  ghost predicate Dispatched(t0: seq<Process>, t1: seq<Process>, t3: seq<Process>, t5: seq<Process>, stop: int,
                             idx: int, q: int, now: int, time2: int, time3: int)
  {
    |t1| == |t3| == |t5| == |t0| && 0 <= idx < |t0| && Swept(t0, t1, stop) && t1[idx] == t0[idx]
    && t3 == t1[idx := t3[idx]] && t3[idx].remainingTime == t5[idx].remainingTime
    && t3[idx].burstTime == t5[idx].burstTime
    && t5 == t1[idx := Served(t0[idx], time2, q)]
    && time3 == time2 + Slice(t0[idx].remainingTime, q) && now <= time2
    && (t0[idx].remainingTime == t0[idx].burstTime ==> now + SWAP_TIME <= time2)
    && (stop > 0 ==> t0[idx].remainingTime == t0[idx].burstTime)
  }

  /** The step facts of Load, RunSlice and Finish, folded into one picture of the dispatch. */
  lemma DispatchShape(t0: seq<Process>, t1: seq<Process>, t2: seq<Process>, t3: seq<Process>, t5: seq<Process>,
                      q4: seq<int>, q5: seq<int>, stop: int, idx: int, q: int, now: int, time2: int, time3: int,
                      avail0: int, avail2: int, completed: int, completed': int)
    requires q > 0 && SliceRan(t0, t1, t2, t3, stop, idx, q, now, time2, time3, avail0, avail2)
    requires Ended(t3, t5, q4, q5, idx, time3, completed, completed') && t0[idx].remainingTime > 0
    ensures Dispatched(t0, t1, t3, t5, stop, idx, q, now, time2, time3)
    ensures Kept(t0, t3, idx) && Kept(t0, t5, idx) && t5[idx].remainingTime == t3[idx].remainingTime
    ensures q5 == q4 + (if t5[idx].remainingTime > 0 then [idx] else [])
    ensures avail2 == avail0 + Freed(t0, stop)
                      - (if t0[idx].remainingTime == t0[idx].burstTime then t0[idx].memoryRequired else 0)
  {
    var p := if t0[idx].remainingTime == t0[idx].burstTime then Loaded(t0[idx]) else t0[idx];
    assert t2 == t1[idx := p];
    assert t3 == t1[idx := Sliced(p, time2, q)];
  }

  /**
   * One dispatch of row `idx` from table `t0` at time `now`, as seen from
   * outside: a first dispatch pays one swap per eviction and one for its own
   * swap-in and takes its memory back from the freed pool, then every
   * dispatch runs one slice; every row but `idx` is as the eviction scan left
   * it, and row `idx` is served from the moment its slice began. The scan
   * stops where `Evicts` says, and does not run for a process that has run
   * before.
   */
  ghost predicate Turn(t0: seq<Process>, t5: seq<Process>, idx: int, stop: int, q: int, now: int, time: int,
                       avail0: int, avail: int)
  {
    0 <= idx < |t0| == |t5| && 0 <= stop <= |t0|
    && (t0[idx].remainingTime == t0[idx].burstTime ==> Evicts(t0, stop, avail0, t0[idx].memoryRequired))
    && (t0[idx].remainingTime != t0[idx].burstTime ==> stop == 0)
    && time == now + (if t0[idx].remainingTime == t0[idx].burstTime
                      then SWAP_TIME * (Evictions(t0, stop) + 1) else 0)
               + Slice(t0[idx].remainingTime, q)
    && avail == avail0 + (if t0[idx].remainingTime == t0[idx].burstTime
                          then Freed(t0, stop) - t0[idx].memoryRequired else 0)
    && Swept(t0, t5[idx := t0[idx]], stop)
    && t5[idx] == Served(t0[idx], time - Slice(t0[idx].remainingTime, q), q)
  }

  /** The step facts of a dispatch give its outside picture. */
  lemma DispatchClock(t0: seq<Process>, t1: seq<Process>, t2: seq<Process>, t3: seq<Process>, t5: seq<Process>,
                      q4: seq<int>, q5: seq<int>, stop: int, idx: int, q: int, now: int, time2: int, time3: int,
                      avail0: int, avail2: int, completed: int, completed': int)
    requires q > 0 && SliceRan(t0, t1, t2, t3, stop, idx, q, now, time2, time3, avail0, avail2)
    requires Ended(t3, t5, q4, q5, idx, time3, completed, completed') && t0[idx].remainingTime > 0
    requires t0[idx].remainingTime == t0[idx].burstTime ==> Evicts(t0, stop, avail0, t0[idx].memoryRequired)
    ensures Turn(t0, t5, idx, stop, q, now, time3, avail0, avail2)
  {
    DispatchShape(t0, t1, t2, t3, t5, q4, q5, stop, idx, q, now, time2, time3, avail0, avail2, completed,
                  completed');
    assert t5[idx := t0[idx]] == t1;
  }

  /** Rows the eviction scan swaps out give back exactly the memory they held. */
  lemma {:induction false} SweptHeld(t0: seq<Process>, t1: seq<Process>, j: int, m: nat)
    requires Swept(t0, t1, j) && m <= |t0|
    requires forall k :: 0 <= k < |t0| && Evictable(t0[k]) ==> t0[k].totalSwapTime != 0
    ensures HeldTotal(t1, m) == HeldTotal(t0, m) - Freed(t0, if m < j then m else j)
  {
    if m > 0 {
      SweptHeld(t0, t1, j, m - 1);
    }
  }

  /** Rows with no time left to run add nothing to the time still owed. */
  lemma {:induction false} LeftNonneg(t: seq<Process>, m: nat)
    requires m <= |t| && forall k :: 0 <= k < m ==> t[k].remainingTime >= 0
    ensures Left(t, m) >= 0
  {
    if m > 0 {
      LeftNonneg(t, m - 1);
    }
  }

  /**
   * The budget across a slice: the appends made so far, those the arrival
   * scan makes, the re-append of an unfinished process and the appends still
   * owed afterwards add up to the budget; in particular the queue has room
   * for all of them (RR.c:141, 147).
   */
  lemma SliceBudget(t0: seq<Process>, t1: seq<Process>, t2: seq<Process>, t3: seq<Process>, seen0: seq<bool>,
                    qs0: seq<int>, s: seq<Process>, q: int, stop: int, idx: int, now: int, time2: int, time3: int,
                    rear0: int, avail0: int, avail2: int, total: int, completed: int)
    requires Inv(t0, seen0, qs0, s, q, now, rear0, avail0, total, completed)
    requires SliceRan(t0, t1, t2, t3, stop, idx, q, now, time2, time3, avail0, avail2)
    requires idx in qs0
    ensures rear0 + |Admissions(t3, seen0, time3, true, |t3|)| + (if t3[idx].remainingTime > 0 then 1 else 0)
            + Debt(t3, Marked(seen0, t3, time3, true, |t3|), q, |t3|) == Budget(s, q)
    ensures rear0 + |Admissions(t3, seen0, time3, true, |t3|)| + (if t3[idx].remainingTime > 0 then 1 else 0)
            <= QUEUE_CAPACITY
  {
    var n := |t0|;
    var p0 := t0[idx];
    assert seen0[idx] && p0.remainingTime > 0;
    assert t1[idx] == p0;
    var p := if p0.remainingTime == p0.burstTime then Loaded(p0) else p0;
    assert t3 == t1[idx := Sliced(p, time2, q)];
    forall k | 0 <= k < n && !seen0[k]
      ensures t0[k].remainingTime == t0[k].burstTime > 0
    {
      assert t0[k] == s[k];
    }
    SweptKept(t0, t1, stop);
    SliceDebt(t0, t1, t3, seen0, q, idx, time3, rear0, Budget(s, q));
  }

  /** The budget balance of SliceBudget, from the row facts it rests on. */
  lemma SliceDebt(t0: seq<Process>, t1: seq<Process>, t3: seq<Process>, seen0: seq<bool>, q: int, idx: int,
                  time3: int, rear0: int, budget: int)
    requires q > 0 && |t1| == |t3| == |t0| <= |seen0| && 0 <= idx < |t0| && seen0[idx]
    requires Kept(t0, t1, -1) && (forall k :: 0 <= k < |t0| ==> t1[k].burstTime == t0[k].burstTime)
    requires t1[idx] == t0[idx] && t3 == t1[idx := t3[idx]] && t0[idx].remainingTime > 0
    requires t3[idx].remainingTime == t0[idx].remainingTime - Slice(t0[idx].remainingTime, q)
    requires t3[idx].burstTime == t0[idx].burstTime
    requires forall k :: 0 <= k < |t0| && !seen0[k] ==> t0[k].remainingTime == t0[k].burstTime > 0
    requires rear0 + Debt(t0, seen0, q, |t0|) == budget
    ensures rear0 + |Admissions(t3, seen0, time3, true, |t3|)| + (if t3[idx].remainingTime > 0 then 1 else 0)
            + Debt(t3, Marked(seen0, t3, time3, true, |t3|), q, |t3|) == budget
  {
    var n := |t0|;
    forall k | 0 <= k < n && !seen0[k]
      ensures t3[k].remainingTime == t3[k].burstTime > 0
    {
      assert k != idx;
    }
    AdmissionsDebts(t3, seen0, time3, true, q, n);
    QuantaSlice(t0[idx].remainingTime, q);
    ProgressAgree(t0, t1, seen0, q, n);
    TotalsUpdate(t1, seen0, q, idx, t3[idx], n);
  }

  /** Every row still to be swapped out has been charged its swap-in (RR.c:104, 119). */
  ghost predicate Charged(t: seq<Process>)
  {
    forall k :: 0 <= k < |t| && Evictable(t[k]) ==> t[k].totalSwapTime != 0
  }

  /** No row has run past its burst. */
  ghost predicate NoOverrun(t: seq<Process>)
  {
    forall k :: 0 <= k < |t| ==> t[k].remainingTime >= 0
  }

  /** The row facts of the loop invariant that the ledgers of a dispatch of the head `idx` rest on. */
  lemma InvRowFacts(t0: seq<Process>, seen0: seq<bool>, qs0: seq<int>, s: seq<Process>, q: int, now: int,
                    rear0: int, avail0: int, total: int, completed: int, idx: int, time2: int)
    requires Inv(t0, seen0, qs0, s, q, now, rear0, avail0, total, completed) && idx in qs0
    requires now <= time2 && (t0[idx].remainingTime == t0[idx].burstTime ==> now + SWAP_TIME <= time2)
    ensures Charged(t0) && NoOverrun(t0) && t0[idx].remainingTime > 0
    ensures 0 <= Served(t0[idx], time2, q).remainingTime < t0[idx].remainingTime
    ensures Held(Served(t0[idx], time2, q))
            == Held(t0[idx]) + if t0[idx].remainingTime == t0[idx].burstTime then t0[idx].memoryRequired else 0
  {
    assert seen0[idx];
    ServedUnderway(t0[idx], s[idx], now, time2, q);
    forall k | 0 <= k < |t0| && Evictable(t0[k])
      ensures t0[k].totalSwapTime != 0
    {
      assert seen0[k];
    }
  }

  /** The eviction scan changes no row's progress. */
  lemma SweptKept(t0: seq<Process>, t1: seq<Process>, stop: int)
    requires Swept(t0, t1, stop)
    ensures Kept(t0, t1, -1)
    ensures forall k :: 0 <= k < |t0| ==> t1[k].burstTime == t0[k].burstTime
  {
  }

  /**
   * The memory ledger across a dispatch: what the eviction scan frees and
   * what loading the process takes are exactly what the rows stop and
   * start holding (RR.c:98-122).
   */
  lemma SliceMemory(t0: seq<Process>, t1: seq<Process>, t5: seq<Process>, seen: seq<bool>, stop: int, idx: int,
                    avail0: int, avail2: int, total: int)
    requires |t1| == |t5| == |t0| <= |seen| && 0 <= idx < |t0|
    requires Swept(t0, t1, stop) && t1[idx] == t0[idx] && t5 == t1[idx := t5[idx]] && Charged(t0)
    requires Held(t5[idx]) == Held(t0[idx]) + if t0[idx].remainingTime == t0[idx].burstTime then t0[idx].memoryRequired else 0
    requires avail0 + HeldTotal(t0, |t0|) == total
    requires avail2 == avail0 + Freed(t0, stop)
                       - (if t0[idx].remainingTime == t0[idx].burstTime then t0[idx].memoryRequired else 0)
    ensures avail2 + HeldTotal(t5, |t5|) == total
  {
    SweptHeld(t0, t1, stop, |t0|);
    TotalsUpdate(t1, seen, 1, idx, t5[idx], |t0|);
  }

  /**
   * The progress ledgers across a dispatch: the appends still owed and the
   * completion count keep their balance, and the time still owed strictly
   * drops.
   */
  lemma SliceProgress(t0: seq<Process>, t1: seq<Process>, t3: seq<Process>, t5: seq<Process>,
                      seen4: seq<bool>, q: int, idx: int, budget: int, rear5: int, completed: int, completed': int)
    requires q > 0 && |t1| == |t3| == |t5| == |t0| <= |seen4| && 0 <= idx < |t0|
    requires Kept(t0, t1, -1) && t3 == t1[idx := t3[idx]] && t5 == t1[idx := t5[idx]]
    requires forall k :: 0 <= k < |t0| ==> t1[k].burstTime == t0[k].burstTime
    requires t3[idx].remainingTime == t5[idx].remainingTime && t3[idx].burstTime == t5[idx].burstTime
    requires NoOverrun(t0) && 0 <= t5[idx].remainingTime < t0[idx].remainingTime
    requires completed == Finished(t0, |t0|)
    requires rear5 + Debt(t3, seen4, q, |t3|) == budget
    requires completed' == completed + (if t3[idx].remainingTime > 0 then 0 else 1)
    ensures rear5 + Debt(t5, seen4, q, |t5|) == budget
    ensures completed' == Finished(t5, |t5|)
    ensures 0 <= Left(t5, |t5|) < Left(t0, |t0|)
  {
    var n := |t0|;
    ProgressAgree(t0, t1, seen4, q, n);
    TotalsUpdate(t1, seen4, q, idx, t5[idx], n);
    ProgressAgree(t3, t5, seen4, q, n);
    forall k | 0 <= k < n
      ensures t5[k].remainingTime >= 0
    {
      if k != idx {
        assert t5[k].remainingTime == t1[k].remainingTime;
      }
    }
    LeftNonneg(t5, n);
  }

  /** A row the eviction scan leaves under way stays under way as the clock moves on. */
  lemma RowKept(p: Process, p': Process, d: Process, now: int, later: int)
    requires Underway(p, d, now) && Fresh(d) && now <= later
    requires p' == p || (Evictable(p) && p' == p.(isSwapped := true))
    ensures Underway(p', d, later)
  {
  }

  /**
   * After a dispatch every visited row is under way at the new time, every
   * other row is untouched, and every process that has arrived by then has
   * been visited.
   */
  lemma DispatchRows(t0: seq<Process>, t1: seq<Process>, t3: seq<Process>, t5: seq<Process>,
                     seen0: seq<bool>, qs0: seq<int>, s: seq<Process>, q: int, stop: int, idx: int,
                     now: int, time2: int, time3: int, rear0: int, avail0: int, total: int, completed: int)
    requires Inv(t0, seen0, qs0, s, q, now, rear0, avail0, total, completed) && idx in qs0
    requires Dispatched(t0, t1, t3, t5, stop, idx, q, now, time2, time3)
    ensures Rows(t5, Marked(seen0, t3, time3, true, |t3|), s, time3)
    ensures Arrived(s, Marked(seen0, t3, time3, true, |t3|), time3)
  {
    var n := |t0|;
    var seen4 := Marked(seen0, t3, time3, true, n);
    assert seen0[idx] && t0[idx].remainingTime > 0;
    ServedUnderway(t0[idx], s[idx], now, time2, q);
    forall k | 0 <= k < n
      ensures if seen4[k] then Underway(t5[k], s[k], time3) else t5[k] == s[k]
    {
      if k != idx {
        assert t5[k] == t1[k] && t3[k] == t1[k];
        if seen0[k] {
          RowKept(t0[k], t1[k], s[k], now, time3);
        } else {
          assert t1[k] == t0[k] == s[k];
        }
      }
    }
    forall k | 0 <= k < n && s[k].arrivalTime <= time3
      ensures seen4[k]
    {
      if !seen0[k] {
        assert k != idx && t3[k] == t1[k] == t0[k] == s[k];
      }
    }
  }

  /** Appending sequences with no common element keeps them free of duplicates. */
  lemma DistinctAppend(a: seq<int>, b: seq<int>)
    requires Distinct(a) && Distinct(b) && forall x :: x in a ==> x !in b
    ensures Distinct(a + b)
  {
    forall i, j | 0 <= i < j < |a + b|
      ensures (a + b)[i] != (a + b)[j]
    {
      if i < |a| && j >= |a| {
        assert (a + b)[i] in a && (a + b)[j] in b;
      }
    }
  }

  /** Scans over tables that agree on every unvisited row admit the same rows. */
  lemma {:induction false} AdmissionsAgree(t: seq<Process>, u: seq<Process>, seen: seq<bool>, now: int,
                                           afterSlice: bool, m: nat)
    requires m <= |t| == |u| <= |seen|
    requires forall k :: 0 <= k < m && !seen[k]
               ==> t[k].arrivalTime == u[k].arrivalTime && t[k].remainingTime == u[k].remainingTime
    ensures Admissions(t, seen, now, afterSlice, m) == Admissions(u, seen, now, afterSlice, m)
    ensures Marked(seen, t, now, afterSlice, m) == Marked(seen, u, now, afterSlice, m)
  {
    if m > 0 {
      AdmissionsAgree(t, u, seen, now, afterSlice, m - 1);
    }
  }

  /** Table `u` agrees with `t` on the arrival and remaining time of every row but `idx`. */
  ghost predicate Kept(t: seq<Process>, u: seq<Process>, idx: int)
  {
    |u| == |t|
    && forall k :: 0 <= k < |t| && k != idx
         ==> u[k].remainingTime == t[k].remainingTime && u[k].arrivalTime == t[k].arrivalTime
  }

  /** Taking the head off a queue without duplicates leaves exactly the other members. */
  lemma DequeueMembers(qs: seq<int>)
    requires Distinct(qs) && qs != []
    ensures forall x :: x in qs[1..] <==> x in qs && x != qs[0]
  {
    forall x | x in qs[1..]
      ensures x in qs && x != qs[0]
    {
      var j :| 0 <= j < |qs[1..]| && qs[1..][j] == x;
      assert qs[j + 1] == x;
    }
    forall x | x in qs && x != qs[0]
      ensures x in qs[1..]
    {
      var j :| 0 <= j < |qs| && qs[j] == x;
      assert qs[1..][j - 1] == x;
    }
  }

  lemma InRangeAppend(a: seq<int>, b: seq<int>, n: int)
    requires InRange(a, n) && InRange(b, n)
    ensures InRange(a + b, n)
  {
    forall i | 0 <= i < |a + b|
      ensures 0 <= (a + b)[i] < n
    {
      if i >= |a| {
        assert (a + b)[i] == b[i - |a|];
      }
    }
  }

  /** The rows a scan admits are valid, distinct table indices none of which was visited. */
  lemma AdmissionsShape(t: seq<Process>, seen: seq<bool>, now: int, afterSlice: bool)
    requires |t| <= |seen|
    ensures InRange(Admissions(t, seen, now, afterSlice, |t|), |t|)
    ensures Distinct(Admissions(t, seen, now, afterSlice, |t|))
    ensures forall k :: k in Admissions(t, seen, now, afterSlice, |t|)
              <==> 0 <= k < |t| && Admits(t[k], seen[k], now, afterSlice)
  {
    var adm := Admissions(t, seen, now, afterSlice, |t|);
    AdmissionsMembers(t, seen, now, afterSlice, |t|);
    forall a | 0 <= a < |adm|
      ensures 0 <= adm[a] < |t|
    {
      assert adm[a] in adm;
    }
  }

  /** The membership half of DispatchQueue: which rows the new live queue holds. */
  lemma QueueMembers(t0: seq<Process>, t3: seq<Process>, t5: seq<Process>, seen0: seq<bool>, qs0: seq<int>,
                     idx: int, time3: int)
    requires |t0| <= |seen0| && Live(qs0, t0, seen0) && qs0 != [] && idx == qs0[0]
    requires Kept(t0, t3, idx) && Kept(t0, t5, idx) && t5[idx].remainingTime == t3[idx].remainingTime
    ensures forall k :: 0 <= k < |t0| ==>
              (k in qs0[1..] + Admissions(t3, seen0, time3, true, |t3|)
                    + (if t5[idx].remainingTime > 0 then [idx] else [])
               <==> Marked(seen0, t3, time3, true, |t3|)[k] && t5[k].remainingTime > 0)
  {
    var n := |t0|;
    var adm := Admissions(t3, seen0, time3, true, n);
    var seen4 := Marked(seen0, t3, time3, true, n);
    var tail: seq<int> := if t5[idx].remainingTime > 0 then [idx] else [];
    assert idx in qs0;
    AdmissionsShape(t3, seen0, time3, true);
    DequeueMembers(qs0);
    forall k | 0 <= k < n
      ensures k in qs0[1..] + adm + tail <==> seen4[k] && t5[k].remainingTime > 0
    {
      assert k in qs0[1..] + adm + tail <==> k in qs0[1..] || k in adm || k in tail;
    }
  }

  /**
   * After a dispatch the live queue is the rest of the old one, then the
   * processes that arrived during the slice (swap time included) in table
   * order, then the dispatched process if it has time left; it again holds
   * each visited, unfinished process once (RR.c:95, 139-147).
   */
  lemma DispatchQueue(t0: seq<Process>, t3: seq<Process>, t5: seq<Process>, seen0: seq<bool>, qs0: seq<int>,
                      idx: int, time3: int)
    requires |t0| <= |seen0| && Live(qs0, t0, seen0) && qs0 != [] && idx == qs0[0]
    requires Kept(t0, t3, idx) && Kept(t0, t5, idx) && t5[idx].remainingTime == t3[idx].remainingTime
    ensures Live(qs0[1..] + Admissions(t3, seen0, time3, true, |t3|)
                 + (if t5[idx].remainingTime > 0 then [idx] else []),
                 t5, Marked(seen0, t3, time3, true, |t3|))
    ensures Admissions(t3, seen0, time3, true, |t3|) == Admissions(t0, seen0, time3, true, |t0|)
  {
    var n := |t0|;
    var adm := Admissions(t3, seen0, time3, true, n);
    var tail: seq<int> := if t5[idx].remainingTime > 0 then [idx] else [];
    var rest := qs0[1..];
    assert idx in qs0;
    AdmissionsShape(t3, seen0, time3, true);
    DequeueMembers(qs0);
    assert Distinct(rest) && InRange(rest, n) by {
      forall a | 0 <= a < |rest| ensures 0 <= rest[a] < n {
        assert rest[a] == qs0[a + 1];
      }
    }
    DistinctAppend(rest, adm);
    DistinctAppend(rest + adm, tail);
    InRangeAppend(rest, adm, n);
    InRangeAppend(rest + adm, tail, n);
    QueueMembers(t0, t3, t5, seen0, qs0, idx, time3);
    AdmissionsAgree(t3, t0, seen0, time3, true, n);
  }

  /**
   * One dispatch of calculate_rr (RR.c:95-155): the head of the queue is
   * taken off, swapped in on its first dispatch and run for one slice; the
   * processes that arrived meanwhile are queued, then the process goes back
   * to the tail or completes. The loop invariant is kept, the execution time
   * still owed drops, and the live queue becomes the rest of the old one,
   * then the arrivals in table order, then the process if it has time left.
   * `Turn` pins down the new clock, memory and table exactly; `head` is the
   * process dispatched and `stop` where the eviction scan ended.
   */
  method Dispatch(proc: array<Process>, visited: array<bool>, queue: array<int>, front: int, rear: int,
                  currentTime: int, availableMemory: int, completed: int, timeQuantum: int,
                  ghost s: seq<Process>, ghost totalMemory: int)
      returns (front': int, rear': int, time: int, avail: int, completed': int, ghost head: int, ghost stop: int)
    requires queue.Length == QUEUE_CAPACITY && 0 <= front < rear <= QUEUE_CAPACITY
    requires Inv(proc[..], visited[..], queue[front..rear], s, timeQuantum, currentTime, rear, availableMemory,
                 totalMemory, completed)
    modifies proc, visited, queue
    ensures 0 <= front' <= rear' <= QUEUE_CAPACITY
    ensures Inv(proc[..], visited[..], queue[front'..rear'], s, timeQuantum, time, rear', avail, totalMemory,
                completed')
    ensures 0 <= Left(proc[..], proc.Length) < old(Left(proc[..], proc.Length))
    ensures head == old(queue[front]) && 0 <= head < proc.Length && 0 <= stop <= proc.Length
    ensures queue[front'..rear'] == old(queue[front + 1..rear])
                                    + Admissions(old(proc[..]), old(visited[..]), time, true, proc.Length)
                                    + (if proc[head].remainingTime > 0 then [head] else [])
    ensures Turn(old(proc[..]), proc[..], head, stop, timeQuantum, currentTime, time, availableMemory, avail)
  {
    ghost var t0, seen0, qs0, q0 := proc[..], visited[..], queue[front..rear], queue[..rear];
    ghost var rest0 := queue[front + 1..rear];
    var idx := queue[front];
    assert idx == qs0[0] && idx in qs0 && q0[front..] == qs0 && rest0 == q0[front + 1..];
    head := idx;
    front' := front + 1;
    ghost var t1;
    time, avail, t1, stop := Load(proc, idx, currentTime, availableMemory);
    ghost var t2, time2 := proc[..], time;
    time := RunSlice(proc, idx, time, timeQuantum);
    ghost var t3 := proc[..];
    assert SliceRan(t0, t1, t2, t3, stop, idx, timeQuantum, currentTime, time2, time, availableMemory, avail);
    SliceBudget(t0, t1, t2, t3, seen0, qs0, s, timeQuantum, stop, idx, currentTime, time2, time, rear,
                availableMemory, avail, totalMemory, completed);
    rear' := AdmitArrivals(proc, visited, queue, rear, time, true);
    ghost var q4 := queue[..rear'];
    rear', completed' := Finish(proc, queue, idx, rear', time, completed);
    ghost var t5, q5 := proc[..], queue[..rear'];
    assert Ended(t3, t5, q4, q5, idx, time, completed, completed');
    assert queue[front'..rear'] == q5[front'..];
    DispatchKeeps(t0, t1, t2, t3, t5, seen0, q0, q4, q5, front, s, timeQuantum, stop, idx, currentTime, time2, time,
                  availableMemory, avail, totalMemory, completed, completed', visited[..], queue[front'..rear'],
                  rest0);
    DispatchClock(t0, t1, t2, t3, t5, q4, q5, stop, idx, timeQuantum, currentTime, time2, time, availableMemory,
                  avail, completed, completed');
  }

  /** The invariant, progress and queue facts of one dispatch, from the facts of its steps. */
  lemma DispatchKeeps(t0: seq<Process>, t1: seq<Process>, t2: seq<Process>, t3: seq<Process>, t5: seq<Process>,
                      seen0: seq<bool>, q0: seq<int>, q4: seq<int>, q5: seq<int>, front: int, s: seq<Process>,
                      q: int, stop: int, idx: int, now: int, time2: int, time3: int, avail0: int, avail2: int,
                      total: int, completed: int, completed': int, seen5: seq<bool>, qs5: seq<int>,
                      rest0: seq<int>)
    requires 0 <= front < |q0| && idx == q0[front]
    requires Inv(t0, seen0, q0[front..], s, q, now, |q0|, avail0, total, completed)
    requires SliceRan(t0, t1, t2, t3, stop, idx, q, now, time2, time3, avail0, avail2)
    requires q4 == q0 + Admissions(t3, seen0, time3, true, |t3|)
    requires Ended(t3, t5, q4, q5, idx, time3, completed, completed')
    requires seen5 == Marked(seen0, t3, time3, true, |t3|) && qs5 == q5[front + 1..] && rest0 == q0[front + 1..]
    ensures Inv(t5, seen5, qs5, s, q, time3, |q5|, avail2, total, completed')
    ensures 0 <= Left(t5, |t5|) < Left(t0, |t0|)
    ensures qs5 == rest0 + Admissions(t0, seen0, time3, true, |t0|) + (if t5[idx].remainingTime > 0 then [idx] else [])
  {
    var qs0 := q0[front..];
    assert idx == qs0[0] && idx in qs0;
    SliceBudget(t0, t1, t2, t3, seen0, qs0, s, q, stop, idx, now, time2, time3, |q0|, avail0, avail2, total,
                completed);
    DispatchShape(t0, t1, t2, t3, t5, q4, q5, stop, idx, q, now, time2, time3, avail0, avail2, completed,
                  completed');
    InvRowFacts(t0, seen0, qs0, s, q, now, |q0|, avail0, total, completed, idx, time2);
    SliceMemory(t0, t1, t5, seen0, stop, idx, avail0, avail2, total);
    SweptKept(t0, t1, stop);
    SliceProgress(t0, t1, t3, t5, Marked(seen0, t3, time3, true, |t3|), q, idx, Budget(s, q), |q5|,
                  completed, completed');
    DispatchRows(t0, t1, t3, t5, seen0, qs0, s, q, stop, idx, now, time2, time3, |q0|, avail0, total, completed);
    DispatchQueue(t0, t3, t5, seen0, qs0, idx, time3);
    var tail := if t5[idx].remainingTime > 0 then [idx] else [];
    QueueTail(q0, Admissions(t3, seen0, time3, true, |t3|), tail, q4, q5, front);
  }

  /** The live segment after appending to the queue and advancing its front by one. */
  lemma QueueTail(q0: seq<int>, adm: seq<int>, tail: seq<int>, q4: seq<int>, q5: seq<int>, front: int)
    requires 0 <= front < |q0| && q4 == q0 + adm && q5 == q4 + tail
    ensures q5[front + 1..] == q0[front..][1..] + adm + tail
    ensures q5[front + 1..] == q0[front + 1..] + adm + tail
  {
  }

  // -------------------------------------------------------------------------
  // Scans on an empty queue (RR.c:76-81, 84-93)

  /** Rows not visited yet are fresh: all of their burst is still to run. */
  lemma UnseenPending(t: seq<Process>, seen: seq<bool>, s: seq<Process>, now: int)
    requires |t| == |s| <= |seen| && AllFresh(s) && Rows(t, seen, s, now)
    ensures forall k :: 0 <= k < |t| && !seen[k] ==> t[k].remainingTime == t[k].burstTime > 0
  {
    forall k | 0 <= k < |t| && !seen[k]
      ensures t[k].remainingTime == t[k].burstTime > 0
    {
      assert t[k] == s[k] && Fresh(s[k]);
    }
  }

  /** The row and arrival half of ScanKeeps. */
  lemma ScanRows(t: seq<Process>, seen: seq<bool>, s: seq<Process>, now: int, later: int)
    requires |t| == |s| <= |seen| && AllFresh(s) && Rows(t, seen, s, now) && now <= later
    ensures Rows(t, Marked(seen, t, later, false, |t|), s, later)
    ensures Arrived(s, Marked(seen, t, later, false, |t|), later)
  {
    var seen' := Marked(seen, t, later, false, |t|);
    forall k | 0 <= k < |t|
      ensures if seen'[k] then Underway(t[k], s[k], later) else t[k] == s[k]
    {
      if seen[k] {
        assert Underway(t[k], s[k], now);
      } else {
        assert t[k] == s[k] && Fresh(s[k]);
      }
    }
    forall k | 0 <= k < |s| && s[k].arrivalTime <= later
      ensures seen'[k]
    {
      if !seen[k] {
        assert t[k] == s[k];
      }
    }
  }

  /**
   * An arrival scan on an empty queue, as at the start of calculate_rr
   * (RR.c:76-81) and after an idle tick (RR.c:84-91), restores the loop
   * invariant at the new time `later`: the queue holds exactly the processes
   * admitted, and the budget still fits the queue.
   */
  lemma ScanKeeps(t: seq<Process>, seen: seq<bool>, s: seq<Process>, q: int, now: int, later: int,
                  rear: int, avail: int, total: int, completed: int)
    requires q > 0 && |t| == |s| <= |seen| && AllFresh(s) && Budget(s, q) <= QUEUE_CAPACITY
    requires Rows(t, seen, s, now) && Live([], t, seen) && now <= later
    requires rear + Debt(t, seen, q, |t|) == Budget(s, q)
    requires avail + HeldTotal(t, |t|) == total && completed == Finished(t, |t|)
    ensures rear + |Admissions(t, seen, later, false, |t|)| <= QUEUE_CAPACITY
    ensures Inv(t, Marked(seen, t, later, false, |t|), Admissions(t, seen, later, false, |t|), s, q, later,
                rear + |Admissions(t, seen, later, false, |t|)|, avail, total, completed)
  {
    var adm := Admissions(t, seen, later, false, |t|);
    var seen' := Marked(seen, t, later, false, |t|);
    UnseenPending(t, seen, s, now);
    AdmissionsDebts(t, seen, later, false, q, |t|);
    AdmissionsShape(t, seen, later, false);
    ScanRows(t, seen, s, now, later);
    forall k | 0 <= k < |t|
      ensures k in adm <==> seen'[k] && t[k].remainingTime > 0
    {
      assert k !in [];
    }
  }

  /** The initial table: nothing visited, held or finished, and every append of the budget still owed. */
  lemma {:induction false} InitialTotals(t: seq<Process>, seen: seq<bool>, q: int, m: nat)
    requires q > 0 && m <= |t| <= |seen| && AllFresh(t)
    requires forall k :: 0 <= k < |seen| ==> !seen[k]
    ensures Debt(t, seen, q, m) == Budget(t[..m], q)
    ensures HeldTotal(t, m) == 0 && Finished(t, m) == 0
  {
    if m > 0 {
      InitialTotals(t, seen, q, m - 1);
      assert t[..m][..m - 1] == t[..m - 1];
      assert Fresh(t[m - 1]);
    }
  }

  /** `completed` reaches `m` exactly when every row 0..m-1 has no time left (RR.c:83, 154). */
  lemma {:induction false} FinishedAll(t: seq<Process>, m: nat)
    requires m <= |t|
    ensures Finished(t, m) <= m
    ensures Finished(t, m) == m <==> forall k :: 0 <= k < m ==> t[k].remainingTime == 0
  {
    if m > 0 {
      FinishedAll(t, m - 1);
      if Finished(t, m) == m {
        assert Finished(t, m - 1) == m - 1;
      }
    }
  }

  /** The arrival column of a table. */
  function Arrivals(t: seq<Process>): seq<int>
  {
    seq(|t|, k requires 0 <= k < |t| => t[k].arrivalTime)
  }

  /**
   * The clock only idles while some process has not arrived yet: with an
   * empty queue and a process still unfinished, the current time is before
   * the latest arrival (RR.c:83-85).
   */
  lemma IdleBound(t: seq<Process>, seen: seq<bool>, s: seq<Process>, q: int, now: int,
                  rear: int, avail: int, total: int, completed: int)
    requires Inv(t, seen, [], s, q, now, rear, avail, total, completed) && completed < |t|
    ensures now < MaxOf(Arrivals(s))
  {
    FinishedAll(t, |t|);
    forall k | 0 <= k < |t| && seen[k]
      ensures t[k].remainingTime == 0
    {
      assert Underway(t[k], s[k], now);
      assert k !in [];
    }
    var k :| 0 <= k < |t| && t[k].remainingTime != 0;
    assert Arrivals(s)[k] == s[k].arrivalTime;
  }

  /** Visited rows with no time left owe no appends. */
  lemma {:induction false} DebtSettled(t: seq<Process>, seen: seq<bool>, q: int, m: nat)
    requires q > 0 && m <= |t| <= |seen|
    requires forall k :: 0 <= k < m ==> seen[k] && t[k].remainingTime == 0
    ensures Debt(t, seen, q, m) == 0
  {
    if m > 0 {
      DebtSettled(t, seen, q, m - 1);
    }
  }

  /**
   * A process that calculate_rr has completed (RR.c:124-128, 150-152): its
   * descriptor unchanged, all of its burst run, swapped in once, started no
   * earlier than SWAP_TIME after arrival, completed no earlier than its start
   * plus its burst, with the turnaround and waiting identities.
   */
  predicate Done(p: Process, d: Process)
  {
    SameDescriptor(p, d) && p.remainingTime == 0 && Started(p, p.completionTime)
  }

  /**
   * When the loop of calculate_rr ends every process is done, and the queue
   * has taken exactly the budget of appends.
   */
  lemma RunDone(t: seq<Process>, seen: seq<bool>, qs: seq<int>, s: seq<Process>, q: int, now: int,
                rear: int, avail: int, total: int, completed: int)
    requires Inv(t, seen, qs, s, q, now, rear, avail, total, completed) && completed >= |t|
    ensures forall k :: 0 <= k < |t| ==> Done(t[k], s[k])
    ensures rear == Budget(s, q)
  {
    FinishedAll(t, |t|);
    UnseenPending(t, seen, s, now);
    forall k | 0 <= k < |t|
      ensures seen[k] && Done(t[k], s[k])
    {
      assert Underway(t[k], s[k], now);
    }
    DebtSettled(t, seen, q, |t|);
  }

  /** The live queue segment after an append to an empty one is the appended part. */
  lemma EmptyQueueAppend(q0: seq<int>, adm: seq<int>, q1: seq<int>, rear: int)
    requires |q0| == rear && q1 == q0 + adm
    ensures q1[rear..] == adm
  {
  }

  /**
   * An idle tick on an empty queue keeps the loop invariant at the next
   * time unit, and happens only before the latest arrival.
   */
  lemma IdleKeeps(t: seq<Process>, seen: seq<bool>, s: seq<Process>, q: int, now: int,
                  rear: int, avail: int, total: int, completed: int)
    requires Inv(t, seen, [], s, q, now, rear, avail, total, completed) && completed < |t|
    ensures now < MaxOf(Arrivals(s))
    ensures rear + |Admissions(t, seen, now + 1, false, |t|)| <= QUEUE_CAPACITY
    ensures Inv(t, Marked(seen, t, now + 1, false, |t|), Admissions(t, seen, now + 1, false, |t|), s, q, now + 1,
                rear + |Admissions(t, seen, now + 1, false, |t|)|, avail, total, completed)
  {
    IdleBound(t, seen, s, q, now, rear, avail, total, completed);
    ScanKeeps(t, seen, s, q, now, now + 1, rear, avail, total, completed);
  }

  /**
   * The empty-queue branch of the loop of calculate_rr (RR.c:84-93): the
   * clock ticks by one and the processes that have arrived by then are
   * queued in table order.
   */
  method IdleTick(proc: array<Process>, visited: array<bool>, queue: array<int>, rear: int, currentTime: int,
                  ghost s: seq<Process>, ghost timeQuantum: int, ghost availableMemory: int, ghost totalMemory: int,
                  ghost completed: int)
      returns (rear': int, time: int)
    requires queue.Length == QUEUE_CAPACITY && 0 <= rear <= QUEUE_CAPACITY && completed < proc.Length
    requires Inv(proc[..], visited[..], queue[rear..rear], s, timeQuantum, currentTime, rear, availableMemory,
                 totalMemory, completed)
    modifies visited, queue
    ensures time == currentTime + 1 && currentTime < MaxOf(Arrivals(s))
    ensures rear <= rear' <= QUEUE_CAPACITY
    ensures queue[rear..rear'] == Admissions(proc[..], old(visited[..]), time, false, proc.Length)
    ensures Inv(proc[..], visited[..], queue[rear..rear'], s, timeQuantum, time, rear', availableMemory,
                totalMemory, completed)
  {
    assert queue[rear..rear] == [];
    IdleKeeps(proc[..], visited[..], s, timeQuantum, currentTime, rear, availableMemory, totalMemory, completed);
    time := currentTime + 1;
    ghost var q0, seen0 := queue[..rear], visited[..];
    rear' := AdmitArrivals(proc, visited, queue, rear, time, false);
    EmptyQueueAppend(q0, Admissions(proc[..], seen0, time, false, proc.Length), queue[..rear'], rear);
  }

  // -------------------------------------------------------------------------
  // The scheduler (RR.c:64-157)

  /**
   * The scan before the loop of calculate_rr (RR.c:65-81): on a fresh table
   * with nothing visited, the processes that arrive at time 0 are queued in
   * table order, and the loop invariant holds with the full memory free and
   * nothing completed.
   */
  method AdmitInitial(proc: array<Process>, visited: array<bool>, queue: array<int>, timeQuantum: int,
                      ghost totalMemory: int)
      returns (rear: int)
    requires timeQuantum > 0 && proc.Length <= visited.Length && queue.Length == QUEUE_CAPACITY
    requires forall k :: 0 <= k < proc.Length ==> Fresh(proc[k])
    requires forall k :: 0 <= k < visited.Length ==> !visited[k]
    requires Budget(proc[..], timeQuantum) <= QUEUE_CAPACITY
    modifies visited, queue
    ensures 0 <= rear <= QUEUE_CAPACITY
    ensures queue[..rear] == Admissions(proc[..], old(visited[..]), 0, false, proc.Length)
    ensures Inv(proc[..], visited[..], queue[0..rear], proc[..], timeQuantum, 0, rear, totalMemory, totalMemory, 0)
  {
    ghost var s := proc[..];
    InitialTotals(s, visited[..], timeQuantum, proc.Length);
    assert s[..proc.Length] == s;
    ScanKeeps(s, visited[..], s, timeQuantum, 0, 0, 0, totalMemory, totalMemory, 0);
    ghost var q0, seen0 := queue[..0], visited[..];
    rear := AdmitArrivals(proc, visited, queue, 0, 0, false);
    EmptyQueueAppend(q0, Admissions(s, seen0, 0, false, proc.Length), queue[..rear], 0);
  }

  /**
   * calculate_rr (RR.c:64-157). Every process of the table is run to
   * completion in quanta of `timeQuantum`, each swapped in once on its first
   * dispatch; the ready queue takes exactly `Budget` appends, which the
   * caller keeps within its 100 slots; the free memory returned balances the
   * memory still held by resident processes.
   */
  method CalculateRr(proc: array<Process>, totalMemory: int, timeQuantum: int)
      returns (availableMemory: int, ghost appends: int)
    requires timeQuantum > 0 && proc.Length <= MAX_PROCESSES
    requires forall k :: 0 <= k < proc.Length ==> Fresh(proc[k])
    requires Budget(proc[..], timeQuantum) <= QUEUE_CAPACITY
    modifies proc
    ensures forall k :: 0 <= k < proc.Length ==> Done(proc[k], old(proc[k]))
    ensures appends == Budget(old(proc[..]), timeQuantum)
    ensures availableMemory + HeldTotal(proc[..], proc.Length) == totalMemory
  {
    ghost var s := proc[..];
    availableMemory := totalMemory;
    var queue := new int[QUEUE_CAPACITY];
    var visited := new bool[MAX_PROCESSES](_ => false);
    var rear := AdmitInitial(proc, visited, queue, timeQuantum, totalMemory);
    var front, currentTime, completed;
    front, rear, currentTime, availableMemory, completed :=
      Schedule(proc, visited, queue, 0, rear, 0, availableMemory, 0, timeQuantum, s, totalMemory);
    RunDone(proc[..], visited[..], queue[front..rear], s, timeQuantum, currentTime, rear, availableMemory,
            totalMemory, completed);
    appends := rear;
  }

  /**
   * The scheduling loop of calculate_rr (RR.c:83-156): idle ticks on an
   * empty queue, dispatches of the head otherwise, until every process has
   * completed. The invariant holds throughout; the time still owed drops
   * with every dispatch, and idle ticks stop at the latest arrival.
   */
  method Schedule(proc: array<Process>, visited: array<bool>, queue: array<int>, front: int, rear: int,
                  currentTime: int, availableMemory: int, completed: int, timeQuantum: int,
                  ghost s: seq<Process>, ghost totalMemory: int)
      returns (front': int, rear': int, time: int, avail: int, completed': int)
    requires queue.Length == QUEUE_CAPACITY && 0 <= front <= rear <= QUEUE_CAPACITY
    requires Inv(proc[..], visited[..], queue[front..rear], s, timeQuantum, currentTime, rear, availableMemory,
                 totalMemory, completed)
    modifies proc, visited, queue
    ensures completed' >= proc.Length && 0 <= front' <= rear' <= QUEUE_CAPACITY
    ensures Inv(proc[..], visited[..], queue[front'..rear'], s, timeQuantum, time, rear', avail, totalMemory,
                completed')
  {
    front', rear', time, avail, completed' := front, rear, currentTime, availableMemory, completed;
    while completed' < proc.Length
      invariant 0 <= front' <= rear' <= QUEUE_CAPACITY
      invariant Inv(proc[..], visited[..], queue[front'..rear'], s, timeQuantum, time, rear', avail, totalMemory,
                    completed')
      decreases Left(proc[..], proc.Length), MaxOf(Arrivals(s)) - time
    {
      if front' == rear' {
        rear', time := IdleTick(proc, visited, queue, rear', time, s, timeQuantum, avail, totalMemory, completed');
      } else {
        ghost var head, stop;
        front', rear', time, avail, completed', head, stop :=
          Dispatch(proc, visited, queue, front', rear', time, avail, completed', timeQuantum, s, totalMemory);
      }
    }
  }

  // -------------------------------------------------------------------------
  // The queue budget

  /** Quanta is the ceiling of the burst over the quantum: the fewest slices of `q` that cover `a`. */
  lemma {:induction false} QuantaCeil(a: int, q: int)
    requires q > 0 && a > 0
    ensures (Quanta(a, q) - 1) * q < a <= Quanta(a, q) * q
    decreases a
  {
    if a > q {
      QuantaCeil(a - q, q);
      var r := Quanta(a - q, q);
      assert Quanta(a, q) == r + 1;
      assert (r + 1) * q == r * q + q && r * q == (r - 1) * q + q;
    }
  }

  /**
   * Every process is appended once on admission and once more per
   * preemption, so the budget is at least the number of processes, and equal
   * to it exactly when no burst exceeds the quantum (RR.c:130, 146-147).
   */
  lemma {:induction false} BudgetCount(s: seq<Process>, q: int)
    requires q > 0 && AllFresh(s)
    ensures Budget(s, q) >= |s|
    ensures Budget(s, q) == |s| <==> forall k :: 0 <= k < |s| ==> s[k].burstTime <= q
  {
    if s != [] {
      var init := s[..|s| - 1];
      var b := s[|s| - 1].burstTime;
      assert AllFresh(init) by {
        forall k | 0 <= k < |init| ensures Fresh(init[k]) {
          assert init[k] == s[k];
        }
      }
      BudgetCount(init, q);
      assert Fresh(s[|s| - 1]);
      assert Quanta(b, q) == 1 + Quanta(b - q, q);
      if Budget(s, q) == |s| {
        forall k | 0 <= k < |s| ensures s[k].burstTime <= q {
          if k < |init| {
            assert s[k] == init[k];
          }
        }
      }
    }
  }

  // -------------------------------------------------------------------------
  // Performance metrics (RR.c:159-189)

  function Waitings(t: seq<Process>): seq<int>
  {
    seq(|t|, k requires 0 <= k < |t| => t[k].waitingTime)
  }

  function Turnarounds(t: seq<Process>): seq<int>
  {
    seq(|t|, k requires 0 <= k < |t| => t[k].turnaroundTime)
  }

  function Responses(t: seq<Process>): seq<int>
  {
    seq(|t|, k requires 0 <= k < |t| => t[k].responseTime)
  }

  function Bursts(t: seq<Process>): seq<int>
  {
    seq(|t|, k requires 0 <= k < |t| => t[k].burstTime)
  }

  function SwapTimes(t: seq<Process>): seq<int>
  {
    seq(|t|, k requires 0 <= k < |t| => t[k].totalSwapTime)
  }

  /** Number of processes of `t` that have been swapped out. */
  function SwappedCount(t: seq<Process>): nat
  {
    Count(seq(|t|, k requires 0 <= k < |t| => t[k].isSwapped))
  }

  lemma SwappedCountStep(s: seq<Process>, i: nat)
    requires i < |s|
    ensures SwappedCount(s[..i + 1]) == SwappedCount(s[..i]) + (if s[i].isSwapped then 1 else 0)
  {
    var f := seq(|s|, k requires 0 <= k < |s| => s[k].isSwapped);
    assert seq(i + 1, k requires 0 <= k < i + 1 => s[..i + 1][k].isSwapped) == f[..i + 1];
    assert seq(i, k requires 0 <= k < i => s[..i][k].isSwapped) == f[..i];
    CountStep(f, i);
  }

  lemma ColumnsStep(t: seq<Process>, i: nat)
    requires i < |t|
    ensures Sum(Waitings(t)[..i + 1]) == Sum(Waitings(t)[..i]) + t[i].waitingTime
    ensures Sum(Turnarounds(t)[..i + 1]) == Sum(Turnarounds(t)[..i]) + t[i].turnaroundTime
    ensures Sum(Bursts(t)[..i + 1]) == Sum(Bursts(t)[..i]) + t[i].burstTime
    ensures Sum(SwapTimes(t)[..i + 1]) == Sum(SwapTimes(t)[..i]) + t[i].totalSwapTime
    ensures SwappedCount(t[..i + 1]) == SwappedCount(t[..i]) + (if t[i].isSwapped then 1 else 0)
  {
    SumStep(Waitings(t), i);
    SumStep(Turnarounds(t), i);
    SumStep(Bursts(t), i);
    SumStep(SwapTimes(t), i);
    SwappedCountStep(t, i);
  }

  /**
   * The integer part of print_performance_metrics (RR.c:159-173): the sums of
   * waiting, turnaround, burst and swap times, the makespan (the largest
   * completion time, or 0) and the number of rows swapped out. The averages,
   * throughput and utilisation are floating-point quotients of these.
   */
  method PerformanceTotals(proc: array<Process>)
      returns (totalWt: int, totalTat: int, totalBurst: int, makespan: int,
               totalSwapTime: int, swappedCount: int)
    ensures totalWt == Sum(Waitings(proc[..])) && totalTat == Sum(Turnarounds(proc[..]))
    ensures totalBurst == Sum(Bursts(proc[..])) && totalSwapTime == Sum(SwapTimes(proc[..]))
    ensures 0 <= makespan && forall k :: 0 <= k < proc.Length ==> proc[k].completionTime <= makespan
    ensures makespan == 0 || exists k :: 0 <= k < proc.Length && proc[k].completionTime == makespan
    ensures swappedCount == SwappedCount(proc[..])
  {
    var n := proc.Length;
    ghost var t := proc[..];
    totalWt, totalTat, totalBurst, makespan, totalSwapTime, swappedCount := 0, 0, 0, 0, 0, 0;
    for i := 0 to n
      invariant totalWt == Sum(Waitings(t)[..i]) && totalTat == Sum(Turnarounds(t)[..i])
      invariant totalBurst == Sum(Bursts(t)[..i]) && totalSwapTime == Sum(SwapTimes(t)[..i])
      invariant 0 <= makespan && forall k :: 0 <= k < i ==> t[k].completionTime <= makespan
      invariant makespan == 0 || exists k :: 0 <= k < i && t[k].completionTime == makespan
      invariant swappedCount == SwappedCount(t[..i])
    {
      ColumnsStep(t, i);
      totalWt := totalWt + proc[i].waitingTime;
      totalTat := totalTat + proc[i].turnaroundTime;
      totalBurst := totalBurst + proc[i].burstTime;
      totalSwapTime := totalSwapTime + proc[i].totalSwapTime;
      if proc[i].completionTime > makespan {
        makespan := proc[i].completionTime;
      }
      if proc[i].isSwapped {
        swappedCount := swappedCount + 1;
      }
    }
    assert Waitings(t)[..n] == Waitings(t) && Turnarounds(t)[..n] == Turnarounds(t);
    assert Bursts(t)[..n] == Bursts(t) && SwapTimes(t)[..n] == SwapTimes(t) && t[..n] == t;
  }

  /**
   * After a run every waiting time is at least the response time, which is
   * at least SWAP_TIME (a preempted process also waits between its slices);
   * total turnaround is total waiting plus total burst, total response is at
   * most total waiting, and the total swap time is SWAP_TIME per process
   * (RR.c:116-117, 124-128, 150-152).
   */
  lemma TotalsAfterRun(t: seq<Process>, s: seq<Process>)
    requires |t| == |s| && forall k :: 0 <= k < |t| ==> Done(t[k], s[k])
    ensures forall k :: 0 <= k < |t| ==> t[k].waitingTime >= t[k].responseTime >= SWAP_TIME
    ensures Sum(Turnarounds(t)) == Sum(Waitings(t)) + Sum(Bursts(t))
    ensures Sum(Responses(t)) <= Sum(Waitings(t))
    ensures Sum(SwapTimes(t)) == SWAP_TIME * |t|
  {
    SumAdd(Turnarounds(t), Waitings(t), Bursts(t));
    var gaps := seq(|t|, k requires 0 <= k < |t| => t[k].waitingTime - t[k].responseTime);
    SumAdd(Waitings(t), Responses(t), gaps);
    SumNonneg(gaps);
    SumConstant(SwapTimes(t), SWAP_TIME);
  }
}
