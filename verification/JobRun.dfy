/** Batches and the loops that drive them, with a store that keeps what is saved. */
module JobRun {
  import opened IntMath
  import opened JobQueue

  /** The outcome of the n-th call of process_file: completed or not. */
  type Oracle = nat -> bool

  /** The first pending file moves to completed or failed. */
  function Settle(q: Queue, ok: bool): Queue
    requires q.pending != []
  {
    if ok then Queue(q.pending[1..], q.completed + [q.pending[0]], q.failed)
    else Queue(q.pending[1..], q.completed, q.failed + [q.pending[0]])
  }

  /** n files settled, the first of them by the given call. */
  function Process(q: Queue, n: nat, oracle: Oracle, call: nat): (r: Queue)
    requires n <= |q.pending|
    ensures |r.pending| == |q.pending| - n
    decreases n
  {
    if n == 0 then q else Process(Settle(q, oracle(call)), n - 1, oracle, call + 1)
  }

  /** The paths among consecutive calls whose outcome was `ok`, in order. */
  function WithOutcome(paths: seq<Path>, oracle: Oracle, call: nat, ok: bool): seq<Path> {
    if paths == [] then []
    else (if oracle(call) == ok then [paths[0]] else []) + WithOutcome(paths[1..], oracle, call + 1, ok)
  }

  /** The queue after n files: they leave pending in order, and completed and failed grow by
      exactly the successes and the failures among them. */
  lemma {:induction false} ProcessResult(q: Queue, n: nat, oracle: Oracle, call: nat)
    requires n <= |q.pending|
    ensures Process(q, n, oracle, call)
         == Queue(q.pending[n..], q.completed + WithOutcome(q.pending[..n], oracle, call, true),
                  q.failed + WithOutcome(q.pending[..n], oracle, call, false))
    decreases n
  {
    if n == 0 {
    } else {
      var q' := Settle(q, oracle(call));
      ProcessResult(q', n - 1, oracle, call + 1);
      assert q'.pending[n - 1..] == q.pending[n..];
      assert q.pending[..n][1..] == q'.pending[..n - 1];
    }
  }

  function Everything(q: Queue): multiset<Path> {
    multiset(q.pending) + multiset(q.completed) + multiset(q.failed)
  }

  lemma SettleConserves(q: Queue, ok: bool)
    requires q.pending != []
    ensures Everything(Settle(q, ok)) == Everything(q)
  {
    var rest := q.pending[1..];
    assert q.pending == [q.pending[0]] + rest;
    assert multiset(q.pending) == multiset{q.pending[0]} + multiset(rest);
  }

  /** No file is lost or invented. */
  lemma {:induction false} ProcessConserves(q: Queue, n: nat, oracle: Oracle, call: nat)
    requires n <= |q.pending|
    ensures Everything(Process(q, n, oracle, call)) == Everything(q)
    decreases n
  {
    if n == 0 {
    } else {
      SettleConserves(q, oracle(call));
      ProcessConserves(Settle(q, oracle(call)), n - 1, oracle, call + 1);
    }
  }

  lemma {:induction false} ProcessInParts(q: Queue, a: nat, b: nat, oracle: Oracle, call: nat)
    requires a + b <= |q.pending|
    ensures Process(q, a + b, oracle, call) == Process(Process(q, a, oracle, call), b, oracle, call + a)
    decreases a
  {
    if a == 0 {
    } else {
      ProcessInParts(Settle(q, oracle(call)), a - 1, b, oracle, call + 1);
    }
  }

  /* ---------------- the driving loops ---------------- */

  /** len(range(min(size, n))): a size below 1 gives an empty batch. */
  function BatchCount(size: int, n: nat): nat {
    if size <= 0 then 0 else if size < n then size else n
  }

  /** The loop at its head: does it go on, the stored queue, and every file processed so far. */
  datatype Driver = Driver(running: bool, queue: Queue, processed: seq<Path>)

  /** The loop as it begins: the scan has stored q, and earlier runs have made the given calls. */
  function Start(q: Queue, calls: seq<Path>): Driver {
    Driver(q.pending != [], q, calls)
  }

  /** One turn: a batch, then the loop's own test. The analyzer stops after a short batch, the SVG
      variant after an empty one; both stop when nothing is pending. */
  function Round(d: Driver, size: int, oracle: Oracle, variant: Variant): Driver {
    var n := BatchCount(size, |d.queue.pending|);
    var q := Process(d.queue, n, oracle, |d.processed|);
    var goesOn := match variant case Analyzer => n >= size case SvgGenerator => n != 0;
    Driver(goesOn && q.pending != [], q, d.processed + d.queue.pending[..n])
  }

  function Rounds(d: Driver, count: nat, size: int, oracle: Oracle, variant: Variant): Driver
    decreases count
  {
    if count == 0 || !d.running then d
    else Rounds(Round(d, size, oracle, variant), count - 1, size, oracle, variant)
  }

  /** The smallest number of batches of the given size that hold n files. */
  function CeilDiv(n: nat, size: int): nat
    requires size >= 1
  {
    (n + size - 1) / size
  }

  lemma CeilDivBounds(n: nat, size: int)
    requires size >= 1
    ensures (CeilDiv(n, size) - 1) * size < n <= CeilDiv(n, size) * size
    ensures n == 0 ==> CeilDiv(n, size) == 0
  {
    var x := n + size - 1;
    assert x == size * (x / size) + x % size;
  }

  lemma CeilDivIs(n: nat, size: int, c: nat)
    requires size >= 1 && (c - 1) * size < n <= c * size
    ensures CeilDiv(n, size) == c
  {
    var x := CeilDiv(n, size);
    CeilDivBounds(n, size);
    AtLeastOnce(x - c, size);
    AtLeastOnce(c - x, size);
    assert size * (x - c) == (x - 1) * size - (c - 1) * size == x * size - c * size;
    assert size * (c - x) == c * size - x * size;
  }

  /** One turn that leaves something pending for a next one. */
  lemma FullRound(d: Driver, size: int, oracle: Oracle, variant: Variant)
    requires 1 <= size < |d.queue.pending|
    ensures var d' := Round(d, size, oracle, variant);
            && d'.running && d'.queue.pending == d.queue.pending[size..]
            && d'.queue == Process(d.queue, size, oracle, |d.processed|)
            && d'.processed == d.processed + d.queue.pending[..size]
  {
    ProcessResult(d.queue, size, oracle, |d.processed|);
  }

  lemma LastRound(d: Driver, size: int, oracle: Oracle, variant: Variant)
    requires d.running && 1 <= |d.queue.pending| <= size
    ensures Rounds(d, 1, size, oracle, variant)
         == Driver(false, Process(d.queue, |d.queue.pending|, oracle, |d.processed|), d.processed + d.queue.pending)
  {
    assert d.queue.pending[..|d.queue.pending|] == d.queue.pending;
    assert Rounds(d, 1, size, oracle, variant) == Round(d, size, oracle, variant);
  }

  lemma OneBatch(n: nat, size: int, c: nat)
    requires (c - 1) * size < n <= c * size && 1 <= n <= size
    ensures c == 1
  {
    AtLeastOnce(c - 1, size);
    assert (c - 1) * size == size * (c - 1);
  }

  lemma OneBatchLess(n: nat, size: int, c: nat)
    requires (c - 1) * size < n <= c * size && 1 <= size < n
    ensures c >= 2 && (c - 2) * size < n - size <= (c - 1) * size
  {
    assert (c - 2) * size == (c - 1) * size - size == c * size - 2 * size;
  }

  lemma Rejoin(before: seq<Path>, paths: seq<Path>, k: nat)
    requires k <= |paths|
    ensures before + paths[..k] + paths[k..] == before + paths
  {
  }

  /** The run from any loop head with something pending: c batches, where c is the ceiling of
      n / size, process each pending file once and in queue order, and leave nothing pending. */
  lemma {:induction false} RunFrom(d: Driver, size: int, c: nat, oracle: Oracle, variant: Variant)
    requires d.running && d.queue.pending != [] && size >= 1
    requires (c - 1) * size < |d.queue.pending| <= c * size
    ensures Rounds(d, c, size, oracle, variant)
         == Driver(false, Process(d.queue, |d.queue.pending|, oracle, |d.processed|), d.processed + d.queue.pending)
    decreases c
  {
    var pending := d.queue.pending;
    if |pending| <= size {
      OneBatch(|pending|, size, c);
      LastRound(d, size, oracle, variant);
    } else {
      FullRound(d, size, oracle, variant);
      OneBatchLess(|pending|, size, c);
      RunFrom(Round(d, size, oracle, variant), size, c - 1, oracle, variant);
      ProcessInParts(d.queue, size, |pending| - size, oracle, |d.processed|);
      Rejoin(d.processed, pending, size);
    }
  }

  lemma {:induction false} RunningBefore(d: Driver, r: nat, size: int, c: nat, oracle: Oracle, variant: Variant)
    requires d.running && d.queue.pending != [] && size >= 1
    requires (c - 1) * size < |d.queue.pending| <= c * size && r < c
    ensures Rounds(d, r, size, oracle, variant).running
    decreases r
  {
    if r == 0 {
    } else {
      assert (c - 1) * size >= size;
      FullRound(d, size, oracle, variant);
      OneBatchLess(|d.queue.pending|, size, c);
      RunningBefore(Round(d, size, oracle, variant), r - 1, size, c - 1, oracle, variant);
    }
  }

  /** Both loops, from the queue the scan stored. */
  lemma RunToEnd(q: Queue, calls: seq<Path>, size: int, oracle: Oracle, variant: Variant)
    requires size >= 1
    ensures var n := |q.pending|;
            var end := Rounds(Start(q, calls), CeilDiv(n, size), size, oracle, variant);
            && end == Driver(false, Process(q, n, oracle, |calls|), calls + q.pending)
            && end.queue == Queue([], q.completed + WithOutcome(q.pending, oracle, |calls|, true),
                                  q.failed + WithOutcome(q.pending, oracle, |calls|, false))
            && Everything(end.queue) == Everything(q)
            && forall r: nat :: r < CeilDiv(n, size) ==> Rounds(Start(q, calls), r, size, oracle, variant).running
  {
    var c := CeilDiv(|q.pending|, size);
    CeilDivBounds(|q.pending|, size);
    if q.pending != [] {
      RunFrom(Start(q, calls), size, c, oracle, variant);
      forall r: nat | r < c ensures Rounds(Start(q, calls), r, size, oracle, variant).running {
        RunningBefore(Start(q, calls), r, size, c, oracle, variant);
      }
    }
    ProcessResult(q, |q.pending|, oracle, |calls|);
    ProcessConserves(q, |q.pending|, oracle, |calls|);
    assert q.pending[..|q.pending|] == q.pending;
  }

  /** A batch size below 1 leaves the analyzer's loop where it is. */
  lemma {:induction false} EmptyBatchesForEver(d: Driver, size: int, oracle: Oracle, count: nat)
    requires size <= 0 && d.running && d.queue.pending != []
    ensures Rounds(d, count, size, oracle, Analyzer) == d
    decreases count
  {
    if count == 0 {
    } else {
      assert Round(d, size, oracle, Analyzer) == d;
      EmptyBatchesForEver(d, size, oracle, count - 1);
    }
  }

  /** The SVG variant with a batch size below 1 ends without processing anything. */
  lemma SvgEmptyBatch(q: Queue, calls: seq<Path>, size: int, oracle: Oracle)
    requires size <= 0
    ensures Rounds(Start(q, calls), 1, size, oracle, SvgGenerator) == Driver(false, q, calls)
  {
    if q.pending != [] {
      var d := Round(Start(q, calls), size, oracle, SvgGenerator);
      assert d == Driver(false, q, calls);
    }
  }

  /** Exactly when each loop comes to an end. */
  lemma EndsIff(q: Queue, calls: seq<Path>, size: int, oracle: Oracle, variant: Variant)
    ensures (exists r: nat :: !Rounds(Start(q, calls), r, size, oracle, variant).running)
       <==> size >= 1 || q.pending == [] || variant == SvgGenerator
  {
    if size >= 1 {
      RunToEnd(q, calls, size, oracle, variant);
    } else if q.pending == [] {
      assert !Rounds(Start(q, calls), 0, size, oracle, variant).running;
    } else if variant == SvgGenerator {
      SvgEmptyBatch(q, calls, size, oracle);
      assert !Rounds(Start(q, calls), 1, size, oracle, variant).running;
    } else {
      forall r: nat ensures Rounds(Start(q, calls), r, size, oracle, variant).running {
        EmptyBatchesForEver(Start(q, calls), size, oracle, r);
      }
    }
  }
}
