/** The analyzer scripts themselves: the state file, the calls of process_file, and the loops. */
module JobRunner {
  import opened IntMath
  import opened JobQueue
  import opened JobRun

  const NO_STATE: Queue := Queue([], [], [])

  /** What one question about a file comes to: no answer after all retries, an answer of which
      nothing could be saved, a saved answer, or an exception. */
  datatype Reply = NoResponse | NotSaved | Saved | Raised

  /** One call of process_file, as the outside world will have it. */
  datatype Attempt = Attempt(readable: bool, replies: nat -> Reply)

  /** The analyzer asks three questions about a file, the SVG script one. */
  function Questions(variant: Variant): nat {
    match variant case Analyzer => 3 case SvgGenerator => 1
  }

  ghost predicate Completed(a: Attempt, variant: Variant) {
    a.readable && forall i: nat :: i < Questions(variant) ==> a.replies(i) == Saved
  }

  /** In the middle of a run that began with queue q and the given earlier calls. */
  ghost predicate Progress(q: Queue, calls: seq<Path>, total: nat, state: Queue, processed: seq<Path>, oracle: Oracle) {
    && total <= |q.pending|
    && state == Process(q, total, oracle, |calls|)
    && state.pending == q.pending[total..]
    && processed == calls + q.pending[..total]
  }

  lemma BatchAdvances(q: Queue, calls: seq<Path>, total: nat, done: nat, state: Queue, processed: seq<Path>,
                      oracle: Oracle)
    requires Progress(q, calls, total, state, processed, oracle) && done <= |state.pending|
    ensures Progress(q, calls, total + done, Process(state, done, oracle, |processed|),
                     processed + state.pending[..done], oracle)
  {
    ProcessInParts(q, total, done, oracle, |calls|);
    ProcessResult(q, total + done, oracle, |calls|);
    assert q.pending[..total] + q.pending[total..][..done] == q.pending[..total + done];
    assert calls + q.pending[..total] + state.pending[..done] == calls + (q.pending[..total] + state.pending[..done]);
  }

  /** A run that has worked through everything pending is where the machine's run ends. */
  lemma ProgressEnds(q: Queue, calls: seq<Path>, batches: nat, size: int, state: Queue, processed: seq<Path>,
                     oracle: Oracle, variant: Variant)
    requires Progress(q, calls, |q.pending|, state, processed, oracle)
    requires if size >= 1 then (batches - 1) * size < |q.pending| <= batches * size else batches == |q.pending| == 0
    ensures Rounds(Start(q, calls), batches, size, oracle, variant) == Driver(false, state, processed)
    ensures processed == calls + q.pending && (size >= 1 ==> batches == CeilDiv(|q.pending|, size))
  {
    assert q.pending[..|q.pending|] == q.pending;
    if size >= 1 {
      CeilDivIs(|q.pending|, size, batches);
      RunToEnd(q, calls, size, oracle, variant);
    }
  }

  /** How many of n files are in full batches. */
  function InFullBatches(n: nat, size: int): (full: nat)
    requires size >= 1
    ensures full <= n
  {
    n - n % size
  }

  lemma FullBatches(n: nat, full: nat, last: nat, size: int)
    requires size >= 1 && n == full * size + last && last < size
    ensures InFullBatches(n, size) == n - last
  {
    ModUnique(n, size, full, last);
  }

  /** Whole batches, and then perhaps a short one of `last` files. */
  ghost predicate Counted(n: nat, batches: nat, last: nat, size: int) {
    last < size && n == (if last == 0 then batches else batches - 1) * size + last
  }

  lemma CountedBatch(total: nat, batches: nat, done: nat, size: int)
    requires Counted(total, batches, 0, size) && size >= 1 && 1 <= done <= size
    ensures Counted(total + done, batches + 1, if done < size then done else 0, size)
  {
  }

  /** After a short last batch the analyzer does not load the state again. */
  lemma ShortBatchUnreported(q: Queue, calls: seq<Path>, batches: nat, last: nat, size: int, state: Queue,
                             processed: seq<Path>, oracle: Oracle)
    requires size >= 1 && Progress(q, calls, |q.pending|, state, processed, oracle)
    requires Counted(|q.pending|, batches, last, size)
    ensures Rounds(Start(q, calls), batches, size, oracle, Analyzer) == Driver(false, state, processed)
    ensures processed == calls + q.pending
    ensures batches == CeilDiv(|q.pending|, size) && InFullBatches(|q.pending|, size) == |q.pending| - last
  {
    FullBatches(|q.pending|, if last == 0 then batches else batches - 1, last, size);
    ProgressEnds(q, calls, batches, size, state, processed, oracle, Analyzer);
  }

  /** The count of batches of a run that goes on to the end: full ones, but perhaps the last. */
  ghost predicate Tallied(total: nat, batches: nat, n: nat, size: int) {
    (batches - 1) * size < total <= batches * size && (total < n ==> total == batches * size)
  }

  lemma TalliedBatch(total: nat, batches: nat, n: nat, size: int)
    requires size >= 1 && total < n && Tallied(total, batches, n, size)
    ensures Tallied(total + BatchCount(size, n - total), batches + 1, n, size)
  {
  }

  lemma NextFile(q: Queue, n: nat, oracle: Oracle, call: nat)
    requires n < |q.pending|
    ensures Process(q, n, oracle, call).pending == q.pending[n..]
    ensures Process(q, n + 1, oracle, call) == Settle(Process(q, n, oracle, call), oracle(call + n))
  {
    ProcessResult(q, n, oracle, call);
    ProcessInParts(q, n, 1, oracle, call);
    var before := Process(q, n, oracle, call);
    assert Process(before, 1, oracle, call + n) == Process(Settle(before, oracle(call + n)), 0, oracle, call + n + 1);
  }

  /** The states saved while n files are settled: one after each. */
  function StatesSaved(q: Queue, n: nat, oracle: Oracle, call: nat): seq<Queue>
    requires n <= |q.pending|
    decreases n
  {
    if n == 0 then [] else StatesSaved(q, n - 1, oracle, call) + [Process(q, n, oracle, call)]
  }

  class Runner {
    const attempts: nat -> Attempt  // the calls to come
    const variant: Variant
    var stateFile: Queue         // what load_state returns
    var processed: seq<Path>     // the calls of process_file, in order
    ghost var saved: seq<Queue>  // everything save_state wrote, in order

    /** The outcomes the calls will have. */
    ghost function Outcomes(): Oracle {
      (n: nat) => Completed(attempts(n), variant)
    }

    constructor (attempts: nat -> Attempt, variant: Variant)
      ensures this.attempts == attempts && this.variant == variant
      ensures stateFile == Queue([], [], []) && processed == [] && saved == []
    {
      this.attempts, this.variant := attempts, variant;
      stateFile, processed, saved := NO_STATE, [], [];
    }

    method SaveState(state: Queue)
      modifies this`stateFile, this`saved
      ensures stateFile == state && saved == old(saved) + [state]
    {
      stateFile := state;
      saved := saved + [state];
    }

    method FindEligibleFiles(walk: seq<Entry>, skipExisting: bool) returns (state: Queue)
      modifies this`stateFile, this`saved
      ensures state == Scan(old(stateFile), walk, skipExisting, variant) && stateFile == state
      ensures saved == old(saved) + [state]
    {
      state := stateFile;
      state := state.(pending := []);
      var i := 0;
      while i < |walk|
        invariant 0 <= i <= |walk|
        invariant state == Scan(old(stateFile), walk[..i], skipExisting, variant)
        invariant stateFile == old(stateFile) && saved == old(saved)
      {
        var e := walk[i];
        if Eligible(e, variant) {
          if skipExisting && e.documented {
            if e.path !in state.completed {
              state := state.(completed := state.completed + [e.path]);
            }
          } else if e.path !in state.completed && e.path !in state.failed {
            state := state.(pending := state.pending + [e.path]);
          }
        }
        assert walk[..i + 1][..i] == walk[..i];
        i := i + 1;
      }
      assert walk[..|walk|] == walk;
      SaveState(state);
    }

    /** Question after question until one fails: the file is completed if every answer is saved. */
    method ProcessFile(path: Path) returns (ok: bool, asked: nat)
      modifies this`processed
      ensures processed == old(processed) + [path]
      ensures var a := attempts(|old(processed)|);
              && ok == Completed(a, variant)
              && (variant == Analyzer ==>
                    ok == (a.readable && a.replies(0) == a.replies(1) == a.replies(2) == Saved)
                    && asked <= 3 && (ok ==> asked == 3))
              && (variant == SvgGenerator ==>
                    ok == (a.readable && a.replies(0) == Saved) && asked <= 1 && (ok ==> asked == 1))
              && (!ok && a.readable ==> asked >= 1 && a.replies(asked - 1) != Saved)
              && (!a.readable ==> asked == 0)
              && forall i: nat :: i + 1 < asked ==> a.replies(i) == Saved
    {
      var a := attempts(|processed|);
      processed := processed + [path];
      ok, asked := a.readable, 0;
      while ok && asked < Questions(variant)
        invariant asked <= Questions(variant) && (ok ==> a.readable)
        invariant forall i: nat :: i + 1 < asked || (ok && i < asked) ==> a.replies(i) == Saved
        invariant !ok && a.readable ==> asked >= 1 && a.replies(asked - 1) != Saved
        invariant !a.readable ==> asked == 0
      {
        ok := a.replies(asked) == Saved;
        asked := asked + 1;
      }
    }

    /** One batch: the stored state is saved after every file. */
    method ProcessBatch(batchSize: int) returns (count: nat)
      modifies this
      ensures count == BatchCount(batchSize, |old(stateFile.pending)|)
      ensures stateFile == Process(old(stateFile), count, Outcomes(), |old(processed)|)
      ensures processed == old(processed) + old(stateFile.pending)[..count]
      ensures saved == old(saved) + StatesSaved(old(stateFile), count, Outcomes(), |old(processed)|)
    {
      var state := stateFile;
      var n := BatchCount(batchSize, |state.pending|);
      ghost var pending := state.pending;
      count := 0;
      while count < n
        invariant 0 <= count <= n
        invariant stateFile == state == Process(old(stateFile), count, Outcomes(), |old(processed)|)
        invariant state.pending == pending[count..]
        invariant processed == old(processed) + pending[..count]
        invariant saved == old(saved) + StatesSaved(old(stateFile), count, Outcomes(), |old(processed)|)
      {
        var path := state.pending[0];
        var ok, asked := ProcessFile(path);
        NextFile(old(stateFile), count, Outcomes(), |old(processed)|);
        state := if ok then Queue(state.pending[1..], state.completed + [path], state.failed)
                 else Queue(state.pending[1..], state.completed, state.failed + [path]);
        SaveState(state);
        count := count + 1;
      }
    }

    /** The analyzer's driver. It comes to an end only if the batch size is positive or nothing is
        pending after the scan. The status it reports at the end is the state it last loaded, which
        a short last batch leaves out of date. */
    method ProcessDirectory(walk: seq<Entry>, skipExisting: bool, batchSize: int)
      returns (total: nat, reported: Queue, ghost batches: nat)
      requires variant == Analyzer
      requires batchSize >= 1 || Scan(stateFile, walk, skipExisting, variant).pending == []
      modifies this
      ensures var q := Scan(old(stateFile), walk, skipExisting, Analyzer);
              var n := |q.pending|;
              && Rounds(Start(q, old(processed)), batches, batchSize, Outcomes(), Analyzer)
              == Driver(false, stateFile, processed)
              && stateFile == Process(q, n, Outcomes(), |old(processed)|)
              && processed == old(processed) + q.pending
              && total == n
              && (if batchSize >= 1 then
                    && batches == CeilDiv(n, batchSize)
                    && reported == Process(q, InFullBatches(n, batchSize), Outcomes(), |old(processed)|)
                  else batches == 0 && reported == q)
    {
      var state := FindEligibleFiles(walk, skipExisting);
      total, batches := 0, 0;
      if state.pending == [] {
        return 0, state, 0;
      }
      ghost var q, calls, oracle, last := state, processed, Outcomes(), 0;
      while state.pending != []
        invariant stateFile == state && Progress(q, calls, total, state, processed, oracle)
        invariant Counted(total, batches, 0, batchSize)
        decreases |state.pending|
      {
        BatchAdvances(q, calls, total, BatchCount(batchSize, |state.pending|), state, processed, oracle);
        var done := ProcessBatch(batchSize);
        CountedBatch(total, batches, done, batchSize);
        total, batches := total + done, batches + 1;
        if done < batchSize {
          last := done;
          break;
        }
        state := stateFile;
      }
      ShortBatchUnreported(q, calls, batches, last, batchSize, stateFile, processed, oracle);
      reported := state;
    }

    /** The SVG variant's driver, which ends for every batch size. */
    method MainProcess(walk: seq<Entry>, skipExisting: bool, batchSize: int) returns (total: nat, ghost batches: nat)
      requires variant == SvgGenerator
      modifies this
      ensures var q := Scan(old(stateFile), walk, skipExisting, SvgGenerator);
              && Rounds(Start(q, old(processed)), batches, batchSize, Outcomes(), SvgGenerator)
              == Driver(false, stateFile, processed)
              && batches == (if batchSize >= 1 then CeilDiv(|q.pending|, batchSize)
                             else if q.pending == [] then 0 else 1)
              && total == (if batchSize >= 1 then |q.pending| else 0)
              && stateFile == Process(q, total, Outcomes(), |old(processed)|)
              && processed == old(processed) + q.pending[..total]
    {
      var q := FindEligibleFiles(walk, skipExisting);
      total, batches := 0, 0;
      ghost var calls, oracle := processed, Outcomes();
      while true
        invariant Progress(q, calls, total, stateFile, processed, oracle)
        invariant batchSize < 1 ==> total == 0 && batches == 0
        invariant batchSize >= 1 ==> Tallied(total, batches, |q.pending|, batchSize)
        decreases |q.pending| - total
      {
        var state := stateFile;
        if state.pending == [] {
          break;
        }
        BatchAdvances(q, calls, total, BatchCount(batchSize, |state.pending|), state, processed, oracle);
        if batchSize >= 1 {
          TalliedBatch(total, batches, |q.pending|, batchSize);
        }
        var done := ProcessBatch(batchSize);
        total, batches := total + done, batches + 1;
        if done == 0 {
          break;
        }
      }
      if batchSize >= 1 || q.pending == [] {
        ProgressEnds(q, calls, batches, batchSize, stateFile, processed, oracle, variant);
      } else {
        SvgEmptyBatch(q, calls, batchSize, oracle);
      }
    }
  }
}
