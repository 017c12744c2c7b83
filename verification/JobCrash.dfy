/** Runs of the analyzer that are killed and started again, with a state file that is written
    whole and a tree of files that stays as it is. */
module JobCrash {
  import opened JobQueue
  import opened JobRun
  import opened Sequences

  /** What the running process holds in memory. */
  datatype Session =
    | NotRunning
    | Ready(q: Queue)             // between files
    | Called(q: Queue, ok: bool)  // process_file was called and its outcome not yet saved

  /** A call of process_file and what it came to. */
  datatype CallMade = CallMade(path: Path, ok: bool)

  datatype World = World(disk: Queue, session: Session, calls: seq<CallMade>, kills: nat)

  datatype Happening =
    | Begin(walk: seq<Entry>, skipExisting: bool)  // a start, up to the save after the scan
    | Call(ok: bool)                               // process_file on the first pending file
    | Save                                         // the file moved, the state saved
    | Finish                                       // nothing pending, the process ends
    | Kill

  predicate Enabled(w: World, h: Happening) {
    match h
    case Begin(_, _) => w.session.NotRunning?
    case Call(_) => w.session.Ready? && w.session.q.pending != []
    case Save => w.session.Called? && w.session.q.pending != []
    case Finish => w.session.Ready? && w.session.q.pending == []
    case Kill => true
  }

  function Happen(w: World, h: Happening, variant: Variant): World
    requires Enabled(w, h)
  {
    match h
    case Begin(walk, skip) =>
      var q := Scan(w.disk, walk, skip, variant);
      w.(disk := q, session := Ready(q))
    case Call(ok) =>
      w.(session := Called(w.session.q, ok), calls := w.calls + [CallMade(w.session.q.pending[0], ok)])
    case Save =>
      var q := Settle(w.session.q, w.session.ok);
      w.(disk := q, session := Ready(q))
    case Finish => w.(session := NotRunning)
    case Kill => w.(session := NotRunning, kills := w.kills + 1)
  }

  /** A history whose every start walks the same tree, in whatever order. */
  ghost predicate Possible(w: World, history: seq<Happening>, tree: set<Path>, variant: Variant)
    decreases history
  {
    if history == [] then true
    else
      && Enabled(w, history[0])
      && (history[0].Begin? ==> Distinct(history[0].walk) && EligiblePaths(history[0].walk, variant) == tree)
      && Possible(Happen(w, history[0], variant), history[1..], tree, variant)
  }

  ghost function After(w: World, history: seq<Happening>, tree: set<Path>, variant: Variant): World
    requires Possible(w, history, tree, variant)
    decreases history
  {
    if history == [] then w else After(Happen(w, history[0], variant), history[1..], tree, variant)
  }

  /** The files of the tree that are done with. */
  ghost function Done(q: Queue, tree: set<Path>): set<Path> {
    Settled(q) * tree
  }

  ghost predicate Consistent(w: World, tree: set<Path>) {
    match w.session
    case NotRunning => true
    case Ready(q) => q == w.disk && Partitioned(q, tree)
    case Called(q, _) => q == w.disk && Partitioned(q, tree) && q.pending != []
  }

  /** Calls are paid for by files done with, kills, and the one call under way. */
  ghost predicate Accounted(w: World, tree: set<Path>, before: nat) {
    && Consistent(w, tree)
    && before + |w.calls| <= |Done(w.disk, tree)| + w.kills + if w.session.Called? then 1 else 0
  }

  function KillsIn(history: seq<Happening>): nat {
    if history == [] then 0 else (if history[0].Kill? then 1 else 0) + KillsIn(history[1..])
  }

  function CallsIn(history: seq<Happening>): nat {
    if history == [] then 0 else (if history[0].Call? then 1 else 0) + CallsIn(history[1..])
  }

  lemma {:induction false} Recorded(w: World, history: seq<Happening>, tree: set<Path>, variant: Variant)
    requires Possible(w, history, tree, variant)
    ensures After(w, history, tree, variant).kills == w.kills + KillsIn(history)
    ensures |After(w, history, tree, variant).calls| == |w.calls| + CallsIn(history)
    decreases history
  {
    if history == [] {
    } else {
      Recorded(Happen(w, history[0], variant), history[1..], tree, variant);
    }
  }

  lemma SubsetSize(a: set<Path>, b: set<Path>)
    requires a <= b
    ensures |a| <= |b|
  {
    assert b == a + (b - a);
  }

  lemma SavePartitions(q: Queue, ok: bool, tree: set<Path>)
    requires Partitioned(q, tree) && q.pending != []
    ensures Partitioned(Settle(q, ok), tree)
    ensures Done(Settle(q, ok), tree) == Done(q, tree) + {q.pending[0]}
    ensures q.pending[0] !in Done(q, tree) && q.pending[0] in tree
  {
    var p, r := q.pending[0], Settle(q, ok);
    assert q.pending == [p] + r.pending;
    assert Settled(r) == Settled(q) + {p};
    assert forall x :: x in r.pending ==> x in q.pending;
    forall i | 0 <= i < |r.pending| ensures r.pending[i] != p {
      assert q.pending[i + 1] == r.pending[i];
    }
  }

  lemma HappenConsistent(w: World, h: Happening, tree: set<Path>, variant: Variant)
    requires Consistent(w, tree) && Enabled(w, h)
    requires h.Begin? ==> Distinct(h.walk) && EligiblePaths(h.walk, variant) == tree
    ensures Consistent(Happen(w, h, variant), tree)
  {
    match h
    case Begin(walk, skip) => ScanPartition(w.disk, walk, skip, variant);
    case Save => SavePartitions(w.disk, w.session.ok, tree);
    case Call(_) =>
    case Finish =>
    case Kill =>
  }

  lemma HappenAccounted(w: World, h: Happening, tree: set<Path>, before: nat, variant: Variant)
    requires Accounted(w, tree, before) && Enabled(w, h)
    requires h.Begin? ==> Distinct(h.walk) && EligiblePaths(h.walk, variant) == tree
    ensures Accounted(Happen(w, h, variant), tree, before)
    ensures Done(w.disk, tree) <= Done(Happen(w, h, variant).disk, tree)
  {
    match h
    case Begin(walk, skip) =>
      ScanPartition(w.disk, walk, skip, variant);
      SubsetSize(Done(w.disk, tree), Done(Scan(w.disk, walk, skip, variant), tree));
    case Save => SavePartitions(w.disk, w.session.ok, tree);
    case Call(_) =>
    case Finish =>
    case Kill =>
  }

  lemma {:induction false} HistoryAccounted(w: World, history: seq<Happening>, tree: set<Path>, before: nat,
                                            variant: Variant)
    requires Accounted(w, tree, before) && Possible(w, history, tree, variant)
    ensures Accounted(After(w, history, tree, variant), tree, before)
    ensures Done(w.disk, tree) <= Done(After(w, history, tree, variant).disk, tree)
    decreases history
  {
    if history == [] {
    } else {
      HappenAccounted(w, history[0], tree, before, variant);
      HistoryAccounted(Happen(w, history[0], variant), history[1..], tree, before, variant);
    }
  }

  /** However often the program is killed and started again, process_file is called at most once for
      each file not done with at the beginning, plus once for each kill; and nothing is undone. */
  lemma CallsBounded(disk: Queue, history: seq<Happening>, tree: set<Path>, variant: Variant)
    requires Possible(World(disk, NotRunning, [], 0), history, tree, variant)
    ensures var w := After(World(disk, NotRunning, [], 0), history, tree, variant);
            && |w.calls| == CallsIn(history) <= |tree - Settled(disk)| + KillsIn(history)
            && Done(disk, tree) <= Done(w.disk, tree)
  {
    var start := World(disk, NotRunning, [], 0);
    HistoryAccounted(start, history, tree, |Done(disk, tree)|, variant);
    Recorded(start, history, tree, variant);
    var w := After(start, history, tree, variant);
    var done := Done(w.disk, tree);
    if w.session.Called? {
      SavePartitions(w.disk, w.session.ok, tree);
      SubsetSize(done + {w.disk.pending[0]}, tree);
    } else {
      SubsetSize(done, tree);
    }
    assert tree == Done(disk, tree) + (tree - Settled(disk));
  }

  /** A run that gets to its end has settled every eligible file. */
  lemma FinishSettlesTree(disk: Queue, history: seq<Happening>, tree: set<Path>, variant: Variant)
    requires Possible(World(disk, NotRunning, [], 0), history, tree, variant)
    requires Enabled(After(World(disk, NotRunning, [], 0), history, tree, variant), Finish)
    ensures forall p :: p in tree ==> p in Settled(After(World(disk, NotRunning, [], 0), history, tree, variant).disk)
  {
    HistoryAccounted(World(disk, NotRunning, [], 0), history, tree, |Done(disk, tree)|, variant);
  }

  /* ---------------- where a file goes ---------------- */

  datatype Verdict = Never | Last(ok: bool)

  /** What the last call on a file came to. */
  function LastCall(calls: seq<CallMade>, p: Path): Verdict {
    if calls == [] then Never
    else if calls[|calls| - 1].path == p then Last(calls[|calls| - 1].ok)
    else LastCall(calls[..|calls| - 1], p)
  }

  lemma LastCallAfter(calls: seq<CallMade>, call: CallMade, p: Path)
    ensures LastCall(calls + [call], p) == if p == call.path then Last(call.ok) else LastCall(calls, p)
  {
    assert (calls + [call])[..|calls|] == calls;
  }

  /** The files whose outputs a start met, when it looked for them. */
  ghost function MetDocumented(h: Happening): set<Path> {
    if h.Begin? && h.skipExisting then set i | 0 <= i < |h.walk| && h.walk[i].documented :: h.walk[i].path else {}
  }

  ghost function Documented(history: seq<Happening>): set<Path> {
    if history == [] then {} else MetDocumented(history[0]) + Documented(history[1..])
  }

  /** Whatever is listed as completed or failed was listed so at the beginning, or its last call came to
      that, or its outputs were met; and nothing listed is forgotten. */
  ghost predicate Vouched(w: World, disk: Queue, met: set<Path>) {
    && (forall p :: p in w.disk.completed ==> p in disk.completed || p in met || LastCall(w.calls, p) == Last(true))
    && (forall p :: p in w.disk.failed ==> p in disk.failed || LastCall(w.calls, p) == Last(false))
    && disk.completed <= w.disk.completed && disk.failed <= w.disk.failed
    && (w.session.Called? && w.session.q.pending != [] ==>
          LastCall(w.calls, w.session.q.pending[0]) == Last(w.session.ok))
  }

  lemma BeginVouched(w: World, h: Happening, disk: Queue, met: set<Path>, variant: Variant)
    requires Vouched(w, disk, met) && h.Begin? && Enabled(w, h) && Distinct(h.walk)
    ensures Vouched(Happen(w, h, variant), disk, met + MetDocumented(h))
  {
    ScanClosedForm(w.disk, h.walk, h.skipExisting, variant);
    forall p | p in Select(h.walk, NewlyDocumented(w.disk, h.skipExisting, variant)) ensures p in MetDocumented(h) {
      SelectMembers(h.walk, NewlyDocumented(w.disk, h.skipExisting, variant), p);
    }
  }

  lemma CallVouched(w: World, h: Happening, tree: set<Path>, disk: Queue, met: set<Path>, variant: Variant)
    requires Consistent(w, tree) && Vouched(w, disk, met) && h.Call? && Enabled(w, h)
    ensures Vouched(Happen(w, h, variant), disk, met)
  {
    var called, r := w.disk.pending[0], Happen(w, h, variant);
    LastCallAfter(w.calls, CallMade(called, h.ok), called);
    assert called !in Settled(w.disk);
    forall p | p in w.disk.completed || p in w.disk.failed ensures LastCall(r.calls, p) == LastCall(w.calls, p) {
      assert p in Settled(w.disk);
      LastCallAfter(w.calls, CallMade(called, h.ok), p);
    }
  }

  lemma {:induction false} HistoryVouched(w: World, history: seq<Happening>, tree: set<Path>, disk: Queue,
                                          met: set<Path>, variant: Variant)
    requires Consistent(w, tree) && Vouched(w, disk, met) && Possible(w, history, tree, variant)
    ensures Vouched(After(w, history, tree, variant), disk, met + Documented(history))
    decreases history
  {
    if history == [] {
      assert met + Documented(history) == met;
    } else {
      var h := history[0];
      HappenConsistent(w, h, tree, variant);
      if h.Begin? {
        BeginVouched(w, h, disk, met, variant);
      } else {
        assert met + MetDocumented(h) == met;
        if h.Call? {
          CallVouched(w, h, tree, disk, met, variant);
        }
      }
      HistoryVouched(Happen(w, h, variant), history[1..], tree, disk, met + MetDocumented(h), variant);
      assert met + MetDocumented(h) + Documented(history[1..]) == met + Documented(history);
    }
  }

  /** After any history of starts and kills: a file newly in completed had its last call completed, or its
      outputs were met by a scan; a file newly in failed had its last call failed; and what was settled
      before stays where it was. */
  lemma OutcomesKept(disk: Queue, history: seq<Happening>, tree: set<Path>, variant: Variant)
    requires Possible(World(disk, NotRunning, [], 0), history, tree, variant)
    ensures var w := After(World(disk, NotRunning, [], 0), history, tree, variant);
            && disk.completed <= w.disk.completed && disk.failed <= w.disk.failed
            && (forall p :: p in w.disk.completed && p !in disk.completed && p !in Documented(history) ==>
                  LastCall(w.calls, p) == Last(true))
            && (forall p :: p in w.disk.failed && p !in disk.failed ==> LastCall(w.calls, p) == Last(false))
  {
    HistoryVouched(World(disk, NotRunning, [], 0), history, tree, disk, {}, variant);
    assert {} + Documented(history) == Documented(history);
  }

  /* ---------------- a run that is left alone ends ---------------- */

  /** n calls, each followed by its save, with the outcomes of the oracle. */
  function WorkOff(n: nat, oracle: Oracle, call: nat): seq<Happening>
    decreases n
  {
    if n == 0 then [] else [Call(oracle(call)), Save] + WorkOff(n - 1, oracle, call + 1)
  }

  /** The calls made on these files. */
  function CallsOn(paths: seq<Path>, oracle: Oracle, call: nat): seq<CallMade> {
    if paths == [] then [] else [CallMade(paths[0], oracle(call))] + CallsOn(paths[1..], oracle, call + 1)
  }

  lemma TwoMore(w: World, a: Happening, b: Happening, rest: seq<Happening>, tree: set<Path>, variant: Variant)
    requires Enabled(w, a) && !a.Begin? && Enabled(Happen(w, a, variant), b) && !b.Begin?
    requires Possible(Happen(Happen(w, a, variant), b, variant), rest, tree, variant)
    ensures Possible(w, [a, b] + rest, tree, variant)
    ensures After(w, [a, b] + rest, tree, variant)
         == After(Happen(Happen(w, a, variant), b, variant), rest, tree, variant)
  {
    var history := [a, b] + rest;
    assert history[1..] == [b] + rest && ([b] + rest)[1..] == rest;
    assert Possible(Happen(w, a, variant), [b] + rest, tree, variant);
  }

  lemma {:induction false} WorkOffFinishes(w: World, n: nat, oracle: Oracle, call: nat, tree: set<Path>,
                                           variant: Variant)
    requires w.session == Ready(w.disk) && n == |w.disk.pending|
    ensures Possible(w, WorkOff(n, oracle, call), tree, variant)
    ensures var q := Process(w.disk, n, oracle, call);
            After(w, WorkOff(n, oracle, call), tree, variant) ==
            World(q, Ready(q), w.calls + CallsOn(w.disk.pending, oracle, call), w.kills)
    decreases n
  {
    if n == 0 {
      assert w.calls + CallsOn(w.disk.pending, oracle, call) == w.calls;
    } else {
      var ok, rest := oracle(call), WorkOff(n - 1, oracle, call + 1);
      var saved := Happen(Happen(w, Call(ok), variant), Save, variant);
      WorkOffFinishes(saved, n - 1, oracle, call + 1, tree, variant);
      TwoMore(w, Call(ok), Save, rest, tree, variant);
      Reassociate(w.calls, [CallMade(w.disk.pending[0], ok)], CallsOn(w.disk.pending[1..], oracle, call + 1));
    }
  }

  lemma {:induction false} HistoriesJoin(w: World, a: seq<Happening>, b: seq<Happening>, tree: set<Path>,
                                         variant: Variant)
    requires Possible(w, a, tree, variant) && Possible(After(w, a, tree, variant), b, tree, variant)
    ensures Possible(w, a + b, tree, variant)
    ensures After(w, a + b, tree, variant) == After(After(w, a, tree, variant), b, tree, variant)
    decreases a
  {
    if a == [] {
      assert a + b == b;
    } else {
      assert (a + b)[1..] == a[1..] + b;
      HistoriesJoin(Happen(w, a[0], variant), a[1..], b, tree, variant);
    }
  }

  /** The next start, after any history: the process is ended if it still runs. */
  function Restart(w: World, walk: seq<Entry>, skipExisting: bool): seq<Happening> {
    (if w.session.NotRunning? then [] else [Kill]) + [Begin(walk, skipExisting)]
  }

  lemma RestartReady(w: World, walk: seq<Entry>, skipExisting: bool, tree: set<Path>, variant: Variant)
    requires Distinct(walk) && EligiblePaths(walk, variant) == tree
    ensures Possible(w, Restart(w, walk, skipExisting), tree, variant)
    ensures var r := After(w, Restart(w, walk, skipExisting), tree, variant);
            var q := Scan(w.disk, walk, skipExisting, variant);
            r == World(q, Ready(q), w.calls, w.kills + (if w.session.NotRunning? then 0 else 1))
  {
    var history := Restart(w, walk, skipExisting);
    var idle := if w.session.NotRunning? then w else Happen(w, Kill, variant);
    assert [Begin(walk, skipExisting)][1..] == [];
    assert Possible(idle, [Begin(walk, skipExisting)], tree, variant);
    assert After(idle, [Begin(walk, skipExisting)], tree, variant)
        == Happen(idle, Begin(walk, skipExisting), variant);
    if w.session.NotRunning? {
      assert history == [Begin(walk, skipExisting)];
    } else {
      assert history[1..] == [Begin(walk, skipExisting)];
    }
  }

  /** However often it was killed before, a start that is not killed comes to its end: one call and one
      save for each file the scan found pending, in order, whatever the outcomes. The state is then what
      the batches of an undisturbed run make of the scan: nothing pending, and completed and failed
      extended by exactly the files whose call came to that. */
  lemma RestartEnds(disk: Queue, history: seq<Happening>, walk: seq<Entry>, skipExisting: bool, oracle: Oracle,
                    call: nat, tree: set<Path>, variant: Variant)
    requires Possible(World(disk, NotRunning, [], 0), history, tree, variant)
    requires Distinct(walk) && EligiblePaths(walk, variant) == tree
    ensures var start := World(disk, NotRunning, [], 0);
            var w := After(start, history, tree, variant);
            var q := Scan(w.disk, walk, skipExisting, variant);
            var whole := history + (Restart(w, walk, skipExisting) + WorkOff(|q.pending|, oracle, call));
            && Possible(start, whole, tree, variant)
            && var end := After(start, whole, tree, variant);
               && Enabled(end, Finish) && Happen(end, Finish, variant) == end.(session := NotRunning)
               && tree <= Settled(end.disk) && end.kills == w.kills + (if w.session.NotRunning? then 0 else 1)
               && end.calls == w.calls + CallsOn(q.pending, oracle, call)
               && end.disk == Process(q, |q.pending|, oracle, call)
               && end.disk == Queue([], q.completed + WithOutcome(q.pending, oracle, call, true),
                                    q.failed + WithOutcome(q.pending, oracle, call, false))
  {
    var start := World(disk, NotRunning, [], 0);
    var w := After(start, history, tree, variant);
    var q := Scan(w.disk, walk, skipExisting, variant);
    var restart, rest := Restart(w, walk, skipExisting), WorkOff(|q.pending|, oracle, call);
    RestartReady(w, walk, skipExisting, tree, variant);
    WorkOffFinishes(After(w, restart, tree, variant), |q.pending|, oracle, call, tree, variant);
    HistoriesJoin(w, restart, rest, tree, variant);
    HistoriesJoin(start, history, restart + rest, tree, variant);
    FinishSettlesTree(disk, history + (restart + rest), tree, variant);
    ProcessResult(q, |q.pending|, oracle, call);
    assert q.pending[..|q.pending|] == q.pending;
  }
}
