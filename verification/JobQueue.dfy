/** The analyzer's persistent job queue: the scan for eligible files, batches, and the loops that
    drive them. The outcome of the n-th call of process_file is given by an oracle. */
module JobQueue {

  type Path = string

  datatype Queue = Queue(pending: seq<Path>, completed: seq<Path>, failed: seq<Path>)

  /** A file as the directory walk meets it; `documented` says that its outputs already exist. */
  datatype Entry = Entry(path: Path, name: string, lowerName: string, ext: string, documented: bool)

  datatype Variant = Analyzer | SvgGenerator

  predicate EndsWith(s: string, suffix: string) {
    |suffix| <= |s| && s[|s| - |suffix|..] == suffix
  }

  predicate Eligible(e: Entry, variant: Variant) {
    match variant
    case Analyzer =>
      && !EndsWith(e.name, ".cmd")
      && e.ext in [".cpp", ".c", ".dts"]
      && !(e.ext == ".c" && EndsWith(e.lowerName, "mod.c"))
    case SvgGenerator =>
      && e.ext in [".cpp", ".c"]
      && !EndsWith(e.lowerName, ".cmd")
      && !EndsWith(e.lowerName, "mod.c")
  }

  /* ---------------- the scan ---------------- */

  /** What the scan does with one file. */
  function Visit(q: Queue, e: Entry, skipExisting: bool, variant: Variant): Queue {
    if !Eligible(e, variant) then q
    else if skipExisting && e.documented then
      if e.path in q.completed then q else q.(completed := q.completed + [e.path])
    else if e.path in q.completed || e.path in q.failed then q
    else q.(pending := q.pending + [e.path])
  }

  function Scan(q: Queue, walk: seq<Entry>, skipExisting: bool, variant: Variant): Queue {
    if walk == [] then q.(pending := [])
    else
      var front := walk[..|walk| - 1];
      Visit(Scan(q, front, skipExisting, variant), walk[|walk| - 1], skipExisting, variant)
  }

  /** A walk meets no path twice. */
  ghost predicate Distinct(walk: seq<Entry>) {
    forall i, j :: 0 <= i < j < |walk| ==> walk[i].path != walk[j].path
  }

  ghost predicate NoDuplicates(paths: seq<Path>) {
    forall i, j :: 0 <= i < j < |paths| ==> paths[i] != paths[j]
  }

  ghost function EligiblePaths(walk: seq<Entry>, variant: Variant): set<Path> {
    set i | 0 <= i < |walk| && Eligible(walk[i], variant) :: walk[i].path
  }

  ghost function Settled(q: Queue): set<Path> {
    (set p | p in q.completed) + (set p | p in q.failed)
  }

  /** The paths, in walk order, that satisfy `keep`. */
  function Select(walk: seq<Entry>, keep: Entry -> bool): seq<Path> {
    if walk == [] then []
    else Select(walk[..|walk| - 1], keep) + if keep(walk[|walk| - 1]) then [walk[|walk| - 1].path] else []
  }

  lemma {:induction false} SelectMembers(walk: seq<Entry>, keep: Entry -> bool, p: Path)
    ensures p in Select(walk, keep) <==> exists i :: 0 <= i < |walk| && keep(walk[i]) && walk[i].path == p
  {
    if walk == [] {
    } else {
      var front, last := walk[..|walk| - 1], walk[|walk| - 1];
      SelectMembers(front, keep, p);
      if keep(last) && last.path == p {
        assert keep(walk[|walk| - 1]) && walk[|walk| - 1].path == p;
      }
      if p in Select(front, keep) {
        var i :| 0 <= i < |front| && keep(front[i]) && front[i].path == p;
        assert keep(walk[i]) && walk[i].path == p;
      }
      if i :| 0 <= i < |walk| && keep(walk[i]) && walk[i].path == p {
        if i < |front| {
          assert keep(front[i]) && front[i].path == p;
        }
      }
    }
  }

  /** Eligible, its outputs exist already, and not yet listed as completed. */
  function NewlyDocumented(q: Queue, skip: bool, variant: Variant): Entry -> bool {
    e => Eligible(e, variant) && skip && e.documented && e.path !in q.completed
  }

  /** Eligible, its outputs do not count, and never dealt with before. */
  function ToDo(q: Queue, skip: bool, variant: Variant): Entry -> bool {
    e => Eligible(e, variant) && !(skip && e.documented) && e.path !in q.completed && e.path !in q.failed
  }

  /** The scan in closed form: what is pending is, in walk order, every eligible file that is
      neither documented nor settled before; what is completed grows by the documented ones. */
  lemma {:induction false} ScanClosedForm(q: Queue, walk: seq<Entry>, skip: bool, variant: Variant)
    requires Distinct(walk)
    ensures Scan(q, walk, skip, variant)
         == Queue(Select(walk, ToDo(q, skip, variant)),
                  q.completed + Select(walk, NewlyDocumented(q, skip, variant)), q.failed)
  {
    if walk == [] {
    } else {
      var front, last := walk[..|walk| - 1], walk[|walk| - 1];
      ScanClosedForm(q, front, skip, variant);
      SelectMembers(front, NewlyDocumented(q, skip, variant), last.path);
      assert last.path !in Select(front, NewlyDocumented(q, skip, variant));
    }
  }

  /** Pending files are eligible, listed once and unsettled, and every eligible file is pending or
      settled. */
  ghost predicate Partitioned(q: Queue, eligible: set<Path>) {
    && NoDuplicates(q.pending)
    && (forall p :: p in q.pending ==> p in eligible && p !in Settled(q))
    && (forall p :: p in eligible ==> p in q.pending || p in Settled(q))
  }

  /** The scan meets one more file. */
  lemma VisitPartitions(q: Queue, e: Entry, skip: bool, variant: Variant, eligible: set<Path>)
    requires Partitioned(q, eligible) && e.path !in eligible
    ensures var r := Visit(q, e, skip, variant);
            && Partitioned(r, eligible + if Eligible(e, variant) then {e.path} else {})
            && Settled(q) <= Settled(r) && r.failed == q.failed
  {
    var r := Visit(q, e, skip, variant);
    assert e.path !in q.pending;
    assert Settled(r) == Settled(q) + if Eligible(e, variant) && skip && e.documented then {e.path} else {};
  }

  lemma EligibleUnfolds(walk: seq<Entry>, variant: Variant)
    requires walk != []
    ensures var front, last := walk[..|walk| - 1], walk[|walk| - 1];
            EligiblePaths(walk, variant) ==
            EligiblePaths(front, variant) + if Eligible(last, variant) then {last.path} else {}
  {
    var front, last := walk[..|walk| - 1], walk[|walk| - 1];
    assert forall i :: 0 <= i < |front| ==> walk[i] == front[i];
    if Eligible(last, variant) {
      assert walk[|front|] == last;
    }
  }

  /** The scan forgets what was pending and sorts every eligible file, whatever the state before: no
      duplicates, nothing settled among the pending files, and nothing settled forgotten. */
  lemma {:induction false} ScanPartition(q: Queue, walk: seq<Entry>, skip: bool, variant: Variant)
    requires Distinct(walk)
    ensures var r := Scan(q, walk, skip, variant);
            Partitioned(r, EligiblePaths(walk, variant)) && Settled(q) <= Settled(r) && r.failed == q.failed
  {
    if walk == [] {
    } else {
      var front, last := walk[..|walk| - 1], walk[|walk| - 1];
      ScanPartition(q, front, skip, variant);
      EligibleUnfolds(walk, variant);
      VisitPartitions(Scan(q, front, skip, variant), last, skip, variant, EligiblePaths(front, variant));
    }
  }

  /* ---------------- the scan by file names ---------------- */

  lemma EndsWithIff(s: string, suffix: string)
    ensures EndsWith(s, suffix) <==> exists x: string :: s == x + suffix
  {
    if EndsWith(s, suffix) {
      assert s == s[..|s| - |suffix|] + suffix;
    }
    if x: string :| s == x + suffix {
      assert (x + suffix)[|x|..] == suffix;
    }
  }

  /** What the scan lists of one file of the walk. */
  lemma ScanOfFile(q: Queue, walk: seq<Entry>, skip: bool, variant: Variant, i: nat)
    requires Distinct(walk) && i < |walk|
    ensures var e, r := walk[i], Scan(q, walk, skip, variant);
            && (e.path in r.pending <==>
                  Eligible(e, variant) && !(skip && e.documented) && e.path !in q.completed && e.path !in q.failed)
            && (e.path in r.completed <==> e.path in q.completed || (Eligible(e, variant) && skip && e.documented))
            && r.failed == q.failed
  {
    var e := walk[i];
    ScanClosedForm(q, walk, skip, variant);
    SelectMembers(walk, ToDo(q, skip, variant), e.path);
    SelectMembers(walk, NewlyDocumented(q, skip, variant), e.path);
    assert forall j :: 0 <= j < |walk| && walk[j].path == e.path ==> j == i;
    assert ToDo(q, skip, variant)(e) ==> ToDo(q, skip, variant)(walk[i]) && walk[i].path == e.path;
    assert NewlyDocumented(q, skip, variant)(e) ==>
        NewlyDocumented(q, skip, variant)(walk[i]) && walk[i].path == e.path;
  }

  /** The analyzer by extension: C, C++ and device tree sources, but no name that ends in ".cmd", and no
      C source whose name ends in "mod.c", in any letter case. */
  lemma AnalyzerLists(q: Queue, walk: seq<Entry>, skip: bool, i: nat)
    requires Distinct(walk) && i < |walk|
    ensures var e, r := walk[i], Scan(q, walk, skip, Analyzer);
            var listed := (forall x: string :: e.name != x + ".cmd") &&
                          if e.ext == ".c" then forall x: string :: e.lowerName != x + "mod.c"
                          else e.ext == ".cpp" || e.ext == ".dts";
            && (e.path in r.pending <==>
                  listed && (!skip || !e.documented) && e.path !in q.completed && e.path !in q.failed)
            && (e.path in r.completed <==> e.path in q.completed || (listed && skip && e.documented))
  {
    ScanOfFile(q, walk, skip, Analyzer, i);
    EndsWithIff(walk[i].name, ".cmd");
    EndsWithIff(walk[i].lowerName, "mod.c");
  }

  /** The SVG script: C and C++ sources, but no name that ends in ".cmd" or "mod.c", in any letter case. */
  lemma SvgLists(q: Queue, walk: seq<Entry>, skip: bool, i: nat)
    requires Distinct(walk) && i < |walk|
    ensures var e, r := walk[i], Scan(q, walk, skip, SvgGenerator);
            var listed := (e.ext == ".c" || e.ext == ".cpp") &&
                          forall x: string :: e.lowerName != x + ".cmd" && e.lowerName != x + "mod.c";
            && (e.path in r.pending <==>
                  listed && (!skip || !e.documented) && e.path !in q.completed && e.path !in q.failed)
            && (e.path in r.completed <==> e.path in q.completed || (listed && skip && e.documented))
  {
    ScanOfFile(q, walk, skip, SvgGenerator, i);
    EndsWithIff(walk[i].lowerName, ".cmd");
    EndsWithIff(walk[i].lowerName, "mod.c");
  }

  /** Nothing but files of the walk is ever listed anew. */
  lemma OnlyWalkedListed(q: Queue, walk: seq<Entry>, skip: bool, variant: Variant, p: Path)
    requires Distinct(walk)
    requires p in Scan(q, walk, skip, variant).pending ||
             (p in Scan(q, walk, skip, variant).completed && p !in q.completed)
    ensures exists i :: 0 <= i < |walk| && walk[i].path == p
  {
    ScanClosedForm(q, walk, skip, variant);
    SelectMembers(walk, ToDo(q, skip, variant), p);
    SelectMembers(walk, NewlyDocumented(q, skip, variant), p);
  }
}
