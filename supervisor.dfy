/** One supervisor step of the generational CMA-ES chain (supervisor.py).
    The solver is opaque: what `solver.stop()` answers after `tell` is a
    parameter, and what it asks and tells is not followed. */
module Supervisor {
  import opened Wrappers
  import opened Files

  /** Which branch of `supervisor` a given id takes. */
  datatype Phase = Initial | Middle | Final | Idle

  /** `id == 1`, then `2 <= id <= generation`, then `id > generation`, checked in
      that order; an id matching none of them does nothing. */
  function PhaseOf(id: int, generation: int): (p: Phase)
    ensures p == Initial <==> id == 1
    ensures p == Middle <==> 2 <= id <= generation
    ensures p == Final <==> id != 1 && id > generation
    ensures p == Idle <==> id <= 0 && id <= generation
  {
    if id == 1 then Initial
    else if 2 <= id <= generation then Middle
    else if id > generation then Final
    else Idle
  }

  /** The worker directories `worker_1 .. worker_population`, in order. */
  function Workers(population: int): (ws: seq<int>)
    ensures |ws| == if population > 0 then population else 0
    ensures forall i :: 0 <= i < |ws| ==> ws[i] == i + 1
  {
    seq(if population > 0 then population else 0, i => i + 1)
  }

  /** `range(1, population + 1)` holds exactly the workers 1 .. population,
      each once, in increasing order. */
  lemma WorkersAreTheWorkerRange(population: int)
    ensures forall n :: n in Workers(population) <==> 1 <= n <= population
    ensures forall i, j :: 0 <= i < j < |Workers(population)| ==> Workers(population)[i] < Workers(population)[j]
  {
    var ws := Workers(population);
    forall n | 1 <= n <= population
      ensures n in ws
    {
      assert ws[n - 1] == n;
    }
  }

  /** What the reading loop of the middle and final branches finds. */
  datatype Scan = AllRead | InputMissing(n: int) | OutputMissing(n: int)

  /** Reading workers `n .. population` in order: the first worker whose
      `in.json` is missing (an uncaught `FileNotFoundError`), or whose
      `out.json` is missing (caught), or every file present. */
  function ScanFrom(paths: set<Path>, n: int, population: int): (s: Scan)
    requires n >= 1
    decreases population - n
    ensures s == AllRead <==>
              forall m :: n <= m <= population ==> InputFile(m) in paths && OutputFile(m) in paths
    ensures !s.AllRead? ==>
              n <= s.n <= population &&
              (forall m :: n <= m < s.n ==> InputFile(m) in paths && OutputFile(m) in paths) &&
              (s.InputMissing? <==> InputFile(s.n) !in paths)
  {
    if n > population then AllRead
    else if InputFile(n) !in paths then InputMissing(n)
    else if OutputFile(n) !in paths then OutputMissing(n)
    else ScanFrom(paths, n + 1, population)
  }

  /** One of the worker directories 1..k, its `in.json` or one of its copies of `sources`. */
  predicate Seeded(p: Path, k: int, sources: set<string>)
  {
    (p.WorkerDir? || p.InputFile? || (p.SourceCopy? && p.name in sources)) && 1 <= p.n <= k
  }

  /** A path that lives in one of the worker directories 1..population, or is one. */
  predicate InWorkerTree(p: Path, population: int)
  {
    !(p.Stop? || p.ErrorsFile? || p.HistoryFile? || p.SolverFile?) && 1 <= p.n <= population
  }

  /** Every file inside a worker directory has its directory. */
  ghost predicate Consistent(fs: FileSystem)
    reads fs
  {
    forall p :: p in fs.paths && (p.InputFile? || p.OutputFile? || p.SourceCopy?) ==> WorkerDir(p.n) in fs.paths
  }

  /** The initial branch: creates every worker directory with the source
      copies and an input, saves the solver, and creates `history.txt`, which
      raises `FileExistsError` when the history is already there. */
  method StartChain(fs: FileSystem, id: int, population: int, sources: set<string>) returns (o: Outcome)
    modifies fs
    ensures o == if HistoryFile in old(fs.paths) then Fail(FileExistsError) else Pass
    ensures forall p :: p in fs.paths <==>
              p in old(fs.paths) || Seeded(p, population, sources) || p == SolverFile || p == HistoryFile
    ensures forall n :: 1 <= n <= population ==> n in fs.inputWriter && fs.inputWriter[n] == id
    ensures fs.errors == old(fs.errors)
    ensures o.Pass? ==> fs.history == []
    ensures o.Fail? ==> fs.history == old(fs.history)
    ensures Stop in fs.paths <==> Stop in old(fs.paths)
  {
    var workers := Workers(population);
    var i := 0;
    while i < |workers|
      invariant 0 <= i <= |workers|
      invariant forall p :: p in fs.paths <==> p in old(fs.paths) || Seeded(p, i, sources)
      invariant forall n :: 1 <= n <= i ==> n in fs.inputWriter && fs.inputWriter[n] == id
      invariant fs.errors == old(fs.errors) && fs.history == old(fs.history)
    {
      var n := workers[i];
      fs.paths := fs.paths + {WorkerDir(n)};
      fs.paths := fs.paths + (set s | s in sources :: SourceCopy(n, s));
      fs.paths := fs.paths + {InputFile(n)};
      fs.inputWriter := fs.inputWriter[n := id];
      i := i + 1;
    }
    fs.paths := fs.paths + {SolverFile};
    if HistoryFile in fs.paths {
      return Fail(FileExistsError);
    }
    fs.paths := fs.paths + {HistoryFile};
    fs.history := [];
    return Pass;
  }

  /** The reading loop: reads every worker's `in.json` and `out.json` in
      order.  A missing input escapes as the scan's verdict; a missing output
      creates STOP and `errors.txt` naming the worker's 0-based position. */
  method Collect(fs: FileSystem, id: int, population: int) returns (s: Scan)
    modifies fs
    ensures s == ScanFrom(old(fs.paths), 1, population)
    ensures s.OutputMissing? ==> fs.paths == old(fs.paths) + {Stop, ErrorsFile} && fs.errors == Message.MissingOutput(id, s.n - 1)
    ensures !s.OutputMissing? ==> fs.paths == old(fs.paths) && fs.errors == old(fs.errors)
    ensures fs.history == old(fs.history) && fs.inputWriter == old(fs.inputWriter)
  {
    var workers := Workers(population);
    var i := 0;
    while i < |workers|
      invariant 0 <= i <= |workers|
      invariant ScanFrom(fs.paths, i + 1, population) == ScanFrom(fs.paths, 1, population)
      invariant fs.paths == old(fs.paths) && fs.errors == old(fs.errors)
      invariant fs.history == old(fs.history) && fs.inputWriter == old(fs.inputWriter)
    {
      var n := workers[i];
      if InputFile(n) !in fs.paths {
        return InputMissing(n);
      }
      if OutputFile(n) !in fs.paths {
        fs.Touch(Stop);
        fs.WriteErrors(Message.MissingOutput(id, i));
        return OutputMissing(n);
      }
      i := i + 1;
    }
    return AllRead;
  }

  /** The rest of the middle branch, after the solver is told: deletes every
      `out.json`, appends a history line, then either creates STOP (when the
      solver stops) or writes a new input for every worker and saves the solver. */
  method Advance(fs: FileSystem, id: int, population: int, solverStops: bool)
    requires ScanFrom(fs.paths, 1, population).AllRead? && SolverFile in fs.paths
    modifies fs
    ensures forall p :: p in fs.paths <==>
              (p in old(fs.paths) && !(p.OutputFile? && 1 <= p.n <= population)) ||
              p == HistoryFile || (solverStops && p == Stop)
    ensures fs.history == old(fs.history) + [id] && fs.errors == old(fs.errors)
    ensures solverStops ==> fs.inputWriter == old(fs.inputWriter)
    ensures !solverStops ==> forall n :: 1 <= n <= population ==> n in fs.inputWriter && fs.inputWriter[n] == id
  {
    var workers := Workers(population);
    var i := 0;
    while i < |workers|
      invariant 0 <= i <= |workers|
      invariant forall p :: p in fs.paths <==> p in old(fs.paths) && !(p.OutputFile? && 1 <= p.n <= i)
      invariant fs.history == old(fs.history) && fs.errors == old(fs.errors) && fs.inputWriter == old(fs.inputWriter)
    {
      fs.paths := fs.paths - {OutputFile(workers[i])};
      i := i + 1;
    }
    fs.paths := fs.paths + {HistoryFile};
    fs.history := fs.history + [id];
    if solverStops {
      fs.Touch(Stop);
      return;
    }
    i := 0;
    while i < |workers|
      invariant 0 <= i <= |workers|
      invariant forall n :: 1 <= n <= i ==> n in fs.inputWriter && fs.inputWriter[n] == id
      invariant fs.paths == old(fs.paths) - (set n | 1 <= n <= population :: OutputFile(n)) + {HistoryFile}
      invariant fs.history == old(fs.history) + [id] && fs.errors == old(fs.errors)
    {
      fs.inputWriter := fs.inputWriter[workers[i] := id];
      i := i + 1;
    }
    fs.paths := fs.paths + {SolverFile};
  }

  /** The rest of the final branch, after the solver is told: appends a
      history line, empties and removes every worker directory, creates STOP. */
  method Finish(fs: FileSystem, id: int, population: int)
    requires Consistent(fs) && ScanFrom(fs.paths, 1, population).AllRead? && SolverFile in fs.paths
    modifies fs
    ensures forall p :: p in fs.paths <==>
              (p in old(fs.paths) && !InWorkerTree(p, population)) || p == HistoryFile || p == Stop
    ensures fs.history == old(fs.history) + [id]
    ensures fs.errors == old(fs.errors) && fs.inputWriter == old(fs.inputWriter)
  {
    fs.paths := fs.paths + {HistoryFile};
    fs.history := fs.history + [id];
    var workers := Workers(population);
    var i := 0;
    while i < |workers|
      invariant 0 <= i <= |workers|
      invariant forall p :: p in fs.paths <==>
                  (p in old(fs.paths) && !InWorkerTree(p, i)) || p == HistoryFile
      invariant fs.history == old(fs.history) + [id]
      invariant fs.errors == old(fs.errors) && fs.inputWriter == old(fs.inputWriter)
    {
      var n := workers[i];
      // iterdir + unlink every file, then rmdir
      fs.paths := set p | p in fs.paths && !InWorker(p, n);
      fs.paths := fs.paths - {WorkerDir(n)};
      i := i + 1;
    }
    fs.Touch(Stop);
  }

  /** `supervisor(id)`, with `population` and `generation` read from the
      parameter file, `sources` the names of the `.py` files to copy, and
      `solverStops` what `solver.stop()` answers once told.  Exceptions the
      source lets escape are returned as `Fail`. */
  method Supervise(fs: FileSystem, id: int, population: int, generation: int,
                   sources: set<string>, solverStops: bool) returns (o: Outcome)
    requires Consistent(fs)
    modifies fs
    ensures PhaseOf(id, generation) == Idle ==> o == Pass && fs.paths == old(fs.paths) && fs.errors == old(fs.errors) && fs.history == old(fs.history) && fs.inputWriter == old(fs.inputWriter)
    ensures PhaseOf(id, generation) == Initial ==>
              o == (if HistoryFile in old(fs.paths) then Fail(FileExistsError) else Pass) &&
              (forall p :: p in fs.paths <==>
                 p in old(fs.paths) || Seeded(p, population, sources) || p == SolverFile || p == HistoryFile) &&
              (forall n :: 1 <= n <= population ==> n in fs.inputWriter && fs.inputWriter[n] == id) &&
              fs.errors == old(fs.errors) &&
              (o.Pass? ==> fs.history == []) && (o.Fail? ==> fs.history == old(fs.history)) &&
              (Stop in fs.paths <==> Stop in old(fs.paths))
    ensures PhaseOf(id, generation) in {Middle, Final} ==>
              var scan := ScanFrom(old(fs.paths), 1, population);
              (scan.InputMissing? ==> o == Fail(FileNotFoundError) && fs.paths == old(fs.paths) && fs.errors == old(fs.errors) && fs.history == old(fs.history) && fs.inputWriter == old(fs.inputWriter)) &&
              (scan.OutputMissing? ==>
                 o == Pass && fs.paths == old(fs.paths) + {Stop, ErrorsFile} &&
                 fs.errors == Message.MissingOutput(id, scan.n - 1) &&
                 fs.history == old(fs.history) && fs.inputWriter == old(fs.inputWriter)) &&
              (scan.AllRead? && SolverFile !in old(fs.paths) ==> o == Fail(FileNotFoundError) && fs.paths == old(fs.paths) && fs.errors == old(fs.errors) && fs.history == old(fs.history) && fs.inputWriter == old(fs.inputWriter)) &&
              (scan.AllRead? && SolverFile in old(fs.paths) ==> o == Pass && fs.history == old(fs.history) + [id])
    ensures PhaseOf(id, generation) == Middle && ScanFrom(old(fs.paths), 1, population).AllRead? &&
            SolverFile in old(fs.paths) ==>
              (forall p :: p in fs.paths <==>
                 (p in old(fs.paths) && !(p.OutputFile? && 1 <= p.n <= population)) ||
                 p == HistoryFile || (solverStops && p == Stop)) &&
              (forall n :: 1 <= n <= population ==> OutputFile(n) !in fs.paths) &&
              (Stop in fs.paths <==> solverStops || Stop in old(fs.paths)) &&
              fs.errors == old(fs.errors) && fs.history == old(fs.history) + [id] &&
              (solverStops ==> fs.inputWriter == old(fs.inputWriter)) &&
              (!solverStops ==> forall n :: 1 <= n <= population ==> n in fs.inputWriter && fs.inputWriter[n] == id)
    ensures PhaseOf(id, generation) == Final && ScanFrom(old(fs.paths), 1, population).AllRead? &&
            SolverFile in old(fs.paths) ==>
              (forall p :: p in fs.paths <==>
                 (p in old(fs.paths) && !InWorkerTree(p, population)) || p == HistoryFile || p == Stop) &&
              Stop in fs.paths && (forall p :: p in fs.paths ==> !InWorkerTree(p, population)) &&
              fs.errors == old(fs.errors) && fs.history == old(fs.history) + [id] &&
              fs.inputWriter == old(fs.inputWriter)
    ensures PhaseOf(id, generation) != Initial ==> Stop in old(fs.paths) ==> Stop in fs.paths
  {
    if id == 1 {
      o := StartChain(fs, id, population, sources);
    } else if 2 <= id <= generation || id > generation {
      var scan := Collect(fs, id, population);
      if scan.InputMissing? {
        return Fail(FileNotFoundError);
      }
      if scan.OutputMissing? {
        return Pass;
      }
      if SolverFile !in fs.paths {
        return Fail(FileNotFoundError);
      }
      if 2 <= id <= generation {
        Advance(fs, id, population, solverStops);
      } else {
        Finish(fs, id, population);
      }
      o := Pass;
    } else {
      o := Pass;
    }
  }
}
