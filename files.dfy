/** The shared working directory that `run.py` and `supervisor.py` act on,
    reduced to which paths exist and to the few contents the model follows. */
module Files {

  /** The paths under the home directory: the STOP marker, `errors.txt`,
      `history.txt`, `solver.pkl`, and for worker `n` the directory
      `worker_n`, its `in.json`, its `out.json` and its copies of the source
      files. */
  datatype Path =
    | Stop
    | ErrorsFile
    | HistoryFile
    | SolverFile
    | WorkerDir(n: int)
    | InputFile(n: int)
    | OutputFile(n: int)
    | SourceCopy(n: int, name: string)

  /** The file paths inside `worker_n` (the directory itself excluded). */
  predicate InWorker(p: Path, n: int)
  {
    (p.InputFile? || p.OutputFile? || p.SourceCopy?) && p.n == n
  }

  /** What `errors.txt` says. */
  datatype Message =
    | NoMessage                                   // ""
    | UnknownJobType                              // "Unknown job type encountered."
    | InvalidJobId                                // "Unvalid job id encountered."
    | MissingOutput(supervisor: int, worker: int) // "Supervisor {id} didn't find the output of worker {n}"
    | NotMain(name: string)                       // "Expected __name__ to be __main__, got {name}"

  class FileSystem {
    /** The paths that exist. */
    var paths: set<Path>
    /** One entry per line appended to `history.txt`: the supervisor that wrote it. */
    var history: seq<int>
    /** The contents of `errors.txt`. */
    var errors: Message
    /** For each worker, the supervisor that last wrote its `in.json`. */
    var inputWriter: map<int, int>

    constructor (paths: set<Path>)
      ensures this.paths == paths && history == [] && errors == NoMessage && inputWriter == map[]
    {
      this.paths := paths;
      history := [];
      errors := NoMessage;
      inputWriter := map[];
    }

    /** `Path.touch()`: the path exists afterwards. */
    method Touch(p: Path)
      modifies this
      ensures paths == old(paths) + {p}
      ensures history == old(history) && errors == old(errors) && inputWriter == old(inputWriter)
    {
      paths := paths + {p};
    }

    /** `open("errors.txt", "w").write(...)`. */
    method WriteErrors(m: Message)
      modifies this
      ensures paths == old(paths) + {ErrorsFile} && errors == m
      ensures history == old(history) && inputWriter == old(inputWriter)
    {
      paths := paths + {ErrorsFile};
      errors := m;
    }
  }
}
