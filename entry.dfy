/** The entry gate of the CMA-ES chain (run.py): checks the job type and id
    given on the command line, dispatches to a worker or a supervisor, and
    leaves an exit code that `errors` turns into the STOP marker and
    `errors.txt`. */
module Entry {
  import opened Wrappers
  import opened Files
  import Supervisor

  /** The call `main` makes, if any. */
  datatype Dispatch = NoDispatch | RunWorker(id: int) | RunSupervisor(id: int)

  /** What `main` returns and which job it started. */
  datatype Decision = Decision(code: int, dispatch: Dispatch)

  /** The job types `main` accepts. */
  predicate ValidJob(job: Option<string>)
  {
    job == Some("s") || job == Some("w")
  }

  /** `main(job_type, id_number)`: `None` stands for an argument left off the
      command line (both are optional positionals).  An unknown job type
      gives 1 whatever the id, a known one with no integer id gives 2, and
      otherwise the matching job runs and the code is 0. */
  function Decide(job: Option<string>, id: Option<int>): (d: Decision)
    ensures d.code == 1 <==> !ValidJob(job)
    ensures d.code == 2 <==> ValidJob(job) && id.None?
    ensures d.code == 0 <==> ValidJob(job) && id.Some?
    ensures d.code in {0, 1, 2}
    ensures d.dispatch == NoDispatch <==> d.code != 0
    ensures job == Some("w") && id.Some? ==> d.dispatch == RunWorker(id.value)
    ensures job == Some("s") && id.Some? ==> d.dispatch == RunSupervisor(id.value)
  {
    if job != Some("s") && job != Some("w") then Decision(1, NoDispatch)
    else if id.None? then Decision(2, NoDispatch)
    else if job == Some("w") then Decision(0, RunWorker(id.value))
    else Decision(0, RunSupervisor(id.value))
  }

  /** The text `errors` writes for an exit code. */
  function ErrorMessage(value: int): (m: Message)
    ensures value == 1 <==> m == UnknownJobType
    ensures value == 2 <==> m == InvalidJobId
    ensures value != 1 && value != 2 <==> m == NoMessage
  {
    if value == 1 then UnknownJobType
    else if value == 2 then InvalidJobId
    else NoMessage
  }

  /** `errors(value)`: creates STOP for a non-zero code, and always writes
      `errors.txt`. */
  method Errors(fs: FileSystem, value: int)
    modifies fs
    ensures fs.paths == old(fs.paths) + {ErrorsFile} + (if value != 0 then {Stop} else {})
    ensures fs.errors == ErrorMessage(value)
    ensures fs.history == old(fs.history) && fs.inputWriter == old(fs.inputWriter)
  {
    if value != 0 {
      fs.Touch(Stop);
    }
    var message := ErrorMessage(value);
    fs.WriteErrors(message);
  }

  /** `worker(id)` as written in worker.py: `exec` is handed the path of the
      worker's `main.py` rather than its text, and `exec` accepts only a
      string, bytes or a code object, so the call raises `TypeError` before
      the worker's script runs and before anything is written. */
  method Worker(fs: FileSystem, id: int) returns (o: Outcome)
    ensures o.Fail? && o.error == TypeError
  {
    o := Fail(TypeError);
  }

  /** The script run as `__main__`: `main` then `errors` with its code.  The
      supervisor is the one of this model, with the parameter file's
      `population` and `generation`, the source names and the solver's answer
      as parameters.  An exception raised by the job escapes `main`, so
      `errors` never runs: the worker always fails that way. */
  method RunScript(fs: FileSystem, job: Option<string>, id: Option<int>,
                   population: int, generation: int, sources: set<string>, solverStops: bool)
    returns (o: Outcome)
    requires Supervisor.Consistent(fs)
    modifies fs
    ensures Decide(job, id).code != 0 ==>
              o == Pass && Stop in fs.paths && ErrorsFile in fs.paths &&
              fs.errors == ErrorMessage(Decide(job, id).code) &&
              fs.history == old(fs.history) && fs.inputWriter == old(fs.inputWriter)
    ensures Decide(job, id).dispatch.RunWorker? ==>
              o == Fail(TypeError) && fs.paths == old(fs.paths) && fs.errors == old(fs.errors) &&
              fs.history == old(fs.history) && fs.inputWriter == old(fs.inputWriter)
    ensures o.Pass? ==> ErrorsFile in fs.paths && fs.errors == ErrorMessage(Decide(job, id).code)
    ensures Decide(job, id).dispatch.RunSupervisor? && o.Pass? ==>
              ErrorsFile in fs.paths && fs.errors == NoMessage
  {
    var decision := Decide(job, id);
    match decision.dispatch {
      case NoDispatch =>
      case RunWorker(n) =>
        o := Worker(fs, n);
        return;
      case RunSupervisor(n) =>
        o := Supervisor.Supervise(fs, n, population, generation, sources, solverStops);
        if o.Fail? {
          return;
        }
    }
    Errors(fs, decision.code);
    o := Pass;
  }

  /** The script imported under another name: creates STOP and writes the
      name it got into `errors.txt`. */
  method OnImport(fs: FileSystem, name: string)
    modifies fs
    ensures fs.paths == old(fs.paths) + {Stop, ErrorsFile}
    ensures fs.errors == NotMain(name)
    ensures fs.history == old(fs.history) && fs.inputWriter == old(fs.inputWriter)
  {
    fs.Touch(Stop);
    fs.WriteErrors(NotMain(name));
  }
}
