# hyperfluorescence — a Dafny model

hyperfluorescence simulates charge transport and exciton formation in the
emissive layer of an organic light-emitting diode.

## The lattice simulation (`reseau.py`)

The lattice is a box of `d0 × d1 × d2` molecules. Each molecule is a host, a
TADF molecule or a fluorescent molecule. The classes are shuffled in given
percentages.

- **Injection.** Ten electrons are injected on the top layer `z == d2 - 1` and
  ten holes on the bottom layer `z == 0`.
- **Event lists.** Three lists hold the pending events:
  - electron hops between LUMOs;
  - hole hops between HOMOs;
  - exciton decays and fluorescences.
- **One step.** The First Reaction Method fires the listed event with the
  least waiting time. It then:
  - moves the charge, or forms or destroys an exciton;
  - absorbs a charge that reaches its collecting electrode;
  - removes the events the change made obsolete;
  - advances the clock and rebases every remaining waiting time;
  - lists the new events around the two sites involved.
- **Operations.** This repeats step by step, for a bounded number of steps,
  until no event or no charge of one sign is left. The internal quantum
  efficiency is the number of fluorescent decays per injected pair.
- **As written, nothing runs.** Nothing in reseau.py ever assigns
  `self.electrons` or `self.trous`. So the charge test at the head of each
  iteration of `Operations` (reseau.py:586) raises `AttributeError` on the
  first step (`Reseau.CountersUnsetAsWritten`). `_First_Reaction_Method`
  would raise in the same way at lines 533, 550 and 557. The model sets both
  counters to the number of injected charges when the lattice is created
  (`Reseau.Create`), so each counter equals the number of charges of its sign
  still on the lattice, and every step keeps it so.
- **The dimension's type.** reseau.py annotates `dimension` as a tuple
  (line 65) and builds a lattice from one (line 760); the model reads it so.
  OLED.py passes an event.py `point` instead (OLED.py:48 and 299). That class
  has no `__getitem__` (event.py:16-57), so on that path `__Construction`
  raises `TypeError` at reseau.py:117, before any event exists.
- **Even so, nothing fires.** The two `_PPV` calls that would list the first
  moves of the injected charges are commented out in `__init__`
  (reseau.py:93 and 95). A new lattice therefore lists no event (the contract
  of `Reseau.Create`), and with the counters set, `Operations` on it stops at
  its first step with nothing changed (the contract of
  `Reseau.Lattice.Operations`). The model of a step still covers every event
  the lists could hold, so it also describes the simulation with those calls
  restored.

## Molecules, events and tools

Molecules, excitons, points, vectors and events are modelled twice:

- in the older top-level modules `event.py` and `molecule.py`;
- in the rewritten `source/` package.

The small random-choice helper of `source/tools.py` is modelled as well.

## The optimisation chain (`run.py`, `supervisor.py`)

`run.py` is the gate of a chain of jobs that tunes the simulation with CMA-ES
(an evolution strategy). It checks the job type and id, dispatches to a worker
or a supervisor, and turns the exit code into a `STOP` marker and an
`errors.txt` file. As written, the worker hands `exec` the path of its
`main.py` instead of the file's text, so every worker job raises `TypeError`
before `errors` runs.

The supervisor step depends on its id:

- **First supervisor:** seeds the worker directories.
- **Middle supervisors:** gather the workers' outputs, update the solver and
  hand out the next generation.
- **Last supervisor:** records the result and clears the workers.

The shared working directory is modelled as a set of paths plus the contents
that matter: the error message, the history and the generation that wrote
each input file.

## How the model is organised

| Dafny module | File | Models |
|---|---|---|
| `Wrappers` | `wrappers.dfy` | The `Option`/`Result`/`Outcome` wrappers and the exceptions Python raises |
| `Event` | `event.dfy` | `event.py` |
| `SourceEvent` | `source_event.dfy` | `source/event.py` |
| `Molecule` | `molecule.dfy` | `molecule.py` |
| `SourceMolecule` | `source_molecule.dfy` | `source/molecule.py` |
| `Tools` | `tools.dfy` | `source/tools.py` |
| `Files` | `files.dfy` | The working directory |
| `Entry` | `entry.dfy` | `run.py` |
| `Supervisor` | `supervisor.dfy` | `supervisor.py` |
| `LatticeSite` | `lattice_site.dfy` | A site: its class and its electron, hole and exciton |
| `LatticeNeighbours` | `lattice_neighbours.dfy` | The neighbour ranges |
| `LatticeConstruction` | `lattice_construction.dfy` | The shuffled grid |
| `LatticeEvents` | `lattice_events.dfy` | Duplicate-free lists, obsolescence, the fastest event, the rebase |
| `LatticeState` | `lattice_state.dfy` | Pure transition functions on a snapshot of the grid, and the invariants they keep |
| `Reseau` | `reseau.dfy` | The `lattice` and `where` classes |

`LatticeNeighbours`, `LatticeConstruction`, `LatticeEvents`, `LatticeState` and
`Reseau` together model `reseau.py`.

How the `Reseau.Lattice` class is built:

- The grid is an `array3<Site>` that the methods update in place.
- The class invariant `Valid()` states:
  - the three event lists hold only live events, without duplicates, with
    non-negative waiting times;
  - the position lists list exactly the charges on the grid;
  - every exciton sits on a site that holds both an electron and a hole;
  - the recombination counter equals the number of recorded recombinations.
- Each method is proved against a pure function of `LatticeState`. For example,
  `Fire` leaves the grid at `Effect(old grid, e, …)` and the lists at
  `AfterOldPpv(AfterPpv(Shift(Pruned(…))))`.

## Model

| member | source | states |
|---|---|---|
| Event.SamePoint | event.py:27-32 | Two points are equal exactly when their three coordinates are |
| Event.Add | event.py:51-55 | With a point, the sum minus that point gives back `p`, coordinate by coordinate; any other operand raises `TypeError` |
| Event.Sub | event.py:45-49 | With a point, adding it back to the difference gives `p`; any other operand raises `TypeError` |
| Event.AddThenSub | event.py:45-55 | Subtraction undoes addition |
| Event.Mul | event.py:34-40 | A point times a point is their dot product; a point times an `int` or `float` number scales every coordinate by it; any other operand is refused |
| Event.RMul | event.py:42-43 | The reflected product is the same product |
| Event.MulCommutes | event.py:34-43 | `p * q` and `q.__rmul__(p)` agree: the dot product commutes |
| Event.SameEvent | event.py:70-75 | Events are equal when start, target and reaction agree, whatever their waiting times |
| Event.SameEventIsEquivalence | event.py:70-75 | Event equality is reflexive, symmetric and transitive |
| Event.OrderingIsByTau | event.py:77-99 | The four comparisons order by waiting time only. `<` and `>` are converses, `<=` is not `>`, and the order is total. Two equal events can still be strictly ordered |
| SourceEvent.Add | source/event.py:78-83 | Adding a point, a vector or an `int` or `float` number yields a vector, coordinate by coordinate; any other operand raises `TypeError` |
| SourceEvent.Sub | source/event.py:85-90 | Adding the operand (a point, a vector or an `int` or `float` number) back to the difference restores the coordinates; any other operand raises `TypeError` |
| SourceEvent.AddThenSub | source/event.py:78-90 | Subtracting what was added restores the coordinates, as a vector |
| SourceEvent.Mul | source/event.py:99-104 | Vector times point or vector is the dot product of the real coordinates, vector times an `int` or `float` number scales every coordinate; anything else raises `TypeError` |
| SourceEvent.RMul | source/event.py:106-107 | The reflected product is the same product |
| SourceEvent.DotCommutes | source/event.py:99-107 | The dot product commutes |
| SourceEvent.Eq | source/event.py:140-149 | Events compare equal when they collide; comparing with a non-event raises `TypeError` |
| SourceEvent.Ne | source/event.py:151-152 | `!=` is the negation of `==` and raises where it does |
| SourceEvent.EqIsReflexiveAndSymmetric | source/event.py:140-152 | Event equality is reflexive and symmetric, and `!=` negates it |
| SourceEvent.MoveEqualityIsNotTransitive | source/event.py:140-149 | Three events exist where the first equals the second and the second the third, but the first does not equal the third |
| SourceEvent.Lt | source/event.py:154-157 | `<` compares waiting times; a non-event raises `TypeError` |
| SourceEvent.Gt | source/event.py:159-162 | `>` compares waiting times; a non-event raises `TypeError` |
| SourceEvent.Le | source/event.py:164-167 | `<=` compares waiting times; a non-event raises `TypeError` |
| SourceEvent.Ge | source/event.py:169-172 | `>=` compares waiting times; a non-event raises `TypeError` |
| SourceEvent.OrderingIgnoresEquality | source/event.py:140-172 | `<` and `>` are converses and `<=` is not `>`. Two events that compare equal can still be strictly ordered |
| Molecule.SpinState | molecule.py:56-80 | A draw in `[0, 0.25)` gives a singlet and one in `[0.25, 1)` a triplet; anything else raises `ValueError` |
| Molecule.Exciton.Create | molecule.py:31-39 | A new exciton carries the drawn spin, or the draw's `ValueError` |
| Molecule.Exciton.ReverseSpin | molecule.py:82-86 | The spin is inverted |
| Molecule.ReverseSpinTwice | molecule.py:82-86 | Reversing twice restores the spin |
| Molecule.Molecule.constructor | molecule.py:117-132 | A new molecule has the given class, position and neighbours, and holds no charge and no exciton |
| Molecule.Molecule.SwitchElectron | molecule.py:134-137 | The electron flag flips and nothing else changes |
| Molecule.Molecule.SwitchHole | molecule.py:139-142 | The hole flag flips and nothing else changes |
| Molecule.Molecule.GenerateExciton | molecule.py:144-148 | An exciton of the drawn spin binds only when an electron and a hole are both present; a bad draw raises `ValueError` |
| Molecule.Molecule.UnboundExciton | molecule.py:150-153 | The exciton is gone and the charges stay, and the unguarded `raise` makes every call end in `AttributeError` |
| Molecule.Molecule.ExcitonDecay | molecule.py:155-158 | The base class raises `NotImplementedError`. A subclass without an exciton raises `AttributeError` and changes nothing. Otherwise the molecule empties, and the result is the spin (fluorescent, TADF) or false (host) (the same at lines 233-251, 328-346, 434-452) |
| Molecule.Molecule.IntersystemCrossing | molecule.py:348-359 | The bound exciton's spin is reversed; without one the call raises `AttributeError` |
| SourceMolecule.DrawnState | source/molecule.py:115-123 | A draw in [0, 0.25) gives a singlet, any other draw a triplet |
| SourceMolecule.Crossed | source/molecule.py:326-335 | Singlet and triplet swap; any other state stays |
| SourceMolecule.CrossedTwice | source/molecule.py:326-335 | Crossing twice restores the state |
| SourceMolecule.Molecule.constructor | source/molecule.py:84-99 | A new molecule has the given class, position and neighbourhood, and is empty |
| SourceMolecule.Molecule.Empty | source/molecule.py:101-103 | Empty means no electron, no hole, no exciton |
| SourceMolecule.Molecule.SwitchElectron | source/molecule.py:105-108 | The electron flag flips and nothing else changes |
| SourceMolecule.Molecule.SwitchHole | source/molecule.py:110-113 | The hole flag flips and nothing else changes |
| SourceMolecule.Molecule.GenerateExciton | source/molecule.py:115-123 | The drawn state binds only when an electron and a hole are both present |
| SourceMolecule.Molecule.UnboundExciton | source/molecule.py:125-127 | The exciton state returns to none and the charges stay |
| SourceMolecule.Molecule.ExcitonDecay | source/molecule.py:129-132 | The base class raises `NotImplementedError`. Without an exciton the result is `None` and nothing changes. Otherwise the molecule empties, and the result is whether the state was a singlet (false on a host) (the same at lines 212-226, 311-324, 414-427) |
| SourceMolecule.Molecule.IntersystemCrossing | source/molecule.py:326-335 | The exciton state crosses and the charges stay |
| SourceMolecule.CrossTwice | source/molecule.py:326-335 | Two crossings restore the molecule's exciton state |
| Tools.IntList.constructor | source/tools.py:4-7 | The shared list holds the given items |
| Tools.IndexOf | source/tools.py:9-15 | The first index holding the value |
| Tools.RemoveFirst | source/tools.py:9-15 | `list.remove` takes away one occurrence: one fewer element, same multiset otherwise |
| Tools.Pick | source/tools.py:9-15 | The picked element comes from the list |
| Tools.Shuffle.constructor | source/tools.py:4-7 | The shuffle keeps a reference to the caller's list |
| Tools.Shuffle.Choice | source/tools.py:9-15 | With nothing left it raises `IndexError` and changes nothing. Otherwise the picked element is removed from the shared list and returned, and `length` drops by one, still counting the list |
| Tools.DrawFromShared | source/tools.py:4-15 | The draw returns the picked element and removes that same element from the caller's own list, through the alias |
| Tools.Draws | source/tools.py:9-15 | Repeated choices pick at most as many values as the list holds |
| Tools.DrawsArePermutation | source/tools.py:9-15 | Drawing until the list is empty returns a permutation of it and leaves it empty |
| Files.FileSystem.Touch | run.py:28 | The path exists afterwards; nothing else changes |
| Files.FileSystem.WriteErrors | run.py:34-35 | `errors.txt` exists and holds the message |
| Entry.Decide | run.py:13-23 | Exit code 1 exactly for an unknown job type. Code 2 exactly for a known type without an integer id. Code 0 exactly when a worker or a supervisor with that id runs |
| Entry.ErrorMessage | run.py:29-33 | Code 1 and code 2 each have their message; every other code has none |
| Entry.Errors | run.py:25-35 | `STOP` appears exactly for a non-zero code, and `errors.txt` always holds the code's message |
| Entry.RunScript | run.py:42-49 | A bad job leaves `STOP` and its message. A worker run fails with `TypeError` and writes nothing, since the exception escapes before `errors` runs. A supervisor run that returns leaves an empty `errors.txt` |
| Entry.Worker | worker.py:7-13 | `exec` given the path of `main.py` instead of its text raises `TypeError`, and nothing is written |
| Entry.OnImport | run.py:50-54 | Imported under another name, the script creates `STOP` and writes the name it got |
| Supervisor.PhaseOf | supervisor.py:41 | Id 1 is the first supervisor, ids 2 to `generation` the middle ones, every other id above `generation` the last; the remaining ids do nothing (the same at lines 61, 105) |
| Supervisor.Workers | supervisor.py:36 | The workers are numbered 1 to `population` |
| Supervisor.WorkersAreTheWorkerRange | supervisor.py:36 | Exactly the ids 1 to `population`, increasing |
| Supervisor.ScanFrom | supervisor.py:65-77 | All files are read exactly when every worker has its input and output. Otherwise the first worker missing one is named, and whether it lacked the input (uncaught) or only the output |
| Supervisor.StartChain | supervisor.py:41-59 | Each worker directory gets the sources and an input file written by supervisor 1, and the history is created. An existing history raises `FileExistsError` |
| Supervisor.Collect | supervisor.py:65-77 | The first missing output stops the chain: `STOP` is created and `errors.txt` names the worker. Otherwise nothing changes |
| Supervisor.Advance | supervisor.py:78-103 | Called once every worker's input and output were read and the solver file exists. The outputs are removed and the history gains a line. Either the solver stops and `STOP` appears, or every worker gets a fresh input from this supervisor |
| Supervisor.Finish | supervisor.py:105-139 | Called once every worker's input and output were read and the solver file exists. The history gains a line, every worker directory and its files are removed, and `STOP` appears |
| Supervisor.Supervise | supervisor.py:27-139 | Each phase has exactly its own effect, stated as the whole new path set, history, error message and input writers: idle changes nothing; the first supervisor seeds the workers, leaves the error message alone and creates an empty history, failing with `FileExistsError` and leaving the history as it was when one exists; a missing output leaves only `STOP` and `errors.txt`; the middle branch removes the outputs, adds a history line and creates `STOP` exactly when the solver stops, otherwise rewriting every input; the final branch removes every worker tree and creates `STOP`. A `STOP` already present is never removed |
| LatticeSite.EmptySite | reseau.py:135-141 | A new molecule of the coded class, with no charge and no exciton |
| LatticeSite.ToggleElectron | reseau.py:528-529 | `Electron()` flips the electron flag and only it |
| LatticeSite.ToggleHole | reseau.py:539-540 | `Trou()` flips the hole flag and only it |
| LatticeSite.Bind | reseau.py:530 | `_exciton()` binds an exciton exactly when an electron and a hole are both present, and leaves the site alone otherwise (the same at line 541) |
| LatticeSite.Decayed | reseau.py:554 | `_decay()` leaves an empty molecule of the same class (the same at line 561) |
| LatticeNeighbours.Range | reseau.py:159 | `range(a, b)`: the integers from `a` up to `b`, in order |
| LatticeNeighbours.InRange | reseau.py:159 | Membership in `range(a, b)` is `a <= k < b` |
| LatticeNeighbours.Periodic | reseau.py:155-176 | For a distance below the axis length, the periodic range stays on the axis |
| LatticeNeighbours.PeriodicAtDistanceOne | reseau.py:155-176 | At distance 1 (the distance the lattice uses) the range is the three distinct sites around `pos`, folded around the box |
| LatticeNeighbours.PeriodicFixedIsTheFoldedWindow | reseau.py:155-176 | The corrected range lists each site within the distance, folded, exactly once |
| LatticeNeighbours.PeriodicFixed | reseau.py:155-176 | The corrected `__BVKX`/`__BVKY` range: for a site on the axis and a non-negative distance it has `2 * distance + 1` entries (which ones is `PeriodicFixedIsTheFoldedWindow`) |
| LatticeNeighbours.PeriodicFixedAgreesAtDistanceOne | reseau.py:155-176 | At distance 1 the corrected range equals the one as written |
| LatticeNeighbours.PeriodicWrongAtDistanceTwo | reseau.py:160-163 | As written, site 1 of 10 at distance 2 gets `[0, 1, 2, 8, 9]`, missing 3 |
| LatticeNeighbours.Wall | reseau.py:181-189 | The z range stays between the electrodes |
| LatticeNeighbours.WallAtDistanceOne | reseau.py:181-189 | At distance 1 the z range is cut at both electrodes and holds `pos` once |
| LatticeNeighbours.WallFixedIsTheCutWindow | reseau.py:181-189 | The corrected z range holds exactly the sites within the distance, in order |
| LatticeNeighbours.WallFixed | reseau.py:181-189 | The corrected `__BVKZ` range stays between the electrodes and has at most `2 * distance + 1` entries |
| LatticeNeighbours.WallFixedAgreesAtDistanceOne | reseau.py:181-189 | At distance 1 the corrected z range equals the one as written |
| LatticeNeighbours.WallWrongAtDistanceTwo | reseau.py:186-187 | As written, site 1 at distance 2 gets `[0, 1, 2]`, missing 3 |
| LatticeNeighbours.Without | reseau.py:150 | The comprehension's filter drops exactly the given point |
| LatticeNeighbours.Column | reseau.py:150 | The innermost `for z in zRange`: one point per z, in the order of the range, each with the given x and y |
| LatticeNeighbours.Plane | reseau.py:150 | The `for y … for z …` part: every point has the given x, a y from `ys` and a z from `zs` |
| LatticeNeighbours.Cube | reseau.py:150 | The whole product before the filter: every point takes its coordinates from the three ranges (the converse is `CubeMembership`) |
| LatticeNeighbours.CubeMembership | reseau.py:150 | A point is in the product of the three ranges exactly when each coordinate is in its range |
| LatticeNeighbours.CubeCount | reseau.py:150 | Ranges without repeats give a product without repeats |
| LatticeNeighbours.CubeLength | reseau.py:150 | The product has `|xs| * |ys| * |zs|` points |
| LatticeNeighbours.Neighbours | reseau.py:145-150 | A site is never its own neighbour |
| LatticeNeighbours.NeighboursOfASite | reseau.py:145-150 | On a lattice of at least 3 × 3 × 2, the neighbours of a site lie in the grid, exclude it and appear once each: 26 between the electrodes, 17 on an electrode face |
| LatticeConstruction.KindOf | reseau.py:135-141 | Code 0 is a host, code 1 a TADF molecule, any other a fluorescent one |
| LatticeConstruction.Codes | reseau.py:120-124 | The code vector has one entry per site |
| LatticeConstruction.CodesCount | reseau.py:120-124 | The code vector holds `nTadf` ones, `nFluo` twos and zeros for the rest |
| LatticeConstruction.FillCodes | reseau.py:120-124 | The filled array equals the code vector. When the shares overflow the array, the write raises `IndexError` |
| LatticeConstruction.Swap | reseau.py:125 | Swapping exchanges two entries and keeps the others |
| LatticeConstruction.SwapIsPermutation | reseau.py:125 | A swap is a permutation |
| LatticeConstruction.ShuffledFrom | reseau.py:125 | The shuffle keeps the length |
| LatticeConstruction.ShuffleIsPermutation | reseau.py:125 | The shuffle is a permutation of the codes |
| LatticeConstruction.Shuffle | reseau.py:125 | The in-place shuffle leaves the array at the specified shuffle of its old contents |
| LatticeConstruction.IndexIsInjective | reseau.py:126 | The row-major reshape sends distinct sites to distinct flat indices inside the array |
| LatticeConstruction.SiteOf | reseau.py:126 | Every flat index comes from a site of the box |
| LatticeConstruction.Share | reseau.py:119 | `floor(taille * prop / 100)` |
| LatticeConstruction.Construction | reseau.py:116-141 | The class counts are the floored shares, or `IndexError` when they overflow. The codes are a permutation of the filled vector. Each site is an empty molecule of its code's class |
| LatticeConstruction.ShuffledCodes | reseau.py:117-125 | The shuffled codes are a permutation of the filled vector, or `IndexError` |
| LatticeConstruction.Reshape | reseau.py:126-133 | Site `(x, y, z)` holds the code at its row-major index |
| LatticeEvents.AppendNew | reseau.py:319-320 | The event is listed afterwards. It is appended exactly when no equal event was already listed (the same at lines 342-343, 393-394) |
| LatticeEvents.AppendNewKeepsNoDuplicates | reseau.py:319-320 | A list without equal events keeps that property, and gains exactly the new event (the same at lines 342-343, 393-394) |
| LatticeEvents.AppendNewKeepsLive | reseau.py:319-320 | Listing an event that is not obsolete keeps a list of live events live (the same at lines 339-344 and 390-395) |
| LatticeEvents.Obsolete | reseau.py:233-287 | The tests of `_pop_decay` (line 237), `_pop_electron` (lines 251-259) and `_pop_hole` (lines 273-281): with an exciton at its start a move is obsolete and an exciton event is not, and a move that survives never ends where it starts |
| LatticeEvents.Keep | reseau.py:233-287 | The kept events come from the list |
| LatticeEvents.KeepIsExactlyTheLive | reseau.py:233-287 | After removal, an event stays exactly when it is not obsolete, and the list is live |
| LatticeEvents.KeepKeepsOrder | reseau.py:233-287 | Removal keeps the order of the list |
| LatticeEvents.KeepKeepsNoDuplicates | reseau.py:233-287 | Removal keeps a list without equal events |
| LatticeEvents.LiveWhenUnaffected | reseau.py:233-287 | A change that touches no site an event depends on leaves it live |
| LatticeEvents.SameEventSameFate | reseau.py:241-242 | Equal events are both obsolete or both live, so `remove` of an equal one is sound (the same at lines 263-264, 285-286) |
| LatticeEvents.ObsoleteEvents | reseau.py:234-240 | The collected events are listed and obsolete |
| LatticeEvents.ThinnedAll | reseau.py:241-242 | Removing the collected obsolete events one by one, first occurrence first, leaves the live events in order (the same at lines 263-264, 285-286) |
| LatticeEvents.ThinnedStep | reseau.py:241-242 | Each round of the removal loop finds its obsolete event still listed, and `remove` takes out exactly that one (the same at lines 263-264, 285-286) |
| LatticeEvents.RemoveFirst | reseau.py:242 | `list.remove` drops one element (the same at lines 264, 286) |
| LatticeEvents.FirstFastest | reseau.py:509-511 | The index of the earliest-listed event of least waiting time |
| LatticeEvents.FirstFastestIsUnique | reseau.py:509-511 | Only one index is that |
| LatticeEvents.Rebase | reseau.py:569-570 | Every waiting time drops by the elapsed time |
| LatticeEvents.RebaseKeepsTheEvents | reseau.py:568-570 | The rebase keeps the same events and their liveness, and keeps waiting times non-negative when the fastest was subtracted |
| LatticeState.Flip | reseau.py:528-529 | Flipping changes one carrier's flag and nothing else (the same at lines 539-540) |
| LatticeState.ObsoleteMove | reseau.py:247-287 | A move is obsolete exactly when its start lacks the charge, holds an exciton, or its target already holds that charge |
| LatticeState.RemovePosition | reseau.py:527 | `positions.remove(p)`: one occurrence fewer, or `ValueError` when `p` is not listed (the same at line 538) |
| LatticeState.RemoveFromDistinct | reseau.py:527 | Removing from a list without repeats leaves exactly the other points (the same at line 538) |
| LatticeState.Arrived | reseau.py:527-530 | The charge leaves the start, reaches the target and binds there when it can (the same at lines 538-541): only the two ends change and every site keeps its class |
| LatticeState.Moved | reseau.py:527-546 | `Arrived`, then absorption of a charge that formed no exciton on its electrode layer: only the two ends change and every site keeps its class |
| LatticeState.MovedPositions | reseau.py:527-535 | `remove` then `append`: the position list keeps its length after a move, and loses one point when the electrode absorbs the charge (the same at lines 538-546) |
| LatticeState.MoveEffect | reseau.py:525-546 | A live move leaves the start without the charge. The target binds an exciton when the other carrier is there. Otherwise the target keeps the charge, unless it is absorbed on the electrode. No other site changes |
| LatticeState.MoveTracks | reseau.py:525-546 | After a live move, the position lists still list exactly the charges on the grid |
| LatticeState.PruneAfterMove | reseau.py:213-229 | After a move and `_obsoletes`, every list holds only live events again |
| LatticeState.Pruned | reseau.py:206-229 | `_obsoletes`: no list grows; a decay or a fluorescence leaves both move lists alone, and a move leaves the exciton list alone |
| LatticeState.DecayedAt | reseau.py:554 | `_decay()` at one site leaves it empty, of the same class, and keeps the grid's sites (the same at line 561) |
| LatticeState.PruneAfterDecay | reseau.py:548-561 | After a decay and `_pop_decay`, the lists are live and the position lists track the charges (`_obsoletes` is at lines 209-211) |
| LatticeState.OfferedKeepsValid | reseau.py:339-344 | Offering the moves from a charge keeps the list valid and adds exactly the moves to free neighbours (the same loop is at lines 390-395, 446-456) |
| LatticeState.OfferedStep | reseau.py:339-344 | One round of the offering loop keeps the list valid and adds exactly the move to the neighbour when it is free |
| LatticeState.Offered | reseau.py:446-456 | The `_PPV` loop over the neighbours: the list only grows, by at most one move per neighbour, each from the site towards a neighbour and of the carrier's reaction |
| LatticeState.ReturningKeepsValid | reseau.py:462-479 | Offering moves back into a freed site keeps both lists valid |
| LatticeState.Returning | reseau.py:462-479 | The `_old_PPV` loop: both lists only grow, by at most one move per neighbour in total, each from a neighbour into the freed site and of the list's reaction |
| LatticeState.ReturningFrom | reseau.py:463-478 | One round of that loop: the lists grow by at most one move, which is the electron's or the hole's move from that neighbour into the freed site |
| LatticeState.ReturningFromKeepsValid | reseau.py:463-478 | One round of `_old_PPV` keeps both move lists valid and adds exactly the move of the neighbour's free electron, or else of its free hole, into the freed site when that site lacks the charge |
| LatticeState.ExcitonEvent | reseau.py:310-328 | The event of a new exciton sits on its site with waiting time 0. It is a fluorescence exactly on a singlet off a host, and a decay otherwise |
| LatticeState.ExcitonEventKeepsValid | reseau.py:310-328 | Listing the new exciton's event keeps the exciton list valid |
| LatticeState.ChosenList | reseau.py:517-564 | A listed event comes from the list of its reaction. The unknown-reaction branch cannot be reached |
| LatticeState.ShiftKeepsValid | reseau.py:568-570 | Rebasing all lists by the least waiting time keeps them valid and their events the same |
| LatticeState.AfterPpvKeepsValid | reseau.py:440-458 | `_PPV` keeps the lists valid |
| LatticeState.AfterOldPpvKeepsValid | reseau.py:462-479 | `_old_PPV` keeps the lists valid |
| LatticeState.NothingListedIsValid | reseau.py:83-86 | The three empty lists of a new lattice are valid on any grid |
| LatticeState.AfterPpv | reseau.py:440-458 | `_PPV(pos)`: the lists only grow, and only one of them changes |
| LatticeState.AfterOldPpv | reseau.py:462-479 | `_old_PPV(pos)`: the exciton list is unchanged and the move lists grow by at most one event per neighbour |
| LatticeState.HoleAsWrittenLosesTheHole | reseau.py:537-546 | As written, a hole move leaves a hole on the grid that no position list names |
| LatticeState.Effect | reseau.py:524-561 | What a listed event does to the grid: only its two ends change and every site keeps its class (what the ends become is `MoveEffect`) |
| LatticeState.PositionsAfter | reseau.py:527-560 | A position list after an event: it loses or gains at most one point, and the only point it can gain is the event's target |
| LatticeState.MoveStep | reseau.py:525-546 | A listed move followed by `_obsoletes` keeps every invariant and moves the charge in its position list (`_obsoletes` is at lines 213-229) |
| LatticeState.DecayStep | reseau.py:548-561 | A listed decay followed by `_obsoletes` keeps every invariant and drops the site from both position lists (`_obsoletes` is at lines 209-211) |
| LatticeState.PrunedBelow | reseau.py:566-570 | Removing events keeps the least waiting time a lower bound |
| Reseau.Count | reseau.py:28-45 | A count never exceeds the number of recorded recombinations |
| Reseau.CountAppend | reseau.py:35-45 | Recording a class adds one to its count only |
| Reseau.CountsAddUp | reseau.py:28-45 | The three counters add up to the recorded recombinations |
| Reseau.Where.constructor | reseau.py:29-33 | All counters are zero and nothing is recorded |
| Reseau.Where.RecordHost | reseau.py:35-37 | The host counter and the record gain one host |
| Reseau.Where.RecordTadf | reseau.py:39-41 | The TADF counter and the record gain one TADF |
| Reseau.Where.RecordFluo | reseau.py:43-45 | The fluorescent counter and the record gain one fluorescent |
| Reseau.Fastest | reseau.py:509-511 | An empty list raises `IndexError`. Otherwise the result is the earliest-listed event of least waiting time, which the stable sort puts first |
| Reseau.FastestIsLeast | reseau.py:509-511 | In the events' own order (`__lt__`, `__le__`, `__gt__`), no listed event is below the returned one, and every event listed before it is strictly above it |
| Reseau.Shifted | reseau.py:569-570 | The loop rebases every waiting time |
| Reseau.Iqe | reseau.py:590 | The efficiency lies between 0 and 100 percent, and is 100 when every pair fluoresces (the same at lines 604, 608) |
| Reseau.ChargesGone | reseau.py:586 | The charge test reads `electrons` first and `trous` only when `electrons` is not zero; it raises `AttributeError` exactly when an attribute it reads is missing, and otherwise says whether either counter is zero |
| Reseau.CountersUnsetAsWritten | reseau.py:86-103 | With the attributes `__init__` sets, the test of line 586 raises `AttributeError`; with both counters set to the injected charges it passes |
| Reseau.Injection | reseau.py:193-196 | Ten distinct points on the layer, zipped from the draws. A lattice narrower than ten raises `ValueError` |
| Reseau.Lattice.constructor | reseau.py:65-103 | No event listed, the recombinations, the fluorescences and the clock at zero, the charge counters as given |
| Reseau.Lattice.Voisins | reseau.py:145-150 | A site's neighbours lie in the grid and exclude the site |
| Reseau.Lattice.FlipCharge | reseau.py:528-529 | One site's flag flips in place (the same at lines 539-540) |
| Reseau.Lattice.HasCharge | reseau.py:489-495 | `_isElectron` and `_isHole` read the site's flag on the grid |
| Reseau.Lattice.IsExciton | reseau.py:499-500 | `_isExciton` holds exactly when the site holds an exciton |
| Reseau.Lattice.BindExciton | reseau.py:530 | `_exciton()` updates the one site in place, as `Bind` specifies (the same at line 541) |
| Reseau.Lattice.DecayExciton | reseau.py:554 | `_decay()` leaves the grid at `DecayedAt` (the same at line 561) |
| Reseau.Lattice.IsObsolete | reseau.py:233-287 | The tests of the `_pop_*` loops, on the grid, agree with `Obsolete` on the grid's snapshot |
| Reseau.Lattice.WithoutObsolete | reseau.py:233-287 | The loop keeps exactly the live events, in order |
| Reseau.Lattice.CollectObsolete | reseau.py:249-262 | The first loop collects exactly the obsolete events of the list, in their order |
| Reseau.RemoveEach | reseau.py:263-264 | Removing each collected obsolete event in turn leaves exactly the live events, in order |
| Reseau.Lattice.PopDecay | reseau.py:233-243 | The exciton list keeps exactly its live events |
| Reseau.Lattice.PopMoves | reseau.py:247-287 | The carrier's move list keeps exactly its live events |
| Reseau.Lattice.Obsoletes | reseau.py:206-229 | The lists become the pruned lists for the event |
| Reseau.Lattice.ExcitonPos | reseau.py:297-305 | The molecule class of the site is recorded |
| Reseau.Lattice.EventExciton | reseau.py:310-328 | The counter and the record gain the site, and the exciton event is listed, keeping the invariant |
| Reseau.Lattice.OfferMove | reseau.py:339-344 | The move is listed exactly when the target lacks that charge (the same at lines 390-395) |
| Reseau.Lattice.OfferAll | reseau.py:446-456 | The list becomes the offered moves |
| Reseau.Lattice.Ppv | reseau.py:440-458 | The lists become `AfterPpv`, keeping the invariant. An exciton is recorded exactly when one sits on the site |
| Reseau.Lattice.OfferReturn | reseau.py:463-478 | The moves back from one neighbour are listed |
| Reseau.Lattice.ReturnAll | reseau.py:462-479 | The moves back from every neighbour are listed |
| Reseau.Lattice.OldPpv | reseau.py:462-479 | The lists become `AfterOldPpv`, keeping the invariant |
| Reseau.Lattice.Elapse | reseau.py:568-570 | The clock advances by `t` and every waiting time drops by `t` |
| Reseau.Lattice.ArriveAt | reseau.py:527-530 | The grid becomes the arrived grid (the same at lines 538-541) |
| Reseau.Lattice.MoveCharge | reseau.py:525-546 | A start missing from the position list raises `ValueError` and changes nothing. Otherwise the charge moves and the position list follows it |
| Reseau.Lattice.Settle | reseau.py:531-535 | A charge without an exciton on its electrode is absorbed and its counter drops. Otherwise it is listed at its new site (the same at lines 542-546) |
| Reseau.Lattice.DecayCharges | reseau.py:550-561 | Both counters drop. The site leaves both position lists and the grid, or `remove` raises `ValueError` |
| Reseau.Lattice.MoveHoleAsWritten | reseau.py:537-546 | As written, the hole branch always fails. After the hole has moved, the electrode test raises `AttributeError` |
| Reseau.Lattice.MoveListed | reseau.py:525-546 | A listed move happens and keeps the invariant up to `_obsoletes` |
| Reseau.Lattice.HappenElectronMove | reseau.py:525-535 | A listed electron move leaves the grid at `Effect` and the position lists at `PositionsAfter`; each counter less its list's length is unchanged |
| Reseau.Lattice.HappenHoleMove | reseau.py:537-546 | A listed hole move, with the electrode test of the electron branch, leaves the grid at `Effect` and the position lists at `PositionsAfter`; each counter less its list's length is unchanged |
| Reseau.Lattice.HappenDecay | reseau.py:548-561 | A listed decay or fluorescence empties the site and drops it from both lists. A fluorescence counts one more |
| Reseau.Lattice.Happen | reseau.py:524-561 | Any listed event leaves the grid at `Effect` and the position lists at `PositionsAfter` |
| Reseau.Lattice.Fire | reseau.py:566-574 | After the fastest event the invariant holds again. The clock advances by its waiting time, and the lists become the pruned, rebased and replenished lists |
| Reseau.Lattice.Next | reseau.py:515-519 | There is a next event exactly when some list is non-empty |
| Reseau.Lattice.FirstReactionMethod | reseau.py:514-574 | With no listed event it returns false and changes nothing. Otherwise it fires the earliest-listed event of least waiting time, returns true and keeps the invariant. The class of the molecule the event ends on is appended to `where` exactly when an exciton sits there, and `iqe` never changes |
| Reseau.Lattice.Inject | reseau.py:87-95 | Each injected charge flips its site's flag, so the position lists track the charges |
| Reseau.Lattice.Operations | reseau.py:580-611 | The invariant is kept, and the clock, the fluorescences and the recombinations never decrease. The efficiency is set on return. A run that ends early ran out of charges or of events. With no event listed at the start, no step is taken and nothing changes |
| Reseau.Create | reseau.py:65-103 | A valid new lattice with ten electrons on the top layer, ten holes on the bottom, no event and the clock at zero. Each site's molecule class is the class of the shuffled code at its index (lines 116-141), and the codes hold exactly the TADF and fluorescent shares of the proportions (floored) and hosts for the rest. Both charge counters start at ten. Overflowing shares raise `IndexError`; a lattice narrower than ten raises `ValueError` |

## Left out

- The rate oracles are parameters. `_LUMO` and `_HOMO` (Miller–Abrahams-type hopping: `-log(rand)/f` for a downhill hop and the same times the Boltzmann factor `exp(dE/kT)` for an uphill one, with energies under Gaussian disorder, reseau.py:346-436) are the functions `lumoTau` and `homoTau`. In the source each call draws a fresh random number; in the model a move's waiting time is a fixed function of its two ends.
- The other random draws are parameters too:
  - the exciton spins are `spin` and `spins`;
  - the shuffle draws are `draws`;
  - the injection coordinates are the four coordinate sequences.
- Numpy's generator itself is not modelled.
- `numpy.random.Generator.shuffle` is modelled as the Fisher-Yates exchange of position `i` with a drawn index `j <= i`.
- Floating point is replaced by exact reals throughout: waiting times, the clock, proportions, `iqe`, the number operands of the point and vector operators, and the coordinates of source/event.py. The points of event.py keep integer coordinates, as every point the lattice builds has; a point scaled by a number has real ones.
- event.py `__pow__` and source/event.py `norm` need a square root and are not modelled.
- Printing, timing decorators, the progress lines of `Operations`, plots, `__str__`/`__repr__`, `lattice.__eq__` on the hashtag, and the unused `_Singulet` are left out.
- The molecule module that reseau.py imports is not part of this model. Its lower-case `host`, `tadf`, `fluorescent` and `exciton` offer `Electron()`, `Trou()`, `_exciton()` and `_decay()`. Those four operations are modelled in `LatticeSite`, as the call sites use them.
- `_exciton()` binds the exciton with the spin passed as the parameter `spin`.
- The `_voisins` family and the rest of reseau.py after line 611 (display) are left out.
- The unknown-reaction branch (reseau.py:562-564) is proved unreachable and not modelled as a state change.
- Reseau.Lattice.Operations, Reseau.Lattice.FirstReactionMethod, Reseau.Lattice.Happen, Reseau.Lattice.HappenElectronMove and Reseau.Lattice.HappenDecay model the program with `self.electrons` and `self.trous` set to the injected `CHARGES` at construction, which reseau.py never does. As written, `Operations` raises `AttributeError` at reseau.py:586 on its first step, and `_First_Reaction_Method` would raise at lines 533, 550 and 557 (see Findings).
- Reseau.Create: requires a lattice of at least 3 × 3 × 2 so that every site has distinct neighbours. Below ten sites in x or y the source raises `ValueError` anyway.
- Reseau.Create, LatticeConstruction.Construction and LatticeConstruction.Share: require non-negative proportions. reseau.py:116-141 accepts negative ones, where numpy's negative slice bounds would count from the end of the array; every caller in the repository passes positive percentages ((15, 1) at reseau.py:760 and OLED.py:299).
- Reseau.Lattice.Operations: states the invariant, monotone counters and stopping conditions, not the exact sequence of events fired. The negative-clock stop (reseau.py:594-599) is shown never to fire and has no effect in the model.
- Reseau.Lattice.Operations, Reseau.Lattice.FirstReactionMethod, Reseau.Lattice.Fire, Reseau.Lattice.Ppv and Reseau.Lattice.OldPpv: require the rate oracles `lumoTau` and `homoTau` to be non-negative. The source's waiting times are: `_LUMO` and `_HOMO` draw `rand = -uniform(-1, 0)` in (0, 1] (reseau.py:349 and 400), so `-log(rand)/f`, times a positive exponential, is never negative (lines 355-357 and 407-409). The negative-clock stop above never firing rests on this.
- Supervisor.Supervise: the CMA-ES solver, JSON and pickle files are abstracted away. The solver's stop decision is the parameter `solverStops`, and each input file records only the supervisor that wrote it.
- Argument parsing in run.py is reduced to two optional values.
- Exceptions are modelled by their class only, never by their message.
- Concurrency between workers and supervisors of the chain, and the scheduler scripts that launch them, are left out.

## Findings

| source | as written | input that shows it | evidently intended | confidence | as-written member | corrected member |
|---|---|---|---|---|---|---|
| reseau.py:542 | The hole's electrode test reads `self.dimension.z`, but when `dimension` is a tuple (the annotation at line 65, the call at line 760) it has no `.z` | Any hole move: `AttributeError` is raised after the hole has left `trouPositions` and moved on the grid. Latent as written: with the `_PPV` calls of `__init__` commented out (lines 93 and 95) no move is ever listed | Test `final.z == dimension[2] - 1`, as the electron branch tests `final.z == 0` | high, not executed | Reseau.Lattice.MoveHoleAsWritten | Reseau.Lattice.HappenHoleMove |
| reseau.py:586 | `Operations` tests `self.electrons == 0 or self.trous == 0`, but no line of reseau.py assigns either attribute | `Operations(stop)` with `stop > 0` on any new lattice: `AttributeError` on the first iteration. Lines 533, 550 and 557 of `_First_Reaction_Method` read them too | `__init__` sets `self.electrons` and `self.trous` to `self.charges`, the number of charges of each sign injected, so each counter is the number of those charges still on the lattice | high that it raises, medium on the intended value; not executed | Reseau.CountersUnsetAsWritten | Reseau.Create |
| reseau.py:160-176 | `__BVKX`/`__BVKY` near a face take `range(0, distance+1)` plus the top `distance` sites, and near the other face the bottom `distance` sites | Site 1 on an axis of 10 at distance 2 gets `[0, 1, 2, 8, 9]`, missing 3 | The window `pos - distance .. pos + distance` folded modulo the axis; the lattice always uses distance 1, where both agree | medium, not executed | LatticeNeighbours.PeriodicWrongAtDistanceTwo | LatticeNeighbours.PeriodicFixedIsTheFoldedWindow |
| reseau.py:186-187 | `__BVKZ` near the bottom electrode takes `range(0, distance+1)` | Site 1 at distance 2 gets `[0, 1, 2]`, missing 3 | The window `pos - distance .. pos + distance` cut at both electrodes; at distance 1 both agree | medium, not executed | LatticeNeighbours.WallWrongAtDistanceTwo | LatticeNeighbours.WallFixedIsTheCutWindow |
