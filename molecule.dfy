/** Molecules of the lattice simulator (molecule.py).  A molecule carries an
    electron flag, a hole flag and, while one is bound, an `Exciton` object
    held in its `exciton` attribute; `null` stands for the attribute being
    absent (`hasattr(self, "exciton")` is false). */
module Molecule {
  import opened Wrappers
  import Event

  /** `Exciton._spin_state`: singlet (true) for a draw in [0, 0.25), triplet
      (false) for [0.25, 1), `ValueError` outside [0, 1). */
  function SpinState(number: real): (r: Result<bool>)
    ensures r.Success? <==> 0.0 <= number < 1.0
    ensures r.Failure? ==> r.error == ValueError
    ensures r == Success(true) <==> 0.0 <= number < 0.25
    ensures r == Success(false) <==> 0.25 <= number < 1.0
  {
    if 0.0 <= number < 0.25 then Success(true)
    else if 0.25 <= number < 1.0 then Success(false)
    else Failure(ValueError)
  }

  class Exciton {
    /** `_spin`: true for a singlet, false for a triplet. */
    var spin: bool

    constructor FromSpin(spin: bool)
      ensures this.spin == spin
    {
      this.spin := spin;
    }

    /** `Exciton(number)`: the spin drawn by `SpinState`, or its `ValueError`. */
    static method Create(number: real) returns (r: Result<Exciton>)
      ensures r.Failure? <==> SpinState(number).Failure?
      ensures r.Failure? ==> r.error == ValueError
      ensures r.Success? ==> fresh(r.value) && r.value.spin == SpinState(number).value
    {
      var state := SpinState(number);
      if state.Failure? {
        return Failure(state.error);
      }
      var e := new Exciton.FromSpin(state.value);
      return Success(e);
    }

    /** `reverse_spin`: singlet and triplet swap. */
    method ReverseSpin()
      modifies this
      ensures spin == !old(spin)
    {
      spin := !spin;
    }
  }

  /** Reversing the spin twice restores it. */
  method ReverseSpinTwice(e: Exciton)
    modifies e
    ensures e.spin == old(e.spin)
  {
    e.ReverseSpin();
    e.ReverseSpin();
  }

  /** The class of a molecule: the base class or one of its three subclasses. */
  datatype Kind = Generic | Fluorescent | Tadf | Host

  class Molecule {
    const kind: Kind
    const position: Event.Point
    const neighbors: seq<Event.Point>
    var electron: bool
    var hole: bool
    var exciton: Exciton?

    /** A new molecule holds no charge and no exciton. */
    constructor (kind: Kind, position: Event.Point, neighbors: seq<Event.Point>)
      ensures this.kind == kind && this.position == position && this.neighbors == neighbors
      ensures !electron && !hole && exciton == null
    {
      this.kind := kind;
      this.position := position;
      this.neighbors := neighbors;
      electron := false;
      hole := false;
      exciton := null;
    }

    /** `switch_electron`: flips the electron flag only. */
    method SwitchElectron()
      modifies this
      ensures electron == !old(electron)
      ensures hole == old(hole) && exciton == old(exciton)
    {
      electron := !electron;
    }

    /** `switch_hole`: flips the hole flag only. */
    method SwitchHole()
      modifies this
      ensures hole == !old(hole)
      ensures electron == old(electron) && exciton == old(exciton)
    {
      hole := !hole;
    }

    /** `generate_exciton`: binds a new exciton, with the spin drawn from
        `draw` (`seed.random()`), only when both an electron and a hole are
        present; an existing exciton is replaced.  Otherwise nothing changes. */
    method GenerateExciton(draw: real) returns (r: Outcome)
      modifies this
      ensures electron == old(electron) && hole == old(hole)
      ensures !(electron && hole) ==> r == Pass && exciton == old(exciton)
      ensures electron && hole && SpinState(draw).Success? ==>
                r == Pass && exciton != null && fresh(exciton) && exciton.spin == SpinState(draw).value
      ensures electron && hole && SpinState(draw).Failure? ==>
                r == Fail(ValueError) && exciton == old(exciton)
    {
      if electron && hole {
        var created := Exciton.Create(draw);
        if created.Failure? {
          return Fail(created.error);
        }
        exciton := created.value;
      }
      return Pass;
    }

    /** `unbound_exciton`: deletes the exciton when there is one, and raises
        `AttributeError` in every case (the `raise` is not guarded). */
    method UnboundExciton() returns (r: Outcome)
      modifies this
      ensures r == Fail(AttributeError)
      ensures exciton == null
      ensures electron == old(electron) && hole == old(hole)
    {
      if exciton != null {
        exciton := null;
      }
      return Fail(AttributeError);
    }

    /** `exciton_decay`: the base class raises `NotImplementedError`; the
        subclasses, when an exciton is bound, empty the molecule and return the
        exciton's spin (`Fluorescent`, `TADF`) or false (`Host`), and without an
        exciton raise `AttributeError` and change nothing. */
    method ExcitonDecay() returns (r: Result<bool>)
      modifies this
      ensures kind == Generic ==> r == Failure(NotImplementedError)
      ensures kind != Generic && old(exciton) == null ==> r == Failure(AttributeError)
      ensures kind != Generic && old(exciton) != null ==>
                !electron && !hole && exciton == null &&
                r == Success(if kind == Host then false else old(exciton.spin))
      ensures r.Failure? ==> electron == old(electron) && hole == old(hole) && exciton == old(exciton)
    {
      if kind == Generic {
        return Failure(NotImplementedError);
      }
      if exciton == null {
        return Failure(AttributeError);
      }
      var output := if kind == Host then false else exciton.spin;
      electron := false;
      hole := false;
      exciton := null;
      return Success(output);
    }

    /** `TADF.intersystem_crossing`: reverses the bound exciton's spin, or
        raises `AttributeError` when there is none. */
    method IntersystemCrossing() returns (r: Outcome)
      requires kind == Tadf
      modifies exciton
      ensures exciton == old(exciton)
      ensures old(exciton) == null ==> r == Fail(AttributeError)
      ensures old(exciton) != null ==> r == Pass && exciton.spin == !old(exciton.spin)
    {
      if exciton != null {
        exciton.ReverseSpin();
        return Pass;
      }
      return Fail(AttributeError);
    }
  }
}
