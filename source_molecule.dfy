/** Molecules of the rewritten simulator (source/molecule.py).  The exciton is
    an integer field: 0 for none, 1 for a singlet, 3 for a triplet (`EXCITON`;
    the doublet value 2 is declared but never assigned). */
module SourceMolecule {
  import opened Wrappers
  import SourceEvent

  const NONE := 0
  const SINGLET := 1
  const DOUBLET := 2
  const TRIPLET := 3

  /** The exciton values the methods can produce. */
  predicate IsExcitonState(s: int)
  {
    s == NONE || s == SINGLET || s == TRIPLET
  }

  /** The state of a new exciton for a draw of `seed.random()`: a singlet for
      a draw in [0, 0.25), a triplet otherwise. */
  function DrawnState(draw: real): (s: int)
    ensures s == SINGLET <==> 0.0 <= draw < 0.25
    ensures s != SINGLET ==> s == TRIPLET
  {
    if 0.0 <= draw < 0.25 then SINGLET else TRIPLET
  }

  /** The exciton after an intersystem crossing: singlet and triplet swap,
      anything else is left alone. */
  function Crossed(s: int): (r: int)
    ensures IsExcitonState(s) ==> IsExcitonState(r)
    ensures (s == SINGLET || s == TRIPLET) ==> r != s
    ensures (s != SINGLET && s != TRIPLET) ==> r == s
  {
    if s == SINGLET then TRIPLET else if s == TRIPLET then SINGLET else s
  }

  /** Intersystem crossing is an involution. */
  lemma CrossedTwice(s: int)
    ensures Crossed(Crossed(s)) == s
  {
  }

  /** The class of a molecule: the base class or one of its three subclasses. */
  datatype Kind = Generic | Fluorophore | Tadf | Host

  class Molecule {
    const kind: Kind
    const position: SourceEvent.Coords
    const neighbourhood: seq<SourceEvent.Coords>
    var electron: bool
    var hole: bool
    var exciton: int

    /** The exciton field only ever holds none, singlet or triplet. */
    ghost predicate Valid()
      reads this
    {
      IsExcitonState(exciton)
    }

    /** A new molecule is empty. */
    constructor (kind: Kind, position: SourceEvent.Coords, neighbourhood: seq<SourceEvent.Coords>)
      ensures this.kind == kind && this.position == position && this.neighbourhood == neighbourhood
      ensures Valid() && Empty()
    {
      this.kind := kind;
      this.position := position;
      this.neighbourhood := neighbourhood;
      electron := false;
      hole := false;
      exciton := NONE;
    }

    /** `empty`: `not any([electron, hole, exciton])`. */
    predicate Empty()
      reads this
      ensures Empty() <==> !electron && !hole && exciton == NONE
    {
      !(electron || hole || exciton != 0)
    }

    /** `switch_electron`: flips the electron flag only. */
    method SwitchElectron()
      requires Valid()
      modifies this
      ensures Valid()
      ensures electron == !old(electron) && hole == old(hole) && exciton == old(exciton)
    {
      electron := !electron;
    }

    /** `switch_hole`: flips the hole flag only. */
    method SwitchHole()
      requires Valid()
      modifies this
      ensures Valid()
      ensures hole == !old(hole) && electron == old(electron) && exciton == old(exciton)
    {
      hole := !hole;
    }

    /** `generate_exciton`: with both an electron and a hole present, sets the
        exciton drawn from `draw` (`seed.random()`); otherwise changes nothing. */
    method GenerateExciton(draw: real)
      requires Valid()
      modifies this
      ensures Valid()
      ensures electron == old(electron) && hole == old(hole)
      ensures exciton == if electron && hole then DrawnState(draw) else old(exciton)
    {
      if electron && hole {
        if 0.0 <= draw < 0.25 {
          exciton := SINGLET;
        } else {
          exciton := TRIPLET;
        }
      }
    }

    /** `unbound_exciton`: the exciton is reset, the charges stay. */
    method UnboundExciton()
      requires Valid()
      modifies this
      ensures Valid()
      ensures exciton == NONE && electron == old(electron) && hole == old(hole)
    {
      if exciton != 0 {
        exciton := NONE;
      }
    }

    /** `exciton_decay`: the base class raises `NotImplementedError`.  With an
        exciton, the subclasses leave the molecule empty and return whether it
        was a singlet (`Fluorophore`) or false (`TADF`, `Host`, whatever the
        spin).  Without one they change nothing and return Python's `None`. */
    method ExcitonDecay() returns (r: Result<Option<bool>>)
      requires Valid()
      modifies this
      ensures Valid()
      ensures kind == Generic ==> r == Failure(NotImplementedError)
      ensures kind != Generic && old(exciton) == NONE ==> r == Success(None)
      ensures kind != Generic && old(exciton) != NONE ==>
                Empty() && r == Success(Some(kind == Fluorophore && old(exciton) == SINGLET))
      ensures kind == Generic || old(exciton) == NONE ==>
                electron == old(electron) && hole == old(hole) && exciton == old(exciton)
    {
      if kind == Generic {
        return Failure(NotImplementedError);
      }
      if exciton == 0 {
        return Success(None);
      }
      var state := exciton;
      exciton := NONE;
      electron := false;
      hole := false;
      if kind == Fluorophore {
        return Success(Some(state == SINGLET));
      }
      return Success(Some(false));
    }

    /** `TADF.intersystem_crossing`: singlet and triplet swap, no exciton stays none. */
    method IntersystemCrossing()
      requires kind == Tadf && Valid()
      modifies this
      ensures Valid()
      ensures exciton == Crossed(old(exciton)) && electron == old(electron) && hole == old(hole)
    {
      if exciton == SINGLET {
        exciton := TRIPLET;
      } else if exciton == TRIPLET {
        exciton := SINGLET;
      }
    }
  }

  /** Two crossings in a row give back the original exciton. */
  method CrossTwice(m: Molecule)
    requires m.kind == Tadf && m.Valid()
    modifies m
    ensures m.Valid() && m.exciton == old(m.exciton)
  {
    m.IntersystemCrossing();
    m.IntersystemCrossing();
    CrossedTwice(old(m.exciton));
  }
}
