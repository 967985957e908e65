/** A site of the lattice (reseau.py) as the lattice sees it: the molecule
    class it was built as, and its electron, hole and exciton.  The lattice
    drives its molecules through `Electron()`, `Trou()`, `_exciton()` and
    `_decay()` and reads `electron`, `hole` and `exciton`; those operations
    are modelled on the flags here. */
module LatticeSite {
  import opened Wrappers
  import opened Event

  /** `host`, `tadf` or `fluorescent`. */
  datatype Kind = Host | Tadf | Fluorescent

  /** `exciton` is the bound exciton's spin (true for a singlet), `None` when
      there is none. */
  datatype Site = Site(kind: Kind, electron: bool, hole: bool, exciton: Option<bool>)

  /** A snapshot of the grid: the site at every position. */
  type Occupancy = map<Point, Site>

  /** A new, empty site. */
  function EmptySite(kind: Kind): (s: Site)
    ensures s.kind == kind && !s.electron && !s.hole && s.exciton.None?
  {
    Site(kind, false, false, None)
  }

  /** `Electron()`: flips the electron flag, and only it. */
  function ToggleElectron(s: Site): (r: Site)
    ensures r.electron != s.electron && r.(electron := s.electron) == s
  {
    s.(electron := !s.electron)
  }

  /** `Trou()`: flips the hole flag, and only it. */
  function ToggleHole(s: Site): (r: Site)
    ensures r.hole != s.hole && r.(hole := s.hole) == s
  {
    s.(hole := !s.hole)
  }

  /** `_exciton()`: binds an exciton of spin `spin` when the site holds both an
      electron and a hole, and leaves the site alone otherwise. */
  function Bind(s: Site, spin: bool): (r: Site)
    ensures r.kind == s.kind && r.electron == s.electron && r.hole == s.hole
    ensures s.electron && s.hole ==> r.exciton == Some(spin)
    ensures !(s.electron && s.hole) ==> r == s
  {
    if s.electron && s.hole then s.(exciton := Some(spin)) else s
  }

  /** `_decay()`: the exciton goes and takes the electron and hole with it. */
  function Decayed(s: Site): (r: Site)
    ensures r == EmptySite(s.kind)
  {
    s.(electron := false, hole := false, exciton := None)
  }
}
