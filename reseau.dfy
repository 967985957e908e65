/** The lattice of reseau.py: a box of molecules, the electrons and holes on
    it, the three lists of pending events, and the First Reaction Method that
    makes the fastest of them happen.  The waiting times of new moves come
    from the oracles `lumoTau` and `homoTau` (the source's `_LUMO` and
    `_HOMO`), the spin of a new exciton from the parameter `spin`. */
module Reseau {
  import opened Wrappers
  import opened Event
  import opened LatticeSite
  import opened LatticeNeighbours
  import opened LatticeEvents
  import opened LatticeState
  import Tools
  import LatticeConstruction

  /** `self.charges`: how many charges of each sign are injected. */
  const CHARGES: nat := 10

  /** How many recombinations are recorded for the molecule class `k`. */
  function Count(order: seq<Kind>, k: Kind): (n: nat)
    ensures n <= |order|
  {
    if order == [] then 0
    else Count(order[..|order| - 1], k) + (if order[|order| - 1] == k then 1 else 0)
  }

  /** Recording one more recombination on `k` adds one to the count of `k`
      and leaves the other counts alone. */
  lemma CountAppend(order: seq<Kind>, k: Kind)
    ensures forall j :: Count(order + [k], j) == Count(order, j) + (if j == k then 1 else 0)
  {
    assert (order + [k])[..|order|] == order;
  }

  /** The three counts add up to the number of recorded recombinations. */
  lemma {:induction false} CountsAddUp(order: seq<Kind>)
    ensures Count(order, Host) + Count(order, Tadf) + Count(order, Fluorescent) == |order|
  {
    if order != [] {
      CountsAddUp(order[..|order| - 1]);
    }
  }

  /** `where`: how many excitons formed on each class of molecule, and the
      classes in the order they formed. */
  class Where {
    var host: int
    var tadf: int
    var fluo: int
    var order: seq<Kind>

    /** Each counter counts its class in `order`. */
    ghost predicate Valid()
      reads this
    {
      host == Count(order, Host) && tadf == Count(order, Tadf) && fluo == Count(order, Fluorescent)
    }

    constructor ()
      ensures Valid() && order == [] && host == 0 && tadf == 0 && fluo == 0
    {
      host, tadf, fluo, order := 0, 0, 0, [];
    }

    /** `where.host()`. */
    method RecordHost()
      requires Valid()
      modifies this
      ensures Valid()
      ensures host == old(host) + 1 && tadf == old(tadf) && fluo == old(fluo)
      ensures order == old(order) + [Host]
    {
      CountAppend(order, Host);
      host := host + 1;
      order := order + [Host];
    }

    /** `where.tadf()`. */
    method RecordTadf()
      requires Valid()
      modifies this
      ensures Valid()
      ensures host == old(host) && tadf == old(tadf) + 1 && fluo == old(fluo)
      ensures order == old(order) + [Tadf]
    {
      CountAppend(order, Tadf);
      tadf := tadf + 1;
      order := order + [Tadf];
    }

    /** `where.fluo()`. */
    method RecordFluo()
      requires Valid()
      modifies this
      ensures Valid()
      ensures host == old(host) && tadf == old(tadf) && fluo == old(fluo) + 1
      ensures order == old(order) + [Fluorescent]
    {
      CountAppend(order, Fluorescent);
      fluo := fluo + 1;
      order := order + [Fluorescent];
    }
  }

  /** `_Fastest`: the stable sort on `tau` puts first the earliest-listed event
      of least waiting time; an empty list has no first element. */
  function Fastest(tab: seq<Event>): (r: Result<Event>)
    ensures r.Failure? <==> tab == []
    ensures r.Failure? ==> r.error == IndexError
    ensures r.Success? ==> r.value in tab && exists i :: IsFirstFastest(tab, i) && tab[i] == r.value
  {
    if tab == [] then Failure(IndexError) else Success(tab[FirstFastest(tab)])
  }

  /** In the terms of the event order the sort uses (`__lt__`, `__le__`,
      `__gt__`): no listed event is below the one `_Fastest` returns, and
      every event listed before it is strictly above it. */
  lemma FastestIsLeast(tab: seq<Event>)
    requires tab != []
    ensures var e := Fastest(tab).value;
            (forall x :: x in tab ==> Le(e, x) && !Lt(x, e)) &&
            exists i :: 0 <= i < |tab| && tab[i] == e && forall j :: 0 <= j < i ==> Gt(tab[j], e)
  {
    var i := FirstFastest(tab);
    forall x | x in tab
      ensures Le(tab[i], x) && !Lt(x, tab[i])
    {
      var j :| 0 <= j < |tab| && tab[j] == x;
      OrderingIsByTau(tab[i], x);
    }
  }

  /** The loop `for i in ...: i.tau = i.tau - evenement.tau` over one list. */
  method Shifted(tab: seq<Event>, t: real) returns (r: seq<Event>)
    ensures r == Rebase(tab, t)
  {
    r := tab;
    for k := 0 to |tab|
      invariant |r| == |tab|
      invariant forall i :: 0 <= i < k ==> r[i] == tab[i].(tau := tab[i].tau - t)
      invariant forall i :: k <= i < |tab| ==> r[i] == tab[i]
    {
      r := r[k := r[k].(tau := r[k].tau - t)];
    }
  }

  /** The internal quantum efficiency, in percent: fluorescent decays per
      injected pair of charges. */
  function Iqe(fluorescence: int): (r: real)
    ensures 0 <= fluorescence <= CHARGES ==> 0.0 <= r <= 100.0
    ensures fluorescence == CHARGES ==> r == 100.0
  {
    100.0 * (fluorescence as real) / (CHARGES as real)
  }

  /** The integer attributes `__init__` gives a lattice (lines 88, 97-99 and
      103): the charges of each sign, the recombinations, the fluorescent
      decays, the efficiency and the clock. Nothing in reseau.py sets
      `electrons` or `trous`. */
  const InitCounters: map<string, int> :=
    map["charges" := 10, "recombinaisons" := 0, "fluorescence" := 0, "iqe" := 0, "temps" := 0]

  /** Line 586 as written: `self.electrons == 0 or self.trous == 0` looks
      both counters up in the attribute table `attrs`, left to right and
      stopping at the first true operand; an attribute that was never set
      raises `AttributeError`. `Success(true)` makes `Operations` return. */
  function ChargesGone(attrs: map<string, int>): (r: Result<bool>)
    ensures r.Failure? ==> r.error == AttributeError
    ensures r.Success? <==> "electrons" in attrs && (attrs["electrons"] == 0 || "trous" in attrs)
    ensures r.Success? ==> r.value == (attrs["electrons"] == 0 || attrs["trous"] == 0)
  {
    if "electrons" !in attrs then Failure(AttributeError)
    else if attrs["electrons"] == 0 then Success(true)
    else if "trous" !in attrs then Failure(AttributeError)
    else Success(attrs["trous"] == 0)
  }

  /** As written, the first iteration of `Operations` on a new lattice raises
      `AttributeError` at line 586; with both counters set to the injected
      `CHARGES`, as `Create` sets them, the test passes and the step runs. */
  lemma CountersUnsetAsWritten()
    ensures ChargesGone(InitCounters) == Failure(AttributeError)
    ensures ChargesGone(InitCounters["electrons" := CHARGES]["trous" := CHARGES]) == Success(false)
  {
  }

  /** The record `where` after a step whose event ended at `p`: the class of
      the molecule at `p` is appended when an exciton sits there, and
      nothing otherwise (reseau.py:297-305 via `_event_Exciton`). */
  ghost predicate Recorded(before: seq<Kind>, after: seq<Kind>, occ: Occupancy, p: Point)
  {
    p in occ && after == before + (if occ[p].exciton.Some? then [occ[p].kind] else [])
  }

  lemma RecordedByCases(before: seq<Kind>, after: seq<Kind>, occ: Occupancy, p: Point)
    requires p in occ
    requires occ[p].exciton.Some? ==> after == before + [occ[p].kind]
    requires occ[p].exciton.None? ==> after == before
    ensures Recorded(before, after, occ, p)
  {
  }

  /** What numpy's `rng.choice(n, size = CHARGES, replace = False)` returns
      when `CHARGES <= n`: `CHARGES` distinct values in `[0, n)`. */
  predicate Picks(xs: seq<int>, n: int)
  {
    |xs| == CHARGES &&
    (forall i :: 0 <= i < |xs| ==> 0 <= xs[i] < n) &&
    (forall i, j :: 0 <= i < j < |xs| ==> xs[i] != xs[j])
  }

  /** The second loop of `_pop_*`: `tab.remove(e)` for each collected
      obsolete event `e`; what is left is exactly the live events. */
  method RemoveEach(rule: Rule, ghost occ: Occupancy, tab: seq<Event>, obso: seq<Event>)
    returns (kept: seq<Event>)
    requires Covers(occ, tab) && obso == ObsoleteEvents(rule, occ, tab)
    ensures kept == Keep(rule, occ, tab)
  {
    kept := tab;
    ThinnedNone(rule, occ, tab);
    for k := 0 to |obso|
      invariant kept == Thinned(rule, occ, tab, k)
    {
      ThinnedStep(rule, occ, tab, k);
      kept := RemoveFirst(kept, obso[k]);
    }
    ThinnedAll(rule, occ, tab);
  }

  /** Lines 193-196, `__Injection(z)`: `CHARGES` points on the layer `z`,
      zipped from a draw of x and a draw of y; the draw raises `ValueError`
      when the lattice is narrower than `CHARGES`. The x are distinct, so
      the points are. */
  function Injection(xs: seq<int>, ys: seq<int>, d0: int, d1: int, z: int): (r: Result<seq<Point>>)
    requires CHARGES <= d0 ==> Picks(xs, d0)
    requires CHARGES <= d1 ==> Picks(ys, d1)
    ensures r.Failure? <==> d0 < CHARGES || d1 < CHARGES
    ensures r.Failure? ==> r.error == ValueError
    ensures r.Success? ==>
              |r.value| == CHARGES && DistinctPoints(r.value) &&
              (forall i :: 0 <= i < CHARGES ==> r.value[i] == Point(xs[i], ys[i], z)) &&
              forall p :: p in r.value ==> 0 <= p.x < d0 && 0 <= p.y < d1 && p.z == z
  {
    if d0 < CHARGES || d1 < CHARGES then Failure(ValueError)
    else Success(seq(CHARGES, i requires 0 <= i < CHARGES => Point(xs[i], ys[i], z)))
  }

  /** `lattice`: the grid of `d0 × d1 × d2` molecules and its bookkeeping. */
  class Lattice {
    const d0: int
    const d1: int
    const d2: int
    const grid: array3<Site>
    const where: Where
    ghost const sites: set<Point>
    var eventsHomo: seq<Event>
    var eventsLumo: seq<Event>
    var eventsExciton: seq<Event>
    var electronPositions: seq<Point>
    var holePositions: seq<Point>
    var time: real
    var recombinations: int
    var fluorescence: int
    var electrons: int
    var holes: int
    var iqe: real

    /** The attributes `__init__` sets: the grid with the injected charges
        already on it, empty event lists, no recombination, time zero; and
        the two charge counters, which reseau.py reads but never sets. */
    constructor (d0: int, d1: int, d2: int, grid: array3<Site>,
                 electronPositions: seq<Point>, holePositions: seq<Point>, electrons: int, holes: int)
      ensures this.d0 == d0 && this.d1 == d1 && this.d2 == d2 && this.grid == grid
      ensures fresh(where) && where.Valid() && where.order == []
      ensures eventsHomo == [] && eventsLumo == [] && eventsExciton == []
      ensures this.electronPositions == electronPositions && this.holePositions == holePositions
      ensures this.electrons == electrons && this.holes == holes
      ensures time == 0.0 && recombinations == 0 && fluorescence == 0 && iqe == 0.0
      ensures forall p :: p in sites <==> InGrid(p, d0, d1, d2)
    {
      this.d0, this.d1, this.d2, this.grid := d0, d1, d2, grid;
      ghost var ps := set x, y, z | 0 <= x < d0 && 0 <= y < d1 && 0 <= z < d2 :: Point(x, y, z);
      forall p | InGrid(p, d0, d1, d2)
        ensures p in ps
      {
        assert p == Point(p.x, p.y, p.z);
      }
      sites := ps;
      this.electronPositions, this.holePositions := electronPositions, holePositions;
      this.electrons, this.holes := electrons, holes;
      eventsHomo, eventsLumo, eventsExciton := [], [], [];
      time, recombinations, fluorescence, iqe := 0.0, 0, 0, 0.0;
      where := new Where();
    }

    /** The grid has the lattice's dimensions, at least three sites across
        in x and y and two between the electrodes; `sites` are its
        positions. */
    ghost predicate Shape()
    {
      grid.Length0 == d0 && grid.Length1 == d1 && grid.Length2 == d2 &&
      3 <= d0 && 3 <= d1 && 2 <= d2 &&
      forall p :: p in sites <==> InGrid(p, d0, d1, d2)
    }

    /** The site at every position of the grid. */
    ghost function Occ(): (occ: Occupancy)
      requires Shape()
      reads grid
      ensures forall p :: p in occ <==> InGrid(p, d0, d1, d2)
    {
      map p | p in sites :: grid[p.x, p.y, p.z]
    }

    /** The three event lists. */
    ghost function Events(): Lists
      reads this
    {
      Lists(eventsHomo, eventsLumo, eventsExciton)
    }

    /** The charges' bookkeeping and the clock. */
    ghost function Tally(): (seq<Point>, seq<Point>, real, int, int, int)
      reads this
    {
      (electronPositions, holePositions, time, fluorescence, electrons, holes)
    }

    /** The lattice's invariant: every listed event could happen, once; the
        position lists name exactly the sites holding each kind of charge;
        every exciton is an electron and a hole bound together; and every
        recombination is recorded in `where`. */
    ghost predicate Valid()
      reads this, grid, where
    {
      Shape() && where.Valid() && recombinations == |where.order| &&
      ListsValid(Occ(), Events()) && ExcitonsBound(Occ()) &&
      Tracks(Occ(), electronPositions, Electron) && Tracks(Occ(), holePositions, Hole)
    }

    /** The move list of the carrier `c`. */
    function Moves(c: Carrier): seq<Event>
      reads this
    {
      if c == Electron then eventsLumo else eventsHomo
    }

    /** The position list of the carrier `c`. */
    function Positions(c: Carrier): seq<Point>
      reads this
    {
      if c == Electron then electronPositions else holePositions
    }

    /** The counter of the carrier `c`. */
    function Charges(c: Carrier): int
      reads this
    {
      if c == Electron then electrons else holes
    }

    /** `_isElectron`, `_isHole` for the carrier `c`. */
    predicate HasCharge(p: Point, c: Carrier)
      reads grid
      requires Shape() && InGrid(p, d0, d1, d2)
      ensures HasCharge(p, c) == Has(Occ()[p], c)
    {
      Has(grid[p.x, p.y, p.z], c)
    }

    /** `_isExciton`. */
    predicate IsExciton(p: Point)
      reads grid
      requires Shape() && InGrid(p, d0, d1, d2)
      ensures IsExciton(p) == Occ()[p].exciton.Some?
    {
      grid[p.x, p.y, p.z].exciton.Some?
    }

    /** `VOISINS` of the molecule at `pos`, as `__CalculVoisins` computes it:
        sites of the grid, each once, never `pos` itself. */
    function Voisins(pos: Point): (r: seq<Point>)
      requires Shape() && InGrid(pos, d0, d1, d2)
      ensures r == Neighbours(pos, d0, d1, d2)
      ensures pos !in r && forall q :: q in r ==> InGrid(q, d0, d1, d2)
    {
      NeighboursOfASite(pos, d0, d1, d2);
      Neighbours(pos, d0, d1, d2)
    }

    /** `Electron()` or `Trou()` on the molecule at `p`. */
    method FlipCharge(p: Point, c: Carrier)
      requires Shape() && InGrid(p, d0, d1, d2)
      modifies grid
      ensures Occ() == old(Occ())[p := Flip(old(Occ())[p], c)]
    {
      grid[p.x, p.y, p.z] := Flip(grid[p.x, p.y, p.z], c);
      assert Occ().Keys == old(Occ())[p := Flip(old(Occ())[p], c)].Keys;
    }

    /** `_exciton()` on the molecule at `p`. */
    method BindExciton(p: Point, spin: bool)
      requires Shape() && InGrid(p, d0, d1, d2)
      modifies grid
      ensures Occ() == old(Occ())[p := Bind(old(Occ())[p], spin)]
    {
      grid[p.x, p.y, p.z] := Bind(grid[p.x, p.y, p.z], spin);
      assert Occ().Keys == old(Occ())[p := Bind(old(Occ())[p], spin)].Keys;
    }

    /** `_decay()` on the molecule at `p`. */
    method DecayExciton(p: Point)
      requires Shape() && InGrid(p, d0, d1, d2)
      modifies grid
      ensures Occ() == DecayedAt(old(Occ()), p)
    {
      grid[p.x, p.y, p.z] := Decayed(grid[p.x, p.y, p.z]);
      assert Occ().Keys == DecayedAt(old(Occ()), p).Keys;
    }

    /** The tests of `_pop_decay`, `_pop_electron` and `_pop_hole`, in their
        order, on the grid. */
    predicate IsObsolete(rule: Rule, e: Event)
      reads grid
      requires Shape() && InGrid(e.initial, d0, d1, d2) && InGrid(e.final, d0, d1, d2)
      ensures IsObsolete(rule, e) == Obsolete(rule, Occ(), e)
    {
      match rule
      case DecayRule => !IsExciton(e.initial)
      case ElectronRule =>
        !HasCharge(e.initial, Electron) || IsExciton(e.initial) ||
        (HasCharge(e.initial, Electron) && HasCharge(e.final, Electron))
      case HoleRule =>
        !HasCharge(e.initial, Hole) || IsExciton(e.initial) ||
        (HasCharge(e.initial, Hole) && HasCharge(e.final, Hole))
    }

    /** The first loop of `_pop_*`: the obsolete events of `tab`, in order. */
    method CollectObsolete(rule: Rule, tab: seq<Event>) returns (obso: seq<Event>)
      requires Shape() && Covers(Occ(), tab)
      ensures obso == ObsoleteEvents(rule, Occ(), tab)
    {
      ghost var occ := Occ();
      obso := [];
      for k := 0 to |tab|
        invariant Covers(occ, tab[..k])
        invariant obso == ObsoleteEvents(rule, occ, tab[..k])
      {
        assert tab[..k + 1] == tab[..k] + [tab[k]];
        ObsoleteEventsSplit(rule, occ, tab[..k], [tab[k]]);
        if IsObsolete(rule, tab[k]) {
          obso := obso + [tab[k]];
        }
      }
      assert tab[..|tab|] == tab;
    }

    /** The body of `_pop_*`: collect the obsolete events in `obso`, then
        `tab.remove` each of them; what is left is exactly the live events,
        in their order. */
    method WithoutObsolete(rule: Rule, tab: seq<Event>) returns (kept: seq<Event>)
      requires Shape() && Covers(Occ(), tab)
      ensures kept == Keep(rule, Occ(), tab)
    {
      var obso := CollectObsolete(rule, tab);
      kept := RemoveEach(rule, Occ(), tab, obso);
    }

    /** `_pop_decay(events_Exciton)`. */
    method PopDecay()
      requires Shape() && Covers(Occ(), eventsExciton)
      modifies this
      ensures iqe == old(iqe)
      ensures eventsExciton == Keep(DecayRule, Occ(), old(eventsExciton))
      ensures eventsHomo == old(eventsHomo) && eventsLumo == old(eventsLumo)
      ensures Tally() == old(Tally()) && recombinations == old(recombinations)
    {
      eventsExciton := WithoutObsolete(DecayRule, eventsExciton);
    }

    /** `_pop_electron(events_LUMO)` and `_pop_hole(events_HOMO)`. */
    method PopMoves(c: Carrier)
      requires Shape() && Covers(Occ(), Moves(c))
      modifies this
      ensures iqe == old(iqe)
      ensures Moves(c) == Keep(RuleOf(c), Occ(), old(Moves(c)))
      ensures Moves(Opposite(c)) == old(Moves(Opposite(c))) && eventsExciton == old(eventsExciton)
      ensures Tally() == old(Tally()) && recombinations == old(recombinations)
    {
      var kept := WithoutObsolete(RuleOf(c), Moves(c));
      if c == Electron {
        eventsLumo := kept;
      } else {
        eventsHomo := kept;
      }
    }

    /** `_obsoletes(evenement)`: the lists `Pruned` describes. */
    method Obsoletes(e: Event)
      requires Shape() && CoversAll(Occ(), Events()) && InGrid(e.final, d0, d1, d2)
      modifies this
      ensures iqe == old(iqe)
      ensures Events() == Pruned(Occ(), old(Events()), e)
      ensures Tally() == old(Tally()) && recombinations == old(recombinations)
    {
      match e.reaction
      case Decay => PopDecay();
      case Fluorescence => PopDecay();
      case ElectronMove =>
        PopMoves(Electron);
        if IsExciton(e.final) {
          PopMoves(Hole);
        }
      case HoleMove =>
        PopMoves(Hole);
        if IsExciton(e.final) {
          PopMoves(Electron);
        }
      case Other(_) =>
    }

    /** `_exciton_POS`: records the class of the molecule at `pos`. */
    method ExcitonPos(pos: Point)
      requires Shape() && InGrid(pos, d0, d1, d2) && where.Valid()
      modifies where
      ensures where.Valid() && where.order == old(where.order) + [Occ()[pos].kind]
    {
      match grid[pos.x, pos.y, pos.z].kind
      case Host => where.RecordHost();
      case Tadf => where.RecordTadf();
      case Fluorescent => where.RecordFluo();
    }

    /** `_event_Exciton`: counts the recombination, records where it
        happened, and lists the exciton's decay (on a host or for a triplet)
        or fluorescence, due at once, unless an equal event is listed. */
    method EventExciton(pos: Point)
      requires Valid() && InGrid(pos, d0, d1, d2) && Occ()[pos].exciton.Some?
      modifies this, where
      ensures iqe == old(iqe)
      ensures Valid()
      ensures recombinations == old(recombinations) + 1
      ensures where.order == old(where.order) + [Occ()[pos].kind]
      ensures eventsExciton == AppendNew(old(eventsExciton), ExcitonEvent(Occ(), pos))
      ensures eventsHomo == old(eventsHomo) && eventsLumo == old(eventsLumo)
      ensures Tally() == old(Tally())
    {
      ghost var occ := Occ();
      ExcitonEventKeepsValid(occ, eventsExciton, pos);
      ExcitonPos(pos);
      var site := grid[pos.x, pos.y, pos.z];
      var spin := site.exciton.value;
      var hote := site.kind == Host;
      var evenement;
      if hote || !spin {
        evenement := Event(pos, pos, 0.0, Decay);
      } else {
        evenement := Event(pos, pos, 0.0, Fluorescence);
      }
      assert evenement == ExcitonEvent(occ, pos);
      eventsExciton := AppendNew(eventsExciton, evenement);
      recombinations := recombinations + 1;
      assert Occ() == occ;
      assert ListsValid(occ, Events());
    }

    /** `_event_LUMO` (for electrons) and `_event_HOMO` (for holes): a move
        from `from` to `to` is listed when `to` holds no such charge and no
        equal move is listed. */
    method OfferMove(from: Point, to: Point, c: Carrier, tau: (Point, Point) -> real)
      requires Shape() && InGrid(to, d0, d1, d2)
      modifies this
      ensures iqe == old(iqe)
      ensures Moves(c) == if !Has(Occ()[to], c) then AppendNew(old(Moves(c)), Event(from, to, tau(from, to), MoveOf(c)))
                          else old(Moves(c))
      ensures Moves(Opposite(c)) == old(Moves(Opposite(c))) && eventsExciton == old(eventsExciton)
      ensures Tally() == old(Tally()) && recombinations == old(recombinations)
    {
      if !HasCharge(to, c) {
        var e := Event(from, to, tau(from, to), MoveOf(c));
        if c == Electron {
          eventsLumo := AppendNew(eventsLumo, e);
        } else {
          eventsHomo := AppendNew(eventsHomo, e);
        }
      }
    }

    /** The loop of `_PPV` over the neighbours of a site holding a charge of
        kind `c`. */
    method OfferAll(from: Point, targets: seq<Point>, c: Carrier, tau: (Point, Point) -> real)
      requires Shape() && forall v :: v in targets ==> InGrid(v, d0, d1, d2)
      modifies this
      ensures iqe == old(iqe)
      ensures Moves(c) == Offered(Occ(), old(Moves(c)), from, targets, c, tau)
      ensures Moves(Opposite(c)) == old(Moves(Opposite(c))) && eventsExciton == old(eventsExciton)
      ensures Tally() == old(Tally()) && recombinations == old(recombinations)
    {
      for k := 0 to |targets|
        invariant Moves(c) == Offered(Occ(), old(Moves(c)), from, targets[..k], c, tau)
        invariant Moves(Opposite(c)) == old(Moves(Opposite(c))) && eventsExciton == old(eventsExciton)
        invariant Tally() == old(Tally()) && recombinations == old(recombinations) && iqe == old(iqe)
      {
        assert targets[..k + 1][..k] == targets[..k];
        OfferMove(from, targets[k], c, tau);
      }
      assert targets[..|targets|] == targets;
    }

    /** `_PPV(pos)`: the events of the site `pos` itself. */
    method Ppv(pos: Point, lumoTau: (Point, Point) -> real, homoTau: (Point, Point) -> real)
      requires Valid() && InGrid(pos, d0, d1, d2)
      requires forall a, b :: 0.0 <= lumoTau(a, b)
      requires forall a, b :: 0.0 <= homoTau(a, b)
      modifies this, where
      ensures iqe == old(iqe)
      ensures Valid()
      ensures Events() == AfterPpv(Occ(), old(Events()), pos, Voisins(pos), lumoTau, homoTau)
      ensures Occ()[pos].exciton.Some? ==>
                recombinations == old(recombinations) + 1 && where.order == old(where.order) + [Occ()[pos].kind]
      ensures Occ()[pos].exciton.None? ==>
                recombinations == old(recombinations) && where.order == old(where.order)
      ensures Tally() == old(Tally())
    {
      ghost var occ := Occ();
      var voisins := Voisins(pos);
      AfterPpvKeepsValid(occ, Events(), pos, voisins, lumoTau, homoTau);
      if IsExciton(pos) {
        EventExciton(pos);
      } else if HasCharge(pos, Electron) {
        OfferAll(pos, voisins, Electron, lumoTau);
      } else if HasCharge(pos, Hole) {
        OfferAll(pos, voisins, Hole, homoTau);
      }
      assert Occ() == occ;
    }

    /** One round of `_old_PPV`'s loop: nothing for a neighbour holding an
        exciton, else the move of its electron, else that of its hole. */
    method OfferReturn(voisin: Point, pos: Point, lumoTau: (Point, Point) -> real, homoTau: (Point, Point) -> real)
      requires Shape() && InGrid(voisin, d0, d1, d2) && InGrid(pos, d0, d1, d2)
      modifies this
      ensures iqe == old(iqe)
      ensures (eventsLumo, eventsHomo) ==
              ReturningFrom(Occ(), old(eventsLumo), old(eventsHomo), pos, voisin, lumoTau, homoTau)
      ensures eventsExciton == old(eventsExciton)
      ensures Tally() == old(Tally()) && recombinations == old(recombinations)
    {
      if IsExciton(voisin) {
      } else if HasCharge(voisin, Electron) {
        OfferMove(voisin, pos, Electron, lumoTau);
      } else if HasCharge(voisin, Hole) {
        OfferMove(voisin, pos, Hole, homoTau);
      }
    }

    /** The loop of `_old_PPV` over the neighbours `sources` of `pos`. */
    method ReturnAll(pos: Point, sources: seq<Point>, lumoTau: (Point, Point) -> real, homoTau: (Point, Point) -> real)
      requires Shape() && InGrid(pos, d0, d1, d2) && forall v :: v in sources ==> InGrid(v, d0, d1, d2)
      modifies this
      ensures iqe == old(iqe)
      ensures (eventsLumo, eventsHomo) ==
              Returning(Occ(), old(eventsLumo), old(eventsHomo), pos, sources, lumoTau, homoTau)
      ensures eventsExciton == old(eventsExciton)
      ensures Tally() == old(Tally()) && recombinations == old(recombinations)
    {
      for k := 0 to |sources|
        invariant (eventsLumo, eventsHomo) ==
                  Returning(Occ(), old(eventsLumo), old(eventsHomo), pos, sources[..k], lumoTau, homoTau)
        invariant eventsExciton == old(eventsExciton)
        invariant Tally() == old(Tally()) && recombinations == old(recombinations) && iqe == old(iqe)
      {
        assert sources[..k + 1][..k] == sources[..k];
        OfferReturn(sources[k], pos, lumoTau, homoTau);
      }
      assert sources[..|sources|] == sources;
    }

    /** `_old_PPV(pos)`: the moves of the neighbours' charges into the site
        `pos` a charge has just left. */
    method OldPpv(pos: Point, lumoTau: (Point, Point) -> real, homoTau: (Point, Point) -> real)
      requires Valid() && InGrid(pos, d0, d1, d2)
      requires forall a, b :: 0.0 <= lumoTau(a, b)
      requires forall a, b :: 0.0 <= homoTau(a, b)
      modifies this
      ensures iqe == old(iqe)
      ensures Valid()
      ensures Events() == AfterOldPpv(Occ(), old(Events()), pos, Voisins(pos), lumoTau, homoTau)
      ensures Tally() == old(Tally()) && recombinations == old(recombinations)
    {
      ghost var occ := Occ();
      var voisins := Voisins(pos);
      ghost var after := AfterOldPpv(occ, Events(), pos, voisins, lumoTau, homoTau);
      AfterOldPpvKeepsValid(occ, Events(), pos, voisins, lumoTau, homoTau);
      ReturnAll(pos, voisins, lumoTau, homoTau);
      assert Occ() == occ && Events() == after;
      assert ListsValid(Occ(), Events());
    }

    /** `self.temps += evenement.tau` and the loop that takes `t` off every
        listed waiting time. */
    method Elapse(t: real)
      modifies this
      ensures iqe == old(iqe)
      ensures time == old(time) + t
      ensures Events() == Shift(old(Events()), t)
      ensures electronPositions == old(electronPositions) && holePositions == old(holePositions)
      ensures fluorescence == old(fluorescence) && electrons == old(electrons) && holes == old(holes)
      ensures recombinations == old(recombinations)
    {
      time := time + t;
      eventsHomo := Shifted(eventsHomo, t);
      eventsLumo := Shifted(eventsLumo, t);
      eventsExciton := Shifted(eventsExciton, t);
    }
  
    /** Lines 527-529 and 538-540: `Electron()` (or `Trou()`) at both ends of
        the move, then `_exciton()` at its target. */
    method ArriveAt(e: Event, spin: bool, c: Carrier)
      requires Shape() && InGrid(e.initial, d0, d1, d2) && InGrid(e.final, d0, d1, d2)
      modifies grid
      ensures Occ() == Arrived(old(Occ()), e, spin, c)
    {
      ghost var before := Occ();
      FlipCharge(e.initial, c);
      ghost var left := Occ();
      assert left == before[e.initial := Flip(before[e.initial], c)];
      FlipCharge(e.final, c);
      ghost var flipped := Flip(left[e.final], c);
      assert Occ() == left[e.final := flipped];
      BindExciton(e.final, spin);
      assert Occ() == left[e.final := flipped][e.final := Bind(flipped, spin)];
      assert left[e.final := flipped][e.final := Bind(flipped, spin)] == left[e.final := Bind(flipped, spin)];
    }

    /** Lines 525-546 for the carrier `c`: `positions.remove(initial)`
        (`ValueError` when the charge is not listed), the charge leaves
        `initial` and arrives at `final`, binds there with a charge of the
        other kind, and is absorbed if it lands unbound on its electrode layer
        `z == electrode`. */
    method MoveCharge(e: Event, spin: bool, c: Carrier, electrode: int) returns (o: Outcome)
      requires Shape() && InGrid(e.initial, d0, d1, d2) && InGrid(e.final, d0, d1, d2)
      modifies this, grid
      ensures iqe == old(iqe)
      ensures o.Fail? <==> e.initial !in old(Positions(c))
      ensures o.Fail? ==> o.error == ValueError && Occ() == old(Occ()) && Tally() == old(Tally())
      ensures o.Pass? ==>
                var absorbed := e.final.z == electrode && Occ()[e.final].exciton.None?;
                Occ() == Moved(old(Occ()), e, spin, c, electrode) &&
                Positions(c) == MovedPositions(old(Positions(c)), e, absorbed) &&
                Charges(c) == old(Charges(c)) - (if absorbed then 1 else 0)
      ensures c == Electron ==> holePositions == old(holePositions) && holes == old(holes)
      ensures c == Hole ==> electronPositions == old(electronPositions) && electrons == old(electrons)
      ensures Events() == old(Events()) && time == old(time) && fluorescence == old(fluorescence)
      ensures recombinations == old(recombinations)
    {
      var removed := RemovePosition(Positions(c), e.initial);
      if removed.Failure? {
        return Fail(removed.error);
      }
      if c == Electron {
        electronPositions := removed.value;
      } else {
        holePositions := removed.value;
      }
      ArriveAt(e, spin, c);
      Settle(e.final, c, electrode);
      return Pass;
    }

    /** Lines 530-535 and 541-546: a charge at `p` on its electrode layer
        `z == electrode` that formed no exciton is absorbed (flipped off and
        counted out); otherwise `p` joins the carrier's position list. */
    method Settle(p: Point, c: Carrier, electrode: int)
      requires Shape() && InGrid(p, d0, d1, d2)
      modifies this, grid
      ensures iqe == old(iqe)
      ensures var absorbed := p.z == electrode && old(Occ())[p].exciton.None?;
              Occ() == (if absorbed then old(Occ())[p := Flip(old(Occ())[p], c)] else old(Occ())) &&
              Positions(c) == (if absorbed then old(Positions(c)) else old(Positions(c)) + [p]) &&
              Charges(c) == old(Charges(c)) - (if absorbed then 1 else 0)
      ensures c == Electron ==> holePositions == old(holePositions) && holes == old(holes)
      ensures c == Hole ==> electronPositions == old(electronPositions) && electrons == old(electrons)
      ensures Events() == old(Events()) && time == old(time) && fluorescence == old(fluorescence)
      ensures recombinations == old(recombinations)
    {
      if p.z == electrode && !IsExciton(p) {
        FlipCharge(p, c);
        if c == Electron {
          electrons := electrons - 1;
        } else {
          holes := holes - 1;
        }
      } else if c == Electron {
        electronPositions := electronPositions + [p];
      } else {
        holePositions := holePositions + [p];
      }
    }

    /** Lines 550-554 and 557-561: both counters drop, the site leaves both
        position lists (`ValueError` at the first list that does not hold
        it), and the molecule decays. */
    method DecayCharges(e: Event) returns (o: Outcome)
      requires Shape() && InGrid(e.initial, d0, d1, d2)
      modifies this, grid
      ensures iqe == old(iqe)
      ensures electrons == old(electrons) - 1 && holes == old(holes) - 1
      ensures o.Fail? <==> e.initial !in old(electronPositions) || e.initial !in old(holePositions)
      ensures o.Fail? ==> o.error == ValueError && Occ() == old(Occ()) && holePositions == old(holePositions)
      ensures o.Fail? && e.initial !in old(electronPositions) ==> electronPositions == old(electronPositions)
      ensures e.initial in old(electronPositions) ==>
                electronPositions == Tools.RemoveFirst(old(electronPositions), e.initial)
      ensures o.Pass? ==>
                holePositions == Tools.RemoveFirst(old(holePositions), e.initial) &&
                Occ() == DecayedAt(old(Occ()), e.initial)
      ensures Events() == old(Events()) && time == old(time) && fluorescence == old(fluorescence)
      ensures recombinations == old(recombinations)
    {
      electrons := electrons - 1;
      holes := holes - 1;
      var r := RemovePosition(electronPositions, e.initial);
      if r.Failure? {
        return Fail(r.error);
      }
      electronPositions := r.value;
      var s := RemovePosition(holePositions, e.initial);
      if s.Failure? {
        return Fail(s.error);
      }
      holePositions := s.value;
      DecayExciton(e.initial);
      return Pass;
    }

    /** Lines 537-546 as written, when `dimension` is a tuple (the annotation
        at line 65 and the call at line 760): the electrode test reads `.z` of
        a tuple and raises `AttributeError`, after the hole has already left
        `trouPositions` and moved on the grid (see
        `HoleAsWrittenLosesTheHole`).  A `point` dimension, as OLED.py passes
        it, fails earlier: `__Construction` indexes it at line 117. */
    method MoveHoleAsWritten(e: Event, spin: bool) returns (o: Outcome)
      requires Shape() && InGrid(e.initial, d0, d1, d2) && InGrid(e.final, d0, d1, d2)
      modifies this, grid
      ensures iqe == old(iqe)
      ensures o.Fail?
      ensures e.initial !in old(holePositions) ==>
                o.error == ValueError && Occ() == old(Occ()) && holePositions == old(holePositions)
      ensures e.initial in old(holePositions) ==>
                o.error == AttributeError && Occ() == Arrived(old(Occ()), e, spin, Hole) &&
                holePositions == Tools.RemoveFirst(old(holePositions), e.initial)
      ensures electronPositions == old(electronPositions) && electrons == old(electrons) && holes == old(holes)
      ensures Events() == old(Events()) && time == old(time) && fluorescence == old(fluorescence)
      ensures recombinations == old(recombinations)
    {
      var removed := RemovePosition(holePositions, e.initial);
      if removed.Failure? {
        return Fail(removed.error);
      }
      holePositions := removed.value;
      ArriveAt(e, spin, Hole);
      return Fail(AttributeError);
    }
  
    /** The state between an event happening and `_obsoletes`: every listed
        event still names sites of the lattice, the lists that `_obsoletes`
        leaves for `e` are valid, excitons are bound and the position lists
        track their charges. */
    ghost predicate Ready(e: Event)
      reads this, grid
    {
      Shape() && e.final in Occ() && CoversAll(Occ(), Events()) &&
      ListsValid(Occ(), Pruned(Occ(), Events(), e)) &&
      ExcitonsBound(Occ()) &&
      Tracks(Occ(), electronPositions, Electron) && Tracks(Occ(), holePositions, Hole)
    }

    /** Lines 525-546: the listed move `e` of a charge of kind `c` happens;
        the lists are not yet pruned, but once `_obsoletes` has pruned them
        they are valid again. */
    method MoveListed(e: Event, spin: bool, c: Carrier, electrode: int)
      requires Valid() && e in Moves(c)
      modifies this, grid
      ensures iqe == old(iqe)
      ensures Shape() && e.reaction == MoveOf(c) && e.initial in Occ() && e.final in Occ()
      ensures e.initial in old(Occ()) && e.initial in old(Positions(c))
      ensures var absorbed := e.final.z == electrode && Occ()[e.final].exciton.None?;
              Occ() == Moved(old(Occ()), e, spin, c, electrode) &&
              Positions(c) == MovedPositions(old(Positions(c)), e, absorbed) &&
              Charges(c) == old(Charges(c)) - (if absorbed then 1 else 0)
      ensures c == Electron ==> holePositions == old(holePositions) && holes == old(holes)
      ensures c == Hole ==> electronPositions == old(electronPositions) && electrons == old(electrons)
      ensures Events() == old(Events()) && time == old(time) && fluorescence == old(fluorescence)
      ensures recombinations == old(recombinations)
      ensures Ready(e)
    {
      ghost var occ := Occ();
      MoveStep(occ, Events(), Positions(c), Positions(Opposite(c)), e, spin, c, electrode);
      assert e.initial in occ && e.final in occ;
      var o := MoveCharge(e, spin, c, electrode);
      assert o == Pass;
    }

    /** Lines 525-535: the listed electron move `e` happens, in the terms
        of every event: its effect on the grid and on both position lists. */
    method HappenElectronMove(e: Event, spin: bool)
      requires Valid() && e in eventsLumo
      modifies this, grid
      ensures iqe == old(iqe)
      ensures Shape() && e.reaction == ElectronMove && e.initial in Occ() && e.final in Occ()
      ensures Occ() == Effect(old(Occ()), e, spin, d2 - 1)
      ensures electronPositions == PositionsAfter(old(electronPositions), Electron, e, Occ(), 0)
      ensures holePositions == PositionsAfter(old(holePositions), Hole, e, Occ(), d2 - 1)
      ensures electrons - |electronPositions| == old(electrons - |electronPositions|)
      ensures holes - |holePositions| == old(holes - |holePositions|)
      ensures Events() == old(Events()) && time == old(time) && fluorescence == old(fluorescence)
      ensures recombinations == old(recombinations)
      ensures Ready(e)
    {
      ghost var occ, ep, hp := Occ(), electronPositions, holePositions;
      MoveListed(e, spin, Electron, 0);
      MoveInEventTerms(occ, Occ(), ep, hp, e, spin, Electron, d2 - 1);
    }

    /** Lines 537-546, with the electrode test the electron branch makes:
        the listed hole move `e` happens, in the terms of every event. */
    method HappenHoleMove(e: Event, spin: bool)
      requires Valid() && e in eventsHomo
      modifies this, grid
      ensures iqe == old(iqe)
      ensures Shape() && e.reaction == HoleMove && e.initial in Occ() && e.final in Occ()
      ensures Occ() == Effect(old(Occ()), e, spin, d2 - 1)
      ensures electronPositions == PositionsAfter(old(electronPositions), Electron, e, Occ(), 0)
      ensures holePositions == PositionsAfter(old(holePositions), Hole, e, Occ(), d2 - 1)
      ensures electrons - |electronPositions| == old(electrons - |electronPositions|)
      ensures holes - |holePositions| == old(holes - |holePositions|)
      ensures Events() == old(Events()) && time == old(time) && fluorescence == old(fluorescence)
      ensures recombinations == old(recombinations)
      ensures Ready(e)
    {
      ghost var occ, ep, hp := Occ(), electronPositions, holePositions;
      MoveListed(e, spin, Hole, d2 - 1);
      MoveInEventTerms(occ, Occ(), hp, ep, e, spin, Hole, d2 - 1);
    }

    /** Lines 548-561: the listed exciton event `e` (a decay, or a
        fluorescence that is also counted) happens. */
    method HappenDecay(e: Event)
      requires Valid() && e in eventsExciton
      modifies this, grid
      ensures iqe == old(iqe)
      ensures Shape() && (e.reaction == Decay || e.reaction == Fluorescence) && e.initial in Occ()
      ensures Occ() == DecayedAt(old(Occ()), e.initial)
      ensures electronPositions == Tools.RemoveFirst(old(electronPositions), e.initial)
      ensures holePositions == Tools.RemoveFirst(old(holePositions), e.initial)
      ensures electrons - |electronPositions| == old(electrons - |electronPositions|)
      ensures holes - |holePositions| == old(holes - |holePositions|)
      ensures electronPositions == PositionsAfter(old(electronPositions), Electron, e, Occ(), 0)
      ensures holePositions == PositionsAfter(old(holePositions), Hole, e, Occ(), d2 - 1)
      ensures fluorescence == old(fluorescence) + (if e.reaction == Fluorescence then 1 else 0)
      ensures Events() == old(Events()) && time == old(time) && recombinations == old(recombinations)
      ensures Ready(e)
    {
      ghost var occ := Occ();
      DecayStep(occ, Events(), electronPositions, holePositions, e);
      assert e.initial in occ;
      var o := DecayCharges(e);
      assert o == Pass;
      if e.reaction == Fluorescence {
        fluorescence := fluorescence + 1;
      }
    }

    /** Lines 524-561: the listed event `e` happens; the lists are not yet
        pruned, but once `_obsoletes` has pruned them they are valid again
        and no longer hold `e`. */
    method Happen(e: Event, spin: bool)
      requires Valid() && e in Waiting(eventsHomo, eventsLumo, eventsExciton)
      modifies this, grid
      ensures iqe == old(iqe)
      ensures Shape() && e.initial in Occ() && e.final in Occ()
      ensures Occ() == Effect(old(Occ()), e, spin, d2 - 1)
      ensures electronPositions == PositionsAfter(old(electronPositions), Electron, e, Occ(), 0)
      ensures holePositions == PositionsAfter(old(holePositions), Hole, e, Occ(), d2 - 1)
      ensures electrons - |electronPositions| == old(electrons - |electronPositions|)
      ensures holes - |holePositions| == old(holes - |holePositions|)
      ensures fluorescence == old(fluorescence) + (if e.reaction == Fluorescence then 1 else 0)
      ensures Events() == old(Events()) && time == old(time) && recombinations == old(recombinations)
      ensures Ready(e)
    {
      ChosenList(Occ(), eventsHomo, eventsLumo, eventsExciton, e);
      if e.reaction == ElectronMove {
        HappenElectronMove(e, spin);
      } else if e.reaction == HoleMove {
        HappenHoleMove(e, spin);
      } else {
        HappenDecay(e);
      }
    }

    /** Lines 566-574 after the event `e` of least waiting time has
        happened: `_obsoletes`, the clock and every waiting time move on by
        `e.tau`, then `_PPV` at the target and `_old_PPV` at the start. */
    method Fire(e: Event, spin: bool, lumoTau: (Point, Point) -> real, homoTau: (Point, Point) -> real)
      requires Valid() && e in Waiting(eventsHomo, eventsLumo, eventsExciton)
      requires forall x :: x in Waiting(eventsHomo, eventsLumo, eventsExciton) ==> e.tau <= x.tau
      requires forall a, b :: 0.0 <= lumoTau(a, b)
      requires forall a, b :: 0.0 <= homoTau(a, b)
      modifies this, grid, where
      ensures iqe == old(iqe)
      ensures Valid()
      ensures 0.0 <= e.tau && time == old(time) + e.tau
      ensures e.initial in Occ() && e.final in Occ() && Occ() == Effect(old(Occ()), e, spin, d2 - 1)
      ensures CoversAll(Occ(), old(Events()))
      ensures Events() ==
                AfterOldPpv(Occ(), AfterPpv(Occ(), Shift(Pruned(Occ(), old(Events()), e), e.tau),
                                            e.final, Voisins(e.final), lumoTau, homoTau),
                            e.initial, Voisins(e.initial), lumoTau, homoTau)
      ensures electronPositions == PositionsAfter(old(electronPositions), Electron, e, Occ(), 0)
      ensures holePositions == PositionsAfter(old(holePositions), Hole, e, Occ(), d2 - 1)
      ensures electrons - |electronPositions| == old(electrons - |electronPositions|)
      ensures holes - |holePositions| == old(holes - |holePositions|)
      ensures fluorescence == old(fluorescence) + (if e.reaction == Fluorescence then 1 else 0)
      ensures Occ()[e.final].exciton.Some? ==>
                recombinations == old(recombinations) + 1 && where.order == old(where.order) + [Occ()[e.final].kind]
      ensures Occ()[e.final].exciton.None? ==>
                recombinations == old(recombinations) && where.order == old(where.order)
    {
      assert 0.0 <= e.tau by {
        ChosenList(Occ(), eventsHomo, eventsLumo, eventsExciton, e);
      }
      Happen(e, spin);
      PrunedBelow(Occ(), Events(), e, e.tau);
      Obsoletes(e);
      ShiftKeepsValid(Occ(), Events(), e.tau);
      Elapse(e.tau);
      Ppv(e.final, lumoTau, homoTau);
      OldPpv(e.initial, lumoTau, homoTau);
    }

    /** The event `_First_Reaction_Method` picks: the first of least waiting
        time among the three lists, or `IndexError` when they are empty. */
    function Next(): (r: Result<Event>)
      reads this
      ensures r.Success? <==> Waiting(eventsHomo, eventsLumo, eventsExciton) != []
    {
      Fastest(Waiting(eventsHomo, eventsLumo, eventsExciton))
    }

    /** Lines 514-574: the event of least waiting time happens, the clock
        advances by its waiting time and the lists are brought up to date;
        with no event listed nothing changes and the result is `false`. */
    method FirstReactionMethod(spin: bool, lumoTau: (Point, Point) -> real, homoTau: (Point, Point) -> real)
      returns (fired: bool)
      requires Valid()
      requires forall a, b :: 0.0 <= lumoTau(a, b)
      requires forall a, b :: 0.0 <= homoTau(a, b)
      modifies this, grid, where
      ensures iqe == old(iqe)
      ensures Valid()
      ensures fired <==> old(Next()).Success?
      ensures !fired ==>
                Occ() == old(Occ()) && Events() == old(Events()) && Tally() == old(Tally()) &&
                recombinations == old(recombinations) && where.order == old(where.order)
      ensures fired ==>
                var e := old(Next()).value;
                e in old(Waiting(eventsHomo, eventsLumo, eventsExciton)) &&
                (forall x :: x in old(Waiting(eventsHomo, eventsLumo, eventsExciton)) ==> e.tau <= x.tau) &&
                0.0 <= e.tau && time == old(time) + e.tau &&
                e.initial in Occ() && e.final in Occ() && Occ() == Effect(old(Occ()), e, spin, d2 - 1) &&
                CoversAll(Occ(), old(Events())) &&
                Events() ==
                  AfterOldPpv(Occ(), AfterPpv(Occ(), Shift(Pruned(Occ(), old(Events()), e), e.tau),
                                              e.final, Voisins(e.final), lumoTau, homoTau),
                              e.initial, Voisins(e.initial), lumoTau, homoTau) &&
                electronPositions == PositionsAfter(old(electronPositions), Electron, e, Occ(), 0) &&
                holePositions == PositionsAfter(old(holePositions), Hole, e, Occ(), d2 - 1) &&
                fluorescence == old(fluorescence) + (if e.reaction == Fluorescence then 1 else 0) &&
                recombinations == old(recombinations) + (if Occ()[e.final].exciton.Some? then 1 else 0)
      ensures fired ==> Recorded(old(where.order), where.order, Occ(), old(Next()).value.final)
      ensures electrons - |electronPositions| == old(electrons - |electronPositions|)
      ensures holes - |holePositions| == old(holes - |holePositions|)
    {
      var tab := eventsHomo + eventsLumo + eventsExciton;
      var next := Fastest(tab);
      if next.Failure? {
        return false;
      }
      var e := next.value;
      assert old(Next()) == next;
      forall x | x in tab
        ensures e.tau <= x.tau
      {
        var i :| IsFirstFastest(tab, i) && tab[i] == e;
        var j :| 0 <= j < |tab| && tab[j] == x;
      }
      ghost var before := where.order;
      Fire(e, spin, lumoTau, homoTau);
      RecordedByCases(before, where.order, Occ(), e.final);
      return true;
    }

    /** Lines 87-91: each injected electron and each injected hole flips
        the charge flag of its site. */
    method Inject()
      requires Shape() && |electronPositions| == |holePositions|
      requires DistinctPoints(electronPositions) && DistinctPoints(holePositions)
      requires forall p :: p in electronPositions ==> InGrid(p, d0, d1, d2)
      requires forall p :: p in holePositions ==> InGrid(p, d0, d1, d2)
      requires forall p :: p in Occ() ==> !Occ()[p].electron && !Occ()[p].hole && Occ()[p].exciton.None?
      modifies grid
      ensures Tracks(Occ(), electronPositions, Electron) && Tracks(Occ(), holePositions, Hole)
      ensures forall p :: p in Occ() ==> Occ()[p].exciton.None?
      ensures forall p :: p in old(Occ()) ==>
                p in Occ() &&
                Occ()[p] == old(Occ())[p].(electron := old(Occ())[p].electron != (p in electronPositions),
                                           hole := old(Occ())[p].hole != (p in holePositions))
    {
      ghost var occ0 := Occ();
      var ep, hp := electronPositions, holePositions;
      for i := 0 to |ep|
        invariant forall p :: p in occ0 ==>
                    p in Occ() &&
                    Occ()[p] == occ0[p].(electron := occ0[p].electron != (p in ep[..i]),
                                         hole := occ0[p].hole != (p in hp[..i]))
      {
        assert ep[..i + 1] == ep[..i] + [ep[i]] && ep[i] !in ep[..i];
        assert hp[..i + 1] == hp[..i] + [hp[i]] && hp[i] !in hp[..i];
        FlipCharge(ep[i], Electron);
        FlipCharge(hp[i], Hole);
      }
      assert ep[..|ep|] == ep && hp[..|hp|] == hp;
      assert Occ().Keys == occ0.Keys;
      TracksExactly(Occ(), ep, Electron);
      TracksExactly(Occ(), hp, Hole);
    }

    /** Lines 580-611: up to `stop - start` steps of the first reaction
        method, stopping early when a kind of charge has run out or no
        event is listed; the internal quantum efficiency is recorded on
        every way out. `spins` stands for the spin drawn at each step. The
        stop on a clock that went backwards (lines 594-599) never fires,
        since no waiting time is negative. */
    method Operations(stop: int, start: int, spins: seq<bool>,
                      lumoTau: (Point, Point) -> real, homoTau: (Point, Point) -> real)
      returns (steps: nat)
      requires Valid() && stop - start <= |spins|
      requires forall a, b :: 0.0 <= lumoTau(a, b)
      requires forall a, b :: 0.0 <= homoTau(a, b)
      modifies this, grid, where
      ensures Valid()
      ensures old(time) <= time
      ensures old(fluorescence) <= fluorescence && old(recombinations) <= recombinations
      ensures electrons - |electronPositions| == old(electrons - |electronPositions|)
      ensures holes - |holePositions| == old(holes - |holePositions|)
      ensures iqe == Iqe(fluorescence)
      ensures start + steps <= stop || steps == 0
      ensures start + steps < stop ==>
                electrons == 0 || holes == 0 || Waiting(eventsHomo, eventsLumo, eventsExciton) == []
      ensures old(Waiting(eventsHomo, eventsLumo, eventsExciton)) == [] ==>
                steps == 0 && Occ() == old(Occ()) && Events() == old(Events()) && Tally() == old(Tally())
    {
      steps := 0;
      var i := start;
      while i < stop
        invariant Valid() && i == start + steps && (i <= stop || steps == 0)
        invariant old(time) <= time
        invariant old(fluorescence) <= fluorescence && old(recombinations) <= recombinations
        invariant electrons - |electronPositions| == old(electrons - |electronPositions|)
        invariant holes - |holePositions| == old(holes - |holePositions|)
        invariant old(Waiting(eventsHomo, eventsLumo, eventsExciton)) == [] ==>
                    steps == 0 && Occ() == old(Occ()) && Events() == old(Events()) && Tally() == old(Tally())
        decreases stop - i
      {
        if electrons == 0 || holes == 0 {
          iqe := Iqe(fluorescence);
          return;
        }
        var before := time;
        var fired := FirstReactionMethod(spins[i - start], lumoTau, homoTau);
        if !fired {
          iqe := Iqe(fluorescence);
          return;
        }
        assert before <= time;
        i := i + 1;
        steps := steps + 1;
      }
      iqe := Iqe(fluorescence);
    }
  }

  /** Lines 65-103 with 116-141 and 193-196: a new lattice of `d0 * d1 * d2`
      sites of shuffled kinds, `CHARGES` electrons injected on the top layer
      `z == d2 - 1` and as many holes on the bottom layer `z == 0`, no event
      listed, the clock at zero. `draws` stands for the shuffle and the four
      sequences of coordinates for the draws of `__Injection`; `codes` are
      the shuffled class codes, site `(x, y, z)` taking the one at
      `Index(x, y, z)`. Unlike reseau.py, both charge counters are set, to
      the number of charges injected (see `CountersUnsetAsWritten`). */
  method Create(d0: nat, d1: nat, d2: nat, propTadf: real, propFluo: real, draws: seq<nat>,
                electronXs: seq<int>, electronYs: seq<int>, holeXs: seq<int>, holeYs: seq<int>)
    returns (r: Result<Lattice>, ghost codes: seq<int>)
    requires 3 <= d0 && 3 <= d1 && 2 <= d2
    requires 0.0 <= propTadf && 0.0 <= propFluo && |draws| >= d0 * d1 * d2
    requires CHARGES <= d0 ==> Picks(electronXs, d0) && Picks(holeXs, d0)
    requires CHARGES <= d1 ==> Picks(electronYs, d1) && Picks(holeYs, d1)
    ensures var n := d0 * d1 * d2;
            var tooMany := LatticeConstruction.Share(n, propTadf) + LatticeConstruction.Share(n, propFluo) > n;
            (r.Failure? <==> tooMany || d0 < CHARGES || d1 < CHARGES) &&
            (r.Failure? ==> r.error == if tooMany then IndexError else ValueError)
    ensures r.Success? ==>
              var l := r.value;
              fresh(l) && fresh(l.grid) && fresh(l.where) && l.Valid() &&
              l.d0 == d0 && l.d1 == d1 && l.d2 == d2 &&
              l.electronPositions == Injection(electronXs, electronYs, d0, d1, d2 - 1).value &&
              l.holePositions == Injection(holeXs, holeYs, d0, d1, 0).value &&
              |l.electronPositions| == CHARGES && |l.holePositions| == CHARGES &&
              (forall p :: p in l.Occ() ==> l.Occ()[p].exciton.None?) &&
              l.Events() == Lists([], [], []) && l.where.order == [] &&
              l.time == 0.0 && l.recombinations == 0 && l.fluorescence == 0 &&
              l.electrons == CHARGES && l.holes == CHARGES
    ensures r.Success? ==>
              var l := r.value;
              var n := d0 * d1 * d2;
              var nTadf := LatticeConstruction.Share(n, propTadf);
              var nFluo := LatticeConstruction.Share(n, propFluo);
              |codes| == n &&
              multiset(codes)[LatticeConstruction.TADF] == nTadf &&
              multiset(codes)[LatticeConstruction.FLUO] == nFluo &&
              multiset(codes)[LatticeConstruction.HOST] == n - nTadf - nFluo &&
              forall p :: p in l.Occ() ==>
                0 <= LatticeConstruction.Index(p.x, p.y, p.z, d1, d2) < n &&
                l.Occ()[p].kind ==
                  LatticeConstruction.KindOf(codes[LatticeConstruction.Index(p.x, p.y, p.z, d1, d2)])
  {
    var g, cs := LatticeConstruction.Construction(d0, d1, d2, propTadf, propFluo, draws);
    codes := cs;
    if g.Failure? {
      return Failure(g.error), codes;
    }
    var ep := Injection(electronXs, electronYs, d0, d1, d2 - 1);
    if ep.Failure? {
      return Failure(ep.error), codes;
    }
    var hp := Injection(holeXs, holeYs, d0, d1, 0);
    var l := new Lattice(d0, d1, d2, g.value, ep.value, hp.value, CHARGES, CHARGES);
    ghost var occ0 := l.Occ();
    assert forall p :: p in occ0 ==> !occ0[p].electron && !occ0[p].hole && occ0[p].exciton.None?;
    assert forall p :: p in occ0 ==>
             0 <= LatticeConstruction.Index(p.x, p.y, p.z, d1, d2) < |codes| &&
             occ0[p].kind == LatticeConstruction.KindOf(codes[LatticeConstruction.Index(p.x, p.y, p.z, d1, d2)]);
    l.Inject();
    NothingListedIsValid(l.Occ());
    assert ExcitonsBound(l.Occ());
    assert l.where.Valid() && l.Shape();
    return Success(l), codes;
  }
}
