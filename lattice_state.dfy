/** The lattice's state as values (reseau.py): what an event does to the
    occupancy of the grid (`_First_Reaction_Method`), the position lists kept
    beside the grid, the events `_PPV` and `_old_PPV` offer, and the
    invariants tying the event lists and position lists to the grid. */
module LatticeState {
  import opened Wrappers
  import opened Event
  import opened LatticeSite
  import opened LatticeEvents
  import Tools

  /** Electrons travel on the LUMO, holes on the HOMO. */
  datatype Carrier = Electron | Hole

  function Opposite(c: Carrier): Carrier
  {
    if c == Electron then Hole else Electron
  }

  /** `_isElectron` / `_isHole`. */
  predicate Has(s: Site, c: Carrier)
  {
    if c == Electron then s.electron else s.hole
  }

  /** `Electron()` / `Trou()`: flips one kind of charge and nothing else. */
  function Flip(s: Site, c: Carrier): (r: Site)
    ensures Has(r, c) != Has(s, c) && Has(r, Opposite(c)) == Has(s, Opposite(c))
    ensures r.kind == s.kind && r.exciton == s.exciton
  {
    if c == Electron then ToggleElectron(s) else ToggleHole(s)
  }

  /** The pruning rule of a kind of charge. */
  function RuleOf(c: Carrier): Rule
  {
    if c == Electron then ElectronRule else HoleRule
  }

  /** The reaction name of a move of a kind of charge. */
  function MoveOf(c: Carrier): Reaction
  {
    if c == Electron then ElectronMove else HoleMove
  }

  /** A move is obsolete when its start has no such charge or has an exciton,
      or when its target already holds such a charge. */
  lemma ObsoleteMove(c: Carrier, occ: Occupancy, e: Event)
    requires e.initial in occ && e.final in occ
    ensures Obsolete(RuleOf(c), occ, e) <==>
              !Has(occ[e.initial], c) || occ[e.initial].exciton.Some? || Has(occ[e.final], c)
  {
  }

  /** No point is listed twice. */
  predicate DistinctPoints(s: seq<Point>)
  {
    forall i, j :: 0 <= i < j < |s| ==> s[i] != s[j]
  }

  /** `electronPositions` / `trouPositions` list, once each, exactly the sites
      holding a charge of kind `c`. */
  predicate Tracks(occ: Occupancy, ps: seq<Point>, c: Carrier)
  {
    DistinctPoints(ps) &&
    (forall p :: p in ps ==> p in occ && Has(occ[p], c)) &&
    (forall p :: p in occ && Has(occ[p], c) ==> p in ps)
  }

  /** An exciton only sits on a site holding both its electron and its hole. */
  predicate ExcitonsBound(occ: Occupancy)
  {
    forall p :: p in occ && occ[p].exciton.Some? ==> occ[p].electron && occ[p].hole
  }

  /** A list of moves of kind `c`: live, duplicate-free, with non-negative
      waiting times. */
  predicate MovesValid(occ: Occupancy, tab: seq<Event>, c: Carrier)
  {
    Live(RuleOf(c), occ, tab) && NoDuplicates(tab) && NonNegative(tab) &&
    forall e :: e in tab ==> e.reaction == MoveOf(c)
  }

  /** `events_Exciton`: live, duplicate-free decays and fluorescences of one
      site each, with non-negative waiting times. */
  predicate ExcitonEventsValid(occ: Occupancy, tab: seq<Event>)
  {
    Live(DecayRule, occ, tab) && NoDuplicates(tab) && NonNegative(tab) &&
    forall e :: e in tab ==> (e.reaction == Decay || e.reaction == Fluorescence) && e.initial == e.final
  }

  /** `positions.remove(p)`: Python raises `ValueError` when `p` is absent. */
  function RemovePosition(ps: seq<Point>, p: Point): (r: Result<seq<Point>>)
    ensures r.Failure? <==> p !in ps
    ensures r.Failure? ==> r.error == ValueError
    ensures r.Success? ==> multiset(r.value) == multiset(ps) - multiset{p}
  {
    if p in ps then Success(Tools.RemoveFirst(ps, p)) else Failure(ValueError)
  }

  /** Removing a listed point from a list without repeats takes out exactly
      that point. */
  lemma RemoveFromDistinct(ps: seq<Point>, p: Point)
    requires DistinctPoints(ps) && p in ps
    ensures DistinctPoints(Tools.RemoveFirst(ps, p))
    ensures forall q :: q in Tools.RemoveFirst(ps, p) <==> q in ps && q != p
  {
    var i := Tools.IndexOf(ps, p);
    var r := Tools.RemoveFirst(ps, p);
    assert r == ps[..i] + ps[i + 1..];
    RemoveAtIndex(ps, i);
  }

  /** `ps` without position `i`, for a list without repeats. */
  lemma RemoveAtIndex(ps: seq<Point>, i: nat)
    requires DistinctPoints(ps) && i < |ps|
    ensures DistinctPoints(ps[..i] + ps[i + 1..])
    ensures forall q :: q in ps[..i] + ps[i + 1..] <==> q in ps && q != ps[i]
  {
    var r := ps[..i] + ps[i + 1..];
    assert forall k :: 0 <= k < |r| ==> r[k] == ps[if k < i then k else k + 1];
    forall q | q in ps && q != ps[i]
      ensures q in r
    {
      var k :| 0 <= k < |ps| && ps[k] == q;
      assert r[if k < i then k else k - 1] == q;
    }
  }

  /** Lines 527-530 and 537-541: the charge leaves `e.initial`, arrives at
      `e.final` and, if the charge of the other kind is there, binds with it
      into an exciton of spin `spin`. */
  function Arrived(occ: Occupancy, e: Event, spin: bool, c: Carrier): (r: Occupancy)
    requires e.initial in occ && e.final in occ
    ensures r.Keys == occ.Keys
    ensures forall p :: p in occ && p != e.initial && p != e.final ==> r[p] == occ[p]
    ensures forall p :: p in r ==> r[p].kind == occ[p].kind
  {
    var left := occ[e.initial := Flip(occ[e.initial], c)];
    left[e.final := Bind(Flip(left[e.final], c), spin)]
  }

  /** Lines 531-535 and 542-546: a charge that formed no exciton on the
      electrode layer `z == electrode` is absorbed there. */
  function Moved(occ: Occupancy, e: Event, spin: bool, c: Carrier, electrode: int): (r: Occupancy)
    requires e.initial in occ && e.final in occ
    ensures r.Keys == occ.Keys
    ensures forall p :: p in occ && p != e.initial && p != e.final ==> r[p] == occ[p]
    ensures forall p :: p in r ==> r[p].kind == occ[p].kind
  {
    var arrived := Arrived(occ, e, spin, c);
    if e.final.z == electrode && arrived[e.final].exciton.None? then
      arrived[e.final := Flip(arrived[e.final], c)]
    else arrived
  }

  /** The moving charge meets one of the other kind at its target. */
  predicate Binds(occ: Occupancy, e: Event, c: Carrier)
    requires e.final in occ
  {
    Has(occ[e.final], Opposite(c))
  }

  /** The position list after the move: the start goes, the target is
      appended unless the electrode absorbed the charge. */
  function MovedPositions(ps: seq<Point>, e: Event, absorbed: bool): (r: seq<Point>)
    requires e.initial in ps
    ensures |r| == |ps| - (if absorbed then 1 else 0)
  {
    var rest := Tools.RemoveFirst(ps, e.initial);
    if absorbed then rest else rest + [e.final]
  }

  /** A live move changes exactly its two ends: the start loses its charge;
      the target gains it and binds it into an exciton when the other kind of
      charge is there, and otherwise keeps it unless it lies on the
      electrode, which absorbs it.  Excitons stay bound. */
  lemma MoveEffect(occ: Occupancy, e: Event, spin: bool, c: Carrier, electrode: int)
    requires e.initial in occ && e.final in occ && !Obsolete(RuleOf(c), occ, e)
    requires ExcitonsBound(occ)
    ensures e.initial != e.final
    ensures var r := Moved(occ, e, spin, c, electrode);
            (forall p :: p in occ && p != e.initial && p != e.final ==> r[p] == occ[p]) &&
            r[e.initial] == Flip(occ[e.initial], c) &&
            r[e.final] == (if Binds(occ, e, c) then Flip(occ[e.final], c).(exciton := Some(spin))
                           else if e.final.z == electrode then occ[e.final]
                           else Flip(occ[e.final], c)) &&
            ExcitonsBound(r)
  {
    ObsoleteMove(c, occ, e);
    var i, f := e.initial, e.final;
    var arrived := Arrived(occ, e, spin, c);
    assert arrived[i] == Flip(occ[i], c);
    assert occ[f].exciton.None?;
    var r := Moved(occ, e, spin, c, electrode);
    forall p | p in r && r[p].exciton.Some?
      ensures r[p].electron && r[p].hole
    {
      if p != i && p != f {
        assert r[p] == occ[p];
      }
    }
  }

  /** The position lists follow the move: the start leaves the list of its
      kind, and the target joins it unless the electrode absorbed the
      charge. */
  lemma MoveTracks(occ: Occupancy, mine: seq<Point>, theirs: seq<Point>, e: Event, spin: bool,
                   c: Carrier, electrode: int)
    requires e.initial in occ && e.final in occ && !Obsolete(RuleOf(c), occ, e)
    requires ExcitonsBound(occ) && Tracks(occ, mine, c) && Tracks(occ, theirs, Opposite(c))
    ensures e.initial in mine
    ensures var r := Moved(occ, e, spin, c, electrode);
            var absorbed := e.final.z == electrode && !Binds(occ, e, c);
            Tracks(r, MovedPositions(mine, e, absorbed), c) && Tracks(r, theirs, Opposite(c))
  {
    ObsoleteMove(c, occ, e);
    MoveEffect(occ, e, spin, c, electrode);
    var r := Moved(occ, e, spin, c, electrode);
    var absorbed := e.final.z == electrode && !Binds(occ, e, c);
    RemoveFromDistinct(mine, e.initial);
    var rest := Tools.RemoveFirst(mine, e.initial);
    var ps := MovedPositions(mine, e, absorbed);
    assert e.final !in rest;
    if !absorbed {
      forall a, b | 0 <= a < b < |ps|
        ensures ps[a] != ps[b]
      {
        if b == |rest| {
          assert ps[b] == e.final && ps[a] == rest[a];
        } else {
          assert ps[a] == rest[a] && ps[b] == rest[b];
        }
      }
    }
    forall p
      ensures p in ps <==> p in r && Has(r[p], c)
    {
      if p != e.initial && p != e.final && p in occ {
        assert r[p] == occ[p];
      }
    }
    forall p
      ensures p in theirs <==> p in r && Has(r[p], Opposite(c))
    {
      if p != e.initial && p != e.final && p in occ {
        assert r[p] == occ[p];
      }
    }
  }

  /** `_obsoletes` after a move: the moving charge's list is pruned, and the
      other kind's list too when an exciton formed; every list is then valid
      again, and none still holds the event that happened, so shifting the
      waiting times by its own cannot alter it midway. */
  lemma PruneAfterMove(occ: Occupancy, mine: seq<Event>, theirs: seq<Event>, excitons: seq<Event>,
                       e: Event, spin: bool, c: Carrier, electrode: int)
    requires MovesValid(occ, mine, c) && MovesValid(occ, theirs, Opposite(c))
    requires ExcitonEventsValid(occ, excitons) && ExcitonsBound(occ)
    requires e in mine
    ensures var r := Moved(occ, e, spin, c, electrode);
            var mine' := Keep(RuleOf(c), r, mine);
            var theirs' := if r[e.final].exciton.Some? then Keep(RuleOf(Opposite(c)), r, theirs) else theirs;
            MovesValid(r, mine', c) && MovesValid(r, theirs', Opposite(c)) &&
            ExcitonEventsValid(r, excitons) &&
            !Contains(mine', e) && !Contains(theirs', e) && !Contains(excitons, e)
  {
    MoveEffect(occ, e, spin, c, electrode);
    var r := Moved(occ, e, spin, c, electrode);
    var mine' := Keep(RuleOf(c), r, mine);
    KeepIsExactlyTheLive(RuleOf(c), r, mine);
    KeepKeepsNoDuplicates(RuleOf(c), r, mine);
    ObsoleteMove(c, r, e);
    if r[e.final].exciton.Some? {
      KeepIsExactlyTheLive(RuleOf(Opposite(c)), r, theirs);
      KeepKeepsNoDuplicates(RuleOf(Opposite(c)), r, theirs);
    } else {
      forall p | p in occ
        ensures p in r && Unaffected(RuleOf(Opposite(c)), occ[p], r[p])
      {
        if p != e.initial && p != e.final {
          assert r[p] == occ[p];
        }
      }
      LiveWhenUnaffected(RuleOf(Opposite(c)), occ, r, theirs);
    }
    forall p | p in occ
      ensures p in r && Unaffected(DecayRule, occ[p], r[p])
    {
      if p != e.initial && p != e.final {
        assert r[p] == occ[p];
      }
    }
    LiveWhenUnaffected(DecayRule, occ, r, excitons);
  }

  /** `_decay()` at `p`. */
  function DecayedAt(occ: Occupancy, p: Point): (r: Occupancy)
    requires p in occ
    ensures r.Keys == occ.Keys
    ensures !r[p].electron && !r[p].hole && r[p].exciton.None? && r[p].kind == occ[p].kind
  {
    occ[p := Decayed(occ[p])]
  }

  /** A decay or fluorescence empties its site; `_obsoletes` prunes only the
      exciton list, which is enough: no live move touches a site holding an
      exciton.  Every list is then valid again, none holds the event that
      happened, and both position lists lose exactly that site. */
  lemma PruneAfterDecay(occ: Occupancy, homo: seq<Event>, lumo: seq<Event>, excitons: seq<Event>,
                        eps: seq<Point>, tps: seq<Point>, e: Event)
    requires MovesValid(occ, lumo, Electron) && MovesValid(occ, homo, Hole)
    requires ExcitonEventsValid(occ, excitons) && ExcitonsBound(occ)
    requires Tracks(occ, eps, Electron) && Tracks(occ, tps, Hole)
    requires e in excitons
    ensures e.initial in eps && e.initial in tps
    ensures var r := DecayedAt(occ, e.initial);
            var excitons' := Keep(DecayRule, r, excitons);
            MovesValid(r, lumo, Electron) && MovesValid(r, homo, Hole) &&
            ExcitonEventsValid(r, excitons') && ExcitonsBound(r) &&
            Tracks(r, Tools.RemoveFirst(eps, e.initial), Electron) &&
            Tracks(r, Tools.RemoveFirst(tps, e.initial), Hole) &&
            !Contains(lumo, e) && !Contains(homo, e) && !Contains(excitons', e)
  {
    var p := e.initial;
    var r := DecayedAt(occ, p);
    LiveMovesAvoidExcitons(ElectronRule, occ, p, lumo);
    LiveMovesAvoidExcitons(HoleRule, occ, p, homo);
    LiveAwayFrom(ElectronRule, occ, p, Decayed(occ[p]), lumo);
    LiveAwayFrom(HoleRule, occ, p, Decayed(occ[p]), homo);
    var excitons' := Keep(DecayRule, r, excitons);
    KeepIsExactlyTheLive(DecayRule, r, excitons);
    KeepKeepsNoDuplicates(DecayRule, r, excitons);
    RemoveFromDistinct(eps, p);
    RemoveFromDistinct(tps, p);
    forall q | q in r && r[q].exciton.Some?
      ensures r[q].electron && r[q].hole
    {
      assert q != p && r[q] == occ[q];
    }
    forall q
      ensures q in Tools.RemoveFirst(eps, p) <==> q in r && r[q].electron
      ensures q in Tools.RemoveFirst(tps, p) <==> q in r && r[q].hole
    {
      if q != p && q in occ {
        assert r[q] == occ[q];
      }
    }
  }

  /** The events `_PPV` offers from a site holding a charge of kind `c`: for
      each target in turn that holds no such charge, a move there, unless an
      equal event is already listed. */
  function Offered(occ: Occupancy, tab: seq<Event>, from: Point, targets: seq<Point>, c: Carrier,
                   tau: (Point, Point) -> real): (r: seq<Event>)
    requires forall v :: v in targets ==> v in occ
    ensures |tab| <= |r| <= |tab| + |targets| && r[..|tab|] == tab
    ensures forall i :: |tab| <= i < |r| ==>
              r[i].initial == from && r[i].final in targets && r[i].reaction == MoveOf(c)
    decreases |targets|
  {
    if targets == [] then tab
    else
      var before := Offered(occ, tab, from, targets[..|targets| - 1], c, tau);
      var v := targets[|targets| - 1];
      if !Has(occ[v], c) then AppendNew(before, Event(from, v, tau(from, v), MoveOf(c))) else before
  }

  /** From a site holding a free charge, `_PPV` keeps the list valid and adds
      exactly a move towards every target that holds no such charge. */
  lemma {:induction false} OfferedKeepsValid(occ: Occupancy, tab: seq<Event>, from: Point, targets: seq<Point>,
                                             c: Carrier, tau: (Point, Point) -> real)
    requires MovesValid(occ, tab, c)
    requires from in occ && Has(occ[from], c) && occ[from].exciton.None?
    requires forall v :: v in targets ==> v in occ
    requires forall a, b :: 0.0 <= tau(a, b)
    ensures MovesValid(occ, Offered(occ, tab, from, targets, c, tau), c)
    ensures forall x :: Contains(Offered(occ, tab, from, targets, c, tau), x) <==>
              Contains(tab, x) ||
              (x.initial == from && x.final in targets && !Has(occ[x.final], c) && x.reaction == MoveOf(c))
    decreases |targets|
  {
    if targets != [] {
      var init := targets[..|targets| - 1];
      var v := targets[|targets| - 1];
      assert targets == init + [v];
      assert forall w :: w in init ==> w in targets;
      OfferedKeepsValid(occ, tab, from, init, c, tau);
      OfferedStep(occ, Offered(occ, tab, from, init, c, tau), from, v, c, tau);
    }
  }

  /** One round of `_PPV`'s loop keeps the list valid and adds exactly the
      move towards `v` when `v` holds no such charge. */
  lemma OfferedStep(occ: Occupancy, before: seq<Event>, from: Point, v: Point,
                    c: Carrier, tau: (Point, Point) -> real)
    requires MovesValid(occ, before, c)
    requires from in occ && Has(occ[from], c) && occ[from].exciton.None? && v in occ
    requires forall a, b :: 0.0 <= tau(a, b)
    ensures var after := if !Has(occ[v], c) then AppendNew(before, Event(from, v, tau(from, v), MoveOf(c))) else before;
            MovesValid(occ, after, c) &&
            forall x :: Contains(after, x) <==>
              Contains(before, x) || (x.initial == from && x.final == v && !Has(occ[v], c) && x.reaction == MoveOf(c))
  {
    if !Has(occ[v], c) {
      var e := Event(from, v, tau(from, v), MoveOf(c));
      ObsoleteMove(c, occ, e);
      AppendNewKeepsNoDuplicates(before, e);
      AppendNewKeepsLive(RuleOf(c), occ, before, e);
    }
  }

  /** The events `_old_PPV` offers towards a site `to` that a charge has just
      left: for each neighbour in turn, nothing if it holds an exciton, else a
      move of its electron into `to` if `to` holds no electron, else a move of
      its hole into `to` if `to` holds no hole.  The pair is the new
      `(events_LUMO, events_HOMO)`. */
  function Returning(occ: Occupancy, lumo: seq<Event>, homo: seq<Event>, to: Point, sources: seq<Point>,
                     lumoTau: (Point, Point) -> real, homoTau: (Point, Point) -> real): (r: (seq<Event>, seq<Event>))
    requires to in occ && forall v :: v in sources ==> v in occ
    ensures |lumo| <= |r.0| && |homo| <= |r.1| && |r.0| + |r.1| <= |lumo| + |homo| + |sources|
    ensures r.0[..|lumo|] == lumo && r.1[..|homo|] == homo
    ensures forall i :: |lumo| <= i < |r.0| ==>
              r.0[i].final == to && r.0[i].initial in sources && r.0[i].reaction == ElectronMove
    ensures forall i :: |homo| <= i < |r.1| ==>
              r.1[i].final == to && r.1[i].initial in sources && r.1[i].reaction == HoleMove
    decreases |sources|
  {
    if sources == [] then (lumo, homo)
    else
      var before := Returning(occ, lumo, homo, to, sources[..|sources| - 1], lumoTau, homoTau);
      ReturningFrom(occ, before.0, before.1, to, sources[|sources| - 1], lumoTau, homoTau)
  }

  /** One round of `_old_PPV`'s loop: the move into `to` of the charge on the
      neighbour `v`. */
  function ReturningFrom(occ: Occupancy, lumo: seq<Event>, homo: seq<Event>, to: Point, v: Point,
                         lumoTau: (Point, Point) -> real, homoTau: (Point, Point) -> real): (r: (seq<Event>, seq<Event>))
    requires to in occ && v in occ
    ensures |lumo| <= |r.0| && |homo| <= |r.1| && |r.0| + |r.1| <= |lumo| + |homo| + 1
    ensures r.0[..|lumo|] == lumo && r.1[..|homo|] == homo
    ensures |r.0| > |lumo| ==> r.0[|lumo|] == Event(v, to, lumoTau(v, to), ElectronMove)
    ensures |r.1| > |homo| ==> r.1[|homo|] == Event(v, to, homoTau(v, to), HoleMove)
  {
    if occ[v].exciton.Some? then (lumo, homo)
    else if occ[v].electron then
      (if !occ[to].electron then AppendNew(lumo, Event(v, to, lumoTau(v, to), ElectronMove)) else lumo, homo)
    else if occ[v].hole then
      (lumo, if !occ[to].hole then AppendNew(homo, Event(v, to, homoTau(v, to), HoleMove)) else homo)
    else (lumo, homo)
  }

  /** `_old_PPV` keeps both move lists valid, and adds exactly the moves into
      `to` of the free electrons, and of the free holes on sites without an
      electron, of the neighbours. */
  lemma {:induction false} ReturningKeepsValid(occ: Occupancy, lumo: seq<Event>, homo: seq<Event>, to: Point,
                                               sources: seq<Point>,
                                               lumoTau: (Point, Point) -> real, homoTau: (Point, Point) -> real)
    requires MovesValid(occ, lumo, Electron) && MovesValid(occ, homo, Hole)
    requires to in occ && forall v :: v in sources ==> v in occ
    requires forall a, b :: 0.0 <= lumoTau(a, b)
    requires forall a, b :: 0.0 <= homoTau(a, b)
    ensures var r := Returning(occ, lumo, homo, to, sources, lumoTau, homoTau);
            MovesValid(occ, r.0, Electron) && MovesValid(occ, r.1, Hole) &&
            (forall x :: Contains(r.0, x) <==>
               Contains(lumo, x) ||
               (x.final == to && x.initial in sources && x.reaction == ElectronMove &&
                occ[x.initial].exciton.None? && occ[x.initial].electron && !occ[to].electron)) &&
            (forall x :: Contains(r.1, x) <==>
               Contains(homo, x) ||
               (x.final == to && x.initial in sources && x.reaction == HoleMove &&
                occ[x.initial].exciton.None? && !occ[x.initial].electron && occ[x.initial].hole &&
                !occ[to].hole))
    decreases |sources|
  {
    if sources != [] {
      var init := sources[..|sources| - 1];
      var v := sources[|sources| - 1];
      assert sources == init + [v];
      assert forall w :: w in sources <==> w in init || w == v;
      ReturningKeepsValid(occ, lumo, homo, to, init, lumoTau, homoTau);
      var before := Returning(occ, lumo, homo, to, init, lumoTau, homoTau);
      ReturningFromKeepsValid(occ, before.0, before.1, to, v, lumoTau, homoTau);
    }
  }

  /** One round of `_old_PPV` keeps both move lists valid and adds at most
      the move of the neighbour's free charge into `to`. */
  lemma ReturningFromKeepsValid(occ: Occupancy, lumo: seq<Event>, homo: seq<Event>, to: Point, v: Point,
                                lumoTau: (Point, Point) -> real, homoTau: (Point, Point) -> real)
    requires MovesValid(occ, lumo, Electron) && MovesValid(occ, homo, Hole)
    requires to in occ && v in occ
    requires forall a, b :: 0.0 <= lumoTau(a, b)
    requires forall a, b :: 0.0 <= homoTau(a, b)
    ensures var r := ReturningFrom(occ, lumo, homo, to, v, lumoTau, homoTau);
            MovesValid(occ, r.0, Electron) && MovesValid(occ, r.1, Hole) &&
            (forall x :: Contains(r.0, x) <==>
               Contains(lumo, x) ||
               (x.final == to && x.initial == v && x.reaction == ElectronMove &&
                occ[v].exciton.None? && occ[v].electron && !occ[to].electron)) &&
            (forall x :: Contains(r.1, x) <==>
               Contains(homo, x) ||
               (x.final == to && x.initial == v && x.reaction == HoleMove &&
                occ[v].exciton.None? && !occ[v].electron && occ[v].hole && !occ[to].hole))
  {
    if occ[v].exciton.None? && occ[v].electron && !occ[to].electron {
      var e := Event(v, to, lumoTau(v, to), ElectronMove);
      ObsoleteMove(Electron, occ, e);
      AppendNewKeepsNoDuplicates(lumo, e);
      AppendNewKeepsLive(ElectronRule, occ, lumo, e);
    }
    if occ[v].exciton.None? && !occ[v].electron && occ[v].hole && !occ[to].hole {
      var e := Event(v, to, homoTau(v, to), HoleMove);
      ObsoleteMove(Hole, occ, e);
      AppendNewKeepsNoDuplicates(homo, e);
      AppendNewKeepsLive(HoleRule, occ, homo, e);
    }
  }

  /** The event `_event_Exciton` lists for the exciton at `pos`: a decay on a
      host or for a triplet, a fluorescence otherwise, due at once. */
  function ExcitonEvent(occ: Occupancy, pos: Point): (e: Event)
    requires pos in occ && occ[pos].exciton.Some?
    ensures e.initial == pos && e.final == pos && e.tau == 0.0
    ensures e.reaction == Fluorescence <==> occ[pos].kind != Host && occ[pos].exciton.value
    ensures e.reaction == Decay <==> occ[pos].kind == Host || !occ[pos].exciton.value
  {
    if occ[pos].kind == Host || !occ[pos].exciton.value then Event(pos, pos, 0.0, Decay)
    else Event(pos, pos, 0.0, Fluorescence)
  }

  /** Listing the exciton event of a site holding an exciton keeps the
      exciton list valid. */
  lemma ExcitonEventKeepsValid(occ: Occupancy, tab: seq<Event>, pos: Point)
    requires ExcitonEventsValid(occ, tab) && pos in occ && occ[pos].exciton.Some?
    ensures ExcitonEventsValid(occ, AppendNew(tab, ExcitonEvent(occ, pos)))
    ensures Contains(AppendNew(tab, ExcitonEvent(occ, pos)), ExcitonEvent(occ, pos))
  {
    AppendNewKeepsNoDuplicates(tab, ExcitonEvent(occ, pos));
    AppendNewKeepsLive(DecayRule, occ, tab, ExcitonEvent(occ, pos));
  }

  /** `events_HOMO + events_LUMO + events_Exciton`, the list `_Fastest`
      picks from. */
  function Waiting(homo: seq<Event>, lumo: seq<Event>, excitons: seq<Event>): seq<Event>
  {
    homo + lumo + excitons
  }

  /** The event that happens is in the list its reaction belongs to. */
  lemma ChosenList(occ: Occupancy, homo: seq<Event>, lumo: seq<Event>, excitons: seq<Event>, e: Event)
    requires MovesValid(occ, lumo, Electron) && MovesValid(occ, homo, Hole)
    requires ExcitonEventsValid(occ, excitons)
    requires e in Waiting(homo, lumo, excitons)
    ensures e.reaction == ElectronMove ==> e in lumo
    ensures e.reaction == HoleMove ==> e in homo
    ensures e.reaction == Decay || e.reaction == Fluorescence ==> e in excitons
    ensures !e.reaction.Other?
  {
  }

  /** The three event lists of the lattice. */
  datatype Lists = Lists(homo: seq<Event>, lumo: seq<Event>, excitons: seq<Event>)

  /** Every event list is valid against the occupancy. */
  predicate ListsValid(occ: Occupancy, l: Lists)
  {
    MovesValid(occ, l.lumo, Electron) && MovesValid(occ, l.homo, Hole) && ExcitonEventsValid(occ, l.excitons)
  }

  /** Both ends of every listed event are sites of the grid. */
  predicate CoversAll(occ: Occupancy, l: Lists)
  {
    Covers(occ, l.homo) && Covers(occ, l.lumo) && Covers(occ, l.excitons)
  }

  /** What `_obsoletes` leaves after the event `e`: the exciton list pruned
      after a decay or a fluorescence; after a move, the mover's list pruned,
      and the other kind's list too when an exciton formed at the target. */
  function Pruned(occ: Occupancy, l: Lists, e: Event): (r: Lists)
    requires CoversAll(occ, l) && e.final in occ
    ensures |r.homo| <= |l.homo| && |r.lumo| <= |l.lumo| && |r.excitons| <= |l.excitons|
    ensures e.reaction.Decay? || e.reaction.Fluorescence? ==> r.homo == l.homo && r.lumo == l.lumo
    ensures e.reaction.ElectronMove? || e.reaction.HoleMove? ==> r.excitons == l.excitons
  {
    match e.reaction
    case Decay => l.(excitons := Keep(DecayRule, occ, l.excitons))
    case Fluorescence => l.(excitons := Keep(DecayRule, occ, l.excitons))
    case ElectronMove =>
      l.(lumo := Keep(ElectronRule, occ, l.lumo),
         homo := if occ[e.final].exciton.Some? then Keep(HoleRule, occ, l.homo) else l.homo)
    case HoleMove =>
      l.(homo := Keep(HoleRule, occ, l.homo),
         lumo := if occ[e.final].exciton.Some? then Keep(ElectronRule, occ, l.lumo) else l.lumo)
    case Other(_) => l
  }

  /** Every waiting time of every list less `t`. */
  function Shift(l: Lists, t: real): Lists
  {
    Lists(Rebase(l.homo, t), Rebase(l.lumo, t), Rebase(l.excitons, t))
  }

  /** `_PPV(pos)`: the exciton event of an exciton at `pos`, else the moves
      of its electron, else those of its hole, towards the neighbours. */
  function AfterPpv(occ: Occupancy, l: Lists, pos: Point, neighbours: seq<Point>,
                    lumoTau: (Point, Point) -> real, homoTau: (Point, Point) -> real): (r: Lists)
    requires pos in occ && forall v :: v in neighbours ==> v in occ
    ensures |l.homo| <= |r.homo| && |l.lumo| <= |r.lumo| && |l.excitons| <= |r.excitons|
    ensures r.homo[..|l.homo|] == l.homo && r.lumo[..|l.lumo|] == l.lumo &&
            r.excitons[..|l.excitons|] == l.excitons
    ensures (r.homo == l.homo && r.lumo == l.lumo) || (r.homo == l.homo && r.excitons == l.excitons) ||
            (r.lumo == l.lumo && r.excitons == l.excitons)
  {
    var s := occ[pos];
    if s.exciton.Some? then l.(excitons := AppendNew(l.excitons, ExcitonEvent(occ, pos)))
    else if s.electron then l.(lumo := Offered(occ, l.lumo, pos, neighbours, Electron, lumoTau))
    else if s.hole then l.(homo := Offered(occ, l.homo, pos, neighbours, Hole, homoTau))
    else l
  }

  /** `_old_PPV(pos)`: the moves of the neighbours' charges into `pos`. */
  function AfterOldPpv(occ: Occupancy, l: Lists, pos: Point, neighbours: seq<Point>,
                       lumoTau: (Point, Point) -> real, homoTau: (Point, Point) -> real): (r: Lists)
    requires pos in occ && forall v :: v in neighbours ==> v in occ
    ensures |l.homo| <= |r.homo| && |l.lumo| <= |r.lumo| &&
            |r.homo| + |r.lumo| <= |l.homo| + |l.lumo| + |neighbours|
    ensures r.excitons == l.excitons && r.homo[..|l.homo|] == l.homo && r.lumo[..|l.lumo|] == l.lumo
  {
    var r := Returning(occ, l.lumo, l.homo, pos, neighbours, lumoTau, homoTau);
    l.(lumo := r.0, homo := r.1)
  }

  /** Shifting by a waiting time no listed event is below keeps every list
      valid and lists the same events. */
  lemma ShiftKeepsValid(occ: Occupancy, l: Lists, t: real)
    requires ListsValid(occ, l)
    requires forall e :: e in l.homo + l.lumo + l.excitons ==> t <= e.tau
    ensures ListsValid(occ, Shift(l, t))
    ensures forall x :: Contains(Shift(l, t).homo + Shift(l, t).lumo + Shift(l, t).excitons, x) <==>
                          Contains(l.homo + l.lumo + l.excitons, x)
  {
    RebaseKeepsTheEvents(occ, l.homo, t);
    RebaseKeepsTheEvents(occ, l.lumo, t);
    RebaseKeepsTheEvents(occ, l.excitons, t);
    var s := Shift(l, t);
    forall x | x in s.homo
      ensures x.reaction == HoleMove
    {
      var y :| y in l.homo && x == y.(tau := y.tau - t);
    }
    forall x | x in s.lumo
      ensures x.reaction == ElectronMove
    {
      var y :| y in l.lumo && x == y.(tau := y.tau - t);
    }
    forall x | x in s.excitons
      ensures (x.reaction == Decay || x.reaction == Fluorescence) && x.initial == x.final
    {
      var y :| y in l.excitons && x == y.(tau := y.tau - t);
    }
    forall e | e in l.homo ensures t <= e.tau { assert e in l.homo + l.lumo + l.excitons; }
    forall e | e in l.lumo ensures t <= e.tau { assert e in l.homo + l.lumo + l.excitons; }
    forall e | e in l.excitons ensures t <= e.tau { assert e in l.homo + l.lumo + l.excitons; }
    ContainsConcat(l.homo, l.lumo, l.excitons);
    ContainsConcat(s.homo, s.lumo, s.excitons);
  }

  /** Being listed in a concatenation is being listed in one of its parts. */
  lemma ContainsConcat(a: seq<Event>, b: seq<Event>, c: seq<Event>)
    ensures forall x :: Contains(a + b + c, x) <==> Contains(a, x) || Contains(b, x) || Contains(c, x)
  {
    var w := a + b + c;
    forall x | Contains(w, x)
      ensures Contains(a, x) || Contains(b, x) || Contains(c, x)
    {
      var i :| 0 <= i < |w| && SameEvent(w[i], x);
      if i < |a| {
        assert w[i] == a[i];
      } else if i < |a| + |b| {
        assert w[i] == b[i - |a|];
      } else {
        assert w[i] == c[i - |a| - |b|];
      }
    }
    forall x | Contains(a, x) || Contains(b, x) || Contains(c, x)
      ensures Contains(w, x)
    {
      if Contains(a, x) {
        var i :| 0 <= i < |a| && SameEvent(a[i], x);
        assert w[i] == a[i];
      } else if Contains(b, x) {
        var i :| 0 <= i < |b| && SameEvent(b[i], x);
        assert w[|a| + i] == b[i];
      } else {
        var i :| 0 <= i < |c| && SameEvent(c[i], x);
        assert w[|a| + |b| + i] == c[i];
      }
    }
  }

  /** `_PPV` keeps every list valid. */
  lemma AfterPpvKeepsValid(occ: Occupancy, l: Lists, pos: Point, neighbours: seq<Point>,
                           lumoTau: (Point, Point) -> real, homoTau: (Point, Point) -> real)
    requires ListsValid(occ, l) && ExcitonsBound(occ)
    requires pos in occ && forall v :: v in neighbours ==> v in occ
    requires forall a, b :: 0.0 <= lumoTau(a, b)
    requires forall a, b :: 0.0 <= homoTau(a, b)
    ensures ListsValid(occ, AfterPpv(occ, l, pos, neighbours, lumoTau, homoTau))
  {
    var s := occ[pos];
    if s.exciton.Some? {
      ExcitonEventKeepsValid(occ, l.excitons, pos);
    } else if s.electron {
      OfferedKeepsValid(occ, l.lumo, pos, neighbours, Electron, lumoTau);
    } else if s.hole {
      OfferedKeepsValid(occ, l.homo, pos, neighbours, Hole, homoTau);
    }
  }

  /** `_old_PPV` keeps every list valid. */
  lemma AfterOldPpvKeepsValid(occ: Occupancy, l: Lists, pos: Point, neighbours: seq<Point>,
                              lumoTau: (Point, Point) -> real, homoTau: (Point, Point) -> real)
    requires ListsValid(occ, l)
    requires pos in occ && forall v :: v in neighbours ==> v in occ
    requires forall a, b :: 0.0 <= lumoTau(a, b)
    requires forall a, b :: 0.0 <= homoTau(a, b)
    ensures ListsValid(occ, AfterOldPpv(occ, l, pos, neighbours, lumoTau, homoTau))
  {
    ReturningKeepsValid(occ, l.lumo, l.homo, pos, neighbours, lumoTau, homoTau);
  }

  /** What the event `e` does to the grid: a move of an electron absorbed at
      `z == 0`, of a hole absorbed at `z == top`, or the decay of the
      exciton at its site. */
  function Effect(occ: Occupancy, e: Event, spin: bool, top: int): (r: Occupancy)
    requires e.initial in occ && e.final in occ
    ensures r.Keys == occ.Keys
    ensures forall p :: p in occ && p != e.initial && p != e.final ==> r[p] == occ[p]
    ensures forall p :: p in r ==> r[p].kind == occ[p].kind
  {
    match e.reaction
    case ElectronMove => Moved(occ, e, spin, Electron, 0)
    case HoleMove => Moved(occ, e, spin, Hole, top)
    case Decay => DecayedAt(occ, e.initial)
    case Fluorescence => DecayedAt(occ, e.initial)
    case Other(_) => occ
  }

  /** As written, a hole move stops at the electrode test, after the hole has
      left its position list and moved on the grid: the hole that arrived at
      `e.final` is listed nowhere, so the position list no longer tracks the
      holes of the grid. */
  lemma HoleAsWrittenLosesTheHole(occ: Occupancy, tps: seq<Point>, e: Event, spin: bool)
    requires e.initial in occ && e.final in occ && !Obsolete(HoleRule, occ, e)
    requires Tracks(occ, tps, Hole)
    ensures e.initial in tps
    ensures var r := Arrived(occ, e, spin, Hole);
            r[e.final].hole && e.final !in Tools.RemoveFirst(tps, e.initial) &&
            !Tracks(r, Tools.RemoveFirst(tps, e.initial), Hole)
  {
    ObsoleteMove(Hole, occ, e);
    var r := Arrived(occ, e, spin, Hole);
    assert r[e.final].hole;
    assert e.final !in tps;
    assert multiset(Tools.RemoveFirst(tps, e.initial))[e.final] == 0;
  }

  /** The position list of the carrier `c` after the event `e`, the grid
      being `r` after it: a move of that carrier replaces its start by its
      target, unless the target lies on the electrode `z == electrode` and no
      exciton formed there; a decay or a fluorescence removes its site. */
  function PositionsAfter(ps: seq<Point>, c: Carrier, e: Event, r: Occupancy, electrode: int): (qs: seq<Point>)
    requires e.final in r
    ensures |ps| - 1 <= |qs| <= |ps| + 1
    ensures forall q :: q in qs && q != e.final ==> q in ps
  {
    var rest := if e.initial in ps then Tools.RemoveFirst(ps, e.initial) else ps;
    if e.reaction == MoveOf(c) then
      (if e.final.z == electrode && r[e.final].exciton.None? then rest else rest + [e.final])
    else if e.reaction == Decay || e.reaction == Fluorescence then rest
    else ps
  }

  /** A live move of a charge of kind `c`, followed by `_obsoletes`: the
      lists are valid again, excitons stay bound and the position lists
      follow the charge. */
  lemma MoveStep(occ: Occupancy, l: Lists, mine: seq<Point>, theirs: seq<Point>, e: Event, spin: bool,
                 c: Carrier, electrode: int)
    requires ListsValid(occ, l) && ExcitonsBound(occ)
    requires Tracks(occ, mine, c) && Tracks(occ, theirs, Opposite(c))
    requires e in (if c == Electron then l.lumo else l.homo)
    ensures e.initial in mine && e.reaction == MoveOf(c)
    ensures var r := Moved(occ, e, spin, c, electrode);
            var absorbed := e.final.z == electrode && r[e.final].exciton.None?;
            CoversAll(r, l) && ListsValid(r, Pruned(r, l, e)) && ExcitonsBound(r) &&
            Tracks(r, MovedPositions(mine, e, absorbed), c) && Tracks(r, theirs, Opposite(c))
  {
    var mineEvents := if c == Electron then l.lumo else l.homo;
    var theirEvents := if c == Electron then l.homo else l.lumo;
    MoveEffect(occ, e, spin, c, electrode);
    MoveTracks(occ, mine, theirs, e, spin, c, electrode);
    PruneAfterMove(occ, mineEvents, theirEvents, l.excitons, e, spin, c, electrode);
    var r := Moved(occ, e, spin, c, electrode);
    assert r[e.final].exciton.None? <==> !Binds(occ, e, c);
  }

  /** A decay or fluorescence of a listed exciton, followed by
      `_obsoletes`: the lists are valid again, excitons stay bound and both
      position lists lose the site. */
  lemma DecayStep(occ: Occupancy, l: Lists, eps: seq<Point>, tps: seq<Point>, e: Event)
    requires ListsValid(occ, l) && ExcitonsBound(occ)
    requires Tracks(occ, eps, Electron) && Tracks(occ, tps, Hole)
    requires e in l.excitons
    ensures e.initial in eps && e.initial in tps && (e.reaction == Decay || e.reaction == Fluorescence)
    ensures var r := DecayedAt(occ, e.initial);
            CoversAll(r, l) && ListsValid(r, Pruned(r, l, e)) && ExcitonsBound(r) &&
            Tracks(r, Tools.RemoveFirst(eps, e.initial), Electron) &&
            Tracks(r, Tools.RemoveFirst(tps, e.initial), Hole)
  {
    PruneAfterDecay(occ, l.homo, l.lumo, l.excitons, eps, tps, e);
  }

  /** `_obsoletes` only removes events, so a bound below every waiting time
      still holds after it. */
  lemma PrunedBelow(occ: Occupancy, l: Lists, e: Event, t: real)
    requires CoversAll(occ, l) && e.final in occ
    requires forall x :: x in Waiting(l.homo, l.lumo, l.excitons) ==> t <= x.tau
    ensures var p := Pruned(occ, l, e);
            forall x :: x in Waiting(p.homo, p.lumo, p.excitons) ==> t <= x.tau
  {
    var p := Pruned(occ, l, e);
    forall x | x in Waiting(p.homo, p.lumo, p.excitons)
      ensures t <= x.tau
    {
      assert x in p.homo || x in p.lumo || x in p.excitons;
      assert x in Waiting(l.homo, l.lumo, l.excitons);
    }
  }

  /** A duplicate-free list of sites that are exactly the sites holding a
      charge of kind `c` tracks that kind. */
  lemma TracksExactly(occ: Occupancy, ps: seq<Point>, c: Carrier)
    requires DistinctPoints(ps)
    requires forall p :: p in ps ==> p in occ
    requires forall p :: p in occ ==> (Has(occ[p], c) <==> p in ps)
    ensures Tracks(occ, ps, c)
  {
  }

  /** Three empty lists, as a new lattice has, are valid on any grid. */
  lemma NothingListedIsValid(occ: Occupancy)
    ensures ListsValid(occ, Lists([], [], [])) && CoversAll(occ, Lists([], [], []))
  {
    assert Live(ElectronRule, occ, []) && Live(HoleRule, occ, []) && Live(DecayRule, occ, []);
  }

  /** A move of a charge of kind `c` in the terms of every event: `Effect`
      is `Moved` with the carrier's electrode, the mover's list follows the
      charge and the other kind's list stays. */
  lemma MoveInEventTerms(occ: Occupancy, r: Occupancy, mine: seq<Point>, theirs: seq<Point>, e: Event,
                         spin: bool, c: Carrier, top: int)
    requires e.initial in occ && e.final in occ && e.final in r
    requires e.reaction == MoveOf(c) && e.initial in mine
    ensures var electrode := if c == Electron then 0 else top;
            Effect(occ, e, spin, top) == Moved(occ, e, spin, c, electrode) &&
            PositionsAfter(mine, c, e, r, electrode) ==
              MovedPositions(mine, e, e.final.z == electrode && r[e.final].exciton.None?) &&
            PositionsAfter(theirs, Opposite(c), e, r, if c == Electron then top else 0) == theirs
  {
  }
}
