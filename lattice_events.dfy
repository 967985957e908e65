/** The event lists of the lattice (reseau.py): duplicate-free appends
    (`_event_*`), removal of obsolete events (`_pop_*`, `_obsoletes`), the
    choice of the fastest event (`_Fastest`) and the shift of every waiting
    time once an event has happened. */
module LatticeEvents {
  import opened Wrappers
  import opened Event
  import opened LatticeSite

  /** `e in tab` with `event.__eq__`, which ignores `tau`. */
  predicate Contains(tab: seq<Event>, e: Event)
  {
    exists i :: 0 <= i < |tab| && SameEvent(tab[i], e)
  }

  /** No two listed events are equal in the sense of `event.__eq__`. */
  predicate NoDuplicates(tab: seq<Event>)
  {
    forall i, j :: 0 <= i < j < |tab| ==> !SameEvent(tab[i], tab[j])
  }

  /** `if evenement not in tab: tab.append(evenement)`. */
  function AppendNew(tab: seq<Event>, e: Event): (r: seq<Event>)
    ensures Contains(r, e)
    ensures Contains(tab, e) ==> r == tab
    ensures !Contains(tab, e) ==> r == tab + [e]
  {
    if Contains(tab, e) then tab
    else
      assert SameEvent((tab + [e])[|tab|], e);
      tab + [e]
  }

  /** A duplicate-free list stays duplicate-free under `AppendNew`, and gains
      exactly the appended event's class. */
  lemma AppendNewKeepsNoDuplicates(tab: seq<Event>, e: Event)
    requires NoDuplicates(tab)
    ensures NoDuplicates(AppendNew(tab, e))
    ensures forall x :: Contains(AppendNew(tab, e), x) <==> Contains(tab, x) || SameEvent(e, x)
  {
    var r := AppendNew(tab, e);
    forall x | Contains(r, x)
      ensures Contains(tab, x) || SameEvent(e, x)
    {
      var i :| 0 <= i < |r| && SameEvent(r[i], x);
      if i == |tab| {
        assert r[i] == e;
      } else {
        assert r[i] == tab[i];
      }
    }
    forall x | Contains(tab, x) || SameEvent(e, x)
      ensures Contains(r, x)
    {
      if Contains(tab, x) {
        var i :| 0 <= i < |tab| && SameEvent(tab[i], x);
        assert r[i] == tab[i];
      } else {
        var i :| 0 <= i < |r| && SameEvent(r[i], e);
      }
    }
    if !Contains(tab, e) {
      forall i, j | 0 <= i < j < |r|
        ensures !SameEvent(r[i], r[j])
      {
        if j == |tab| {
          assert r[j] == e && r[i] == tab[i];
        }
      }
    }
  }

  /** Which of the three pruning rules applies. */
  datatype Rule =
    | DecayRule      // `_pop_decay`
    | ElectronRule   // `_pop_electron`
    | HoleRule       // `_pop_hole`

  /** Both ends of every event are sites of the grid. */
  predicate Covers(occ: Occupancy, tab: seq<Event>)
  {
    forall e :: e in tab ==> e.initial in occ && e.final in occ
  }

  /** Whether `_pop_*` discards an event: an exciton event whose site lost its
      exciton; an electron move whose start has no electron, has an exciton,
      or whose target already holds an electron; the same for holes. */
  predicate Obsolete(rule: Rule, occ: Occupancy, e: Event)
    requires e.initial in occ && e.final in occ
    ensures occ[e.initial].exciton.Some? ==> (Obsolete(rule, occ, e) <==> rule != DecayRule)
    ensures rule != DecayRule && !Obsolete(rule, occ, e) ==> e.initial != e.final
  {
    var i, f := occ[e.initial], occ[e.final];
    match rule
    case DecayRule => i.exciton.None?
    case ElectronRule => !i.electron || i.exciton.Some? || (i.electron && f.electron)
    case HoleRule => !i.hole || i.exciton.Some? || (i.hole && f.hole)
  }

  /** The events `_pop_*` keeps, in their order. */
  function Keep(rule: Rule, occ: Occupancy, tab: seq<Event>): (r: seq<Event>)
    requires Covers(occ, tab)
    ensures |r| <= |tab| && Covers(occ, r)
    ensures forall e :: e in r ==> e in tab
  {
    if tab == [] then []
    else if Obsolete(rule, occ, tab[0]) then Keep(rule, occ, tab[1..])
    else [tab[0]] + Keep(rule, occ, tab[1..])
  }

  /** `_pop_*` removes exactly the obsolete events: an event survives if and
      only if it was listed and is not obsolete. */
  lemma {:induction false} KeepIsExactlyTheLive(rule: Rule, occ: Occupancy, tab: seq<Event>)
    requires Covers(occ, tab)
    ensures forall e :: e in Keep(rule, occ, tab) <==> e in tab && !Obsolete(rule, occ, e)
    ensures Live(rule, occ, Keep(rule, occ, tab))
  {
    if tab != [] {
      KeepIsExactlyTheLive(rule, occ, tab[1..]);
      assert tab == [tab[0]] + tab[1..];
    }
  }

  /** No listed event is one that `_pop_*` would discard. */
  predicate Live(rule: Rule, occ: Occupancy, tab: seq<Event>)
  {
    forall e :: e in tab ==> e.initial in occ && e.final in occ && !Obsolete(rule, occ, e)
  }

  /** No waiting time is negative. */
  predicate NonNegative(tab: seq<Event>)
  {
    forall e :: e in tab ==> 0.0 <= e.tau
  }

  /** What a rule reads of a site stays as it was, or, for the exciton rule,
      an exciton that was there is still there. */
  predicate Unaffected(rule: Rule, before: Site, after: Site)
  {
    match rule
    case DecayRule => before.exciton.Some? ==> after.exciton.Some?
    case ElectronRule => before.electron == after.electron && before.exciton == after.exciton
    case HoleRule => before.hole == after.hole && before.exciton == after.exciton
  }

  /** A change of occupancy that leaves alone what a rule reads makes no live
      event obsolete. */
  lemma LiveWhenUnaffected(rule: Rule, occ: Occupancy, occ': Occupancy, tab: seq<Event>)
    requires Live(rule, occ, tab)
    requires forall p :: p in occ ==> p in occ' && Unaffected(rule, occ[p], occ'[p])
    ensures Live(rule, occ', tab)
  {
    forall e | e in tab
      ensures e.initial in occ' && e.final in occ' && !Obsolete(rule, occ', e)
    {
      assert Unaffected(rule, occ[e.initial], occ'[e.initial]);
      assert Unaffected(rule, occ[e.final], occ'[e.final]);
    }
  }

  /** A change at a site no listed event touches makes no live event
      obsolete. */
  lemma LiveAwayFrom(rule: Rule, occ: Occupancy, p: Point, s: Site, tab: seq<Event>)
    requires Live(rule, occ, tab)
    requires forall e :: e in tab ==> e.initial != p && e.final != p
    ensures Live(rule, occ[p := s], tab)
  {
    forall e | e in tab
      ensures !Obsolete(rule, occ[p := s], e)
    {
      assert occ[p := s][e.initial] == occ[e.initial];
      assert occ[p := s][e.final] == occ[e.final];
    }
  }

  /** No live move starts or ends on a site holding an exciton with its
      electron and hole. */
  lemma LiveMovesAvoidExcitons(rule: Rule, occ: Occupancy, p: Point, tab: seq<Event>)
    requires rule != DecayRule && Live(rule, occ, tab)
    requires p in occ && occ[p].exciton.Some? && occ[p].electron && occ[p].hole
    ensures forall e :: e in tab ==> e.initial != p && e.final != p
  {
  }

  /** Appending an event that is not obsolete keeps the list live. */
  lemma AppendNewKeepsLive(rule: Rule, occ: Occupancy, tab: seq<Event>, e: Event)
    requires Live(rule, occ, tab)
    requires e.initial in occ && e.final in occ && !Obsolete(rule, occ, e)
    ensures Live(rule, occ, AppendNew(tab, e))
  {
  }

  /** Survivors keep their relative order: pruning a concatenation prunes each
      part in place. */
  lemma {:induction false} KeepKeepsOrder(rule: Rule, occ: Occupancy, a: seq<Event>, b: seq<Event>)
    requires Covers(occ, a) && Covers(occ, b)
    ensures Covers(occ, a + b)
    ensures Keep(rule, occ, a + b) == Keep(rule, occ, a) + Keep(rule, occ, b)
  {
    if a == [] {
      assert a + b == b;
    } else {
      assert (a + b)[0] == a[0];
      assert (a + b)[1..] == a[1..] + b;
      KeepKeepsOrder(rule, occ, a[1..], b);
    }
  }

  /** Pruning keeps a list duplicate-free. */
  lemma {:induction false} KeepKeepsNoDuplicates(rule: Rule, occ: Occupancy, tab: seq<Event>)
    requires Covers(occ, tab) && NoDuplicates(tab)
    ensures NoDuplicates(Keep(rule, occ, tab))
  {
    if tab != [] {
      var rest := tab[1..];
      assert NoDuplicates(rest) by {
        forall i, j | 0 <= i < j < |rest|
          ensures !SameEvent(rest[i], rest[j])
        {
          assert rest[i] == tab[i + 1] && rest[j] == tab[j + 1];
        }
      }
      KeepKeepsNoDuplicates(rule, occ, rest);
      if !Obsolete(rule, occ, tab[0]) {
        KeepIsExactlyTheLive(rule, occ, rest);
        forall e | e in Keep(rule, occ, rest)
          ensures !SameEvent(tab[0], e)
        {
          var k :| 0 <= k < |rest| && rest[k] == e;
          assert tab[k + 1] == e;
        }
        ConsNoDuplicates(tab[0], Keep(rule, occ, rest));
      }
    }
  }

  /** An event equal to none of a list without duplicates can go in front. */
  lemma ConsNoDuplicates(x: Event, tab: seq<Event>)
    requires NoDuplicates(tab) && forall e :: e in tab ==> !SameEvent(x, e)
    ensures NoDuplicates([x] + tab)
  {
    var r := [x] + tab;
    forall i, j | 0 <= i < j < |r|
      ensures !SameEvent(r[i], r[j])
    {
      assert r[j] == tab[j - 1];
      if 0 < i {
        assert r[i] == tab[i - 1];
      }
    }
  }

  /** Two events equal in the sense of `event.__eq__` are obsolete together. */
  lemma SameEventSameFate(rule: Rule, occ: Occupancy, a: Event, b: Event)
    requires a.initial in occ && a.final in occ && SameEvent(a, b)
    ensures b.initial in occ && b.final in occ
    ensures Obsolete(rule, occ, a) == Obsolete(rule, occ, b)
  {
  }

  /** The list `obso` that `_pop_*` builds: the obsolete events, in order. */
  function ObsoleteEvents(rule: Rule, occ: Occupancy, tab: seq<Event>): (r: seq<Event>)
    requires Covers(occ, tab)
    ensures Covers(occ, r)
    ensures forall e :: e in r ==> e in tab && Obsolete(rule, occ, e)
  {
    if tab == [] then []
    else if Obsolete(rule, occ, tab[0]) then [tab[0]] + ObsoleteEvents(rule, occ, tab[1..])
    else ObsoleteEvents(rule, occ, tab[1..])
  }

  /** `obso` built over `a + b` is the one built over `a` followed by the one
      built over `b`. */
  lemma {:induction false} ObsoleteEventsSplit(rule: Rule, occ: Occupancy, a: seq<Event>, b: seq<Event>)
    requires Covers(occ, a) && Covers(occ, b)
    ensures Covers(occ, a + b)
    ensures ObsoleteEvents(rule, occ, a + b) == ObsoleteEvents(rule, occ, a) + ObsoleteEvents(rule, occ, b)
  {
    if a != [] {
      assert (a + b)[0] == a[0];
      assert (a + b)[1..] == a[1..] + b;
      ObsoleteEventsSplit(rule, occ, a[1..], b);
      if Obsolete(rule, occ, a[0]) {
        calc {
          ObsoleteEvents(rule, occ, a + b);
          [a[0]] + ObsoleteEvents(rule, occ, a[1..] + b);
          [a[0]] + (ObsoleteEvents(rule, occ, a[1..]) + ObsoleteEvents(rule, occ, b));
          ([a[0]] + ObsoleteEvents(rule, occ, a[1..])) + ObsoleteEvents(rule, occ, b);
        }
      }
    } else {
      assert a + b == b;
    }
  }

  /** `tab.remove(x)`: drops the first event equal to `x` in the sense of
      `event.__eq__`; Python raises `ValueError` when there is none. */
  function RemoveFirst(tab: seq<Event>, x: Event): (r: seq<Event>)
    requires Contains(tab, x)
    ensures |r| == |tab| - 1
  {
    if SameEvent(tab[0], x) then tab[1..]
    else
      assert Contains(tab[1..], x) by {
        var i :| 0 <= i < |tab| && SameEvent(tab[i], x);
        assert tab[1..][i - 1] == tab[i];
      }
      [tab[0]] + RemoveFirst(tab[1..], x)
  }

  /** `tab` with its first `n` obsolete events removed: what is left after the
      first `n` rounds of `for events in obso: tab.remove(events)`. */
  function Thinned(rule: Rule, occ: Occupancy, tab: seq<Event>, n: nat): (r: seq<Event>)
    requires Covers(occ, tab)
  {
    if tab == [] then []
    else if Obsolete(rule, occ, tab[0]) && n > 0 then Thinned(rule, occ, tab[1..], n - 1)
    else [tab[0]] + Thinned(rule, occ, tab[1..], n)
  }

  /** Nothing removed yet. */
  lemma {:induction false} ThinnedNone(rule: Rule, occ: Occupancy, tab: seq<Event>)
    requires Covers(occ, tab)
    ensures Thinned(rule, occ, tab, 0) == tab
  {
    if tab != [] {
      ThinnedNone(rule, occ, tab[1..]);
    }
  }

  /** Once every obsolete event is removed, what is left is `Keep`. */
  lemma {:induction false} ThinnedAll(rule: Rule, occ: Occupancy, tab: seq<Event>)
    requires Covers(occ, tab)
    ensures Thinned(rule, occ, tab, |ObsoleteEvents(rule, occ, tab)|) == Keep(rule, occ, tab)
  {
    if tab != [] {
      ThinnedAll(rule, occ, tab[1..]);
    }
  }

  /** One round of the removal loop: the next obsolete event is still listed,
      and `remove` takes out exactly that one. */
  lemma {:induction false} ThinnedStep(rule: Rule, occ: Occupancy, tab: seq<Event>, k: nat)
    requires Covers(occ, tab) && k < |ObsoleteEvents(rule, occ, tab)|
    ensures Contains(Thinned(rule, occ, tab, k), ObsoleteEvents(rule, occ, tab)[k])
    ensures RemoveFirst(Thinned(rule, occ, tab, k), ObsoleteEvents(rule, occ, tab)[k])
            == Thinned(rule, occ, tab, k + 1)
  {
    var obso := ObsoleteEvents(rule, occ, tab);
    var x := obso[k];
    var rest := tab[1..];
    if Obsolete(rule, occ, tab[0]) {
      if k == 0 {
        ThinnedNone(rule, occ, tab);
        assert x == tab[0];
        assert SameEvent(tab[0], x);
        assert Thinned(rule, occ, tab, 1) == Thinned(rule, occ, rest, 0);
        ThinnedNone(rule, occ, rest);
      } else {
        assert x == ObsoleteEvents(rule, occ, rest)[k - 1];
        ThinnedStep(rule, occ, rest, k - 1);
      }
    } else {
      assert obso == ObsoleteEvents(rule, occ, rest);
      ThinnedStep(rule, occ, rest, k);
      var t := Thinned(rule, occ, tab, k);
      assert t == [tab[0]] + Thinned(rule, occ, rest, k);
      assert x in obso;
      if SameEvent(tab[0], x) {
        SameEventSameFate(rule, occ, tab[0], x);
        assert false;
      }
      var i :| 0 <= i < |Thinned(rule, occ, rest, k)| && SameEvent(Thinned(rule, occ, rest, k)[i], x);
      assert t[i + 1] == Thinned(rule, occ, rest, k)[i];
    }
  }

  /** The position of the event `_Fastest` returns: after the stable sort on
      `tau` it is the first of the events with the least waiting time. */
  predicate IsFirstFastest(tab: seq<Event>, i: int)
  {
    0 <= i < |tab| &&
    (forall j :: 0 <= j < |tab| ==> tab[i].tau <= tab[j].tau) &&
    (forall j :: 0 <= j < i ==> tab[i].tau < tab[j].tau)
  }

  /** The first event of least waiting time; one exists in any non-empty list. */
  function FirstFastest(tab: seq<Event>): (i: nat)
    requires |tab| > 0
    ensures IsFirstFastest(tab, i)
  {
    if |tab| == 1 then 0
    else
      var j := FirstFastest(tab[..|tab| - 1]);
      if tab[|tab| - 1].tau < tab[j].tau then |tab| - 1 else j
  }

  /** Only one position is the first of least waiting time. */
  lemma FirstFastestIsUnique(tab: seq<Event>, i: int, j: int)
    requires IsFirstFastest(tab, i) && IsFirstFastest(tab, j)
    ensures i == j
  {
    assert tab[i].tau <= tab[j].tau && tab[j].tau <= tab[i].tau;
  }

  /** Every waiting time less `t`: the loop `i.tau = i.tau - evenement.tau`. */
  function Rebase(tab: seq<Event>, t: real): (r: seq<Event>)
    ensures |r| == |tab|
    ensures forall i :: 0 <= i < |r| ==> r[i] == tab[i].(tau := tab[i].tau - t)
  {
    seq(|tab|, i requires 0 <= i < |tab| => tab[i].(tau := tab[i].tau - t))
  }

  /** Shifting waiting times changes no event's identity: the list stays
      duplicate-free and covers the same sites; and when `t` is the least
      waiting time, no waiting time becomes negative. */
  lemma RebaseKeepsTheEvents(occ: Occupancy, tab: seq<Event>, t: real)
    ensures NoDuplicates(tab) ==> NoDuplicates(Rebase(tab, t))
    ensures Covers(occ, tab) ==> Covers(occ, Rebase(tab, t))
    ensures (forall e :: e in tab ==> t <= e.tau) ==> forall e :: e in Rebase(tab, t) ==> 0.0 <= e.tau
    ensures forall rule :: Live(rule, occ, tab) ==> Live(rule, occ, Rebase(tab, t))
    ensures forall x :: Contains(Rebase(tab, t), x) <==> Contains(tab, x)
    ensures forall x :: x in Rebase(tab, t) ==> exists y :: y in tab && x == y.(tau := y.tau - t)
  {
    var r := Rebase(tab, t);
    forall x | x in r
      ensures exists y :: y in tab && x == y.(tau := y.tau - t)
    {
      var i :| 0 <= i < |r| && r[i] == x;
      assert tab[i] in tab;
    }
    forall rule | Live(rule, occ, tab)
      ensures Live(rule, occ, r)
    {
      forall e | e in r
        ensures e.initial in occ && e.final in occ && !Obsolete(rule, occ, e)
      {
        var i :| 0 <= i < |r| && r[i] == e;
        assert tab[i] in tab;
      }
    }
    forall x
      ensures Contains(r, x) <==> Contains(tab, x)
    {
      if Contains(r, x) {
        var i :| 0 <= i < |r| && SameEvent(r[i], x);
        assert SameEvent(tab[i], x);
      }
      if Contains(tab, x) {
        var i :| 0 <= i < |tab| && SameEvent(tab[i], x);
        assert SameEvent(r[i], x);
      }
    }
    if Covers(occ, tab) {
      forall e | e in r
        ensures e.initial in occ && e.final in occ
      {
        var i :| 0 <= i < |r| && r[i] == e;
        assert tab[i] in tab;
      }
    }
    if forall e :: e in tab ==> t <= e.tau {
      forall e | e in r
        ensures 0.0 <= e.tau
      {
        var i :| 0 <= i < |r| && r[i] == e;
        assert tab[i] in tab;
      }
    }
  }
}
