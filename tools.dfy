/** Draw-without-replacement helper of the rewritten simulator
    (source/tools.py).  `Shuffle` keeps a reference to the caller's list, so
    every draw also shrinks the caller's list. */
module Tools {
  import opened Wrappers

  /** A Python list of integers, shared by reference. */
  class IntList {
    var items: seq<int>

    constructor (items: seq<int>)
      ensures this.items == items
    {
      this.items := items;
    }
  }

  /** `list.index(x)` for an `x` in the list: its first position (equality is
      the elements' own). */
  function IndexOf<T(==)>(s: seq<T>, x: T): (i: nat)
    requires x in s
    ensures i < |s| && s[i] == x && x !in s[..i]
  {
    if s[0] == x then 0
    else
      var j := IndexOf(s[1..], x);
      assert s[..j + 1] == [s[0]] + s[1..][..j];
      j + 1
  }

  /** `list.remove(x)` for an `x` in the list: the first occurrence goes,
      everything else stays in order. */
  function RemoveFirst<T(==)>(s: seq<T>, x: T): (r: seq<T>)
    requires x in s
    ensures |r| == |s| - 1
    ensures multiset(r) == multiset(s) - multiset{x}
  {
    var i := IndexOf(s, x);
    assert s == s[..i] + [x] + s[i + 1..];
    s[..i] + s[i + 1..]
  }

  /** The element that `Random.choice` returns for the draw `k`. */
  function Pick(s: seq<int>, k: nat): (x: int)
    requires |s| > 0
    ensures x in s
  {
    s[k % |s|]
  }

  class Shuffle {
    var list: IntList
    var length: int

    /** `length` counts what is left of the shared list. */
    ghost predicate Valid()
      reads this, list
    {
      length == |list.items|
    }

    /** `Shuffle(list)`: aliases the caller's list and records its length. */
    constructor (list: IntList)
      ensures this.list == list && Valid()
    {
      this.list := list;
      length := |list.items|;
    }

    /** `choice`: with items left, removes and returns the one picked by the
        draw `k`; with `length` at zero raises `IndexError` and changes nothing.
        (If the shared list was emptied behind the object's back while `length`
        is positive, `Random.choice` raises `IndexError` as well.) */
    method Choice(k: nat) returns (r: Result<int>)
      modifies this, list
      ensures list == old(list)
      ensures old(length) <= 0 || old(list.items) == [] ==>
                r == Failure(IndexError) && length == old(length) && list.items == old(list.items)
      ensures old(length) > 0 && old(list.items) != [] ==>
                r == Success(Pick(old(list.items), k)) &&
                list.items == RemoveFirst(old(list.items), r.value) &&
                length == old(length) - 1
      ensures old(Valid()) ==> Valid()
    {
      if length > 0 {
        if list.items == [] {
          return Failure(IndexError);
        }
        var pick := Pick(list.items, k);
        list.items := RemoveFirst(list.items, pick);
        length := length - 1;
        return Success(pick);
      }
      return Failure(IndexError);
    }
  }

  /** Drawing through a `Shuffle` shrinks the caller's own list. */
  method DrawFromShared(list: IntList, k: nat) returns (r: Result<int>)
    modifies list
    ensures list.items == if old(list.items) == [] then old(list.items)
                          else RemoveFirst(old(list.items), Pick(old(list.items), k))
    ensures r.Success? <==> old(list.items) != []
    ensures r.Success? ==> r.value == Pick(old(list.items), k)
  {
    var shuffle := new Shuffle(list);
    r := shuffle.Choice(k);
  }

  /** The values returned by successive `choice` calls with draws `ks`, until
      the draws or the list run out. */
  function Draws(s: seq<int>, ks: seq<nat>): (picks: seq<int>)
    ensures |picks| <= |s| && |picks| <= |ks|
  {
    if s == [] || ks == [] then []
    else [Pick(s, ks[0])] + Draws(RemoveFirst(s, Pick(s, ks[0])), ks[1..])
  }

  /** What is left of the list after the draws `ks`. */
  function Remaining(s: seq<int>, ks: seq<nat>): seq<int>
  {
    if s == [] || ks == [] then s
    else Remaining(RemoveFirst(s, Pick(s, ks[0])), ks[1..])
  }

  /** As many draws as the list is long return a permutation of the list and
      leave it empty, so one more call raises `IndexError`. */
  lemma {:induction false} DrawsArePermutation(s: seq<int>, ks: seq<nat>)
    requires |ks| == |s|
    ensures multiset(Draws(s, ks)) == multiset(s)
    ensures Remaining(s, ks) == []
  {
    if s != [] {
      var x := Pick(s, ks[0]);
      var rest := RemoveFirst(s, x);
      DrawsArePermutation(rest, ks[1..]);
      assert Draws(s, ks) == [x] + Draws(rest, ks[1..]);
      assert x in multiset(s);
      assert multiset(s) == multiset{x} + multiset(rest);
    }
  }
}
