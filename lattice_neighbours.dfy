/** Neighbour indices of the lattice (reseau.py, `__BVKX`, `__BVKY`, `__BVKZ`
    and `__CalculVoisins`): Born–von Kármán wrap-around along x and y, hard
    electrodes along z, and the cube of neighbours around a site. */
module LatticeNeighbours {
  import opened Event

  /** Python's `list(range(a, b))`. */
  function Range(a: int, b: int): (r: seq<int>)
    ensures |r| == if a <= b then b - a else 0
    ensures forall i :: 0 <= i < |r| ==> r[i] == a + i
  {
    seq(if a <= b then b - a else 0, i => a + i)
  }

  /** Membership in a range. */
  lemma InRange(a: int, b: int)
    ensures forall k :: k in Range(a, b) <==> a <= k < b
  {
    var r := Range(a, b);
    forall k | a <= k < b
      ensures k in r
    {
      assert r[k - a] == k;
    }
  }

  /** No element of a sequence appears twice. */
  predicate Distinct(s: seq<int>)
  {
    forall i, j :: 0 <= i < j < |s| ==> s[i] != s[j]
  }

  /** `__BVKX` / `__BVKY` as written: the indices within `distance` of `pos`
      along an axis of `size` sites.  Inside the axis the window is taken as
      is; a window crossing index 0 is replaced by `0 .. distance` followed by
      the last `distance` indices, and one crossing the far end by
      `pos - distance .. size - 1` followed by `0 .. distance - 1`.  Both
      wrapped branches are right only when `pos` sits on the very edge, which
      is always the case for `distance` 1. */
  function Periodic(pos: int, distance: int, size: int): (r: seq<int>)
    ensures 0 <= distance < size ==> forall i :: 0 <= i < |r| ==> 0 <= r[i] < size
  {
    if pos - distance > -1 && pos + distance < size then Range(pos - distance, pos + distance + 1)
    else if pos - distance < 0 then Range(0, distance + 1) + Range(size - distance, size)
    else Range(pos - distance, size) + Range(0, distance)
  }

  /** `__BVKZ` as written: the indices within `distance` of `pos`, cut at the
      electrodes.  A window crossing index 0 is replaced by `0 .. distance`,
      which is right only when `pos` is 0. */
  function Wall(pos: int, distance: int, size: int): (r: seq<int>)
    ensures 0 <= distance && 0 <= pos && distance < size ==> forall i :: 0 <= i < |r| ==> 0 <= r[i] < size
  {
    if pos - distance > -1 && pos + distance < size then Range(pos - distance, pos + distance + 1)
    else if pos - distance < 0 then Range(0, distance + 1)
    else Range(pos - distance, size)
  }

  /** `k mod size` for a `k` at most one period below 0. */
  lemma ModBelowZero(k: int, size: int)
    requires 0 < size && -size <= k < 0
    ensures k % size == k + size
  {
    assert (k + size) % size == k % size;
  }

  /** `k mod size` for a `k` at most one period above the axis. */
  lemma ModAbove(k: int, size: int)
    requires 0 < size && size <= k < 2 * size
    ensures k % size == k - size
  {
    assert (k - size) % size == k % size;
  }

  /** At distance 1 on an axis of at least three sites, the periodic range is
      exactly the site and its two neighbours modulo the axis length, three
      distinct indices inside the axis. */
  lemma PeriodicAtDistanceOne(pos: int, size: int)
    requires 3 <= size && 0 <= pos < size
    ensures var r := Periodic(pos, 1, size);
            |r| == 3 && Distinct(r) &&
            (forall k :: k in r <==> k == (pos - 1) % size || k == pos || k == (pos + 1) % size) &&
            forall i :: 0 <= i < |r| ==> 0 <= r[i] < size
  {
    if pos == 0 {
      PeriodicAtZero(size);
    } else if pos == size - 1 {
      PeriodicAtTop(size);
    } else {
      PeriodicInside(pos, size);
    }
  }

  /** The first site of an axis sees the last one across the boundary. */
  lemma PeriodicAtZero(size: int)
    requires 3 <= size
    ensures var r := Periodic(0, 1, size);
            |r| == 3 && Distinct(r) &&
            (forall k :: k in r <==> k == (0 - 1) % size || k == 0 || k == (0 + 1) % size) &&
            forall i :: 0 <= i < |r| ==> 0 <= r[i] < size
  {
    ModBelowZero(-1, size);
    ModInside(1, size);
    assert Range(0, 2) == [0, 1] && Range(size - 1, size) == [size - 1];
    Triple(Periodic(0, 1, size), 0, 1, size - 1, size);
  }

  /** The last site of an axis sees the first one across the boundary. */
  lemma PeriodicAtTop(size: int)
    requires 3 <= size
    ensures var pos := size - 1;
            var r := Periodic(pos, 1, size);
            |r| == 3 && Distinct(r) &&
            (forall k :: k in r <==> k == (pos - 1) % size || k == pos || k == (pos + 1) % size) &&
            forall i :: 0 <= i < |r| ==> 0 <= r[i] < size
  {
    ModAbove(size, size);
    ModInside(size - 2, size);
    assert Range(size - 2, size) == [size - 2, size - 1] && Range(0, 1) == [0];
    Triple(Periodic(size - 1, 1, size), size - 2, size - 1, 0, size);
  }

  /** A site inside an axis sees its two neighbours without wrapping. */
  lemma PeriodicInside(pos: int, size: int)
    requires 0 < pos < size - 1
    ensures var r := Periodic(pos, 1, size);
            |r| == 3 && Distinct(r) &&
            (forall k :: k in r <==> k == (pos - 1) % size || k == pos || k == (pos + 1) % size) &&
            forall i :: 0 <= i < |r| ==> 0 <= r[i] < size
  {
    ModInside(pos - 1, size);
    ModInside(pos + 1, size);
    assert Periodic(pos, 1, size) == [pos - 1, pos, pos + 1];
    Triple(Periodic(pos, 1, size), pos - 1, pos, pos + 1, size);
  }

  /** Three distinct indices of an axis. */
  lemma Triple(r: seq<int>, a: int, b: int, c: int, size: int)
    requires r == [a, b, c] && a != b && b != c && a != c
    requires 0 <= a < size && 0 <= b < size && 0 <= c < size
    ensures |r| == 3 && Distinct(r) && (forall k :: k in r <==> k == a || k == b || k == c)
    ensures forall i :: 0 <= i < |r| ==> 0 <= r[i] < size
  {
  }

  /** At distance 1 the z range never wraps: the bottom face sees `[0, 1]`,
      the top face `[size - 2, size - 1]` and an inner layer its two
      neighbours; every index is inside the axis. */
  lemma WallAtDistanceOne(pos: int, size: int)
    requires 2 <= size && 0 <= pos < size
    ensures pos == 0 ==> Wall(pos, 1, size) == [0, 1]
    ensures pos == size - 1 ==> Wall(pos, 1, size) == [size - 2, size - 1]
    ensures 0 < pos < size - 1 ==> Wall(pos, 1, size) == [pos - 1, pos, pos + 1]
    ensures Distinct(Wall(pos, 1, size)) && pos in Wall(pos, 1, size)
  {
    var r := Wall(pos, 1, size);
    if pos == 0 {
      assert r == [0, 1];
    } else if pos == size - 1 {
      assert r == [size - 2, size - 1];
    } else {
      assert r == [pos - 1, pos, pos + 1];
    }
  }

  /** `__BVKX` / `__BVKY` as they were evidently meant: the window
      `pos - distance .. pos + distance` folded onto the axis, with the same
      layout as the source when the window crosses an end. */
  function PeriodicFixed(pos: int, distance: int, size: int): (r: seq<int>)
    ensures 0 <= pos < size && 0 <= distance ==> |r| == 2 * distance + 1
  {
    if pos - distance > -1 && pos + distance < size then Range(pos - distance, pos + distance + 1)
    else if pos - distance < 0 then Range(0, pos + distance + 1) + Range(size - (distance - pos), size)
    else Range(pos - distance, size) + Range(0, pos + distance - size + 1)
  }

  /** Two ranges that do not overlap, one after the other, repeat no index. */
  lemma DisjointRanges(a: int, b: int, c: int, d: int)
    requires a <= b && c <= d && (b <= c || d <= a)
    ensures Distinct(Range(a, b) + Range(c, d))
    ensures forall k :: k in Range(a, b) + Range(c, d) <==> a <= k < b || c <= k < d
  {
    InRange(a, b);
    InRange(c, d);
  }

  /** `k mod size` for a `k` inside the axis. */
  lemma ModInside(k: int, size: int)
    requires 0 <= k < size
    ensures k % size == k
  {
  }

  /** The corrected range holds exactly the window folded modulo the axis:
      `2 * distance + 1` distinct indices inside the axis. */
  lemma PeriodicFixedIsTheFoldedWindow(pos: int, distance: int, size: int)
    requires 0 <= pos < size && 0 <= distance && 2 * distance + 1 <= size
    ensures var r := PeriodicFixed(pos, distance, size);
            |r| == 2 * distance + 1 && Distinct(r) &&
            (forall i :: 0 <= i < |r| ==> 0 <= r[i] < size) &&
            forall k :: pos - distance <= k <= pos + distance ==> k % size in r
  {
    var r := PeriodicFixed(pos, distance, size);
    if pos - distance > -1 && pos + distance < size {
      InRange(pos - distance, pos + distance + 1);
      forall k | pos - distance <= k <= pos + distance
        ensures k % size in r
      {
        ModInside(k, size);
      }
    } else if pos - distance < 0 {
      FoldedBelow(pos, distance, size);
    } else {
      FoldedAbove(pos, distance, size);
    }
  }

  lemma FoldedBelow(pos: int, distance: int, size: int)
    requires 0 <= pos < size && 0 <= distance && 2 * distance + 1 <= size && pos - distance < 0
    ensures var r := Range(0, pos + distance + 1) + Range(size - (distance - pos), size);
            Distinct(r) && forall k :: pos - distance <= k <= pos + distance ==> k % size in r
  {
    var r := Range(0, pos + distance + 1) + Range(size - (distance - pos), size);
    DisjointRanges(0, pos + distance + 1, size - (distance - pos), size);
    forall k | pos - distance <= k <= pos + distance
      ensures k % size in r
    {
      if k < 0 {
        ModBelowZero(k, size);
      } else {
        ModInside(k, size);
      }
    }
  }

  lemma FoldedAbove(pos: int, distance: int, size: int)
    requires 0 <= pos < size && 0 <= distance && 2 * distance + 1 <= size && pos - distance >= 0 && pos + distance >= size
    ensures var r := Range(pos - distance, size) + Range(0, pos + distance - size + 1);
            Distinct(r) && forall k :: pos - distance <= k <= pos + distance ==> k % size in r
  {
    var r := Range(pos - distance, size) + Range(0, pos + distance - size + 1);
    DisjointRanges(pos - distance, size, 0, pos + distance - size + 1);
    forall k | pos - distance <= k <= pos + distance
      ensures k % size in r
    {
      if k >= size {
        ModAbove(k, size);
      } else {
        ModInside(k, size);
      }
    }
  }

  /** At distance 1 the corrected range and the range as written coincide,
      which is why the lattice, which only ever asks for distance 1, is not
      affected. */
  lemma PeriodicFixedAgreesAtDistanceOne(pos: int, size: int)
    requires 0 <= pos < size
    ensures PeriodicFixed(pos, 1, size) == Periodic(pos, 1, size)
  {
  }

  /** With `distance` 2 the range as written misses a neighbour: for site 1 on
      an axis of 10 it yields `[0, 1, 2, 8, 9]`, leaving out 3 and listing 8,
      which is three sites away. */
  lemma PeriodicWrongAtDistanceTwo()
    ensures Periodic(1, 2, 10) == [0, 1, 2, 8, 9]
    ensures 3 !in Periodic(1, 2, 10) && 3 in PeriodicFixed(1, 2, 10)
  {
    assert Periodic(1, 2, 10) == [0, 1, 2] + [8, 9];
    assert PeriodicFixed(1, 2, 10) == [0, 1, 2, 3] + [9];
  }

  /** `__BVKZ` as evidently meant: the window cut at both electrodes. */
  function WallFixed(pos: int, distance: int, size: int): (r: seq<int>)
    ensures forall k :: 0 <= k < |r| ==> 0 <= r[k] < size
    ensures 0 <= distance ==> |r| <= 2 * distance + 1
  {
    if pos - distance > -1 && pos + distance < size then Range(pos - distance, pos + distance + 1)
    else if pos - distance < 0 then Range(0, if pos + distance + 1 < size then pos + distance + 1 else size)
    else Range(pos - distance, size)
  }

  /** The corrected z range holds exactly the indices of the axis within
      `distance` of `pos`, in increasing order. */
  lemma WallFixedIsTheCutWindow(pos: int, distance: int, size: int)
    requires 0 <= pos < size && 0 <= distance
    ensures var r := WallFixed(pos, distance, size);
            (forall i, j :: 0 <= i < j < |r| ==> r[i] < r[j]) &&
            forall k :: k in r <==> 0 <= k < size && pos - distance <= k <= pos + distance
  {
    var r := WallFixed(pos, distance, size);
    if pos - distance > -1 && pos + distance < size {
      InRange(pos - distance, pos + distance + 1);
    } else if pos - distance < 0 {
      InRange(0, if pos + distance + 1 < size then pos + distance + 1 else size);
    } else {
      InRange(pos - distance, size);
    }
  }

  /** At distance 1 the corrected z range and the one as written coincide. */
  lemma WallFixedAgreesAtDistanceOne(pos: int, size: int)
    requires 0 <= pos < size && 2 <= size
    ensures WallFixed(pos, 1, size) == Wall(pos, 1, size)
  {
  }

  /** With `distance` 2, site 1 of the z axis as written only sees `[0, 1, 2]`
      and misses site 3. */
  lemma WallWrongAtDistanceTwo()
    ensures Wall(1, 2, 10) == [0, 1, 2]
    ensures 3 !in Wall(1, 2, 10) && 3 in WallFixed(1, 2, 10)
  {
    assert WallFixed(1, 2, 10) == [0, 1, 2, 3];
  }

  /** `[point(x, y, z) for z in zs]` for fixed `x` and `y`. */
  function Column(x: int, y: int, zs: seq<int>): (r: seq<Point>)
    ensures |r| == |zs|
    ensures forall i :: 0 <= i < |r| ==> r[i] == Point(x, y, zs[i])
  {
    if zs == [] then [] else [Point(x, y, zs[0])] + Column(x, y, zs[1..])
  }

  /** `[point(x, y, z) for y in ys for z in zs]` for a fixed `x`. */
  function Plane(x: int, ys: seq<int>, zs: seq<int>): (r: seq<Point>)
    ensures forall p :: p in r ==> p.x == x && p.y in ys && p.z in zs
  {
    if ys == [] then [] else Column(x, ys[0], zs) + Plane(x, ys[1..], zs)
  }

  /** `[point(x, y, z) for x in xs for y in ys for z in zs]`. */
  function Cube(xs: seq<int>, ys: seq<int>, zs: seq<int>): (r: seq<Point>)
    ensures forall p :: p in r ==> p.x in xs && p.y in ys && p.z in zs
  {
    if xs == [] then [] else Plane(xs[0], ys, zs) + Cube(xs[1..], ys, zs)
  }

  /** The comprehension's `if (x, y, z) != (pos.x, pos.y, pos.z)`. */
  function Without(s: seq<Point>, p: Point): (r: seq<Point>)
    ensures forall q :: q in r <==> q in s && q != p
    ensures |r| == |s| - multiset(s)[p]
  {
    if s == [] then []
    else if s[0] == p then
      assert multiset(s) == multiset{s[0]} + multiset(s[1..]) by { assert s == [s[0]] + s[1..]; }
      Without(s[1..], p)
    else
      assert multiset(s) == multiset{s[0]} + multiset(s[1..]) by { assert s == [s[0]] + s[1..]; }
      [s[0]] + Without(s[1..], p)
  }

  /** Multiplication distributes over addition. */
  lemma Distributes(a: int, b: int, c: int)
    ensures (a + b) * c == a * c + b * c
  {
  }

  /** A column has one site per z; when the z's are distinct it holds each of
      its sites once. */
  lemma {:induction false} ColumnCount(x: int, y: int, zs: seq<int>, p: Point)
    requires Distinct(zs)
    ensures |Column(x, y, zs)| == |zs|
    ensures multiset(Column(x, y, zs))[p] == if p.x == x && p.y == y && p.z in zs then 1 else 0
  {
    if zs != [] {
      ColumnCount(x, y, zs[1..], p);
      assert zs == [zs[0]] + zs[1..];
    }
  }

  /** The head of a sequence without repetitions is not in its tail, and the
      tail has no repetitions either. */
  lemma HeadNotInTail(s: seq<int>)
    requires Distinct(s) && s != []
    ensures Distinct(s[1..]) && s[0] !in s[1..]
    ensures forall k :: k in s <==> k == s[0] || k in s[1..]
  {
    assert s == [s[0]] + s[1..];
    forall k | 0 <= k < |s| - 1 ensures s[1..][k] != s[0] { assert s[1..][k] == s[k + 1]; }
  }

  /** A plane has one column per y. */
  lemma {:induction false} PlaneLength(x: int, ys: seq<int>, zs: seq<int>)
    requires Distinct(zs)
    ensures |Plane(x, ys, zs)| == |ys| * |zs|
  {
    if ys != [] {
      ColumnCount(x, ys[0], zs, Point(0, 0, 0));
      PlaneLength(x, ys[1..], zs);
      Distributes(1, |ys| - 1, |zs|);
    }
  }

  /** With distinct y's and z's a plane holds each of its sites once. */
  lemma {:induction false} PlaneCount(x: int, ys: seq<int>, zs: seq<int>, p: Point)
    requires Distinct(ys) && Distinct(zs)
    ensures multiset(Plane(x, ys, zs))[p] == if p.x == x && p.y in ys && p.z in zs then 1 else 0
  {
    if ys != [] {
      var rest := ys[1..];
      HeadNotInTail(ys);
      ColumnCount(x, ys[0], zs, p);
      PlaneCount(x, rest, zs, p);
      assert multiset(Plane(x, ys, zs))[p] == multiset(Column(x, ys[0], zs))[p] + multiset(Plane(x, rest, zs))[p];
    }
  }

  /** A cube has one plane per x. */
  lemma {:induction false} CubeLength(xs: seq<int>, ys: seq<int>, zs: seq<int>)
    requires Distinct(zs)
    ensures |Cube(xs, ys, zs)| == |xs| * (|ys| * |zs|)
  {
    if xs != [] {
      PlaneLength(xs[0], ys, zs);
      CubeLength(xs[1..], ys, zs);
      Distributes(1, |xs| - 1, |ys| * |zs|);
    }
  }

  /** With distinct coordinates the cube holds each of its sites once. */
  lemma {:induction false} CubeCount(xs: seq<int>, ys: seq<int>, zs: seq<int>, p: Point)
    requires Distinct(xs) && Distinct(ys) && Distinct(zs)
    ensures multiset(Cube(xs, ys, zs))[p] == if p.x in xs && p.y in ys && p.z in zs then 1 else 0
  {
    if xs != [] {
      var rest := xs[1..];
      HeadNotInTail(xs);
      PlaneCount(xs[0], ys, zs, p);
      CubeCount(rest, ys, zs, p);
      assert multiset(Cube(xs, ys, zs))[p] == multiset(Plane(xs[0], ys, zs))[p] + multiset(Cube(rest, ys, zs))[p];
    }
  }

  /** A point is in the cube exactly when each coordinate is in its range. */
  lemma {:induction false} CubeMembership(xs: seq<int>, ys: seq<int>, zs: seq<int>, p: Point)
    ensures p in Cube(xs, ys, zs) <==> p.x in xs && p.y in ys && p.z in zs
  {
    if xs != [] {
      CubeMembership(xs[1..], ys, zs, p);
      PlaneMembership(xs[0], ys, zs, p);
      assert xs == [xs[0]] + xs[1..];
    }
  }

  lemma {:induction false} PlaneMembership(x: int, ys: seq<int>, zs: seq<int>, p: Point)
    ensures p in Plane(x, ys, zs) <==> p.x == x && p.y in ys && p.z in zs
  {
    if ys != [] {
      PlaneMembership(x, ys[1..], zs, p);
      ColumnMembership(x, ys[0], zs, p);
      assert ys == [ys[0]] + ys[1..];
    }
  }

  lemma {:induction false} ColumnMembership(x: int, y: int, zs: seq<int>, p: Point)
    ensures p in Column(x, y, zs) <==> p.x == x && p.y == y && p.z in zs
  {
    if zs != [] {
      ColumnMembership(x, y, zs[1..], p);
      assert zs == [zs[0]] + zs[1..];
    }
  }

  /** An index occurs at most once in a sequence without repetitions. */
  lemma {:induction false} DistinctCount(s: seq<int>, k: int)
    requires Distinct(s)
    ensures multiset(s)[k] == if k in s then 1 else 0
  {
    if s != [] {
      assert s == [s[0]] + s[1..];
      DistinctCount(s[1..], k);
    }
  }

  /** Whether a site lies inside a lattice of `d0 × d1 × d2` sites. */
  predicate InGrid(p: Point, d0: int, d1: int, d2: int)
  {
    0 <= p.x < d0 && 0 <= p.y < d1 && 0 <= p.z < d2
  }

  /** `__CalculVoisins(pos)`: the sites of the 3 × 3 × 3 cube around `pos`
      (wrapped in x and y, cut in z), in the comprehension's order, minus
      `pos` itself.  It is written with the corrected ranges, which are the
      source's own at distance 1 (`PeriodicFixedAgreesAtDistanceOne`,
      `WallFixedAgreesAtDistanceOne`). */
  function Neighbours(pos: Point, d0: int, d1: int, d2: int): (r: seq<Point>)
    ensures pos !in r
  {
    Without(Cube(PeriodicFixed(pos.x, 1, d0), PeriodicFixed(pos.y, 1, d1), WallFixed(pos.z, 1, d2)), pos)
  }

  /** The neighbours of a site are inside the lattice, exclude the site and
      appear once each: 26 of them for a site between the electrodes, 17 for a
      site on an electrode face. */
  lemma NeighboursOfASite(pos: Point, d0: int, d1: int, d2: int)
    requires 3 <= d0 && 3 <= d1 && 2 <= d2 && InGrid(pos, d0, d1, d2)
    ensures var r := Neighbours(pos, d0, d1, d2);
            pos !in r &&
            (forall q :: q in r ==> InGrid(q, d0, d1, d2)) &&
            (forall q :: multiset(r)[q] <= 1) &&
            (0 < pos.z < d2 - 1 ==> |r| == 26) &&
            (pos.z == 0 || pos.z == d2 - 1 ==> |r| == 17)
  {
    var xs, ys, zs := Periodic(pos.x, 1, d0), Periodic(pos.y, 1, d1), Wall(pos.z, 1, d2);
    PeriodicFixedAgreesAtDistanceOne(pos.x, d0);
    PeriodicFixedAgreesAtDistanceOne(pos.y, d1);
    WallFixedAgreesAtDistanceOne(pos.z, d2);
    PeriodicAtDistanceOne(pos.x, d0);
    PeriodicAtDistanceOne(pos.y, d1);
    WallAtDistanceOne(pos.z, d2);
    var cube := Cube(xs, ys, zs);
    var r := Without(cube, pos);
    forall q | q in r
      ensures InGrid(q, d0, d1, d2)
    {
      CubeMembership(xs, ys, zs, q);
      assert q.x in xs && q.y in ys && q.z in zs;
    }
    forall q
      ensures multiset(r)[q] <= 1
    {
      WithoutCount(cube, pos, q);
      CubeCount(xs, ys, zs, q);
    }
    CubeLength(xs, ys, zs);
    CubeCount(xs, ys, zs, pos);
    assert multiset(cube)[pos] == 1;
  }

  /** Removing `p` leaves the count of every other point alone. */
  lemma {:induction false} WithoutCount(s: seq<Point>, p: Point, q: Point)
    ensures multiset(Without(s, p))[q] == if q == p then 0 else multiset(s)[q]
  {
    if s != [] {
      assert s == [s[0]] + s[1..];
      WithoutCount(s[1..], p, q);
    }
  }
}
