/** Construction of the lattice (reseau.py, `__Construction` and
    `__MoleculeType`): a flat array of molecule codes, 0 for host, 1 for TADF,
    2 for fluorescent, in the proportions asked for, shuffled by numpy's
    in-place shuffle, reshaped to the three dimensions and turned into empty
    molecules. */
module LatticeConstruction {
  import opened Wrappers
  import opened LatticeSite

  const HOST := 0
  const TADF := 1
  const FLUO := 2

  /** The class `__MoleculeType` builds for a code: 0 a host, 1 a TADF
      molecule, anything else a fluorescent one. */
  function KindOf(code: int): (k: Kind)
    ensures k == Host <==> code == HOST
    ensures k == Tadf <==> code == TADF
  {
    if code == HOST then Host else if code == TADF then Tadf else Fluorescent
  }

  /** The codes before the shuffle: `nTadf` ones, then `nFluo` twos, then
      zeros up to `n`. */
  function Codes(n: nat, nTadf: int, nFluo: int): (s: seq<int>)
    ensures |s| == n
  {
    seq(n, k => if k < nTadf then TADF else if k < nTadf + nFluo then FLUO else HOST)
  }

  /** `n` copies of `v`. */
  function Repeat(v: int, n: nat): (s: seq<int>)
    ensures |s| == n && forall k :: 0 <= k < n ==> s[k] == v
  {
    seq(n, k => v)
  }

  lemma {:induction false} RepeatCount(v: int, n: nat, w: int)
    ensures multiset(Repeat(v, n))[w] == if w == v then n else 0
  {
    if n > 0 {
      assert Repeat(v, n) == Repeat(v, n - 1) + [v];
      RepeatCount(v, n - 1, w);
    }
  }

  /** Before the shuffle there are exactly `nTadf` TADF codes, `nFluo`
      fluorescent codes and host codes for the rest. */
  lemma CodesCount(n: nat, nTadf: nat, nFluo: nat)
    requires nTadf + nFluo <= n
    ensures multiset(Codes(n, nTadf, nFluo))[TADF] == nTadf
    ensures multiset(Codes(n, nTadf, nFluo))[FLUO] == nFluo
    ensures multiset(Codes(n, nTadf, nFluo))[HOST] == n - nTadf - nFluo
  {
    var s := Codes(n, nTadf, nFluo);
    assert s == Repeat(TADF, nTadf) + Repeat(FLUO, nFluo) + Repeat(HOST, n - nTadf - nFluo);
    RepeatCount(TADF, nTadf, TADF);
    RepeatCount(TADF, nTadf, FLUO);
    RepeatCount(TADF, nTadf, HOST);
    RepeatCount(FLUO, nFluo, TADF);
    RepeatCount(FLUO, nFluo, FLUO);
    RepeatCount(FLUO, nFluo, HOST);
    RepeatCount(HOST, n - nTadf - nFluo, TADF);
    RepeatCount(HOST, n - nTadf - nFluo, FLUO);
    RepeatCount(HOST, n - nTadf - nFluo, HOST);
  }

  /** `np.zeros(taille, int)` followed by the two filling loops.  A count that
      overruns the array raises `IndexError`. */
  method FillCodes(n: nat, nTadf: nat, nFluo: nat) returns (r: Result<array<int>>)
    ensures r.Failure? <==> nTadf + nFluo > n
    ensures r.Failure? ==> r.error == IndexError
    ensures r.Success? ==> fresh(r.value) && r.value[..] == Codes(n, nTadf, nFluo)
  {
    var valeur := new int[n](k => HOST);
    var i := 0;
    while i < nTadf
      invariant 0 <= i <= nTadf
      invariant forall k :: 0 <= k < i && k < n ==> valeur[k] == TADF
      invariant forall k :: i <= k < n ==> valeur[k] == HOST
    {
      if i >= n {
        return Failure(IndexError);
      }
      valeur[i] := TADF;
      i := i + 1;
    }
    while i < nTadf + nFluo
      invariant nTadf <= i <= nTadf + nFluo
      invariant forall k :: 0 <= k < nTadf && k < n ==> valeur[k] == TADF
      invariant forall k :: nTadf <= k < i && k < n ==> valeur[k] == FLUO
      invariant forall k :: i <= k < n ==> valeur[k] == HOST
    {
      if i >= n {
        return Failure(IndexError);
      }
      valeur[i] := FLUO;
      i := i + 1;
    }
    if nTadf + nFluo > n {
      assert n < nTadf ==> n < nTadf + nFluo;
      return Failure(IndexError);
    }
    return Success(valeur);
  }

  /** `s` with positions `i` and `j` exchanged. */
  function Swap(s: seq<int>, i: nat, j: nat): (r: seq<int>)
    requires i < |s| && j < |s|
    ensures |r| == |s| && r[i] == s[j] && r[j] == s[i]
    ensures forall k :: 0 <= k < |s| && k != i && k != j ==> r[k] == s[k]
  {
    s[i := s[j]][j := s[i]]
  }

  /** Exchanging two positions keeps the same codes. */
  lemma SwapIsPermutation(s: seq<int>, i: nat, j: nat)
    requires i < |s| && j < |s|
    ensures multiset(Swap(s, i, j)) == multiset(s)
  {
  }

  /** numpy's shuffle from position `i` down to 1: position `i` is exchanged
      with the position `draws[i] mod (i + 1)` drawn for it. */
  function ShuffledFrom(s: seq<int>, i: int, draws: seq<nat>): (r: seq<int>)
    requires i < |s| && |draws| >= |s|
    ensures |r| == |s|
    decreases i
  {
    if i <= 0 then s
    else ShuffledFrom(Swap(s, i, draws[i] % (i + 1)), i - 1, draws)
  }

  /** The shuffle only rearranges: the multiset of codes is unchanged, so the
      numbers of host, TADF and fluorescent codes are too. */
  lemma {:induction false} ShuffleIsPermutation(s: seq<int>, i: int, draws: seq<nat>)
    requires i < |s| && |draws| >= |s|
    ensures multiset(ShuffledFrom(s, i, draws)) == multiset(s)
    decreases i
  {
    if i > 0 {
      SwapIsPermutation(s, i, draws[i] % (i + 1));
      ShuffleIsPermutation(Swap(s, i, draws[i] % (i + 1)), i - 1, draws);
    }
  }

  /** `rng.shuffle(valeur)`, in place. */
  method Shuffle(a: array<int>, draws: seq<nat>)
    requires |draws| >= a.Length
    modifies a
    ensures a[..] == ShuffledFrom(old(a[..]), a.Length - 1, draws)
  {
    var i := a.Length - 1;
    while i > 0
      invariant -1 <= i < a.Length
      invariant a.Length == 0 ==> i == -1
      invariant ShuffledFrom(a[..], i, draws) == ShuffledFrom(old(a[..]), a.Length - 1, draws)
      decreases i
    {
      var j := draws[i] % (i + 1);
      a[i], a[j] := a[j], a[i];
      i := i - 1;
    }
  }

  /** The position in the flat array of site `(x, y, z)` once reshaped to
      `(d0, d1, d2)` in row-major order. */
  function Index(x: int, y: int, z: int, d1: int, d2: int): int
  {
    (x * d1 + y) * d2 + z
  }

  /** Euclidean division by `d` undoes `q * d + r` for a remainder in range. */
  lemma DivModUnique(q: int, r: int, d: int)
    requires 0 <= r < d
    ensures (q * d + r) / d == q && (q * d + r) % d == r
  {
    var k := q * d + r;
    assert k == d * (k / d) + k % d;
    assert d * (k / d - q) == r - k % d;
    var t := k / d - q;
    assert t >= 1 ==> d * t >= d;
    assert t <= -1 ==> d * t <= -d;
  }

  /** Every site of the lattice has its own position in the flat array. */
  lemma IndexIsInjective(d0: nat, d1: nat, d2: nat)
    ensures forall x, y, z :: 0 <= x < d0 && 0 <= y < d1 && 0 <= z < d2 ==>
              0 <= Index(x, y, z, d1, d2) < d0 * d1 * d2
    ensures forall x, y, z, x', y', z' ::
              (0 <= x < d0 && 0 <= y < d1 && 0 <= z < d2 &&
               0 <= x' < d0 && 0 <= y' < d1 && 0 <= z' < d2 &&
               Index(x, y, z, d1, d2) == Index(x', y', z', d1, d2)) ==>
              x == x' && y == y' && z == z'
  {
    forall x, y, z | 0 <= x < d0 && 0 <= y < d1 && 0 <= z < d2
      ensures 0 <= Index(x, y, z, d1, d2) < d0 * d1 * d2
    {
      IndexInBox(x, y, z, d0, d1, d2);
    }
    forall x, y, z, x', y', z' |
      0 <= x < d0 && 0 <= y < d1 && 0 <= z < d2 &&
      0 <= x' < d0 && 0 <= y' < d1 && 0 <= z' < d2 &&
      Index(x, y, z, d1, d2) == Index(x', y', z', d1, d2)
      ensures x == x' && y == y' && z == z'
    {
      SameIndexSameSite(x, y, z, x', y', z', d1, d2);
    }
  }

  /** Two sites with the same flat position are the same site. */
  lemma SameIndexSameSite(x: int, y: int, z: int, x': int, y': int, z': int, d1: int, d2: int)
    requires 0 <= y < d1 && 0 <= z < d2 && 0 <= y' < d1 && 0 <= z' < d2
    requires Index(x, y, z, d1, d2) == Index(x', y', z', d1, d2)
    ensures x == x' && y == y' && z == z'
  {
    var q, q' := x * d1 + y, x' * d1 + y';
    DivModUnique(q, z, d2);
    DivModUnique(q', z', d2);
    assert q == q' && z == z';
    DivModUnique(x, y, d1);
    DivModUnique(x', y', d1);
  }

  lemma IndexInBox(x: int, y: int, z: int, d0: nat, d1: nat, d2: nat)
    requires 0 <= x < d0 && 0 <= y < d1 && 0 <= z < d2
    ensures 0 <= Index(x, y, z, d1, d2) < d0 * d1 * d2
  {
    assert x * d1 <= (d0 - 1) * d1;
    var q := x * d1 + y;
    assert 0 <= q < d0 * d1;
    assert q * d2 <= (d0 * d1 - 1) * d2;
    assert (d0 * d1 - 1) * d2 == d0 * d1 * d2 - d2;
  }

  lemma QuotientBelow(k: int, m: int, d: int)
    requires 0 <= k < m * d && 0 < d
    ensures 0 <= k / d < m
  {
    assert k == d * (k / d) + k % d;
    if k / d >= m {
      assert false;
    }
  }

  /** The site whose flat position is `k`: every position of the flat array
      belongs to a site. */
  function SiteOf(k: int, d0: nat, d1: nat, d2: nat): (p: (int, int, int))
    requires 0 <= k < d0 * d1 * d2
    ensures 0 <= p.0 < d0 && 0 <= p.1 < d1 && 0 <= p.2 < d2
    ensures Index(p.0, p.1, p.2, d1, d2) == k
  {
    assert d2 > 0 && d1 > 0;
    var q := k / d2;
    assert k == q * d2 + k % d2;
    QuotientBelow(k, d0 * d1, d2);
    assert q == (q / d1) * d1 + q % d1;
    QuotientBelow(q, d0, d1);
    (q / d1, q % d1, k % d2)
  }

  /** `floor(taille * prop / 100)`: the number of molecules a percentage
      `prop` of the `taille` sites asks for. */
  function Share(taille: nat, prop: real): (c: nat)
    requires 0.0 <= prop
    ensures c as real <= (taille as real) * prop / 100.0 < c as real + 1.0
  {
    assert 0.0 <= (taille as real) * prop / 100.0;
    ((taille as real) * prop / 100.0).Floor
  }

  /** `__Construction`: the counts `floor(taille * prop / 100)` of TADF and
      fluorescent molecules (proportions are percentages), the codes
      `IndexError` refuses when they do not fit, the shuffle with the draws
      `draws`, and one empty molecule of the coded class per site. */
  method Construction(d0: nat, d1: nat, d2: nat, propTadf: real, propFluo: real, draws: seq<nat>)
    returns (r: Result<array3<Site>>, codes: seq<int>)
    requires 0.0 <= propTadf && 0.0 <= propFluo
    requires |draws| >= d0 * d1 * d2
    ensures var n := d0 * d1 * d2;
            var nTadf := Share(n, propTadf);
            var nFluo := Share(n, propFluo);
            (r.Failure? <==> nTadf + nFluo > n) &&
            (r.Failure? ==> r.error == IndexError) &&
            (r.Success? ==>
               |codes| == n &&
               multiset(codes) == multiset(Codes(n, nTadf, nFluo)) &&
               multiset(codes)[TADF] == nTadf && multiset(codes)[FLUO] == nFluo &&
               multiset(codes)[HOST] == n - nTadf - nFluo)
    ensures r.Success? ==>
              var grid := r.value;
              fresh(grid) && grid.Length0 == d0 && grid.Length1 == d1 && grid.Length2 == d2 &&
              forall x, y, z :: 0 <= x < d0 && 0 <= y < d1 && 0 <= z < d2 ==>
                0 <= Index(x, y, z, d1, d2) < |codes| &&
                grid[x, y, z] == EmptySite(KindOf(codes[Index(x, y, z, d1, d2)]))
  {
    var taille := d0 * d1 * d2;
    var shuffled := ShuffledCodes(taille, Share(taille, propTadf), Share(taille, propFluo), draws);
    if shuffled.Failure? {
      return Failure(shuffled.error), [];
    }
    codes := shuffled.value;
    var grid := Reshape(d0, d1, d2, codes);
    return Success(grid), codes;
  }

  /** The codes of `taille` sites, filled and then shuffled with `draws`. */
  method ShuffledCodes(taille: nat, nTadf: nat, nFluo: nat, draws: seq<nat>) returns (r: Result<seq<int>>)
    requires |draws| >= taille
    ensures r.Failure? <==> nTadf + nFluo > taille
    ensures r.Failure? ==> r.error == IndexError
    ensures r.Success? ==>
              |r.value| == taille &&
              multiset(r.value) == multiset(Codes(taille, nTadf, nFluo)) &&
              multiset(r.value)[TADF] == nTadf && multiset(r.value)[FLUO] == nFluo &&
              multiset(r.value)[HOST] == taille - nTadf - nFluo
  {
    var filled := FillCodes(taille, nTadf, nFluo);
    if filled.Failure? {
      return Failure(filled.error);
    }
    var valeur := filled.value;
    Shuffle(valeur, draws);
    CodesCount(taille, nTadf, nFluo);
    ShuffleIsPermutation(Codes(taille, nTadf, nFluo), taille - 1, draws);
    return Success(valeur[..]);
  }

  /** `valeur.reshape(...)` and the triple loop over `__MoleculeType`. */
  method Reshape(d0: nat, d1: nat, d2: nat, codes: seq<int>) returns (grid: array3<Site>)
    requires |codes| == d0 * d1 * d2
    ensures fresh(grid) && grid.Length0 == d0 && grid.Length1 == d1 && grid.Length2 == d2
    ensures forall x, y, z :: 0 <= x < d0 && 0 <= y < d1 && 0 <= z < d2 ==>
              0 <= Index(x, y, z, d1, d2) < |codes| &&
              grid[x, y, z] == EmptySite(KindOf(codes[Index(x, y, z, d1, d2)]))
  {
    grid := new Site[d0, d1, d2]((x, y, z) => EmptySite(Host));
    IndexIsInjective(d0, d1, d2);
    for x := 0 to d0
      invariant forall a, b, c :: 0 <= a < x && 0 <= b < d1 && 0 <= c < d2 ==>
                  grid[a, b, c] == EmptySite(KindOf(codes[Index(a, b, c, d1, d2)]))
    {
      for y := 0 to d1
        invariant forall a, b, c :: 0 <= a < x && 0 <= b < d1 && 0 <= c < d2 ==>
                    grid[a, b, c] == EmptySite(KindOf(codes[Index(a, b, c, d1, d2)]))
        invariant forall b, c :: 0 <= b < y && 0 <= c < d2 ==>
                    grid[x, b, c] == EmptySite(KindOf(codes[Index(x, b, c, d1, d2)]))
      {
        for z := 0 to d2
          invariant forall a, b, c :: 0 <= a < x && 0 <= b < d1 && 0 <= c < d2 ==>
                      grid[a, b, c] == EmptySite(KindOf(codes[Index(a, b, c, d1, d2)]))
          invariant forall b, c :: 0 <= b < y && 0 <= c < d2 ==>
                      grid[x, b, c] == EmptySite(KindOf(codes[Index(x, b, c, d1, d2)]))
          invariant forall c :: 0 <= c < z ==>
                      grid[x, y, c] == EmptySite(KindOf(codes[Index(x, y, c, d1, d2)]))
        {
          grid[x, y, z] := EmptySite(KindOf(codes[Index(x, y, z, d1, d2)]));
        }
      }
    }
  }
}
