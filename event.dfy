/** Points and events of the lattice simulator (event.py): the `point` and
    `event` classes that `reseau.py` uses.  The lattice only builds points of
    integer coordinates; scaling by a number gives real ones. `tau` is an
    exact real standing for the event's waiting time. */
module Event {
  import opened Wrappers

  /** A lattice position; Python compares two points coordinate by coordinate. */
  datatype Point = Point(x: int, y: int, z: int)

  /** What the right-hand side of `point * other` may be: an `int` or `float`
      multiplier is a `Number`. */
  datatype Operand = PointOperand(p: Point) | Number(k: real) | OtherOperand

  /** `point * point` yields a number, `point * number` a point whose
      coordinates are fractional as soon as the multiplier is. */
  datatype Product = Scalar(value: int) | Scaled(x: real, y: real, z: real)

  /** `point.__eq__`: equality of the three coordinates, which is exactly the
      equality of the modelled values (so `in` and `remove` on lists of points
      behave as on Dafny sequences). */
  predicate SamePoint(p: Point, q: Point)
    ensures SamePoint(p, q) <==> p == q
  {
    p.x == q.x && p.y == q.y && p.z == q.z
  }

  /** `point.__add__`: the coordinate-wise sum with a point, and
      `NotImplemented` (a `TypeError`, as `point` has no `__radd__`) for
      anything else. */
  function Add(p: Point, other: Operand): (r: Result<Point>)
    ensures r.Success? <==> other.PointOperand?
    ensures r.Success? ==>
              r.value.x - other.p.x == p.x && r.value.y - other.p.y == p.y && r.value.z - other.p.z == p.z
    ensures r.Failure? ==> r.error == TypeError
  {
    match other
    case PointOperand(q) => Success(Point(p.x + q.x, p.y + q.y, p.z + q.z))
    case _ => Failure(TypeError)
  }

  /** `point.__sub__`: the inverse of adding a point, and `TypeError` for
      anything else. */
  function Sub(p: Point, other: Operand): (r: Result<Point>)
    ensures r.Success? <==> other.PointOperand?
    ensures r.Success? ==> Add(r.value, other) == Success(p)
    ensures r.Failure? ==> r.error == TypeError
  {
    match other
    case PointOperand(q) => Success(Point(p.x - q.x, p.y - q.y, p.z - q.z))
    case _ => Failure(TypeError)
  }

  /** `(p + q) - q == p`: subtraction undoes addition. */
  lemma AddThenSub(p: Point, q: Point)
    ensures Add(p, PointOperand(q)).Success?
    ensures Sub(Add(p, PointOperand(q)).value, PointOperand(q)) == Success(p)
  {
  }

  function Dot(p: Point, q: Point): int
  {
    p.x * q.x + p.y * q.y + p.z * q.z
  }

  function Scale(p: Point, k: real): Product
  {
    Scaled(k * p.x as real, k * p.y as real, k * p.z as real)
  }

  /** `point.__mul__`: the dot product with a point, the scaling by a number,
      and `NotImplemented` (a `TypeError` once Python has tried both sides)
      for anything else. */
  function Mul(p: Point, other: Operand): (r: Result<Product>)
    ensures other.PointOperand? ==> r == Success(Scalar(Dot(p, other.p)))
    ensures other.Number? ==> r.Success? && r.value.Scaled? &&
                              var s := r.value;
                              s.x == other.k * p.x as real && s.y == other.k * p.y as real &&
                              s.z == other.k * p.z as real
    ensures other.OtherOperand? <==> r.Failure?
  {
    match other
    case PointOperand(q) => Success(Scalar(Dot(p, q)))
    case Number(k) => Success(Scale(p, k))
    case OtherOperand => Failure(TypeError)
  }

  /** `point.__rmul__` delegates to `__mul__`: `k * p` is `p * k`. */
  function RMul(p: Point, other: Operand): (r: Result<Product>)
    ensures r == Mul(p, other)
  {
    Mul(p, other)
  }

  /** Multiplying two points does not depend on the side: `p * q == q * p`. */
  lemma MulCommutes(p: Point, q: Point)
    ensures Mul(p, PointOperand(q)) == RMul(q, PointOperand(p))
  {
  }

  /** The reactions the lattice knows (`lattice.reactions`), and anything else. */
  datatype Reaction = ElectronMove | HoleMove | Decay | Fluorescence | Other(name: string)

  /** `event`: a move or decay from `initial` to `final` after `tau`. */
  datatype Event = Event(initial: Point, final: Point, tau: real, reaction: Reaction)

  /** `event.__eq__`: same sites and same reaction; the waiting time is ignored. */
  predicate SameEvent(a: Event, b: Event)
    ensures SameEvent(a, b) <==> a.(tau := b.tau) == b
  {
    SamePoint(a.initial, b.initial) && SamePoint(a.final, b.final) && a.reaction == b.reaction
  }

  /** `event.__eq__` is an equivalence: reflexive, symmetric and transitive. */
  lemma SameEventIsEquivalence(a: Event, b: Event, c: Event)
    ensures SameEvent(a, a)
    ensures SameEvent(a, b) ==> SameEvent(b, a)
    ensures SameEvent(a, b) && SameEvent(b, c) ==> SameEvent(a, c)
  {
  }

  /** `__lt__`, `__gt__`, `__le__`, `__ge__` compare the waiting times only. */
  predicate Lt(a: Event, b: Event) { a.tau < b.tau }
  predicate Gt(a: Event, b: Event) { a.tau > b.tau }
  predicate Le(a: Event, b: Event) { a.tau <= b.tau }
  predicate Ge(a: Event, b: Event) { a.tau >= b.tau }

  /** The four orderings are one total preorder on `tau`, seen from both sides;
      two events that differ only in `tau` are equal yet ordered. */
  lemma OrderingIsByTau(a: Event, b: Event)
    ensures Lt(a, b) <==> Gt(b, a)
    ensures Le(a, b) <==> !Gt(a, b)
    ensures Ge(a, b) <==> Le(b, a)
    ensures Le(a, b) || Le(b, a)
    ensures a.tau != b.tau ==> SameEvent(a, a.(tau := b.tau)) && (Lt(a, b) || Gt(a, b))
  {
  }
}
