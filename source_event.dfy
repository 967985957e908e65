/** Points, vectors and events of the rewritten simulator (source/event.py).
    `Point` and `Vector` are dataclasses, so `==` compares the class as well as
    the coordinates: the two are kept apart as two constructors here. */
module SourceEvent {
  import opened Wrappers

  /** Event kinds (`EVENTS`) and particle kinds (`PARTICULES`). */
  const MOVE := 1
  const BOUND := 2
  const ISC := 3
  const ET := 4
  const DECAY := 5
  const CAPTURE := 6
  const ELECTRON := 1
  const HOLE := 2
  const EXCITON := 3

  /** A `Point` or a `Vector` (the subclass that arithmetic produces). The
      dataclass annotations are not enforced and a `Vector`'s are `float`, so
      every coordinate is a real; Python's `1 == 1.0` makes this exact. */
  datatype Coords = Point(x: real, y: real, z: real) | Vector(x: real, y: real, z: real)

  /** The right-hand side of an arithmetic operator: an `int` or `float`
      operand is a `Number`. */
  datatype Operand = CoordsOperand(c: Coords) | Number(k: real) | OtherOperand

  /** `Vector * Point` gives the dot product, `Vector * number` a vector. */
  datatype Product = Scalar(value: real) | Scaled(vector: Coords)

  /** `Point.__add__` (inherited by `Vector`): componentwise, always a `Vector`;
      a number is added to every coordinate; anything else is a `TypeError`. */
  function Add(p: Coords, other: Operand): (r: Result<Coords>)
    ensures other.OtherOperand? <==> r == Failure(TypeError)
    ensures r.Success? ==> r.value.Vector?
    ensures other.CoordsOperand? ==>
      r.Success? && r.value.x - other.c.x == p.x && r.value.y - other.c.y == p.y && r.value.z - other.c.z == p.z
    ensures other.Number? ==>
      r.Success? && r.value.x - p.x == other.k && r.value.y - p.y == other.k && r.value.z - p.z == other.k
  {
    match other
    case CoordsOperand(q) => Success(Vector(p.x + q.x, p.y + q.y, p.z + q.z))
    case Number(k) => Success(Vector(p.x + k, p.y + k, p.z + k))
    case OtherOperand => Failure(TypeError)
  }

  /** `Point.__sub__`: the componentwise difference, always a `Vector`. */
  function Sub(p: Coords, other: Operand): (r: Result<Coords>)
    ensures other.OtherOperand? <==> r == Failure(TypeError)
    ensures r.Success? ==> r.value.Vector?
    ensures other.CoordsOperand? ==> r.Success? && Add(r.value, other) == Success(Vector(p.x, p.y, p.z))
    ensures other.Number? ==> r.Success? && Add(r.value, other) == Success(Vector(p.x, p.y, p.z))
  {
    match other
    case CoordsOperand(q) => Success(Vector(p.x - q.x, p.y - q.y, p.z - q.z))
    case Number(k) => Success(Vector(p.x - k, p.y - k, p.z - k))
    case OtherOperand => Failure(TypeError)
  }

  /** `(p + q) - q` has the coordinates of `p`, but it is a `Vector`: it equals
      `p` under the dataclass `==` exactly when `p` was already a `Vector`. */
  lemma AddThenSub(p: Coords, q: Coords)
    ensures Add(p, CoordsOperand(q)).Success?
    ensures var r := Sub(Add(p, CoordsOperand(q)).value, CoordsOperand(q));
            r.Success? && r.value.x == p.x && r.value.y == p.y && r.value.z == p.z &&
            (r.value == p <==> p.Vector?)
  {
  }

  /** The sum of the products of matching coordinates. */
  function Dot(u: Coords, w: Coords): real
  {
    u.x * w.x + u.y * w.y + u.z * w.z
  }

  /** `Vector.__mul__`: the dot product with a point or vector, the scaling of
      every component by a number, a `TypeError` otherwise. */
  function Mul(v: Coords, other: Operand): (r: Result<Product>)
    requires v.Vector?
    ensures other.OtherOperand? <==> r == Failure(TypeError)
    ensures other.CoordsOperand? ==> r == Success(Scalar(Dot(v, other.c)))
    ensures other.Number? ==>
      r.Success? && r.value.Scaled? && r.value.vector.Vector? &&
      r.value.vector.x == other.k * v.x && r.value.vector.y == other.k * v.y && r.value.vector.z == other.k * v.z
  {
    match other
    case CoordsOperand(q) => Success(Scalar(Dot(v, q)))
    case Number(k) => Success(Scaled(Vector(v.x * k, v.y * k, v.z * k)))
    case OtherOperand => Failure(TypeError)
  }

  /** `Vector.__rmul__` returns `self * other`. */
  function RMul(v: Coords, other: Operand): (r: Result<Product>)
    requires v.Vector?
    ensures r == Mul(v, other)
  {
    Mul(v, other)
  }

  /** The dot product of two vectors does not depend on the side. */
  lemma DotCommutes(u: Coords, v: Coords)
    requires u.Vector? && v.Vector?
    ensures Mul(u, CoordsOperand(v)) == RMul(v, CoordsOperand(u))
  {
    assert u.x * v.x == v.x * u.x && u.y * v.y == v.y * u.y && u.z * v.z == v.z * u.z;
  }

  /** `Event` (a dataclass with its own `==`): sites, waiting time, event kind
      and particle kind (0 for none). */
  datatype Event = Event(initial: Coords, final: Coords, tau: real, kind: int, particule: int)

  /** The right-hand side of an event comparison. */
  datatype EventOperand = AnEvent(e: Event) | NotAnEvent

  /** The relation behind `Event.__eq__`: same kind and particle; a move
      collides as soon as it shares its start or its end, any other kind needs
      both ends to match. */
  predicate Collides(a: Event, b: Event)
  {
    a.kind == b.kind && a.particule == b.particule &&
    if a.kind == MOVE then a.initial == b.initial || a.final == b.final
    else a.initial == b.initial && a.final == b.final
  }

  /** `Event.__eq__`: `Collides` against an event, `TypeError` against anything else. */
  function Eq(a: Event, other: EventOperand): (r: Result<bool>)
    ensures other.NotAnEvent? <==> r == Failure(TypeError)
    ensures other.AnEvent? ==> r == Success(Collides(a, other.e))
  {
    match other
    case AnEvent(b) => Success(Collides(a, b))
    case NotAnEvent => Failure(TypeError)
  }

  /** `Event.__ne__`: `not self == other`, so the negation of `Eq`, with the same error. */
  function Ne(a: Event, other: EventOperand): (r: Result<bool>)
    ensures Eq(a, other).Failure? ==> r == Eq(a, other)
    ensures Eq(a, other).Success? ==> r == Success(!Eq(a, other).value)
  {
    match Eq(a, other)
    case Success(b) => Success(!b)
    case Failure(e) => Failure(e)
  }

  /** Equality is reflexive and symmetric, and `!=` is its negation. */
  lemma EqIsReflexiveAndSymmetric(a: Event, b: Event)
    ensures Eq(a, AnEvent(a)) == Success(true)
    ensures Eq(a, AnEvent(b)) == Eq(b, AnEvent(a))
    ensures Ne(a, AnEvent(b)).Success? && Ne(a, AnEvent(b)).value == !Eq(a, AnEvent(b)).value
  {
  }

  /** Equality is not transitive for moves: two moves from the same start and
      two moves to the same end chain up although the outer two share nothing. */
  lemma MoveEqualityIsNotTransitive()
    ensures exists a: Event, b: Event, c: Event ::
      Eq(a, AnEvent(b)) == Success(true) && Eq(b, AnEvent(c)) == Success(true) &&
      Eq(a, AnEvent(c)) == Success(false)
  {
    var o, p, q, s := Point(0.0, 0.0, 0.0), Point(1.0, 0.0, 0.0), Point(2.0, 0.0, 0.0), Point(3.0, 0.0, 0.0);
    var a := Event(o, p, 0.0, MOVE, ELECTRON);
    var b := Event(o, q, 0.0, MOVE, ELECTRON);
    var c := Event(s, q, 0.0, MOVE, ELECTRON);
    assert Eq(a, AnEvent(b)) == Success(true) && Eq(b, AnEvent(c)) == Success(true);
    assert Eq(a, AnEvent(c)) == Success(false);
  }

  /** `__lt__`, `__gt__`, `__le__`, `__ge__`: the waiting times against an
      event, `TypeError` against anything else. */
  function Lt(a: Event, other: EventOperand): (r: Result<bool>)
    ensures other.NotAnEvent? <==> r == Failure(TypeError)
    ensures other.AnEvent? ==> r == Success(a.tau < other.e.tau)
  {
    if other.AnEvent? then Success(a.tau < other.e.tau) else Failure(TypeError)
  }

  function Gt(a: Event, other: EventOperand): (r: Result<bool>)
    ensures other.NotAnEvent? <==> r == Failure(TypeError)
    ensures other.AnEvent? ==> r == Success(a.tau > other.e.tau)
  {
    if other.AnEvent? then Success(a.tau > other.e.tau) else Failure(TypeError)
  }

  function Le(a: Event, other: EventOperand): (r: Result<bool>)
    ensures other.NotAnEvent? <==> r == Failure(TypeError)
    ensures other.AnEvent? ==> r == Success(a.tau <= other.e.tau)
  {
    if other.AnEvent? then Success(a.tau <= other.e.tau) else Failure(TypeError)
  }

  function Ge(a: Event, other: EventOperand): (r: Result<bool>)
    ensures other.NotAnEvent? <==> r == Failure(TypeError)
    ensures other.AnEvent? ==> r == Success(a.tau >= other.e.tau)
  {
    if other.AnEvent? then Success(a.tau >= other.e.tau) else Failure(TypeError)
  }

  /** The orderings look at `tau` only: they are mutually consistent, and two
      colliding events may still be strictly ordered. */
  lemma OrderingIgnoresEquality(a: Event, b: Event)
    ensures Lt(a, AnEvent(b)) == Gt(b, AnEvent(a))
    ensures Le(a, AnEvent(b)).value <==> !Gt(a, AnEvent(b)).value
    ensures Ge(a, AnEvent(b)) == Le(b, AnEvent(a))
    ensures a.tau < b.tau ==> Eq(a, AnEvent(a.(tau := b.tau))) == Success(true) &&
                              Lt(a, AnEvent(a.(tau := b.tau))) == Success(true)
  {
  }
}
