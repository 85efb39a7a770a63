/** The dynamically typed object stored in an entry, restricted to what the
    increment and decrement operations can tell apart: the Go integer types,
    each with its own wrap-around arithmetic, the two float types (as bare
    tags) and everything else. */
module Values {
  import opened Wrappers

  // The ranges of Go's fixed-width integer types.
  type I8 = x: int | -0x80 <= x < 0x80
  type I16 = x: int | -0x8000 <= x < 0x8000
  type I32 = x: int | -0x8000_0000 <= x < 0x8000_0000
  type I64 = x: int | -0x8000_0000_0000_0000 <= x < 0x8000_0000_0000_0000
  type U8 = x: int | 0 <= x < 0x100
  type U16 = x: int | 0 <= x < 0x1_0000
  type U32 = x: int | 0 <= x < 0x1_0000_0000
  type U64 = x: int | 0 <= x < 0x1_0000_0000_0000_0000

  /** The integer types the type switches recognise. `int`, `uint` and
      `uintptr` are taken to be 64 bits wide. */
  datatype IntType =
    | Int | Int8 | Int16 | Int32 | Int64
    | Uint | Uintptr | Uint8 | Uint16 | Uint32 | Uint64

  predicate IsSigned(t: IntType) {
    t.Int? || t.Int8? || t.Int16? || t.Int32? || t.Int64?
  }

  /** 2 to the width of the type. */
  function Modulus(t: IntType): (m: nat)
    ensures m > 0
  {
    match t
    case Int8 | Uint8 => 0x100
    case Int16 | Uint16 => 0x1_0000
    case Int32 | Uint32 => 0x1_0000_0000
    case _ => 0x1_0000_0000_0000_0000
  }

  /** The least value of the type. */
  function Least(t: IntType): int {
    if IsSigned(t) then -(Modulus(t) / 2) else 0
  }

  predicate InRange(t: IntType, x: int) {
    Least(t) <= x < Least(t) + Modulus(t)
  }

  /** The value of type t whose two's-complement bits are the low bits of x:
      Go's conversion `t(x)` and the result of its wrapping `+` and `-`. */
  function Wrap(t: IntType, x: int): (r: int)
    ensures InRange(t, r)
    ensures InRange(t, x) ==> r == x
    ensures InRange(t, x - Modulus(t)) ==> r == x - Modulus(t)
    ensures InRange(t, x + Modulus(t)) ==> r == x + Modulus(t)
  {
    var lo, m := Least(t), Modulus(t);
    if lo - m <= x < lo + 2 * m then
      ModNear(x - lo, m);
      Reduce(x, lo, m)
    else
      Reduce(x, lo, m)
  }

  /** r is x itself or x taken once around T's range, up or down. Together
      with r in T's range this leaves one candidate: the wrapped value of a
      sum or difference of two values of T. */
  predicate WithinOneWrap(t: IntType, x: int, r: int) {
    r == x || r == x - Modulus(t) || r == x + Modulus(t)
  }

  /** The member of [lo, lo + m) congruent to x modulo m. */
  function Reduce(x: int, lo: int, m: int): int
    requires m > 0
  {
    (x - lo) % m + lo
  }

  /** A stored object. An integer is held as its Go value, of the range of
      its type; a float is held as its type alone (its contents are not
      modelled); anything else is opaque. */
  datatype Value =
    | Integer(t: IntType, n: int)
    | Float32
    | Float64
    | Other(description: string)

  /** Increment adds, Decrement subtracts. */
  datatype Op = Plus | Minus

  function Inverse(op: Op): Op {
    if op.Plus? then Minus else Plus
  }

  /** `a + b` or `a - b` on unbounded integers. */
  function Exact(a: int, b: int, op: Op): int {
    if op.Plus? then a + b else a - b
  }

  /** `a + b` or `a - b` in the arithmetic of type t. */
  function Apply(t: IntType, a: int, b: int, op: Op): int {
    Wrap(t, Exact(a, b, op))
  }

  /** The typed methods: the stored object must be an integer of exactly
      type t (Go's `v.Object.(t)` assertion); the delta is already a t. */
  function Combine(cur: Value, t: IntType, delta: int, op: Op): (r: Option<Value>)
    ensures r.Some? <==> cur.Integer? && cur.t == t
    ensures r.Some? ==> r.value.Integer? && r.value.t == t && InRange(t, r.value.n)
    ensures r.Some? && InRange(t, Exact(cur.n, delta, op)) ==> r.value.n == Exact(cur.n, delta, op)
    ensures r.Some? && InRange(t, cur.n) && InRange(t, delta) ==> WithinOneWrap(t, Exact(cur.n, delta, op), r.value.n)
  {
    LeastBounds(t);
    if cur.Integer? && cur.t == t then Some(Integer(t, Apply(t, cur.n, delta, op))) else None
  }

  /** The type switch of the generic Increment/Decrement: an integer object
      of type T becomes `v + T(n)` (or `v - T(n)`), the int64 delta narrowed
      to T first; a float is rewritten by float arithmetic, which is not
      modelled; any other object is refused. */
  function Shift(cur: Value, n: I64, op: Op): (r: Option<Value>)
    ensures r.Some? <==> !cur.Other?
    ensures r.Some? && cur.Integer? ==> r.value.Integer? && r.value.t == cur.t && InRange(cur.t, r.value.n)
    ensures r.Some? && cur.Integer? && InRange(cur.t, n) && InRange(cur.t, Exact(cur.n, n, op)) ==>
              r.value.n == Exact(cur.n, n, op)
    ensures r.Some? && cur.Integer? ==> r == Combine(cur, cur.t, Wrap(cur.t, n), op)
    ensures r.Some? && !cur.Integer? ==> r.value == cur
  {
    match cur
    case Integer(t, a) => Some(Integer(t, Apply(t, a, Wrap(t, n), op)))
    case Float32 => Some(Float32)
    case Float64 => Some(Float64)
    case Other(_) => None
  }

  /** Go's conversion `int64(x)` of a typed delta: the same number, except
      that an unsigned 64-bit value of 2^63 or more is reinterpreted as
      negative. */
  function Widen(t: IntType, x: int): I64
    requires InRange(t, x)
  {
    if x >= 0x8000_0000_0000_0000 then x - 0x1_0000_0000_0000_0000 else x
  }

  lemma LeastBounds(t: IntType)
    ensures Least(t) <= 0 < Least(t) + Modulus(t)
  {
    match t
    case Int | Int8 | Int16 | Int32 | Int64 =>
    case Uint | Uintptr | Uint8 | Uint16 | Uint32 | Uint64 =>
  }

  // Euclidean remainder of a number within one modulus of [0, m).
  lemma ModBelow(z: int, m: int)
    requires m > 0 && -m <= z < 0
    ensures z % m == z + m
  {
  }

  lemma ModWithin(z: int, m: int)
    requires m > 0 && 0 <= z < m
    ensures z % m == z
  {
  }

  lemma ModAbove(z: int, m: int)
    requires m > 0 && m <= z < 2 * m
    ensures z % m == z - m
  {
  }

  lemma ModNear(z: int, m: int)
    requires m > 0 && -m <= z < 2 * m
    ensures z % m == if z < 0 then z + m else if z < m then z else z - m
  {
    if z < 0 {
      ModBelow(z, m);
    } else if z < m {
      ModWithin(z, m);
    } else {
      ModAbove(z, m);
    }
  }

  /** Subtracting what was added (or adding what was subtracted) gives the
      original value back, in every integer type, whatever the wrap-around
      in between. */
  lemma WrapRoundTripAdd(t: IntType, a: int, b: int)
    requires InRange(t, a) && InRange(t, b)
    ensures Wrap(t, Wrap(t, a + b) - b) == a
  {
    // a + b lies within one turn of T's range, so Wrap(t, a + b) - b is a
    // itself or a shifted by one turn, and wraps back to a
    LeastBounds(t);
    var s := Wrap(t, a + b);
    assert WithinOneWrap(t, a, s - b);
  }

  lemma WrapRoundTripSub(t: IntType, a: int, b: int)
    requires InRange(t, a) && InRange(t, b)
    ensures Wrap(t, Wrap(t, a - b) + b) == a
  {
    LeastBounds(t);
    var s := Wrap(t, a - b);
    assert WithinOneWrap(t, a, s + b);
  }

  lemma ApplyRoundTrip(t: IntType, a: int, b: int, op: Op)
    requires InRange(t, a) && InRange(t, b)
    ensures Apply(t, Apply(t, a, b, op), b, Inverse(op)) == a
  {
    if op.Plus? {
      assert Apply(t, a, b, op) == Wrap(t, a + b);
      WrapRoundTripAdd(t, a, b);
    } else {
      assert Apply(t, a, b, op) == Wrap(t, a - b);
      WrapRoundTripSub(t, a, b);
    }
  }

  /** In T's range at most one value lies within one turn of x: the wrapped
      result that the contracts above describe is unique. */
  lemma WrapIsDetermined(t: IntType, x: int, r1: int, r2: int)
    requires InRange(t, r1) && WithinOneWrap(t, x, r1)
    requires InRange(t, r2) && WithinOneWrap(t, x, r2)
    ensures r1 == r2
  {
  }

  /** The generic Increment of an int8 -100 by 200: the delta narrows to
      int8(200) = -56, and -100 + -56 wraps to 100. */
  lemma NarrowingExample()
    ensures Shift(Integer(Int8, -100), 200, Plus) == Some(Integer(Int8, 100))
  {
    assert Wrap(Int8, 200) == -56;
  }

  /** A typed Increment followed by the typed Decrement of the same delta
      (or the other way round) restores an integer object. */
  lemma CombineRoundTrip(cur: Value, delta: int, op: Op)
    requires cur.Integer? && InRange(cur.t, cur.n) && InRange(cur.t, delta)
    ensures Combine(Combine(cur, cur.t, delta, op).value, cur.t, delta, Inverse(op)) == Some(cur)
  {
    ApplyRoundTrip(cur.t, cur.n, delta, op);
  }

  /** The generic Increment followed by the generic Decrement with the same
      int64 delta (or the other way round) restores an integer object. */
  lemma ShiftRoundTrip(cur: Value, n: I64, op: Op)
    requires cur.Integer? && InRange(cur.t, cur.n)
    ensures Shift(Shift(cur, n, op).value, n, Inverse(op)) == Some(cur)
  {
    ApplyRoundTrip(cur.t, cur.n, Wrap(cur.t, n), op);
  }

  /** The generic operation given `int64(x)` computes what the typed
      operation given x computes: narrowing gives x back. */
  lemma GenericAgreesWithTyped(cur: Value, x: int, op: Op)
    requires cur.Integer? && InRange(cur.t, x)
    ensures Wrap(cur.t, Widen(cur.t, x)) == x
    ensures Shift(cur, Widen(cur.t, x), op) == Combine(cur, cur.t, x, op)
  {
    var t, m := cur.t, Modulus(cur.t);
    if x >= 0x8000_0000_0000_0000 {
      assert m == 0x1_0000_0000_0000_0000;
      assert (x - 0x1_0000_0000_0000_0000 - Least(t)) % m == x - Least(t);
    }
  }
}
