/**
 * `Vec2<T>` and `Rect<T>` of `src/vec2.rs`: a two-component value used for every size
 * and position, its componentwise combinators and operators, and the rectangle
 * inset `shrink_centered`. Element types are the unsigned integers of module
 * Scalar; an operator takes the maximum of its element type as `max`.
 */
module Vectors {
  import opened Common
  import opened Scalar

  datatype Vec2<T> = Vec2(x: T, y: T)

  /** Both components are values of the unsigned type whose maximum is `max`. */
  predicate Fits(v: Vec2<nat>, max: nat) {
    v.x <= max && v.y <= max
  }

  // ---------------------------------------------------------------------------
  // Construction

  /** `Vec2::new` */
  function New<T>(x: T, y: T): (v: Vec2<T>)
    ensures v.x == x && v.y == y
  {
    Vec2(x, y)
  }

  /** `Vec2::splat` */
  function Splat<T>(v: T): (r: Vec2<T>)
    ensures r.x == v && r.y == v
  {
    New(v, v)
  }

  /** `From<(T, T)> for Vec2<T>` */
  function FromPair<T>(p: (T, T)): (r: Vec2<T>)
    ensures r.x == p.0 && r.y == p.1
  {
    Vec2(p.0, p.1)
  }

  lemma SplatIsNew<T>(v: T)
    ensures Splat(v) == New(v, v)
    ensures Splat(v).x == Splat(v).y == v
  {
  }

  lemma FromPairIsNew<T>(a: T, b: T)
    ensures FromPair((a, b)) == New(a, b)
  {
  }

  /** Two pairs are equal exactly when their x and y components are. */
  lemma NewInjective<T>(a: T, b: T, c: T, d: T)
    ensures New(a, b) == New(c, d) <==> a == c && b == d
  {
  }

  // Constants and axis constructors of `impl Vec2<u16>`.

  const Zero: Vec2<nat> := New(0, 0)
  const One: Vec2<nat> := New(1, 1)
  const UnitX: Vec2<nat> := New(1, 0)
  const UnitY: Vec2<nat> := New(0, 1)

  /** `Vec2::x`: a `u16` vector along the x axis. */
  function AxisX(x: U16): (r: Vec2<nat>)
    ensures r == WithX(Zero, x) && Fits(r, U16_MAX)
  {
    Vec2(x, 0)
  }

  /** `Vec2::y`: a `u16` vector along the y axis. */
  function AxisY(y: U16): (r: Vec2<nat>)
    ensures r == WithY(Zero, y) && Fits(r, U16_MAX)
  {
    Vec2(0, y)
  }

  lemma ConstantsAreSplatsAndAxes()
    ensures Zero == Splat(0) && One == Splat(1)
    ensures UnitX == AxisX(1) && UnitY == AxisY(1)
    ensures Fits(Zero, U16_MAX) && Fits(One, U16_MAX)
    ensures Fits(UnitX, U16_MAX) && Fits(UnitY, U16_MAX)
  {
  }

  /** Every `u16` vector is the sum of its two axis vectors, and that sum never overflows. */
  lemma AxesSpan(a: U16, b: U16)
    ensures Add(AxisX(a), AxisY(b), U16_MAX) == Value(New(a, b))
    ensures Mul(Splat(a), UnitX, U16_MAX) == Value(AxisX(a))
    ensures Mul(Splat(b), UnitY, U16_MAX) == Value(AxisY(b))
  {
  }

  // ---------------------------------------------------------------------------
  // Single-component updates

  /** `Vec2::with_x` */
  function WithX<T>(v: Vec2<T>, x: T): (r: Vec2<T>)
    ensures r.x == x && r.y == v.y
  {
    Vec2(x, v.y)
  }

  /** `Vec2::with_y` */
  function WithY<T>(v: Vec2<T>, y: T): (r: Vec2<T>)
    ensures r.x == v.x && r.y == y
  {
    Vec2(v.x, y)
  }

  /** `with_x` replaces x and keeps y; `with_y` is its mirror; the two commute. */
  lemma WithReplacesOneComponent<T>(v: Vec2<T>, a: T, b: T)
    ensures WithX(v, a).x == a && WithX(v, a).y == v.y
    ensures WithY(v, b).x == v.x && WithY(v, b).y == b
    ensures WithY(WithX(v, a), b) == WithX(WithY(v, b), a) == New(a, b)
    ensures WithX(v, v.x) == v && WithY(v, v.y) == v
  {
  }

  /** `Vec2::map_x`: `self` is taken by value and its x field assigned. */
  method MapX<T>(v: Vec2<T>, f: T -> T) returns (r: Vec2<T>)
    ensures r.x == f(v.x) && r.y == v.y
    ensures r == WithX(v, f(v.x))
  {
    r := v;
    r := r.(x := f(r.x));
  }

  /** `Vec2::map_y`: `self` is taken by value and its y field assigned. */
  method MapY<T>(v: Vec2<T>, f: T -> T) returns (r: Vec2<T>)
    ensures r.x == v.x && r.y == f(v.y)
    ensures r == WithY(v, f(v.y))
  {
    r := v;
    r := r.(y := f(r.y));
  }

  // ---------------------------------------------------------------------------
  // Componentwise combinators

  /** `Vec2::zip` */
  function Zip<T, U>(a: Vec2<T>, b: Vec2<U>): (r: Vec2<(T, U)>)
    ensures r.x.0 == a.x && r.x.1 == b.x && r.y.0 == a.y && r.y.1 == b.y
  {
    Vec2((a.x, b.x), (a.y, b.y))
  }

  /** `Vec2::map`, calling `f` on x and then on y. */
  function Map<T, U>(v: Vec2<T>, f: T -> U): (r: Vec2<U>)
    ensures r.x == f(v.x) && r.y == f(v.y)
  {
    Vec2(f(v.x), f(v.y))
  }

  /** `Vec2::join`, built as `zip` followed by `map`. */
  function Join<T, U, O>(a: Vec2<T>, b: Vec2<U>, f: (T, U) -> O): (r: Vec2<O>)
    ensures r.x == f(a.x, b.x) && r.y == f(a.y, b.y)
  {
    Map(Zip(a, b), (p: (T, U)) => f(p.0, p.1))
  }

  /** Mapping the identity changes nothing; mapping a composition is mapping twice. */
  lemma MapFunctor<T, U, V>(v: Vec2<T>, f: T -> U, g: U -> V)
    ensures Map(v, (t: T) => t) == v
    ensures Map(Map(v, f), g) == Map(v, (t: T) => g(f(t)))
  {
  }

  /** `join` with an operator that ignores its second argument is `map`. */
  lemma JoinIgnoringOtherIsMap<T, U, O>(a: Vec2<T>, b: Vec2<U>, f: T -> O)
    ensures Join(a, b, (t: T, u: U) => f(t)) == Map(a, f)
  {
  }

  /**
   * The outcome of evaluating a `join` whose operator may panic: the x component is
   * evaluated first, so its panic is the one observed and y is then never evaluated.
   */
  function Collect<T>(v: Vec2<Checked<T>>): (r: Checked<Vec2<T>>)
    ensures r.Value? <==> v.x.Value? && v.y.Value?
    ensures r.Value? ==> r.value == Vec2(v.x.value, v.y.value)
    ensures r.Panicked? ==> r.panic == (if v.x.Panicked? then v.x.panic else v.y.panic)
  {
    match v.x
    case Panicked(p) => Panicked(p)
    case Value(x) =>
      match v.y
      case Panicked(p) => Panicked(p)
      case Value(y) => Value(Vec2(x, y))
  }

  // ---------------------------------------------------------------------------
  // Arithmetic: each operator is `join` with the scalar operator.

  /** `impl Add for Vec2` */
  function Add(a: Vec2<nat>, b: Vec2<nat>, max: nat): (r: Checked<Vec2<nat>>)
    ensures r.Value? <==> a.x + b.x <= max && a.y + b.y <= max
    ensures r.Value? ==> r.value == Vec2(a.x + b.x, a.y + b.y)
    ensures r.Panicked? ==> r.panic == AddOverflow
  {
    Collect(Join(a, b, (s: nat, o: nat) => Plus(s, o, max)))
  }

  /** `impl Sub for Vec2`: an unsigned component cannot go below zero. */
  function Sub(a: Vec2<nat>, b: Vec2<nat>): (r: Checked<Vec2<nat>>)
    ensures r.Value? <==> b.x <= a.x && b.y <= a.y
    ensures r.Value? ==> r.value == Vec2(a.x - b.x, a.y - b.y)
    ensures r.Panicked? ==> r.panic == SubOverflow
  {
    Collect(Join(a, b, (s: nat, o: nat) => Minus(s, o)))
  }

  /** `impl Mul for Vec2` */
  function Mul(a: Vec2<nat>, b: Vec2<nat>, max: nat): (r: Checked<Vec2<nat>>)
    ensures r.Value? <==> a.x * b.x <= max && a.y * b.y <= max
    ensures r.Value? ==> r.value == Vec2(a.x * b.x, a.y * b.y)
    ensures r.Panicked? ==> r.panic == MulOverflow
  {
    Collect(Join(a, b, (s: nat, o: nat) => Times(s, o, max)))
  }

  /** `impl Div for Vec2`: both divisor components must be non-zero. */
  function Div(a: Vec2<nat>, b: Vec2<nat>): (r: Checked<Vec2<nat>>)
    ensures r.Value? <==> b.x != 0 && b.y != 0
    ensures r.Value? ==> r.value == Vec2(a.x / b.x, a.y / b.y)
    ensures r.Panicked? ==> r.panic == DivisionByZero
  {
    Collect(Join(a, b, (s: nat, o: nat) => Quotient(s, o)))
  }

  /** The operators are `join` of the scalar operators, so they share the scalar laws. */
  lemma AddAndMulCommute(a: Vec2<nat>, b: Vec2<nat>, max: nat)
    ensures Add(a, b, max) == Add(b, a, max)
    ensures Mul(a, b, max) == Mul(b, a, max)
  {
  }

  /** `a + b - b == a` whenever `a + b` does not overflow. */
  lemma AddThenSub(a: Vec2<nat>, b: Vec2<nat>, max: nat)
    requires Add(a, b, max).Value?
    ensures Sub(Add(a, b, max).value, b) == Value(a)
  {
  }

  /** `a * ONE == a` and `a / ONE == a`; `a + ZERO == a` and `a - ZERO == a`. */
  lemma Identities(a: Vec2<nat>, max: nat)
    requires Fits(a, max)
    ensures Mul(a, One, max) == Value(a)
    ensures Div(a, One) == Value(a)
    ensures Add(a, Zero, max) == Value(a)
    ensures Sub(a, Zero) == Value(a)
  {
  }

  /** For non-zero divisors, `(a / b) * b` is `a` rounded down to multiples of `b`. */
  lemma DivThenMul(a: Vec2<nat>, b: Vec2<nat>, max: nat)
    requires Fits(a, max) && b.x != 0 && b.y != 0
    ensures Mul(Div(a, b).value, b, max) == Value(Vec2(a.x - a.x % b.x, a.y - a.y % b.y))
  {
    var q := Div(a, b).value;
    assert q.x * b.x == a.x - a.x % b.x;
    assert q.y * b.y == a.y - a.y % b.y;
  }

  // ---------------------------------------------------------------------------
  // Derived quantities

  /** `Vec2::area`: the product of the two components. */
  function Area(v: Vec2<nat>, max: nat): (r: Checked<nat>)
    ensures r.Value? <==> v.x * v.y <= max
    ensures r.Value? ==> r.value == v.x * v.y
    ensures r.Panicked? ==> r.panic == MulOverflow
  {
    Times(v.x, v.y, max)
  }

  /** An area is zero exactly when a side is zero. */
  lemma AreaZeroIffSideZero(v: Vec2<nat>, max: nat)
    requires Area(v, max).Value?
    ensures Area(v, max).value == 0 <==> v.x == 0 || v.y == 0
  {
  }

  /** `Vec2::index_row_major`: `y * width + x`, computed in `usize`. */
  function IndexRowMajor(v: Vec2<nat>, width: nat): (r: Checked<nat>)
    ensures r.Value? <==> v.y * width + v.x <= USIZE_MAX
    ensures r.Value? ==> r.value == v.y * width + v.x
    ensures r.Panicked? ==> r.panic == (if v.y * width <= USIZE_MAX then AddOverflow else MulOverflow)
  {
    match Times(v.y, width, USIZE_MAX)
    case Panicked(p) => Panicked(p)
    case Value(row) => Plus(row, v.x, USIZE_MAX)
  }

  /** Coordinates inside a `width` by `height` grid. */
  predicate InGrid(v: Vec2<nat>, width: nat, height: nat) {
    v.x < width && v.y < height
  }

  /** The row-major index of an in-grid coordinate is computed without overflow and lies in `[0, width * height)`. */
  lemma IndexInBounds(v: Vec2<nat>, width: nat, height: nat)
    requires InGrid(v, width, height) && width * height <= USIZE_MAX + 1
    ensures IndexRowMajor(v, width).Value?
    ensures IndexRowMajor(v, width).value < width * height
  {
    RowBelow(v.y, v.x, width, height);
  }

  /** Distinct in-grid coordinates have distinct row-major indices. */
  lemma IndexInjective(a: Vec2<nat>, b: Vec2<nat>, width: nat)
    requires a.x < width && b.x < width
    requires IndexRowMajor(a, width).Value? && IndexRowMajor(b, width).Value?
    requires IndexRowMajor(a, width) == IndexRowMajor(b, width)
    ensures a == b
  {
    if a.y < b.y {
      RowBelow(a.y, a.x, width, b.y);
      MulMonotone(b.y, b.y, width);
      assert false;
    } else if b.y < a.y {
      RowBelow(b.y, b.x, width, a.y);
      MulMonotone(a.y, a.y, width);
      assert false;
    }
  }

  /** Every index in `[0, width * height)` is the row-major index of an in-grid coordinate. */
  lemma IndexDense(i: nat, width: nat, height: nat)
    requires 0 < width && i < width * height && width * height <= USIZE_MAX + 1
    ensures InGrid(Vec2(i % width, i / width), width, height)
    ensures IndexRowMajor(Vec2(i % width, i / width), width) == Value(i)
  {
    var q, r := i / width, i % width;
    assert q * width + r == i;
    if q >= height {
      MulMonotone(height, q, width);
    }
  }

  lemma MulMonotone(a: nat, b: nat, c: nat)
    requires a <= b
    ensures a * c <= b * c
  {
  }

  /** A cell of row `y` comes before every cell of row `h` when `y < h`. */
  lemma RowBelow(y: nat, x: nat, width: nat, h: nat)
    requires x < width && y < h
    ensures y * width + x < h * width
  {
    MulMonotone(y + 1, h, width);
    assert (y + 1) * width == y * width + width;
  }

  // ---------------------------------------------------------------------------
  // Iteration

  /** `IntoIterator for Vec2`: exactly the two components, x first. */
  function Items<T>(v: Vec2<T>): (s: seq<T>)
    ensures |s| == 2
  {
    [v.x, v.y]
  }

  /** Iterating and rebuilding the pair from the two items is the identity. */
  lemma ItemsRoundTrip<T>(v: Vec2<T>)
    ensures FromPair((Items(v)[0], Items(v)[1])) == v
    ensures forall t :: t in Items(v) <==> t == v.x || t == v.y
  {
  }

  // ---------------------------------------------------------------------------
  // In-place operators

  /**
   * A `Vec2<T>` place reached through `&mut self`. The compound-assignment
   * operators update `x` and then `y`; a panic on y leaves x already updated.
   */
  class MutVec2 {
    var x: nat
    var y: nat

    constructor (v: Vec2<nat>)
      ensures Get() == v
    {
      x, y := v.x, v.y;
    }

    function Get(): Vec2<nat>
      reads this
    {
      Vec2(x, y)
    }

    /** `self.x op= rhs.x; self.y op= rhs.y;` for a scalar operator `op` that may panic. */
    method Update(rhs: Vec2<nat>, op: (nat, nat) -> Checked<nat>) returns (panic: Option<Panic>)
      modifies this
      ensures panic.None? <==> op(old(x), rhs.x).Value? && op(old(y), rhs.y).Value?
      ensures panic.None? ==> Get() == Vec2(op(old(x), rhs.x).value, op(old(y), rhs.y).value)
      ensures op(old(x), rhs.x).Panicked? ==> panic == Some(op(old(x), rhs.x).panic) && Get() == old(Get())
      ensures op(old(x), rhs.x).Value? && op(old(y), rhs.y).Panicked? ==>
                panic == Some(op(old(y), rhs.y).panic) && Get() == Vec2(op(old(x), rhs.x).value, old(y))
    {
      var rx := op(x, rhs.x);
      if rx.Panicked? {
        return Some(rx.panic);
      }
      x := rx.value;
      var ry := op(y, rhs.y);
      if ry.Panicked? {
        return Some(ry.panic);
      }
      y := ry.value;
      return None;
    }

    /** `impl AddAssign for Vec2`: afterwards the place holds `old + rhs`. */
    method AddAssign(rhs: Vec2<nat>, max: nat) returns (panic: Option<Panic>)
      modifies this
      ensures panic.None? ==> Add(old(Get()), rhs, max) == Value(Get())
      ensures panic.Some? ==> Add(old(Get()), rhs, max) == Panicked(panic.value)
    {
      panic := Update(rhs, (s: nat, o: nat) => Plus(s, o, max));
    }

    /** `impl SubAssign for Vec2`: afterwards the place holds `old - rhs`. */
    method SubAssign(rhs: Vec2<nat>) returns (panic: Option<Panic>)
      modifies this
      ensures panic.None? ==> Sub(old(Get()), rhs) == Value(Get())
      ensures panic.Some? ==> Sub(old(Get()), rhs) == Panicked(panic.value)
    {
      panic := Update(rhs, (s: nat, o: nat) => Minus(s, o));
    }

    /** `impl MulAssign for Vec2`: afterwards the place holds `old * rhs`. */
    method MulAssign(rhs: Vec2<nat>, max: nat) returns (panic: Option<Panic>)
      modifies this
      ensures panic.None? ==> Mul(old(Get()), rhs, max) == Value(Get())
      ensures panic.Some? ==> Mul(old(Get()), rhs, max) == Panicked(panic.value)
    {
      panic := Update(rhs, (s: nat, o: nat) => Times(s, o, max));
    }

    /** `impl DivAssign for Vec2`: afterwards the place holds `old / rhs`. */
    method DivAssign(rhs: Vec2<nat>) returns (panic: Option<Panic>)
      modifies this
      ensures panic.None? ==> Div(old(Get()), rhs) == Value(Get())
      ensures panic.Some? ==> Div(old(Get()), rhs) == Panicked(panic.value)
    {
      panic := Update(rhs, (s: nat, o: nat) => Quotient(s, o));
    }
  }

  // ---------------------------------------------------------------------------
  // Rect

  datatype Rect = Rect(pos: Vec2<nat>, size: Vec2<nat>)

  /**
   * What `shrink_centered(factor)` evaluates to: `pos += factor`, then
   * `size -= factor` twice, each step panicking as its operator does.
   */
  function Shrunk(r: Rect, factor: Vec2<nat>, max: nat): (res: Checked<Rect>)
    ensures res.Value? <==>
              r.pos.x + factor.x <= max && r.pos.y + factor.y <= max &&
              2 * factor.x <= r.size.x && 2 * factor.y <= r.size.y
    ensures res.Value? ==>
              res.value.pos == Vec2(r.pos.x + factor.x, r.pos.y + factor.y) &&
              res.value.size == Vec2(r.size.x - 2 * factor.x, r.size.y - 2 * factor.y)
    ensures res.Panicked? ==>
              res.panic == (if Add(r.pos, factor, max).Value? then SubOverflow else AddOverflow)
  {
    match Add(r.pos, factor, max)
    case Panicked(p) => Panicked(p)
    case Value(pos) =>
      match Sub(r.size, factor)
      case Panicked(p) => Panicked(p)
      case Value(once) =>
        match Sub(once, factor)
        case Panicked(p) => Panicked(p)
        case Value(size) => Value(Rect(pos, size))
  }

  /** `Rect::shrink_centered`, on a mutable copy of the rectangle. */
  method ShrinkCentered(r: Rect, factor: Vec2<nat>, max: nat) returns (res: Checked<Rect>)
    ensures res == Shrunk(r, factor, max)
  {
    var pos := new MutVec2(r.pos);
    var size := new MutVec2(r.size);
    var panic := pos.AddAssign(factor, max);
    if panic.Some? {
      return Panicked(panic.value);
    }
    panic := size.SubAssign(factor);
    if panic.Some? {
      return Panicked(panic.value);
    }
    panic := size.SubAssign(factor);
    if panic.Some? {
      return Panicked(panic.value);
    }
    res := Value(Rect(pos.Get(), size.Get()));
  }

  /** Shrinking by `ZERO` leaves a rectangle unchanged. */
  lemma ShrinkByZero(r: Rect, max: nat)
    requires Fits(r.pos, max)
    ensures Shrunk(r, Zero, max) == Value(r)
  {
  }

  /** The shrunk rectangle has the same centre and lies inside the original. */
  lemma ShrinkKeepsCentreInside(r: Rect, factor: Vec2<nat>, max: nat)
    requires Shrunk(r, factor, max).Value?
    ensures var s := Shrunk(r, factor, max).value;
      2 * s.pos.x + s.size.x == 2 * r.pos.x + r.size.x &&
      2 * s.pos.y + s.size.y == 2 * r.pos.y + r.size.y &&
      r.pos.x <= s.pos.x && s.pos.x + s.size.x <= r.pos.x + r.size.x &&
      r.pos.y <= s.pos.y && s.pos.y + s.size.y <= r.pos.y + r.size.y
  {
  }

  /** Growing back by the same factor (`pos - factor`, `size + factor + factor`) restores the rectangle. */
  lemma ShrinkThenGrow(r: Rect, factor: Vec2<nat>, max: nat)
    requires Fits(r.size, max)
    requires Shrunk(r, factor, max).Value?
    ensures var s := Shrunk(r, factor, max).value;
      Sub(s.pos, factor) == Value(r.pos) &&
      Add(s.size, factor, max).Value? &&
      Add(Add(s.size, factor, max).value, factor, max) == Value(r.size)
  {
  }
}
