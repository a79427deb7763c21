# mosaic: the Vec2/Rect core and the tile-size front end, in Dafny

`mosaic` is a command-line tool meant to turn a template image into a photomosaic.
Its tile size is a `Vec2<usize>` given as `<w>x<h>`. All of its sizes and positions
are `Vec2<T>` values: two-component values with componentwise constructors,
combinators and operators. `Rect<T>` pairs a position with a size and can be inset
on every side (`shrink_centered`). This project models those two types
(`src/vec2.rs`), along with the part of `src/main.rs` that parses and validates the
tile size and orders the steps of a run. It also proves the properties the code
promises.

Files:

- `common.dfy`, module `Common`: `Option` and `Result`.
- `scalar.dfy`, module `Scalar`: the unsigned element types.
  - A value is a `nat` bounded by `U16_MAX` or `USIZE_MAX`. `usize` is taken to be 64 bits.
  - `+`, `-` and `*` panic when the exact result leaves the type, and `/` panics on a zero divisor. These are Rust's debug-build semantics.
  - `Checked<T>` is either a value or the panic that stopped the evaluation.
- `vectors.dfy`, module `Vectors`: `Vec2` and its operations.
  - The class `MutVec2` is a `&mut Vec2` place updated by the compound-assignment operators.
  - `Rect`, with `Shrunk` (the value of `shrink_centered`) and the method `ShrinkCentered`.
- `cli.dfy`, module `Cli`: the modelled part of `main.rs`.
  - `split_once`, `usize::from_str` and `parse_vec2`.
  - The zero-component check, done with `Iterator::any` over the two components.
  - `Main`, the sequence of steps `main` takes. The image load and save outcomes are parameters.

Modelling choices:

- Each operator is `join` with the scalar operator, as in the source. `join` evaluates x before y, so when both components would panic, the x panic is the one reported (`Collect`).
- On a y-component panic, the in-place operators have already updated x. `MutVec2.Update` states this.
- `usize::from_str` is modelled exactly.
  - An optional single leading `'+'`, then one or more ASCII digits (leading zeros allowed), then a value at most `usize::MAX`.
  - A lone sign, a `'-'`, any other character and an empty string are errors.
  - The digit loop checks `acc * 10` and `+ digit` at every step (`Accumulate`). `AccumulateChecked` proves this is the same as checking the final value.
- `parse_vec2` accepts `0x0`; `main` then rejects it with "Tile size must be at least 1x1". A tile size is therefore positive only after that check, not by its grammar.
- There is no grid enumeration and no tile matching in the code: `main` saves the template unchanged (`MainSavesTemplate`).

## Model

| member | source | states |
|---|---|---|
| Vectors.New | src/vec2.rs:14-16 | `new(x, y)` holds exactly `x` and `y` |
| Vectors.NewInjective | src/vec2.rs:6-16 | two vectors are equal (derived `PartialEq`) iff both components are |
| Vectors.Splat | src/vec2.rs:18-20 | `splat(v)` has both components equal to `v`; see SplatIsNew |
| Vectors.FromPair | src/vec2.rs:98-102 | `From((a, b))` has x `a` and y `b`; see FromPairIsNew |
| Vectors.SplatIsNew | src/vec2.rs:18-20 | `splat(v) == new(v, v)` |
| Vectors.FromPairIsNew | src/vec2.rs:98-102 | `From((a, b)) == new(a, b)` |
| Vectors.AxisX | src/vec2.rs:79-81 | `Vec2::x(a)` is ZERO with x replaced by `a`, a valid `u16` vector; see AxesSpan |
| Vectors.AxisY | src/vec2.rs:84-86 | `Vec2::y(b)` is ZERO with y replaced by `b`, a valid `u16` vector; see AxesSpan |
| Vectors.ConstantsAreSplatsAndAxes | src/vec2.rs:73-86 | `ZERO == splat(0)`, `ONE == splat(1)`, `X == x(1)`, `Y == y(1)`, all valid `u16` vectors |
| Vectors.AxesSpan | src/vec2.rs:79-86 | `x(a) + y(b) == new(a, b)` without overflow; `x(a) == splat(a) * X` and `y(b) == splat(b) * Y` |
| Vectors.WithX | src/vec2.rs:22-24 | `with_x(a)` has x `a` and keeps y; see WithReplacesOneComponent |
| Vectors.WithY | src/vec2.rs:26-28 | `with_y(b)` keeps x and has y `b`; see WithReplacesOneComponent |
| Vectors.WithReplacesOneComponent | src/vec2.rs:22-28 | `with_x` replaces x and keeps y, `with_y` mirrors it, the two commute, and re-setting a component to its own value is the identity |
| Vectors.MapX | src/vec2.rs:44-47 | `map_x(f)` changes only x, to `f(x)`: it equals `with_x(f(x))` |
| Vectors.MapY | src/vec2.rs:49-52 | `map_y(f)` changes only y, to `f(y)`: it equals `with_y(f(y))` |
| Vectors.Zip | src/vec2.rs:30-35 | `zip` pairs the x components and the y components |
| Vectors.Map | src/vec2.rs:37-42 | `map(f)` is `(f(x), f(y))`; see MapFunctor |
| Vectors.MapFunctor | src/vec2.rs:37-42 | `map` with the identity is the identity, and `map` of a composition is two maps |
| Vectors.Join | src/vec2.rs:30-56 | `join(other, f)`, built as `zip` then `map`, is `(f(self.x, other.x), f(self.y, other.y))` |
| Vectors.JoinIgnoringOtherIsMap | src/vec2.rs:37-56 | `join` with an operator that ignores the other vector is `map` |
| Vectors.Collect | src/vec2.rs:37-42 | a componentwise evaluation succeeds iff both components do; otherwise the panic is x's when x panics, else y's |
| Vectors.Add | src/vec2.rs:104-110 | `a + b` is `(a.x + b.x, a.y + b.y)` when both sums fit, and otherwise panics with an add overflow |
| Vectors.Sub | src/vec2.rs:112-118 | `a - b` is componentwise when `b <= a` on both components, and otherwise panics with a subtract overflow |
| Vectors.Mul | src/vec2.rs:120-126 | `a * b` is componentwise when both products fit, and otherwise panics with a multiply overflow |
| Vectors.Div | src/vec2.rs:128-134 | `a / b` is componentwise truncating division iff both divisor components are non-zero, and otherwise panics with division by zero |
| Vectors.AddAndMulCommute | src/vec2.rs:104-126 | `+` and `*` commute, panics included |
| Vectors.AddThenSub | src/vec2.rs:104-118 | `a + b - b == a` whenever `a + b` does not overflow |
| Vectors.Identities | src/vec2.rs:104-134 | `a * ONE == a`, `a / ONE == a`, `a + ZERO == a` and `a - ZERO == a` for every vector of the type |
| Vectors.DivThenMul | src/vec2.rs:120-134 | with non-zero divisors, `(a / b) * b` rounds each component down to a multiple of `b` and does not overflow |
| Vectors.Area | src/vec2.rs:60-62 | `area()` is `x * y` when it fits, and otherwise panics with a multiply overflow |
| Vectors.AreaZeroIffSideZero | src/vec2.rs:60-62 | the area is zero iff a component is zero |
| Vectors.IndexRowMajor | src/vec2.rs:66-68 | `index_row_major(w)` is `y * w + x` when it fits in `usize`; otherwise the multiplication or the addition panics, whichever overflows first |
| Vectors.IndexInBounds | src/vec2.rs:66-68 | for `x < w`, `y < h` and `w * h` within `usize`, the index does not overflow and lies in `[0, w * h)` |
| Vectors.IndexInjective | src/vec2.rs:66-68 | distinct coordinates with `x < w` have distinct indices |
| Vectors.IndexDense | src/vec2.rs:66-68 | every index in `[0, w * h)` is the index of the in-grid coordinate `(i % w, i / w)` |
| Vectors.Items | src/vec2.rs:93-95 | iteration yields exactly two items |
| Vectors.ItemsRoundTrip | src/vec2.rs:89-102 | the items are x then y: rebuilding a vector from them with `From` gives it back, and nothing else is yielded |
| Vectors.MutVec2.constructor | src/vec2.rs:136-137 | a place created for a vector holds exactly that vector |
| Vectors.MutVec2.Update | src/vec2.rs:136-162 | `self.x op= rhs.x; self.y op= rhs.y`: both are updated when neither panics; an x panic changes nothing; a y panic leaves x updated and y unchanged |
| Vectors.MutVec2.AddAssign | src/vec2.rs:136-141 | after `a += b`, `a` holds `old(a) + b`, or it panics exactly when `old(a) + b` does |
| Vectors.MutVec2.SubAssign | src/vec2.rs:143-148 | after `a -= b`, `a` holds `old(a) - b`, or it panics exactly when `old(a) - b` does |
| Vectors.MutVec2.MulAssign | src/vec2.rs:150-155 | after `a *= b`, `a` holds `old(a) * b`, or it panics exactly when `old(a) * b` does |
| Vectors.MutVec2.DivAssign | src/vec2.rs:157-162 | after `a /= b`, `a` holds `old(a) / b`, or it panics exactly when `old(a) / b` does |
| Vectors.Shrunk | src/vec2.rs:170-177 | `shrink_centered(f)` succeeds iff `pos + f` fits and `size >= 2 * f` on both components; the result is `(pos + f, size - 2f)`; on failure the panic is an add overflow if `pos + f` overflows, else a subtract overflow |
| Vectors.ShrinkCentered | src/vec2.rs:170-177 | the in-place steps (`pos += f`, `size -= f`, `size -= f`) evaluate to `Shrunk` |
| Vectors.ShrinkByZero | src/vec2.rs:170-177 | `shrink_centered(ZERO)` leaves the rectangle unchanged |
| Vectors.ShrinkKeepsCentreInside | src/vec2.rs:170-177 | the shrunk rectangle has the same centre and lies inside the original |
| Vectors.ShrinkThenGrow | src/vec2.rs:170-177 | `pos - f` and `size + f + f` restore the original rectangle |
| Cli.FindFirst | src/main.rs:54 | finds the first `'x'`: the found position holds `'x'` and none comes before it; none is found iff there is no `'x'` |
| Cli.SplitOnce | src/main.rs:54 | `split_once('x')` gives `l`, `r` with `s == l + "x" + r` and no `'x'` in `l`, or nothing iff `s` has no `'x'` |
| Cli.SplitOnceUnique | src/main.rs:54 | for `l` without `'x'`, `split_once` of `l + "x" + r` is `(l, r)` |
| Cli.Accumulate | src/main.rs:55 | the checked digit loop of `parse::<usize>` succeeds only on a run of digits, never above the type's maximum; see AccumulateChecked |
| Cli.ParseUsize | src/main.rs:55 | `parse::<usize>` succeeds only on an optional `'+'` and a numeral, with a value at most `usize::MAX`; see ParseUsizeAccepts, ParseUsizeDecimal |
| Cli.AccumulateChecked | src/main.rs:55 | the checked digit loop succeeds iff every character is a digit and the value fits, and then yields that value |
| Cli.ParseUsizeAccepts | src/main.rs:55 | `parse::<usize>` accepts exactly an optional `'+'` followed by a numeral of value at most `usize::MAX`, and yields that value |
| Cli.DecimalString | src/main.rs:53-56 | the decimal form of a number is a non-empty string of digits |
| Cli.DecimalStringValue | src/main.rs:53-56 | the decimal digits of `n` read back as `n` |
| Cli.ParseUsizeDecimal | src/main.rs:55 | `parse::<usize>` of the decimal form of any `usize` gives it back |
| Cli.ParseVec2 | src/main.rs:53-63 | splits at the first `'x'` and parses each side as a `usize`: every error is `Expects inputs like "4x4"`, an input without `'x'` is an error, an accepted size fits in `usize`; see ParseFormatRoundTrip, ParseRejectsMissingX, ParseRejectsSecondX, ParseRejectsBadSide |
| Cli.ParseFormatRoundTrip | src/main.rs:53-56 | `parse_vec2(format!("{w}x{h}")) == Ok(Vec2::new(w, h))` for every pair of `usize` |
| Cli.ParseErrorIsFixed | src/main.rs:53-63 | every rejection carries the same text, `Expects inputs like "4x4"` |
| Cli.ParseRejectsMissingX | src/main.rs:54-62 | an input without `'x'` is rejected |
| Cli.ParseAcceptedHasOneX | src/main.rs:54-56 | an accepted input contains exactly one `'x'` |
| Cli.ParseRejectsSecondX | src/main.rs:54-58 | because the split is at the first `'x'`, a second `'x'` makes the input rejected |
| Cli.ParseRejectsBadSide | src/main.rs:55-58 | a side that is empty or not a numeral (after one optional `'+'`) makes the input rejected |
| Cli.ParseAcceptsExamples | src/main.rs:53-56 | `"4x4"` and `"+4x04"` both parse to `(4, 4)` |
| Cli.ParseRejectsThreeParts | src/main.rs:54-58 | `"4x4x4"` is rejected |
| Cli.ParseRejectsBadSideExamples | src/main.rs:55-58 | `"x4"`, `"ax4"` and `"4x"` are rejected |
| Cli.Any | src/main.rs:35 | `Iterator::any` holds iff some item satisfies the predicate |
| Cli.HasZeroComponent | src/main.rs:35 | `tile_size.into_iter().any(\|v\| v == 0)` holds iff x or y is zero; see AnyItems, TileSizeCheck |
| Cli.AnyItems | src/main.rs:35 | `any` over a vector's items is `p(x) \|\| p(y)` |
| Cli.TileSizeCheck | src/main.rs:35-38 | a tile size passes iff both components are at least 1, i.e. iff its area is positive |
| Cli.Main | src/main.rs:27-51 | the template is loaded iff no tile component is zero, and what is saved is the loaded template and only when the save reports no error; see MainChecksTileSizeFirst, MainSavesTemplate |
| Cli.MainChecksTileSizeFirst | src/main.rs:35-40 | the template is loaded iff both tile components are at least 1; otherwise the run ends with "Tile size must be at least 1x1" and saves nothing |
| Cli.MainSavesTemplate | src/main.rs:40-50 | something is saved iff the tile size is valid and the load and save both succeed; what is saved is the loaded template, unchanged, and only then is "Successfully created mosaic!" printed |

## Left out

- Image decoding and encoding (`load_image`, `template.save`) are file I/O through the `image` crate. `Main` takes their outcomes as parameters, and each error is taken as its display text.
- Argument parsing through `argh` (`Command`, `argh::from_env`) is foreign library code. `Main` starts from the parsed tile size. How `argh` reports a `parse_vec2` error is not modelled.
- Terminal colours (`crossterm`'s `red`/`green`) are presentation only. The messages are modelled and their colour is not.
- A tile matcher or mosaic assembly does not exist in the code. `let temp = 0;` is a placeholder and the template is saved unchanged.
- Release-build integer semantics (wrap-around on overflow) are not modelled. Every operator follows the debug build, where overflow panics.
- A panic is modelled as a returned value. Unwinding and the state a caught panic leaves behind are not modelled, apart from the partial update stated by `MutVec2.Update`.
- Vectors.Map: a closure passed to `map`, `map_x`, `map_y` or `join` is a pure Dafny function. A stateful `FnMut` closure, which could observe that x is visited before y, is not modelled.
- Generic operator output types (`T: Add<U, Output = O>` with distinct `T`, `U`, `O`) are instantiated as one unsigned element type per operation.
- `usize` is taken to be 64 bits. A 32-bit target would change `USIZE_MAX` and nothing else.
- The distinct `ParseIntError` kinds (empty, invalid digit, overflow) are collapsed into a failed parse. `parse_vec2` maps all of them to the same message.
