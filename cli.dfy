/**
 * The modelled part of `src/main.rs`: parsing a tile size written `<w>x<h>`
 * (`parse_vec2`, with the `usize` parser it calls), the check that rejects a
 * tile size with a zero component, and the order of the steps `main` takes.
 * Loading and saving images are I/O and arrive here as their outcomes.
 */
module Cli {
  import opened Common
  import opened Scalar
  import opened Vectors

  const ParseErrorMessage: string := "Expects inputs like \"4x4\""
  const TileSizeMessage: string := "Tile size must be at least 1x1"
  const SuccessMessage: string := "Successfully created mosaic!"
  const LoadFailurePrefix: string := "Unable to load template: "
  const SaveFailurePrefix: string := "Unable to save mosaic: "

  // ---------------------------------------------------------------------------
  // `str::split_once`

  /** The position of the first `c` in `s`. */
  function FindFirst(s: string, c: char): (r: Option<nat>)
    ensures r.None? <==> c !in s
    ensures r.Some? ==> r.value < |s| && s[r.value] == c && c !in s[..r.value]
  {
    if |s| == 0 then None
    else if s[0] == c then Some(0)
    else
      match FindFirst(s[1..], c)
      case None => None
      case Some(i) =>
        assert s[1..][..i] == s[1..i + 1];
        Some(i + 1)
  }

  /** `s.split_once(c)`: the text before and after the first `c`. */
  function SplitOnce(s: string, c: char): (r: Option<(string, string)>)
    ensures r.None? <==> c !in s
    ensures r.Some? ==> s == r.value.0 + [c] + r.value.1 && c !in r.value.0
  {
    match FindFirst(s, c)
    case None => None
    case Some(i) =>
      assert s == s[..i] + [c] + s[i + 1..];
      Some((s[..i], s[i + 1..]))
  }

  /** Splitting at the first `c` is the only split whose left part holds no `c`. */
  lemma SplitOnceUnique(l: string, r: string, c: char)
    requires c !in l
    ensures SplitOnce(l + [c] + r, c) == Some((l, r))
  {
    var s := l + [c] + r;
    var i := FindFirst(s, c).value;
    assert s[|l|] == c;
    assert forall k :: 0 <= k < |l| ==> s[k] == l[k];
    assert i == |l|;
    assert s[..i] == l;
    assert s[i + 1..] == r;
  }

  // ---------------------------------------------------------------------------
  // `<usize as FromStr>::from_str`

  predicate IsDigit(c: char) {
    '0' <= c <= '9'
  }

  function DigitValue(c: char): nat
    requires IsDigit(c)
  {
    c as int - '0' as int
  }

  predicate AllDigits(d: string) {
    forall i :: 0 <= i < |d| ==> IsDigit(d[i])
  }

  /** A non-empty run of ASCII decimal digits. */
  predicate IsNumeral(d: string) {
    |d| > 0 && AllDigits(d)
  }

  /** The value of the digits `d` read left to right after the value `acc`. */
  function DigitsFrom(acc: nat, d: string): nat
    requires AllDigits(d)
    decreases |d|
  {
    if |d| == 0 then acc else DigitsFrom(acc * 10 + DigitValue(d[0]), d[1..])
  }

  /** The value of a decimal numeral. */
  function DigitsValue(d: string): nat
    requires AllDigits(d)
  {
    DigitsFrom(0, d)
  }

  /**
   * The digit loop of `from_str_radix`: for each character, `acc * 10` and then
   * `+ digit`, both checked against `max`; a character that is not a decimal
   * digit is an error.
   */
  function Accumulate(acc: nat, d: string, max: nat): (r: Option<nat>)
    ensures r.Some? ==> AllDigits(d)
    ensures r.Some? && acc <= max ==> r.value <= max
    decreases |d|
  {
    if |d| == 0 then Some(acc)
    else if !IsDigit(d[0]) then None
    else if acc * 10 > max then None
    else if acc * 10 + DigitValue(d[0]) > max then None
    else Accumulate(acc * 10 + DigitValue(d[0]), d[1..], max)
  }

  /** What the parser reads as digits: one leading `'+'` is skipped. */
  function Magnitude(s: string): string {
    if |s| > 0 && s[0] == '+' then s[1..] else s
  }

  /**
   * `s.parse::<usize>()`: empty input, a lone sign, a `'-'` (unsigned type), any
   * other non-digit and a value above `usize::MAX` are all errors.
   */
  function ParseUsize(s: string): (r: Option<nat>)
    ensures r.Some? ==> IsNumeral(Magnitude(s)) && r.value <= USIZE_MAX
  {
    if |s| == 0 then None
    else if (s[0] == '+' || s[0] == '-') && |s| == 1 then None
    else Accumulate(0, Magnitude(s), USIZE_MAX)
  }

  lemma {:induction false} DigitsFromAtLeast(acc: nat, d: string)
    requires AllDigits(d)
    ensures acc <= DigitsFrom(acc, d)
    ensures |d| > 0 ==> acc * 10 + DigitValue(d[0]) <= DigitsFrom(acc, d)
    decreases |d|
  {
    if |d| > 0 {
      DigitsFromAtLeast(acc * 10 + DigitValue(d[0]), d[1..]);
    }
  }

  /** The checked digit loop succeeds exactly when all characters are digits and the value fits. */
  lemma {:induction false} AccumulateChecked(acc: nat, d: string, max: nat)
    requires acc <= max
    ensures Accumulate(acc, d, max).Some? <==> AllDigits(d) && DigitsFrom(acc, d) <= max
    ensures Accumulate(acc, d, max).Some? ==> Accumulate(acc, d, max).value == DigitsFrom(acc, d)
    decreases |d|
  {
    if |d| > 0 && IsDigit(d[0]) {
      var next := acc * 10 + DigitValue(d[0]);
      if AllDigits(d) {
        DigitsFromAtLeast(acc, d);
      }
      if next <= max {
        AccumulateChecked(next, d[1..], max);
        assert AllDigits(d) <==> AllDigits(d[1..]) by {
          if AllDigits(d[1..]) {
            forall i | 0 <= i < |d| ensures IsDigit(d[i]) {
              if i > 0 { assert d[i] == d[1..][i - 1]; }
            }
          }
        }
      }
    }
  }

  /** `parse::<usize>` accepts exactly an optional `'+'` and a numeral of value at most `usize::MAX`. */
  lemma ParseUsizeAccepts(s: string)
    ensures ParseUsize(s).Some? <==> IsNumeral(Magnitude(s)) && DigitsValue(Magnitude(s)) <= USIZE_MAX
    ensures ParseUsize(s).Some? ==> ParseUsize(s).value == DigitsValue(Magnitude(s))
  {
    AccumulateChecked(0, Magnitude(s), USIZE_MAX);
  }

  /** `{}` formatting of an unsigned integer: its decimal digits, most significant first. */
  function DecimalString(n: nat): (d: string)
    ensures IsNumeral(d)
    decreases n
  {
    if n < 10 then [('0' as int + n) as char]
    else
      var high, low := DecimalString(n / 10), ('0' as int + n % 10) as char;
      assert forall i :: 0 <= i < |high| ==> (high + [low])[i] == high[i];
      high + [low]
  }

  lemma {:induction false} DigitsFromSnoc(acc: nat, d: string, c: char)
    requires AllDigits(d) && IsDigit(c)
    ensures AllDigits(d + [c])
    ensures DigitsFrom(acc, d + [c]) == DigitsFrom(acc, d) * 10 + DigitValue(c)
    decreases |d|
  {
    if |d| > 0 {
      assert (d + [c])[1..] == d[1..] + [c];
      DigitsFromSnoc(acc * 10 + DigitValue(d[0]), d[1..], c);
    }
  }

  /** Reading back the decimal digits of `n` gives `n`. */
  lemma {:induction false} DecimalStringValue(n: nat)
    ensures DigitsValue(DecimalString(n)) == n
    decreases n
  {
    var low := ('0' as int + n % 10) as char;
    if n < 10 {
      assert DecimalString(n) == [low];
      assert DigitsFrom(0, [low]) == DigitsFrom(DigitValue(low), []);
    } else {
      assert DecimalString(n) == DecimalString(n / 10) + [low];
      DecimalStringValue(n / 10);
      DigitsFromSnoc(0, DecimalString(n / 10), low);
    }
  }

  /** The number `parse::<usize>` reads from the decimal digits of any `usize` is that number. */
  lemma ParseUsizeDecimal(n: nat)
    requires n <= USIZE_MAX
    ensures ParseUsize(DecimalString(n)) == Some(n)
  {
    var d := DecimalString(n);
    assert d[0] != '+' && d[0] != '-' by { assert IsDigit(d[0]); }
    assert Magnitude(d) == d;
    DecimalStringValue(n);
    ParseUsizeAccepts(d);
  }

  // ---------------------------------------------------------------------------
  // `parse_vec2`

  /** `parse_vec2`: `<w>x<h>`, split at the first `'x'`, each side a `usize`. */
  function ParseVec2(s: string): (r: Result<Vec2<nat>, string>)
    ensures r.Err? ==> r.error == ParseErrorMessage
    ensures 'x' !in s ==> r.Err?
    ensures r.Ok? ==> Fits(r.value, USIZE_MAX)
  {
    match SplitOnce(s, 'x')
    case None => Err(ParseErrorMessage)
    case Some((x, y)) =>
      match (ParseUsize(x), ParseUsize(y))
      case (Some(w), Some(h)) => Ok(New(w, h))
      case _ => Err(ParseErrorMessage)
  }

  /** The form a user types, `format!("{w}x{h}")`. */
  function FormatVec2(v: Vec2<nat>): string {
    DecimalString(v.x) + "x" + DecimalString(v.y)
  }

  /** Parsing the formatted size gives the size back. */
  lemma ParseFormatRoundTrip(v: Vec2<nat>)
    requires Fits(v, USIZE_MAX)
    ensures ParseVec2(FormatVec2(v)) == Ok(v)
  {
    var l, r := DecimalString(v.x), DecimalString(v.y);
    NumeralHasNoX(l);
    assert FormatVec2(v) == l + ['x'] + r;
    SplitOnceUnique(l, r, 'x');
    ParseUsizeDecimal(v.x);
    ParseUsizeDecimal(v.y);
  }

  /** Both error paths report the same text. */
  lemma ParseErrorIsFixed(s: string)
    ensures ParseVec2(s).Err? ==> ParseVec2(s).error == ParseErrorMessage
  {
  }

  /** An input without an `'x'` is rejected. */
  lemma ParseRejectsMissingX(s: string)
    requires 'x' !in s
    ensures ParseVec2(s) == Err(ParseErrorMessage)
  {
  }

  /** A numeral side holds no `'x'`, so an accepted input holds exactly one `'x'`. */
  lemma ParseAcceptedHasOneX(s: string)
    requires ParseVec2(s).Ok?
    ensures multiset(s)['x'] == 1
  {
    var (l, r) := SplitOnce(s, 'x').value;
    ParseUsizeAccepts(r);
    NumeralHasNoX(r);
    assert multiset(s) == multiset(l) + multiset{'x'} + multiset(r);
  }

  /** The split is at the first `'x'`: a second `'x'` lands in the right part, which is then no number. */
  lemma ParseRejectsSecondX(l: string, r: string)
    requires 'x' !in l && 'x' in r
    ensures ParseVec2(l + "x" + r) == Err(ParseErrorMessage)
  {
    NumeralHasNoX(r);
    ParseRejectsBadSide(l, r);
  }

  /** A string whose digits (after an optional `'+'`) form a numeral holds no `'x'`. */
  lemma NumeralHasNoX(s: string)
    ensures IsNumeral(Magnitude(s)) ==> 'x' !in s
  {
  }

  /** A side that is empty or holds a non-digit (other than one leading `'+'` on its own) is rejected. */
  lemma ParseRejectsBadSide(l: string, r: string)
    requires 'x' !in l
    requires !IsNumeral(Magnitude(l)) || !IsNumeral(Magnitude(r))
    ensures ParseVec2(l + "x" + r) == Err(ParseErrorMessage)
  {
    SplitOnceUnique(l, r, 'x');
    ParseUsizeAccepts(l);
    ParseUsizeAccepts(r);
  }

  /** `"4x4"` and, since a leading `'+'` and leading zeros are accepted, `"+4x04"`. */
  lemma ParseAcceptsExamples()
    ensures ParseVec2("4x4") == Ok(New(4, 4))
    ensures ParseVec2("+4x04") == Ok(New(4, 4))
  {
  }

  /** `"4x4x4"` is rejected: the right part `"4x4"` is no number. */
  lemma ParseRejectsThreeParts()
    ensures ParseVec2("4x4x4") == Err(ParseErrorMessage)
  {
  }

  /** `"x4"`, `"ax4"` and `"4x"` are rejected: one side is empty or not a number. */
  lemma ParseRejectsBadSideExamples()
    ensures ParseVec2("x4") == Err(ParseErrorMessage)
    ensures ParseVec2("ax4") == Err(ParseErrorMessage)
    ensures ParseVec2("4x") == Err(ParseErrorMessage)
  {
  }

  // ---------------------------------------------------------------------------
  // The tile-size check and `main`

  /** `Iterator::any`: some item, looked at from the front, satisfies `p`. */
  predicate Any<T>(s: seq<T>, p: T -> bool)
    ensures Any(s, p) <==> exists i :: 0 <= i < |s| && p(s[i])
  {
    |s| > 0 && (p(s[0]) || Any(s[1..], p))
  }

  /** `tile_size.into_iter().any(|v| v == 0)` */
  predicate HasZeroComponent(v: Vec2<nat>)
    ensures HasZeroComponent(v) <==> v.x == 0 || v.y == 0
  {
    AnyItems(v, (c: nat) => c == 0);
    Any(Items(v), (c: nat) => c == 0)
  }

  /** `any` over the two items is a disjunction over x and y. */
  lemma {:induction false} AnyItems<T>(v: Vec2<T>, p: T -> bool)
    ensures Any(Items(v), p) <==> p(v.x) || p(v.y)
  {
    var s := Items(v);
    assert s[1..] == [v.y] && s[1..][1..] == [];
    assert Any(s, p) <==> p(v.x) || Any([v.y], p);
    assert Any([v.y], p) <==> p(v.y) || Any([], p);
  }

  /** A tile size passes the check exactly when both components are at least 1, i.e. its area is positive. */
  lemma TileSizeCheck(v: Vec2<nat>)
    ensures !HasZeroComponent(v) <==> v.x >= 1 && v.y >= 1
    ensures Area(v, USIZE_MAX).Value? ==> (!HasZeroComponent(v) <==> Area(v, USIZE_MAX).value >= 1)
  {
    AnyItems(v, (c: nat) => c == 0);
    if Area(v, USIZE_MAX).Value? {
      AreaZeroIffSideZero(v, USIZE_MAX);
    }
  }

  /** What a run of `main` shows and does: its message, whether it loaded the template, and what it saved. */
  datatype Report<Image> = Report(message: string, loadAttempted: bool, saved: Option<Image>)

  /**
   * `main` after argument parsing: the tile-size check, then loading the template
   * (whose outcome is `template`), then saving it to the output path (whose error,
   * if any, is `saveError`). The template is saved as loaded.
   */
  function Main<Image>(tileSize: Vec2<nat>, template: Result<Image, string>, saveError: Option<string>): (r: Report<Image>)
    ensures !r.loadAttempted <==> tileSize.x == 0 || tileSize.y == 0
    ensures r.saved.Some? ==> template == Ok(r.saved.value) && saveError.None?
  {
    if HasZeroComponent(tileSize) then
      Report(TileSizeMessage, false, None)
    else
      match template
      case Err(e) => Report(LoadFailurePrefix + e, true, None)
      case Ok(image) =>
        match saveError
        case Some(e) => Report(SaveFailurePrefix + e, true, None)
        case None => Report(SuccessMessage, true, Some(image))
  }

  /** A zero tile component stops the run before any image is loaded and nothing is saved. */
  lemma MainChecksTileSizeFirst<Image>(tileSize: Vec2<nat>, template: Result<Image, string>, saveError: Option<string>)
    ensures var r := Main(tileSize, template, saveError);
      (r.loadAttempted <==> tileSize.x >= 1 && tileSize.y >= 1) &&
      (!r.loadAttempted ==> r.message == TileSizeMessage && r.saved == None)
  {
    TileSizeCheck(tileSize);
  }

  /** Something is saved exactly when the size is valid and both I/O steps succeed; it is the template, unchanged. */
  lemma MainSavesTemplate<Image>(tileSize: Vec2<nat>, template: Result<Image, string>, saveError: Option<string>)
    ensures var r := Main(tileSize, template, saveError);
      (r.saved.Some? <==> tileSize.x >= 1 && tileSize.y >= 1 && template.Ok? && saveError.None?) &&
      (r.saved.Some? ==> r.saved.value == template.value && r.message == SuccessMessage) &&
      (r.saved.None? ==> r.message != SuccessMessage)
  {
    TileSizeCheck(tileSize);
    if template.Err? {
      assert (LoadFailurePrefix + template.error)[0] != SuccessMessage[0];
    } else if saveError.Some? {
      assert (SaveFailurePrefix + saveError.value)[0] != SuccessMessage[0];
    }
  }
}
