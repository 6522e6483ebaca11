/** Values that cross the data layer: the dynamic `interface{}` values held in
    column maps, Go errors, and the Option/Result wrappers used for error returns. */
module Values {

  datatype Option<+T> = None | Some(value: T)

  /** A Go `error` as the data layer sees it. */
  datatype Error =
    | Plain(text: string)                            // errors.New, fmt.Errorf, a driver or parse error
    | Converted(code: string, cause: Option<Error>)  // an error tagged with a message code by the use-case layer

  datatype Result<+T> = Success(value: T) | Failure(error: Error)

  /** A value stored in an `interface{}` slot of a column map.
      `Nil` is the untyped nil interface; a typed pointer (`*string`, `*time.Time`)
      is `Ptr`, which is not nil as an interface even when the pointer is nil. */
  datatype Value =
    | Nil
    | Str(s: string)
    | Int(i: int)
    | Bool(b: bool)
    | Float(x: real)           // a float64, only compared with zero and passed through
    | Time(t: string)          // a time.Time, by its text
    | Ptr(target: Option<Value>)
    | Strings(items: seq<string>)

  /** A column (or parameter) name to value map. */
  type Params = map<string, Value>

  /** A Go `int` on a 64-bit platform. */
  const MinInt64: int := -0x8000_0000_0000_0000
  const MaxInt64: int := 0x7fff_ffff_ffff_ffff
  type Int64 = x: int | MinInt64 <= x <= MaxInt64

  /** Two's-complement wrap-around of a Go `int` sum: `x` moved by 2^64 at a
      time into the 64-bit range (`WrapIsCongruent` states what it is). */
  function WrapInt64(x: int): (r: Int64)
    ensures MinInt64 <= x <= MaxInt64 ==> r == x
    decreases if x > MaxInt64 then x - MaxInt64 else if x < MinInt64 then MinInt64 - x else 0
  {
    if x > MaxInt64 then WrapInt64(x - 0x1_0000_0000_0000_0000)
    else if x < MinInt64 then WrapInt64(x + 0x1_0000_0000_0000_0000)
    else x
  }

  /** The wrapped value is the one 64-bit value that differs from `x` by a
      multiple of 2^64. */
  lemma {:induction false} WrapIsCongruent(x: int, y: Int64)
    ensures (x - WrapInt64(x)) % 0x1_0000_0000_0000_0000 == 0
    ensures (x - y) % 0x1_0000_0000_0000_0000 == 0 ==> y == WrapInt64(x)
  {
    WrapDiffers(x);
    var m := 0x1_0000_0000_0000_0000;
    if (x - y) % m == 0 {
      var w := WrapInt64(x);
      var p, q := (x - w) / m, (x - y) / m;
      assert x - w == m * p && x - y == m * q;
      assert y - w == m * (p - q);
    }
  }

  /** `x` and its wrapped value differ by a multiple of 2^64. */
  lemma {:induction false} WrapDiffers(x: int)
    ensures (x - WrapInt64(x)) % 0x1_0000_0000_0000_0000 == 0
    decreases if x > MaxInt64 then x - MaxInt64 else if x < MinInt64 then MinInt64 - x else 0
  {
    if x > MaxInt64 {
      WrapDiffers(x - 0x1_0000_0000_0000_0000);
    } else if x < MinInt64 {
      WrapDiffers(x + 0x1_0000_0000_0000_0000);
    }
  }

  /** Adding or subtracting one wraps only at the ends of the range, and
      the two steps undo each other on every 64-bit value. */
  lemma WrapStep(x: Int64)
    ensures WrapInt64(x + 1) == if x == MaxInt64 then MinInt64 else x + 1
    ensures WrapInt64(x - 1) == if x == MinInt64 then MaxInt64 else x - 1
    ensures WrapInt64(WrapInt64(x + 1) - 1) == x && WrapInt64(WrapInt64(x - 1) + 1) == x
  {
    if x == MaxInt64 {
      assert WrapInt64(x + 1) == MinInt64;
    }
    if x == MinInt64 {
      assert WrapInt64(x - 1) == MaxInt64;
    }
  }

  /** The decimal digit character for `d`. */
  function DigitChar(d: nat): (c: char)
    requires d < 10
    ensures '0' <= c <= '9' && c as int - '0' as int == d
  {
    ('0' as int + d) as char
  }

  /** The number a text of decimal digits denotes, most significant digit first. */
  function DigitsValue(s: string): int
  {
    if s == [] then 0 else DigitsValue(s[..|s| - 1]) * 10 + (s[|s| - 1] as int - '0' as int)
  }

  /** Decimal text of a natural number, as `%v` prints it: digits that
      denote `n`, with no leading zero. */
  function NatText(n: nat): (r: string)
    ensures |r| > 0
    ensures forall i :: 0 <= i < |r| ==> '0' <= r[i] <= '9'
    ensures DigitsValue(r) == n
    ensures |r| > 1 ==> r[0] != '0'
    decreases n
  {
    if n < 10 then [DigitChar(n)] else NatText(n / 10) + [DigitChar(n % 10)]
  }

  /** The text `fmt.Sprintf("%v", v)` produces, for the kinds of value whose
      rendering the model needs (strings, integers, booleans, nil). */
  function Show(v: Value): string
  {
    match v
    case Nil => "<nil>"
    case Str(s) => s
    case Int(i) => if i < 0 then "-" + NatText(-i) else NatText(i)
    case Bool(b) => if b then "true" else "false"
    case Float(_) => "?"
    case Time(t) => t
    case Ptr(_) => "?"
    case Strings(_) => "?"
  }

  /** The use-case layer's error conversion: a failure is tagged with a
      message code and keeps the original error as its cause; a success
      passes through. */
  function WithCode<T>(code: string, r: Result<T>): Result<T>
  {
    match r
    case Success(v) => Success(v)
    case Failure(e) => Failure(Converted(code, Some(e)))
  }
}
