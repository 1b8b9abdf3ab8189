/** Values shared by every kernel model: the error taxonomy, Option/Result,
    the dtypes the engines name, Python-style indexing and small folds. */
module Common {

  /** The exception kinds the kernels raise, by the class the code names. */
  datatype Error =
    | IvyException          // ivy.utils.exceptions.IvyException (rank mismatch, assignment)
    | IvyValueError         // ivy.utils.exceptions.IvyValueError (fft / stft validation)
    | IvyNotImplemented     // IvyNotImplementedException (unsupported-primitive stubs)
    | NotImplemented        // Python's NotImplementedError (dilated max pooling)
    | ValueError
    | TypeError
    | IndexError
    | KeyError
    | AssertionError
    | AttributeError
    | ZeroDivisionError
    | BroadcastError        // operands whose shapes the engine cannot broadcast
    | NativeError           // a native call whose failure the model does not refine

  datatype Option<+T> = None | Some(value: T)

  datatype Result<+T> = Ok(value: T) | Err(error: Error) {
    predicate IsFailure() { Err? }
    function PropagateFailure<U>(): Result<U> requires Err? { Err(error) }
    function Extract(): T requires Ok? { value }
  }

  /** The element types the backends distinguish. */
  datatype DType =
    | Bool
    | Int8 | Int16 | Int32 | Int64
    | UInt8 | UInt16 | UInt32 | UInt64
    | Float16 | BFloat16 | Float32 | Float64
    | Complex64 | Complex128

  /** `"uint" in str(dtype)` */
  predicate IsUnsigned(d: DType) { d.UInt8? || d.UInt16? || d.UInt32? || d.UInt64? }

  /** `"int" in str(dtype)` for a dtype that is not unsigned */
  predicate IsSigned(d: DType) { d.Int8? || d.Int16? || d.Int32? || d.Int64? }

  /** `"float" in str(dtype) or "complex" in str(dtype)` (bfloat16 contains "float") */
  predicate IsFloatOrComplex(d: DType) {
    d.Float16? || d.BFloat16? || d.Float32? || d.Float64? || d.Complex64? || d.Complex128?
  }

  /** `iinfo(d).max` */
  function IntMax(d: DType): (m: int)
    requires IsSigned(d) || IsUnsigned(d)
    ensures m > 0
  {
    match d
    case Int8 => 0x7F
    case Int16 => 0x7FFF
    case Int32 => 0x7FFF_FFFF
    case Int64 => 0x7FFF_FFFF_FFFF_FFFF
    case UInt8 => 0xFF
    case UInt16 => 0xFFFF
    case UInt32 => 0xFFFF_FFFF
    case UInt64 => 0xFFFF_FFFF_FFFF_FFFF
  }

  /** `iinfo(d).min` */
  function IntMin(d: DType): (m: int)
    requires IsSigned(d) || IsUnsigned(d)
    ensures m <= 0
  {
    match d
    case Int8 => -0x80
    case Int16 => -0x8000
    case Int32 => -0x8000_0000
    case Int64 => -0x8000_0000_0000_0000
    case UInt8 => 0
    case UInt16 => 0
    case UInt32 => 0
    case UInt64 => 0
  }

  /** A scalar element of a tensor: an integer, a real, or the floating NaN. */
  datatype Scalar = IntVal(i: int) | RealVal(r: real) | NaN

  /** Python indexing `s[i]`: negative indices count from the end, anything
      outside [-|s|, |s|) raises IndexError. */
  function PyIndex<T>(s: seq<T>, i: int): (r: Result<T>)
    ensures r.Ok? <==> -|s| <= i < |s|
    ensures 0 <= i < |s| ==> r == Ok(s[i])
    ensures -|s| <= i < 0 ==> r == Ok(s[|s| + i])
  {
    if 0 <= i < |s| then Ok(s[i])
    else if -|s| <= i < 0 then Ok(s[|s| + i])
    else Err(IndexError)
  }

  function Sum(s: seq<real>): real
  {
    if s == [] then 0.0 else Sum(s[..|s| - 1]) + s[|s| - 1]
  }

  function SumInt(s: seq<int>): int
  {
    if s == [] then 0 else SumInt(s[..|s| - 1]) + s[|s| - 1]
  }

  /** The product of a shape, `prod(shape)` (1 for a 0-d shape). */
  function Prod(s: seq<int>): int
  {
    if s == [] then 1 else s[0] * Prod(s[1..])
  }

  lemma ProdNonNeg(s: seq<int>)
    requires forall i :: 0 <= i < |s| ==> s[i] >= 0
    ensures Prod(s) >= 0
  {
    if s != [] { ProdNonNeg(s[1..]); }
  }

  lemma {:induction false} ProdAppend(s: seq<int>, t: seq<int>)
    ensures Prod(s + t) == Prod(s) * Prod(t)
  {
    if s == [] {
      assert s + t == t;
    } else {
      assert (s + t)[1..] == s[1..] + t;
      ProdAppend(s[1..], t);
    }
  }

  lemma {:induction false} SumAppend(s: seq<real>, t: seq<real>)
    ensures Sum(s + t) == Sum(s) + Sum(t)
  {
    if t == [] {
      assert s + t == s;
    } else {
      assert (s + t)[..|s + t| - 1] == s + t[..|t| - 1];
      SumAppend(s, t[..|t| - 1]);
    }
  }

  lemma {:induction false} SumIntAppend(s: seq<int>, t: seq<int>)
    ensures SumInt(s + t) == SumInt(s) + SumInt(t)
  {
    if t == [] {
      assert s + t == s;
    } else {
      assert (s + t)[..|s + t| - 1] == s + t[..|t| - 1];
      SumIntAppend(s, t[..|t| - 1]);
    }
  }

  /** `[x] * n` */
  function Repeat<T>(x: T, n: nat): (r: seq<T>)
    ensures |r| == n && forall i :: 0 <= i < n ==> r[i] == x
  {
    seq(n, _ => x)
  }

  /** Python's `s * n` on a list: n copies of s, one after another. */
  function RepeatList<T>(s: seq<T>, n: nat): (r: seq<T>)
    ensures |r| == |s| * n
  {
    if n == 0 then [] else s + RepeatList(s, n - 1)
  }

  lemma {:induction false} RepeatListAt<T>(s: seq<T>, n: nat, i: int)
    requires 0 <= i < |s| * n
    ensures |s| > 0 && RepeatList(s, n)[i] == s[i % |s|]
  {
    var m := |s|;
    assert m > 0 && n > 0 && m * n == m * (n - 1) + m;
    assert RepeatList(s, n) == s + RepeatList(s, n - 1);
    if i >= m {
      RepeatListAt(s, n - 1, i - m);
      DivModUnique(i, m, (i - m) / m + 1, (i - m) % m);
    } else {
      ModOfSmall(i, m);
    }
  }

  /** `s[::-1]` */
  function Reverse<T>(s: seq<T>): (r: seq<T>)
    ensures |r| == |s| && forall i :: 0 <= i < |s| ==> r[i] == s[|s| - 1 - i]
  {
    seq(|s|, i requires 0 <= i < |s| => s[|s| - 1 - i])
  }

  lemma ReverseAppend<T>(a: seq<T>, b: seq<T>)
    ensures Reverse(a + b) == Reverse(b) + Reverse(a)
  {
    assert forall i :: 0 <= i < |a| + |b| ==> Reverse(a + b)[i] == (Reverse(b) + Reverse(a))[i];
  }

  lemma ReverseReverse<T>(s: seq<T>)
    ensures Reverse(Reverse(s)) == s
  {
  }

  /** `range(n)` as a sequence. */
  function Range(n: nat): (r: seq<int>)
    ensures |r| == n && forall i :: 0 <= i < n ==> r[i] == i
  {
    seq(n, i => i)
  }

  /** Python's `a // b` for b > 0 (floor division; equal to Dafny's Euclidean
      division when the divisor is positive). */
  function FloorDiv(a: int, b: int): int
    requires b > 0
  {
    a / b
  }

  const HALF32: int := 0x8000_0000
  const HALF64: int := 0x8000_0000_0000_0000

  /** The value a two's-complement integer holds after a truncating cast to
      a width whose range is [-half, half) (`tf.cast(x, tf.int32)`,
      `x.cast("int64")`). */
  function WrapSigned(x: int, half: int): (r: int)
    requires half > 0
    ensures -half <= r < half
    ensures -half <= x < half ==> r == x
  {
    var m := (x + half) % (2 * half);
    if -half <= x < half then
      assert m == x + half by { ModOfSmall(x + half, 2 * half); }
      m - half
    else
      m - half
  }

  lemma ModOfSmall(a: int, d: int)
    requires 0 <= a < d
    ensures a % d == a
  {
  }

  /** Euclidean division is determined by quotient and remainder. */
  lemma {:induction false} DivModUnique(j: int, d: int, q: int, m: int)
    requires d > 0 && 0 <= m < d && j == q * d + m
    ensures j / d == q && j % d == m
  {
    var k := q - j / d;
    assert j == (j / d) * d + j % d;
    assert k * d == j % d - m;
    if k >= 1 {
      MulMono(1, k, d);
    } else if k <= -1 {
      MulMono(k, -1, d);
    }
  }

  lemma {:induction false} MulMono(a: int, b: int, d: int)
    requires a <= b && d >= 0
    ensures a * d <= b * d
    decreases b - a
  {
    if a < b {
      MulMono(a, b - 1, d);
      assert b * d == (b - 1) * d + d;
    }
  }

  function Min(a: int, b: int): int { if a <= b then a else b }
  function Max(a: int, b: int): int { if a >= b then a else b }
  function AbsR(x: real): real { if x < 0.0 then -x else x }
}
