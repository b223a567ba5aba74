/** Small value types shared by the whole model: the source's NULL returns become
    `None` or an `Err` carrying the reason the operation refused to proceed. */
module Common {

  datatype Option<T> = None | Some(value: T)

  /** Why a tensor or graph operation produced no result. */
  datatype Error =
    | ShapeMismatch   // operand extents are not broadcast- or matmul-compatible
    | RankTooLarge    // more than four extents were given
    | BadAxis         // a reduction axis outside 0..3
    | Unimplemented   // the doubly-transposed multiply has no kernel

  datatype Result<T> = Ok(value: T) | Err(error: Error)

  function Min(x: int, y: int): int { if x <= y then x else y }
  function Max(x: int, y: int): int { if x >= y then x else y }

  /** Quotient and remainder are determined by any decomposition with a
      remainder in range. */
  lemma ModUnique(x: int, d: int, a: int, b: int)
    requires d > 0 && 0 <= b < d && x == d * a + b
    ensures x % d == b && x / d == a
  {
    var a', b' := x / d, x % d;
    assert d * (a - a') == b' - b;
    MulFarFromZero(d, a - a');
  }

  lemma MulFarFromZero(d: int, k: int)
    requires d > 0
    ensures k >= 1 ==> d * k >= d
    ensures k <= -1 ==> d * k <= -d
  {
  }

  lemma MulLeMono(a: nat, b: nat, c: nat)
    requires a <= b
    ensures a * c <= b * c
  {
  }

  /** Dropping the first element of a concatenation whose left part is
      non-empty drops it from the left part. */
  lemma ConcatTail<T>(a: seq<T>, b: seq<T>)
    requires a != []
    ensures (a + b)[1..] == a[1..] + b
  {
  }

  /** Dropping the first element of an updated sequence. */
  lemma UpdateTail<T>(x: seq<T>, i: nat, v: T)
    requires i < |x|
    ensures i == 0 ==> x[i := v][1..] == x[1..]
    ensures i > 0 ==> x[i := v][1..] == x[1..][i - 1 := v]
  {
  }

  /** A non-empty sequence is its first element and the rest. */
  lemma HeadSplit<T>(x: seq<T>)
    requires x != []
    ensures x == [x[0]] + x[1..]
  {
  }

  /** A non-empty sequence is its prefix and its last element. */
  lemma LastSplit<T>(x: seq<T>)
    requires x != []
    ensures x == x[..|x| - 1] + [x[|x| - 1]]
  {
  }

  /** Replacing the last element keeps the prefix. */
  lemma UpdateLast<T>(x: seq<T>, v: T)
    requires x != []
    ensures x[|x| - 1 := v] == x[..|x| - 1] + [v]
  {
  }

  lemma MulAssoc(a: nat, b: nat, c: nat)
    ensures (a * b) * c == a * (b * c)
  {
  }

  /** Scaling a row-major position by one more extent. */
  lemma RowDistrib(a: nat, p: nat, l: nat, y: nat)
    ensures a * (p * y) + l * y == (a * p + l) * y
  {
  }

  /** An updated element between its prefix and suffix. */
  lemma UpdateSplit<T>(x: seq<T>, i: nat, v: T)
    requires i < |x|
    ensures x[i := v] == x[..i] + [v] + x[i + 1..]
  {
  }

  lemma ConcatParts<T>(a: seq<T>, b: seq<T>)
    ensures (a + b)[..|a|] == a && (a + b)[|a|..] == b
  {
  }

  lemma UpdatePastPrefix<T>(x: seq<T>, i: nat, v: T, n: nat)
    requires n <= i < |x|
    ensures |x[i := v]| == |x| && x[i := v][..n] == x[..n]
  {
  }

  lemma UpdateSame<T>(x: seq<T>, i: nat)
    requires i < |x|
    ensures x[i := x[i]] == x
  {
  }

  lemma UpdateTwice<T>(x: seq<T>, i: nat, v: T, w: T)
    requires i < |x|
    ensures x[i := v][i := w] == x[i := w]
  {
  }

  lemma PrefixSnoc<T>(x: seq<T>, i: nat)
    requires i < |x|
    ensures x[..i + 1] == x[..i] + [x[i]]
  {
  }

  lemma ConsParts<T>(x: T, y: seq<T>)
    ensures ([x] + y)[0] == x && ([x] + y)[1..] == y
  {
  }

  lemma AppendPair<T>(a: seq<T>, x: T, y: T)
    ensures a + [x, y] == (a + [x]) + [y]
  {
  }

  lemma WholeSlice<T>(x: seq<T>)
    ensures x[..|x|] == x && x[|x|..] == []
  {
  }

  lemma PrefixSuffix<T>(x: seq<T>, i: nat)
    requires i <= |x|
    ensures x == x[..i] + x[i..]
  {
  }

  /** `a` rows and then `d` more rows of width `c`. */
  lemma MulSplit(a: nat, d: nat, c: nat)
    ensures a * c + d * c == (a + d) * c
  {
  }

  /** One more row of width `c`. */
  lemma MulSucc(a: nat, c: nat)
    ensures (a + 1) * c == a * c + c
  {
  }

  /** Row `a` of `n` rows of width `q`, at column `l`, lies inside the block. */
  lemma RowBound(a: nat, n: nat, q: nat, l: nat)
    requires a < n && l < q
    ensures a * q + l < n * q
  {
    MulLeMono(a + 1, n, q);
  }
}
