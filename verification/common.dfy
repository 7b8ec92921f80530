/**
  Small shared vocabulary: JavaScript's `null`/`undefined` as `Option`, a
  thrown error as `Result`, and the `Math.max(lo, Math.min(hi, v))` clamp
  the editor uses everywhere.
 */
module Common {

  /** A value that may be `null` in the source. */
  datatype Option<+T> = None | Some(value: T) {
    function GetOr(default: T): T {
      match this
      case Some(v) => v
      case None => default
    }
  }

  /** The outcome of an operation that may throw. */
  datatype Result<+T, +E> = Ok(value: T) | Err(error: E)

  /** `Math.max(lo, Math.min(hi, v))` on integers. */
  function Clamp(v: int, lo: int, hi: int): (r: int)
    requires lo <= hi
    ensures lo <= r <= hi
    ensures lo <= v <= hi ==> r == v
    ensures v < lo ==> r == lo
    ensures hi < v ==> r == hi
  {
    if v < lo then lo else if hi < v then hi else v
  }

  /** `Math.max(lo, Math.min(hi, v))` on reals. */
  function ClampReal(v: real, lo: real, hi: real): (r: real)
    requires lo <= hi
    ensures lo <= r <= hi
    ensures lo <= v <= hi ==> r == v
    ensures v < lo ==> r == lo
    ensures hi < v ==> r == hi
  {
    if v < lo then lo else if hi < v then hi else v
  }

  /**
    `parseInt(text) || d`: the parse result is `None` for NaN; both NaN and
    a parsed 0 are falsy and give the default.
   */
  function IntOr(parsed: Option<int>, d: int): (r: int)
    ensures parsed == None ==> r == d
    ensures parsed == Some(0) ==> r == d
    ensures parsed.Some? && parsed.value != 0 ==> r == parsed.value
  {
    match parsed
    case Some(v) => if v != 0 then v else d
    case None => d
  }

  /** `parseFloat(text) || d`, with the same falsy rule as `IntOr`. */
  function RealOr(parsed: Option<real>, d: real): (r: real)
    ensures parsed == None ==> r == d
    ensures parsed == Some(0.0) ==> r == d
    ensures parsed.Some? && parsed.value != 0.0 ==> r == parsed.value
  {
    match parsed
    case Some(v) => if v != 0.0 then v else d
    case None => d
  }

  /** The `k`-th element of `a + b` past `a` is an element of `b`. */
  lemma ConcatIndex<T>(a: seq<T>, b: seq<T>, k: nat)
    requires |a| <= k < |a| + |b|
    ensures (a + b)[k] == b[k - |a|]
  {
  }

  lemma ConcatAssoc<T>(a: seq<T>, b: seq<T>, c: seq<T>)
    ensures a + (b + c) == (a + b) + c
  {
  }

  /** The elements `f` gives for each element of `xs`, in order. */
  function FlatMap<A, B>(f: A -> seq<B>, xs: seq<A>): seq<B> {
    if |xs| == 0 then [] else f(xs[0]) + FlatMap(f, xs[1..])
  }

  /** Mapping a concatenation concatenates the results. */
  lemma {:induction false} FlatMapConcat<A, B>(f: A -> seq<B>, x: seq<A>, y: seq<A>)
    ensures FlatMap(f, x + y) == FlatMap(f, x) + FlatMap(f, y)
  {
    if |x| > 0 {
      assert (x + y)[0] == x[0];
      assert (x + y)[1..] == x[1..] + y;
      FlatMapConcat(f, x[1..], y);
      ConcatAssoc(f(x[0]), FlatMap(f, x[1..]), FlatMap(f, y));
    } else {
      assert x + y == y;
    }
  }

  /** Every element given for `xs[i]` is in the result, at place `k`. */
  lemma {:induction false} FlatMapKeeps<A, B>(f: A -> seq<B>, xs: seq<A>, i: nat, m: nat) returns (k: nat)
    requires i < |xs| && m < |f(xs[i])|
    ensures k < |FlatMap(f, xs)| && FlatMap(f, xs)[k] == f(xs[i])[m]
  {
    var head := f(xs[0]);
    var rest := FlatMap(f, xs[1..]);
    if i == 0 {
      k := m;
    } else {
      assert xs[1..][i - 1] == xs[i];
      var j := FlatMapKeeps(f, xs[1..], i - 1, m);
      ConcatIndex(head, rest, |head| + j);
      k := |head| + j;
    }
  }

  /** Every element of the result is the `m`-th element given for some `xs[i]`. */
  lemma {:induction false} FlatMapSource<A, B>(f: A -> seq<B>, xs: seq<A>, k: nat) returns (i: nat, m: nat)
    requires k < |FlatMap(f, xs)|
    ensures i < |xs| && m < |f(xs[i])| && FlatMap(f, xs)[k] == f(xs[i])[m]
  {
    var head := f(xs[0]);
    var rest := FlatMap(f, xs[1..]);
    if k < |head| {
      i, m := 0, k;
    } else {
      var j, n := FlatMapSource(f, xs[1..], k - |head|);
      ConcatIndex(head, rest, k);
      assert xs[1..][j] == xs[j + 1];
      i, m := j + 1, n;
    }
  }

  /** When each element gives at most one, the result is no longer than the input. */
  lemma {:induction false} FlatMapShrinks<A, B>(f: A -> seq<B>, xs: seq<A>)
    requires forall i :: 0 <= i < |xs| ==> |f(xs[i])| <= 1
    ensures |FlatMap(f, xs)| <= |xs|
  {
    if |xs| > 0 {
      assert forall i :: 0 <= i < |xs[1..]| ==> xs[1..][i] == xs[i + 1];
      FlatMapShrinks(f, xs[1..]);
    }
  }

  /** When each element gives just itself, the result is the input. */
  lemma {:induction false} FlatMapIdentity<A>(f: A -> seq<A>, xs: seq<A>)
    requires forall i :: 0 <= i < |xs| ==> f(xs[i]) == [xs[i]]
    ensures FlatMap(f, xs) == xs
  {
    if |xs| > 0 {
      assert forall i :: 0 <= i < |xs[1..]| ==> xs[1..][i] == xs[i + 1];
      FlatMapIdentity(f, xs[1..]);
      assert xs == [xs[0]] + xs[1..];
    }
  }
}
