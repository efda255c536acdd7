/** The arithmetic the shape kernels are generic over.  The C++ kernels are
    templates whose scalar type only needs {construction from a double, +, -, *};
    `Numeric<T>` is that capability set written out as a record of functions,
    and `RealNumeric()` is its instance for plain scalars (double, modelled as
    `real` without rounding). */
module Numerics {

  datatype Numeric<!T> = Numeric(
    lift: real -> T,
    add: (T, T) -> T,
    sub: (T, T) -> T,
    mul: (T, T) -> T)

  /** The instance used by `CalcShape`: the scalars themselves. */
  function RealNumeric(): Numeric<real> {
    Numeric(c => c, (a, b) => a + b, (a, b) => a - b, (a, b) => a * b)
  }

  /** `h` maps T into U compatibly with every operation a kernel may use:
      evaluating with `src` and then applying `h` is the same as applying `h`
      to the inputs and evaluating with `dst`. */
  ghost predicate Homomorphism<T(!new), U>(src: Numeric<T>, dst: Numeric<U>, h: T -> U) {
    (forall c :: h(src.lift(c)) == dst.lift(c))
    && (forall a, b :: h(src.add(a, b)) == dst.add(h(a), h(b)))
    && (forall a, b :: h(src.sub(a, b)) == dst.sub(h(a), h(b)))
    && (forall a, b :: h(src.mul(a, b)) == dst.mul(h(a), h(b)))
  }

  /** `h` applied to every entry of `s`. */
  function Image<T, U>(h: T -> U, s: seq<T>): (r: seq<U>)
    ensures |r| == |s|
    ensures forall i :: 0 <= i < |s| ==> r[i] == h(s[i])
  {
    seq(|s|, i requires 0 <= i < |s| => h(s[i]))
  }

  lemma ImageAppend<T, U>(h: T -> U, a: seq<T>, b: seq<T>)
    ensures Image(h, a + b) == Image(h, a) + Image(h, b)
  {
  }

  lemma ImageDrop<T, U>(h: T -> U, s: seq<T>, k: nat)
    requires k <= |s|
    ensures Image(h, s[k..]) == Image(h, s)[k..]
  {
  }
}
