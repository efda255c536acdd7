/** Dual numbers, the model of the host library's `AutoDiff<N>`: a value
    together with N partial derivatives, combined by the rules of
    differentiation.  A scalar lifted into the type carries zero partials. */
module AutoDiff {
  import opened Numerics

  datatype Dual = Dual(value: real, partials: seq<real>) {
    /** Partial derivative number k (AutoDiff's DValue). */
    function DValue(k: int): real {
      if 0 <= k < |partials| then partials[k] else 0.0
    }
  }

  /** The value part, as a map from dual numbers to scalars. */
  function Value(d: Dual): real {
    d.value
  }

  /** `AutoDiff<n>(v, k)`: the independent variable number k at value v, whose
      gradient is the k-th unit vector. */
  function Variable(v: real, k: nat, n: nat): (d: Dual)
    requires k < n
    ensures d.value == v && |d.partials| == n
    ensures forall i :: 0 <= i < n ==> d.DValue(i) == if i == k then 1.0 else 0.0
  {
    Dual(v, seq(n, i => if i == k then 1.0 else 0.0))
  }

  /** Arithmetic on `AutoDiff<n>`: sum and difference rules for + and -, the
      product rule for *, and zero partials for a lifted constant. */
  function DualNumeric(n: nat): (ops: Numeric<Dual>)
    ensures forall c :: ops.lift(c).value == c && |ops.lift(c).partials| == n
    ensures forall c, k :: 0 <= k < n ==> ops.lift(c).DValue(k) == 0.0
    ensures forall a, b, k :: 0 <= k < n ==>
      ops.add(a, b).DValue(k) == a.DValue(k) + b.DValue(k)
      && ops.sub(a, b).DValue(k) == a.DValue(k) - b.DValue(k)
      && ops.mul(a, b).DValue(k) == a.value * b.DValue(k) + a.DValue(k) * b.value
    ensures forall a, b ::
      && ops.add(a, b).value == a.value + b.value && |ops.add(a, b).partials| == n
      && ops.sub(a, b).value == a.value - b.value && |ops.sub(a, b).partials| == n
      && ops.mul(a, b).value == a.value * b.value && |ops.mul(a, b).partials| == n
  {
    Numeric(
      c => Dual(c, seq(n, _ => 0.0)),
      (a: Dual, b: Dual) => Dual(a.value + b.value, seq(n, k => a.DValue(k) + b.DValue(k))),
      (a: Dual, b: Dual) => Dual(a.value - b.value, seq(n, k => a.DValue(k) - b.DValue(k))),
      (a: Dual, b: Dual) => Dual(a.value * b.value,
                                 seq(n, k => a.value * b.DValue(k) + a.DValue(k) * b.value)))
  }

  /** The value part of a dual computation is the plain-scalar computation:
      taking values maps every operation of `DualNumeric(n)` to the same
      operation on reals. */
  lemma ValuePreserved(n: nat)
    ensures Homomorphism(DualNumeric(n), RealNumeric(), Value)
  {
  }
}
