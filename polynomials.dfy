/** The polynomial generators the kernels call.  Their implementations live in
    the host library and are not part of this model; here they are given the
    standard three-term recurrences so that the kernels are complete, generic
    over the scalar type like the kernels themselves.  What the rest of the
    model relies on is that each returns n + 1 values and that each is built
    from lift, +, - and * alone (so it commutes with value projection).  Two
    lemmas about the triangle use more of these recurrences: its edge trace
    uses that a scaled family at t = 1 is its unscaled family, and its
    order-3 example uses P_0 = 1.

    With s = 0 (Legendre) or s = 1 (integrated Legendre) every family obeys
      P_0 = 1 (Legendre) or -1 (integrated),  P_1 = x,
      j P_j = (2j - 1 - 2s) x P_{j-1} - (j - 1 - 2s) t^2 P_{j-2}    (j >= 2)
    where t = 1 for the unscaled families.  The scaled families never divide
    by t, so they stay defined when t = 0. */
module Polynomials {
  import opened Numerics

  /** P_0 .. P_n of the family selected by `integrated`, scaled by t. */
  function Recurrence<T>(ops: Numeric<T>, n: nat, x: T, t: T, integrated: bool): (r: seq<T>)
    ensures |r| == n + 1
  {
    if n == 0 then [Member(ops, 0, x, t, integrated)]
    else Recurrence(ops, n - 1, x, t, integrated) + [Member(ops, n, x, t, integrated)]
  }

  /** P_j of the family selected by `integrated`, scaled by t. */
  function Member<T>(ops: Numeric<T>, j: nat, x: T, t: T, integrated: bool): T
    decreases j
  {
    if j == 0 then ops.lift(if integrated then -1.0 else 1.0)
    else if j == 1 then x
    else NextTerm(ops, j, x, t, integrated, Member(ops, j - 1, x, t, integrated), Member(ops, j - 2, x, t, integrated))
  }

  /** P_j from P_{j-1} and P_{j-2}; the division by j is a multiplication by
      the constant 1/j, as it is for AutoDiff numbers. */
  function NextTerm<T>(ops: Numeric<T>, j: nat, x: T, t: T, integrated: bool, p1: T, p2: T): T
    requires j >= 2
  {
    var s := if integrated then 2 else 0;
    var a := ops.lift((2 * j - 1 - s) as real);
    var b := ops.lift((j - 1 - s) as real);
    ops.mul(ops.sub(ops.mul(ops.mul(a, x), p1), ops.mul(ops.mul(ops.mul(b, t), t), p2)),
            ops.lift(1.0 / j as real))
  }

  /** Legendre polynomials P_0 .. P_n of x. */
  function LegendrePolynomial<T>(ops: Numeric<T>, n: nat, x: T): (r: seq<T>)
    ensures |r| == n + 1
    ensures r[0] == ops.lift(1.0) && (n >= 1 ==> r[1] == x)
  {
    RecurrenceAt(ops, n, x, ops.lift(1.0), false);
    Recurrence(ops, n, x, ops.lift(1.0), false)
  }

  /** Scaled Legendre polynomials t^j P_j(x / t), j = 0 .. n. */
  function ScaledLegendrePolynomial<T>(ops: Numeric<T>, n: nat, x: T, t: T): (r: seq<T>)
    ensures |r| == n + 1
    ensures r[0] == ops.lift(1.0) && (n >= 1 ==> r[1] == x)
  {
    RecurrenceAt(ops, n, x, t, false);
    Recurrence(ops, n, x, t, false)
  }

  /** Integrated Legendre polynomials of x, degrees 0 .. n. */
  function IntegratedLegendrePolynomial<T>(ops: Numeric<T>, n: nat, x: T): (r: seq<T>)
    ensures |r| == n + 1
    ensures r[0] == ops.lift(-1.0) && (n >= 1 ==> r[1] == x)
  {
    RecurrenceAt(ops, n, x, ops.lift(1.0), true);
    Recurrence(ops, n, x, ops.lift(1.0), true)
  }

  /** Scaled integrated Legendre polynomials of (x, t), degrees 0 .. n. */
  function ScaledIntegratedLegendrePolynomial<T>(ops: Numeric<T>, n: nat, x: T, t: T): (r: seq<T>)
    ensures |r| == n + 1
    ensures r[0] == ops.lift(-1.0) && (n >= 1 ==> r[1] == x)
  {
    RecurrenceAt(ops, n, x, t, true);
    Recurrence(ops, n, x, t, true)
  }

  /** The first two members, P_0 = 1 (or -1 for the integrated family) and
      P_1 = x, and every member from P_2 on obeys the three-term recurrence,
      whatever n the family is evaluated up to. */
  lemma RecurrenceHolds<T>(ops: Numeric<T>, n: nat, x: T, t: T, integrated: bool)
    ensures var r := Recurrence(ops, n, x, t, integrated);
      && r[0] == ops.lift(if integrated then -1.0 else 1.0)
      && (n >= 1 ==> r[1] == x)
      && forall j :: 2 <= j <= n ==> r[j] == NextTerm(ops, j, x, t, integrated, r[j - 1], r[j - 2])
  {
    RecurrenceAt(ops, n, x, t, integrated);
  }

  /** Entry j of the family evaluated up to n is P_j. */
  lemma {:induction false} RecurrenceAt<T>(ops: Numeric<T>, n: nat, x: T, t: T, integrated: bool)
    ensures forall j :: 0 <= j <= n ==> Recurrence(ops, n, x, t, integrated)[j] == Member(ops, j, x, t, integrated)
    decreases n
  {
    if n > 0 {
      RecurrenceAt(ops, n - 1, x, t, integrated);
    }
  }

  /** The family starts with P_0 = 1 (-1 for the integrated family). */
  lemma {:induction false} RecurrenceFirst<T>(ops: Numeric<T>, n: nat, x: T, t: T, integrated: bool)
    ensures Recurrence(ops, n, x, t, integrated)[0] == ops.lift(if integrated then -1.0 else 1.0)
    decreases n
  {
    if n > 0 {
      RecurrenceFirst(ops, n - 1, x, t, integrated);
    }
  }

  /** Evaluating a family in T and projecting with `h` is evaluating it on the
      projected arguments with plain scalars. */
  lemma {:induction false} RecurrenceImage<T(!new), U>(ops: Numeric<T>, dst: Numeric<U>, h: T -> U, n: nat, x: T, t: T, integrated: bool)
    requires Homomorphism(ops, dst, h)
    ensures Image(h, Recurrence(ops, n, x, t, integrated))
         == Recurrence(dst, n, h(x), h(t), integrated)
    decreases n
  {
    MemberImage(ops, dst, h, n, x, t, integrated);
    if n > 0 {
      RecurrenceImage(ops, dst, h, n - 1, x, t, integrated);
      ImageAppend(h, Recurrence(ops, n - 1, x, t, integrated), [Member(ops, n, x, t, integrated)]);
    }
  }

  /** One member at a time, by induction on its degree. */
  lemma {:induction false} MemberImage<T(!new), U>(ops: Numeric<T>, dst: Numeric<U>, h: T -> U, j: nat, x: T, t: T, integrated: bool)
    requires Homomorphism(ops, dst, h)
    ensures h(Member(ops, j, x, t, integrated)) == Member(dst, j, h(x), h(t), integrated)
    decreases j
  {
    if j == 0 {
      assert Member(ops, 0, x, t, integrated) == ops.lift(if integrated then -1.0 else 1.0);
    } else if j >= 2 {
      MemberImage(ops, dst, h, j - 1, x, t, integrated);
      MemberImage(ops, dst, h, j - 2, x, t, integrated);
      MemberImageStep(ops, dst, h, j, x, t, integrated);
    }
  }

  /** The induction step of MemberImage: P_j maps over once P_{j-1} and
      P_{j-2} do. */
  lemma MemberImageStep<T(!new), U>(ops: Numeric<T>, dst: Numeric<U>, h: T -> U, j: nat, x: T, t: T, integrated: bool)
    requires Homomorphism(ops, dst, h) && j >= 2
    requires h(Member(ops, j - 1, x, t, integrated)) == Member(dst, j - 1, h(x), h(t), integrated)
    requires h(Member(ops, j - 2, x, t, integrated)) == Member(dst, j - 2, h(x), h(t), integrated)
    ensures h(Member(ops, j, x, t, integrated)) == Member(dst, j, h(x), h(t), integrated)
  {
    NextTermImage(ops, dst, h, j, x, t, integrated,
                  Member(ops, j - 1, x, t, integrated), Member(ops, j - 2, x, t, integrated));
  }

  lemma NextTermImage<T(!new), U>(ops: Numeric<T>, dst: Numeric<U>, h: T -> U, j: nat, x: T, t: T, integrated: bool, p1: T, p2: T)
    requires Homomorphism(ops, dst, h) && j >= 2
    ensures h(NextTerm(ops, j, x, t, integrated, p1, p2))
         == NextTerm(dst, j, h(x), h(t), integrated, h(p1), h(p2))
  {
  }

  /** The scaled integrated family at t = 1 is the integrated family: the
      triangle's edge functions restricted to their edge are the segment's.
      In this model the identity holds by the definition of the scaled
      family (both sides are the same recurrence at t = 1); the edge trace
      lemma of the triangle inherits it rather than deriving it. */
  lemma ScaledIntegratedAtOne(n: nat, x: real)
    ensures ScaledIntegratedLegendrePolynomial(RealNumeric(), n, x, 1.0)
         == IntegratedLegendrePolynomial(RealNumeric(), n, x)
  {
  }
}
