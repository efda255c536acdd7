/** The hierarchical high-order triangle element (MyHighOrderTrig): three
    vertex functions, the barycentric coordinates (x, y, 1 - x - y); for each
    of the three edges the edge functions of degrees 2 .. order; and the
    interior functions bub * polx[i] * poly[j] for i + j <= order - 3, where
    bub = lam0 * lam1 * lam2 is the cubic bubble. */
module TrigElement {
  import opened Numerics
  import opened AutoDiff
  import opened Polynomials
  import opened EdgeOrientation
  import SegmElement

  /** Number of shape functions the constructor declares. */
  function TrigNdof(order: nat): nat {
    (order + 1) * (order + 2) / 2
  }

  /** Number of functions per edge: degrees 2 .. order. */
  function EdgeCount(order: nat): nat {
    if order >= 2 then order - 1 else 0
  }

  /** Number of interior functions: pairs (i, j) with i + j <= order - 3. */
  function InteriorCount(order: nat): nat {
    if order >= 3 then (order - 2) * (order - 1) / 2 else 0
  }

  /** Barycentric coordinates of the point (x, y). */
  function TrigLam<T>(ops: Numeric<T>, x: T, y: T): seq<T> {
    [x, y, ops.sub(ops.sub(ops.lift(1.0), x), y)]
  }

  /** The functions of edge i, degrees 2 .. order, in the scaled integrated
      Legendre family of (le - ls, le + ls) along the oriented edge. */
  function TrigEdgeDofs<T>(ops: Numeric<T>, order: nat, vnums: seq<int>, lam: seq<T>, i: nat): (r: seq<T>)
    requires |vnums| == 3 && |lam| == 3 && i < 3
    ensures |r| == EdgeCount(order)
  {
    if order >= 2 then
      var e := Orient(TrigEdge(i), vnums);
      var ls, le := lam[e.0], lam[e.1];
      ScaledIntegratedLegendrePolynomial(ops, order, ops.sub(le, ls), ops.add(le, ls))[2..]
    else []
  }

  /** The functions of edges 0 .. k - 1, edge after edge. */
  function TrigEdgeBlocks<T>(ops: Numeric<T>, order: nat, vnums: seq<int>, lam: seq<T>, k: nat): seq<T>
    requires |vnums| == 3 && |lam| == 3 && k <= 3
  {
    if k == 0 then []
    else TrigEdgeBlocks(ops, order, vnums, lam, k - 1) + TrigEdgeDofs(ops, order, vnums, lam, k - 1)
  }

  /** Row i of the interior block: bub * p * poly[j] for j < len. */
  function InteriorRow<T>(ops: Numeric<T>, bub: T, p: T, poly: seq<T>, len: nat): seq<T>
    requires len <= |poly|
  {
    seq(len, j requires 0 <= j < len => ops.mul(ops.mul(bub, p), poly[j]))
  }

  /** Rows 0 .. k - 1 of an interior block with m rows, row i of length m - i. */
  function InteriorRows<T>(ops: Numeric<T>, m: nat, k: nat, bub: T, polx: seq<T>, poly: seq<T>): seq<T>
    requires k <= m < |polx| && m <= |poly|
    decreases k
  {
    if k == 0 then []
    else InteriorRows(ops, m, k - 1, bub, polx, poly) + InteriorRow(ops, bub, polx[k - 1], poly, m - (k - 1))
  }

  function Bubble<T>(ops: Numeric<T>, lam: seq<T>): T
    requires |lam| == 3
  {
    ops.mul(ops.mul(lam[0], lam[1]), lam[2])
  }

  /** polx: scaled Legendre of (lam1 - lam0, lam1 + lam0) up to degree m
      (m = order - 2). */
  function InteriorPolx<T>(ops: Numeric<T>, m: nat, lam: seq<T>): seq<T>
    requires |lam| == 3
  {
    ScaledLegendrePolynomial(ops, m, ops.sub(lam[1], lam[0]), ops.add(lam[1], lam[0]))
  }

  /** poly: Legendre of 2 lam2 - 1 up to degree m + 1 (= order - 1). */
  function InteriorPoly<T>(ops: Numeric<T>, m: nat, lam: seq<T>): seq<T>
    requires |lam| == 3
  {
    LegendrePolynomial(ops, m + 1, ops.sub(ops.mul(ops.lift(2.0), lam[2]), ops.lift(1.0)))
  }

  /** The interior block for m = order - 2 rows. */
  function InteriorBlock<T>(ops: Numeric<T>, m: nat, lam: seq<T>): seq<T>
    requires |lam| == 3
  {
    InteriorRows(ops, m, m, Bubble(ops, lam), InteriorPolx(ops, m, lam), InteriorPoly(ops, m, lam))
  }

  /** The interior functions (none below order 3). */
  function TrigInterior<T>(ops: Numeric<T>, order: nat, lam: seq<T>): seq<T>
    requires |lam| == 3
  {
    if order >= 3 then InteriorBlock(ops, order - 2, lam) else []
  }

  /** Everything the evaluation routine writes, in buffer order. */
  function TrigShape<T>(ops: Numeric<T>, order: nat, vnums: seq<int>, x: T, y: T): seq<T>
    requires |vnums| == 3
  {
    var lam := TrigLam(ops, x, y);
    lam + TrigEdgeBlocks(ops, order, vnums, lam, 3) + TrigInterior(ops, order, lam)
  }

  class HighOrderTrig {
    const order: nat
    const ndof: nat
    /** Global numbers of the three vertices, fixed by the host framework. */
    const vnums: seq<int>

    ghost predicate Valid() {
      order >= 1 && ndof == TrigNdof(order) && |vnums| == 3
    }

    constructor (order: nat, vnums: seq<int>)
      requires order >= 1 && |vnums| == 3
      ensures Valid() && this.order == order && this.vnums == vnums
      ensures ndof == (order + 1) * (order + 2) / 2
    {
      this.order := order;
      this.ndof := (order + 1) * (order + 2) / 2;
      this.vnums := vnums;
    }

    /** The evaluation routine, for any scalar type: vertex functions, then
        the three edge blocks, then the interior block, all written through
        the running index ii. */
    method GenericCalcShape<T>(ops: Numeric<T>, x: T, y: T, shape: array<T>)
      requires Valid() && shape.Length >= ndof
      modifies shape
      ensures shape[..ndof] == TrigShape(ops, order, vnums, x, y)
      ensures forall k | ndof <= k < shape.Length :: shape[k] == old(shape[k])
    {
      var lam := [x, y, ops.sub(ops.sub(ops.lift(1.0), x), y)];
      var ii := AddVertexDofs(lam, shape);
      ghost var spec := TrigShape(ops, order, vnums, x, y);
      assert spec == lam + TrigEdgeBlocks(ops, order, vnums, lam, 3) + TrigInterior(ops, order, lam);
      TrigShapeFitsNdof(ops, order, vnums, x, y);
      ii := AddEdgeDofs(ops, lam, shape, ii);
      ii := AddInteriorDofs(ops, lam, shape, ii);
      assert shape[..ii] == spec;
    }

    /** The vertex phase of the routine: the barycentric coordinates go to
        entries 0, 1, 2. */
    method AddVertexDofs<T>(lam: seq<T>, shape: array<T>) returns (ii: nat)
      requires |lam| == 3 && 3 <= shape.Length
      modifies shape
      ensures ii == 3 && shape[..ii] == lam
      ensures forall k | ii <= k < shape.Length :: shape[k] == old(shape[k])
    {
      for i := 0 to 3
        invariant shape[..i] == lam[..i]
        invariant forall k | i <= k < shape.Length :: shape[k] == old(shape[k])
      {
        shape[i] := lam[i];
      }
      ii := 3;
    }

    /** The edge phase of the routine: for each edge in local order, orient
        it by global vertex numbers and append its functions of degrees
        2 .. order at the running index. */
    method AddEdgeDofs<T>(ops: Numeric<T>, lam: seq<T>, shape: array<T>, start: nat) returns (ii: nat)
      requires Valid() && |lam| == 3
      requires start + |TrigEdgeBlocks(ops, order, vnums, lam, 3)| <= shape.Length
      modifies shape
      ensures ii == start + |TrigEdgeBlocks(ops, order, vnums, lam, 3)|
      ensures shape[..ii] == old(shape[..start]) + TrigEdgeBlocks(ops, order, vnums, lam, 3)
      ensures forall k | ii <= k < shape.Length :: shape[k] == old(shape[k])
    {
      ii := start;
      ghost var prefix := shape[..start];
      for i := 0 to 3
        invariant ii == start + |TrigEdgeBlocks(ops, order, vnums, lam, i)|
        invariant shape[..ii] == prefix + TrigEdgeBlocks(ops, order, vnums, lam, i)
        invariant forall k | ii <= k < shape.Length :: shape[k] == old(shape[k])
      {
        EdgeBlocksGrow(ops, order, vnums, lam, i + 1);
        if order >= 2 {
          var edge := TrigEdge(i);
          var e0, e1 := edge.0, edge.1;
          if vnums[e1] < vnums[e0] {
            e0, e1 := e1, e0;
          }
          var ls, le := lam[e0], lam[e1];
          var polx := ScaledIntegratedLegendrePolynomial(ops, order, ops.sub(le, ls), ops.add(le, ls));
          assert polx[2..] == TrigEdgeDofs(ops, order, vnums, lam, i);
          ii := AddEdgeBlock(polx, shape, ii);
        }
        EdgeBlocksStep(ops, order, vnums, lam, i, prefix);
      }
    }

    /** The inner loop of one edge: polx[2], .. polx[order] appended at the
        running index. */
    method AddEdgeBlock<T>(polx: seq<T>, shape: array<T>, start: nat) returns (ii: nat)
      requires 2 <= |polx| && start + (|polx| - 2) <= shape.Length
      modifies shape
      ensures ii == start + (|polx| - 2)
      ensures shape[..ii] == old(shape[..start]) + polx[2..]
      ensures forall k | ii <= k < shape.Length :: shape[k] == old(shape[k])
    {
      ii := start;
      ghost var prefix := shape[..start];
      for j := 2 to |polx|
        invariant ii == start + (j - 2)
        invariant shape[..ii] == prefix + polx[2..j]
        invariant forall k | ii <= k < shape.Length :: shape[k] == old(shape[k])
      {
        assert polx[2..j + 1] == polx[2..j] + [polx[j]];
        shape[ii] := polx[j];
        ii := ii + 1;
      }
      assert polx[2..|polx|] == polx[2..];
    }

    /** The interior phase of the routine (order >= 3): the bubble times
        polx[i] * poly[j], for i = 0 .. order - 3 and, inside, for
        j = 0 .. order - 3 - i, appended at the running index. */
    method AddInteriorDofs<T>(ops: Numeric<T>, lam: seq<T>, shape: array<T>, start: nat) returns (ii: nat)
      requires Valid() && |lam| == 3
      requires start + |TrigInterior(ops, order, lam)| <= shape.Length
      modifies shape
      ensures ii == start + |TrigInterior(ops, order, lam)|
      ensures shape[..ii] == old(shape[..start]) + TrigInterior(ops, order, lam)
      ensures forall k | ii <= k < shape.Length :: shape[k] == old(shape[k])
    {
      ii := start;
      if order >= 3 {
        var bub := ops.mul(ops.mul(lam[0], lam[1]), lam[2]);
        var polx := ScaledLegendrePolynomial(ops, order - 2, ops.sub(lam[1], lam[0]), ops.add(lam[1], lam[0]));
        var poly := LegendrePolynomial(ops, order - 1, ops.sub(ops.mul(ops.lift(2.0), lam[2]), ops.lift(1.0)));
        assert TrigInterior(ops, order, lam) == InteriorBlock(ops, order - 2, lam);
        ii := AddInteriorRows(ops, bub, polx, poly, order - 2, shape, start);
      }
    }

    /** The nested loops of the interior phase over m rows: row i holds
        bub * polx[i] * poly[j] for j = 0 .. m - 1 - i. */
    method AddInteriorRows<T>(ops: Numeric<T>, bub: T, polx: seq<T>, poly: seq<T>, m: nat, shape: array<T>, start: nat)
      returns (ii: nat)
      requires m < |polx| && m <= |poly|
      requires start + |InteriorRows(ops, m, m, bub, polx, poly)| <= shape.Length
      modifies shape
      ensures ii == start + |InteriorRows(ops, m, m, bub, polx, poly)|
      ensures shape[..ii] == old(shape[..start]) + InteriorRows(ops, m, m, bub, polx, poly)
      ensures forall k | ii <= k < shape.Length :: shape[k] == old(shape[k])
    {
      ii := start;
      ghost var prefix := shape[..start];
      for i := 0 to m
        invariant ii == start + |InteriorRows(ops, m, i, bub, polx, poly)|
        invariant |InteriorRows(ops, m, i, bub, polx, poly)| <= |InteriorRows(ops, m, m, bub, polx, poly)|
        invariant shape[..ii] == prefix + InteriorRows(ops, m, i, bub, polx, poly)
        invariant forall k | ii <= k < shape.Length :: shape[k] == old(shape[k])
      {
        InteriorRowsGrow(ops, m, i + 1, m, bub, polx, poly);
        ii := AddInteriorRow(ops, bub, polx[i], poly, m - i, shape, ii);
        InteriorRowsStep(ops, m, i, bub, polx, poly, prefix);
      }
    }

    /** One row of the interior phase: bub * p * poly[j] for j = 0 .. len - 1,
        appended at the running index. */
    method AddInteriorRow<T>(ops: Numeric<T>, bub: T, p: T, poly: seq<T>, len: nat, shape: array<T>, start: nat)
      returns (ii: nat)
      requires len <= |poly| && start + len <= shape.Length
      modifies shape
      ensures ii == start + len
      ensures shape[..ii] == old(shape[..start]) + InteriorRow(ops, bub, p, poly, len)
      ensures forall k | ii <= k < shape.Length :: shape[k] == old(shape[k])
    {
      ii := start;
      ghost var prefix := shape[..start];
      ghost var row := InteriorRow(ops, bub, p, poly, len);
      for j := 0 to len
        invariant ii == start + j
        invariant shape[..ii] == prefix + row[..j]
        invariant forall k | ii <= k < shape.Length :: shape[k] == old(shape[k])
      {
        assert row[..j + 1] == row[..j] + [row[j]];
        shape[ii] := ops.mul(ops.mul(bub, p), poly[j]);
        ii := ii + 1;
      }
      assert row[..len] == row;
    }

    /** Shape function values at the point (x, y) (T = double). */
    method CalcShape(x: real, y: real, shape: array<real>)
      requires Valid() && shape.Length >= ndof
      modifies shape
      ensures shape[..ndof] == TrigShape(RealNumeric(), order, vnums, x, y)
      ensures shape[0] == x && shape[1] == y && shape[2] == 1.0 - x - y
      ensures forall k | ndof <= k < shape.Length :: shape[k] == old(shape[k])
    {
      GenericCalcShape(RealNumeric(), x, y, shape);
      assert shape[0] == shape[..ndof][0] && shape[1] == shape[..ndof][1] && shape[2] == shape[..ndof][2];
    }

    /** Shape function gradients at (x, y): the routine runs on AutoDiff<2>
        numbers seeded with the unit gradients of x and y, and the two
        partials of shape function i are copied into dshape[i, 0..1]. */
    method CalcDShape(x: real, y: real, dshape: array2<real>)
      requires Valid() && dshape.Length0 >= ndof && dshape.Length1 >= 2
      modifies dshape
      ensures var s := TrigShape(DualNumeric(2), order, vnums, Variable(x, 0, 2), Variable(y, 1, 2));
        |s| == ndof && forall i, k | 0 <= i < ndof && 0 <= k < 2 :: dshape[i, k] == s[i].DValue(k)
      ensures dshape[0, 0] == 1.0 && dshape[0, 1] == 0.0
      ensures dshape[1, 0] == 0.0 && dshape[1, 1] == 1.0
      ensures dshape[2, 0] == -1.0 && dshape[2, 1] == -1.0
      ensures forall i, k | 0 <= i < dshape.Length0 && 0 <= k < dshape.Length1 && !(i < ndof && k < 2) ::
        dshape[i, k] == old(dshape[i, k])
    {
      var adx := Variable(x, 0, 2);
      var ady := Variable(y, 1, 2);
      var shapearray := new Dual[ndof];
      GenericCalcShape(DualNumeric(2), adx, ady, shapearray);
      CopyGradients(shapearray, ndof, dshape);
      assert shapearray[..ndof] == TrigShape(DualNumeric(2), order, vnums, adx, ady);
      TrigVertexGradients(order, vnums, x, y);
    }
  }

  /** The copy loop of CalcDShape: the two partials of the first n entries of
      the AutoDiff buffer go to rows 0 .. n - 1 of dshape. */
  method CopyGradients(shapearray: array<Dual>, n: nat, dshape: array2<real>)
    requires n <= shapearray.Length && n <= dshape.Length0 && dshape.Length1 >= 2
    modifies dshape
    ensures forall i, k | 0 <= i < n && 0 <= k < 2 :: dshape[i, k] == shapearray[i].DValue(k)
    ensures forall i, k | 0 <= i < dshape.Length0 && 0 <= k < dshape.Length1 && !(i < n && k < 2) ::
      dshape[i, k] == old(dshape[i, k])
  {
    for i := 0 to n
      invariant forall r, k | 0 <= r < i && 0 <= k < 2 :: dshape[r, k] == shapearray[r].DValue(k)
      invariant forall r, k | 0 <= r < dshape.Length0 && 0 <= k < dshape.Length1 && !(r < i && k < 2) ::
        dshape[r, k] == old(dshape[r, k])
    {
      dshape[i, 0] := shapearray[i].DValue(0);
      dshape[i, 1] := shapearray[i].DValue(1);
    }
  }

  /** The dof count splits into 3 vertex, 3 (order - 1) edge and
      (order - 2)(order - 1)/2 interior functions. */
  lemma TrigNdofSplit(order: nat)
    requires order >= 1
    ensures TrigNdof(order) == 3 + 3 * (order - 1) + InteriorCount(order)
  {
    var o: int := order;
    assert (o + 1) * (o + 2) == 2 * (3 + 3 * (o - 1)) + (o - 2) * (o - 1);
    if o >= 3 {
      assert (o - 2) * (o - 1) == 2 * ((o - 2) * (o - 1) / 2) by {
        EvenProduct(o - 2);
      }
    }
  }

  lemma {:induction false} EvenProduct(n: nat)
    ensures (n * (n + 1)) % 2 == 0
  {
    if n > 0 {
      EvenProduct(n - 1);
      assert n * (n + 1) == (n - 1) * n + 2 * n;
    }
  }

  /** Rows 0 .. k - 1 hold k (2m - k + 1) / 2 entries; all m rows hold
      m (m + 1) / 2, the count of the source's triangular nested loop. */
  lemma {:induction false} InteriorRowsLength<T>(ops: Numeric<T>, m: nat, k: nat, bub: T, polx: seq<T>, poly: seq<T>)
    requires k <= m < |polx| && m <= |poly|
    ensures 2 * |InteriorRows(ops, m, k, bub, polx, poly)| == k * (2 * m - k + 1)
    decreases k
  {
    if k > 0 {
      InteriorRowsLength(ops, m, k - 1, bub, polx, poly);
      assert k * (2 * m - k + 1) == (k - 1) * (2 * m - (k - 1) + 1) + 2 * (m - (k - 1));
    }
  }

  /** Each further row only adds entries. */
  lemma {:induction false} InteriorRowsGrow<T>(ops: Numeric<T>, m: nat, k: nat, k': nat, bub: T, polx: seq<T>, poly: seq<T>)
    requires 1 <= k <= k' <= m < |polx| && m <= |poly|
    ensures |InteriorRows(ops, m, k - 1, bub, polx, poly)| + (m - (k - 1))
         == |InteriorRows(ops, m, k, bub, polx, poly)|
         <= |InteriorRows(ops, m, k', bub, polx, poly)|
    decreases k' - k
  {
    if k < k' {
      InteriorRowsGrow(ops, m, k + 1, k', bub, polx, poly);
    }
  }

  /** Each further edge adds its order - 1 functions, and the three edges
      together hold 3 (order - 1). */
  lemma EdgeBlocksGrow<T>(ops: Numeric<T>, order: nat, vnums: seq<int>, lam: seq<T>, k: nat)
    requires order >= 1 && |vnums| == 3 && |lam| == 3 && 1 <= k <= 3
    ensures |TrigEdgeBlocks(ops, order, vnums, lam, k - 1)| + (order - 1)
         == |TrigEdgeBlocks(ops, order, vnums, lam, k)|
         <= |TrigEdgeBlocks(ops, order, vnums, lam, 3)|
    ensures |TrigEdgeBlocks(ops, order, vnums, lam, 3)| == 3 * (order - 1)
  {
    EdgeBlocksLength(ops, order, vnums, lam);
  }

  lemma EdgeBlocksLength<T>(ops: Numeric<T>, order: nat, vnums: seq<int>, lam: seq<T>)
    requires |vnums| == 3 && |lam| == 3
    ensures |TrigEdgeBlocks(ops, order, vnums, lam, 0)| == 0
    ensures |TrigEdgeBlocks(ops, order, vnums, lam, 1)| == EdgeCount(order)
    ensures |TrigEdgeBlocks(ops, order, vnums, lam, 2)| == 2 * EdgeCount(order)
    ensures |TrigEdgeBlocks(ops, order, vnums, lam, 3)| == 3 * EdgeCount(order)
  {
    var c := EdgeCount(order);
    assert |TrigEdgeBlocks(ops, order, vnums, lam, 1)| == c;
    assert |TrigEdgeBlocks(ops, order, vnums, lam, 2)| == c + c;
    assert |TrigEdgeBlocks(ops, order, vnums, lam, 3)| == c + c + c;
  }

  lemma EdgeBlocksStep<T>(ops: Numeric<T>, order: nat, vnums: seq<int>, lam: seq<T>, i: nat, prefix: seq<T>)
    requires |vnums| == 3 && |lam| == 3 && i < 3
    ensures prefix + TrigEdgeBlocks(ops, order, vnums, lam, i + 1)
         == prefix + TrigEdgeBlocks(ops, order, vnums, lam, i) + TrigEdgeDofs(ops, order, vnums, lam, i)
  {
  }

  lemma InteriorRowsStep<T>(ops: Numeric<T>, m: nat, i: nat, bub: T, polx: seq<T>, poly: seq<T>, prefix: seq<T>)
    requires i < m < |polx| && m <= |poly|
    ensures prefix + InteriorRows(ops, m, i + 1, bub, polx, poly)
         == prefix + InteriorRows(ops, m, i, bub, polx, poly) + InteriorRow(ops, bub, polx[i], poly, m - i)
  {
  }

  /** The nested (i, j) order: row i starts after rows 0 .. i - 1, and its
      entry j is bub * polx[i] * poly[j], with i + j <= m - 1. */
  lemma {:induction false} InteriorRowsAt<T>(ops: Numeric<T>, m: nat, k: nat, bub: T, polx: seq<T>, poly: seq<T>, i: nat, j: nat)
    requires k <= m < |polx| && m <= |poly|
    requires i < k && j < m - i
    ensures |InteriorRows(ops, m, i, bub, polx, poly)| + j < |InteriorRows(ops, m, k, bub, polx, poly)|
    ensures InteriorRows(ops, m, k, bub, polx, poly)[|InteriorRows(ops, m, i, bub, polx, poly)| + j]
         == ops.mul(ops.mul(bub, polx[i]), poly[j])
    decreases k
  {
    if i < k - 1 {
      InteriorRowsAt(ops, m, k - 1, bub, polx, poly, i, j);
    }
  }

  /** Every interior entry carries the bubble factor: if bub is 0, they all are. */
  lemma {:induction false} InteriorRowsZero(m: nat, k: nat, polx: seq<real>, poly: seq<real>)
    requires k <= m < |polx| && m <= |poly|
    ensures forall t :: 0 <= t < |InteriorRows(RealNumeric(), m, k, 0.0, polx, poly)| ==>
      InteriorRows(RealNumeric(), m, k, 0.0, polx, poly)[t] == 0.0
    decreases k
  {
    if k > 0 {
      InteriorRowsZero(m, k - 1, polx, poly);
    }
  }

  /** The buffer layout fills exactly the declared dofs. */
  lemma TrigShapeFitsNdof<T>(ops: Numeric<T>, order: nat, vnums: seq<int>, x: T, y: T)
    requires order >= 1 && |vnums| == 3
    ensures |TrigEdgeBlocks(ops, order, vnums, TrigLam(ops, x, y), 3)| == 3 * (order - 1)
    ensures |TrigInterior(ops, order, TrigLam(ops, x, y))| == InteriorCount(order)
    ensures |TrigShape(ops, order, vnums, x, y)| == TrigNdof(order)
  {
    var lam := TrigLam(ops, x, y);
    EdgeBlocksLength(ops, order, vnums, lam);
    var interior := TrigInterior(ops, order, lam);
    if order >= 3 {
      InteriorRowsLength(ops, order - 2, order - 2, Bubble(ops, lam),
                         InteriorPolx(ops, order - 2, lam), InteriorPoly(ops, order - 2, lam));
      InteriorCountRows(order, |interior|);
    }
    TrigNdofSplit(order);
    TrigShapeParts(ops, order, vnums, x, y);
  }

  lemma InteriorCountRows(order: nat, len: nat)
    requires order >= 3
    requires 2 * len == (order - 2) * (2 * (order - 2) - (order - 2) + 1)
    ensures len == InteriorCount(order)
  {
    var m := order - 2;
    assert 2 * len == m * (m + 1);
    assert InteriorCount(order) == m * (m + 1) / 2;
  }

  /** The buffer is the vertex and edge part, of 3 + 3 (order - 1) entries,
      followed by the interior part. */
  lemma TrigShapeParts<T>(ops: Numeric<T>, order: nat, vnums: seq<int>, x: T, y: T)
    requires order >= 1 && |vnums| == 3
    ensures var lam := TrigLam(ops, x, y);
      var front := lam + TrigEdgeBlocks(ops, order, vnums, lam, 3);
      && |front| == 3 + 3 * (order - 1)
      && TrigShape(ops, order, vnums, x, y) == front + TrigInterior(ops, order, lam)
  {
    EdgeBlocksLength(ops, order, vnums, TrigLam(ops, x, y));
  }

  /** At order 0 the routine still writes all three vertex functions, two
      more entries than the one dof the constructor declares. */
  lemma TrigOrderZeroOverrun<T>(ops: Numeric<T>, vnums: seq<int>, x: T, y: T)
    requires |vnums| == 3
    ensures |TrigShape(ops, 0, vnums, x, y)| == 3 > TrigNdof(0)
  {
    EdgeBlocksLength(ops, 0, vnums, TrigLam(ops, x, y));
  }

  /** The vertex functions are the barycentric coordinates and sum to 1. */
  lemma TrigPartitionOfUnity(order: nat, vnums: seq<int>, x: real, y: real)
    requires |vnums| == 3
    ensures var s := TrigShape(RealNumeric(), order, vnums, x, y);
      s[0] == x && s[1] == y && s[2] == 1.0 - x - y && s[0] + s[1] + s[2] == 1.0
  {
  }

  /** Interior entry (i, j) of an interior block with m rows sits after the
      rows before i, at offset j, and is bub * polx[i] * poly[j]; its reads
      stay in range because i <= m - 1 < |polx| and j <= m - 1 - i < |poly|. */
  lemma InteriorBlockAt<T>(ops: Numeric<T>, m: nat, lam: seq<T>, i: nat, j: nat)
    requires |lam| == 3 && i + j < m
    ensures var polx, poly := InteriorPolx(ops, m, lam), InteriorPoly(ops, m, lam);
      var q := |InteriorRows(ops, m, i, Bubble(ops, lam), polx, poly)| + j;
      && i < |polx| == m + 1 && j < |poly| == m + 2
      && q < |InteriorBlock(ops, m, lam)|
      && InteriorBlock(ops, m, lam)[q] == ops.mul(ops.mul(Bubble(ops, lam), polx[i]), poly[j])
  {
    InteriorRowsAt(ops, m, m, Bubble(ops, lam), InteriorPolx(ops, m, lam), InteriorPoly(ops, m, lam), i, j);
  }

  /** The interior block starts right after the vertex and edge functions,
      at 3 + 3 (order - 1): entry q of the block is entry 3 + 3 (order - 1) + q
      of the buffer. */
  lemma TrigInteriorAt<T>(ops: Numeric<T>, order: nat, vnums: seq<int>, x: T, y: T, q: nat)
    requires order >= 3 && |vnums| == 3
    requires q < |InteriorBlock(ops, order - 2, TrigLam(ops, x, y))|
    ensures 3 + 3 * (order - 1) + q < |TrigShape(ops, order, vnums, x, y)|
    ensures TrigShape(ops, order, vnums, x, y)[3 + 3 * (order - 1) + q]
         == InteriorBlock(ops, order - 2, TrigLam(ops, x, y))[q]
  {
    TrigShapeParts(ops, order, vnums, x, y);
  }

  /** The bubble lam0 lam1 lam2 is 0 on the boundary of the triangle. */
  lemma BubbleVanishes(x: real, y: real)
    requires x == 0.0 || y == 0.0 || x + y == 1.0
    ensures Bubble(RealNumeric(), TrigLam(RealNumeric(), x, y)) == 0.0
  {
    if x + y == 1.0 {
      assert 1.0 - x - y == 0.0;
    }
  }

  /** The interior functions vanish on the boundary: whenever one barycentric
      coordinate is 0 (x = 0, y = 0 or x + y = 1), every entry after the
      vertex and edge blocks is 0. */
  lemma TrigInteriorVanishes(order: nat, vnums: seq<int>, x: real, y: real)
    requires order >= 1 && |vnums| == 3
    requires x == 0.0 || y == 0.0 || x + y == 1.0
    ensures var s := TrigShape(RealNumeric(), order, vnums, x, y);
      forall k :: 3 + 3 * (order - 1) <= k < |s| ==> s[k] == 0.0
  {
    var lam := TrigLam(RealNumeric(), x, y);
    var interior := TrigInterior(RealNumeric(), order, lam);
    if order >= 3 {
      BubbleVanishes(x, y);
      InteriorRowsZero(order - 2, order - 2, InteriorPolx(RealNumeric(), order - 2, lam),
                       InteriorPoly(RealNumeric(), order - 2, lam));
    }
    assert forall t :: 0 <= t < |interior| ==> interior[t] == 0.0;
    TrigShapeParts(RealNumeric(), order, vnums, x, y);
  }

  /** At order 3 there are 3 vertex, 3 x 2 edge and 1 interior functions, and
      the interior one is the bubble itself, since polx[0] = poly[0] = 1. */
  lemma TrigOrderThree(vnums: seq<int>, x: real, y: real)
    requires |vnums| == 3
    ensures var s := TrigShape(RealNumeric(), 3, vnums, x, y);
      |s| == 10 && s[9] == x * y * (1.0 - x - y)
  {
    var R := RealNumeric();
    var lam := TrigLam(R, x, y);
    var bub, polx, poly := Bubble(R, lam), InteriorPolx(R, 1, lam), InteriorPoly(R, 1, lam);
    assert bub == x * y * (1.0 - x - y);
    RecurrenceFirst(R, 1, lam[1] - lam[0], lam[1] + lam[0], false);
    RecurrenceFirst(R, 2, 2.0 * lam[2] - 1.0, 1.0, false);
    assert polx[0] == 1.0 && poly[0] == 1.0;
    InteriorBlockAt(R, 1, lam, 0, 0);
    assert InteriorBlock(R, 1, lam)[0] == bub;
    TrigShapeFitsNdof(R, 3, vnums, x, y);
    TrigInteriorAt(R, 3, vnums, x, y, 0);
  }

  /** Trace conformity: on edge i (the third barycentric coordinate 0), the
      triangle's functions of that edge are the segment element's edge
      functions, for the segment whose two vertices are the edge's ends with
      their global numbers, at the same point of the edge. */
  lemma TrigEdgeTrace(order: nat, vnums: seq<int>, x: real, y: real, i: nat, s: real)
    requires |vnums| == 3 && i < 3
    requires var lam := TrigLam(RealNumeric(), x, y);
      lam[TrigEdge(i).0] == s && lam[TrigEdge(i).1] == 1.0 - s
    ensures TrigEdgeDofs(RealNumeric(), order, vnums, TrigLam(RealNumeric(), x, y), i)
         == SegmElement.SegmEdgeDofs(RealNumeric(), order, [vnums[TrigEdge(i).0], vnums[TrigEdge(i).1]], s)
  {
    if order >= 2 {
      var lam := TrigLam(RealNumeric(), x, y);
      var e := Orient(TrigEdge(i), vnums);
      var sv := [vnums[TrigEdge(i).0], vnums[TrigEdge(i).1]];
      var xi := SegmElement.SegmEdgeCoordinate(RealNumeric(), sv, s);
      assert xi == lam[e.1] - lam[e.0];
      assert lam[e.1] + lam[e.0] == 1.0;
      ScaledIntegratedAtOne(order, xi);
    }
  }

  /** The routine commutes with any map that preserves the scalar operations. */
  lemma {:induction false} TrigShapeImage<T(!new), U>(ops: Numeric<T>, dst: Numeric<U>, h: T -> U, order: nat, vnums: seq<int>, x: T, y: T)
    requires Homomorphism(ops, dst, h) && |vnums| == 3
    ensures Image(h, TrigShape(ops, order, vnums, x, y)) == TrigShape(dst, order, vnums, h(x), h(y))
  {
    var lam := TrigLam(ops, x, y);
    var rlam := TrigLam(dst, h(x), h(y));
    assert Image(h, lam) == rlam;
    EdgeBlocksImage(ops, dst, h, order, vnums, lam, 3);
    InteriorImage(ops, dst, h, order, lam);
    ImageAppend(h, lam, TrigEdgeBlocks(ops, order, vnums, lam, 3));
    ImageAppend(h, lam + TrigEdgeBlocks(ops, order, vnums, lam, 3), TrigInterior(ops, order, lam));
  }

  lemma {:induction false} EdgeBlocksImage<T(!new), U>(ops: Numeric<T>, dst: Numeric<U>, h: T -> U, order: nat, vnums: seq<int>, lam: seq<T>, k: nat)
    requires Homomorphism(ops, dst, h) && |vnums| == 3 && |lam| == 3 && k <= 3
    ensures Image(h, TrigEdgeBlocks(ops, order, vnums, lam, k))
         == TrigEdgeBlocks(dst, order, vnums, Image(h, lam), k)
    decreases k
  {
    if k > 0 {
      EdgeBlocksImage(ops, dst, h, order, vnums, lam, k - 1);
      var i := k - 1;
      if order >= 2 {
        var e := Orient(TrigEdge(i), vnums);
        var ls, le := lam[e.0], lam[e.1];
        RecurrenceImage(ops, dst, h, order, ops.sub(le, ls), ops.add(le, ls), true);
        ImageDrop(h, ScaledIntegratedLegendrePolynomial(ops, order, ops.sub(le, ls), ops.add(le, ls)), 2);
      }
      ImageAppend(h, TrigEdgeBlocks(ops, order, vnums, lam, i), TrigEdgeDofs(ops, order, vnums, lam, i));
    }
  }

  lemma InteriorImage<T(!new), U>(ops: Numeric<T>, dst: Numeric<U>, h: T -> U, order: nat, lam: seq<T>)
    requires Homomorphism(ops, dst, h) && |lam| == 3
    ensures Image(h, TrigInterior(ops, order, lam)) == TrigInterior(dst, order, Image(h, lam))
  {
    if order >= 3 {
      InteriorBlockImage(ops, dst, h, order - 2, lam);
    }
  }

  lemma InteriorBlockImage<T(!new), U>(ops: Numeric<T>, dst: Numeric<U>, h: T -> U, m: nat, lam: seq<T>)
    requires Homomorphism(ops, dst, h) && |lam| == 3
    ensures Image(h, InteriorBlock(ops, m, lam)) == InteriorBlock(dst, m, Image(h, lam))
  {
    var rlam := Image(h, lam);
    var bub, polx, poly := Bubble(ops, lam), InteriorPolx(ops, m, lam), InteriorPoly(ops, m, lam);
    InteriorPolxImage(ops, dst, h, m, lam);
    InteriorPolyImage(ops, dst, h, m, lam);
    BubbleImage(ops, dst, h, lam);
    InteriorRowsImage(ops, dst, h, m, m, bub, polx, poly);
  }

  lemma InteriorPolxImage<T(!new), U>(ops: Numeric<T>, dst: Numeric<U>, h: T -> U, m: nat, lam: seq<T>)
    requires Homomorphism(ops, dst, h) && |lam| == 3
    ensures Image(h, InteriorPolx(ops, m, lam)) == InteriorPolx(dst, m, Image(h, lam))
  {
    var rlam := Image(h, lam);
    var a, b := ops.sub(lam[1], lam[0]), ops.add(lam[1], lam[0]);
    var ra, rb := dst.sub(rlam[1], rlam[0]), dst.add(rlam[1], rlam[0]);
    assert h(a) == ra && h(b) == rb;
    assert InteriorPolx(dst, m, rlam) == Recurrence(dst, m, ra, rb, false);
    RecurrenceImage(ops, dst, h, m, a, b, false);
  }

  lemma InteriorPolyImage<T(!new), U>(ops: Numeric<T>, dst: Numeric<U>, h: T -> U, m: nat, lam: seq<T>)
    requires Homomorphism(ops, dst, h) && |lam| == 3
    ensures Image(h, InteriorPoly(ops, m, lam)) == InteriorPoly(dst, m, Image(h, lam))
  {
    var rlam := Image(h, lam);
    var a := ops.sub(ops.mul(ops.lift(2.0), lam[2]), ops.lift(1.0));
    var ra := dst.sub(dst.mul(dst.lift(2.0), rlam[2]), dst.lift(1.0));
    assert h(a) == ra && h(ops.lift(1.0)) == dst.lift(1.0);
    assert InteriorPoly(dst, m, rlam) == Recurrence(dst, m + 1, ra, dst.lift(1.0), false);
    RecurrenceImage(ops, dst, h, m + 1, a, ops.lift(1.0), false);
  }

  lemma BubbleImage<T(!new), U>(ops: Numeric<T>, dst: Numeric<U>, h: T -> U, lam: seq<T>)
    requires Homomorphism(ops, dst, h) && |lam| == 3
    ensures h(Bubble(ops, lam)) == Bubble(dst, Image(h, lam))
  {
  }

  lemma {:induction false} InteriorRowsImage<T(!new), U>(ops: Numeric<T>, dst: Numeric<U>, h: T -> U, m: nat, k: nat, bub: T, polx: seq<T>, poly: seq<T>)
    requires Homomorphism(ops, dst, h) && k <= m < |polx| && m <= |poly|
    ensures Image(h, InteriorRows(ops, m, k, bub, polx, poly))
         == InteriorRows(dst, m, k, h(bub), Image(h, polx), Image(h, poly))
    decreases k
  {
    if k > 0 {
      InteriorRowsImage(ops, dst, h, m, k - 1, bub, polx, poly);
      var row := InteriorRow(ops, bub, polx[k - 1], poly, m - (k - 1));
      InteriorRowImage(ops, dst, h, bub, polx[k - 1], poly, m - (k - 1));
      ImageAppend(h, InteriorRows(ops, m, k - 1, bub, polx, poly), row);
    }
  }

  lemma InteriorRowImage<T(!new), U>(ops: Numeric<T>, dst: Numeric<U>, h: T -> U, bub: T, p: T, poly: seq<T>, len: nat)
    requires Homomorphism(ops, dst, h) && len <= |poly|
    ensures Image(h, InteriorRow(ops, bub, p, poly, len))
         == InteriorRow(dst, h(bub), h(p), Image(h, poly), len)
  {
    var row := InteriorRow(ops, bub, p, poly, len);
    var rrow := InteriorRow(dst, h(bub), h(p), Image(h, poly), len);
    forall j | 0 <= j < len
      ensures Image(h, row)[j] == rrow[j]
    {
      assert row[j] == ops.mul(ops.mul(bub, p), poly[j]);
    }
  }

  /** Value/derivative consistency: the value parts of the AutoDiff
      evaluation are the double evaluation at the values of the inputs. */
  lemma TrigDualValues(n: nat, order: nat, vnums: seq<int>, x: Dual, y: Dual)
    requires |vnums| == 3
    ensures var s := TrigShape(DualNumeric(n), order, vnums, x, y);
      |s| == |TrigShape(RealNumeric(), order, vnums, x.value, y.value)|
      && forall i :: 0 <= i < |s| ==> s[i].value == TrigShape(RealNumeric(), order, vnums, x.value, y.value)[i]
  {
    ValuePreserved(n);
    TrigShapeImage(DualNumeric(n), RealNumeric(), Value, order, vnums, x, y);
  }

  /** Gradients of the vertex functions x, y and 1 - x - y. */
  lemma TrigVertexGradients(order: nat, vnums: seq<int>, x: real, y: real)
    requires |vnums| == 3
    ensures var s := TrigShape(DualNumeric(2), order, vnums, Variable(x, 0, 2), Variable(y, 1, 2));
      && s[0].DValue(0) == 1.0 && s[0].DValue(1) == 0.0
      && s[1].DValue(0) == 0.0 && s[1].DValue(1) == 1.0
      && s[2].DValue(0) == -1.0 && s[2].DValue(1) == -1.0
  {
  }
}
