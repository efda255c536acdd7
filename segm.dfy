/** The hierarchical high-order segment element (MyHighOrderSegm): two vertex
    functions, the barycentric coordinates x and 1 - x, followed by the edge
    functions of degrees 2 .. order, integrated Legendre polynomials of the
    edge coordinate oriented by global vertex numbers. */
module SegmElement {
  import opened Numerics
  import opened AutoDiff
  import opened Polynomials
  import opened EdgeOrientation

  /** Number of shape functions the constructor declares. */
  function SegmNdof(order: nat): nat {
    order + 1
  }

  /** Barycentric coordinates of the point x. */
  function SegmLam<T>(ops: Numeric<T>, x: T): seq<T> {
    [x, ops.sub(ops.lift(1.0), x)]
  }

  /** xi = lam[end] - lam[start] along the oriented edge. */
  function SegmEdgeCoordinate<T>(ops: Numeric<T>, vnums: seq<int>, x: T): T
    requires |vnums| == 2
  {
    var lami := SegmLam(ops, x);
    var e := Orient(SegmEdge, vnums);
    ops.sub(lami[e.1], lami[e.0])
  }

  /** The edge functions, degrees 2 .. order (none below order 2). */
  function SegmEdgeDofs<T>(ops: Numeric<T>, order: nat, vnums: seq<int>, x: T): seq<T>
    requires |vnums| == 2
  {
    if order >= 2 then
      IntegratedLegendrePolynomial(ops, order, SegmEdgeCoordinate(ops, vnums, x))[2..]
    else []
  }

  /** Everything the evaluation routine writes, in buffer order. */
  function SegmShape<T>(ops: Numeric<T>, order: nat, vnums: seq<int>, x: T): seq<T>
    requires |vnums| == 2
  {
    SegmLam(ops, x) + SegmEdgeDofs(ops, order, vnums, x)
  }

  class HighOrderSegm {
    const order: nat
    const ndof: nat
    /** Global numbers of the two vertices, fixed by the host framework. */
    const vnums: seq<int>

    ghost predicate Valid() {
      order >= 1 && ndof == SegmNdof(order) && |vnums| == 2
    }

    constructor (order: nat, vnums: seq<int>)
      requires order >= 1 && |vnums| == 2
      ensures Valid() && this.order == order && this.vnums == vnums
      ensures ndof == order + 1
    {
      this.order := order;
      this.ndof := order + 1;
      this.vnums := vnums;
    }

    /** The evaluation routine, for any scalar type: vertex functions first,
        then the edge block through the running index ii. */
    method GenericCalcShape<T>(ops: Numeric<T>, x: T, shape: array<T>)
      requires Valid() && shape.Length >= ndof
      modifies shape
      ensures shape[..ndof] == SegmShape(ops, order, vnums, x)
      ensures forall k | ndof <= k < shape.Length :: shape[k] == old(shape[k])
    {
      var lami := [x, ops.sub(ops.lift(1.0), x)];
      for i := 0 to 2
        invariant shape[..i] == lami[..i]
        invariant forall k | i <= k < shape.Length :: shape[k] == old(shape[k])
      {
        shape[i] := lami[i];
      }
      var ii := 2;
      if order >= 2 {
        var e0, e1 := SegmEdge.0, SegmEdge.1;
        if vnums[e1] < vnums[e0] {
          e0, e1 := e1, e0;
        }
        var xi := ops.sub(lami[e1], lami[e0]);
        var polx := IntegratedLegendrePolynomial(ops, order, xi);
        assert xi == SegmEdgeCoordinate(ops, vnums, x);
        for j := 2 to order + 1
          invariant ii == j
          invariant shape[..ii] == lami + polx[2..j]
          invariant forall k | ii <= k < shape.Length :: shape[k] == old(shape[k])
        {
          shape[ii] := polx[j];
          ii := ii + 1;
        }
        assert polx[2..order + 1] == polx[2..];
      }
    }

    /** Shape function values at the point x (T = double). */
    method CalcShape(x: real, shape: array<real>)
      requires Valid() && shape.Length >= ndof
      modifies shape
      ensures shape[..ndof] == SegmShape(RealNumeric(), order, vnums, x)
      ensures shape[0] == x && shape[1] == 1.0 - x
      ensures forall k | ndof <= k < shape.Length :: shape[k] == old(shape[k])
    {
      GenericCalcShape(RealNumeric(), x, shape);
      assert shape[0] == shape[..ndof][0] && shape[1] == shape[..ndof][1];
    }

    /** Shape function derivatives at the point x: the routine runs on
        AutoDiff<1> numbers seeded with dx/dx = 1, and the derivative of shape
        function i is copied into dshape[i, 0]. */
    method CalcDShape(x: real, dshape: array2<real>)
      requires Valid() && dshape.Length0 >= ndof && dshape.Length1 >= 1
      modifies dshape
      ensures forall i | 0 <= i < ndof ::
        dshape[i, 0] == SegmShape(DualNumeric(1), order, vnums, Variable(x, 0, 1))[i].DValue(0)
      ensures dshape[0, 0] == 1.0 && dshape[1, 0] == -1.0
      ensures forall i, k | 0 <= i < dshape.Length0 && 0 <= k < dshape.Length1 && !(i < ndof && k == 0) ::
        dshape[i, k] == old(dshape[i, k])
    {
      var adx := Variable(x, 0, 1);
      var shapearray := new Dual[ndof];
      GenericCalcShape(DualNumeric(1), adx, shapearray);
      CopyDerivatives(shapearray, ndof, dshape);
      assert shapearray[..ndof] == SegmShape(DualNumeric(1), order, vnums, adx);
      SegmVertexGradients(order, vnums, x);
    }
  }

  /** The copy loop of CalcDShape: the derivative part of the first n entries
      of the AutoDiff buffer goes to column 0 of rows 0 .. n - 1 of dshape. */
  method CopyDerivatives(shapearray: array<Dual>, n: nat, dshape: array2<real>)
    requires n <= shapearray.Length && n <= dshape.Length0 && dshape.Length1 >= 1
    modifies dshape
    ensures forall i | 0 <= i < n :: dshape[i, 0] == shapearray[i].DValue(0)
    ensures forall i, k | 0 <= i < dshape.Length0 && 0 <= k < dshape.Length1 && !(i < n && k == 0) ::
      dshape[i, k] == old(dshape[i, k])
  {
    for i := 0 to n
      invariant forall r | 0 <= r < i :: dshape[r, 0] == shapearray[r].DValue(0)
      invariant forall r, k | 0 <= r < dshape.Length0 && 0 <= k < dshape.Length1 && !(r < i && k == 0) ::
        dshape[r, k] == old(dshape[r, k])
    {
      dshape[i, 0] := shapearray[i].DValue(0);
    }
  }

  /** The buffer layout fills exactly the declared dofs: 2 vertex functions
      and order - 1 edge functions. */
  lemma SegmShapeFitsNdof<T>(ops: Numeric<T>, order: nat, vnums: seq<int>, x: T)
    requires order >= 1 && |vnums| == 2
    ensures |SegmShape(ops, order, vnums, x)| == SegmNdof(order)
    ensures |SegmEdgeDofs(ops, order, vnums, x)| == order - 1
  {
  }

  /** At order 0 the routine still writes both vertex functions, one more
      entry than the one dof the constructor declares. */
  lemma SegmOrderZeroOverrun<T>(ops: Numeric<T>, vnums: seq<int>, x: T)
    requires |vnums| == 2
    ensures |SegmShape(ops, 0, vnums, x)| == 2 > SegmNdof(0)
  {
  }

  /** The vertex functions are the barycentric coordinates and sum to 1. */
  lemma SegmPartitionOfUnity(order: nat, vnums: seq<int>, x: real)
    requires |vnums| == 2
    ensures var s := SegmShape(RealNumeric(), order, vnums, x);
      s[0] == x && s[1] == 1.0 - x && s[0] + s[1] == 1.0
  {
  }

  /** On the reference segment the edge coordinate stays in [-1, 1], running
      from -1 at the vertex with the smaller global number to 1 at the other. */
  lemma SegmEdgeCoordinateRange(vnums: seq<int>, x: real)
    requires |vnums| == 2
    ensures var e := Orient(SegmEdge, vnums);
      var lami := SegmLam(RealNumeric(), x);
      var xi := SegmEdgeCoordinate(RealNumeric(), vnums, x);
      && (0.0 <= x <= 1.0 ==> -1.0 <= xi <= 1.0)
      && (lami[e.0] == 1.0 ==> xi == -1.0)
      && (lami[e.1] == 1.0 ==> xi == 1.0)
  {
  }

  /** The routine commutes with any map that preserves the scalar operations. */
  lemma {:induction false} SegmShapeImage<T(!new), U>(ops: Numeric<T>, dst: Numeric<U>, h: T -> U, order: nat, vnums: seq<int>, x: T)
    requires Homomorphism(ops, dst, h) && |vnums| == 2
    ensures Image(h, SegmShape(ops, order, vnums, x)) == SegmShape(dst, order, vnums, h(x))
  {
    var lami := SegmLam(ops, x);
    assert Image(h, lami) == SegmLam(dst, h(x));
    if order >= 2 {
      var xi := SegmEdgeCoordinate(ops, vnums, x);
      assert h(xi) == SegmEdgeCoordinate(dst, vnums, h(x));
      RecurrenceImage(ops, dst, h, order, xi, ops.lift(1.0), true);
      ImageDrop(h, IntegratedLegendrePolynomial(ops, order, xi), 2);
    }
    ImageAppend(h, lami, SegmEdgeDofs(ops, order, vnums, x));
  }

  /** Value/derivative consistency: the value parts of the AutoDiff
      evaluation are the double evaluation at the value of the input. */
  lemma SegmDualValues(n: nat, order: nat, vnums: seq<int>, x: Dual)
    requires |vnums| == 2
    ensures var s := SegmShape(DualNumeric(n), order, vnums, x);
      |s| == |SegmShape(RealNumeric(), order, vnums, x.value)|
      && forall i :: 0 <= i < |s| ==> s[i].value == SegmShape(RealNumeric(), order, vnums, x.value)[i]
  {
    ValuePreserved(n);
    SegmShapeImage(DualNumeric(n), RealNumeric(), Value, order, vnums, x);
  }

  /** d/dx of the vertex functions x and 1 - x. */
  lemma SegmVertexGradients(order: nat, vnums: seq<int>, x: real)
    requires |vnums| == 2
    ensures var s := SegmShape(DualNumeric(1), order, vnums, Variable(x, 0, 1));
      s[0].DValue(0) == 1.0 && s[1].DValue(0) == -1.0
  {
  }
}
