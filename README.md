# High-order segment and triangle elements

This project models `src/myhoelement.cpp` in Dafny. The file defines two hierarchical high-order scalar finite elements for NGSolve: `MyHighOrderSegm` on the reference segment and `MyHighOrderTrig` on the reference triangle.

Each element has three parts:
- a constructor that fixes its polynomial order and declares its number of shape functions (dofs);
- a templated evaluation routine `T_CalcShape`, which writes the shape functions into a caller's buffer through a running index `ii`;
- two wrappers:
  - `CalcShape` runs the routine on plain scalars;
  - `CalcDShape` runs it on `AutoDiff<N>` dual numbers and copies the partial derivatives into a matrix.

The buffer is laid out as follows:
- the vertex functions (the barycentric coordinates);
- for each edge in local order, the edge functions of degrees 2 .. order. They are taken from an integrated or scaled integrated Legendre family of the edge coordinate. The edge is first oriented from its smaller to its larger global vertex number.
- for the triangle, the interior functions `bub * polx[i] * poly[j]` for `i + j <= order - 3`, where `bub = lam0 lam1 lam2`.

Files:
- `numerics.dfy`: `Numeric<T>`, the scalar operations a kernel may use (lift a constant, +, -, *). Its instance for `real` is the model of `double`. `Homomorphism` is a map between two such types that commutes with every operation.
- `autodiff.dfy`: `Dual`, the model of `AutoDiff<N>` (a value plus N partials with the differentiation rules), and the proof that taking values is a homomorphism.
- `polynomials.dfy`: the four Legendre-type generators the kernels call, given by their three-term recurrences.
- `edges.dfy`: the reference edge tables and the orientation by global vertex numbers.
- `segm.dfy`, `trig.dfy`: the two elements.

How the kernels are modelled:
- Each kernel is a generic method over `Numeric<T>` that fills an `array<T>`. It is proved equal to a specification function (`SegmShape`, `TrigShape`) on the written prefix, and to leave the rest of the buffer alone.
- The properties of the elements are lemmas about those functions.
- `CalcDShape` instantiates the kernel with `DualNumeric(N)` and a fresh `array<Dual>` of length ndof, then copies the partials into an `array2<real>`.
- At order 3 the loop `j = 2 .. order` writes two edge functions per edge (degrees 2 and 3), so there are 3 + 6 + 1 = 10 dofs (`TrigOrderThree`).

## Model

| member | source | states |
|---|---|---|
| SegmElement.HighOrderSegm.constructor | src/myhoelement.cpp:15-17 | the segment element declares order + 1 dofs (order >= 1, see Findings) |
| SegmElement.HighOrderSegm.GenericCalcShape | src/myhoelement.cpp:41-67 | the buffer's first ndof entries become the vertex functions x, 1 - x followed by the edge functions of degrees 2 .. order of the oriented edge; entries from ndof on are untouched |
| SegmElement.HighOrderSegm.CalcShape | src/myhoelement.cpp:19-24 | the scalar evaluation fills exactly the ndof dofs, starting with x and 1 - x |
| SegmElement.HighOrderSegm.CalcDShape | src/myhoelement.cpp:27-35 | dshape(i, 0) is the derivative part of dof i of the AutoDiff<1> evaluation seeded with dx/dx = 1, for every i < ndof; the vertex derivatives are 1 and -1; all other entries of dshape are unchanged |
| SegmElement.CopyDerivatives | src/myhoelement.cpp:33-34 | column 0 of rows 0 .. ndof - 1 of dshape receives the derivative parts, and nothing else changes |
| SegmElement.SegmShapeFitsNdof | src/myhoelement.cpp:44-66 | for order >= 1 the routine writes 2 vertex and order - 1 edge entries, exactly ndof = order + 1 |
| SegmElement.SegmOrderZeroOverrun | src/myhoelement.cpp:44-49 | at order 0 the routine writes 2 entries while ndof is 1 |
| SegmElement.SegmPartitionOfUnity | src/myhoelement.cpp:44-47 | the vertex dofs are x and 1 - x, and they sum to 1 |
| SegmElement.SegmEdgeCoordinateRange | src/myhoelement.cpp:56-61 | for 0 <= x <= 1 the edge coordinate xi lies in [-1, 1]; it is -1 at the vertex with the smaller global number and 1 at the other |
| SegmElement.SegmShapeImage | src/myhoelement.cpp:41-67 | any map that preserves lift, +, - and * commutes with the whole segment routine |
| SegmElement.SegmDualValues | src/myhoelement.cpp:30-32 | the value parts of the AutoDiff evaluation are the double evaluation at the value of the input, entry by entry |
| SegmElement.SegmVertexGradients | src/myhoelement.cpp:30-34 | with x seeded as variable 0, the vertex dofs have derivatives 1 and -1 |
| EdgeOrientation.TrigEdge | src/myhoelement.cpp:115 | each triangle edge joins two distinct local vertices 0 .. 2 |
| EdgeOrientation.Orient | src/myhoelement.cpp:56-58 | the conditionally swapped edge is the edge or its reverse, and runs from the smaller to the larger global number |
| EdgeOrientation.OrientGlobal | src/myhoelement.cpp:115-117 | the oriented edge starts at the minimum and ends at the maximum of its two global numbers, over the same two local vertices |
| EdgeOrientation.OrientAgrees | src/myhoelement.cpp:115-117 | two elements that share an edge orient it to the same pair of global numbers, whatever their local numbering |
| AutoDiff.Variable | src/myhoelement.cpp:87-88 | AutoDiff<n>(v, k) has value v and the k-th unit vector as its gradient |
| AutoDiff.DualNumeric | src/myhoelement.cpp:87-90 | AutoDiff<n> arithmetic: values combine as doubles, partials by the sum, difference and product rules, and a lifted constant has zero partials; every result has n partials |
| AutoDiff.ValuePreserved | src/myhoelement.cpp:87-90 | taking the value part maps each AutoDiff operation to the same operation on doubles |
| Polynomials.IntegratedLegendrePolynomial | src/myhoelement.cpp:63 | returns n + 1 values, starting with P_0 = -1 and P_1 = x |
| Polynomials.ScaledIntegratedLegendrePolynomial | src/myhoelement.cpp:127 | returns n + 1 values, starting with P_0 = -1 and P_1 = x |
| Polynomials.ScaledLegendrePolynomial | src/myhoelement.cpp:137 | returns n + 1 values, starting with P_0 = 1 and P_1 = x |
| Polynomials.LegendrePolynomial | src/myhoelement.cpp:138 | returns n + 1 values, starting with P_0 = 1 and P_1 = x |
| Polynomials.RecurrenceHolds | src/myhoelement.cpp:137-138 | each generator returns P_0 .. P_n, with P_0 = ±1, P_1 = x and the three-term recurrence from P_2 on |
| Polynomials.RecurrenceFirst | src/myhoelement.cpp:137-138 | the first polynomial of each family is the constant 1 (-1 for the integrated families) |
| Polynomials.RecurrenceImage | src/myhoelement.cpp:127 | any operation-preserving map commutes with a generator |
| Polynomials.ScaledIntegratedAtOne | src/myhoelement.cpp:123-124 | the scaled integrated family at scaling t = 1 is the integrated family |
| TrigElement.HighOrderTrig.constructor | src/myhoelement.cpp:71-73 | the triangle element declares (order + 1)(order + 2)/2 dofs (order >= 1, see Findings) |
| TrigElement.HighOrderTrig.GenericCalcShape | src/myhoelement.cpp:100-146 | the buffer's first ndof entries become the vertex, edge and interior functions in that order; entries from ndof on are untouched |
| TrigElement.HighOrderTrig.AddVertexDofs | src/myhoelement.cpp:103-108 | entries 0, 1, 2 become the barycentric coordinates and ii becomes 3 |
| TrigElement.HighOrderTrig.AddEdgeDofs | src/myhoelement.cpp:112-130 | ii advances by the total edge count, and the entries written are the three edge blocks in local edge order, each oriented by global numbers |
| TrigElement.HighOrderTrig.AddEdgeBlock | src/myhoelement.cpp:128-129 | polx[2] .. polx[order] are appended at ii, in order |
| TrigElement.HighOrderTrig.AddInteriorDofs | src/myhoelement.cpp:133-145 | for order >= 3 the interior block is appended at ii; below order 3 nothing is written |
| TrigElement.HighOrderTrig.AddInteriorRows | src/myhoelement.cpp:140-142 | the nested i/j loop appends its rows in order, row i holding bub * polx[i] * poly[j] |
| TrigElement.HighOrderTrig.AddInteriorRow | src/myhoelement.cpp:141-142 | one row of the inner j loop is appended at ii |
| TrigElement.HighOrderTrig.CalcShape | src/myhoelement.cpp:75-81 | the scalar evaluation fills exactly the ndof dofs, starting with x, y and 1 - x - y |
| TrigElement.HighOrderTrig.CalcDShape | src/myhoelement.cpp:84-96 | dshape(i, k) for k = 0, 1 is partial k of dof i of the AutoDiff<2> evaluation seeded with the unit gradients of x and y; the vertex gradients are (1,0), (0,1), (-1,-1); all other entries are unchanged |
| TrigElement.CopyGradients | src/myhoelement.cpp:91-95 | rows 0 .. ndof - 1 of dshape receive partials 0 and 1, and nothing else changes |
| TrigElement.TrigNdofSplit | src/myhoelement.cpp:72 | (order + 1)(order + 2)/2 = 3 + 3 (order - 1) + (order - 2)(order - 1)/2 for order >= 1 |
| TrigElement.EdgeBlocksLength | src/myhoelement.cpp:112-130 | each edge contributes order - 1 entries (none below order 2), so the edges together contribute 3 times that |
| TrigElement.InteriorRowsLength | src/myhoelement.cpp:140-142 | the first k rows of the triangular nested loop over m rows hold k (2m - k + 1)/2 entries |
| TrigElement.TrigShapeFitsNdof | src/myhoelement.cpp:105-142 | for order >= 1, ii ends at 3 + 3 (order - 1) + (order - 2)(order - 1)/2 = ndof; the interior loop writes exactly (order - 2)(order - 1)/2 entries |
| TrigElement.TrigOrderZeroOverrun | src/myhoelement.cpp:103-108 | at order 0 the routine writes 3 entries while ndof is 1 |
| TrigElement.TrigPartitionOfUnity | src/myhoelement.cpp:103-106 | the vertex dofs are x, y, 1 - x - y, and they sum to 1 |
| TrigElement.InteriorRowsAt | src/myhoelement.cpp:140-142 | in the nested loop, entry (i, j) sits right after the rows before i, at offset j, and equals bub * polx[i] * poly[j] |
| TrigElement.InteriorBlockAt | src/myhoelement.cpp:135-142 | every interior entry (i, j) with i + j <= order - 3 is bub * polx[i] * poly[j]; the reads stay in range because i < order - 1 = polx length and j < order = poly length |
| TrigElement.TrigInteriorAt | src/myhoelement.cpp:132-142 | the interior block starts in the buffer at index 3 + 3 (order - 1) |
| TrigElement.BubbleVanishes | src/myhoelement.cpp:135 | lam0 lam1 lam2 is 0 when x = 0, y = 0 or x + y = 1 |
| TrigElement.TrigInteriorVanishes | src/myhoelement.cpp:133-142 | on the boundary of the triangle every interior dof is 0 |
| TrigElement.TrigOrderThree | src/myhoelement.cpp:100-146 | at order 3 there are 10 dofs, and the single interior dof is the bubble x y (1 - x - y) |
| TrigElement.TrigEdgeTrace | src/myhoelement.cpp:119-129 | on an edge, with the edge ends' barycentrics s and 1 - s, the triangle's edge functions are the segment element's for the same two global vertex numbers |
| TrigElement.TrigShapeImage | src/myhoelement.cpp:100-146 | any operation-preserving map commutes with the whole triangle routine |
| TrigElement.TrigDualValues | src/myhoelement.cpp:87-90 | the value parts of the AutoDiff evaluation are the double evaluation at the values of the inputs, entry by entry |
| TrigElement.TrigVertexGradients | src/myhoelement.cpp:87-95 | the vertex dofs have gradients (1,0), (0,1), (-1,-1) |

## Left out

- Host framework types are replaced by plain Dafny values:
  - `ScalarFiniteElement` keeps only `order` and `ndof`;
  - `IntegrationPoint` becomes its real coordinates;
  - `BareSliceVector`, `BareSliceMatrix` and `Vector` become `array` and `array2`;
  - `ArrayMem` becomes `seq`.
- The global vertex numbers `vnums` are set by the framework outside this file. They are modelled as a constructor argument and are constant afterwards.
- The polynomial generators are library functions whose bodies are outside this file: `IntegratedLegendrePolynomial`, `ScaledIntegratedLegendrePolynomial`, `ScaledLegendrePolynomial` and `LegendrePolynomial`.
  - The model gives them the standard three-term recurrences, so they return n + 1 values built from lift, +, - and *.
  - Most kernel properties rely only on that much: the dof counts, the buffer layout, vanishing on the boundary and the value/derivative consistency.
  - Edge functions vanishing at the edge ends are not claimed, because that depends on the unseen definitions.
  - `TrigEdgeTrace` and `TrigOrderThree` hold for the recurrences given here. `TrigEdgeTrace` uses that the scaled family at t = 1 is the unscaled one, which holds here by definition. `TrigOrderThree` uses P_0 = 1 of the Legendre and scaled Legendre families.
- The `ET_trait<...>::GetEdge` tables are taken as the constants (0,1) for the segment and (2,0), (1,2), (0,1) for the triangle.
- IEEE double rounding is not modelled: doubles are `real`. The division by j inside the generators is a multiplication by the constant 1/j.
- The commented-out `DubinerBasis::EvalMult` alternative is dead code.
- A negative order is excluded, because order is a `nat`. Order 0 is excluded by the constructors' precondition, as described under Findings.

## Findings

| source | as written | input that shows it | evidently intended | confidence | as-written member | corrected member |
|---|---|---|---|---|---|---|
| src/myhoelement.cpp:15-17 | the segment declares order + 1 dofs for any order, but the routine always writes both vertex functions | order = 0: ndof = 1, and 2 entries are written, so CalcDShape's `Vector(ndof)` is overrun | order >= 1, where exactly ndof entries are written | high, not executed | SegmElement.SegmOrderZeroOverrun | SegmElement.SegmShapeFitsNdof |
| src/myhoelement.cpp:71-73 | the triangle declares (order + 1)(order + 2)/2 dofs for any order, but the routine always writes the three vertex functions | order = 0: ndof = 1, and 3 entries are written | order >= 1, where exactly ndof entries are written | high, not executed | TrigElement.TrigOrderZeroOverrun | TrigElement.TrigShapeFitsNdof |
