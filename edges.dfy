/** Edge orientation.  An edge is a pair of local vertex indices taken from
    the element's edge table; before its edge functions are evaluated it is
    turned, if need be, so that it runs from the smaller to the larger global
    vertex number.  Two elements sharing an edge thereby use the same
    direction on it, whatever their local numbering. */
module EdgeOrientation {

  type Edge = (nat, nat)

  /** The one edge of the reference segment (ET_trait<ET_SEGM>::GetEdge(0)). */
  const SegmEdge: Edge := (0, 1)

  /** The edges of the reference triangle, in local edge order
      (ET_trait<ET_TRIG>::GetEdge). */
  function TrigEdge(i: nat): (e: Edge)
    requires i < 3
    ensures e.0 < 3 && e.1 < 3 && e.0 != e.1
  {
    [(2, 0), (1, 2), (0, 1)][i]
  }

  /** The edge after the conditional swap of its two ends. */
  function Orient(e: Edge, vnums: seq<int>): (r: Edge)
    requires e.0 < |vnums| && e.1 < |vnums|
    ensures r == e || r == (e.1, e.0)
    ensures vnums[r.0] <= vnums[r.1]
  {
    if vnums[e.1] < vnums[e.0] then (e.1, e.0) else e
  }

  /** The oriented edge starts at the smaller and ends at the larger global
      number of the two, and keeps the same two local vertices. */
  lemma OrientGlobal(e: Edge, vnums: seq<int>)
    requires e.0 < |vnums| && e.1 < |vnums|
    ensures var r := Orient(e, vnums);
      && vnums[r.0] == Min(vnums[e.0], vnums[e.1])
      && vnums[r.1] == Max(vnums[e.0], vnums[e.1])
      && {r.0, r.1} == {e.0, e.1}
  {
  }

  /** Conformity: two elements that see the same geometric edge (the same two
      global numbers), each through its own local numbering and in
      either local direction, orient it to the same pair of global numbers. */
  lemma OrientAgrees(e: Edge, vnums: seq<int>, f: Edge, wnums: seq<int>)
    requires e.0 < |vnums| && e.1 < |vnums| && f.0 < |wnums| && f.1 < |wnums|
    requires {vnums[e.0], vnums[e.1]} == {wnums[f.0], wnums[f.1]}
    ensures var r, s := Orient(e, vnums), Orient(f, wnums);
      vnums[r.0] == wnums[s.0] && vnums[r.1] == wnums[s.1]
  {
    OrientGlobal(e, vnums);
    OrientGlobal(f, wnums);
    assert vnums[e.0] in {wnums[f.0], wnums[f.1]};
    assert vnums[e.1] in {wnums[f.0], wnums[f.1]};
    assert wnums[f.0] in {vnums[e.0], vnums[e.1]};
    assert wnums[f.1] in {vnums[e.0], vnums[e.1]};
  }

  function Min(a: int, b: int): int { if a <= b then a else b }
  function Max(a: int, b: int): int { if a <= b then b else a }
}
