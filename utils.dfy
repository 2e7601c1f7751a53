/** The constants shared by the drawing code: the ring size and the quad's geometry.
    Only lengths and index values are modelled; the float contents of the vertex
    array are not. */
module Utils {

  /** Frames whose synchronisation objects rotate; matches mailbox presentation. */
  const FRAMES_IN_FLIGHT: nat := 3

  /** `QUAD_DATA` holds this many `f32` values. */
  const QUAD_DATA_LEN: nat := 8

  /** Each vertex of `QUAD_DATA` is a two-component position. */
  const VERTEX_COMPONENTS: nat := 2

  /** Bytes per element of the two uploaded arrays (`f32` and `u16`). */
  const F32_SIZE: nat := 4
  const U16_SIZE: nat := 2

  /** Number of vertices `QUAD_DATA` describes. */
  function QuadVertexCount(): (n: nat)
    ensures n * VERTEX_COMPONENTS == QUAD_DATA_LEN
  {
    QUAD_DATA_LEN / VERTEX_COMPONENTS
  }

  /** `QUAD_INDICES`: two triangles of the quad. */
  function QuadIndices(): (r: seq<nat>)
    ensures |r| == 6 && |r| % 3 == 0
    ensures forall i :: 0 <= i < |r| ==> r[i] < QuadVertexCount()
  {
    [0, 1, 2,
     0, 2, 3]
  }

  /** The `t`-th triangle of an index list. */
  function Triangle(indices: seq<nat>, t: nat): (tri: seq<nat>)
    requires 3 * t + 3 <= |indices|
    ensures |tri| == 3
  {
    indices[3 * t .. 3 * t + 3]
  }

  /** Both triangles of the quad contain vertices 0 and 2, the diagonal they share,
      and between them they use every vertex of the quad. */
  lemma QuadTrianglesShareDiagonal()
    ensures forall t :: 0 <= t < |QuadIndices()| / 3 ==>
      0 in Triangle(QuadIndices(), t) && 2 in Triangle(QuadIndices(), t)
    ensures forall v :: 0 <= v < QuadVertexCount() ==> v in QuadIndices()
  {
    var q := QuadIndices();
    assert Triangle(q, 0) == [0, 1, 2];
    assert Triangle(q, 1) == [0, 2, 3];
    assert q[1] == 1 && q[5] == 3;
  }
}
