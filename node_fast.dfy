/** The fast node program: one GL point per node, each vertex four floats
    `x, y, size, color`, drawn without an index buffer. */
module NodeFast {
  import opened Records
  import opened VertexBuffer

  const POINTS: nat := 1
  const ATTRIBUTES: nat := 4
  /** Floats per node slot. */
  const STRIDE: nat := POINTS * ATTRIBUTES

  /** The four floats `process` writes for one node: its position, size and
      packed colour, or zeros when the node is hidden. */
  function NodeRecord(data: NodeData, floatColor: string -> real): (r: seq<real>)
    ensures |r| == STRIDE
    ensures data.hidden ==> AllZero(r)
    ensures !data.hidden ==> r[0] == data.x && r[1] == data.y && r[2] == data.size
    ensures !data.hidden ==> r[3] == floatColor(data.color)
  {
    if data.hidden then Zeros(STRIDE)
    else [data.x, data.y, data.size, floatColor(data.color)]
  }

  class NodeProgramFast {
    /** The vertex buffer: `this.array`, a `Float32Array`, in sigma.js. */
    var vertices: array<real>
    /** The colour packer, an external collaborator. */
    const floatColor: string -> real

    ghost predicate Valid()
      reads this
    {
      vertices.Length % STRIDE == 0
    }

    /** Number of points drawn by `render` (`array.length / ATTRIBUTES` in sigma.js). */
    function PointCount(): (n: nat)
      reads this
      ensures n * ATTRIBUTES <= vertices.Length
    {
      vertices.Length / ATTRIBUTES
    }

    constructor (floatColor: string -> real)
      ensures Valid() && fresh(vertices) && vertices.Length == 0
      ensures this.floatColor == floatColor
    {
      this.floatColor := floatColor;
      vertices := new real[0];
    }

    /** Replaces the vertex buffer by a zero-filled one with room for
        `capacity` nodes. */
    method Allocate(capacity: nat)
      modifies this
      ensures Valid() && fresh(vertices)
      ensures vertices.Length == STRIDE * capacity
      ensures AllZero(vertices[..])
      ensures PointCount() == capacity
    {
      vertices := new real[POINTS * ATTRIBUTES * capacity](_ => 0.0);
    }

    /** Writes node `data` into slot `offset`; every other float is kept. */
    method Process(data: NodeData, offset: nat)
      requires Valid() && offset < PointCount()
      modifies vertices
      ensures vertices[..] == Splice(old(vertices[..]), STRIDE * offset, NodeRecord(data, floatColor))
    {
      var color := floatColor(data.color);
      var i := offset * POINTS * ATTRIBUTES;
      if data.hidden {
        vertices[i] := 0.0; i := i + 1;
        vertices[i] := 0.0; i := i + 1;
        vertices[i] := 0.0; i := i + 1;
        vertices[i] := 0.0;
        return;
      }
      vertices[i] := data.x; i := i + 1;
      vertices[i] := data.y; i := i + 1;
      vertices[i] := data.size; i := i + 1;
      vertices[i] := color;
    }

    /** Point primitives need no index buffer: nothing changes. */
    method ComputeIndices()
      ensures vertices[..] == old(vertices[..])
    {
    }
  }
}
