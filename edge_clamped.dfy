/** The clamped edge program: each edge is a quad of four vertices of seven
    floats `x, y, normal_x, normal_y, thickness, color, radius`, drawn as two
    indexed triangles. The far end is pulled back in the shader by the
    signed clamp radius. */
module EdgeClamped {
  import opened Records
  import opened VertexBuffer

  const POINTS: nat := 4
  const ATTRIBUTES: nat := 7
  /** Floats per edge slot. */
  const STRIDE: nat := POINTS * ATTRIBUTES

  /** Attribute positions inside one vertex. */
  const X: nat := 0
  const Y: nat := 1
  const NORMAL_X: nat := 2
  const NORMAL_Y: nat := 3
  const THICKNESS: nat := 4
  const COLOR: nat := 5
  const RADIUS: nat := 6

  /** Attribute `a` of point `p` in an edge record. */
  function Attr(rec: seq<real>, p: nat, a: nat): real
    requires |rec| == STRIDE && p < POINTS && a < ATTRIBUTES
  {
    rec[p * ATTRIBUTES + a]
  }

  /** The edge's normal for direction `(dx, dy)`. `invSqrt` stands for
      `1 / Math.sqrt`, whose rounding is not modelled. A zero-length
      direction gives the zero normal; otherwise the normal is `(-dy, dx)`
      scaled by `invSqrt` of the squared length (see NormalIsPerpendicular). */
  function Normal(dx: real, dy: real, invSqrt: real -> real): (n: (real, real))
    ensures dx * dx + dy * dy == 0.0 ==> n.0 == 0.0 && n.1 == 0.0
  {
    var len := dx * dx + dy * dy;
    if len != 0.0 then
      var k := invSqrt(len);
      (-dy * k, dx * k)
    else
      (0.0, 0.0)
  }

  /** The normal is perpendicular to the edge direction and, when `invSqrt`
      is positive, a quarter turn counter-clockwise from it; so the quad
      widens symmetrically on both sides of the edge. */
  lemma NormalIsPerpendicular(dx: real, dy: real, invSqrt: real -> real)
    ensures var n := Normal(dx, dy, invSqrt); n.0 * dx + n.1 * dy == 0.0
    ensures var n := Normal(dx, dy, invSqrt);
            dx * dx + dy * dy != 0.0 && invSqrt(dx * dx + dy * dy) > 0.0 ==> dx * n.1 - dy * n.0 > 0.0
  {
    var len := dx * dx + dy * dy;
    if len != 0.0 {
      var k := invSqrt(len);
      assert Normal(dx, dy, invSqrt).0 == -dy * k && Normal(dx, dy, invSqrt).1 == dx * k;
      assert (-dy * k) * dx + (dx * k) * dy == 0.0;
      assert dx * (dx * k) - dy * (-dy * k) == len * k;
      if k > 0.0 {
        assert len > 0.0;
        assert len * k > 0.0;
      }
    }
  }

  /** One vertex of the quad. */
  function Point(x: real, y: real, n1: real, n2: real, thickness: real, color: real, radius: real): seq<real>
  {
    [x, y, n1, n2, thickness, color, radius]
  }

  /** The four points of a visible edge's quad: the source with the
      normal and with its negation, then the target likewise, the target's
      points carrying the clamp radius `+radius` and `-radius`. */
  function Quad(x1: real, y1: real, x2: real, y2: real, n1: real, n2: real,
                thickness: real, color: real, radius: real): seq<real>
  {
    Point(x1, y1, n1, n2, thickness, color, 0.0)
    + Point(x1, y1, -n1, -n2, thickness, color, 0.0)
    + Point(x2, y2, n1, n2, thickness, color, radius)
    + Point(x2, y2, -n1, -n2, thickness, color, -radius)
  }

  predicate AnyHidden(source: NodeData, target: NodeData, data: EdgeData)
  {
    source.hidden || target.hidden || data.hidden
  }

  /** The 28 floats `process` writes for one edge: zeros when the edge or
      an endpoint is hidden, otherwise four points of seven attributes
      (see EdgeRecordZeroIffHidden and EdgeRecordLayout). */
  function EdgeRecord(source: NodeData, target: NodeData, data: EdgeData,
                      floatColor: string -> real, invSqrt: real -> real): (r: seq<real>)
    ensures |r| == STRIDE
  {
    if AnyHidden(source, target, data) then Zeros(STRIDE)
    else
      var thickness := SizeOrOne(data.size);
      var radius := NonZeroOrOne(target.size);
      var color := floatColor(data.color);
      var n := Normal(target.x - source.x, target.y - source.y, invSqrt);
      Quad(source.x, source.y, target.x, target.y, n.0, n.1, thickness, color, radius)
  }

  /** A record is all zeros exactly when the edge or one of its endpoints
      is hidden: a visible edge's thickness is never 0. */
  lemma EdgeRecordZeroIffHidden(source: NodeData, target: NodeData, data: EdgeData,
                                floatColor: string -> real, invSqrt: real -> real)
    ensures AllZero(EdgeRecord(source, target, data, floatColor, invSqrt)) <==> AnyHidden(source, target, data)
  {
    var r := EdgeRecord(source, target, data, floatColor, invSqrt);
    if !AnyHidden(source, target, data) {
      VisibleEdgeRecord(source, target, data, floatColor, invSqrt);
      assert r[THICKNESS] == SizeOrOne(data.size) != 0.0;
    }
  }

  /** Field placement of a visible edge: points 0 and 1 sit on the source
      and points 2 and 3 on the target; each flipped point carries the exact
      negation of its partner's normal, which is `Normal` of the direction;
      thickness and colour are the same in every point; the clamp radius is
      `0, 0, +r, -r` with `r` the target's size. */
  lemma EdgeRecordLayout(source: NodeData, target: NodeData, data: EdgeData,
                         floatColor: string -> real, invSqrt: real -> real)
    requires !AnyHidden(source, target, data)
    ensures var r := EdgeRecord(source, target, data, floatColor, invSqrt);
      && Attr(r, 0, X) == source.x && Attr(r, 0, Y) == source.y
      && Attr(r, 1, X) == source.x && Attr(r, 1, Y) == source.y
      && Attr(r, 2, X) == target.x && Attr(r, 2, Y) == target.y
      && Attr(r, 3, X) == target.x && Attr(r, 3, Y) == target.y
    ensures var r := EdgeRecord(source, target, data, floatColor, invSqrt);
      && Attr(r, 1, NORMAL_X) == -Attr(r, 0, NORMAL_X) && Attr(r, 1, NORMAL_Y) == -Attr(r, 0, NORMAL_Y)
      && Attr(r, 2, NORMAL_X) == Attr(r, 0, NORMAL_X) && Attr(r, 2, NORMAL_Y) == Attr(r, 0, NORMAL_Y)
      && Attr(r, 3, NORMAL_X) == -Attr(r, 2, NORMAL_X) && Attr(r, 3, NORMAL_Y) == -Attr(r, 2, NORMAL_Y)
      && Attr(r, 0, NORMAL_X) == Normal(target.x - source.x, target.y - source.y, invSqrt).0
      && Attr(r, 0, NORMAL_Y) == Normal(target.x - source.x, target.y - source.y, invSqrt).1
    ensures var r := EdgeRecord(source, target, data, floatColor, invSqrt);
      forall p :: 0 <= p < POINTS ==>
        && Attr(r, p, THICKNESS) == SizeOrOne(data.size)
        && Attr(r, p, COLOR) == floatColor(data.color)
    ensures var r := EdgeRecord(source, target, data, floatColor, invSqrt);
      && Attr(r, 0, RADIUS) == 0.0 && Attr(r, 1, RADIUS) == 0.0
      && Attr(r, 2, RADIUS) == NonZeroOrOne(target.size)
      && Attr(r, 3, RADIUS) == -NonZeroOrOne(target.size)
  {
    VisibleEdgeRecord(source, target, data, floatColor, invSqrt);
  }

  lemma HiddenEdgeRecord(source: NodeData, target: NodeData, data: EdgeData,
                         floatColor: string -> real, invSqrt: real -> real)
    requires AnyHidden(source, target, data)
    ensures EdgeRecord(source, target, data, floatColor, invSqrt) == Zeros(STRIDE)
  {
  }

  /** A visible edge's record is its four points laid end to end. */
  lemma VisibleEdgeRecord(source: NodeData, target: NodeData, data: EdgeData,
                          floatColor: string -> real, invSqrt: real -> real)
    requires !AnyHidden(source, target, data)
    ensures var n := Normal(target.x - source.x, target.y - source.y, invSqrt);
            var thickness, color := SizeOrOne(data.size), floatColor(data.color);
            var radius := NonZeroOrOne(target.size);
            EdgeRecord(source, target, data, floatColor, invSqrt)
              == Quad(source.x, source.y, target.x, target.y, n.0, n.1, thickness, color, radius)
  {
  }

  /** Two nodes at (0, 0) and (10, 0), the target of size 3, joined by an
      edge of thickness 2: the direction is +x, so the normal is (0, 1) once
      `1 / sqrt(100)` is 0.1, and the far points carry radius +3 and -3. */
  lemma HorizontalEdgeExample(floatColor: string -> real, invSqrt: real -> real, red: string)
    requires invSqrt(100.0) == 0.1
    ensures var c := floatColor(red);
            EdgeRecord(NodeData(0.0, 0.0, 5.0, "", false), NodeData(10.0, 0.0, 3.0, "", false),
                       EdgeData(Some(2.0), red, false), floatColor, invSqrt)
              == [0.0, 0.0, 0.0, 1.0, 2.0, c, 0.0,
                  0.0, 0.0, 0.0, -1.0, 2.0, c, 0.0,
                  10.0, 0.0, 0.0, 1.0, 2.0, c, 3.0,
                  10.0, 0.0, 0.0, -1.0, 2.0, c, -3.0]
  {
    var source, target := NodeData(0.0, 0.0, 5.0, "", false), NodeData(10.0, 0.0, 3.0, "", false);
    var n := Normal(10.0, 0.0, invSqrt);
    assert n.0 == 0.0 && n.1 == 1.0;
    VisibleEdgeRecord(source, target, EdgeData(Some(2.0), red, false), floatColor, invSqrt);
  }

  /** Element ranges of `Uint16Array` and `Uint32Array`. */
  const INDEX_RANGE_16: nat := 0x1_0000
  const INDEX_RANGE_32: nat := 0x1_0000_0000

  function IndexRange(wide: bool): nat
  {
    if wide then INDEX_RANGE_32 else INDEX_RANGE_16
  }

  /** The value a typed index array holds after `indices[c] = v`: the
      assignment reduces `v` modulo the element range, so a point index past
      the range wraps onto a low point instead of being dropped. */
  function StoreIndex(v: nat, wide: bool): (r: nat)
    ensures r < IndexRange(wide)
    ensures v < IndexRange(wide) ==> r == v
  {
    if wide then v % INDEX_RANGE_32 else v % INDEX_RANGE_16
  }

  /** A stored index differs from the written one by a multiple of the
      element range: it wraps, it is never clamped or dropped. */
  lemma StoreIndexWraps(v: nat, wide: bool)
    ensures (v - StoreIndex(v, wide)) % IndexRange(wide) == 0
    ensures v >= IndexRange(wide) ==> StoreIndex(v, wide) == StoreIndex(v - IndexRange(wide), wide)
  {
    if wide {
      var m := INDEX_RANGE_32;
      assert v == m * (v / m) + v % m;
      assert v - StoreIndex(v, wide) == m * (v / m);
    } else {
      var m := INDEX_RANGE_16;
      assert v == m * (v / m) + v % m;
      assert v - StoreIndex(v, wide) == m * (v / m);
    }
  }

  /** The six corners of a quad's two triangles, relative to its first
      point: triangle `(0, 1, 2)` and triangle `(2, 1, 3)`. */
  function Corner(t: nat): nat
    requires t < 6
  {
    if t == 0 then 0 else if t == 1 then 1 else if t == 2 then 2
    else if t == 3 then 2 else if t == 4 then 1 else 3
  }

  /** Closed form of index number `j`: corner `j % 6` of quad `j / 6`. */
  function IndexAt(j: nat): nat
  {
    4 * (j / 6) + Corner(j % 6)
  }

  /** Reference definition of the index list for `k` quads, built quad by
      quad as `computeIndices`'s loop does. */
  function IndexPattern(k: nat): (r: seq<nat>)
    ensures |r| == 6 * k
  {
    if k == 0 then []
    else
      var i := 4 * (k - 1);
      IndexPattern(k - 1) + [i, i + 1, i + 2, i + 2, i + 1, i + 3]
  }

  /** A vertex buffer of `n` floats holds `n / STRIDE` edge slots, so
      `n / ATTRIBUTES` points and room for six indices per slot. */
  lemma PointsPerSlot(n: nat)
    requires n % STRIDE == 0
    ensures n / ATTRIBUTES == POINTS * (n / STRIDE)
    ensures n / ATTRIBUTES + n / ATTRIBUTES / 2 == 6 * (n / STRIDE)
  {
    var k := n / STRIDE;
    assert n == 7 * (4 * k);
  }

  lemma IndexAtQuad(q: nat, t: nat)
    requires t < 6
    ensures IndexAt(6 * q + t) == 4 * q + Corner(t)
  {
    assert (6 * q + t) / 6 == q && (6 * q + t) % 6 == t;
  }

  /** The six indices of quad `q`: triangles `(4q, 4q+1, 4q+2)` and
      `(4q+2, 4q+1, 4q+3)`. */
  lemma QuadCorners(q: nat)
    ensures IndexAt(6 * q) == 4 * q && IndexAt(6 * q + 1) == 4 * q + 1
    ensures IndexAt(6 * q + 2) == 4 * q + 2 && IndexAt(6 * q + 3) == 4 * q + 2
    ensures IndexAt(6 * q + 4) == 4 * q + 1 && IndexAt(6 * q + 5) == 4 * q + 3
  {
    IndexAtQuad(q, 0);
    IndexAtQuad(q, 1);
    IndexAtQuad(q, 2);
    IndexAtQuad(q, 3);
    IndexAtQuad(q, 4);
    IndexAtQuad(q, 5);
  }

  /** Entry `j` of the quad-by-quad index list is `IndexAt(j)`; so entries `6q .. 6q+5` are
      `4q, 4q+1, 4q+2, 4q+2, 4q+1, 4q+3`. */
  lemma {:induction false} IndexPatternClosedForm(k: nat)
    ensures forall j :: 0 <= j < 6 * k ==> IndexPattern(k)[j] == IndexAt(j)
  {
    if k > 0 {
      IndexPatternClosedForm(k - 1);
      var q := k - 1;
      forall j | 0 <= j < 6 * k
        ensures IndexPattern(k)[j] == IndexAt(j)
      {
        if j >= 6 * q {
          IndexAtQuad(q, j - 6 * q);
        }
      }
    }
  }

  /** Every index of `k` quads names one of their `4k` points. */
  lemma IndexInPointRange(k: nat, j: nat)
    requires j < 6 * k
    ensures IndexAt(j) < 4 * k
  {
    var q, t := j / 6, j % 6;
    assert j == 6 * q + t;
    IndexAtQuad(q, t);
    assert q < k;
  }

  /** With 16-bit indices, up to 16384 edges (65536 points) are indexed
      exactly. */
  lemma NarrowIndicesExactUpTo(k: nat, j: nat)
    requires k <= INDEX_RANGE_16 / 4 && j < 6 * k
    ensures StoreIndex(IndexAt(j), false) == IndexAt(j)
  {
    IndexInPointRange(k, j);
  }

  /** With 16-bit indices every index of edge `q + 16384` wraps onto the
      matching index of edge `q`: such edges are not dropped, their
      triangles alias earlier points. */
  lemma NarrowIndicesWrap(j: nat)
    ensures IndexAt(j + 6 * 16384) == IndexAt(j) + INDEX_RANGE_16
    ensures StoreIndex(IndexAt(j + 6 * 16384), false) == StoreIndex(IndexAt(j), false)
  {
    var q, t := j / 6, j % 6;
    assert j == 6 * q + t && j + 6 * 16384 == 6 * (q + 16384) + t;
    IndexAtQuad(q + 16384, t);
    IndexAtQuad(q, t);
  }

  /** The index list for `l` points, four per quad, in a fresh typed array
      of `l + l / 2` elements of the chosen width: the quad-by-quad pattern,
      each entry reduced to the element range. */
  method BuildIndices(l: nat, wide: bool) returns (indices: array<nat>)
    requires l % POINTS == 0
    ensures fresh(indices)
    ensures indices.Length == l + l / 2 == 6 * (l / POINTS)
    ensures forall j :: 0 <= j < indices.Length ==> indices[j] == StoreIndex(IndexPattern(l / POINTS)[j], wide)
  {
    ghost var k := l / POINTS;
    var size := l + l / 2;
    indices := new nat[size];
    var i, c := 0, 0;
    ghost var q := 0;
    while i < l
      invariant 0 <= q <= k && i == 4 * q && c == 6 * q
      invariant forall j :: 0 <= j < c ==> indices[j] == StoreIndex(IndexPattern(q)[j], wide)
    {
      indices[c] := StoreIndex(i, wide); c := c + 1;
      indices[c] := StoreIndex(i + 1, wide); c := c + 1;
      indices[c] := StoreIndex(i + 2, wide); c := c + 1;
      indices[c] := StoreIndex(i + 2, wide); c := c + 1;
      indices[c] := StoreIndex(i + 1, wide); c := c + 1;
      indices[c] := StoreIndex(i + 3, wide); c := c + 1;
      i := i + 4;
      q := q + 1;
    }
  }

  class EdgeClampedProgram {
    /** The vertex buffer: `this.array`, a `Float32Array`, in sigma.js. */
    var vertices: array<real>
    /** The index buffer, each element reduced to the chosen width. */
    var indicesArray: array<nat>
    /** Index width, fixed at construction from the capability probe. */
    const canUse32BitsIndices: bool
    /** The colour packer, an external collaborator. */
    const floatColor: string -> real
    /** `1 / Math.sqrt`, an external numeric routine. */
    const invSqrt: real -> real

    ghost predicate Valid()
      reads this, indicesArray
    {
      && vertices.Length % STRIDE == 0
      && forall j :: 0 <= j < indicesArray.Length ==> indicesArray[j] < IndexRange(canUse32BitsIndices)
    }

    /** Number of edge slots in the vertex buffer. */
    function EdgeCount(): (n: nat)
      reads this
      ensures n * STRIDE <= vertices.Length
    {
      vertices.Length / STRIDE
    }

    constructor (canUse32BitsIndices: bool, floatColor: string -> real, invSqrt: real -> real)
      ensures Valid() && fresh(vertices) && fresh(indicesArray)
      ensures vertices.Length == 0 && indicesArray.Length == 0
      ensures this.canUse32BitsIndices == canUse32BitsIndices
      ensures this.floatColor == floatColor && this.invSqrt == invSqrt
    {
      this.canUse32BitsIndices := canUse32BitsIndices;
      this.floatColor := floatColor;
      this.invSqrt := invSqrt;
      vertices := new real[0];
      indicesArray := new nat[0];
    }

    /** Replaces the vertex buffer by a zero-filled one with room for
        `capacity` edges; the index buffer is left as it was. */
    method Allocate(capacity: nat)
      requires Valid()
      modifies this`vertices
      ensures Valid() && fresh(vertices)
      ensures vertices.Length == STRIDE * capacity
      ensures AllZero(vertices[..])
      ensures EdgeCount() == capacity
    {
      vertices := new real[POINTS * ATTRIBUTES * capacity](_ => 0.0);
    }

    /** Writes the edge from `source` to `target` into slot `offset`; every
        float outside the slot is kept. */
    method Process(source: NodeData, target: NodeData, data: EdgeData, offset: nat)
      requires Valid() && offset < EdgeCount()
      modifies vertices
      ensures vertices[..] == Splice(old(vertices[..]), STRIDE * offset,
                                     EdgeRecord(source, target, data, floatColor, invSqrt))
    {
      var start := offset * STRIDE;
      if source.hidden || target.hidden || data.hidden {
        ZeroRecord(start);
        ZeroSlot(old(vertices[..]), vertices[..], start, STRIDE);
        HiddenEdgeRecord(source, target, data, floatColor, invSqrt);
        return;
      }

      var thickness := SizeOrOne(data.size);
      var x1, y1 := source.x, source.y;
      var x2, y2 := target.x, target.y;
      var radius := NonZeroOrOne(target.size);
      var color := floatColor(data.color);

      // Computing normals
      var dx, dy := x2 - x1, y2 - y1;
      ghost var n := Normal(dx, dy, invSqrt);
      var len, n1, n2 := dx * dx + dy * dy, 0.0, 0.0;
      if len != 0.0 {
        len := invSqrt(len);
        n1 := -dy * len;
        n2 := dx * len;
      }
      assert n1 == n.0 && n2 == n.1;

      var i := POINTS * ATTRIBUTES * offset;
      WriteQuad(i, x1, y1, x2, y2, n1, n2, thickness, color, radius);
      VisibleEdgeRecord(source, target, data, floatColor, invSqrt);
    }

    /** Zeroes the 28 floats of a slot from float `start` on, one by one;
        nothing else changes. */
    method ZeroRecord(start: nat)
      requires start + STRIDE <= vertices.Length
      modifies vertices
      ensures forall k :: start <= k < start + STRIDE ==> vertices[k] == 0.0
      ensures forall k :: 0 <= k < vertices.Length && !(start <= k < start + STRIDE) ==> vertices[k] == old(vertices[k])
    {
      var i, l := start, start + STRIDE;
      while i < l
        invariant start <= i <= l
        invariant forall k :: start <= k < i ==> vertices[k] == 0.0
        invariant forall k :: 0 <= k < vertices.Length && !(start <= k < i) ==> vertices[k] == old(vertices[k])
      {
        vertices[i] := 0.0;
        i := i + 1;
      }
    }

    /** Writes the four points of a visible edge's quad from float `i` on:
        source and target, each with the normal and its negation. */
    method WriteQuad(i: nat, x1: real, y1: real, x2: real, y2: real, n1: real, n2: real,
                     thickness: real, color: real, radius: real)
      requires i + STRIDE <= vertices.Length
      modifies vertices
      ensures vertices[..] == Splice(old(vertices[..]), i,
                                     Quad(x1, y1, x2, y2, n1, n2, thickness, color, radius))
    {
      ghost var rec := Quad(x1, y1, x2, y2, n1, n2, thickness, color, radius);
      // First point
      WritePoint(i, x1, y1, n1, n2, thickness, color, 0.0);
      // First point flipped
      WritePoint(i + ATTRIBUTES, x1, y1, -n1, -n2, thickness, color, 0.0);
      // Second point
      WritePoint(i + 2 * ATTRIBUTES, x2, y2, n1, n2, thickness, color, radius);
      // Second point flipped
      WritePoint(i + 3 * ATTRIBUTES, x2, y2, -n1, -n2, thickness, color, -radius);
      assert forall k :: 0 <= k < vertices.Length ==>
        vertices[k] == if i <= k < i + STRIDE then rec[k - i] else old(vertices[k]);
    }

    /** Writes one vertex, its seven attributes in layout order, at float
        `i`; nothing else changes. */
    method WritePoint(i: nat, x: real, y: real, n1: real, n2: real, thickness: real, color: real, radius: real)
      requires i + ATTRIBUTES <= vertices.Length
      modifies vertices
      ensures forall k :: 0 <= k < vertices.Length ==>
        vertices[k] == if i <= k < i + ATTRIBUTES then Point(x, y, n1, n2, thickness, color, radius)[k - i]
                       else old(vertices[k])
    {
      var j := i;
      vertices[j] := x; j := j + 1;
      vertices[j] := y; j := j + 1;
      vertices[j] := n1; j := j + 1;
      vertices[j] := n2; j := j + 1;
      vertices[j] := thickness; j := j + 1;
      vertices[j] := color; j := j + 1;
      vertices[j] := radius;
    }

    /** Builds a fresh index buffer of two triangles per quad for every edge
        slot; it depends on the vertex buffer's length only. */
    method ComputeIndices()
      requires Valid()
      modifies this`indicesArray
      ensures Valid() && fresh(indicesArray)
      ensures indicesArray.Length == 6 * EdgeCount()
      ensures forall j :: 0 <= j < indicesArray.Length ==>
                indicesArray[j] == StoreIndex(IndexPattern(EdgeCount())[j], canUse32BitsIndices)
    {
      var l := vertices.Length / ATTRIBUTES;
      PointsPerSlot(vertices.Length);
      var indices := BuildIndices(l, canUse32BitsIndices);
      indicesArray := indices;
    }
  }
}
