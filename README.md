# sigma.js WebGL program buffers, modelled in Dafny

This project models the CPU side of two sigma.js WebGL render programs: the
code that lays out vertex data and index data in typed arrays before they
are uploaded to the GPU.

- `EdgeClampedProgram` draws each edge as a quad of four vertices. Each
  vertex has seven floats: position, normal, thickness, packed colour and a
  signed clamp radius. The shader uses the radius to pull the far end of the
  edge back from the target node. The quads are drawn as indexed triangles,
  and the index width (16 or 32 bits) is fixed at construction.
- `NodeProgramFast` draws each node as one GL point of four floats: `x, y,
  size, color`. It has no index buffer.

Both programs keep a flat vertex buffer cut into fixed-width slots. `process`
overwrites exactly one slot. A hidden entity still fills its slot, with
zeros, so that every entity's offset stays the same.

Files:
- `records.dfy` (module `Records`): the node and edge display records, and
  JavaScript's `size || 1` fallback.
- `vertex_buffer.dfy` (module `VertexBuffer`): slot arithmetic shared by both
  programs. `Splice` writes one record into one slot. Lemmas cover the frame
  (other slots survive), idempotence, and filling every slot.
- `node_fast.dfy` (module `NodeFast`): the class `NodeProgramFast` and the
  function `NodeRecord`, which specifies one node's four floats.
- `edge_clamped.dfy` (module `EdgeClamped`): the class `EdgeClampedProgram`;
  the functions `EdgeRecord` and `Normal`, which specify an edge's 28 floats;
  and the index pattern, with its closed form, point range and wrap-around.

Vertex values are `real`. The colour packer `floatColor` and `1 / Math.sqrt`
are collaborators whose code is not part of this model. Each class takes
them at construction and holds them as `const` function fields. Nothing is
assumed about them beyond their type.

The field that sigma.js calls `array` is named `vertices` here, because
`array` is a reserved word in Dafny.

## Model

| member | source | states |
|---|---|---|
| `Records.SizeOrOne` | src/renderers/webgl/programs/edge.clamped.ts:121 | edge thickness is the edge's size when present and non-zero, else 1; it is never 0 |
| `Records.NonZeroOrOne` | src/renderers/webgl/programs/edge.clamped.ts:126 | clamp radius is the target's size when non-zero, and 1 when the size is 0; it is never 0 |
| `VertexBuffer.Splice` | src/renderers/webgl/programs/edge.clamped.ts:144-182 | writing a record at a float offset keeps the buffer length, puts the record's floats in place, and keeps every other float |
| `VertexBuffer.SpliceKeepsOtherSlots` | src/renderers/webgl/programs/edge.clamped.ts:116 | writing into slot `o2` leaves every other slot `o1` unchanged, so records written earlier at other offsets survive |
| `VertexBuffer.SpliceIdempotent` | src/renderers/webgl/programs/node.fast.ts:71-91 | processing the same record at the same offset twice gives the same buffer as doing it once |
| `VertexBuffer.FillSlotsFlattens` | src/renderers/webgl/programs/node.fast.ts:67-91 | after slots 0..n-1 are processed in order, the buffer prefix is the records laid end to end and the rest is unchanged; a full frame's result does not depend on what the buffer held before |
| `NodeFast.NodeRecord` | src/renderers/webgl/programs/node.fast.ts:74-90 | a node's slot is 4 floats: all zero if hidden, otherwise `x, y, size, floatColor(color)` |
| `NodeFast.NodeProgramFast.Allocate` | src/renderers/webgl/programs/node.fast.ts:67-69 | the new vertex buffer is fresh, all zeros, `4 * capacity` floats long, and holds exactly `capacity` points |
| `NodeFast.NodeProgramFast.Process` | src/renderers/webgl/programs/node.fast.ts:71-91 | the buffer becomes the old buffer with `NodeRecord` spliced in at `4 * offset`; nothing outside those four floats changes |
| `NodeFast.NodeProgramFast.ComputeIndices` | src/renderers/webgl/programs/node.fast.ts:93-95 | changes nothing |
| `NodeFast.NodeProgramFast.PointCount` | src/renderers/webgl/programs/node.fast.ts:111 | the number of points drawn, `length / 4`, fits in the buffer (and equals the capacity after `Allocate`) |
| `EdgeClamped.Normal` | src/renderers/webgl/programs/edge.clamped.ts:130-142 | a zero-length direction gives the zero normal |
| `EdgeClamped.NormalIsPerpendicular` | src/renderers/webgl/programs/edge.clamped.ts:130-142 | the normal is perpendicular to `(dx, dy)`; with a positive inverse square root it is a counter-clockwise quarter turn of the direction |
| `EdgeClamped.EdgeRecord` | src/renderers/webgl/programs/edge.clamped.ts:114-183 | an edge's record is 28 floats, one slot of 4 points by 7 attributes |
| `EdgeClamped.EdgeRecordZeroIffHidden` | src/renderers/webgl/programs/edge.clamped.ts:114-183 | a record is all zeros if and only if the source, the target or the edge is hidden |
| `EdgeClamped.EdgeRecordLayout` | src/renderers/webgl/programs/edge.clamped.ts:144-182 | for a visible edge, points 0 and 1 are at the source and points 2 and 3 at the target; the flipped points carry the exact negated normal, which is `Normal` of the direction; thickness and colour are the same in all four points; the radii are `0, 0, r, -r` with `r` the target's size or 1 |
| `EdgeClamped.HiddenEdgeRecord` | src/renderers/webgl/programs/edge.clamped.ts:115-119 | an edge with any hidden part writes 28 zeros |
| `EdgeClamped.HorizontalEdgeExample` | src/renderers/webgl/programs/edge.clamped.ts:114-183 | the edge from (0,0) to (10,0) with thickness 2 and target size 3 yields normal (0,1) and radii 0, 0, 3, -3 |
| `EdgeClamped.StoreIndex` | src/renderers/webgl/programs/edge.clamped.ts:190-199 | a stored index is below the element range and equals the written value whenever that value fits |
| `EdgeClamped.StoreIndexWraps` | src/renderers/webgl/programs/edge.clamped.ts:190-199 | a stored index differs from the written value by a multiple of the range: indices wrap, they are not dropped |
| `EdgeClamped.PointsPerSlot` | src/renderers/webgl/programs/edge.clamped.ts:186-188 | a buffer of `28k` floats has `l = 4k` points and `l + l/2 = 6k` index slots |
| `EdgeClamped.IndexAtQuad` | src/renderers/webgl/programs/edge.clamped.ts:193-198 | index `6q + t` is corner `t` of quad `q`: `4q + [0,1,2,2,1,3][t]` |
| `EdgeClamped.IndexPattern` | src/renderers/webgl/programs/edge.clamped.ts:185-201 | the quad-by-quad index list for `k` quads has `6k` entries |
| `EdgeClamped.QuadCorners` | src/renderers/webgl/programs/edge.clamped.ts:193-198 | the six indices of quad `q` are the triangles `(4q, 4q+1, 4q+2)` and `(4q+2, 4q+1, 4q+3)` |
| `EdgeClamped.IndexPatternClosedForm` | src/renderers/webgl/programs/edge.clamped.ts:185-201 | entry `j` of the quad-by-quad index list is `IndexAt(j)`, so entries `6q..6q+5` are `4q, 4q+1, 4q+2, 4q+2, 4q+1, 4q+3` |
| `EdgeClamped.IndexInPointRange` | src/renderers/webgl/programs/edge.clamped.ts:192-199 | every index of `k` quads names one of their `4k` points |
| `EdgeClamped.NarrowIndicesExactUpTo` | src/renderers/webgl/programs/edge.clamped.ts:79-81 | with 16-bit indices, every index of up to 16384 edges is stored exactly |
| `EdgeClamped.NarrowIndicesWrap` | src/renderers/webgl/programs/edge.clamped.ts:190-199 | with 16-bit indices, every index of edge `q + 16384` is exactly 65536 above the matching index of edge `q`, so it is stored as that same index: those triangles alias edge `q`'s points |
| `EdgeClamped.BuildIndices` | src/renderers/webgl/programs/edge.clamped.ts:186-199 | for `l` points (a multiple of 4), the array is fresh, has `l + l/2 = 6 * (l/4)` entries and entry `j` is entry `j` of the quad-by-quad pattern for `l/4` quads, reduced to the element width |
| `EdgeClamped.EdgeClampedProgram.constructor` | src/renderers/webgl/programs/edge.clamped.ts:79-81 | the index width is the capability probe's answer, held in a `const` so it never changes |
| `EdgeClamped.EdgeClampedProgram.Allocate` | src/renderers/webgl/programs/edge.clamped.ts:110-112 | the new vertex buffer is fresh, all zeros, `28 * capacity` floats long, with exactly `capacity` edge slots |
| `EdgeClamped.EdgeClampedProgram.Process` | src/renderers/webgl/programs/edge.clamped.ts:114-183 | the buffer becomes the old buffer with `EdgeRecord` spliced in at `28 * offset`; nothing outside the slot changes |
| `EdgeClamped.EdgeClampedProgram.ZeroRecord` | src/renderers/webgl/programs/edge.clamped.ts:116 | the 28 floats from `start` become 0; all other floats are unchanged |
| `EdgeClamped.EdgeClampedProgram.WriteQuad` | src/renderers/webgl/programs/edge.clamped.ts:144-182 | the four points are written from float `i`, in order, and nothing else changes |
| `EdgeClamped.EdgeClampedProgram.WritePoint` | src/renderers/webgl/programs/edge.clamped.ts:149-155 | one point's seven attributes are written in layout order and nothing else changes |
| `EdgeClamped.EdgeClampedProgram.ComputeIndices` | src/renderers/webgl/programs/edge.clamped.ts:185-202 | the index buffer is a fresh array of `6 * EdgeCount()` entries; entry `j` is the quad-by-quad pattern's entry `j` at the fixed width, so every stored index is in range; it depends only on the vertex buffer's length |

With 16-bit indices each index is stored into a `Uint16Array`, which
reduces it modulo 65536. Point indices past 65535 therefore wrap onto
low-numbered points instead of being dropped (`StoreIndexWraps`,
`NarrowIndicesWrap`).

## Left out

- GPU plumbing is not modelled: shader attribute and uniform lookups and their construction-time throws, `bind`, `bufferData`, `render` and its uniforms, and `indicesType`. These are foreign WebGL calls. Only the draw counts are kept: `PointCount`, and the index-buffer length fixed by `ComputeIndices`.
- Float32 storage is not modelled: values are exact `real`s, with no rounding to 32 bits and no NaN. The normal is a function of `invSqrt`, not a unit vector, so unit length is not stated.
- `EdgeClamped.Normal`: states only the zero-length case in its own contract. Perpendicularity and orientation are in `NormalIsPerpendicular`. Unit length depends on floating-point `Math.sqrt`, which is not modelled.
- `floatColor` and `canUse32BitsIndices` come from `../utils`, which is not part of this model. They are constructor inputs: an opaque function and a boolean.
- Node sizes are always-present `real`s. A node with an absent size is not modelled: the fast node program would store NaN, and `targetData.size || 1` would give 1. An edge's absent size is modelled (`Option`).
- The `Program` base class is not part of this model. Each class holds its own vertex array, created empty at construction. The index array also starts empty here; in sigma.js it is unset until the first `computeIndices`.
- Offsets outside `[0, capacity)` are excluded by precondition. JavaScript silently ignores out-of-range typed-array writes; that behaviour is not modelled.
- The visible-edge writes are split into `WriteQuad` and `WritePoint`, and the hidden-edge zeroing loop is `ZeroRecord`. The index loop lives in `BuildIndices`, whose array `ComputeIndices` stores. Writes happen in the same order as in sigma.js. The running index's final value is not observable and is not kept.
