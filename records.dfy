/** The read-only display records the renderer receives for each node and
    edge (the `ProcessData` shape of the program base class). Positions,
    sizes and packed colours are modelled as `real`; colours before packing
    are opaque strings. */
module Records {

  datatype Option<+T> = None | Some(value: T)

  /** A node as the node program and the edge program's endpoints see it. */
  datatype NodeData = NodeData(x: real, y: real, size: real, color: string, hidden: bool)

  /** An edge's own display data; its `size` (the thickness) may be absent. */
  datatype EdgeData = EdgeData(size: Option<real>, color: string, hidden: bool)

  /** JavaScript's `v || 1` on a size: an absent or zero size falls back to 1. */
  function SizeOrOne(v: Option<real>): (r: real)
    ensures r != 0.0
    ensures v.Some? && v.value != 0.0 ==> r == v.value
    ensures v.None? || v.value == 0.0 ==> r == 1.0
  {
    match v
    case Some(s) => if s != 0.0 then s else 1.0
    case None => 1.0
  }

  /** The same fallback on a size that is always present. */
  function NonZeroOrOne(s: real): (r: real)
    ensures r != 0.0
    ensures s != 0.0 ==> r == s
    ensures s == 0.0 ==> r == 1.0
  {
    if s != 0.0 then s else 1.0
  }
}
