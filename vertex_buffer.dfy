/** Slot arithmetic shared by every program: a vertex buffer is a flat
    sequence of floats cut into fixed-width per-entity slots, and `process`
    overwrites exactly one slot. */
module VertexBuffer {

  /** `n` zero floats: what a fresh typed array holds and what a hidden
      entity writes. */
  function Zeros(n: nat): (r: seq<real>)
    ensures |r| == n
    ensures forall k :: 0 <= k < n ==> r[k] == 0.0
  {
    seq(n, _ => 0.0)
  }

  predicate AllZero(s: seq<real>)
  {
    forall k :: 0 <= k < |s| ==> s[k] == 0.0
  }

  /** `s` with the floats from `at` on replaced by `rec`. */
  function Splice(s: seq<real>, at: nat, rec: seq<real>): (r: seq<real>)
    requires at + |rec| <= |s|
    ensures |r| == |s|
    ensures forall k :: 0 <= k < |s| ==> r[k] == if at <= k < at + |rec| then rec[k - at] else s[k]
  {
    s[..at] + rec + s[at + |rec|..]
  }

  /** Slot `o` of a buffer cut into slots of width `w`. */
  function Slot(s: seq<real>, w: nat, o: nat): seq<real>
    requires (o + 1) * w <= |s|
  {
    s[o * w..(o + 1) * w]
  }

  lemma SlotsDisjoint(w: nat, o1: nat, o2: nat)
    requires o1 != o2
    ensures (o1 + 1) * w <= o2 * w || (o2 + 1) * w <= o1 * w
  {
    if o1 < o2 {
      assert (o1 + 1) * w <= o2 * w by {
        assert o1 + 1 <= o2;
        MulMonotone(o1 + 1, o2, w);
      }
    } else {
      assert (o2 + 1) * w <= o1 * w by {
        assert o2 + 1 <= o1;
        MulMonotone(o2 + 1, o1, w);
      }
    }
  }

  lemma MulSucc(n: nat, w: nat)
    ensures n * w + w == (n + 1) * w
  {
  }

  lemma MulMonotone(a: nat, b: nat, w: nat)
    requires a <= b
    ensures a * w <= b * w
  {
    assert b * w == a * w + (b - a) * w;
  }

  /** Writing a record into slot `o2` leaves every other slot `o1` as it was:
      a record written earlier at a different offset survives. */
  lemma {:induction false} SpliceKeepsOtherSlots(s: seq<real>, w: nat, o1: nat, o2: nat, rec: seq<real>)
    requires |rec| == w
    requires (o1 + 1) * w <= |s| && (o2 + 1) * w <= |s|
    requires o1 != o2
    ensures Slot(Splice(s, o2 * w, rec), w, o1) == Slot(s, w, o1)
  {
    SlotsDisjoint(w, o1, o2);
    var t := Splice(s, o2 * w, rec);
    assert (o1 + 1) * w == o1 * w + w;
    assert (o2 + 1) * w == o2 * w + w;
    forall k | 0 <= k < w
      ensures Slot(t, w, o1)[k] == Slot(s, w, o1)[k]
    {
      assert Slot(t, w, o1)[k] == t[o1 * w + k];
      assert Slot(s, w, o1)[k] == s[o1 * w + k];
    }
  }

  /** A buffer that differs from `s` only by zeros at `at .. at + w - 1` is
      `s` with a zero record spliced in. */
  lemma ZeroSlot(s: seq<real>, t: seq<real>, at: nat, w: nat)
    requires |t| == |s| && at + w <= |s|
    requires forall k :: at <= k < at + w ==> t[k] == 0.0
    requires forall k :: 0 <= k < |s| && !(at <= k < at + w) ==> t[k] == s[k]
    ensures t == Splice(s, at, Zeros(w))
  {
  }

  /** Writing the same record into the same slot twice is the same as writing
      it once: `process` is a pure overwrite. */
  lemma {:induction false} SpliceIdempotent(s: seq<real>, at: nat, rec: seq<real>)
    requires at + |rec| <= |s|
    ensures Splice(Splice(s, at, rec), at, rec) == Splice(s, at, rec)
  {
    var once := Splice(s, at, rec);
    var twice := Splice(once, at, rec);
    forall k | 0 <= k < |s|
      ensures twice[k] == once[k]
    {
      if at <= k < at + |rec| {
        assert twice[at..at + |rec|][k - at] == once[at..at + |rec|][k - at];
      }
    }
  }

  /** The buffer after writing `recs[0]`, ..., `recs[n-1]` into slots
      0, ..., n-1 of `s`, in that order. */
  function FillSlots(s: seq<real>, w: nat, recs: seq<seq<real>>, n: nat): (r: seq<real>)
    requires n <= |recs| && n * w <= |s|
    requires forall i :: 0 <= i < |recs| ==> |recs[i]| == w
    ensures |r| == |s|
    decreases n
  {
    if n == 0 then s
    else
      MulSucc(n - 1, w);
      Splice(FillSlots(s, w, recs, n - 1), (n - 1) * w, recs[n - 1])
  }

  function Flatten(recs: seq<seq<real>>): seq<real>
  {
    if recs == [] then [] else Flatten(recs[..|recs| - 1]) + recs[|recs| - 1]
  }

  /** Splicing `rec` right after a prefix `pre`, into a buffer whose tail
      from `at` is still that of `s`, extends the prefix by `rec` and keeps
      the rest of `s`. */
  lemma {:induction false} SpliceExtends(prev: seq<real>, s: seq<real>, at: nat, rec: seq<real>, pre: seq<real>)
    requires |prev| == |s| && at + |rec| <= |s|
    requires prev[..at] == pre && prev[at..] == s[at..]
    ensures Splice(prev, at, rec)[..at + |rec|] == pre + rec
    ensures Splice(prev, at, rec)[at + |rec|..] == s[at + |rec|..]
  {
    var r, end := Splice(prev, at, rec), at + |rec|;
    forall k | 0 <= k < end
      ensures r[k] == (pre + rec)[k]
    {
    }
    forall k | end <= k < |s|
      ensures r[k] == s[k]
    {
      assert prev[at..][k - at] == s[at..][k - at];
    }
  }

  /** Once every slot has been written, the buffer is the records laid end
      to end, whatever it held before: re-running a full frame of `process`
      calls reproduces the same buffer. */
  lemma {:induction false} FillSlotsFlattens(s: seq<real>, w: nat, recs: seq<seq<real>>, n: nat)
    requires n <= |recs| && n * w <= |s|
    requires forall i :: 0 <= i < |recs| ==> |recs[i]| == w
    ensures FillSlots(s, w, recs, n)[..n * w] == Flatten(recs[..n])
    ensures FillSlots(s, w, recs, n)[n * w..] == s[n * w..]
  {
    if n > 0 {
      MulSucc(n - 1, w);
      FillSlotsFlattens(s, w, recs, n - 1);
      SpliceExtends(FillSlots(s, w, recs, n - 1), s, (n - 1) * w, recs[n - 1], Flatten(recs[..n - 1]));
      assert recs[..n][..n - 1] == recs[..n - 1];
    }
  }
}
