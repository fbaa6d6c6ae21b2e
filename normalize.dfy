/** Post-processing of the raw LED positions: the (stub) merge of the two
    camera directions, the rescaling of raw pixel positions into the unit box,
    and the index-to-position payload sent to the light controller. */
module Normalize {
  import opened JsArrays

  /** A raw position `[x, y]` in pixels. */
  type RawPoint = (real, real)

  /** A normalised coordinate: a number, or NaN when the span it is divided
      by is zero (JavaScript's `0 / 0`). */
  datatype Coord = Num(v: real) | NaN

  type NormPoint = (Coord, Coord)

  datatype Axis = X | Y

  function Along(p: RawPoint, axis: Axis): real
  {
    if axis == X then p.0 else p.1
  }

  /** Merging the two directions is not implemented: the result is always
      empty, whatever the inputs. */
  function MergeLedPositions(rawX: seq<RawPoint>, rawY: seq<RawPoint>): (merged: seq<RawPoint>)
    ensures |merged| == 0
  {
    []
  }

  // ---------------------------------------------------------------- bounds

  /** A running bound that starts out infinite: `Unbounded` is +Infinity for
      a minimum and -Infinity for a maximum. */
  datatype Bound = Unbounded | At(v: real)

  /** The minimum of the points' coordinates along `axis`, as the scan finds it. */
  function MinAlong(ps: seq<RawPoint>, axis: Axis): (b: Bound)
    ensures b.Unbounded? <==> |ps| == 0
    ensures b.At? ==> forall k :: 0 <= k < |ps| ==> b.v <= Along(ps[k], axis)
    ensures b.At? ==> exists k :: 0 <= k < |ps| && Along(ps[k], axis) == b.v
  {
    if |ps| == 0 then Unbounded
    else
      var m := MinAlong(ps[..|ps| - 1], axis);
      var v := Along(ps[|ps| - 1], axis);
      assert forall k :: 0 <= k < |ps| - 1 ==> ps[..|ps| - 1][k] == ps[k];
      if m.Unbounded? || v < m.v then At(v) else m
  }

  /** The maximum of the points' coordinates along `axis`, as the scan finds it. */
  function MaxAlong(ps: seq<RawPoint>, axis: Axis): (b: Bound)
    ensures b.Unbounded? <==> |ps| == 0
    ensures b.At? ==> forall k :: 0 <= k < |ps| ==> Along(ps[k], axis) <= b.v
    ensures b.At? ==> exists k :: 0 <= k < |ps| && Along(ps[k], axis) == b.v
  {
    if |ps| == 0 then Unbounded
    else
      var m := MaxAlong(ps[..|ps| - 1], axis);
      var v := Along(ps[|ps| - 1], axis);
      assert forall k :: 0 <= k < |ps| - 1 ==> ps[..|ps| - 1][k] == ps[k];
      if m.Unbounded? || v > m.v then At(v) else m
  }

  /** One pass over the raw positions, lowering the minima and raising the
      maxima of both axes. */
  method ScanBounds(raw: seq<RawPoint>) returns (minX: Bound, minY: Bound, maxX: Bound, maxY: Bound)
    ensures minX == MinAlong(raw, X) && maxX == MaxAlong(raw, X)
    ensures minY == MinAlong(raw, Y) && maxY == MaxAlong(raw, Y)
  {
    minX, minY, maxX, maxY := Unbounded, Unbounded, Unbounded, Unbounded;
    for n := 0 to |raw|
      invariant minX == MinAlong(raw[..n], X) && maxX == MaxAlong(raw[..n], X)
      invariant minY == MinAlong(raw[..n], Y) && maxY == MaxAlong(raw[..n], Y)
    {
      assert raw[..n + 1][..n] == raw[..n];
      var p := raw[n];
      if minX.Unbounded? || p.0 < minX.v {
        minX := At(p.0);
      }
      if maxX.Unbounded? || p.0 > maxX.v {
        maxX := At(p.0);
      }
      if minY.Unbounded? || p.1 < minY.v {
        minY := At(p.1);
      }
      if maxY.Unbounded? || p.1 > maxY.v {
        maxY := At(p.1);
      }
    }
    assert raw[..|raw|] == raw;
  }

  // -------------------------------------------------------------- rescaling

  /** `(v - lo) / (hi - lo)`. With a zero span JavaScript gives NaN when `v`
      equals `lo` (`0 / 0`) and an infinity otherwise; only the first case
      arises here, because every rescaled value lies within its bounds, so a
      zero span is modelled as NaN. */
  function Rescale(v: real, lo: real, hi: real): (r: Coord)
    ensures hi == lo <==> r == NaN
    ensures r.Num? ==> r.v * (hi - lo) == v - lo
  {
    if hi == lo then NaN else Num((v - lo) / (hi - lo))
  }

  /** The normalised position of raw point `i`, each axis rescaled by the
      bounds of all raw points on that axis. */
  function NormalizeAt(raw: seq<RawPoint>, i: nat): (q: NormPoint)
    requires i < |raw|
  {
    NormalizeWithin(raw[i], MinAlong(raw, X).v, MinAlong(raw, Y).v, MaxAlong(raw, X).v, MaxAlong(raw, Y).v)
  }

  /** Point `p` rescaled on each axis by the given bounds of that axis. */
  function NormalizeWithin(p: RawPoint, minX: real, minY: real, maxX: real, maxY: real): NormPoint
  {
    (Rescale(p.0, minX, maxX), Rescale(p.1, minY, maxY))
  }

  /** Writes the normalised position of every raw point `i < numLeds` to
      index `i` of `normalized`; no other index is written. */
  method NormalizeLedPositions(raw: seq<RawPoint>, numLeds: nat, normalized: JsArray<NormPoint>)
    requires numLeds <= |raw|
    modifies normalized
    ensures forall i: nat :: i in normalized.slots <==> i in old(normalized.slots) || i < numLeds
    ensures forall i :: i in normalized.slots ==>
      normalized.slots[i] == if i < numLeds then NormalizeAt(raw, i) else old(normalized.slots[i])
  {
    var minX, minY, maxX, maxY := ScanBounds(raw);
    if numLeds > 0 {
      WriteNormalized(raw, numLeds, minX.v, minY.v, maxX.v, maxY.v, normalized);
    }
  }

  /** The loop of the normalisation, with the bounds already found. */
  method WriteNormalized(raw: seq<RawPoint>, numLeds: nat, minX: real, minY: real, maxX: real, maxY: real,
                         normalized: JsArray<NormPoint>)
    requires numLeds <= |raw|
    modifies normalized
    ensures forall i: nat :: i in normalized.slots <==> i in old(normalized.slots) || i < numLeds
    ensures forall i :: i in normalized.slots ==>
      normalized.slots[i] == if i < numLeds then NormalizeWithin(raw[i], minX, minY, maxX, maxY)
                             else old(normalized.slots[i])
  {
    for i := 0 to numLeds
      invariant forall j: nat :: j in normalized.slots <==> j in old(normalized.slots) || j < i
      invariant forall j :: j in normalized.slots ==>
        normalized.slots[j] == if j < i then NormalizeWithin(raw[j], minX, minY, maxX, maxY)
                               else old(normalized.slots[j])
    {
      var (rawX, rawY) := raw[i];
      var normX := Rescale(rawX, minX, maxX);
      var normY := Rescale(rawY, minY, maxY);
      normalized.Set(i, (normX, normY));
    }
  }

  /** Rescaling maps `[lo, hi]` into `[0, 1]` when the span is positive. */
  lemma RescaleInUnit(v: real, lo: real, hi: real)
    requires lo <= v <= hi && lo < hi
    ensures Rescale(v, lo, hi).Num?
    ensures 0.0 <= Rescale(v, lo, hi).v <= 1.0
  {
    var r := (v - lo) / (hi - lo);
    assert r * (hi - lo) == v - lo;
  }

  /** The lower bound maps to 0 and the upper bound to 1. */
  lemma RescaleEnds(lo: real, hi: real)
    requires lo < hi
    ensures Rescale(lo, lo, hi) == Num(0.0) && Rescale(hi, lo, hi) == Num(1.0)
  {
    assert (hi - lo) / (hi - lo) == 1.0;
  }

  /** Rescaling preserves order. */
  lemma RescaleMonotone(v: real, v': real, lo: real, hi: real)
    requires v <= v' && lo < hi
    ensures Rescale(v, lo, hi).v <= Rescale(v', lo, hi).v
  {
    var d := hi - lo;
    assert (v' - lo) / d - (v - lo) / d == (v' - v) / d;
  }

  /** Every normalised point lies in the unit box when both spans are positive. */
  lemma NormalizedInUnitBox(raw: seq<RawPoint>, i: nat)
    requires i < |raw|
    requires MinAlong(raw, X).v < MaxAlong(raw, X).v && MinAlong(raw, Y).v < MaxAlong(raw, Y).v
    ensures NormalizeAt(raw, i).0.Num? && 0.0 <= NormalizeAt(raw, i).0.v <= 1.0
    ensures NormalizeAt(raw, i).1.Num? && 0.0 <= NormalizeAt(raw, i).1.v <= 1.0
  {
    RescaleInUnit(raw[i].0, MinAlong(raw, X).v, MaxAlong(raw, X).v);
    RescaleInUnit(raw[i].1, MinAlong(raw, Y).v, MaxAlong(raw, Y).v);
  }

  /** A point with the smallest coordinate on an axis normalises to 0 there,
      one with the largest to 1. */
  lemma NormalizedExtremes(raw: seq<RawPoint>, i: nat)
    requires i < |raw| && MinAlong(raw, X).v < MaxAlong(raw, X).v
    ensures raw[i].0 == MinAlong(raw, X).v ==> NormalizeAt(raw, i).0 == Num(0.0)
    ensures raw[i].0 == MaxAlong(raw, X).v ==> NormalizeAt(raw, i).0 == Num(1.0)
  {
    RescaleEnds(MinAlong(raw, X).v, MaxAlong(raw, X).v);
  }

  /** The normalised x coordinates are ordered like the raw ones. */
  lemma NormalizedOrderX(raw: seq<RawPoint>, i: nat, j: nat)
    requires i < |raw| && j < |raw| && raw[i].0 <= raw[j].0
    requires MinAlong(raw, X).v < MaxAlong(raw, X).v
    ensures NormalizeAt(raw, i).0.v <= NormalizeAt(raw, j).0.v
  {
    RescaleMonotone(raw[i].0, raw[j].0, MinAlong(raw, X).v, MaxAlong(raw, X).v);
  }

  /** The same on the y axis. */
  lemma NormalizedExtremesY(raw: seq<RawPoint>, i: nat)
    requires i < |raw| && MinAlong(raw, Y).v < MaxAlong(raw, Y).v
    ensures raw[i].1 == MinAlong(raw, Y).v ==> NormalizeAt(raw, i).1 == Num(0.0)
    ensures raw[i].1 == MaxAlong(raw, Y).v ==> NormalizeAt(raw, i).1 == Num(1.0)
  {
    RescaleEnds(MinAlong(raw, Y).v, MaxAlong(raw, Y).v);
  }

  /** The normalised y coordinates are ordered like the raw ones. */
  lemma NormalizedOrderY(raw: seq<RawPoint>, i: nat, j: nat)
    requires i < |raw| && j < |raw| && raw[i].1 <= raw[j].1
    requires MinAlong(raw, Y).v < MaxAlong(raw, Y).v
    ensures NormalizeAt(raw, i).1.v <= NormalizeAt(raw, j).1.v
  {
    RescaleMonotone(raw[i].1, raw[j].1, MinAlong(raw, Y).v, MaxAlong(raw, Y).v);
  }

  /** With a zero span along x every x coordinate is NaN. */
  lemma ZeroSpanGivesNaN(raw: seq<RawPoint>, i: nat)
    requires i < |raw| && MinAlong(raw, X).v == MaxAlong(raw, X).v
    ensures NormalizeAt(raw, i).0 == NaN
  {
  }

  /** With a zero span along y every y coordinate is NaN. */
  lemma ZeroSpanGivesNaNY(raw: seq<RawPoint>, i: nat)
    requires i < |raw| && MinAlong(raw, Y).v == MaxAlong(raw, Y).v
    ensures NormalizeAt(raw, i).1 == NaN
  {
  }

  // ---------------------------------------------------------------- payload

  /** An entry of a JavaScript array: absent entries read as `undefined`. */
  datatype Slot<T> = Undefined | Defined(value: T)

  function SlotAt<T>(a: map<nat, T>, i: nat): Slot<T>
  {
    if i in a then Defined(a[i]) else Undefined
  }

  /** Builds the payload object: key `i` maps to entry `i` of the normalised
      positions, for every `i < numLeds`. */
  method TransmitPayload(normalized: JsArray<NormPoint>, numLeds: nat) returns (data: map<nat, Slot<NormPoint>>)
    ensures forall i: nat :: i in data <==> i < numLeds
    ensures forall i :: i in data ==> data[i] == SlotAt(normalized.slots, i)
  {
    data := map[];
    for i := 0 to numLeds
      invariant forall j: nat :: j in data <==> j < i
      invariant forall j :: j in data ==> data[j] == SlotAt(normalized.slots, j)
    {
      data := data[i := SlotAt(normalized.slots, i)];
    }
  }
}
