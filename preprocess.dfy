/**
 * preprocess_data: encode the near/far flag numerically and robust-scale
 * the coordinates, returning the scaled table and an encoded copy of the
 * input. The scaler's fitted centre and scale are parameters; the fit
 * itself (median and interquartile range) is not modelled.
 */
module Preprocess {
  import opened Frames

  /** The mapping {'Near': 0, 'Far': 1}; any other flag maps to NaN (None). */
  function EncodeLabel(s: Label): (r: Option<nat>)
    ensures r == Some(0) <==> s == "Near"
    ensures r == Some(1) <==> s == "Far"
    ensures r.None? <==> s != "Near" && s != "Far"
  {
    if s == "Near" then Some(0) else if s == "Far" then Some(1) else None
  }

  /** Fitted robust-scaler parameters: per-axis centre and scale. */
  datatype Scaler = Scaler(centre: Coord, scale: Coord)

  /** A zero scale is replaced by 1, so a constant axis is only centred. */
  function SafeScale(s: real): (r: real)
    ensures r != 0.0
    ensures s != 0.0 ==> r == s
  {
    if s == 0.0 then 1.0 else s
  }

  function ScaleAxis(x: real, centre: real, scale: real): real {
    (x - centre) / SafeScale(scale)
  }

  function UnscaleAxis(y: real, centre: real, scale: real): real {
    y * SafeScale(scale) + centre
  }

  lemma AxisRoundTrip(x: real, centre: real, scale: real)
    ensures UnscaleAxis(ScaleAxis(x, centre, scale), centre, scale) == x
  {
    var s := SafeScale(scale);
    assert (x - centre) / s * s == x - centre;
  }

  /** The scaler's transform: (x - centre) / scale on each axis. */
  function Transform(p: Coord, sc: Scaler): Coord {
    Coord(ScaleAxis(p.l, sc.centre.l, sc.scale.l),
          ScaleAxis(p.b, sc.centre.b, sc.scale.b),
          ScaleAxis(p.v, sc.centre.v, sc.scale.v))
  }

  /** The scaler's inverse transform. */
  function InverseTransform(q: Coord, sc: Scaler): Coord {
    Coord(UnscaleAxis(q.l, sc.centre.l, sc.scale.l),
          UnscaleAxis(q.b, sc.centre.b, sc.scale.b),
          UnscaleAxis(q.v, sc.centre.v, sc.scale.v))
  }

  /** Scaling followed by the inverse transform gives back the original coordinates. */
  lemma TransformRoundTrip(p: Coord, sc: Scaler)
    ensures InverseTransform(Transform(p, sc), sc) == p
  {
    AxisRoundTrip(p.l, sc.centre.l, sc.scale.l);
    AxisRoundTrip(p.b, sc.centre.b, sc.scale.b);
    AxisRoundTrip(p.v, sc.centre.v, sc.scale.v);
  }

  /** The encoded copy of the input table (df after the near_far_numeric column is added). */
  function Encoded(df: seq<Point>): (r: seq<Row>)
    ensures |r| == |df|
    ensures forall i :: 0 <= i < |df| ==>
      r[i].pos == df[i].pos && r[i].nearFar == df[i].nearFar && r[i].numeric == EncodeLabel(df[i].nearFar)
  {
    seq(|df|, i requires 0 <= i < |df| => Row(df[i].pos, df[i].nearFar, EncodeLabel(df[i].nearFar)))
  }

  /**
   * Returns (normalised, copy). Both keep the row count and carry the flag
   * and its code through row by row; the copy keeps the coordinates, and the
   * normalised coordinates un-scale to them. The input is a value and is
   * left as it was.
   */
  function PreprocessData(df: seq<Point>, sc: Scaler): (r: (seq<Row>, seq<Row>))
    ensures |r.0| == |df| && |r.1| == |df|
    ensures forall i :: 0 <= i < |df| ==>
      r.1[i].pos == df[i].pos &&
      r.0[i].nearFar == df[i].nearFar && r.1[i].nearFar == df[i].nearFar &&
      r.0[i].numeric == EncodeLabel(df[i].nearFar) && r.1[i].numeric == EncodeLabel(df[i].nearFar)
    ensures forall i :: 0 <= i < |df| ==> InverseTransform(r.0[i].pos, sc) == df[i].pos
  {
    var copy := Encoded(df);
    var normalised := seq(|copy|, i requires 0 <= i < |copy| =>
      Row(Transform(copy[i].pos, sc), copy[i].nearFar, copy[i].numeric));
    assert forall i :: 0 <= i < |df| ==> InverseTransform(normalised[i].pos, sc) == df[i].pos by {
      forall i | 0 <= i < |df| {
        TransformRoundTrip(df[i].pos, sc);
      }
    }
    (normalised, copy)
  }
}
