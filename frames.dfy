/**
 * The data that flows through the 4-D model comparison: catalogue and model
 * rows in (l, b, v, near/far), the confidence weights of the label vote,
 * the per-model result record and the failures an evaluation can end in.
 */
module Frames {

  datatype Option<T> = None | Some(value: T)

  /** A near/far flag as it stands in the label column ("Near", "Far" or anything else). */
  type Label = string

  /** Galactic longitude, latitude and line-of-sight velocity of one point. */
  datatype Coord = Coord(l: real, b: real, v: real)

  /** Component-wise difference p - q. */
  function Minus(p: Coord, q: Coord): (r: Coord)
    ensures r.l + q.l == p.l && r.b + q.b == p.b && r.v + q.v == p.v
  {
    Coord(p.l - q.l, p.b - q.b, p.v - q.v)
  }

  /** One record as the loader returns it: l, b, v and the near/far flag. */
  datatype Point = Point(pos: Coord, nearFar: Label)

  /**
   * One row of a preprocessed table: coordinates, the flag, and the flag's
   * numeric code (0 for Near, 1 for Far, None where pandas leaves NaN).
   */
  datatype Row = Row(pos: Coord, nearFar: Label, numeric: Option<nat>)

  /** A vote weight 1/median; numpy yields inf when the median distance is 0. */
  datatype Weight = Finite(w: real) | Infinite

  /**
   * What a model evaluation can end in instead of a score. EmptyInput and
   * InvalidNeighbourCount are exceptions in the source (np.max of an empty
   * array; a neighbour count below 1 rejected when the neighbour search is
   * fitted, or above the model size rejected by kneighbors); ZeroMaxDistance and
   * ZeroMedianDistance are the cases where the source's score becomes NaN;
   * NoModels is the IndexError of reading the first model of an empty list.
   */
  datatype Error = EmptyInput | InvalidNeighbourCount | ZeroMaxDistance | ZeroMedianDistance | NoModels

  datatype Result<T> = Ok(value: T) | Err(error: Error)

  /**
   * The dictionary analyse_model_4d returns; originalData is the key that
   * main adds afterwards (None until then).
   */
  datatype ModelResult = ModelResult(
    name: string,
    overallDistance: real,
    nfAccuracy: real,
    combinedScore: real,
    errors: seq<Coord>,
    data: seq<Row>,
    originalData: Option<seq<Row>>)
}
