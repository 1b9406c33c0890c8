/** The numbers and samples of gbdt-rs. Arithmetic is exact; `UNKNOWN` is the least finite f32. */
module Values {
  const UNKNOWN: real := -340282346638528859811704183484516925440.0

  /** The least finite f32 is -(2^24 - 1) * 2^104. */
  lemma UnknownIsLeastFinite()
    ensures UNKNOWN == (-0xFF_FFFF * (0x1_0000_0000 * 0x1_0000_0000 * 0x1_0000_0000 * 0x100)) as real
  {
  }

  /** A finite f32 feature value: nothing lies below `UNKNOWN`. */
  type Feature = r: real | UNKNOWN <= r witness 0.0

  datatype Loss = SquaredError | LogLikelyhood | LAD | OtherLoss

  datatype Data = Data(
    feature: seq<Feature>,
    target: real,
    weight: real,
    sampleLabel: real,
    residual: real,
    initialGuess: real)

  function Abs(x: real): real {
    if x < 0.0 then -x else x
  }

  predicate AlmostEqual(a: real, b: real) {
    Abs(a - b) < 0.00001
  }

  /** Every sample has exactly the configured number of features. */
  predicate ValidData(data: seq<Data>, featureSize: nat) {
    forall i :: 0 <= i < |data| ==> |data[i].feature| == featureSize
  }
}
