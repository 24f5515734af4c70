/** `predictStockMovement`: the direction from the trained network and the
    valuation of the holding over one horizon. */
module Prediction {

  import opened Types
  import Training

  /** The trained network, seen from outside: the single output it produces
      for an input vector. Its weights come from a training run that is not
      modelled, so every property below holds for any such function. */
  type Network = seq<real> -> real

  /** The activation above which the network's answer counts as `Up`. */
  const Threshold: real := 0.5

  function Abs(x: real): real {
    if x < 0.0 then -x else x
  }

  /** The input vector built at prediction time. */
  function Features(s: Stock): (f: seq<real>)
    requires Training.HasFeatures(s)
    ensures |f| == 2
  {
    [s.dayChangePercentage / 100.0, (s.lastPrice - s.averagePrice) / s.averagePrice]
  }

  /** The holding is presented to the network exactly as it was presented
      during training. */
  lemma TrainingMatchesInference(data: seq<Stock>, i: int)
    requires forall k :: 0 <= k < |data| ==> Training.HasFeatures(data[k])
    requires 0 <= i < |data|
    ensures Training.PrepareData(data)[i].input == Features(data[i])
  {
  }

  /** The direction for a network activation. */
  function Classify(activation: real): Direction {
    if activation > Threshold then Up else Down
  }

  /** `Up` exactly above the threshold; the threshold itself gives `Down`. */
  lemma ClassifyThreshold(activation: real)
    ensures Classify(activation) == Up <==> activation > 0.5
    ensures Classify(0.5) == Down
  {
  }

  /** The assumed fractional change for a horizon and a direction:
      1%, 3% or 5% for a day, a week or a month, up or down. */
  function Rate(h: Horizon, d: Direction): (rate: real)
    ensures rate > 0.0 <==> d == Up
    ensures 0.01 <= Abs(rate) <= 0.05
  {
    match h
    case Day => if d == Up then 0.01 else -0.01
    case Week => if d == Up then 0.03 else -0.03
    case Month => if d == Up then 0.05 else -0.05
  }

  /** The table is symmetric: falling is rising with the sign reversed. */
  lemma RateSymmetric(h: Horizon)
    ensures Rate(h, Down) == -Rate(h, Up)
  {
  }

  /** A longer horizon assumes a strictly larger change. */
  lemma RateGrowsWithHorizon(d: Direction)
    ensures Abs(Rate(Day, d)) < Abs(Rate(Week, d)) < Abs(Rate(Month, d))
  {
  }

  /** `predictStockMovement(stock, timeFrame)`: the direction is `Up`
      exactly when the network's output exceeds the threshold; the current
      value is last price times quantity; the projected value and the profit
      or loss follow from the rate for the horizon and that direction. */
  function PredictStockMovement(net: Network, s: Stock, h: Horizon): (r: PredictionResult)
    requires Training.HasFeatures(s)
    ensures r.prediction == Up <==> net(Features(s)) > Threshold
    ensures r.currentValue == s.lastPrice * s.quantity
    ensures r.potentialValue == r.currentValue * (1.0 + Rate(h, r.prediction))
    ensures r.profitLoss == r.currentValue * Rate(h, r.prediction)
  {
    var prediction := Classify(net(Features(s)));
    var currentValue := s.lastPrice * s.quantity;
    var potentialChange := Rate(h, prediction);
    var potentialValue := currentValue * (1.0 + potentialChange);
    PredictionResult(prediction, potentialValue - currentValue, currentValue, potentialValue)
  }

  /** For one holding the projected gain or loss grows in size from a day to
      a week to a month. */
  lemma ProfitLossGrowsWithHorizon(net: Network, s: Stock)
    requires Training.HasFeatures(s)
    ensures Abs(PredictStockMovement(net, s, Day).profitLoss)
         <= Abs(PredictStockMovement(net, s, Week).profitLoss)
         <= Abs(PredictStockMovement(net, s, Month).profitLoss)
  {
    var d := Classify(net(Features(s)));
    var v := s.lastPrice * s.quantity;
    ScaleMonotone(v, Rate(Day, d), Rate(Week, d));
    ScaleMonotone(v, Rate(Week, d), Rate(Month, d));
  }

  /** Scaling by a rate of larger size gives a product of larger size. */
  lemma ScaleMonotone(v: real, a: real, b: real)
    requires Abs(a) <= Abs(b)
    ensures Abs(v * a) <= Abs(v * b)
  {
    AbsProduct(v, a);
    AbsProduct(v, b);
    assert Abs(v) * Abs(b) - Abs(v) * Abs(a) == Abs(v) * (Abs(b) - Abs(a));
    NonNegativeProduct(Abs(v), Abs(b) - Abs(a));
  }

  lemma AbsProduct(x: real, y: real)
    ensures Abs(x * y) == Abs(x) * Abs(y)
  {
    if x < 0.0 {
      if y < 0.0 {
        assert x * y == (-x) * (-y);
      } else {
        assert -(x * y) == (-x) * y;
      }
    } else if y < 0.0 {
      assert -(x * y) == x * (-y);
    }
  }

  lemma NonNegativeProduct(x: real, y: real)
    requires x >= 0.0 && y >= 0.0
    ensures x * y >= 0.0
  {
  }

  /** A holding worth 10,000 that is predicted `Up` is projected at 10,300
      over a week, a gain of 300. */
  lemma WeekUpExample(net: Network, s: Stock)
    requires Training.HasFeatures(s)
    requires s.lastPrice * s.quantity == 10000.0
    requires net(Features(s)) > Threshold
    ensures PredictStockMovement(net, s, Week).potentialValue == 10300.0
    ensures PredictStockMovement(net, s, Week).profitLoss == 300.0
  {
  }
}
