/** The training set built from the portfolio at start-up (`prepareData`). */
module Training {

  import opened Types

  /** The feature vector of a holding is defined only when its average price
      is not zero; the service never checks this. */
  predicate HasFeatures(s: Stock) {
    s.averagePrice != 0.0
  }

  /** The example for one holding: the day change as a fraction and the
      relative gap between last and average price as inputs, and as output 1
      for a holding that rose on the day, 0 otherwise. */
  function Example(s: Stock): (e: TrainingData)
    requires HasFeatures(s)
    ensures |e.input| == 2
    ensures e.output == [1.0] || e.output == [0.0]
    ensures e.output == [1.0] <==> s.dayChange > 0.0
  {
    TrainingData(
      [s.dayChangePercentage / 100.0, (s.lastPrice - s.averagePrice) / s.averagePrice],
      [if s.dayChange > 0.0 then 1.0 else 0.0])
  }

  /** `prepareData`: one example per holding, in portfolio order, each with
      two inputs and one output that is 1 exactly when the day change is
      positive and 0 otherwise. */
  function PrepareData(data: seq<Stock>): (r: seq<TrainingData>)
    requires forall i :: 0 <= i < |data| ==> HasFeatures(data[i])
    ensures |r| == |data|
    ensures forall i :: 0 <= i < |r| ==> |r[i].input| == 2 && |r[i].output| == 1
    ensures forall i :: 0 <= i < |r| ==> (r[i].output[0] == 1.0 <==> data[i].dayChange > 0.0)
    ensures forall i :: 0 <= i < |r| ==> (r[i].output[0] == 0.0 <==> data[i].dayChange <= 0.0)
  {
    seq(|data|, i requires 0 <= i < |data| => Example(data[i]))
  }
}
