/** The records the service passes around. */
module Types {

  /** One portfolio holding, reduced to the fields the service reads.
      JavaScript numbers are modelled as exact reals. */
  datatype Stock = Stock(
    tradingSymbol: string,
    quantity: real,
    averagePrice: real,
    lastPrice: real,
    dayChange: real,
    dayChangePercentage: real
  )

  /** One supervised example: the network inputs and the expected outputs. */
  datatype TrainingData = TrainingData(input: seq<real>, output: seq<real>)

  /** The predicted direction of the price. */
  datatype Direction = Up | Down

  /** The three projection horizons. */
  datatype Horizon = Day | Week | Month

  /** The projection for one horizon. */
  datatype PredictionResult = PredictionResult(
    prediction: Direction,
    profitLoss: real,
    currentValue: real,
    potentialValue: real
  )
}
