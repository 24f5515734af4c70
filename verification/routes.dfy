/** The `GET /predict/:symbol` handler: look the holding up by its trading
    symbol, then project it over a day, a week and a month. */
module Routes {

  import opened Wrappers
  import opened Types
  import Training
  import opened Prediction

  /** The error text returned for a symbol that is not in the portfolio. */
  const NotFoundMessage: string := "Stock not found in portfolio"

  /** The handler's answer: a not-found error, or the three projections
      keyed `nextDay`, `nextWeek` and `nextMonth`. */
  datatype PredictResponse =
    | NotFound(error: string)
    | Found(nextDay: PredictionResult, nextWeek: PredictionResult, nextMonth: PredictionResult)

  /** The HTTP status that goes with a response. */
  function Status(r: PredictResponse): int {
    if r.NotFound? then 404 else 200
  }

  /** Position `i` holds the first holding whose symbol is `symbol`. */
  predicate IsFirstMatch(portfolio: seq<Stock>, symbol: string, i: int) {
    && 0 <= i < |portfolio|
    && portfolio[i].tradingSymbol == symbol
    && forall j :: 0 <= j < i ==> portfolio[j].tradingSymbol != symbol
  }

  /** The search of the portfolio by trading symbol (exact, case-sensitive):
      nothing when no holding has exactly that symbol, otherwise the first
      one that does. */
  function FindBySymbol(portfolio: seq<Stock>, symbol: string): (r: Option<Stock>)
    ensures r.None? <==> forall i :: 0 <= i < |portfolio| ==> portfolio[i].tradingSymbol != symbol
    ensures r.Some? ==> exists i :: IsFirstMatch(portfolio, symbol, i) && portfolio[i] == r.value
    decreases |portfolio|
  {
    if portfolio == [] then None
    else if portfolio[0].tradingSymbol == symbol then
      assert IsFirstMatch(portfolio, symbol, 0);
      Some(portfolio[0])
    else
      var r := FindBySymbol(portfolio[1..], symbol);
      assert r.Some? ==> exists i :: IsFirstMatch(portfolio, symbol, i) && portfolio[i] == r.value by {
        if r.Some? {
          var i :| IsFirstMatch(portfolio[1..], symbol, i) && portfolio[1..][i] == r.value;
          assert IsFirstMatch(portfolio, symbol, i + 1);
        }
      }
      r
  }

  /** The holding that the handler would value, if any, has a defined
      feature vector. */
  predicate Valuable(portfolio: seq<Stock>, symbol: string) {
    var found := FindBySymbol(portfolio, symbol);
    found.Some? ==> Training.HasFeatures(found.value)
  }

  /** `GET /predict/:symbol`: a 404 with the fixed message when no holding has
      the symbol; otherwise a 200 with the projections of the first holding
      that has it, for a day, a week and a month in that order. */
  function Predict(net: Network, portfolio: seq<Stock>, symbol: string): (r: PredictResponse)
    requires Valuable(portfolio, symbol)
    ensures r.NotFound? <==> forall i :: 0 <= i < |portfolio| ==> portfolio[i].tradingSymbol != symbol
    ensures r.NotFound? ==> r.error == NotFoundMessage && Status(r) == 404
    ensures r.Found? ==> Status(r) == 200
    ensures r.Found? ==>
      exists i ::
        && IsFirstMatch(portfolio, symbol, i)
        && r.nextDay == PredictStockMovement(net, portfolio[i], Day)
        && r.nextWeek == PredictStockMovement(net, portfolio[i], Week)
        && r.nextMonth == PredictStockMovement(net, portfolio[i], Month)
  {
    match FindBySymbol(portfolio, symbol)
    case None => NotFound(NotFoundMessage)
    case Some(stock) =>
      Found(
        PredictStockMovement(net, stock, Day),
        PredictStockMovement(net, stock, Week),
        PredictStockMovement(net, stock, Month))
  }

  /** The three projections of a found holding agree on its current value
      and on the direction, and the size of the profit or loss does not
      shrink from a day to a week to a month. */
  lemma HorizonsConsistent(net: Network, portfolio: seq<Stock>, symbol: string)
    requires Valuable(portfolio, symbol)
    ensures var r := Predict(net, portfolio, symbol);
      r.Found? ==>
        && r.nextDay.currentValue == r.nextWeek.currentValue == r.nextMonth.currentValue
        && r.nextDay.prediction == r.nextWeek.prediction == r.nextMonth.prediction
        && Abs(r.nextDay.profitLoss) <= Abs(r.nextWeek.profitLoss) <= Abs(r.nextMonth.profitLoss)
  {
    var found := FindBySymbol(portfolio, symbol);
    if found.Some? {
      ProfitLossGrowsWithHorizon(net, found.value);
    }
  }
}
