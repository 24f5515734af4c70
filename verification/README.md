# trade-analyzer: a verified model of the prediction service's logic

trade-analyzer is a small Express service. At start-up it loads a static
portfolio of holdings and trains a 2-4-1 perceptron on it. For each
holding, `GET /predict/:symbol` returns an Up/Down direction and a
projected profit or loss over a day, a week and a month.
`GET /stock-data/:symbol` asks a generative language model for JSON data
about a symbol. It strips Markdown code fences from the reply before
parsing it.

This project models the deterministic parts of `src/index.ts` as pure
Dafny functions and proves what they promise:

- `Fence` — the reply pre-processing in `fetchGeminiData`: global removal
  of "```json", then of "```", then `trim()`. The main result is that no
  "```" survives, for any input. Of the "```" removal step alone, a run of
  n backticks keeps n mod 3 of them, and a character other than a backtick
  is always kept. Over the whole chain, every character that is neither
  whitespace nor one of the characters of "```json" keeps its number of
  occurrences. Stripping is idempotent. Text that is already clean passes
  through unchanged. A reply wrapped as "```json" … "```" comes out as its
  trimmed body when the body contains no backtick. A body with backticks
  in it can lose some of them, because every "```" is removed wherever it
  occurs.
- `Training` — `prepareData`: one example per holding, in portfolio
  order, with two inputs and a 0/1 label that is 1 exactly when the day
  change is positive.
- `Prediction` — `predictStockMovement`. It builds the feature vector and
  applies the 0.5 threshold to the network's output. It reads the
  (horizon, direction) rate table and does the valuation arithmetic. The
  trained network is a parameter `net: seq<real> -> real`, so every
  result holds for whatever weights training produced.
- `Routes` — the `/predict/:symbol` handler. It finds the first holding
  whose symbol matches exactly, answers 404 with "Stock not found in
  portfolio" when there is none, and otherwise answers with the three
  projections `nextDay`, `nextWeek` and `nextMonth`.
- `Types` holds the records of `src/type/index.ts`, and `Wrappers` holds
  `Option`.

## Model

| member | source | states |
|---|---|---|
| `Fence.RemoveAll` | src/index.ts:83-84 | a global literal replace by '' never lengthens the text |
| `Fence.RemoveAllOnlyDeletes` | src/index.ts:83-84 | replacing only deletes characters; a character not in the pattern keeps its number of occurrences |
| `Fence.RemoveAllAbsent` | src/index.ts:83-84 | where the pattern does not occur, the replace returns the text unchanged |
| `Fence.RemoveTicksByRuns` | src/index.ts:84 | for any input, removing "```" keeps n mod 3 of the n backticks at the front and processes the text after them on its own |
| `Fence.RunCollapses` | src/index.ts:84 | removing "```" turns a run of n backticks into n mod 3 backticks and treats the rest independently |
| `Fence.NonTickKept` | src/index.ts:84 | a character other than a backtick is always kept by the "```" removal |
| `Fence.LeadingTicksAfterRemoval` | src/index.ts:84 | the leading backtick run of the output is that of the input, mod 3 |
| `Fence.NoFenceAfterRemoval` | src/index.ts:84 | after removing "```", no "```" occurs anywhere in the result, for any input |
| `Fence.TrimStart` | src/index.ts:85 | the result is a suffix, everything dropped is whitespace, and it does not start with whitespace |
| `Fence.TrimEnd` | src/index.ts:85 | the result is a prefix, everything dropped is whitespace, and it does not end with whitespace |
| `Fence.IsWhitespace` | src/index.ts:85 | the characters `trim()` removes: ECMAScript's WhiteSpace and LineTerminator code points |
| `Fence.Trim` | src/index.ts:85 | the result is the input with only whitespace cut from its two ends, and no whitespace is left at either end; it is empty iff the input is all whitespace; an already trimmed input is returned unchanged |
| `Fence.TrimKeepsContent` | src/index.ts:85 | trimming keeps every occurrence of every non-whitespace character |
| `Fence.StripCodeFences` | src/index.ts:82-85 | the whole chain leaves no "```" and no whitespace at either end |
| `Fence.CleanTextUnchanged` | src/index.ts:82-85 | text with no "```" and no surrounding whitespace passes through unchanged |
| `Fence.BacktickFreeUnchanged` | src/index.ts:82-85 | text with no backtick and no surrounding whitespace passes through unchanged |
| `Fence.StripKeepsContent` | src/index.ts:82-85 | the whole chain keeps every occurrence of every character that is neither whitespace nor a character of "```json" |
| `Fence.StripIdempotent` | src/index.ts:82-85 | stripping twice equals stripping once |
| `Fence.UnwrapJsonBlock` | src/index.ts:80-86 | "```json" + body + "```", for a body with no backtick, becomes the trimmed body |
| `Fence.TrimPadded` | src/index.ts:85 | a trimmed, non-empty text with one whitespace character on each side is trimmed back to itself |
| `Fence.TrimExample` | src/index.ts:85 | trimming newline, {"a":1}, newline gives {"a":1} |
| `Fence.UnwrapExample` | src/index.ts:81-86 | the reply "```json", newline, {"a":1}, newline, "```" becomes {"a":1} |
| `Training.Example` | src/index.ts:17-23 | the example for one holding has two inputs and the output [1] when day_change > 0, [0] otherwise |
| `Training.PrepareData` | src/index.ts:16-24 | one example per holding, in order, each with two inputs and one output; the output is 1 iff day_change > 0 and 0 otherwise |
| `Prediction.Features` | src/index.ts:41-44 | the input vector at prediction time has two entries; TrainingMatchesInference ties them to the training inputs |
| `Prediction.TrainingMatchesInference` | src/index.ts:41-44 | the input vector at prediction time is the one the holding had in the training set |
| `Prediction.Classify` | src/index.ts:46 | the direction for an activation; its property is stated by ClassifyThreshold |
| `Prediction.ClassifyThreshold` | src/index.ts:46 | the direction is Up iff the activation is strictly above 0.5; exactly 0.5 gives Down |
| `Prediction.Rate` | src/index.ts:50-60 | the rate is positive iff the direction is Up, and its size lies between 1% and 5% |
| `Prediction.RateSymmetric` | src/index.ts:50-60 | the Down rate is the negated Up rate for every horizon |
| `Prediction.RateGrowsWithHorizon` | src/index.ts:50-60 | the size of the rate strictly grows from day to week to month |
| `Prediction.PredictStockMovement` | src/index.ts:37-70 | Up iff the network's output on the holding's features exceeds 0.5; currentValue = last_price × quantity; potentialValue = currentValue × (1 + rate); profitLoss = currentValue × rate |
| `Prediction.ProfitLossGrowsWithHorizon` | src/index.ts:48-62 | for one holding, the size of the profit or loss does not shrink from day to week to month |
| `Prediction.WeekUpExample` | src/index.ts:54-62 | a holding worth 10,000 predicted Up is projected at 10,300 over a week, a gain of 300 |
| `Routes.Status` | src/index.ts:108-122 | the HTTP status: 404 for the not-found answer, 200 for the three projections |
| `Routes.FindBySymbol` | src/index.ts:104-106 | nothing iff no holding has exactly the symbol; otherwise the first holding that has it |
| `Routes.Predict` | src/index.ts:104-122 | 404 with "Stock not found in portfolio" iff the symbol is absent; otherwise 200 with the day, week and month projections of the first matching holding |
| `Routes.HorizonsConsistent` | src/index.ts:113-122 | the three projections share the current value and the direction, and the size of the profit or loss does not shrink from day to week to month |

## Left out

- Network construction and training (src/index.ts:28-35) are left out. The `synaptic` library's gradient descent and its floating point are not part of this model. The trained network is a parameter, a deterministic function from inputs to its output.
- The language-model call and `JSON.parse` (src/index.ts:72-81) are left out. They are network I/O and a foreign parser. Only the string pre-processing is modelled, so the `/stock-data/:symbol` route, including its 500 answer on a bad reply, is not modelled.
- Express set-up, CORS, `express.json`, `app.listen`, console logging, environment configuration and the `fs.readFileSync` portfolio load are I/O plumbing. The portfolio is a parameter.
- The try/catch blocks that answer 500 (src/index.ts:123-126, 140-145) catch only exceptions from foreign code, which is not modelled.
- Numbers are exact reals, not IEEE-754 doubles. The valuation identities hold exactly in the model but not bit for bit in JavaScript.
- `Training.PrepareData`, `Prediction.PredictStockMovement`, `Routes.Predict`: a zero average price is excluded by a precondition. The source never checks it, and JavaScript would yield Infinity or NaN features.
- `Routes.Predict` requires this only of the holding it values, the first one that carries the requested symbol.
- Holdings keep only the fields the logic reads. The other fields of `Stock` in src/type/index.ts are never used by the modelled code.
- Strings are sequences of Unicode scalar values, while JavaScript strings are UTF-16 code units. Backticks and every whitespace character that `trim()` removes are single code units, so the two views agree on the modelled operations. Unpaired surrogates cannot be represented.
