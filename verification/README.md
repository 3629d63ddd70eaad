# Verification of the portfolio engine

A Dafny model of the decision-making core of the repository: the risk engine, the mandate
and execution pipeline, the event-driven backtest, and the smaller algorithms they rest
on. `dafny verify dfyconfig.toml` checks all of it.

The objects of the source that change state are classes here and its loops are methods,
each proved to compute a function; the theorems are about those functions. A loop that
only sums, sorts or filters is a function, and the sums over a dictionary appear as loops
where the source accumulates by hand.

| file | what it holds |
|---|---|
| `Arithmetic`, `Ordering`, `Sums` | real arithmetic, Python's string order and stable sort, sums over dictionaries and the quadratic form of a covariance |
| `Policy`, `RiskEngine`, `RiskLimits` | the policy, the risk engine as functions, and what compliance means independently of the gate |
| `RepairedTargets`, `RiskScaling`, `RiskTheorems`, `RiskDecisions` | what the repairs achieve and how much they take, what holds over every proposal, and what is decided |
| `RiskRefusals`, `RiskRuns`, `RiskBreaker` | when a refusal is final, every run of cycles, and the circuit breaker |
| `RiskFixedPoints`, `RiskEdges` | when the engine changes nothing, and inputs where its promises stop |
| `RiskRepairs` | the risk engine's loops |
| `KeyTexts`, `Mandates` | the text a mandate's id is taken over, the mandate, and the reconciliation |
| `Execution`, `ExecutionTheorems`, `ExecutionLedger`, `ExecutionOutcomes` | sizing, fills, the simulated executor; caps, conservation and solvency through it; what it does with each target |
| `NaiveExecution`, `NaiveBooks` | the executor that talks to a broker, with the broker as environment, and its book |
| `MarketData`, `Backtest`, `BacktestEngine` | the clock, the event source, the run as functions and as an object |
| `BacktestCausality`, `BacktestAccounting`, `BacktestSolvency`, `BacktestLimits`, `BacktestMarks`, `BacktestSchedule`, `BacktestDecisions`, `Drawdowns` | theorems over whole runs |
| `SchemaGuard`, `SchemaValues`, `NullProvider`, `TokenBuckets` | the language-model layer's guard and what it is worth, neutral generator and rate limiter |
| `Frontier`, `HedgeFundFees` | the capped maximum return, and fees under a high-water mark |
| `PointInTime`, `Fundamentals` | the point-in-time store and company fundamentals |

## How the source is read

- `Decimal` is exact `real`; `TOLERANCE` keeps its value. The decimal square root is a
  function assumed exact on positive numbers, and every statement that needs a covariance
  to be positive semidefinite says so as "no book of weights has negative variance".
- `minimum_variance_portfolio`, the views' tilts, and estimation and optimization together
  are arbitrary deterministic functions; the first and the last may fail. SHA-256 and the ISO form of
  an instant are functions; where ids must differ the statement assumes that the two texts
  at hand do not collide, and that the two instants are written apart and without a bar.
- Instants are integers. Strings are ordered as Python orders them; dictionaries walked in
  insertion order only to be summed are walked in key order.
- Exceptions are `Failure` results, `None` results or `false`, whichever the callers of the
  source tell apart. A generator of updates is drained to its final report.
- A policy has the invariants its construction checks. The theorems also ask for
  non-negative beta, volatility and turnover ceilings, which construction does not check.

## Where the code and its own words differ

The code is followed in each case.

- `src/risk/codes.py:45-46` says every code but two has a deterministic repair. Two things
  stand in the way. A book of negative exposure is not scaled at all
  (`RepairedTargets.TargetMeetsLimitsExactly`, `RiskEdges.ShortBookIsNotRepaired`). And the
  turnover blend stays near the book held, so a book that has drifted above a cap, or holds
  a name no longer listed, can be refused under a long-only policy too, even a proposal to
  sell everything (`RiskEdges.DriftedBookIsNotRepaired`); when exactly is
  `RiskRefusals.RefusalIsTerminalExactly`, and far enough out the book is stuck for ever
  (`RiskRuns.StuckForEver`). From a compliant long-only book the claim is true
  (`RiskTheorems.RecursiveFeasibility`).
- `src/risk/engine.py:427-428` says that past the breaker the book may not become riskier.
  From a riskless book it does (`RiskBreaker.BreakerExactly`,
  `RiskEdges.BreakerFromCashAddsRisk`).
- `src/cfa/alternatives.py:118-121` says value regained earns no incentive fee. With the
  incentive taken before the management fee it does
  (`HedgeFundFees.NoDoublePaymentExactly`).
- `src/llm/schema_guard.py:1-5` says numeric fields are rejected and every number is computed
  in Python. Three kinds of annotation get past it: generics other than five, `Any` and
  `Literal`, which are not looked into (`SchemaValues.SequenceOfFloatPasses`); enums that are
  not of ints but whose members are numbers (`SchemaValues.FloatEnumPasses`); and containers
  without arguments (`SchemaValues.BareListPasses`). There are no others
  (`SchemaValues.AcceptedHoldsNoNumberExactly`).
- `src/llm/null.py:7-8` says a neutral instance is constructed of whatever schema is handed in.
  One that comes to require itself has none (`NullProvider.AnswersExactly`,
  `NullProvider.SelfRequiringModelNeverAnswers`).
- `src/data/edgar.py:227-229` resolves every field as of an instant, yet a malformed fact
  filed after that instant makes the lookup raise (`Edgar.FundamentalsIgnoreTheFuture`).
- `src/decision/mandate.py:144-151` derives a mandate's id from its content. Symbols that
  themselves contain the separators can give two different decisions one id, for any hash
  (`Mandates.MisreadSymbolSharesItsId`); without a bar in them they cannot
  (`Mandates.SameIdExactly`).
- `src/execution/naive.py:63-69` derives ids meant to be one per order; they are for mandate
  ids of one length, and not for arbitrary ones (`NaiveTheorems.OrderIdsCollideExactly`,
  `NaiveTheorems.DashedIdsCollide`).
- `src/execution/naive.py:289-301` falls back on the order where a reply says nothing of the
  quantity, for orders accepted but not yet filled. A reply that says 0 is taken at its
  word, and the order is lost to the book (`NaiveTheorems.AcceptedUnfilledIsLost`).
- `src/llm/base.py:93-99` accepts a negative request, which adds tokens
  (`TokenBuckets.TakeKeepsBoundsExactly`, `TokenBuckets.NegativeRequestOverfills`).

## Model

| member | source | states |
|---|---|---|
| RiskTheorems.RecursiveFeasibility | src/risk/engine.py:322-514 | Long-only, non-negative ceilings, positive semidefinite covariance: from any book that meets every rule but safety-first, whatever is proposed, the book returned meets them again and a refusal carries only the corridor or the safety-first code. The author declines to argue this (lines 6-14) and leans on the final gate |
| RiskRuns.ComplianceIsKept | src/risk/engine.py:322-514 | The same over every sequence of cycles, each with its own context, any proposal, and any drift of the book since the last one, as long as neither prices nor the change of context put a compliant book in breach: every book returned complies and every refusal is terminal |
| RiskRuns.TimePassing | src/risk/engine.py:291-295 | Time passing with prices at rest is such a change: wash-sale windows close, names are listed, drawdowns, returns and rates do as they like |
| RiskRuns.StuckForEver | src/risk/engine.py:470-504 | As long as prices leave one name above its cap, or unlisted, by more than two turnover caps, the book is refused whatever is proposed, over every sequence of cycles, breaker or not, long-only or not, and does nothing but drift |
| RiskRuns.RefusalRepeats | src/risk/engine.py:495-504 | A refusal returns the book held, so with prices at rest the same proposal in the same context is refused again with the same assessment, any number of times |
| RiskDecisions.EvaluateExactly | src/risk/engine.py:446-531 | The whole decision: inside the corridor a refusal for that alone, measured on the target; otherwise the move toward the target is measured and refused, for what the gate reports, if and only if it does not comply or misses Roy's ratio; approved if nothing was repaired and the cap did not bind, else modified with the repairs and the cap's last; a refusal keeps the book |
| RiskDecisions.MoveIsExact | src/risk/engine.py:470-482 | All the way if the turnover cap allows; otherwise the same fraction of the way in every name, so far that the cap is used up, zeros dropped |
| RiskDecisions.CorridorExactly | src/risk/engine.py:446-449 | The corridor applies if and only if there is a book and every name of it or of the target is within the policy's distance of its target |
| RiskDecisions.SafetyFirstExactly | src/risk/engine.py:143-168 | Roy's condition: a book with volatility passes if and only if it is expected to earn, on what is invested and on the cash, the threshold and the least ratio times its volatility; a riskless one always does |
| RiskDecisions.MetricsAre | src/risk/engine.py:517-531 | Each metric is what the book measures: exposure, cash, beta, volatility, turnover, the farthest drift of any name, and the ratio as excess return over volatility |
| RiskDecisions.SameSectorExactly | src/risk/engine.py:119-126 | Two names share a sector if and only if both are listed under one or neither is listed, a sector named UNKNOWN counting with the unlisted |
| RiskRefusals.RefusalIsTerminalExactly | src/risk/engine.py:446-504 | With nothing assumed of the book held or of shorting: a refusal is terminal if and only if the corridor applied, or the move toward the target complies: beyond the turnover cap, if it repairs every rule the held book breaks, read name by name, sector by sector and total by total off that book, the target and t = cap / turnover; within it, if the target has positive exposure or is within the beta and volatility ceilings as it stands |
| RiskRefusals.MoveExactly | src/risk/engine.py:470-482 | The capped move toward any target the repairs can end at passes the gate (safety-first apart) exactly then |
| RiskRefusals.LongOnlyComplies | src/risk/engine.py:446-482 | For a long-only policy, or past the breaker, the second case never fails: a target within the turnover cap always complies |
| RiskRefusals.UnlistedHoldingIsRefused | src/risk/engine.py:470-504 | A name held but no longer listed refuses every target outside the corridor and beyond the turnover cap, with a code the engine calls repairable, whatever the policy allows |
| RiskEdges.DriftedBookIsNotRepaired | src/risk/engine.py:470-504 | A concrete long-only case: all of the book in one name capped at one half, a tenth of it tradable, and even a proposal to sell everything is refused with a position-cap breach |
| RiskBreaker.BreakerNeverAddsRisk | src/risk/engine.py:335-345 | Past the circuit breaker the weights returned, accepted or refused, are no more volatile than the book held, if that book has any volatility; the gate does not check this |
| RiskBreaker.BreakerExactly | src/risk/engine.py:335-345 | The breaker promise exactly, by conditions known before the call: what is returned is no riskier than the book held if and only if a guard refuses the move (corridor, a broken rule it cannot repair, safety-first), or that book had some volatility, or the cap lets nothing move, or the minimum-variance target is riskless; the target depends on the context alone |
| RiskBreaker.TrippedRefusal | src/risk/engine.py:446-504 | Past the breaker the engine refuses exactly when one of those guards does |
| RiskEdges.BreakerFromCashAddsRisk | src/risk/engine.py:426-433 | "May not become riskier than it already is" fails from cash: an all-cash book past the breaker is moved into the minimum-variance portfolio |
| RiskBreaker.RisklessIsUncorrelated | src/risk/engine.py:99-116 | Under a positive semidefinite covariance a book without variance has zero total covariance with every other book |
| RiskBreaker.RisklessBlend | src/risk/engine.py:470-482 | From a riskless book, a move of a fraction t carries exactly t squared of the target's variance |
| RepairedTargets.TargetMeetsLimits | src/risk/engine.py:347-444 | Long-only, or past the breaker, the repaired target meets every limit exactly, with no tolerance, and holds nothing short |
| RepairedTargets.TargetMeetsLimitsExactly | src/risk/engine.py:406-444 | In general it does so if and only if there was exposure left to scale or the balanced book already met the beta and volatility ceilings |
| RiskEdges.ShortBookIsNotRepaired | src/risk/engine.py:406-407 | With shorting allowed a book of negative exposure is not scaled, so a beta breach outside `TERMINAL_CODES` is refused: a concrete policy, context and proposal |
| RepairedTargets.SectorsDoNotInterfere | src/risk/engine.py:389-401 | Scaling one sector leaves the exposure of every other alone: each ends at its own factor times what it was |
| RepairedTargets.SectorScaledOk | src/risk/engine.py:389-401 | After the sector loop every sector is within its cap and every name still within its own |
| RepairedTargets.UniformScaleWorks | src/risk/engine.py:403-444 | One factor, the tightest, brings exposure, cash, beta and volatility within their limits at once, and volatility within the breaker's lower ceiling |
| RiskScaling.TargetIsLargest | src/risk/engine.py:389-444 | The target is the largest fraction, in [0, 1], of the sector-capped book that is within the exposure, cash, beta and volatility limits and, past the breaker, no more volatile than the book held: Scale(j) is within them if and only if j is at most that fraction; without exposure it is that book itself |
| RiskScaling.ScaledNoMoreThanNeeded | src/risk/engine.py:403-444 | The same for any book: scaled no more than it must be |
| RiskScaling.SectorScaledExactly | src/risk/engine.py:389-401 | Each sector ends at the smaller of its exposure and the cap, its names in the proportions they had; one within the cap is left alone |
| RiskScaling.RepairsExactly | src/risk/engine.py:332-444 | Everything the repairs log and nothing else: the breaker's code past the breaker, what was decided of each name, one code for a broken sector cap, and one for each ceiling broken, of the two on exposure the tighter |
| RepairedTargets.NameRepairsExactly | src/risk/engine.py:347-387 | The four per-name loops amount to one decision a name: dropped, capped or left alone for the first reason that applies, and exactly that reason is logged for it |
| RepairedTargets.NameRepairsOk | src/risk/engine.py:347-387 | The per-name loops leave listed, unblocked names within the position cap, none short under a long-only policy |
| RepairedTargets.MinimumVariancePositive | src/risk/engine.py:303-319 | The breaker's replacement book holds nothing short, whatever the solver returns |
| RiskLimits.VerifyExact | src/risk/engine.py:171-288 | The gate finds nothing but a safety-first breach if and only if the book complies (compliance defined without reference to it), and nothing at all if and only if the ratio is met as well |
| RiskLimits.GateReportsExactly | src/risk/engine.py:171-288 | The gate reports exactly the breaches there are, each under its own code, with the value measured and the limit it is beyond |
| RiskLimits.CompliesConvex | src/risk/engine.py:470-482 | The compliant books are a convex set, so a turnover blend of two compliant books complies |
| RiskLimits.VolatilityBlend | src/risk/engine.py:99-116 | A blend of two books under a volatility ceiling stays under it |
| Sums.VarianceConvex | src/risk/engine.py:109-116 | The quadratic form is convex along a blend; symmetry of the covariance is not used |
| Sums.VarianceScale | src/risk/engine.py:109-116 | Scaling a book by k scales its variance by k squared |
| RiskTheorems.TurnoverBlend | src/risk/engine.py:129-133 | Moving a fraction t of the way trades t of the distance |
| RiskTheorems.TurnoverWithinCap | src/risk/engine.py:470-489 | Turnover from the book held to the weights returned never exceeds the cap, and equals it on an accepted result whose blend was logged; the gate does not check this |
| RiskTheorems.ReturnedWeights | src/risk/engine.py:446-514 | Every path returns either the book held, with a reason, or the capped move toward the target, past the gate |
| RiskTheorems.NoCorridorCode | src/risk/engine.py:171-288 | The gate never reports the corridor code |
| RiskTheorems.CashCompliesExactly | src/risk/ips.py:102-113 | Cash meets every rule of a policy that can be constructed, so that a first funding starts the chain, if and only if its beta and volatility ceilings are not below zero, which construction does not check |
| RiskFixedPoints.SilentExactly | src/risk/engine.py:332-444 | No repair is recorded if and only if the breaker is quiet and the proposal, zeros dropped, is settled: names listed, unblocked and within their limits, sectors within their caps, book-level limits met if there is exposure to scale; the target is then that proposal |
| RiskFixedPoints.ApprovedIsUntouched | src/risk/engine.py:506-514 | APPROVED means untouched: the weights are the proposal without its zeros and no repair is recorded, for every policy there can be |
| RiskFixedPoints.ApprovedExactly | src/risk/engine.py:506-514 | Exactly which proposals are APPROVED: those settled, within the book-level limits up to the tolerance, meeting the ratio, outside the corridor and within the turnover cap |
| RiskFixedPoints.SettledLongOnly | src/risk/engine.py:347-444 | For a long-only policy settled means within every limit exactly |
| RiskFixedPoints.TargetIsSettled | src/risk/engine.py:347-444 | The repairs always end at a settled book, short positions or not |
| RiskFixedPoints.FundedFromCash | src/risk/engine.py:470-489 | From an empty book the capped move toward the target is settled |
| RiskFixedPoints.ResultsAreFixedPoints | src/risk/engine.py:322-514 | With an empty book and a quiet breaker, re-evaluating any result that was not refused approves the same weights, zeros apart, whether or not the policy allows shorting |
| RiskRepairs.EvaluateProposal | src/risk/engine.py:322-514 | The engine as it runs, repair loop by repair loop, computes the function the theorems are about |
| RiskRepairs.BuildTarget | src/risk/engine.py:332-444 | The loops before the corridor, in their order, leave the target and log of that function |
| RiskRepairs.RepairNames | src/risk/engine.py:347-387 | The four per-name loops compose to the per-name repair function, log included |
| RiskRepairs.DeleteNames | src/risk/engine.py:348-376 | Deleting in symbol order keeps exactly the names not dropped and logs each dropped one once, in order |
| RiskRepairs.CapNames | src/risk/engine.py:378-387 | The clamp changes exactly the names above the cap, to the cap, and logs exactly those |
| RiskRepairs.ScaleOneSector | src/risk/engine.py:393-395 | The inner loop multiplies the names of one sector and no other |
| RiskRepairs.ScaleSectors | src/risk/engine.py:389-401 | Sector after sector in place, exposures measured before the first, every name ends multiplied by its own sector's factor alone |
| RiskRepairs.ChooseCeiling | src/risk/engine.py:425-433 | The volatility ceiling, lowered past the breaker to what is held |
| RiskRepairs.ChooseFactor | src/risk/engine.py:408-438 | Keeping the running minimum finds the tightest of the three factors, with the reasons in order |
| RiskRepairs.ScaleUniformly | src/risk/engine.py:403-444 | The uniform scale changes nothing and logs nothing unless the factor is below 1 |
| RiskRepairs.ScaleAll | src/risk/engine.py:440-442 | The scaling loop multiplies every weight once |
| RiskRepairs.BlendToward | src/risk/engine.py:473-482 | The blend loop keeps exactly the non-zero entries of the pointwise blend |
| RiskRepairs.MeasureVolatility | src/risk/engine.py:99-116 | The double loop computes the root of the quadratic form, 0 when it is not positive |
| RiskRepairs.AddRow | src/risk/engine.py:110-113 | The inner loop adds one row of the form |
| RiskRepairs.MeasureSectors | src/risk/engine.py:119-126 | The loop's totals are the sums over each sector's members, and there is one for each sector held |
| RiskRepairs.VerifyName | src/risk/engine.py:183-220 | The checks of one name, in their order |
| RiskRepairs.VerifyNames | src/risk/engine.py:183-220 | The names in symbol order, each with its violations |
| RiskRepairs.VerifySectors | src/risk/engine.py:222-231 | The sectors in order, each above the cap reported |
| RiskRepairs.VerifyTotals | src/risk/engine.py:233-275 | Leverage, cash, beta and volatility, in that order |
| RiskRepairs.VerifyBook | src/risk/engine.py:171-288 | The whole gate, its violations in its order |
| MandateTheorems.EveryMandateMeetsItsTurnover | src/decision/mandate.py:162-204 | A mandate built from any weights the engine returns is well formed, implies exactly the turnover the engine measured and meets its own `max_turnover`, which neither the gate nor an executor checks |
| Mandates.ImpliedIsMeasured | src/decision/mandate.py:114-120 | `implied_turnover` over the listed targets equals `turnover` over all names |
| Mandates.MandateTargetsExact | src/decision/mandate.py:180-190 | A mandate lists exactly the names held or wanted, each once, exits included with a target of zero |
| KeyTexts.KeyReadsBack | src/decision/mandate.py:152-158 | Two keys of symbols that do not read as targets themselves join to one text if and only if they are the same key |
| KeyTexts.NumberReadsBack | src/decision/mandate.py:43-48 | A quantized number can be read back from its digits, sign and point, the sign of a zero included |
| KeyTexts.RoundedExactly | src/decision/mandate.py:43-48 | Quantizing rounds to the nearest, and halfway to the even |
| KeyTexts.MisreadHasBar | src/decision/mandate.py:157-158 | Only a symbol with a bar in it can read as a target followed by another |
| Mandates.SameIdExactly | src/decision/mandate.py:139-159 | Short of a digest collision two mandates share an id if and only if their joined texts are equal, which for symbols that do not read as targets is if and only if they have the same key; ids have 40 characters |
| Mandates.MisreadSymbolSharesItsId | src/decision/mandate.py:156-159 | A symbol that does read as a target shares its mandate id, for any digest and any weights, with the decision to hold the two names it reads as |
| Mandates.SameKeyExactly | src/decision/mandate.py:152-157 | They have the same key if and only if they agree on the time, on the value as written to the cent, and target by target in symbol order on the symbol and the weight as written to the basis point |
| Mandates.KeyIgnoresOrder | src/decision/mandate.py:156-157 | The order in which distinct targets are given leaves no trace in the key |
| Mandates.MinusZeroReadsApart | src/decision/mandate.py:43-44 | As written: a weight a hair below zero rounds to the same basis point as zero but keeps its sign, and so reads apart |
| Mandates.JoinKey | src/decision/mandate.py:152-158 | The sort, the loop that appends the parts, and the join give the text of the key |
| Reconciliations.DriftIsExact | src/decision/mandate.py:228-256 | Per name the drift is achieved less decided weight, zero for names in neither, and its total is twice the turnover between the two books |
| Reconciliations.RealizedTurnoverBounded | src/decision/mandate.py:242-248 | Realized turnover exceeds the implied one by at most half the total drift |
| Reconciliations.WorstDriftIsWorst | src/decision/mandate.py:250-256 | The symbol reported is the first of those that drifted furthest, targets first and then what was filled unasked in the order of the dictionary, and is missing only when there is nothing to compare |
| Reconciliations.ReconcileLoop | src/decision/mandate.py:228-256 | Both loops, over the targets and then over the dictionary in its order, compute that record |
| Reconciliations.AddUnasked | src/decision/mandate.py:236-239 | The second loop adds exactly the realized names no target asked for, in full |
| ExecutionTheorems.ExecutionKeepsCaps | src/execution/simulated.py:63-141 | Whatever mix of orders is turned away, under either fill model, every priced target with a non-negative weight ends worth at most weight times portfolio value plus the minimum trade; if its order filled, at most weight times value and less than one share below |
| ExecutionOutcomes.SimulatedExactly | src/execution/simulated.py:63-141 | What execution does with one priced target, exactly: with n the whole shares nearest its weight without passing it, it ends at n if the difference is worth trading and, to buy, costs no more than the fills in earlier names left; else it stays. Such a purchase is the one thing refused for cash, and the trade made is the one fill in its name, at the price or half the spread beyond it, with its commission |
| ExecutionOutcomes.SizingExactly | src/execution/base.py:261-307 | How a priced target is sized, exactly: an order, to buy if and only if n is above the shares held, for the difference, if and only if that is not zero and worth the minimum trade; a refusal as too small if and only if it is neither; never one for its price |
| ExecutionOutcomes.UnpricedExactly | src/execution/base.py:262-271 | A name without a usable price sends no order and is refused for that, if and only if it is a target |
| ExecutionOutcomes.OthersUnmoved | src/execution/simulated.py:76-101 | A name that is not a target neither moves nor fills |
| ExecutionOutcomes.ShortOnlyForCash | src/execution/simulated.py:83-93 | A position ends short of its weight by more than one share and the smallest trade only where a purchase was refused for cash |
| ExecutionOutcomes.PositionsReported | src/execution/simulated.py:103-122 | Each position reported is one of the rebuilt account, with its worth and its weight in it |
| ExecutionOutcomes.TurnoverReported | src/execution/simulated.py:124-132 | The turnover reported is half of what changed hands, name by name at the price it did, over what the account was worth |
| ExecutionOutcomes.ShortfallIsAnAverage | src/execution/base.py:310-339 | The shortfall reported lies between the least and the greatest slip of any measured fill, against the decision prices if any were given and the market's otherwise; with nothing to measure it is zero |
| BacktestLimits.PositionCapSurvives | src/backtest/engine.py:343-354 | Across risk engine, mandate and executor: after a cycle that traded every priced holding is worth at most the position cap of the portfolio plus the minimum trade; and the cycle trades if and only if the account is worth something |
| ExecutionTheorems.TargetOutcome | src/execution/base.py:262-301 | What one target can end as: desired shares if filled; otherwise what was held, which is at most the minimum trade above |
| ExecutionTheorems.SizedOrders | src/execution/base.py:241-307 | Exactly one order for each target worth trading, and no name twice |
| ExecutionTheorems.SizedRefusals | src/execution/base.py:262-292 | Exactly the targets without a usable price or below the smallest trade are refused, each under its reason |
| ExecutionTheorems.OrdersAnswered | src/execution/simulated.py:76-101 | Every order is answered once: it fills, or it is refused for want of cash |
| ExecutionTheorems.RejectionsReported | src/execution/simulated.py:137 | The report shows every rejection of the call, as often as it arose, by symbol and then by code |
| ExecutionTheorems.PositionsAfter | src/execution/simulated.py:76-101 | Each name moves by its own order if that order filled, and not at all otherwise |
| ExecutionTheorems.SellsFill | src/execution/simulated.py:85-101 | A sale is never turned away |
| ExecutionTheorems.RebuiltPositions | src/backtest/engine.py:216-220 | Rebuilding the account from the report keeps exactly the non-zero priced positions, and the cash |
| ExecutionLedger.ExecutionConserves | src/execution/simulated.py:76-107 | At the same prices the account after is worth the account before, less the commission the report states and what was paid beside the mark |
| ExecutionLedger.CostOfFill | src/execution/fill_models.py:89-106 | One fill pays the half-spread on each share beside the mark, and its commission |
| ExecutionLedger.CrossingCosts | src/execution/fill_models.py:89-106 | Whatever the mix of buys and sells, crossing the spread costs half of it on everything traded and the commission on every share |
| ExecutionLedger.InstantIsFree | src/execution/fill_models.py:58-68 | Under instant fills trading costs nothing |
| ExecutionLedger.HalfSpreadPaid | src/execution/fill_models.py:89-95 | A spread below 200% is paid in full, half on each side, at a positive price |
| ExecutionLedger.ShortfallIsHalfTheSpread | src/execution/base.py:310-339 | With decisions priced at the market the reported shortfall is exactly half the spread in basis points whenever anything fills, whatever the mix of buys and sells, and 0 otherwise |
| ExecutionLedger.ExecutionStaysSolvent | src/execution/simulated.py:85-122 | Non-negative cash and holdings stay so, and rebuilding the account loses none of them, when sales cover their commission |
| ExecutionLedger.SolventIsPositive | src/execution/base.py:165-172 | A priced account that owes nothing and owns something is worth something |
| Execution.SizeOrdersLoop | src/execution/base.py:241-307 | The sizing loop and its two sorts compute the sizing function |
| Execution.Execute | src/execution/simulated.py:63-141 | The order loop, updating positions, cash, fills and rejections, computes the executor's report |
| Execution.MeasureShortfall | src/execution/base.py:310-339 | The accumulating loop computes the notional-weighted slippage |
| NaiveTheorems.AtMostOnce | src/execution/naive.py:193-250 | Over any sequence of calls and any broker answers (accept, refuse, accept then report an error), against a broker that refuses a seen id: it acts on no id twice, its holdings are those it began with plus one quantity per id acted on, and no recorded id is sent again |
| NaiveTheorems.AtMostOnceFromNew | src/execution/naive.py:193-250 | From a new broker and executor: whatever is called and answered, the broker ends with what it began with plus one quantity per id acted on |
| NaiveBooks.CallExactly | src/execution/naive.py:193-281 | One call, exactly: an order gets a reply if and only if its id is new to both sides and the broker accepts it without an error; each such order leaves one fill, for the shares and at the price of its reply or, where silent, of the order, and moves that much cash; every other leaves one rejection and moves none |
| NaiveBooks.TurnsExactly | src/execution/naive.py:205-240 | The same for the order loop alone, with the ids recorded |
| NaiveTheorems.TurnConsistent | src/execution/naive.py:205-250 | One turn of the loop keeps that invariant, only adds to what was recorded, and sends nothing already recorded |
| NaiveTheorems.TurnLedger | src/execution/naive.py:230-234 | One turn of the loop moves the executor's book and the broker's holdings together, once what got no reply and what replies left out are set apart |
| NaiveTheorems.BookMissesExactly | src/execution/naive.py:217-234 | After a call from the broker's own holdings the book is short of them by what was accepted under an error plus what replies left out, and right about a name if and only if these two come to nothing |
| NaiveTheorems.AcceptedUnfilledIsLost | src/execution/naive.py:284-301 | The usual reply, accepted with nothing filled yet, books nothing, leaves the whole order out of the book with no error anywhere, and the order is not sent again |
| NaiveTheorems.WithoutTheBrokersCheckOrdersDouble | src/execution/naive.py:217-230 | The executor's own memory is not enough: an order accepted under an error and retried trades twice unless the broker refuses seen ids |
| NaiveTheorems.OrderIdsCollideExactly | src/execution/naive.py:63-69 | Two orders share an id if and only if they are the same mandate and symbol, or a dash in a symbol reads as the end of a longer mandate id |
| NaiveTheorems.DashedIdsCollide | src/execution/naive.py:63-69 | One such pair: mandate a with symbol b-c, and mandate a-b with symbol c |
| NaiveTheorems.BuiltMandatesKeepOrdersApart | src/execution/naive.py:63-69 | Mandates with ids from `mandate_id` share an order id if and only if their texts and symbols are equal: for unambiguous symbols, the same decision and the same symbol |
| NaiveExecution.NaiveExecutor.Execute | src/execution/naive.py:193-281 | The executor object: its set of submitted ids, its order loop and report, against the broker object |
| NaiveExecution.Broker.SubmitMarketOrder | src/execution/naive.py:80-82 | The broker as environment: what it trades, and separately what it replies, for an id new or seen |
| BacktestCausality.Causality | src/backtest/engine.py:222-230 | Cut any stream at a timestamp boundary: everything put out by the earlier part is a prefix of what the whole puts out, and an error of the earlier part is the error of the whole, for any deterministic views and executor |
| BacktestCausality.BacktestIsCausal | src/backtest/engine.py:116-247 | The same from unsorted events and a window: a run to `mid` produces a prefix of a run to `end`, whatever later events are added, removed or changed |
| BacktestCausality.ClockNeverRaises | src/time/clock.py:72-79 | On a time-ordered stream inside the window the simulation clock never raises |
| BacktestSchedule.RunScheduleExactly | src/backtest/engine.py:195-200 | Over a whole run, by points of the equity curve and the events behind each: the first cycle is at the first point by which every name has more closes than the estimation window, the others exactly every `rebalance_every` points, at least one apart, and none is missed |
| BacktestSchedule.RunMarksExactly | src/backtest/engine.py:159-181 | The book is marked exactly at the end of every instant by which each name has printed, told the events up to there and no others: prices are the last closes, histories the adjusted ones |
| BacktestSchedule.RunKnowsExactly | src/backtest/engine.py:165-181 | Each point of the curve is what the account was worth there at those prices |
| BacktestDecisions.RunDecidesExactly | src/backtest/engine.py:250-363 | Every cycle of a run: on the account the cycles before it left and the returns of the last window of closes, oldest first, it asks for a plan, has the risk engine judge it at the weights held, and mandates, executes and reconciles what is not refused; otherwise it records why not |
| BacktestDecisions.RunBenchmarkExactly | src/backtest/engine.py:183-189 | The benchmark is bought with the initial cash at the first point where it has a price, and is that cash until then |
| BacktestDecisions.BacktestExactly | src/backtest/engine.py:116-247 | When a run fails, with what, and what it returns otherwise; too few marks if and only if fewer than two instants end with every name printed |
| BacktestAccounting.RunIsSelfFinancing | src/backtest/engine.py:159-220 | Over a whole run the account is worth initial cash, plus shares held times the change in price summed over names and marks, less all commission reported and all that was paid beside the mark; the last mark is that before the last trade's cost |
| BacktestAccounting.RunIsCharged | src/execution/fill_models.py:44-102 | What those costs are over a whole run: with a spread, half of it on the value traded at the mark and the commission on every share; with instant fills, nothing |
| BacktestAccounting.RunIsFree | src/backtest/engine.py:159-220 | Under instant fills those costs are zero over a whole run |
| BacktestAccounting.EquityStep | src/backtest/engine.py:179-181 | Each mark is the one before, less what trading then cost, plus shares held times the change in price |
| BacktestAccounting.FlushBalance | src/backtest/engine.py:159-220 | One flush changes what is owned by the gain on what was held less the cost of trading, and keeps marks, cycles and account in step |
| BacktestAccounting.GainIsPriceChange | src/execution/base.py:165-169 | What holdings priced on both sides are worth changes by shares times the change in price, name by name |
| BacktestSolvency.RunStaysSolvent | src/backtest/engine.py:159-230 | From non-negative cash, long-only, on prices at which a sale covers its commission: cash and every share count stay non-negative and every holding is priced, over every run that does not raise; with money to begin with and something left of every sale no run raises and the account is always worth something |
| BacktestSolvency.TradeSound | src/backtest/engine.py:343-354 | A cycle trades if and only if the account is worth something, and leaves it solvent and priced |
| BacktestSolvency.ReturnedNonNegative | src/risk/engine.py:322-514 | A long-only engine returns no short weight for a book with none, breaker and blend included |
| BacktestMarks.BreakerSeesTheDrawdown | src/backtest/engine.py:191-213 | Over a whole run: one mark for each point of the equity curve; the drawdown in force at each is the curve's own up to there; their maximum, attained, is the maximum drawdown of the metrics; and every cycle asked the risk engine with the drawdown of its own mark |
| BacktestMarks.CycleSeesItsDrawdown | src/backtest/engine.py:202-213 | A cycle, traded or not, is the engine's answer in the context of its mark |
| BacktestMarks.RunKeepsCaps | src/backtest/engine.py:343-354 | Over a whole run: after every cycle that traded, every priced holding was within its cap of the portfolio at that mark, plus the smallest trade |
| BacktestMarks.RunKeepsTurnover | src/backtest/engine.py:343-363 | Over a whole run: every mandate recorded implies the turnover between the book at its mark and the weights decided, within the policy's cap, and what was executed exceeds the cap by at most half the drift recorded with it |
| BacktestMarks.BacktestStaysSolvent | src/backtest/engine.py:116-247 | From unsorted events to the result: the clock never raises, the curve is never negative; with money to begin with and something left of every sale the only failure is too few marks, and the curve is positive |
| BacktestEngine.Engine.constructor | src/backtest/engine.py:139-157 | The state a run begins in |
| BacktestEngine.Engine.Absorb | src/backtest/engine.py:165-171 | The loop over one timestamp's events updates prices and histories in order and nothing else |
| BacktestEngine.Engine.MarkBook | src/backtest/engine.py:177-193 | One mark: points, benchmark units, peak and drawdown |
| BacktestEngine.Engine.RunCycle | src/backtest/engine.py:250-363 | One decision cycle through the imperative risk engine, from usable symbols to the record with its reconciliation and tilts |
| BacktestEngine.Engine.GatherReturns | src/backtest/engine.py:276-284 | The loop over periods gathers the observations, oldest first |
| BacktestEngine.Engine.GatherRow | src/backtest/engine.py:279-283 | The loop over symbols gathers one of them |
| BacktestEngine.Engine.RecordMark | src/backtest/engine.py:177-193 | The assignments of one mark compute its new state |
| BacktestEngine.Engine.DecideCycle | src/backtest/engine.py:195-220 | Rebalances only when ready and due, and adopts the reported account |
| BacktestEngine.Engine.FlushEvents | src/backtest/engine.py:159-220 | One flush: the object's new state, or its error, is that of the flush function |
| BacktestEngine.Engine.Play | src/backtest/engine.py:222-230 | The event loop over any stream ends in the state, or error, of the replay function |
| BacktestEngine.RunBacktest | src/backtest/engine.py:116-247 | The whole run, from window check to result |
| Drawdowns.MaxDrawdownIsPairwise | src/backtest/metrics.py:58-76 | On a positive curve the single pass is the maximum over i <= j of (c_i - c_j) / c_i, attained |
| Drawdowns.MeasureDrawdown | src/backtest/metrics.py:58-76 | The loop with its running peak computes it |
| Drawdowns.MaxIsLargest | src/backtest/metrics.py:58-76 | It is the largest of the drawdowns at every point, and one of them |
| MarketData.StreamOrdered | src/data/sources.py:183-200 | The stream is time-ordered and is exactly the events of the window, each as often as given, ties of instant and symbol in the order given |
| MarketData.StreamIgnoresTheFuture | src/data/sources.py:183-200 | Sources that agree up to `end`, ties and repetitions included, stream alike up to `end` |
| MarketData.ShorterWindowIsPrefix | src/data/sources.py:192-200 | A shorter window sees a prefix, cut at a timestamp |
| Clocks.SimulationClock.AdvanceTo | src/time/clock.py:72-79 | Moves forward or refuses and stays |
| SchemaGuard.ValidateLlmSchema | src/llm/schema_guard.py:121-131 | Terminates on every finite graph of models, cycles included, and accepts if and only if the schema is a model and no forbidden scalar, IntEnum or unmarked int is reachable through any chain of fields, unions, the five inspected containers and nested models, the mark reset at each model |
| SchemaValues.AcceptedHoldsNoNumberExactly | src/llm/schema_guard.py:67-105 | What acceptance is worth: a model the guard accepts admits no value with a number in it, convictions apart, if and only if, in the models it reaches, the guard comes to no container without arguments, no enum with a number among its members, and no generic it does not look into with a number to be written in it or in a model it leads to |
| SchemaValues.AcceptedHoldsNoNumber | src/llm/schema_guard.py:67-105 | The half of it that asks nothing of the schema |
| SchemaValues.RefusedHoldsNumber | src/llm/schema_guard.py:43-118 | And nothing is refused for less: a model the guard refuses admits a value with a number in it, convictions apart |
| SchemaValues.HoldsNumberExactly | src/llm/schema_guard.py:1-12 | Accepted or not, a model admits a value with a number in it if and only if one can be written somewhere in what it leads to, every generic, enum and bare container looked into |
| SchemaValues.SequenceOfFloatPasses | src/llm/schema_guard.py:67-75 | `Sequence[float]` passes, and its values are lists of numbers |
| SchemaValues.FloatEnumPasses | src/llm/schema_guard.py:80-87 | An enum of floats passes, and its members are numbers |
| SchemaValues.BareListPasses | src/llm/schema_guard.py:66-73 | A bare `typing.List` passes, and holds anything |
| SchemaGuard.Guard.WalkModel | src/llm/schema_guard.py:108-118 | Refuses only models from which a breach of the rule is reachable; accepting, everything newly seen keeps it and has all its references seen |
| SchemaGuard.Guard.CheckAnnotation | src/llm/schema_guard.py:43-105 | The same for one annotation under the conviction mark |
| SchemaGuard.Guard.CheckArguments | src/llm/schema_guard.py:67-73 | The same for the arguments of a union or container, skipping `...` |
| SchemaGuard.ExploredIsNumberFree | src/llm/schema_guard.py:108-118 | A set closed under references in which every member keeps the rule shows that everything reachable from its root does: the shared `seen` set is enough |
| NullProvider.GuardAndGeneratorAgree | src/llm/null.py:37-105 | For every schema the guard accepts the generator never meets an unexpected number, and whatever it returns inhabits the schema with every enum NEUTRAL, every integer the conviction 1, every bool false, every text the recorded rationale and every list and dictionary empty |
| NullProvider.AnswersExactly | src/llm/null.py:37-105 | Whether it can answer at all: some stack is deep enough if and only if every model the root demands, through required fields, has neutral answers of its own and none of them comes to require itself; and then as many levels as there are models are enough |
| NullProvider.AnswersAtDepth | src/llm/null.py:37-105 | With a given stack: if and only if they all have neutral answers and required references are nested no deeper |
| NullProvider.WellFoundedSchemasAnswer | src/llm/null.py:94-100 | Where no demanded model comes to require itself it never runs out of stack on an accepted model: it answers, or names an enum or annotation with no neutral value |
| NullProvider.WellFoundedIsAnswerable | src/llm/null.py:94-100 | Where none of the models a root leads to comes to require itself, each of them has some value, the neutral one or another |
| NullProvider.SelfRequiringModelNeverAnswers | src/llm/null.py:69-70 | An accepted model that defeats every stack depth: one that requires itself |
| NullProvider.NeutralFits | src/llm/null.py:37-91 | Any value it returns for an annotation, accepted or not, inhabits the annotation |
| NullProvider.PayloadNames | src/llm/null.py:94-100 | A payload gives the required fields, in their order, and no others |
| NullProvider.NeverNumeric | src/llm/null.py:83-86 | Where no number can be written the numeric branch is not reached |
| NullProvider.BuildPayload | src/llm/null.py:94-100 | The loop over required fields fills the payload the function describes, or stops at the first failure |
| TokenBuckets.WindowIsBounded | src/llm/base.py:83-99 | Under a clock that does not go back, whatever is requested, the tokens granted in any window of any run are at most those at its start plus the refill over its length, hence the capacity plus that refill from a bucket that is not overfull |
| TokenBuckets.RunBound | src/llm/base.py:83-99 | From any touched state, tokens granted plus tokens left are at most those at the start plus the refill, and never negative |
| TokenBuckets.RunKeepsBounds | src/llm/base.py:83-99 | Requests that are not negative keep the bucket between 0 and its capacity throughout |
| TokenBuckets.LevelExactly | src/llm/base.py:83-91 | As long as nothing is granted the level is what it was plus the refill over the time passed, up to the capacity, however often it is asked |
| TokenBuckets.GrantedExactly | src/llm/base.py:93-99 | A request is granted if and only if the level reaches it, and then leaves the rest |
| TokenBuckets.TakeKeepsBoundsExactly | src/llm/base.py:93-99 | A take keeps the bounds if and only if the request is not so negative as to overfill the bucket |
| TokenBuckets.NegativeRequestOverfills | src/llm/base.py:93-99 | A request for -1 is granted by a full bucket of one token, and leaves two in it |
| TokenBuckets.BackwardClockOvergrants | src/llm/base.py:83-91 | A clock stepped back lets a window grant more than that |
| TokenBuckets.TokenBucket.Open | src/llm/base.py:76-81 | Construction succeeds if and only if both parameters are positive, and starts full |
| TokenBuckets.TokenBucket.Refill | src/llm/base.py:83-91 | The refill of the object is that of the run |
| TokenBuckets.TokenBucket.TryTake | src/llm/base.py:93-99 | So is the take |
| Frontier.GreedyIsOptimal | src/cfa/portfolio.py:160-179 | For 0 < cap < 1 with cap * n >= 1, no weights in [0, cap] summing to 1 earn more than the greedy fill, and some earn exactly that, in the order the assets came in |
| Frontier.UncappedIsOptimal | src/cfa/portfolio.py:169-170 | A cap of 1 or more, or none, leaves the best single asset as the attained maximum |
| Frontier.CapFeasibleExactly | src/cfa/portfolio.py:229-234 | cap * n >= 1 if and only if a fully invested book under the cap exists |
| Frontier.GreedyFill | src/cfa/portfolio.py:160-179 | The loop with its early break computes the maximum |
| HedgeFundFees.NoDoublePayment | src/cfa/alternatives.py:138-157 | Over any run of periods with the incentive net of the management fee, or a rate of 1 or more: the mark never falls, and (1 - r) times the incentive fees is at most r times its total rise |
| HedgeFundFees.NoDoublePaymentExactly | src/cfa/alternatives.py:143-156 | Exactly which of the terms the code accepts keep that promise on every run: net incentives, and gross ones only if the management rate is 0, or the incentive rate is 0 or at least 1 |
| HedgeFundFees.FeesExactly | src/cfa/alternatives.py:105-158 | One period: the management fee on the value of its basis; the incentive rate on what exceeds both the mark and the hurdle, nothing if either is not exceeded; the rest is the investor's, and the mark rises to it or stays |
| HedgeFundFees.FirstMark | src/cfa/alternatives.py:138 | Without a mark given, the period's own beginning is the mark |
| HedgeFundFees.OnePeriod | src/cfa/alternatives.py:105-158 | The same for one period, and no incentive on a net value at or below the mark unless the manager takes the whole gain |
| HedgeFundFees.GrossIncentivePaysTwice | src/cfa/alternatives.py:143 | A gross incentive paid in two periods with no rise of the mark at all |
| PointInTime.FutureDoesNotLeak | src/data/pit.py:63-118 | Histories that agree on what was published by t answer every question at t alike, whatever else they hold and wherever it stands in the input |
| PointInTime.VisibleAtExact | src/data/pit.py:80-93 | `visible_at` holds exactly the latest visible revision of each period with one, in period order, each agreeing with `latest_for_period` |
| PointInTime.AsOfIsNewestPeriod | src/data/pit.py:95-105 | `as_of` answers for the newest period with anything published, with its latest revision, and is None if and only if nothing was |
| PointInTime.AsOfNeverGoesBack | src/data/pit.py:95-105 | As t grows an answer is never lost and its period never goes back |
| PointInTime.LatestForPeriodIs | src/data/pit.py:107-118 | The latest revision of one period, or none published |
| FundamentalsTheorems.TiesGoToTheLast | src/data/pit.py:63-118 | Of revisions of one period published together the last one given counts |
| PointInTime.CollectVisible | src/data/pit.py:86-93 | The loop over the sorted vintages computes it |
| Edgar.FundamentalsIgnoreTheFuture | src/data/edgar.py:237-257 | Take facts whose own answer reads nothing malformed: any others that differ only in what is filed, lag included, after t answer the same if and only if they are well formed in every tag that answer reads, and raise otherwise; tags not read may hold anything |
| FundamentalsTheorems.FundamentalsExactly | src/data/edgar.py:227-257 | The answer for a company: each field has the value of the fact that counts in its first tag with any fact known; the period is the newest of those facts', and one of them; None if and only if no tag of any field has a fact known |
| FundamentalsTheorems.FundamentalsRaiseExactly | src/data/edgar.py:158-163 | It raises if and only if a tag it reads holds a malformed fact |
| FundamentalsTheorems.TagExactly | src/data/edgar.py:130-163 | The fact that counts for a tag: of the newest period known, of its facts the latest filed, of those the last in the document |
| Edgar.WellFormedExactly | src/data/edgar.py:151-163 | A tag's series can be built if and only if each of its complete facts was filed, lag included, no earlier than its period ended |
| Edgar.MalformedFutureLeaks | src/data/edgar.py:158-162 | A malformed fact from the future makes an answer about the past raise |
| Edgar.VisibleVintages | src/data/edgar.py:151-163 | Dropping the facts not yet known drops exactly the vintages not yet visible |
| Edgar.ConceptSeries | src/data/edgar.py:130-163 | The loop over the entries builds the series or raises at the first malformed fact |
| Edgar.ResolveField | src/data/edgar.py:241-252 | The first tag with anything visible answers, later tags are not read |
| Edgar.CollectFundamentals | src/data/edgar.py:237-257 | The nested loops compute the snapshot, its newest period, and None when nothing was visible |

## Left out

- Rounding: `Decimal` arithmetic to 28 digits, and the float arithmetic of `src/cfa/portfolio.py`, are exact here.
- SHA-256 itself.
- Wire forms, ISO timestamps and the text of details and error messages.
- Fields of fills and mandates no statement is about: venue and timestamp of a fill, participation rate, urgency, deadline, `allow_partial`; per-update streaming by the executors' generators.
- SameKeyExactly: a Decimal zero given with a sign is read as zero.
- `advance_by` of the simulation clock, which a run does not use.
- `QueuePositionFillModel`, which only raises.
- The audit log, and credentials, paging and HTTP of the paper broker.
- Spreads of a market snapshot, which no fill model reads, and the result digest of a backtest.
- Views, estimation, Ledoit-Wolf shrinkage and the optimizer: opaque; nothing is claimed of the efficient frontier's own points or of any solver's convergence.
- Bars' highs, lows and volumes, parsing of vendor payloads, and merging of live feeds.
- Ticker resolution, fetching, parse errors and the companyfacts document's nesting by taxonomy and unit: a document here is its entries by tag.
- pydantic's own validation of a payload, validators and serializers included; a value is checked against the schema by `SchemaValues.Inhabits` instead, a bool is not a number there, and neither is text. Stack depth is a number of nested models.
- Routes, storage, streaming, configuration loading, prompts, narration checks, synthetic data, the closed-form finance library and the front end: presentation, I/O, or members that would only be easy.
- MaxDrawdownIsPairwise: stated for positive curves; on others the source skips non-positive peaks, as `MeasureDrawdown` does.
