# ComplyLayer, modelled and proved in Dafny

ComplyLayer decides whether a payment may go ahead. A compliance team writes rules in a
small expression language, the service evaluates them against each transaction, and an
audit trail has to explain afterwards which controls were in force and why. This project
models the parts of it where a mistake would be silent and proves what they promise, for
every input, every run and every interleaving.

Check everything with `dafny verify dfyconfig.toml`.

## How the files fit together

| component | files |
|---|---|
| values, rule trees, arithmetic | `Values`, `Syntax`, `Arithmetic`, `Decimal`, `Sorting` |
| the interpreter and what it may call, and what each construct and function computes | `Interpreter`, `Functions`, `Semantics`, `FunctionResults` |
| the validator, node by node, and validator with interpreter | `Validator`, `Allowlist`, `Soundness`, `Magnitude` |
| structured rules, their text, and reading it back | `Structured`, `Renderable`, `RuleText`, `Printing`, `ParsingBack`, `Precedence`, `RoundTrip`, `GuardedText` |
| the textual guard before the parser | `Scanner`, `ScannerSteps` |
| velocity windows | `Velocity`, `VelocityRefinement`, `VelocityRuns`, `VelocityThresholds` |
| deciding, outages, and thresholds end to end | `Evaluation`, `Answers`, `Outage`, `Handler`, `Admission` |
| the facts a decision is made on | `FactSources`, `CustomerFacts` |
| the audit chain and its concurrent writers | `Audit`, `Appenders` |
| roles and the rule lifecycle | `Roles`, `Lifecycle`, `Transitions`, `Publications`, `FourEyes`, `Explanation` |
| the rule cache | `Cache`, `CompiledEntries`, `CacheRuns` |
| API keys | `Auth`, `KeyVerdicts` |
| backtest and replay | `Replay`, `Backtest` |

Three results of an evaluation are told apart throughout (`Values.Outcome`): a value, a
rule evaluation error, which the engine turns into the tenant's fallback, and a host
exception, which nothing on the decision path expects.

Hashing, signing, password verification, the digest of an API key, `validate_source`
where only its verdict matters, the calendar, white space and Unicode classes are
function parameters; what a theorem needs of one (an injective hash, a verifier that
accepts only authentic checkpoints, an injective digest) stands in its `requires`.

## What turned out not to hold

Each of these has a lemma that shows it, beside the exact condition under which the code
does what it says.

- A builder fact named like a Python keyword renders, and reads back as something else:
  `RoundTrip.ReservedFactMisread`; exactly those names, `RoundTrip.RenderedTextReadsBackIff`.
- A rule can render and be refused all the same: the builder's limit of 20 levels does not
  see a call's own brackets, so a call under 20 negations renders to text that the guard
  finds too deep, `GuardedText.RendersTooDeep`; exactly when text gets through `parse`,
  `GuardedText.RenderedTextParsesIff`.
- A validated rule can raise a host exception: a number looked for in text
  (`Soundness.NumberInText`), a velocity call without its window
  (`Soundness.CountWithoutWindow`), an amount bound that is not a number
  (`Soundness.CountWithTextBound`). These are the only ways: `Soundness.ValidatedRuleSound`.
- `percent_of` is not guarded: two operands of 261 bits give more than 512 bits,
  `Functions.PercentOfOverflows`; exactly when, `Functions.PercentOfFitsIff`. Everything else
  a rule computes keeps the bound, `Magnitude.EngineArithmeticBounded`.
- Trimming drops a member that is exactly 30 days old, which the 30-day window still
  counts: `VelocityRuns.ThirtyDayBoundaryIsLost`; exactly which clock readings make a window
  inexact, `VelocityRuns.ExactIffUntrimmed`.
- A retry leaves every window as it was but raises the lifetime count:
  `VelocityThresholds.RetryChangesNothing`.
- `prior_flag_count` is 0 for every customer: only `note_flagged` raises it, and nothing
  on the decision path calls that, `CustomerFacts.LifetimeIs`.
- A shadow rule that passes the validator and raises a host exception takes the whole
  decision down: `Evaluation.FaultingShadowRule`; exactly then,
  `Evaluation.ShadowRulesInvisibleIff`.
- Losing the velocity store lets through what would have been blocked if the tenant fails
  open on blocks: `Admission.FailingOpenLosesBlocks`; exactly then, `Admission.BlocksSurviveIff`.
- "Author" means `created_by`: the last editor of somebody else's draft may approve that
  edit and put it in force, `FourEyes.LastEditorMayApprove`; who may,
  `FourEyes.OwnEditApprovableIff`.
- An activation recorded as an emergency does not prove the override was held, because
  with an approval any reason earns the label: `FourEyes.EmergencyWithoutOverride`,
  `FourEyes.EmergencyLabel`.
- A published entry without an id or with an unknown severity (nothing in the rule model
  restricts severities) raises an exception that `poll_once` does not handle, which ends
  the poll loop, the cache staying as it was: `Cache.UnknownSeverityRaises`; exactly which
  snapshots do, `Cache.RaisesIff`.
- A fact that arrives as a JSON list is a list when the decision is made and a tuple when
  it is replayed, so a rule looking in it is an error once and an answer later:
  `Backtest.ListFactsDiverge`; exactly then, `Backtest.ReplayReproducesIff`.
- `required_facts` counts the names of called functions as facts, so a backtest never
  considers a rule with a call anywhere in it, although it may be given functions:
  `Backtest.CallingRulesNeverConsidered`; exactly when a rule is asked, `Backtest.AskedIff`.
- Two audit records with the same `recorded_at` are read back by id, and if that is not the
  order they were written in the chain no longer verifies: `Audit.TieBreaksChain`; exactly
  when a new record leaves it verifying, `Audit.AppendReadsBackIff`.

## Model

| member | source | states |
|---|---|---|
| `Interpretation.RunFaithful` | complylayer/dsl/interpreter.py:74-171 | for every tree, context, budget and starting count, the walk takes at most as many steps as the tree has nodes, and unless the budget is smaller than that it ends as the unbudgeted meaning does |
| `Interpretation.BudgetUnreachable` | complylayer/dsl/parser.py:201-205 | a tree under the 200-node ceiling never meets the 1,000-step error: its budgeted run is its meaning, in under 200 steps |
| `Interpretation.Interpreter.Start` | complylayer/dsl/interpreter.py:70-72 | the truth of the root's value or its error, with the steps taken |
| `Interpretation.Interpreter.Tick` | complylayer/dsl/interpreter.py:74-77 | one more step, and whether that exceeds the budget |
| `Interpretation.Interpreter.Eval` | complylayer/dsl/interpreter.py:79-116 | the walk over the mutable step counter gives the value, error and count of the specification, node by node |
| `Interpretation.Interpreter.EvalBoolOp` | complylayer/dsl/interpreter.py:118-135 | the short-circuit loop: the first value that decides, decides |
| `Interpretation.Interpreter.EvalCompare` | complylayer/dsl/interpreter.py:146-171 | the chained-comparison loop, each operand evaluated once and the first false link ending it; what a link answers is `Semantics.NumbersCompare`, `TextsCompare`, `UnlikeCompare` and `MembershipIs` |
| `Interpretation.Interpreter.EvalEach` | complylayer/dsl/interpreter.py:237-251 | positional arguments and list elements in order, stopping at the first failure |
| `Interpretation.Interpreter.EvalKeywords` | complylayer/dsl/interpreter.py:237-251 | keyword arguments in order, unnamed ones skipped unevaluated |
| `Semantics.NumbersCompare` | complylayer/dsl/interpreter.py:173-191 | in any context a one-link comparison of two operands that evaluate to whole numbers is that of the numbers, for each of the six operators |
| `Semantics.TextsCompare` | complylayer/dsl/interpreter.py:173-191 | of two texts it goes by the first place where they differ, or where one of them ends |
| `Semantics.UnlikeCompare` | complylayer/dsl/interpreter.py:173-191 | any two values can be compared for equality; ordering anything but two whole numbers or two texts is an error |
| `Semantics.EqualIff` | complylayer/dsl/interpreter.py:173-191 | which values are equal: numbers and truth values by number, texts by text, sequences of one kind element by element, nothing else |
| `Semantics.TruthyIff` | complylayer/dsl/interpreter.py:253-255 | which values count as true: numbers that are not 0, texts and sequences that are not empty |
| `Semantics.MembershipIs` | complylayer/dsl/interpreter.py:156-162 | membership is an equal element of a tuple or an occurrence at some position of a text, `not in` its denial, and anything else to look in is an error |
| `Semantics.SumsAre` | complylayer/dsl/interpreter.py:193-221 | sums and differences are exact, or an error past 512 bits, and unary minus is negation |
| `Semantics.ProductsAre` | complylayer/dsl/interpreter.py:223-235 | products are exact, or an error when the operands' bits add up to more than 512 |
| `Semantics.QuotientsAre` | complylayer/dsl/interpreter.py:193-221 | division gives the only quotient and remainder with a remainder of the divisor's sign and smaller than it; by zero it is an error |
| `Semantics.OnlyNumbers` | complylayer/dsl/interpreter.py:193-275 | arithmetic on anything but whole numbers, truth values included, is an error; `not` answers for every value |
| `Semantics.BoolIs` | complylayer/dsl/interpreter.py:118-135 | `and` and `or` answer by the first operand that settles them or fails; with none, true and false |
| `Semantics.ChainIs` | complylayer/dsl/interpreter.py:146-171 | a chain compares neighbours and ends at the first link that is false or fails |
| `Semantics.LeavesAre` | complylayer/dsl/interpreter.py:79-116 | a literal is its value, a name the fact of that name or an error that names it, any other kind of node an error |
| `Semantics.LiteralsAndCalls` | complylayer/dsl/interpreter.py:237-251 | lists are tuples of their values, and a call is its function's answer to its arguments' values, or an error if there is no such function |
| `Arithmetic.FloorDivModLaws` | complylayer/dsl/interpreter.py:193-221 | Python's floor division and modulo: quotient times divisor plus remainder is the dividend, and the remainder has the divisor's sign and a smaller size |
| `Arithmetic.ProductBits` | complylayer/dsl/interpreter.py:223-235 | a product has at most the sum of its operands' bit lengths, so the guard before multiplying bounds it |
| `Arithmetic.SumBits` | complylayer/dsl/interpreter.py:273-275 | sums and differences grow by at most one bit |
| `Arithmetic.DivModBits` | complylayer/dsl/interpreter.py:193-221 | floor division and modulo never need more bits than their operands |
| `Functions.CallFaultsIff` | complylayer/dsl/functions.py:139-221 | a call of an accepted shape raises a host exception exactly when it looks for non-text in text, omits the window, or bounds an in-window amount by a non-number |
| `Functions.PercentOfFitsIff` | complylayer/dsl/functions.py:202-209 | the exact range of products whose percentage stays within 512 bits |
| `Functions.PercentOfOverflows` | complylayer/dsl/functions.py:202-209 | two equal powers of two that fit 512 bits and whose percentage does not |
| `FunctionResults.VelocityAnswers` | complylayer/velocity/redis_store.py:108-131 | `velocity_count` and `velocity_sum` are the number and the total of the fetched entries inside the named window that meet every filter given |
| `FunctionResults.VelocityErrors` | complylayer/dsl/functions.py:126-130 | a window by any other name is an error, and without a store so is every window |
| `FunctionResults.MinMaxAre` | complylayer/dsl/functions.py:211-221 | `min` and `max` are one of their arguments and not above, or not below, either; anything but whole numbers is an error |
| `FunctionResults.AbsIs` | complylayer/dsl/functions.py:211-221 | `abs` is the number or its negation, whichever is not negative |
| `FunctionResults.PercentIs` | complylayer/dsl/functions.py:202-209 | `percent_of` is the product's hundredth, rounded down, for both signs |
| `FunctionResults.InListIs` | complylayer/dsl/functions.py:194-197 | `in_list` finds an equal element or an occurrence in text; something else to look in is an error |
| `FunctionResults.DatesAre` | complylayer/dsl/functions.py:174-200 | `hour_of_day` and `days_since` read the one clock, and what is not a date is an error |
| `Validator.CheckKeywords` | complylayer/dsl/validator.py:184-201 | the loop over a call's keywords with its set of names seen: starred, unknown and repeated names are refused, in order |
| `Allowlist.PublishableIff` | complylayer/dsl/validator.py:27-227 | the validator accepts a tree if and only if it is not a bare constant and every node in it, at any depth, is on the list: plain ASCII names, literals of at most forty digits, the listed operators, arithmetic on neither text, truth values nor lists and never by a literal zero, calls of the nine functions with their arity and their keywords once each |
| `Allowlist.CallIff` | complylayer/dsl/validator.py:163-201 | which calls pass: callee, arity and keywords |
| `Allowlist.LiteralIff` | complylayer/dsl/validator.py:129-136 | which literals do |
| `Allowlist.LeafRefusalsAre` | complylayer/dsl/validator.py:97-136 | what refused names, literals and kinds of node are told, and a bare constant as a rule |
| `Allowlist.ArithmeticRefusalsAre` | complylayer/dsl/validator.py:138-161 | what refused arithmetic is told |
| `Allowlist.CallRefusalsAre` | complylayer/dsl/validator.py:163-182 | what refused calls are told, attributes first |
| `Soundness.HostErrorIff` | complylayer/dsl/interpreter.py:79-171 | any evaluation, validated or not, ends in a host exception exactly when it reaches a node that raises one there |
| `Soundness.FallThroughsReached` | complylayer/dsl/interpreter.py:137-221 | below a validated root the interpreter's last branches are reached by `>=`, `%` and unary minus only, and no unexamined node is reached |
| `Soundness.ReachedPasses` | complylayer/dsl/validator.py:97-201 | every subtree an evaluation reaches has itself passed the visitor |
| `Soundness.ValidatedRuleSound` | complylayer/dsl/validator.py:27-69 | a validated rule gives a value or a rule evaluation error and nothing else, except exactly when it reaches membership in text with a non-text left side or an ill-typed or windowless velocity call |
| `Magnitude.LiteralFits` | complylayer/dsl/validator.py:129-136 | a literal of at most 40 digits fits 512 bits |
| `Magnitude.ArithmeticBits` | complylayer/dsl/interpreter.py:193-235 | from 512-bit operands no arithmetic result exceeds 513 bits before its check, and only + and - can pass 512 |
| `Magnitude.ResultsFit` | complylayer/dsl/interpreter.py:193-235 | with 512-bit facts, and 512-bit results of the calls it reaches, every value of a validated rule fits 512 bits, whatever the function table |
| `Magnitude.ReachedArithmeticBounded` | complylayer/dsl/interpreter.py:193-275 | the same at every arithmetic node the rule reaches: operands fit, nothing computed exceeds 513 bits, and the check after computing can fire for + and - only |
| `Magnitude.BuiltCallFits` | complylayer/dsl/functions.py:139-221 | on 512-bit arguments every function gives 512-bit results, `percent_of` if its product is in range, `velocity_sum` because at most 5,000 amounts of at most 499 bits add up to no more, dates if the calendar's do |
| `Magnitude.ViewsAreCapped` | complylayer/velocity/redis_store.py:226-231 | every fetched window has at most 5,000 entries |
| `Magnitude.PercentFitsIff` | complylayer/dsl/functions.py:202-209 | a `percent_of` call keeps the bound exactly when the product of its arguments is in range |
| `Magnitude.EngineArithmeticBounded` | complylayer/dsl/interpreter.py:193-275 | the bounds for the engine's own function table, with amounts of at most 499 bits in the window and the percentages reached in range |
| `Soundness.NumberInText` | complylayer/dsl/interpreter.py:160-162 | `5 in country` validates and raises a host exception |
| `Soundness.CountWithoutWindow` | complylayer/dsl/functions.py:148-149 | `velocity_count() > 3` validates and raises a host exception |
| `Soundness.CountWithTextBound` | complylayer/velocity/redis_store.py:116-125 | a count bounded by text validates and raises a host exception once the window holds anything |
| `Structured.CollectArgs` | complylayer/dsl/structured.py:106-129 | the loop that appends a call's rendered settings gives them in order, or the first error |
| `Renderable.RendersIff` | complylayer/dsl/structured.py:56-221 | a structure renders if and only if it has the shape of a rule, nests at most twenty deep (settings that are literals counted on their own) and comes to at most 2,000 characters |
| `Renderable.CallRenders` | complylayer/dsl/structured.py:106-129 | which calls render, at any depth |
| `Printing.LexPrinted` | complylayer/dsl/structured.py:71-187 | the tokens of the text a rule tree prints to are that tree's tokens |
| `ParsingBack.PrintParses` | complylayer/dsl/parser.py:168-205 | parsing that text with or < and < not < comparison gives back the tree, if no name is reserved |
| `ParsingBack.ParsedIsUnreserved` | complylayer/dsl/parser.py:168-205 | no text whatever parses to a tree with a reserved name |
| `Precedence.FlatReads` | complylayer/dsl/parser.py:168-205 | text without a parenthesis reads as alternatives of conjunctions of denials of chained comparisons, for operands of every form: `or` binds loosest, then `and`, `not`, comparisons |
| `RoundTrip.RulePrints` | complylayer/dsl/structured.py:71-187 | rendering a structure prints the tree it draws, parentheses included |
| `RoundTrip.RuleMeans` | complylayer/dsl/interpreter.py:79-171 | evaluating that tree gives the structure's own all/any/not/fact/call meaning, errors included |
| `RoundTrip.RenderedTextReadsBackIff` | complylayer/dsl/structured.py:205-221 | the rendered text parses to the rule as drawn if and only if no name in it is a Python keyword |
| `RoundTrip.RenderedTextMeans` | complylayer/dsl/structured.py:56-187 | every structured rule that renders, no name reserved, means after reading by the grammar what its structure means: the same truth value or the same error in every context (with the guards of `parse`: `GuardedText.RenderedRuleRuns`) |
| `RoundTrip.ReservedFactMisread` | complylayer/dsl/structured.py:205-221 | a fact named `True` renders and is read as the constant |
| `GuardedText.PrintedScans` | complylayer/dsl/parser.py:57-134 | the guard accepts the print of a rule exactly when its brackets nest at most 20 deep, and has no other objection |
| `GuardedText.RenderedTextParsesIff` | complylayer/dsl/parser.py:168-205 | rendered text comes through length, guard, grammar and node ceiling as the rule drawn if and only if no name is reserved, it nests at most 20 deep and has at most 200 nodes |
| `GuardedText.RenderedRuleRuns` | complylayer/dsl/structured.py:56-187 | and is then interpreted, under the step budget, to the truth value or error its structure means |
| `GuardedText.RendersTooDeep` | complylayer/dsl/structured.py:106-129 | a call under 20 negations renders, and `parse` refuses its text |
| `Scanner.SkipString` | complylayer/dsl/parser.py:137-156 | always advances, never passes the end, and stops where the literal closes |
| `Scanner.FindClose` | complylayer/dsl/parser.py:144-156 | the escape-aware search loop for the closing delimiter |
| `Scanner.SkipComment` | complylayer/dsl/parser.py:57-134 | a comment ends with its line |
| `Scanner.ScanSource` | complylayer/dsl/parser.py:57-134 | the index, depth and run loop terminates and gives the specified verdict |
| `Scanner.DepthIsGreatestNet` | complylayer/dsl/parser.py:57-134 | the floored depth is the greatest surplus of openers over closers of any stretch ending here |
| `Scanner.RunIsLongestBare` | complylayer/dsl/parser.py:57-134 | the unary run is the most operators in a bare stretch ending here |
| `Scanner.AcceptedIff` | complylayer/dsl/parser.py:57-134 | a text is accepted exactly when nothing outside literals and comments is foreign, no stretch nets more than 20 openers and no unary run exceeds five |
| `Scanner.LiteralContentsIrrelevant` | complylayer/dsl/parser.py:57-156 | swapping a literal's non-empty contents for others free of quote and backslash never changes the verdict |
| `ScannerSteps.KindsAre` | complylayer/dsl/parser.py:36-134 | which character or word the scan takes for what |
| `ScannerSteps.LiteralEnds` | complylayer/dsl/parser.py:137-156 | a literal in one quote or three ends at its closing delimiter, whatever escapes and other quotes it holds |
| `ScannerSteps.UnclosedLiteral` | complylayer/dsl/parser.py:137-156 | one that never closes takes in the rest of the text |
| `ScannerSteps.CommentEnds` | complylayer/dsl/parser.py:77-83 | a comment takes in its line, line end included |
| `ScannerSteps.OthersStepByOne` | complylayer/dsl/parser.py:57-134 | everything but literals, comments and the word `not` goes by one character |
| `ScannerSteps.CountersMove` | complylayer/dsl/parser.py:85-134 | what moves the depth and the run of operators, and what ends a run |
| `Velocity.EncodingRoundTrips` | complylayer/velocity/redis_store.py:293-301 | every integer amount and every type text survive the `amount:type` encoding |
| `Velocity.RedisVelocity.FetchWindow` | complylayer/velocity/redis_store.py:192-245 | one atomic fetch leaves the trimmed and written keys and returns their window; what the keys then hold is `AfterRepresents` for the window and `CustomerFacts.LifetimeIs` for the lifetime numbers |
| `VelocityRefinement.AfterRepresents` | complylayer/velocity/redis_store.py:192-245 | every fetch keeps the keys a faithful part of the never-trimmed last-write-per-reference log |
| `VelocityRefinement.ViewSees` | complylayer/velocity/redis_store.py:108-131 | every count and sum of a fetched window is that of the logged references it holds |
| `VelocityRuns.WindowExactIff` | complylayer/velocity/redis_store.py:108-131 | with at most 5,000 members in it, a window answers every well-typed filter as the complete log would if and only if nothing inside it has been lost |
| `VelocityRuns.NeverExpiresIff` | complylayer/velocity/redis_store.py:209-210 | keys never expire in a run exactly when each fetch comes, by the server's clock, within their lifetime after the write before it |
| `VelocityRuns.HeldIff` | complylayer/velocity/redis_store.py:199-201 | a last write is still held exactly when no later fetch's clock trims it |
| `VelocityRuns.ExactIffUntrimmed` | complylayer/velocity/redis_store.py:192-245 | in every run within the keys' lifetime and with at most 5,000 references in the window, counts and sums are the log's if and only if no later clock reading trims a last write inside the window |
| `VelocityRuns.UnfilteredCount` | complylayer/velocity/redis_store.py:127-131 | an unfiltered count is the true number, or 5,000 if that is fewer |
| `VelocityRuns.ClocksExact` | complylayer/velocity/redis_store.py:192-245 | so they are whenever no clock ran ahead by 30 days less the window or more |
| `VelocityRuns.SynchronisedExact` | complylayer/velocity/redis_store.py:192-245 | with clocks that close to the server's, expiry costs nothing either |
| `VelocityRuns.ThirtyDayBoundaryIsLost` | complylayer/velocity/redis_store.py:199-201 | a run in which the inclusive trim drops what the 30-day window should count |
| `VelocityThresholds.RetryNeverRaises` | complylayer/velocity/redis_store.py:196-231 | recording a reference already in the window, whatever its amount and however full the window, leaves the count at what reading alone would give |
| `VelocityThresholds.RetryChangesNothing` | complylayer/velocity/redis_store.py:196-231 | repeating a write, amount and type included, changes no count and no sum under any filter; the lifetime count goes up by one |
| `VelocityThresholds.WindowsWithinLifetime` | complylayer/velocity/redis_store.py:196-231 | in every run no window count or sum exceeds the lifetime count or volume |
| `VelocityThresholds.BurstCounts` | complylayer/velocity/redis_store.py:196-231 | after any earlier run, if the window is empty at each of their clocks, the n-th of distinct references within one window sees a count of n, or 5,000 |
| `VelocityThresholds.BurstHeld` | complylayer/velocity/redis_store.py:196-231 | a burst's own writes are exactly what it adds to the keys, however they stood before, expired or not |
| `CustomerFacts.LifetimeIs` | complylayer/velocity/redis_store.py:203-219 | over every run, expiries included, the lifetime count is the number of writes, the volume the sum of their amounts, first and last seen the clocks of the first and the last write, none without one, and the flag count 0 |
| `CustomerFacts.HistoryIsTold` | complylayer/velocity/redis_store.py:78-97 | and so are the six facts of a decision on that run: counts and volume, the average rounded down, whole days since the first and the last write |
| `CustomerFacts.ViewKeepsNewest` | complylayer/velocity/redis_store.py:221-245 | after every run a window shows the members of the last thirty days, at most 5,000, none left out being newer than one shown, and is marked truncated exactly when some were left out |
| `CustomerFacts.OwnWriteShown` | complylayer/api/handler.py:112-131 | after any run, the window a decision gets already holds its own transaction, with its amount and type, unless something had to be left out |
| `CustomerFacts.ExpiryForgets` | complylayer/velocity/redis_store.py:203-210 | once every earlier write is thirty-one days past by the server's clock, a window knows nothing but its own write |
| `Evaluation.DecisionIgnoresOrder` | complylayer/engine/evaluation.py:92-101 | with unique ids the whole decision is the same for every permutation of the rules |
| `Evaluation.DecidingExactly` | complylayer/engine/evaluation.py:163-186 | the rules a decision lists are exactly the live ones that matched or failed closed, in priority and id order |
| `Evaluation.AnswerIff` | complylayer/engine/evaluation.py:157-218 | membership in the matched rules and their order, for any rule set as given; the outcome in terms of the rules that fire is `Answers.OutcomeIff` |
| `Evaluation.BlockedIff` | complylayer/engine/evaluation.py:212-218 | a decision blocks exactly when some active block rule matched or failed closed |
| `Answers.OutcomeIff` | complylayer/engine/evaluation.py:212-218 | blocked exactly if an active block rule fires, flagged exactly if none does and an active flag rule does, allowed exactly if neither |
| `Answers.FiresIff` | complylayer/engine/evaluation.py:172-186 | a rule fires if it comes out true, or fails under a policy that fails closed on its severity |
| `Answers.FailsClosedIff` | complylayer/engine/evaluation.py:60-70 | which severities fail closed: those the policy says, and blocks if it says nothing |
| `Answers.ReasonIs` | complylayer/engine/evaluation.py:221-243 | the reason names the first firing active rule, by priority and id, of the outcome's severity, and is empty without one; the message is that rule's when blocked and empty otherwise |
| `Answers.ShadowMatchesAre` | complylayer/engine/evaluation.py:163-198 | the shadow matches are exactly the shadow rules that came out true |
| `Answers.ErrorsAre` | complylayer/engine/evaluation.py:163-198 | the errored rules are exactly the active and shadow rules that failed, each with its own error, and degraded says whether there are any |
| `Answers.EvaluatedIs` | complylayer/engine/evaluation.py:188-198 | every active and shadow rule is counted once, with its steps |
| `Evaluation.EscapesIff` | complylayer/engine/evaluation.py:201-209 | a decision raises exactly when some active or shadow rule raises a host exception |
| `Evaluation.ShadowRulesInvisibleIff` | complylayer/engine/evaluation.py:157-198 | dropping the shadow rules leaves outcome, matched rules, reason and message alone if and only if none of them raises a host exception |
| `Evaluation.ShadowRulesIrrelevant` | complylayer/engine/evaluation.py:157-243 | rule sets that differ only in shadow rules, erroring ones included, answer alike |
| `Evaluation.FaultingShadowRule` | complylayer/engine/evaluation.py:201-209 | one shadow rule that takes every decision down |
| `Outage.RunDegrades` | complylayer/dsl/interpreter.py:79-135 | in a context that only lost facts or answers, every tree gives the same result and steps or a rule evaluation error |
| `Outage.OutageIsReported` | complylayer/engine/evaluation.py:163-198 | such a loss never makes a decision raise, and never changes it without marking it degraded |
| `Outage.OutageKeepsBlocks` | complylayer/engine/evaluation.py:172-186 | nor does it lift a block when blocks fail closed |
| `Handler.PutAll` | complylayer/api/handler.py:189-194 | the loops that copy request fields under a prefix, later ones replacing earlier |
| `Handler.BuildFacts` | complylayer/api/handler.py:173-210 | the fact namespace, layer over layer: request, history, named lists |
| `Handler.DecisionHandler.Gather` | complylayer/api/handler.py:133-171 | the store's new keys and the provider, whether the round trip was answered, lost on the way or lost on the way back |
| `Handler.DecisionHandler.Evaluate` | complylayer/api/handler.py:112-131 | one fetch and one evaluation, on exactly those facts and functions |
| `Handler.RequestNames` | complylayer/api/validation.py:34-42 | no accepted request can supply a fact by the name of an aggregate |
| `FactSources.TransactionFacts` | complylayer/api/handler.py:181-187 | amount, currency, type and channel are under their own names, whatever else the request carries |
| `FactSources.CustomerFieldFacts` | complylayer/api/handler.py:189-190 | a customer field is under its own name, the last of that name |
| `FactSources.PrefixedFieldFacts` | complylayer/api/handler.py:191-194 | destination and device fields are under their prefixes |
| `FactSources.RequestFactHolds` | complylayer/api/handler.py:173-210 | what the request supplies is what rules see, unless a named list has the name |
| `FactSources.ListsComeFirst` | complylayer/api/handler.py:202-210 | a named list goes before every other fact of its name |
| `Handler.StoreOutage` | complylayer/api/handler.py:230-257 | for every rule set, transaction and window, losing the store turns each rule's result into itself or an error, is reported, and keeps every block under fail-closed |
| `Admission.BlocksSurviveIff` | complylayer/engine/evaluation.py:60-70 | over all rule sets and transactions an outage keeps every block exactly when the policy fails closed on blocks; the default one does |
| `Admission.FailingOpenLosesBlocks` | complylayer/engine/evaluation.py:172-180 | a block that a fail-open tenant loses in an outage |
| `Admission.ThresholdFires` | complylayer/dsl/functions.py:148-159 | the rule `velocity_count(window=w) > T` fires exactly when the fetched count exceeds T, or, with no store, when blocks fail closed |
| `Admission.ThresholdExact` | complylayer/api/handler.py:133-171 | from an empty window, whatever the customer did before, and in whatever order requests with distinct references within one window reach the store, such a block rule with T < 5,000 lets exactly min(n, T) through, never more beside other rules, and never more, under fail-closed, whichever trips to the store are lost |
| `Admission.NewCustomerIsEmpty` | complylayer/velocity/redis_store.py:196-231 | a customer never seen has an empty window at every clock |
| `Audit.VerifyChain` | complylayer/audit/chain.py:92-137 | on any sequence: the length of the longest valid prefix, the first bad record, and success exactly when all verify |
| `Audit.AppendVerifies` | complylayer/audit/writer.py:33-65 | appending after the head keeps a chain valid |
| `Audit.NoFork` | complylayer/audit/chain.py:100-137 | in a valid chain no two records share a predecessor |
| `Audit.AppendReadsBackIff` | complylayer/audit/writer.py:33-65 | read back by `recorded_at`, then id, a chain with one record more verifies exactly when everything already there is earlier in that order |
| `Audit.TieBreaksChain` | complylayer/audit/writer.py:33-65 | two records of one instant whose read-back no longer verifies |
| `Audit.SameHeadSameChain` | complylayer/audit/chain.py:88-137 | two valid chains of one length with one head agree in every hashed field |
| `Audit.SignedPrefixUnchanged` | complylayer/audit/writer.py:155-218 | if a chain verifies and anchoring says signed at length n, its first n records are those at signing time |
| `Audit.AnchoringCases` | complylayer/audit/writer.py:155-218 | on arbitrary rows: unanchored exactly without a key or a checkpoint; with both, signed exactly if the signature verifies and the row the checkpoint ends at has the signed hash, and broken otherwise |
| `Audit.SignedIffStillThere` | complylayer/audit/writer.py:155-218 | on any rows that verify as a chain, under an authentic checkpoint of an honest signing: signed if and only if the signed records are all still there in every hashed field, and broken otherwise |
| `Audit.AppendsKeepSigned` | complylayer/audit/writer.py:155-218 | later appends keep it signed |
| `Audit.AuditTrail.Append` | complylayer/audit/writer.py:19-65 | one more record chained to the head, the trail still valid |
| `Audit.AuditTrail.WriteCheckpoint` | complylayer/audit/writer.py:92-126 | a checkpoint of the head and length, or none for an empty trail |
| `Audit.AuditTrail.VerifyAnchoring` | complylayer/audit/writer.py:129-218 | the anchoring status of whatever rows are there, tampered with or not; what each status means is `Audit.AnchoringCases` and `Audit.SignedIffStillThere` |
| `Appenders.StepKeepsInv` | complylayer/audit/writer.py:33-65 | each lock, read, insert, commit and abort step keeps every tenant's chain valid and its writer's view current |
| `Appenders.RunKeepsInv` | complylayer/audit/writer.py:33-65 | so does every interleaving of any number of appenders |
| `Appenders.EveryTenantVerifies` | complylayer/audit/writer.py:84-89 | at every moment of it each tenant's committed records, read in order, are the chain as committed; it verifies, and no two of its records share a predecessor |
| `Roles.IssuingNeverEscalates` | complylayer/tenancy/roles.py:147-160 | no chain of issued keys ends with a permission its first issuer lacked |
| `Transitions.PermissionsByRole` | complylayer/tenancy/roles.py:58-94 | what each role may do, action by action |
| `Transitions.AcceptedIsPermitted` | complylayer/tenancy/roles.py:134-144 | over every tenant and call: an accepted command implies that the actor's role holds that command's permission |
| `Lifecycle.RuleBook.Create` | complylayer/rules/lifecycle.py:62-83 | a new draft and its record, or the first refusal, nothing changed |
| `Lifecycle.RuleBook.Edit` | complylayer/rules/lifecycle.py:86-135 | content, version, reset approval and record of the changes; nothing at all when nothing changes |
| `Lifecycle.RuleBook.Amend` | complylayer/rules/lifecycle.py:113-135 | the field-by-field update and its record |
| `Lifecycle.RuleBook.Compare` | complylayer/rules/lifecycle.py:105-109 | exactly the fields whose value differs, in order, with both values |
| `Lifecycle.RuleBook.Request` | complylayer/rules/lifecycle.py:138-150 | a record and nothing else |
| `Lifecycle.RuleBook.GiveApproval` | complylayer/rules/lifecycle.py:153-169 | the approver set, refused to the creator |
| `Lifecycle.RuleBook.PutInShadow` | complylayer/rules/lifecycle.py:172-185 | the state set, from any state |
| `Lifecycle.RuleBook.PutInForce` | complylayer/rules/lifecycle.py:188-225 | activation, its version and its record, or the refusal that applies |
| `Lifecycle.RuleBook.Retire` | complylayer/rules/lifecycle.py:228-243 | archival, its version and its record |
| `Lifecycle.RuleBook.PublishVersion` | complylayer/rules/lifecycle.py:246-289 | one more version: next number, sorted snapshot, lists |
| `Lifecycle.RuleBook.RevertTo` | complylayer/rules/lifecycle.py:292-322 | a new version with an older one's content, and its record |
| `Lifecycle.RuleBook.SaveNamedList` | complylayer/api/management/views.py:248-264 | a saved list publishes and records |
| `Transitions.ActivatingAccepted` | complylayer/rules/lifecycle.py:188-204 | activation is done exactly when the rule exists, the role may activate, and the rule is approved or a risk manager gives a reason |
| `Transitions.CreatingAccepted` | complylayer/rules/lifecycle.py:62-67 | a draft is created exactly by a drafting role, under a new id, with a valid expression |
| `Transitions.EditingAccepted` | complylayer/rules/lifecycle.py:86-103 | an edit is accepted exactly from a drafting role, on a draft or shadow rule, with any new expression valid |
| `Transitions.RequestingAccepted` | complylayer/rules/lifecycle.py:138-141 | approval is requested exactly for drafts and shadow rules, by drafting roles |
| `Transitions.ApprovingAccepted` | complylayer/rules/lifecycle.py:153-156 | approval is given exactly by a deciding role other than the creator |
| `Transitions.ShadowingAccepted` | complylayer/rules/lifecycle.py:172-175 | a rule goes to shadow exactly by a drafting role |
| `Transitions.ArchivingAccepted` | complylayer/rules/lifecycle.py:228-232 | and is archived exactly by a deciding one |
| `Transitions.RevertingAccepted` | complylayer/rules/lifecycle.py:292-305 | a revert is done exactly by a deciding role to a version that exists |
| `Transitions.RefusalsAre` | complylayer/rules/lifecycle.py:86-204 | which refusal is told, in the order they are looked for |
| `Transitions.CallLeavesRest` | complylayer/rules/lifecycle.py:62-322 | no call touches a rule it is not about, or a list it does not save |
| `Transitions.CreatingMakes` | complylayer/rules/lifecycle.py:69-75 | the new rule: a draft, unapproved, version 1, its creator's, with the fields given |
| `Transitions.EditingMakes` | complylayer/rules/lifecycle.py:105-122 | an edit gives the named fields their new values, keeps the rest, drops the approval and counts up; if no value differs nothing changes at all |
| `Transitions.ApprovingMakes` | complylayer/rules/lifecycle.py:158-160 | an approval sets the approver and nothing else |
| `Transitions.MovingMakes` | complylayer/rules/lifecycle.py:172-243 | shadowing, activating and archiving move one rule's state and nothing else of it; the last two add one version |
| `Publications.SnapshotOrdered` | complylayer/rules/lifecycle.py:262-264 | a snapshot goes by priority, lowest first, then by id |
| `Publications.EntryHolds` | complylayer/rules/lifecycle.py:266-278 | an entry holds the rule's name, expression, severity, priority, reference and message as they stand, and neither description nor category |
| `Publications.PublishingMakes` | complylayer/rules/lifecycle.py:246-289 | activating, archiving and saving a list add one version, numbered past all before it, by the actor, with the rules in force and the lists as the call leaves them |
| `Publications.RevertingMakes` | complylayer/rules/lifecycle.py:302-313 | a revert adds one with the rules and lists of the version named, and touches no rule |
| `Publications.ActivatingRecords` | complylayer/rules/lifecycle.py:211-224 | an activation's record: version, rule set version, approver and reason, by the actor |
| `Publications.ArchivingRecords` | complylayer/rules/lifecycle.py:235-242 | an archival's record |
| `Publications.RevertingRecords` | complylayer/rules/lifecycle.py:315-321 | a revert's record |
| `Publications.CreatingRecords` | complylayer/rules/lifecycle.py:76-82 | a creation's record |
| `Publications.EditingRecords` | complylayer/rules/lifecycle.py:124-134 | an edit's record: the new version, exactly the fields whose value it replaced by another, with both, and whether an approval went |
| `Publications.DecidingRecords` | complylayer/rules/lifecycle.py:138-185 | records of requests, approvals (with the creator and the reason) and moves to shadow |
| `Publications.RunsAccount` | complylayer/rules/lifecycle.py:62-322 | in every run each rule has one creating record, by its creator, and one editing record per version after the first, and the n-th publishing record names version n, there being as many as versions |
| `FourEyes.SnapshotExactly` | complylayer/rules/lifecycle.py:262-278 | a snapshot holds exactly the active and shadow rules, as they stand |
| `FourEyes.CallAccountable` | complylayer/rules/lifecycle.py:86-225 | after any call, a rule is approved or active only if it was before, or this call is its approval by another or its emergency activation, and then its content is untouched |
| `FourEyes.RulesSanctioned` | complylayer/rules/lifecycle.py:86-225 | after every run each active or approved rule has such a call behind it, its content unchanged since |
| `FourEyes.EveryVersionAnswerable` | complylayer/rules/lifecycle.py:246-322 | in every run the rules of each published version, reverts included, were at some moment published as the snapshot of the tables then, each active one approved by a permitted actor other than its creator or emergency-activated with a reason under the override, unchanged since |
| `FourEyes.OwnEditApprovableIff` | complylayer/tenancy/roles.py:174-186 | after one's own edit, approval is refused exactly to the creator and to roles without the permission |
| `FourEyes.LastEditorMayApprove` | complylayer/rules/lifecycle.py:153-169 | an officer edits, approves and activates a colleague's draft alone |
| `FourEyes.EmergencyLabel` | complylayer/rules/lifecycle.py:199-216 | with a reason, activation by a permitted role succeeds exactly if the rule is approved or the override held |
| `FourEyes.EmergencyWithoutOverride` | complylayer/rules/lifecycle.py:199-216 | an activation labelled emergency by a role without the override |
| `Explanation.RedoEdit` | complylayer/rules/lifecycle.py:105-134 | redoing the recorded changes of an edit gives the content after it |
| `Explanation.SnapshotCount` | complylayer/rules/lifecycle.py:262-278 | a snapshot lists each rule in force once |
| `Explanation.SnapshotShown` | complylayer/rules/lifecycle.py:246-289 | what the trail says is in force is what a snapshot freezes |
| `Explanation.CallAgrees` | complylayer/rules/lifecycle.py:62-322 | every accepted call keeps the trail telling the tables |
| `Explanation.TrailExplains` | complylayer/rules/lifecycle.py:76-322 | in every run, folding the trail from nothing gives each rule's name, expression, severity, state and approver, each named list, and each version's rules and lists, reverts resolved through `reverted_to`; versions are numbered 1, 2, 3, ... and list each rule once |
| `Explanation.HistoryIsKept` | complylayer/rules/lifecycle.py:246-322 | whatever is called later, earlier versions and records stay as they were |
| `Cache.CompileSnapshot` | complylayer/engine/cache.py:64-95 | the compile loop gives the sorted rule set, or how its first bad entry fails |
| `Cache.CompilesIff` | complylayer/engine/cache.py:64-95 | a snapshot compiles exactly when every entry does, rule for entry; otherwise the first bad entry decides between a snapshot error and an unhandled one |
| `Cache.RaisesIff` | complylayer/engine/cache.py:73-94 | the unhandled exception comes exactly from a first bad entry whose expression revalidates and that lacks an id or severity, or has an unknown severity or state |
| `Cache.UnknownSeverityRaises` | complylayer/engine/cache.py:84-94 | an entry with the severity "blok" does |
| `CompiledEntries.EntryIs` | complylayer/engine/cache.py:73-94 | an entry compiles to a rule if and only if it stores that rule: severity and state by their names, a missing name being the id, a missing state active, a missing priority 0, a missing reference or message empty |
| `CompiledEntries.SnapshotIs` | complylayer/engine/cache.py:64-95 | a snapshot compiles to these rules if and only if each is stored as its entry |
| `CompiledEntries.RefreshIs` | complylayer/engine/cache.py:138-163 | when a refresh, forced or not, leaves the rule set alone, and what it loads otherwise |
| `Cache.RuleSetCache.Refresh` | complylayer/engine/cache.py:138-163 | a swap exactly when the version differs or is forced and compiles; otherwise the cache is untouched |
| `Cache.VersionWatcher.PollOnce` | complylayer/engine/cache.py:212-221 | counts, refreshes, swallows snapshot errors, and ends the loop on exactly the malformed snapshots |
| `Cache.VersionWatcher.OnAnnouncement` | complylayer/engine/cache.py:239-245 | counts, refreshes, swallows snapshot errors only |
| `CacheRuns.StepSound` | complylayer/engine/cache.py:138-163 | every step of publish, acquire, load, compile and swap keeps the cache whole and its version from falling |
| `CacheRuns.ReadsAreWhole` | complylayer/engine/cache.py:112-121 | at every moment of every interleaving a lock-free read sees the whole compilation of one published version |
| `CacheRuns.VersionNeverDecreases` | complylayer/engine/cache.py:138-163 | from any reachable state, over any further steps |
| `CacheRuns.ChangedOnlyBySwap` | complylayer/engine/cache.py:152-158 | a snapshot that does not compile leaves the cache unchanged |
| `CacheRuns.PollMakesCurrent` | complylayer/engine/cache.py:166-174 | a refresh that entered after the last compilable publish and has finished has made the cache current, whatever other threads did |
| `CacheRuns.StaysCurrent` | complylayer/engine/cache.py:138-163 | and it stays current until the next publish |
| `CacheRuns.StepsAreRefresh` | complylayer/engine/cache.py:138-163 | the four steps under the lock are the method |
| `Auth.Authenticator.Authenticate` | complylayer/api/auth.py:136-178 | the verdict and the memory after it |
| `Auth.Authenticator.RevokeFromCache` | complylayer/api/auth.py:117-126 | exactly the remembered verifications of that prefix go |
| `Auth.AlwaysTrustworthy` | complylayer/api/auth.py:136-178 | in every run each remembered digest is that of a key that still verifies against its row |
| `Auth.CacheInvisible` | complylayer/api/auth.py:136-178 | after every run, at any clock reading, authenticating with the memory gives the verdict and credentials of authenticating without it |
| `Auth.RevocationIsFinal` | complylayer/api/auth.py:136-178 | a revoked key is refused from then on, remembered or not |
| `KeyVerdicts.PresentedIff` | complylayer/api/auth.py:140-145 | a header presents a key exactly if it is `Bearer`, a space and the key with white space around it at most, the key beginning `cl_` |
| `KeyVerdicts.AuthenticatesIff` | complylayer/api/auth.py:136-178 | after every run, whatever is remembered: a header is accepted for these credentials if and only if it bears a key whose row, found by its first sixteen characters, is live, verifies it and holds exactly those credentials, the role by its name |
| `KeyVerdicts.RememberedForAMinute` | complylayer/api/auth.py:158-171 | a verified key skips verification for sixty seconds and no longer |
| `KeyVerdicts.EvictionForgets` | complylayer/api/auth.py:117-126 | after any run, evicting a prefix forgets the keys under it and no other |
| `KeyVerdicts.MemoriesLapse` | complylayer/api/auth.py:168-171 | no memory outlives the latest authentication by more than a minute |
| `Replay.StorageIff` | complylayer/api/handler.py:260-262 | which values come back from storage as they went in |
| `Replay.RunIgnoresFunctions` | complylayer/backtest/replay.py:188-199 | a tree without calls depends on the facts alone, steps included |
| `Replay.RunKnows` | complylayer/backtest/replay.py:114-117 | a tree whose names are all facts never fails on an unknown fact |
| `Replay.EngineFunctionsKnow` | complylayer/dsl/functions.py:139-221 | no function of the engine reports an unknown fact |
| `Replay.NamesAreReadOrCalled` | complylayer/backtest/replay.py:114-117 | the names a rule is taken to need are those it reads as facts and those it calls, for every tree |
| `Replay.CallsAreSpecified` | complylayer/dsl/validator.py:163-201 | a validated tree calls only the engine's functions, and is call-free exactly when it calls none |
| `Backtest.RunBacktest` | complylayer/backtest/replay.py:130-185 | considered + skipped = total, matched + errored <= considered, each count that of the decisions it is about, samples the first matches in order, confidence exactly by skipped and considered |
| `Backtest.Gather` | complylayer/backtest/replay.py:148-178 | the loop over the decisions gathers the specified impact, or stops at a host exception |
| `Backtest.Consider` | complylayer/backtest/replay.py:148-178 | one turn of that loop |
| `Backtest.GatheredTallied` | complylayer/backtest/replay.py:130-185 | the gathered counts are the sizes of the selections they name |
| `Backtest.SamplesAre` | complylayer/backtest/replay.py:56-67 | the samples are the first matched decisions, at most the limit, each with its own fields |
| `Backtest.MissingAre` | complylayer/backtest/replay.py:148-156 | a name is reported missing exactly if the rule needs it and some decision lacks it |
| `Backtest.ConsideredKnows` | complylayer/backtest/replay.py:148-163 | no considered decision fails on an unknown fact |
| `Backtest.AskedIff` | complylayer/backtest/replay.py:148-156 | of a decision that recorded every fact it reads, a rule is asked exactly when a fact bears the name of every function it calls |
| `Backtest.CallsAreMissingFacts` | complylayer/backtest/replay.py:114-117 | a rule with a call anywhere is never considered where no fact bears that function's name |
| `Backtest.CallingRulesNeverConsidered` | complylayer/backtest/replay.py:148-156 | a validated rule that is not call-free is considered of no decision whose facts are not named like functions |
| `Backtest.DecideIgnoresFunctions` | complylayer/backtest/replay.py:188-199 | call-free rule sets decide by the facts alone |
| `Backtest.ListFactsDiverge` | complylayer/backtest/replay.py:120-127 | a call-free rule whose replay differs whenever a fact is a list |
| `Backtest.ReplayReproducesIff` | complylayer/backtest/replay.py:188-199 | under the default fallback every call-free rule set replays a decision's stored facts to the original decision if and only if no fact of it is a list |

## Left out

- SHA-256, Ed25519, Argon2id, HMAC: parameters, with the one property each theorem needs in its `requires`.
- The bytes of the canonical JSON that is hashed: a record's content is hashed as a value.
- CPython's own tokenizer and parser beyond the part a rendered rule uses; `Soundness`, `Magnitude` and `Interpretation` are about trees and cover every validated one.
- Stripping rule text before parsing: the lexer skips blanks at either end.
- Floats, null and dictionaries as facts or constants; times are whole seconds.
- Text that Python's `int()` reads besides a signed decimal numeral: no other spelling is ever written to the amounts hash.
- `Admission.ThresholdExact`: assumes clocks less than 30 days apart, and a server clock that takes less than the keys' 31 days from one request to the next.
- `Magnitude.EngineArithmeticBounded`: assumes calendar results of at most 512 bits, since they come from outside.
- Dates: `days_since` and `hour_of_day` read a calendar parameter.
- The Redis client, round trips below the atomic MULTI/EXEC, and the server-side fallback counting that the code mentions but does not have.
- A handler without any velocity provider: production always has one.
- `Audit.AppendReadsBackIff`: assumes the new record's id is new, as a primary key is; `Appenders` carries the strictly increasing `recorded_at` that read-back order needs.
- `Audit.AuditTrail.WriteCheckpoint`: length and head are read from one state.
- Lifecycle calls as atomic steps on a freshly read rule; the rules table's uniqueness of name and version per tenant, and timestamps, are not modelled.
- `FourEyes.EveryVersionAnswerable`: says nothing of who wrote the content last, because approval is checked against `created_by` only.
- `Explanation.TrailExplains`: priority, reference and customer message are not in a creation record, so they cannot be told from the trail.
- Deleting a named list, which neither publishes nor records.
- The order in which two threads meet inside `authenticate`: the row is read once and a row's hash never changes, so it is one step.
- `Backtest.ConsideredKnows`: assumes that supplied functions never themselves report an unknown fact; none of the engine's does (`Replay.EngineFunctionsKnow`).
- `divergence`, which only counts what was already recorded.
- Idempotent responses, HTTP, views, middleware, metrics, dashboards, row level security and the Node SDK: input and output, or easy members.
