# Warframe Market operator: verified model

This project models the decision logic of the Warframe Market operator in Dafny and proves what it
guarantees, and exactly when it does not. It covers three connected parts.

**Buying a set part by part** (`BuyPlan`, `SetInfo`, `SetPrice`, with `MarketAdapter`). A set is resolved into
its parts and counts, as determined by the services' answers alone (`IsDescription`); the orders of each part are
filtered and sorted; a greedy plan fills the need. The library sort by price is modelled by a method that promises
a sorted permutation and nothing else, so every result holds for whatever order it gives to equal prices. The plan
is proved to be a cheapest purchase.

**The two price watches as machines over their stored status** (`RivenWatch`, `ItemWatch`). One step reads the
status, fetches, decides, possibly sends, and applies a new status. All that comes from outside (get, search,
weapon lookup, every clock reading, every send, the apply) is an input of the step, and runs are arbitrary
sequences of such inputs. The status is written by Kubernetes Server-Side Apply with one field owner, so a
field the applied configuration leaves unset is gone afterwards; the model keeps exactly that. `Notifier`
records what was delivered, and the reconciler classes keep the stored status and the deliveries equal to the
pure functions the theorems are about (`StatusAt`, `DeliveredBefore` and their item counterparts).
`RivenLoop` defines which auctions are *due* without mentioning the loop and proves that the loop delivers
exactly those. `RivenMarket` says over the raw response, the spec and the clock which auctions are wanted, pending
and to be reported, and proves that the loop over the filtered response sees the same. `RivenSteps` and `ItemSteps`
give the complete outcome of one step (deliveries, result, stored status) in these terms. `RivenHistory` and
`RivenSteady` carry the arguments over whole runs; `RivenRuns`, `RivenSteadyRuns` and `ItemRuns` state the results
for runs of the real step functions.

**Scoring a riven roll** (`RivenCalculator`). The roll formula and its inversion over the reals, against the factors
as documented, the average, and how the quality reacts to reordering, stronger stats, curses and further buffs.

## What turned out not to hold

* The comment at riven_price_watch_use_case.go:100 says ids are reset every day so that auctions are announced
  daily. `LastNotifiedAt` disappears with the first applied step that delivers nothing, so the reset happens
  only directly after a notifying step (`DayResetIff`); `DailyRepeatFails` is an instance and
  `ConvergesWithoutLoss` shows the silence lasts for good.
* Zero is the sentinel for "nothing found". With a free auction the cheapest price is not reported
  (`ReportsFirstCheapestIff`), and if the last qualifying auction is free the ids are lost
  (`CompletenessIff`) and everything is sent again (`SecondStepQuietIff`). `FreeAuctionRepeats` is a run in
  which one free auction is announced twice on the same day and never reported or remembered.
* `weapon.Name` is read although the weapon may be missing: `PanicsIff` says when the step panics and
  `MissingWeaponPanics` gives an input.
* Orders are sorted with a library sort documented as stable, but the comparison for descending order also
  says "before" for equal keys. The sort is then stable exactly when every class of equal keys reads the same in
  both directions (`DescendingStableIff`); `DescendingSwapsTies` gives two offers that change places.
* The comment at itempricewatch_types.go:45-47 says the remembered order is cleared when its seller goes offline. It is
  cleared by a failed fetch too, and then announced again (`FetchFailureRepeats`).
* The formula takes the absolute value of the stat, so the score saturates at 0 below the range only down to
  r = -9 (`RollInverted`).
* Kitguns map to a riven type that the base-value table does not have (`KitgunsAreNeverScored`).

## Conventions

Quantities are natural numbers; prices and need are unbounded integers of either sign; no price is assumed
positive. Windows are minutes since midnight, and a timestamp is its calendar day, the only part the code
compares. Where a lemma asks for a base value, disposition or rank to be in range, or for an order id that is
not the empty "nothing remembered", it says so in its `requires`.

## Model

| member | source | states |
|---|---|---|
| BuyPlan.BuildBuyPlan | internal/domain/usecase/get_set_component_price_use_case.go:90-112 | for any order the sort gives equal prices: the plan buys exactly min(need, supply) units (none for a need below one), line by line from the cheapest order still unused, and no purchase of that many units from these orders is cheaper |
| BuyPlan.GreedyIsOptimal | internal/domain/usecase/get_set_component_price_use_case.go:94-111 | exchange argument: the greedy total over any sorted permutation is attained by a purchase from the original orders and is at most the cost of every other purchase |
| BuyPlan.FillIsGreedyPlan | internal/domain/usecase/get_set_component_price_use_case.go:94-110 | each line takes all its order has or what is still needed, distinct orders ascend in price, and an order is left out only when the need is filled and no used one is dearer |
| BuyPlan.GreedyBeatsPurchase | internal/domain/usecase/get_set_component_price_use_case.go:95-109 | on a sorted list no assignment within the quantities that buys n units costs less than the greedy fill |
| BuyPlan.TotalIndependentOfTieOrder | internal/domain/usecase/get_set_component_price_use_case.go:91-93 | any two sorted permutations have the same unit price list, and the total is the sum of its first min(need, supply) entries |
| BuyPlan.TotalIsConvex | internal/domain/usecase/get_set_component_price_use_case.go:95-109 | each further unit costs at least as much as the one before it, up to the supply |
| MarketAdapter.ApplyFilter | internal/adapter/http_warframe_market_service.go:130-145 | keeps exactly the matching orders in their original order, everything when no filter is set |
| MarketAdapter.FilterReturnsExactly | internal/adapter/http_warframe_market_service.go:130-145 | the result holds exactly the positions of the response with the wanted type and a wanted status, in order |
| MarketAdapter.ContainsStatus | internal/adapter/http_warframe_market_service.go:147-154 | true iff the status is in the list |
| MarketAdapter.ApplySort | internal/adapter/http_warframe_market_service.go:156-175 | in place: the array afterwards is the insertion sort of its old contents under the comparison given to the library, unchanged without a sort field |
| MarketAdapter.ProcessedOrdersRefinesSpec | internal/adapter/http_warframe_market_service.go:113-115 | the processed response is a permutation of exactly the matching orders; ascending it is the one stable sort of them; descending it is the one descending order with every class of equal keys reversed |
| MarketAdapter.SortsByNamedField | internal/adapter/http_warframe_market_service.go:156-175 | platinum, quantity or reputation is the key, whichever the caller named, in the named direction, with ties in order when ascending and back to front when descending |
| MarketAdapter.DescendingStableIff | internal/adapter/http_warframe_market_service.go:156-175 | the descending sort keeps equal keys in their original order iff every class of equal keys reads the same in both directions |
| MarketAdapter.DescendingSwapsTies | internal/adapter/http_warframe_market_service.go:156-175 | two offers at one price change places |
| MarketAdapter.SortIsUnique | internal/adapter/http_warframe_market_service.go:156-175 | sequences in order, ascending or descending, that agree on every class of equal keys are equal, so order and classes determine the result |
| MarketAdapter.GetOrdersByItem | internal/adapter/http_warframe_market_service.go:106-116 | an error passes through; otherwise the filtered and sorted orders |
| MarketAdapter.SearchAuctions | internal/adapter/http_warframe_market_service.go:266-307 | an error passes through; otherwise exactly the positions of the response whose owner status is wanted, direct sale if demanded, price at most the maximum if there is one, in order |
| MarketAdapter.SearchReturnsOnlyMatches | internal/adapter/http_warframe_market_service.go:266-276 | an auction is returned iff it is in the response and meets status, direct-sell and price conditions |
| SetInfo.GetSetInfo | internal/domain/usecase/get_set_info_use_case.go:40-90 | over the services' answers: every error exit in its order; otherwise one part per listed id that is not the set, with name and slug of the last catalogue entry and the count for the game reference in the part's own detail |
| SetInfo.DescriptionIsUnique | internal/domain/usecase/get_set_info_use_case.go:40-90 | the services' answers leave only one description, the code's |
| SetInfo.PartsForOutcome | internal/domain/usecase/get_set_info_use_case.go:69-87 | the parts are those of the ids that are not the set and are in the catalogue, one each, in order; otherwise the error is that of the first failing detail request |
| SetInfo.LastItemIsLast | internal/domain/usecase/get_set_info_use_case.go:53-56 | the catalogue lookup finds the last item with the id, or there is none |
| SetInfo.NeededCountMeaning | internal/domain/usecase/get_set_info_use_case.go:62-85 | the count is that of the last ingredient with the game reference, 1 when absent or zero |
| SetPrice.GetSetComponentPrice | internal/domain/usecase/get_set_component_price_use_case.go:50-87 | errors of the description pass through; otherwise the first part whose orders fail, or for every part a greedy and cheapest plan over its reachable sell orders, and their sum, which is the price of a cheapest joint purchase and within every bound on the prices |
| SetPrice.SetTotalIsMinimal | internal/domain/usecase/get_set_component_price_use_case.go:68-86 | the set total is attained by a joint purchase, from the ingame and online users' sell orders in the market's responses, of min(count, reachable supply) of every part, and no such purchase is cheaper |
| SetPrice.PartCostsAtMost | internal/domain/usecase/get_set_component_price_use_case.go:73-82 | a part costs at most its units times any bound on the prices of its reachable sell orders |
| SetPrice.SetCostsAtMost | internal/domain/usecase/get_set_component_price_use_case.go:68-86 | the set costs at most the sum of these bounds over its parts |
| SetPrice.SetTotalIsDeterministic | internal/domain/usecase/get_set_component_price_use_case.go:73-83 | the set total does not depend on how the unstable sorts order equal prices |
| SetPrice.LinesUseReachableSellers | internal/domain/usecase/get_set_component_price_use_case.go:56-64 | every line buys, at the order's price and within its quantity, from a sell order of an ingame or online user in the market's response |
| RivenCalculator.Calculator.ScoreAuction | internal/domain/usecase/riven_calculator_use_case.go:202-254 | one score per attribute, as characterised by ScoresDescribeStats, ScoreRecoversRoll and BasesByCategory; none without a weapon |
| RivenCalculator.ScoresDescribeStats | internal/domain/usecase/riven_calculator_use_case.go:229-252 | each score names its stat, is known iff the weapon's table has it, and is 0 when unknown or when no stat is positive |
| RivenCalculator.BasesByCategory | internal/domain/usecase/riven_calculator_use_case.go:25-34 | the base values are those of the riven type of the category, melee for an unknown category |
| RivenCalculator.BuffsAttenIsShare | internal/domain/usecase/riven_calculator_use_case.go:20-21 | the shares 1, 0.66000003, 0.5, 0.40000001, 0.34999999 for one to five and more buffs: strictly falling to five, constant after, nothing without a buff |
| RivenCalculator.AverageRollQuality | internal/domain/usecase/riven_price_watch_use_case.go:197-213 | the truncated mean of the known positive scores, 0 when there are none |
| RivenCalculator.AverageMeaning | internal/domain/usecase/riven_price_watch_use_case.go:197-213 | with n known positive stats, n times the average is at most the sum of their qualities and less than n below it (the other way round for a negative sum); 0 when there are none |
| RivenCalculator.DenominatorPositive | internal/domain/usecase/riven_calculator_use_case.go:241-245 | once some stat is positive the zero guard is never taken for a known stat |
| RivenCalculator.RollInverted | internal/domain/usecase/riven_calculator_use_case.go:239-248 | scoring lerp(0.9, 1.1, r) times the denominator gives 100r clamped to 0..100 exactly for r >= -9 |
| RivenCalculator.ScoreRecoversRoll | internal/domain/usecase/riven_calculator_use_case.go:202-254 | for a whole auction: any known stat whose shown value is the product documented at lines 9-17, with the shares and 1.25 per curse written out, scores 100r cut to 0 and 100 exactly for r >= -9; curses raise only positive stats |
| RivenCalculator.QualityIsPercentage | internal/domain/usecase/riven_price_watch_use_case.go:197-213 | the quality is in 0..100, 0 without a weapon, and less than 1 below the true mean |
| RivenCalculator.QualityBetween | internal/domain/usecase/riven_price_watch_use_case.go:197-213 | the quality lies between the floored lower bound and the upper bound of the known positive scores |
| RivenCalculator.QualityPermutation | internal/domain/usecase/riven_calculator_use_case.go:215-252 | reordering the attributes permutes the scores and keeps the quality |
| RivenCalculator.QualityMonotone | internal/domain/usecase/riven_calculator_use_case.go:223-250 | stronger positive stats or fewer curses never lower the quality, for any weapon, rank and table |
| RivenCalculator.MoreBuffsNeverLower | internal/domain/usecase/riven_calculator_use_case.go:223-250 | one more positive stat at unchanged values never lowers the score of another stat |
| RivenCalculator.KitgunsAreNeverScored | internal/domain/usecase/riven_calculator_use_case.go:25-34 | a kitgun has quality 0 because its riven type has no base values |
| Watch.OpensSometimeIff | internal/domain/usecase/item_price_watch_use_case.go:143-156 | a window is open at some minute of the day iff it does not cross midnight |
| Watch.WindowIsInterval | internal/domain/usecase/item_price_watch_use_case.go:143-156 | both ends are open, the minutes next to them closed, and nothing between two open minutes is closed |
| RivenWatch.UserStatuses | internal/domain/usecase/riven_price_watch_use_case.go:217-226 | the requested statuses, "ingame" and "online" when none are given |
| RivenWatch.VisitAuction | internal/domain/usecase/riven_price_watch_use_case.go:125-170 | the loop body: set and list stay two views of one memory, both only grow, and exactly an accepted send is appended to memory and deliveries |
| RivenWatch.NotifyLoop | internal/domain/usecase/riven_price_watch_use_case.go:110-171 | the loop ends in the specified final state and has delivered exactly its list of sends |
| RivenWatch.ExecuteWatch | internal/domain/usecase/riven_price_watch_use_case.go:49-194 | every exit of the use case with the status it hands over and the deliveries it made |
| RivenWatch.RivenPriceWatchReconciler.ReconcileOnce | internal/controller/rivenpricewatch_controller.go:46-72 | get, execute, apply even after an error, then report; stored status and deliveries stay those of the run so far; RivenSteps says what one step is over its inputs |
| RivenLoop.PassDelivers | internal/domain/usecase/riven_price_watch_use_case.go:118-171 | the pass runs to the end iff every due auction can be delivered, and then delivers exactly the due ones; otherwise those before the first that cannot be; memory is the old one plus these |
| RivenLoop.PassDeliversOnce | internal/domain/usecase/riven_price_watch_use_case.go:134-136 | deliveries of a pass are new and pairwise distinct even if the search repeats an auction |
| RivenLoop.DueSplit | internal/domain/usecase/riven_price_watch_use_case.go:159-169 | remembering what was delivered up to a point leaves exactly the rest due |
| RivenLoop.BestIsFirstCheapest | internal/domain/usecase/riven_price_watch_use_case.go:129-132 | the tracked pair is that of the first cheapest qualifying auction unless that price is 0; then it ends on zero iff the last qualifying auction is free |
| RivenLoop.BestAfterLastFree | internal/domain/usecase/riven_price_watch_use_case.go:129-132 | with a free auction and no negative price the tracked pair is that of the first cheapest qualifying auction after the last free one, or zero with the quality of that free one when none follows |
| RivenLoop.EndsOnZeroIff | internal/domain/usecase/riven_price_watch_use_case.go:173-180 | the loop ends on zero iff nothing qualifies, or no qualifying price is negative and the last qualifying auction is free |
| RivenMarket.DueArePending | internal/domain/usecase/riven_price_watch_use_case.go:118-171 | the due list of the loop over the filtered response is the pending list of the raw response: status, direct sale, price, quality, window bounds, not remembered, first of its id |
| RivenMarket.ReportedUnlessFree | internal/domain/usecase/riven_price_watch_use_case.go:129-180 | when something is wanted, some auction is the one to report iff the market does not end on a free auction |
| RivenSteps.DeliveredMeaning | internal/domain/usecase/riven_price_watch_use_case.go:94-171 | a step delivers all pending auctions in order, or those before the first that cannot be sent; nothing unless found and searched |
| RivenSteps.ResultMeaning | internal/controller/rivenpricewatch_controller.go:46-72 | gone iff not found; crashed iff something is pending without a weapon; success iff found, searched, applied and everything pending could be sent; an error otherwise |
| RivenSteps.EndingMeaning | internal/domain/usecase/riven_price_watch_use_case.go:75-193 | which ending each input has, over the raw response |
| RivenSteps.NothingStored | internal/controller/rivenpricewatch_controller.go:56-63 | the status is replaced iff the object was found, the step did not crash and the apply succeeded |
| RivenSteps.StatusMeaning | internal/domain/usecase/riven_price_watch_use_case.go:75-193 | every field of the status an applied step stores, for every exit: price and quality of the reported auction, remembered and announced ids, time, condition and reason |
| RivenSteps.PanicsIff | internal/domain/usecase/riven_price_watch_use_case.go:94-145 | panic iff weapon missing, no quality demanded and some asked-for auction in the window is not remembered; nothing is sent or stored then |
| RivenSteps.CompletenessIff | internal/domain/usecase/riven_price_watch_use_case.go:115-193 | after a successful step inside the window the status holds the id of every auction of the raw response that meets the spec iff the market does not end on a free auction |
| RivenSteps.ReportsFirstCheapestIff | internal/domain/usecase/riven_price_watch_use_case.go:115-193 | price and quality reported are those of the first cheapest auction of the raw response that meets the spec iff that price is not zero |
| RivenHistory.IdsAreKeptDeliveries | internal/domain/usecase/riven_price_watch_use_case.go:76-113 | over any history of steps that treat the memory as the code does: an id is stored iff an applied step delivered it and none since dropped the memory |
| RivenHistory.RepeatNeedsForgetting | internal/domain/usecase/riven_price_watch_use_case.go:134-136 | over any such history, a second delivery of an id needs one of the forgetting events |
| RivenHistory.ResetNeedsOtherDay | internal/domain/usecase/riven_price_watch_use_case.go:100-109 | over any such history, the day reset happens iff the last applied step completed with a delivery stamped on another day |
| RivenRuns.MemoryIsUnforgottenDeliveries | internal/domain/usecase/riven_price_watch_use_case.go:76-113 | in every reachable state an id is stored iff some applied step delivered it and no step since dropped the memory |
| RivenRuns.AtMostOnceUnlessForgotten | internal/domain/usecase/riven_price_watch_use_case.go:134-136 | two deliveries of one auction are separated by a lost apply, a clearing ending or a day reset; within a step there is one |
| RivenRuns.MemoryHasNoDuplicates | internal/domain/usecase/riven_price_watch_use_case.go:168-170 | no reachable status lists an id twice |
| RivenRuns.DayResetIff | internal/domain/usecase/riven_price_watch_use_case.go:100-109 | LastNotifiedAt is set iff the last applied step completed with a delivery, and the reset happens iff that was stamped on another day |
| RivenRuns.DeliveriesAreSafe | internal/adapter/http_warframe_market_service.go:265-276 | every delivery in any run meets that step's price, status, direct-sell and quality conditions, and its own clock reading lay between the bounds of the window and its own send was accepted |
| RivenSteady.InterruptedTotal | internal/domain/usecase/riven_price_watch_use_case.go:159-169 | passes over one market, each resuming with what was delivered remembered, deliver together exactly the first due list, in order |
| RivenSteadyRuns.InterruptedEqualsUninterrupted | internal/controller/rivenpricewatch_controller.go:54-68 | steps cut short by failed sends deliver together exactly what one failure-free step delivers and leave its status and ending |
| RivenSteadyRuns.InterruptedRunIsShort | internal/controller/rivenpricewatch_controller.go:54-68 | if every interrupted step makes progress the run takes no more steps than it has deliveries |
| RivenSteadyRuns.ConvergesWithoutLoss | internal/domain/usecase/riven_price_watch_use_case.go:134-187 | over a steady market, with steps outside, inside or across the window edges: each step up to the first wholly inside sends exactly what is due and not yet delivered, that step completes the list without repeats, and nothing is sent after it |
| RivenSteadyRuns.SecondStepQuietIff | internal/domain/usecase/riven_price_watch_use_case.go:173-180 | a second successful step on the same day sends nothing iff the market does not end on the zero sentinel |
| RivenSteadyRuns.DailyRepeatFails | internal/domain/usecase/riven_price_watch_use_case.go:100-109 | a concrete run whose next-day step repeats nothing |
| RivenSteadyRuns.FreeAuctionRepeats | internal/domain/usecase/riven_price_watch_use_case.go:173-180 | a concrete market with one free auction: it is sent, its id dropped, and sent again by the next step of the day |
| RivenSteadyRuns.MissingWeaponPanics | internal/domain/usecase/riven_price_watch_use_case.go:94-145 | a concrete input without a weapon on which the step panics |
| ItemWatch.MinOrder | internal/domain/usecase/item_price_watch_use_case.go:158-162 | the first of the cheapest orders |
| ItemWatch.StillVisible | internal/domain/usecase/item_price_watch_use_case.go:91-97 | true iff an order with the id is listed |
| ItemWatch.ExecuteItemWatch | internal/domain/usecase/item_price_watch_use_case.go:45-141 | every exit of the use case with the status it hands over and the announcement it made |
| ItemWatch.ItemPriceWatchReconciler.ReconcileOnce | internal/controller/itempricewatch_controller.go:46-72 | get, execute, apply even after an error, then report; stored status and deliveries stay those of the run so far; ItemSteps says what one step is over its inputs |
| ItemSteps.AnnouncementMeaning | internal/domain/usecase/item_price_watch_use_case.go:74-140 | a step announces the first cheapest order iff it is within the threshold, not known, the clock between the bounds of the window and the send accepted; otherwise nothing |
| ItemSteps.ItemResultMeaning | internal/controller/itempricewatch_controller.go:46-72 | gone iff not found; success iff found, applied, fetched and the order to announce, if any, accepted; an error otherwise, never a crash |
| ItemSteps.ItemStatusMeaning | internal/domain/usecase/item_price_watch_use_case.go:56-140 | every field of the status an applied step stores, for every exit, and when the stored status stays |
| ItemRuns.MemoryProvenance | internal/domain/usecase/item_price_watch_use_case.go:88-140 | in every reachable state an id is remembered iff it was announced by an applied step and every applied step since fetched, was within its threshold, still saw it and announced nothing |
| ItemRuns.NoRepeatWithoutLoss | internal/domain/usecase/item_price_watch_use_case.go:88-107 | the same order is announced twice only if an apply failed or a step in between, not announcing that order, lost it |
| ItemRuns.AnnouncesIff | internal/domain/usecase/item_price_watch_use_case.go:74-140 | in any run a step announces exactly the first cheapest order, and iff it is within the threshold, the window is open, the send is accepted and no earlier announcement of it is still remembered |
| ItemRuns.ItemConvergesWithoutLoss | internal/domain/usecase/item_price_watch_use_case.go:104-140 | over a steady market a suppressed announcement is made at the first step inside the window iff not already known, and never again |
| ItemRuns.AnnouncementsAreSafe | internal/domain/usecase/item_price_watch_use_case.go:74-140 | corollary for one step: every announcement is the first cheapest order, within the threshold and the window, and not the remembered one; the cheapest price is recorded |
| ItemRuns.FetchFailureRepeats | internal/domain/usecase/item_price_watch_use_case.go:56-63 | corollary for two steps: a failed fetch makes the next step announce the same order again |

## Left out

- BuyPlan.BuildBuyPlan: prices are unbounded integers, so an overflow of the comparison `a.Platinum - b.Platinum` is not modelled; negative quantities are excluded by the type.
- MarketAdapter.ApplySort: is insertion sort, which is what the library runs on up to 20 elements; the merging it does on longer inputs is not modelled. Merging always asks whether an element of the later run precedes one of the earlier run, so it gives the same order.
- RivenCalculator.Calculator.ScoreAuction: float64 is modelled by real numbers; the base values are a parameter instead of the enumerated tables.
- RivenRuns.DeliveriesAreSafe: stat, re-roll and weapon filters are applied by the remote service and are not part of the model.
- HTTP, JSON, rate limiting, ntfy delivery and logging: a fetch, send or apply only succeeds or fails; a call that fails after taking effect is not modelled.
- controller-runtime: queueing, cache staleness, leader election and requeue timing; every step reads the status last applied, and recreating the object starts a new run.
- Titles, messages and actions of notifications, and the text and timestamps of conditions: display only.
- Time zones, calendar arithmetic and the parsing of "HH:MM".
- The command line tool with its tables and its own averaging loop.
