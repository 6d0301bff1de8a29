# Strategic routing: a verified model of the route search and the evolutionary router

The router assigns persons travelling from an origin to a destination to
routes through a road network whose links have a latency that grows with
their flow (`latency = a·x² + b`, with `a` and `b` computed from length,
free speed and capacity). Starting from a reference route (the shortest one),
its *ssotd* drivers look for an alternative route: they compare candidate
paths by their weighted travel time (`b`), their delay (`taud`) and the part
of their cost shared with the reference route, keep a Pareto frontier of
mutually non-dominated path prefixes per node, and let a psychological model
split the k persons between the reference route and the best alternative. An
evolutionary router instead breeds sets of n routes, scores each set by the
user equilibrium its flows reach, and improves the sets by crossover,
mutation and migration between islands.

This project models that core in Dafny and proves properties of it:

- `Common`, `Network`, `Sorting`: shared values, links with their latency
  coefficients, walks over links, stable sorting and merging.
- `Data`, `Elements`: routes with cached coefficient sums, node vectors, the
  link coefficient memo (`LinkMemo`), and Pareto elements as an arena of
  records linked to their parents.
- `Psych`: the dominance relations, the three usage rules around the roots of
  the polynomial solver, and `score_route`.
- `Pareto`: the dominance-pruned label-setting search in its six variants
  (weak or strong dominance, inactive links, single split, optional bound).
- `Reference`, `ShortestPaths`: the reference-route bookkeeping
  (`ReferenceRoute`: link set, node positions, prefix sums) and the plain
  Dijkstra searches, including the lazy best-parameter cache (`BestPars`).
- `Fragments`, `NoDisjoint`, `OneDisjoint`, `NewDisjoint`, `FullDisjoint`,
  `DijkstraAll`, `SsotdShared`: the route fragments and their insertion into
  frontiers, the combination table, and the selection and assembly of each
  search driver with its fallback to the reference route.
- `BucketQueue`: the monotone bucket priority queue `DijkPQ`.
- `EaData`, `EaUtil`, `EaScoring`, `EaIslands`, `EaMigration`, `EaCrossover`,
  `EaMutations`: route utilities (circle deletion, intersection, distance
  score), the Frank-Wolfe and simulation scorers, the update of the islands'
  parents and counters, migration, the crossover operators and the mutation
  operators once their random draws are made.

Objects whose fields the source updates in place are classes (`DijkPQ`,
`LinkMemo`, `ReferenceRoute`, `BestPars`); searches, scorers and operators
that loop are methods proved against specification functions; individuals,
islands, routes and frontiers are values, and an operation that changes them
in place returns the new value. Random draws, the paths of the randomised
Dijkstra search, the polynomial root solver, `sqrt` and the queue
comparators are parameters.

## Model

| member | source | states |
|---|---|---|
| Common.Trunc | router/src/core/psychmod.cpp:76 | the `double` to `int` conversion: truncation toward zero, within one of the value on the side of zero |
| Common.Round | router/src/ea/ea_islands.cpp:79 | `std::round`: the nearest integer, halves away from zero |
| Common.FirstMinBelow | router/src/core/psychmod.cpp:71-83 | the running-best scan that replaces its best only on a strictly smaller value returns the first position of the minimum when it is below the initial best, -1 (keeping the initial value) otherwise |
| Common.MinElement | router/src/ea/ea_util.cpp:134-144 | `std::min_element`: a position of a least value, and the first one |
| Network.LinkA | router/src/core/psychmod.cpp:91-93 | the congestion coefficient `0.15f * length / (freespeed * capacity^2)` is non-negative and zero exactly for a zero-length link |
| Network.LinkB | router/src/core/psychmod.cpp:95 | the free-flow coefficient `length / freespeed` is non-negative and zero exactly for a zero-length link |
| Network.LatencyMonotone | router/src/core/psychmod.cpp:87-89 | the latency `a*x*x + b` is at least the free-flow term and grows with the load |
| Network.WalkAppend | router/src/core/data.cpp:84-93 | two walks meeting at a node concatenate to a walk (the links of `route::operator+`) |
| Network.WalkSplit | router/src/core/data.cpp:172-180 | a walk cut at any link is two walks meeting at that link's source |
| Network.SumsAppend | router/src/core/data.cpp:95-100 | the coefficient and length sums of a concatenation are the sums of the parts |
| Network.SumsNonNeg | router/src/core/data.cpp:77-82 | the coefficient and length sums of a route are never negative |
| Data.LinkMemo.A | router/src/core/data.cpp:67 | `link::a()` returns the congestion formula's value whether or not the memo was filled, fills the memo and touches no other memo |
| Data.LinkMemo.B | router/src/core/data.cpp:66 | `link::b()` returns the free-flow formula's value and fills its memo, touching no other memo |
| Data.LinkMemo.Taud | router/src/core/data.cpp:68 | `link::taud()` returns the memo once it is non-zero, whatever group size is passed later; otherwise the latency at the current group size, which it stores |
| Data.TaudGrowsWithGroup | router/src/core/data.cpp:68 | on a link of positive length the per-agent time is positive for one agent and larger for two |
| Data.StaleTaudAcrossGroups | router/src/core/data.cpp:68 | a link asked for `taud` in a group of one and then in a group of two returns the first group's value both times, which is not the time for two agents |
| Data.LinkMemo.constructor | router/include/core/data.h:18 | a fresh link holds 0 in all three memo fields |
| Data.CalculateParams | router/src/core/data.cpp:95-100 | `route::calculate_params`: the links are kept and the cached sums equal the sums of the links' coefficients |
| Data.Extend | router/src/core/data.cpp:102-107 | `route(route&, link*)`: the links gain the new link at the end and consistent cached sums stay consistent |
| Data.Concat | router/src/core/data.cpp:84-93 | `route::operator+`: the links are concatenated and the sums of two consistent routes give a consistent route |
| Data.ToNodeVec | router/src/core/data.cpp:172-180 | `route::to_node_vec` has one node more than the route has links |
| Data.NodeVecOfWalk | router/src/core/data.cpp:172-180 | on a walk the node vector starts at the walk's source, ends at its target and lists each link's source and target in order |
| Data.LastLinkTo | router/src/core/data.cpp:128-139 | the link `initByNodeVec` keeps for a step is an outgoing link reaching the next node; there is none only if no outgoing link reaches it |
| Data.InitByNodeVec | router/src/core/data.cpp:121-148 | `route(vector<int>&)`: one link per node pair that has one (the last match), pairs without one skipped, and sums consistent with the links |
| Data.LinksOfNodesWalk | router/src/core/data.cpp:123-148 | when every pair of consecutive nodes has a link, the route built is a walk from the first node to the last with exactly one link per pair, and its node vector is the input |
| Data.NodeVecRoundTrip | router/src/core/data.cpp:172-180 | round trip: building a route from the node vector of a connected route whose links are the ones `initByNodeVec` picks gives back the same links |
| Data.WordLength | router/src/core/data.cpp:111-113 | the leading word ends at the first space or at the end of the text |
| Data.Tokens | router/src/core/data.cpp:110-113 | `istream_iterator<string>` yields non-empty tokens that contain no space |
| Data.DigitRun | router/src/core/data.cpp:115-116 | the leading digit run `std::stoi` reads stops at the first non-digit |
| Data.ParseAll | router/src/core/data.cpp:114-116 | converting every token yields one id per token |
| Data.RouteFromString | router/src/core/data.cpp:109-119 | `route(std::string)`: a text that `stoi` rejects gives no route; otherwise the route built from the parsed ids, with consistent sums |
| Data.ShowNat | router/src/core/data.cpp:160-164 | `std::to_string` of a natural number is a non-empty digit string |
| Data.ShowNatValue | router/src/core/data.cpp:160-164 | the digits written for a natural number read back as that number |
| Data.StoiDigits | router/src/core/data.cpp:116 | `stoi` of a digit string whose value fits an `int` is that value |
| Data.StoiNegDigits | router/src/core/data.cpp:116 | `stoi` of a minus sign followed by digits is the negated value when it fits |
| Data.StoiShow | router/src/core/data.cpp:116 | `stoi` reads back every `int` that `to_string` writes |
| Data.ShowIsWord | router/src/core/data.cpp:160-164 | the text of an id is one non-empty word |
| Data.TokensOfJoin | router/src/core/data.cpp:160-164 | tokenising the ids joined with single spaces gives one token per id, each the text of its id |
| Data.ParseJoinRoundTrip | router/src/core/data.cpp:109-119 | round trip: parsing the text `route::to_string` writes for a node sequence gives the sequence back |
| Data.ParseAllOk | router/src/core/data.cpp:114-116 | when every token converts, the whole conversion succeeds with those values |
| Sorting.InsertBy | router/src/ea/ea_islands.cpp:124 | inserting one element into a sequence keeps every element and adds the new one |
| Sorting.SortBy | router/src/ea/ea_islands.cpp:124-128 | `std::sort` returns a permutation of its input |
| Sorting.SortBySorted | router/src/ea/ea_islands.cpp:124-128 | `std::sort` under a strict weak order returns its input in order |
| Sorting.InsertSorted | router/src/ea/ea_islands.cpp:124 | inserting into a sorted sequence keeps it sorted |
| Sorting.Merge | router/src/ea/ea_islands.cpp:154-167 | `std::merge` returns exactly the elements of both inputs |
| Sorting.MergeSorted | router/src/ea/ea_islands.cpp:154-167 | `std::merge` of two sorted inputs is sorted |
| Psych.DominanceOrders | router/src/core/psychmod.cpp:97-105 | `dominating` and `strongly_dominating` are reflexive and transitive, and strong dominance implies dominance |
| Psych.StrongIsWeakPlusShared | router/src/core/psychmod.cpp:97-105 | strong dominance holds exactly when dominance holds and the shared congestion is no larger |
| Psych.ClampRoot | router/src/core/psychmod.cpp:128-145 | one root of the linear model gives no candidate if NaN, otherwise the point of [0, k] nearest to it (k for +inf, 0 for -inf) |
| Psych.LinearUsage | router/src/core/psychmod.cpp:107-152 | the linear model returns `[k]` on the shortcut, otherwise the clamped roots, or `[0]` when every root is NaN; at least one candidate, all in [0, k] |
| Psych.LinearUsageCount | router/src/core/psychmod.cpp:128-145 | without the shortcut the linear model yields one candidate per non-NaN root |
| Psych.UserEquilibriumUsage | router/src/core/psychmod.cpp:154-184 | exactly one candidate: the first root in [0, k], else k when p fully loaded is no slower than an empty q, else 0 |
| Psych.SystemOptimumUsage | router/src/core/psychmod.cpp:186-211 | k and 0 first, then exactly the roots that lie in [0, k] |
| Psych.CandidatesInRange | router/src/core/psychmod.cpp:107-211 | every model offers at least one candidate usage and all of them lie in [0, k] |
| Psych.AsWrittenScore | router/src/core/psychmod.cpp:74-78 | as written, a fitting candidate cost scores its truncation and an overflowing one scores INT_MIN |
| Psych.CandidateScore | router/src/core/psychmod.cpp:74-78 | corrected: a fitting cost scores its non-negative truncation, an overflowing one DBL_MAX |
| Psych.ScoreRouteAsWritten | router/src/core/psychmod.cpp:64-85 | the selection loop as written keeps the first candidate with a strictly smaller truncated score, starting from (DBL_MAX, 9) |
| Psych.OverflowWins | router/src/core/psychmod.cpp:76-82 | with candidate costs 3e9 and 1 the code as written picks the overflowing candidate and reports INT_MIN |
| Psych.ScoreRoute | router/src/core/psychmod.cpp:64-85 | the selection loop with the corrected overflow rule keeps the first candidate of least score below DBL_MAX |
| Psych.SelectIsBestFitting | router/src/core/psychmod.cpp:71-84 | the corrected selection returns a fitting candidate's truncated cost and usage, no larger than any fitting candidate's score, or (DBL_MAX, 9) when none fits |
| Psych.ScoreCosts | router/src/core/psychmod.cpp:64-85 | `score_route` on coefficient sums scores the model's candidates; the usage lies in [0, k] unless nothing fit |
| Psych.ModelScorerNonNeg | router/src/core/psychmod.cpp:64-85 | every score the model produces is non-negative |
| Psych.ScoreBounds | router/src/core/psychmod.cpp:64-85 | the score is non-negative and the usage lies in [0, k] unless the result is (DBL_MAX, 9) |
| Psych.OnBoth | router/src/core/psychmod.cpp:53-59 | the shared links are links of p that also occur in q, at most as many as p has |
| Psych.OnBothAll | router/src/core/psychmod.cpp:53-59 | a route whose every link lies on q shares all of itself with q |
| Psych.OnBothNone | router/src/core/psychmod.cpp:53-59 | a route with no link on q shares nothing with it |
| Psych.PrefixStep | router/src/core/psychmod.cpp:53-59 | one more link of p adds its coefficients to p's sums, and to the shared sums exactly when it occurs in q |
| Psych.ScoreRoutes | router/src/core/psychmod.cpp:44-62 | `score_route(route&, route&, k)`: sums q, then p and the links of p found in q, and scores those sums |
| Elements.PrecedesStrictOrder | router/src/core/data.cpp:206-208 | `ParetoElement::operator<` (by `k = a * 20000 + b`, line 270) is irreflexive and transitive |
| Elements.Step | router/src/core/data.cpp:209-242 | one link adds its a, b and taud (and the same to the shared parts when shared), nothing for a 0 -> 0 link |
| Elements.Extend | router/src/core/data.cpp:209-221 | `ParetoElement(par, l)`: parent and link recorded, totals grow by the link's costs (nothing for a 0 -> 0 link), shared parts stay 0 |
| Elements.ExtendShared | router/src/core/data.cpp:223-242 | `ParetoElement(par, l, shared)`: all six aggregates copied and the link's costs added to the totals, and to the shared parts exactly when shared |
| Elements.ExtendIsUnshared | router/src/core/data.cpp:209-242 | on a parent without shared costs the two constructors agree |
| Elements.FromAggregates | router/src/core/data.cpp:256-263 | the six-value constructor makes a parentless element with exactly those aggregates |
| Elements.CollectLinks | router/src/core/data.cpp:272-279 | `collectLinks` is empty exactly for a parentless element |
| Elements.CollectLinksLength | router/src/core/data.cpp:272-279 | `collectLinks` yields one link per ancestor edge |
| Elements.CollectLinksWalk | router/src/core/data.cpp:272-279 | the collected links are a walk from the search source to the element's node |
| Elements.CollectLinksStable | router/src/core/data.cpp:272-279 | creating more elements changes no path already built |
| Elements.AggOfPath | router/src/core/data.cpp:223-242 | an element's aggregates are the sums over the links of its path |
| Elements.SharedLinks | router/src/core/data.cpp:236-240 | the shared links of a path are links of it marked shared |
| Elements.SumAggTotals | router/src/core/data.cpp:209-242 | without 0 -> 0 links the summed totals are the route's coefficient sums |
| Elements.SumAggShared | router/src/core/data.cpp:236-240 | without 0 -> 0 links the summed shared parts are the coefficient sums over the shared links |
| Elements.CollectRoute | router/src/core/data.cpp:280-284 | `collectRoute`: a route over the collected links with consistent sums |
| Elements.CollectRouteAgrees | router/src/core/data.cpp:280-284 | the collected route's a and b equal the element's when its path has no 0 -> 0 link |
| Elements.CopyElemAsWritten | router/src/core/data.cpp:244-254 | the copy constructor as written takes `_taud` from the parent's shared taud |
| Elements.CopyLosesTaud | router/src/core/data.cpp:250 | an element with a non-shared taud part is copied with different aggregates |
| Elements.CopyElem | router/src/core/data.cpp:244-254 | corrected copy: every aggregate, the link and the parent's copy kept |
| Elements.DeepCopy | router/src/core/data.cpp:244-254 | the recursive copy appends copies without touching existing elements, and the copy has the original's path and aggregates |
| Fragments.PairFacts | router/src/ssotd/ssotd_nodisjoint.cpp:82-95 | a head/appendix composite adds the head's links then the appendix's, and its six aggregates are the sums the two-argument constructor stores |
| Fragments.MatOfTwo | router/src/ssotd/ssotd_nodisjoint.cpp:92-95 | a composite of two components adds their links in order |
| Fragments.AggOfTwo | router/src/ssotd/ssotd_nodisjoint.cpp:96-133 | the lazily summed aggregates of a two-component composite are the two components' sums |
| Fragments.FragTotals | router/src/ssotd/ssotd_nodisjoint.cpp:37-169 | a fragment's a and b are the coefficient sums over the links it adds, and its shared a and b the sums over its reference-route link fragments |
| Fragments.FragTotalsAll | router/src/ssotd/ssotd_nodisjoint.cpp:96-133 | the same for a sequence of components |
| Fragments.LastDominatedSurvives | router/src/ssotd/ssotd_nodisjoint.cpp:207-231 | as written, a dominated last fragment survives the insertion: `[x, y]` with frag dominating both becomes `[frag, y]` and success is reported |
| Fragments.ScanFacts | router/src/ssotd/ssotd_nodisjoint.cpp:210-227 | the corrected scan keeps only fragments it was given, reports success exactly when nothing remaining dominates frag, and on success keeps frag and exactly the fragments frag does not dominate |
| Fragments.InsertKeepsAntichain | router/src/ssotd/ssotd_nodisjoint.cpp:207-231 | `insert_and_dominate` (corrected) never empties the list, adds frag exactly when nothing dominates it, removes then exactly what frag dominates, and keeps the list free of strong dominance |
| Fragments.InsertedKeeps | router/src/ssotd/ssotd_nodisjoint.cpp:219-229 | a successful insertion keeps a non-dominating list non-dominating |
| Fragments.InsertCovers | router/src/ssotd/ssotd_nodisjoint.cpp:207-231 | after an insertion every fragment the list covered, and the offered fragment, is still in the list or dominated by a member |
| Fragments.PairMonotone | router/src/ssotd/ssotd_nodisjoint.cpp:82-91 | appending the same appendix keeps strong dominance |
| Fragments.FragDomOnAggs | router/src/ssotd/ssotd_nodisjoint.cpp:49-54 | fragment dominance (through `to_par_elem`) compares b, taud and shared a |
| Fragments.FirstDominator | router/src/ssotd/ssotd_nodisjoint.cpp:215 | the first position whose fragment dominates frag, -1 exactly when none does |
| Fragments.NotInsertedKeeps | router/src/ssotd/ssotd_nodisjoint.cpp:215-218 | a rejected fragment leaves a non-dominating list a rotation of itself: its first dominator moves to the front |
| Fragments.ScanUpTo | router/src/ssotd/ssotd_nodisjoint.cpp:210-218 | before the first dominator, with nothing dominated, the scan passes fragments through unchanged |
| Fragments.InsertAndDominate | router/src/ssotd/ssotd_nodisjoint.cpp:207-231 | the loop over the list with the corrected erase computes the corrected insertion |
| Pareto.Child | router/src/ssotd/ssotd_core.cpp:192-193 | the extension of an element along a link has that element as parent and that link as last link, carries the variant's split flag, and adds the link's step to the aggregates (shared parts only under strong dominance) |
| Pareto.AppendLegal | router/src/ssotd/ssotd_core.cpp:186-211 | appending a legal extension keeps the arena legal, changes no existing element's node, and puts the new element at the link's target |
| Pareto.Survivors | router/src/ssotd/ssotd_core.cpp:203-207 | `remove_if` on a frontier keeps exactly the members the new element does not dominate, and keeps them distinct |
| Pareto.OfferKeepsFrontier | router/src/ssotd/ssotd_core.cpp:200-211 | offering an element to a node's frontier keeps it a set of distinct, mutually non-dominated elements at that node, and an accepted element evicts exactly the members it dominates |
| Pareto.StandardPrio | router/src/ssotd/ssotd_core.cpp:110-112 | `standard_prio` serves an entry after another exactly when the other's `k` is smaller |
| Pareto.StandardPrioStrict | router/src/ssotd/ssotd_core.cpp:110-112 | `standard_prio` is irreflexive and transitive |
| Pareto.TopIsTop | router/src/ssotd/ssotd_core.cpp:176-179 | for a strict-order comparator the entry popped is not served after any other queued entry |
| Pareto.Relax | router/src/ssotd/ssotd_core.cpp:186-211 | one relaxation of element p along link l: a child the bound prunes at `qot` changes nothing; otherwise `qot` takes the bound's relaxed value, a child a frontier member dominates is dropped, and any other child joins the arena, evicts the members it dominates from its target's frontier, joins that frontier and is queued; the search invariant is kept, everything covered stays covered, and afterwards the extension is pruned or covered |
| Pareto.Search | router/src/ssotd/ssotd_core.cpp:159-214 | the generic search ends with a legal arena and valid frontiers at every node and a `qot` that only fell to positive values; it stops early only when out of fuel, and when its queue ran empty every followed extension of every arena element is pruned by the bound at the final `qot` or dominated by a member of its target's final frontier |
| Pareto.OfferCovers | router/src/ssotd/ssotd_core.cpp:200-211 | an element a frontier dominated stays dominated after another element is offered to that frontier |
| Pareto.DrainedIsClosed | router/src/ssotd/ssotd_core.cpp:159-214 | once no element is queued and every popped element is closed, every followed extension of every element is pruned or covered |
| Pareto.LegalPaths | router/src/ssotd/ssotd_core.cpp:148-150 | every element's collected links are a walk in the graph from the source to its node, avoid the inactive links and contain no immediate U-turn |
| Pareto.LegalGrownAt | router/src/ssotd/ssotd_core.cpp:192-193 | every element's aggregates are its parent's plus its last link's step, with zero shared parts under weak dominance |
| Pareto.LegalGrown | router/src/ssotd/ssotd_core.cpp:159-214 | the arena's aggregates are the sums over each element's collected links |
| Pareto.SingleSplit | router/src/ssotd/ssotd_core.cpp:301-308 | in the single-split variant every path rejoins the reference route at most once, `hasSplit` holds exactly when it has, and then its last link is a reference link |
| Pareto.LocalOpt | router/src/ssotd/ssotd_core.cpp:159-214 | `pareto_dijkstra_local_opt`: every frontier entry is a non-root element whose links are a walk from the source to that node avoiding the inactive links; frontiers are non-dominated; when its queue ran empty every extension other than a U-turn or one over an inactive link is pruned at the final `qot` or covered by its target's frontier |
| Pareto.LocalOpt4d | router/src/ssotd/ssotd_core.cpp:216-270 | `pareto_dijkstra_local_opt_4d`: frontier entries are walks from the source whose six aggregates are the sums over their links, shared over reference links; when its queue ran empty every extension other than a U-turn (reference links included, counted as shared) is pruned or covered |
| Pareto.LocalOpt4d1D | router/src/ssotd/ssotd_core.cpp:273-331 | `pareto_dijkstra_local_opt_4d_1D`: frontier entries are walks from the source that rejoin the reference route at most once; when its queue ran empty every extension other than a U-turn that the single-split rule allows is pruned or covered |
| Pareto.ParetoDijkstra | router/src/ssotd/ssotd_core.cpp:333-374 | `pareto_dijsktra`: as `LocalOpt` without a bound, `qot` untouched; when its queue ran empty every extension other than a U-turn or one over an inactive link is covered by its target's frontier |
| Pareto.ParetoDijkstra4d | router/src/ssotd/ssotd_core.cpp:376-417 | `pareto_dijsktra_4d`: as `LocalOpt4d` without a bound; when its queue ran empty every extension other than a U-turn is covered |
| Pareto.ParetoDijkstra4d1D | router/src/ssotd/ssotd_core.cpp:420-462 | `pareto_dijsktra_4d_1D`: as `LocalOpt4d1D` without a bound or visit count; when its queue ran empty every extension other than a U-turn that the single-split rule allows is covered |
| NoDisjoint.DijkstraBoundAdmissible | router/src/ssotd/ssotd_nodisjoint.cpp:194-205 | with forward and backward bests that are lower bounds of the route before the anchor and after the target, the costs `lower_bound_score_dijkstra` scores are finite and no more than those of the completed route |
| NoDisjoint.FilledBoundAdmissible | router/src/ssotd/ssotd_nodisjoint.cpp:194-205 | once both fills of the Dijkstra options ran to the end, the bound is admissible for every walk from the origin to the anchor and every walk from the element's node to the destination |
| NoDisjoint.OfferTails | router/src/ssotd/ssotd_nodisjoint.cpp:355-361 | composing one DP fragment with every bridge of a front keeps the row non-dominating and made of walks, keeps every fragment it covered covered, and covers every new composite |
| NoDisjoint.OfferPairs | router/src/ssotd/ssotd_nodisjoint.cpp:353-363 | the same over every fragment of an earlier row and every bridge, and the row becomes non-empty once anything was offered |
| NoDisjoint.BuildRow | router/src/ssotd/ssotd_nodisjoint.cpp:346-363 | row i of the DP is non-empty, non-dominating, made of walks from the start to route position i, and covers (holds or strongly dominates) every fragment assembled from row i-1 plus link i-1 or from any row j < i plus a bridge of front (j, i) |
| NoDisjoint.Combine | router/src/ssotd/ssotd_nodisjoint.cpp:342-375 | the whole DP: row 0 is the empty fragment, every row i is an antichain of fragments from position 0 to position i whose links are walks, and every composition of a fragment of an earlier row with a front between the two positions is dominated by a member of row i |
| NoDisjoint.Ots | router/src/ssotd/ssotd_nodisjoint.cpp:380-383 | one score per fragment of the final row |
| NoDisjoint.Decide | router/src/ssotd/ssotd_nodisjoint.cpp:376-423 | the result is `Decision`: no choice exactly when no fragment scores below the double maximum; otherwise the reference route with usage 0 when the first least score exceeds qot, else that fragment's links and usage |
| NoDisjoint.DecideIsBest | router/src/ssotd/ssotd_nodisjoint.cpp:380-389 | the chosen fragment scores no worse than every fragment of the row and strictly better than every earlier one; none is chosen exactly when all score at least the double maximum |
| NoDisjoint.BoundFor | router/src/ssotd/ssotd_nodisjoint.cpp:245-306 | the unoptimised option (`none`, `hop`) runs unbounded searches and every other accepted option bounded ones |
| NoDisjoint.PrioFor | router/src/ssotd/ssotd_nodisjoint.cpp:245-306 | the queue order of every option is a strict order, and `standard_prio` for every option that is not an A* option |
| NoDisjoint.SsotdRoute | router/src/ssotd/ssotd_nodisjoint.cpp:233-424 | an unknown option gives no result; otherwise the bound at every anchor is `BoundFor` the option over the prepared reference route and the bests `Configure` fills (absent exactly for the options without one), the fronts are those of one anchor search per route position (each closed when its queue ran empty), the rows are the DP over those fronts, and the result is `Decision` on the last row with qot = k times the reference route's latency under k agents: the reference route with usage 0 or a walk between the same ends |
| NoDisjoint.Configure | router/src/ssotd/ssotd_nodisjoint.cpp:245-307 | the context is the prepared reference route (position map and prefix sums, k, the scorer); the anchors' bounds are exactly `BoundFor` the option over that context and the bests, and the order is `PrioFor` the option; the Dijkstra options' bests are the backward bests to b and the forward bests from a, lower bounds of every walk once filled; the airline options' bests are zero; only the options without optimization have no bound |
| NoDisjoint.Ssotd | router/src/ssotd/ssotd_nodisjoint.cpp:426-449 | on success the reference route is a walk of at most the route-size limit, the choice is that route or a walk between its ends, every listed person gets the alternative or the reference route by their last draw against the usage share, every other person keeps their route, and every listed person gets a walk from source to destination |
| OneDisjoint.DijkstraBoundAdmissible | router/src/ssotd/ssotd_onedisjoint.cpp:56-68 | on prepared prefix sums and admissible backward bests, the single-detour bound scores costs no more than those of the route it completes |
| OneDisjoint.FilledBoundAdmissible | router/src/ssotd/ssotd_onedisjoint.cpp:56-68 | on the prepared context with the backward fill run to the end, the bound from an anchor on the route is admissible for every walk from the element's node to the destination |
| OneDisjoint.BoundFor | router/src/ssotd/ssotd_onedisjoint.cpp:121-181 | the unoptimised option runs unbounded searches and every other accepted option bounded ones |
| OneDisjoint.PrioFor | router/src/ssotd/ssotd_onedisjoint.cpp:121-181 | the queue order of every option is a strict order, and `standard_prio` for every option that is not an A* option |
| OneDisjoint.FrontCands | router/src/ssotd/ssotd_onedisjoint.cpp:225 | the candidates of front (i, j) are exactly its bridges, leaving at i and rejoining at j |
| OneDisjoint.CandsOfRowMembers | router/src/ssotd/ssotd_onedisjoint.cpp:223-238 | the inner loop visits exactly the bridges of the fronts (i, j') with i < j' < j |
| OneDisjoint.CandsBelowMembers | router/src/ssotd/ssotd_onedisjoint.cpp:222-239 | the nested loops visit exactly the bridges of every front (i, j) with i < j |
| OneDisjoint.EvaluationOrder | router/src/ssotd/ssotd_onedisjoint.cpp:222-239 | the loops collect the candidates in scan order |
| OneDisjoint.CandOts | router/src/ssotd/ssotd_onedisjoint.cpp:226-229 | one score per candidate |
| OneDisjoint.SharedIsOutside | router/src/ssotd/ssotd_onedisjoint.cpp:226-227 | on prepared prefix sums the shared part of a candidate is the route's cost before position i plus its cost from position j on |
| OneDisjoint.SpliceIsWalk | router/src/ssotd/ssotd_onedisjoint.cpp:264-270 | splicing a bridge of a well-formed front into the route gives a walk between the route's ends whose links off the route are exactly the bridge's |
| OneDisjoint.Decide | router/src/ssotd/ssotd_onedisjoint.cpp:214-275 | the result is `Decision`: when no candidate scores below the double maximum the best score is the double maximum, so the result is the reference route with usage 0 when the double maximum exceeds qot and no choice only when it does not; otherwise the reference route with usage 0 when the first least score exceeds qot, else the splice of that candidate and its usage |
| OneDisjoint.DecideIsBest | router/src/ssotd/ssotd_onedisjoint.cpp:230-236 | the chosen candidate scores no worse than all candidates and strictly better than every earlier one |
| OneDisjoint.OffRouteNodeCounted | router/src/ssotd/ssotd_onedisjoint.cpp:84 | as written, the crossing test counts a detour node that is off the route: the detour 0 -> 5 -> 1 around route 0 -> 1 reports one crossing instead of none |
| OneDisjoint.NoCrossesIffNoTouch | router/src/ssotd/ssotd_onedisjoint.cpp:72-87 | the corrected crossing count is zero exactly when no link continuing a detour starts at a node of the reference route |
| OneDisjoint.OnRouteStep | router/src/ssotd/ssotd_onedisjoint.cpp:93-100 | one more link adds its costs to the reference-link sums exactly when it is a reference link |
| OneDisjoint.SanityCheck1D | router/src/ssotd/ssotd_onedisjoint.cpp:70-109 | the check reports the detour count, the corrected crossing count, the recomputed total and shared costs, whether they match the route's stored sums, and whether rescoring reproduces the given score and usage |
| OneDisjoint.CountStretches | router/src/ssotd/ssotd_onedisjoint.cpp:72-87 | the first loop counts the detours and the crossings |
| OneDisjoint.RecomputeCosts | router/src/ssotd/ssotd_onedisjoint.cpp:92-100 | the second loop sums all links' costs and the reference links' costs |
| OneDisjoint.NoSplitsOnRoute | router/src/ssotd/ssotd_onedisjoint.cpp:75-83 | no detour is counted exactly when every link is a reference link |
| OneDisjoint.SplitsSingle | router/src/ssotd/ssotd_onedisjoint.cpp:75-83 | with exactly one link starting a detour the count is one |
| OneDisjoint.SpliceSplitsOnce | router/src/ssotd/ssotd_onedisjoint.cpp:264-271 | every splice of a well-formed front leaves the route once (none for an empty bridge) |
| OneDisjoint.SsotdRoute | router/src/ssotd/ssotd_onedisjoint.cpp:111-276 | an unknown option gives no result; otherwise the prefix sums are those of the reference route, the bound at every anchor is `BoundFor` the option over the prepared route and the backward bests (absent exactly for the option without one), the fronts are those of one anchor search per route position, and the result is `Decision` on the candidates below the double maximum with qot = k times the reference route's latency: the reference route with usage 0 or a walk between its ends that leaves the route at most once |
| OneDisjoint.Configure | router/src/ssotd/ssotd_onedisjoint.cpp:121-182 | the context is the prepared reference route and the returned prefix sums are its sums of a and b; the bounds are exactly `BoundFor` the option, the order `PrioFor` the option; the Dijkstra options' bests are the backward bests to b, lower bounds of every walk to b once filled; the airline options' bests are zero; only the option without optimization has no bound |
| OneDisjoint.Evaluate | router/src/ssotd/ssotd_onedisjoint.cpp:214-275 | the evaluation is `Decision` on the fronts' candidates below the double maximum: the reference route or a walk between its ends with at most one detour |
| OneDisjoint.Ssotd | router/src/ssotd/ssotd_onedisjoint.cpp:278-302 | on success the reference route is a walk of at most the route-size limit, the choice is that route or a walk between its ends, every listed person gets the alternative or the reference route by their last draw against the usage share, every other person keeps their route, and every listed person gets a walk from source to destination |
| NewDisjoint.DijkstraBoundAdmissible | router/src/ssotd/ssotd_newnodisjoint.cpp:38-49 | with admissible backward bests at the target, the bound scores costs no more than those of any completion of the element |
| NewDisjoint.FilledBoundAdmissible | router/src/ssotd/ssotd_newnodisjoint.cpp:38-49 | with the backward fill run to the end, the bound is admissible for every walk from the element's node to the destination |
| NewDisjoint.FrontOts | router/src/ssotd/ssotd_newnodisjoint.cpp:87-90 | one score per element of the destination's frontier |
| NewDisjoint.DecideFront | router/src/ssotd/ssotd_newnodisjoint.cpp:81-123 | an empty frontier gives the reference route with usage 0; otherwise no choice exactly when no element scores below the double maximum, the reference route when the best score exceeds qot, else the best element's links and usage |
| NewDisjoint.DecideFrontIsBest | router/src/ssotd/ssotd_newnodisjoint.cpp:87-96 | the chosen element scores no worse than every element of the frontier and strictly better than every earlier one |
| NewDisjoint.Prepare | router/src/ssotd/ssotd_newnodisjoint.cpp:53-68 | qot is k times the latency of the reference route under k agents; the context is the prepared reference route; the bound is `DijkstraBound` from a over the backward bests to b (lower bounds of every walk to b once filled) and the order is `AstarPrioDijkstra`, a strict order |
| NewDisjoint.SsotdRouteAnyDetour | router/src/ssotd/ssotd_newnodisjoint.cpp:52-124 | the bound is `DijkstraBound` from a over the prepared reference route and the backward bests to b; the search run from a is well formed and, when its queue ran empty, closed under that bound at the final `qot`; the result is `DecisionFront` on b's frontier with qot = k times the reference latency: the reference route with usage 0, or a walk from a to b whose usage is that of its own sums and its sums over reference links |
| NewDisjoint.SsotdRouteOneDetour | router/src/ssotd/ssotd_newonedisjoint.cpp:92-163 | as the any-detour search, with the same `DijkstraBound`, and the single-split rule: closed when complete, the result is `DecisionFront` on b's frontier: the reference route with usage 0, or a walk from a to b that rejoins the reference route at most once |
| NewDisjoint.Ssotd | router/src/ssotd/ssotd_newnodisjoint.cpp:126-146 | on success the reference route is a non-empty walk, the choice is that route or a walk between its ends, every listed person gets the alternative or the reference route by their last draw against the usage share, every other person keeps their route, and every listed person gets a walk from source to destination |
| FullDisjoint.DijkstraBound | router/src/ssotd/ssotd_fulldisjoint.cpp:29-36 | the relaxation value is -1 except at the destination, where it is the score itself; an infinite score comes with relaxation value -1 |
| FullDisjoint.FrontOts | router/src/ssotd/ssotd_fulldisjoint.cpp:81-82 | one score per element of the destination's frontier |
| FullDisjoint.DecideFull | router/src/ssotd/ssotd_fulldisjoint.cpp:62-98 | an empty frontier gives the reference route with usage 0; otherwise the least-scoring element, replaced by the reference route when its score exceeds qot |
| FullDisjoint.SsotdRoute | router/src/ssotd/ssotd_fulldisjoint.cpp:38-99 | the bound is `DijkstraBound` to b over the backward bests to b (lower bounds of every walk to b once filled); the search from a avoids every reference link and, when its queue ran empty, is closed under that bound; the result is `DecisionFull` on b's frontier: the reference route with usage 0 or a walk from a to b that shares no link with it |
| FullDisjoint.Ssotd | router/src/ssotd/ssotd_fulldisjoint.cpp:101-122 | on success the reference route is a non-empty walk, the choice is that route or a walk between its ends, every listed person gets the alternative or the reference route by their last draw against the usage share, every other person keeps their route, and every listed person gets a walk from source to destination |
| DijkstraAll.AssignAll | router/src/ssotd/ssotd_dijkstraAll.cpp:82-83 | every listed person gets the route, every other person keeps theirs, and no one else is added |
| DijkstraAll.RouteGroup | router/src/ssotd/ssotd_dijkstraAll.cpp:71-84 | every listed person gets the same walk from source to destination in the graph, everyone else keeps their route, and the reported score is k times that route's latency under k agents |
| ShortestPaths.MinIndex | router/src/ssotd/ssotd_core.cpp:52-53 | the min-queue pops a smallest (distance, node) pair |
| ShortestPaths.Explore | router/src/ssotd/ssotd_core.cpp:46-68 | the search loop keeps the source at distance 0 and every predecessor record an active graph link from a reached node; when the queue drains every reached node satisfies the triangle inequality along every active link; when it stops at `stop` that node is reached |
| ShortestPaths.RelaxLinks | router/src/ssotd/ssotd_core.cpp:58-67 | relaxing the links of a popped node keeps the labels and queue invariants and leaves the node relaxed |
| ShortestPaths.Improve | router/src/ssotd/ssotd_core.cpp:61-65 | one improvement (new distance, predecessor, push) keeps the loop invariant of the relaxation |
| ShortestPaths.ImproveLabels | router/src/ssotd/ssotd_core.cpp:61-65 | an improvement keeps every predecessor record proper |
| ShortestPaths.ImprovePending | router/src/ssotd/ssotd_core.cpp:62-64 | the pushed pair keeps every reached node relaxed or pending in the queue |
| ShortestPaths.LowerKeepsRelaxed | router/src/ssotd/ssotd_core.cpp:62-63 | lowering one node's distance keeps every other node's relaxation |
| ShortestPaths.ForwardLowerBound | router/src/ssotd/ssotd_core.cpp:87-108 | after a drained forward search every node an active walk from the source reaches is reached, at a distance no greater than that walk's weight |
| ShortestPaths.BackwardLowerBound | router/src/ssotd/ssotd_core.cpp:87-108 | the same for a backward search over the inverted lists: every active walk to the destination bounds the start node's distance |
| ShortestPaths.WSumA | router/src/core/data.cpp:95-100 | summing the a (b) coefficients as weights gives the route's a (b) sums |
| ShortestPaths.Reconstruct | router/src/ssotd/ssotd_core.cpp:75-84 | following the predecessors back from b yields a non-empty walk from a to b in the graph (or runs out of its bound) |
| ShortestPaths.Dijkstra | router/src/ssotd/ssotd_core.cpp:41-85 | `dijkstra`: a found route is a non-empty walk from a to b in the graph that avoids the reference route's links; the exit for a missing route happens only when a == b or b is unreachable |
| ShortestPaths.DijkstraAll | router/src/ssotd/ssotd_dijkstraAll.cpp:32-69 | `dijkstra_all`: the same with latency weights and no inactive links |
| ShortestPaths.ShortestRoute | router/src/ssotd/ssotd_core.cpp:41-85 | the shared search and reconstruction give a walk from a to b avoiding the skipped links, or report b unreachable only when it is |
| ShortestPaths.DijkstraForOpt | router/src/ssotd/ssotd_core.cpp:87-108 | `dijkstra_for_opt`: the source is at 0, distances are non-negative, and a drained queue leaves the triangle inequality along every active link |
| ShortestPaths.Invert | router/src/ssotd/ssotd_core.cpp:506-510 | the inverted lists hold exactly the graph's links, each under its `to` node |
| ShortestPaths.BestPars.FillBestParsDijkstra | router/src/ssotd/ssotd_core.cpp:505-513 | `fill_best_pars_dijkstra`: bests are 0 at the destination and, after complete searches, finite lower bounds of the a and b sums of every active walk to the destination |
| ShortestPaths.BestPars.FillBestParsForward | router/src/ssotd/ssotd_core.cpp:515-518 | `fill_best_pars_dijkstra_forward`: the same for walks from the origin |
| ShortestPaths.BestPars.GetLazyAirval | router/src/ssotd/ssotd_core.cpp:483-492 | `get_lazy_airval`: returns the cache entry after the lazy fill, and a non-zero b bound is returned unchanged |
| ShortestPaths.ArtificialLink | router/src/ssotd/ssotd_core.cpp:472-481 | the artificial link runs from `from` to `to` with the airline length |
| ShortestPaths.LazyAirval | router/src/ssotd/ssotd_core.cpp:483-492 | the lazy fill changes only the asked node's entry, and only when its b bound is 0 |
| ShortestPaths.LazyAirvalIdempotent | router/src/ssotd/ssotd_core.cpp:483-492 | asking twice for the same node leaves the cache as asking once |
| Reference.IndexMapOnto | router/src/ssotd/ssotd_core.cpp:537-544 | writing positions onto a map adds exactly the listed nodes, each at its last position in the list, and keeps other entries |
| Reference.RouteIndexExact | router/src/ssotd/ssotd_core.cpp:537-544 | the position map of a route knows exactly its nodes, each at its last position on the route |
| Reference.StaleIndexSurvives | router/src/ssotd/ssotd_core.cpp:537-544 | as written, the map is never cleared: after routes 0-5-6-7 and then 0-1, node 7 is still mapped, to position 3, beyond the second route's end |
| Reference.FirstFrom | router/src/ssotd/ssotd_core.cpp:530-533 | the first position at or after i holding v, or -1 when there is none |
| Reference.IsOrigNode | router/src/ssotd/ssotd_core.cpp:527-535 | `is_orig_node` is -1 exactly for nodes off the route, and otherwise the first position of the node on the route |
| Reference.ReferenceRoute.Prepare | router/src/ssotd/ssotd_core.cpp:537-555 | `prepare_original_route` marks every route link inactive, maps each route node to its last position, and fills the prefix sums of length, a and b |
| Reference.ReferenceRoute.IndexInOriginal | router/src/ssotd/ssotd_core.cpp:520-525 | `index_in_original` on a prepared route is -1 exactly for nodes off the route, otherwise the node's last position on it |
| Reference.ReferenceRoute.ScoreForRelax | router/src/ssotd/ssotd_core.cpp:557-567 | `score_for_relax` is -1 for a negative target index, defined for in-range indices, and otherwise -1 or at least 10 |
| Reference.RelaxFromPrefix | router/src/ssotd/ssotd_core.cpp:557-567 | the same computation on given prefix vectors |
| Reference.ScoreForRelaxOnRoute | router/src/ssotd/ssotd_core.cpp:557-567 | on a prepared route, the relaxation value is that of the element completed by the route before idc and after idv |
| Reference.RelaxOnPrefix | router/src/ssotd/ssotd_core.cpp:559-566 | the same on prefix vectors that hold the route's prefix sums |
| Reference.PositionMap | router/src/ssotd/ssotd_core.cpp:538-544 | the map loop computes the route's position map |
| Reference.MarkInactive | router/src/ssotd/ssotd_core.cpp:540-543 | the marking loop adds exactly the route's link ids |
| Reference.PrefixSums | router/src/ssotd/ssotd_core.cpp:547-554 | the prefix vectors have one more entry than the route, entry i summing length, a and b of the first i links |
| Reference.OutsideDetour | router/src/ssotd/ssotd_core.cpp:560-561 | prefix[idc] + total - prefix[idv] is the cost of the route outside the stretch from idc to idv |
| Reference.IndexAgreesWithIsOrigNode | router/src/ssotd/ssotd_core.cpp:520-535 | on a route that visits no node twice, `index_in_original` and `is_orig_node` agree |
| Reference.CheckRouteSanity | router/src/ssotd/ssotd_core.cpp:569-578 | the sanity check reports nothing exactly when every link starts where the previous one ended |
| SsotdShared.BoundValue | router/src/ssotd/ssotd_nodisjoint.cpp:171-205 | the lower-bound pair is (score, relaxation value) when the completed element has positive usage and (HUGE_VAL, -1) otherwise; its relaxation value is -1 or at least 10 |
| SsotdShared.AstarPrioDijkstra | router/src/ssotd/ssotd_core.cpp:122-129 | `astar_prio_dijkstra`, which compares the (score, usage) pairs of the two entries completed by the backward bests, is a strict order (irreflexive and transitive), as the priority queue needs |
| SsotdShared.AstarPrioAirline | router/src/ssotd/ssotd_core.cpp:137-146 | `astar_prio_airline`, the same comparison with the airline coefficients to the destination, is a strict order |
| SsotdShared.KeyedStrict | router/src/ssotd/ssotd_core.cpp:122-146 | comparing two queue entries by the lexicographic `>` of a (score, usage) key of each is a strict order |
| SsotdShared.ScoredAboveStrict | router/src/ssotd/ssotd_core.cpp:122-146 | the comparison the A* orders use is irreflexive, transitive and asymmetric |
| SsotdShared.ParseOptimization | router/src/ssotd/ssotd_nodisjoint.cpp:245-306 | `none` and `hop` select the unoptimised search, the five other option strings their searches, and any other string none |
| SsotdShared.Trim | router/src/ssotd/ssotd_nodisjoint.cpp:455-458 | an all-blank argument has no trimmed form (the `substr` throws); otherwise the result is non-empty, starts and ends with a non-blank and is the argument with blanks removed at both ends |
| SsotdShared.FirstNonBlank | router/src/ssotd/ssotd_nodisjoint.cpp:456 | `find_first_not_of`: the first non-blank position at or after i, or the length |
| SsotdShared.LastNonBlank | router/src/ssotd/ssotd_nodisjoint.cpp:457 | `find_last_not_of`: the last non-blank position below n, or -1 |
| SsotdShared.TrimIdempotent | router/src/ssotd/ssotd_nodisjoint.cpp:455-458 | trimming a trimmed option changes nothing |
| SsotdShared.OptionArgument | router/src/ssotd/ssotd_nodisjoint.cpp:453-460 | "none" without an argument, otherwise the trimmed first argument |
| SsotdShared.PidsWithFacts | router/src/ssotd/ssotd_nodisjoint.cpp:462-467 | a group holds exactly the persons with its (origin, destination, time) key, in increasing id order |
| SsotdShared.PidsWithNone | router/src/ssotd/ssotd_nodisjoint.cpp:462-467 | a key no person has gets the empty group |
| SsotdShared.GroupPersons | router/src/ssotd/ssotd_nodisjoint.cpp:462-467 | the grouping loop creates a group exactly for every key some person has, holding that key's persons in increasing id order |
| SsotdShared.AnchorSearch | router/src/ssotd/ssotd_nodisjoint.cpp:312-320 | one anchor search yields frontiers of walks from the anchor avoiding the inactive links, lowers the shared upper bound only to positive values, and when complete every extension is pruned by the anchor's bound at the new upper bound or covered by its target's frontier |
| SsotdShared.AddFronts | router/src/ssotd/ssotd_nodisjoint.cpp:323-327 | an anchor's search adds exactly the fronts (lid, i) for every later position i, each the frontier that search left at the node of position i, and keeps earlier fronts |
| SsotdShared.AssembleFronts | router/src/ssotd/ssotd_nodisjoint.cpp:308-328 | after the anchor loop the fronts are exactly the keys (j, i) with j < i, each the frontier the search from position j left at the node of position i, each a list of walks off the reference route; each anchor's search is closed when complete, and the loop is complete exactly when every search is |
| SsotdShared.Assign | router/src/ssotd/ssotd_nodisjoint.cpp:441-446 | every listed person gets the alternative when their last draw is below the usage share and the reference route otherwise, nobody else changes, and nobody is added |
| SsotdShared.AssignedWalks | router/src/ssotd/ssotd_nodisjoint.cpp:441-446 | when the alternative and the reference route are both walks from s to t, every listed person ends with a walk from s to t |
| BucketQueue.FlatOrdered | router/include/ea_shared/dijkstra_prio_queue.h:19-27 | scanning buckets in order hands out priorities in non-decreasing order, all within the scanned range |
| BucketQueue.FlatPush | router/include/ea_shared/dijkstra_prio_queue.h:58 | appending to a bucket at or above the pointer adds exactly that entry to what the queue holds |
| BucketQueue.PushFlat | router/include/ea_shared/dijkstra_prio_queue.h:51-60 | a push at or above the pointer adds exactly its entry to what the queue hands out; one below the pointer is never handed out |
| BucketQueue.DijkPQ.constructor | router/include/ea_shared/dijkstra_prio_queue.h:17 | a new queue has the given number of empty buckets and holds nothing |
| BucketQueue.DijkPQ.GetSize | router/include/ea_shared/dijkstra_prio_queue.h:49 | the bucket count is positive and exceeds every priority pushed |
| BucketQueue.DijkPQ.Push | router/include/ea_shared/dijkstra_prio_queue.h:51-60 | the bucket vector grows to max(p + 1, 2 * size) when p does not fit, v is appended to bucket p, nothing else changes, and the pending entries gain (p, v) when p is at or above the pointer |
| BucketQueue.DijkPQ.Top | router/include/ea_shared/dijkstra_prio_queue.h:19-27 | the pointer only advances, nothing pending changes, and the result is (-1, -1) when nothing is pending, else the first pending entry, whose priority is the least pending |
| BucketQueue.DijkPQ.Pop | router/include/ea_shared/dijkstra_prio_queue.h:29-37 | removes exactly the first pending entry, and changes nothing pending when the queue is empty |
| BucketQueue.DijkPQ.Empty | router/include/ea_shared/dijkstra_prio_queue.h:39-47 | true exactly when nothing is pending, without changing what is pending |
| EaData.ByScoreIsStrictWeak | router/include/ea/ea_data.h:20 | `individual::operator<` (by score) is a strict weak order, as the sorts of the islands need |
| EaUtil.CircleScanWalk | router/src/ea/ea_util.cpp:181-193 | erasing circles only removes links and keeps a walk a walk between the same endpoints |
| EaUtil.CircleScanNoRepeat | router/src/ea/ea_util.cpp:181-193 | with the scan restarted at position 0 after an erase, the result leaves no node as the source of two links |
| EaUtil.DeleteCircleLoop | router/src/ea/ea_util.cpp:181-193 | the erase loop computes the scan, never lengthens the route, keeps walks, and (restarted at 0) leaves no repeated source |
| EaUtil.CircleSurvivesRestart | router/src/ea/ea_util.cpp:189-190 | as written (`i = 0` and then `i++`), the scan resumes at position 1: on the walk 1-2-3-2-1-4 the circle 2-3-2 is erased and the circle 1-2-1 survives |
| EaUtil.FindInVector | router/src/ea/ea_util.cpp:153-169 | (true, first index of x) when x is present, (false, -1) otherwise |
| EaUtil.SetIntersectionCounts | router/src/ea/ea_util.cpp:178 | on sorted inputs `std::set_intersection` keeps each value as often as both inputs hold it |
| EaUtil.SetIntersectionSorted | router/src/ea/ea_util.cpp:178 | on sorted inputs the intersection is sorted |
| EaUtil.Intersection | router/src/ea/ea_util.cpp:171-179 | `intersection` is sorted and holds each value as often as both vectors hold it |
| EaUtil.CountPositive | router/src/ea/ea_util.cpp:207-210 | a link occurs in a sequence exactly when its count is positive |
| EaUtil.Distinct | router/src/ea/ea_util.cpp:206-211 | the map's keys: every link that occurs, each once |
| EaUtil.SharedSumZero | router/src/ea/ea_util.cpp:214-219 | the shared sum is zero exactly when no key occurs more than once |
| EaUtil.OccurrenceScoreZero | router/src/ea/ea_util.cpp:205-224 | the distance score is never negative, and zero exactly when no link occurs twice |
| EaUtil.BumpCounts | router/src/ea/ea_util.cpp:209 | counting one more occurrence keeps the map exact, and a new link becomes the last key |
| EaUtil.CountInto | router/src/ea/ea_util.cpp:207-211 | the counting loop over one route keeps the map exact and the keys the distinct links in order |
| EaUtil.DistScoreRoutes | router/src/ea/ea_util.cpp:205-224 | `distScoreRoutes` is the shared sum of squared counts over the number of single-use links (1 when there are none); never negative, and zero exactly when no link is used twice |
| EaUtil.SumCounts | router/src/ea/ea_util.cpp:213-220 | the second loop counts the single-use links and sums the squared counts of the others |
| EaUtil.GetBestIndividual | router/src/ea/ea_util.cpp:134-144 | the island whose first parent has the least score, the earliest on ties |
| EaUtil.RouteLatencyAtLeastFreeFlow | router/src/ea/ea_util.cpp:197-203 | a route's latency under any flow is at least its free-flow time, and equals it when none of its links carries flow |
| EaUtil.RouteLatencySameFlows | router/src/ea/ea_util.cpp:197-203 | flow maps that read the same give every route the same latency |
| EaUtil.RouteLatency | router/src/ea/ea_util.cpp:197-203 | `route_latency` sums the links' latencies under their flows; the lookups add zero entries for missing links and change no route's latency |
| EaUtil.MaxOf | router/src/ea/ea_util.cpp:130 | `max_element`: a member no smaller than any other |
| EaUtil.DetermineQueueSize | router/src/ea/ea_util.cpp:124-132 | the queue size is at least the minimum, covers every route's scaled truncated latency, and is the minimum or one of those |
| EaScoring.CarriedAdd | router/src/ea/ea_scoring.cpp:46-53 | the flow a route puts on a link is additive in the route's flow |
| EaScoring.CarriedNonNeg | router/src/ea/ea_scoring.cpp:46-53 | a route with non-negative flow puts non-negative flow on every link |
| EaScoring.CarriedDistinct | router/src/ea/ea_scoring.cpp:46-53 | a route that visits no link twice puts its flow on each of its links exactly once and none elsewhere |
| EaScoring.EdgeFlowNonNeg | router/src/ea/ea_scoring.cpp:46-53 | non-negative route flows cause non-negative edge flows |
| EaScoring.EdgeFlowSingle | router/src/ea/ea_scoring.cpp:18-44 | when only route c has flow v, every edge flow is what v agents on route c carry |
| EaScoring.EdgeFlowBump | router/src/ea/ea_scoring.cpp:298-302 | adding d agents to route c adds exactly what d agents on route c carry to every edge flow |
| EaScoring.AddRouteFlow | router/src/ea/ea_scoring.cpp:49-51 | adding one route's flow creates the entries of its links (missing ones from 0) and raises each link by the route flow once per occurrence |
| EaScoring.CalcEdgeFlow | router/src/ea/ea_scoring.cpp:46-53 | `calcEdgeFlow` changes only the edge flows, and afterwards they are exactly those the route flows cause |
| EaScoring.EdgeFlows | router/src/ea/ea_scoring.cpp:46-53 | the accumulated map has an entry for exactly the links of the routes, each holding the flow the route flows cause |
| EaScoring.SumZeros | router/src/ea/ea_scoring.cpp:21-23 | the reset route flows sum to 0 |
| EaScoring.SumSingle | router/src/ea/ea_scoring.cpp:40-41 | route flows that are zero except for v on one route sum to v |
| EaScoring.FreeFlowTimes | router/src/ea/ea_scoring.cpp:29-34 | one free-flow travel time per route |
| EaScoring.ZeroEdgeFlow | router/src/ea/ea_scoring.cpp:24-28 | the reset edge flows hold a 0 entry for exactly the links of the routes |
| EaScoring.Latencies | router/src/ea/ea_scoring.cpp:203-207 | every route's latency under the edge flows, the reads only adding zero entries for the routes' links and changing no reading |
| EaScoring.CalcInitialUsage | router/src/ea/ea_scoring.cpp:18-44 | `calcInitialUsage` clears the old usage and puts all k agents on the first route of least free-flow time, every link of the routes having an edge flow that is k on that route and 0 elsewhere |
| EaScoring.AllLinksContains | router/src/ea/ea_scoring.cpp:24-28 | every link of every route is among the links the scorer enumerates |
| EaScoring.InitialUsageAgrees | router/src/ea/ea_scoring.cpp:18-44 | the initial usage sends exactly k agents, none of its flows is negative when k is not, and on a route without repeated links its edge flows are those its route flows cause |
| EaScoring.InitialFlowsAgree | router/src/ea/ea_scoring.cpp:18-44 | on a chosen route without repeated links the initial edge flows are those the initial route flows cause |
| EaScoring.CaptureOldUsage | router/src/ea/ea_scoring.cpp:55-63 | `captureOldUsage` changes only the old usage: it overwrites the old edge flows with the current ones and the first \|routes\| old route flows with the current ones |
| EaScoring.CopyEdgeFlows | router/src/ea/ea_scoring.cpp:57-59 | copying entry by entry gives the target overridden by the source |
| EaScoring.CopyRouteFlows | router/src/ea/ea_scoring.cpp:60-62 | copying the first n route flows replaces exactly those and keeps the rest |
| EaScoring.PolySlope | router/src/ea/ea_scoring.cpp:70-79 | for one link, latency at the interpolated flow times the flow difference is the quadratic a·d³·γ² + 2a·x·d²·γ + (a·x² + b)·d |
| EaScoring.LinkSlopeIsQuadratic | router/src/ea/ea_scoring.cpp:70-79 | each link's coefficients are those of its term of the objective's derivative along the segment |
| EaScoring.SlopeIsQuadratic | router/src/ea/ea_scoring.cpp:65-103 | the accumulated coefficients are those of the derivative of the objective along the segment, so a root is a stationary point |
| EaScoring.LineSearch | router/src/ea/ea_scoring.cpp:65-103 | `lineSearch` returns the first reported root inside [min, max], otherwise the second, otherwise whichever end has the smaller objective (max on ties), so the step is always a root or an end of the interval and lies in it |
| EaScoring.AccumulateCoeffs | router/src/ea/ea_scoring.cpp:70-79 | the first loop computes the slope's coefficients over all entries |
| EaScoring.EndObjectives | router/src/ea/ea_scoring.cpp:85-95 | the second loop computes the objective at both ends of the interval |
| EaScoring.SameReadings | router/src/ea/ea_scoring.cpp:105-116 | target maps that read the same on every link give the same coefficients, objective and slope |
| EaScoring.FindGamma | router/src/ea/ea_scoring.cpp:105-116 | `findGamma` performs the line search over [0, 1] towards all k agents on the chosen route, so the step is in [0, 1] and is a root of that quadratic or an end of the interval |
| EaScoring.SumScaled | router/src/ea/ea_scoring.cpp:181-187 | scaling every route flow scales their sum |
| EaScoring.Interpolate | router/src/ea/ea_scoring.cpp:181-187 | the step multiplies every route flow by keep and adds gain to the chosen route, so the total becomes keep·total + gain, and non-negative shares keep every flow non-negative |
| EaScoring.InterpolateSum | router/src/ea/ea_scoring.cpp:181-187 | after a step the total flow is keep·total + gain |
| EaScoring.InterpolateNonNeg | router/src/ea/ea_scoring.cpp:181-187 | non-negative shares keep non-negative route flows non-negative |
| EaScoring.StepShares | router/src/ea/ea_scoring.cpp:181-187 | with keep = 1 - γ and gain = γ·k a step keeps the k agents, and with γ in [0, 1] neither share is negative |
| EaScoring.SquaredErrors | router/src/ea/ea_scoring.cpp:209-214 | one squared deviation from the mean per route latency |
| EaScoring.SquaredErrorsZero | router/src/ea/ea_scoring.cpp:209-214 | latencies equal to the reference leave no squared error |
| EaScoring.SumConstant | router/src/ea/ea_scoring.cpp:209-211 | n equal latencies v sum to n·v |
| EaScoring.MeanConstant | router/src/ea/ea_scoring.cpp:209-211 | equal latencies have that latency as their mean |
| EaScoring.RmseZeroAtEquilibrium | router/src/ea/ea_scoring.cpp:209-226 | at the user equilibrium, where all route latencies are equal, the mean is that latency, no squared error remains and the error is the square root of 0 |
| EaScoring.CostNonNeg | router/src/ea/ea_scoring.cpp:267-272 | no negative edge flow gives no negative total travel time |
| EaScoring.TotalCost | router/src/ea/ea_scoring.cpp:267-272 | the score is the sum over the edge-flow entries of flow times latency at that flow, not negative when no flow is |
| EaScoring.SmallLimitNotReported | router/src/ea/ea_scoring.cpp:255-260 | as written, a scorer whose limit is 50 that stops after 50 iterations does not report reaching its limit |
| EaScoring.HardlimitFlag | router/src/ea/ea_scoring.cpp:255-260 | the corrected flag holds exactly when the scorer's own limit is reached, and agrees with the code as written when that limit is the default |
| EaScoring.SameUsage | router/src/ea/ea_scoring.cpp:189-207 | re-reading the edge flows without changing a value keeps them agreeing with the route flows and non-negative |
| EaScoring.AgreeNonNeg | router/src/ea/ea_scoring.cpp:189 | non-negative route flows that the edge flows agree with give non-negative edge flows |
| EaScoring.ChooseStep | router/src/ea/ea_scoring.cpp:167-179 | the chosen route has the least latency, the first such, and the step is in [0, 1]; the edge flows keep their readings and entries |
| EaScoring.Advance | router/src/ea/ea_scoring.cpp:181-207 | a step changes only the usage, keeps the k agents, scales the other routes by 1 - γ, keeps flows non-negative, recomputes edge flows that agree with the route flows, and reads every route's latency under them |
| EaScoring.Tally | router/src/ea/ea_scoring.cpp:228-250 | the below-ten counter counts consecutive errors under 10 and resets otherwise; the unchanged counter counts consecutive equal rounded errors and resets, recording the new rounded error, otherwise |
| EaScoring.ScoreFrankWolfe | router/src/ea/ea_scoring.cpp:143-274 | the Frank-Wolfe scorer keeps the routes, sends exactly k agents, runs at most its limit of iterations (at least one when the limit is positive), reports the limit as reached exactly when the iteration count reached the scorer's own limit (the corrected flag, see Findings), leaves edge flows that agree with the route flows, and scores the total travel time of those flows, not negative when k is not |
| EaScoring.ZeroFlowsAgree | router/src/ea/ea_scoring.cpp:279-287 | zero route flows agree with zero edge flows |
| EaScoring.CalculateUsage | router/src/ea/ea_scoring.cpp:276-304 | the simulation sends the k agents one at a time, each to the first route of least latency under the flows of the agents before it (`SimFlows`), changes only the usage, and leaves route flows summing to k (0 when k is not positive) and non-negative edge flows that agree with them |
| EaScoring.SendOne | router/src/ea/ea_scoring.cpp:290-302 | one agent joins the first route of least latency under the route flows and the edge flows keep agreeing with the route flows |
| EaScoring.SimStep | router/src/ea/ea_scoring.cpp:290-296 | under edge flows that agree with the route flows, `min_element` over the latencies read from the edge flows picks the route the simulation's reference definition picks |
| EaScoring.LeastLatencyRouteIsFirst | router/src/ea/ea_scoring.cpp:296 | the chosen route has no more latency than any route and strictly less than every route before it |
| EaScoring.LatencyUnderAgreement | router/src/ea/ea_scoring.cpp:293-295 | `route_latency` read from edge flows that agree with the route flows equals the route's latency under those route flows |
| EaScoring.SimFlowsSum | router/src/ea/ea_scoring.cpp:290-302 | after i agents the route flows sum to i and none is negative |
| EaScoring.ScoreSimulation | router/src/ea/ea_scoring.cpp:306-325 | the simulation scorer keeps routes and old usage, leaves the route flows `SimFlows` gives, and scores the total travel time of the usage the simulation leaves, which is never negative |
| EaIslands.MinScore | router/src/ea/ea_islands.cpp:135-136 | the least score is a lower bound on the scores and is the score of one of the individuals |
| EaIslands.RoundMonotone | router/src/ea/ea_islands.cpp:135-145 | `std::round` never decreases, so comparing rounded scores respects the order of scores |
| EaIslands.SortedHeadIsMin | router/src/ea/ea_islands.cpp:124-136 | after sorting by score the first individual has the least score |
| EaIslands.HeadIsMin | router/src/ea/ea_islands.cpp:124-136 | in a sequence sorted by score no element scores below the head |
| EaIslands.ImprovesOnBest | router/src/ea/ea_islands.cpp:135-147 | the crossover offspring are let in exactly when the rounded score of their best is strictly below the rounded score of the best parent (the two identical parent tests collapse into one) |
| EaIslands.RankedIsSortedPool | router/src/ea/ea_islands.cpp:149-168 | the merged ranking is a permutation of the competitors (parents, offspring and, when admitted, crossover offspring), in score order, at least as long as the parents |
| EaIslands.SurvivorsAreBest | router/src/ea/ea_islands.cpp:120-174 | the next parents are as many as before, sorted, drawn from the competitors, and no competitor left out scores below any survivor |
| EaIslands.PrefixIsBest | router/src/ea/ea_islands.cpp:171 | moving the front of a sorted ranking keeps it sorted, splits the ranking, and leaves nothing behind the cut better than anything in front |
| EaIslands.BestSurvivor | router/src/ea/ea_islands.cpp:120-174 | the returned best individual has the least score of all competitors, so an island's best score never gets worse, and when the crossover offspring are admitted its rounded best score strictly improves |
| EaIslands.MinInPool | router/src/ea/ea_islands.cpp:154-167 | the head of the ranking scores no higher than the best of any group merged into it |
| EaIslands.MergeNoLess | router/src/ea/ea_islands.cpp:166-167 | `std::merge` keeps the first range ahead of a second range none of whose elements is less |
| EaIslands.NoBetterOffspringKeepsParents | router/src/ea/ea_islands.cpp:158-171 | offspring no better than any parent, with the crossover offspring not admitted, leave the sorted parents as the next parents (ties keep the parents) |
| EaIslands.UpdateParents | router/src/ea/ea_islands.cpp:120-174 | `update_parents` leaves the survivors as parents and the offspring and crossover offspring sorted |
| EaIslands.CrossoverImproves | router/src/ea/ea_islands.cpp:134-147 | the test on the sorted heads holds exactly when the crossover offspring are admitted |
| EaIslands.MoveFront | router/src/ea/ea_islands.cpp:171 | `std::move` of the first elements overwrites the parents with the front of the merge |
| EaIslands.Reselected | router/src/ea/ea_islands.cpp:181-187 | the island after `update_parents` keeps its number of parents |
| EaIslands.UpdatedIsland | router/src/ea/ea_islands.cpp:181-194 | the island after `update_islands` keeps its number of parents |
| EaIslands.UpdateIsland | router/src/ea/ea_islands.cpp:182-194 | one island is reselected, and its change flag holds exactly when the rounded score of its first parent changed, restarting its counter then and counting up otherwise |
| EaIslands.UpdateIslands | router/src/ea/ea_islands.cpp:176-206 | `update_islands` reselects every island, sets `change` to 1 exactly when some island's rounded best score changed, restarts the run's counter then and counts it up otherwise, and returns the first island holding the least top score |
| EaIslands.UpdateEach | router/src/ea/ea_islands.cpp:181-195 | the loop over the islands updates each island and leaves every island with a first parent |
| EaIslands.AnyChanged | router/src/ea/ea_islands.cpp:178-194 | `change` is 0 or 1, and 1 exactly when some island's rounded best score differs |
| EaIslands.ChangeIsImprovement | router/src/ea/ea_islands.cpp:182-194 | on an island whose parents were sorted, a change of the rounded best score is an improvement |
| EaMigration.CandidateLessIsStrictWeak | router/src/ea/ea_islands.cpp:80 | the `(score, island, index)` tuple order that sorts the candidates is a strict weak order |
| EaMigration.TopCount | router/src/ea/ea_islands.cpp:59 | `topIndivCount` is the smaller of 3 and the number of parents on the other islands |
| EaMigration.CollectCandidates | router/src/ea/ea_islands.cpp:68-78 | the candidate list holds every parent of every other island, each at its own position, with its score, and nothing else |
| EaMigration.CollectIsland | router/src/ea/ea_islands.cpp:72-76 | the inner loop appends exactly the parents of one island at their positions |
| EaMigration.RankCandidates | router/src/ea/ea_islands.cpp:68-80 | the sorted list is in tuple order and holds every parent of every other island, and only those |
| EaMigration.Receive | router/src/ea/ea_islands.cpp:98-111 | the migrant replaces the worst parent, the parents are sorted again and stay as many, the migration is dated, the rounded best score does not get worse, and the counter restarts exactly when it changed |
| EaMigration.Migrate | router/src/ea/ea_islands.cpp:59-111 | the drawn migrant is a parent of another island, among the first `topIndivCount` of the sorted list, and the island receives it in place of its worst parent |
| EaMigration.DoMigrations | router/src/ea/ea_islands.cpp:57-117 | only eligible islands (stagnated and not migrated for `iterations_for_migration`) change, each receives a migrant, stays sorted and never gets worse, and the run's counter restarts exactly when some migration changed an island's rounded best score |
| EaMigration.ReplaceLast | router/src/ea/ea_islands.cpp:98 | overwriting the last parent trades it for the migrant |
| EaMigration.KeepsBest | router/src/ea/ea_islands.cpp:98-104 | with at least two sorted parents the best one survives the overwrite, so the re-sorted first parent scores no higher |
| EaCrossover.ChooseAbove | router/src/ea/ea_crossover.cpp:228-243 | choosing more than n of n is impossible: C(n, k) = 0 for k > n |
| EaCrossover.ChooseOne | router/src/ea/ea_crossover.cpp:250-251 | C(n, 1) = n |
| EaCrossover.ChooseAll | router/src/ea/ea_crossover.cpp:228-243 | C(n, n) = 1 |
| EaCrossover.Absorption | router/src/ea/ea_crossover.cpp:237-240 | k·C(n, k) = n·C(n-1, k-1) |
| EaCrossover.StepExact | router/src/ea/ea_crossover.cpp:237-240 | C(n, i)·(n-i) = C(n, i+1)·(i+1), so every division of the loop is exact |
| EaCrossover.ChooseSymmetric | router/src/ea/ea_crossover.cpp:231-233 | C(n, k) = C(n, n-k), which justifies computing over the smaller of k and n-k |
| EaCrossover.BinomialCoeff | router/src/ea/ea_crossover.cpp:228-243 | `binomialCoeff(n, k)` is the binomial coefficient C(n, k) for 0 <= k <= n, and 1 for any other k |
| EaCrossover.LeadingSplit | router/src/ea/ea_crossover.cpp:25-26 | the masks of a length split into those starting with a set position and those starting with an unset one (Pascal's rule) |
| EaCrossover.MaskShape | router/src/ea/ea_crossover.cpp:25-65 | every enumerated mask has 2n positions, n of them set |
| EaCrossover.RankOfComplete | router/src/ea/ea_crossover.cpp:25-65 | every mask with n of 2n positions set has a number below C(2n, n) that gives it back: the enumeration visits every choice of n routes |
| EaCrossover.MasksDescending | router/src/ea/ea_crossover.cpp:65 | earlier masks are lexicographically greater, as `std::prev_permutation` visits them from the sorted-descending start, so none is visited twice |
| EaCrossover.PickedLength | router/src/ea/ea_crossover.cpp:33-50 | a mask picks as many routes as it has set positions |
| EaCrossover.PickedSplit | router/src/ea/ea_crossover.cpp:33-50 | picking over parent1's and parent2's routes picks parent1's chosen routes first, then parent2's |
| EaCrossover.SelectStep | router/src/ea/ea_crossover.cpp:33-50 | one more mask position adds one to the count and its route to the picked routes exactly when it is set |
| EaCrossover.SelectRoutes | router/src/ea/ea_crossover.cpp:81-99 | the mask loop fills the n slots with exactly the routes the mask picks, parent1's positions before parent2's, in index order |
| EaCrossover.Candidate | router/src/ea/ea_crossover.cpp:80-99 | every candidate baby holds n routes |
| EaCrossover.DistScores | router/src/ea/ea_crossover.cpp:100 | one distance score per choice of n of the 2n routes |
| EaCrossover.RoundedScores | router/src/ea/ea_crossover.cpp:53 | one rounded score per choice of n of the 2n routes |
| EaCrossover.CandidateIsPicked | router/src/ea/ea_crossover.cpp:31-53 | candidate r is what mask number r picks from the parents' routes |
| EaCrossover.FirstMinBelowStep | router/src/ea/ea_crossover.cpp:104-109 | a running best replaced only on a strictly smaller score stays the first least score below the start value |
| EaCrossover.ScanStep | router/src/ea/ea_crossover.cpp:104-109 | the scan moves to a candidate exactly when its score is strictly below the best so far |
| EaCrossover.ScanDone | router/src/ea/ea_crossover.cpp:80-116 | after the last candidate the scan holds the kept baby |
| EaCrossover.DistScoreCandidate | router/src/ea/ea_crossover.cpp:81-100 | the loop body builds candidate r and its distance score |
| EaCrossover.MakeDiverseBaby2 | router/src/ea/ea_crossover.cpp:70-117 | `makeDiverseBaby2` returns the first choice of n of the 2n parent routes with the strictly least distance score below `DBL_MAX`, and n default routes when there is none |
| EaCrossover.MakeDiverseBaby | router/src/ea/ea_crossover.cpp:21-68 | `makeDiverseBaby` returns the first choice of n of the 2n parent routes with the strictly least rounded score below `INT_MAX`, and n default routes when there is none |
| EaCrossover.GreedyScores | router/src/ea/ea_crossover.cpp:143-165 | one appended-route score per route of either parent |
| EaCrossover.GreedyScoresAt | router/src/ea/ea_crossover.cpp:144-146 | entry j is the distance score of the baby's routes with route j appended |
| EaCrossover.Greedy | router/src/ea/ea_crossover.cpp:133-174 | a successful fill holds n routes |
| EaCrossover.GreedyStaysNone | router/src/ea/ea_crossover.cpp:167-172 | once a step fails the result is a copy of parent1 and no later slot is filled |
| EaCrossover.GreedyShape | router/src/ea/ea_crossover.cpp:133-174 | the fill holds the drawn route first, routes of the parents in the filled slots and default routes in the rest |
| EaCrossover.GreedyKeepsPrefix | router/src/ea/ea_crossover.cpp:139-174 | later steps leave the filled slots alone |
| EaCrossover.GreedyChoice | router/src/ea/ea_crossover.cpp:140-173 | the route a step puts in its slot scores below `DBL_MAX` appended to the baby so far, and no route of either parent scores lower |
| EaCrossover.HeuristicIsGreedy | router/src/ea/ea_crossover.cpp:119-176 | in a completed fill each route after the first gives, appended to the routes before it and the default routes after, the least distance score of all the parents' routes, below `DBL_MAX` |
| EaCrossover.GreedyStepFails | router/src/ea/ea_crossover.cpp:140-172 | a step fails exactly when every route of either parent, appended, scores at least `DBL_MAX` |
| EaCrossover.GreedyScore | router/src/ea/ea_crossover.cpp:144-146 | the score of the baby's routes with one route appended |
| EaCrossover.GreedyNext | router/src/ea/ea_crossover.cpp:167-173 | a failed step gives no fill, a successful one puts the first best route in the slot |
| EaCrossover.GreedyScan | router/src/ea/ea_crossover.cpp:143-165 | the running-best scan over a range finds the first strictly least appended score below `DBL_MAX`, or -1 |
| EaCrossover.GreedyStep | router/src/ea/ea_crossover.cpp:140-165 | the two loops over parent1's and then parent2's routes return the first route with the strictly least appended score, and the parent holding it |
| EaCrossover.FillSlot | router/src/ea/ea_crossover.cpp:140-173 | one iteration of the slot loop computes the next greedy fill, or fails |
| EaCrossover.MakeHeuristicBaby | router/src/ea/ea_crossover.cpp:119-176 | `makeHeuristicBaby` puts the drawn route first and fills each further slot greedily, returning a copy of parent1 when a step finds no route |
| EaMutations.UpdateProbs | router/src/ea/ea_mutations.cpp:752-782 | `update_probs` gives the five operator weights: randpair, weightpair and capacity at their bases, the falling newroute weight and the exchange weight |
| EaMutations.NewrouteWeightBounds | router/src/ea/ea_mutations.cpp:756-767 | the newroute weight keeps its base for the first ten iterations, then lies in [1, base), and is 1 exactly from iteration 500 on |
| EaMutations.NewrouteWeightFalls | router/src/ea/ea_mutations.cpp:756-767 | the newroute weight never grows from one iteration to a later one |
| EaMutations.SlopePositive | router/src/ea/ea_mutations.cpp:772-774 | the exchange weight rises with a positive slope per stagnating iteration |
| EaMutations.ExchangeWeightBounds | router/src/ea/ea_mutations.cpp:769-779 | the exchange weight is 0 within `gap_between_exchanges` iterations after the individual's last exchange, and afterwards lies between the base 15 and the cap 40 |
| EaMutations.TruncMonotone | router/src/ea/ea_mutations.cpp:772 | the `int` cast (truncation toward zero) keeps the order |
| EaMutations.ExchangeRiseGrows | router/src/ea/ea_mutations.cpp:772-776 | the uncapped exchange weight grows with the stagnation count |
| EaMutations.ExchangeWeightGrows | router/src/ea/ea_mutations.cpp:769-779 | the exchange weight grows with the stagnation count |
| EaMutations.ExchangeWeightSaturates | router/src/ea/ea_mutations.cpp:769-776 | once the island has stagnated for `0.2F` of the convergence count the exchange weight is at its cap 40 |
| EaMutations.OperatorList | router/src/ea/ea_mutations.cpp:811-822 | the operator list is the drawn operators in order unless an exchange is drawn, which then is the only operator and is recorded as the individual's last exchange |
| EaMutations.ExchangePause | router/src/ea/ea_mutations.cpp:819 | after an exchange the individual's exchange weight is 0 for the next `gap_between_exchanges` iterations |
| EaMutations.CheckRouteSanity | router/src/ea/ea_mutations.cpp:784-794 | `check_route_sanity` passes exactly when every link starts where the previous one ended, that is, the route is a walk from its first source to its last target |
| EaMutations.CheckRoutes | router/src/ea/ea_mutations.cpp:829-831 | the check after an operator passes exactly when every route is connected |
| EaMutations.RandpairShortRoute | router/src/ea/ea_mutations.cpp:257-267 | as written, on a route of two links the start index becomes -1, the guard lets it through and link -1 is read and erased |
| EaMutations.RandpairCut | router/src/ea/ea_mutations.cpp:257-268 | with routes of fewer than three links left alone, randpair's stretch is never skipped, lies inside the route and covers at least two links, the rest as the code computes it |
| EaMutations.WeightpairCut | router/src/ea/ea_mutations.cpp:171-193 | weightpair's stretch lies inside the route, covers at least two links and keeps the drawn end link; it is skipped only when the end draw leaves the route |
| EaMutations.CapacityShortRoute | router/src/ea/ea_mutations.cpp:66-90 | as written, on a route of three links every draw gives start index -1, which the guard lets through |
| EaMutations.CapacityCut | router/src/ea/ea_mutations.cpp:66-93 | with routes of fewer than four links left alone, capacity's stretch is never skipped and lies inside the route, the rest as the code computes it |
| EaMutations.Spliced | router/src/ea/ea_mutations.cpp:99-101 | replacing a stretch by a path changes the length by the path's length minus the stretch's |
| EaMutations.SplicedWalk | router/src/ea/ea_mutations.cpp:99-101 | a walk with a stretch replaced by a path between the stretch's two ends is a walk between the same endpoints |
| EaMutations.CircleScanNonEmpty | router/src/ea/ea_mutations.cpp:103 | erasing circles keeps a nonempty route nonempty |
| EaMutations.ReplacedWalk | router/src/ea/ea_mutations.cpp:99-105 | a replaced route keeps its endpoints when the path reconnects the stretch, holds only links of the old route and the path, and has sums that agree with its links |
| EaMutations.ReplaceStretch | router/src/ea/ea_mutations.cpp:99-105 | the splice erases the stretch, inserts the path, erases circles and recomputes the sums, and leaves the route alone when the path has at most one link |
| EaMutations.EditOf | router/src/ea/ea_mutations.cpp:45-51 | the edit for a route is one naming it, and there is none exactly when no edit names it |
| EaMutations.EditedStep | router/src/ea/ea_mutations.cpp:50-53 | one more edit changes only the route it names, which no earlier edit touched, by replacing its stretch (or not at all when it is skipped) |
| EaMutations.SegmentMutation | router/src/ea/ea_mutations.cpp:45-131 | a segment operator changes only the routes, each drawn route getting its stretch replaced and the others staying as they were |
| EaMutations.SegmentMutationKeepsWalks | router/src/ea/ea_mutations.cpp:45-131 | when every path reconnects its stretch, every route stays a walk from the origin to the destination, so the sanity check after the operator passes |
| EaMutations.NewRoute | router/src/ea/ea_mutations.cpp:717-743 | `mutation_newroute` replaces exactly the drawn route by the new path with its sums computed |
| EaMutations.NewRouteKeepsWalks | router/src/ea/ea_mutations.cpp:717-743 | newroute keeps every route a walk from the origin to the destination when the new path is one, and the new route's sums agree with its links |
| EaMutations.Cleaned | router/src/ea/ea_mutations.cpp:331-332 | `delete_circle` keeps the cached sums, keeps a nonempty route nonempty and keeps a walk a walk between the same endpoints |
| EaMutations.Divergences | router/src/ea/ea_mutations.cpp:361-371 | the divergence points are exactly the shared nodes after which both routes go on to different nodes |
| EaMutations.Gotos | router/src/ea/ea_mutations.cpp:388-396 | the goto points are exactly the shared nodes other than the divergence point that both routes reach after it |
| EaMutations.FirstFrom | router/src/ea/ea_mutations.cpp:420-435 | the first link leaving a node, or -1 when there is none |
| EaMutations.FirstTo | router/src/ea/ea_mutations.cpp:438-453 | the first link entering a node, or -1 when there is none |
| EaMutations.LinkPlan | router/src/ea/ea_mutations.cpp:415-455 | once the two points are chosen the plan either misses a link or names links leaving the divergence point and entering the goto point in each route |
| EaMutations.ExchangePlan | router/src/ea/ea_mutations.cpp:334-455 | a swap plan names in each route a part that starts at the divergence point and ends at the goto point |
| EaMutations.Swapped | router/src/ea/ea_mutations.cpp:551-695 | the swap keeps the total number of links of the two routes |
| EaMutations.ExchangeRoutes | router/src/ea/ea_mutations.cpp:320-695 | the exchange changes only the two drawn routes |
| EaMutations.ExchangedAt | router/src/ea/ea_mutations.cpp:551-695 | the two drawn routes lose their circles and, when a swap is planned, trade their parts and get their sums recomputed; otherwise they keep the cleaned links |
| EaMutations.NodePositions | router/src/ea/ea_mutations.cpp:385-453 | on a connected route the first link leaving a node sits at the node's position in the node vector, and the first link entering it just before |
| EaMutations.ExchangeFindsLinks | router/src/ea/ea_mutations.cpp:415-455 | on connected routes the four links are always found, so the error branch is never taken, and both parts are nonempty and go from the divergence point to a different goto point |
| EaMutations.SwapPiecesWalk | router/src/ea/ea_mutations.cpp:575-692 | trading parts that lead between the same two nodes keeps both walks from the origin to the destination |
| EaMutations.SwapPiecesLinks | router/src/ea/ea_mutations.cpp:575-692 | trading parts keeps, over both routes together, exactly the links they had |
| EaMutations.SwapKeepsWalks | router/src/ea/ea_mutations.cpp:551-695 | a planned swap between two walks gives two walks between the same endpoints holding together exactly the original links |
| EaMutations.WalkPieces | router/src/ea/ea_mutations.cpp:575-692 | a walk cut at two positions is three walks meeting at the cut nodes |
| EaMutations.ExchangeKeepsWalks | router/src/ea/ea_mutations.cpp:306-715 | the exchange keeps every route a walk from the origin to the destination, and each swapped route's sums agree with its links |
| EaMutations.DivergencePoints | router/src/ea/ea_mutations.cpp:361-371 | the loop collects exactly the divergence points, in order |
| EaMutations.GotoPoints | router/src/ea/ea_mutations.cpp:388-396 | the loop collects exactly the goto points, in order |
| EaMutations.LinkFrom | router/src/ea/ea_mutations.cpp:420-426 | the loop finds the first link leaving the node |
| EaMutations.LinkTo | router/src/ea/ea_mutations.cpp:438-444 | the loop finds the first link entering the node |
| EaMutations.FirstIsUnique | router/src/ea/ea_mutations.cpp:420-453 | the first matching position is the only position with that property |
| EaMutations.PlanExchange | router/src/ea/ea_mutations.cpp:334-455 | the search computes the exchange plan |
| EaMutations.SwapParts | router/src/ea/ea_mutations.cpp:575-692 | the erase/insert pairs give exactly the swapped routes |
| EaMutations.ExchangePart | router/src/ea/ea_mutations.cpp:306-715 | with a single route nothing changes; otherwise the two drawn routes lose their circles and, when the search plans a swap, trade their parts |

## Left out

- Concurrency: the OpenMP loops (the anchor searches of the combination drivers with their unsynchronised `visits` and `upperBound` updates, the island, crossover and mutation loops) are modelled as sequential loops.
- I/O and process control: XML graph and plan files, environment parsing, JSON logs, `cout` statistics, the error-log files of the exchange mutation and timing with `chrono`; each `exit()` is an error result (`None`, `Unreachable`, `false`).
- Randomness: the Poisson, Gaussian, uniform and `discrete_distribution` draws of mutation, crossover and migration, the `rand()` assignment of persons to routes and the seeding are parameters (a draw is taken modulo the number of candidates where the source draws uniformly); the weights the draws use (inverse route flows, link weights by capacity or by `a³`, migrant weights by score) are not computed.
- `randDijkstra` and `assign_routes` in ea_util.cpp are not part of this model: the paths they return are parameters of the mutation operators.
- The polynomial root solvers of the GNU Scientific Library, `sqrt`, `std::round` on values beyond `int`, and `airline_dist` are parameters or opaque functions; `artificial_link` is modelled without its leaked allocation.
- Floating point: costs, flows and scores are exact reals; double and single precision rounding (`0.0F` accumulators, the `float` casts of `update_probs`) is not modelled, except that the constant `0.2F` keeps its exact single-precision value.
- Termination of the searches: the Pareto searches, Dijkstra and the best-parameter fills take a `fuel` bound on the number of pops and report whether the queue ran empty; the Frank-Wolfe scorer is bounded by its own iteration limit.
- Pareto.Search: the `std::priority_queue` is a sequence popped at the element the comparator `prio` ranks first; the `mean_taud` comparator and the airline-distance comparators of the A* variants are that parameter.
- ShortestPaths.Dijkstra, ShortestPaths.DijkstraAll: proved to return walks from a to b that avoid the excluded links, and to report unreachability correctly, but not proved minimal.
- EaIslands.UpdateParents: sorts with a stable sort where the source calls `std::sort`, whose order among equal scores is unspecified, so ties may be ordered differently.
- EaScoring.ScoreFrankWolfe: the stopping counters on the error are modelled (`Tally`), but the contract does not say when they stop the loop; the `partan` branch and `findMu` are dead code (`partanEnabled` is false) and are left out.
- Maps are iterated in the order of a key sequence that enumerates them, where the source uses the order of `std::map` or `std::unordered_map`.
- Pointer identity: links and routes are compared by value; the pointer `update_parents` returns to `parents[0]` is the first of the returned parents.
- A default-constructed `route` has uninitialised sums in the source; they are 0 here.
- `int` overflow of `binomialCoeff` is not modelled (its arguments are small population sizes).
- The `mutate` driver's application of the operator list, the drivers `initialize_islands`, `score_islands`, `sort_islands`, `handle_innerisland_crossover` and `handle_crossisland_crossover`, and `makeHeuristicBaby2` (a purely random variant) are left out; each operator and the list construction are modelled.
- EaMutations.ExchangePart: the error branch that returns without splicing when a link is not found is modelled as the `LinksMissing` plan, which also covers the reversed ranges on which the source's `erase` is undefined; the `try`/`catch` around the insert is not modelled.
- The mutations call the corrected `delete_circle` (restart at position 0), see Findings.
- `psychmod::score_routes_individually` (psychmod.cpp:18), ssotd_dijkstra.cpp, ea.cpp and router.cpp (orchestration and entry points) are not part of this model.
- Elements.Step, Elements.Extend, Elements.ExtendShared, Pareto.Child and Fragments.FragAgg add a link's taud at the current group size, which is the corrected behaviour; the source's `link::taud()` keeps the value of the first group that asked (data.cpp:68), see Findings row 2.
- NoDisjoint.OfferTails, NoDisjoint.OfferPairs, NoDisjoint.BuildRow and NoDisjoint.Combine run the corrected `insertAndDominate`, which removes every dominated fragment; see Findings row 4.
- Reference.ReferenceRoute.Prepare builds the node position map from empty, which is the corrected behaviour; the source's global map is never cleared (ssotd_core.cpp:537-544), see Findings row 6.
- Elements.DeepCopy copies elements with the corrected copy `CopyElem`, not the copy constructor as written (data.cpp:250); see Findings row 3.
- OneDisjoint.CountStretches and OneDisjoint.SanityCheck1D use the corrected crossing test (ssotd_onedisjoint.cpp:84); see Findings row 7.
- EaScoring.ScoreFrankWolfe reports the limit with the corrected flag `HardlimitFlag`, not the comparison with `iterations_hardlimit` (ea_scoring.cpp:255-260); a scorer built with a smaller limit, such as `FrankWolfeScorer(50)` of the crossover, is reported differently by the source; see Findings row 8.
- Psych.ScoreRoute, Psych.ScoreCosts, Psych.ScoreRoutes (and the scorer `Psych.ModelScorer` every driver is given) run the corrected overflow rule: a candidate whose score overflows `int` does not fit and the route scores DBL_MAX, where the source's cast yields INT_MIN and picks it (psychmod.cpp:76-82); see Findings row 1.
- FullDisjoint.SsotdRoute: ssotd_fulldisjoint.cpp redeclares `start` and `end` in one scope and does not compile as written; the evidently intended logic is modelled.

## Findings

| source | as written | input that shows it | evidently intended | confidence | as-written member | corrected member |
|---|---|---|---|---|---|---|
| router/src/core/psychmod.cpp:76-82 | a candidate score that overflows `int` becomes negative (INT_MIN) and wins the strictly-smaller comparison | costs 3e9 (usage 1) and 1 (usage 0) with k = 1: the overflowing candidate is picked with score INT_MIN | an overflowing candidate never beats one that fits | not executed | Psych.OverflowWins | Psych.SelectIsBestFitting |
| router/src/core/data.cpp:68 | `taud()` keeps the first non-zero value, computed with the group size `number_agents` of the group that first asked; the later groups reset `number_agents` but read the stale value | a link of positive length asked in a group of one agent and then in a group of two returns the one-agent time both times | each group's searches use the per-agent time at that group's size | not executed | Data.StaleTaudAcrossGroups | Elements.Step |
| router/src/core/data.cpp:244-254 | the copy constructor sets the copy's `_taud` from the parent's `shared_taud` | an element with taud 2 and shared taud 0 is copied with taud 0 | the copy keeps every aggregate | not executed | Elements.CopyLosesTaud | Elements.CopyElem |
| router/src/ssotd/ssotd_nodisjoint.cpp:207-231 | a dominated fragment is erased one step after it is seen, so a dominated last fragment survives | list [x, y] with frag dominating both becomes [frag, y] and success is reported | every fragment frag dominates is removed | not executed | Fragments.LastDominatedSurvives | Fragments.InsertKeepsAntichain |
| router/src/ea/ea_util.cpp:189-190 | after an erase the scan sets `i = 0` and the loop's `i++` resumes it at 1 | walk 1-2-3-2-1-4: the circle 2-3-2 is erased and the circle 1-2-1 survives | the scan restarts at position 0 and leaves no circle | not executed | EaUtil.CircleSurvivesRestart | EaUtil.CircleScanNoRepeat |
| router/src/ssotd/ssotd_core.cpp:537-544 | the node position map is never cleared between groups | routes 0-5-6-7 and then 0-1: node 7 is still mapped, to position 3 | the map knows exactly the nodes of the current route | not executed | Reference.StaleIndexSurvives | Reference.RouteIndexExact |
| router/src/ssotd/ssotd_onedisjoint.cpp:84 | `is_orig_node`'s int result is used as a bool: -1 (not on the route) counts as a crossing and 0 (the start node) does not | detour 0 -> 5 -> 1 around route 0 -> 1 reports one crossing instead of none | count detour links starting at a node of the reference route | not executed | OneDisjoint.OffRouteNodeCounted | OneDisjoint.NoCrossesIffNoTouch |
| router/src/ea/ea_scoring.cpp:255-260 | `hardlimit_reached` compares with the default limit `iterations_hardlimit`, not with the scorer's own `hardlimit` | a scorer with limit 50 that stops after 50 iterations reports 0 | report that the scorer's own limit was reached | not executed | EaScoring.SmallLimitNotReported | EaScoring.HardlimitFlag |
| router/src/ea/ea_mutations.cpp:257-267 | randpair clamps the start to `size - 3` and its guard only tests `end <= start` | a route of two links gets start -1: link -1 is read and erased | leave routes of fewer than three links alone | not executed | EaMutations.RandpairShortRoute | EaMutations.RandpairCut |
| router/src/ea/ea_mutations.cpp:66-90 | capacity clamps the start to `size - 4` and its guard does not test a negative start | a route of three links gets start -1 for every draw, and the guard lets it through | leave routes of fewer than four links alone | not executed | EaMutations.CapacityShortRoute | EaMutations.CapacityCut |
