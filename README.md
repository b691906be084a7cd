# Catan rules bookkeeping, modelled in Dafny

This project models the parts of a Settlers of Catan engine that do the rules
bookkeeping on the shared game state. It covers both game drivers: the
interactive game (`catanGame`) and the all-AI game (`AIGame`). It also covers
the heuristic AI player and the state encoder that a learning agent reads.

- **Resource distribution after a dice roll** (`Distribution`, `CatanGame`, `AIGame`).
  - Each player's demand is one card per settlement and two per city for every
    adjacent tile that carries the rolled number and not the robber.
  - Each resource is allocated against a finite bank. Every requester gets its
    full demand when supply covers the total. A single requester gets what is
    left. Two or more requesters contending for too little get nothing.
  - The grants are then added to the players' hands.
  - On a seven, the interactive game makes every AI player holding more than
    seven cards discard half its hand, rounded down, and lets the current AI
    player move the robber. The all-AI game only moves the robber.
- **Longest Road and Largest Army** (`Bonus`). These move a single-owner flag
  and its two victory points among the players.
  - The interactive game's Longest Road uses a unique-maximum rule: the
    longest road of at least five, held by exactly one player, or else nobody.
    A tie strips the card.
  - The all-AI game's Longest Road and both games' Largest Army use a
    strict-lead rule. The player who just acted takes the card when it reaches
    the threshold (five roads, three knights) and every other player is
    strictly behind. Otherwise nothing changes.
- **The heuristic AI player** (`HeuristicAI`, `DevCardPlay`, `InitialSetup`).
  - Forced discard on a seven.
  - What a settlement, a city or year of plenty still needs.
  - Choosing the tile and the victim for the robber.
  - Playing at most one development card a turn: knight, road builder, year
    of plenty, monopoly.
  - Scoring the initial settlement spots.
- **The learning agent's view** (`StateEncoding`).
  - Vertex, edge, tile and robber vectors.
  - The dense undirected edge index.
  - Points and card counts.
  - The enumeration of valid actions, including bank trades at the best
    harbour ratio.

Objects whose fields the source updates in place are classes:
`Players.Player`, `Board.Board` and `StateEncoding.ModelState`. Their methods
carry `modifies` frames. Each of these methods states its new state through a
function on the values it reads, such as `Distribution.PlayersAfter`,
`Bonus.UniqueMaxAward`, `DevCardPlay.Monopolized` or `DevCardPlay.Plenty`, and
says with `unchanged` which of the fields it may modify it leaves alone. The
source's promises are proved about those functions as lemmas.

A player is identified by its position in the player queue. The board records
an owner as that position.

Resources are listed in the order ORE, BRICK, WHEAT, WOOD, SHEEP. That is the
key order of a player's resource dictionary. It decides the ties in `max(...)`
for discarding and monopoly, and the order in which year of plenty picks
resources.

## Model

| member | source | states |
|---|---|---|
| Distribution.DemandColumn | code/catanGame.py:206-223 | every player's demand for a resource is one per settlement and two per city for each adjacent tile that rolled, produces it and has no robber |
| Distribution.ComputeDemand | code/catanGame.py:206-223 | the nested loops over settlements, cities and adjacent tiles compute exactly that demand for every player and resource |
| Distribution.Allocate | code/catanGame.py:227-243 | the amounts granted for one resource never exceed the bank's supply, and there is one amount per player |
| Distribution.AllocateWithinDemand | code/catanGame.py:234-243 | no player is granted more than it asked for |
| Distribution.AllocateFullSupply | code/catanGame.py:234-237 | when supply covers the total demand, every player receives exactly its demand |
| Distribution.AllocateSingleRequester | code/catanGame.py:238-241 | when supply is short but positive and one player asks, that player receives the whole supply and nobody else receives any |
| Distribution.AllocateContended | code/catanGame.py:242-243 | when supply is short and two players ask, nobody receives anything and nothing is withdrawn |
| Distribution.AllocateResource | code/catanGame.py:227-243 | the bank for the resource drops by exactly the amount granted, all other resources are untouched, and the grant is the allocation rule applied to the bank's supply |
| Distribution.AllocateFromBank | code/catanGame.py:225-243 | after the loop over resources, each resource's grants follow the allocation rule on its old supply, and the bank drops by their sum |
| Distribution.GiveAllocation | code/catanGame.py:245-249 | every player's hand grows by exactly its row of the allocation |
| Distribution.GiveGrants | code/catanGame.py:245-249 | giving out the allocation leaves the players exactly as the distribution's reference result describes |
| Distribution.AllocationIsGrants | code/catanGame.py:225-243 | the allocation computed from the loop's demand table is the reference allocation, column by column and player by player |
| Distribution.BankIsBankAfter | code/catanGame.py:234-241 | the bank after the withdrawals is the reference bank after distribution |
| Distribution.DistributeResources | code/catanGame.py:202-249 | a non-seven roll leaves the bank and every player exactly as the reference distribution says |
| Distribution.ProductionConserves | code/catanGame.py:226-249 | for every resource, the cards held by the players plus the bank are the same before and after distribution |
| Distribution.RobberBlocksProduction | code/catanGame.py:214 | when the robber covers every tile with the rolled number, no player demands or receives anything |
| CatanGame.UpdatePlayerResources | code/catanGame.py:201-277 | a non-seven roll distributes exactly as the reference distribution and leaves the robber in place; a seven makes the AI players discard and then lets the current AI player move the robber to its chosen tile |
| CatanGame.DiscardAll | code/catanGame.py:263-269 | each AI player's hand becomes its heuristic discard, the others keep theirs, and the bank takes back every discarded card |
| CatanGame.DiscardFor | code/catanGame.py:265-267 | one player discards; only that player's hand and the bank change, and they change by the discard |
| CatanGame.DiscardsConserve | code/catanGame.py:263-269 | players plus bank hold the same number of each resource after the discards as before |
| CatanGame.DiscardsBounded | code/catanGame.py:263-269 | no resource count grows by discarding; a non-AI hand is unchanged; an AI hand above seven cards loses half of them, rounded down |
| CatanGame.MoveConserves | code/catanGame.py:263-269 | moving cards between one player and the bank keeps the stock of players plus bank |
| CatanGame.ReturnConserves | code/heuristicAIPlayer.py:335-338 | a player's discard together with the bank's refund keeps the stock of players plus bank |
| CatanGame.ReturnedExact | code/heuristicAIPlayer.py:335-338 | a bank that took back exactly the discarded cards is the refunded bank |
| CatanGame.RollSeven | code/catanGame.py:262-276 | the discards happen first, then an AI current player moves the robber; a human player's robber is not moved by the model |
| CatanGame.RobberTurn | code/catanGame.py:271-274 | an AI current player moves the robber to the chosen tile and names the chosen victim; no hand changes |
| AIGame.UpdatePlayerResources | code/AIGame.py:135-191 | a non-seven roll distributes as in the interactive game; a seven changes no hand and no bank count and only moves the robber to the current player's chosen tile |
| Bonus.MaxOf | code/catanGame.py:285 | the greatest road length: no player exceeds it and some player reaches it |
| Bonus.ContendersUnique | code/catanGame.py:286-294 | the contender list is a single player exactly when that player's road is at least five and longer than everyone else's |
| Bonus.OnlyContender | code/catanGame.py:286 | a one-element contender list names a player who reaches the threshold and strictly leads |
| Bonus.HolderIsTheFlag | code/catanGame.py:288-292 | with at most one flag, the first flagged player is the holder |
| Bonus.UniqueMaxAward | code/catanGame.py:281-325 | the unique-maximum rule yields one flag and one points entry per player |
| Bonus.UniqueMaxAtMostOne | code/catanGame.py:294-323 | after the unique-maximum rule, at most one player holds Longest Road |
| Bonus.UniqueMaxHolder | code/catanGame.py:285-323 | a player holds Longest Road afterwards exactly when its road is at least five and strictly the longest |
| Bonus.UniqueMaxIdempotent | code/catanGame.py:305-307 | applying the unique-maximum rule a second time changes nothing |
| Bonus.UniqueMaxKeepsCount | code/catanGame.py:294-323 | each player's points stay its base points plus two exactly when it holds the card, so a transfer is minus two for the old holder and plus two for the new one |
| Bonus.RoadHolder | code/catanGame.py:288-292 | the holder found by the loop is the first flagged player, if any |
| Bonus.GiveUpRoad | code/catanGame.py:294-298 | the holder, if any, loses the flag and two points; nobody else changes |
| Bonus.ClearRoadFlagsExcept | code/catanGame.py:299-302 | every flag except the kept player's is cleared, and no points change |
| Bonus.RemoveRoad | code/catanGame.py:294-303 | with no unique contender, no flag is left and only the holder loses two points |
| Bonus.HandOverRoad | code/catanGame.py:309-323 | the old holder loses two points, the winner alone holds the flag, and the winner gains two points unless it already held the flag |
| Bonus.ClearAndClaimRoad | code/catanGame.py:315-323 | the winner alone holds the flag and gains two points unless it held it before |
| Bonus.CheckLongestRoadUniqueMax | code/catanGame.py:281-325 | the players' flags and points become the unique-maximum rule's result on the road lengths, flags and points before the call |
| Bonus.StrictLeadAward | code/AIGame.py:195-216 | the strict-lead rule yields one flag and one points entry per player |
| Bonus.StrictLeadNoChange | code/AIGame.py:196-202 | when the caller does not strictly lead, or already holds the card, nothing changes, so a tie never strips the holder |
| Bonus.StrictLeadGrants | code/AIGame.py:202-214 | when the caller strictly leads, it alone holds the card afterwards and every player's points are its base points plus two exactly when it holds the card |
| Bonus.StrictLeadKeepsCount | code/AIGame.py:195-216 | the strict-lead rule keeps at most one holder and keeps points equal to base plus bonus |
| Bonus.StrictLeadIdempotent | code/AIGame.py:195-216 | applying the strict-lead rule a second time changes nothing |
| Bonus.RulesAgreeOnLeader | code/AIGame.py:196-202 | when the caller strictly leads with five or more roads, the two games' Longest Road rules give the same result |
| Bonus.ContendersIncreasing | code/catanGame.py:286 | the contenders are listed in queue order, each at most once |
| Bonus.RulesDifferOnTie | code/catanGame.py:294-303 | whenever two or more players tie at the top with at least five, the interactive game clears every flag and takes two points from the holder, while the all-AI rule asked for any tied player changes nothing; so the two disagree whenever somebody held the card |
| Bonus.RulesDifferOnTieExample | code/catanGame.py:294-303 | lengths 5 and 5 with the first player holding: the interactive game leaves no holder and points 2 and 2, the all-AI game leaves both as they were |
| Bonus.UniqueMaxKeepsSecondHolder | code/catanGame.py:305-307 | with two flagged players and the first one the single winner, the rule returns early and both keep the flag |
| Bonus.CheckLongestRoadStrictLead | code/AIGame.py:195-216 | the players' flags and points become the strict-lead rule's result on the road lengths before the call, with a threshold of five |
| Bonus.TakeRoad | code/AIGame.py:203-214 | every previous holder loses the flag and two points, and the caller alone holds the flag and gains two points |
| Bonus.CheckLargestArmy | code/catanGame.py:328-349 | the players' flags and points become the strict-lead rule's result on the knight counts before the call, with a threshold of three |
| Bonus.TakeArmy | code/catanGame.py:336-347 | every previous holder loses Largest Army and two points, and the caller alone holds it and gains two points |
| Bonus.RoadStateIs | code/catanGame.py:281-325 | flags and points that agree player by player are the players' Longest Road state |
| Bonus.ArmyStateIs | code/catanGame.py:328-349 | flags and points that agree player by player are the players' Largest Army state |
| HeuristicAI.MostHeld | code/heuristicAIPlayer.py:336 | the resource picked has the largest count in the hand |
| HeuristicAI.MostHeldFirst | code/heuristicAIPlayer.py:336 | every resource listed before the pick has strictly fewer cards, so ties go to the first in key order |
| HeuristicAI.DiscardOneTakesMost | code/heuristicAIPlayer.py:336-337 | one discard removes one card of a most-held resource and lowers the total by one |
| HeuristicAI.DiscardedTotal | code/heuristicAIPlayer.py:328-342 | at seven cards or fewer the hand is unchanged; above seven, half the cards (rounded down) are removed; no count grows |
| HeuristicAI.DiscardSparesSmaller | code/heuristicAIPlayer.py:335-338 | a resource at least n cards behind another is untouched by n discards |
| HeuristicAI.DiscardCard | code/heuristicAIPlayer.py:336-338 | the player loses one card of a most-held resource, and player plus bank is conserved per resource |
| HeuristicAI.DiscardCards | code/heuristicAIPlayer.py:335-338 | after n rounds the hand is n single discards of the old hand, and player plus bank is conserved |
| HeuristicAI.HeuristicDiscard | code/heuristicAIPlayer.py:325-343 | the hand becomes the heuristic discard of the old hand, and every discarded card goes back to the bank |
| HeuristicAI.ResourcesNeededForSettlement | code/heuristicAIPlayer.py:298-308 | the loop over resources builds the settlement needs of the hand |
| HeuristicAI.SettlementNeedsExact | code/heuristicAIPlayer.py:303-308 | the needs name exactly the non-ore resources with no card, each at one, without repeats; they are empty iff a settlement is affordable, and supplying them makes it affordable |
| HeuristicAI.CityNeedsExact | code/heuristicAIPlayer.py:316-323 | ore is needed, for 3 minus the ore held, iff ore is below 3; wheat likewise below 2; nothing else is named; empty iff a city is affordable |
| HeuristicAI.CityNeedsSuffice | code/heuristicAIPlayer.py:316-323 | supplying the city needs makes a city affordable |
| HeuristicAI.MergeNeeds | code/heuristicAIPlayer.py:257-259 | the merge keeps the city needs first, adds only entries of either list, names every key of either, and keeps keys distinct |
| HeuristicAI.MergeSettlementNeeds | code/heuristicAIPlayer.py:257-259 | the loop adds each settlement need whose resource is not yet needed, as the merge describes |
| HeuristicAI.YearOfPlentyNeedsExact | code/heuristicAIPlayer.py:255-260 | year of plenty asks for the city needs first, then the other settlement needs, without repeats; it asks for nothing iff both a city and a settlement are affordable |
| HeuristicAI.TallyCorners | code/heuristicAIPlayer.py:143-152 | a victim found around a tile is an opponent who holds at least one card |
| HeuristicAI.PickOver | code/heuristicAIPlayer.py:135-159 | a tile is picked exactly when some victim was found, the picked tile is a candidate, and its victim is an opponent with cards |
| HeuristicAI.PickOverBest | code/heuristicAIPlayer.py:156-159 | no victim is found iff no candidate tile has one; otherwise no tile with a victim scores above the best |
| HeuristicAI.PickOverScore | code/heuristicAIPlayer.py:156-159 | the recorded best score and victim are those of the picked tile |
| HeuristicAI.ChooseRobberyValid | code/heuristicAIPlayer.py:121-166 | the chosen tile is a candidate; the victim is none or an opponent holding a card; it is none iff no tile offers one; otherwise the tile has the highest score among tiles with a victim |
| HeuristicAI.ScoreTile | code/heuristicAIPlayer.py:140-152 | the loop over the tile's corners computes the tile's score and victim |
| HeuristicAI.ChoosePlayerToRob | code/heuristicAIPlayer.py:121-166 | the loop over the candidate tiles returns the heuristic's tile and victim |
| HeuristicAI.HeuristicMoveRobber | code/heuristicAIPlayer.py:169-182 | the robber ends on the chosen tile and on no other, and the chosen victim is returned |
| DevCardPlay.BlockedExactly | code/heuristicAIPlayer.py:213-222 | the robber blocks the player iff some settlement or city of the player touches a tile carrying the robber |
| DevCardPlay.RobberBlocking | code/heuristicAIPlayer.py:213-222 | the early-exit loops compute exactly that |
| DevCardPlay.Spent | code/heuristicAIPlayer.py:225 | playing a card lowers that card's count by one and leaves every other count |
| DevCardPlay.SpendCard | code/heuristicAIPlayer.py:239-240 | the card count drops by one and the one-card-a-turn latch is set |
| DevCardPlay.CountKnight | code/heuristicAIPlayer.py:225-227 | the knight count drops by one, the latch is set and one more knight is counted as played |
| DevCardPlay.ApplyArmyRule | code/heuristicAIPlayer.py:229-230 | inside a game, Largest Army follows the strict-lead rule with a threshold of three; outside one, nothing changes |
| DevCardPlay.KnightBookkeeping | code/heuristicAIPlayer.py:225-230 | the knight is spent and counted, then the Largest Army rule is applied to the new knight counts |
| DevCardPlay.PlayKnight | code/heuristicAIPlayer.py:224-231 | the knight is spent and counted, the robber moves to the heuristic's tile, and Largest Army is updated; the bank, every hand, Longest Road and the player's roads stay as they were |
| DevCardPlay.FreeRoadsBounded | code/heuristicAIPlayer.py:241-246 | road builder adds at most two roads, each one of the offered edges, keeps the old roads, and uses one road piece per road |
| DevCardPlay.BuildOfferedRoads | code/heuristicAIPlayer.py:241-246 | the two rounds build the offered roads as the free-road function describes |
| DevCardPlay.ApplyRoadRule | code/heuristicAIPlayer.py:247-248 | after road builder, Longest Road follows the game's own rule: unique maximum in the interactive game, strict lead in the all-AI game, none outside a game |
| DevCardPlay.BuildRoadsForFree | code/heuristicAIPlayer.py:239-246 | the card is spent, the latch set, the offered roads built and the road length updated |
| DevCardPlay.PlayRoadBuilder | code/heuristicAIPlayer.py:236-249 | the card is spent, at most two roads are built, and Longest Road follows the game's rule; every hand, Largest Army and the knight counts stay as they were |
| DevCardPlay.GrantMoves | code/heuristicAIPlayer.py:266-270 | a year-of-plenty grant credits one card only when the bank has it, moves it from the bank, and changes nothing else |
| DevCardPlay.PlentyBounded | code/heuristicAIPlayer.py:263-270 | year of plenty conserves player plus bank, never lowers a count, grants at most two cards, and grants only needed resources the bank holds |
| DevCardPlay.PlayYearOfPlenty | code/heuristicAIPlayer.py:254-271 | the card is spent, the latch set, and the hand and bank change as year of plenty describes |
| DevCardPlay.PlayPlenty | code/heuristicAIPlayer.py:254-271 | year of plenty works from the player's own needs; only the player's hand and the bank change, and no other hand, bonus, count or robber |
| DevCardPlay.HandsAre | code/heuristicAIPlayer.py:287-292 | hands that agree player by player are the players' hands |
| DevCardPlay.OpponentCounts | code/heuristicAIPlayer.py:277-282 | the counts are the sum of every opponent's cards, resource by resource |
| DevCardPlay.MonopolyOwn | code/heuristicAIPlayer.py:287-292 | after the first k players are visited, the actor holds its own cards of the resource plus those of the visited opponents, and visited opponents hold none |
| DevCardPlay.MonopolyOther | code/heuristicAIPlayer.py:287-292 | monopoly never changes any other resource |
| DevCardPlay.MonopolyEffect | code/heuristicAIPlayer.py:287-292 | afterwards every opponent holds none of the resource, the actor gains exactly their former sum, other resources are untouched, and the total across players is unchanged |
| DevCardPlay.MonopolyTransfer | code/heuristicAIPlayer.py:287-292 | the loop over the queue leaves the hands as monopoly describes |
| DevCardPlay.PlayMonopoly | code/heuristicAIPlayer.py:284-293 | the card is spent, the latch set, and the hands become the monopoly result; bonuses, points, knights and roads stay as they were |
| DevCardPlay.ChoosePlay | code/heuristicAIPlayer.py:198-293 | a card is played only when the latch is clear and the card is held; a knight only when blocked or holding two; each later card only when every earlier card's condition fails; monopoly only inside a game, on the opponents' most-held resource, when they hold some; nothing is played only when every condition fails |
| DevCardPlay.PlentyNeeds | code/heuristicAIPlayer.py:255-259 | the needs year of plenty works from |
| DevCardPlay.DecidePlay | code/heuristicAIPlayer.py:198-293 | the checks, in the source's order, choose the card the decision function chooses on the current state |
| DevCardPlay.PlayChoice | code/heuristicAIPlayer.py:224-293 | the chosen card is spent and the latch set; per card: the knight moves the robber to the heuristic's tile and reapplies Largest Army, road builder builds the free roads and reapplies Longest Road, year of plenty takes the needed cards from the bank, monopoly gathers the resource; and each card leaves every other part of the state it could touch as it was |
| DevCardPlay.HeuristicPlayDevCard | code/heuristicAIPlayer.py:185-295 | the card played is the one the decision picks on the state before; it returns true iff a card is chosen; then that card's count drops by one, the latch is set and the card has exactly the per-card effect and frame PlayChoice states; when it returns false nothing changes |
| HeuristicAI.StatsAre | code/heuristicAIPlayer.py:121-182 | robber statistics that agree player by player are the queue's robber statistics |
| Bonus.RoadFlagsAre | code/catanGame.py:281-325 | flags that agree player by player are the players' Longest Road flags |
| InitialSetup.Expectation | code/heuristicAIPlayer.py:26 | a number's value is twice its count of dice combinations, zero for the desert, at most ten |
| InitialSetup.NumberValueBounded | code/heuristicAIPlayer.py:34-39 | a spot's number value is at most ten per adjacent tile, and zero when no adjacent tile has a number |
| InitialSetup.KindsExact | code/heuristicAIPlayer.py:36-37 | the kinds at a spot are exactly the adjacent terrains, without repeats |
| InitialSetup.NewKindsNone | code/heuristicAIPlayer.py:43-45 | no bonus is given when every kind is already a setup resource |
| InitialSetup.NewKindsAll | code/heuristicAIPlayer.py:43-45 | with no setup resources yet and no desert, every kind earns the bonus |
| InitialSetup.VertexScoreBounded | code/heuristicAIPlayer.py:30-47 | a spot scores at most nineteen (doubled) per adjacent tile |
| InitialSetup.TileValues | code/heuristicAIPlayer.py:34-39 | the loop over adjacent tiles sums their number values and collects their kinds in first-seen order |
| InitialSetup.ScoreVertex | code/heuristicAIPlayer.py:30-47 | the loop computes the spot's doubled score |
| InitialSetup.ScoreAll | code/heuristicAIPlayer.py:27-47 | the loop scores every candidate spot |
| InitialSetup.FirstBest | code/heuristicAIPlayer.py:50 | the chosen position has the highest score, and every earlier position scores strictly less |
| InitialSetup.FirstBestIndex | code/heuristicAIPlayer.py:50 | the loop finds that first best position |
| InitialSetup.AddSetupExact | code/heuristicAIPlayer.py:53-57 | the setup resources keep their old entries first and afterwards name exactly the old ones and the resources produced around the spot, without repeats |
| InitialSetup.AddSetupIdempotent | code/heuristicAIPlayer.py:53-57 | recording the same spot twice changes nothing the second time |
| InitialSetup.AddSetupKeeps | code/heuristicAIPlayer.py:53-57 | a spot producing only known resources adds nothing |
| InitialSetup.RecordSetup | code/heuristicAIPlayer.py:53-57 | the player's setup resources grow by the spot's new resources |
| InitialSetup.ChooseSetupSettlement | code/heuristicAIPlayer.py:21-57 | the chosen spot is the first best-scoring candidate, it is on the board, and the setup resources record it |
| StateEncoding.VertexCode | code/modelState.py:62-67 | a vertex encodes as 0 when empty, its sign is positive iff the observer owns it, and its magnitude is 2 iff it holds a city |
| StateEncoding.EncodeVertices | code/modelState.py:55-68 | the loop encodes every vertex that way |
| StateEncoding.Key | code/modelState.py:79 | an edge key is the sorted pair of its two ends |
| StateEncoding.CollectExact | code/modelState.py:80-82 | collecting keys keeps earlier edges first, never repeats an edge, and ends with exactly the old and the new keys |
| StateEncoding.EdgeKeysExact | code/modelState.py:71-82 | the edge list has no repeats, every key is sorted, and it holds exactly the sorted neighbour pairs of the board |
| StateEncoding.IndexOfExact | code/modelState.py:80-82 | every edge maps to its own position, and every index is below the number of edges and names its edge |
| StateEncoding.EncodeEdges | code/modelState.py:71-82 | the loops build exactly that edge list and index |
| StateEncoding.FirstRoad | code/modelState.py:89-93 | the road found is on a link to the other end, and none is found iff no such link has a road |
| StateEncoding.RoadCode | code/modelState.py:90-92 | an edge encodes as 0 without a road, 1 for the observer's road and -1 for an opponent's |
| StateEncoding.EncodeEdgeStates | code/modelState.py:84-93 | the loop gives one entry per edge, each the road code read from the lower end |
| StateEncoding.RobberIndex | code/modelState.py:107-113 | the index is -1 iff no tile has the robber; otherwise that tile has it and no later tile does |
| StateEncoding.RobberIndexAfterMove | code/modelState.py:107-113 | after the robber moves to a tile, the encoding reports that tile |
| StateEncoding.ScanTiles | code/modelState.py:107-113 | the loop lists every tile's terrain and number, and finds the robber index |
| StateEncoding.ShownPoints | code/modelState.py:96 | each queued player's entry is its visible victory points |
| StateEncoding.CardCounts | code/modelState.py:99-104 | each queued player's entry is its resource cards plus its development cards plus its new development cards |
| StateEncoding.ModelState.UpdateFromGame | code/modelState.py:49-113 | every field of the state encodes the current board and players as the functions above describe |
| StateEncoding.ModelState.EncodeBoard | code/modelState.py:55-113 | the vertex, edge, tile and robber fields encode the board |
| StateEncoding.ModelState.EncodePlayers | code/modelState.py:96-104 | the points and card-count fields encode the players |
| StateEncoding.TradeRatio | code/modelState.py:184-188 | the ratio is 2 iff the player has that resource's harbour, 3 iff only a generic harbour, and 4 iff neither |
| StateEncoding.TradesForMembers | code/modelState.py:193-196 | a trade is listed iff it gives this resource at this ratio and takes a different resource the bank holds |
| StateEncoding.BankTradeExact | code/modelState.py:176-198 | a bank trade is listed iff the player holds at least the ratio of what it gives, takes a different resource and the bank holds some |
| StateEncoding.PlayActionsMembers | code/modelState.py:165-167 | a card is listed for play iff it is not a victory-point card and the player holds one |
| StateEncoding.ValidActionsExact | code/modelState.py:118-174 | each kind of action is listed iff its guard holds: the build costs and pieces left for settlements, cities and roads; a dev-card cost and a non-empty stack; an unlatched held non-VP card; an allowed bank trade |
| Board.Board.WithdrawResource | tests/test_bank.py:4-10 | a withdrawal succeeds iff the bank holds enough; it then takes exactly that amount, and a failed one leaves the bank unchanged |
| Board.Board.DepositResource | tests/test_bank.py:9-10 | a deposit adds exactly the amount |

## Left out

- Board, player and geometry code is not part of this model. That covers
  `board.py`, `player.py` and `polygon_corners`. Their results are inputs:
  - the tiles with their terrain, number and robber flag;
  - each vertex's adjacent tiles, neighbours, owner, city flag and roads;
  - each tile's corners;
  - the candidate robber tiles;
  - each player's longest road length.
- The longest-trail search behind `maxRoadLength` is left out. After road
  builder, the new length is a parameter.
- The legal placements `get_potential_*` are parameters. Road builder is
  given its two offered edges, year of plenty its list of needs, and
  `get_valid_actions` its lists of spots.
- Random choices are parameters. These are the road builder's edges, the
  robber's fallback tile when nobody can be robbed, and the setup road. Dice
  rolls, the turn-order roll-off and the game loops are left out, as are
  display, printing, `input()` and the histogram.
- The steal inside `move_robber` (player.py) is left out. The model moves
  the robber and returns the victim the heuristic chose.
- The human player's `discardResources` and `robber` are UI selection and
  are left out. On a seven in the interactive game, human hands and the
  robber are left as they were.
- Constructors of the games and players are left out. So are the trading
  and building moves of the AI turn (`move`, `trade`). They are outside this
  core.
- InitialSetup.ChooseSetupSettlement: does not model the free
  `build_settlement` call, the Longest Road check over all players that
  follows it (code/heuristicAIPlayer.py:60-63), or the random setup road
  (code/heuristicAIPlayer.py:66-71). Building is player.py code.
- InitialSetup.Expectation: scores are doubled so they stay integers. The
  2.5 diversity bonus becomes 5 and every other term is doubled too. The
  ranking of spots, and so the choice, is unchanged.
- HeuristicAI.PickOver: the `-inf` starting score is modelled as "no best
  yet". The first tile with a victim always replaces it, as in the source.
- DevCardPlay.PlayKnight: moves the robber before counting the knight and
  applying Largest Army, where the source counts the knight first. The
  robber choice reads only points, resources and victory-point cards, none
  of which the knight's bookkeeping changes before the Largest Army rule.
  Largest Army reads only knights and flags. So the result is the same.
- Bonus.UniqueMaxAtMostOne and Bonus.UniqueMaxHolder assume at most one
  holder beforehand. When the first flagged player is the single winner, the
  rule returns before it clears the other flags
  (code/catanGame.py:305-307). Bonus.UniqueMaxKeepsSecondHolder shows two
  holders surviving. Play never produces two holders, because every rule
  leaves at most one.
- Visible victory points are derived as victory points minus victory-point
  cards held, because `update_visible_vp` is player.py code.
- The allocation table is a map from resource to the column of grants per
  player, where the source keys the player first. The values are the same.
- Players are identified by queue position. The board stores an owner as
  that position rather than as a player object.
- StateEncoding.EncodeEdgeStates: reads each edge's road from the
  lower-numbered end only, as the source does (code/modelState.py:86-93).
  The model does not assume the two ends agree.
- The all-AI game performs no discards on a seven. The model follows the
  code (code/AIGame.py:189-191).
