# AuctionArena in Dafny

AuctionArena runs live player auctions for teams. A host creates a lobby, enters its player
pool and puts the players up one at a time. Team owners bid from a fixed budget of points. The
host then confirms a sale, skips the player, pauses the lobby or grants a team extra points.
The state that matters lives in an SQLite store behind `DatabaseService`. The store holds
lobbies, teams, players, the bid audit trail, and one `AuctionState` row per lobby, which names
the player on the block, the highest bid and the team holding it.

This project models that core in Dafny:

- `models.dfy` (module `Models`): the five records (`Lobby`, `Team`, `Player`, `AuctionState`,
  `Bid`) and C#'s unchecked 32-bit `int` arithmetic (`Wrap32`).
- `seqs.dfy` (module `Seqs`): filtering and stable sorting of rows, as `WHERE` and `ORDER BY`
  do.
- `database.dfy` (module `DatabaseService`): the store.
  - The value `Tables` holds one map per table. Each SQL statement of the service is a member
    function of it.
  - The class `Database` holds the same tables in fields. Each method runs one statement in
    place. These are the store calls the controller makes.
- `engine.dfy` (module `AuctionEngine`): each state-changing controller action as a function
  from the tables to a response and the new tables. The functions issue the same reads and
  writes in the same order as the controller.
- `roster.dfy` (module `Roster`): `AddPlayer` and `ImportPlayers`. This covers .NET's
  `String.Split`, `Trim` and `char.IsWhiteSpace` as the import uses them, and the
  `maxOrder + 1` / `++maxOrder` numbering.
- `dashboard.dfy` (module `Dashboard`): the host's and a team's read-only screens.
- `controller.dfy` (module `Controller`): the `AuctionController` class over a `Database`
  object. Each action method issues its store calls one at a time. Its `ensures` ties the
  response and the new store to the engine or roster function of the same name.
- `properties.dfy` (module `AuctionProperties`): properties over arbitrary runs of requests.
  - Primary keys and bid/bidder pairing are always kept. ConfirmSale never faults as a result.
  - A "sound" store is one where every auction row names an unsold player of its own lobby and
    its leader can pay and has room. A request keeps the store sound when it is "well scoped":
    the host starts one of the lobby's own players, a team bids a non-negative amount in its own
    lobby, and a point grant keeps the budget within `int` and at or above any bid the team
    holds.
  - In a sound store, sales are exact and a sold player stays sold.
  - The highest bid only rises between resets, and the audit trail only grows.
- `scenarios.dfy` (module `Scenarios`): what the controller lets through because it does not
  check it.
  - These end in a store that is not sound: a team leading in two lobbies, a sale above the
    leader's remaining budget, a player on two lobbies' blocks, and a bid below zero.
  - These go through from a store that is already not sound: a sold player sold again, and a
    sale at a negative price.

Time (`DateTime.UtcNow`) is an input `now` to the actions that stamp it. On first run the
store starts empty, as `InitializeDatabase` creates it (its `CREATE TABLE IF NOT EXISTS` keeps
the rows of an existing database file). Auto-numbered ids (`TeamId`, `PlayerId`, `BidId`)
come from counters kept with the tables.

## Model

| member | source | states |
|---|---|---|
| Models.Wrap32 | AuctionArena/Controllers/AuctionController.cs:385-386 | The result of C#'s unchecked `int` addition is always in `int`'s range, and a sum already in range is unchanged. |
| Models.Wrap32Congruent | AuctionArena/Controllers/AuctionController.cs:385-386 | The wrapped result differs from the exact sum by a multiple of 2^32. |
| Models.Wrap32SubNegative | AuctionArena/Controllers/AuctionController.cs:385 | Subtracting a negative `int` from an `int` raises it exactly while the result fits. Past INT32_MAX the budget wraps to a negative value. |
| DatabaseService.Tables.GetLobby | AuctionArena/Services/DatabaseService.cs:116-121 | Finds a row exactly when the lobby id is a key, and the row found carries that id. |
| DatabaseService.Tables.GetTeam | AuctionArena/Services/DatabaseService.cs:151-156 | Finds a row exactly when the team id is a key, and the row found carries that id. |
| DatabaseService.Tables.GetPlayer | AuctionArena/Services/DatabaseService.cs:212-217 | Finds a row exactly when the player id is a key, and the row found carries that id. |
| DatabaseService.Tables.GetAuctionState | AuctionArena/Services/DatabaseService.cs:306-312 | Finds a row exactly when the lobby has an auction row, and the row found is keyed by that lobby. |
| DatabaseService.Tables.GetTeamsByLobby | AuctionArena/Services/DatabaseService.cs:142-149 | Holds exactly the lobby's teams, in strictly increasing TeamId order. |
| DatabaseService.Tables.GetTeamByOwnerName | AuctionArena/Services/DatabaseService.cs:158-164 | Finds nothing exactly when no team of the lobby has that owner. Otherwise it finds such a team, the one with the least TeamId. |
| DatabaseService.Tables.GetPlayersByLobby | AuctionArena/Services/DatabaseService.cs:203-210 | Holds each of the lobby's players exactly once (as a multiset) and nothing else, by non-decreasing DisplayOrder. |
| DatabaseService.Tables.GetUnsoldPlayers | AuctionArena/Services/DatabaseService.cs:238-245 | Holds each of the lobby's unsold players exactly once (as a multiset) and nothing else, by non-decreasing DisplayOrder. |
| DatabaseService.Tables.GetSoldPlayers | AuctionArena/Services/DatabaseService.cs:247-254 | Holds each of the lobby's sold players exactly once (as a multiset) and nothing else, priced ones by non-increasing price. |
| DatabaseService.Tables.GetPlayersByTeam | AuctionArena/Services/DatabaseService.cs:219-226 | Holds each player sold to the team exactly once (as a multiset) and nothing else, by non-increasing price. |
| DatabaseService.Tables.GetBidsForPlayer | AuctionArena/Services/DatabaseService.cs:266-273 | Holds each audit record on the player as many times as the trail does (once, with well-formed keys) and nothing else, by non-increasing amount. |
| DatabaseService.PlayerRowsOnce | AuctionArena/Services/DatabaseService.cs:59-60 | With PlayerId as primary key, a scan of Players returns each row exactly once. |
| DatabaseService.BidsOnce | AuctionArena/Services/DatabaseService.cs:74-75 | With BidId auto-numbered from 1, the audit trail holds each record exactly once. |
| DatabaseService.Tables.UpdateLobbyPauseState | AuctionArena/Services/DatabaseService.cs:123-129 | Writes only the pause flag of that lobby. An unknown lobby changes nothing. Keys stay intact. |
| DatabaseService.Tables.UpdateTeamPoints | AuctionArena/Services/DatabaseService.cs:166-172 | Writes only the budget of that team. Every other row and table stays as it was. |
| DatabaseService.Tables.AddPointsToTeam | AuctionArena/Services/DatabaseService.cs:174-180 | Adds to only the budget of that team. An unknown team changes nothing. |
| DatabaseService.Tables.UpdateTeamPlayerCount | AuctionArena/Services/DatabaseService.cs:182-188 | Writes only the roster count of that team. |
| DatabaseService.Tables.CreatePlayer | AuctionArena/Services/DatabaseService.cs:191-201 | Inserts the row under the next PlayerId and advances the counter. Existing players and other tables stay as they were. |
| DatabaseService.Tables.UpdatePlayerSold | AuctionArena/Services/DatabaseService.cs:228-236 | Marks only that player sold, to the team at the price. Its other columns stay as they were. |
| DatabaseService.Tables.CreateBid | AuctionArena/Services/DatabaseService.cs:257-264 | Appends one record with the next BidId to the audit trail and changes nothing else. |
| DatabaseService.Tables.UpdateAuctionState | AuctionArena/Services/DatabaseService.cs:276-304 | Update-or-insert: afterwards the lobby has exactly this row, and other lobbies' rows stay as they were. |
| DatabaseService.Tables.ClearCurrentAuction | AuctionArena/Services/DatabaseService.cs:314-325 | Nulls the four columns of an existing row and never inserts one. Other rows stay as they were. |
| DatabaseService.Database.constructor | AuctionArena/Services/DatabaseService.cs:23-99 | The store starts with empty tables and well-formed keys. |
| DatabaseService.Database.UpdateLobbyPauseState | AuctionArena/Services/DatabaseService.cs:123-129 | The store's new contents are the statement applied to the old ones, and keys stay well formed. |
| DatabaseService.Database.UpdateTeamPoints | AuctionArena/Services/DatabaseService.cs:166-172 | The store's new contents are the statement applied to the old ones. |
| DatabaseService.Database.AddPointsToTeam | AuctionArena/Services/DatabaseService.cs:174-180 | The store's new contents are the statement applied to the old ones. |
| DatabaseService.Database.UpdateTeamPlayerCount | AuctionArena/Services/DatabaseService.cs:182-188 | The store's new contents are the statement applied to the old ones. |
| DatabaseService.Database.CreatePlayer | AuctionArena/Services/DatabaseService.cs:191-201 | Returns the issued PlayerId, and the new contents are the insert applied to the old ones. |
| DatabaseService.Database.UpdatePlayerSold | AuctionArena/Services/DatabaseService.cs:228-236 | The store's new contents are the statement applied to the old ones. |
| DatabaseService.Database.CreateBid | AuctionArena/Services/DatabaseService.cs:257-264 | The store's new contents are the insert applied to the old ones. |
| DatabaseService.Database.UpdateAuctionState | AuctionArena/Services/DatabaseService.cs:276-304 | The store's new contents are the update-or-insert applied to the old ones. |
| DatabaseService.Database.ClearCurrentAuction | AuctionArena/Services/DatabaseService.cs:314-325 | The store's new contents are the statement applied to the old ones. |
| AuctionEngine.PlaceBid | AuctionArena/Controllers/AuctionController.cs:302-360 | Each refusal happens exactly when its check is the first to fail, in order: team/lobby/pause, current player, points, higher bid, roster room. A refusal changes nothing. An admitted bid, which happens exactly when all five checks pass, appends one audit record and sets the highest bid and bidder. |
| AuctionEngine.StartPlayerAuction | AuctionArena/Controllers/AuctionController.cs:270-299 | Refuses exactly a missing or sold player and then changes nothing. Otherwise it overwrites the lobby's auction row with the player, no bid, and the start time. |
| AuctionEngine.ConfirmSale | AuctionArena/Controllers/AuctionController.cs:363-402 | No valid bid exactly when the lobby's row is not on this player or has no bidder. Invalid data exactly when the bidder or player row is missing. A fault exactly when the bid is missing. A non-Ok answer writes nothing. On Ok, the player is sold to the bidder at the bid, the team pays and gains a player in 32-bit arithmetic, and the row is emptied. |
| AuctionEngine.Settle | AuctionArena/Controllers/AuctionController.cs:381-388 | The four writes of a sale in source order; what they amount to is stated by AuctionEngine.SettleEffect. |
| AuctionEngine.SettleEffect | AuctionArena/Controllers/AuctionController.cs:381-389 | The four successive writes of a sale amount to the settled sale, and nothing else changes. |
| AuctionEngine.SkipPlayer | AuctionArena/Controllers/AuctionController.cs:405-418 | Always Ok. It empties only the lobby's row, if any, and touches no team, player, lobby or bid. |
| AuctionEngine.TogglePause | AuctionArena/Controllers/AuctionController.cs:421-435 | NotFound exactly for an unknown lobby, and then nothing changes. Otherwise it flips that lobby's pause flag only. |
| AuctionEngine.AddPoints | AuctionArena/Controllers/AuctionController.cs:438-453 | Always Ok. It adds the amount to that team's budget only, and an unknown team changes nothing. |
| Roster.Split | AuctionArena/Controllers/AuctionController.cs:251 | `String.Split` always yields at least one field. |
| Roster.SplitCount | AuctionArena/Controllers/AuctionController.cs:251-252 | There is one field more than there are separators. |
| Roster.SplitFieldsFree | AuctionArena/Controllers/AuctionController.cs:245 | No field contains the separator. |
| Roster.SplitJoinBack | AuctionArena/Controllers/AuctionController.cs:245 | Joining the fields with the separator gives back the text. |
| Roster.SplitJoin | AuctionArena/Controllers/AuctionController.cs:251 | Splitting undoes joining separator-free fields. |
| Roster.SplitNoSeparator | AuctionArena/Controllers/AuctionController.cs:251 | Text without the separator is a single field. |
| Roster.SplitPrefix | AuctionArena/Controllers/AuctionController.cs:251 | A separator-free prefix before a separator is the first field. |
| Roster.IsWhiteSpace | AuctionArena/Controllers/AuctionController.cs:251 | .NET's `char.IsWhiteSpace`, which `TrimEntries` strips; used by Roster.TrimStart and Roster.TrimEnd. |
| Roster.TrimStart | AuctionArena/Controllers/AuctionController.cs:251 | Removes exactly the leading white space: a suffix remains, and everything removed was white space. |
| Roster.TrimEnd | AuctionArena/Controllers/AuctionController.cs:251 | Removes exactly the trailing white space: a prefix remains, and everything removed was white space. |
| Roster.Trim | AuctionArena/Controllers/AuctionController.cs:251 | The result is trimmed, and trimmed text is left as it is. |
| Roster.Lines | AuctionArena/Controllers/AuctionController.cs:245 | Every line kept is non-empty and contains no newline. |
| Roster.ParseLine | AuctionArena/Controllers/AuctionController.cs:251-252 | A line makes a player exactly when it contains a comma. |
| Roster.ParseLineJoin | AuctionArena/Controllers/AuctionController.cs:251-258 | The line `name,position` parses back to the trimmed name and position. |
| Roster.Parsed | AuctionArena/Controllers/AuctionController.cs:249-264 | At most one player per line. |
| Roster.MaxDisplayOrder | AuctionArena/Controllers/AuctionController.cs:225 | 0 on an empty lobby. Otherwise it is the DisplayOrder of one of the players and at least every player's. |
| Roster.InsertPlayerAfter | AuctionArena/Controllers/AuctionController.cs:227-236 | Inserts exactly one unsold player of the lobby under the next PlayerId, numbered `maxOrder + 1` in 32-bit arithmetic. Every other row stays as it was. |
| Roster.Orders | AuctionArena/Controllers/AuctionController.cs:260 | `++maxOrder` hands out the requested count of numbers, all in `int`'s range. |
| Roster.OrdersConsecutive | AuctionArena/Controllers/AuctionController.cs:260 | Without overflow the numbers run consecutively from `maxOrder + 1`. |
| Roster.OrdersWrap | AuctionArena/Controllers/AuctionController.cs:260 | After 2147483647 the next number is -2147483648. |
| Roster.ImportLinesFrame | AuctionArena/Controllers/AuctionController.cs:249-264 | The import loop issues one fresh id per parsed line and keeps keys well formed. Existing players and every other table stay as they were. |
| Roster.ImportLinesNew | AuctionArena/Controllers/AuctionController.cs:249-264 | The i-th parsed line becomes the player with the i-th fresh id: in the lobby, unsold, with that name and position and the i-th number. |
| Roster.AddPlayer | AuctionArena/Controllers/AuctionController.cs:221-238 | Inserts one unsold player of the lobby under the next PlayerId with the given name and position, changing nothing else. Barring overflow the player is numbered after every player the lobby has, and 1 in an empty lobby. Its exact number is stated by Roster.AddPlayerNumber. |
| Roster.AddPlayerNumber | AuctionArena/Controllers/AuctionController.cs:224-233 | The new player is numbered `max + 1` in 32-bit arithmetic, where `max` is the lobby's highest DisplayOrder, or 0 when the lobby has no players. |
| Roster.ImportLines | AuctionArena/Controllers/AuctionController.cs:249-264 | The import loop; its effect is stated by Roster.ImportLinesFrame and Roster.ImportLinesNew. |
| Roster.ImportPlayers | AuctionArena/Controllers/AuctionController.cs:241-267 | The import action; its effect is stated by Roster.ImportPlayersEffect and Roster.ImportPlayersNumbering, and its relation to AddPlayer by Roster.AddPlayerIsImportOfOneLine. |
| Roster.ImportPlayersEffect | AuctionArena/Controllers/AuctionController.cs:241-267 | Null text changes nothing. Otherwise exactly the parsed lines become new players, numbered on from the lobby's highest DisplayOrder, and nothing else changes. |
| Roster.ImportPlayersNumbering | AuctionArena/Controllers/AuctionController.cs:247-260 | Barring overflow, imported players are numbered consecutively after every player the lobby had, and from 1 in an empty lobby. |
| Roster.AddPlayerIsImportOfOneLine | AuctionArena/Controllers/AuctionController.cs:221-267 | Adding a player stores the same as importing the one line `name,position`. |
| Roster.ImportOneLine | AuctionArena/Controllers/AuctionController.cs:249-263 | Importing one parsable line inserts one player. |
| Dashboard.CurrentPlayerOf | AuctionArena/Controllers/AuctionController.cs:128-133 | A player is shown exactly when the row names one that exists, and it is that player. |
| Dashboard.CurrentBidderOf | AuctionArena/Controllers/AuctionController.cs:129-137 | A bidder is shown exactly when the row names a current player and an existing bidder, and it is that team. |
| Dashboard.HighestBidOf | AuctionArena/Controllers/AuctionController.cs:145 | Shows the row's highest bid (possibly none) when the lobby has an auction row, and no bid when it has none. |
| Dashboard.HostDashboard | AuctionArena/Controllers/AuctionController.cs:115-153 | NotFound exactly for an unknown lobby. Otherwise it shows the lobby, its pause flag and exactly its teams. |
| Dashboard.HostDashboardPartition | AuctionArena/Controllers/AuctionController.cs:147-148 | The remaining and sold lists split the lobby's players exactly, each in DisplayOrder. As multisets they equal GetUnsoldPlayers and GetSoldPlayers. |
| Dashboard.TeamDashboard | AuctionArena/Controllers/AuctionController.cs:156-196 | NotFound exactly when the lobby or team is unknown. Otherwise it shows the team, its budget, the pause flag, and exactly the players sold to it. |
| Dashboard.CanBid | AuctionArena/Controllers/AuctionController.cs:191 | The team screen's CanBid flag; how it relates to PlaceBid is stated by Dashboard.CanBidAllIn, Dashboard.PositiveAdmissibleAmountShowsCanBid, Dashboard.ZeroBudgetHidesAdmittedBid and Dashboard.PausedLobbyStillShowsCanBid. |
| Dashboard.CanBidAllIn | AuctionArena/Controllers/AuctionController.cs:191 | When CanBid is shown, bidding the whole budget passes PlaceBid's points check and higher-bid check. |
| Dashboard.PositiveAdmissibleAmountShowsCanBid | AuctionArena/Controllers/AuctionController.cs:191 | When a player is shown and some positive amount passes those two checks, CanBid is shown. |
| Dashboard.ZeroBudgetHidesAdmittedBid | AuctionArena/Controllers/AuctionController.cs:191 | A team with no points is shown it cannot bid, yet its bid of 0 is admitted. |
| Dashboard.PausedLobbyStillShowsCanBid | AuctionArena/Controllers/AuctionController.cs:191 | In a paused lobby CanBid can be shown while every bid is refused. |
| AuctionProperties.StepKeepsWellKeyed | AuctionArena/Services/DatabaseService.cs:28-99 | Every action keeps every table's primary keys intact. |
| AuctionProperties.StepKeepsPairing | AuctionArena/Controllers/AuctionController.cs:346-347 | Every action keeps each auction row's highest bid and highest bidder null together. |
| AuctionProperties.RunKeepsPairing | AuctionArena/Controllers/AuctionController.cs:270-453 | Keys and pairing survive any run of requests. |
| AuctionProperties.ConfirmSaleNeverFaults | AuctionArena/Controllers/AuctionController.cs:382 | With pairing, `CurrentHighestBid!.Value` never throws. |
| AuctionProperties.SoundWithNewPlayers | AuctionArena/Controllers/AuctionController.cs:221-267 | Adding players without changing existing rows keeps a store sound. |
| AuctionProperties.SoundAfterStart | AuctionArena/Controllers/AuctionController.cs:270-299 | Putting up one of the lobby's own players keeps the store sound. |
| AuctionProperties.SoundAfterOffer | AuctionArena/Controllers/AuctionController.cs:302-360 | A non-negative bid by a team of the lobby keeps the store sound. |
| AuctionProperties.SoundAfterSell | AuctionArena/Controllers/AuctionController.cs:363-402 | A sale keeps the store sound. |
| AuctionProperties.SettledKeepsSound | AuctionArena/Controllers/AuctionController.cs:381-388 | Settling the leading bid of a sound store leaves a sound store. |
| AuctionProperties.SoundAfterSkip | AuctionArena/Controllers/AuctionController.cs:405-418 | A skip keeps the store sound. |
| AuctionProperties.SoundAfterPause | AuctionArena/Controllers/AuctionController.cs:421-435 | A pause toggle keeps the store sound. |
| AuctionProperties.SoundAfterGrant | AuctionArena/Controllers/AuctionController.cs:438-453 | A point adjustment that keeps the budget in range and above the team's held bids keeps the store sound. |
| AuctionProperties.StepKeepsSound | AuctionArena/Controllers/AuctionController.cs:221-453 | Every well-scoped request keeps the store sound. |
| AuctionProperties.RunKeepsSound | AuctionArena/Controllers/AuctionController.cs:221-453 | Any run of well-scoped requests from a sound store ends in a sound store. |
| AuctionProperties.AdmittedBidFields | AuctionArena/Controllers/AuctionController.cs:344-348 | An admitted bid changes no lobby, team or player. It keeps the row's player, sets bid and bidder there, and leaves other rows alone. |
| AuctionProperties.SaleFields | AuctionArena/Controllers/AuctionController.cs:381-389 | When a team leads, the sale goes through: the player is sold to it at the bid, it pays and gains one in 32-bit arithmetic, and the row is emptied. Other rows stay as they were. |
| AuctionProperties.SaleLeavesOtherRows | AuctionArena/Controllers/AuctionController.cs:380-388 | A sale leaves every other lobby's auction row as it was. |
| AuctionProperties.SoundSaleIsExact | AuctionArena/Controllers/AuctionController.cs:363-402 | In a sound store a sale succeeds exactly when a team leads on the player, and otherwise answers NoValidBid with no change. On success the price is non-negative and within the budget and is deducted without wrap-around, while the roster grows by one within the lobby's limit. |
| AuctionProperties.SoldPlayerIsFinal | AuctionArena/Controllers/AuctionController.cs:274 | In a sound store a sold player cannot be put up, bid on or sold. |
| AuctionProperties.StepKeepsSoldPlayer | AuctionArena/Controllers/AuctionController.cs:270-453 | No request in a sound store changes a sold player's row. |
| AuctionProperties.RunKeepsSoldPlayer | AuctionArena/Controllers/AuctionController.cs:270-453 | A sold player stays sold to the same team at the same price through any well-scoped run. |
| AuctionProperties.CurrentInOneLobby | AuctionArena/Controllers/AuctionController.cs:270-299 | In a sound store a player is on at most one lobby's block, its own. |
| AuctionProperties.StepRaisesBid | AuctionArena/Controllers/AuctionController.cs:324-348 | A request that does not reset the lobby keeps its player on the block and never lowers its highest bid. An admitted bid there raises it strictly. |
| AuctionProperties.RunRaisesBid | AuctionArena/Controllers/AuctionController.cs:302-360 | Between resets the player on the block stays the same and the highest bid never falls. |
| AuctionProperties.StepExtendsBidLog | AuctionArena/Controllers/AuctionController.cs:344 | The audit trail keeps its prefix and gains one record exactly on an admitted bid. |
| AuctionProperties.RunExtendsBidLog | AuctionArena/Controllers/AuctionController.cs:344 | Over a run the trail keeps its prefix and gains at most one record per request. |
| AuctionProperties.TogglePauseTwice | AuctionArena/Controllers/AuctionController.cs:421-435 | Toggling pause twice restores the store. |
| AuctionProperties.AddPointsAdds | AuctionArena/Controllers/AuctionController.cs:438-453 | Two point adjustments equal one of their sum. |
| Scenarios.OneTeamLeadsTwoLobbies | AuctionArena/Controllers/AuctionController.cs:309-348 | One team can lead two lobbies at once with the same amount, and the resulting store is not sound. |
| Scenarios.SaleOverdraws | AuctionArena/Controllers/AuctionController.cs:385 | A leader whose bid exceeds its remaining budget is still sold the player, and its budget goes below zero, leaving a store that is not sound. |
| Scenarios.PlayerOnTwoBlocks | AuctionArena/Controllers/AuctionController.cs:273-288 | Another lobby can put up a player that is already on a block, leaving a store that is not sound. |
| Scenarios.SoldPlayerSoldAgain | AuctionArena/Controllers/AuctionController.cs:366-389 | A sold player still on a block is sold again to a new buyer, and the first buyer keeps its reduced budget; such a starting store is not sound. |
| Scenarios.NegativeBidLeads | AuctionArena/Controllers/AuctionController.cs:319-348 | A bid below zero is admitted when nobody has bid, and the team leads with it, leaving a store that is not sound. |
| Scenarios.NegativePricePaysTheBuyer | AuctionArena/Controllers/AuctionController.cs:385 | A sale at a negative price raises the buyer's budget. Past INT32_MAX the budget wraps to negative. A store where a negative bid leads is not sound. |
| Controller.AuctionController.constructor | AuctionArena/Controllers/AuctionController.cs:11-18 | The controller works on the store it is given; the hub context is not modelled. |
| Controller.AuctionController.PlaceBid | AuctionArena/Controllers/AuctionController.cs:302-360 | The response and the new store are those of AuctionEngine.PlaceBid on the old store. |
| Controller.AuctionController.StartPlayerAuction | AuctionArena/Controllers/AuctionController.cs:270-299 | The response and the new store are those of AuctionEngine.StartPlayerAuction. |
| Controller.AuctionController.ConfirmSale | AuctionArena/Controllers/AuctionController.cs:363-402 | The four store calls end in the response and the store of AuctionEngine.ConfirmSale. |
| Controller.AuctionController.SkipPlayer | AuctionArena/Controllers/AuctionController.cs:405-418 | The response and the new store are those of AuctionEngine.SkipPlayer. |
| Controller.AuctionController.TogglePause | AuctionArena/Controllers/AuctionController.cs:421-435 | The response and the new store are those of AuctionEngine.TogglePause. |
| Controller.AuctionController.AddPoints | AuctionArena/Controllers/AuctionController.cs:438-453 | The response and the new store are those of AuctionEngine.AddPoints. |
| Controller.AuctionController.AddPlayer | AuctionArena/Controllers/AuctionController.cs:221-238 | The new store is Roster.AddPlayer of the old one. |
| Controller.AuctionController.ImportPlayers | AuctionArena/Controllers/AuctionController.cs:241-267 | The loop's inserts end in Roster.ImportPlayers of the old store. |

## Left out

- SignalR notifications (`_hubContext.Clients...SendAsync`) and the `AuctionHub` group joins
  are not modelled. They change no stored state.
- Concurrency is not modelled. Requests run one after another. Two requests interleaving between
  their reads and writes (two bids read the same highest bid) are outside the model.
- SQL, Dapper and SQLite are modelled by their effect on tables keyed by primary key. Column
  types, the 64-bit read-back of `INTEGER` columns into C# `int`, and how `ORDER BY` breaks ties
  are not modelled. `SortBy` is one stable order. The results are fixed up to their elements
  and key order.
- Lobbies keyed by a `Guid`-derived code, `CreateLobby`, `CreateTeam`, `JoinLobby` and the
  `ManagePlayers` page are not part of this model. Teams and lobbies appear only as rows of the
  given store.
- `DateTime.UtcNow` is the parameter `now`. `AuctionStartTime` and `BidTime` keep it unchanged.
- MVC routing, model binding, views and redirects are not modelled. `AddPlayer` and
  `ImportPlayers` end in a redirect, modelled as Ok in `AuctionProperties.Step`. A missing
  `playersData` is `null`, modelled as `Option`.
- Roster.AddPlayer and Roster.ImportPlayers: MVC binds an empty or missing `lobbyId`,
  `playerName` or `position` to `null`; AddPlayer then writes null into the `NOT NULL` columns
  `PlayerName`/`Position`, `CreatePlayer` throws and nothing is stored. This error path is not
  modelled: the model's strings are never null, so AddPlayer always inserts (for instance a
  player named "").
- The schema's `FOREIGN KEY` clauses are not enforced in the model. They are LobbyId on Teams,
  Players, Bids and AuctionState; SoldToTeamId on Players; PlayerId and TeamId on Bids; and
  CurrentPlayerId and CurrentHighestBidderTeamId on AuctionState. The source never issues
  `PRAGMA foreign_keys`, so whether SQLite enforces them depends on the build. The model
  assumes they are not enforced. Three actions accept a lobby id that has no `Lobbies` row:
  AuctionEngine.StartPlayerAuction inserts an AuctionState row for it and answers Ok, and
  Roster.AddPlayer and Roster.ImportPlayers insert players for it. With enforcement on, each
  of these inserts would throw and store nothing.
- DatabaseService.Tables.GetTeamByOwnerName: the SQL has no `ORDER BY`; the model returns the
  match with the least TeamId, assuming SQLite scans the table in rowid order.
- Strings are sequences of Dafny `char` (Unicode scalar values); .NET's UTF-16 surrogate
  pairs and culture-specific comparison are not modelled.
- AuctionEngine.AddPoints: the addition is SQLite's 64-bit `RemainingPoints + @AdditionalPoints`. It is modelled
  exactly (unbounded), so a result outside `int` is kept as stored rather than as C# would read
  it back. After the add, the controller reads the team back with `GetTeam`. When the sum is
  outside `int`, that read-back into the C# `int` property fails, so the real answer is a
  server error rather than the Ok the model gives; the addition itself is still stored.
- The scenario lemmas show requests the controller accepts although they break the sound-store
  invariant: bids across lobbies, negative bids, a player on two blocks, and a sale that
  overdraws a budget. No corrected controller is modelled for them, because the source promises
  no such check.
