/** The auction engine: the state-changing actions of AuctionController
    (AuctionArena/Controllers/AuctionController.cs) as functions from the store's tables to a
    response and the new tables. Each action is the same sequence of store reads and writes the
    controller performs; SignalR notifications are not modelled. */
module AuctionEngine {
  import opened Models
  import opened DatabaseService

  /** Why a request was refused (the text of the `BadRequest`). */
  datatype Reason =
    | InvalidBid          // "Invalid bid": unknown team or lobby, or the lobby is paused
    | NotInAuction        // "This player is not currently in auction"
    | InsufficientPoints  // "Insufficient points"
    | BidNotHigher        // "Bid must be higher than current bid"
    | TeamFull            // "Team has reached maximum players"
    | PlayerNotAvailable  // "Player not available"
    | NoValidBid          // "No valid bid to confirm"
    | InvalidData         // "Invalid data"

  /** `Fault` is an unhandled exception (`.Value` of a null `int?` throws
      InvalidOperationException), which reaches the client as a server error before anything was
      written. */
  datatype Response = Ok | BadRequest(reason: Reason) | NotFound | Fault

  datatype Outcome = Outcome(response: Response, tables: Tables)

  // ------------------------------------------------------------------ the admission checks of PlaceBid

  /** Check (a): the team and the lobby exist and bidding is not paused. */
  predicate BidderAndLobbyReady(t: Tables, lobbyId: string, teamId: int) {
    teamId in t.teams && lobbyId in t.lobbies && !t.lobbies[lobbyId].isPaused
  }

  /** Check (b): the lobby's auction row names this player. A lobby without a row has no current
      player. */
  predicate IsCurrentPlayer(t: Tables, lobbyId: string, playerId: int) {
    lobbyId in t.auctionStates && t.auctionStates[lobbyId].currentPlayerId == Some(playerId)
  }

  /** Check (c): the team can pay the amount. */
  predicate Affordable(team: Team, amount: int) {
    amount <= team.remainingPoints
  }

  /** Check (d): the amount beats the highest bid so far; a tie loses. */
  predicate Outbids(s: AuctionState, amount: int) {
    s.currentHighestBid.None? || s.currentHighestBid.value < amount
  }

  /** Check (e): the team has room for one more player. */
  predicate HasRosterRoom(team: Team, lobby: Lobby) {
    team.playerCount < lobby.maxPlayersPerTeam
  }

  /** All five checks pass. */
  predicate BidAdmissible(t: Tables, lobbyId: string, playerId: int, teamId: int, amount: int) {
    && BidderAndLobbyReady(t, lobbyId, teamId)
    && IsCurrentPlayer(t, lobbyId, playerId)
    && Affordable(t.teams[teamId], amount)
    && Outbids(t.auctionStates[lobbyId], amount)
    && HasRosterRoom(t.teams[teamId], t.lobbies[lobbyId])
  }

  /** The bid a team places, as the audit table stores it (the id is issued on insert). */
  function BidRecord(lobbyId: string, playerId: int, teamId: int, amount: int, now: int): Bid {
    Bid(0, lobbyId, playerId, teamId, amount, now)
  }

  /** PlaceBid: the checks run in order and the first that fails decides the answer; a refused
      bid writes nothing. An admitted bid is appended to the audit table and becomes the highest
      bid, the rest of the auction row staying as it was. */
  function PlaceBid(t: Tables, lobbyId: string, playerId: int, teamId: int, bidAmount: int, now: int): (r: Outcome)
    ensures r.response == BadRequest(InvalidBid) <==> !BidderAndLobbyReady(t, lobbyId, teamId)
    ensures r.response == BadRequest(NotInAuction) <==>
      BidderAndLobbyReady(t, lobbyId, teamId) && !IsCurrentPlayer(t, lobbyId, playerId)
    ensures r.response == BadRequest(InsufficientPoints) <==>
      && BidderAndLobbyReady(t, lobbyId, teamId) && IsCurrentPlayer(t, lobbyId, playerId)
      && !Affordable(t.teams[teamId], bidAmount)
    ensures r.response == BadRequest(BidNotHigher) <==>
      && BidderAndLobbyReady(t, lobbyId, teamId) && IsCurrentPlayer(t, lobbyId, playerId)
      && Affordable(t.teams[teamId], bidAmount) && !Outbids(t.auctionStates[lobbyId], bidAmount)
    ensures r.response == BadRequest(TeamFull) <==>
      && BidderAndLobbyReady(t, lobbyId, teamId) && IsCurrentPlayer(t, lobbyId, playerId)
      && Affordable(t.teams[teamId], bidAmount) && Outbids(t.auctionStates[lobbyId], bidAmount)
      && !HasRosterRoom(t.teams[teamId], t.lobbies[lobbyId])
    ensures r.response == Ok <==> BidAdmissible(t, lobbyId, playerId, teamId, bidAmount)
    ensures r.response != Ok ==> r.tables == t
    ensures t.WellKeyed() && r.response == Ok ==>
      r.tables == t.(
        bids := t.bids + [Bid(|t.bids| + 1, lobbyId, playerId, teamId, bidAmount, now)],
        auctionStates := t.auctionStates[lobbyId := t.auctionStates[lobbyId].(
          currentHighestBid := Some(bidAmount), currentHighestBidderTeamId := Some(teamId))])
  {
    var team := t.GetTeam(teamId);
    var auctionState := t.GetAuctionState(lobbyId);
    var lobby := t.GetLobby(lobbyId);
    if team.None? || lobby.None? || lobby.value.isPaused then
      Outcome(BadRequest(InvalidBid), t)
    else if auctionState.None? || auctionState.value.currentPlayerId != Some(playerId) then
      Outcome(BadRequest(NotInAuction), t)
    else if bidAmount > team.value.remainingPoints then
      Outcome(BadRequest(InsufficientPoints), t)
    else if auctionState.value.currentHighestBid.Some? && bidAmount <= auctionState.value.currentHighestBid.value then
      Outcome(BadRequest(BidNotHigher), t)
    else if team.value.playerCount >= lobby.value.maxPlayersPerTeam then
      Outcome(BadRequest(TeamFull), t)
    else
      var t1 := t.CreateBid(BidRecord(lobbyId, playerId, teamId, bidAmount, now));
      var t2 := t1.UpdateAuctionState(auctionState.value.(
        currentHighestBid := Some(bidAmount), currentHighestBidderTeamId := Some(teamId)));
      Outcome(Ok, t2)
  }

  // ------------------------------------------------------------------ putting a player up

  /** StartPlayerAuction refuses a missing or already auctioned player and otherwise overwrites
      the lobby's auction row, whatever auction it held, with a fresh one that has no bid yet. */
  function StartPlayerAuction(t: Tables, lobbyId: string, playerId: int, now: int): (r: Outcome)
    ensures r.response == Ok <==> playerId in t.players && !t.players[playerId].isAuctioned
    ensures r.response != Ok ==> r.response == BadRequest(PlayerNotAvailable) && r.tables == t
    ensures r.response == Ok ==>
      r.tables == t.(auctionStates := t.auctionStates[lobbyId := AuctionState(lobbyId, Some(playerId), None, None, Some(now))])
  {
    var player := t.GetPlayer(playerId);
    if player.None? || player.value.isAuctioned then
      Outcome(BadRequest(PlayerNotAvailable), t)
    else
      Outcome(Ok, t.UpdateAuctionState(AuctionState(lobbyId, Some(playerId), None, None, Some(now))))
  }

  // ------------------------------------------------------------------ selling

  /** The lobby's auction is on this player and some team holds the highest bid. */
  predicate HasBidder(t: Tables, lobbyId: string, playerId: int) {
    IsCurrentPlayer(t, lobbyId, playerId) && t.auctionStates[lobbyId].currentHighestBidderTeamId.Some?
  }

  /** The effect of a committed sale at `price` to team `k`: the player is sold to `k` at that
      price, `k` pays the price and gains a player (in C#'s 32-bit arithmetic), the lobby's
      auction row is emptied, and nothing else changes. */
  ghost predicate SaleSettled(t: Tables, t': Tables, lobbyId: string, playerId: int, k: int, price: int)
    requires playerId in t.players && k in t.teams && lobbyId in t.auctionStates
  {
    t' == t.(
      players := t.players[playerId := SoldTo(t.players[playerId], k, price)],
      teams := t.teams[k := t.teams[k].(
        remainingPoints := Wrap32(t.teams[k].remainingPoints - price),
        playerCount := Wrap32(t.teams[k].playerCount + 1))],
      auctionStates := t.auctionStates[lobbyId := Cleared(t.auctionStates[lobbyId])])
  }

  /** ConfirmSale commits the highest bid: four successive writes (player, team points, team
      count, auction row) computed from what was read before the first of them. */
  function ConfirmSale(t: Tables, lobbyId: string, playerId: int): (r: Outcome)
    ensures r.response == BadRequest(NoValidBid) <==> !HasBidder(t, lobbyId, playerId)
    ensures r.response == BadRequest(InvalidData) <==>
      && HasBidder(t, lobbyId, playerId)
      && (t.auctionStates[lobbyId].currentHighestBidderTeamId.value !in t.teams || playerId !in t.players)
    ensures r.response == Fault <==>
      && HasBidder(t, lobbyId, playerId)
      && t.auctionStates[lobbyId].currentHighestBidderTeamId.value in t.teams && playerId in t.players
      && t.auctionStates[lobbyId].currentHighestBid.None?
    ensures r.response in {Ok, Fault, BadRequest(NoValidBid), BadRequest(InvalidData)}
    ensures r.response != Ok ==> r.tables == t
    ensures t.WellKeyed() && r.response == Ok ==>
      SaleSettled(t, r.tables, lobbyId, playerId,
        t.auctionStates[lobbyId].currentHighestBidderTeamId.value, t.auctionStates[lobbyId].currentHighestBid.value)
  {
    var auctionState := t.GetAuctionState(lobbyId);
    if auctionState.None? || auctionState.value.currentPlayerId != Some(playerId)
       || auctionState.value.currentHighestBidderTeamId.None? then
      Outcome(BadRequest(NoValidBid), t)
    else
      var team := t.GetTeam(auctionState.value.currentHighestBidderTeamId.value);
      var player := t.GetPlayer(playerId);
      if team.None? || player.None? then
        Outcome(BadRequest(InvalidData), t)
      else if auctionState.value.currentHighestBid.None? then
        Outcome(Fault, t)
      else
        var price := auctionState.value.currentHighestBid.value;
        var k := team.value.teamId;
        SettleEffect(t, lobbyId, playerId, k, team.value.remainingPoints, team.value.playerCount, price);
        Outcome(Ok, Settle(t, lobbyId, playerId, k, team.value.remainingPoints, team.value.playerCount, price))
  }

  /** The four writes of a committed sale, in the order ConfirmSale issues them; `points` and
      `count` are the team's columns as read before the first of them. */
  function Settle(t: Tables, lobbyId: string, playerId: int, k: int, points: int, count: int, price: int): Tables {
    t.UpdatePlayerSold(playerId, k, price)
     .UpdateTeamPoints(k, Wrap32(points - price))
     .UpdateTeamPlayerCount(k, Wrap32(count + 1))
     .ClearCurrentAuction(lobbyId)
  }

  lemma SettleEffect(t: Tables, lobbyId: string, playerId: int, k: int, points: int, count: int, price: int)
    ensures playerId in t.players && k in t.teams && lobbyId in t.auctionStates
            && t.teams[k].remainingPoints == points && t.teams[k].playerCount == count ==>
      SaleSettled(t, Settle(t, lobbyId, playerId, k, points, count, price), lobbyId, playerId, k, price)
  {
    if playerId in t.players && k in t.teams && lobbyId in t.auctionStates
       && t.teams[k].remainingPoints == points && t.teams[k].playerCount == count {
      SettleSteps(t, lobbyId, playerId, k, points, count, price);
    }
  }

  /** The four writes of a sale one at a time, each on the row the previous ones left. */
  lemma SettleSteps(t: Tables, lobbyId: string, playerId: int, k: int, points: int, count: int, price: int)
    requires playerId in t.players && k in t.teams && lobbyId in t.auctionStates
    requires t.teams[k].remainingPoints == points && t.teams[k].playerCount == count
    ensures SaleSettled(t, Settle(t, lobbyId, playerId, k, points, count, price), lobbyId, playerId, k, price)
  {
    var w1 := Wrap32(points - price);
    var w2 := Wrap32(count + 1);
    var players := t.players[playerId := SoldTo(t.players[playerId], k, price)];
    var teams1 := t.teams[k := t.teams[k].(remainingPoints := w1)];
    var teams2 := t.teams[k := t.teams[k].(remainingPoints := w1, playerCount := w2)];
    var t1 := t.UpdatePlayerSold(playerId, k, price);
    assert t1 == t.(players := players);
    var t2 := t1.UpdateTeamPoints(k, w1);
    assert t2 == t.(players := players, teams := teams1);
    assert teams1[k := teams1[k].(playerCount := w2)] == teams2;
    var t3 := t2.UpdateTeamPlayerCount(k, w2);
    assert t3 == t.(players := players, teams := teams2);
    var states := t.auctionStates[lobbyId := Cleared(t.auctionStates[lobbyId])];
    var r := t3.ClearCurrentAuction(lobbyId);
    assert r == Tables(t.lobbies, teams2, players, t.bids, states, t.nextTeamId, t.nextPlayerId);
    SettledByRows(t, r, lobbyId, playerId, k, points, count, price);
    SettleUnfolds(t, lobbyId, playerId, k, points, count, price);
  }

  /** SaleSettled, column by column. Only unfolds definitions; a separate lemma keeps the
      solver's work small. */
  lemma SettledByRows(t: Tables, r: Tables, lobbyId: string, playerId: int, k: int, points: int, count: int, price: int)
    requires playerId in t.players && k in t.teams && lobbyId in t.auctionStates
    requires t.teams[k].remainingPoints == points && t.teams[k].playerCount == count
    requires r == Tables(t.lobbies,
      t.teams[k := t.teams[k].(remainingPoints := Wrap32(points - price), playerCount := Wrap32(count + 1))],
      t.players[playerId := SoldTo(t.players[playerId], k, price)],
      t.bids,
      t.auctionStates[lobbyId := Cleared(t.auctionStates[lobbyId])],
      t.nextTeamId, t.nextPlayerId)
    ensures SaleSettled(t, r, lobbyId, playerId, k, price)
  {
  }

  /** Settle's definition, as a lemma of its own to keep the solver's work small. */
  lemma SettleUnfolds(t: Tables, lobbyId: string, playerId: int, k: int, points: int, count: int, price: int)
    ensures Settle(t, lobbyId, playerId, k, points, count, price) ==
      t.UpdatePlayerSold(playerId, k, price)
       .UpdateTeamPoints(k, Wrap32(points - price))
       .UpdateTeamPlayerCount(k, Wrap32(count + 1))
       .ClearCurrentAuction(lobbyId)
  {
  }

  // ------------------------------------------------------------------ host controls

  /** SkipPlayer always succeeds: it empties the lobby's auction row if there is one and touches
      no team, player, lobby or bid. */
  function SkipPlayer(t: Tables, lobbyId: string): (r: Outcome)
    ensures r.response == Ok
    ensures r.tables.(auctionStates := t.auctionStates) == t
    ensures r.tables.auctionStates.Keys == t.auctionStates.Keys
    ensures lobbyId in t.auctionStates ==> Idle(r.tables.auctionStates[lobbyId])
    ensures forall l :: l in t.auctionStates && l != lobbyId ==> r.tables.auctionStates[l] == t.auctionStates[l]
  {
    Outcome(Ok, t.ClearCurrentAuction(lobbyId))
  }

  /** TogglePause flips the lobby's pause flag, or answers NotFound for an unknown lobby. */
  function TogglePause(t: Tables, lobbyId: string): (r: Outcome)
    ensures r.response == NotFound <==> lobbyId !in t.lobbies
    ensures r.response != NotFound ==> r.response == Ok
    ensures r.response == NotFound ==> r.tables == t
    ensures r.response == Ok ==>
      r.tables == t.(lobbies := t.lobbies[lobbyId := t.lobbies[lobbyId].(isPaused := !t.lobbies[lobbyId].isPaused)])
  {
    var lobby := t.GetLobby(lobbyId);
    if lobby.None? then Outcome(NotFound, t)
    else Outcome(Ok, t.UpdateLobbyPauseState(lobbyId, !lobby.value.isPaused))
  }

  /** AddPoints adds `additionalPoints` (possibly negative, with no lower bound on the result)
      to the team's budget; an unknown team is not an error and nothing changes. */
  function AddPoints(t: Tables, lobbyId: string, teamId: int, additionalPoints: int): (r: Outcome)
    ensures r.response == Ok
    ensures r.tables.(teams := t.teams) == t
    ensures r.tables.teams.Keys == t.teams.Keys
    ensures teamId in t.teams ==>
      r.tables.teams[teamId] == t.teams[teamId].(remainingPoints := t.teams[teamId].remainingPoints + additionalPoints)
    ensures forall k :: k in t.teams && k != teamId ==> r.tables.teams[k] == t.teams[k]
  {
    Outcome(Ok, t.AddPointsToTeam(teamId, additionalPoints))
  }
}
