/** AuctionController (AuctionArena/Controllers/AuctionController.cs) as an object over the store:
    each action reads what it needs, then issues its writes one store call at a time, and ends in
    the response and the tables the engine function of the same name describes. */
module Controller {
  import opened Models
  import opened DatabaseService
  import E = AuctionEngine
  import R = Roster

  class AuctionController {
    const db: Database

    constructor (db: Database)
      ensures this.db == db
    {
      this.db := db;
    }

    /** PlaceBid: five checks in order, then the audit record and the new highest bid. */
    method PlaceBid(lobbyId: string, playerId: int, teamId: int, bidAmount: int, now: int) returns (response: E.Response)
      requires db.Valid()
      modifies db
      ensures db.Valid()
      ensures var o := E.PlaceBid(old(db.Snapshot()), lobbyId, playerId, teamId, bidAmount, now);
              response == o.response && db.Snapshot() == o.tables
    {
      var t := db.Snapshot();
      var team := t.GetTeam(teamId);
      var auctionState := t.GetAuctionState(lobbyId);
      var lobby := t.GetLobby(lobbyId);
      if team.None? || lobby.None? || lobby.value.isPaused {
        return E.BadRequest(E.InvalidBid);
      }
      if auctionState.None? || auctionState.value.currentPlayerId != Some(playerId) {
        return E.BadRequest(E.NotInAuction);
      }
      if bidAmount > team.value.remainingPoints {
        return E.BadRequest(E.InsufficientPoints);
      }
      if auctionState.value.currentHighestBid.Some? && bidAmount <= auctionState.value.currentHighestBid.value {
        return E.BadRequest(E.BidNotHigher);
      }
      if team.value.playerCount >= lobby.value.maxPlayersPerTeam {
        return E.BadRequest(E.TeamFull);
      }
      db.CreateBid(E.BidRecord(lobbyId, playerId, teamId, bidAmount, now));
      db.UpdateAuctionState(auctionState.value.(currentHighestBid := Some(bidAmount), currentHighestBidderTeamId := Some(teamId)));
      response := E.Ok;
    }

    /** StartPlayerAuction: refuses a missing or sold player, else stores a fresh auction row. */
    method StartPlayerAuction(lobbyId: string, playerId: int, now: int) returns (response: E.Response)
      requires db.Valid()
      modifies db
      ensures db.Valid()
      ensures var o := E.StartPlayerAuction(old(db.Snapshot()), lobbyId, playerId, now);
              response == o.response && db.Snapshot() == o.tables
    {
      var player := db.Snapshot().GetPlayer(playerId);
      if player.None? || player.value.isAuctioned {
        return E.BadRequest(E.PlayerNotAvailable);
      }
      db.UpdateAuctionState(AuctionState(lobbyId, Some(playerId), None, None, Some(now)));
      response := E.Ok;
    }

    /** ConfirmSale: the player, the team's points, the team's count and the auction row are
        written one after the other, all from values read before the first write. A missing
        highest bid raises before any write. */
    method ConfirmSale(lobbyId: string, playerId: int) returns (response: E.Response)
      requires db.Valid()
      modifies db
      ensures db.Valid()
      ensures var o := E.ConfirmSale(old(db.Snapshot()), lobbyId, playerId);
              response == o.response && db.Snapshot() == o.tables
    {
      var t := db.Snapshot();
      var auctionState := t.GetAuctionState(lobbyId);
      if auctionState.None? || auctionState.value.currentPlayerId != Some(playerId)
         || auctionState.value.currentHighestBidderTeamId.None? {
        return E.BadRequest(E.NoValidBid);
      }
      var team := t.GetTeam(auctionState.value.currentHighestBidderTeamId.value);
      var player := t.GetPlayer(playerId);
      if team.None? || player.None? {
        return E.BadRequest(E.InvalidData);
      }
      if auctionState.value.currentHighestBid.None? {
        return E.Fault;
      }
      var price := auctionState.value.currentHighestBid.value;
      var k := team.value.teamId;
      var points := Wrap32(team.value.remainingPoints - price);
      var count := Wrap32(team.value.playerCount + 1);
      db.UpdatePlayerSold(playerId, k, price);
      ghost var t1 := t.UpdatePlayerSold(playerId, k, price);
      assert db.Snapshot() == t1;
      db.UpdateTeamPoints(k, points);
      ghost var t2 := t1.UpdateTeamPoints(k, points);
      assert db.Snapshot() == t2;
      db.UpdateTeamPlayerCount(k, count);
      ghost var t3 := t2.UpdateTeamPlayerCount(k, count);
      assert db.Snapshot() == t3;
      db.ClearCurrentAuction(lobbyId);
      assert db.Snapshot() == E.Settle(t, lobbyId, playerId, k, team.value.remainingPoints, team.value.playerCount, price);
      response := E.Ok;
    }

    /** SkipPlayer: empties the lobby's auction row. */
    method SkipPlayer(lobbyId: string) returns (response: E.Response)
      requires db.Valid()
      modifies db
      ensures db.Valid()
      ensures var o := E.SkipPlayer(old(db.Snapshot()), lobbyId);
              response == o.response && db.Snapshot() == o.tables
    {
      db.ClearCurrentAuction(lobbyId);
      response := E.Ok;
    }

    /** TogglePause: flips the pause flag of a known lobby. */
    method TogglePause(lobbyId: string) returns (response: E.Response)
      requires db.Valid()
      modifies db
      ensures db.Valid()
      ensures var o := E.TogglePause(old(db.Snapshot()), lobbyId);
              response == o.response && db.Snapshot() == o.tables
    {
      var lobby := db.Snapshot().GetLobby(lobbyId);
      if lobby.None? {
        return E.NotFound;
      }
      db.UpdateLobbyPauseState(lobbyId, !lobby.value.isPaused);
      response := E.Ok;
    }

    /** AddPoints: adds to the team's budget in the store. */
    method AddPoints(lobbyId: string, teamId: int, additionalPoints: int) returns (response: E.Response)
      requires db.Valid()
      modifies db
      ensures db.Valid()
      ensures var o := E.AddPoints(old(db.Snapshot()), lobbyId, teamId, additionalPoints);
              response == o.response && db.Snapshot() == o.tables
    {
      db.AddPointsToTeam(teamId, additionalPoints);
      response := E.Ok;
    }

    /** AddPlayer: one new player numbered after the lobby's highest DisplayOrder. */
    method AddPlayer(lobbyId: string, playerName: string, position: string)
      requires db.Valid()
      modifies db
      ensures db.Valid()
      ensures db.Snapshot() == R.AddPlayer(old(db.Snapshot()), lobbyId, playerName, position)
    {
      var t := db.Snapshot();
      var maxOrder := R.MaxDisplayOrder(t.GetPlayersByLobby(lobbyId));
      var player := R.NewPlayer(lobbyId, playerName, position, Wrap32(maxOrder + 1));
      var _ := db.CreatePlayer(player);
      R.InsertPlayerAfterCreates(t, lobbyId, playerName, position, maxOrder);
    }

    /** ImportPlayers: one pass over the non-empty lines; each line with two fields becomes a
        player numbered with `++maxOrder`. */
    method ImportPlayers(lobbyId: string, playersData: Option<string>)
      requires db.Valid()
      modifies db
      ensures db.Valid()
      ensures db.Snapshot() == R.ImportPlayers(old(db.Snapshot()), lobbyId, playersData)
    {
      if playersData.None? {
        return;
      }
      var lines := R.Lines(playersData.value);
      var maxOrder := R.MaxDisplayOrder(db.Snapshot().GetPlayersByLobby(lobbyId));
      ghost var goal := R.ImportPlayers(db.Snapshot(), lobbyId, playersData);
      var i := 0;
      while i < |lines|
        invariant 0 <= i <= |lines|
        invariant db.Valid()
        invariant R.ImportLines(db.Snapshot(), lobbyId, lines[i..], maxOrder) == goal
      {
        assert lines[i..][1..] == lines[i + 1..];
        match R.ParseLine(lines[i]) {
          case None =>
          case Some(fields) =>
            maxOrder := Wrap32(maxOrder + 1);
            var _ := db.CreatePlayer(R.NewPlayer(lobbyId, fields.0, fields.1, maxOrder));
        }
        i := i + 1;
      }
      assert lines[i..] == [];
    }
  }
}
