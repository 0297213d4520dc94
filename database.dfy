/** The persistence layer (AuctionArena/Services/DatabaseService.cs) as an in-memory store.
    Each SQL table is a map from its primary key to its row; the auto-numbered tables remember
    the next id they will issue. The statements the service runs are member functions of the
    `Tables` value; the `Database` class holds the tables in fields and runs them in place. */
module DatabaseService {
  import opened Models
  import opened Seqs

  datatype Tables = Tables(
    lobbies: map<string, Lobby>,
    teams: map<int, Team>,
    players: map<int, Player>,
    bids: seq<Bid>,
    auctionStates: map<string, AuctionState>,
    nextTeamId: int,
    nextPlayerId: int)
  {
    /** Primary keys: every row is stored under its own id, auto-numbered ids are positive and
        below the next id to be issued, and bid ids count up from 1. Keying the AuctionState
        table by LobbyId is what makes it hold at most one row per lobby. */
    ghost predicate WellKeyed() {
      && (forall l :: l in lobbies ==> lobbies[l].lobbyId == l)
      && (forall k :: k in teams ==> teams[k].teamId == k && 0 < k < nextTeamId)
      && (forall k :: k in players ==> players[k].playerId == k && 0 < k < nextPlayerId)
      && (forall i :: 0 <= i < |bids| ==> bids[i].bidId == i + 1)
      && (forall l :: l in auctionStates ==> auctionStates[l].lobbyId == l)
      && 0 < nextTeamId && 0 < nextPlayerId
    }

    // ---------------------------------------------------------------- lookups by key

    function GetLobby(lobbyId: string): (r: Option<Lobby>)
      ensures r.Some? <==> lobbyId in lobbies
      ensures WellKeyed() && r.Some? ==> r.value.lobbyId == lobbyId
    {
      if lobbyId in lobbies then Some(lobbies[lobbyId]) else None
    }

    function GetTeam(teamId: int): (r: Option<Team>)
      ensures r.Some? <==> teamId in teams
      ensures WellKeyed() && r.Some? ==> r.value.teamId == teamId
    {
      if teamId in teams then Some(teams[teamId]) else None
    }

    function GetPlayer(playerId: int): (r: Option<Player>)
      ensures r.Some? <==> playerId in players
      ensures WellKeyed() && r.Some? ==> r.value.playerId == playerId
    {
      if playerId in players then Some(players[playerId]) else None
    }

    function GetAuctionState(lobbyId: string): (r: Option<AuctionState>)
      ensures r.Some? <==> lobbyId in auctionStates
      ensures WellKeyed() && r.Some? ==> r.value.lobbyId == lobbyId
    {
      if lobbyId in auctionStates then Some(auctionStates[lobbyId]) else None
    }

    // ---------------------------------------------------------------- filtered queries

    /** `SELECT * FROM Teams WHERE LobbyId = @LobbyId ORDER BY TeamId` */
    function GetTeamsByLobby(lobbyId: string): (r: seq<Team>)
      ensures WellKeyed() ==> forall x :: x in r <==> x in teams.Values && x.lobbyId == lobbyId
      ensures WellKeyed() ==> forall i, j :: 0 <= i < j < |r| ==> r[i].teamId < r[j].teamId
    {
      var rows := Rows(teams, nextTeamId);
      var r := Filter(rows, TeamInLobby(lobbyId));
      RowsInIdOrder(this);
      FiltersSortedRows(rows, TeamInLobby(lobbyId), WellKeyed());
      r
    }

    /** `SELECT * FROM Teams WHERE LobbyId = @LobbyId AND OwnerName = @OwnerName`, first row of
        the table scan, which is the one with the least TeamId. */
    function GetTeamByOwnerName(lobbyId: string, ownerName: string): (r: Option<Team>)
      ensures WellKeyed() ==>
        (r.None? <==> forall k :: k in teams ==> !(teams[k].lobbyId == lobbyId && teams[k].ownerName == ownerName))
      ensures WellKeyed() && r.Some? ==>
        && r.value in teams.Values && r.value.lobbyId == lobbyId && r.value.ownerName == ownerName
        && forall k :: k in teams && teams[k].lobbyId == lobbyId && teams[k].ownerName == ownerName ==> r.value.teamId <= k
    {
      var matches := Filter(Rows(teams, nextTeamId), TeamOwnedBy(lobbyId, ownerName));
      FirstOwnedTeam(this, lobbyId, ownerName);
      if matches == [] then None else Some(matches[0])
    }

    /** `SELECT * FROM Players WHERE LobbyId = @LobbyId ORDER BY DisplayOrder` */
    function GetPlayersByLobby(lobbyId: string): (r: seq<Player>)
      ensures WellKeyed() ==> forall x :: x in r <==> x in players.Values && x.lobbyId == lobbyId
      ensures WellKeyed() ==>
        forall x :: multiset(r)[x] == if x in players.Values && x.lobbyId == lobbyId then 1 else 0
      ensures forall i, j :: 0 <= i < j < |r| ==> r[i].displayOrder <= r[j].displayOrder
    {
      PlayerRowsOnce(this);
      FilterMultiset(Rows(players, nextPlayerId), PlayerInLobby(lobbyId));
      SortBy(LobbyPlayerRows(lobbyId), DisplayOrderKey)
    }

    /** `... WHERE LobbyId = @LobbyId AND IsAuctioned = 0 ORDER BY DisplayOrder` */
    function GetUnsoldPlayers(lobbyId: string): (r: seq<Player>)
      ensures WellKeyed() ==>
        forall x :: x in r <==> x in players.Values && x.lobbyId == lobbyId && !x.isAuctioned
      ensures WellKeyed() ==>
        forall x :: multiset(r)[x] == if x in players.Values && x.lobbyId == lobbyId && !x.isAuctioned then 1 else 0
      ensures forall i, j :: 0 <= i < j < |r| ==> r[i].displayOrder <= r[j].displayOrder
    {
      PlayerRowsOnce(this);
      FilterMultiset(Rows(players, nextPlayerId), PlayerInLobby(lobbyId));
      FilterMultiset(LobbyPlayerRows(lobbyId), PlayerSold(false));
      SortBy(Filter(LobbyPlayerRows(lobbyId), PlayerSold(false)), DisplayOrderKey)
    }

    /** `... WHERE LobbyId = @LobbyId AND IsAuctioned = 1 ORDER BY SoldPrice DESC` */
    function GetSoldPlayers(lobbyId: string): (r: seq<Player>)
      ensures WellKeyed() ==>
        forall x :: x in r <==> x in players.Values && x.lobbyId == lobbyId && x.isAuctioned
      ensures WellKeyed() ==>
        forall x :: multiset(r)[x] == if x in players.Values && x.lobbyId == lobbyId && x.isAuctioned then 1 else 0
      ensures PricesDescending(r)
    {
      PlayerRowsOnce(this);
      FilterMultiset(Rows(players, nextPlayerId), PlayerInLobby(lobbyId));
      FilterMultiset(LobbyPlayerRows(lobbyId), PlayerSold(true));
      SortBy(Filter(LobbyPlayerRows(lobbyId), PlayerSold(true)), PriceDescKey)
    }

    /** `SELECT * FROM Players WHERE SoldToTeamId = @TeamId ORDER BY SoldPrice DESC` */
    function GetPlayersByTeam(teamId: int): (r: seq<Player>)
      ensures WellKeyed() ==> forall x :: x in r <==> x in players.Values && x.soldToTeamId == Some(teamId)
      ensures WellKeyed() ==>
        forall x :: multiset(r)[x] == if x in players.Values && x.soldToTeamId == Some(teamId) then 1 else 0
      ensures PricesDescending(r)
    {
      PlayerRowsOnce(this);
      FilterMultiset(Rows(players, nextPlayerId), PlayerSoldTo(teamId));
      SortBy(Filter(Rows(players, nextPlayerId), PlayerSoldTo(teamId)), PriceDescKey)
    }

    /** `SELECT * FROM Bids WHERE PlayerId = @PlayerId ORDER BY BidAmount DESC` */
    function GetBidsForPlayer(playerId: int): (r: seq<Bid>)
      ensures forall x :: x in r <==> x in bids && x.playerId == playerId
      ensures forall x :: multiset(r)[x] == if x.playerId == playerId then multiset(bids)[x] else 0
      ensures WellKeyed() ==> forall x :: multiset(r)[x] == if x in bids && x.playerId == playerId then 1 else 0
      ensures forall i, j :: 0 <= i < j < |r| ==> r[j].bidAmount <= r[i].bidAmount
    {
      FilterMultiset(bids, BidOn(playerId));
      BidsOnce(this);
      SortBy(Filter(bids, BidOn(playerId)), AmountDescKey)
    }

    /** The rows of the Players table that belong to a lobby, in table order. */
    function LobbyPlayerRows(lobbyId: string): seq<Player> {
      Filter(Rows(players, nextPlayerId), PlayerInLobby(lobbyId))
    }

    // ---------------------------------------------------------------- updates

    /** `UPDATE Lobbies SET IsPaused = @IsPaused WHERE LobbyId = @LobbyId` */
    function UpdateLobbyPauseState(lobbyId: string, isPaused: bool): (r: Tables)
      ensures r.lobbies.Keys == lobbies.Keys
      ensures forall l :: l in lobbies ==>
        r.lobbies[l] == if l == lobbyId then lobbies[l].(isPaused := isPaused) else lobbies[l]
      ensures r.(lobbies := lobbies) == this
      ensures WellKeyed() ==> r.WellKeyed()
    {
      if lobbyId in lobbies then this.(lobbies := lobbies[lobbyId := lobbies[lobbyId].(isPaused := isPaused)])
      else this
    }

    /** `UPDATE Teams SET RemainingPoints = @RemainingPoints WHERE TeamId = @TeamId` */
    function UpdateTeamPoints(teamId: int, remainingPoints: int): (r: Tables)
      ensures r.teams.Keys == teams.Keys
      ensures forall k :: k in teams ==>
        r.teams[k] == if k == teamId then teams[k].(remainingPoints := remainingPoints) else teams[k]
      ensures r.(teams := teams) == this
      ensures WellKeyed() ==> r.WellKeyed()
    {
      if teamId in teams then this.(teams := teams[teamId := teams[teamId].(remainingPoints := remainingPoints)])
      else this
    }

    /** `UPDATE Teams SET RemainingPoints = RemainingPoints + @AdditionalPoints WHERE TeamId = @TeamId`;
        the addition is SQLite's, not C#'s. */
    function AddPointsToTeam(teamId: int, additionalPoints: int): (r: Tables)
      ensures r.teams.Keys == teams.Keys
      ensures forall k :: k in teams ==>
        r.teams[k] == if k == teamId then teams[k].(remainingPoints := teams[k].remainingPoints + additionalPoints)
                      else teams[k]
      ensures r.(teams := teams) == this
      ensures WellKeyed() ==> r.WellKeyed()
    {
      if teamId in teams
      then this.(teams := teams[teamId := teams[teamId].(remainingPoints := teams[teamId].remainingPoints + additionalPoints)])
      else this
    }

    /** `UPDATE Teams SET PlayerCount = @PlayerCount WHERE TeamId = @TeamId` */
    function UpdateTeamPlayerCount(teamId: int, playerCount: int): (r: Tables)
      ensures r.teams.Keys == teams.Keys
      ensures forall k :: k in teams ==>
        r.teams[k] == if k == teamId then teams[k].(playerCount := playerCount) else teams[k]
      ensures r.(teams := teams) == this
      ensures WellKeyed() ==> r.WellKeyed()
    {
      if teamId in teams then this.(teams := teams[teamId := teams[teamId].(playerCount := playerCount)])
      else this
    }

    /** `INSERT INTO Players ...`: the row gets the next auto-numbered id. */
    function CreatePlayer(player: Player): (r: Tables)
      ensures r.players.Keys == players.Keys + {nextPlayerId}
      ensures r.players[nextPlayerId] == player.(playerId := nextPlayerId)
      ensures WellKeyed() ==> forall k :: k in players ==> r.players[k] == players[k]
      ensures r.nextPlayerId == nextPlayerId + 1
      ensures r.(players := players, nextPlayerId := nextPlayerId) == this
      ensures WellKeyed() ==> r.WellKeyed()
    {
      this.(players := players[nextPlayerId := player.(playerId := nextPlayerId)], nextPlayerId := nextPlayerId + 1)
    }

    /** `UPDATE Players SET SoldToTeamId = @TeamId, SoldPrice = @Price, IsAuctioned = 1
        WHERE PlayerId = @PlayerId` */
    function UpdatePlayerSold(playerId: int, teamId: int, price: int): (r: Tables)
      ensures r.players.Keys == players.Keys
      ensures forall k :: k in players ==>
        r.players[k] == if k == playerId then SoldTo(players[k], teamId, price) else players[k]
      ensures r.(players := players) == this
      ensures WellKeyed() ==> r.WellKeyed()
    {
      if playerId in players then this.(players := players[playerId := SoldTo(players[playerId], teamId, price)])
      else this
    }

    /** `INSERT INTO Bids ...`: the row gets the next auto-numbered id. */
    function CreateBid(bid: Bid): (r: Tables)
      ensures r.bids == bids + [bid.(bidId := |bids| + 1)]
      ensures r.(bids := bids) == this
      ensures WellKeyed() ==> r.WellKeyed()
    {
      this.(bids := bids + [bid.(bidId := |bids| + 1)])
    }

    /** Update-or-insert of the one AuctionState row of `state.lobbyId`: the existence check
        chooses between UPDATE and INSERT, and keyed by LobbyId both amount to storing the row
        under its lobby. */
    function UpdateAuctionState(state: AuctionState): (r: Tables)
      ensures r.auctionStates.Keys == auctionStates.Keys + {state.lobbyId}
      ensures r.auctionStates[state.lobbyId] == state
      ensures forall l :: l in auctionStates && l != state.lobbyId ==> r.auctionStates[l] == auctionStates[l]
      ensures r.(auctionStates := auctionStates) == this
      ensures WellKeyed() ==> r.WellKeyed()
    {
      this.(auctionStates := auctionStates[state.lobbyId := state])
    }

    /** `UPDATE AuctionState SET CurrentPlayerId = NULL, ... WHERE LobbyId = @LobbyId`: never
        inserts a row. */
    function ClearCurrentAuction(lobbyId: string): (r: Tables)
      ensures r.auctionStates.Keys == auctionStates.Keys
      ensures lobbyId in auctionStates ==>
        && r.auctionStates[lobbyId].lobbyId == auctionStates[lobbyId].lobbyId
        && Idle(r.auctionStates[lobbyId])
      ensures forall l :: l in auctionStates && l != lobbyId ==> r.auctionStates[l] == auctionStates[l]
      ensures r.(auctionStates := auctionStates) == this
      ensures WellKeyed() ==> r.WellKeyed()
    {
      if lobbyId in auctionStates then this.(auctionStates := auctionStates[lobbyId := Cleared(auctionStates[lobbyId])])
      else this
    }
  }

  /** An AuctionState row with all four nullable columns null. */
  predicate Idle(s: AuctionState) {
    && s.currentPlayerId.None? && s.currentHighestBid.None?
    && s.currentHighestBidderTeamId.None? && s.auctionStartTime.None?
  }

  function Cleared(s: AuctionState): (r: AuctionState)
    ensures Idle(r) && r.lobbyId == s.lobbyId
  {
    s.(currentPlayerId := None, currentHighestBid := None, currentHighestBidderTeamId := None, auctionStartTime := None)
  }

  function SoldTo(p: Player, teamId: int, price: int): (r: Player)
    ensures r.isAuctioned && r.soldToTeamId == Some(teamId) && r.soldPrice == Some(price)
    ensures r.(soldToTeamId := p.soldToTeamId, soldPrice := p.soldPrice, isAuctioned := p.isAuctioned) == p
  {
    p.(soldToTeamId := Some(teamId), soldPrice := Some(price), isAuctioned := true)
  }

  // ------------------------------------------------------------------ query predicates and keys

  function TeamInLobby(lobbyId: string): Team -> bool {
    (x: Team) => x.lobbyId == lobbyId
  }

  function TeamOwnedBy(lobbyId: string, ownerName: string): Team -> bool {
    (x: Team) => x.lobbyId == lobbyId && x.ownerName == ownerName
  }

  function PlayerInLobby(lobbyId: string): Player -> bool {
    (x: Player) => x.lobbyId == lobbyId
  }

  function PlayerSold(sold: bool): Player -> bool {
    (x: Player) => x.isAuctioned == sold
  }

  function PlayerSoldTo(teamId: int): Player -> bool {
    (x: Player) => x.soldToTeamId == Some(teamId)
  }

  function BidOn(playerId: int): Bid -> bool {
    (x: Bid) => x.playerId == playerId
  }

  function TeamIdKey(x: Team): int {
    x.teamId
  }

  function PlayerIdKey(x: Player): int {
    x.playerId
  }

  function BidIdKey(x: Bid): int {
    x.bidId
  }

  function DisplayOrderKey(x: Player): int {
    x.displayOrder
  }

  /** `ORDER BY SoldPrice DESC`: SQLite treats NULL as the smallest value, so an unpriced player
      sorts after every C# `int` price. */
  function PriceDescKey(x: Player): int {
    match x.soldPrice
    case Some(v) => -v
    case None => -INT32_MIN + 1
  }

  function AmountDescKey(x: Bid): int {
    -x.bidAmount
  }

  /** Priced players come by non-increasing price, unpriced ones (if any) after them. */
  ghost predicate PricesDescending(r: seq<Player>) {
    forall i, j :: 0 <= i < j < |r| && r[i].soldPrice.Some? && r[j].soldPrice.Some? ==>
      r[j].soldPrice.value <= r[i].soldPrice.value
  }

  /** A table scan returns the teams in ascending TeamId order. */
  lemma RowsInIdOrder(t: Tables)
    ensures t.WellKeyed() ==> StrictlySortedBy(Rows(t.teams, t.nextTeamId), TeamIdKey)
    ensures t.WellKeyed() ==> forall x :: x in t.teams.Values ==> x in Rows(t.teams, t.nextTeamId)
  {
    var keys := KeysBelow(t.teams, t.nextTeamId);
    var rows := Rows(t.teams, t.nextTeamId);
    if t.WellKeyed() {
      assert forall i :: 0 <= i < |rows| ==> rows[i].teamId == keys[i];
    }
  }

  /** A table scan of Players returns each row once. */
  lemma PlayerRowsOnce(t: Tables)
    ensures t.WellKeyed() ==>
      forall x :: multiset(Rows(t.players, t.nextPlayerId))[x] == if x in t.players.Values then 1 else 0
  {
    var keys := KeysBelow(t.players, t.nextPlayerId);
    var rows := Rows(t.players, t.nextPlayerId);
    if t.WellKeyed() {
      assert forall i :: 0 <= i < |rows| ==> rows[i].playerId == keys[i];
      assert StrictlySortedBy(rows, PlayerIdKey);
      StrictlySortedOnce(rows, PlayerIdKey);
    }
  }

  /** Bid ids count up from 1, so the audit trail holds each record once. */
  lemma BidsOnce(t: Tables)
    ensures t.WellKeyed() ==> forall x :: multiset(t.bids)[x] == if x in t.bids then 1 else 0
  {
    if t.WellKeyed() {
      assert StrictlySortedBy(t.bids, BidIdKey);
      StrictlySortedOnce(t.bids, BidIdKey);
    }
  }

  /** Filtering rows that come in strictly increasing TeamId order keeps that order, so the
      first match has the least TeamId. */
  lemma FiltersSortedRows(rows: seq<Team>, p: Team -> bool, ordered: bool)
    requires ordered ==> StrictlySortedBy(rows, TeamIdKey)
    ensures ordered ==> StrictlySortedBy(Filter(rows, p), TeamIdKey)
    ensures ordered ==> forall x :: x in Filter(rows, p) ==> Filter(rows, p)[0].teamId <= x.teamId
  {
    if ordered {
      FilterStrictlySorted(rows, p, TeamIdKey);
      var r := Filter(rows, p);
      forall x | x in r ensures r[0].teamId <= x.teamId {
        var i :| 0 <= i < |r| && r[i] == x;
        if i > 0 { assert TeamIdKey(r[0]) < TeamIdKey(r[i]); }
      }
    }
  }

  /** The teams of a lobby with a given owner, in a table scan: none exactly when no such team
      exists, and otherwise the first is such a team with the least TeamId. */
  lemma FirstOwnedTeam(t: Tables, lobbyId: string, ownerName: string)
    ensures var matches := Filter(Rows(t.teams, t.nextTeamId), TeamOwnedBy(lobbyId, ownerName));
            t.WellKeyed() ==>
              && (matches == [] <==>
                    forall k :: k in t.teams ==> !(t.teams[k].lobbyId == lobbyId && t.teams[k].ownerName == ownerName))
              && (matches != [] ==>
                    && matches[0] in t.teams.Values && matches[0].lobbyId == lobbyId && matches[0].ownerName == ownerName
                    && forall k :: k in t.teams && t.teams[k].lobbyId == lobbyId && t.teams[k].ownerName == ownerName ==>
                         matches[0].teamId <= k)
  {
    var rows := Rows(t.teams, t.nextTeamId);
    var matches := Filter(rows, TeamOwnedBy(lobbyId, ownerName));
    if t.WellKeyed() {
      RowsInIdOrder(t);
      FiltersSortedRows(rows, TeamOwnedBy(lobbyId, ownerName), true);
      forall k | k in t.teams && t.teams[k].lobbyId == lobbyId && t.teams[k].ownerName == ownerName
        ensures t.teams[k] in matches
      {
        assert t.teams[k] in t.teams.Values;
      }
      if matches != [] {
        assert matches[0] in rows;
      }
    }
  }

  // ------------------------------------------------------------------ the service object

  /** The store the controller talks to. Each method runs one SQL statement against the tables
      held in its fields and touches only the table that statement names. */
  class Database {
    var lobbies: map<string, Lobby>
    var teams: map<int, Team>
    var players: map<int, Player>
    var bids: seq<Bid>
    var auctionStates: map<string, AuctionState>
    var nextTeamId: int
    var nextPlayerId: int

    /** The current contents of all tables. */
    function Snapshot(): Tables
      reads this
    {
      Tables(lobbies, teams, players, bids, auctionStates, nextTeamId, nextPlayerId)
    }

    ghost predicate Valid()
      reads this
    {
      Snapshot().WellKeyed()
    }

    /** Empty tables, as `InitializeDatabase` creates them. */
    constructor ()
      ensures Valid()
      ensures Snapshot() == Tables(map[], map[], map[], [], map[], 1, 1)
    {
      lobbies, teams, players, bids, auctionStates := map[], map[], map[], [], map[];
      nextTeamId, nextPlayerId := 1, 1;
    }

    method UpdateLobbyPauseState(lobbyId: string, isPaused: bool)
      requires Valid()
      modifies this`lobbies
      ensures Valid()
      ensures Snapshot() == old(Snapshot()).UpdateLobbyPauseState(lobbyId, isPaused)
    {
      if lobbyId in lobbies {
        lobbies := lobbies[lobbyId := lobbies[lobbyId].(isPaused := isPaused)];
      }
    }

    method UpdateTeamPoints(teamId: int, remainingPoints: int)
      requires Valid()
      modifies this`teams
      ensures Valid()
      ensures Snapshot() == old(Snapshot()).UpdateTeamPoints(teamId, remainingPoints)
    {
      if teamId in teams {
        teams := teams[teamId := teams[teamId].(remainingPoints := remainingPoints)];
      }
    }

    method AddPointsToTeam(teamId: int, additionalPoints: int)
      requires Valid()
      modifies this`teams
      ensures Valid()
      ensures Snapshot() == old(Snapshot()).AddPointsToTeam(teamId, additionalPoints)
    {
      if teamId in teams {
        var team := teams[teamId];
        teams := teams[teamId := team.(remainingPoints := team.remainingPoints + additionalPoints)];
      }
    }

    method UpdateTeamPlayerCount(teamId: int, playerCount: int)
      requires Valid()
      modifies this`teams
      ensures Valid()
      ensures Snapshot() == old(Snapshot()).UpdateTeamPlayerCount(teamId, playerCount)
    {
      if teamId in teams {
        teams := teams[teamId := teams[teamId].(playerCount := playerCount)];
      }
    }

    method CreatePlayer(player: Player) returns (playerId: int)
      requires Valid()
      modifies this`players, this`nextPlayerId
      ensures Valid()
      ensures playerId == old(nextPlayerId)
      ensures Snapshot() == old(Snapshot()).CreatePlayer(player)
    {
      playerId := nextPlayerId;
      players := players[playerId := player.(playerId := playerId)];
      nextPlayerId := nextPlayerId + 1;
    }

    method UpdatePlayerSold(playerId: int, teamId: int, price: int)
      requires Valid()
      modifies this`players
      ensures Valid()
      ensures Snapshot() == old(Snapshot()).UpdatePlayerSold(playerId, teamId, price)
    {
      if playerId in players {
        players := players[playerId := SoldTo(players[playerId], teamId, price)];
      }
    }

    method CreateBid(bid: Bid)
      requires Valid()
      modifies this`bids
      ensures Valid()
      ensures Snapshot() == old(Snapshot()).CreateBid(bid)
    {
      bids := bids + [bid.(bidId := |bids| + 1)];
    }

    method UpdateAuctionState(state: AuctionState)
      requires Valid()
      modifies this`auctionStates
      ensures Valid()
      ensures Snapshot() == old(Snapshot()).UpdateAuctionState(state)
    {
      auctionStates := auctionStates[state.lobbyId := state];
    }

    method ClearCurrentAuction(lobbyId: string)
      requires Valid()
      modifies this`auctionStates
      ensures Valid()
      ensures Snapshot() == old(Snapshot()).ClearCurrentAuction(lobbyId)
    {
      if lobbyId in auctionStates {
        auctionStates := auctionStates[lobbyId := Cleared(auctionStates[lobbyId])];
      }
    }
  }
}
