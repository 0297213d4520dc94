/** The two read-only screens of AuctionController: the host's view of a lobby and a team's view
    of its own state, as functions of the store's tables. */
module Dashboard {
  import opened Models
  import opened Seqs
  import opened DatabaseService
  import opened AuctionEngine

  /** AuctionViewModel as HostDashboard fills it. */
  datatype HostView = HostView(
    lobby: Lobby,
    teams: seq<Team>,
    currentPlayer: Option<Player>,
    currentHighestBid: Option<int>,
    currentHighestBidder: Option<Team>,
    remainingPlayers: seq<Player>,
    soldPlayers: seq<Player>,
    isPaused: bool)

  /** TeamDashboardViewModel as TeamDashboard fills it. */
  datatype TeamView = TeamView(
    team: Team,
    myPlayers: seq<Player>,
    currentPlayer: Option<Player>,
    currentHighestBid: Option<int>,
    currentHighestBidderName: Option<string>,
    remainingPoints: int,
    canBid: bool,
    isPaused: bool)

  /** The player on the block: looked up only when the lobby has an auction row naming one. */
  function CurrentPlayerOf(t: Tables, s: Option<AuctionState>): (r: Option<Player>)
    ensures r.Some? <==> s.Some? && s.value.currentPlayerId.Some? && s.value.currentPlayerId.value in t.players
    ensures r.Some? ==> r.value == t.players[s.value.currentPlayerId.value]
  {
    if s.Some? && s.value.currentPlayerId.Some? then t.GetPlayer(s.value.currentPlayerId.value) else None
  }

  /** The leading team: looked up only when there is a current player and a bidder. */
  function CurrentBidderOf(t: Tables, s: Option<AuctionState>): (r: Option<Team>)
    ensures r.Some? <==>
      && s.Some? && s.value.currentPlayerId.Some? && s.value.currentHighestBidderTeamId.Some?
      && s.value.currentHighestBidderTeamId.value in t.teams
    ensures r.Some? ==> r.value == t.teams[s.value.currentHighestBidderTeamId.value]
  {
    if s.Some? && s.value.currentPlayerId.Some? && s.value.currentHighestBidderTeamId.Some? then
      t.GetTeam(s.value.currentHighestBidderTeamId.value)
    else None
  }

  /** `auctionState?.CurrentHighestBid` */
  function HighestBidOf(s: Option<AuctionState>): (r: Option<int>)
    ensures s.Some? ==> r == s.value.currentHighestBid
    ensures s.None? ==> r.None?
  {
    if s.Some? then s.value.currentHighestBid else None
  }

  /** HostDashboard: NotFound (None) for an unknown lobby; otherwise the lobby, its teams, the
      current auction, and its players split into the unsold and the sold ones. */
  function HostDashboard(t: Tables, lobbyId: string): (r: Option<HostView>)
    ensures r.None? <==> lobbyId !in t.lobbies
    ensures r.Some? ==> r.value.lobby == t.lobbies[lobbyId] && r.value.isPaused == t.lobbies[lobbyId].isPaused
    ensures t.WellKeyed() && r.Some? ==>
      forall x :: x in r.value.teams <==> x in t.teams.Values && x.lobbyId == lobbyId
  {
    match t.GetLobby(lobbyId)
    case None => None
    case Some(lobby) =>
      var players := t.GetPlayersByLobby(lobbyId);
      var s := t.GetAuctionState(lobbyId);
      Some(HostView(
        lobby,
        t.GetTeamsByLobby(lobbyId),
        CurrentPlayerOf(t, s),
        HighestBidOf(s),
        CurrentBidderOf(t, s),
        Filter(players, PlayerSold(false)),
        Filter(players, PlayerSold(true)),
        lobby.isPaused))
  }

  /** The host's two lists split the lobby's players: together they hold each player exactly
      once, the first holds exactly the unsold ones and the second exactly the sold ones, both
      in DisplayOrder; as multisets they are what GetUnsoldPlayers and GetSoldPlayers return. */
  lemma HostDashboardPartition(t: Tables, lobbyId: string)
    requires t.WellKeyed() && lobbyId in t.lobbies
    ensures var v := HostDashboard(t, lobbyId).value;
            && multiset(v.remainingPlayers) + multiset(v.soldPlayers) == multiset(t.GetPlayersByLobby(lobbyId))
            && (forall x :: x in v.remainingPlayers <==> x in t.players.Values && x.lobbyId == lobbyId && !x.isAuctioned)
            && (forall x :: x in v.soldPlayers <==> x in t.players.Values && x.lobbyId == lobbyId && x.isAuctioned)
            && SortedBy(v.remainingPlayers, DisplayOrderKey)
            && SortedBy(v.soldPlayers, DisplayOrderKey)
            && multiset(v.remainingPlayers) == multiset(t.GetUnsoldPlayers(lobbyId))
            && multiset(v.soldPlayers) == multiset(t.GetSoldPlayers(lobbyId))
  {
    var players := t.GetPlayersByLobby(lobbyId);
    FilterComplement(players, PlayerSold(false), PlayerSold(true));
    assert SortedBy(players, DisplayOrderKey);
    FilterSorted(players, PlayerSold(false), DisplayOrderKey);
    FilterSorted(players, PlayerSold(true), DisplayOrderKey);
    var rows := t.LobbyPlayerRows(lobbyId);
    FilterSameElements(players, rows, PlayerSold(false));
    FilterSameElements(players, rows, PlayerSold(true));
  }

  /** `CanBid`: a player is on the block and the team has more points than the highest bid, or
      than 0 when nobody has bid yet. Whether the lobby is paused or the team is full is not
      consulted. */
  predicate CanBid(currentPlayer: Option<Player>, team: Team, s: Option<AuctionState>) {
    currentPlayer.Some? &&
    team.remainingPoints > (if s.Some? && s.value.currentHighestBid.Some? then s.value.currentHighestBid.value else 0)
  }

  /** TeamDashboard: NotFound (None) when the lobby or the team is unknown; otherwise the team,
      the players it bought, the current auction and whether it may bid. */
  function TeamDashboard(t: Tables, lobbyId: string, teamId: int): (r: Option<TeamView>)
    ensures r.None? <==> lobbyId !in t.lobbies || teamId !in t.teams
    ensures r.Some? ==>
      && r.value.team == t.teams[teamId]
      && r.value.remainingPoints == t.teams[teamId].remainingPoints
      && r.value.isPaused == t.lobbies[lobbyId].isPaused
    ensures t.WellKeyed() && r.Some? ==>
      forall x :: x in r.value.myPlayers <==> x in t.players.Values && x.soldToTeamId == Some(teamId)
  {
    var lobby := t.GetLobby(lobbyId);
    var team := t.GetTeam(teamId);
    if lobby.None? || team.None? then None
    else
      var s := t.GetAuctionState(lobbyId);
      var current := CurrentPlayerOf(t, s);
      var bidder := CurrentBidderOf(t, s);
      Some(TeamView(
        team.value,
        t.GetPlayersByTeam(teamId),
        current,
        HighestBidOf(s),
        if bidder.Some? then Some(bidder.value.teamName) else None,
        team.value.remainingPoints,
        CanBid(current, team.value, s),
        lobby.value.isPaused))
  }

  /** When the dashboard says the team may bid, a bid of all its remaining points passes the
      points check and the highest-bid check of PlaceBid. */
  lemma CanBidAllIn(t: Tables, lobbyId: string, teamId: int)
    requires lobbyId in t.lobbies && teamId in t.teams && lobbyId in t.auctionStates
    requires TeamDashboard(t, lobbyId, teamId).value.canBid
    ensures var team := t.teams[teamId];
            && t.auctionStates[lobbyId].currentPlayerId.Some?
            && Affordable(team, team.remainingPoints)
            && Outbids(t.auctionStates[lobbyId], team.remainingPoints)
  {
  }

  /** Conversely, when a player is shown and some positive amount passes both checks, the
      dashboard says the team may bid. */
  lemma PositiveAdmissibleAmountShowsCanBid(t: Tables, lobbyId: string, teamId: int, amount: int)
    requires lobbyId in t.lobbies && teamId in t.teams && lobbyId in t.auctionStates
    requires TeamDashboard(t, lobbyId, teamId).value.currentPlayer.Some?
    requires 0 < amount && Affordable(t.teams[teamId], amount) && Outbids(t.auctionStates[lobbyId], amount)
    ensures TeamDashboard(t, lobbyId, teamId).value.canBid
  {
  }

  /** The flag is not the admission rule: with no bid yet, a team with no points left is told
      it may not bid, yet PlaceBid admits its bid of 0. */
  lemma ZeroBudgetHidesAdmittedBid(t: Tables, lobbyId: string, playerId: int, teamId: int, now: int)
    requires BidderAndLobbyReady(t, lobbyId, teamId) && IsCurrentPlayer(t, lobbyId, playerId)
    requires playerId in t.players && t.auctionStates[lobbyId].currentHighestBid.None?
    requires t.teams[teamId].remainingPoints == 0 && HasRosterRoom(t.teams[teamId], t.lobbies[lobbyId])
    ensures !TeamDashboard(t, lobbyId, teamId).value.canBid
    ensures PlaceBid(t, lobbyId, playerId, teamId, 0, now).response == Ok
  {
  }

  /** Nor does the flag reflect a pause: in a paused lobby it can be shown while every bid of
      the team is refused as invalid. */
  lemma PausedLobbyStillShowsCanBid(t: Tables, lobbyId: string, playerId: int, teamId: int, amount: int, now: int)
    requires lobbyId in t.lobbies && teamId in t.teams && t.lobbies[lobbyId].isPaused
    requires TeamDashboard(t, lobbyId, teamId).value.canBid
    ensures PlaceBid(t, lobbyId, playerId, teamId, amount, now).response == BadRequest(InvalidBid)
  {
  }
}
