/** The records of the auction: lobbies, teams, players, the per-lobby auction row and the bid
    audit trail (AuctionArena/Models). They carry no behaviour; nullable columns are `Option`s,
    timestamps are opaque integers supplied by the caller. */
module Models {

  datatype Option<T> = None | Some(value: T)

  /** The range of C#'s `int`. */
  const INT32_MIN: int := -0x8000_0000
  const INT32_MAX: int := 0x7FFF_FFFF

  predicate InInt32(x: int) {
    INT32_MIN <= x <= INT32_MAX
  }

  /** C# `int` arithmetic is unchecked by default: the stored value is the exact result reduced
      modulo 2^32 into the `int` range (the two's-complement reading of its low 32 bits). */
  function Wrap32(x: int): (r: int)
    ensures InInt32(r)
    ensures InInt32(x) ==> r == x
  {
    (x - INT32_MIN) % 0x1_0000_0000 + INT32_MIN
  }

  /** The wrapped value differs from the exact one by a multiple of 2^32. */
  lemma Wrap32Congruent(x: int)
    ensures (x - Wrap32(x)) % 0x1_0000_0000 == 0
  {
  }

  /** Taking a negative 32-bit value from a 32-bit value: the exact difference while it stays in
      range, and a negative number once it passes INT32_MAX. */
  lemma Wrap32SubNegative(b: int, a: int)
    requires InInt32(b) && InInt32(a) && a < 0
    ensures b - a <= INT32_MAX ==> Wrap32(b - a) == b - a > b
    ensures b - a > INT32_MAX ==> Wrap32(b - a) == b - a - 0x1_0000_0000 < 0
  {
    if b - a > INT32_MAX {
      var d := b - a - INT32_MIN;
      assert 0x1_0000_0000 <= d < 2 * 0x1_0000_0000;
      assert d % 0x1_0000_0000 == d - 0x1_0000_0000;
    }
  }

  /** One auction session, keyed by its short code. */
  datatype Lobby = Lobby(
    lobbyId: string,
    hostName: string,
    gameName: string,
    password: Option<string>,
    totalTeams: int,
    playersPerTeam: int,
    pointsPerTeam: int,
    minPlayersPerTeam: int,
    maxPlayersPerTeam: int,
    createdAt: int,
    isActive: bool,
    isPaused: bool)

  datatype Team = Team(
    teamId: int,
    lobbyId: string,
    teamName: string,
    ownerName: string,
    captainName: Option<string>,
    remainingPoints: int,
    playerCount: int)

  datatype Player = Player(
    playerId: int,
    lobbyId: string,
    playerName: string,
    position: string,
    soldToTeamId: Option<int>,
    soldPrice: Option<int>,
    isAuctioned: bool,
    displayOrder: int)

  /** The singleton row per lobby that holds the auction in progress. */
  datatype AuctionState = AuctionState(
    lobbyId: string,
    currentPlayerId: Option<int>,
    currentHighestBid: Option<int>,
    currentHighestBidderTeamId: Option<int>,
    auctionStartTime: Option<int>)

  /** Audit record of an accepted bid. */
  datatype Bid = Bid(
    bidId: int,
    lobbyId: string,
    playerId: int,
    teamId: int,
    bidAmount: int,
    bidTime: int)
}
