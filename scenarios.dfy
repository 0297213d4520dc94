/** What the controller lets through when a request leaves its lobby or bids below zero: none
    of these requests is refused. The first four end in a store that is not sound; in the last
    two the starting store is already not sound, and the request goes through all the same. */
module Scenarios {
  import opened Models
  import opened DatabaseService
  import opened AuctionEngine
  import opened AuctionProperties

  /** PlaceBid does not check the team's lobby, so one team can lead in two lobbies at once,
      each time with the same amount, for instance its whole budget. */
  lemma OneTeamLeadsTwoLobbies(t: Tables, a: string, b: string, p: int, q: int, k: int, x: int, now: int)
    requires t.WellKeyed() && a != b && p in t.players && q in t.players
    requires BidAdmissible(t, a, p, k, x) && BidAdmissible(t, b, q, k, x)
    ensures var o1 := PlaceBid(t, a, p, k, x, now);
            var o2 := PlaceBid(o1.tables, b, q, k, x, now);
            && o1.response == Ok && o2.response == Ok
            && o2.tables.WellKeyed() && o2.tables.teams == t.teams && o2.tables.players == t.players
            && Leads(o2.tables, a, p, k, x) && Leads(o2.tables, b, q, k, x)
            && !Sound(o2.tables)
  {
    var o1 := PlaceBid(t, a, p, k, x, now);
    AdmittedBidFields(t, a, p, k, x, now);
    assert BidAdmissible(o1.tables, b, q, k, x);
    AdmittedBidFields(o1.tables, b, q, k, x, now);
  }

  /** ConfirmSale does not compare the price with what the leader has left: after a team has
      paid for one of two auctions it leads, the other still goes through and leaves its budget
      below zero. */
  lemma SaleOverdraws(t: Tables, l: string, p: int, k: int, x: int)
    requires t.WellKeyed() && Leads(t, l, p, k, x)
    requires 0 <= t.teams[k].remainingPoints < x <= INT32_MAX
    ensures var o := ConfirmSale(t, l, p);
            && o.response == Ok
            && o.tables.teams[k].remainingPoints == t.teams[k].remainingPoints - x < 0
            && !Sound(o.tables)
  {
    SaleFields(t, l, p, k, x);
  }

  /** StartPlayerAuction only checks that the player is unsold, so lobby `b` can put up the
      player lobby `a` is auctioning, and the player is then on two blocks at once. */
  lemma PlayerOnTwoBlocks(t: Tables, a: string, b: string, p: int, now: int)
    requires t.WellKeyed() && a != b && IsCurrentPlayer(t, a, p)
    requires p in t.players && !t.players[p].isAuctioned
    ensures var o := StartPlayerAuction(t, b, p, now);
            && o.response == Ok
            && IsCurrentPlayer(o.tables, a, p) && IsCurrentPlayer(o.tables, b, p)
            && !Sound(o.tables)
  {
  }

  /** ConfirmSale does not check that the player is still unsold: a player already sold to team
      `k` and still on another lobby's block is sold again to that lobby's leader `j`, while `k`
      keeps its reduced budget and its count. */
  lemma SoldPlayerSoldAgain(t: Tables, l: string, p: int, j: int, y: int)
    requires t.WellKeyed() && Leads(t, l, p, j, y) && t.players[p].isAuctioned
    requires t.players[p].soldToTeamId.Some? && t.players[p].soldToTeamId.value != j
    ensures !Sound(t)
    ensures var o := ConfirmSale(t, l, p);
            var k := t.players[p].soldToTeamId.value;
            && o.response == Ok
            && o.tables.players[p].soldToTeamId == Some(j)
            && (k in t.teams ==> k in o.tables.teams && o.tables.teams[k] == t.teams[k])
  {
    SaleFields(t, l, p, j, y);
  }

  /** PlaceBid admits a bid below zero when nobody has bid yet: the team then leads with it, and
      no budget has changed. */
  lemma NegativeBidLeads(t: Tables, l: string, p: int, k: int, amount: int, now: int)
    requires t.WellKeyed() && p in t.players && amount < 0
    requires IsCurrentPlayer(t, l, p) && t.auctionStates[l].currentHighestBid.None?
    requires BidderAndLobbyReady(t, l, k) && 0 <= t.teams[k].remainingPoints
    requires t.teams[k].playerCount < t.lobbies[l].maxPlayersPerTeam
    ensures var o := PlaceBid(t, l, p, k, amount, now);
            && o.response == Ok && o.tables.WellKeyed()
            && Leads(o.tables, l, p, k, amount) && o.tables.teams == t.teams
            && !Sound(o.tables)
  {
    AdmittedBidFields(t, l, p, k, amount, now);
  }

  /** A sale at a price below zero adds to the winner's budget instead of taking from it; past
      `int`'s range the sum wraps round to a negative budget (a team with no points that won at
      -2147483648 ends with -2147483648). */
  lemma NegativePricePaysTheBuyer(t: Tables, l: string, p: int, k: int, x: int)
    requires t.WellKeyed() && Leads(t, l, p, k, x) && x < 0 && InInt32(x)
    requires InInt32(t.teams[k].remainingPoints)
    ensures !Sound(t)
    ensures var o := ConfirmSale(t, l, p);
            var before := t.teams[k].remainingPoints;
            && o.response == Ok
            && (before - x <= INT32_MAX ==> o.tables.teams[k].remainingPoints == before - x > before)
            && (before - x > INT32_MAX ==> o.tables.teams[k].remainingPoints == before - x - 0x1_0000_0000 < 0)
  {
    NegativeLeadIsUnsound(t, l, p, k, x);
    SaleFields(t, l, p, k, x);
    Wrap32SubNegative(t.teams[k].remainingPoints, x);
  }

  /** A sound store holds no leading bid below zero. */
  lemma NegativeLeadIsUnsound(t: Tables, l: string, p: int, k: int, x: int)
    requires Leads(t, l, p, k, x) && x < 0
    ensures !Sound(t)
  {
  }
}
