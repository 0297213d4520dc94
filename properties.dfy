/** What the auction guarantees over any sequence of host and team actions: the invariants the
    actions keep, the ones they keep only for requests that stay inside their own lobby, and the
    consequences for selling (no fault, exact settlement, a sold player stays sold). */
module AuctionProperties {
  import opened Models
  import opened DatabaseService
  import opened AuctionEngine
  import opened Roster

  // ------------------------------------------------------------------ actions and runs

  /** One request to the controller. */
  datatype Command =
    | Start(lobbyId: string, playerId: int, now: int)
    | Offer(lobbyId: string, playerId: int, teamId: int, amount: int, now: int)
    | Sell(lobbyId: string, playerId: int)
    | Skip(lobbyId: string)
    | Pause(lobbyId: string)
    | Grant(lobbyId: string, teamId: int, additionalPoints: int)
    | Enroll(lobbyId: string, playerName: string, position: string)
    | Import(lobbyId: string, playersData: Option<string>)

  /** The controller action a command runs. AddPlayer and ImportPlayers always end in a redirect,
      modelled as Ok. */
  function Step(t: Tables, c: Command): Outcome {
    match c
    case Start(l, p, now) => StartPlayerAuction(t, l, p, now)
    case Offer(l, p, k, a, now) => PlaceBid(t, l, p, k, a, now)
    case Sell(l, p) => ConfirmSale(t, l, p)
    case Skip(l) => SkipPlayer(t, l)
    case Pause(l) => TogglePause(t, l)
    case Grant(l, k, d) => AddPoints(t, l, k, d)
    case Enroll(l, name, position) => Outcome(Ok, AddPlayer(t, l, name, position))
    case Import(l, data) => Outcome(Ok, ImportPlayers(t, l, data))
  }

  /** The tables after running the commands one after the other. */
  function Run(t: Tables, cs: seq<Command>): Tables
    decreases |cs|
  {
    if cs == [] then t else Run(Step(t, cs[0]).tables, cs[1..])
  }

  // ------------------------------------------------------------------ keys

  /** Every action keeps the primary keys intact. */
  lemma StepKeepsWellKeyed(t: Tables, c: Command)
    requires t.WellKeyed()
    ensures Step(t, c).tables.WellKeyed()
  {
    match c
    case Enroll(l, name, position) =>
    case Import(l, data) =>
      ImportPlayersEffect(t, l, data);
    case Sell(l, p) =>
      SaleKeepsWellKeyed(t, l, p);
    case _ =>
  }

  lemma SaleKeepsWellKeyed(t: Tables, l: string, p: int)
    requires t.WellKeyed()
    ensures ConfirmSale(t, l, p).tables.WellKeyed()
  {
    var r := ConfirmSale(t, l, p);
    if r.response == Ok {
      var s := t.auctionStates[l];
      SaleSettles(t, l, p, s.currentHighestBidderTeamId.value, s.currentHighestBid.value);
      SettledFields(t, r.tables, l, p, s.currentHighestBidderTeamId.value, s.currentHighestBid.value);
    }
  }

  // ------------------------------------------------------------------ bid and bidder go together

  /** Each auction row holds a highest bid exactly when it holds a highest bidder. */
  ghost predicate AllBidsPaired(t: Tables) {
    forall l :: l in t.auctionStates ==>
      (t.auctionStates[l].currentHighestBid.Some? <==> t.auctionStates[l].currentHighestBidderTeamId.Some?)
  }

  /** Every action keeps bids and bidders paired: PlaceBid writes both, StartPlayerAuction,
      ConfirmSale and SkipPlayer clear both, and the others leave the auction rows alone. */
  lemma StepKeepsPairing(t: Tables, c: Command)
    requires t.WellKeyed() && AllBidsPaired(t)
    ensures AllBidsPaired(Step(t, c).tables)
  {
    match c
    case Enroll(l, name, position) =>
    case Import(l, data) =>
      ImportPlayersEffect(t, l, data);
    case Sell(l, p) =>
      SaleKeepsPairing(t, l, p);
    case _ =>
  }

  lemma SaleKeepsPairing(t: Tables, l: string, p: int)
    requires t.WellKeyed() && AllBidsPaired(t)
    ensures AllBidsPaired(ConfirmSale(t, l, p).tables)
  {
    var r := ConfirmSale(t, l, p);
    if r.response == Ok {
      var s := t.auctionStates[l];
      SaleSettles(t, l, p, s.currentHighestBidderTeamId.value, s.currentHighestBid.value);
      SettledFields(t, r.tables, l, p, s.currentHighestBidderTeamId.value, s.currentHighestBid.value);
    }
  }

  /** Pairing holds after any run that starts from paired tables. */
  lemma {:induction false} RunKeepsPairing(t: Tables, cs: seq<Command>)
    requires t.WellKeyed() && AllBidsPaired(t)
    ensures Run(t, cs).WellKeyed() && AllBidsPaired(Run(t, cs))
    decreases |cs|
  {
    if cs != [] {
      StepKeepsWellKeyed(t, cs[0]);
      StepKeepsPairing(t, cs[0]);
      RunKeepsPairing(Step(t, cs[0]).tables, cs[1..]);
    }
  }

  /** With bids paired, ConfirmSale's `CurrentHighestBid!.Value` always finds a value: the sale
      never faults. */
  lemma ConfirmSaleNeverFaults(t: Tables, lobbyId: string, playerId: int)
    requires AllBidsPaired(t)
    ensures ConfirmSale(t, lobbyId, playerId).response != Fault
  {
    if HasBidder(t, lobbyId, playerId) {
      assert t.auctionStates[lobbyId].currentHighestBid.Some?;
    }
  }

  // ------------------------------------------------------------------ a sound auction

  /** The facts about lobby `l`'s auction row that make selling well defined: the player on the
      block is one of the lobby's unsold players, and a leading team belongs to the lobby, can
      pay its non-negative bid and still has room for the player. */
  ghost predicate OnBlock(t: Tables, l: string)
    requires l in t.auctionStates
  {
    var s := t.auctionStates[l];
    && (s.currentPlayerId.Some? ==>
          && s.currentPlayerId.value in t.players
          && t.players[s.currentPlayerId.value].lobbyId == l
          && !t.players[s.currentPlayerId.value].isAuctioned)
    && (s.currentHighestBidderTeamId.Some? ==>
          && s.currentPlayerId.Some? && s.currentHighestBid.Some?
          && s.currentHighestBidderTeamId.value in t.teams && l in t.lobbies
          && t.teams[s.currentHighestBidderTeamId.value].lobbyId == l
          && 0 <= s.currentHighestBid.value <= t.teams[s.currentHighestBidderTeamId.value].remainingPoints
          && t.teams[s.currentHighestBidderTeamId.value].playerCount < t.lobbies[l].maxPlayersPerTeam)
  }

  /** Budgets and rosters fit C#'s `int` and are not negative. */
  ghost predicate TeamsInRange(t: Tables) {
    forall k :: k in t.teams ==>
      && 0 <= t.teams[k].remainingPoints <= INT32_MAX
      && 0 <= t.teams[k].playerCount <= INT32_MAX
  }

  /** Every lobby's roster limit fits C#'s `int`. */
  ghost predicate LobbiesInRange(t: Tables) {
    forall l :: l in t.lobbies ==> t.lobbies[l].maxPlayersPerTeam <= INT32_MAX
  }

  /** A store in which every auction row is in order. */
  ghost predicate Sound(t: Tables) {
    && t.WellKeyed() && AllBidsPaired(t) && TeamsInRange(t) && LobbiesInRange(t)
    && forall l :: l in t.auctionStates ==> OnBlock(t, l)
  }

  /** A request that stays inside its own lobby: the host puts up one of the lobby's players, a
      team bids a non-negative amount in its own lobby, and the host's point adjustment keeps the
      budget within `int` and above any bid the team is holding. The controller checks none of
      these. */
  ghost predicate WellScoped(t: Tables, c: Command) {
    match c
    case Start(l, p, _) => p in t.players ==> t.players[p].lobbyId == l
    case Offer(l, _, k, a, _) => 0 <= a && (k in t.teams ==> t.teams[k].lobbyId == l)
    case Grant(_, k, d) =>
      k in t.teams ==>
        && 0 <= t.teams[k].remainingPoints + d <= INT32_MAX
        && forall l ::
             (l in t.auctionStates && t.auctionStates[l].currentHighestBidderTeamId == Some(k)
              && t.auctionStates[l].currentHighestBid.Some?) ==>
             t.auctionStates[l].currentHighestBid.value <= t.teams[k].remainingPoints + d
    case _ => true
  }

  /** Every request of the run is well scoped in the state it meets. */
  ghost predicate ScopedRun(t: Tables, cs: seq<Command>)
    decreases |cs|
  {
    cs == [] || (WellScoped(t, cs[0]) && ScopedRun(Step(t, cs[0]).tables, cs[1..]))
  }

  /** Adding players, with every existing row kept, keeps a store sound. */
  lemma SoundWithNewPlayers(t: Tables, r: Tables)
    requires Sound(t) && r.WellKeyed()
    requires r.(players := t.players, nextPlayerId := t.nextPlayerId) == t
    requires forall k :: k in t.players ==> k in r.players && r.players[k] == t.players[k]
    ensures Sound(r)
  {
    assert r.auctionStates == t.auctionStates && r.teams == t.teams && r.lobbies == t.lobbies;
    forall l | l in r.auctionStates ensures OnBlock(r, l) {
      assert OnBlock(t, l);
      var s := t.auctionStates[l];
      if s.currentPlayerId.Some? {
        var q := s.currentPlayerId.value;
        assert q in t.players;
        assert q in r.players;
        assert r.players[q] == t.players[q];
      }
    }
  }

  lemma SoundAfterStart(t: Tables, l: string, p: int, now: int)
    requires Sound(t) && WellScoped(t, Start(l, p, now))
    ensures Sound(StartPlayerAuction(t, l, p, now).tables)
  {
    var r := StartPlayerAuction(t, l, p, now).tables;
    forall l' | l' in r.auctionStates ensures OnBlock(r, l') {
      if l' != l { assert OnBlock(t, l'); }
    }
  }

  lemma SoundAfterOffer(t: Tables, l: string, p: int, k: int, a: int, now: int)
    requires Sound(t) && WellScoped(t, Offer(l, p, k, a, now))
    ensures Sound(PlaceBid(t, l, p, k, a, now).tables)
  {
    var r := PlaceBid(t, l, p, k, a, now).tables;
    if BidAdmissible(t, l, p, k, a) {
      forall l' | l' in r.auctionStates ensures OnBlock(r, l') {
        assert OnBlock(t, l');
      }
    }
  }

  lemma SoundAfterSell(t: Tables, l: string, p: int)
    requires Sound(t)
    ensures Sound(ConfirmSale(t, l, p).tables)
  {
    var o := ConfirmSale(t, l, p);
    if o.response == Ok {
      var s := t.auctionStates[l];
      assert OnBlock(t, l);
      SaleSettles(t, l, p, s.currentHighestBidderTeamId.value, s.currentHighestBid.value);
      SettledKeepsSound(t, o.tables, l, p, s.currentHighestBidderTeamId.value, s.currentHighestBid.value);
    }
  }

  /** A sale settled on the leading bid of a sound store leaves a sound store. */
  lemma SettledKeepsSound(t: Tables, r: Tables, l: string, p: int, k: int, price: int)
    requires Sound(t) && Leads(t, l, p, k, price)
    requires SaleSettled(t, r, l, p, k, price)
    ensures Sound(r)
  {
    assert OnBlock(t, l);
    SettledFields(t, r, l, p, k, price);
    assert r.teams[k].remainingPoints == t.teams[k].remainingPoints - price;
    assert r.teams[k].playerCount == t.teams[k].playerCount + 1;
    forall l' | l' in r.auctionStates ensures OnBlock(r, l') {
      if l' != l {
        assert OnBlock(t, l');
        assert r.auctionStates[l'] == t.auctionStates[l'];
      }
    }
  }

  lemma SoundAfterSkip(t: Tables, l: string)
    requires Sound(t)
    ensures Sound(SkipPlayer(t, l).tables)
  {
    var r := SkipPlayer(t, l).tables;
    forall l' | l' in r.auctionStates ensures OnBlock(r, l') {
      if l' != l { assert OnBlock(t, l'); }
    }
  }

  lemma SoundAfterPause(t: Tables, l: string)
    requires Sound(t)
    ensures Sound(TogglePause(t, l).tables)
  {
    var r := TogglePause(t, l).tables;
    forall l' | l' in r.auctionStates ensures OnBlock(r, l') {
      assert OnBlock(t, l');
    }
  }

  lemma SoundAfterGrant(t: Tables, l: string, k: int, d: int)
    requires Sound(t) && WellScoped(t, Grant(l, k, d))
    ensures Sound(AddPoints(t, l, k, d).tables)
  {
    var r := AddPoints(t, l, k, d).tables;
    forall l' | l' in r.auctionStates ensures OnBlock(r, l') {
      assert OnBlock(t, l');
    }
  }

  /** Every well-scoped request keeps the store sound. */
  lemma StepKeepsSound(t: Tables, c: Command)
    requires Sound(t) && WellScoped(t, c)
    ensures Sound(Step(t, c).tables)
  {
    match c
    case Start(l, p, now) => SoundAfterStart(t, l, p, now);
    case Offer(l, p, k, a, now) => SoundAfterOffer(t, l, p, k, a, now);
    case Sell(l, p) => SoundAfterSell(t, l, p);
    case Skip(l) => SoundAfterSkip(t, l);
    case Pause(l) => SoundAfterPause(t, l);
    case Grant(l, k, d) => SoundAfterGrant(t, l, k, d);
    case Enroll(l, name, position) =>
      SoundWithNewPlayers(t, AddPlayer(t, l, name, position));
    case Import(l, data) =>
      ImportPlayersEffect(t, l, data);
      SoundWithNewPlayers(t, ImportPlayers(t, l, data));
  }

  /** A run of well-scoped requests keeps the store sound. */
  lemma {:induction false} RunKeepsSound(t: Tables, cs: seq<Command>)
    requires Sound(t) && ScopedRun(t, cs)
    ensures Sound(Run(t, cs))
    decreases |cs|
  {
    if cs != [] {
      StepKeepsSound(t, cs[0]);
      RunKeepsSound(Step(t, cs[0]).tables, cs[1..]);
    }
  }

  // ------------------------------------------------------------------ admitted bids and sales, field by field

  /** An admitted bid touches only the lobby's auction row and the audit trail: the row keeps
      its player and now holds the bid and the bidder. */
  lemma AdmittedBidFields(t: Tables, l: string, p: int, k: int, a: int, now: int)
    requires t.WellKeyed() && PlaceBid(t, l, p, k, a, now).response == Ok
    ensures var r := PlaceBid(t, l, p, k, a, now).tables;
            && r.WellKeyed()
            && r.lobbies == t.lobbies && r.teams == t.teams && r.players == t.players
            && r.auctionStates.Keys == t.auctionStates.Keys
            && r.auctionStates[l].currentPlayerId == Some(p)
            && r.auctionStates[l].currentHighestBid == Some(a)
            && r.auctionStates[l].currentHighestBidderTeamId == Some(k)
            && (forall l' :: l' in t.auctionStates && l' != l ==> r.auctionStates[l'] == t.auctionStates[l'])
  {
  }

  /** Team `k` leads lobby `l`'s auction of player `p` with bid `x`, and both rows exist. */
  predicate Leads(t: Tables, l: string, p: int, k: int, x: int) {
    && IsCurrentPlayer(t, l, p)
    && t.auctionStates[l].currentHighestBidderTeamId == Some(k) && t.auctionStates[l].currentHighestBid == Some(x)
    && k in t.teams && p in t.players
  }

  /** A committed sale, field by field: when team `k` leads with `x`, the sale goes through, the
      player is sold to `k` at `x`, `k` pays in 32-bit arithmetic and gains a player, the lobby's
      row is emptied; other players, teams and rows and the lobbies stay as they were. */
  lemma SaleFields(t: Tables, l: string, p: int, k: int, x: int)
    requires t.WellKeyed() && Leads(t, l, p, k, x)
    ensures var o := ConfirmSale(t, l, p);
            var r := o.tables;
            && o.response == Ok
            && r.WellKeyed()
            && r.lobbies == t.lobbies
            && r.players.Keys == t.players.Keys && r.teams.Keys == t.teams.Keys
            && r.auctionStates.Keys == t.auctionStates.Keys
            && r.players[p] == SoldTo(t.players[p], k, x)
            && r.teams[k].remainingPoints == Wrap32(t.teams[k].remainingPoints - x)
            && r.teams[k].playerCount == Wrap32(t.teams[k].playerCount + 1)
            && Idle(r.auctionStates[l])
            && (forall q :: q in t.players && q != p ==> r.players[q] == t.players[q])
            && (forall j :: j in t.teams && j != k ==> r.teams[j] == t.teams[j])
            && (forall l' :: l' in t.auctionStates && l' != l ==> r.auctionStates[l'] == t.auctionStates[l'])
  {
    SaleSettles(t, l, p, k, x);
    SettledFields(t, ConfirmSale(t, l, p).tables, l, p, k, x);
  }

  /** A leading bid is settled by the sale. */
  lemma SaleSettles(t: Tables, l: string, p: int, k: int, x: int)
    requires t.WellKeyed() && Leads(t, l, p, k, x)
    ensures ConfirmSale(t, l, p).response == Ok
    ensures SaleSettled(t, ConfirmSale(t, l, p).tables, l, p, k, x)
  {
  }

  /** What a settled sale leaves in each table. */
  lemma SettledFields(t: Tables, r: Tables, l: string, p: int, k: int, x: int)
    requires t.WellKeyed() && p in t.players && k in t.teams && l in t.auctionStates
    requires SaleSettled(t, r, l, p, k, x)
    ensures && r.WellKeyed()
            && r.lobbies == t.lobbies && r.bids == t.bids
            && r.players.Keys == t.players.Keys && r.teams.Keys == t.teams.Keys
            && r.auctionStates.Keys == t.auctionStates.Keys
            && r.players[p] == SoldTo(t.players[p], k, x)
            && r.teams[k].remainingPoints == Wrap32(t.teams[k].remainingPoints - x)
            && r.teams[k].playerCount == Wrap32(t.teams[k].playerCount + 1)
            && Idle(r.auctionStates[l])
            && (forall q :: q in t.players && q != p ==> r.players[q] == t.players[q])
            && (forall j :: j in t.teams && j != k ==> r.teams[j] == t.teams[j])
            && (forall l' :: l' in t.auctionStates && l' != l ==> r.auctionStates[l'] == t.auctionStates[l'])
  {
  }

  // ------------------------------------------------------------------ consequences for selling

  /** In a sound store a sale is decided by the auction row alone: it goes through exactly when
      a team leads the bidding on the player, and then the price (non-negative and within the
      leader's budget) is deducted without wrap-around, the leader's roster grows by one without
      passing the lobby's limit, and the player is sold to the leader at that price. */
  lemma SoundSaleIsExact(t: Tables, l: string, p: int)
    requires Sound(t)
    ensures var o := ConfirmSale(t, l, p);
            && (o.response == Ok <==> HasBidder(t, l, p))
            && (o.response != Ok ==> o.response == BadRequest(NoValidBid) && o.tables == t)
    ensures HasBidder(t, l, p) ==>
            var o := ConfirmSale(t, l, p);
            var k := t.auctionStates[l].currentHighestBidderTeamId.value;
            var price := t.auctionStates[l].currentHighestBid.value;
            && k in t.teams && p in t.players && l in t.lobbies
            && t.teams[k].lobbyId == l && t.players[p].lobbyId == l
            && 0 <= price <= t.teams[k].remainingPoints
            && o.tables.teams[k].remainingPoints == t.teams[k].remainingPoints - price
            && o.tables.teams[k].playerCount == t.teams[k].playerCount + 1 <= t.lobbies[l].maxPlayersPerTeam
            && o.tables.players[p] == SoldTo(t.players[p], k, price)
  {
    if HasBidder(t, l, p) {
      assert OnBlock(t, l);
      var s := t.auctionStates[l];
      var k := s.currentHighestBidderTeamId.value;
      SaleSettles(t, l, p, k, s.currentHighestBid.value);
      SettledFields(t, ConfirmSale(t, l, p).tables, l, p, k, s.currentHighestBid.value);
    }
  }

  /** A sold player can be neither put up again, nor bid on, nor sold again. */
  lemma SoldPlayerIsFinal(t: Tables, l: string, p: int, k: int, amount: int, now: int)
    requires Sound(t) && p in t.players && t.players[p].isAuctioned
    ensures StartPlayerAuction(t, l, p, now).response == BadRequest(PlayerNotAvailable)
    ensures PlaceBid(t, l, p, k, amount, now).response != Ok
    ensures ConfirmSale(t, l, p).response == BadRequest(NoValidBid)
  {
    if l in t.auctionStates {
      assert OnBlock(t, l);
    }
  }

  /** No request changes the row of a sold player. */
  lemma StepKeepsSoldPlayer(t: Tables, c: Command, p: int)
    requires Sound(t) && p in t.players && t.players[p].isAuctioned
    ensures p in Step(t, c).tables.players && Step(t, c).tables.players[p] == t.players[p]
  {
    match c
    case Sell(l, q) =>
      var o := ConfirmSale(t, l, q);
      if o.response == Ok {
        assert OnBlock(t, l);
        var s := t.auctionStates[l];
        SaleSettles(t, l, q, s.currentHighestBidderTeamId.value, s.currentHighestBid.value);
        SettledFields(t, o.tables, l, q, s.currentHighestBidderTeamId.value, s.currentHighestBid.value);
      }
    case Import(l, data) =>
      ImportPlayersEffect(t, l, data);
    case _ =>
  }

  /** Once sold, a player stays sold to the same team at the same price through any run of
      well-scoped requests. */
  lemma {:induction false} RunKeepsSoldPlayer(t: Tables, cs: seq<Command>, p: int)
    requires Sound(t) && ScopedRun(t, cs) && p in t.players && t.players[p].isAuctioned
    ensures p in Run(t, cs).players && Run(t, cs).players[p] == t.players[p]
    decreases |cs|
  {
    if cs != [] {
      StepKeepsSoldPlayer(t, cs[0], p);
      StepKeepsSound(t, cs[0]);
      RunKeepsSoldPlayer(Step(t, cs[0]).tables, cs[1..], p);
    }
  }

  /** In a sound store a player is on the block in at most one lobby, its own. */
  lemma CurrentInOneLobby(t: Tables, l1: string, l2: string, p: int)
    requires Sound(t) && IsCurrentPlayer(t, l1, p) && IsCurrentPlayer(t, l2, p)
    ensures l1 == l2 && p in t.players && t.players[p].lobbyId == l1
  {
    assert OnBlock(t, l1) && OnBlock(t, l2);
  }

  // ------------------------------------------------------------------ the bidding on one lobby

  /** The request resets lobby `l`'s auction: it puts up a player, sells or skips there. */
  predicate Resets(c: Command, l: string) {
    match c
    case Start(l', _, _) => l' == l
    case Sell(l', _) => l' == l
    case Skip(l') => l' == l
    case _ => false
  }

  /** `after` is at least as high as `before`; no bid counts as the lowest. */
  predicate NoLower(before: Option<int>, after: Option<int>) {
    before.None? || (after.Some? && before.value <= after.value)
  }

  /** A request that does not reset lobby `l` keeps its player on the block, and the highest bid
      there can only rise: strictly, when a bid is admitted in `l`. */
  lemma StepRaisesBid(t: Tables, c: Command, l: string)
    requires t.WellKeyed() && l in t.auctionStates && !Resets(c, l)
    ensures var r := Step(t, c).tables;
            && l in r.auctionStates
            && r.auctionStates[l].currentPlayerId == t.auctionStates[l].currentPlayerId
            && NoLower(t.auctionStates[l].currentHighestBid, r.auctionStates[l].currentHighestBid)
    ensures c.Offer? && c.lobbyId == l && Step(t, c).response == Ok ==>
            && Step(t, c).tables.auctionStates[l].currentHighestBid == Some(c.amount)
            && (t.auctionStates[l].currentHighestBid.Some? ==> t.auctionStates[l].currentHighestBid.value < c.amount)
  {
    match c
    case Sell(l', q) =>
      SaleLeavesOtherRows(t, l', q, l);
    case Import(l', data) =>
      ImportPlayersEffect(t, l', data);
    case _ =>
  }

  /** A sale touches no other lobby's auction row. */
  lemma SaleLeavesOtherRows(t: Tables, l': string, q: int, l: string)
    requires t.WellKeyed() && l in t.auctionStates && l != l'
    ensures l in ConfirmSale(t, l', q).tables.auctionStates
    ensures ConfirmSale(t, l', q).tables.auctionStates[l] == t.auctionStates[l]
  {
    var o := ConfirmSale(t, l', q);
    if o.response == Ok {
      var s := t.auctionStates[l'];
      SaleSettles(t, l', q, s.currentHighestBidderTeamId.value, s.currentHighestBid.value);
      SettledFields(t, o.tables, l', q, s.currentHighestBidderTeamId.value, s.currentHighestBid.value);
    }
  }

  /** Between two resets of lobby `l` the player on the block stays the same and the highest bid
      never falls. */
  lemma {:induction false} RunRaisesBid(t: Tables, cs: seq<Command>, l: string)
    requires t.WellKeyed() && l in t.auctionStates
    requires forall i :: 0 <= i < |cs| ==> !Resets(cs[i], l)
    ensures var r := Run(t, cs);
            && l in r.auctionStates
            && r.auctionStates[l].currentPlayerId == t.auctionStates[l].currentPlayerId
            && NoLower(t.auctionStates[l].currentHighestBid, r.auctionStates[l].currentHighestBid)
    decreases |cs|
  {
    if cs != [] {
      StepRaisesBid(t, cs[0], l);
      StepKeepsWellKeyed(t, cs[0]);
      RunRaisesBid(Step(t, cs[0]).tables, cs[1..], l);
    }
  }

  /** The bid audit trail only grows: every request appends at most one record, and only an
      admitted bid appends one. */
  lemma StepExtendsBidLog(t: Tables, c: Command)
    requires t.WellKeyed()
    ensures var r := Step(t, c);
            && t.bids <= r.tables.bids
            && |r.tables.bids| <= |t.bids| + 1
            && (|r.tables.bids| == |t.bids| + 1 <==> c.Offer? && r.response == Ok)
  {
    match c
    case Sell(l, q) =>
      var o := ConfirmSale(t, l, q);
      if o.response == Ok {
        var s := t.auctionStates[l];
        SaleSettles(t, l, q, s.currentHighestBidderTeamId.value, s.currentHighestBid.value);
        SettledFields(t, o.tables, l, q, s.currentHighestBidderTeamId.value, s.currentHighestBid.value);
      }
    case Import(l, data) =>
      ImportPlayersEffect(t, l, data);
    case _ =>
  }

  /** Over a run the audit trail keeps its old records as a prefix and gains at most one record
      per request. */
  lemma {:induction false} RunExtendsBidLog(t: Tables, cs: seq<Command>)
    requires t.WellKeyed()
    ensures t.bids <= Run(t, cs).bids && |Run(t, cs).bids| <= |t.bids| + |cs|
    decreases |cs|
  {
    if cs != [] {
      StepExtendsBidLog(t, cs[0]);
      StepKeepsWellKeyed(t, cs[0]);
      RunExtendsBidLog(Step(t, cs[0]).tables, cs[1..]);
    }
  }

  // ------------------------------------------------------------------ host controls

  /** Pausing twice restores the lobby. */
  lemma TogglePauseTwice(t: Tables, l: string)
    ensures TogglePause(TogglePause(t, l).tables, l).tables == t
  {
    if l in t.lobbies {
      var r := TogglePause(t, l).tables;
      assert r.lobbies[l := t.lobbies[l]] == t.lobbies;
    }
  }

  /** Two point adjustments of a team add up to one. */
  lemma AddPointsAdds(t: Tables, l: string, k: int, a: int, b: int)
    ensures AddPoints(AddPoints(t, l, k, a).tables, l, k, b).tables == AddPoints(t, l, k, a + b).tables
  {
  }
}
