/**
 * The AI player's development-card play (`heuristic_play_dev_card`): at most
 * one card a turn, tried in a fixed order (knight, road builder, year of
 * plenty, monopoly), each with its own condition and effect.
 */
module DevCardPlay {
  import opened Resources
  import opened Board
  import opened Players
  import opened HeuristicAI
  import Bonus

  /**
   * The game the player is in, if any: the interactive game (unique-maximum
   * longest-road rule) or the all-AI game (strict-lead rule).  Both apply the
   * same largest-army rule.
   */
  datatype GameKind = NoGame | InteractiveGame | AIOnlyGame

  /** Some tile around one of the vertices carries the robber. */
  function TouchesRobber(hexes: seq<HexTile>, adj: seq<nat>): bool
    requires AllBelow(adj, |hexes|)
    decreases |adj|
  {
    adj != [] && (TouchesRobber(hexes, adj[..|adj| - 1]) || hexes[adj[|adj| - 1]].robber)
  }

  /** Some building site has a tile with the robber around it. */
  function Blocked(hexes: seq<HexTile>, vertices: seq<Vertex>, sites: seq<nat>): bool
    requires GraphValid(hexes, vertices) && AllBelow(sites, |vertices|)
    decreases |sites|
  {
    sites != [] && (Blocked(hexes, vertices, sites[..|sites| - 1])
                    || TouchesRobber(hexes, vertices[sites[|sites| - 1]].adjacentHexes))
  }

  /** The robber blocks a site exactly when one of the site's tiles carries it. */
  lemma {:induction false} BlockedExactly(hexes: seq<HexTile>, vertices: seq<Vertex>, sites: seq<nat>)
    requires GraphValid(hexes, vertices) && AllBelow(sites, |vertices|)
    ensures Blocked(hexes, vertices, sites) <==>
      exists i, k :: 0 <= i < |sites| && 0 <= k < |vertices[sites[i]].adjacentHexes|
        && hexes[vertices[sites[i]].adjacentHexes[k]].robber
    decreases |sites|
  {
    if sites != [] {
      var init := sites[..|sites| - 1];
      BlockedExactly(hexes, vertices, init);
      var adj := vertices[sites[|sites| - 1]].adjacentHexes;
      TouchesExactly(hexes, adj);
      if Blocked(hexes, vertices, init) {
        var i, k :| 0 <= i < |init| && 0 <= k < |vertices[init[i]].adjacentHexes|
          && hexes[vertices[init[i]].adjacentHexes[k]].robber;
        assert sites[i] == init[i];
      } else if TouchesRobber(hexes, adj) {
        var k :| 0 <= k < |adj| && hexes[adj[k]].robber;
        assert sites[|sites| - 1] == sites[|sites| - 1];
      } else {
        forall i, k | 0 <= i < |sites| && 0 <= k < |vertices[sites[i]].adjacentHexes|
          ensures !hexes[vertices[sites[i]].adjacentHexes[k]].robber
        {
          if i < |init| {
            assert sites[i] == init[i];
          }
        }
      }
    }
  }

  lemma {:induction false} TouchesExactly(hexes: seq<HexTile>, adj: seq<nat>)
    requires AllBelow(adj, |hexes|)
    ensures TouchesRobber(hexes, adj) <==> exists k :: 0 <= k < |adj| && hexes[adj[k]].robber
    decreases |adj|
  {
    if adj != [] {
      var init := adj[..|adj| - 1];
      TouchesExactly(hexes, init);
      if TouchesRobber(hexes, init) {
        var k :| 0 <= k < |init| && hexes[init[k]].robber;
        assert adj[k] == init[k];
      } else {
        forall k | 0 <= k < |adj|
          ensures hexes[adj[k]].robber ==> k == |adj| - 1
        {
          if k < |init| {
            assert adj[k] == init[k];
          }
        }
      }
    }
  }

  /** One site's tiles, scanned until the robber is found (the inner loop). */
  method SiteBlocked(board: Board, v: nat) returns (blocked: bool)
    requires GraphValid(board.hexes, board.vertices) && v < |board.vertices|
    ensures blocked == TouchesRobber(board.hexes, board.vertices[v].adjacentHexes)
  {
    var adj := board.vertices[v].adjacentHexes;
    blocked := false;
    var k := 0;
    while k < |adj| && !blocked
      invariant 0 <= k <= |adj|
      invariant blocked == TouchesRobber(board.hexes, adj[..k])
      invariant blocked ==> TouchesRobber(board.hexes, adj)
    {
      assert adj[..k + 1][..k] == adj[..k];
      blocked := board.hexes[adj[k]].robber;
      PrefixTouches(board.hexes, adj, k + 1);
      k := k + 1;
    }
    if !blocked {
      assert adj[..k] == adj;
    }
  }

  /** Touching the robber on a prefix of the tiles means touching it. */
  lemma {:induction false} PrefixTouches(hexes: seq<HexTile>, adj: seq<nat>, n: nat)
    requires AllBelow(adj, |hexes|) && n <= |adj|
    ensures TouchesRobber(hexes, adj[..n]) ==> TouchesRobber(hexes, adj)
    decreases |adj| - n
  {
    if n < |adj| {
      assert adj[..n + 1][..n] == adj[..n];
      PrefixTouches(hexes, adj, n + 1);
    } else {
      assert adj[..n] == adj;
    }
  }

  /** Blocking on a prefix of the sites means blocking. */
  lemma {:induction false} PrefixBlocked(hexes: seq<HexTile>, vertices: seq<Vertex>, sites: seq<nat>, n: nat)
    requires GraphValid(hexes, vertices) && AllBelow(sites, |vertices|) && n <= |sites|
    ensures Blocked(hexes, vertices, sites[..n]) ==> Blocked(hexes, vertices, sites)
    decreases |sites| - n
  {
    if n < |sites| {
      assert sites[..n + 1][..n] == sites[..n];
      PrefixBlocked(hexes, vertices, sites, n + 1);
    } else {
      assert sites[..n] == sites;
    }
  }

  /**
   * The knight's robber test: the scan of the player's settlements and then
   * cities, stopping at the first site with the robber on one of its tiles.
   */
  method RobberBlocking(board: Board, sites: seq<nat>) returns (blocked: bool)
    requires GraphValid(board.hexes, board.vertices) && AllBelow(sites, |board.vertices|)
    ensures blocked == Blocked(board.hexes, board.vertices, sites)
  {
    blocked := false;
    var i := 0;
    while i < |sites| && !blocked
      invariant 0 <= i <= |sites|
      invariant blocked == Blocked(board.hexes, board.vertices, sites[..i])
      invariant blocked ==> Blocked(board.hexes, board.vertices, sites)
    {
      assert sites[..i + 1][..i] == sites[..i];
      blocked := SiteBlocked(board, sites[i]);
      PrefixBlocked(board.hexes, board.vertices, sites, i + 1);
      i := i + 1;
    }
    if !blocked {
      assert sites[..i] == sites;
    }
  }

  /** The development cards after one card of kind `c` is spent. */
  function Spent(d: DevHand, c: DevCard): (e: DevHand)
    requires IsDevHand(d) && d[c] > 0
    ensures IsDevHand(e) && e[c] + 1 == d[c]
    ensures forall k :: k != c ==> e[k] == d[k]
  {
    d[c := d[c] - 1]
  }

  /** Spending a development card: its count drops by one and the turn's latch is set. */
  method SpendCard(p: Player, c: DevCard)
    requires IsDevHand(p.devCards) && p.devCards[c] > 0
    modifies p`devCards, p`devCardPlayedThisTurn
    ensures IsDevHand(p.devCards)
    ensures p.devCards == Spent(old(p.devCards), c)
    ensures p.devCardPlayedThisTurn
  {
    p.devCards := p.devCards[c := p.devCards[c] - 1];
    p.devCardPlayedThisTurn := true;
  }

  /**
   * The knight's own bookkeeping: the card is spent and one more knight
   * counts as played.  What the robber heuristic looks at does not change.
   */
  method CountKnight(ps: seq<Player>, me: nat)
    requires me < |ps| && Distinct(ps) && Holding(ps) && ps[me].devCards[Knight] > 0
    modifies {ps[me]}`devCards, {ps[me]}`devCardPlayedThisTurn, {ps[me]}`knightsPlayed
    ensures Holding(ps)
    ensures ps[me].devCards == Spent(old(ps[me].devCards), Knight)
    ensures ps[me].devCardPlayedThisTurn
    ensures ps[me].knightsPlayed == old(ps[me].knightsPlayed) + 1
    ensures unchanged(ps`resources, ps`longestRoadFlag, ps`roads, ps`roadsLeft, ps`maxRoadLength)
  {
    var p := ps[me];
    SpendCard(p, Knight);
    p.knightsPlayed := p.knightsPlayed + 1;
  }

  /**
   * The largest-army rule as a knight applies it: only inside a game, and
   * then by the strict-lead rule with a threshold of three knights.
   */
  function ArmyAfterKnight(game: GameKind, knights: seq<nat>, flags: seq<bool>, vp: seq<int>, me: nat): Bonus.Award
    requires me < |knights| && |flags| == |knights| && |vp| == |knights|
  {
    if game == NoGame then Bonus.Award(flags, vp)
    else Bonus.StrictLeadAward(knights, flags, vp, me, Bonus.ArmyThreshold)
  }

  /** The largest-army rule after a knight: applied only inside a game. */
  method ApplyArmyRule(ps: seq<Player>, me: nat, game: GameKind)
    requires me < |ps| && Distinct(ps) && Holding(ps)
    modifies ps`largestArmyFlag, ps`victoryPoints
    ensures Holding(ps)
    ensures Bonus.Award(Bonus.ArmyFlags(ps), Bonus.Points(ps))
      == ArmyAfterKnight(game, Bonus.KnightCounts(ps), old(Bonus.ArmyFlags(ps)), old(Bonus.Points(ps)), me)
    ensures unchanged(ps`resources, ps`longestRoadFlag, ps`roads, ps`roadsLeft, ps`maxRoadLength)
  {
    if game != NoGame {
      Bonus.CheckLargestArmy(ps, me);
    }
  }

  /**
   * The knight's effect on the players: the card is spent, one more knight
   * counts as played, and in a game the largest-army rule is applied to the
   * player.
   */
  method KnightBookkeeping(ps: seq<Player>, me: nat, game: GameKind)
    requires me < |ps| && Distinct(ps) && Holding(ps) && ps[me].devCards[Knight] > 0
    modifies {ps[me]}`devCards, {ps[me]}`devCardPlayedThisTurn, {ps[me]}`knightsPlayed
    modifies ps`largestArmyFlag, ps`victoryPoints
    ensures Holding(ps)
    ensures ps[me].devCards == Spent(old(ps[me].devCards), Knight)
    ensures ps[me].devCardPlayedThisTurn
    ensures ps[me].knightsPlayed == old(ps[me].knightsPlayed) + 1
    ensures Bonus.Award(Bonus.ArmyFlags(ps), Bonus.Points(ps))
      == ArmyAfterKnight(game, Bonus.KnightCounts(ps), old(Bonus.ArmyFlags(ps)), old(Bonus.Points(ps)), me)
    ensures unchanged(ps`resources, ps`longestRoadFlag, ps`roads, ps`roadsLeft, ps`maxRoadLength)
  {
    ghost var flags, vp := Bonus.ArmyFlags(ps), Bonus.Points(ps);
    CountKnight(ps, me);
    Bonus.ArmyStateIs(ps, flags, vp);
    ApplyArmyRule(ps, me, game);
  }

  /**
   * The knight: the card is spent, one more knight counts as played, the
   * robber moves by the robber heuristic, and in a game the largest-army
   * rule is applied to the player.  The robber move touches only the board
   * and reads only what the knight's bookkeeping leaves alone (points and
   * card counts before the largest-army rule), so it is made first here.
   */
  method PlayKnight(board: Board, ps: seq<Player>, me: nat, game: GameKind, spots: seq<nat>, pick: nat)
    requires board.Valid() && me < |ps| && Distinct(ps) && Holding(ps)
    requires RobberReady(board.hexes, board.vertices, |ps|, spots) && pick < |spots|
    requires ps[me].devCards[Knight] > 0
    modifies board`hexes, {ps[me]}`devCards, {ps[me]}`devCardPlayedThisTurn, {ps[me]}`knightsPlayed
    modifies ps`largestArmyFlag, ps`victoryPoints
    ensures board.Valid()
    ensures ps[me].devCards == Spent(old(ps[me].devCards), Knight)
    ensures ps[me].devCardPlayedThisTurn
    ensures ps[me].knightsPlayed == old(ps[me].knightsPlayed) + 1
    ensures board.hexes == RobberMoved(old(board.hexes), ChooseRobbery(old(board.hexes), board.vertices, spots, pick, old(Stats(ps)), me).0)
    ensures Bonus.Award(Bonus.ArmyFlags(ps), Bonus.Points(ps))
      == ArmyAfterKnight(game, Bonus.KnightCounts(ps), old(Bonus.ArmyFlags(ps)), old(Bonus.Points(ps)), me)
    ensures unchanged(board`resourceBank, ps`resources, ps`longestRoadFlag, ps`roads, ps`roadsLeft, ps`maxRoadLength)
  {
    var victim := HeuristicMoveRobber(board, Stats(ps), me, spots, pick);
    KnightBookkeeping(ps, me, game);
  }

  // Road builder

  /**
   * The roads and remaining road pieces after the road-building card: one
   * round per offer, each building the edge offered that round (the random
   * pick among the legal places, made outside this model), stopping at the
   * first round where no edge is offered.  A build with no piece left fails
   * and changes nothing.
   */
  function FreeRoads(roads: seq<Edge>, left: nat, offers: seq<Option<Edge>>): (seq<Edge>, nat)
    decreases |offers|
  {
    if offers == [] || offers[0].None? then (roads, left)
    else if left > 0 then FreeRoads(roads + [offers[0].value], left - 1, offers[1..])
    else FreeRoads(roads, left, offers[1..])
  }

  /**
   * The road-building card adds no more roads than there are rounds, keeps
   * the roads already built, uses one piece per new road, and every new road
   * is one of the offered edges.
   */
  lemma {:induction false} FreeRoadsBounded(roads: seq<Edge>, left: nat, offers: seq<Option<Edge>>)
    ensures var (rs, l) := FreeRoads(roads, left, offers);
      && |roads| <= |rs| <= |roads| + |offers|
      && rs[..|roads|] == roads
      && l + |rs| == left + |roads|
      && forall i :: |roads| <= i < |rs| ==> Some(rs[i]) in offers
    decreases |offers|
  {
    if offers == [] || offers[0].None? {
    } else if left > 0 {
      var more := roads + [offers[0].value];
      FreeRoadsBounded(more, left - 1, offers[1..]);
      var (rs, l) := FreeRoads(more, left - 1, offers[1..]);
      assert rs[..|roads|] == more[..|roads|] == roads by {
        assert rs[..|more|][..|roads|] == rs[..|roads|];
      }
      forall i | |roads| <= i < |rs|
        ensures Some(rs[i]) in offers
      {
        if i == |roads| {
          assert rs[i] == rs[..|more|][i] == offers[0].value;
        } else {
          assert Some(rs[i]) in offers[1..];
        }
      }
    } else {
      FreeRoadsBounded(roads, left, offers[1..]);
    }
  }

  /**
   * A free road build: the edge joins the player's roads and takes a piece;
   * with no piece left the build fails and nothing changes.  Where the road
   * is drawn on the board is not part of this model.
   */
  method BuildFreeRoad(p: Player, e: Edge)
    modifies p`roads, p`roadsLeft
    ensures old(p.roadsLeft) > 0 ==> p.roads == old(p.roads) + [e] && p.roadsLeft == old(p.roadsLeft) - 1
    ensures old(p.roadsLeft) == 0 ==> p.roads == old(p.roads) && p.roadsLeft == 0
  {
    if p.roadsLeft > 0 {
      p.roads := p.roads + [e];
      p.roadsLeft := p.roadsLeft - 1;
    }
  }

  /** The two rounds of the road-building card, stopping when nothing is offered. */
  method BuildOfferedRoads(p: Player, offers: seq<Option<Edge>>)
    requires |offers| == 2
    modifies p`roads, p`roadsLeft
    ensures (p.roads, p.roadsLeft) == FreeRoads(old(p.roads), old(p.roadsLeft), offers)
  {
    var k := 0;
    while k < 2
      invariant 0 <= k <= 2
      invariant FreeRoads(p.roads, p.roadsLeft, offers[k..]) == FreeRoads(old(p.roads), old(p.roadsLeft), offers)
    {
      if offers[k].None? {
        break;
      }
      BuildFreeRoad(p, offers[k].value);
      assert offers[k..][1..] == offers[k + 1..];
      k := k + 1;
    }
  }

  /**
   * The longest-road rule a road-building card triggers: none outside a
   * game, the unique-maximum rule in the interactive game, the strict-lead
   * rule for the player in the all-AI game.
   */
  function RoadAfterBuild(game: GameKind, lens: seq<nat>, flags: seq<bool>, vp: seq<int>, me: nat): Bonus.Award
    requires me < |lens| && |flags| == |lens| && |vp| == |lens|
  {
    match game
    case NoGame => Bonus.Award(flags, vp)
    case InteractiveGame => Bonus.UniqueMaxAward(lens, flags, vp)
    case AIOnlyGame => Bonus.StrictLeadAward(lens, flags, vp, me, Bonus.RoadThreshold)
  }

  method ApplyRoadRule(ps: seq<Player>, me: nat, game: GameKind)
    requires me < |ps| && Distinct(ps)
    modifies ps`longestRoadFlag, ps`victoryPoints
    ensures Bonus.Award(Bonus.RoadFlags(ps), Bonus.Points(ps))
      == RoadAfterBuild(game, Bonus.RoadLengths(ps), old(Bonus.RoadFlags(ps)), old(Bonus.Points(ps)), me)
    ensures unchanged(ps`resources, ps`largestArmyFlag, ps`knightsPlayed)
  {
    if game == InteractiveGame {
      Bonus.CheckLongestRoadUniqueMax(ps);
    } else if game == AIOnlyGame {
      Bonus.CheckLongestRoadStrictLead(ps, me);
    }
  }

  /**
   * The card's effect on its player: spent, then the free roads, then the
   * player's longest road as the road-network search reports it afterwards
   * (`lengthAfter`, computed outside this model).
   */
  method BuildRoadsForFree(p: Player, offers: seq<Option<Edge>>, lengthAfter: nat)
    requires IsDevHand(p.devCards) && p.devCards[RoadBuilder] > 0 && |offers| == 2
    modifies p`devCards, p`devCardPlayedThisTurn, p`roads, p`roadsLeft, p`maxRoadLength
    ensures p.devCards == Spent(old(p.devCards), RoadBuilder)
    ensures p.devCardPlayedThisTurn
    ensures (p.roads, p.roadsLeft) == FreeRoads(old(p.roads), old(p.roadsLeft), offers)
    ensures p.maxRoadLength == lengthAfter
    ensures unchanged(p`resources, p`largestArmyFlag, p`knightsPlayed)
  {
    SpendCard(p, RoadBuilder);
    BuildOfferedRoads(p, offers);
    p.maxRoadLength := lengthAfter;
  }

  /**
   * The road builder: the card is spent, up to two free roads are built, and
   * in a game the longest-road rule of that game is applied.
   */
  method PlayRoadBuilder(ps: seq<Player>, me: nat, game: GameKind, offers: seq<Option<Edge>>, lengthAfter: nat)
    requires me < |ps| && Distinct(ps) && IsDevHand(ps[me].devCards)
    requires ps[me].devCards[RoadBuilder] > 0 && |offers| == 2
    modifies {ps[me]}`devCards, {ps[me]}`devCardPlayedThisTurn, {ps[me]}`roads, {ps[me]}`roadsLeft, {ps[me]}`maxRoadLength
    modifies ps`longestRoadFlag, ps`victoryPoints
    ensures ps[me].devCards == Spent(old(ps[me].devCards), RoadBuilder)
    ensures ps[me].devCardPlayedThisTurn
    ensures (ps[me].roads, ps[me].roadsLeft) == FreeRoads(old(ps[me].roads), old(ps[me].roadsLeft), offers)
    ensures ps[me].maxRoadLength == lengthAfter
    ensures Bonus.Award(Bonus.RoadFlags(ps), Bonus.Points(ps))
      == RoadAfterBuild(game, Bonus.RoadLengths(ps), old(Bonus.RoadFlags(ps)), old(Bonus.Points(ps)), me)
    ensures unchanged(ps`resources, ps`largestArmyFlag, ps`knightsPlayed)
  {
    ghost var flags, vp := Bonus.RoadFlags(ps), Bonus.Points(ps);
    BuildRoadsForFree(ps[me], offers, lengthAfter);
    Bonus.RoadStateIs(ps, flags, vp);
    ApplyRoadRule(ps, me, game);
  }

  // Year of plenty

  /** One card of `r` from the bank to the hand, if the bank has one. */
  function Grant(h: Hand, bank: Hand, r: Resource): (g: (Hand, Hand))
    requires IsHand(h) && IsHand(bank)
    ensures IsHand(g.0) && IsHand(g.1)
  {
    if bank[r] > 0 then (h[r := h[r] + 1], bank[r := bank[r] - 1]) else (h, bank)
  }

  /** A grant moves at most one card, of kind `r`, from the bank to the hand. */
  lemma GrantMoves(h: Hand, bank: Hand, r: Resource)
    requires IsHand(h) && IsHand(bank)
    ensures var (h2, b2) := Grant(h, bank, r);
      && (forall q :: h2[q] + b2[q] == h[q] + bank[q])
      && h2[r] == h[r] + (if bank[r] > 0 then 1 else 0)
      && (forall q :: q != r ==> h2[q] == h[q])
      && (forall q :: h[q] <= h2[q])
      && Total(h2) == Total(h) + (if bank[r] > 0 then 1 else 0)
  {
  }

  /** The two kinds asked for: the first two needed, or the only one twice. */
  function PlentyPicks(needed: Needs): (Resource, Resource)
    requires needed != []
  {
    (needed[0].0, if |needed| > 1 then needed[1].0 else needed[0].0)
  }

  /** Hand and bank after the year-of-plenty withdrawals. */
  function Plenty(h: Hand, bank: Hand, needed: Needs): (g: (Hand, Hand))
    requires IsHand(h) && IsHand(bank) && needed != []
    ensures IsHand(g.0) && IsHand(g.1)
  {
    var (r1, r2) := PlentyPicks(needed);
    var once := Grant(h, bank, r1);
    Grant(once.0, once.1, r2)
  }

  /**
   * Year of plenty conserves hand plus bank kind by kind, grants at most two
   * cards, and grants only kinds that were asked for and that the bank held.
   */
  lemma PlentyBounded(h: Hand, bank: Hand, needed: Needs)
    requires IsHand(h) && IsHand(bank) && needed != []
    ensures var (h2, b2) := Plenty(h, bank, needed);
      && (forall q :: h2[q] + b2[q] == h[q] + bank[q])
      && (forall q :: h[q] <= h2[q])
      && Total(h) <= Total(h2) <= Total(h) + 2
      && forall q :: h2[q] > h[q] ==> bank[q] > 0 && (q == needed[0].0 || (|needed| > 1 && q == needed[1].0))
  {
    var (r1, r2) := PlentyPicks(needed);
    var (h1, b1) := Grant(h, bank, r1);
    GrantMoves(h, bank, r1);
    var (h2, b2) := Grant(h1, b1, r2);
    GrantMoves(h1, b1, r2);
    assert (h2, b2) == Plenty(h, bank, needed);
    assert forall q :: h2[q] > h[q] ==> bank[q] > 0 by {
      forall q | h2[q] > h[q]
        ensures bank[q] > 0
      {
        if q == r2 && h1[q] == h[q] {
          assert b1[q] == bank[q];
        }
      }
    }
  }

  /** `board.withdraw_resource(r)` and, when it succeeds, one more `r` in the hand. */
  method GrantOne(board: Board, p: Player, r: Resource)
    requires board.Valid() && IsHand(p.resources)
    modifies board`resourceBank, p`resources
    ensures board.Valid()
    ensures (p.resources, board.resourceBank) == Grant(old(p.resources), old(board.resourceBank), r)
  {
    var ok := board.WithdrawResource(r, 1);
    if ok {
      p.resources := p.resources[r := p.resources[r] + 1];
    }
  }

  /**
   * Year of plenty: the card is spent and up to two cards of the needed kinds
   * come from the bank, each only if the bank has it.
   */
  method PlayYearOfPlenty(board: Board, p: Player, needed: Needs)
    requires board.Valid() && IsHand(p.resources) && IsDevHand(p.devCards)
    requires p.devCards[YearOfPlenty] > 0 && needed != []
    modifies board`resourceBank, p`resources, p`devCards, p`devCardPlayedThisTurn
    ensures board.Valid()
    ensures p.devCards == Spent(old(p.devCards), YearOfPlenty)
    ensures p.devCardPlayedThisTurn
    ensures (p.resources, board.resourceBank) == Plenty(old(p.resources), old(board.resourceBank), needed)
  {
    SpendCard(p, YearOfPlenty);
    var r1 := needed[0].0;
    GrantOne(board, p, r1);
    var r2 := if |needed| > 1 then needed[1].0 else needed[0].0;
    GrantOne(board, p, r2);
  }

  /**
   * Year of plenty as the AI plays it: the needs come from the player's own
   * hand, and no other player's hand, no bonus and no robber changes.
   */
  method PlayPlenty(board: Board, ps: seq<Player>, me: nat)
    requires board.Valid() && me < |ps| && Distinct(ps) && Holding(ps)
    requires ps[me].devCards[YearOfPlenty] > 0 && YearOfPlentyNeeds(ps[me].resources) != []
    modifies board`resourceBank, {ps[me]}`resources, {ps[me]}`devCards, {ps[me]}`devCardPlayedThisTurn
    ensures board.Valid()
    ensures ps[me].devCards == Spent(old(ps[me].devCards), YearOfPlenty)
    ensures ps[me].devCardPlayedThisTurn
    ensures (ps[me].resources, board.resourceBank)
      == Plenty(old(ps[me].resources), old(board.resourceBank), YearOfPlentyNeeds(old(ps[me].resources)))
    ensures forall j :: 0 <= j < |ps| && j != me ==> ps[j].resources == old(ps[j].resources)
    ensures unchanged(board`hexes, ps`longestRoadFlag, ps`largestArmyFlag, ps`victoryPoints)
    ensures unchanged(ps`knightsPlayed, ps`roads, ps`roadsLeft, ps`maxRoadLength)
  {
    var needed := PlentyNeeds(ps[me].resources);
    assert unchanged(board, ps);
    PlayYearOfPlenty(board, ps[me], needed);
  }

  // Monopoly

  /** The resource hands of the queued players, in queue order. */
  function Hands(ps: seq<Player>): (hs: seq<Hand>)
    reads ps`resources
    ensures |hs| == |ps| && forall i :: 0 <= i < |ps| ==> hs[i] == ps[i].resources
    decreases |ps|
  {
    if ps == [] then [] else Hands(ps[..|ps| - 1]) + [ps[|ps| - 1].resources]
  }

  /** The queue's hands are `hs` when each player's hand is its entry of `hs`. */
  lemma HandsAre(ps: seq<Player>, hs: seq<Hand>)
    requires |hs| == |ps| && forall j :: 0 <= j < |ps| ==> ps[j].resources == hs[j]
    ensures Hands(ps) == hs
  {
  }

  /** What the players other than `me` hold of `r`, together. */
  function OpponentSum(hs: seq<Hand>, me: nat, r: Resource): nat
    requires AllHands(hs)
    decreases |hs|
  {
    if hs == [] then 0
    else OpponentSum(hs[..|hs| - 1], me, r) + (if |hs| - 1 == me then 0 else hs[|hs| - 1][r])
  }

  /** What the players other than `me` hold, kind by kind. */
  function OpponentHand(hs: seq<Hand>, me: nat): (o: Hand)
    requires AllHands(hs)
    ensures IsHand(o) && forall r :: o[r] == OpponentSum(hs, me, r)
  {
    map r: Resource | true :: OpponentSum(hs, me, r)
  }

  /** What all players hold of `r`, together. */
  function HeldByAll(hs: seq<Hand>, r: Resource): nat
    requires AllHands(hs)
    decreases |hs|
  {
    if hs == [] then 0 else HeldByAll(hs[..|hs| - 1], r) + hs[|hs| - 1][r]
  }

  /** The whole table's holding of `r` is the player's own plus the opponents'. */
  lemma {:induction false} HeldSplit(hs: seq<Hand>, me: nat, r: Resource)
    requires AllHands(hs) && me < |hs|
    ensures HeldByAll(hs, r) == hs[me][r] + OpponentSum(hs, me, r)
    decreases |hs|
  {
    var n := |hs| - 1;
    if me < n {
      HeldSplit(hs[..n], me, r);
      assert hs[..n][me] == hs[me];
    } else {
      OpponentSumOutside(hs[..n], me, r);
    }
  }

  /** When `me` is past the end, the opponents are everybody. */
  lemma {:induction false} OpponentSumOutside(hs: seq<Hand>, me: nat, r: Resource)
    requires AllHands(hs) && |hs| <= me
    ensures OpponentSum(hs, me, r) == HeldByAll(hs, r)
    decreases |hs|
  {
    if hs != [] {
      OpponentSumOutside(hs[..|hs| - 1], me, r);
    }
  }

  /** Opponents holding none of `r` together hold none. */
  lemma {:induction false} OpponentSumZero(hs: seq<Hand>, me: nat, r: Resource)
    requires AllHands(hs)
    requires forall i :: 0 <= i < |hs| && i != me ==> hs[i][r] == 0
    ensures OpponentSum(hs, me, r) == 0
    decreases |hs|
  {
    if hs != [] {
      OpponentSumZero(hs[..|hs| - 1], me, r);
    }
  }

  /**
   * The hands after a monopoly on `r` by `me`, once the first `k` players
   * have been visited in queue order.
   */
  function MonopolyUpTo(hs: seq<Hand>, me: nat, r: Resource, k: nat): (ms: seq<Hand>)
    requires AllHands(hs) && me < |hs| && k <= |hs|
    ensures |ms| == |hs| && AllHands(ms)
    decreases k
  {
    if k == 0 then hs
    else
      var m := MonopolyUpTo(hs, me, r, k - 1);
      if k - 1 == me then m else HandOver(m, me, k - 1, r)
  }

  /** Player `i` handing its `r` to `me` leaves every other kind of card where it was. */
  lemma HandOverOther(hs: seq<Hand>, me: nat, i: nat, r: Resource, j: nat, q: Resource)
    requires AllHands(hs) && me < |hs| && i < |hs| && i != me && j < |hs| && q != r
    ensures HandOver(hs, me, i, r)[j][q] == hs[j][q]
  {
  }

  /** Player `i` handing its `r` to `me`: `i` is left with none and `me` gains it all. */
  lemma HandOverOwn(hs: seq<Hand>, me: nat, i: nat, r: Resource, j: nat)
    requires AllHands(hs) && me < |hs| && i < |hs| && i != me && j < |hs|
    ensures HandOver(hs, me, i, r)[j][r]
      == if j == me then hs[me][r] + hs[i][r] else if j == i then 0 else hs[j][r]
  {
  }

  /** What the players other than `me` among the first `k` hold of `r`, together. */
  function OpponentSumUpTo(hs: seq<Hand>, me: nat, r: Resource, k: nat): nat
    requires AllHands(hs) && k <= |hs|
    decreases k
  {
    if k == 0 then 0 else OpponentSumUpTo(hs, me, r, k - 1) + if k - 1 == me then 0 else hs[k - 1][r]
  }

  /** Counting the first `k` players is counting the queue cut after `k`. */
  lemma {:induction false} OpponentSumUpToPrefix(hs: seq<Hand>, me: nat, r: Resource, k: nat)
    requires AllHands(hs) && k <= |hs|
    ensures OpponentSumUpTo(hs, me, r, k) == OpponentSum(hs[..k], me, r)
    decreases k
  {
    if k > 0 {
      OpponentSumUpToPrefix(hs, me, r, k - 1);
      assert hs[..k][..k - 1] == hs[..k - 1];
    }
  }

  /** A monopoly on `r` leaves every other kind of card where it was. */
  lemma {:induction false} MonopolyOther(hs: seq<Hand>, me: nat, r: Resource, k: nat, j: nat, q: Resource)
    requires AllHands(hs) && me < |hs| && k <= |hs| && j < |hs| && q != r
    ensures MonopolyUpTo(hs, me, r, k)[j][q] == hs[j][q]
    decreases k
  {
    if k > 0 {
      MonopolyOther(hs, me, r, k - 1, j, q);
      if k - 1 != me {
        HandOverOther(MonopolyUpTo(hs, me, r, k - 1), me, k - 1, r, j, q);
      }
    }
  }

  /** After the first `k` are visited, each of them but `me` holds no `r`, and `me` holds what they held besides its own. */
  lemma {:induction false} MonopolyOwn(hs: seq<Hand>, me: nat, r: Resource, k: nat, j: nat)
    requires AllHands(hs) && me < |hs| && k <= |hs| && j < |hs|
    ensures MonopolyUpTo(hs, me, r, k)[j][r]
      == if j == me then hs[j][r] + OpponentSumUpTo(hs, me, r, k)
         else if j < k then 0
         else hs[j][r]
    decreases k
  {
    if k > 0 {
      var m, i := MonopolyUpTo(hs, me, r, k - 1), k - 1;
      MonopolyOwn(hs, me, r, i, j);
      if i == me {
        assert MonopolyUpTo(hs, me, r, k) == m;
      } else {
        MonopolyOwn(hs, me, r, i, me);
        MonopolyOwn(hs, me, r, i, i);
        HandOverOwn(m, me, i, r, j);
        assert MonopolyUpTo(hs, me, r, k) == HandOver(m, me, i, r);
      }
    }
  }


  /** The hands after a monopoly on `r` by `me`. */
  function Monopolized(hs: seq<Hand>, me: nat, r: Resource): (ms: seq<Hand>)
    requires AllHands(hs) && me < |hs|
    ensures |ms| == |hs| && AllHands(ms)
  {
    MonopolyUpTo(hs, me, r, |hs|)
  }

  /**
   * The monopoly's effect: every opponent ends with none of `r`, the player
   * gains exactly what they held, nothing else changes, and the table's
   * total of `r` is the same before and after.
   */
  lemma MonopolyEffect(hs: seq<Hand>, me: nat, r: Resource)
    requires AllHands(hs) && me < |hs|
    ensures var ms := Monopolized(hs, me, r);
      && (forall i :: 0 <= i < |hs| && i != me ==> ms[i][r] == 0)
      && ms[me][r] == hs[me][r] + OpponentSum(hs, me, r)
      && (forall i, q :: 0 <= i < |hs| && q != r ==> ms[i][q] == hs[i][q])
      && HeldByAll(ms, r) == HeldByAll(hs, r)
  {
    var ms := Monopolized(hs, me, r);
    OpponentSumUpToPrefix(hs, me, r, |hs|);
    assert hs[..|hs|] == hs;
    forall j | 0 <= j < |hs|
      ensures ms[j][r] == if j == me then hs[j][r] + OpponentSum(hs, me, r) else 0
    {
      MonopolyOwn(hs, me, r, |hs|, j);
    }
    forall j, q | 0 <= j < |hs| && q != r
      ensures ms[j][q] == hs[j][q]
    {
      MonopolyOther(hs, me, r, |hs|, j, q);
    }
    OpponentSumZero(ms, me, r);
    HeldSplit(ms, me, r);
    HeldSplit(hs, me, r);
  }

  /** `counts[r] += amt` for every entry of a player's hand. */
  method AddCounts(counts: Hand, h: Hand) returns (s: Hand)
    requires IsHand(counts) && IsHand(h)
    ensures s == AddHands(counts, h)
  {
    s := counts;
    for t := 0 to |AllResources|
      invariant IsHand(s)
      invariant forall q :: s[q] == counts[q] + (if q in AllResources[..t] then h[q] else 0)
    {
      AllResourcesStep(t);
      var r := AllResources[t];
      s := s[r := s[r] + h[r]];
    }
    assert AllResources[..|AllResources|] == AllResources;
    AllResourcesListedAll();
    HandsEqual(s, AddHands(counts, h));
  }

  /** The opponents' holdings, summed player by player, skipping `me`. */
  method OpponentCounts(ps: seq<Player>, me: nat) returns (counts: Hand)
    requires AllHands(Hands(ps))
    ensures counts == OpponentHand(Hands(ps), me)
  {
    ghost var hs := Hands(ps);
    counts := NoCards;
    for i := 0 to |ps|
      invariant IsHand(counts) && forall r :: counts[r] == OpponentSumUpTo(hs, me, r, i)
    {
      if i != me {
        counts := AddCounts(counts, ps[i].resources);
      }
    }
    forall r
      ensures counts[r] == OpponentHand(hs, me)[r]
    {
      OpponentSumUpToPrefix(hs, me, r, |hs|);
      assert hs[..|hs|] == hs;
    }
    HandsEqual(counts, OpponentHand(hs, me));
  }

  /** The hands after player `i` has handed all its `r` to player `me`. */
  function HandOver(hs: seq<Hand>, me: nat, i: nat, r: Resource): seq<Hand>
    requires AllHands(hs) && me < |hs| && i < |hs|
  {
    hs[i := hs[i][r := 0]][me := hs[me][r := hs[me][r] + hs[i][r]]]
  }

  /** Player `i` is visited: an opponent hands all its `r` to `me`. */
  method MonopolyNext(ps: seq<Player>, me: nat, r: Resource, i: nat, ghost hs: seq<Hand>)
    requires me < |ps| && i < |ps| == |hs| && Distinct(ps) && AllHands(hs)
    requires forall j :: 0 <= j < |ps| ==> ps[j].resources == MonopolyUpTo(hs, me, r, i)[j]
    modifies ps`resources
    ensures forall j :: 0 <= j < |ps| ==> ps[j].resources == MonopolyUpTo(hs, me, r, i + 1)[j]
  {
    if i != me {
      var p, q := ps[me], ps[i];
      var amount := q.resources[r];
      q.resources := q.resources[r := 0];
      p.resources := p.resources[r := p.resources[r] + amount];
    }
  }

  /** Every opponent, in queue order, hands all its `r` to `me`. */
  method MonopolyTransfer(ps: seq<Player>, me: nat, r: Resource)
    requires me < |ps| && Distinct(ps) && AllHands(Hands(ps))
    modifies ps`resources
    ensures Hands(ps) == Monopolized(old(Hands(ps)), me, r)
  {
    ghost var hs := Hands(ps);
    for i := 0 to |ps|
      invariant forall j :: 0 <= j < |ps| ==> ps[j].resources == MonopolyUpTo(hs, me, r, i)[j]
    {
      MonopolyNext(ps, me, r, i, hs);
    }
    HandsAre(ps, Monopolized(hs, me, r));
  }

  /**
   * Monopoly: the card is spent and every opponent's holding of `r` goes to
   * the player; the bank takes no part.
   */
  method PlayMonopoly(ps: seq<Player>, me: nat, r: Resource)
    requires me < |ps| && Distinct(ps) && Holding(ps) && ps[me].devCards[Monopoly] > 0
    modifies ps`resources, {ps[me]}`devCards, {ps[me]}`devCardPlayedThisTurn
    ensures ps[me].devCards == Spent(old(ps[me].devCards), Monopoly)
    ensures ps[me].devCardPlayedThisTurn
    ensures Hands(ps) == Monopolized(old(Hands(ps)), me, r)
    ensures unchanged(ps`longestRoadFlag, ps`largestArmyFlag, ps`victoryPoints)
    ensures unchanged(ps`knightsPlayed, ps`roads, ps`roadsLeft, ps`maxRoadLength)
  {
    SpendCard(ps[me], Monopoly);
    assert unchanged(ps`longestRoadFlag, ps`largestArmyFlag, ps`victoryPoints);
    assert unchanged(ps`knightsPlayed, ps`roads, ps`roadsLeft, ps`maxRoadLength);
    MonopolyTransfer(ps, me, r);
  }

  // Choosing and playing a card

  /** The card the AI plays this turn, if any. */
  datatype Choice = Pass | KnightCard | RoadCard | PlentyCard | MonopolyCard(resource: Resource)

  function CardOf(c: Choice): DevCard
    requires c != Pass
  {
    match c
    case KnightCard => Knight
    case RoadCard => RoadBuilder
    case PlentyCard => YearOfPlenty
    case MonopolyCard(_) => Monopoly
  }

  /** Some card other than a victory-point card is in the hand. */
  predicate HasPlayable(d: DevHand)
    requires IsDevHand(d)
  {
    d[Knight] > 0 || d[Monopoly] > 0 || d[RoadBuilder] > 0 || d[YearOfPlenty] > 0
  }

  /**
   * The card `heuristic_play_dev_card` plays, from what it looks at: the
   * cards in hand, the one-card-a-turn latch, whether the robber blocks one
   * of the player's buildings, whether a road can be placed, what year of
   * plenty would ask for, the game, and the opponents' holdings.
   */
  function ChoosePlay(d: DevHand, latched: bool, blocked: bool, roadOffered: bool, needs: Needs,
                      game: GameKind, opponents: Hand): (c: Choice)
    requires IsDevHand(d) && IsHand(opponents)
    ensures c != Pass ==> !latched && d[CardOf(c)] > 0
    ensures c == KnightCard ==> blocked || d[Knight] > 1
    ensures c == RoadCard ==> roadOffered && !(d[Knight] > 0 && (blocked || d[Knight] > 1))
    ensures c == PlentyCard ==>
      needs != [] && !(d[Knight] > 0 && (blocked || d[Knight] > 1)) && !(d[RoadBuilder] > 0 && roadOffered)
    ensures c.MonopolyCard? ==>
      && game != NoGame && c.resource == MostHeld(opponents) && opponents[c.resource] > 0
      && (forall q :: opponents[q] <= opponents[c.resource])
      && !(d[Knight] > 0 && (blocked || d[Knight] > 1)) && !(d[RoadBuilder] > 0 && roadOffered)
      && !(d[YearOfPlenty] > 0 && needs != [])
    ensures c == Pass && !latched ==>
      && !(d[Knight] > 0 && (blocked || d[Knight] > 1))
      && !(d[RoadBuilder] > 0 && roadOffered)
      && !(d[YearOfPlenty] > 0 && needs != [])
      && !(d[Monopoly] > 0 && game != NoGame && opponents[MostHeld(opponents)] > 0)
  {
    if latched || !HasPlayable(d) then Pass
    else if d[Knight] > 0 && (blocked || d[Knight] > 1) then KnightCard
    else if d[RoadBuilder] > 0 && roadOffered then RoadCard
    else if d[YearOfPlenty] > 0 && needs != [] then PlentyCard
    else if d[Monopoly] > 0 && game != NoGame && opponents[MostHeld(opponents)] > 0 then MonopolyCard(MostHeld(opponents))
    else Pass
  }

  /** What year of plenty asks for: the city's needs, then the settlement's other needs. */
  method PlentyNeeds(h: Hand) returns (needed: Needs)
    requires IsHand(h)
    ensures needed == YearOfPlentyNeeds(h)
  {
    var settle := ResourcesNeededForSettlement(h);
    needed := MergeSettlementNeeds(CityNeeds(h), settle);
  }

  /** The player's settlements and cities all name vertices of the board. */
  ghost predicate SitesOnBoard(board: Board, p: Player)
    reads board, p
  {
    AllBelow(p.settlements + p.cities, |board.vertices|)
  }

  /** `ChoosePlay` applied to the current state of the board and the players. */
  function PlayFor(board: Board, ps: seq<Player>, me: nat, game: GameKind, offers: seq<Option<Edge>>): Choice
    reads board, ps
    requires me < |ps| && Holding(ps) && |offers| == 2
    requires GraphValid(board.hexes, board.vertices) && SitesOnBoard(board, ps[me])
  {
    var p := ps[me];
    ChoosePlay(p.devCards, p.devCardPlayedThisTurn, Blocked(board.hexes, board.vertices, p.settlements + p.cities),
               offers[0].Some?, YearOfPlentyNeeds(p.resources), game, OpponentHand(Hands(ps), me))
  }

  /** The decision half of `heuristic_play_dev_card`: it looks, in the source's order, and changes nothing. */
  method DecidePlay(board: Board, ps: seq<Player>, me: nat, game: GameKind, offers: seq<Option<Edge>>)
    returns (c: Choice)
    requires me < |ps| && Holding(ps) && |offers| == 2
    requires GraphValid(board.hexes, board.vertices) && SitesOnBoard(board, ps[me])
    ensures c == PlayFor(board, ps, me, game, offers)
  {
    var p := ps[me];
    if p.devCardPlayedThisTurn || !HasPlayable(p.devCards) {
      return Pass;
    }
    if p.devCards[Knight] > 0 {
      var blocked := RobberBlocking(board, p.settlements + p.cities);
      if blocked || p.devCards[Knight] > 1 {
        return KnightCard;
      }
    }
    if p.devCards[RoadBuilder] > 0 && offers[0].Some? {
      return RoadCard;
    }
    if p.devCards[YearOfPlenty] > 0 {
      var needed := PlentyNeeds(p.resources);
      if needed != [] {
        return PlentyCard;
      }
    }
    if p.devCards[Monopoly] > 0 && game != NoGame {
      var counts := OpponentCounts(ps, me);
      var r := MostHeld(counts);
      if counts[r] > 0 {
        return MonopolyCard(r);
      }
    }
    return Pass;
  }

  /** The playing half: the chosen card's effect, through the method for that card. */
  method PlayChoice(board: Board, ps: seq<Player>, me: nat, game: GameKind, c: Choice,
                    spots: seq<nat>, pick: nat, offers: seq<Option<Edge>>, lengthAfter: nat)
    requires board.Valid() && me < |ps| && Distinct(ps) && Holding(ps)
    requires RobberReady(board.hexes, board.vertices, |ps|, spots) && pick < |spots| && |offers| == 2
    requires c != Pass && ps[me].devCards[CardOf(c)] > 0
    requires c == PlentyCard ==> YearOfPlentyNeeds(ps[me].resources) != []
    modifies board`hexes, board`resourceBank, ps`resources
    modifies {ps[me]}`devCards, {ps[me]}`devCardPlayedThisTurn, {ps[me]}`knightsPlayed
    modifies {ps[me]}`roads, {ps[me]}`roadsLeft, {ps[me]}`maxRoadLength
    modifies ps`longestRoadFlag, ps`largestArmyFlag, ps`victoryPoints
    ensures ps[me].devCardPlayedThisTurn
    ensures ps[me].devCards == Spent(old(ps[me].devCards), CardOf(c))
    // The knight: the robber moves and Largest Army is decided again; hands, bank and roads stay.
    ensures c == KnightCard ==>
      && ps[me].knightsPlayed == old(ps[me].knightsPlayed) + 1
      && board.hexes == RobberMoved(old(board.hexes), ChooseRobbery(old(board.hexes), board.vertices, spots, pick, old(Stats(ps)), me).0)
      && Bonus.Award(Bonus.ArmyFlags(ps), Bonus.Points(ps))
         == ArmyAfterKnight(game, Bonus.KnightCounts(ps), old(Bonus.ArmyFlags(ps)), old(Bonus.Points(ps)), me)
      && unchanged(board`resourceBank, ps`resources, ps`longestRoadFlag, ps`roads, ps`roadsLeft, ps`maxRoadLength)
    // The road builder: free roads and Longest Road; hands, bank, robber and Largest Army stay.
    ensures c == RoadCard ==>
      && (ps[me].roads, ps[me].roadsLeft) == FreeRoads(old(ps[me].roads), old(ps[me].roadsLeft), offers)
      && ps[me].maxRoadLength == lengthAfter
      && Bonus.Award(Bonus.RoadFlags(ps), Bonus.Points(ps))
         == RoadAfterBuild(game, Bonus.RoadLengths(ps), old(Bonus.RoadFlags(ps)), old(Bonus.Points(ps)), me)
      && unchanged(board, ps`resources, ps`largestArmyFlag, ps`knightsPlayed)
    // Year of plenty: up to two needed cards from the bank; nobody else's hand, no bonus, no robber.
    ensures c == PlentyCard ==>
      && (ps[me].resources, board.resourceBank)
         == Plenty(old(ps[me].resources), old(board.resourceBank), YearOfPlentyNeeds(old(ps[me].resources)))
      && (forall j :: 0 <= j < |ps| && j != me ==> ps[j].resources == old(ps[j].resources))
      && unchanged(board`hexes, ps`longestRoadFlag, ps`largestArmyFlag, ps`victoryPoints)
      && unchanged(ps`knightsPlayed, ps`roads, ps`roadsLeft, ps`maxRoadLength)
    // Monopoly: the opponents' cards of the resource; bank, robber and bonuses stay.
    ensures c.MonopolyCard? ==>
      && Hands(ps) == Monopolized(old(Hands(ps)), me, c.resource)
      && unchanged(board, ps`longestRoadFlag, ps`largestArmyFlag, ps`victoryPoints)
      && unchanged(ps`knightsPlayed, ps`roads, ps`roadsLeft, ps`maxRoadLength)
  {
    match c
    case KnightCard =>
      PlayKnight(board, ps, me, game, spots, pick);
    case RoadCard =>
      PlayRoadBuilder(ps, me, game, offers, lengthAfter);
    case PlentyCard =>
      PlayPlenty(board, ps, me);
    case MonopolyCard(r) =>
      PlayMonopoly(ps, me, r);
  }

  /**
   * `heuristic_play_dev_card`: plays the card `ChoosePlay` picks, with that
   * card's effect, and reports whether a card was played.
   */
  method HeuristicPlayDevCard(board: Board, ps: seq<Player>, me: nat, game: GameKind,
                              spots: seq<nat>, pick: nat, offers: seq<Option<Edge>>, lengthAfter: nat)
    returns (played: bool, ghost choice: Choice)
    requires board.Valid() && me < |ps| && Distinct(ps) && Holding(ps)
    requires RobberReady(board.hexes, board.vertices, |ps|, spots) && pick < |spots|
    requires SitesOnBoard(board, ps[me]) && |offers| == 2
    modifies board`hexes, board`resourceBank, ps`resources
    modifies {ps[me]}`devCards, {ps[me]}`devCardPlayedThisTurn, {ps[me]}`knightsPlayed
    modifies {ps[me]}`roads, {ps[me]}`roadsLeft, {ps[me]}`maxRoadLength
    modifies ps`longestRoadFlag, ps`largestArmyFlag, ps`victoryPoints
    ensures played <==> choice != Pass
    ensures choice != Pass ==> old(ps[me].devCards[CardOf(choice)]) > 0
    ensures choice == PlentyCard ==> YearOfPlentyNeeds(old(ps[me].resources)) != []
    ensures played ==> ps[me].devCardPlayedThisTurn && ps[me].devCards == Spent(old(ps[me].devCards), CardOf(choice))
    ensures !played ==> unchanged(board) && unchanged(ps)
    // Each card's effect, as PlayChoice states it.
    ensures choice == KnightCard ==>
      && ps[me].knightsPlayed == old(ps[me].knightsPlayed) + 1
      && board.hexes == RobberMoved(old(board.hexes), ChooseRobbery(old(board.hexes), board.vertices, spots, pick, old(Stats(ps)), me).0)
      && Bonus.Award(Bonus.ArmyFlags(ps), Bonus.Points(ps))
         == ArmyAfterKnight(game, Bonus.KnightCounts(ps), old(Bonus.ArmyFlags(ps)), old(Bonus.Points(ps)), me)
      && unchanged(board`resourceBank, ps`resources, ps`longestRoadFlag, ps`roads, ps`roadsLeft, ps`maxRoadLength)
    ensures choice == RoadCard ==>
      && (ps[me].roads, ps[me].roadsLeft) == FreeRoads(old(ps[me].roads), old(ps[me].roadsLeft), offers)
      && ps[me].maxRoadLength == lengthAfter
      && Bonus.Award(Bonus.RoadFlags(ps), Bonus.Points(ps))
         == RoadAfterBuild(game, Bonus.RoadLengths(ps), old(Bonus.RoadFlags(ps)), old(Bonus.Points(ps)), me)
      && unchanged(board, ps`resources, ps`largestArmyFlag, ps`knightsPlayed)
    ensures choice == PlentyCard ==>
      && (ps[me].resources, board.resourceBank)
         == Plenty(old(ps[me].resources), old(board.resourceBank), YearOfPlentyNeeds(old(ps[me].resources)))
      && (forall j :: 0 <= j < |ps| && j != me ==> ps[j].resources == old(ps[j].resources))
      && unchanged(board`hexes, ps`longestRoadFlag, ps`largestArmyFlag, ps`victoryPoints)
      && unchanged(ps`knightsPlayed, ps`roads, ps`roadsLeft, ps`maxRoadLength)
    ensures choice.MonopolyCard? ==>
      && Hands(ps) == Monopolized(old(Hands(ps)), me, choice.resource)
      && unchanged(board, ps`longestRoadFlag, ps`largestArmyFlag, ps`victoryPoints)
      && unchanged(ps`knightsPlayed, ps`roads, ps`roadsLeft, ps`maxRoadLength)
    // The card played, if any, is the one the decision picks in the state before.
    ensures choice == old(PlayFor(board, ps, me, game, offers))
  {
    // The decision changes nothing, so the queue reads afterwards as it did before.
    ghost var st, hs := Stats(ps), Hands(ps);
    ghost var roadFlags, armyFlags, vp := Bonus.RoadFlags(ps), Bonus.ArmyFlags(ps), Bonus.Points(ps);
    var c := DecidePlay(board, ps, me, game, offers);
    assert unchanged(board, ps);
    StatsAre(ps, st);
    HandsAre(ps, hs);
    Bonus.RoadFlagsAre(ps, roadFlags);
    Bonus.ArmyStateIs(ps, armyFlags, vp);
    choice := c;
    if c == Pass {
      return false, c;
    }
    PlayChoice(board, ps, me, game, c, spots, pick, offers, lengthAfter);
    return true, c;
  }
}
