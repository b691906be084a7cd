/**
 * The heuristic AI player's rule helpers: the forced discard on a roll of
 * seven, the resources it still lacks for a settlement or a city, the choice
 * of tile and victim for the robber, the one development card it plays per
 * turn, and the scoring of vertices for its initial settlements.
 *
 * Resource dictionaries keep insertion order, so a dictionary the AI builds is
 * modelled as a sequence of (kind, count) entries with distinct kinds; Python's
 * `max(d, key=...)` is the first key of largest value in that order.
 */
module HeuristicAI {
  import opened Resources
  import opened Board
  import opened Players

  /** The most cards a player may hold when a seven is rolled. */
  const MaxCards: nat := 7

  // ---------------------------------------------------------------------
  // First maximum in key order
  // ---------------------------------------------------------------------

  /**
   * Position, among the first `k + 1` kinds of `AllResources`, of the first
   * kind with the largest count.
   */
  function BestIndex(h: Hand, k: nat): (j: nat)
    requires IsHand(h) && k < |AllResources|
    ensures j <= k
    ensures forall i :: 0 <= i <= k ==> h[AllResources[i]] <= h[AllResources[j]]
    ensures forall i :: 0 <= i < j ==> h[AllResources[i]] < h[AllResources[j]]
    decreases k
  {
    if k == 0 then 0
    else
      var b := BestIndex(h, k - 1);
      if h[AllResources[k]] > h[AllResources[b]] then k else b
  }

  /**
   * The kind a dictionary in key order `AllResources` reports as its maximum:
   * a kind of largest count, the first one on a tie.
   */
  function MostHeld(h: Hand): (r: Resource)
    requires IsHand(h)
    ensures forall q :: h[q] <= h[r]
  {
    var r := AllResources[BestIndex(h, |AllResources| - 1)];
    BoundsAll(h, h[r]);
    r
  }

  /** A bound on the five counts bounds every count. */
  lemma BoundsAll(h: Hand, m: nat)
    requires IsHand(h)
    requires forall i :: 0 <= i < |AllResources| ==> h[AllResources[i]] <= m
    ensures forall q :: h[q] <= m
  {
    forall q
      ensures h[q] <= m
    {
      var i := ResourceIndex(q);
    }
  }

  /** On a tie for the largest count the kind listed first wins. */
  lemma MostHeldFirst(h: Hand, i: nat)
    requires IsHand(h) && i < |AllResources| && AllResources[i] == MostHeld(h)
    ensures forall k :: 0 <= k < i ==> h[AllResources[k]] < h[AllResources[i]]
  {
    var j := BestIndex(h, |AllResources| - 1);
    assert AllResources[j] == AllResources[i];
    assert j == i;
  }

  // ---------------------------------------------------------------------
  // Forced discard
  // ---------------------------------------------------------------------

  /**
   * One discard: a card of the most-held kind leaves the hand.  An empty hand
   * has nothing to give, which the forced discard never asks of it.
   */
  function DiscardOne(h: Hand): (g: Hand)
    requires IsHand(h)
    ensures IsHand(g)
  {
    var r := MostHeld(h);
    if h[r] > 0 then h[r := h[r] - 1] else h
  }

  /** A hand that holds cards loses exactly one card, of a kind it held most of. */
  lemma DiscardOneTakesMost(h: Hand)
    requires IsHand(h) && Total(h) > 0
    ensures DiscardOne(h) == h[MostHeld(h) := h[MostHeld(h)] - 1]
    ensures forall q :: h[q] <= h[MostHeld(h)]
    ensures Total(DiscardOne(h)) + 1 == Total(h)
  {
  }

  /** The hand after `n` successive discards. */
  function DiscardSteps(h: Hand, n: nat): (g: Hand)
    requires IsHand(h)
    ensures IsHand(g)
    decreases n
  {
    if n == 0 then h else DiscardOne(DiscardSteps(h, n - 1))
  }

  /**
   * The hand after the forced discard: a hand of more than seven cards loses
   * half of them, rounded down; a smaller hand is kept.
   */
  function Discarded(h: Hand): (g: Hand)
    requires IsHand(h)
    ensures IsHand(g)
  {
    if Total(h) > MaxCards then DiscardSteps(h, Total(h) / 2) else h
  }

  /** Each of `n` discards from a hand of at least `n` cards removes one card. */
  lemma {:induction false} DiscardStepsTotal(h: Hand, n: nat)
    requires IsHand(h) && n <= Total(h)
    ensures Total(DiscardSteps(h, n)) + n == Total(h)
  {
    if n > 0 {
      DiscardStepsTotal(h, n - 1);
      DiscardOneTakesMost(DiscardSteps(h, n - 1));
    }
  }

  /** Discarding never adds a card of any kind. */
  lemma {:induction false} DiscardStepsShrink(h: Hand, n: nat)
    requires IsHand(h)
    ensures forall r :: DiscardSteps(h, n)[r] <= h[r]
  {
    if n > 0 {
      DiscardStepsShrink(h, n - 1);
    }
  }

  /** The discard removes exactly half the cards of a large hand, none of a small one. */
  lemma DiscardedTotal(h: Hand)
    requires IsHand(h)
    ensures Total(h) <= MaxCards ==> Discarded(h) == h
    ensures Total(h) > MaxCards ==> Total(Discarded(h)) == Total(h) - Total(h) / 2
    ensures forall r :: Discarded(h)[r] <= h[r]
  {
    DiscardStepsShrink(h, Total(h) / 2);
    if Total(h) > MaxCards {
      DiscardStepsTotal(h, Total(h) / 2);
    }
  }

  /**
   * Every discarded card is of a kind that held the most cards just before,
   * so a kind that is `n` or more cards behind another is left alone by `n`
   * discards.
   */
  lemma {:induction false} DiscardSparesSmaller(h: Hand, n: nat, r: Resource, q: Resource)
    requires IsHand(h)
    requires h[r] + n <= h[q]
    ensures DiscardSteps(h, n)[r] == h[r]
    ensures DiscardSteps(h, n)[q] + n >= h[q]
  {
    if n > 0 {
      DiscardSparesSmaller(h, n - 1, r, q);
      var g := DiscardSteps(h, n - 1);
      assert g[r] < g[q] <= g[MostHeld(g)];
    }
  }

  /** One pass of the discard loop: the most-held kind loses a card to the bank. */
  method DiscardCard(p: Player, board: Board)
    requires IsHand(p.resources) && board.Valid() && Total(p.resources) > 0
    modifies p`resources, board`resourceBank
    ensures IsHand(p.resources) && board.Valid()
    ensures p.resources == DiscardOne(old(p.resources))
    ensures Total(p.resources) + 1 == old(Total(p.resources))
    ensures forall r :: p.resources[r] + board.resourceBank[r] == old(p.resources[r] + board.resourceBank[r])
  {
    DiscardOneTakesMost(p.resources);
    var r := MostHeld(p.resources);
    p.resources := p.resources[r := p.resources[r] - 1];
    board.DepositResource(r, 1);
  }

  /** The discard loop: `n` cards leave the hand for the bank, one pass each. */
  method DiscardCards(p: Player, board: Board, n: nat)
    requires IsHand(p.resources) && board.Valid() && n <= Total(p.resources)
    modifies p`resources, board`resourceBank
    ensures IsHand(p.resources) && board.Valid()
    ensures p.resources == DiscardSteps(old(p.resources), n)
    ensures forall r :: p.resources[r] + board.resourceBank[r] == old(p.resources[r] + board.resourceBank[r])
  {
    ghost var h0 := p.resources;
    ghost var bank0 := board.resourceBank;
    for i := 0 to n
      invariant IsHand(p.resources) && board.Valid()
      invariant p.resources == DiscardSteps(h0, i)
      invariant Total(p.resources) + i == Total(h0)
      invariant forall r :: p.resources[r] + board.resourceBank[r] == h0[r] + bank0[r]
    {
      DiscardCard(p, board);
    }
  }

  /**
   * `heuristic_discard`: on a roll of seven a hand of more than seven cards
   * discards half of them, one at a time from the kind it holds most of, each
   * card going back to the bank.
   */
  method HeuristicDiscard(p: Player, board: Board)
    requires IsHand(p.resources) && board.Valid()
    modifies p`resources, board`resourceBank
    ensures IsHand(p.resources) && board.Valid()
    ensures p.resources == Discarded(old(p.resources))
    ensures forall r :: p.resources[r] + board.resourceBank[r] == old(p.resources[r] + board.resourceBank[r])
  {
    var total := Total(p.resources);
    if total > MaxCards {
      DiscardCards(p, board, total / 2);
    }
  }

  // ---------------------------------------------------------------------
  // Resources still needed for a settlement or a city
  // ---------------------------------------------------------------------

  /** An insertion-ordered dictionary from resource kind to a card count. */
  type Needs = seq<(Resource, nat)>

  /** The dictionary's keys, in insertion order. */
  function KeysOf(d: Needs): (ks: seq<Resource>)
    ensures |ks| == |d| && forall i :: 0 <= i < |d| ==> ks[i] == d[i].0
  {
    seq(|d|, i requires 0 <= i < |d| => d[i].0)
  }

  /** No kind is a key twice. */
  ghost predicate DistinctKeys(d: Needs) {
    forall i, j :: 0 <= i < j < |d| ==> d[i].0 != d[j].0
  }

  /** The hand after it receives every count the dictionary names. */
  function Supplied(h: Hand, d: Needs): (g: Hand)
    requires IsHand(h)
    ensures IsHand(g)
    decreases |d|
  {
    if d == [] then h
    else
      var g := Supplied(h, d[..|d| - 1]);
      var e := d[|d| - 1];
      g[e.0 := g[e.0] + e.1]
  }

  /** Receiving cards never lowers a count. */
  lemma {:induction false} SuppliedGrows(h: Hand, d: Needs)
    requires IsHand(h)
    ensures forall r :: Supplied(h, d)[r] >= h[r]
    ensures forall e :: e in d ==> Supplied(h, d)[e.0] >= h[e.0] + e.1
    decreases |d|
  {
    if d != [] {
      var init := d[..|d| - 1];
      SuppliedGrows(h, init);
      forall e | e in d
        ensures Supplied(h, d)[e.0] >= h[e.0] + e.1
      {
        if e != d[|d| - 1] {
          var i :| 0 <= i < |d| && d[i] == e;
          assert init[i] == e;
        }
      }
    }
  }

  /**
   * The settlement needs gathered while walking `keys`: every non-ore kind
   * the hand has none of maps to 1.
   */
  function SettlementNeedsOver(h: Hand, keys: seq<Resource>): (d: Needs)
    requires IsHand(h)
    ensures forall e :: e in d <==> e.0 in keys && e.0 != Ore && h[e.0] == 0 && e.1 == 1
    ensures forall i :: 0 <= i < |d| ==> d[i].0 in keys
    decreases |keys|
  {
    if keys == [] then []
    else
      var init := keys[..|keys| - 1];
      var r := keys[|keys| - 1];
      assert keys == init + [r];
      SettlementNeedsOver(h, init) + (if r != Ore && h[r] == 0 then [(r, 1)] else [])
  }

  /** Walking distinct keys gives a dictionary with distinct keys. */
  lemma {:induction false} SettlementNeedsOverDistinct(h: Hand, keys: seq<Resource>)
    requires IsHand(h)
    requires forall i, j :: 0 <= i < j < |keys| ==> keys[i] != keys[j]
    ensures DistinctKeys(SettlementNeedsOver(h, keys))
    decreases |keys|
  {
    if keys != [] {
      var init := keys[..|keys| - 1];
      SettlementNeedsOverDistinct(h, init);
      var r := keys[|keys| - 1];
      assert r !in init;
    }
  }

  /** `resources_needed_for_settlement` as a dictionary value. */
  function SettlementNeeds(h: Hand): Needs
    requires IsHand(h)
  {
    SettlementNeedsOver(h, AllResources)
  }

  /**
   * `resources_needed_for_settlement`: a fresh dictionary mapping every
   * non-ore kind the hand has none of to 1, in key order.
   */
  method ResourcesNeededForSettlement(h: Hand) returns (d: Needs)
    requires IsHand(h)
    ensures d == SettlementNeeds(h)
  {
    d := [];
    for t := 0 to |AllResources|
      invariant d == SettlementNeedsOver(h, AllResources[..t])
    {
      var r := AllResources[t];
      assert AllResources[..t + 1][..t] == AllResources[..t];
      if r != Ore && h[r] == 0 {
        d := d + [(r, 1)];
      }
    }
    assert AllResources[..|AllResources|] == AllResources;
  }

  /**
   * The settlement needs name exactly the non-ore kinds the hand lacks, each
   * once and with count 1; they are empty exactly when the hand can pay for a
   * settlement, and receiving them makes it able to.
   */
  lemma SettlementNeedsExact(h: Hand)
    requires IsHand(h)
    ensures forall r :: (r, 1) in SettlementNeeds(h) <==> r != Ore && h[r] == 0
    ensures forall e :: e in SettlementNeeds(h) ==> e.1 == 1
    ensures DistinctKeys(SettlementNeeds(h))
    ensures SettlementNeeds(h) == [] <==> CanAffordSettlement(h)
    ensures CanAffordSettlement(Supplied(h, SettlementNeeds(h)))
  {
    AllResourcesListedAll();
    SettlementNeedsOverDistinct(h, AllResources);
    var d := SettlementNeeds(h);
    SuppliedGrows(h, d);
    if d == [] {
      assert (Brick, 1) !in d && (Wood, 1) !in d && (Sheep, 1) !in d && (Wheat, 1) !in d;
    } else {
      assert d[0] in d;
    }
    assert h[Brick] == 0 ==> (Brick, 1) in d;
    assert h[Wood] == 0 ==> (Wood, 1) in d;
    assert h[Sheep] == 0 ==> (Sheep, 1) in d;
    assert h[Wheat] == 0 ==> (Wheat, 1) in d;
  }

  /**
   * `resources_needed_for_city`: three ore less what the hand holds when it
   * holds fewer, then two wheat less what it holds when it holds fewer.
   */
  function CityNeeds(h: Hand): (d: Needs)
    requires IsHand(h)
  {
    (if h[Ore] < 3 then [(Ore, 3 - h[Ore])] else [])
    + (if h[Wheat] < 2 then [(Wheat, 2 - h[Wheat])] else [])
  }

  /**
   * The city needs name ore exactly when the hand holds fewer than three and
   * wheat exactly when it holds fewer than two, each with the shortfall; they
   * are empty exactly when the hand can pay for a city.
   */
  lemma CityNeedsExact(h: Hand)
    requires IsHand(h)
    ensures forall n: nat :: (Ore, n) in CityNeeds(h) <==> h[Ore] < 3 && h[Ore] + n == 3
    ensures forall n: nat :: (Wheat, n) in CityNeeds(h) <==> h[Wheat] < 2 && h[Wheat] + n == 2
    ensures forall e :: e in CityNeeds(h) ==> e.0 == Ore || e.0 == Wheat
    ensures DistinctKeys(CityNeeds(h))
    ensures CityNeeds(h) == [] <==> CanAffordCity(h)
  {
    var d := CityNeeds(h);
    if h[Ore] < 3 && h[Wheat] < 2 {
      assert d == [(Ore, 3 - h[Ore]), (Wheat, 2 - h[Wheat])];
    } else if h[Ore] < 3 {
      assert d == [(Ore, 3 - h[Ore])];
    } else if h[Wheat] < 2 {
      assert d == [(Wheat, 2 - h[Wheat])];
    }
  }

  /** Receiving the city needs makes the hand able to pay for a city. */
  lemma CityNeedsSuffice(h: Hand)
    requires IsHand(h)
    ensures CanAffordCity(Supplied(h, CityNeeds(h)))
  {
    var d := CityNeeds(h);
    SuppliedGrows(h, d);
    if h[Ore] < 3 {
      assert d[0] == (Ore, 3 - h[Ore]);
    }
    if h[Wheat] < 2 {
      assert d[|d| - 1] == (Wheat, 2 - h[Wheat]);
    }
  }

  /**
   * The dictionary `d` after `d[r] = a` for every entry (r, a) of `e`, in
   * order, whose kind `d` does not have yet.
   */
  function MergeNeeds(d: Needs, e: Needs): (m: Needs)
    ensures |d| <= |m| && m[..|d|] == d
    ensures forall x :: x in m ==> x in d || x in e
    ensures forall r :: r in KeysOf(m) <==> r in KeysOf(d) || r in KeysOf(e)
    ensures DistinctKeys(d) ==> DistinctKeys(m)
    decreases |e|
  {
    if e == [] then d
    else
      var m0 := MergeNeeds(d, e[..|e| - 1]);
      var x := e[|e| - 1];
      assert forall r :: r in KeysOf(e) <==> r in KeysOf(e[..|e| - 1]) || r == x.0 by {
        assert KeysOf(e) == KeysOf(e[..|e| - 1]) + [x.0];
      }
      if x.0 in KeysOf(m0) then m0
      else
        assert KeysOf(m0 + [x]) == KeysOf(m0) + [x.0];
        m0 + [x]
  }

  /** The merge loop of the year-of-plenty play. */
  method MergeSettlementNeeds(needed: Needs, settle: Needs) returns (m: Needs)
    ensures m == MergeNeeds(needed, settle)
  {
    m := needed;
    for t := 0 to |settle|
      invariant m == MergeNeeds(needed, settle[..t])
    {
      assert settle[..t + 1][..t] == settle[..t];
      var x := settle[t];
      if x.0 !in KeysOf(m) {
        m := m + [x];
      }
    }
    assert settle[..|settle|] == settle;
  }

  /** What year of plenty asks for: the city needs, then the other settlement needs. */
  function YearOfPlentyNeeds(h: Hand): Needs
    requires IsHand(h)
  {
    MergeNeeds(CityNeeds(h), SettlementNeeds(h))
  }

  /**
   * Year of plenty asks for the city needs first and then every settlement
   * need of another kind, each kind once; it asks for nothing exactly when
   * the hand can pay for both a city and a settlement.
   */
  lemma YearOfPlentyNeedsExact(h: Hand)
    requires IsHand(h)
    ensures YearOfPlentyNeeds(h)[..|CityNeeds(h)|] == CityNeeds(h)
    ensures forall r :: r in KeysOf(YearOfPlentyNeeds(h)) <==> r in KeysOf(CityNeeds(h)) || r in KeysOf(SettlementNeeds(h))
    ensures DistinctKeys(YearOfPlentyNeeds(h))
    ensures YearOfPlentyNeeds(h) == [] <==> CanAffordCity(h) && CanAffordSettlement(h)
  {
    CityNeedsExact(h);
    SettlementNeedsExact(h);
  }

  // ---------------------------------------------------------------------
  // Choice of robber tile and victim
  // ---------------------------------------------------------------------

  /**
   * What the robber heuristic reads of a player: its victory points, the
   * victory points the others see, and how many resource cards it holds.
   */
  datatype RobStats = RobStats(vp: int, visible: int, cards: nat)

  /** The robber heuristic's view of the queue. */
  function Stats(ps: seq<Player>): (st: seq<RobStats>)
    reads ps`victoryPoints, ps`devCards, ps`resources
    requires Holding(ps)
    ensures |st| == |ps|
    ensures forall i :: 0 <= i < |ps| ==> st[i] == RobStats(ps[i].victoryPoints,
      VisiblePoints(ps[i].victoryPoints, ps[i].devCards), Total(ps[i].resources))
    decreases |ps|
  {
    if ps == [] then []
    else
      var p := ps[|ps| - 1];
      Stats(ps[..|ps| - 1]) + [RobStats(p.victoryPoints, VisiblePoints(p.victoryPoints, p.devCards), Total(p.resources))]
  }

  /** The robber heuristic's view of the queue is `st` when each player's entry is its view. */
  lemma StatsAre(ps: seq<Player>, st: seq<RobStats>)
    requires Holding(ps) && |st| == |ps|
    requires forall i :: 0 <= i < |ps| ==> st[i] == RobStats(ps[i].victoryPoints,
      VisiblePoints(ps[i].victoryPoints, ps[i].devCards), Total(ps[i].resources))
    ensures Stats(ps) == st
  {
  }

  /** Every occupied vertex is owned by a queued player. */
  ghost predicate OwnersQueued(vertices: seq<Vertex>, n: nat) {
    forall v :: 0 <= v < |vertices| && vertices[v].owner.Some? ==> vertices[v].owner.value < n
  }

  /** The board and the candidate tiles the robber heuristic may read. */
  ghost predicate RobberReady(hexes: seq<HexTile>, vertices: seq<Vertex>, n: nat, spots: seq<nat>) {
    && GraphValid(hexes, vertices)
    && OwnersQueued(vertices, n)
    && AllBelow(spots, |hexes|)
  }

  /**
   * The running state of the scan of one tile's corners: the tile's score,
   * the visible points of the best victim so far and that victim.
   */
  datatype Tally = Tally(score: int, bestVp: int, victim: Option<nat>)

  /**
   * The scan of the corners: a corner of the player's own lowers the score by
   * its own victory points; an opponent's corner raises it by the opponent's
   * visible points, and the opponent becomes the victim when it holds a card
   * and its visible points are at least the best so far (0 at the start).
   */
  function TallyCorners(vertices: seq<Vertex>, corners: seq<nat>, st: seq<RobStats>, me: nat): (t: Tally)
    requires AllBelow(corners, |vertices|) && OwnersQueued(vertices, |st|)
    ensures t.victim.Some? ==> t.victim.value < |st| && t.victim.value != me && st[t.victim.value].cards > 0
    decreases |corners|
  {
    if corners == [] then Tally(0, 0, None)
    else
      var t := TallyCorners(vertices, corners[..|corners| - 1], st, me);
      var owner := vertices[corners[|corners| - 1]].owner;
      if owner == Some(me) then t.(score := t.score - st[me].vp)
      else if owner.Some? then
        var o := owner.value;
        if st[o].visible >= t.bestVp && st[o].cards > 0
        then Tally(t.score + st[o].visible, st[o].visible, Some(o))
        else t.(score := t.score + st[o].visible)
      else t
  }

  /**
   * The best tile so far: its score (none stands for minus infinity), its
   * index and its victim.
   */
  datatype Pick = Pick(best: Option<int>, hex: Option<nat>, victim: Option<nat>)

  /** The tally of the tile `h`. */
  function TallyOf(hexes: seq<HexTile>, vertices: seq<Vertex>, h: nat, st: seq<RobStats>, me: nat): Tally
    requires GraphValid(hexes, vertices) && h < |hexes| && OwnersQueued(vertices, |st|)
  {
    TallyCorners(vertices, hexes[h].corners, st, me)
  }

  /**
   * The scan of the candidate tiles: a tile replaces the best so far when it
   * has a victim and its score is at least the best score.
   */
  function PickOver(hexes: seq<HexTile>, vertices: seq<Vertex>, spots: seq<nat>, st: seq<RobStats>, me: nat): (p: Pick)
    requires RobberReady(hexes, vertices, |st|, spots)
    ensures p.hex.Some? <==> p.victim.Some?
    ensures p.hex.Some? <==> p.best.Some?
    ensures p.hex.Some? ==> p.hex.value in spots
    ensures p.victim.Some? ==> p.victim.value < |st| && p.victim.value != me && st[p.victim.value].cards > 0
    decreases |spots|
  {
    if spots == [] then Pick(None, None, None)
    else
      var p := PickOver(hexes, vertices, spots[..|spots| - 1], st, me);
      var h := spots[|spots| - 1];
      var t := TallyOf(hexes, vertices, h, st, me);
      if t.victim.Some? && (p.best.None? || t.score >= p.best.value)
      then Pick(Some(t.score), Some(h), t.victim)
      else p
  }

  /**
   * `choose_player_to_rob`: the chosen tile and victim, or the tile at
   * position `pick` of the candidates and no victim when no tile has one.
   */
  function ChooseRobbery(hexes: seq<HexTile>, vertices: seq<Vertex>, spots: seq<nat>, pick: nat, st: seq<RobStats>, me: nat): (nat, Option<nat>)
    requires RobberReady(hexes, vertices, |st|, spots) && pick < |spots|
  {
    var p := PickOver(hexes, vertices, spots, st, me);
    if p.hex.None? then (spots[pick], None) else (p.hex.value, p.victim)
  }

  /**
   * The victim is never the robbing player and always holds a card, and the
   * tile is one of the candidates.  A victim is named exactly when some
   * candidate tile has an opponent with a card on it, and then the chosen
   * tile scores at least as high as every candidate that has one.
   */
  lemma {:induction false} PickOverBest(hexes: seq<HexTile>, vertices: seq<Vertex>, spots: seq<nat>, st: seq<RobStats>, me: nat)
    requires RobberReady(hexes, vertices, |st|, spots)
    ensures var p := PickOver(hexes, vertices, spots, st, me);
      p.victim.None? <==> forall k :: 0 <= k < |spots| ==> TallyOf(hexes, vertices, spots[k], st, me).victim.None?
    ensures var p := PickOver(hexes, vertices, spots, st, me);
      p.best.Some? ==> forall k :: 0 <= k < |spots| && TallyOf(hexes, vertices, spots[k], st, me).victim.Some? ==>
        TallyOf(hexes, vertices, spots[k], st, me).score <= p.best.value
    decreases |spots|
  {
    if spots != [] {
      var init := spots[..|spots| - 1];
      PickOverBest(hexes, vertices, init, st, me);
      assert forall k :: 0 <= k < |init| ==> spots[k] == init[k];
    }
  }

  lemma ChooseRobberyValid(hexes: seq<HexTile>, vertices: seq<Vertex>, spots: seq<nat>, pick: nat, st: seq<RobStats>, me: nat)
    requires RobberReady(hexes, vertices, |st|, spots) && pick < |spots|
    ensures var (hex, victim) := ChooseRobbery(hexes, vertices, spots, pick, st, me);
      && hex in spots
      && (victim.Some? ==> victim.value < |st| && victim.value != me && st[victim.value].cards > 0)
      && (victim.None? <==> forall k :: 0 <= k < |spots| ==> TallyOf(hexes, vertices, spots[k], st, me).victim.None?)
      && (victim.Some? ==> forall k :: 0 <= k < |spots| && TallyOf(hexes, vertices, spots[k], st, me).victim.Some? ==>
            TallyOf(hexes, vertices, spots[k], st, me).score <= TallyOf(hexes, vertices, hex, st, me).score)
  {
    PickOverBest(hexes, vertices, spots, st, me);
    PickOverScore(hexes, vertices, spots, st, me);
  }

  /** The best score recorded is the score of the tile recorded. */
  lemma {:induction false} PickOverScore(hexes: seq<HexTile>, vertices: seq<Vertex>, spots: seq<nat>, st: seq<RobStats>, me: nat)
    requires RobberReady(hexes, vertices, |st|, spots)
    ensures var p := PickOver(hexes, vertices, spots, st, me);
      p.hex.Some? ==>
        && p.best == Some(TallyOf(hexes, vertices, p.hex.value, st, me).score)
        && p.victim == TallyOf(hexes, vertices, p.hex.value, st, me).victim
    decreases |spots|
  {
    if spots != [] {
      PickOverScore(hexes, vertices, spots[..|spots| - 1], st, me);
    }
  }

  /** The scan of one tile's corners (the inner loop of `choose_player_to_rob`). */
  method ScoreTile(board: Board, h: nat, st: seq<RobStats>, me: nat) returns (t: Tally)
    requires GraphValid(board.hexes, board.vertices) && h < |board.hexes| && OwnersQueued(board.vertices, |st|)
    ensures t == TallyOf(board.hexes, board.vertices, h, st, me)
  {
    var corners := board.hexes[h].corners;
    t := Tally(0, 0, None);
    for c := 0 to |corners|
      invariant t == TallyCorners(board.vertices, corners[..c], st, me)
    {
      assert corners[..c + 1][..c] == corners[..c];
      var owner := board.vertices[corners[c]].owner;
      if owner == Some(me) {
        t := t.(score := t.score - st[me].vp);
      } else if owner.Some? {
        var o := owner.value;
        if st[o].visible >= t.bestVp && st[o].cards > 0 {
          t := Tally(t.score + st[o].visible, st[o].visible, Some(o));
        } else {
          t := t.(score := t.score + st[o].visible);
        }
      }
    }
    assert corners[..|corners|] == corners;
  }

  /** `choose_player_to_rob`, with the fallback random tile given by its position `pick`. */
  method ChoosePlayerToRob(board: Board, spots: seq<nat>, pick: nat, st: seq<RobStats>, me: nat)
    returns (hex: nat, victim: Option<nat>)
    requires RobberReady(board.hexes, board.vertices, |st|, spots) && pick < |spots|
    ensures (hex, victim) == ChooseRobbery(board.hexes, board.vertices, spots, pick, st, me)
  {
    var p := Pick(None, None, None);
    for k := 0 to |spots|
      invariant p == PickOver(board.hexes, board.vertices, spots[..k], st, me)
    {
      assert spots[..k + 1][..k] == spots[..k];
      var t := ScoreTile(board, spots[k], st, me);
      if t.victim.Some? && (p.best.None? || t.score >= p.best.value) {
        p := Pick(Some(t.score), Some(spots[k]), t.victim);
      }
    }
    assert spots[..|spots|] == spots;
    if p.hex.None? {
      hex, victim := spots[pick], None;
    } else {
      hex, victim := p.hex.value, p.victim;
    }
  }

  /**
   * `heuristic_move_robber`: the robber goes to the chosen tile.  Taking a
   * card from the victim happens in the player's own robber move, which is
   * not part of this model.
   */
  method HeuristicMoveRobber(board: Board, st: seq<RobStats>, me: nat, spots: seq<nat>, pick: nat)
    returns (victim: Option<nat>)
    requires board.Valid() && me < |st|
    requires RobberReady(board.hexes, board.vertices, |st|, spots) && pick < |spots|
    modifies board`hexes
    ensures board.Valid()
    ensures var (hex, v) := ChooseRobbery(old(board.hexes), board.vertices, spots, pick, st, me);
      victim == v && board.hexes == RobberMoved(old(board.hexes), hex)
  {
    var hex;
    hex, victim := ChoosePlayerToRob(board, spots, pick, st, me);
    board.MoveRobber(hex);
  }
}
