/**
 * Resource production on a dice roll other than 7, shared by the interactive
 * game and the AI-only game (both implement `update_playerResources` with the
 * same demand and allocation code).
 *
 * Demand: every settlement asks for one card and every city for two cards of
 * a tile's resource for each adjacent tile that carries the rolled number and
 * is not blocked by the robber.
 *
 * Allocation, per resource, against the finite bank: when the bank holds
 * enough, everybody gets what they asked for; when it does not and exactly
 * one player asked (and the bank is not empty), that player gets what is
 * left; when it does not and two or more players asked, nobody gets any.
 */
module Distribution {
  import opened Resources
  import opened Board
  import opened Players

  // ---------------------------------------------------------------------
  // Demand
  // ---------------------------------------------------------------------

  /** The tile produces `r` on this roll: right number, no robber. */
  predicate Yields(t: HexTile, roll: int, r: Resource) {
    Rolled(t, roll) && !t.robber && t.terrain == Produces(r)
  }

  /** `w` cards for every tile in `adj` that produces `r` on this roll. */
  function HexYield(hexes: seq<HexTile>, adj: seq<nat>, roll: int, r: Resource, w: nat): nat
    requires AllBelow(adj, |hexes|)
    decreases |adj|
  {
    if adj == [] then 0
    else HexYield(hexes, adj[..|adj| - 1], roll, r, w)
         + (if Yields(hexes[adj[|adj| - 1]], roll, r) then w else 0)
  }

  /** `w` cards per producing tile, summed over a list of building sites. */
  function SiteYield(hexes: seq<HexTile>, vertices: seq<Vertex>, sites: seq<nat>, roll: int, r: Resource, w: nat): nat
    requires GraphValid(hexes, vertices) && AllBelow(sites, |vertices|)
    decreases |sites|
  {
    if sites == [] then 0
    else SiteYield(hexes, vertices, sites[..|sites| - 1], roll, r, w)
         + HexYield(hexes, vertices[sites[|sites| - 1]].adjacentHexes, roll, r, w)
  }

  ghost predicate ProductionReady(hexes: seq<HexTile>, vertices: seq<Vertex>, vs: seq<PlayerView>) {
    && GraphValid(hexes, vertices)
    && QueueValid(vs)
    && forall i :: 0 <= i < |vs| ==> AllBelow(vs[i].settlements, |vertices|) && AllBelow(vs[i].cities, |vertices|)
  }

  /** One card per settlement and two per city for each producing tile. */
  function Demand(hexes: seq<HexTile>, vertices: seq<Vertex>, p: PlayerView, roll: int, r: Resource): nat
    requires GraphValid(hexes, vertices)
    requires AllBelow(p.settlements, |vertices|) && AllBelow(p.cities, |vertices|)
  {
    SiteYield(hexes, vertices, p.settlements, roll, r, 1) + SiteYield(hexes, vertices, p.cities, roll, r, 2)
  }

  /** Every player's demand for `r`, in queue order. */
  function DemandColumn(hexes: seq<HexTile>, vertices: seq<Vertex>, vs: seq<PlayerView>, roll: int, r: Resource): (d: seq<nat>)
    requires ProductionReady(hexes, vertices, vs)
    ensures |d| == |vs|
    ensures forall i :: 0 <= i < |vs| ==> d[i] == Demand(hexes, vertices, vs[i], roll, r)
  {
    seq(|vs|, i requires 0 <= i < |vs| => Demand(hexes, vertices, vs[i], roll, r))
  }

  // ---------------------------------------------------------------------
  // Allocation of one resource
  // ---------------------------------------------------------------------

  /** `n` zero grants. */
  function Zeros(n: nat): (z: seq<nat>)
    ensures |z| == n
  {
    seq(n, _ => 0)
  }

  /** Indices of the players that asked for at least one card, in order. */
  function Requesting(d: seq<nat>): seq<nat>
    decreases |d|
  {
    if d == [] then []
    else Requesting(d[..|d| - 1]) + (if d[|d| - 1] > 0 then [|d| - 1] else [])
  }

  /**
   * `Requesting` lists exactly the players with a positive demand, each
   * once, in queue order.
   */
  lemma {:induction false} RequestingMembers(d: seq<nat>)
    ensures forall k :: k in Requesting(d) <==> 0 <= k < |d| && d[k] > 0
    ensures forall a, b :: 0 <= a < b < |Requesting(d)| ==> Requesting(d)[a] < Requesting(d)[b]
    decreases |d|
  {
    if d != [] {
      var init := d[..|d| - 1];
      RequestingMembers(init);
      assert forall k :: 0 <= k < |init| ==> init[k] == d[k];
      var ks0 := Requesting(init);
      assert forall a :: 0 <= a < |ks0| ==> ks0[a] in ks0;
    }
  }

  /** With nobody asking, nobody is listed. */
  lemma {:induction false} RequestingNone(d: seq<nat>)
    requires forall j :: 0 <= j < |d| ==> d[j] == 0
    ensures Requesting(d) == []
    decreases |d|
  {
    if d != [] {
      RequestingNone(d[..|d| - 1]);
    }
  }

  /** With only player `k` asking, only `k` is listed. */
  lemma {:induction false} RequestingOnly(d: seq<nat>, k: nat)
    requires k < |d| && d[k] > 0
    requires forall j :: 0 <= j < |d| && j != k ==> d[j] == 0
    ensures Requesting(d) == [k]
    decreases |d|
  {
    var init := d[..|d| - 1];
    if k == |d| - 1 {
      RequestingNone(init);
    } else {
      RequestingOnly(init, k);
    }
  }

  /** A sequence that is zero except at `k` sums to its value at `k`. */
  lemma {:induction false} SumSingle(g: seq<nat>, k: nat)
    requires k < |g|
    requires forall i :: 0 <= i < |g| && i != k ==> g[i] == 0
    ensures Sum(g) == g[k]
    decreases |g|
  {
    var init := g[..|g| - 1];
    if k < |g| - 1 {
      SumSingle(init, k);
    } else {
      SumAllZero(init);
    }
  }

  /** A sequence of zeros sums to zero. */
  lemma {:induction false} SumAllZero(g: seq<nat>)
    requires forall i :: 0 <= i < |g| ==> g[i] == 0
    ensures Sum(g) == 0
    decreases |g|
  {
    if g != [] {
      SumAllZero(g[..|g| - 1]);
    }
  }

  /** A sequence summing to zero holds only zeros. */
  lemma {:induction false} SumZeroAllZero(g: seq<nat>)
    requires Sum(g) == 0
    ensures forall i :: 0 <= i < |g| ==> g[i] == 0
    decreases |g|
  {
    if g != [] {
      SumZeroAllZero(g[..|g| - 1]);
      assert forall i :: 0 <= i < |g| - 1 ==> g[i] == g[..|g| - 1][i];
    }
  }

  /**
   * The grant of one resource to every player, given the bank's supply and
   * every player's demand.  The grants never exceed the supply, so the bank
   * never goes negative.
   */
  function Allocate(supply: nat, d: seq<nat>): (g: seq<nat>)
    ensures |g| == |d|
    ensures Sum(g) <= supply
  {
    SumAllZero(Zeros(|d|));
    if Sum(d) == 0 then Zeros(|d|)
    else if supply >= Sum(d) then d
    else if |Requesting(d)| == 1 && supply > 0 then
      var k := Requesting(d)[0];
      RequestingMembers(d);
      assert k in Requesting(d);
      var g := Zeros(|d|)[k := Min(supply, d[k])];
      SumSingle(g, k);
      g
    else Zeros(|d|)
  }

  /** No player is granted more than it asked for. */
  lemma AllocateWithinDemand(supply: nat, d: seq<nat>)
    ensures forall i :: 0 <= i < |d| ==> Allocate(supply, d)[i] <= d[i]
  {
    if Sum(d) != 0 && supply < Sum(d) && |Requesting(d)| == 1 && supply > 0 {
      RequestingMembers(d);
      assert Requesting(d)[0] in Requesting(d);
    }
  }

  /** When the bank holds enough, every player gets exactly its demand. */
  lemma AllocateFullSupply(supply: nat, d: seq<nat>)
    requires Sum(d) <= supply
    ensures Allocate(supply, d) == d
  {
    if Sum(d) == 0 {
      SumZeroAllZero(d);
    }
  }

  /**
   * When the bank is short and only player `k` asked, `k` gets the whole
   * remaining supply (its demand capped by the supply) and nobody else gets
   * anything, so the bank is emptied.
   */
  lemma AllocateSingleRequester(supply: nat, d: seq<nat>, k: nat)
    requires k < |d| && d[k] > 0
    requires forall j :: 0 <= j < |d| && j != k ==> d[j] == 0
    requires 0 < supply < Sum(d)
    ensures Allocate(supply, d)[k] == supply
    ensures forall j :: 0 <= j < |d| && j != k ==> Allocate(supply, d)[j] == 0
    ensures Sum(Allocate(supply, d)) == supply
  {
    SumSingle(d, k);
    RequestingOnly(d, k);
    SumSingle(Allocate(supply, d), k);
  }

  /**
   * When the bank is short and two different players asked, nobody gets
   * any card of that resource and the bank keeps its supply.
   */
  lemma AllocateContended(supply: nat, d: seq<nat>, j: nat, k: nat)
    requires j < |d| && k < |d| && j != k
    requires d[j] > 0 && d[k] > 0
    requires supply < Sum(d)
    ensures Allocate(supply, d) == Zeros(|d|)
    ensures Sum(Allocate(supply, d)) == 0
  {
    RequestingMembers(d);
    var ks := Requesting(d);
    assert j in ks && k in ks;
    SumAllZero(Zeros(|d|));
  }

  // ---------------------------------------------------------------------
  // Production for one roll, as a function of the state before it
  // ---------------------------------------------------------------------

  /** Cards of `r` granted to each player on this roll. */
  function Grants(bank: Hand, hexes: seq<HexTile>, vertices: seq<Vertex>, vs: seq<PlayerView>, roll: int, r: Resource): (g: seq<nat>)
    requires IsHand(bank) && ProductionReady(hexes, vertices, vs)
    ensures |g| == |vs| && Sum(g) <= bank[r]
  {
    Allocate(bank[r], DemandColumn(hexes, vertices, vs, roll, r))
  }

  /** Cards of every resource granted to player `i`. */
  function GrantHand(bank: Hand, hexes: seq<HexTile>, vertices: seq<Vertex>, vs: seq<PlayerView>, roll: int, i: nat): (a: Hand)
    requires IsHand(bank) && ProductionReady(hexes, vertices, vs) && i < |vs|
    ensures IsHand(a)
  {
    map r | r in bank :: Grants(bank, hexes, vertices, vs, roll, r)[i]
  }

  /** The bank after production. */
  function BankAfter(bank: Hand, hexes: seq<HexTile>, vertices: seq<Vertex>, vs: seq<PlayerView>, roll: int): (b: Hand)
    requires IsHand(bank) && ProductionReady(hexes, vertices, vs)
    ensures IsHand(b)
  {
    map r | r in bank :: bank[r] - Sum(Grants(bank, hexes, vertices, vs, roll, r))
  }

  /** The player queue after production: only hands change. */
  function PlayersAfter(bank: Hand, hexes: seq<HexTile>, vertices: seq<Vertex>, vs: seq<PlayerView>, roll: int): (ws: seq<PlayerView>)
    requires IsHand(bank) && ProductionReady(hexes, vertices, vs)
    ensures |ws| == |vs|
  {
    seq(|vs|, i requires 0 <= i < |vs| =>
      vs[i].(resources := AddHands(vs[i].resources, GrantHand(bank, hexes, vertices, vs, roll, i))))
  }

  /** Cards of `r` held by the whole queue. */
  function Holdings(vs: seq<PlayerView>, r: Resource): nat
    requires QueueValid(vs)
  {
    Sum(seq(|vs|, i requires 0 <= i < |vs| => vs[i].resources[r]))
  }

  lemma {:induction false} SumPointwise(a: seq<nat>, g: seq<nat>, c: seq<nat>)
    requires |a| == |g| == |c|
    requires forall i :: 0 <= i < |c| ==> c[i] == a[i] + g[i]
    ensures Sum(c) == Sum(a) + Sum(g)
    decreases |c|
  {
    if c != [] {
      var n := |c| - 1;
      SumPointwise(a[..n], g[..n], c[..n]);
    }
  }

  /**
   * Conservation: for every resource, the cards the players hold plus the
   * cards in the bank are the same before and after production.
   */
  lemma ProductionConserves(bank: Hand, hexes: seq<HexTile>, vertices: seq<Vertex>, vs: seq<PlayerView>, roll: int, r: Resource)
    requires IsHand(bank) && ProductionReady(hexes, vertices, vs)
    ensures QueueValid(PlayersAfter(bank, hexes, vertices, vs, roll))
    ensures Holdings(PlayersAfter(bank, hexes, vertices, vs, roll), r) + BankAfter(bank, hexes, vertices, vs, roll)[r]
         == Holdings(vs, r) + bank[r]
  {
    var ws := PlayersAfter(bank, hexes, vertices, vs, roll);
    var g := Grants(bank, hexes, vertices, vs, roll, r);
    var a := seq(|vs|, i requires 0 <= i < |vs| => vs[i].resources[r]);
    var c := seq(|ws|, i requires 0 <= i < |ws| => ws[i].resources[r]);
    SumPointwise(a, g, c);
  }

  /** Tiles under the robber add nothing to any demand. */
  lemma {:induction false} HexYieldBlocked(hexes: seq<HexTile>, adj: seq<nat>, roll: int, r: Resource, w: nat)
    requires AllBelow(adj, |hexes|)
    requires forall h :: 0 <= h < |hexes| && Rolled(hexes[h], roll) ==> hexes[h].robber
    ensures HexYield(hexes, adj, roll, r, w) == 0
    decreases |adj|
  {
    if adj != [] {
      HexYieldBlocked(hexes, adj[..|adj| - 1], roll, r, w);
    }
  }

  lemma {:induction false} SiteYieldBlocked(hexes: seq<HexTile>, vertices: seq<Vertex>, sites: seq<nat>, roll: int, r: Resource, w: nat)
    requires GraphValid(hexes, vertices) && AllBelow(sites, |vertices|)
    requires forall h :: 0 <= h < |hexes| && Rolled(hexes[h], roll) ==> hexes[h].robber
    ensures SiteYield(hexes, vertices, sites, roll, r, w) == 0
    decreases |sites|
  {
    if sites != [] {
      SiteYieldBlocked(hexes, vertices, sites[..|sites| - 1], roll, r, w);
      HexYieldBlocked(hexes, vertices[sites[|sites| - 1]].adjacentHexes, roll, r, w);
    }
  }

  /**
   * When the robber stands on every tile carrying the rolled number, no
   * player asks for anything and nobody receives anything.
   */
  lemma RobberBlocksProduction(bank: Hand, hexes: seq<HexTile>, vertices: seq<Vertex>, vs: seq<PlayerView>, roll: int, i: nat, r: Resource)
    requires IsHand(bank) && ProductionReady(hexes, vertices, vs) && i < |vs|
    requires forall h :: 0 <= h < |hexes| && Rolled(hexes[h], roll) ==> hexes[h].robber
    ensures Demand(hexes, vertices, vs[i], roll, r) == 0
    ensures Grants(bank, hexes, vertices, vs, roll, r)[i] == 0
  {
    SiteYieldBlocked(hexes, vertices, vs[i].settlements, roll, r, 1);
    SiteYieldBlocked(hexes, vertices, vs[i].cities, roll, r, 2);
  }

  // ---------------------------------------------------------------------
  // The in-place algorithm
  // ---------------------------------------------------------------------

  /** Adds `w` cards to `d` for every tile in `adj` that produces on the roll. */
  method AddHexYields(hexes: seq<HexTile>, adj: seq<nat>, w: nat, roll: int, d: Hand) returns (e: Hand)
    requires AllBelow(adj, |hexes|) && IsHand(d)
    ensures IsHand(e)
    ensures forall r :: e[r] == d[r] + HexYield(hexes, adj, roll, r, w)
  {
    e := d;
    var k := 0;
    while k < |adj|
      invariant 0 <= k <= |adj|
      invariant IsHand(e)
      invariant forall r :: e[r] == d[r] + HexYield(hexes, adj[..k], roll, r, w)
    {
      var t := hexes[adj[k]];
      assert adj[..k + 1][..k] == adj[..k];
      if Rolled(t, roll) && !t.robber {
        match t.terrain
        case Produces(r) => e := e[r := e[r] + w];
        case Desert =>
      }
      k := k + 1;
    }
    assert adj[..k] == adj;
  }

  /** Adds `w` cards per producing tile around each of the sites to `d`. */
  method AddSiteYields(hexes: seq<HexTile>, vertices: seq<Vertex>, sites: seq<nat>, w: nat, roll: int, d: Hand)
    returns (e: Hand)
    requires GraphValid(hexes, vertices) && AllBelow(sites, |vertices|) && IsHand(d)
    ensures IsHand(e)
    ensures forall r :: e[r] == d[r] + SiteYield(hexes, vertices, sites, roll, r, w)
  {
    e := d;
    var j := 0;
    while j < |sites|
      invariant 0 <= j <= |sites|
      invariant IsHand(e)
      invariant forall r :: e[r] == d[r] + SiteYield(hexes, vertices, sites[..j], roll, r, w)
    {
      assert sites[..j + 1][..j] == sites[..j];
      assert VertexWellFormed(vertices[sites[j]], |hexes|, |vertices|);
      e := AddHexYields(hexes, vertices[sites[j]].adjacentHexes, w, roll, e);
      j := j + 1;
    }
    assert sites[..j] == sites;
  }

  /** Every player's demand on this roll: settlements first, then cities. */
  method ComputeDemand(board: Board, ps: seq<Player>, roll: int) returns (demand: seq<Hand>)
    requires board.Valid() && ProductionReady(board.hexes, board.vertices, Views(ps))
    ensures |demand| == |ps| && AllHands(demand)
    ensures forall i :: 0 <= i < |ps| ==>
      forall r :: demand[i][r] == Demand(board.hexes, board.vertices, ps[i].View(), roll, r)
  {
    demand := [];
    var i := 0;
    while i < |ps|
      invariant 0 <= i <= |ps| && |demand| == i && AllHands(demand)
      invariant forall j :: 0 <= j < i ==>
        forall r :: demand[j][r] == Demand(board.hexes, board.vertices, ps[j].View(), roll, r)
    {
      assert ps[i].View() == Views(ps)[i];
      var d := AddSiteYields(board.hexes, board.vertices, ps[i].settlements, 1, roll, NoCards);
      d := AddSiteYields(board.hexes, board.vertices, ps[i].cities, 2, roll, d);
      demand := demand + [d];
      i := i + 1;
    }
  }

  /** Column `r` of the demand table: every player's demand for `r`. */
  function Column(table: seq<Hand>, r: Resource): (c: seq<nat>)
    requires AllHands(table)
    ensures |c| == |table| && forall i :: 0 <= i < |table| ==> c[i] == table[i][r]
  {
    seq(|table|, i requires 0 <= i < |table| => table[i][r])
  }

  /**
   * Allocates resource `r` against the bank, given every player's demand
   * for it, and withdraws what was granted.
   */
  method AllocateResource(board: Board, column: seq<nat>, r: Resource) returns (g: seq<nat>)
    requires board.Valid()
    modifies board`resourceBank
    ensures board.Valid()
    ensures g == Allocate(old(board.resourceBank[r]), column)
    ensures board.resourceBank == old(board.resourceBank)[r := old(board.resourceBank[r]) - Sum(g)]
  {
    g := Zeros(|column|);
    SumAllZero(g);
    var total := Sum(column);
    if total == 0 {
      SumZeroAllZero(column);
      assert board.resourceBank == board.resourceBank[r := board.resourceBank[r]];
      return;
    }
    var requesting := Requesting(column);
    RequestingMembers(column);
    var supply := board.resourceBank[r];
    if supply >= total {
      var k := 0;
      while k < |requesting|
        invariant 0 <= k <= |requesting| && |g| == |column|
        invariant forall i :: 0 <= i < |g| ==> g[i] == 0 || g[i] == column[i]
        invariant forall a :: 0 <= a < k ==> requesting[a] < |g| && g[requesting[a]] == column[requesting[a]]
      {
        var p := requesting[k];
        assert p in requesting;
        g := g[p := column[p]];
        k := k + 1;
      }
      forall i | 0 <= i < |column|
        ensures g[i] == column[i]
      {
        if column[i] > 0 {
          assert i in requesting;
        }
      }
      AllocateFullSupply(supply, column);
      var _ := board.WithdrawResource(r, total);
    } else if |requesting| == 1 && supply > 0 {
      var p := requesting[0];
      assert p in requesting;
      g := g[p := Min(supply, column[p])];
      SumSingle(g, p);
      var _ := board.WithdrawResource(r, g[p]);
    } else {
      assert board.resourceBank == board.resourceBank[r := board.resourceBank[r]];
    }
  }

  /** Every resource has a column of one grant per player. */
  ghost predicate TableOk(allocation: map<Resource, seq<nat>>, n: nat) {
    forall r: Resource :: r in allocation && |allocation[r]| == n
  }

  /** The allocation before any resource is decided: nothing for anybody. */
  function ZeroTable(n: nat): (t: map<Resource, seq<nat>>)
    ensures TableOk(t, n)
  {
    var z := Zeros(n);
    var t := map[Ore := z, Brick := z, Wheat := z, Wood := z, Sheep := z];
    assert forall r: Resource :: r in t by {
      forall r: Resource ensures r in t { AllResourcesListed(r); }
    }
    t
  }

  /** Resource `r` has been allocated and withdrawn from the bank. */
  ghost predicate Settled(bank: Hand, current: Hand, demand: seq<Hand>, allocation: map<Resource, seq<nat>>, r: Resource)
    requires IsHand(bank) && IsHand(current) && AllHands(demand) && r in allocation
  {
    && allocation[r] == Allocate(bank[r], Column(demand, r))
    && current[r] == bank[r] - Sum(allocation[r])
  }

  /**
   * Decides every resource's allocation against the bank, resource by
   * resource, and withdraws the granted cards.  The allocation is kept by
   * resource: `allocation[r][i]` is what player `i` receives of `r`.
   */
  method AllocateFromBank(board: Board, demand: seq<Hand>) returns (allocation: map<Resource, seq<nat>>)
    requires board.Valid() && AllHands(demand)
    modifies board`resourceBank
    ensures board.Valid() && TableOk(allocation, |demand|)
    ensures forall r :: allocation[r] == Allocate(old(board.resourceBank[r]), Column(demand, r))
    ensures forall r :: board.resourceBank[r] == old(board.resourceBank[r]) - Sum(allocation[r])
  {
    ghost var bank := board.resourceBank;
    allocation := ZeroTable(|demand|);
    var t := 0;
    while t < |AllResources|
      invariant 0 <= t <= |AllResources|
      invariant board.Valid() && TableOk(allocation, |demand|)
      invariant forall r :: r in AllResources[..t] ==> Settled(bank, board.resourceBank, demand, allocation, r)
      invariant forall r :: r !in AllResources[..t] ==> board.resourceBank[r] == bank[r]
    {
      var r := AllResources[t];
      AllResourcesStep(t);
      ghost var before, previous := board.resourceBank, allocation;
      var g := AllocateResource(board, Column(demand, r), r);
      allocation := allocation[r := g];
      forall q | q in AllResources[..t + 1]
        ensures Settled(bank, board.resourceBank, demand, allocation, q)
      {
        if q != r {
          assert Settled(bank, before, demand, previous, q);
        }
      }
      t := t + 1;
    }
    assert AllResources[..t] == AllResources;
    AllResourcesListedAll();
    forall r | true
      ensures allocation[r] == Allocate(bank[r], Column(demand, r))
      ensures board.resourceBank[r] == bank[r] - Sum(allocation[r])
    {
      assert Settled(bank, board.resourceBank, demand, allocation, r);
    }
  }

  /** Player `i`'s row of an allocation kept by resource. */
  function Row(allocation: map<Resource, seq<nat>>, i: nat): (h: Hand)
    requires forall r: Resource :: r in allocation && i < |allocation[r]|
    ensures IsHand(h) && forall r :: h[r] == allocation[r][i]
  {
    map r: Resource | true :: allocation[r][i]
  }

  /** Adds an allocation to one player's hand, resource by resource. */
  method Receive(p: Player, a: Hand)
    requires IsHand(p.resources) && IsHand(a)
    modifies p`resources
    ensures p.resources == AddHands(old(p.resources), a)
  {
    ghost var h := p.resources;
    var s := 0;
    while s < |AllResources|
      invariant 0 <= s <= |AllResources|
      invariant IsHand(p.resources)
      invariant forall r :: p.resources[r] == h[r] + (if r in AllResources[..s] then a[r] else 0)
    {
      var r := AllResources[s];
      AllResourcesStep(s);
      if a[r] > 0 {
        p.resources := p.resources[r := p.resources[r] + a[r]];
      }
      s := s + 1;
    }
    assert AllResources[..s] == AllResources;
    AllResourcesListedAll();
  }

  /** Player `i` receives its row of the allocation, after the players before it have. */
  method GiveNext(ps: seq<Player>, allocation: map<Resource, seq<nat>>, i: nat, ghost hs: seq<Hand>)
    requires Distinct(ps) && TableOk(allocation, |ps|) && i < |ps| == |hs| && AllHands(hs)
    requires forall j :: 0 <= j < |ps| ==> ps[j].resources == if j < i then AddHands(hs[j], Row(allocation, j)) else hs[j]
    modifies ps`resources
    ensures forall j :: 0 <= j < |ps| ==> ps[j].resources == if j < i + 1 then AddHands(hs[j], Row(allocation, j)) else hs[j]
  {
    Receive(ps[i], Row(allocation, i));
  }

  /** Adds each player's allocation to its hand. */
  method GiveAllocation(ps: seq<Player>, allocation: map<Resource, seq<nat>>)
    requires Distinct(ps) && TableOk(allocation, |ps|)
    requires forall i :: 0 <= i < |ps| ==> IsHand(ps[i].resources)
    modifies ps`resources
    ensures forall i :: 0 <= i < |ps| ==> ps[i].resources == AddHands(old(ps[i].resources), Row(allocation, i))
  {
    ghost var hs := seq(|ps|, j reads ps requires 0 <= j < |ps| => ps[j].resources);
    var i := 0;
    while i < |ps|
      invariant 0 <= i <= |ps|
      invariant forall j :: 0 <= j < |ps| ==> ps[j].resources == if j < i then AddHands(hs[j], Row(allocation, j)) else hs[j]
    {
      GiveNext(ps, allocation, i, hs);
      i := i + 1;
    }
  }

  /**
   * Production on a roll other than 7: the bank and every hand become
   * exactly what the allocation rule prescribes for the state before the
   * roll; nothing else about the players changes.
   */
  method DistributeResources(board: Board, ps: seq<Player>, roll: int)
    requires board.Valid() && Distinct(ps) && ProductionReady(board.hexes, board.vertices, Views(ps))
    modifies board`resourceBank, ps`resources
    ensures board.Valid()
    ensures board.resourceBank == BankAfter(old(board.resourceBank), board.hexes, board.vertices, old(Views(ps)), roll)
    ensures Views(ps) == PlayersAfter(old(board.resourceBank), board.hexes, board.vertices, old(Views(ps)), roll)
  {
    ghost var vs := Views(ps);
    ghost var bank := board.resourceBank;
    var demand := ComputeDemand(board, ps, roll);
    var allocation := AllocateFromBank(board, demand);
    AllocationIsGrants(bank, board.hexes, board.vertices, vs, roll, demand, allocation);
    BankIsBankAfter(bank, board.hexes, board.vertices, vs, roll, allocation, board.resourceBank);
    GiveGrants(ps, allocation, bank, board.hexes, board.vertices, roll, vs);
  }

  /**
   * Handing out a table whose rows are the grant rule's hands leaves the
   * queue the production rule prescribes.
   */
  method GiveGrants(ps: seq<Player>, allocation: map<Resource, seq<nat>>, ghost bank: Hand,
                    ghost hexes: seq<HexTile>, ghost vertices: seq<Vertex>, ghost roll: int, ghost vs: seq<PlayerView>)
    requires Distinct(ps) && TableOk(allocation, |ps|) && IsHand(bank)
    requires vs == Views(ps) && ProductionReady(hexes, vertices, vs)
    requires forall i :: 0 <= i < |vs| ==> Row(allocation, i) == GrantHand(bank, hexes, vertices, vs, roll, i)
    modifies ps`resources
    ensures Views(ps) == PlayersAfter(bank, hexes, vertices, vs, roll)
  {
    ghost var ws := PlayersAfter(bank, hexes, vertices, vs, roll);
    GiveAllocation(ps, allocation);
    forall i | 0 <= i < |ps|
      ensures ps[i].View() == ws[i]
    {
      assert ps[i].resources == AddHands(vs[i].resources, GrantHand(bank, hexes, vertices, vs, roll, i));
    }
  }

  /** The table the loops build is the grant rule applied to the queue. */
  lemma AllocationIsGrants(bank: Hand, hexes: seq<HexTile>, vertices: seq<Vertex>, vs: seq<PlayerView>, roll: int,
                           demand: seq<Hand>, allocation: map<Resource, seq<nat>>)
    requires IsHand(bank) && ProductionReady(hexes, vertices, vs)
    requires |demand| == |vs| && AllHands(demand)
    requires forall i :: 0 <= i < |vs| ==> forall r :: demand[i][r] == Demand(hexes, vertices, vs[i], roll, r)
    requires TableOk(allocation, |vs|)
    requires forall r :: allocation[r] == Allocate(bank[r], Column(demand, r))
    ensures forall r :: allocation[r] == Grants(bank, hexes, vertices, vs, roll, r)
    ensures forall i :: 0 <= i < |vs| ==> Row(allocation, i) == GrantHand(bank, hexes, vertices, vs, roll, i)
  {
    forall r | true
      ensures allocation[r] == Grants(bank, hexes, vertices, vs, roll, r)
    {
      assert Column(demand, r) == DemandColumn(hexes, vertices, vs, roll, r);
    }
    forall i | 0 <= i < |vs|
      ensures Row(allocation, i) == GrantHand(bank, hexes, vertices, vs, roll, i)
    {
      HandsEqual(Row(allocation, i), GrantHand(bank, hexes, vertices, vs, roll, i));
    }
  }

  /** The bank the loops leave behind is the bank the grant rule prescribes. */
  lemma BankIsBankAfter(bank: Hand, hexes: seq<HexTile>, vertices: seq<Vertex>, vs: seq<PlayerView>, roll: int,
                        allocation: map<Resource, seq<nat>>, b: Hand)
    requires IsHand(bank) && IsHand(b) && ProductionReady(hexes, vertices, vs)
    requires TableOk(allocation, |vs|)
    requires forall r :: allocation[r] == Grants(bank, hexes, vertices, vs, roll, r)
    requires forall r :: b[r] == bank[r] - Sum(allocation[r])
    ensures b == BankAfter(bank, hexes, vertices, vs, roll)
  {
    HandsEqual(b, BankAfter(bank, hexes, vertices, vs, roll));
  }
}
