/**
 * The compact encoding of a game for learning agents (`modelState`): the
 * board's vertices, edges and tiles and the players' points and card counts
 * seen from one player, whose pieces count positive and everybody else's
 * negative; and the list of actions that player may take.
 *
 * Vertices are numbered by their position in the board's vertex list and a
 * player by their position in the queue, so the lookup of a neighbour's
 * index and the comparison `owner is self.player` become index arithmetic.
 */
module StateEncoding {
  import opened Resources
  import opened Board
  import opened Players

  // Vertices

  /** A vertex seen by player `me`: 0 when empty, 1 or 2 for a settlement or city, negative for an opponent's. */
  function VertexCode(v: Vertex, me: nat): (c: int)
    ensures -2 <= c <= 2
    ensures c == 0 <==> v.owner.None?
    ensures c > 0 <==> v.owner == Some(me)
    ensures (c == 2 || c == -2) <==> v.owner.Some? && v.isCity
  {
    if v.owner.None? then 0
    else (if v.owner.value == me then 1 else -1) * (if v.isCity then 2 else 1)
  }

  function VertexStates(vs: seq<Vertex>, me: nat): (s: seq<int>)
    ensures |s| == |vs| && forall i :: 0 <= i < |vs| ==> s[i] == VertexCode(vs[i], me)
  {
    seq(|vs|, i requires 0 <= i < |vs| => VertexCode(vs[i], me))
  }

  // Edges

  /** The key of the undirected edge between `a` and `b`: the sorted pair. */
  function Key(a: nat, b: nat): (k: Edge)
    ensures k.0 <= k.1
    ensures k == (a, b) || k == (b, a)
  {
    if a <= b then (a, b) else (b, a)
  }

  /** The keys of the edges from vertex `i` to the neighbours `nbrs`, in order. */
  function NeighbourKeys(i: nat, nbrs: seq<nat>): (ks: seq<Edge>)
    ensures |ks| == |nbrs| && forall j :: 0 <= j < |nbrs| ==> ks[j] == Key(i, nbrs[j])
  {
    seq(|nbrs|, j requires 0 <= j < |nbrs| => Key(i, nbrs[j]))
  }

  /** The keys met by the scan of vertices `i` onwards, repeats included. */
  function KeysFrom(vs: seq<Vertex>, i: nat): seq<Edge>
    decreases |vs| - i
  {
    if i >= |vs| then [] else NeighbourKeys(i, vs[i].neighbours) + KeysFrom(vs, i + 1)
  }

  /** Appends to `acc` each key of `keys` it does not hold yet, in order. */
  function Collect(acc: seq<Edge>, keys: seq<Edge>): seq<Edge>
    decreases |keys|
  {
    if keys == [] then acc
    else Collect(if keys[0] in acc then acc else acc + [keys[0]], keys[1..])
  }

  /** The edge list the scan of all vertices builds. */
  function EdgeKeys(vs: seq<Vertex>): seq<Edge> {
    Collect([], KeysFrom(vs, 0))
  }

  /** The position of every edge of `edges` (the `edge_index` dictionary). */
  function IndexOf(edges: seq<Edge>): (m: map<Edge, nat>)
    ensures forall e :: e in m <==> e in edges
  {
    if edges == [] then map[]
    else IndexOf(edges[..|edges| - 1])[edges[|edges| - 1] := |edges| - 1]
  }

  /** Collecting keeps what was there, adds exactly the new keys and never repeats one. */
  lemma {:induction false} CollectExact(acc: seq<Edge>, keys: seq<Edge>)
    requires NoRepeats(acc)
    ensures NoRepeats(Collect(acc, keys))
    ensures |acc| <= |Collect(acc, keys)| && Collect(acc, keys)[..|acc|] == acc
    ensures forall e :: e in Collect(acc, keys) <==> e in acc || e in keys
    decreases |keys|
  {
    if keys != [] {
      var next := if keys[0] in acc then acc else acc + [keys[0]];
      CollectExact(next, keys[1..]);
      assert keys == [keys[0]] + keys[1..];
      assert next[..|acc|] == acc;
    }
  }

  /** Collecting two runs of keys one after the other is collecting their concatenation. */
  lemma {:induction false} CollectAppend(acc: seq<Edge>, a: seq<Edge>, b: seq<Edge>)
    ensures Collect(Collect(acc, a), b) == Collect(acc, a + b)
    decreases |a|
  {
    if a != [] {
      var next := if a[0] in acc then acc else acc + [a[0]];
      CollectAppend(next, a[1..], b);
      assert (a + b)[0] == a[0] && (a + b)[1..] == a[1..] + b;
    } else {
      assert a + b == b;
    }
  }

  /** Every neighbour pair of a vertex from `i` on is met by the scan from `i`. */
  lemma {:induction false} KeysFromHas(vs: seq<Vertex>, i: nat, a: nat, j: nat)
    requires i <= a < |vs| && j < |vs[a].neighbours|
    ensures Key(a, vs[a].neighbours[j]) in KeysFrom(vs, i)
    decreases a - i
  {
    assert KeysFrom(vs, i) == NeighbourKeys(i, vs[i].neighbours) + KeysFrom(vs, i + 1);
    if a == i {
      assert NeighbourKeys(i, vs[i].neighbours)[j] == Key(a, vs[a].neighbours[j]);
    } else {
      KeysFromHas(vs, i + 1, a, j);
    }
  }

  /** The scan from `i` meets nothing but neighbour pairs of vertices from `i` on. */
  lemma {:induction false} KeysFromOnly(vs: seq<Vertex>, i: nat, e: Edge)
    requires e in KeysFrom(vs, i)
    ensures exists a, j :: i <= a < |vs| && 0 <= j < |vs[a].neighbours| && e == Key(a, vs[a].neighbours[j])
    decreases |vs| - i
  {
    if e in NeighbourKeys(i, vs[i].neighbours) {
      var j :| 0 <= j < |vs[i].neighbours| && NeighbourKeys(i, vs[i].neighbours)[j] == e;
      assert e == Key(i, vs[i].neighbours[j]);
    } else {
      KeysFromOnly(vs, i + 1, e);
    }
  }

  /** The keys of the scan from vertex `i` are the sorted pairs of a vertex from `i` on and one of its neighbours. */
  lemma KeysFromMembers(vs: seq<Vertex>, i: nat, e: Edge)
    ensures e in KeysFrom(vs, i) <==>
      exists a, j :: i <= a < |vs| && 0 <= j < |vs[a].neighbours| && e == Key(a, vs[a].neighbours[j])
  {
    if e in KeysFrom(vs, i) {
      KeysFromOnly(vs, i, e);
    }
    if exists a, j :: i <= a < |vs| && 0 <= j < |vs[a].neighbours| && e == Key(a, vs[a].neighbours[j]) {
      var a, j :| i <= a < |vs| && 0 <= j < |vs[a].neighbours| && e == Key(a, vs[a].neighbours[j]);
      KeysFromHas(vs, i, a, j);
    }
  }

  /**
   * The edge list holds every undirected neighbour pair exactly once, as a
   * sorted pair.
   */
  lemma EdgeKeysExact(vs: seq<Vertex>)
    ensures NoRepeats(EdgeKeys(vs))
    ensures forall e :: e in EdgeKeys(vs) ==> e.0 <= e.1
    ensures forall e :: e in EdgeKeys(vs) <==>
      exists a, j :: 0 <= a < |vs| && 0 <= j < |vs[a].neighbours| && e == Key(a, vs[a].neighbours[j])
  {
    CollectExact([], KeysFrom(vs, 0));
    forall e ensures e in EdgeKeys(vs) <==>
      exists a, j :: 0 <= a < |vs| && 0 <= j < |vs[a].neighbours| && e == Key(a, vs[a].neighbours[j])
    {
      KeysFromMembers(vs, 0, e);
    }
  }

  /** Every edge of a well-formed board joins two of its vertices. */
  lemma EdgeKeysInRange(hexes: seq<HexTile>, vs: seq<Vertex>)
    requires GraphValid(hexes, vs)
    ensures forall e :: e in EdgeKeys(vs) ==> e.0 < |vs| && e.1 < |vs|
  {
    EdgeKeysExact(vs);
    forall e | e in EdgeKeys(vs) ensures e.0 < |vs| && e.1 < |vs| {
      var a, j :| 0 <= a < |vs| && 0 <= j < |vs[a].neighbours| && e == Key(a, vs[a].neighbours[j]);
      assert VertexWellFormed(vs[a], |hexes|, |vs|);
    }
  }

  /** On a well-formed board every edge's lower end is a vertex whose road list fits its neighbour list. */
  lemma EdgesReadableOnBoard(hexes: seq<HexTile>, vs: seq<Vertex>)
    requires GraphValid(hexes, vs)
    ensures EdgesReadable(vs, EdgeKeys(vs))
  {
    var edges := EdgeKeys(vs);
    EdgeKeysInRange(hexes, vs);
    forall k | 0 <= k < |edges| ensures edges[k].0 < |vs| && |vs[edges[k].0].roads| == |vs[edges[k].0].neighbours| {
      assert edges[k] in edges;
      assert VertexWellFormed(vs[edges[k].0], |hexes|, |vs|);
    }
  }

  /**
   * The index of an edge list without repeats numbers its edges by their
   * positions: its values are exactly 0 up to the number of edges.
   */
  lemma {:induction false} IndexOfExact(edges: seq<Edge>)
    requires NoRepeats(edges)
    ensures forall k :: 0 <= k < |edges| ==> IndexOf(edges)[edges[k]] == k
    ensures forall e :: e in IndexOf(edges) ==> IndexOf(edges)[e] < |edges| && edges[IndexOf(edges)[e]] == e
  {
    if edges != [] {
      IndexOfExact(edges[..|edges| - 1]);
    }
  }

  /** The owner of the first built road from a vertex to `target` among its neighbour entries. */
  function FirstRoad(nbrs: seq<nat>, roads: seq<Option<nat>>, target: nat): (o: Option<nat>)
    requires |roads| == |nbrs|
    ensures o.Some? ==> exists j :: 0 <= j < |nbrs| && nbrs[j] == target && roads[j] == o
    ensures o.None? <==> forall j :: 0 <= j < |nbrs| && nbrs[j] == target ==> roads[j].None?
    decreases |nbrs|
  {
    if nbrs == [] then None
    else if nbrs[0] == target && roads[0].Some? then roads[0]
    else
      var o := FirstRoad(nbrs[1..], roads[1..], target);
      assert forall j :: 1 <= j < |nbrs| ==> nbrs[j] == nbrs[1..][j - 1] && roads[j] == roads[1..][j - 1];
      o
  }

  /** A road seen by player `me`: 1 for their own, -1 for an opponent's, 0 when none is built. */
  function RoadCode(owner: Option<nat>, me: nat): (c: int)
    ensures c == 0 <==> owner.None?
    ensures c == 1 <==> owner == Some(me)
    ensures c == -1 <==> owner.Some? && owner.value != me
  {
    match owner
    case None => 0
    case Some(o) => if o == me then 1 else -1
  }

  /** Edges whose lower end is a vertex of `vs`, with well-formed road lists. */
  ghost predicate EdgesReadable(vs: seq<Vertex>, edges: seq<Edge>) {
    forall k :: 0 <= k < |edges| ==> edges[k].0 < |vs| && |vs[edges[k].0].roads| == |vs[edges[k].0].neighbours|
  }

  /** Each edge's road as seen by `me`, read from the lower-numbered end of the edge. */
  function EdgeStates(vs: seq<Vertex>, edges: seq<Edge>, me: nat): (s: seq<int>)
    requires EdgesReadable(vs, edges)
    ensures |s| == |edges|
    ensures forall k :: 0 <= k < |edges| ==>
      s[k] == RoadCode(FirstRoad(vs[edges[k].0].neighbours, vs[edges[k].0].roads, edges[k].1), me)
  {
    seq(|edges|, k requires 0 <= k < |edges| =>
      RoadCode(FirstRoad(vs[edges[k].0].neighbours, vs[edges[k].0].roads, edges[k].1), me))
  }

  // Tiles

  /** The index of the last tile carrying the robber, or -1 when no tile does. */
  function RobberIndex(hexes: seq<HexTile>): (r: int)
    ensures -1 <= r < |hexes|
    ensures r == -1 <==> forall i :: 0 <= i < |hexes| ==> !hexes[i].robber
    ensures r >= 0 ==> hexes[r].robber && forall i :: r < i < |hexes| ==> !hexes[i].robber
  {
    if hexes == [] then -1
    else if hexes[|hexes| - 1].robber then |hexes| - 1
    else RobberIndex(hexes[..|hexes| - 1])
  }

  /** Once the robber is moved to tile `h`, the encoding reports tile `h`. */
  lemma RobberIndexAfterMove(hexes: seq<HexTile>, h: nat)
    requires h < |hexes|
    ensures RobberIndex(RobberMoved(hexes, h)) == h
  {
    assert RobberMoved(hexes, h)[h].robber;
  }

  function Tiles(hexes: seq<HexTile>): (ts: seq<(Terrain, Option<int>)>)
    ensures |ts| == |hexes| && forall i :: 0 <= i < |hexes| ==> ts[i] == (hexes[i].terrain, hexes[i].number)
  {
    seq(|hexes|, i requires 0 <= i < |hexes| => (hexes[i].terrain, hexes[i].number))
  }

  // Players

  /** Every player's visible victory points, in queue order. */
  function ShownPoints(ps: seq<Player>): (s: seq<int>)
    reads ps`victoryPoints, ps`devCards
    requires forall i :: 0 <= i < |ps| ==> IsDevHand(ps[i].devCards)
    ensures |s| == |ps| && forall i :: 0 <= i < |ps| ==> s[i] == VisiblePoints(ps[i].victoryPoints, ps[i].devCards)
    decreases |ps|
  {
    if ps == [] then []
    else ShownPoints(ps[..|ps| - 1]) + [VisiblePoints(ps[|ps| - 1].victoryPoints, ps[|ps| - 1].devCards)]
  }

  /** Every player's number of cards: resources, playable development cards and those bought this turn. */
  function CardCounts(ps: seq<Player>): (s: seq<nat>)
    reads ps`resources, ps`devCards, ps`newDevCards
    requires Holding(ps)
    ensures |s| == |ps|
    ensures forall i :: 0 <= i < |ps| ==>
      s[i] == Total(ps[i].resources) + DevTotal(ps[i].devCards) + |ps[i].newDevCards|
    decreases |ps|
  {
    if ps == [] then []
    else
      var p := ps[|ps| - 1];
      CardCounts(ps[..|ps| - 1]) + [Total(p.resources) + DevTotal(p.devCards) + |p.newDevCards|]
  }

  // The encoding loops

  method EncodeVertices(vs: seq<Vertex>, me: nat) returns (s: seq<int>)
    ensures s == VertexStates(vs, me)
  {
    s := seq(|vs|, _ => 0);
    for idx := 0 to |vs|
      invariant |s| == |vs|
      invariant forall i :: 0 <= i < idx ==> s[i] == VertexCode(vs[i], me)
    {
      var v := vs[idx];
      var val := 0;
      if v.owner.Some? {
        val := if v.owner.value == me then 1 else -1;
        if v.isCity {
          val := val * 2;
        }
      }
      s := s[idx := val];
    }
  }

  /** The keys of a neighbour list from position `j` on: the first key, then the rest. */
  lemma NeighbourKeysNext(i: nat, nbrs: seq<nat>, j: nat)
    requires j < |nbrs|
    ensures NeighbourKeys(i, nbrs[j..]) == [Key(i, nbrs[j])] + NeighbourKeys(i, nbrs[j + 1..])
  {
  }

  /** Collecting one key and then the rest. */
  lemma CollectNext(acc: seq<Edge>, key: Edge, rest: seq<Edge>)
    ensures Collect(acc, [key] + rest) == Collect(if key in acc then acc else acc + [key], rest)
  {
    assert ([key] + rest)[1..] == rest;
  }

  /** Appending a new edge gives it the next position in the index. */
  lemma IndexOfPush(edges: seq<Edge>, key: Edge)
    ensures IndexOf(edges + [key]) == IndexOf(edges)[key := |edges|]
  {
    assert (edges + [key])[..|edges|] == edges;
  }

  /** The scan of one vertex's neighbour list: new edges are numbered in the order met. */
  method CollectNeighbours(i: nat, nbrs: seq<nat>, edges0: seq<Edge>, index0: map<Edge, nat>)
    returns (edges: seq<Edge>, index: map<Edge, nat>)
    requires index0 == IndexOf(edges0)
    ensures edges == Collect(edges0, NeighbourKeys(i, nbrs))
    ensures index == IndexOf(edges)
  {
    edges, index := edges0, index0;
    assert nbrs[0..] == nbrs;
    for j := 0 to |nbrs|
      invariant Collect(edges, NeighbourKeys(i, nbrs[j..])) == Collect(edges0, NeighbourKeys(i, nbrs))
      invariant index == IndexOf(edges)
    {
      var key := Key(i, nbrs[j]);
      NeighbourKeysNext(i, nbrs, j);
      CollectNext(edges, key, NeighbourKeys(i, nbrs[j + 1..]));
      if key !in index {
        IndexOfPush(edges, key);
        index := index[key := |edges|];
        edges := edges + [key];
      }
    }
    assert NeighbourKeys(i, nbrs[|nbrs|..]) == [];
  }

  /** The scan of every vertex's neighbour list that numbers the edges. */
  method EncodeEdges(vs: seq<Vertex>) returns (edges: seq<Edge>, index: map<Edge, nat>)
    ensures edges == EdgeKeys(vs)
    ensures index == IndexOf(edges)
  {
    edges, index := [], map[];
    for i := 0 to |vs|
      invariant Collect(edges, KeysFrom(vs, i)) == EdgeKeys(vs)
      invariant index == IndexOf(edges)
    {
      CollectAppend(edges, NeighbourKeys(i, vs[i].neighbours), KeysFrom(vs, i + 1));
      edges, index := CollectNeighbours(i, vs[i].neighbours, edges, index);
    }
  }

  /** The scan of one vertex's neighbour entries for a built road to `target`. */
  method FindRoad(nbrs: seq<nat>, roads: seq<Option<nat>>, target: nat) returns (o: Option<nat>)
    requires |roads| == |nbrs|
    ensures o == FirstRoad(nbrs, roads, target)
  {
    var n := 0;
    while n < |nbrs|
      invariant 0 <= n <= |nbrs|
      invariant FirstRoad(nbrs, roads, target) == FirstRoad(nbrs[n..], roads[n..], target)
    {
      assert nbrs[n..][1..] == nbrs[n + 1..] && roads[n..][1..] == roads[n + 1..];
      if nbrs[n] == target && roads[n].Some? {
        return roads[n];
      }
      n := n + 1;
    }
    return None;
  }

  method EncodeEdgeStates(vs: seq<Vertex>, edges: seq<Edge>, me: nat) returns (s: seq<int>)
    requires EdgesReadable(vs, edges)
    ensures s == EdgeStates(vs, edges, me)
  {
    s := seq(|edges|, _ => 0);
    for k := 0 to |edges|
      invariant |s| == |edges|
      invariant forall i :: 0 <= i < k ==> s[i] == EdgeStates(vs, edges, me)[i]
      invariant forall i :: k <= i < |edges| ==> s[i] == 0
    {
      var (i1, i2) := edges[k];
      var owner := FindRoad(vs[i1].neighbours, vs[i1].roads, i2);
      if owner.Some? {
        s := s[k := if owner.value == me then 1 else -1];
      }
    }
  }

  /** The scan of the tiles: their terrain and number, and where the robber is. */
  method ScanTiles(hexes: seq<HexTile>) returns (tiles: seq<(Terrain, Option<int>)>, robber: int)
    ensures tiles == Tiles(hexes) && robber == RobberIndex(hexes)
  {
    tiles, robber := [], -1;
    for i := 0 to |hexes|
      invariant tiles == Tiles(hexes[..i])
      invariant robber == RobberIndex(hexes[..i])
    {
      assert hexes[..i + 1][..i] == hexes[..i];
      tiles := tiles + [(hexes[i].terrain, hexes[i].number)];
      if hexes[i].robber {
        robber := i;
      }
    }
    assert hexes[..|hexes|] == hexes;
  }

  /** The encoding of a game seen by the player at queue position `me`. */
  class ModelState {
    const me: nat
    var vertexState: seq<int>
    var edgeState: seq<int>
    var victoryPoints: seq<int>
    var hexTiles: seq<(Terrain, Option<int>)>
    var numPlayerCards: seq<nat>
    var robber: int
    var edgeIndex: map<Edge, nat>

    /** The board's fields encode `board`. */
    ghost predicate BoardEncoded(board: Board)
      reads this`vertexState, this`edgeIndex, this`edgeState, this`hexTiles, this`robber
      reads board`hexes, board`vertices
    {
      var edges := EdgeKeys(board.vertices);
      && vertexState == VertexStates(board.vertices, me)
      && edgeIndex == IndexOf(edges)
      && EdgesReadable(board.vertices, edges)
      && edgeState == EdgeStates(board.vertices, edges, me)
      && hexTiles == Tiles(board.hexes)
      && robber == RobberIndex(board.hexes)
    }

    /** The players' fields encode the queue `ps`. */
    ghost predicate PlayersEncoded(ps: seq<Player>)
      reads this`victoryPoints, this`numPlayerCards
      reads ps`victoryPoints, ps`devCards, ps`resources, ps`newDevCards
      requires Holding(ps)
    {
      && victoryPoints == ShownPoints(ps)
      && numPlayerCards == CardCounts(ps)
    }

    constructor(board: Board, ps: seq<Player>, me: nat)
      requires GraphValid(board.hexes, board.vertices) && Holding(ps)
      ensures this.me == me && BoardEncoded(board) && PlayersEncoded(ps)
    {
      this.me := me;
      new;
      UpdateFromGame(board, ps);
    }

    /** `update_from_game`: every field is recomputed from the game. */
    method UpdateFromGame(board: Board, ps: seq<Player>)
      requires GraphValid(board.hexes, board.vertices) && Holding(ps)
      modifies this
      ensures BoardEncoded(board) && PlayersEncoded(ps)
    {
      EncodeBoard(board);
      EncodePlayers(ps);
    }

    /** The vertex, edge and tile fields of `update_from_game`. */
    method EncodeBoard(board: Board)
      requires GraphValid(board.hexes, board.vertices)
      modifies this`vertexState, this`edgeIndex, this`edgeState, this`hexTiles, this`robber
      ensures BoardEncoded(board)
    {
      var vertices := EncodeVertices(board.vertices, me);
      var edges, index := EncodeEdges(board.vertices);
      EdgesReadableOnBoard(board.hexes, board.vertices);
      var roads := EncodeEdgeStates(board.vertices, edges, me);
      var tiles, at := ScanTiles(board.hexes);
      vertexState, edgeIndex, edgeState, hexTiles, robber := vertices, index, roads, tiles, at;
    }

    /** The points and card-count fields of `update_from_game`. */
    method EncodePlayers(ps: seq<Player>)
      requires Holding(ps)
      modifies this`victoryPoints, this`numPlayerCards
      ensures PlayersEncoded(ps)
    {
      var points, cards := ShownPoints(ps), CardCounts(ps);
      victoryPoints, numPlayerCards := points, cards;
    }
  }

  // Actions

  /** The actions the learning agent may choose from. */
  datatype Action =
    | BuildSettlement(vertex: nat)
    | BuildCity(vertex: nat)
    | BuildRoad(edge: Edge)
    | DrawDevCard
    | PlayDevCard(card: DevCard)
    | TradeBank(give: Resource, take: Resource, ratio: nat)

  /** The bank's rate for `r`: 2 with that resource's harbour, else 3 with a generic harbour, else 4. */
  function TradeRatio(ports: seq<Port>, r: Resource): (ratio: nat)
    ensures ratio == 2 <==> Special(r) in ports
    ensures ratio == 3 <==> Special(r) !in ports && Generic in ports
    ensures ratio == 4 <==> Special(r) !in ports && Generic !in ports
  {
    if Special(r) in ports then 2 else if Generic in ports then 3 else 4
  }

  /** The trades of `ratio` cards of `give` for one card of each kind in `takes` the bank holds. */
  function TradesFor(give: Resource, ratio: nat, bank: Hand, takes: seq<Resource>): seq<Action>
    requires IsHand(bank)
  {
    if takes == [] then []
    else
      (if takes[0] == give || bank[takes[0]] <= 0 then [] else [TradeBank(give, takes[0], ratio)])
      + TradesFor(give, ratio, bank, takes[1..])
  }

  /** The bank trades for each kind in `gives`, in order. */
  function TradesFrom(h: Hand, ports: seq<Port>, bank: Hand, gives: seq<Resource>): seq<Action>
    requires IsHand(h) && IsHand(bank)
  {
    if gives == [] then []
    else
      var ratio := TradeRatio(ports, gives[0]);
      (if h[gives[0]] < ratio then [] else TradesFor(gives[0], ratio, bank, AllResources))
      + TradesFrom(h, ports, bank, gives[1..])
  }

  /** `_bank_trade_actions`: every trade with the bank the hand `h` allows. */
  function BankTradeActions(h: Hand, ports: seq<Port>, bank: Hand): seq<Action>
    requires IsHand(h) && IsHand(bank)
  {
    TradesFrom(h, ports, bank, AllResources)
  }

  /** The predicate a bank trade satisfies exactly when it is offered. */
  predicate TradeAllowed(h: Hand, ports: seq<Port>, bank: Hand, a: Action)
    requires IsHand(h) && IsHand(bank)
  {
    && a.TradeBank?
    && a.give != a.take
    && a.ratio == TradeRatio(ports, a.give)
    && h[a.give] >= a.ratio
    && bank[a.take] > 0
  }

  lemma {:induction false} TradesForMembers(give: Resource, ratio: nat, bank: Hand, takes: seq<Resource>, a: Action)
    requires IsHand(bank)
    ensures a in TradesFor(give, ratio, bank, takes) <==>
      a.TradeBank? && a.give == give && a.ratio == ratio && a.take in takes && a.take != give && bank[a.take] > 0
  {
    if takes != [] {
      TradesForMembers(give, ratio, bank, takes[1..], a);
      assert takes == [takes[0]] + takes[1..];
    }
  }

  lemma {:induction false} TradesFromMembers(h: Hand, ports: seq<Port>, bank: Hand, gives: seq<Resource>, a: Action)
    requires IsHand(h) && IsHand(bank)
    ensures a in TradesFrom(h, ports, bank, gives) <==> TradeAllowed(h, ports, bank, a) && a.give in gives
  {
    if gives != [] {
      TradesFromMembers(h, ports, bank, gives[1..], a);
      TradesForMembers(gives[0], TradeRatio(ports, gives[0]), bank, AllResources, a);
      if a.TradeBank? {
        AllResourcesListed(a.take);
      }
      assert gives == [gives[0]] + gives[1..];
    }
  }

  /**
   * A bank trade is offered exactly when the two kinds differ, the rate is
   * the player's best, the player holds that many of the kind given and the
   * bank holds the kind asked for; nothing but bank trades is offered.
   */
  lemma BankTradeExact(h: Hand, ports: seq<Port>, bank: Hand, a: Action)
    requires IsHand(h) && IsHand(bank)
    ensures a in BankTradeActions(h, ports, bank) <==> TradeAllowed(h, ports, bank, a)
  {
    TradesFromMembers(h, ports, bank, AllResources, a);
    if a.TradeBank? {
      AllResourcesListed(a.give);
    }
  }

  /** A play action for each kind in `cards` other than victory points with a card in hand. */
  function PlayActions(d: DevHand, cards: seq<DevCard>): seq<Action>
    requires IsDevHand(d)
  {
    if cards == [] then []
    else
      (if cards[0] != VictoryPoint && d[cards[0]] > 0 then [PlayDevCard(cards[0])] else [])
      + PlayActions(d, cards[1..])
  }

  lemma {:induction false} PlayActionsMembers(d: DevHand, cards: seq<DevCard>, a: Action)
    requires IsDevHand(d)
    ensures a in PlayActions(d, cards) <==> a.PlayDevCard? && a.card in cards && a.card != VictoryPoint && d[a.card] > 0
  {
    if cards != [] {
      PlayActionsMembers(d, cards[1..], a);
      assert cards == [cards[0]] + cards[1..];
    }
  }

  function Settlements(vs: seq<nat>): (acts: seq<Action>)
    ensures |acts| == |vs| && forall i :: 0 <= i < |vs| ==> acts[i] == BuildSettlement(vs[i])
  {
    seq(|vs|, i requires 0 <= i < |vs| => BuildSettlement(vs[i]))
  }

  function Cities(vs: seq<nat>): (acts: seq<Action>)
    ensures |acts| == |vs| && forall i :: 0 <= i < |vs| ==> acts[i] == BuildCity(vs[i])
  {
    seq(|vs|, i requires 0 <= i < |vs| => BuildCity(vs[i]))
  }

  function Roads(es: seq<Edge>): (acts: seq<Action>)
    ensures |acts| == |es| && forall i :: 0 <= i < |es| ==> acts[i] == BuildRoad(es[i])
  {
    seq(|es|, i requires 0 <= i < |es| => BuildRoad(es[i]))
  }

  /**
   * `get_valid_actions` for a player `p`: the candidate settlement and city
   * vertices and road edges come from the board's searches, which are not
   * part of this model, and `stack` is the number of development cards left.
   */
  function ValidActions(p: PlayerView, bank: Hand, stack: nat,
                        settlements: seq<nat>, cities: seq<nat>, roads: seq<Edge>): seq<Action>
    requires ViewValid(p) && IsHand(bank)
  {
    var h := p.resources;
    (if CanAffordSettlement(h) && p.settlementsLeft > 0 then Settlements(settlements) else [])
    + (if CanAffordCity(h) && p.citiesLeft > 0 then Cities(cities) else [])
    + (if CanAffordRoad(h) && p.roadsLeft > 0 then Roads(roads) else [])
    + (if CanAffordDevCard(h) && stack > 0 then [DrawDevCard] else [])
    + (if !p.devCardPlayedThisTurn then PlayActions(p.devCards, AllDevCards) else [])
    + BankTradeActions(h, p.ports, bank)
  }

  /** Each kind of action is listed exactly when its guard holds. */
  lemma ValidActionsExact(p: PlayerView, bank: Hand, stack: nat,
                          settlements: seq<nat>, cities: seq<nat>, roads: seq<Edge>, a: Action)
    requires ViewValid(p) && IsHand(bank)
    ensures var acts := ValidActions(p, bank, stack, settlements, cities, roads);
      && (a.BuildSettlement? ==> (a in acts <==>
            CanAffordSettlement(p.resources) && p.settlementsLeft > 0 && a.vertex in settlements))
      && (a.BuildCity? ==> (a in acts <==> CanAffordCity(p.resources) && p.citiesLeft > 0 && a.vertex in cities))
      && (a.BuildRoad? ==> (a in acts <==> CanAffordRoad(p.resources) && p.roadsLeft > 0 && a.edge in roads))
      && (a.DrawDevCard? ==> (a in acts <==> CanAffordDevCard(p.resources) && stack > 0))
      && (a.PlayDevCard? ==> (a in acts <==>
            !p.devCardPlayedThisTurn && a.card != VictoryPoint && p.devCards[a.card] > 0))
      && (a.TradeBank? ==> (a in acts <==> TradeAllowed(p.resources, p.ports, bank, a)))
  {
    BankTradeExact(p.resources, p.ports, bank, a);
    PlayActionsMembers(p.devCards, AllDevCards, a);
    if a.PlayDevCard? {
      AllDevCardsListed(a.card);
    }
  }
}
