/**
 * The heuristic AI's choice of an initial settlement
 * (`heuristicAIPlayer.initial_setup`): every candidate vertex is scored by
 * the dice expectation of the tiles around it, the number of distinct tile
 * kinds there and a bonus for each resource the player did not yet collect
 * in the setup round; the first vertex with the best score is taken and its
 * resources are added to the player's setup resources.
 *
 * The source's bonus per new resource is 2.5; every score here is twice the
 * source's, so that scores are integers and the order of the vertices, and
 * hence the choice, is the same.
 */
module InitialSetup {
  import opened Resources
  import opened Board
  import opened Players

  /** The dice numbers the expectation table knows: none, or 2 to 12 without 7. */
  predicate KnownNumber(n: Option<int>) {
    n.None? || (2 <= n.value <= 12 && n.value != 7)
  }

  /** Every tile's number is in the expectation table (any other number is a missing key). */
  predicate NumbersKnown(hexes: seq<HexTile>) {
    forall h :: 0 <= h < |hexes| ==> KnownNumber(hexes[h].number)
  }

  /**
   * Twice the table's expectation for a dice number: the number of the 36
   * rolls of two dice that give it, doubled; a tile without a number scores 0.
   */
  function Expectation(n: Option<int>): (e: nat)
    requires KnownNumber(n)
    ensures n.None? ==> e == 0
    ensures n.Some? ==> e == 2 * (6 - if n.value < 7 then 7 - n.value else n.value - 7)
    ensures e <= 10
  {
    match n
    case None => 0
    case Some(k) =>
      if k == 2 || k == 12 then 2
      else if k == 3 || k == 11 then 4
      else if k == 4 || k == 10 then 6
      else if k == 5 || k == 9 then 8
      else 10
  }

  /** The terrains of the tiles around a vertex, in the vertex's order. */
  function TerrainsAt(hexes: seq<HexTile>, adj: seq<nat>): (ts: seq<Terrain>)
    requires AllBelow(adj, |hexes|)
    ensures |ts| == |adj|
    ensures forall i :: 0 <= i < |adj| ==> ts[i] == hexes[adj[i]].terrain
  {
    seq(|adj|, i requires 0 <= i < |adj| => hexes[adj[i]].terrain)
  }

  /** The sum of the (doubled) expectations of the tiles `adj`. */
  function NumberValue(hexes: seq<HexTile>, adj: seq<nat>): nat
    requires AllBelow(adj, |hexes|) && NumbersKnown(hexes)
  {
    if adj == [] then 0
    else NumberValue(hexes, adj[..|adj| - 1]) + Expectation(hexes[adj[|adj| - 1]].number)
  }

  lemma {:induction false} NumberValueBounded(hexes: seq<HexTile>, adj: seq<nat>)
    requires AllBelow(adj, |hexes|) && NumbersKnown(hexes)
    ensures NumberValue(hexes, adj) <= 10 * |adj|
    ensures (forall i :: 0 <= i < |adj| ==> hexes[adj[i]].number.None?) ==> NumberValue(hexes, adj) == 0
  {
    if adj != [] {
      NumberValueBounded(hexes, adj[..|adj| - 1]);
    }
  }

  /** The distinct elements of `ts` in the order they are first seen (desert included). */
  function Kinds(ts: seq<Terrain>): (ks: seq<Terrain>)
    ensures |ks| <= |ts|
  {
    if ts == [] then []
    else
      var ks := Kinds(ts[..|ts| - 1]);
      if ts[|ts| - 1] in ks then ks else ks + [ts[|ts| - 1]]
  }

  /** `Kinds` lists each terrain of `ts` exactly once. */
  lemma {:induction false} KindsExact(ts: seq<Terrain>)
    ensures forall t :: t in Kinds(ts) <==> t in ts
    ensures NoRepeats(Kinds(ts))
  {
    if ts != [] {
      var init := ts[..|ts| - 1];
      KindsExact(init);
      assert ts == init + [ts[|ts| - 1]];
    }
  }

  /** How many kinds in `ks` produce a resource that is not in `setup`. */
  function NewKinds(ks: seq<Terrain>, setup: seq<Resource>): (n: nat)
    ensures n <= |ks|
  {
    if ks == [] then 0
    else
      var last := ks[|ks| - 1];
      NewKinds(ks[..|ks| - 1], setup) + if last.Produces? && last.resource !in setup then 1 else 0
  }

  /** No new kind is counted once every producing kind is already a setup resource. */
  lemma {:induction false} NewKindsNone(ks: seq<Terrain>, setup: seq<Resource>)
    requires forall i :: 0 <= i < |ks| && ks[i].Produces? ==> ks[i].resource in setup
    ensures NewKinds(ks, setup) == 0
  {
    if ks != [] {
      NewKindsNone(ks[..|ks| - 1], setup);
    }
  }

  /** Every producing kind counts when the player has no setup resource yet. */
  lemma {:induction false} NewKindsAll(ks: seq<Terrain>)
    requires Desert !in ks
    ensures NewKinds(ks, []) == |ks|
  {
    if ks != [] {
      NewKindsAll(ks[..|ks| - 1]);
    }
  }

  /** Twice the source's score of a vertex whose tiles are `adj`. */
  function VertexScore(hexes: seq<HexTile>, adj: seq<nat>, setup: seq<Resource>): nat
    requires AllBelow(adj, |hexes|) && NumbersKnown(hexes)
  {
    var ks := Kinds(TerrainsAt(hexes, adj));
    NumberValue(hexes, adj) + 4 * |ks| + 5 * NewKinds(ks, setup)
  }

  /** A vertex's score is at most 19 points (doubled) per tile around it. */
  lemma VertexScoreBounded(hexes: seq<HexTile>, adj: seq<nat>, setup: seq<Resource>)
    requires AllBelow(adj, |hexes|) && NumbersKnown(hexes)
    ensures VertexScore(hexes, adj, setup) <= 19 * |adj|
  {
    NumberValueBounded(hexes, adj);
  }

  /** The loop over the tiles around a vertex: the dice value and the kinds seen. */
  method TileValues(hexes: seq<HexTile>, adj: seq<nat>) returns (value: nat, kinds: seq<Terrain>)
    requires AllBelow(adj, |hexes|) && NumbersKnown(hexes)
    ensures value == NumberValue(hexes, adj)
    ensures kinds == Kinds(TerrainsAt(hexes, adj))
  {
    ghost var ts := TerrainsAt(hexes, adj);
    value, kinds := 0, [];
    var i := 0;
    while i < |adj|
      invariant 0 <= i <= |adj|
      invariant value == NumberValue(hexes, adj[..i])
      invariant kinds == Kinds(ts[..i])
    {
      var tile := hexes[adj[i]];
      assert adj[..i + 1][..i] == adj[..i];
      assert ts[..i + 1][..i] == ts[..i];
      if tile.terrain !in kinds {
        kinds := kinds + [tile.terrain];
      }
      value := value + Expectation(tile.number);
      i := i + 1;
    }
    assert adj[..i] == adj;
    assert ts[..i] == ts;
  }

  /** The score of one candidate vertex. */
  method ScoreVertex(hexes: seq<HexTile>, adj: seq<nat>, setup: seq<Resource>) returns (score: nat)
    requires AllBelow(adj, |hexes|) && NumbersKnown(hexes)
    ensures score == VertexScore(hexes, adj, setup)
  {
    var value, kinds := TileValues(hexes, adj);
    score := value + 4 * |kinds|;
    var i := 0;
    while i < |kinds|
      invariant 0 <= i <= |kinds|
      invariant score == value + 4 * |kinds| + 5 * NewKinds(kinds[..i], setup)
    {
      assert kinds[..i + 1][..i] == kinds[..i];
      if kinds[i] != Desert && kinds[i].resource !in setup {
        score := score + 5;
      }
      i := i + 1;
    }
    assert kinds[..i] == kinds;
  }

  /** The first index of a largest element (`list.index(max(list))`). */
  function FirstBest(scores: seq<nat>): (k: nat)
    requires |scores| > 0
    ensures k < |scores|
    ensures forall i :: 0 <= i < |scores| ==> scores[i] <= scores[k]
    ensures forall i :: 0 <= i < k ==> scores[i] < scores[k]
  {
    if |scores| == 1 then 0
    else
      var k := FirstBest(scores[..|scores| - 1]);
      if scores[|scores| - 1] > scores[k] then |scores| - 1 else k
  }

  /** The candidates' scores, in the candidates' order. */
  function Scores(board: seq<HexTile>, vertices: seq<Vertex>, spots: seq<nat>, setup: seq<Resource>): (ss: seq<nat>)
    requires GraphValid(board, vertices) && NumbersKnown(board) && AllBelow(spots, |vertices|)
    ensures |ss| == |spots|
  {
    seq(|spots|, i requires 0 <= i < |spots| => VertexScore(board, vertices[spots[i]].adjacentHexes, setup))
  }

  /** The setup resources after the vertex's tiles are added: new producing kinds appended in order. */
  function AddSetup(setup: seq<Resource>, ts: seq<Terrain>): (added: seq<Resource>)
    ensures |setup| <= |added| <= |setup| + |ts|
  {
    if ts == [] then setup
    else
      var before := AddSetup(setup, ts[..|ts| - 1]);
      var last := ts[|ts| - 1];
      if last.Produces? && last.resource !in before then before + [last.resource] else before
  }

  /**
   * The setup resources keep what they had, in order, gain exactly the
   * resources the tiles produce, and never list a resource twice.
   */
  lemma {:induction false} AddSetupExact(setup: seq<Resource>, ts: seq<Terrain>)
    requires NoRepeats(setup)
    ensures AddSetup(setup, ts)[..|setup|] == setup
    ensures forall r :: r in AddSetup(setup, ts) <==> r in setup || Produces(r) in ts
    ensures NoRepeats(AddSetup(setup, ts))
  {
    if ts != [] {
      var init := ts[..|ts| - 1];
      AddSetupExact(setup, init);
      assert ts == init + [ts[|ts| - 1]];
    }
  }

  /** Adding the same tiles a second time changes nothing. */
  lemma {:induction false} AddSetupIdempotent(setup: seq<Resource>, ts: seq<Terrain>)
    requires NoRepeats(setup)
    ensures AddSetup(AddSetup(setup, ts), ts) == AddSetup(setup, ts)
  {
    AddSetupExact(setup, ts);
    AddSetupKeeps(AddSetup(setup, ts), ts);
  }

  /** Tiles whose resources are all listed already leave the setup resources as they are. */
  lemma {:induction false} AddSetupKeeps(setup: seq<Resource>, ts: seq<Terrain>)
    requires forall i :: 0 <= i < |ts| && ts[i].Produces? ==> ts[i].resource in setup
    ensures AddSetup(setup, ts) == setup
  {
    if ts != [] {
      AddSetupKeeps(setup, ts[..|ts| - 1]);
    }
  }

  /** The loop that scores every candidate vertex. */
  method ScoreAll(hexes: seq<HexTile>, vertices: seq<Vertex>, spots: seq<nat>, setup: seq<Resource>)
    returns (scores: seq<nat>)
    requires GraphValid(hexes, vertices) && NumbersKnown(hexes) && AllBelow(spots, |vertices|)
    ensures scores == Scores(hexes, vertices, spots, setup)
  {
    scores := [];
    var i := 0;
    while i < |spots|
      invariant 0 <= i <= |spots|
      invariant scores == Scores(hexes, vertices, spots, setup)[..i]
    {
      assert VertexWellFormed(vertices[spots[i]], |hexes|, |vertices|);
      var s := ScoreVertex(hexes, vertices[spots[i]].adjacentHexes, setup);
      scores := scores + [s];
      i := i + 1;
    }
  }

  /** `vertexValues.index(max(vertexValues))`, as a loop. */
  method FirstBestIndex(scores: seq<nat>) returns (k: nat)
    requires |scores| > 0
    ensures k == FirstBest(scores)
  {
    k := 0;
    var i := 1;
    while i < |scores|
      invariant 1 <= i <= |scores|
      invariant k == FirstBest(scores[..i])
    {
      assert scores[..i + 1][..i] == scores[..i];
      if scores[i] > scores[k] {
        k := i;
      }
      i := i + 1;
    }
    assert scores[..i] == scores;
  }

  /** Adds the resources of the chosen vertex's tiles to the player's setup resources. */
  method RecordSetup(p: Player, hexes: seq<HexTile>, adj: seq<nat>)
    requires AllBelow(adj, |hexes|)
    modifies p`setupResources
    ensures p.setupResources == AddSetup(old(p.setupResources), TerrainsAt(hexes, adj))
  {
    ghost var setup := p.setupResources;
    ghost var ts := TerrainsAt(hexes, adj);
    var i := 0;
    while i < |adj|
      invariant 0 <= i <= |adj|
      invariant p.setupResources == AddSetup(setup, ts[..i])
    {
      assert ts[..i + 1][..i] == ts[..i];
      var t := hexes[adj[i]].terrain;
      if t.Produces? && t.resource !in p.setupResources {
        p.setupResources := p.setupResources + [t.resource];
      }
      i := i + 1;
    }
    assert ts[..i] == ts;
  }

  /**
   * The settlement half of `initial_setup`: scores the candidate vertices
   * `spots`, picks the first best one and records its resources. Placing
   * the settlement and the road is not part of this model.
   */
  method ChooseSetupSettlement(board: Board, p: Player, spots: seq<nat>) returns (vertex: nat)
    requires GraphValid(board.hexes, board.vertices) && NumbersKnown(board.hexes)
    requires AllBelow(spots, |board.vertices|) && |spots| > 0
    modifies p`setupResources
    ensures var k := FirstBest(Scores(board.hexes, board.vertices, spots, old(p.setupResources)));
      vertex == spots[k]
    ensures vertex < |board.vertices|
    ensures p.setupResources
      == AddSetup(old(p.setupResources), TerrainsAt(board.hexes, board.vertices[vertex].adjacentHexes))
  {
    var scores := ScoreAll(board.hexes, board.vertices, spots, p.setupResources);
    var k := FirstBestIndex(scores);
    vertex := spots[k];
    assert VertexWellFormed(board.vertices[vertex], |board.hexes|, |board.vertices|);
    RecordSetup(p, board.hexes, board.vertices[vertex].adjacentHexes);
  }
}
