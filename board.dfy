/**
 * The parts of the game board that the rules core reads and writes.  The
 * board's construction, geometry and placement rules are outside this model;
 * what remains is the tile list, the vertex graph with its occupancy, the
 * finite resource bank and the development-card stack.
 *
 * Players are identified by their position in the player queue, so a vertex
 * or a road records the owner's queue index.
 */
module Board {
  import opened Resources

  /**
   * A hex tile: terrain, production number (none for the desert), whether the
   * robber stands on it, and the ids of its six corner vertices.
   */
  datatype HexTile = HexTile(terrain: Terrain, number: Option<int>, robber: bool, corners: seq<nat>)

  /**
   * A vertex: the tiles around it, its neighbouring vertices (the edge list),
   * for each neighbour the owner of the road along that edge if one is built,
   * the owner of the settlement or city on it, and whether that is a city.
   */
  datatype Vertex = Vertex(
    adjacentHexes: seq<nat>,
    neighbours: seq<nat>,
    roads: seq<Option<nat>>,
    owner: Option<nat>,
    isCity: bool)

  /** The tile produces on this dice roll. */
  predicate Rolled(t: HexTile, roll: int) {
    t.number == Some(roll)
  }

  /** Every id in `s` is below `n`. */
  ghost predicate AllBelow(s: seq<nat>, n: nat) {
    forall i :: 0 <= i < |s| ==> s[i] < n
  }

  ghost predicate VertexWellFormed(v: Vertex, hexCount: nat, vertexCount: nat) {
    && AllBelow(v.adjacentHexes, hexCount)
    && AllBelow(v.neighbours, vertexCount)
    && |v.roads| == |v.neighbours|
  }

  /** Every tile corner, neighbour and adjacent tile id is in range. */
  ghost predicate GraphValid(hexes: seq<HexTile>, vertices: seq<Vertex>) {
    && (forall h :: 0 <= h < |hexes| ==> AllBelow(hexes[h].corners, |vertices|))
    && (forall v :: 0 <= v < |vertices| ==> VertexWellFormed(vertices[v], |hexes|, |vertices|))
  }

  /** Sum of the development cards left in a (possibly partial) stack. */
  function StackTotal(stack: map<DevCard, nat>): nat {
    (if Knight in stack then stack[Knight] else 0)
    + (if VictoryPoint in stack then stack[VictoryPoint] else 0)
    + (if Monopoly in stack then stack[Monopoly] else 0)
    + (if RoadBuilder in stack then stack[RoadBuilder] else 0)
    + (if YearOfPlenty in stack then stack[YearOfPlenty] else 0)
  }

  /** The tiles with the robber on tile `h` and on no other tile. */
  function RobberMoved(hexes: seq<HexTile>, h: nat): (moved: seq<HexTile>)
    ensures |moved| == |hexes|
    ensures forall i :: 0 <= i < |hexes| ==> moved[i].robber == (i == h)
    ensures forall i :: 0 <= i < |hexes| ==> moved[i] == hexes[i].(robber := i == h)
  {
    seq(|hexes|, i requires 0 <= i < |hexes| => hexes[i].(robber := i == h))
  }

  class Board {
    var resourceBank: Hand
    var devCardStack: map<DevCard, nat>
    var hexes: seq<HexTile>
    var vertices: seq<Vertex>

    /** The bank holds a count for every resource kind. */
    ghost predicate Valid()
      reads this
    {
      IsHand(resourceBank)
    }

    /**
     * Takes `n` cards of `r` from the bank.  Fails, leaving the bank as it
     * was, when the bank holds fewer than `n`.
     */
    method WithdrawResource(r: Resource, n: nat) returns (ok: bool)
      requires Valid()
      modifies this`resourceBank
      ensures Valid()
      ensures ok <==> old(resourceBank[r]) >= n
      ensures ok ==> resourceBank == old(resourceBank)[r := old(resourceBank[r]) - n]
      ensures !ok ==> resourceBank == old(resourceBank)
    {
      ok := resourceBank[r] >= n;
      if ok {
        resourceBank := resourceBank[r := resourceBank[r] - n];
      }
    }

    /** Returns `n` cards of `r` to the bank; always succeeds. */
    method DepositResource(r: Resource, n: nat)
      requires Valid()
      modifies this`resourceBank
      ensures Valid()
      ensures resourceBank == old(resourceBank)[r := old(resourceBank[r]) + n]
    {
      resourceBank := resourceBank[r := resourceBank[r] + n];
    }

    /**
     * Puts the robber on tile `h` and takes it off every other tile, so that
     * exactly one tile carries it afterwards.
     */
    method MoveRobber(h: nat)
      requires Valid() && h < |hexes|
      modifies this`hexes
      ensures Valid()
      ensures hexes == RobberMoved(old(hexes), h)
    {
      hexes := RobberMoved(hexes, h);
    }
  }
}
