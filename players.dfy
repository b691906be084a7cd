/**
 * The player record the rules core reads and updates in place, and a value
 * snapshot of it (`PlayerView`) in which the rules are specified.
 *
 * `maxRoadLength` is computed by the road-network search outside this model
 * and is taken here as a given number per player.  A player's visible
 * victory points are its victory points minus its victory-point cards, which
 * stay hidden from the other players.
 */
module Players {
  import opened Resources

  datatype PlayerView = PlayerView(
    resources: Hand,
    devCards: DevHand,
    newDevCards: seq<DevCard>,
    devCardPlayedThisTurn: bool,
    victoryPoints: int,
    knightsPlayed: nat,
    maxRoadLength: nat,
    longestRoadFlag: bool,
    largestArmyFlag: bool,
    settlements: seq<nat>,
    cities: seq<nat>,
    roads: seq<Edge>,
    settlementsLeft: nat,
    citiesLeft: nat,
    roadsLeft: nat,
    ports: seq<Port>,
    isAI: bool,
    setupResources: seq<Resource>)

  ghost predicate ViewValid(v: PlayerView) {
    IsHand(v.resources) && IsDevHand(v.devCards)
  }

  /** Victory points the other players see: the hidden victory-point cards do not count. */
  function VisiblePoints(victoryPoints: int, devCards: DevHand): int
    requires IsDevHand(devCards)
  {
    victoryPoints - devCards[VictoryPoint]
  }

  function VisibleVictoryPoints(v: PlayerView): int
    requires IsDevHand(v.devCards)
  {
    VisiblePoints(v.victoryPoints, v.devCards)
  }

  class Player {
    var resources: Hand
    var devCards: DevHand
    var newDevCards: seq<DevCard>
    var devCardPlayedThisTurn: bool
    var victoryPoints: int
    var knightsPlayed: nat
    var maxRoadLength: nat
    var longestRoadFlag: bool
    var largestArmyFlag: bool
    var settlements: seq<nat>
    var cities: seq<nat>
    var roads: seq<Edge>
    var settlementsLeft: nat
    var citiesLeft: nat
    var roadsLeft: nat
    var ports: seq<Port>
    var isAI: bool
    var setupResources: seq<Resource>

    function View(): PlayerView
      reads this
    {
      PlayerView(resources, devCards, newDevCards, devCardPlayedThisTurn, victoryPoints,
                 knightsPlayed, maxRoadLength, longestRoadFlag, largestArmyFlag,
                 settlements, cities, roads, settlementsLeft, citiesLeft, roadsLeft,
                 ports, isAI, setupResources)
    }
  }

  /** Snapshot of the whole player queue. */
  function Views(ps: seq<Player>): (vs: seq<PlayerView>)
    reads ps
    ensures |vs| == |ps|
    ensures forall i :: 0 <= i < |ps| ==> vs[i] == ps[i].View()
  {
    seq(|ps|, i reads ps requires 0 <= i < |ps| => ps[i].View())
  }

  /** The queue holds each player object once. */
  ghost predicate Distinct(ps: seq<Player>) {
    forall i, j :: 0 <= i < j < |ps| ==> ps[i] != ps[j]
  }

  /** Every queued player's resource and development-card dictionaries have every key. */
  ghost predicate Holding(ps: seq<Player>)
    reads ps`resources, ps`devCards
  {
    forall i :: 0 <= i < |ps| ==> IsHand(ps[i].resources) && IsDevHand(ps[i].devCards)
  }

  ghost predicate QueueValid(vs: seq<PlayerView>) {
    forall i :: 0 <= i < |vs| ==> ViewValid(vs[i])
  }
}
