/**
 * Shared vocabulary of the game: resource kinds, resource hands, development
 * card kinds, harbour (port) kinds and an Option type.
 *
 * A hand is a map from every resource kind to a card count.  The order in
 * which the AI player enumerates its hand (`AllResources`) is the key order of
 * the dictionary the AI player starts with; Python's `max` over a dictionary
 * returns the first maximal key in that order, so the order is part of the
 * behaviour being modelled.
 */
module Resources {

  datatype Option<T> = None | Some(value: T)

  datatype Resource = Ore | Brick | Wheat | Wood | Sheep

  /** Key order of an AI player's resource dictionary. */
  const AllResources: seq<Resource> := [Ore, Brick, Wheat, Wood, Sheep]

  /** A tile's terrain; only the desert produces nothing. */
  datatype Terrain = Produces(resource: Resource) | Desert

  datatype DevCard = Knight | VictoryPoint | Monopoly | RoadBuilder | YearOfPlenty

  /** Every development card kind, in a fixed order. */
  const AllDevCards: seq<DevCard> := [Knight, VictoryPoint, Monopoly, RoadBuilder, YearOfPlenty]

  /** A harbour a player owns: "3:1 PORT" or "2:1 <resource>". */
  datatype Port = Generic | Special(resource: Resource)

  /** An undirected edge between two vertex ids. */
  type Edge = (nat, nat)

  type Hand = map<Resource, nat>

  type DevHand = map<DevCard, nat>

  ghost predicate IsHand(h: Hand) {
    forall r: Resource :: r in h
  }

  ghost predicate IsDevHand(d: DevHand) {
    forall c: DevCard :: c in d
  }

  /** Every entry of a table of hands is a hand. */
  ghost predicate AllHands(t: seq<Hand>) {
    forall i :: 0 <= i < |t| ==> IsHand(t[i])
  }

  /** No element of `s` occurs twice. */
  predicate NoRepeats<T(==)>(s: seq<T>) {
    forall i, j :: 0 <= i < j < |s| ==> s[i] != s[j]
  }

  /** The empty hand. */
  const NoCards: Hand := map r: Resource | true :: 0

  /** Pointwise sum of two hands. */
  function AddHands(h: Hand, a: Hand): (s: Hand)
    requires IsHand(h) && IsHand(a)
    ensures IsHand(s)
    ensures forall r :: s[r] == h[r] + a[r]
  {
    map r | r in h :: h[r] + a[r]
  }

  /** Two hands with the same counts are the same hand. */
  lemma HandsEqual(a: Hand, b: Hand)
    requires IsHand(a) && IsHand(b)
    requires forall r :: a[r] == b[r]
    ensures a == b
  {
    assert a.Keys == b.Keys;
  }

  lemma AllResourcesListed(r: Resource)
    ensures r in AllResources
  {
  }

  lemma AllResourcesListedAll()
    ensures forall r: Resource :: r in AllResources
  {
    forall r: Resource
      ensures r in AllResources
    {
      AllResourcesListed(r);
    }
  }

  /**
   * Walking `AllResources` in order visits each kind once: the `t`-th kind
   * is not among the ones before it.
   */
  lemma AllResourcesStep(t: nat)
    requires t < |AllResources|
    ensures AllResources[t] !in AllResources[..t]
    ensures forall q :: q in AllResources[..t + 1] <==> q in AllResources[..t] || q == AllResources[t]
  {
    assert AllResources[..t + 1] == AllResources[..t] + [AllResources[t]];
    if t == 0 {
    } else if t == 1 {
      assert AllResources[..t] == [Ore];
    } else if t == 2 {
      assert AllResources[..t] == [Ore, Brick];
    } else if t == 3 {
      assert AllResources[..t] == [Ore, Brick, Wheat];
    } else {
      assert AllResources[..t] == [Ore, Brick, Wheat, Wood];
    }
  }

  /** The position of a kind in `AllResources`. */
  lemma ResourceIndex(r: Resource) returns (i: nat)
    ensures i < |AllResources| && AllResources[i] == r
  {
    i := match r
      case Ore => 0
      case Brick => 1
      case Wheat => 2
      case Wood => 3
      case Sheep => 4;
  }

  lemma AllDevCardsListed(c: DevCard)
    ensures c in AllDevCards
  {
  }

  function Min(a: nat, b: nat): nat {
    if a <= b then a else b
  }

  /** Sum of a sequence of counts. */
  function Sum(s: seq<nat>): nat
    decreases |s|
  {
    if s == [] then 0 else Sum(s[..|s| - 1]) + s[|s| - 1]
  }

  /** Number of resource cards in a hand (`sum(resources.values())`). */
  function Total(h: Hand): nat
    requires IsHand(h)
  {
    h[Ore] + h[Brick] + h[Wheat] + h[Wood] + h[Sheep]
  }

  /** The hand pays for a settlement: a brick, a wood, a sheep and a wheat. */
  predicate CanAffordSettlement(h: Hand)
    requires IsHand(h)
  {
    h[Brick] >= 1 && h[Wood] >= 1 && h[Sheep] >= 1 && h[Wheat] >= 1
  }

  /** The hand pays for a city: two wheat and three ore. */
  predicate CanAffordCity(h: Hand)
    requires IsHand(h)
  {
    h[Wheat] >= 2 && h[Ore] >= 3
  }

  /** The hand pays for a road: a brick and a wood. */
  predicate CanAffordRoad(h: Hand)
    requires IsHand(h)
  {
    h[Brick] >= 1 && h[Wood] >= 1
  }

  /** The hand pays for a development card: a wheat, an ore and a sheep. */
  predicate CanAffordDevCard(h: Hand)
    requires IsHand(h)
  {
    h[Wheat] >= 1 && h[Ore] >= 1 && h[Sheep] >= 1
  }

  /** Number of development cards of every kind in a dev-card hand. */
  function DevTotal(d: DevHand): nat
    requires IsDevHand(d)
  {
    d[Knight] + d[VictoryPoint] + d[Monopoly] + d[RoadBuilder] + d[YearOfPlenty]
  }
}
