/**
 * `AIGame.update_playerResources`, the AI-only game's handling of a dice
 * roll: any roll but 7 hands out production exactly as the interactive game
 * does; on a 7 nobody discards and the rolling player moves the robber by
 * the heuristic.
 */
module AIGame {
  import opened Resources
  import opened Board
  import opened Players
  import opened Distribution
  import opened HeuristicAI
  import opened DevCardPlay

  /**
   * `update_playerResources` of the AI-only game. The robber's candidate
   * tiles and the random pick among them when no victim is found are
   * parameters.
   */
  method UpdatePlayerResources(board: Board, ps: seq<Player>, current: nat, roll: int, spots: seq<nat>, pick: nat)
    returns (victim: Option<nat>)
    requires board.Valid() && Distinct(ps) && Holding(ps) && current < |ps|
    requires roll != 7 ==> ProductionReady(board.hexes, board.vertices, Views(ps))
    requires roll == 7 ==> RobberReady(board.hexes, board.vertices, |ps|, spots) && pick < |spots|
    modifies board`resourceBank, board`hexes, ps`resources
    ensures board.Valid()
    ensures roll != 7 ==>
      && board.hexes == old(board.hexes) && victim == None
      && board.resourceBank == BankAfter(old(board.resourceBank), board.hexes, board.vertices, old(Views(ps)), roll)
      && Views(ps) == PlayersAfter(old(board.resourceBank), board.hexes, board.vertices, old(Views(ps)), roll)
    ensures roll == 7 ==>
      && Holding(ps) && Hands(ps) == old(Hands(ps)) && board.resourceBank == old(board.resourceBank)
      && var c := ChooseRobbery(old(board.hexes), board.vertices, spots, pick, Stats(ps), current);
         board.hexes == RobberMoved(old(board.hexes), c.0) && victim == c.1
  {
    if roll != 7 {
      DistributeResources(board, ps, roll);
      victim := None;
    } else {
      victim := HeuristicMoveRobber(board, Stats(ps), current, spots, pick);
    }
  }
}
