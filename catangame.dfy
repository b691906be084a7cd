/**
 * `catanGame.update_playerResources`, the interactive game's handling of a
 * dice roll: any roll but 7 hands out production from the bank; a 7 makes
 * every AI player with more than seven cards discard half of them, and if
 * the rolling player is an AI it moves the robber by the heuristic.
 */
module CatanGame {
  import opened Resources
  import opened Board
  import opened Players
  import opened Distribution
  import opened HeuristicAI
  import opened DevCardPlay

  /** Which queued players are AI players. */
  function AIFlags(ps: seq<Player>): (ai: seq<bool>)
    reads ps`isAI
    ensures |ai| == |ps| && forall i :: 0 <= i < |ps| ==> ai[i] == ps[i].isAI
    decreases |ps|
  {
    if ps == [] then [] else AIFlags(ps[..|ps| - 1]) + [ps[|ps| - 1].isAI]
  }

  /** The hands after the AI players among the first `k` have discarded. */
  function Discards(hs: seq<Hand>, ai: seq<bool>, k: nat): (ds: seq<Hand>)
    requires AllHands(hs) && |ai| == |hs| && k <= |hs|
    ensures |ds| == |hs| && AllHands(ds)
    decreases k
  {
    if k == 0 then hs
    else
      var d := Discards(hs, ai, k - 1);
      if ai[k - 1] then d[k - 1 := Discarded(hs[k - 1])] else d
  }

  /** Exactly the AI players among the first `k` have discarded; every other hand is as it was. */
  lemma {:induction false} DiscardsAt(hs: seq<Hand>, ai: seq<bool>, k: nat, j: nat)
    requires AllHands(hs) && |ai| == |hs| && k <= |hs| && j < |hs|
    ensures Discards(hs, ai, k)[j] == if j < k && ai[j] then Discarded(hs[j]) else hs[j]
  {
    if k > 0 {
      DiscardsAt(hs, ai, k - 1, j);
    }
  }

  /** The cards of each kind held by the queue and the bank together. */
  function Stock(hs: seq<Hand>, bank: Hand): (s: Hand)
    requires AllHands(hs) && IsHand(bank)
    ensures IsHand(s) && forall r :: s[r] == HeldByAll(hs, r) + bank[r]
  {
    map r | r in bank :: HeldByAll(hs, r) + bank[r]
  }

  /** Replacing one hand changes the queue's holding by that hand's difference. */
  lemma {:induction false} HeldByAllUpdate(hs: seq<Hand>, i: nat, h: Hand, r: Resource)
    requires AllHands(hs) && i < |hs| && IsHand(h)
    ensures HeldByAll(hs[i := h], r) + hs[i][r] == HeldByAll(hs, r) + h[r]
  {
    var n := |hs| - 1;
    if i < n {
      assert hs[i := h][..n] == hs[..n][i := h];
      HeldByAllUpdate(hs[..n], i, h, r);
    } else {
      assert hs[i := h][..n] == hs[..n];
    }
  }

  /** Cards moved between one hand and the bank leave the queue's and the bank's total as it was. */
  lemma MoveConserves(hs: seq<Hand>, i: nat, h: Hand, bank0: Hand, bank: Hand)
    requires AllHands(hs) && i < |hs| && IsHand(h) && IsHand(bank0) && IsHand(bank)
    requires forall r :: h[r] + bank[r] == hs[i][r] + bank0[r]
    ensures Stock(hs[i := h], bank) == Stock(hs, bank0)
  {
    forall r ensures HeldByAll(hs[i := h], r) + bank[r] == HeldByAll(hs, r) + bank0[r] {
      HeldByAllUpdate(hs, i, h, r);
    }
  }

  /** No AI player ends above seven cards unless it had more than seven and kept the larger half. */
  lemma DiscardsBounded(hs: seq<Hand>, ai: seq<bool>, j: nat)
    requires AllHands(hs) && |ai| == |hs| && j < |hs|
    ensures var d := Discards(hs, ai, |hs|)[j];
      && (forall r :: d[r] <= hs[j][r])
      && (!ai[j] ==> d == hs[j])
      && (ai[j] && Total(hs[j]) > MaxCards ==> Total(d) == Total(hs[j]) - Total(hs[j]) / 2)
  {
    DiscardsAt(hs, ai, |hs|, j);
    DiscardedTotal(hs[j]);
  }

  /** The bank after the cards a player holding `h` discards have gone back to it. */
  function Returned(bank: Hand, h: Hand): (b: Hand)
    requires IsHand(bank) && IsHand(h)
    ensures IsHand(b) && forall r :: b[r] + Discarded(h)[r] == bank[r] + h[r]
  {
    DiscardedTotal(h);
    map r | r in bank :: bank[r] + h[r] - Discarded(h)[r]
  }

  /** A bank that gained exactly what a discard from `h` gave up is the returned bank. */
  lemma ReturnedExact(bank0: Hand, h: Hand, bank: Hand)
    requires IsHand(bank0) && IsHand(h) && IsHand(bank)
    requires forall r :: Discarded(h)[r] + bank[r] == h[r] + bank0[r]
    ensures bank == Returned(bank0, h)
  {
  }

  /** One discard, its cards returned to the bank, leaves the queue's and the bank's total as it was. */
  lemma ReturnConserves(hs: seq<Hand>, i: nat, h: Hand, bank: Hand)
    requires AllHands(hs) && i < |hs| && hs[i] == h && IsHand(bank)
    ensures Stock(hs[i := Discarded(h)], Returned(bank, h)) == Stock(hs, bank)
  {
    MoveConserves(hs, i, Discarded(h), bank, Returned(bank, h));
  }

  /** The bank after the AI players among the first `k` have discarded into it. */
  function DiscardBank(hs: seq<Hand>, bank: Hand, ai: seq<bool>, k: nat): (b: Hand)
    requires AllHands(hs) && |ai| == |hs| && IsHand(bank) && k <= |hs|
    ensures IsHand(b)
    decreases k
  {
    if k == 0 then bank
    else
      var b := DiscardBank(hs, bank, ai, k - 1);
      if ai[k - 1] then Returned(b, hs[k - 1]) else b
  }

  /** Discarding creates and destroys no card: the queue and the bank together hold what they held. */
  lemma {:induction false} DiscardsConserve(hs: seq<Hand>, bank: Hand, ai: seq<bool>, k: nat)
    requires AllHands(hs) && |ai| == |hs| && IsHand(bank) && k <= |hs|
    ensures Stock(Discards(hs, ai, k), DiscardBank(hs, bank, ai, k)) == Stock(hs, bank)
  {
    if k > 0 {
      var d := Discards(hs, ai, k - 1);
      var b := DiscardBank(hs, bank, ai, k - 1);
      DiscardsConserve(hs, bank, ai, k - 1);
      if ai[k - 1] {
        DiscardsAt(hs, ai, k - 1, k - 1);
        ReturnConserves(d, k - 1, hs[k - 1], b);
      }
    }
  }

  /**
   * The queue's hands `hs` and the bank `bank` are those after every AI
   * player of `hs0` discarded into `bank0`.
   */
  ghost predicate AfterDiscards(hs0: seq<Hand>, bank0: Hand, ai: seq<bool>, hs: seq<Hand>, bank: Hand)
    requires AllHands(hs0) && |ai| == |hs0| && IsHand(bank0)
  {
    && hs == Discards(hs0, ai, |hs0|)
    && bank == DiscardBank(hs0, bank0, ai, |hs0|)
  }

  /** Player `i` discards by the heuristic; the cards go back to the bank. */
  method DiscardFor(board: Board, ps: seq<Player>, i: nat)
    requires board.Valid() && i < |ps| && Distinct(ps) && Holding(ps)
    modifies board`resourceBank, {ps[i]}`resources
    ensures board.Valid() && Holding(ps)
    ensures Hands(ps) == old(Hands(ps))[i := Discarded(old(ps[i].resources))]
    ensures board.resourceBank == Returned(old(board.resourceBank), old(ps[i].resources))
  {
    ghost var hs := Hands(ps);
    ghost var bank := board.resourceBank;
    HeuristicDiscard(ps[i], board);
    assert Hands(ps) == hs[i := ps[i].resources];
    ReturnedExact(bank, hs[i], board.resourceBank);
  }

  /** Player `i` discards if it is an AI player, after the AI players before it have. */
  method DiscardNext(board: Board, ps: seq<Player>, i: nat, ghost hs: seq<Hand>, ghost bank: Hand, ghost ai: seq<bool>)
    requires board.Valid() && i < |ps| && Distinct(ps) && Holding(ps)
    requires AllHands(hs) && IsHand(bank) && |hs| == |ps| && |ai| == |ps| && ai[i] == ps[i].isAI
    requires Hands(ps) == Discards(hs, ai, i) && board.resourceBank == DiscardBank(hs, bank, ai, i)
    modifies board`resourceBank, ps`resources
    ensures board.Valid() && Holding(ps)
    ensures Hands(ps) == Discards(hs, ai, i + 1) && board.resourceBank == DiscardBank(hs, bank, ai, i + 1)
  {
    DiscardsAt(hs, ai, i, i);
    if ps[i].isAI {
      DiscardFor(board, ps, i);
    }
  }

  /** Every AI player in the queue discards; human players keep their cards. */
  method DiscardAll(board: Board, ps: seq<Player>)
    requires board.Valid() && Distinct(ps) && Holding(ps)
    modifies board`resourceBank, ps`resources
    ensures board.Valid() && Holding(ps)
    ensures AfterDiscards(old(Hands(ps)), old(board.resourceBank), AIFlags(ps), Hands(ps), board.resourceBank)
  {
    ghost var hs := Hands(ps);
    ghost var bank := board.resourceBank;
    ghost var ai := AIFlags(ps);
    var i := 0;
    while i < |ps|
      invariant 0 <= i <= |ps|
      invariant board.Valid() && Holding(ps)
      invariant Hands(ps) == Discards(hs, ai, i)
      invariant board.resourceBank == DiscardBank(hs, bank, ai, i)
    {
      DiscardNext(board, ps, i, hs, bank, ai);
      i := i + 1;
    }
  }

  /** A roll of 7: the AI players discard, then an AI roller moves the robber. */
  method RollSeven(board: Board, ps: seq<Player>, current: nat, spots: seq<nat>, pick: nat)
    returns (victim: Option<nat>)
    requires board.Valid() && Distinct(ps) && Holding(ps) && current < |ps|
    requires RobberReady(board.hexes, board.vertices, |ps|, spots) && pick < |spots|
    modifies board`resourceBank, board`hexes, ps`resources
    ensures board.Valid() && Holding(ps)
    ensures AfterDiscards(old(Hands(ps)), old(board.resourceBank), AIFlags(ps), Hands(ps), board.resourceBank)
    ensures ps[current].isAI ==>
      var c := ChooseRobbery(old(board.hexes), board.vertices, spots, pick, Stats(ps), current);
      board.hexes == RobberMoved(old(board.hexes), c.0) && victim == c.1
    ensures !ps[current].isAI ==> board.hexes == old(board.hexes) && victim == None
  {
    DiscardAll(board, ps);
    victim := RobberTurn(board, ps, current, spots, pick);
  }

  /** The robber half of a 7: only an AI roller moves the robber here. */
  method RobberTurn(board: Board, ps: seq<Player>, current: nat, spots: seq<nat>, pick: nat)
    returns (victim: Option<nat>)
    requires board.Valid() && Holding(ps) && current < |ps|
    requires RobberReady(board.hexes, board.vertices, |ps|, spots) && pick < |spots|
    modifies board`hexes
    ensures board.Valid() && Holding(ps) && Hands(ps) == old(Hands(ps))
    ensures ps[current].isAI ==>
      var c := ChooseRobbery(old(board.hexes), board.vertices, spots, pick, Stats(ps), current);
      board.hexes == RobberMoved(old(board.hexes), c.0) && victim == c.1
    ensures !ps[current].isAI ==> board.hexes == old(board.hexes) && victim == None
  {
    if ps[current].isAI {
      victim := HeuristicMoveRobber(board, Stats(ps), current, spots, pick);
    } else {
      victim := None;
    }
  }

  /**
   * `update_playerResources`: production for any roll but 7, the discard
   * and robber turn for a 7. The robber's candidate tiles and the random
   * pick among them when no victim is found are parameters.
   */
  method UpdatePlayerResources(board: Board, ps: seq<Player>, current: nat, roll: int, spots: seq<nat>, pick: nat)
    returns (victim: Option<nat>)
    requires board.Valid() && Distinct(ps) && Holding(ps) && current < |ps|
    requires roll != 7 ==> ProductionReady(board.hexes, board.vertices, Views(ps))
    requires roll == 7 ==> RobberReady(board.hexes, board.vertices, |ps|, spots) && pick < |spots|
    modifies board`resourceBank, board`hexes, ps`resources
    ensures board.Valid()
    ensures roll != 7 ==>
      && board.hexes == old(board.hexes) && victim == None
      && board.resourceBank == BankAfter(old(board.resourceBank), board.hexes, board.vertices, old(Views(ps)), roll)
      && Views(ps) == PlayersAfter(old(board.resourceBank), board.hexes, board.vertices, old(Views(ps)), roll)
    ensures roll == 7 ==>
      && Holding(ps)
      && AfterDiscards(old(Hands(ps)), old(board.resourceBank), AIFlags(ps), Hands(ps), board.resourceBank)
    ensures roll == 7 && ps[current].isAI ==>
      var c := ChooseRobbery(old(board.hexes), board.vertices, spots, pick, Stats(ps), current);
      board.hexes == RobberMoved(old(board.hexes), c.0) && victim == c.1
    ensures roll == 7 && !ps[current].isAI ==> board.hexes == old(board.hexes) && victim == None
  {
    if roll != 7 {
      DistributeResources(board, ps, roll);
      victim := None;
    } else {
      victim := RollSeven(board, ps, current, spots, pick);
    }
  }
}
