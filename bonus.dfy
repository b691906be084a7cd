/**
 * The two bonus cards worth two victory points each: Longest Road and
 * Largest Army.  Each player carries a flag saying whether it holds the card;
 * the holder's victory points include the two bonus points.
 *
 * Two rules exist side by side in the system:
 *  - the interactive game decides Longest Road by the unique maximum: the
 *    card belongs to the one player whose road is strictly the longest and at
 *    least 5 long, and to nobody when no such player exists;
 *  - the AI-only game, and Largest Army in both games, use the strict-lead
 *    rule: after player `c` acts, `c` takes the card when its score reaches
 *    the threshold and beats every other player's; otherwise nothing changes,
 *    so a tie leaves the card where it is.
 *
 * The rules are specified on value sequences indexed by queue position
 * (`Award`), and the methods that update the player objects in place are
 * proved against them.
 */
module Bonus {
  import opened Resources
  import opened Players

  /** Minimum road length for Longest Road. */
  const RoadThreshold: nat := 5

  /** Minimum number of knights played for Largest Army. */
  const ArmyThreshold: nat := 3

  /** The bonus flags and victory points of the whole queue. */
  datatype Award = Award(flags: seq<bool>, vp: seq<int>)

  /** Victory points a bonus card is worth to the player holding it. */
  function BonusPoints(held: bool): int {
    if held then 2 else 0
  }

  /** No two players hold the card at once. */
  ghost predicate AtMostOne(flags: seq<bool>) {
    forall i, j :: 0 <= i < |flags| && 0 <= j < |flags| && flags[i] && flags[j] ==> i == j
  }

  /** Every player's points are its points without the card plus the card's points. */
  ghost predicate Counted(base: seq<int>, flags: seq<bool>, vp: seq<int>) {
    && |base| == |flags| == |vp|
    && forall i :: 0 <= i < |vp| ==> vp[i] == base[i] + BonusPoints(flags[i])
  }

  // ---------------------------------------------------------------------
  // Unique-maximum rule (interactive game, Longest Road)
  // ---------------------------------------------------------------------

  /** The greatest value of a non-empty sequence. */
  function MaxOf(s: seq<nat>): (m: nat)
    requires |s| > 0
    ensures forall k :: 0 <= k < |s| ==> s[k] <= m
    ensures exists k :: 0 <= k < |s| && s[k] == m
    decreases |s|
  {
    if |s| == 1 then s[0]
    else
      var m0 := MaxOf(s[..|s| - 1]);
      if s[|s| - 1] > m0 then s[|s| - 1] else m0
  }

  /** Queue positions, in order, whose length equals `m`, provided `m` reaches the threshold. */
  function Contenders(lens: seq<nat>, m: nat): (c: seq<nat>)
    ensures forall k :: 0 <= k < |c| ==> c[k] < |lens|
    decreases |lens|
  {
    if lens == [] then []
    else
      Contenders(lens[..|lens| - 1], m)
      + (if lens[|lens| - 1] == m && m >= RoadThreshold then [|lens| - 1] else [])
  }

  /** The first flagged position at or after `i`, if any. */
  function FirstFrom(flags: seq<bool>, i: nat): (h: Option<nat>)
    ensures h.Some? ==> i <= h.value < |flags| && flags[h.value]
    ensures h.Some? ==> forall j :: i <= j < h.value ==> !flags[j]
    ensures h.None? ==> forall j :: i <= j < |flags| ==> !flags[j]
    decreases |flags| - i
  {
    if i >= |flags| then None
    else if flags[i] then Some(i)
    else FirstFrom(flags, i + 1)
  }

  /** The points after the player at `holder`, if any, gives up the card. */
  function Strip(vp: seq<int>, holder: Option<nat>): seq<int> {
    match holder
    case None => vp
    case Some(h) => if h < |vp| then vp[h := vp[h] - 2] else vp
  }

  /** No flags at all. */
  function NoFlags(n: nat): (f: seq<bool>)
    ensures |f| == n && forall i :: 0 <= i < n ==> !f[i]
  {
    seq(n, _ => false)
  }

  /** Only position `w` flagged. */
  function OnlyFlag(n: nat, w: nat): (f: seq<bool>)
    ensures |f| == n && forall i :: 0 <= i < n ==> (f[i] <==> i == w)
  {
    seq(n, i => i == w)
  }

  /** The points after every holder gives up the card and `c` takes it. */
  function Transfer(vp: seq<int>, flags: seq<bool>, c: nat): (t: seq<int>)
    requires |flags| == |vp|
    ensures |t| == |vp|
    ensures forall i :: 0 <= i < |vp| ==> t[i] == vp[i] - BonusPoints(flags[i]) + (if i == c then 2 else 0)
  {
    seq(|vp|, i requires 0 <= i < |vp| => vp[i] - BonusPoints(flags[i]) + (if i == c then 2 else 0))
  }

  /** The flags after the player at `holder`, if any, gives up the card. */
  function Unflag(flags: seq<bool>, holder: Option<nat>): (f: seq<bool>)
    ensures |f| == |flags|
  {
    match holder
    case None => flags
    case Some(h) => if h < |flags| then flags[h := false] else flags
  }

  /** The points after `w` takes the card, gaining two points unless it `already` held it. */
  function Credit(vp: seq<int>, w: nat, already: bool): (v: seq<int>)
    ensures |v| == |vp|
  {
    if already || w >= |vp| then vp else vp[w := vp[w] + 2]
  }

  /** The flags with every position but `keep` cleared. */
  function KeepOnly(flags: seq<bool>, keep: Option<nat>): (f: seq<bool>)
    ensures |f| == |flags| && forall j :: 0 <= j < |flags| ==> f[j] == (flags[j] && keep == Some(j))
  {
    seq(|flags|, j requires 0 <= j < |flags| => flags[j] && keep == Some(j))
  }

  /**
   * Longest Road by the unique maximum.  The first flagged player is the
   * current holder.  Without a single contender the holder loses the card and
   * its two points and every flag is cleared.  With a single contender that
   * is already the holder nothing changes; otherwise the holder loses the card
   * and its points, every other flag is cleared, and the winner takes the
   * card, gaining two points unless it was already flagged.
   */
  function UniqueMaxAward(lens: seq<nat>, flags: seq<bool>, vp: seq<int>): (a: Award)
    requires 0 < |lens| && |flags| == |lens| && |vp| == |lens|
    ensures |a.flags| == |lens| && |a.vp| == |lens|
  {
    var contenders := Contenders(lens, MaxOf(lens));
    var holder := FirstFrom(flags, 0);
    if |contenders| != 1 then
      Award(NoFlags(|flags|), Strip(vp, holder))
    else
      var w := contenders[0];
      if holder == Some(w) then
        Award(flags, vp)
      else
        Award(OnlyFlag(|flags|, w), Credit(Strip(vp, holder), w, flags[w]))
  }

  /** Player `i`'s length reaches the threshold and beats every other player's. */
  ghost predicate UniqueTop(lens: seq<nat>, i: nat) {
    && i < |lens|
    && lens[i] >= RoadThreshold
    && forall j :: 0 <= j < |lens| && j != i ==> lens[j] < lens[i]
  }

  /** Membership in `Contenders`: exactly the positions holding `m`, when `m` reaches the threshold. */
  lemma {:induction false} ContendersMembers(lens: seq<nat>, m: nat)
    ensures forall k: nat :: k in Contenders(lens, m) <==> k < |lens| && lens[k] == m && m >= RoadThreshold
    decreases |lens|
  {
    if lens != [] {
      var init := lens[..|lens| - 1];
      ContendersMembers(init, m);
      forall k: nat
        ensures k in Contenders(lens, m) <==> k < |lens| && lens[k] == m && m >= RoadThreshold
      {
        if k < |init| {
          assert lens[k] == init[k];
        }
      }
    }
  }

  /** When only position `i` qualifies, the contender list is `[i]`; when none does, it is empty. */
  lemma {:induction false} ContendersSingle(lens: seq<nat>, m: nat, i: nat)
    requires forall k :: 0 <= k < |lens| && lens[k] == m && m >= RoadThreshold ==> k == i
    ensures i < |lens| && lens[i] == m && m >= RoadThreshold ==> Contenders(lens, m) == [i]
    ensures !(i < |lens| && lens[i] == m && m >= RoadThreshold) ==> Contenders(lens, m) == []
    decreases |lens|
  {
    if lens != [] {
      var init := lens[..|lens| - 1];
      forall k | 0 <= k < |init| && init[k] == m && m >= RoadThreshold
        ensures k == i
      {
        assert lens[k] == init[k];
      }
      ContendersSingle(init, m, i);
      if i < |init| {
        assert lens[i] == init[i];
      }
    }
  }

  /** The contender list is exactly `[i]` when `i` is the unique top, and only then. */
  lemma ContendersUnique(lens: seq<nat>, i: nat)
    requires |lens| > 0
    ensures UniqueTop(lens, i) <==> Contenders(lens, MaxOf(lens)) == [i]
  {
    var m := MaxOf(lens);
    var c := Contenders(lens, m);
    if UniqueTop(lens, i) {
      assert m == lens[i];
      ContendersSingle(lens, m, i);
    }
    if c == [i] {
      ContendersMembers(lens, m);
      OnlyContender(lens, m, c, i);
    }
  }

  /** A position that is the only contender for the maximum `m` is the unique top. */
  lemma OnlyContender(lens: seq<nat>, m: nat, c: seq<nat>, i: nat)
    requires forall k: nat :: k in c <==> k < |lens| && lens[k] == m && m >= RoadThreshold
    requires forall k :: 0 <= k < |lens| ==> lens[k] <= m
    requires c == [i]
    ensures UniqueTop(lens, i)
  {
    assert i in c;
    forall j | 0 <= j < |lens| && j != i
      ensures lens[j] < lens[i]
    {
      assert j !in c;
    }
  }

  /** The unique-maximum rule leaves at most one holder. */
  lemma UniqueMaxAtMostOne(lens: seq<nat>, flags: seq<bool>, vp: seq<int>)
    requires 0 < |lens| && |flags| == |lens| && |vp| == |lens|
    requires AtMostOne(flags)
    ensures AtMostOne(UniqueMaxAward(lens, flags, vp).flags)
  {
  }

  /**
   * Why the two lemmas above ask for at most one holder beforehand: when the
   * first flagged player is also the single winner, the rule returns before
   * it clears the other flags, so a second holder keeps the card.
   */
  lemma UniqueMaxKeepsSecondHolder()
    ensures UniqueMaxAward([5, 0], [true, true], [4, 2]).flags == [true, true]
  {
    assert MaxOf([5, 0]) == 5;
    assert [5, 0][..1] == [5];
    assert Contenders([5, 0], 5) == [0];
  }

  /**
   * After the unique-maximum rule, player `i` holds Longest Road exactly when
   * its road is at least 5 long and longer than every other player's.
   */
  lemma UniqueMaxHolder(lens: seq<nat>, flags: seq<bool>, vp: seq<int>, i: nat)
    requires 0 < |lens| && |flags| == |lens| && |vp| == |lens|
    requires AtMostOne(flags) && i < |lens|
    ensures UniqueMaxAward(lens, flags, vp).flags[i] <==> UniqueTop(lens, i)
  {
    var c := Contenders(lens, MaxOf(lens));
    ContendersUnique(lens, i);
    ContendersMembers(lens, MaxOf(lens));
    if |c| == 1 {
      var w := c[0];
      assert w in c;
      ContendersUnique(lens, w);
      if FirstFrom(flags, 0) == Some(w) {
        assert flags[w];
      }
    }
  }

  /** With at most one holder, the first flagged position is the only flagged one. */
  lemma HolderIsTheFlag(flags: seq<bool>)
    requires AtMostOne(flags)
    ensures forall i :: 0 <= i < |flags| ==> (flags[i] <==> FirstFrom(flags, 0) == Some(i))
  {
    var h := FirstFrom(flags, 0);
    forall i | 0 <= i < |flags| && flags[i]
      ensures h == Some(i)
    {
      assert h.Some?;
    }
  }

  /** Applying the unique-maximum rule a second time changes nothing. */
  lemma UniqueMaxIdempotent(lens: seq<nat>, flags: seq<bool>, vp: seq<int>)
    requires 0 < |lens| && |flags| == |lens| && |vp| == |lens|
    requires AtMostOne(flags)
    ensures var a := UniqueMaxAward(lens, flags, vp);
            UniqueMaxAward(lens, a.flags, a.vp) == a
  {
    var a := UniqueMaxAward(lens, flags, vp);
    var c := Contenders(lens, MaxOf(lens));
    if |c| != 1 {
      assert FirstFrom(a.flags, 0) == None;
    } else {
      var w := c[0];
      assert a.flags[w];
      assert FirstFrom(a.flags, 0) == Some(w) by {
        assert forall j :: 0 <= j < w ==> !a.flags[j];
      }
    }
  }

  /**
   * The unique-maximum rule keeps the points consistent with the flags: with
   * at most one holder before, every player ends with its points without the
   * card plus two if it holds the card.
   */
  lemma UniqueMaxKeepsCount(lens: seq<nat>, flags: seq<bool>, vp: seq<int>, base: seq<int>)
    requires 0 < |lens| && |flags| == |lens| && |vp| == |lens|
    requires AtMostOne(flags) && Counted(base, flags, vp)
    ensures var a := UniqueMaxAward(lens, flags, vp);
            Counted(base, a.flags, a.vp)
  {
    var a := UniqueMaxAward(lens, flags, vp);
    var c := Contenders(lens, MaxOf(lens));
    HolderIsTheFlag(flags);
    forall i | 0 <= i < |vp|
      ensures a.vp[i] == base[i] + BonusPoints(a.flags[i])
    {
    }
  }

  // ---------------------------------------------------------------------
  // Strict-lead rule (AI-only game Longest Road; Largest Army in both games)
  // ---------------------------------------------------------------------

  /** Player `c`'s score reaches `threshold` and beats every other player's. */
  predicate StrictLeader(scores: seq<nat>, c: nat, threshold: nat)
    requires c < |scores|
  {
    scores[c] >= threshold && forall j :: 0 <= j < |scores| && j != c ==> scores[j] < scores[c]
  }

  /**
   * The strict-lead rule after player `c` acts: when `c` leads and does not
   * hold the card yet, every holder loses the card and two points and `c`
   * takes it with two points; otherwise nothing changes.
   */
  function StrictLeadAward(scores: seq<nat>, flags: seq<bool>, vp: seq<int>, c: nat, threshold: nat): (a: Award)
    requires c < |scores| && |flags| == |scores| && |vp| == |scores|
    ensures |a.flags| == |scores| && |a.vp| == |scores|
  {
    if StrictLeader(scores, c, threshold) && !flags[c] then
      Award(OnlyFlag(|flags|, c), Transfer(vp, flags, c))
    else
      Award(flags, vp)
  }

  /** Without a strict lead, or when `c` already holds the card, nothing changes. */
  lemma StrictLeadNoChange(scores: seq<nat>, flags: seq<bool>, vp: seq<int>, c: nat, threshold: nat)
    requires c < |scores| && |flags| == |scores| && |vp| == |scores|
    requires !StrictLeader(scores, c, threshold) || flags[c]
    ensures StrictLeadAward(scores, flags, vp, c, threshold) == Award(flags, vp)
  {
  }

  /** A strict leader ends as the only holder, and the result satisfies the points invariant. */
  lemma StrictLeadGrants(scores: seq<nat>, flags: seq<bool>, vp: seq<int>, c: nat, threshold: nat, base: seq<int>)
    requires c < |scores| && |flags| == |scores| && |vp| == |scores|
    requires StrictLeader(scores, c, threshold)
    requires AtMostOne(flags) && Counted(base, flags, vp)
    ensures var a := StrictLeadAward(scores, flags, vp, c, threshold);
            && (forall i :: 0 <= i < |scores| ==> (a.flags[i] <==> i == c))
            && Counted(base, a.flags, a.vp)
  {
    var a := StrictLeadAward(scores, flags, vp, c, threshold);
    forall i | 0 <= i < |scores|
      ensures (a.flags[i] <==> i == c) && a.vp[i] == base[i] + BonusPoints(a.flags[i])
    {
      if !flags[c] {
        assert a.flags == OnlyFlag(|flags|, c);
        assert a.vp[i] == vp[i] - BonusPoints(flags[i]) + (if i == c then 2 else 0);
      }
    }
  }

  /** The strict-lead rule preserves "at most one holder" and the points invariant. */
  lemma StrictLeadKeepsCount(scores: seq<nat>, flags: seq<bool>, vp: seq<int>, c: nat, threshold: nat, base: seq<int>)
    requires c < |scores| && |flags| == |scores| && |vp| == |scores|
    requires AtMostOne(flags) && Counted(base, flags, vp)
    ensures var a := StrictLeadAward(scores, flags, vp, c, threshold);
            AtMostOne(a.flags) && Counted(base, a.flags, a.vp)
  {
    if StrictLeader(scores, c, threshold) && !flags[c] {
      StrictLeadGrants(scores, flags, vp, c, threshold, base);
    }
  }

  /** Applying the strict-lead rule a second time for the same player changes nothing. */
  lemma StrictLeadIdempotent(scores: seq<nat>, flags: seq<bool>, vp: seq<int>, c: nat, threshold: nat)
    requires c < |scores| && |flags| == |scores| && |vp| == |scores|
    ensures var a := StrictLeadAward(scores, flags, vp, c, threshold);
            StrictLeadAward(scores, a.flags, a.vp, c, threshold) == a
  {
  }

  /**
   * When the player who just acted is the strict leader for Longest Road and
   * at most one player held the card, the two rules agree.
   */
  lemma RulesAgreeOnLeader(lens: seq<nat>, flags: seq<bool>, vp: seq<int>, c: nat)
    requires c < |lens| && |flags| == |lens| && |vp| == |lens|
    requires AtMostOne(flags) && StrictLeader(lens, c, RoadThreshold)
    ensures UniqueMaxAward(lens, flags, vp) == StrictLeadAward(lens, flags, vp, c, RoadThreshold)
  {
    ContendersUnique(lens, c);
    assert Contenders(lens, MaxOf(lens)) == [c];
    var holder := FirstFrom(flags, 0);
    HolderIsTheFlag(flags);
    if holder != Some(c) {
      assert !flags[c];
      var u := Credit(Strip(vp, holder), c, false);
      var t := Transfer(vp, flags, c);
      forall i | 0 <= i < |vp|
        ensures u[i] == t[i]
      {
      }
      assert u == t;
      assert UniqueMaxAward(lens, flags, vp) == Award(OnlyFlag(|flags|, c), u);
    }
  }

  /** The contender list is strictly increasing, so its entries are distinct positions. */
  lemma {:induction false} ContendersIncreasing(lens: seq<nat>, m: nat)
    ensures forall a, b :: 0 <= a < b < |Contenders(lens, m)| ==> Contenders(lens, m)[a] < Contenders(lens, m)[b]
    decreases |lens|
  {
    if lens != [] {
      ContendersIncreasing(lens[..|lens| - 1], m);
    }
  }

  /**
   * On a tie at the top the rules part ways.  The unique-maximum rule takes
   * the card from its holder and clears every flag; the strict-lead rule,
   * asked for any player tied at the top, leaves everything as it was.  So
   * whenever somebody held the card, the two rules disagree.
   */
  lemma RulesDifferOnTie(lens: seq<nat>, flags: seq<bool>, vp: seq<int>, c: nat)
    requires c < |lens| && |flags| == |lens| && |vp| == |lens|
    requires |Contenders(lens, MaxOf(lens))| >= 2 && lens[c] == MaxOf(lens)
    ensures UniqueMaxAward(lens, flags, vp) == Award(NoFlags(|lens|), Strip(vp, FirstFrom(flags, 0)))
    ensures StrictLeadAward(lens, flags, vp, c, RoadThreshold) == Award(flags, vp)
    ensures (exists i :: 0 <= i < |flags| && flags[i]) ==>
      UniqueMaxAward(lens, flags, vp) != StrictLeadAward(lens, flags, vp, c, RoadThreshold)
  {
    var m := MaxOf(lens);
    var cs := Contenders(lens, m);
    ContendersMembers(lens, m);
    ContendersIncreasing(lens, m);
    assert cs[0] in cs && cs[1] in cs && cs[0] < cs[1];
    var j := if cs[0] != c then cs[0] else cs[1];
    assert j in cs && j != c && lens[j] == lens[c];
    assert !StrictLeader(lens, c, RoadThreshold);
    if i :| 0 <= i < |flags| && flags[i] {
      assert UniqueMaxAward(lens, flags, vp).flags[i] != flags[i];
    }
  }

  /** A concrete tie: lengths 5 and 5, the first player holding the card. */
  lemma RulesDifferOnTieExample()
    ensures UniqueMaxAward([5, 5], [true, false], [4, 2]) == Award([false, false], [2, 2])
    ensures StrictLeadAward([5, 5], [true, false], [4, 2], 1, RoadThreshold) == Award([true, false], [4, 2])
  {
    assert MaxOf([5, 5]) == 5;
    assert [5, 5][..1] == [5];
    assert Contenders([5, 5], 5) == [0, 1];
    RulesDifferOnTie([5, 5], [true, false], [4, 2], 1);
    assert FirstFrom([true, false], 0) == Some(0);
    assert NoFlags(2) == [false, false];
  }

  // ---------------------------------------------------------------------
  // The queue as seen by the rules
  // ---------------------------------------------------------------------

  /** Each player's longest road length, in queue order. */
  function RoadLengths(ps: seq<Player>): (s: seq<nat>)
    reads ps`maxRoadLength
    ensures |s| == |ps| && forall i :: 0 <= i < |ps| ==> s[i] == ps[i].maxRoadLength
  {
    RoadLengthsUpTo(ps, |ps|)
  }

  function RoadLengthsUpTo(ps: seq<Player>, k: nat): (s: seq<nat>)
    requires k <= |ps|
    reads ps`maxRoadLength
    ensures |s| == k && forall i :: 0 <= i < k ==> s[i] == ps[i].maxRoadLength
    decreases k
  {
    if k == 0 then [] else RoadLengthsUpTo(ps, k - 1) + [ps[k - 1].maxRoadLength]
  }

  /** Each player's number of knights played, in queue order. */
  function KnightCounts(ps: seq<Player>): (s: seq<nat>)
    reads ps`knightsPlayed
    ensures |s| == |ps| && forall i :: 0 <= i < |ps| ==> s[i] == ps[i].knightsPlayed
  {
    KnightCountsUpTo(ps, |ps|)
  }

  function KnightCountsUpTo(ps: seq<Player>, k: nat): (s: seq<nat>)
    requires k <= |ps|
    reads ps`knightsPlayed
    ensures |s| == k && forall i :: 0 <= i < k ==> s[i] == ps[i].knightsPlayed
    decreases k
  {
    if k == 0 then [] else KnightCountsUpTo(ps, k - 1) + [ps[k - 1].knightsPlayed]
  }

  /** Who holds Longest Road, in queue order. */
  function RoadFlags(ps: seq<Player>): (s: seq<bool>)
    reads ps`longestRoadFlag
    ensures |s| == |ps| && forall i :: 0 <= i < |ps| ==> s[i] == ps[i].longestRoadFlag
  {
    RoadFlagsUpTo(ps, |ps|)
  }

  function RoadFlagsUpTo(ps: seq<Player>, k: nat): (s: seq<bool>)
    requires k <= |ps|
    reads ps`longestRoadFlag
    ensures |s| == k && forall i :: 0 <= i < k ==> s[i] == ps[i].longestRoadFlag
    decreases k
  {
    if k == 0 then [] else RoadFlagsUpTo(ps, k - 1) + [ps[k - 1].longestRoadFlag]
  }

  /** Who holds Largest Army, in queue order. */
  function ArmyFlags(ps: seq<Player>): (s: seq<bool>)
    reads ps`largestArmyFlag
    ensures |s| == |ps| && forall i :: 0 <= i < |ps| ==> s[i] == ps[i].largestArmyFlag
  {
    ArmyFlagsUpTo(ps, |ps|)
  }

  function ArmyFlagsUpTo(ps: seq<Player>, k: nat): (s: seq<bool>)
    requires k <= |ps|
    reads ps`largestArmyFlag
    ensures |s| == k && forall i :: 0 <= i < k ==> s[i] == ps[i].largestArmyFlag
    decreases k
  {
    if k == 0 then [] else ArmyFlagsUpTo(ps, k - 1) + [ps[k - 1].largestArmyFlag]
  }

  /** Each player's victory points, in queue order. */
  function Points(ps: seq<Player>): (s: seq<int>)
    reads ps`victoryPoints
    ensures |s| == |ps| && forall i :: 0 <= i < |ps| ==> s[i] == ps[i].victoryPoints
  {
    PointsUpTo(ps, |ps|)
  }

  function PointsUpTo(ps: seq<Player>, k: nat): (s: seq<int>)
    requires k <= |ps|
    reads ps`victoryPoints
    ensures |s| == k && forall i :: 0 <= i < k ==> s[i] == ps[i].victoryPoints
    decreases k
  {
    if k == 0 then [] else PointsUpTo(ps, k - 1) + [ps[k - 1].victoryPoints]
  }

  /** The queue's flags and points are `flags` and `vp` when each player's are its entries. */
  lemma RoadStateIs(ps: seq<Player>, flags: seq<bool>, vp: seq<int>)
    requires |flags| == |ps| && |vp| == |ps|
    requires forall j :: 0 <= j < |ps| ==> ps[j].longestRoadFlag == flags[j] && ps[j].victoryPoints == vp[j]
    ensures RoadFlags(ps) == flags && Points(ps) == vp
  {
  }

  /** The queue's flags and points are `flags` and `vp` when each player's are its entries. */
  lemma ArmyStateIs(ps: seq<Player>, flags: seq<bool>, vp: seq<int>)
    requires |flags| == |ps| && |vp| == |ps|
    requires forall j :: 0 <= j < |ps| ==> ps[j].largestArmyFlag == flags[j] && ps[j].victoryPoints == vp[j]
    ensures ArmyFlags(ps) == flags && Points(ps) == vp
  {
  }

  /** The queue's Longest Road flags are `flags` when each player's is its entry. */
  lemma RoadFlagsAre(ps: seq<Player>, flags: seq<bool>)
    requires |flags| == |ps|
    requires forall j :: 0 <= j < |ps| ==> ps[j].longestRoadFlag == flags[j]
    ensures RoadFlags(ps) == flags
  {
  }

  // ---------------------------------------------------------------------
  // The checks, updating the player objects in place
  // ---------------------------------------------------------------------

  /** The first player flagged as holding Longest Road, if any. */
  method RoadHolder(ps: seq<Player>) returns (holder: Option<nat>)
    ensures holder == FirstFrom(RoadFlags(ps), 0)
  {
    ghost var flags := RoadFlags(ps);
    holder := None;
    var i := 0;
    while i < |ps| && holder.None?
      invariant 0 <= i <= |ps|
      invariant holder.None? ==> FirstFrom(flags, 0) == FirstFrom(flags, i)
      invariant holder.Some? ==> holder == FirstFrom(flags, 0)
    {
      if ps[i].longestRoadFlag {
        holder := Some(i);
      }
      i := i + 1;
    }
  }

  /** The current holder, if any, gives up Longest Road and its two points. */
  method GiveUpRoad(ps: seq<Player>, holder: Option<nat>)
    requires holder.Some? ==> holder.value < |ps|
    requires Distinct(ps)
    modifies ps`longestRoadFlag, ps`victoryPoints
    ensures RoadFlags(ps) == Unflag(old(RoadFlags(ps)), holder)
    ensures Points(ps) == Strip(old(Points(ps)), holder)
  {
    if holder.Some? {
      var h := holder.value;
      ghost var flags := RoadFlags(ps);
      ghost var vp := Points(ps);
      ps[h].longestRoadFlag := false;
      ps[h].victoryPoints := ps[h].victoryPoints - 2;
      forall j | 0 <= j < |ps| && j != h
        ensures ps[j].longestRoadFlag == flags[j] && ps[j].victoryPoints == vp[j]
      {
        assert ps[j] != ps[h];
      }
      assert RoadFlags(ps) == flags[h := false];
      assert Points(ps) == vp[h := vp[h] - 2];
    }
  }

  /** Clears the Longest Road flag of every player except the one at `keep`. */
  method ClearRoadFlagsExcept(ps: seq<Player>, keep: Option<nat>)
    requires Distinct(ps)
    modifies ps`longestRoadFlag
    ensures RoadFlags(ps) == KeepOnly(old(RoadFlags(ps)), keep)
    ensures Points(ps) == old(Points(ps))
  {
    ghost var flags := RoadFlags(ps);
    var i := 0;
    while i < |ps|
      invariant 0 <= i <= |ps|
      invariant forall j :: 0 <= j < i ==> ps[j].longestRoadFlag == (flags[j] && keep == Some(j))
      invariant forall j :: i <= j < |ps| ==> ps[j].longestRoadFlag == flags[j]
    {
      if keep != Some(i) {
        ps[i].longestRoadFlag := false;
      }
      i := i + 1;
    }
    assert RoadFlags(ps) == KeepOnly(flags, keep);
    assert Points(ps) == old(Points(ps));
  }

  /**
   * No single contender: the holder, if any, gives up the card and its
   * points, and every other flag is cleared.
   */
  method RemoveRoad(ps: seq<Player>, holder: Option<nat>)
    requires holder.Some? ==> holder.value < |ps|
    requires Distinct(ps)
    modifies ps`longestRoadFlag, ps`victoryPoints
    ensures RoadFlags(ps) == NoFlags(|ps|)
    ensures Points(ps) == Strip(old(Points(ps)), holder)
  {
    GiveUpRoad(ps, holder);
    ghost var unflagged := RoadFlags(ps);
    ghost var stripped := Points(ps);
    ClearRoadFlagsExcept(ps, holder);
    assert Points(ps) == stripped;
    assert RoadFlags(ps) == KeepOnly(unflagged, holder) == NoFlags(|ps|);
  }

  /**
   * A new single contender `w`: the holder, if any, gives up the card and its
   * points, every flag but `w`'s is cleared, and `w` takes the card, gaining
   * two points unless it was already flagged.
   */
  method HandOverRoad(ps: seq<Player>, holder: Option<nat>, w: nat)
    requires holder.Some? ==> holder.value < |ps|
    requires w < |ps| && holder != Some(w) && Distinct(ps)
    modifies ps`longestRoadFlag, ps`victoryPoints
    ensures RoadFlags(ps) == OnlyFlag(|ps|, w)
    ensures Points(ps) == Credit(Strip(old(Points(ps)), holder), w, old(ps[w].longestRoadFlag))
  {
    GiveUpRoad(ps, holder);
    ClearAndClaimRoad(ps, w);
  }

  /** Every flag but `w`'s is cleared and `w` takes the card, gaining two points unless already flagged. */
  method ClearAndClaimRoad(ps: seq<Player>, w: nat)
    requires w < |ps| && Distinct(ps)
    modifies ps`longestRoadFlag, ps`victoryPoints
    ensures RoadFlags(ps) == OnlyFlag(|ps|, w)
    ensures Points(ps) == Credit(old(Points(ps)), w, old(ps[w].longestRoadFlag))
  {
    ghost var held := ps[w].longestRoadFlag;
    ghost var vp := Points(ps);
    var i := 0;
    while i < |ps|
      invariant 0 <= i <= |ps|
      invariant forall j :: 0 <= j < i && j != w ==> !ps[j].longestRoadFlag
      invariant ps[w].longestRoadFlag == held
      invariant forall j :: 0 <= j < |ps| ==> ps[j].victoryPoints == vp[j]
    {
      if i != w {
        ps[i].longestRoadFlag := false;
      }
      i := i + 1;
    }
    if !ps[w].longestRoadFlag {
      ps[w].longestRoadFlag := true;
      ps[w].victoryPoints := ps[w].victoryPoints + 2;
      forall j | 0 <= j < |ps| && j != w
        ensures !ps[j].longestRoadFlag && ps[j].victoryPoints == vp[j]
      {
        assert ps[j] != ps[w];
      }
      assert Points(ps) == vp[w := vp[w] + 2];
    } else {
      assert Points(ps) == vp;
    }
    assert RoadFlags(ps) == OnlyFlag(|ps|, w);
  }

  /** Longest Road by the unique maximum, as the interactive game decides it. */
  method CheckLongestRoadUniqueMax(ps: seq<Player>)
    requires 0 < |ps| && Distinct(ps)
    modifies ps`longestRoadFlag, ps`victoryPoints
    ensures RoadFlags(ps) == UniqueMaxAward(old(RoadLengths(ps)), old(RoadFlags(ps)), old(Points(ps))).flags
    ensures Points(ps) == UniqueMaxAward(old(RoadLengths(ps)), old(RoadFlags(ps)), old(Points(ps))).vp
  {
    var lens := RoadLengths(ps);
    ghost var flags := RoadFlags(ps);
    ghost var vp := Points(ps);
    var maxLen := MaxOf(lens);
    var contenders := Contenders(lens, maxLen);
    var holder := RoadHolder(ps);
    assert holder == FirstFrom(flags, 0);
    ghost var a := UniqueMaxAward(lens, flags, vp);
    if |contenders| != 1 {
      assert a == Award(NoFlags(|ps|), Strip(vp, holder));
      RemoveRoad(ps, holder);
      assert RoadFlags(ps) == a.flags && Points(ps) == a.vp;
    } else {
      var w := contenders[0];
      if holder != Some(w) {
        assert a == Award(OnlyFlag(|ps|, w), Credit(Strip(vp, holder), w, flags[w]));
        assert ps[w].longestRoadFlag == flags[w];
        HandOverRoad(ps, holder, w);
        assert RoadFlags(ps) == a.flags && Points(ps) == a.vp;
      } else {
        assert a == Award(flags, vp);
        assert RoadFlags(ps) == a.flags && Points(ps) == a.vp;
      }
    }
  }

  /** Longest Road by the strict-lead rule after player `c` builds, as the AI-only game decides it. */
  method CheckLongestRoadStrictLead(ps: seq<Player>, c: nat)
    requires c < |ps| && Distinct(ps)
    modifies ps`longestRoadFlag, ps`victoryPoints
    ensures RoadFlags(ps) == StrictLeadAward(old(RoadLengths(ps)), old(RoadFlags(ps)), old(Points(ps)), c, RoadThreshold).flags
    ensures Points(ps) == StrictLeadAward(old(RoadLengths(ps)), old(RoadFlags(ps)), old(Points(ps)), c, RoadThreshold).vp
  {
    ghost var lens := RoadLengths(ps);
    if ps[c].maxRoadLength >= RoadThreshold {
      var lead := true;
      var i := 0;
      while i < |ps|
        invariant 0 <= i <= |ps|
        invariant lead <==> forall j :: 0 <= j < i && j != c ==> lens[j] < lens[c]
      {
        if ps[i].maxRoadLength >= ps[c].maxRoadLength && i != c {
          lead := false;
        }
        i := i + 1;
      }
      if lead && !ps[c].longestRoadFlag {
        TakeRoad(ps, c);
      }
    }
  }

  /** Every holder gives up Longest Road and its two points; then `c` takes it with two points. */
  method TakeRoad(ps: seq<Player>, c: nat)
    requires c < |ps| && Distinct(ps) && !ps[c].longestRoadFlag
    modifies ps`longestRoadFlag, ps`victoryPoints
    ensures RoadFlags(ps) == OnlyFlag(|ps|, c)
    ensures Points(ps) == Transfer(old(Points(ps)), old(RoadFlags(ps)), c)
  {
    ghost var flags := RoadFlags(ps);
    ghost var vp := Points(ps);
    var i := 0;
    while i < |ps|
      invariant 0 <= i <= |ps|
      invariant forall j :: 0 <= j < i ==> !ps[j].longestRoadFlag && ps[j].victoryPoints == vp[j] - BonusPoints(flags[j])
      invariant forall j :: i <= j < |ps| ==> ps[j].longestRoadFlag == flags[j] && ps[j].victoryPoints == vp[j]
    {
      if ps[i].longestRoadFlag {
        ps[i].longestRoadFlag := false;
        ps[i].victoryPoints := ps[i].victoryPoints - 2;
      }
      i := i + 1;
    }
    ps[c].longestRoadFlag := true;
    ps[c].victoryPoints := ps[c].victoryPoints + 2;
    forall j | 0 <= j < |ps|
      ensures ps[j].longestRoadFlag == (j == c)
      ensures ps[j].victoryPoints == Transfer(vp, flags, c)[j]
    {
      if j != c {
        assert ps[j] != ps[c];
      }
    }
    assert RoadFlags(ps) == OnlyFlag(|ps|, c);
    assert Points(ps) == Transfer(vp, flags, c);
  }

  /** Largest Army by the strict-lead rule after player `c` plays a knight (both games). */
  method CheckLargestArmy(ps: seq<Player>, c: nat)
    requires c < |ps| && Distinct(ps)
    modifies ps`largestArmyFlag, ps`victoryPoints
    ensures ArmyFlags(ps) == StrictLeadAward(old(KnightCounts(ps)), old(ArmyFlags(ps)), old(Points(ps)), c, ArmyThreshold).flags
    ensures Points(ps) == StrictLeadAward(old(KnightCounts(ps)), old(ArmyFlags(ps)), old(Points(ps)), c, ArmyThreshold).vp
  {
    ghost var knights := KnightCounts(ps);
    if ps[c].knightsPlayed >= ArmyThreshold {
      var lead := true;
      var i := 0;
      while i < |ps|
        invariant 0 <= i <= |ps|
        invariant lead <==> forall j :: 0 <= j < i && j != c ==> knights[j] < knights[c]
      {
        if ps[i].knightsPlayed >= ps[c].knightsPlayed && i != c {
          lead := false;
        }
        i := i + 1;
      }
      if lead && !ps[c].largestArmyFlag {
        TakeArmy(ps, c);
      }
    }
  }

  /** Every holder gives up Largest Army and its two points; then `c` takes it with two points. */
  method TakeArmy(ps: seq<Player>, c: nat)
    requires c < |ps| && Distinct(ps) && !ps[c].largestArmyFlag
    modifies ps`largestArmyFlag, ps`victoryPoints
    ensures ArmyFlags(ps) == OnlyFlag(|ps|, c)
    ensures Points(ps) == Transfer(old(Points(ps)), old(ArmyFlags(ps)), c)
  {
    ghost var flags := ArmyFlags(ps);
    ghost var vp := Points(ps);
    var i := 0;
    while i < |ps|
      invariant 0 <= i <= |ps|
      invariant forall j :: 0 <= j < i ==> !ps[j].largestArmyFlag && ps[j].victoryPoints == vp[j] - BonusPoints(flags[j])
      invariant forall j :: i <= j < |ps| ==> ps[j].largestArmyFlag == flags[j] && ps[j].victoryPoints == vp[j]
    {
      if ps[i].largestArmyFlag {
        ps[i].largestArmyFlag := false;
        ps[i].victoryPoints := ps[i].victoryPoints - 2;
      }
      i := i + 1;
    }
    ps[c].largestArmyFlag := true;
    ps[c].victoryPoints := ps[c].victoryPoints + 2;
    forall j | 0 <= j < |ps|
      ensures ps[j].largestArmyFlag == (j == c)
      ensures ps[j].victoryPoints == Transfer(vp, flags, c)[j]
    {
      if j != c {
        assert ps[j] != ps[c];
      }
    }
    assert ArmyFlags(ps) == OnlyFlag(|ps|, c);
    assert Points(ps) == Transfer(vp, flags, c);
  }
}
