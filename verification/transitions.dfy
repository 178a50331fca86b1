/** Pure state transitions (api/hearts/game/transitions.py): passing, playing a
    card, round scoring and dealing the next round. Each takes a state and
    inputs and returns a new state or the error the source raises. */
module Transitions {
  import opened Wrappers
  import opened Seqs
  import opened Cards
  import opened Rules
  import opened GameStates

  // ---------------------------------------------------------------------------
  // Passing
  // ---------------------------------------------------------------------------

  /** `[c for c in hand if c not in passed]`: every copy of a passed card leaves. */
  function Without(hand: seq<Card>, passed: seq<Card>): (r: seq<Card>)
    ensures forall y :: multiset(r)[y] == if y in passed then 0 else multiset(hand)[y]
    ensures forall y :: y in r <==> y in hand && y !in passed
    ensures Subseq(r, hand)
  {
    if |hand| == 0 then []
    else
      var rest := Without(hand[1..], passed);
      assert hand == [hand[0]] + hand[1..];
      if hand[0] in passed then rest else [hand[0]] + rest
  }

  /** The seat a player's pass goes to: left is the next seat, right the previous
      one, across the opposite one. */
  function PassTarget(d: PassDirection, i: Seat): Seat
    requires d != NoPass
  {
    match d
    case Left => (i + 1) % 4
    case Right => (i + 3) % 4
    case Across => (i + 2) % 4
  }

  /** `recv_from`: the seat whose pass seat `i` receives; it inverts `PassTarget`. */
  function RecvFrom(d: PassDirection, i: Seat): (j: Seat)
    requires d != NoPass
    ensures PassTarget(d, j) == i
  {
    match d
    case Left => (i + 3) % 4
    case Right => (i + 1) % 4
    case Across => (i + 2) % 4
  }

  lemma PassTargetInverse(d: PassDirection, i: Seat)
    requires d != NoPass
    ensures RecvFrom(d, PassTarget(d, i)) == i
    ensures PassTarget(d, i) != i
    ensures d == Across ==> PassTarget(d, i) == RecvFrom(d, i)
  {
  }

  /** The hands after a pass in direction `d`: seat `i` keeps what it did not
      pass and receives the pass of `RecvFrom(d, i)`. */
  function Redistribute(hands: Hands, passes: seq<seq<Card>>, d: PassDirection): (nh: Hands)
    requires |passes| == 4 && d != NoPass
  {
    seq(4, i requires 0 <= i < 4 => Without(hands[i], passes[i]) + passes[RecvFrom(d, i)])
  }

  /** `_apply_pass_direction`: every seat's hand minus its pass must leave ten
      cards; then the passes are redistributed. No pass keeps the hands. */
  function ApplyPassDirection(hands: Hands, passes: seq<seq<Card>>, d: PassDirection): (r: Result<Hands>)
    requires |passes| == 4
    ensures d == NoPass ==> r == Ok(hands)
    ensures d != NoPass ==>
      (r.Err? <==> exists i | 0 <= i < 4 :: |Without(hands[i], passes[i])| != 10)
    ensures r.Err? ==> r.error == PassNotThree
    ensures r.Ok? && d != NoPass ==>
      && r.value == Redistribute(hands, passes, d)
      && forall i: Seat :: |r.value[i]| == 10 + |passes[RecvFrom(d, i)]|
  {
    if d == NoPass then Ok(hands)
    else if exists i | 0 <= i < 4 :: |Without(hands[i], passes[i])| != 10 then Err(PassNotThree)
    else Ok(Redistribute(hands, passes, d))
  }

  /** After a pass a seat holds exactly what it kept plus what it received. */
  lemma RedistributeMembers(hands: Hands, passes: seq<seq<Card>>, d: PassDirection, i: Seat, c: Card)
    requires |passes| == 4 && d != NoPass
    ensures c in Redistribute(hands, passes, d)[i] <==>
      (c in hands[i] && c !in passes[i]) || c in passes[RecvFrom(d, i)]
  {
    assert c in Without(hands[i], passes[i]) <==> multiset(Without(hands[i], passes[i]))[c] > 0;
  }

  /** Sender's view: every card seat `i` passes lands with `PassTarget(d, i)`
      (left: the next seat, right: the previous one, across: the opposite one). */
  lemma PassesArrive(hands: Hands, passes: seq<seq<Card>>, d: PassDirection, i: Seat, c: Card)
    requires |passes| == 4 && d != NoPass
    requires c in passes[i]
    ensures c in Redistribute(hands, passes, d)[PassTarget(d, i)]
  {
    PassTargetInverse(d, i);
    RedistributeMembers(hands, passes, d, PassTarget(d, i), c);
  }

  /** Taking away a valid pass and adding it back gives the hand back. */
  lemma WithoutPass(hand: seq<Card>, three: seq<Card>)
    requires NoDup(hand) && IsValidPass(hand, three)
    ensures multiset(Without(hand, three)) + multiset(three) == multiset(hand)
    ensures |Without(hand, three)| == |hand| - 3
  {
    forall y
      ensures (multiset(Without(hand, three)) + multiset(three))[y] == multiset(hand)[y]
    {
      if y in three {
        NoDupCount(three, y);
        NoDupCount(hand, y);
      } else {
        assert multiset(three)[y] == 0;
      }
    }
    assert multiset(Without(hand, three)) + multiset(three) == multiset(hand);
    assert |multiset(Without(hand, three))| + |multiset(three)| == |multiset(hand)|;
  }

  /** `apply_passes`: only in the passing phase, with four passes of three cards;
      afterwards play starts with the holder of 2♣ to lead and hearts unbroken. */
  function ApplyPasses(s: GameState, passes: seq<seq<Card>>): (r: Result<GameState>)
    ensures r == Err(WrongPhase) <==> s.phase != Passing
    ensures r == Err(BadPassShape) <==>
      s.phase == Passing && (|passes| != 4 || exists i | 0 <= i < |passes| :: |passes[i]| != 3)
    ensures r.Ok? ==>
      && |passes| == 4
      && ApplyPassDirection(s.hands, passes, s.passDirection) == Ok(r.value.hands)
      && r.value == s.(phase := Playing, hands := r.value.hands, currentTrick := [],
                       whoseTurn := r.value.whoseTurn, heartsBroken := false)
      && TwoOfClubs() in r.value.hands[r.value.whoseTurn]
      && forall j | 0 <= j < r.value.whoseTurn :: TwoOfClubs() !in r.value.hands[j]
    ensures r.Err? ==> r.error in {WrongPhase, BadPassShape, PassNotThree, NoTwoOfClubs}
    ensures r == Err(PassNotThree) ==>
      |passes| == 4 && ApplyPassDirection(s.hands, passes, s.passDirection).Err?
    ensures r.Err? && r.error == NoTwoOfClubs ==>
      && |passes| == 4
      && ApplyPassDirection(s.hands, passes, s.passDirection).Ok?
      && forall j | 0 <= j < 4 :: TwoOfClubs() !in ApplyPassDirection(s.hands, passes, s.passDirection).value[j]
  {
    if s.phase != Passing then Err(WrongPhase)
    else if |passes| != 4 || exists i | 0 <= i < |passes| :: |passes[i]| != 3 then Err(BadPassShape)
    else
      var nh :- ApplyPassDirection(s.hands, passes, s.passDirection);
      match FirstHolder(nh, TwoOfClubs())
      case None => Err(NoTwoOfClubs)
      case Some(leader) =>
        Ok(s.(phase := Playing, hands := nh, currentTrick := [], whoseTurn := leader, heartsBroken := false))
  }

  // ---------------------------------------------------------------------------
  // Playing a card
  // ---------------------------------------------------------------------------

  /** `_is_first_trick_of_round`: fewer than four cards have left the hands, counted
      as thirteen minus each hand's size. */
  predicate IsFirstTrickOfRound(s: GameState) {
    (13 - |s.hands[0]|) + (13 - |s.hands[1]|) + (13 - |s.hands[2]|) + (13 - |s.hands[3]|) < 4
  }

  /** `_is_first_lead`: the very first lead of the round, by the 2♣ holder. */
  predicate IsFirstLead(s: GameState, hand: seq<Card>) {
    |s.currentTrick| == 0 && IsFirstTrickOfRound(s) && TwoOfClubs() in hand
  }

  /** On the round's first lead the 2♣ holder may play nothing but 2♣. */
  lemma FirstLeadForcesTwoOfClubs(s: GameState)
    requires IsFirstLead(s, s.hands[s.whoseTurn])
    ensures LegalNow(s) == [TwoOfClubs()]
  {
  }

  /** Any other lead may be any card of the hand. */
  lemma OtherLeadIsFree(s: GameState)
    requires |s.currentTrick| == 0 && !IsFirstLead(s, s.hands[s.whoseTurn])
    ensures LegalNow(s) == s.hands[s.whoseTurn]
  {
  }

  /** Once a whole trick's worth of cards has left the hands, the first trick
      is over; while all hands are full it has not begun. */
  lemma FirstTrickByCardsPlayed(s: GameState)
    ensures (forall i: Seat :: |s.hands[i]| == 13) ==> IsFirstTrickOfRound(s)
    ensures |s.hands[0]| + |s.hands[1]| + |s.hands[2]| + |s.hands[3]| <= 48 ==> !IsFirstTrickOfRound(s)
  {
  }

  /** A deal with no passing hands the lead to the 2♣ holder on the round's
      first lead, so 2♣ is the only legal card. */
  lemma DealtNoPassOpensWithTwoOfClubs(hands: seq<seq<Card>>, round: int, previousScores: Option<seq<int>>)
    requires InitialStateAfterDeal(hands, round, previousScores).Ok? && round % 4 == 0
    ensures var s := InitialStateAfterDeal(hands, round, previousScores).value;
      IsFirstLead(s, s.hands[s.whoseTurn]) && LegalNow(s) == [TwoOfClubs()]
  {
    var s := InitialStateAfterDeal(hands, round, previousScores).value;
    assert forall i: Seat :: |s.hands[i]| == 13;
    FirstTrickByCardsPlayed(s);
    FirstLeadForcesTwoOfClubs(s);
  }

  predicate BreaksHearts(c: Card) {
    c.suit == Hearts || c == QueenOfSpades
  }

  /** The legal plays of the seat to act in `s`, as `apply_play` computes them. */
  function LegalNow(s: GameState): seq<Card> {
    var hand := s.hands[s.whoseTurn];
    LegalPlays(hand, s.currentTrick, s.heartsBroken, IsFirstLead(s, hand))
  }

  /** The trick once the seat to act adds `card`. */
  function Extended(s: GameState, card: Card): Trick {
    s.currentTrick + [Play(s.whoseTurn, card)]
  }

  /** A non-empty trick always has a winner: its first card is of the lead suit. */
  function CompletedTrickWinner(t: Trick): (w: Seat)
    requires |t| > 0
    ensures TrickWinner(t, t[0].card.suit) == Ok(w)
  {
    var r := TrickWinner(t, t[0].card.suit);
    assert r.Ok?;
    r.value
  }

  /** The hands once `seat` has played `card`: every copy of it leaves. */
  function HandsAfter(hands: Hands, seat: Seat, card: Card): Hands {
    hands[seat := RemoveAll(hands[seat], card)]
  }

  /** The state after the seat to act plays `card` into a trick that stays
      incomplete: the turn passes to the next seat. */
  function Continued(s: GameState, card: Card): (r: GameState)
    ensures r.hands == HandsAfter(s.hands, s.whoseTurn, card)
    ensures r.currentTrick == Extended(s, card) && r.whoseTurn == (s.whoseTurn + 1) % 4
    ensures r.roundScores == s.roundScores
    ensures s.heartsBroken || BreaksHearts(card) ==> r.heartsBroken
    ensures !s.heartsBroken && !BreaksHearts(card) ==> !r.heartsBroken
    ensures r.round == s.round && r.phase == s.phase && r.passDirection == s.passDirection
    ensures r.scores == s.scores && r.gameOver == s.gameOver && r.winnerIndex == s.winnerIndex
  {
    GameState(s.round, s.phase, s.passDirection, HandsAfter(s.hands, s.whoseTurn, card), Extended(s, card),
              (s.whoseTurn + 1) % 4, s.scores, s.roundScores, s.heartsBroken || BreaksHearts(card),
              s.gameOver, s.winnerIndex)
  }

  /** `scores` with `points` added to seat `w`. */
  function Credit(scores: Scores, w: Seat, points: int): (r: Scores)
    ensures r[w] == scores[w] + points
    ensures forall i: Seat | i != w :: r[i] == scores[i]
  {
    scores[w := scores[w] + points]
  }

  /** The state after the seat to act plays the card completing a trick: the
      trick is cleared, its winner takes its points and leads next. */
  function Completed(s: GameState, card: Card): (r: GameState)
    ensures r.hands == HandsAfter(s.hands, s.whoseTurn, card)
    ensures r.currentTrick == [] && r.whoseTurn == CompletedTrickWinner(Extended(s, card))
    ensures r.roundScores == Credit(s.roundScores, r.whoseTurn, TrickPoints(Extended(s, card)))
    ensures s.heartsBroken || BreaksHearts(card) ==> r.heartsBroken
    ensures !s.heartsBroken && !BreaksHearts(card) ==> !r.heartsBroken
    ensures r.round == s.round && r.phase == s.phase && r.passDirection == s.passDirection
    ensures r.scores == s.scores && r.gameOver == s.gameOver && r.winnerIndex == s.winnerIndex
  {
    var t := Extended(s, card);
    var winner := CompletedTrickWinner(t);
    var taken := Credit(s.roundScores, winner, TrickPoints(t));
    var hands := HandsAfter(s.hands, s.whoseTurn, card);
    GameState(s.round, s.phase, s.passDirection, hands, [], winner, s.scores, taken,
              s.heartsBroken || BreaksHearts(card), s.gameOver, s.winnerIndex)
  }

  /** The state after the seat to act plays `card`; a fourth card completes the
      trick. */
  function Played(s: GameState, card: Card): GameState {
    if |Extended(s, card)| < 4 then Continued(s, card) else Completed(s, card)
  }

  /** `apply_play`: checks phase, turn, possession and legality, in that order,
      then plays the card. */
  function ApplyPlay(s: GameState, player: int, card: Card): (r: Result<GameState>)
    ensures r == Err(WrongPhase) <==> s.phase != Playing
    ensures r == Err(NotYourTurn) <==> s.phase == Playing && s.whoseTurn != player
    ensures r == Err(CardNotInHand) <==>
      s.phase == Playing && s.whoseTurn == player && card !in s.hands[player]
    ensures r == Err(IllegalPlay) <==>
      s.phase == Playing && s.whoseTurn == player && card in s.hands[player] && card !in LegalNow(s)
    ensures r.Ok? ==> player == s.whoseTurn && card in LegalNow(s) && r.value == Played(s, card)
  {
    if s.phase != Playing then Err(WrongPhase)
    else if s.whoseTurn != player then Err(NotYourTurn)
    else if card !in s.hands[player] then Err(CardNotInHand)
    else if card !in LegalNow(s) then Err(IllegalPlay)
    else Ok(Played(s, card))
  }

  // ---------------------------------------------------------------------------
  // Round scoring and the next round
  // ---------------------------------------------------------------------------

  /** Some player took all 26 points this round. */
  predicate ShotTheMoon(rs: Scores) {
    exists i | 0 <= i < 4 :: rs[i] == 26
  }

  /** Seat `i` has the strictly lowest total. */
  predicate UniqueLowest(scores: Scores, i: Seat) {
    forall j: Seat | j != i :: scores[i] < scores[j]
  }

  function Min4(s: Scores): (m: int)
    ensures forall i: Seat :: m <= s[i]
    ensures exists i: Seat :: m == s[i]
  {
    var a := if s[0] <= s[1] then s[0] else s[1];
    var b := if s[2] <= s[3] then s[2] else s[3];
    if a <= b then a else b
  }

  /** `[i for i, s in enumerate(scores) if s == m]` over seats `k..3`. */
  function SeatsWith(scores: Scores, m: int, k: nat): (r: seq<Seat>)
    requires k <= 4
    ensures forall i: Seat :: i in r <==> k <= i && scores[i] == m
    ensures forall a, b | 0 <= a < b < |r| :: r[a] < r[b]
    decreases 4 - k
  {
    if k == 4 then []
    else
      var rest := SeatsWith(scores, m, k + 1);
      assert forall a | 0 <= a < |rest| :: rest[a] in rest && rest[a] > k;
      if scores[k] == m then [k as Seat] + rest else rest
  }

  /** `winner_index` once the game is over: the seat with the lowest total, or -1
      when the lowest total is shared. */
  function GameWinner(scores: Scores): (w: int)
    ensures w == -1 <==> forall i: Seat :: !UniqueLowest(scores, i)
    ensures w != -1 ==> 0 <= w < 4 && UniqueLowest(scores, w)
  {
    var m := Min4(scores);
    var winners := SeatsWith(scores, m, 0);
    if |winners| == 1 then
      var w := winners[0];
      assert forall x | x in winners :: x == w;
      assert UniqueLowest(scores, w);
      w
    else
      var k: Seat :| m == scores[k];
      assert k in winners;
      var a, b := winners[0], winners[1];
      assert scores[a] == m && scores[b] == m && a < b;
      forall i: Seat
        ensures !UniqueLowest(scores, i)
      {
        if i != a {
          assert !(scores[i] < scores[a]);
        } else {
          assert !(scores[i] < scores[b]);
        }
      }
      -1
  }

  /** The totals after a round: each seat adds its round points, or, when one
      seat shot the moon, every other seat adds 26. */
  function RoundTotals(scores: Scores, rs: Scores): (t: Scores)
    ensures forall i: Seat :: (t[i] - scores[i] ==
      if ShotTheMoon(rs) then (if rs[i] == 26 then 0 else 26) else rs[i])
  {
    var moon := ShotTheMoon(rs);
    seq(4, i requires 0 <= i < 4 => scores[i] + (if moon then (if rs[i] == 26 then 0 else 26) else rs[i]))
  }

  /** `apply_round_scoring`: round points are added to the totals, unless someone
      shot the moon, in which case that player adds nothing and everyone else 26.
      The game ends once any total reaches 100. */
  function ApplyRoundScoring(s: GameState): (r: GameState)
    ensures r == s.(scores := r.scores, roundScores := ZeroScores, gameOver := r.gameOver,
                    winnerIndex := r.winnerIndex)
    ensures forall i: Seat :: (r.scores[i] - s.scores[i] ==
      if ShotTheMoon(s.roundScores) then (if s.roundScores[i] == 26 then 0 else 26) else s.roundScores[i])
    ensures r.gameOver <==> exists i: Seat :: r.scores[i] >= 100
    ensures r.winnerIndex.None? <==> !r.gameOver
    ensures r.gameOver ==> r.winnerIndex == Some(GameWinner(r.scores))
  {
    var newScores := RoundTotals(s.scores, s.roundScores);
    var over := exists i: Seat :: newScores[i] >= 100;
    s.(scores := newScores, roundScores := ZeroScores, gameOver := over,
       winnerIndex := if over then Some(GameWinner(newScores)) else None)
  }

  /** `deal_new_round`: the next round's state from the carried totals. */
  function DealNewRound(previousScores: seq<int>, round: int, hands: seq<seq<Card>>): (r: Result<GameState>)
    ensures r.Ok? ==> r.value.scores == previousScores && r.value.round == round && r.value.hands == hands
    ensures r.Ok? <==>
      && DealtShape(hands) && |previousScores| == 4
      && (round % 4 == 0 ==> exists j | 0 <= j < 4 :: TwoOfClubs() in hands[j])
  {
    InitialStateAfterDeal(hands, round, Some(previousScores))
  }
}
