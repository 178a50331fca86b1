/** The immutable game state and round setup (api/hearts/game/state.py). */
module GameStates {
  import opened Wrappers
  import opened Cards
  import opened Rules

  datatype Phase = Passing | Playing

  /** `PassDirection`; `NONE` is written `NoPass`. */
  datatype PassDirection = Left | Right | Across | NoPass

  /** Four per-seat integers (totals or points taken this round). */
  type Scores = s: seq<int> | |s| == 4 witness [0, 0, 0, 0]

  const ZeroScores: Scores := [0, 0, 0, 0]

  function Sum4(s: Scores): int {
    s[0] + s[1] + s[2] + s[3]
  }

  /** `GameState`: hands[i] is seat i's hand (0 is the human), the current trick in
      play order, whose turn it is, cumulative `scores`, this round's points
      `roundScores`, and the end-of-game fields. `winnerIndex` is `None` while
      the game runs, a seat for a unique winner and `Some(-1)` for a tie. */
  datatype GameState = GameState(
    round: int,
    phase: Phase,
    passDirection: PassDirection,
    hands: Hands,
    currentTrick: Trick,
    whoseTurn: Seat,
    scores: Scores,
    roundScores: Scores,
    heartsBroken: bool,
    gameOver: bool,
    winnerIndex: Option<int>)

  /** `pass_direction_for_round`: left, right, across, none, repeating. Python's
      `%` and Dafny's agree for a positive divisor. */
  function PassDirectionForRound(round: int): (d: PassDirection)
    ensures d == Left <==> round % 4 == 1
    ensures d == Right <==> round % 4 == 2
    ensures d == Across <==> round % 4 == 3
    ensures d == NoPass <==> round % 4 == 0
  {
    var r := (round - 1) % 4;
    if r == 0 then Left else if r == 1 then Right else if r == 2 then Across else NoPass
  }

  /** The cycle has period four. */
  lemma PassDirectionPeriodic(round: int)
    ensures PassDirectionForRound(round + 4) == PassDirectionForRound(round)
    ensures PassDirectionForRound(round) == NoPass <==> round % 4 == 0
  {
  }

  /** The lowest seat holding `c`, as `next(i for i in range(4) if c in hands[i])`. */
  function FirstHolder(hands: Hands, c: Card): (r: Option<Seat>)
    ensures r.None? <==> forall j | 0 <= j < 4 :: c !in hands[j]
    ensures r.Some? ==> c in hands[r.value] && forall j | 0 <= j < r.value :: c !in hands[j]
  {
    if c in hands[0] then Some(0)
    else if c in hands[1] then Some(1)
    else if c in hands[2] then Some(2)
    else if c in hands[3] then Some(3)
    else None
  }

  predicate DealtShape(hands: seq<seq<Card>>) {
    |hands| == 4 && forall i | 0 <= i < 4 :: |hands[i]| == 13
  }

  /** `initial_state_after_deal`: checks 4 hands of 13 and 4 carried-over totals
      (default all zero). A round divisible by four has no pass and starts
      playing at once with the holder of 2♣ to lead; otherwise passing starts
      with seat 0 to act. */
  function InitialStateAfterDeal(hands: seq<seq<Card>>, round: int, previousScores: Option<seq<int>>)
    : (r: Result<GameState>)
    ensures r == Err(BadHandShape) <==> !DealtShape(hands)
    ensures r == Err(BadScoresLength) <==>
      DealtShape(hands) && previousScores.Some? && |previousScores.value| != 4
    ensures r == Err(NoTwoOfClubs) <==>
      && DealtShape(hands) && (previousScores.None? || |previousScores.value| == 4)
      && round % 4 == 0 && forall j | 0 <= j < 4 :: TwoOfClubs() !in hands[j]
    ensures r.Ok? ==>
      var s := r.value;
      && s.round == round && s.hands == hands && s.currentTrick == []
      && s.roundScores == ZeroScores && !s.heartsBroken && !s.gameOver && s.winnerIndex.None?
      && s.scores == (if previousScores.Some? then previousScores.value else ZeroScores)
    ensures r.Ok? && round % 4 == 0 ==>
      && r.value.phase == Playing && r.value.passDirection == NoPass
      && TwoOfClubs() in hands[r.value.whoseTurn]
      && forall j | 0 <= j < r.value.whoseTurn :: TwoOfClubs() !in hands[j]
    ensures r.Ok? && round % 4 != 0 ==>
      r.value.phase == Passing && r.value.whoseTurn == 0 && r.value.passDirection == PassDirectionForRound(round)
  {
    if !DealtShape(hands) then Err(BadHandShape)
    else
      var scores := if previousScores.Some? then previousScores.value else ZeroScores;
      if |scores| != 4 then Err(BadScoresLength)
      else
        var h: Hands := hands;
        if round % 4 == 0 then
          match FirstHolder(h, TwoOfClubs())
          case None => Err(NoTwoOfClubs)
          case Some(leader) =>
            Ok(GameState(round, Playing, NoPass, h, [], leader, scores, ZeroScores, false, false, None))
        else
          Ok(GameState(round, Passing, PassDirectionForRound(round), h, [], 0, scores, ZeroScores,
                       false, false, None))
  }
}
