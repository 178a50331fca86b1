/** The game runner (api/hearts/game/runner.py): it holds the state and the two
    strategies, validates the human's pass and play, runs AI turns until the
    human must act or a round boundary is reached, and projects the state for
    the frontend. Seat 0 is the human. The runner's random generator and the
    strategies' generators are one `Rng` threaded through every call. */
module Runner {
  import opened Wrappers
  import opened Seqs
  import opened Randomness
  import opened Cards
  import opened Rules
  import opened GameStates
  import opened Transitions
  import opened Invariants
  import opened HardAI
  import opened Strategies

  const Human: Seat := 0

  const DefaultNames: seq<string> := ["You", "AI 1", "AI 2", "AI 3"]

  /** `_round_complete`: every hand is empty. */
  predicate RoundComplete(s: GameState) {
    |s.hands[0]| + |s.hands[1]| + |s.hands[2]| + |s.hands[3]| == 0
  }

  /** A completed round is exactly one with nothing left in any hand. */
  lemma RoundCompleteIff(s: GameState)
    ensures RoundComplete(s) <==> Flatten(s.hands) == []
    ensures RoundComplete(s) <==> forall i: Seat :: s.hands[i] == []
  {
  }

  /** `GameRunner`: the state, the pass and play strategies, the seat names,
      the generator, the plays recorded by the last call and whether a round
      ended during it. The runner sees a strategy only through its interface:
      its state (`passer`, `player`) and how it chooses (`choosePass`,
      `choosePlay`). */
  datatype Runner<!P, !Q> = Runner(
    state: GameState,
    passer: P,
    choosePass: PassChooser<P>,
    player: Q,
    choosePlay: PlayChooser<Q>,
    names: seq<string>,
    rng: Rng,
    events: seq<Play>,
    roundEnded: bool)

  /** The strategies behave as `api/hearts/ai/base.py` promises. */
  ghost predicate Plugged<P(!new), Q(!new)>(r: Runner<P, Q>) {
    PassInterface(r.choosePass) && PlayInterface(r.choosePlay)
  }

  /** `b` has `a`'s strategies and names. */
  ghost predicate Keeps<P, Q>(a: Runner<P, Q>, b: Runner<P, Q>) {
    && b.passer == a.passer && b.choosePass == a.choosePass
    && b.choosePlay == a.choosePlay && b.names == a.names
  }

  // ---------------------------------------------------------------------------
  // New game
  // ---------------------------------------------------------------------------

  /** A full deck dealt into four hands of thirteen holds the two of clubs. */
  lemma TwoOfClubsDealt(hands: Hands)
    requires multiset(Flatten(hands)) == multiset(Deck52())
    ensures exists j | 0 <= j < 4 :: TwoOfClubs() in hands[j]
  {
    assert TwoOfClubs() in multiset(Flatten(hands));
    assert TwoOfClubs() in hands[0] + hands[1] + hands[2] + hands[3];
  }

  /** Shuffle a new deck and deal it round-robin into four hands. */
  function ShuffledHands(rng: Rng): (r: (Hands, Rng))
    ensures r.1 == Shuffle(Deck52(), rng).1
    ensures multiset(Flatten(r.0)) == multiset(Deck52())
    ensures DealtShape(r.0)
    ensures exists j | 0 <= j < 4 :: TwoOfClubs() in r.0[j]
  {
    var shuffled := Shuffle(Deck52(), rng);
    DealShuffledDeck(rng);
    var hands := Deal(shuffled.0).value;
    TwoOfClubsDealt(hands);
    (hands, shuffled.1)
  }

  /** Shuffle, deal and open round `round` with the given totals; this always
      succeeds because a full deck holds 2♣. */
  function FreshRound(scores: Scores, round: int, rng: Rng): (r: (GameState, Rng))
    ensures r.1 == Shuffle(Deck52(), rng).1
    ensures multiset(Flatten(r.0.hands)) == multiset(Deck52())
    ensures forall i: Seat :: |r.0.hands[i]| == 13
    ensures r.0.scores == scores && r.0.round == round
    ensures r.0.currentTrick == [] && r.0.roundScores == ZeroScores
    ensures !r.0.gameOver && r.0.winnerIndex.None? && !r.0.heartsBroken
    ensures r.0.phase == Passing <==> round % 4 != 0
    ensures round % 4 != 0 ==> r.0.whoseTurn == Human && r.0.passDirection == PassDirectionForRound(round)
    ensures round % 4 == 0 ==> r.0.passDirection == NoPass && TwoOfClubs() in r.0.hands[r.0.whoseTurn]
  {
    var dealt := ShuffledHands(rng);
    var s := DealNewRound(scores, round, dealt.0).value;
    assert s == InitialStateAfterDeal(dealt.0, round, Some(scores)).value;
    (s, dealt.1)
  }

  /** Every freshly dealt round satisfies the round invariant. */
  lemma FreshRoundInvariant(scores: Scores, round: int, rng: Rng)
    ensures Invariant(FreshRound(scores, round, rng).0)
  {
    var s := FreshRound(scores, round, rng).0;
    assert InPlay(s) == Flatten(s.hands) + [];
    FullDeckInvariant(s);
  }

  /** The `new_game` name list: the given names (none given means the
      defaults), padded to four from the defaults. */
  function PadNames(names: seq<string>): (r: seq<string>)
    ensures |r| == if |names| < 4 then 4 else |names|
    ensures forall i | 0 <= i < |names| :: r[i] == names[i]
    ensures forall i | |names| <= i < 4 :: r[i] == DefaultNames[i]
    decreases 4 - |names|
  {
    if |names| >= 4 then names else PadNames(names + [DefaultNames[|names|]])
  }

  /** The `new_game` seat names: the given names padded to four, with seat 0
      renamed when a human name is given. */
  function GameNames(names: seq<string>, humanName: Option<string>): (r: seq<string>)
    ensures |r| == if |names| < 4 then 4 else |names|
    ensures r[0] == if humanName.Some? then humanName.value else if |names| > 0 then names[0] else "You"
    ensures forall i | 1 <= i < |names| :: r[i] == names[i]
    ensures forall i | |names| <= i < 4 && i >= 1 :: r[i] == DefaultNames[i]
  {
    var padded := PadNames(names);
    if humanName.Some? then padded[0 := humanName.value] else padded
  }

  /** `GameRunner.new_game`: round 1 dealt from a shuffled deck with all totals
      zero; the names padded to four and seat 0 renamed when a human name is
      given. An empty name list counts as none. The runner plays the engine's
      own strategies, which keep the interface's promises. */
  function NewGame(passer: PassStrategy, player: PlayStrategy, names: seq<string>,
                   humanName: Option<string>, rng: Rng): (r: Runner<PassStrategy, PlayStrategy>)
    ensures r.state.round == 1 && r.state.phase == Passing && r.state.passDirection == Left
    ensures r.state.scores == ZeroScores && r.state.whoseTurn == Human
    ensures forall i: Seat :: |r.state.hands[i]| == 13
    ensures multiset(Flatten(r.state.hands)) == multiset(Deck52())
    ensures r.passer == passer && r.player == player && r.events == [] && !r.roundEnded
    ensures r.choosePass == ChoosePass && r.choosePlay == ChoosePlay
    ensures r.names == GameNames(names, humanName)
  {
    var dealt := FreshRound(ZeroScores, 1, rng);
    Runner(dealt.0, passer, ChoosePass, player, ChoosePlay, GameNames(names, humanName), dealt.1, [], false)
  }

  /** A new game starts in the round invariant. */
  lemma NewGameInvariant(passer: PassStrategy, player: PlayStrategy, names: seq<string>,
                         humanName: Option<string>, rng: Rng)
    ensures Invariant(NewGame(passer, player, names, humanName, rng).state)
  {
    FreshRoundInvariant(ZeroScores, 1, rng);
  }

  /** A new game's strategies keep the interface's promises. */
  lemma NewGamePlugged(passer: PassStrategy, player: PlayStrategy, names: seq<string>,
                       humanName: Option<string>, rng: Rng)
    ensures Plugged(NewGame(passer, player, names, humanName, rng))
  {
    ChoosePassInterface();
    ChoosePlayInterface();
  }

  // ---------------------------------------------------------------------------
  // Passing
  // ---------------------------------------------------------------------------

  /** The strategy's passes for seats 1, 2 and 3, in seat order. */
  function AIPasses<P>(choose: PassChooser<P>, passer: P, hands: Hands, d: PassDirection, rng: Rng)
    : (r: Result<(seq<seq<Card>>, Rng)>)
    ensures r.Ok? ==> |r.value.0| == 3
  {
    var p1 :- choose(passer, hands[1], d, rng);
    var p2 :- choose(passer, hands[2], d, p1.1);
    var p3 :- choose(passer, hands[3], d, p2.1);
    Ok(([p1.0, p2.0, p3.0], p3.1))
  }

  /** Three cards, all from `hand`, and a valid pass when `hand` has no
      duplicates. */
  predicate PassFrom(p: seq<Card>, hand: seq<Card>) {
    && |p| == 3 && (forall c | c in p :: c in hand)
    && (NoDup(hand) ==> IsValidPass(hand, p))
  }

  /** A strategy that keeps the interface answers for full hands, and every
      seat's pass is three cards of its own hand. */
  lemma AIPassesPromise<P(!new)>(choose: PassChooser<P>, passer: P, hands: Hands, d: PassDirection, rng: Rng)
    requires PassInterface(choose)
    ensures |hands[1]| >= 13 && |hands[2]| >= 13 && |hands[3]| >= 13 ==> AIPasses(choose, passer, hands, d, rng).Ok?
    ensures var r := AIPasses(choose, passer, hands, d, rng);
      r.Ok? ==> PassFrom(r.value.0[0], hands[1]) && PassFrom(r.value.0[1], hands[2]) && PassFrom(r.value.0[2], hands[3])
  {
    var r1 := choose(passer, hands[1], d, rng);
    assert PassPromise(hands[1], r1);
    if r1.Ok? {
      var r2 := choose(passer, hands[2], d, r1.value.1);
      assert PassPromise(hands[2], r2);
      if r2.Ok? {
        var r3 := choose(passer, hands[3], d, r2.value.1);
        assert PassPromise(hands[3], r3);
      }
    }
  }

  /** `submit_pass`: only while passing and only with a valid human pass; the
      pass strategy then picks three cards for each of seats 1, 2 and 3, and
      the four passes are applied. */
  function SubmitPass<P, Q>(r: Runner<P, Q>, human: seq<Card>): (res: Result<Runner<P, Q>>)
    ensures r.state.phase != Passing ==> res == Err(WrongPhase)
    ensures r.state.phase == Passing && !IsValidPass(r.state.hands[Human], human) ==> res == Err(InvalidPass)
    ensures res.Ok? ==>
      && r.state.phase == Passing && IsValidPass(r.state.hands[Human], human)
      && res.value.state.phase == Playing && res.value.state.currentTrick == []
      && TwoOfClubs() in res.value.state.hands[res.value.state.whoseTurn]
      && res.value.state.round == r.state.round && res.value.state.scores == r.state.scores
    ensures res.Ok? ==>
      && Keeps(r, res.value) && res.value.player == r.player
      && res.value.events == r.events && res.value.roundEnded == r.roundEnded
  {
    var s := r.state;
    if s.phase != Passing then Err(WrongPhase)
    else if !IsValidPass(s.hands[Human], human) then Err(InvalidPass)
    else
      var ai :- AIPasses(r.choosePass, r.passer, s.hands, s.passDirection, r.rng);
      var next :- ApplyPasses(s, [human] + ai.0);
      Ok(r.(state := next, rng := ai.1))
  }

  /** In a dealt passing round, with the strategy keeping its promise, a valid
      human pass is accepted: `submit_pass` refuses only the wrong phase and an
      invalid pass. */
  lemma SubmitPassAccepted<P(!new), Q>(r: Runner<P, Q>, human: seq<Card>)
    requires PassInterface(r.choosePass)
    requires r.state.phase == Passing && IsValidPass(r.state.hands[Human], human)
    requires multiset(Flatten(r.state.hands)) == multiset(Deck52())
    requires forall i: Seat :: |r.state.hands[i]| == 13
    ensures SubmitPass(r, human).Ok?
  {
    forall i: Seat
      ensures NoDup(r.state.hands[i])
    {
      FullDeckHandsNoDup(r.state.hands, i);
    }
    assert TwoOfClubs() in multiset(Flatten(r.state.hands));
    SubmitPassAcceptedDistinct(r, human);
  }

  /** In particular, a new game accepts any valid first pass from the human. */
  lemma NewGameAcceptsPass(passer: PassStrategy, player: PlayStrategy, names: seq<string>,
                           humanName: Option<string>, rng: Rng, human: seq<Card>)
    requires IsValidPass(NewGame(passer, player, names, humanName, rng).state.hands[Human], human)
    ensures SubmitPass(NewGame(passer, player, names, humanName, rng), human).Ok?
  {
    ChoosePassInterface();
    SubmitPassAccepted(NewGame(passer, player, names, humanName, rng), human);
  }

  /** The same for any thirteen distinct cards per hand with 2♣ among them. */
  lemma SubmitPassAcceptedDistinct<P(!new), Q>(r: Runner<P, Q>, human: seq<Card>)
    requires PassInterface(r.choosePass)
    requires r.state.phase == Passing && IsValidPass(r.state.hands[Human], human)
    requires TwoOfClubs() in Flatten(r.state.hands)
    requires forall i: Seat :: |r.state.hands[i]| == 13 && NoDup(r.state.hands[i])
    ensures SubmitPass(r, human).Ok?
  {
    var s := r.state;
    var ai := AIPassesValid(r.choosePass, r.passer, s.hands, s.passDirection, r.rng);
    var passes := [human] + ai;
    assert passes == [human, ai[0], ai[1], ai[2]];
    assert forall i: Seat :: IsValidPass(s.hands[i], passes[i]);
    ApplyPassesAccepts(s, passes);
    SubmitPassGoesAhead(r, human);
  }

  /** On a full deal the strategy's three passes are valid passes. */
  lemma AIPassesValid<P(!new)>(choose: PassChooser<P>, passer: P, hands: Hands, d: PassDirection, rng: Rng)
    returns (ai: seq<seq<Card>>)
    requires PassInterface(choose)
    requires forall i: Seat :: |hands[i]| == 13 && NoDup(hands[i])
    ensures AIPasses(choose, passer, hands, d, rng).Ok? && ai == AIPasses(choose, passer, hands, d, rng).value.0
    ensures |ai| == 3 && forall k | 0 <= k < 3 :: IsValidPass(hands[k + 1], ai[k])
  {
    AIPassesPromise(choose, passer, hands, d, rng);
    ai := AIPasses(choose, passer, hands, d, rng).value.0;
  }

  /** `submit_pass` goes ahead once the computer passes are chosen and
      `apply_passes` accepts them with the human's. */
  lemma SubmitPassGoesAhead<P, Q>(r: Runner<P, Q>, human: seq<Card>)
    requires r.state.phase == Passing && IsValidPass(r.state.hands[Human], human)
    requires AIPasses(r.choosePass, r.passer, r.state.hands, r.state.passDirection, r.rng).Ok?
    requires ApplyPasses(r.state, [human] + AIPasses(r.choosePass, r.passer, r.state.hands, r.state.passDirection, r.rng).value.0).Ok?
    ensures SubmitPass(r, human).Ok?
  {
  }

  /** What `submit_pass` applies: the human's pass at seat 0 and the
      strategy's at seats 1 to 3; the human's three cards reach the seat the
      pass direction names. With the strategies keeping their promise and
      every hand full, a valid pass fails only as `apply_passes` does. */
  lemma SubmitPassDelivers<P(!new), Q>(r: Runner<P, Q>, human: seq<Card>)
    requires PassInterface(r.choosePass)
    requires r.state.phase == Passing && IsValidPass(r.state.hands[Human], human)
    requires |r.state.hands[1]| >= 13 && |r.state.hands[2]| >= 13 && |r.state.hands[3]| >= 13
    ensures var ai := AIPasses(r.choosePass, r.passer, r.state.hands, r.state.passDirection, r.rng);
      && ai.Ok?
      && (SubmitPass(r, human).Err? <==> ApplyPasses(r.state, [human] + ai.value.0).Err?)
      && (SubmitPass(r, human).Err? ==> SubmitPass(r, human).error in {PassNotThree, NoTwoOfClubs})
      && (SubmitPass(r, human).Ok? ==> ApplyPasses(r.state, [human] + ai.value.0) == Ok(SubmitPass(r, human).value.state))
    ensures SubmitPass(r, human).Ok? && r.state.passDirection != NoPass ==>
      forall c | c in human :: c in SubmitPass(r, human).value.state.hands[PassTarget(r.state.passDirection, Human)]
  {
    var s := r.state;
    AIPassesPromise(r.choosePass, r.passer, s.hands, s.passDirection, r.rng);
    var ai := AIPasses(r.choosePass, r.passer, s.hands, s.passDirection, r.rng).value;
    var passes := [human] + ai.0;
    assert passes == [human, ai.0[0], ai.0[1], ai.0[2]];
    assert forall i | 0 <= i < |passes| :: |passes[i]| == 3;
    if SubmitPass(r, human).Ok? && s.passDirection != NoPass {
      var next := SubmitPass(r, human).value.state;
      forall c | c in human
        ensures c in next.hands[PassTarget(s.passDirection, Human)]
      {
        assert c in passes[Human];
        PassesArrive(s.hands, passes, s.passDirection, Human, c);
      }
    }
  }

  /** A successful `submit_pass` applied the human's pass and the strategy's
      three. */
  lemma SubmitPassApplies<P, Q>(r: Runner<P, Q>, human: seq<Card>)
    requires SubmitPass(r, human).Ok?
    ensures var ai := AIPasses(r.choosePass, r.passer, r.state.hands, r.state.passDirection, r.rng);
      && ai.Ok? && ApplyPasses(r.state, [human] + ai.value.0) == Ok(SubmitPass(r, human).value.state)
  {
  }

  /** A successful pass keeps the round invariant: every seat's pass, the
      human's and each strategy's, is a valid pass of its own hand. */
  lemma SubmitPassKeepsInvariant<P(!new), Q>(r: Runner<P, Q>, human: seq<Card>)
    requires PassInterface(r.choosePass)
    requires Invariant(r.state)
    requires SubmitPass(r, human).Ok?
    ensures Invariant(SubmitPass(r, human).value.state)
    ensures multiset(InPlay(SubmitPass(r, human).value.state)) == multiset(InPlay(r.state))
  {
    var s := r.state;
    SubmitPassApplies(r, human);
    assert s.phase == Passing && IsValidPass(s.hands[Human], human);
    var ai := AIPasses(r.choosePass, r.passer, s.hands, s.passDirection, r.rng).value;
    AIPassesPromise(r.choosePass, r.passer, s.hands, s.passDirection, r.rng);
    ValidPassesKeepInvariant(s, human, ai.0);
  }

  /** Applying four valid passes keeps the round invariant. */
  lemma ValidPassesKeepInvariant(s: GameState, human: seq<Card>, ai: seq<seq<Card>>)
    requires Invariant(s) && |ai| == 3
    requires IsValidPass(s.hands[Human], human)
    requires PassFrom(ai[0], s.hands[1]) && PassFrom(ai[1], s.hands[2]) && PassFrom(ai[2], s.hands[3])
    requires ApplyPasses(s, [human] + ai).Ok?
    ensures Invariant(ApplyPasses(s, [human] + ai).value)
    ensures multiset(InPlay(ApplyPasses(s, [human] + ai).value)) == multiset(InPlay(s))
  {
    var passes := [human] + ai;
    DistinctHands(s, 1);
    DistinctHands(s, 2);
    DistinctHands(s, 3);
    assert passes == [human, ai[0], ai[1], ai[2]];
    ApplyPassesKeepsInvariant(s, passes);
  }

  // ---------------------------------------------------------------------------
  // The AI loop
  // ---------------------------------------------------------------------------

  /** One AI turn: the seat to act chooses among its legal plays, and the card
      is recorded and played through `apply_play`, which refuses it unless it
      is legal. */
  function AIMove<P, Q>(r: Runner<P, Q>): (res: Result<Runner<P, Q>>)
    ensures res.Ok? ==>
      && |res.value.events| == |r.events| + 1 && res.value.events[..|r.events|] == r.events
      && res.value.events[|r.events|].seat == r.state.whoseTurn
      && ApplyPlay(r.state, r.state.whoseTurn, res.value.events[|r.events|].card) == Ok(res.value.state)
    ensures res.Ok? ==> Keeps(r, res.value) && res.value.roundEnded == r.roundEnded
  {
    var s := r.state;
    var seat := s.whoseTurn;
    var choice :- r.choosePlay(r.player, s, seat, LegalNow(s), r.rng);
    var card := choice.0;
    var next :- ApplyPlay(s, seat, card);
    Ok(r.(state := next, player := choice.1, rng := choice.2, events := r.events + [Play(seat, card)]))
  }

  /** An AI move plays a legal card of the seat to act, stays in the round,
      and leaves one card fewer in hand. */
  lemma AIMoveProgress<P, Q>(r: Runner<P, Q>)
    requires AIMove(r).Ok?
    ensures var m := AIMove(r).value;
      && m.events[|r.events|].card in LegalNow(r.state)
      && m.events[|r.events|].card in r.state.hands[r.state.whoseTurn]
      && m.state.round == r.state.round && m.state.phase == Playing
      && Progress(r.state, m.state)
    ensures r.state.whoseTurn != Human ==> Grows(r, AIMove(r).value)
  {
    var m := AIMove(r).value;
    var card := m.events[|r.events|].card;
    PlayedShrinks(r.state, card);
  }

  /** With a strategy that keeps its promise, a turn with no legal play fails
      as the strategy does, and a chosen card is never refused. */
  lemma AIMovePromise<P, Q(!new)>(r: Runner<P, Q>)
    requires PlayInterface(r.choosePlay) && r.state.phase == Playing
    ensures LegalNow(r.state) == [] ==> AIMove(r) == Err(NoLegalPlays)
    ensures r.choosePlay(r.player, r.state, r.state.whoseTurn, LegalNow(r.state), r.rng).Ok? ==> AIMove(r).Ok?
  {
    var s := r.state;
    var choice := r.choosePlay(r.player, s, s.whoseTurn, LegalNow(s), r.rng);
    assert PlayPromise(LegalNow(s), choice);
  }

  /** Deal round `round + 1` with the given totals and flag the round end; the
      boolean says whether the new round opens with passing. */
  function OpenRound<P, Q>(r: Runner<P, Q>, scores: Scores): (res: (Runner<P, Q>, bool))
    ensures res.0.roundEnded && res.0.state.round == r.state.round + 1 && res.0.state.scores == scores
    ensures res.1 <==> res.0.state.phase == Passing
    ensures res.1 <==> (r.state.round + 1) % 4 != 0
    ensures !res.0.state.gameOver && forall i: Seat :: |res.0.state.hands[i]| == 13
    ensures Keeps(r, res.0) && res.0.player == r.player && res.0.events == r.events
    ensures !res.1 ==> Boundaries(res.0.state) < Boundaries(r.state)
    ensures Invariant(res.0.state)
  {
    var dealt := FreshRound(scores, r.state.round + 1, r.rng);
    FreshRoundInvariant(scores, r.state.round + 1, r.rng);
    assert dealt.0.phase != Passing ==> Boundaries(dealt.0) < Boundaries(r.state) by {
      if dealt.0.phase != Passing {
        BoundaryCrossed(r.state, dealt.0);
      }
    }
    (r.(state := dealt.0, rng := dealt.1, roundEnded := true), dealt.0.phase == Passing)
  }

  /** What the loop does once a move has emptied every hand: score the round;
      unless the game is over, flag the round end and deal the next round. The
      boolean says whether the loop returns. */
  function EndRound<P, Q>(r: Runner<P, Q>): (res: (Runner<P, Q>, bool))
    ensures var scored := ApplyRoundScoring(r.state);
      && (scored.gameOver ==> res.1 && res.0.state == scored && res.0.rng == r.rng && res.0.roundEnded == r.roundEnded)
      && (!scored.gameOver ==> res == OpenRound(r, scored.scores))
    ensures Grows(r, res.0)
    ensures res.1 ==> Settled(res.0.state)
    ensures !res.1 ==> Boundaries(res.0.state) < Boundaries(r.state)
    ensures RoundComplete(res.0.state) ==> res.0.state.gameOver
    ensures res.0.state.gameOver || Invariant(res.0.state)
  {
    var scored := ApplyRoundScoring(r.state);
    if scored.gameOver then (r.(state := scored), true)
    else
      var next := OpenRound(r, scored.scores);
      assert |next.0.state.hands[0]| == 13;
      next
  }

  /** Where the loop may stop: the game is over, the phase is passing, or it is
      the human's turn. */
  predicate Settled(s: GameState) {
    s.gameOver || s.phase == Passing || s.whoseTurn == Human
  }

  /** How many more round boundaries the loop may cross without returning: one
      while the next round is a no-pass round, none otherwise. */
  function Boundaries(s: GameState): nat {
    if (s.round + 1) % 4 == 0 then 1 else 0
  }

  /** A round without passing is followed by one with passing, so the loop
      crosses at most one boundary. */
  lemma BoundaryCrossed(s: GameState, t: GameState)
    requires t.round == s.round + 1 && t.round % 4 == 0
    ensures Boundaries(t) < Boundaries(s)
  {
  }

  /** `b` continues `a`'s call: `a`'s record is a prefix of `b`'s, every play
      added is an AI seat's, a round end once flagged stays flagged, and the
      strategies and names are `a`'s. */
  ghost predicate Grows<P, Q>(a: Runner<P, Q>, b: Runner<P, Q>) {
    && |a.events| <= |b.events| && b.events[..|a.events|] == a.events
    && (forall k | |a.events| <= k < |b.events| :: b.events[k].seat != Human)
    && (a.roundEnded ==> b.roundEnded)
    && Keeps(a, b)
  }

  lemma GrowsTrans<P, Q>(a: Runner<P, Q>, b: Runner<P, Q>, c: Runner<P, Q>)
    requires Grows(a, b) && Grows(b, c)
    ensures Grows(a, c)
  {
    assert c.events[..|a.events|] == c.events[..|b.events|][..|a.events|];
  }

  /** The loop's measure goes down from `a` to `b`: fewer round boundaries
      left, or as many and fewer cards in hand. */
  predicate Progress(a: GameState, b: GameState) {
    || Boundaries(b) < Boundaries(a)
    || (Boundaries(b) == Boundaries(a) && |Flatten(b.hands)| < |Flatten(a.hands)|)
  }

  /** One pass through the loop body: an AI move and, when it empties every
      hand, the round end. The boolean says whether the loop returns. */
  function Step<P, Q>(r: Runner<P, Q>): (res: Result<(Runner<P, Q>, bool)>)
    requires !Settled(r.state)
    ensures res.Ok? ==> Grows(r, res.value.0)
    ensures res.Ok? && res.value.1 ==> Settled(res.value.0.state)
    ensures res.Ok? && !res.value.1 ==> Progress(r.state, res.value.0.state)
    ensures res.Ok? && RoundComplete(res.value.0.state) ==> res.value.0.state.gameOver
  {
    var moved :- AIMove(r);
    AIMoveProgress(r);
    if !RoundComplete(moved.state) then Ok((moved, false))
    else
      var ended := EndRound(moved);
      GrowsTrans(r, moved, ended.0);
      Ok(ended)
  }

  /** `_run_ai_until_human_or_done`: AI moves until the human must act, the
      game is over, or a new round opens with passing. */
  function RunAI<P, Q>(r: Runner<P, Q>): (res: Result<Runner<P, Q>>)
    ensures res.Ok? ==> Settled(res.value.state) && Grows(r, res.value)
    ensures res.Ok? && !RoundComplete(r.state) && RoundComplete(res.value.state) ==> res.value.state.gameOver
    ensures Settled(r.state) ==> res == Ok(r)
    decreases Boundaries(r.state), |Flatten(r.state.hands)|
  {
    if Settled(r.state) then Ok(r)
    else
      var step :- Step(r);
      if step.1 then Ok(step.0)
      else
        var res := RunAI(step.0);
        if res.Ok? then GrowsTrans(r, step.0, res.value); res else res
  }

  /** An AI move is a legal play, which keeps the round invariant. */
  lemma AIMoveKeepsInvariant<P, Q>(r: Runner<P, Q>)
    requires Invariant(r.state) && AIMove(r).Ok?
    ensures Invariant(AIMove(r).value.state)
  {
    var moved := AIMove(r).value;
    ApplyPlayKeepsInvariant(r.state, r.state.whoseTurn, moved.events[|r.events|].card);
  }

  /** One loop body keeps the round invariant unless it ends the game. */
  lemma StepKeepsInvariant<P, Q>(r: Runner<P, Q>)
    requires Invariant(r.state) && !Settled(r.state)
    requires Step(r).Ok?
    ensures Step(r).value.0.state.gameOver || Invariant(Step(r).value.0.state)
  {
    AIMoveKeepsInvariant(r);
  }

  /** The loop keeps the round invariant: every move is a legal play of the
      seat to act, and every new round is a full deal. A game that has just
      ended has handed out its points and is exempt. */
  lemma {:induction false} RunAIKeepsInvariant<P, Q>(r: Runner<P, Q>)
    requires Invariant(r.state)
    requires RunAI(r).Ok?
    ensures RunAI(r).value.state.gameOver || Invariant(RunAI(r).value.state)
    decreases Boundaries(r.state), |Flatten(r.state.hands)|
  {
    if !Settled(r.state) {
      var step := Step(r).value;
      StepKeepsInvariant(r);
      if !step.1 && !step.0.state.gameOver {
        RunAIKeepsInvariant(step.0);
      }
    }
  }

  /** The loop only appends to the record. */
  lemma RunAIKeepsRecord<P, Q>(r: Runner<P, Q>)
    ensures RunAI(r).Ok? ==> forall k | 0 <= k < |r.events| :: RunAI(r).value.events[k] == r.events[k]
  {
    if RunAI(r).Ok? {
      var b := RunAI(r).value;
      forall k | 0 <= k < |r.events|
        ensures b.events[k] == r.events[k]
      {
        assert b.events[..|r.events|][k] == b.events[k];
      }
    }
  }

  /** `advance_to_human_turn`: clear the record, then run the loop. */
  function AdvanceToHumanTurn<P, Q>(r: Runner<P, Q>): (res: Result<Runner<P, Q>>)
    ensures res.Ok? ==> Settled(res.value.state) && Keeps(r, res.value)
    ensures res.Ok? ==> forall k | 0 <= k < |res.value.events| :: res.value.events[k].seat != Human
    ensures Settled(r.state) ==> res == Ok(r.(events := [], roundEnded := false))
  {
    RunAI(r.(events := [], roundEnded := false))
  }

  // ---------------------------------------------------------------------------
  // Playing
  // ---------------------------------------------------------------------------

  /** The checks `submit_play` makes, in order, before the human's card is
      played. */
  function CheckHumanPlay(s: GameState, card: Card): (r: Result<Card>)
    ensures r == Err(WrongPhase) <==> s.phase != Playing
    ensures r == Err(NotYourTurn) <==> s.phase == Playing && s.whoseTurn != Human
    ensures r == Err(CardNotInHand) <==> s.phase == Playing && s.whoseTurn == Human && card !in s.hands[Human]
    ensures r == Err(IllegalPlay) <==>
      s.phase == Playing && s.whoseTurn == Human && card in s.hands[Human] && card !in LegalNow(s)
    ensures r.Ok? <==> ApplyPlay(s, Human, card).Ok?
    ensures r.Ok? ==> r.value == card
  {
    if s.phase != Playing then Err(WrongPhase)
    else if s.whoseTurn != Human then Err(NotYourTurn)
    else if card !in s.hands[Human] then Err(CardNotInHand)
    else if card !in LegalNow(s) then Err(IllegalPlay)
    else Ok(card)
  }

  /** `submit_play`: validate, record and play the human's card, then run the
      AI loop straight away. */
  function SubmitPlay<P, Q>(r: Runner<P, Q>, card: Card): (res: Result<Runner<P, Q>>)
    ensures CheckHumanPlay(r.state, card).Err? ==> res == Err(CheckHumanPlay(r.state, card).error)
    ensures res.Ok? ==> CheckHumanPlay(r.state, card).Ok?
    ensures res.Ok? ==> Settled(res.value.state) && |res.value.events| >= 1 && res.value.events[0] == Play(Human, card)
    ensures res.Ok? ==> forall k | 1 <= k < |res.value.events| :: res.value.events[k].seat != Human
    ensures res.Ok? ==> Keeps(r, res.value)
  {
    var checked :- CheckHumanPlay(r.state, card);
    var start := r.(state := Played(r.state, card), events := [Play(Human, card)], roundEnded := false);
    RunAIKeepsRecord(start);
    RunAI(start)
  }

  /** When the human's card is the last of the round and wins the trick,
      `submit_play` returns with the round unscored, still in play, and the
      human to act with nothing to play: every later play is refused. */
  lemma SubmitPlayLastCardUnscored<P, Q>(r: Runner<P, Q>, card: Card)
    requires CheckHumanPlay(r.state, card).Ok? && !r.state.gameOver
    requires RoundComplete(Played(r.state, card)) && Played(r.state, card).whoseTurn == Human
    ensures SubmitPlay(r, card).Ok?
    ensures var after := SubmitPlay(r, card).value.state;
      && after == Played(r.state, card) && RoundComplete(after) && after.phase == Playing && !after.gameOver
      && forall c: Card :: SubmitPlay(SubmitPlay(r, card).value, c) == Err(CardNotInHand)
  {
  }

  /** When the human's card is the last of the round and an AI seat wins the
      trick, the loop asks that seat's strategy to choose from an empty legal
      list and `submit_play` fails: the strategy refuses, or `apply_play`
      refuses whatever card it names. */
  lemma SubmitPlayLastCardFails<P, Q(!new)>(r: Runner<P, Q>, card: Card)
    requires CheckHumanPlay(r.state, card).Ok? && !r.state.gameOver
    requires RoundComplete(Played(r.state, card)) && Played(r.state, card).whoseTurn != Human
    ensures SubmitPlay(r, card).Err?
    ensures PlayInterface(r.choosePlay) ==> SubmitPlay(r, card) == Err(NoLegalPlays)
  {
    var played := Played(r.state, card);
    var start := r.(state := played, events := [Play(Human, card)], roundEnded := false);
    assert SubmitPlay(r, card) == RunAI(start);
    assert played.phase == Playing && !played.gameOver;
    NothingToPlay(played);
    assert AIMove(start).Err?;
    RunAIFailsFirst(start);
    if PlayInterface(r.choosePlay) {
      AIMovePromise(start);
    }
  }

  /** Once every hand is empty the seat to act has no legal play. */
  lemma NothingToPlay(s: GameState)
    requires RoundComplete(s)
    ensures LegalNow(s) == []
  {
    assert s.hands[s.whoseTurn] == [];
  }

  /** A loop whose first move fails fails with it. */
  lemma RunAIFailsFirst<P, Q>(r: Runner<P, Q>)
    requires !Settled(r.state) && AIMove(r).Err?
    ensures RunAI(r) == Err(AIMove(r).error)
  {
  }

  /** `submit_play` as evidently intended: a round that the human's own card
      completes is scored (and the next one dealt) before the loop runs. */
  function SubmitPlayScored<P, Q>(r: Runner<P, Q>, card: Card): (res: Result<Runner<P, Q>>)
    ensures CheckHumanPlay(r.state, card).Err? ==> res == Err(CheckHumanPlay(r.state, card).error)
    ensures res.Ok? ==> CheckHumanPlay(r.state, card).Ok?
    ensures res.Ok? ==> Settled(res.value.state) && |res.value.events| >= 1 && res.value.events[0] == Play(Human, card)
    ensures res.Ok? ==> forall k | 1 <= k < |res.value.events| :: res.value.events[k].seat != Human
    ensures res.Ok? ==> Keeps(r, res.value)
    ensures res.Ok? && RoundComplete(res.value.state) ==> res.value.state.gameOver
  {
    var checked :- CheckHumanPlay(r.state, card);
    var start := r.(state := Played(r.state, card), events := [Play(Human, card)], roundEnded := false);
    if !RoundComplete(start.state) then
      var res := RunAI(start);
      if res.Ok? then GrowsFromHumanPlay(start, res.value, card); res else res
    else
      var ended := EndRound(start);
      if ended.1 then GrowsFromHumanPlay(start, ended.0, card); Ok(ended.0)
      else
        var res := RunAI(ended.0);
        if res.Ok? then GrowsTrans(start, ended.0, res.value); GrowsFromHumanPlay(start, res.value, card); res
        else res
  }

  /** Whatever follows the human's play in the record was played by AI seats. */
  lemma GrowsFromHumanPlay<P, Q>(a: Runner<P, Q>, b: Runner<P, Q>, card: Card)
    requires a.events == [Play(Human, card)] && Grows(a, b)
    ensures |b.events| >= 1 && b.events[0] == Play(Human, card)
    ensures forall k | 1 <= k < |b.events| :: b.events[k].seat != Human
    ensures Keeps(a, b)
  {
    assert b.events[0] == b.events[..1][0];
  }

  /** The two agree whenever the human's card does not end the round. */
  lemma SubmitPlayScoredAgrees<P, Q>(r: Runner<P, Q>, card: Card)
    requires CheckHumanPlay(r.state, card).Ok? ==> !RoundComplete(Played(r.state, card))
    ensures SubmitPlayScored(r, card) == SubmitPlay(r, card)
  {
  }

  // ---------------------------------------------------------------------------
  // Frontend projection
  // ---------------------------------------------------------------------------

  datatype PlayerView = PlayerView(name: string, score: int, cardCount: nat)

  /** `get_state_for_frontend`: cards as codes, the trick as four slots by
      seat. */
  datatype View = View(
    phase: Phase,
    round: int,
    passDirection: PassDirection,
    players: seq<PlayerView>,
    humanHand: seq<string>,
    legalPlays: seq<string>,
    currentTrick: seq<Option<Play>>,
    whoseTurn: Seat,
    heartsBroken: bool,
    gameOver: bool,
    winnerIndex: Option<int>)

  /** The codes of `cards`, in order. */
  function Codes(cards: seq<Card>): (r: seq<string>)
    ensures |r| == |cards|
    ensures forall i | 0 <= i < |cards| :: r[i] == ToCode(cards[i])
  {
    seq(|cards|, i requires 0 <= i < |cards| => ToCode(cards[i]))
  }

  /** Each code decodes back to its card. */
  lemma CodesDecode(cards: seq<Card>)
    ensures forall i | 0 <= i < |cards| :: FromCode(Codes(cards)[i]) == Ok(cards[i])
  {
    forall i | 0 <= i < |cards|
      ensures FromCode(Codes(cards)[i]) == Ok(cards[i])
    {
      FromCodeToCode(cards[i]);
    }
  }

  /** Every code of a sub-list is a code of the whole list. */
  lemma CodesSubseq(a: seq<Card>, b: seq<Card>)
    requires forall c | c in a :: c in b
    ensures forall x | x in Codes(a) :: x in Codes(b)
  {
    forall x | x in Codes(a)
      ensures x in Codes(b)
    {
      var i :| 0 <= i < |a| && Codes(a)[i] == x;
      assert a[i] in b;
      var j :| 0 <= j < |b| && b[j] == a[i];
      assert Codes(b)[j] == x;
    }
  }

  /** The name shown for seat `i`: the runner's name, or `Player i` when the
      list is shorter. */
  function SeatName(names: seq<string>, i: Seat): (n: string)
    ensures i < |names| ==> n == names[i]
    ensures i >= |names| ==> n == "Player " + [('0' as int + i) as char]
  {
    if i < |names| then names[i] else "Player " + [('0' as int + i) as char]
  }

  /** Position `k` holds seat `i`'s last play in `trick`. */
  predicate LastPlayBy(trick: Trick, i: Seat, k: int) {
    && 0 <= k < |trick| && trick[k].seat == i
    && forall m | k < m < |trick| :: trick[m].seat != i
  }

  /** The four trick slots: slot `i` holds seat `i`'s play (the later one, were
      there two), or nothing. */
  function TrickSlots(trick: Trick): (slots: seq<Option<Play>>)
    ensures |slots| == 4
    ensures forall i: Seat :: slots[i].None? <==> forall k | 0 <= k < |trick| :: trick[k].seat != i
    ensures forall i: Seat :: slots[i].Some? ==> exists k :: LastPlayBy(trick, i, k) && trick[k] == slots[i].value
  {
    if |trick| == 0 then [None, None, None, None]
    else
      var n := |trick| - 1;
      var last := trick[n];
      var before := TrickSlots(trick[..n]);
      var slots := before[last.seat := Some(last)];
      TrickSlotsSnoc(trick, trick[..n], before, slots);
      slots
  }

  /** Recording the trick's last play over the slots of the plays before it
      keeps the slots' meaning. */
  lemma TrickSlotsSnoc(trick: Trick, prefix: Trick, before: seq<Option<Play>>, slots: seq<Option<Play>>)
    requires |trick| > 0 && |before| == 4 && prefix == trick[..|trick| - 1]
    requires slots == before[trick[|trick| - 1].seat := Some(trick[|trick| - 1])]
    requires forall i: Seat :: before[i].None? <==> forall k | 0 <= k < |trick| - 1 :: trick[k].seat != i
    requires forall i: Seat :: before[i].Some? ==>
      exists k :: LastPlayBy(prefix, i, k) && prefix[k] == before[i].value
    ensures forall i: Seat :: slots[i].None? <==> forall k | 0 <= k < |trick| :: trick[k].seat != i
    ensures forall i: Seat :: slots[i].Some? ==> exists k :: LastPlayBy(trick, i, k) && trick[k] == slots[i].value
  {
    var n := |trick| - 1;
    var last := trick[n];
    assert LastPlayBy(trick, last.seat, n);
    forall i: Seat | i != last.seat && slots[i].Some?
      ensures exists k :: LastPlayBy(trick, i, k) && trick[k] == slots[i].value
    {
      var k :| LastPlayBy(prefix, i, k) && prefix[k] == slots[i].value;
      assert LastPlayBy(trick, i, k);
    }
    forall i: Seat
      ensures slots[i].None? <==> forall k | 0 <= k < |trick| :: trick[k].seat != i
    {
      assert forall k | 0 <= k < n :: trick[..n][k] == trick[k];
    }
  }

  /** `get_state_for_frontend`. */
  function FrontendView<P, Q>(r: Runner<P, Q>): (v: View)
    ensures |v.players| == 4
    ensures forall i: Seat ::
      v.players[i] == PlayerView(SeatName(r.names, i), r.state.scores[i], |r.state.hands[i]|)
    ensures |v.humanHand| == |r.state.hands[Human]|
    ensures v.humanHand == Codes(r.state.hands[Human])
    ensures |v.legalPlays| > 0 <==>
      r.state.phase == Playing && r.state.whoseTurn == Human && !r.state.gameOver && |r.state.hands[Human]| > 0
    ensures forall x | x in v.legalPlays :: x in v.humanHand
    ensures r.state.phase == Playing && r.state.whoseTurn == Human && !r.state.gameOver ==>
      && |v.legalPlays| == |LegalNow(r.state)|
      && forall k | 0 <= k < |v.legalPlays| :: FromCode(v.legalPlays[k]) == Ok(LegalNow(r.state)[k])
    ensures !(r.state.phase == Playing && r.state.whoseTurn == Human && !r.state.gameOver) ==> v.legalPlays == []
    ensures v.currentTrick == TrickSlots(r.state.currentTrick)
    ensures v.phase == r.state.phase && v.round == r.state.round && v.whoseTurn == r.state.whoseTurn
    ensures v.gameOver == r.state.gameOver && v.winnerIndex == r.state.winnerIndex
    ensures v.passDirection == r.state.passDirection && v.heartsBroken == r.state.heartsBroken
  {
    var s := r.state;
    var players := seq(4, i requires 0 <= i < 4 => PlayerView(SeatName(r.names, i), s.scores[i], |s.hands[i]|));
    var legal := if s.phase == Playing && s.whoseTurn == Human && !s.gameOver then LegalNow(s) else [];
    CodesSubseq(legal, s.hands[Human]);
    CodesDecode(legal);
    View(s.phase, s.round, s.passDirection, players, Codes(s.hands[Human]), Codes(legal),
         TrickSlots(s.currentTrick), s.whoseTurn, s.heartsBroken, s.gameOver, s.winnerIndex)
  }
}
