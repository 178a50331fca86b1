/** Invariants the transitions keep during a round: no card is created or
    duplicated, every card is held once, and the 26 points of the deck are always
    either still in play or already taken this round. */
module Invariants {
  import opened Wrappers
  import opened Seqs
  import opened Randomness
  import opened Cards
  import opened Rules
  import opened GameStates
  import opened Transitions

  /** The cards still in play: all hands, then the current trick. */
  function InPlay(s: GameState): seq<Card> {
    Flatten(s.hands) + TrickCards(s.currentTrick)
  }

  /** No card is in play twice. */
  ghost predicate Distinct(s: GameState) {
    forall c :: multiset(InPlay(s))[c] <= 1
  }

  /** Points still in play plus points taken this round. */
  function PointTotal(s: GameState): int {
    PointsOf(InPlay(s)) + Sum4(s.roundScores)
  }

  /** The round invariant. */
  ghost predicate Invariant(s: GameState) {
    && Distinct(s)
    && PointTotal(s) == 26
    && (forall i: Seat :: s.roundScores[i] >= 0)
    && |s.currentTrick| < 4
    && (s.phase == Passing ==> s.currentTrick == [])
  }

  // ---------------------------------------------------------------------------
  // Multiset bookkeeping
  // ---------------------------------------------------------------------------

  lemma FlattenMultiset(h: Hands)
    ensures multiset(Flatten(h)) == multiset(h[0]) + multiset(h[1]) + multiset(h[2]) + multiset(h[3])
  {
  }

  lemma HandWithinFlatten(h: Hands, p: Seat)
    ensures multiset(h[p]) <= multiset(Flatten(h))
  {
    FlattenMultiset(h);
  }

  /** Replacing one hand changes the pooled multiset by exactly that hand. */
  lemma FlattenUpdate(h: Hands, p: Seat, x: seq<Card>)
    ensures multiset(Flatten(h[p := x])) + multiset(h[p]) == multiset(Flatten(h)) + multiset(x)
  {
    FlattenMultiset(h);
    FlattenMultiset(h[p := x]);
  }

  /** Removing a card held once takes exactly that card away. */
  lemma RemoveOnce(hand: seq<Card>, c: Card)
    requires multiset(hand)[c] == 1
    ensures multiset(RemoveAll(hand, c)) + multiset{c} == multiset(hand)
  {
  }

  lemma ExtendedCards(s: GameState, card: Card)
    ensures TrickCards(Extended(s, card)) == TrickCards(s.currentTrick) + [card]
  {
  }

  lemma Cancel(a: multiset<Card>, h: multiset<Card>, f: multiset<Card>, x: multiset<Card>, c: Card)
    requires a + h == f + x
    requires x + multiset{c} == h
    ensures a + multiset{c} == f
  {
    forall y
      ensures (a + multiset{c})[y] == f[y]
    {
      assert (a + h)[y] == (f + x)[y];
      assert (x + multiset{c})[y] == h[y];
    }
  }

  /** A hand's cards are among the cards in play. */
  lemma HandInPlay(s: GameState, p: Seat, c: Card)
    ensures multiset(s.hands[p])[c] <= multiset(InPlay(s))[c]
  {
    HandWithinFlatten(s.hands, p);
    assert multiset(InPlay(s)) == multiset(Flatten(s.hands)) + multiset(TrickCards(s.currentTrick));
  }

  /** In a `Distinct` state every hand has no duplicates. */
  lemma DistinctHands(s: GameState, p: Seat)
    requires Distinct(s)
    ensures NoDup(s.hands[p])
  {
    forall c
      ensures multiset(s.hands[p])[c] <= 1
    {
      HandInPlay(s, p, c);
    }
    CountsNoDup(s.hands[p]);
  }

  // ---------------------------------------------------------------------------
  // Playing
  // ---------------------------------------------------------------------------

  /** The played card leaves the pooled hands, and nothing else does. */
  lemma HandsAfterPool(h: Hands, p: Seat, card: Card)
    requires multiset(h[p])[card] == 1
    ensures multiset(Flatten(HandsAfter(h, p, card))) + multiset{card} == multiset(Flatten(h))
  {
    var x := RemoveAll(h[p], card);
    RemoveOnce(h[p], card);
    FlattenUpdate(h, p, x);
    Cancel(multiset(Flatten(h[p := x])), multiset(h[p]), multiset(Flatten(h)), multiset(x), card);
  }

  /** A card played into an incomplete trick moves from its hand into the trick:
      nothing enters or leaves play. */
  lemma ContinuedMovesCard(s: GameState, card: Card)
    requires multiset(s.hands[s.whoseTurn])[card] == 1
    ensures multiset(InPlay(Continued(s, card))) == multiset(InPlay(s))
  {
    var r := Continued(s, card);
    var ff, tc := multiset(Flatten(r.hands)), multiset(TrickCards(s.currentTrick));
    HandsAfterPool(s.hands, s.whoseTurn, card);
    ExtendedCards(s, card);
    assert multiset(InPlay(s)) == ff + multiset{card} + tc;
    assert InPlay(r) == Flatten(r.hands) + (TrickCards(s.currentTrick) + [card]);
  }

  /** The card completing a trick leaves its hand, and the whole trick leaves
      play. */
  lemma CompletedMovesCard(s: GameState, card: Card)
    requires multiset(s.hands[s.whoseTurn])[card] == 1
    ensures multiset(InPlay(Completed(s, card))) + multiset(TrickCards(Extended(s, card))) == multiset(InPlay(s))
  {
    var r := Completed(s, card);
    var ff, tc := multiset(Flatten(r.hands)), multiset(TrickCards(s.currentTrick));
    HandsAfterPool(s.hands, s.whoseTurn, card);
    ExtendedCards(s, card);
    assert multiset(InPlay(s)) == ff + multiset{card} + tc;
    assert InPlay(r) == Flatten(r.hands) + [];
  }

  /** In a state satisfying the invariant the card to play is held exactly once. */
  lemma HeldOnce(s: GameState, card: Card)
    requires Distinct(s)
    requires card in s.hands[s.whoseTurn]
    ensures multiset(s.hands[s.whoseTurn])[card] == 1
  {
    HandInPlay(s, s.whoseTurn, card);
    assert card in multiset(s.hands[s.whoseTurn]);
  }

  lemma ContinuedKeepsInvariant(s: GameState, card: Card)
    requires Invariant(s) && s.phase == Playing
    requires multiset(s.hands[s.whoseTurn])[card] == 1
    requires |Extended(s, card)| < 4
    ensures Invariant(Continued(s, card))
  {
    var r := Continued(s, card);
    ContinuedMovesCard(s, card);
    PointsOfPermutation(InPlay(r), InPlay(s));
    assert PointTotal(r) == PointTotal(s);
  }

  lemma CompletedKeepsInvariant(s: GameState, card: Card)
    requires Invariant(s) && s.phase == Playing
    requires multiset(s.hands[s.whoseTurn])[card] == 1
    ensures Invariant(Completed(s, card))
  {
    var r := Completed(s, card);
    CompletedMovesCard(s, card);
    SmallerPoolDistinct(s, r, TrickCards(Extended(s, card)));
    CompletedKeepsPoints(s, card);
  }

  /** The points of the completed trick move from play to its winner. */
  lemma CompletedKeepsPoints(s: GameState, card: Card)
    requires multiset(s.hands[s.whoseTurn])[card] == 1
    ensures PointTotal(Completed(s, card)) == PointTotal(s)
  {
    var r := Completed(s, card);
    var t := Extended(s, card);
    CompletedMovesCard(s, card);
    PointsOfPermutation(InPlay(r) + TrickCards(t), InPlay(s));
    PointsOfAppend(InPlay(r), TrickCards(t));
    CreditSum(s.roundScores, r.whoseTurn, TrickPoints(t));
  }

  /** Taking cards out of a state without duplicates leaves none. */
  lemma SmallerPoolDistinct(s: GameState, r: GameState, gone: seq<Card>)
    requires Distinct(s)
    requires multiset(InPlay(r)) + multiset(gone) == multiset(InPlay(s))
    ensures Distinct(r)
  {
    forall c
      ensures multiset(InPlay(r))[c] <= 1
    {
      assert (multiset(InPlay(r)) + multiset(gone))[c] == multiset(InPlay(s))[c];
    }
  }

  /** Crediting a seat adds to the sum of the four. */
  lemma CreditSum(scores: Scores, w: Seat, points: int)
    ensures Sum4(Credit(scores, w, points)) == Sum4(scores) + points
  {
    var r := Credit(scores, w, points);
    assert r[w] == scores[w] + points;
  }

  /** `apply_play` keeps the round invariant. */
  lemma ApplyPlayKeepsInvariant(s: GameState, player: int, card: Card)
    requires Invariant(s)
    requires ApplyPlay(s, player, card).Ok?
    ensures Invariant(ApplyPlay(s, player, card).value)
  {
    assert card in s.hands[s.whoseTurn];
    HeldOnce(s, card);
    if |Extended(s, card)| < 4 {
      ContinuedKeepsInvariant(s, card);
    } else {
      CompletedKeepsInvariant(s, card);
    }
  }

  // ---------------------------------------------------------------------------
  // Passing
  // ---------------------------------------------------------------------------

  /** One seat's balance: what it ends with plus what it gave equals what it had
      plus what it received. */
  lemma SeatPassBalance(hands: Hands, passes: seq<seq<Card>>, d: PassDirection, i: Seat)
    requires |passes| == 4 && d != NoPass
    requires NoDup(hands[i]) && IsValidPass(hands[i], passes[i])
    ensures multiset(Redistribute(hands, passes, d)[i]) + multiset(passes[i])
         == multiset(hands[i]) + multiset(passes[RecvFrom(d, i)])
  {
    WithoutPass(hands[i], passes[i]);
    assert Redistribute(hands, passes, d)[i] == Without(hands[i], passes[i]) + passes[RecvFrom(d, i)];
  }

  /** Every seat receives exactly one pass, so the received passes are the sent
      ones in another order. */
  lemma ReceivedAreSent(passes: seq<seq<Card>>, d: PassDirection)
    requires |passes| == 4 && d != NoPass
    ensures multiset(passes[RecvFrom(d, 0)]) + multiset(passes[RecvFrom(d, 1)])
          + multiset(passes[RecvFrom(d, 2)]) + multiset(passes[RecvFrom(d, 3)])
         == multiset(passes[0]) + multiset(passes[1]) + multiset(passes[2]) + multiset(passes[3])
  {
  }

  /** A round of valid passes only moves cards between hands. */
  lemma RedistributeConserves(hands: Hands, passes: seq<seq<Card>>, d: PassDirection)
    requires |passes| == 4 && d != NoPass
    requires forall i: Seat :: NoDup(hands[i]) && IsValidPass(hands[i], passes[i])
    ensures multiset(Flatten(Redistribute(hands, passes, d))) == multiset(Flatten(hands))
  {
    var nh := Redistribute(hands, passes, d);
    SeatPassBalance(hands, passes, d, 0);
    SeatPassBalance(hands, passes, d, 1);
    SeatPassBalance(hands, passes, d, 2);
    SeatPassBalance(hands, passes, d, 3);
    ReceivedAreSent(passes, d);
    FlattenMultiset(nh);
    FlattenMultiset(hands);
    Balance4(multiset(nh[0]), multiset(nh[1]), multiset(nh[2]), multiset(nh[3]),
             multiset(hands[0]), multiset(hands[1]), multiset(hands[2]), multiset(hands[3]),
             multiset(passes[0]), multiset(passes[1]), multiset(passes[2]), multiset(passes[3]),
             multiset(passes[RecvFrom(d, 0)]), multiset(passes[RecvFrom(d, 1)]),
             multiset(passes[RecvFrom(d, 2)]), multiset(passes[RecvFrom(d, 3)]));
  }

  lemma Balance4(n0: multiset<Card>, n1: multiset<Card>, n2: multiset<Card>, n3: multiset<Card>,
                 h0: multiset<Card>, h1: multiset<Card>, h2: multiset<Card>, h3: multiset<Card>,
                 p0: multiset<Card>, p1: multiset<Card>, p2: multiset<Card>, p3: multiset<Card>,
                 q0: multiset<Card>, q1: multiset<Card>, q2: multiset<Card>, q3: multiset<Card>)
    requires n0 + p0 == h0 + q0 && n1 + p1 == h1 + q1 && n2 + p2 == h2 + q2 && n3 + p3 == h3 + q3
    requires q0 + q1 + q2 + q3 == p0 + p1 + p2 + p3
    ensures n0 + n1 + n2 + n3 == h0 + h1 + h2 + h3
  {
    forall y
      ensures (n0 + n1 + n2 + n3)[y] == (h0 + h1 + h2 + h3)[y]
    {
      assert (n0 + p0)[y] == (h0 + q0)[y];
      assert (n1 + p1)[y] == (h1 + q1)[y];
      assert (n2 + p2)[y] == (h2 + q2)[y];
      assert (n3 + p3)[y] == (h3 + q3)[y];
      assert (q0 + q1 + q2 + q3)[y] == (p0 + p1 + p2 + p3)[y];
    }
  }

  /** Passing only moves cards between hands. */
  lemma PassesPool(s: GameState, passes: seq<seq<Card>>)
    requires Distinct(s)
    requires ApplyPasses(s, passes).Ok?
    requires forall i: Seat :: IsValidPass(s.hands[i], passes[i])
    ensures multiset(Flatten(ApplyPasses(s, passes).value.hands)) == multiset(Flatten(s.hands))
  {
    var d := s.passDirection;
    if d != NoPass {
      forall i: Seat
        ensures NoDup(s.hands[i])
      {
        DistinctHands(s, i);
      }
      assert ApplyPasses(s, passes).value.hands == Redistribute(s.hands, passes, d);
      RedistributeConserves(s.hands, passes, d);
    }
  }

  /** Hands that together hold the deck hold no card twice. */
  lemma FullDeckHandsNoDup(hands: Hands, p: Seat)
    requires multiset(Flatten(hands)) == multiset(Deck52())
    ensures NoDup(hands[p])
  {
    forall c
      ensures multiset(hands[p])[c] <= 1
    {
      HandWithinFlatten(hands, p);
      NoDupCount(Deck52(), c);
    }
    CountsNoDup(hands[p]);
  }

  /** Valid passes from hands of thirteen distinct cards each leave ten cards
      behind in every hand, so the redistribution goes ahead and moves cards
      only between the hands. */
  lemma PassDirectionAccepts(hands: Hands, passes: seq<seq<Card>>, d: PassDirection)
    requires |passes| == 4
    requires forall i: Seat :: NoDup(hands[i]) && |hands[i]| == 13 && IsValidPass(hands[i], passes[i])
    ensures ApplyPassDirection(hands, passes, d).Ok?
    ensures multiset(Flatten(ApplyPassDirection(hands, passes, d).value)) == multiset(Flatten(hands))
  {
    if d != NoPass {
      forall i: Seat
        ensures |Without(hands[i], passes[i])| == 10
      {
        WithoutPass(hands[i], passes[i]);
      }
      RedistributeConserves(hands, passes, d);
    }
  }

  /** `apply_passes` accepts any valid pass from every seat when each hand
      holds thirteen distinct cards and someone holds 2♣: every hand keeps ten
      cards, and 2♣ is still held by someone afterwards. */
  lemma ApplyPassesAccepts(s: GameState, passes: seq<seq<Card>>)
    requires s.phase == Passing && |passes| == 4
    requires TwoOfClubs() in Flatten(s.hands)
    requires forall i: Seat :: NoDup(s.hands[i]) && |s.hands[i]| == 13 && IsValidPass(s.hands[i], passes[i])
    ensures ApplyPasses(s, passes).Ok?
  {
    PassDirectionAccepts(s.hands, passes, s.passDirection);
    var nh := ApplyPassDirection(s.hands, passes, s.passDirection).value;
    assert TwoOfClubs() in multiset(Flatten(nh));
    assert TwoOfClubs() in nh[0] + nh[1] + nh[2] + nh[3];
    ApplyPassesOpens(s, passes);
  }

  /** `apply_passes` goes ahead once the redistribution does and someone holds
      2♣ afterwards. */
  lemma ApplyPassesOpens(s: GameState, passes: seq<seq<Card>>)
    requires s.phase == Passing && |passes| == 4 && forall i | 0 <= i < 4 :: |passes[i]| == 3
    requires ApplyPassDirection(s.hands, passes, s.passDirection).Ok?
    requires FirstHolder(ApplyPassDirection(s.hands, passes, s.passDirection).value, TwoOfClubs()).Some?
    ensures ApplyPasses(s, passes).Ok?
  {
  }

  /** A state holding the same cards in play as an invariant one, with the
      same points taken, an empty trick and scores, satisfies the invariant. */
  lemma SamePoolInvariant(s: GameState, r: GameState)
    requires Invariant(s)
    requires multiset(InPlay(r)) == multiset(InPlay(s))
    requires r.roundScores == s.roundScores && r.currentTrick == []
    ensures Invariant(r)
  {
    PointsOfPermutation(InPlay(r), InPlay(s));
  }

  /** `apply_passes` with a valid pass from every seat keeps the cards in play and
      the round invariant. */
  lemma ApplyPassesKeepsInvariant(s: GameState, passes: seq<seq<Card>>)
    requires Invariant(s)
    requires ApplyPasses(s, passes).Ok?
    requires forall i: Seat :: IsValidPass(s.hands[i], passes[i])
    ensures multiset(InPlay(ApplyPasses(s, passes).value)) == multiset(InPlay(s))
    ensures Invariant(ApplyPasses(s, passes).value)
  {
    var r := ApplyPasses(s, passes).value;
    PassesPool(s, passes);
    assert r.currentTrick == [] && r.roundScores == s.roundScores;
    assert InPlay(r) == Flatten(r.hands) + [];
    assert InPlay(s) == Flatten(s.hands) + [];
    SamePoolInvariant(s, r);
  }

  // ---------------------------------------------------------------------------
  // Dealing and scoring
  // ---------------------------------------------------------------------------

  /** A state holding exactly a duplicate-free 26-point deck, with nothing taken
      yet, satisfies the invariant. */
  lemma FreshPoolInvariant(s: GameState, deck: seq<Card>)
    requires NoDup(deck) && PointsOf(deck) == 26
    requires multiset(InPlay(s)) == multiset(deck)
    requires s.roundScores == ZeroScores && s.currentTrick == []
    ensures Invariant(s)
  {
    PointsOfPermutation(InPlay(s), deck);
    forall c
      ensures multiset(InPlay(s))[c] <= 1
    {
      if c in deck {
        NoDupCount(deck, c);
      }
    }
  }

  lemma FullDeckInvariant(s: GameState)
    requires multiset(InPlay(s)) == multiset(Deck52())
    requires s.roundScores == ZeroScores && s.currentTrick == []
    ensures Invariant(s)
  {
    DeckPoints();
    FreshPoolInvariant(s, Deck52());
  }

  /** A round dealt from a full deck starts with the invariant. */
  lemma DealtRoundInvariant(hands: Hands, round: int, previousScores: Option<seq<int>>)
    requires multiset(Flatten(hands)) == multiset(Deck52())
    requires InitialStateAfterDeal(hands, round, previousScores).Ok?
    ensures Invariant(InitialStateAfterDeal(hands, round, previousScores).value)
  {
    var s := InitialStateAfterDeal(hands, round, previousScores).value;
    assert s.hands == hands && s.currentTrick == [] && s.roundScores == ZeroScores;
    assert InPlay(s) == Flatten(hands) + [];
    FullDeckInvariant(s);
  }

  /** Dealing a shuffled deck and starting the round establishes the invariant. */
  lemma ShuffledDealInvariant(rng: Rng, round: int, previousScores: Option<seq<int>>)
    requires InitialStateAfterDeal(Deal(Shuffle(Deck52(), rng).0).value, round, previousScores).Ok?
    ensures Invariant(InitialStateAfterDeal(Deal(Shuffle(Deck52(), rng).0).value, round, previousScores).value)
  {
    DealShuffledDeck(rng);
    DealtRoundInvariant(Deal(Shuffle(Deck52(), rng).0).value, round, previousScores);
  }

  /** At the end of a round the 26 points have all been taken, so scoring hands
      out 26 points in total, or 78 when someone shot the moon. */
  lemma RoundEndScoring(s: GameState)
    requires Invariant(s)
    requires forall i: Seat :: s.hands[i] == []
    requires s.currentTrick == []
    ensures Sum4(s.roundScores) == 26
    ensures ShotTheMoon(s.roundScores) ==>
      exists i: Seat :: s.roundScores[i] == 26 && forall j: Seat | j != i :: s.roundScores[j] == 0
    ensures Sum4(ApplyRoundScoring(s).scores) - Sum4(s.scores) ==
      if ShotTheMoon(s.roundScores) then 78 else 26
  {
    assert InPlay(s) == [];
    var r := ApplyRoundScoring(s);
    var rs := s.roundScores;
    if ShotTheMoon(rs) {
      var i: Seat :| rs[i] == 26;
      assert forall j: Seat | j != i :: rs[j] == 0;
      assert forall j: Seat :: r.scores[j] - s.scores[j] == (if j == i then 0 else 26);
    }
  }
}
