/** The strategy interfaces the engine calls, the random ("easy") strategy, and
    the factory that builds a pass/play pair from a difficulty name. Each
    strategy is a constructor of a datatype, and choosing dispatches on it; a
    strategy with state (the hard player's void tracker) returns its successor. */
module Strategies {
  import opened Wrappers
  import opened Seqs
  import opened Randomness
  import opened Text
  import opened Cards
  import opened Rules
  import opened GameStates
  import opened MediumAI
  import opened HardAI

  // ---------------------------------------------------------------------------
  // Random strategy
  // ---------------------------------------------------------------------------

  /** CPython's `Random.sample(pool, k)` for small pools: pick `randbelow(n)`
      among the `n` cards still in the pool, then move the pool's last card into
      the hole. */
  function SamplePool<T>(pool: seq<T>, k: nat, rng: Rng): (r: (seq<T>, Rng))
    requires k <= |pool|
    ensures |r.0| == k
    ensures multiset(r.0) <= multiset(pool)
    decreases k
  {
    if k == 0 then ([], rng)
    else
      var n := |pool|;
      var draw := RandBelow(rng, n);
      var j := draw.0;
      var swapped := Swap(pool, j, n - 1);
      var rest := swapped[..n - 1];
      assert swapped == rest + [pool[j]];
      assert multiset(pool) == multiset(rest) + multiset{pool[j]};
      var more := SamplePool(rest, k - 1, draw.1);
      ([pool[j]] + more.0, more.1)
  }

  /** A sample of a duplicate-free pool is duplicate-free. */
  lemma SampleNoDup<T>(pool: seq<T>, k: nat, rng: Rng)
    requires k <= |pool| && NoDup(pool)
    ensures NoDup(SamplePool(pool, k, rng).0)
  {
    var r := SamplePool(pool, k, rng).0;
    forall c
      ensures multiset(r)[c] <= 1
    {
      if c in pool {
        NoDupCount(pool, c);
      }
    }
    CountsNoDup(r);
  }

  /** `RandomPassStrategy.choose_cards_to_pass`: three cards drawn from the hand
      without replacement. */
  function RandomPass(hand: seq<Card>, rng: Rng): (r: Result<(seq<Card>, Rng)>)
    ensures r.Err? <==> |hand| < 3
    ensures r.Err? ==> r.error == HandTooSmall
    ensures r.Ok? ==> |r.value.0| == 3 && multiset(r.value.0) <= multiset(hand)
  {
    if |hand| < 3 then Err(HandTooSmall) else Ok(SamplePool(hand, 3, rng))
  }

  /** From a hand without duplicates the random pass is a valid pass. */
  lemma RandomPassValid(hand: seq<Card>, rng: Rng)
    requires |hand| >= 3 && NoDup(hand)
    ensures RandomPass(hand, rng).Ok? && IsValidPass(hand, RandomPass(hand, rng).value.0)
  {
    var three := RandomPass(hand, rng).value.0;
    SampleNoDup(hand, 3, rng);
    forall i | 0 <= i < 3
      ensures three[i] in hand
    {
      assert three[i] in multiset(three);
    }
  }

  /** `RandomPlayStrategy.choose_play`: `rng.choice(legal)`, which is
      `legal[randbelow(len(legal))]`. */
  function RandomPlay(legal: seq<Card>, rng: Rng): (r: Result<(Card, Rng)>)
    ensures r.Err? <==> |legal| == 0
    ensures r.Err? ==> r.error == NoLegalPlays
    ensures r.Ok? ==> r.value.0 in legal && r.value.1.pos == rng.pos + 1
  {
    if |legal| == 0 then Err(NoLegalPlays)
    else
      var draw := RandBelow(rng, |legal|);
      Ok((legal[draw.0], draw.1))
  }

  // ---------------------------------------------------------------------------
  // Interfaces
  // ---------------------------------------------------------------------------

  datatype PassStrategy = RandomPasser | MediumPasser | HardPasser

  /** The hard player keeps the number of worlds it samples and its tracker. */
  datatype PlayStrategy = RandomPlayer | MediumPlayer | HardPlayer(numWorlds: int, tracker: Tracker)

  /** `PassStrategy.choose_cards_to_pass`: exactly three cards of the hand, all
      strategies refusing a hand of fewer than three. The pass direction is
      accepted and ignored by every strategy. */
  function ChoosePass(st: PassStrategy, hand: seq<Card>, direction: PassDirection, rng: Rng): (r: Result<(seq<Card>, Rng)>)
    ensures r.Err? <==> |hand| < 3
    ensures r.Err? ==> r.error == HandTooSmall
    ensures r.Ok? ==> |r.value.0| == 3 && forall c | c in r.value.0 :: c in hand
    ensures !st.RandomPasser? ==> r.Ok? ==> r.value.1 == rng
  {
    match st
    case RandomPasser =>
      var r := RandomPass(hand, rng);
      assert r.Ok? ==> forall c | c in r.value.0 :: c in multiset(hand);
      r
    case MediumPasser =>
      var three :- MediumPass(hand);
      Ok((three, rng))
    case HardPasser =>
      var three :- HardPass(hand);
      Ok((three, rng))
  }

  /** The base-class promise that callers rely on: from a hand of thirteen
      distinct cards every strategy's pass passes `is_valid_pass`. */
  lemma ChoosePassValid(st: PassStrategy, hand: seq<Card>, direction: PassDirection, rng: Rng)
    requires |hand| >= 3 && NoDup(hand)
    ensures ChoosePass(st, hand, direction, rng).Ok?
    ensures IsValidPass(hand, ChoosePass(st, hand, direction, rng).value.0)
  {
    match st
    case RandomPasser => RandomPassValid(hand, rng);
    case MediumPasser => MediumPassValid(hand);
    case HardPasser => HardPassValid(hand);
  }

  /** `PlayStrategy.choose_play`: one card of the legal plays. The strategy
      comes back with its state updated; only the hard player's changes. */
  function ChoosePlay(st: PlayStrategy, s: GameState, player: Seat, legal: seq<Card>, rng: Rng): (r: Result<(Card, PlayStrategy, Rng)>)
    ensures |legal| == 0 ==> r == Err(NoLegalPlays)
    ensures r.Ok? ==> r.value.0 in legal
    ensures r.Ok? ==> r.value.1.RandomPlayer? == st.RandomPlayer? && r.value.1.MediumPlayer? == st.MediumPlayer?
    ensures r.Ok? && st.HardPlayer? ==> r.value.1.HardPlayer? && r.value.1.numWorlds == st.numWorlds
    ensures |legal| == 1 ==> r.Ok? && r.value.0 == legal[0]
    ensures !st.HardPlayer? ==> (r.Ok? <==> |legal| > 0)
  {
    match st
    case RandomPlayer =>
      var choice :- RandomPlay(legal, rng);
      Ok((choice.0, st, choice.1))
    case MediumPlayer =>
      var card :- MediumChoose(s, legal);
      Ok((card, st, rng))
    case HardPlayer(n, t) =>
      var choice :- HardChoose(s, player, legal, n, t, rng);
      Ok((choice.0, HardPlayer(n, choice.1), choice.2))
  }

  // ---------------------------------------------------------------------------
  // The interfaces as the engine sees them
  // ---------------------------------------------------------------------------

  /** A pass strategy seen from outside: its state and how it chooses. */
  type PassChooser<-P> = (P, seq<Card>, PassDirection, Rng) -> Result<(seq<Card>, Rng)>

  /** A play strategy seen from outside; choosing may update its state. */
  type PlayChooser<!Q> = (Q, GameState, Seat, seq<Card>, Rng) -> Result<(Card, Q, Rng)>

  /** The promise of `choose_cards_to_pass` for one hand: given the thirteen or
      more cards the caller guarantees, an answer; and any answer is three cards
      of the hand, which `is_valid_pass` accepts when the hand has no
      duplicates. */
  predicate PassPromise(hand: seq<Card>, r: Result<(seq<Card>, Rng)>) {
    && (|hand| >= 13 ==> r.Ok?)
    && (r.Ok? ==> |r.value.0| == 3 && forall c | c in r.value.0 :: c in hand)
    && (r.Ok? && NoDup(hand) ==> IsValidPass(hand, r.value.0))
  }

  /** `PassStrategy` (api/hearts/ai/base.py): every choice keeps the promise. */
  ghost predicate PassInterface<P(!new)>(choose: PassChooser<P>) {
    forall st: P, hand: seq<Card>, d: PassDirection, rng: Rng :: PassPromise(hand, choose(st, hand, d, rng))
  }

  /** The promise of `choose_play` for one legal list: a card of the list, and
      a refusal when the list is empty. */
  predicate PlayPromise<Q>(legal: seq<Card>, r: Result<(Card, Q, Rng)>) {
    && (|legal| == 0 ==> r == Err(NoLegalPlays))
    && (r.Ok? ==> r.value.0 in legal)
  }

  /** `PlayStrategy` (api/hearts/ai/base.py): every choice keeps the promise. */
  ghost predicate PlayInterface<Q(!new)>(choose: PlayChooser<Q>) {
    forall st: Q, s: GameState, p: Seat, legal: seq<Card>, rng: Rng :: PlayPromise(legal, choose(st, s, p, legal, rng))
  }

  /** The three pass strategies implement the interface. */
  lemma ChoosePassInterface()
    ensures PassInterface(ChoosePass)
  {
    forall st: PassStrategy, hand: seq<Card>, d: PassDirection, rng: Rng
      ensures PassPromise(hand, ChoosePass(st, hand, d, rng))
    {
      if |hand| >= 3 && NoDup(hand) {
        ChoosePassValid(st, hand, d, rng);
      }
    }
  }

  /** The three play strategies implement the interface. */
  lemma ChoosePlayInterface()
    ensures PlayInterface(ChoosePlay)
  {
  }

  // ---------------------------------------------------------------------------
  // Factory
  // ---------------------------------------------------------------------------

  /** Worlds sampled per card at each hard level. */
  const HardWorlds := 50
  const HarderWorlds := 100
  const HardestWorlds := 150

  /** `create_strategies`: the difficulty name is lower-cased and stripped of
      surrounding whitespace, then looked up. */
  function CreateStrategies(difficulty: string): (r: Result<(PassStrategy, PlayStrategy)>)
    ensures var d := Strip(Lower(difficulty));
      && (r.Ok? <==> d in {"easy", "medium", "hard", "harder", "hardest"})
      && (r.Err? ==> r.error == UnknownDifficulty)
      && (d == "easy" ==> r == Ok((RandomPasser, RandomPlayer)))
      && (d == "medium" ==> r == Ok((MediumPasser, MediumPlayer)))
      && (d == "hard" ==> r == Ok((HardPasser, HardPlayer(HardWorlds, FreshTracker))))
      && (d == "harder" ==> r == Ok((HardPasser, HardPlayer(HarderWorlds, FreshTracker))))
      && (d == "hardest" ==> r == Ok((HardPasser, HardPlayer(HardestWorlds, FreshTracker))))
  {
    var d := Strip(Lower(difficulty));
    if d == "easy" then Ok((RandomPasser, RandomPlayer))
    else if d == "medium" then Ok((MediumPasser, MediumPlayer))
    else if d == "hard" then Ok((HardPasser, HardPlayer(HardWorlds, FreshTracker)))
    else if d == "harder" then Ok((HardPasser, HardPlayer(HarderWorlds, FreshTracker)))
    else if d == "hardest" then Ok((HardPasser, HardPlayer(HardestWorlds, FreshTracker)))
    else Err(UnknownDifficulty)
  }

  /** Case and surrounding whitespace do not matter: a name and its normalised
      form build the same strategies. */
  lemma CreateStrategiesNormalised(difficulty: string)
    ensures CreateStrategies(difficulty) == CreateStrategies(Strip(Lower(difficulty)))
  {
    var d := Strip(Lower(difficulty));
    LowerStrip(Lower(difficulty));
    LowerIdempotent(difficulty);
    StripIdempotent(Lower(difficulty));
    assert Strip(Lower(d)) == d;
  }
}
