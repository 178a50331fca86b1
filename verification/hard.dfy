/** The "hard" strategies (api/hearts/ai/hard_ai.py): an exhaustive three-card pass
    search against a hand-danger score, and determinized Monte Carlo play that
    deals the unseen cards to the opponents, plays the rest of the round out with
    the medium strategy and keeps the card with the lowest total cost. */
module HardAI {
  import opened Wrappers
  import opened Seqs
  import opened Ordering
  import opened Randomness
  import opened Cards
  import opened Rules
  import opened GameStates
  import opened Transitions
  import opened MediumAI
  import opened Invariants

  // ---------------------------------------------------------------------------
  // Void tracking
  // ---------------------------------------------------------------------------

  /** Per seat, the suits that seat has shown it no longer holds. */
  type Voids = v: seq<set<Suit>> | |v| == 4 witness [{}, {}, {}, {}]

  const NoVoids: Voids := [{}, {}, {}, {}]

  /** `RoundTracker`: the round the voids belong to, -1 before the first
      observation. */
  datatype Tracker = Tracker(round: int, voids: Voids)

  const FreshTracker: Tracker := Tracker(-1, NoVoids)

  /** Seat `i` played off the lead suit somewhere in `trick[k..]`. */
  predicate OffSuitFrom(trick: Trick, lead: Suit, k: nat, i: Seat) {
    exists m | k <= m < |trick| :: trick[m].seat == i && trick[m].card.suit != lead
  }

  /** The loop over `trick[k:]` recording the lead suit as a void of every seat
      that played off it. */
  function MarkVoids(voids: Voids, trick: Trick, lead: Suit, k: nat): (r: Voids)
    ensures forall i: Seat :: r[i] == voids[i] + (if OffSuitFrom(trick, lead, k, i) then {lead} else {})
    decreases |trick| - k
  {
    if k >= |trick| then voids
    else
      var p := trick[k];
      var v: Voids := if p.card.suit != lead then voids[p.seat := voids[p.seat] + {lead}] else voids;
      var r := MarkVoids(v, trick, lead, k + 1);
      assert forall i: Seat :: OffSuitFrom(trick, lead, k, i) <==>
        OffSuitFrom(trick, lead, k + 1, i) || (p.seat == i && p.card.suit != lead);
      r
  }

  /** `RoundTracker.observe`: a new round starts from no voids; then every seat
      after the leader that did not follow the lead suit is void in it. */
  function Observe(t: Tracker, s: GameState): (r: Tracker)
    ensures r.round == s.round
    ensures s.round != t.round ==> forall i: Seat :: r.voids[i] <= (if |s.currentTrick| > 0 then {s.currentTrick[0].card.suit} else {})
    ensures s.round == t.round ==> forall i: Seat :: t.voids[i] <= r.voids[i]
    ensures forall i: Seat, k | 1 <= k < |s.currentTrick| ::
      s.currentTrick[k].seat == i && s.currentTrick[k].card.suit != s.currentTrick[0].card.suit ==>
      s.currentTrick[0].card.suit in r.voids[i]
    ensures |s.currentTrick| > 0 ==> forall i: Seat ::
      r.voids[i] - (if s.round != t.round then {} else t.voids[i]) <= {s.currentTrick[0].card.suit}
    ensures |s.currentTrick| < 2 ==> r.voids == (if s.round != t.round then NoVoids else t.voids)
    ensures |s.currentTrick| >= 2 ==> forall i: Seat ::
      r.voids[i] == (if s.round != t.round then {} else t.voids[i]) +
        (if OffSuitFrom(s.currentTrick, s.currentTrick[0].card.suit, 1, i) then {s.currentTrick[0].card.suit} else {})
  {
    var base := if s.round != t.round then Tracker(s.round, NoVoids) else t;
    var trick := s.currentTrick;
    if |trick| >= 2 then
      var lead := trick[0].card.suit;
      var r := Tracker(base.round, MarkVoids(base.voids, trick, lead, 1));
      assert forall i: Seat, k | 1 <= k < |trick| ::
        trick[k].seat == i && trick[k].card.suit != lead ==> OffSuitFrom(trick, lead, 1, i);
      r
    else base
  }

  // ---------------------------------------------------------------------------
  // Moon-aware cost
  // ---------------------------------------------------------------------------

  /** `_evaluate_round_scores`: a seat's cost for a finished round. */
  function EvaluateRoundScores(scores: Scores, player: Seat): (cost: int)
    ensures ShotTheMoon(scores) ==> cost == (if scores[player] == 26 then 0 else 26)
    ensures !ShotTheMoon(scores) ==> cost == scores[player]
  {
    if exists i | 0 <= i < 4 :: scores[i] == 26 then
      (if scores[player] == 26 then 0 else 26)
    else scores[player]
  }

  /** The cost is exactly what round scoring adds to that seat's total. */
  lemma EvaluateMatchesScoring(s: GameState, p: Seat)
    ensures ApplyRoundScoring(s).scores[p] - s.scores[p] == EvaluateRoundScores(s.roundScores, p)
  {
  }

  // ---------------------------------------------------------------------------
  // Hand danger, in tenths of the source's floating-point points
  // ---------------------------------------------------------------------------

  /** The sum of `f` over the cards. */
  function Tally(cards: seq<Card>, f: Card -> int): int {
    if |cards| == 0 then 0 else f(cards[0]) + Tally(cards[1..], f)
  }

  /** Replacing one card by another that `f` values the same keeps the tally. */
  lemma {:induction false} TallyUpdate(cards: seq<Card>, i: nat, c: Card, f: Card -> int)
    requires i < |cards| && f(c) == f(cards[i])
    ensures Tally(cards[i := c], f) == Tally(cards, f)
    decreases |cards|
  {
    if i > 0 {
      assert cards[i := c][1..] == cards[1..][i - 1 := c];
      TallyUpdate(cards[1..], i - 1, c, f);
    } else {
      assert cards[i := c][1..] == cards[1..];
    }
  }

  /** Appending a card adds its value to the tally. */
  lemma {:induction false} TallySnoc(cards: seq<Card>, c: Card, f: Card -> int)
    ensures Tally(cards + [c], f) == Tally(cards, f) + f(c)
    decreases |cards|
  {
    if |cards| > 0 {
      assert (cards + [c])[1..] == cards[1..] + [c];
      TallySnoc(cards[1..], c, f);
    }
  }

  /** Appending a card adds one to the count of its suit. */
  lemma {:induction false} SuitCountSnoc(cards: seq<Card>, c: Card, s: Suit)
    ensures SuitCount(cards + [c], s) == SuitCount(cards, s) + (if c.suit == s then 1 else 0)
    decreases |cards|
  {
    if |cards| > 0 {
      assert (cards + [c])[1..] == cards[1..] + [c];
      SuitCountSnoc(cards[1..], c, s);
    } else {
      assert (cards + [c])[1..] == [];
    }
  }

  /** Replacing a card by one of the same suit keeps every suit's count. */
  lemma {:induction false} SuitCountUpdate(cards: seq<Card>, i: nat, c: Card, s: Suit)
    requires i < |cards| && c.suit == cards[i].suit
    ensures SuitCount(cards[i := c], s) == SuitCount(cards, s)
    decreases |cards|
  {
    var b := cards[i := c];
    assert b == [b[0]] + b[1..] && cards == [cards[0]] + cards[1..];
    if i > 0 {
      assert b[1..] == cards[1..][i - 1 := c];
      SuitCountUpdate(cards[1..], i - 1, c, s);
    } else {
      assert b[1..] == cards[1..];
    }
  }

  /** Spades below the queen, which cover it. */
  function LowSpades(hand: seq<Card>): nat {
    if |hand| == 0 then 0
    else (if hand[0].suit == Spades && hand[0].rank < QueenRank then 1 else 0) + LowSpades(hand[1..])
  }

  function HighSpadeDanger(c: Card): int {
    if IsHighSpade(c) then 100 else 0
  }

  /** High hearts cost 0.8 per rank above six. */
  function HeartDanger(c: Card): int {
    if c.suit == Hearts && c.rank > 6 then (c.rank - 6) * 8 else 0
  }

  /** Q♠ danger: 15 less 2 per covering low spade, never below 5. */
  function QueenDanger(hand: seq<Card>): (d: int)
    ensures QueenOfSpades in hand ==> 50 <= d <= 150
    ensures QueenOfSpades !in hand ==> d == 0
  {
    if QueenOfSpades in hand then
      var low := LowSpades(hand);
      if 150 - low * 20 > 50 then 150 - low * 20 else 50
    else 0
  }

  function SuitsPresent(hand: seq<Card>): (n: nat)
    ensures n <= 4
  {
    (if SuitCount(hand, Clubs) > 0 then 1 else 0) + (if SuitCount(hand, Diamonds) > 0 then 1 else 0)
    + (if SuitCount(hand, Spades) > 0 then 1 else 0) + (if SuitCount(hand, Hearts) > 0 then 1 else 0)
  }

  function ShortSuitBonus(n: nat): int {
    if n == 1 then 30 else if n == 2 then 10 else 0
  }

  function ShortSuits(hand: seq<Card>): int {
    ShortSuitBonus(SuitCount(hand, Clubs)) + ShortSuitBonus(SuitCount(hand, Diamonds))
    + ShortSuitBonus(SuitCount(hand, Spades)) + ShortSuitBonus(SuitCount(hand, Hearts))
  }

  /** `_hand_danger`, times ten: lower is safer. */
  function HandDanger(hand: seq<Card>): int {
    QueenDanger(hand) + Tally(hand, HighSpadeDanger) + Tally(hand, HeartDanger)
    - (4 - SuitsPresent(hand)) * 50 - ShortSuits(hand)
  }

  /** Swapping a held Q♠ for a low spade lowers the danger by at least 5 points:
      every other term depends only on suits, hearts and high spades, which the
      swap keeps. */
  lemma QueenSwapLowersDanger(hand: seq<Card>, i: nat, r: Rank)
    requires i < |hand| && hand[i] == QueenOfSpades && r < QueenRank
    requires QueenOfSpades !in hand[i := Card(Spades, r)]
    ensures HandDanger(hand[i := Card(Spades, r)]) + 50 <= HandDanger(hand)
  {
    var c := Card(Spades, r);
    TallyUpdate(hand, i, c, HighSpadeDanger);
    TallyUpdate(hand, i, c, HeartDanger);
    SuitCountUpdate(hand, i, c, Clubs);
    SuitCountUpdate(hand, i, c, Diamonds);
    SuitCountUpdate(hand, i, c, Spades);
    SuitCountUpdate(hand, i, c, Hearts);
  }

  /** Clubs 2-5, diamonds 2-4 and hearts 2-3: the hand of the hard-pass danger
      test without its spade. */
  const SpadelessHand: seq<Card> := [Card(Clubs, 2), Card(Clubs, 3), Card(Clubs, 4), Card(Clubs, 5),
    Card(Diamonds, 2), Card(Diamonds, 3), Card(Diamonds, 4), Card(Hearts, 2), Card(Hearts, 3)]

  /** The same hand with 2♠ appended, as the test builds it after dropping Q♠. */
  const LowSpadeHand: seq<Card> := SpadelessHand + [Card(Spades, 2)]

  lemma SpadelessHandMinorSuits()
    ensures SuitCount(SpadelessHand, Clubs) == 4 && SuitCount(SpadelessHand, Diamonds) == 3
  {
  }

  lemma SpadelessHandMajorSuits()
    ensures SuitCount(SpadelessHand, Spades) == 0 && SuitCount(SpadelessHand, Hearts) == 2
  {
  }

  lemma SpadelessHandPoints()
    ensures Tally(SpadelessHand, HighSpadeDanger) == 0 && Tally(SpadelessHand, HeartDanger) == 0
    ensures LowSpades(SpadelessHand) == 0
  {
  }

  lemma LowSpadeHandNoQueen()
    ensures QueenOfSpades !in LowSpadeHand
  {
  }

  /** The test hand holding Q♠ is worth 11 points of danger; with 2♠ in place of
      the queen it is worth -4. */
  lemma HandDangerWorkedExample()
    ensures HandDanger([QueenOfSpades] + SpadelessHand) == 110
    ensures HandDanger(LowSpadeHand) == -40
  {
    QueenHandDanger();
    LowSpadeHandDanger();
  }

  lemma QueenHandDanger()
    ensures HandDanger([QueenOfSpades] + SpadelessHand) == 110
  {
    var with := [QueenOfSpades] + SpadelessHand;
    assert with[1..] == SpadelessHand;
    SpadelessHandMinorSuits();
    SpadelessHandMajorSuits();
    SpadelessHandPoints();
  }

  lemma LowSpadeHandDanger()
    ensures HandDanger(LowSpadeHand) == -40
  {
    var two := Card(Spades, 2);
    SpadelessHandMinorSuits();
    SpadelessHandMajorSuits();
    SpadelessHandPoints();
    SuitCountSnoc(SpadelessHand, two, Clubs);
    SuitCountSnoc(SpadelessHand, two, Diamonds);
    SuitCountSnoc(SpadelessHand, two, Spades);
    SuitCountSnoc(SpadelessHand, two, Hearts);
    TallySnoc(SpadelessHand, two, HighSpadeDanger);
    TallySnoc(SpadelessHand, two, HeartDanger);
    LowSpadeHandNoQueen();
  }

  // ---------------------------------------------------------------------------
  // Determinization
  // ---------------------------------------------------------------------------

  /** `[c for c in cards if c.suit not in avoid]`. */
  function Avoiding(cards: seq<Card>, avoid: set<Suit>): (r: seq<Card>)
    ensures forall c :: c in r <==> c in cards && c.suit !in avoid
    ensures Subseq(r, cards)
  {
    if |cards| == 0 then []
    else
      var rest := Avoiding(cards[1..], avoid);
      assert cards == [cards[0]] + cards[1..];
      if cards[0].suit in avoid then rest else [cards[0]] + rest
  }

  /** Removing the cards of a duplicate-free `used` that all lie in a
      duplicate-free `pool` leaves exactly the others. */
  lemma WithoutSize(pool: seq<Card>, used: seq<Card>)
    requires NoDup(pool) && NoDup(used) && forall c | c in used :: c in pool
    ensures |Without(pool, used)| == |pool| - |used|
  {
    var w := Without(pool, used);
    forall y
      ensures multiset(pool)[y] == (multiset(w) + multiset(used))[y]
    {
      if y in used {
        NoDupCount(pool, y);
        NoDupCount(used, y);
      }
    }
    assert multiset(pool) == multiset(w) + multiset(used);
  }

  /** Removing the cards of `known` from a duplicate-free pool loses at most
      `|known|` cards. */
  lemma WithoutAtLeast(pool: seq<Card>, known: seq<Card>)
    requires NoDup(pool)
    ensures |Without(pool, known)| >= |pool| - |known|
  {
    var w := Without(pool, known);
    var big := multiset(w) + multiset(known);
    forall y
      ensures multiset(pool)[y] <= big[y]
    {
      if y in pool {
        NoDupCount(pool, y);
      }
    }
    assert multiset(pool) <= big;
    assert big == multiset(pool) + (big - multiset(pool));
    assert |big| == |w| + |known|;
  }

  /** The cards one opponent receives: the first `need` unused cards of the pool
      outside the suits it is void in, or the first `need` unused cards of any
      suit when too few of those remain. */
  function DealStep(pool: seq<Card>, used: seq<Card>, avoid: set<Suit>, need: int): (h: seq<Card>)
    ensures forall c | c in h :: c in pool && c !in used
    ensures |Avoiding(Without(pool, used), avoid)| >= need ==>
      |h| <= |Avoiding(Without(pool, used), avoid)| && h == Avoiding(Without(pool, used), avoid)[..|h|] &&
      forall c | c in h :: c.suit !in avoid
    ensures |Avoiding(Without(pool, used), avoid)| < need ==>
      |h| <= |Without(pool, used)| && h == Without(pool, used)[..|h|]
    ensures 0 <= need <= |Without(pool, used)| ==> |h| == need
    ensures NoDup(pool) ==> NoDup(h)
  {
    var free := Without(pool, used);
    var strict := Avoiding(free, avoid);
    SubseqMembers(strict, free);
    var eligible := if |strict| < need then free else strict;
    var h := SliceTo(eligible, need);
    assert forall c | c in h :: c in eligible;
    assert NoDup(pool) ==> NoDup(h) by {
      if NoDup(pool) {
        SubseqNoDup(free, pool);
        SubseqNoDup(strict, free);
        PrefixNoDup(eligible, |h|);
      }
    }
    h
  }

  /** How one opponent's share is drawn, given the cards already dealt. */
  type Step = (seq<Card>, Seat) -> seq<Card>

  /** The cards dealt to the first `a` opponents of `order`, in dealing order. */
  function DealtBefore(hands: Hands, order: seq<Seat>, a: nat): seq<Card>
    requires a <= |order|
  {
    if a == 0 then [] else hands[order[0]] + DealtBefore(hands, order[1..], a - 1)
  }

  /** The hand of an opponent dealt earlier is part of what later ones see as
      used. */
  lemma {:induction false} DealtBeforeHas(hands: Hands, order: seq<Seat>, a: nat, b: nat)
    requires a < b <= |order|
    ensures forall c | c in hands[order[a]] :: c in DealtBefore(hands, order, b)
    decreases a
  {
    if a > 0 {
      DealtBeforeHas(hands, order[1..], a - 1, b - 1);
      assert order[1..][a - 1] == order[a];
    }
  }

  /** The loop over `opp_order`: each opponent in turn is dealt its share from
      what the earlier ones left. */
  function DealTo(order: seq<Seat>, step: Step, used: seq<Card>, dealt: Hands): (r: Hands)
    ensures forall j | 0 <= j < 4 && j !in order :: r[j] == dealt[j]
    decreases |order|
  {
    if |order| == 0 then dealt
    else
      var j := order[0];
      DealTo(order[1..], step, used + step(used, j), dealt[j := step(used, j)])
  }

  /** Each opponent's hand is the share it is dealt once the earlier opponents'
      hands are set aside. */
  lemma {:induction false} DealToSteps(order: seq<Seat>, step: Step, used: seq<Card>, dealt: Hands, a: nat)
    requires NoDup(order) && a < |order|
    ensures var r := DealTo(order, step, used, dealt);
      r[order[a]] == step(used + DealtBefore(r, order, a), order[a])
    decreases |order|
  {
    var r := DealTo(order, step, used, dealt);
    var j := order[0];
    var h := step(used, j);
    assert r == DealTo(order[1..], step, used + h, dealt[j := h]);
    assert j !in order[1..];
    if a == 0 {
      assert used + DealtBefore(r, order, 0) == used;
    } else {
      DealToSteps(order[1..], step, used + h, dealt[j := h], a - 1);
      assert order[1..][a - 1] == order[a];
      assert r[j] == h;
      assert used + DealtBefore(r, order, a) == (used + h) + DealtBefore(r, order[1..], a - 1);
    }
  }

  /** The cards `order` asks for in total. */
  function NeedTotal(need: seq<int>, order: seq<Seat>): (t: int)
    requires |need| == 4
    ensures (forall x | x in order :: need[x] >= 0) ==> t >= 0
  {
    if |order| == 0 then 0
    else
      assert forall x | x in order[1..] :: x in order;
      need[order[0]] + NeedTotal(need, order[1..])
  }

  lemma NoDupAppend(a: seq<Card>, b: seq<Card>)
    requires NoDup(a) && NoDup(b) && forall c | c in b :: c !in a
    ensures NoDup(a + b)
  {
    forall i, j | 0 <= i < j < |a + b|
      ensures (a + b)[i] != (a + b)[j]
    {
      if i < |a| && j >= |a| {
        assert (a + b)[j] == b[j - |a|] && b[j - |a|] in b;
      } else if i >= |a| {
        assert (a + b)[i] == b[i - |a|] && (a + b)[j] == b[j - |a|];
      }
    }
  }

  /** A step that, whenever the pool still holds enough unused cards, deals an
      opponent exactly its share of unused pool cards, without duplicates. */
  ghost predicate GoodStep(step: Step, pool: seq<Card>, need: seq<int>)
    requires |need| == 4
  {
    forall u: seq<Card>, j: Seat | NoDup(u) && (forall c | c in u :: c in pool) && 0 <= need[j] <= |pool| - |u| ::
      |step(u, j)| == need[j] && NoDup(step(u, j)) && forall c | c in step(u, j) :: c in pool && c !in u
  }

  /** When the pool holds enough cards for everyone, every opponent gets exactly
      its share. */
  lemma {:induction false} DealToSizes(pool: seq<Card>, order: seq<Seat>, step: Step, need: seq<int>,
                                       used: seq<Card>, dealt: Hands)
    requires |need| == 4 && GoodStep(step, pool, need)
    requires NoDup(order) && NoDup(pool) && NoDup(used) && forall c | c in used :: c in pool
    requires forall x | x in order :: need[x] >= 0
    requires NeedTotal(need, order) <= |pool| - |used|
    ensures forall x | x in order :: |DealTo(order, step, used, dealt)[x]| == need[x]
    decreases |order|
  {
    if |order| > 0 {
      var j := order[0];
      var h := step(used, j);
      assert forall x | x in order[1..] :: x in order;
      assert NeedTotal(need, order[1..]) >= 0;
      assert |h| == need[j];
      NoDupAppend(used, h);
      DealToSizes(pool, order[1..], step, need, used + h, dealt[j := h]);
      assert j !in order[1..];
      assert forall x | x in order :: x == j || x in order[1..];
    }
  }

  /** The step of `_determinize`: `DealStep` with the opponent's voids and share. */
  function ShareStep(pool: seq<Card>, voids: Voids, need: seq<int>): (step: Step)
    requires |need| == 4
    ensures forall u: seq<Card>, j: Seat :: step(u, j) == DealStep(pool, u, voids[j], need[j])
  {
    (u: seq<Card>, j: Seat) => DealStep(pool, u, voids[j], need[j])
  }

  lemma ShareStepGood(pool: seq<Card>, voids: Voids, need: seq<int>)
    requires |need| == 4 && NoDup(pool)
    ensures GoodStep(ShareStep(pool, voids, need), pool, need)
  {
    var step := ShareStep(pool, voids, need);
    forall u: seq<Card>, j: Seat | NoDup(u) && (forall c | c in u :: c in pool) && 0 <= need[j] <= |pool| - |u|
      ensures |step(u, j)| == need[j] && NoDup(step(u, j)) && forall c | c in step(u, j) :: c in pool && c !in u
    {
      WithoutSize(pool, u);
    }
  }

  /** Seat `x` is dealt before seat `y`: it has more known voids, or as many and
      comes first at the table (`sorted` is stable). */
  predicate DealtFirst(voids: Voids, x: Seat, y: Seat) {
    |voids[x]| > |voids[y]| || (|voids[x]| == |voids[y]| && x < y)
  }

  predicate InDealOrder(voids: Voids, r: seq<Seat>) {
    forall a, b | 0 <= a < b < |r| :: DealtFirst(voids, r[a], r[b])
  }

  predicate Ascending(ps: seq<Seat>) {
    forall a, b | 0 <= a < b < |ps| :: ps[a] < ps[b]
  }

  /** One step of a stable sort by descending void count: `x`, which came
      before every seat of `xs`, goes in front of the first seat with no more
      voids than it. */
  function InsertByVoids(voids: Voids, x: Seat, xs: seq<Seat>): (r: seq<Seat>)
    ensures |r| == |xs| + 1 && multiset(r) == multiset(xs) + multiset{x}
  {
    if |xs| == 0 || |voids[x]| >= |voids[xs[0]]| then [x] + xs
    else
      assert xs == [xs[0]] + xs[1..];
      [xs[0]] + InsertByVoids(voids, x, xs[1..])
  }

  lemma DealOrderTail(voids: Voids, xs: seq<Seat>)
    requires |xs| > 0 && InDealOrder(voids, xs)
    ensures InDealOrder(voids, xs[1..])
  {
    forall a, b | 0 <= a < b < |xs| - 1
      ensures DealtFirst(voids, xs[1..][a], xs[1..][b])
    {
      assert xs[1..][a] == xs[a + 1] && xs[1..][b] == xs[b + 1];
    }
  }

  /** Inserting a seat that came before all the others keeps the order. */
  lemma {:induction false} InsertByVoidsSorted(voids: Voids, x: Seat, xs: seq<Seat>)
    requires forall y | y in xs :: x < y
    requires InDealOrder(voids, xs)
    ensures InDealOrder(voids, InsertByVoids(voids, x, xs))
  {
    var r := InsertByVoids(voids, x, xs);
    if |xs| == 0 || |voids[x]| >= |voids[xs[0]]| {
      forall a, b | 0 <= a < b < |r|
        ensures DealtFirst(voids, r[a], r[b])
      {
        assert r[b] == xs[b - 1];
        if a == 0 {
          assert xs[b - 1] in xs;
          if b > 1 {
            assert DealtFirst(voids, xs[0], xs[b - 1]);
          }
        } else {
          assert r[a] == xs[a - 1];
        }
      }
    } else {
      var rest := InsertByVoids(voids, x, xs[1..]);
      assert forall y | y in xs[1..] :: y in xs;
      DealOrderTail(voids, xs);
      InsertByVoidsSorted(voids, x, xs[1..]);
      forall a, b | 0 <= a < b < |r|
        ensures DealtFirst(voids, r[a], r[b])
      {
        assert r[b] == rest[b - 1];
        if a == 0 {
          assert rest[b - 1] in multiset(rest);
          if rest[b - 1] != x {
            assert rest[b - 1] in multiset(xs[1..]);
            var k :| 0 <= k < |xs[1..]| && xs[1..][k] == rest[b - 1];
            assert DealtFirst(voids, xs[0], xs[k + 1]);
          }
        } else {
          assert r[a] == rest[a - 1];
        }
      }
    }
  }

  /** `sorted(ps, key=len(voids[j]), reverse=True)`, by insertion from the back. */
  function SortByVoids(voids: Voids, ps: seq<Seat>): (r: seq<Seat>)
    ensures |r| == |ps| && multiset(r) == multiset(ps)
  {
    if |ps| == 0 then []
    else
      assert ps == [ps[0]] + ps[1..];
      InsertByVoids(voids, ps[0], SortByVoids(voids, ps[1..]))
  }

  /** Seats listed in table order come out in dealing order. */
  lemma {:induction false} SortByVoidsSorted(voids: Voids, ps: seq<Seat>)
    requires Ascending(ps)
    ensures InDealOrder(voids, SortByVoids(voids, ps))
  {
    if |ps| > 0 {
      var rest := SortByVoids(voids, ps[1..]);
      assert Ascending(ps[1..]) by {
        forall a, b | 0 <= a < b < |ps| - 1
          ensures ps[1..][a] < ps[1..][b]
        {
          assert ps[1..][a] == ps[a + 1] && ps[1..][b] == ps[b + 1];
        }
      }
      SortByVoidsSorted(voids, ps[1..]);
      forall y | y in rest
        ensures ps[0] < y
      {
        assert y in multiset(ps[1..]);
        var k :| 0 <= k < |ps[1..]| && ps[1..][k] == y;
        assert ps[k + 1] == y;
      }
      InsertByVoidsSorted(voids, ps[0], rest);
    }
  }

  /** `[j for j in range(4) if j != player]`. */
  function Opponents(player: Seat): (r: seq<Seat>)
    ensures |r| == 3 && Ascending(r)
    ensures forall j: Seat :: j in multiset(r) <==> j != player
  {
    if player == 0 then [1, 2, 3]
    else if player == 1 then [0, 2, 3]
    else if player == 2 then [0, 1, 3]
    else [0, 1, 2]
  }

  /** `opp_order`: the opponents, dealt in order of `SortByVoids`. */
  function DealOrder(player: Seat, voids: Voids): (order: seq<Seat>)
    ensures |order| == 3
    ensures forall j: Seat :: j in order <==> j != player
  {
    var order := SortByVoids(voids, Opponents(player));
    assert forall j: Seat :: j in order <==> j in multiset(order);
    order
  }

  /** The dealing order lists each opponent once, those with more known voids
      first and seats in table order among equals. */
  lemma DealOrderSorted(player: Seat, voids: Voids)
    ensures InDealOrder(voids, DealOrder(player, voids))
    ensures NoDup(DealOrder(player, voids))
  {
    var order := DealOrder(player, voids);
    SortByVoidsSorted(voids, Opponents(player));
    forall a, b | 0 <= a < b < 3
      ensures order[a] != order[b]
    {
      assert DealtFirst(voids, order[a], order[b]);
    }
  }

  /** The seats that have played to the trick, in play order. */
  function TrickSeats(t: Trick): (r: seq<Seat>)
    ensures |r| == |t|
    ensures forall k | 0 <= k < |t| :: r[k] == t[k].seat
  {
    seq(|t|, k requires 0 <= k < |t| => t[k].seat)
  }

  /** `sizes`: an opponent that has already played to the trick holds one card
      fewer than the acting seat. */
  function Needs(s: GameState, player: Seat): (need: seq<int>)
    ensures |need| == 4
    ensures forall j | 0 <= j < 4 ::
      need[j] == if j in TrickSeats(s.currentTrick) then |s.hands[player]| - 1 else |s.hands[player]|
  {
    var seats := TrickSeats(s.currentTrick);
    seq(4, j requires 0 <= j < 4 => if j in seats then |s.hands[player]| - 1 else |s.hands[player]|)
  }

  /** `_ALL_CARDS - my_hand - trick_cards`, listed in deck order. */
  function Unknown(s: GameState, player: Seat): (u: seq<Card>)
    ensures forall c :: c in u <==> c !in s.hands[player] && c !in TrickCards(s.currentTrick)
    ensures NoDup(u)
    ensures |u| >= 52 - |s.hands[player]| - |TrickCards(s.currentTrick)|
  {
    var known := s.hands[player] + TrickCards(s.currentTrick);
    var deck := Deck52();
    UnknownFacts(deck, known);
    Without(deck, known)
  }

  lemma UnknownFacts(deck: seq<Card>, known: seq<Card>)
    requires NoDup(deck)
    ensures NoDup(Without(deck, known))
    ensures |Without(deck, known)| >= |deck| - |known|
  {
    SubseqNoDup(Without(deck, known), deck);
    WithoutAtLeast(deck, known);
  }

  const NoHands: Hands := [[], [], [], []]

  /** `_determinize`: deal the unseen cards, shuffled, to the three opponents,
      keeping the acting seat's hand and everything but the hands. */
  function Determinize(s: GameState, player: Seat, voids: Voids, rng: Rng): (r: (GameState, Rng))
    ensures r.0 == s.(hands := r.0.hands)
    ensures r.0.hands[player] == s.hands[player]
    ensures r.1 == Shuffle(Unknown(s, player), rng).1
  {
    var shuffled := Shuffle(Unknown(s, player), rng);
    var order := DealOrder(player, voids);
    var hands := DealOpponents(order, ShareStep(shuffled.0, voids, Needs(s, player)), player, s.hands[player]);
    (s.(hands := hands), shuffled.1)
  }

  /** The opponents' hands dealt in `order`, with `own` kept for the acting seat. */
  function DealOpponents(order: seq<Seat>, step: Step, player: Seat, own: seq<Card>): (hands: Hands)
    requires player !in order
    ensures hands[player] == own
  {
    DealTo(order, step, [], NoHands[player := own])
  }

  lemma DealOpponentsShares(order: seq<Seat>, step: Step, player: Seat, own: seq<Card>, a: nat)
    requires player !in order && NoDup(order) && a < |order|
    ensures var hands := DealOpponents(order, step, player, own);
      hands[order[a]] == step(DealtBefore(hands, order, a), order[a])
  {
    var hands := DealOpponents(order, step, player, own);
    DealToSteps(order, step, [], NoHands[player := own], a);
    assert [] + DealtBefore(hands, order, a) == DealtBefore(hands, order, a);
  }

  /** Each opponent, in dealing order, receives `DealStep`'s share of the
      shuffled unseen cards once the earlier opponents' hands are set aside. */
  lemma DeterminizeShares(s: GameState, player: Seat, voids: Voids, rng: Rng, a: nat)
    requires a < 3
    ensures var hands := Determinize(s, player, voids, rng).0.hands;
      var order := DealOrder(player, voids);
      hands[order[a]] == DealStep(Shuffle(Unknown(s, player), rng).0, DealtBefore(hands, order, a),
                                  voids[order[a]], Needs(s, player)[order[a]])
  {
    var pool := Shuffle(Unknown(s, player), rng).0;
    var order := DealOrder(player, voids);
    var step := ShareStep(pool, voids, Needs(s, player));
    DealOrderSorted(player, voids);
    assert Determinize(s, player, voids, rng).0.hands == DealOpponents(order, step, player, s.hands[player]);
    DealOpponentsShares(order, step, player, s.hands[player], a);
  }

  /** The opponents' hands hold only unseen cards, without duplicates, and no
      card goes to two of them. */
  lemma DeterminizeDisjoint(s: GameState, player: Seat, voids: Voids, rng: Rng, j: Seat, k: Seat, c: Card)
    requires j != player && k != player && j != k
    requires c in Determinize(s, player, voids, rng).0.hands[j]
    ensures c !in s.hands[player] && c !in TrickCards(s.currentTrick)
    ensures c !in Determinize(s, player, voids, rng).0.hands[k]
    ensures NoDup(Determinize(s, player, voids, rng).0.hands[j])
  {
    var hands := Determinize(s, player, voids, rng).0.hands;
    var pool := Shuffle(Unknown(s, player), rng).0;
    NoDupPermutation(Unknown(s, player), pool);
    var order := DealOrder(player, voids);
    assert j in order && k in order;
    var a :| 0 <= a < 3 && order[a] == j;
    var b :| 0 <= b < 3 && order[b] == k;
    DeterminizeShares(s, player, voids, rng, a);
    DeterminizeShares(s, player, voids, rng, b);
    assert c in pool;
    if a < b {
      DealtBeforeHas(hands, order, a, b);
    } else {
      DealtBeforeHas(hands, order, b, a);
    }
  }

  /** Seats in `ys` counted along `xs`. */
  function CountIn(xs: seq<Seat>, ys: seq<Seat>): nat {
    if |xs| == 0 then 0 else (if xs[0] in ys then 1 else 0) + CountIn(xs[1..], ys)
  }

  lemma {:induction false} CountInSnoc(xs: seq<Seat>, ys: seq<Seat>, y: Seat)
    requires y !in ys
    ensures CountIn(xs, ys + [y]) == CountIn(xs, ys) + multiset(xs)[y]
    decreases |xs|
  {
    if |xs| > 0 {
      CountInSnoc(xs[1..], ys, y);
      assert xs == [xs[0]] + xs[1..];
    }
  }

  /** Along a duplicate-free `xs` holding every element of a duplicate-free `ys`,
      the count is `|ys|`. */
  lemma {:induction false} CountInAll(xs: seq<Seat>, ys: seq<Seat>)
    requires NoDup(xs) && NoDup(ys) && forall y | y in ys :: y in xs
    ensures CountIn(xs, ys) == |ys|
    decreases |ys|
  {
    if |ys| == 0 {
      assert CountIn(xs, ys) == 0 by {
        CountInNone(xs, ys);
      }
    } else {
      var init := ys[..|ys| - 1];
      var y := ys[|ys| - 1];
      assert ys == init + [y];
      assert y !in init;
      assert forall z | z in init :: z in ys;
      CountInAll(xs, init);
      CountInSnoc(xs, init, y);
      NoDupCount(xs, y);
    }
  }

  lemma {:induction false} CountInNone(xs: seq<Seat>, ys: seq<Seat>)
    requires |ys| == 0
    ensures CountIn(xs, ys) == 0
    decreases |xs|
  {
    if |xs| > 0 {
      CountInNone(xs[1..], ys);
    }
  }

  /** Summed over the opponents, the shares come to `|order| * n` less one per
      opponent already in the trick. */
  lemma {:induction false} NeedTotalCount(need: seq<int>, seats: seq<Seat>, n: int, order: seq<Seat>)
    requires |need| == 4
    requires forall j: Seat :: need[j] == if j in seats then n - 1 else n
    ensures NeedTotal(need, order) == |order| * n - CountIn(order, seats)
    decreases |order|
  {
    if |order| > 0 {
      NeedTotalCount(need, seats, n, order[1..]);
      assert |order| * n == n + (|order| - 1) * n;
    }
  }

  lemma DealOpponentsSizes(pool: seq<Card>, order: seq<Seat>, step: Step, need: seq<int>, seats: seq<Seat>,
                           n: int, player: Seat, own: seq<Card>)
    requires |need| == 4 && GoodStep(step, pool, need)
    requires NoDup(order) && NoDup(pool) && NoDup(seats) && player !in order
    requires forall y | y in seats :: y in order
    requires forall j: Seat :: need[j] == if j in seats then n - 1 else n
    requires 1 <= n && |order| * n - |seats| <= |pool|
    ensures forall x | x in order :: |DealOpponents(order, step, player, own)[x]| == need[x]
  {
    CountInAll(order, seats);
    NeedTotalCount(need, seats, n, order);
    DealToSizes(pool, order, step, need, [], NoHands[player := own]);
  }

  /** With at most 13 cards of its own, and a trick whose players are distinct
      opponents, the acting seat's opponents are always dealt their full share. */
  lemma DeterminizeFullyDealt(s: GameState, player: Seat, voids: Voids, rng: Rng, j: Seat)
    requires 1 <= |s.hands[player]| <= 13
    requires NoDup(TrickSeats(s.currentTrick)) && player !in TrickSeats(s.currentTrick)
    requires j != player
    ensures |Determinize(s, player, voids, rng).0.hands[j]| == Needs(s, player)[j]
  {
    var pool := Shuffle(Unknown(s, player), rng).0;
    var order := DealOrder(player, voids);
    var need := Needs(s, player);
    ShuffledPool(s, player, rng);
    NeedsFit(s, player, order, |pool|);
    ShareStepGood(pool, voids, need);
    DealOrderSorted(player, voids);
    DealOpponentsSizes(pool, order, ShareStep(pool, voids, need), need, TrickSeats(s.currentTrick),
                       |s.hands[player]|, player, s.hands[player]);
    DeterminizeDeals(s, player, voids, rng);
  }

  /** The unknown cards, shuffled, are still distinct and still enough. */
  lemma ShuffledPool(s: GameState, player: Seat, rng: Rng)
    ensures NoDup(Shuffle(Unknown(s, player), rng).0)
    ensures |Shuffle(Unknown(s, player), rng).0| >= 52 - |s.hands[player]| - |TrickCards(s.currentTrick)|
  {
    NoDupPermutation(Unknown(s, player), Shuffle(Unknown(s, player), rng).0);
  }

  /** The sampled hands are the opponents' shares of the shuffled pool. */
  lemma DeterminizeDeals(s: GameState, player: Seat, voids: Voids, rng: Rng)
    ensures var pool := Shuffle(Unknown(s, player), rng).0;
      Determinize(s, player, voids, rng).0.hands ==
        DealOpponents(DealOrder(player, voids), ShareStep(pool, voids, Needs(s, player)), player, s.hands[player])
  {
  }

  /** The unknown cards are enough for every opponent's share: the three
      opponents need `3 n` cards less one per card already in the trick. */
  lemma NeedsFit(s: GameState, player: Seat, order: seq<Seat>, poolSize: nat)
    requires 1 <= |s.hands[player]| <= 13
    requires player !in TrickSeats(s.currentTrick)
    requires |order| == 3 && forall y: Seat :: y in order <==> y != player
    requires poolSize >= 52 - |s.hands[player]| - |TrickCards(s.currentTrick)|
    ensures forall y | y in TrickSeats(s.currentTrick) :: y in order
    ensures var n := |s.hands[player]|; forall i: Seat :: Needs(s, player)[i] == if i in TrickSeats(s.currentTrick) then n - 1 else n
    ensures |order| * |s.hands[player]| - |TrickSeats(s.currentTrick)| <= poolSize
  {
    var n := |s.hands[player]|;
    assert |TrickSeats(s.currentTrick)| == |TrickCards(s.currentTrick)|;
    assert |order| * n == 3 * n;
  }

  // ---------------------------------------------------------------------------
  // Rollouts
  // ---------------------------------------------------------------------------

  /** Playing a held card takes it out of the hands. */
  lemma PlayedShrinks(s: GameState, card: Card)
    requires card in s.hands[s.whoseTurn]
    ensures |Flatten(Played(s, card).hands)| < |Flatten(s.hands)|
  {
    var p := s.whoseTurn;
    var h := HandsAfter(s.hands, p, card);
    assert Played(s, card).hands == h;
    FlattenUpdate(s.hands, p, RemoveAll(s.hands[p], card));
    assert |multiset(Flatten(h))| + |s.hands[p]| == |multiset(Flatten(s.hands))| + |RemoveAll(s.hands[p], card)|;
  }

  /** `_simulate_remaining`: the medium strategy plays every seat until the
      hands run out or the seat to act holds nothing. Since a non-empty hand
      always has a legal play, the source's stop on an empty list of legal
      plays never fires. */
  function SimulateRemaining(s: GameState): (r: Result<Scores>)
    ensures s.phase == Playing ==> r.Ok?
    ensures r.Err? ==> r.error == WrongPhase
    ensures |Flatten(s.hands)| == 0 || |s.hands[s.whoseTurn]| == 0 ==> r == Ok(s.roundScores)
    ensures r.Ok? ==> forall i: Seat :: r.value[i] >= s.roundScores[i]
    decreases |Flatten(s.hands)|
  {
    if |Flatten(s.hands)| == 0 || |s.hands[s.whoseTurn]| == 0 then Ok(s.roundScores)
    else
      var legal := LegalNow(s);
      var card := MediumChoose(s, legal).value;
      var next := ApplyPlay(s, s.whoseTurn, card);
      if next.Err? then Err(next.error)
      else
        PlayedShrinks(s, card);
        SimulateRemaining(next.value)
  }

  /** Played out from a state that keeps the round invariant, the rollout never
      loses a point: every seat ends with a non-negative score and the scores
      never exceed the 26 points of the deck. */
  lemma {:induction false} SimulateWithinBudget(s: GameState)
    requires Invariant(s)
    ensures SimulateRemaining(s).Ok? ==>
      (forall i: Seat :: SimulateRemaining(s).value[i] >= 0) && Sum4(SimulateRemaining(s).value) <= 26
    decreases |Flatten(s.hands)|
  {
    if |Flatten(s.hands)| == 0 || |s.hands[s.whoseTurn]| == 0 {
      assert PointTotal(s) == PointsOf(InPlay(s)) + Sum4(s.roundScores);
    } else {
      var legal := LegalNow(s);
      var card := MediumChoose(s, legal).value;
      var next := ApplyPlay(s, s.whoseTurn, card);
      if next.Ok? {
        ApplyPlayKeepsInvariant(s, s.whoseTurn, card);
        PlayedShrinks(s, card);
        SimulateWithinBudget(next.value);
      }
    }
  }

  /** The cost to `player` of playing `card` in one sampled world and rolling
      the rest of the round out. */
  function WorldCost(world: GameState, player: Seat, card: Card): (r: Result<int>)
    ensures r.Err? <==> ApplyPlay(world, player, card).Err?
    ensures r.Err? ==> r.error == ApplyPlay(world, player, card).error
    ensures r.Ok? ==> r.value == EvaluateRoundScores(SimulateRemaining(ApplyPlay(world, player, card).value).value, player)
  {
    var next := ApplyPlay(world, player, card);
    if next.Err? then Err(next.error)
    else
      assert next.value.phase == Playing;
      Ok(EvaluateRoundScores(SimulateRemaining(next.value).value, player))
  }

  /** The summed cost to `player` of playing `card` in `n` sampled worlds, and
      the random source after them. The first world that fails to apply the
      play stops the search, as the raised exception does. */
  function WorldsTotal(s: GameState, player: Seat, voids: Voids, card: Card, n: nat, rng: Rng): (r: Result<(int, Rng)>)
    ensures n == 0 ==> r == Ok((0, rng))
    ensures r.Err? ==> r.error in {WrongPhase, NotYourTurn, CardNotInHand, IllegalPlay}
    ensures n > 0 && s.phase != Playing ==> r == Err(WrongPhase)
    ensures n > 0 && s.phase == Playing && s.whoseTurn != player ==> r == Err(NotYourTurn)
    decreases n
  {
    if n == 0 then Ok((0, rng))
    else
      var world := Determinize(s, player, voids, rng);
      var cost :- WorldCost(world.0, player, card);
      var rest :- WorldsTotal(s, player, voids, card, n - 1, world.1);
      Ok((cost + rest.0, rest.1))
  }

  /** The totals of every card of `cards`, one after the other, sharing one
      random source. */
  function CardTotals(s: GameState, player: Seat, voids: Voids, cards: seq<Card>, n: nat, rng: Rng): (r: Result<(seq<int>, Rng)>)
    ensures r.Ok? ==> |r.value.0| == |cards|
    ensures n == 0 ==> r.Ok? && r.value.1 == rng && forall k | 0 <= k < |cards| :: r.value.0[k] == 0
    ensures r.Err? ==> r.error in {WrongPhase, NotYourTurn, CardNotInHand, IllegalPlay}
    ensures r.Ok? && |cards| > 0 ==>
      WorldsTotal(s, player, voids, cards[0], n, rng).Ok? && r.value.0[0] == WorldsTotal(s, player, voids, cards[0], n, rng).value.0
  {
    if |cards| == 0 then Ok(([], rng))
    else
      var first :- WorldsTotal(s, player, voids, cards[0], n, rng);
      var rest :- CardTotals(s, player, voids, cards[1..], n, first.1);
      Ok(([first.0] + rest.0, rest.1))
  }

  /** `HardPlayStrategy.choose_play`: with a single legal card, play it without
      simulating; otherwise update the tracker, cost every legal card over the
      sampled worlds and play the first cheapest. Comparing totals is comparing
      averages, since every card is costed over the same number of worlds. */
  function HardChoose(s: GameState, player: Seat, legal: seq<Card>, numWorlds: int, t: Tracker, rng: Rng): (r: Result<(Card, Tracker, Rng)>)
    ensures r == Err(NoLegalPlays) <==> |legal| == 0
    ensures |legal| == 1 ==> r == Ok((legal[0], t, rng))
    ensures |legal| >= 2 && numWorlds == 0 ==> r == Err(ZeroWorlds)
    ensures |legal| >= 2 && numWorlds < 0 ==> r == Ok((legal[0], Observe(t, s), rng))
    ensures r.Err? ==> r.error in {NoLegalPlays, ZeroWorlds, WrongPhase, NotYourTurn, CardNotInHand, IllegalPlay}
    ensures r.Ok? ==> r.value.0 in legal
    ensures r.Ok? && |legal| >= 2 ==> r.value.1 == Observe(t, s)
  {
    if |legal| == 0 then Err(NoLegalPlays)
    else if |legal| == 1 then Ok((legal[0], t, rng))
    else
      var t1 := Observe(t, s);
      if numWorlds == 0 then Err(ZeroWorlds)
      else
        var n: nat := if numWorlds > 0 then numWorlds else 0;
        var choice :- SampledChoice(s, player, t1.voids, legal, n, rng);
        Ok((choice.0, t1, choice.1))
  }

  /** Cheapest(cards, totals) is the first card whose total is smallest. */
  predicate FirstCheapest(cards: seq<Card>, totals: seq<int>, c: Card)
    requires |cards| == |totals|
  {
    exists k | 0 <= k < |cards| ::
      && c == cards[k]
      && (forall j | 0 <= j < |cards| :: totals[k] <= totals[j])
      && (forall j | 0 <= j < k :: totals[k] < totals[j])
  }

  /** `if avg < best_avg` over the cards in order, starting from no best. */
  function Cheapest(cards: seq<Card>, totals: seq<int>): (c: Card)
    requires |cards| == |totals| > 0
    ensures FirstCheapest(cards, totals, c)
  {
    var k := FirstArgMin(totals);
    cards[k]
  }

  /** The first legal card with the smallest total over `n` worlds each. */
  function SampledChoice(s: GameState, player: Seat, voids: Voids, legal: seq<Card>, n: nat, rng: Rng): (r: Result<(Card, Rng)>)
    requires |legal| > 0
    ensures r.Ok? <==> CardTotals(s, player, voids, legal, n, rng).Ok?
    ensures r.Err? ==> r.error == CardTotals(s, player, voids, legal, n, rng).error
    ensures r.Ok? ==> var totals := CardTotals(s, player, voids, legal, n, rng).value;
      r.value.1 == totals.1 && FirstCheapest(legal, totals.0, r.value.0)
  {
    var totals :- CardTotals(s, player, voids, legal, n, rng);
    Ok((Cheapest(legal, totals.0), totals.1))
  }

  /** With sampling on, the card played has the smallest total cost of all
      legal cards, and no earlier legal card is as cheap. */
  lemma HardChooseCheapest(s: GameState, player: Seat, legal: seq<Card>, numWorlds: int, t: Tracker, rng: Rng)
    requires |legal| >= 2 && numWorlds > 0
    requires HardChoose(s, player, legal, numWorlds, t, rng).Ok?
    ensures var totals := CardTotals(s, player, Observe(t, s).voids, legal, numWorlds, rng);
      && totals.Ok?
      && HardChoose(s, player, legal, numWorlds, t, rng).value.2 == totals.value.1
      && FirstCheapest(legal, totals.value.0, HardChoose(s, player, legal, numWorlds, t, rng).value.0)
  {
    var voids := Observe(t, s).voids;
    var choice := SampledChoice(s, player, voids, legal, numWorlds, rng);
    assert HardChoose(s, player, legal, numWorlds, t, rng) == Ok((choice.value.0, Observe(t, s), choice.value.1));
  }

  /** Without sampling, every total is zero and the first legal card is played. */
  lemma SampledChoiceNoWorlds(s: GameState, player: Seat, voids: Voids, legal: seq<Card>, rng: Rng)
    requires |legal| > 0
    ensures SampledChoice(s, player, voids, legal, 0, rng) == Ok((legal[0], rng))
  {
    var totals := CardTotals(s, player, voids, legal, 0, rng).value;
    var c := SampledChoice(s, player, voids, legal, 0, rng).value.0;
    var k :| 0 <= k < |legal| && c == legal[k] && (forall j | 0 <= j < k :: totals.0[k] < totals.0[j]);
    assert !(totals.0[k] < totals.0[0]);
    assert k == 0;
  }

  // ---------------------------------------------------------------------------
  // Exhaustive pass search
  // ---------------------------------------------------------------------------

  /** Positions of a three-card combination. */
  datatype Triple = Triple(a: nat, b: nat, c: nat)

  predicate InRange3(t: Triple, n: nat) {
    t.a < t.b < t.c < n
  }

  /** Lexicographic order on position triples. */
  predicate LexBefore(t: Triple, u: Triple) {
    t.a < u.a || (t.a == u.a && (t.b < u.b || (t.b == u.b && t.c < u.c)))
  }

  predicate LexSorted(ts: seq<Triple>) {
    forall p, q | 0 <= p < q < |ts| :: LexBefore(ts[p], ts[q])
  }

  /** Two sorted runs, every triple of the first before every triple of the
      second, make a sorted run. */
  lemma LexSortedAppend(first: seq<Triple>, rest: seq<Triple>)
    requires LexSorted(first) && LexSorted(rest)
    requires forall x, y | x in first && y in rest :: LexBefore(x, y)
    ensures LexSorted(first + rest)
  {
    var r := first + rest;
    forall p, q | 0 <= p < q < |r|
      ensures LexBefore(r[p], r[q])
    {
      if q < |first| {
        assert r[p] == first[p] && r[q] == first[q];
      } else if p >= |first| {
        assert r[p] == rest[p - |first|] && r[q] == rest[q - |first|];
      } else {
        assert r[p] == first[p] && r[q] == rest[q - |first|];
        assert first[p] in first && rest[q - |first|] in rest;
      }
    }
  }

  function KsAfter(n: nat, a: nat, b: nat, k: nat): (r: seq<Triple>)
    ensures forall t :: t in r <==> t.a == a && t.b == b && k <= t.c < n
    ensures LexSorted(r)
    decreases n - k
  {
    if k >= n then [] else [Triple(a, b, k)] + KsAfter(n, a, b, k + 1)
  }

  function PairsAfter(n: nat, a: nat, j: nat): (r: seq<Triple>)
    ensures forall t :: t in r <==> t.a == a && j <= t.b < t.c < n
    ensures LexSorted(r)
    decreases n - j
  {
    if j >= n then []
    else
      var first := KsAfter(n, a, j, j + 1);
      var rest := PairsAfter(n, a, j + 1);
      LexSortedAppend(first, rest);
      first + rest
  }

  function TriplesFrom(n: nat, i: nat): (r: seq<Triple>)
    ensures forall t :: t in r <==> i <= t.a && InRange3(t, n)
    ensures LexSorted(r)
    decreases n - i
  {
    if i >= n then []
    else
      var first := PairsAfter(n, i, i + 1);
      var rest := TriplesFrom(n, i + 1);
      LexSortedAppend(first, rest);
      first + rest
  }

  /** `itertools.combinations(range(n), 3)`: every increasing triple below `n`,
      in lexicographic order. */
  function Combinations3(n: nat): (r: seq<Triple>)
    ensures forall t :: t in r <==> InRange3(t, n)
    ensures LexSorted(r)
  {
    TriplesFrom(n, 0)
  }

  function Picked(hand: seq<Card>, t: Triple): seq<Card>
    requires InRange3(t, |hand|)
  {
    [hand[t.a], hand[t.b], hand[t.c]]
  }

  /** The danger of what is left once the combination at `t` is passed. */
  function KeepDanger(hand: seq<Card>, t: Triple): int
    requires InRange3(t, |hand|)
  {
    HandDanger(Without(hand, Picked(hand, t)))
  }

  function Keys(ts: seq<Triple>, key: Triple -> int): (ds: seq<int>)
    ensures |ds| == |ts|
    ensures forall p | 0 <= p < |ts| :: ds[p] == key(ts[p])
  {
    seq(|ts|, p requires 0 <= p < |ts| => key(ts[p]))
  }

  /** The first combination, in `combinations` order, with the least key. */
  function BestTriple(n: nat, key: Triple -> int): (t: Triple)
    requires n >= 3
    ensures InRange3(t, n)
    ensures forall u | InRange3(u, n) :: key(t) <= key(u)
    ensures forall u | InRange3(u, n) && LexBefore(u, t) :: key(t) < key(u)
  {
    var ts := Combinations3(n);
    assert Triple(0, 1, 2) in ts;
    var ds := Keys(ts, key);
    FirstMinOfSorted(ts, ds);
    var k := FirstArgMin(ds);
    assert forall u | InRange3(u, n) :: exists q | 0 <= q < |ts| :: ts[q] == u;
    ts[k]
  }

  lemma FirstMinOfSorted(ts: seq<Triple>, ds: seq<int>)
    requires |ts| == |ds| > 0 && LexSorted(ts)
    ensures forall q | 0 <= q < |ds| :: ds[FirstArgMin(ds)] <= ds[q]
    ensures forall q | 0 <= q < |ds| && LexBefore(ts[q], ts[FirstArgMin(ds)]) :: ds[FirstArgMin(ds)] < ds[q]
  {
    var k := FirstArgMin(ds);
    forall q | 0 <= q < |ds| && LexBefore(ts[q], ts[k])
      ensures ds[k] < ds[q]
    {
      SortedIndexOrder(ts, q, k);
    }
  }

  /** In a lexicographically sorted list, an earlier combination sits earlier. */
  lemma SortedIndexOrder(ts: seq<Triple>, q: nat, k: nat)
    requires LexSorted(ts) && q < |ts| && k < |ts|
    ensures LexBefore(ts[q], ts[k]) ==> q < k
  {
    if k < q {
      assert LexBefore(ts[k], ts[q]);
    }
  }

  /** The danger of keeping what is left after passing the combination at `t`
      (any value outside the hand; the search never asks for one). */
  function ComboKey(hand: seq<Card>): Triple -> int {
    t => if InRange3(t, |hand|) then KeepDanger(hand, t) else 0
  }

  /** `HardPassStrategy.choose_cards_to_pass`: the first three-card combination,
      in `combinations` order, whose removal leaves the least dangerous hand. */
  function HardPass(hand: seq<Card>): (r: Result<seq<Card>>)
    ensures r.Err? <==> |hand| < 3
    ensures r.Err? ==> r.error == HandTooSmall
    ensures r.Ok? ==> var t := BestTriple(|hand|, ComboKey(hand)); r.value == Picked(hand, t)
    ensures r.Ok? ==> |r.value| == 3 && forall c | c in r.value :: c in hand
  {
    if |hand| < 3 then Err(HandTooSmall)
    else
      var t := BestTriple(|hand|, ComboKey(hand));
      assert hand[t.a] in hand && hand[t.b] in hand && hand[t.c] in hand;
      Ok(Picked(hand, t))
  }

  /** The hard pass keeps the least dangerous hand over all three-card passes,
      and no lexicographically earlier pass is as good. */
  lemma HardPassOptimal(hand: seq<Card>, u: Triple)
    requires InRange3(u, |hand|)
    ensures HardPass(hand).Ok?
    ensures var t := BestTriple(|hand|, ComboKey(hand));
      && HardPass(hand).value == Picked(hand, t)
      && KeepDanger(hand, t) <= KeepDanger(hand, u)
      && (LexBefore(u, t) ==> KeepDanger(hand, t) < KeepDanger(hand, u))
  {
    var t := BestTriple(|hand|, ComboKey(hand));
    assert ComboKey(hand)(t) == KeepDanger(hand, t);
    assert ComboKey(hand)(u) == KeepDanger(hand, u);
  }

  /** Any three positions of a duplicate-free hand make a valid pass. */
  lemma PickedValid(hand: seq<Card>, t: Triple)
    requires NoDup(hand) && InRange3(t, |hand|)
    ensures IsValidPass(hand, Picked(hand, t))
  {
    PickedPassValid(hand, [t.a, t.b, t.c]);
  }

  /** On a duplicate-free hand the hard pass is a valid pass. */
  lemma HardPassValid(hand: seq<Card>)
    requires |hand| >= 3 && NoDup(hand)
    ensures HardPass(hand).Ok? && IsValidPass(hand, HardPass(hand).value)
  {
    PickedValid(hand, BestTriple(|hand|, ComboKey(hand)));
  }
}
