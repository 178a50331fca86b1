/** The rule-based "medium" strategies (api/hearts/ai/medium_ai.py): pass the three
    most dangerous cards; lead low from the longest safe suit, duck when
    following, and dump points when void. */
module MediumAI {
  import opened Wrappers
  import opened Seqs
  import opened Ordering
  import opened Cards
  import opened Rules
  import opened GameStates

  // ---------------------------------------------------------------------------
  // Passing
  // ---------------------------------------------------------------------------

  /** `sum(1 for c in hand if c.suit == s)`. */
  function SuitCount(hand: seq<Card>, s: Suit): nat {
    if |hand| == 0 then 0 else (if hand[0].suit == s then 1 else 0) + SuitCount(hand[1..], s)
  }

  predicate IsHighSpade(c: Card) {
    c.suit == Spades && c.rank > QueenRank
  }

  /** `_pass_danger`: how much a card should be passed; all values are whole
      numbers. */
  function PassDanger(card: Card, hand: seq<Card>): int {
    if card == QueenOfSpades then 200
    else if IsHighSpade(card) then 150 + card.rank
    else
      var n := SuitCount(hand, card.suit);
      card.rank + (if card.suit == Hearts then 50 else 0) + (if n <= 2 then 30 else if n <= 3 then 15 else 0)
  }

  /** The bands the danger values fall into: Q♠, then K♠/A♠, then hearts, then
      everything else. */
  function DangerTier(c: Card): (t: nat)
    ensures t <= 3
  {
    if c == QueenOfSpades then 3 else if IsHighSpade(c) then 2 else if c.suit == Hearts then 1 else 0
  }

  /** The danger values order cards by tier, whatever the hands around them:
      Q♠ > K♠/A♠ > every heart > every other card. */
  lemma PassDangerTiers(a: Card, ha: seq<Card>, b: Card, hb: seq<Card>)
    requires DangerTier(a) > DangerTier(b)
    ensures PassDanger(a, ha) > PassDanger(b, hb)
  {
  }

  /** The Q♠ scores 200 and K♠/A♠ score 150 plus their rank. */
  lemma PassDangerSpades(hand: seq<Card>)
    ensures PassDanger(QueenOfSpades, hand) == 200
    ensures PassDanger(Card(Spades, 13), hand) == 163
    ensures PassDanger(Card(Spades, 14), hand) == 164
  {
  }

  function Dangers(hand: seq<Card>): (keys: seq<int>)
    ensures |keys| == |hand|
    ensures forall i | 0 <= i < |hand| :: keys[i] == PassDanger(hand[i], hand)
  {
    seq(|hand|, i requires 0 <= i < |hand| => PassDanger(hand[i], hand))
  }

  /** The hand positions `sorted(hand, key=danger, reverse=True)[:3]` takes: three
      distinct positions in stable descending order of danger, every other
      position sorting after them. */
  function MediumPassPositions(hand: seq<Card>): (ps: seq<nat>)
    requires |hand| >= 3
    ensures |ps| == 3 && NoDup(ps)
    ensures forall a | 0 <= a < 3 :: ps[a] < |hand|
    ensures Before(Dangers(hand), ps[0], ps[1]) && Before(Dangers(hand), ps[1], ps[2])
    ensures forall q | 0 <= q < |hand| && q !in ps :: Before(Dangers(hand), ps[2], q)
  {
    var keys := Dangers(hand);
    RangeNoDup(|hand|);
    var ps := TopPositions(keys, Range(|hand|), 3);
    assert ps[2] in ps;
    ps
  }

  /** Cards at three distinct positions of a duplicate-free hand form a valid pass. */
  lemma PickedPassValid(hand: seq<Card>, ps: seq<nat>)
    requires NoDup(hand) && |ps| == 3 && NoDup(ps)
    requires forall a | 0 <= a < 3 :: ps[a] < |hand|
    ensures IsValidPass(hand, [hand[ps[0]], hand[ps[1]], hand[ps[2]]])
  {
    var three := [hand[ps[0]], hand[ps[1]], hand[ps[2]]];
    forall a, b | 0 <= a < b < 3
      ensures three[a] != three[b]
    {
      assert ps[a] != ps[b];
    }
  }

  /** `MediumPassStrategy.choose_cards_to_pass`. */
  function MediumPass(hand: seq<Card>): (r: Result<seq<Card>>)
    ensures r.Err? <==> |hand| < 3
    ensures r.Err? ==> r.error == HandTooSmall
    ensures r.Ok? ==> |r.value| == 3 && forall c | c in r.value :: c in hand
    ensures r.Ok? ==> var ps := MediumPassPositions(hand); r.value == [hand[ps[0]], hand[ps[1]], hand[ps[2]]]
  {
    if |hand| < 3 then Err(HandTooSmall)
    else
      var ps := MediumPassPositions(hand);
      Ok([hand[ps[0]], hand[ps[1]], hand[ps[2]]])
  }

  /** On a duplicate-free hand of three or more the medium pass is a valid pass. */
  lemma MediumPassValid(hand: seq<Card>)
    requires |hand| >= 3 && NoDup(hand)
    ensures MediumPass(hand).Ok? && IsValidPass(hand, MediumPass(hand).value)
  {
    PickedPassValid(hand, MediumPassPositions(hand));
  }

  /** A duplicate-free hand has at most three cards above the heart tier. */
  lemma AtMostThreeHigh(a: Card, b: Card, c: Card, d: Card)
    requires DangerTier(a) >= 2 && DangerTier(b) >= 2 && DangerTier(c) >= 2 && DangerTier(d) >= 2
    ensures a == b || a == c || a == d || b == c || b == d || c == d
  {
  }

  /** The medium pass always gives away Q♠, K♠ and A♠ when it holds them. */
  lemma MediumPassesHighSpades(hand: seq<Card>, c: Card)
    requires |hand| >= 3 && NoDup(hand)
    requires c in hand && DangerTier(c) >= 2
    ensures c in MediumPass(hand).value
  {
    var ps := MediumPassPositions(hand);
    var q :| 0 <= q < |hand| && hand[q] == c;
    PassPositionsOutrank(hand, q);
    TopThreeHoldHighCards(hand, ps, q);
    assert q == ps[0] || q == ps[1] || q == ps[2];
  }

  /** A position left out of the pass is no more dangerous than any passed one. */
  lemma PassPositionsOutrank(hand: seq<Card>, q: nat)
    requires |hand| >= 3 && q < |hand|
    ensures var ps := MediumPassPositions(hand);
      q !in ps ==> forall a | 0 <= a < 3 :: Dangers(hand)[ps[a]] >= Dangers(hand)[q]
  {
    var ps := MediumPassPositions(hand);
    if q !in ps {
      assert Before(Dangers(hand), ps[2], q);
    }
  }

  /** Three distinct positions whose danger is at least that of a K♠, A♠ or Q♠
      cannot leave that card out: a hand holds at most three such cards. */
  lemma TopThreeHoldHighCards(hand: seq<Card>, ps: seq<nat>, q: nat)
    requires NoDup(hand) && |ps| == 3 && NoDup(ps) && forall a | 0 <= a < 3 :: ps[a] < |hand|
    requires q < |hand| && DangerTier(hand[q]) >= 2
    requires q !in ps ==> forall a | 0 <= a < 3 :: Dangers(hand)[ps[a]] >= Dangers(hand)[q]
    ensures q in ps
  {
    if q !in ps {
      forall a | 0 <= a < 3
        ensures DangerTier(hand[ps[a]]) >= 2
      {
        if DangerTier(hand[ps[a]]) < DangerTier(hand[q]) {
          PassDangerTiers(hand[q], hand, hand[ps[a]], hand);
        }
      }
      AtMostThreeHigh(hand[ps[0]], hand[ps[1]], hand[ps[2]], hand[q]);
      assert false;
    }
  }

  // ---------------------------------------------------------------------------
  // Rank selection
  // ---------------------------------------------------------------------------

  function Ranks(cards: seq<Card>): (r: seq<int>)
    ensures |r| == |cards|
    ensures forall i | 0 <= i < |cards| :: r[i] == cards[i].rank
  {
    seq(|cards|, i requires 0 <= i < |cards| => cards[i].rank)
  }

  /** `max(cards, key=rank)`: the first card of the highest rank. */
  function HighestCard(cards: seq<Card>): (r: Card)
    requires |cards| > 0
    ensures r in cards
    ensures forall c | c in cards :: c.rank <= r.rank
    ensures exists k | 0 <= k < |cards| :: cards[k] == r && forall j | 0 <= j < k :: cards[j].rank < r.rank
  {
    var k := FirstArgMax(Ranks(cards));
    cards[k]
  }

  /** `min(cards, key=rank)`: the first card of the lowest rank. */
  function LowestCard(cards: seq<Card>): (r: Card)
    requires |cards| > 0
    ensures r in cards
    ensures forall c | c in cards :: r.rank <= c.rank
    ensures exists k | 0 <= k < |cards| :: cards[k] == r && forall j | 0 <= j < k :: r.rank < cards[j].rank
  {
    var k := FirstArgMin(Ranks(cards));
    cards[k]
  }

  // ---------------------------------------------------------------------------
  // Playing
  // ---------------------------------------------------------------------------

  /** `_qs_maybe_out`: the queen may still be out unless it is among `cards` or
      some seat already took 13 or more points this round. */
  predicate QsMaybeOut(cards: seq<Card>, roundScores: Scores) {
    QueenOfSpades !in cards && forall i: Seat :: roundScores[i] < 13
  }

  /** The priority in which `_lead` lists suits: clubs, diamonds, then spades
      unless the queen may be out, hearts once broken, and the rest after. That
      puts hearts ahead of spades exactly when the queen may be out and hearts
      are broken. */
  function Priority(qsOut: bool, heartsBroken: bool): (p: seq<Suit>)
    ensures |p| == 4 && NoDup(p) && forall s :: s in p
    ensures p[0] == Clubs && p[1] == Diamonds
    ensures (p[2] == Hearts) <==> qsOut && heartsBroken
  {
    var p := if qsOut && heartsBroken then [Clubs, Diamonds, Hearts, Spades]
             else [Clubs, Diamonds, Spades, Hearts];
    forall s: Suit
      ensures s in p
    {
      if s.Clubs? {
        assert p[0] == s;
      } else if s.Diamonds? {
        assert p[1] == s;
      } else {
        assert Spades in p && Hearts in p;
      }
    }
    p
  }

  /** The suits of `ps` that `legal` holds, in the order of `ps`. */
  function PresentSuits(ps: seq<Suit>, legal: seq<Card>): (r: seq<Suit>)
    ensures forall s :: s in r <==> s in ps && HasSuit(legal, s)
    ensures Subseq(r, ps)
    ensures NoDup(ps) ==> NoDup(r)
  {
    if |ps| == 0 then []
    else
      var rest := PresentSuits(ps[1..], legal);
      assert ps == [ps[0]] + ps[1..];
      if HasSuit(legal, ps[0]) then
        assert NoDup(ps) ==> ps[0] !in ps[1..];
        [ps[0]] + rest
      else rest
  }

  /** The order `_lead` builds: every suit `legal` holds, once, by priority. */
  function SuitOrder(legal: seq<Card>, qsOut: bool, heartsBroken: bool): (order: seq<Suit>)
    ensures forall s :: s in order <==> HasSuit(legal, s)
    ensures NoDup(order)
    ensures Subseq(order, Priority(qsOut, heartsBroken))
  {
    PresentSuits(Priority(qsOut, heartsBroken), legal)
  }

  function SuitLengths(legal: seq<Card>, order: seq<Suit>): (r: seq<int>)
    ensures |r| == |order|
    ensures forall i | 0 <= i < |order| :: r[i] == SuitCount(legal, order[i])
  {
    seq(|order|, i requires 0 <= i < |order| => SuitCount(legal, order[i]))
  }

  /** The suit `_lead` picks: the first longest suit in the priority order. */
  function LeadSuit(legal: seq<Card>, s: GameState): (best: Suit)
    requires |legal| > 0
    ensures HasSuit(legal, best)
    ensures forall t | HasSuit(legal, t) :: SuitCount(legal, t) <= SuitCount(legal, best)
    ensures var order := SuitOrder(legal, QsMaybeOut(legal, s.roundScores), s.heartsBroken);
      exists k | 0 <= k < |order| :: order[k] == best && forall j | 0 <= j < k :: SuitCount(legal, order[j]) < SuitCount(legal, best)
  {
    var order := SuitOrder(legal, QsMaybeOut(legal, s.roundScores), s.heartsBroken);
    assert HasSuit(legal, legal[0].suit);
    var lengths := SuitLengths(legal, order);
    var k := FirstArgMax(lengths);
    forall t | HasSuit(legal, t)
      ensures SuitCount(legal, t) <= SuitCount(legal, order[k])
    {
      var i :| 0 <= i < |order| && order[i] == t;
      assert lengths[i] <= lengths[k];
    }
    order[k]
  }

  /** `_lead`: the lowest card of the chosen suit, avoiding Q♠ unless it is the
      only card of that suit. */
  function Lead(legal: seq<Card>, s: GameState): (r: Card)
    requires |legal| > 0
    ensures r in legal && r.suit == LeadSuit(legal, s)
    ensures r == QueenOfSpades ==> forall c | c in legal && c.suit == r.suit :: c == QueenOfSpades
    ensures forall c | c in legal && c.suit == r.suit && c != QueenOfSpades :: r.rank <= c.rank
  {
    var group := OfSuit(legal, LeadSuit(legal, s));
    var others := RemoveAll(group, QueenOfSpades);
    var candidates := if |others| > 0 then others else group;
    LowestCard(candidates)
  }

  /** The highest lead-suit rank already in the trick, 0 if none. */
  function TrickHigh(trick: Trick, lead: Suit): (h: int)
    ensures h >= 0
    ensures forall i | 0 <= i < |trick| && trick[i].card.suit == lead :: trick[i].card.rank <= h
    ensures h > 0 ==> exists i | 0 <= i < |trick| :: trick[i].card.suit == lead && trick[i].card.rank == h
  {
    if |trick| == 0 then 0
    else
      var rest := TrickHigh(trick[1..], lead);
      assert forall i | 1 <= i < |trick| :: trick[i] == trick[1..][i - 1];
      var c := trick[0].card;
      if c.suit == lead && c.rank > rest then c.rank else rest
  }

  /** `_follow`: duck with the highest card that still loses to the current
      winner, otherwise play the highest card of the suit. */
  function Follow(inSuit: seq<Card>, trick: Trick, lead: Suit): (r: Card)
    requires |inSuit| > 0
    ensures r in inSuit
    ensures (exists c | c in inSuit :: c.rank < TrickHigh(trick, lead)) ==>
      && r.rank < TrickHigh(trick, lead)
      && forall c | c in inSuit && c.rank < TrickHigh(trick, lead) :: c.rank <= r.rank
    ensures (forall c | c in inSuit :: c.rank >= TrickHigh(trick, lead)) ==>
      forall c | c in inSuit :: c.rank <= r.rank
  {
    var high := TrickHigh(trick, lead);
    var below := BelowRank(inSuit, high);
    if |below| > 0 then HighestCard(below) else HighestCard(inSuit)
  }

  /** `[c for c in cards if c.rank < high]`. */
  function BelowRank(cards: seq<Card>, high: int): (r: seq<Card>)
    ensures forall c :: c in r <==> c in cards && c.rank < high
  {
    if |cards| == 0 then []
    else
      var rest := BelowRank(cards[1..], high);
      assert forall c | c in cards :: c == cards[0] || c in cards[1..];
      if cards[0].rank < high then [cards[0]] + rest else rest
  }

  /** `_dump`: Q♠ first, then the highest heart, then the highest of K♠/A♠, then
      the highest card of any suit. */
  function Dump(legal: seq<Card>): (r: Card)
    requires |legal| > 0
    ensures r in legal
    ensures QueenOfSpades in legal ==> r == QueenOfSpades
    ensures QueenOfSpades !in legal && HasSuit(legal, Hearts) ==>
      r.suit == Hearts && forall c | c in legal && c.suit == Hearts :: c.rank <= r.rank
    ensures QueenOfSpades !in legal && !HasSuit(legal, Hearts) && (exists c | c in legal :: IsHighSpade(c)) ==>
      IsHighSpade(r) && forall c | c in legal && IsHighSpade(c) :: c.rank <= r.rank
    ensures QueenOfSpades !in legal && !HasSuit(legal, Hearts) && (forall c | c in legal :: !IsHighSpade(c)) ==>
      && (forall c | c in legal :: c.rank <= r.rank)
      && exists k | 0 <= k < |legal| :: legal[k] == r && forall j | 0 <= j < k :: legal[j].rank < r.rank
  {
    if QueenOfSpades in legal then QueenOfSpades
    else
      var hearts := OfSuit(legal, Hearts);
      if |hearts| > 0 then HighestCard(hearts)
      else
        var high := HighSpades(legal);
        if |high| > 0 then HighestCard(high) else HighestCard(legal)
  }

  /** `[c for c in cards if c.suit == SPADES and c.rank > QUEEN_OF_SPADES_RANK]`. */
  function HighSpades(cards: seq<Card>): (r: seq<Card>)
    ensures forall c :: c in r <==> c in cards && IsHighSpade(c)
  {
    if |cards| == 0 then []
    else
      var rest := HighSpades(cards[1..]);
      assert forall c | c in cards :: c == cards[0] || c in cards[1..];
      if IsHighSpade(cards[0]) then [cards[0]] + rest else rest
  }

  /** `MediumPlayStrategy.choose_play`: lead, follow or dump. */
  function MediumChoose(s: GameState, legal: seq<Card>): (r: Result<Card>)
    ensures r.Err? <==> |legal| == 0
    ensures r.Err? ==> r.error == NoLegalPlays
    ensures r.Ok? ==> r.value in legal
    ensures |legal| == 1 ==> r == Ok(legal[0])
    ensures |legal| >= 2 && |s.currentTrick| == 0 ==> r == Ok(Lead(legal, s))
    ensures |legal| >= 2 && |s.currentTrick| > 0 && HasSuit(legal, s.currentTrick[0].card.suit) ==>
      r == Ok(Follow(OfSuit(legal, s.currentTrick[0].card.suit), s.currentTrick, s.currentTrick[0].card.suit))
    ensures |legal| >= 2 && |s.currentTrick| > 0 && !HasSuit(legal, s.currentTrick[0].card.suit) ==>
      r == Ok(Dump(legal))
  {
    if |legal| == 0 then Err(NoLegalPlays)
    else if |legal| == 1 then Ok(legal[0])
    else if |s.currentTrick| == 0 then Ok(Lead(legal, s))
    else
      var lead := s.currentTrick[0].card.suit;
      var inSuit := OfSuit(legal, lead);
      if |inSuit| > 0 then Ok(Follow(inSuit, s.currentTrick, lead)) else Ok(Dump(legal))
  }

  lemma {:induction false} SuitCountHeld(hand: seq<Card>, s: Suit)
    ensures SuitCount(hand, s) > 0 <==> HasSuit(hand, s)
  {
    if |hand| > 0 {
      SuitCountHeld(hand[1..], s);
      assert forall c | c in hand :: c == hand[0] || c in hand[1..];
      assert forall c | c in hand[1..] :: c in hand;
    }
  }

  /** Without clubs or diamonds, the order lists the two other suits as the
      priority does. */
  lemma PresentLastTwo(legal: seq<Card>, first: Suit, second: Suit)
    requires !HasSuit(legal, Clubs) && !HasSuit(legal, Diamonds)
    requires HasSuit(legal, first) && HasSuit(legal, second)
    ensures PresentSuits([Clubs, Diamonds, first, second], legal) == [first, second]
  {
    var p := [Clubs, Diamonds, first, second];
    assert [second][1..] == [];
    assert PresentSuits([second], legal) == [second];
    assert [first, second][1..] == [second];
    assert PresentSuits([first, second], legal) == [first, second];
    assert [Diamonds, first, second][1..] == [first, second];
    assert PresentSuits([Diamonds, first, second], legal) == [first, second];
    assert p[1..] == [Diamonds, first, second];
  }

  /** The tie-break between spades and hearts: holding only those two suits in
      equal numbers, the medium player leads hearts exactly when the queen may
      still be out and hearts are broken, and spades otherwise. */
  lemma LeadSuitTieBreak(legal: seq<Card>, s: GameState)
    requires |legal| > 0
    requires !HasSuit(legal, Clubs) && !HasSuit(legal, Diamonds)
    requires HasSuit(legal, Spades) && SuitCount(legal, Spades) == SuitCount(legal, Hearts)
    ensures LeadSuit(legal, s) == (if QsMaybeOut(legal, s.roundScores) && s.heartsBroken then Hearts else Spades)
  {
    var qsOut := QsMaybeOut(legal, s.roundScores);
    SuitCountHeld(legal, Spades);
    SuitCountHeld(legal, Hearts);
    if qsOut && s.heartsBroken {
      PresentLastTwo(legal, Hearts, Spades);
    } else {
      PresentLastTwo(legal, Spades, Hearts);
    }
  }

  /** Void in the led suit with Q♠ among the legal cards, the medium player always
      sheds the queen. */
  lemma MediumDumpsQueen(s: GameState, legal: seq<Card>)
    requires |legal| >= 2 && |s.currentTrick| > 0
    requires !HasSuit(legal, s.currentTrick[0].card.suit)
    requires QueenOfSpades in legal
    ensures MediumChoose(s, legal) == Ok(QueenOfSpades)
  {
    assert |OfSuit(legal, s.currentTrick[0].card.suit)| == 0;
  }

  /** When the led suit is held and a card below the trick's best exists, the
      medium player ducks: its card cannot win the trick so far. */
  lemma MediumDucks(s: GameState, legal: seq<Card>, c: Card)
    requires |legal| >= 2 && |s.currentTrick| > 0
    requires c in legal && c.suit == s.currentTrick[0].card.suit
    requires c.rank < TrickHigh(s.currentTrick, c.suit)
    ensures MediumChoose(s, legal).value.suit == c.suit
    ensures MediumChoose(s, legal).value.rank < TrickHigh(s.currentTrick, c.suit)
  {
    var inSuit := OfSuit(legal, c.suit);
    assert c in inSuit;
  }
}
