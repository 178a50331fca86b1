/** The legality oracle and trick arithmetic (api/hearts/game/rules.py). */
module Rules {
  import opened Wrappers
  import opened Seqs
  import opened Cards

  /** A seat index. Every seat the engine stores comes from `whose_turn`, which the
      engine only ever sets to 0..3. */
  type Seat = i: int | 0 <= i < 4

  /** One entry of a trick: who played which card, in play order. */
  datatype Play = Play(seat: Seat, card: Card)

  type Trick = seq<Play>

  function TrickCards(t: Trick): (r: seq<Card>)
    ensures |r| == |t|
    ensures forall i | 0 <= i < |t| :: r[i] == t[i].card
  {
    if |t| == 0 then [] else [t[0].card] + TrickCards(t[1..])
  }

  predicate HasSuit(cards: seq<Card>, s: Suit) {
    exists c :: c in cards && c.suit == s
  }

  /** `[c for c in cards if c.suit == s]`. */
  function OfSuit(cards: seq<Card>, s: Suit): (r: seq<Card>)
    ensures forall c :: c in r <==> c in cards && c.suit == s
    ensures Subseq(r, cards)
    ensures |r| > 0 <==> HasSuit(cards, s)
  {
    if |cards| == 0 then []
    else
      var rest := OfSuit(cards[1..], s);
      assert cards == [cards[0]] + cards[1..];
      if cards[0].suit == s then [cards[0]] + rest else rest
  }

  /** The opening lead of a round is forced onto the two of clubs. */
  predicate ForcedOpening(hand: seq<Card>, firstLead: bool) {
    firstLead && TwoOfClubs() in hand
  }

  /** `get_legal_plays`. `heartsBroken` is accepted and ignored: hearts may be led
      at any time, and a void player may discard anything. */
  function LegalPlays(hand: seq<Card>, trick: Trick, heartsBroken: bool, firstLead: bool): (r: seq<Card>)
    ensures Subseq(r, hand)
    ensures forall c :: c in r ==> c in hand
    ensures |r| > 0 <==> |hand| > 0
    ensures |hand| > 0 && ForcedOpening(hand, firstLead) ==> r == [TwoOfClubs()]
    ensures !ForcedOpening(hand, firstLead) && |trick| == 0 ==> r == hand
    ensures !ForcedOpening(hand, firstLead) && |trick| > 0 ==>
      var lead := trick[0].card.suit;
      && (HasSuit(hand, lead) ==> r == OfSuit(hand, lead))
      && (!HasSuit(hand, lead) ==> r == hand)
      && (forall c :: c in r <==> c in hand && (c.suit == lead || !HasSuit(hand, lead)))
  {
    SubseqRefl(hand);
    if |hand| == 0 then []
    else if ForcedOpening(hand, firstLead) then
      var r := [TwoOfClubs()];
      SubseqSingleton(TwoOfClubs(), hand);
      r
    else if |trick| == 0 then hand
    else
      var inLead := OfSuit(hand, trick[0].card.suit);
      var r := if |inLead| > 0 then inLead else hand;
      SubseqMembers(r, hand);
      r
  }

  lemma {:induction false} SubseqSingleton<T>(x: T, s: seq<T>)
    requires x in s
    ensures Subseq([x], s)
    decreases |s|
  {
    if s[0] != x {
      assert x in s[1..];
      SubseqSingleton(x, s[1..]);
    }
  }

  /** Leading: with no forced opening and an empty trick every card of the hand is
      legal, hearts included, whether or not hearts are broken. */
  lemma LeadAnyCard(hand: seq<Card>, heartsBroken: bool, firstLead: bool)
    requires !ForcedOpening(hand, firstLead)
    ensures LegalPlays(hand, [], heartsBroken, firstLead) == hand
    ensures LegalPlays(hand, [], true, firstLead) == LegalPlays(hand, [], false, firstLead)
  {
  }

  // ---------------------------------------------------------------------------
  // Trick winner
  // ---------------------------------------------------------------------------

  /** The position `max` settles on when scanning `trick[..n]` for the highest
      lead-suit rank (the first of equal maxima), or -1 when there is none. */
  function BestLeadIndex(trick: Trick, lead: Suit, n: nat): (k: int)
    requires n <= |trick|
    ensures -1 <= k < n
    ensures k == -1 <==> forall m | 0 <= m < n :: trick[m].card.suit != lead
    ensures k >= 0 ==> trick[k].card.suit == lead
    ensures k >= 0 ==> forall m | 0 <= m < n && trick[m].card.suit == lead :: trick[m].card.rank <= trick[k].card.rank
    ensures k >= 0 ==> forall m | 0 <= m < k && trick[m].card.suit == lead :: trick[m].card.rank < trick[k].card.rank
  {
    if n == 0 then -1
    else
      var b := BestLeadIndex(trick, lead, n - 1);
      var c := trick[n - 1].card;
      if c.suit == lead && (b == -1 || c.rank > trick[b].card.rank) then n - 1 else b
  }

  /** `get_trick_winner`: the seat of the highest card of the lead suit (the first
      one if ranks tie); off-suit cards never win. */
  function TrickWinner(trick: Trick, lead: Suit): (r: Result<Seat>)
    ensures r == Err(EmptyTrick) <==> |trick| == 0
    ensures r == Err(NoLeadSuitCard) <==> |trick| > 0 && forall m | 0 <= m < |trick| :: trick[m].card.suit != lead
    ensures r.Err? ==> r.error == EmptyTrick || r.error == NoLeadSuitCard
    ensures r.Ok? ==> exists k | 0 <= k < |trick| ::
      && trick[k].seat == r.value
      && trick[k].card.suit == lead
      && (forall m | 0 <= m < |trick| && trick[m].card.suit == lead :: trick[m].card.rank <= trick[k].card.rank)
      && (forall m | 0 <= m < k && trick[m].card.suit == lead :: trick[m].card.rank < trick[k].card.rank)
  {
    if |trick| == 0 then Err(EmptyTrick)
    else
      var k := BestLeadIndex(trick, lead, |trick|);
      if k == -1 then Err(NoLeadSuitCard) else Ok(trick[k].seat)
  }

  // ---------------------------------------------------------------------------
  // Points
  // ---------------------------------------------------------------------------

  function CardPoints(c: Card): nat {
    if c.suit == Hearts then 1 else if c == QueenOfSpades then 13 else 0
  }

  function PointsOf(cards: seq<Card>): nat {
    if |cards| == 0 then 0 else CardPoints(cards[0]) + PointsOf(cards[1..])
  }

  /** `get_trick_points`: one per heart, thirteen for the queen of spades. */
  function TrickPoints(trick: Trick): (p: nat)
    ensures p == PointsOf(TrickCards(trick))
    ensures p <= 13 * |trick|
  {
    if |trick| == 0 then 0
    else
      assert TrickCards(trick)[1..] == TrickCards(trick[1..]);
      CardPoints(trick[0].card) + TrickPoints(trick[1..])
  }

  lemma {:induction false} PointsOfAppend(a: seq<Card>, b: seq<Card>)
    ensures PointsOf(a + b) == PointsOf(a) + PointsOf(b)
    decreases |a|
  {
    if |a| == 0 {
      assert a + b == b;
    } else {
      assert (a + b)[0] == a[0];
      assert (a + b)[1..] == a[1..] + b;
      PointsOfAppend(a[1..], b);
    }
  }

  /** Points only depend on which cards there are, not on their order. */
  lemma {:induction false} PointsOfPermutation(a: seq<Card>, b: seq<Card>)
    requires multiset(a) == multiset(b)
    ensures PointsOf(a) == PointsOf(b)
    decreases |a|
  {
    if |a| == 0 {
      assert |b| == |multiset(b)| == 0;
    } else {
      var x := a[0];
      assert x in multiset(b);
      var i :| 0 <= i < |b| && b[i] == x;
      var rest := b[..i] + b[i + 1..];
      assert b == b[..i] + [x] + b[i + 1..];
      assert a == [x] + a[1..];
      assert multiset(a) == multiset{x} + multiset(a[1..]);
      assert multiset(b) == multiset(b[..i]) + multiset{x} + multiset(b[i + 1..]);
      assert multiset(rest) == multiset(b[..i]) + multiset(b[i + 1..]);
      calc {
        multiset(a[1..]);
        multiset(a) - multiset{x};
        multiset(b) - multiset{x};
        multiset(rest);
      }
      PointsOfPermutation(a[1..], rest);
      PointsOfAppend(b[..i] + [x], b[i + 1..]);
      PointsOfAppend(b[..i], [x]);
      PointsOfAppend(b[..i], b[i + 1..]);
    }
  }

  /** Removing a card held at most once loses exactly its points. */
  lemma {:induction false} PointsOfRemoveAll(s: seq<Card>, x: Card)
    requires multiset(s)[x] <= 1
    ensures PointsOf(RemoveAll(s, x)) + (if x in s then CardPoints(x) else 0) == PointsOf(s)
    decreases |s|
  {
    if |s| > 0 {
      assert s == [s[0]] + s[1..];
      assert multiset(s) == multiset{s[0]} + multiset(s[1..]);
      PointsOfRemoveAll(s[1..], x);
      var rest := RemoveAll(s[1..], x);
      if s[0] == x {
        assert x !in s[1..];
        assert RemoveAll(s, x) == rest;
      } else {
        assert RemoveAll(s, x) == [s[0]] + rest;
        assert ([s[0]] + rest)[1..] == rest;
      }
    }
  }

  lemma {:induction false} PointsOfSuitRun(s: Suit, lo: int)
    requires 2 <= lo <= 15
    ensures PointsOf(SuitRun(s, lo)) ==
      if s == Hearts then 15 - lo
      else if s == Spades && lo <= 12 then 13
      else 0
    decreases 15 - lo
  {
    if lo < 15 {
      PointsOfSuitRun(s, lo + 1);
      assert SuitRun(s, lo)[1..] == SuitRun(s, lo + 1);
    }
  }

  /** The whole deck is worth 26 points: thirteen hearts and the queen of spades. */
  lemma DeckPoints()
    ensures PointsOf(Deck52()) == 26
  {
    var c, d, s, h := SuitRun(Clubs, 2), SuitRun(Diamonds, 2), SuitRun(Spades, 2), SuitRun(Hearts, 2);
    assert Deck52() == c + d + s + h;
    SuitRunsPoints(c, d, s, h);
  }

  /** The points of the four whole suits, added up. */
  lemma SuitRunsPoints(c: seq<Card>, d: seq<Card>, s: seq<Card>, h: seq<Card>)
    requires c == SuitRun(Clubs, 2) && d == SuitRun(Diamonds, 2)
    requires s == SuitRun(Spades, 2) && h == SuitRun(Hearts, 2)
    ensures PointsOf(c + d + s + h) == 26
  {
    PointsOfSuitRun(Clubs, 2);
    PointsOfSuitRun(Diamonds, 2);
    PointsOfSuitRun(Spades, 2);
    PointsOfSuitRun(Hearts, 2);
    PointsOfAppend(c + d + s, h);
    PointsOfAppend(c + d, s);
    PointsOfAppend(c, d);
  }

  // ---------------------------------------------------------------------------
  // Pass validation
  // ---------------------------------------------------------------------------

  /** `is_valid_pass`: exactly three cards, no duplicates, all held. */
  function IsValidPass(hand: seq<Card>, three: seq<Card>): (r: bool)
    ensures r <==> |three| == 3 && NoDup(three) && forall i | 0 <= i < 3 :: three[i] in hand
  {
    if |three| != 3 then false
    else
      var asSet := set c | c in three;
      assert asSet == {three[0], three[1], three[2]};
      ThreeDistinct(three[0], three[1], three[2]);
      |asSet| == 3 && forall c | c in three :: c in hand
  }

  lemma ThreeDistinct(a: Card, b: Card, c: Card)
    ensures |{a, b, c}| == 3 <==> a != b && a != c && b != c
  {
    if a == b || a == c || b == c {
      assert |{a, b, c}| <= 2 by {
        if a == b { assert {a, b, c} == {a, c}; }
        else if a == c { assert {a, b, c} == {a, b}; }
        else { assert {a, b, c} == {a, b}; }
      }
    }
  }
}
