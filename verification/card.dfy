/** Cards, their two- or three-character codes, the 52-card deck, shuffling and
    the round-robin deal (api/hearts/game/card.py). */
module Cards {
  import opened Wrappers
  import opened Seqs
  import opened Randomness
  import opened Text

  /** Suits in `IntEnum` order: clubs 0, diamonds 1, spades 2, hearts 3. */
  datatype Suit = Clubs | Diamonds | Spades | Hearts

  function SuitIndex(s: Suit): (k: int)
    ensures 0 <= k < 4
  {
    match s
    case Clubs => 0
    case Diamonds => 1
    case Spades => 2
    case Hearts => 3
  }

  function SuitAt(k: int): (s: Suit)
    requires 0 <= k < 4
    ensures SuitIndex(s) == k
  {
    if k == 0 then Clubs else if k == 1 then Diamonds else if k == 2 then Spades else Hearts
  }

  /** 2..10, then Jack 11, Queen 12, King 13, Ace 14. */
  type Rank = r: int | 2 <= r <= 14 witness 2

  datatype Card = Card(suit: Suit, rank: Rank)

  const QueenRank: int := 12
  const QueenOfSpades: Card := Card(Spades, 12)

  /** The frozen dataclass constructor: a rank outside 2..14 is rejected. */
  function MakeCard(suit: Suit, rank: int): (r: Result<Card>)
    ensures r.Ok? <==> 2 <= rank <= 14
    ensures r.Ok? ==> r.value.suit == suit && r.value.rank == rank
    ensures r.Err? ==> r.error == RankOutOfRange
  {
    if 2 <= rank <= 14 then Ok(Card(suit, rank)) else Err(RankOutOfRange)
  }

  /** The card that must open each round. */
  function TwoOfClubs(): (c: Card)
    ensures c.suit == Clubs && c.rank == 2
    ensures ToCode(c) == "2c"
  {
    Card(Clubs, 2)
  }

  // ---------------------------------------------------------------------------
  // Card codes
  // ---------------------------------------------------------------------------

  /** `RANK_TO_CODE`. */
  function RankToken(r: Rank): string {
    match r
    case 2 => "2" case 3 => "3" case 4 => "4" case 5 => "5" case 6 => "6"
    case 7 => "7" case 8 => "8" case 9 => "9" case 10 => "10"
    case 11 => "J" case 12 => "Q" case 13 => "K" case _ => "A"
  }

  /** `CODE_TO_RANK`: the inverse table, looked up by exact (case-sensitive) token. */
  function TokenRank(t: string): Option<Rank> {
    if |t| == 2 then (if t[0] == '1' && t[1] == '0' then Some(10) else None)
    else if |t| != 1 then None
    else
      match t[0]
      case '2' => Some(2) case '3' => Some(3) case '4' => Some(4) case '5' => Some(5)
      case '6' => Some(6) case '7' => Some(7) case '8' => Some(8) case '9' => Some(9)
      case 'J' => Some(11) case 'Q' => Some(12) case 'K' => Some(13) case 'A' => Some(14)
      case _ => None
  }

  /** `CODE_SUIT`. */
  function SuitLetter(s: Suit): char {
    match s
    case Clubs => 'c'
    case Diamonds => 'd'
    case Spades => 's'
    case Hearts => 'h'
  }

  /** `SUIT_CODE`. */
  function LetterSuit(ch: char): Option<Suit> {
    if ch == 'c' then Some(Clubs)
    else if ch == 'd' then Some(Diamonds)
    else if ch == 's' then Some(Spades)
    else if ch == 'h' then Some(Hearts)
    else None
  }

  /** `Card.to_code`: rank token followed by the lower-case suit letter; the two
      parts decode back through the inverse tables. */
  function ToCode(c: Card): (r: string)
    ensures 2 <= |r| <= 3
    ensures LetterSuit(r[|r| - 1]) == Some(c.suit)
    ensures TokenRank(r[..|r| - 1]) == Some(c.rank)
  {
    RankToken(c.rank) + [SuitLetter(c.suit)]
  }

  /** The lookup half of `Card.from_code`: an already lower-cased suit letter and
      the rank token in front of it. */
  function DecodeParts(rankStr: string, suitChar: char): (r: Result<Card>)
    ensures r == Err(InvalidSuit) <==> LetterSuit(suitChar).None?
    ensures r.Ok? <==> LetterSuit(suitChar).Some? && TokenRank(rankStr).Some?
    ensures r.Ok? ==> ToCode(r.value) == rankStr + [suitChar]
    ensures r.Ok? || r.error in {InvalidSuit, InvalidRank}
  {
    match LetterSuit(suitChar)
    case None => Err(InvalidSuit)
    case Some(s) =>
      match TokenRank(rankStr)
      case None => Err(InvalidRank)
      case Some(k) =>
        var c := Card(s, k);
        assert ToCode(c) == rankStr + [suitChar] by {
          TokenRankInverse(rankStr, k);
          LetterSuitInverse(suitChar, s);
        }
        Ok(c)
  }

  /** `Card.from_code`: strip, split off the last character as the suit letter
      (case-insensitive), and look the rest up as an exact rank token. */
  function FromCode(code: string): (r: Result<Card>)
    ensures var t := Strip(code);
      && (r == Err(EmptyCardCode) <==> t == [])
      && (r == Err(InvalidSuit) <==> t != [] && LetterSuit(LowerChar(t[|t| - 1])).None?)
      && (r.Ok? <==> t != [] && LetterSuit(LowerChar(t[|t| - 1])).Some? && TokenRank(t[..|t| - 1]).Some?)
      && (r.Ok? ==> ToCode(r.value) == t[..|t| - 1] + [LowerChar(t[|t| - 1])])
    ensures r.Ok? || r.error in {EmptyCardCode, InvalidSuit, InvalidRank}
  {
    var t := Strip(code);
    if t == [] then Err(EmptyCardCode)
    else DecodeParts(t[..|t| - 1], LowerChar(t[|t| - 1]))
  }

  /** A code with no whitespace at its ends is decoded as it stands. */
  lemma FromCodeTrimmed(code: string)
    requires |code| > 0 && !IsSpace(code[0]) && !IsSpace(code[|code| - 1])
    ensures FromCode(code) == DecodeParts(code[..|code| - 1], LowerChar(code[|code| - 1]))
  {
    StripIs(code, 0, |code|);
    assert code[0..|code|] == code;
  }

  lemma TokenRankInverse(t: string, k: Rank)
    requires TokenRank(t) == Some(k)
    ensures RankToken(k) == t
  {
  }

  lemma LetterSuitInverse(ch: char, s: Suit)
    requires LetterSuit(ch) == Some(s)
    ensures SuitLetter(s) == ch
  {
  }

  /** Decoding a card's own code gives the card back. */
  lemma FromCodeToCode(c: Card)
    ensures FromCode(ToCode(c)) == Ok(c)
  {
    var code := ToCode(c);
    CodeEnds(c);
    FromCodeTrimmed(code);
  }

  /** A card's code has no whitespace at either end and a lower-case suit letter. */
  lemma CodeEnds(c: Card)
    ensures var code := ToCode(c);
      && !IsSpace(code[0]) && !IsSpace(code[|code| - 1])
      && LowerChar(code[|code| - 1]) == code[|code| - 1]
  {
  }

  /** The suit letter is read case-insensitively: upper-casing it (or not) never
      changes the outcome. The rank token gets no such treatment ("j" is not a rank). */
  lemma FromCodeSuitCaseInsensitive(prefix: string, ch: char)
    requires |prefix| > 0 ==> !IsSpace(prefix[0])
    requires !IsSpace(ch)
    ensures FromCode(prefix + [ch]) == FromCode(prefix + [LowerChar(ch)])
    ensures TokenRank("j") == None && TokenRank("q") == None
  {
    FromCodeSnoc(prefix, ch);
    FromCodeSnoc(prefix, LowerChar(ch));
    LowerCharIdempotent(ch);
    RankTokensCaseSensitive();
  }

  lemma LowerCharIdempotent(ch: char)
    ensures LowerChar(LowerChar(ch)) == LowerChar(ch)
  {
  }

  lemma RankTokensCaseSensitive()
    ensures TokenRank("j") == None && TokenRank("q") == None
  {
  }

  /** A trimmed code is decoded from its last character and what precedes it. */
  lemma FromCodeSnoc(prefix: string, ch: char)
    requires |prefix| > 0 ==> !IsSpace(prefix[0])
    requires !IsSpace(ch)
    ensures FromCode(prefix + [ch]) == DecodeParts(prefix, LowerChar(ch))
  {
    var a := prefix + [ch];
    assert a[..|a| - 1] == prefix && a[|a| - 1] == ch;
    assert !IsSpace(a[0]);
    FromCodeTrimmed(a);
  }

  /** Surrounding whitespace is ignored. */
  lemma FromCodePadded()
    ensures FromCode(" Qs ") == Ok(Card(Spades, 12))
  {
    StripIs(" Qs ", 1, 3);
    assert " Qs "[1..3] == "Qs";
    assert "Qs"[..1] == "Q" && TokenRank("Q") == Some(12);
    assert LowerChar('s') == 's' && LetterSuit('s') == Some(Spades);
  }

  // ---------------------------------------------------------------------------
  // Deck, shuffle, deal
  // ---------------------------------------------------------------------------

  /** Cards of suit `s` with ranks `lo..14`, ascending. */
  function SuitRun(s: Suit, lo: int): (r: seq<Card>)
    requires 2 <= lo <= 15
    ensures |r| == 15 - lo
    ensures forall i | 0 <= i < |r| :: r[i] == Card(s, lo + i)
    decreases 15 - lo
  {
    if lo == 15 then [] else [Card(s, lo)] + SuitRun(s, lo + 1)
  }

  /** `deck_52`: suit-major in the order c, d, s, h; ranks 2..A within a suit.
      Every card occurs exactly once. */
  function Deck52(): (r: seq<Card>)
    ensures |r| == 52
    ensures forall i | 0 <= i < 52 :: r[i] == Card(SuitAt(i / 13), i % 13 + 2)
    ensures NoDup(r)
    ensures forall c: Card :: c in r
  {
    var d := SuitRun(Clubs, 2) + SuitRun(Diamonds, 2) + SuitRun(Spades, 2) + SuitRun(Hearts, 2);
    assert forall i | 0 <= i < 52 :: d[i] == Card(SuitAt(i / 13), i % 13 + 2) by {
      forall i | 0 <= i < 52
        ensures d[i] == Card(SuitAt(i / 13), i % 13 + 2)
      {
        if i < 13 {
        } else if i < 26 {
          assert d[i] == SuitRun(Diamonds, 2)[i - 13];
        } else if i < 39 {
          assert d[i] == SuitRun(Spades, 2)[i - 26];
        } else {
          assert d[i] == SuitRun(Hearts, 2)[i - 39];
        }
      }
    }
    forall c: Card
      ensures c in d
    {
      var i := SuitIndex(c.suit) * 13 + c.rank - 2;
      assert d[i] == c;
    }
    d
  }

  function Swap<T>(x: seq<T>, i: nat, j: nat): (r: seq<T>)
    requires i < |x| && j < |x|
    ensures |r| == |x| && multiset(r) == multiset(x)
  {
    x[i := x[j]][j := x[i]]
  }

  /** The loop of CPython's `Random.shuffle` from position `i` down to 1: swap
      position `i` with `randbelow(i + 1)`. */
  function ShuffleFrom<T>(x: seq<T>, i: nat, rng: Rng): (r: (seq<T>, Rng))
    requires i < |x|
    ensures |r.0| == |x| && multiset(r.0) == multiset(x)
    decreases i
  {
    if i == 0 then (x, rng)
    else
      var (j, rng') := RandBelow(rng, i + 1);
      ShuffleFrom(Swap(x, i, j), i - 1, rng')
  }

  /** `shuffle_deck`: a new ordering of the same cards. Sequences are values, so
      the caller's deck is untouched. */
  function Shuffle<T>(deck: seq<T>, rng: Rng): (r: (seq<T>, Rng))
    ensures |r.0| == |deck| && multiset(r.0) == multiset(deck)
  {
    if |deck| <= 1 then (deck, rng) else ShuffleFrom(deck, |deck| - 1, rng)
  }

  /** Four hands (one per seat); the Python lists of hands always have length 4. */
  type Hands = h: seq<seq<Card>> | |h| == 4 witness [[], [], [], []]

  function Flatten(h: Hands): seq<Card> {
    h[0] + h[1] + h[2] + h[3]
  }

  /** `deal_into_4_hands`: seat i receives `deck[i], deck[i+4], ..., deck[i+48]`. */
  function Deal(deck: seq<Card>): (r: Result<Hands>)
    ensures r.Ok? <==> |deck| == 52
    ensures r.Err? ==> r.error == DeckSizeMismatch
    ensures r.Ok? ==> forall i | 0 <= i < 4 :: |r.value[i]| == 13
    ensures r.Ok? ==> forall i, j | 0 <= i < 4 && 0 <= j < 13 :: r.value[i][j] == deck[i + 4 * j]
  {
    if |deck| != 52 then Err(DeckSizeMismatch)
    else Ok(seq(4, i requires 0 <= i < 4 => seq(13, j requires 0 <= j < 13 => deck[i + j * 4])))
  }

  /** The four dealt hands partition the deck. */
  lemma DealPartition(deck: seq<Card>)
    requires |deck| == 52
    ensures Deal(deck).Ok?
    ensures multiset(Flatten(Deal(deck).value)) == multiset(deck)
  {
    var h := Deal(deck).value;
    DealPrefix(deck, h, 13);
    assert deck[..52] == deck;
    assert forall i | 0 <= i < 4 :: h[i][..13] == h[i];
  }

  lemma {:induction false} DealPrefix(deck: seq<Card>, h: Hands, k: nat)
    requires |deck| == 52 && k <= 13
    requires forall i | 0 <= i < 4 :: |h[i]| == 13
    requires forall i, j | 0 <= i < 4 && 0 <= j < 13 :: h[i][j] == deck[i + 4 * j]
    ensures multiset(deck[..4 * k])
         == multiset(h[0][..k]) + multiset(h[1][..k]) + multiset(h[2][..k]) + multiset(h[3][..k])
  {
    if k > 0 {
      var m := k - 1;
      DealPrefix(deck, h, m);
      DealRow(deck, h, m);
      PrefixSnoc(h[0], m);
      PrefixSnoc(h[1], m);
      PrefixSnoc(h[2], m);
      PrefixSnoc(h[3], m);
      Regroup(multiset(deck[..4 * m]), multiset(h[0][..m]), multiset(h[1][..m]),
        multiset(h[2][..m]), multiset(h[3][..m]), h[0][m], h[1][m], h[2][m], h[3][m]);
    }
  }

  /** Row `m` of the deal is the deck's cards `4m` to `4m + 3`. */
  lemma DealRow(deck: seq<Card>, h: Hands, m: nat)
    requires |deck| == 52 && m < 13
    requires forall i | 0 <= i < 4 :: |h[i]| == 13
    requires forall i, j | 0 <= i < 4 && 0 <= j < 13 :: h[i][j] == deck[i + 4 * j]
    ensures multiset(deck[..4 * m + 4]) == multiset(deck[..4 * m]) + multiset{h[0][m], h[1][m], h[2][m], h[3][m]}
  {
    var a, b, c, d := h[0][m], h[1][m], h[2][m], h[3][m];
    assert a == deck[4 * m] && b == deck[4 * m + 1] && c == deck[4 * m + 2] && d == deck[4 * m + 3];
    assert deck[..4 * m + 4] == deck[..4 * m] + [a, b, c, d];
  }

  lemma PrefixSnoc<T>(s: seq<T>, m: nat)
    requires m < |s|
    ensures multiset(s[..m + 1]) == multiset(s[..m]) + multiset{s[m]}
  {
    assert s[..m + 1] == s[..m] + [s[m]];
  }

  lemma Regroup<T>(x: multiset<T>, p: multiset<T>, q: multiset<T>, r: multiset<T>, s: multiset<T>,
                   a: T, b: T, c: T, d: T)
    requires x == p + q + r + s
    ensures x + multiset{a, b, c, d}
         == (p + multiset{a}) + (q + multiset{b}) + (r + multiset{c}) + (s + multiset{d})
  {
  }

  /** Dealing a shuffled deck always succeeds and hands out every card once. */
  lemma DealShuffledDeck(rng: Rng)
    ensures Deal(Shuffle(Deck52(), rng).0).Ok?
    ensures multiset(Flatten(Deal(Shuffle(Deck52(), rng).0).value)) == multiset(Deck52())
  {
    DealPartition(Shuffle(Deck52(), rng).0);
  }
}
