/** The order in which the web client lays out the player's hand
    (web/src/components/game/Hand.tsx, `compareCardCodes`): by suit clubs,
    diamonds, spades, hearts, and within a suit from the highest rank down. The
    comparator works on card codes as text. A `string` here is a sequence of
    code points, whereas JavaScript slices UTF-16 code units, so the two agree
    on every string whose last character lies in the Basic Multilingual Plane. */
module HandSort {
  import opened Wrappers
  import opened Text
  import opened Cards

  /** A JavaScript number as the comparator can produce it: an integer, or
      `NaN` when exactly one of the two suits is missing from the table
      (`undefined - 0`). */
  datatype Num = Num(v: int) | NaN

  function Negate(x: Num): (y: Num)
    ensures x.NaN? <==> y.NaN?
    ensures x.Num? ==> y.v == -x.v
  {
    if x.NaN? then NaN else Num(-x.v)
  }

  /** `s.slice(-1)`: the last character, or nothing for the empty text. */
  function LastPart(s: string): (t: string)
    ensures |s| > 0 ==> t == [s[|s| - 1]]
    ensures |s| == 0 ==> t == []
  {
    if |s| == 0 then [] else s[|s| - 1..]
  }

  /** `s.slice(0, -1)`: everything but the last character. */
  function FrontPart(s: string): (t: string)
    ensures |s| > 0 ==> t == s[..|s| - 1]
    ensures |s| == 0 ==> t == []
  {
    if |s| == 0 then [] else s[..|s| - 1]
  }

  /** The `suitOrder` table, looked up by the lower-cased last character;
      `None` stands for `undefined`. Its values are the suits' enum positions. */
  function SuitOrder(key: string): (r: Option<int>)
    ensures r.Some? <==> |key| == 1 && LetterSuit(key[0]).Some?
    ensures r.Some? ==> r.value == SuitIndex(LetterSuit(key[0]).value)
  {
    if |key| != 1 then None
    else
      match LetterSuit(key[0])
      case None => None
      case Some(s) => Some(SuitIndex(s))
  }

  /** `rankOrder[r] ?? 0`: the table has the same entries as the server's
      rank tokens, and an unknown token counts as 0. */
  function RankOrder(token: string): (n: int)
    ensures TokenRank(token).Some? ==> n == TokenRank(token).value
    ensures TokenRank(token).None? ==> n == 0
  {
    match TokenRank(token)
    case Some(k) => k
    case None => 0
  }

  /** The suit as the comparator reads it: the last character, lower-cased. */
  function CodeSuit(code: string): (r: Option<int>) {
    SuitOrder(Lower(LastPart(code)))
  }

  /** `compareCardCodes(a, b)`: negative puts `a` first. */
  function CompareCardCodes(a: string, b: string): (r: Num)
    ensures CodeSuit(a).Some? && CodeSuit(b).Some? ==> r.Num?
    ensures CodeSuit(a) == CodeSuit(b) ==> r == Num(RankOrder(FrontPart(b)) - RankOrder(FrontPart(a)))
  {
    var sa := CodeSuit(a);
    var sb := CodeSuit(b);
    if sa != sb then
      if sa.Some? && sb.Some? then Num(sa.value - sb.value) else NaN
    else Num(RankOrder(FrontPart(b)) - RankOrder(FrontPart(a)))
  }

  /** The order the hand is meant to show: an earlier suit first, and within a
      suit the higher rank first. */
  predicate ShownBefore(x: Card, y: Card) {
    SuitIndex(x.suit) < SuitIndex(y.suit) || (x.suit == y.suit && x.rank > y.rank)
  }

  /** The suit of a card's code reads back as the card's suit. */
  lemma CodeSuitOfCard(c: Card)
    ensures CodeSuit(ToCode(c)) == Some(SuitIndex(c.suit))
    ensures RankOrder(FrontPart(ToCode(c))) == c.rank
  {
    var code := ToCode(c);
    var last := code[|code| - 1];
    assert LastPart(code) == [last];
    assert Lower([last]) == [LowerChar(last)];
    assert LowerChar(last) == last;
  }

  /** On the codes of two cards the comparator never gives `NaN`, its sign is
      the intended order, and it is zero only for the same card. */
  lemma CompareCardCodesOrders(x: Card, y: Card)
    ensures var r := CompareCardCodes(ToCode(x), ToCode(y));
      && r.Num?
      && (r.v < 0 <==> ShownBefore(x, y))
      && (r.v > 0 <==> ShownBefore(y, x))
      && (r.v == 0 <==> x == y)
  {
    CodeSuitOfCard(x);
    CodeSuitOfCard(y);
    if x.suit == y.suit {
      assert SuitIndex(x.suit) == SuitIndex(y.suit);
    } else {
      assert SuitIndex(x.suit) != SuitIndex(y.suit);
    }
  }

  /** Swapping the arguments negates the answer, for any two texts at all
      (`NaN` stays `NaN`). */
  lemma CompareCardCodesAntisymmetric(a: string, b: string)
    ensures CompareCardCodes(b, a) == Negate(CompareCardCodes(a, b))
  {
  }

  /** The intended order is a strict total order on cards, so sorting by the
      comparator is well defined. */
  lemma ShownBeforeTotal(x: Card, y: Card, z: Card)
    ensures !ShownBefore(x, x)
    ensures ShownBefore(x, y) && ShownBefore(y, z) ==> ShownBefore(x, z)
    ensures x == y || ShownBefore(x, y) || ShownBefore(y, x)
  {
    if SuitIndex(x.suit) == SuitIndex(y.suit) {
      assert x.suit == y.suit;
    }
  }

  /** The suit letter is read case-insensitively, the rank token is not: "QS"
      sorts as the queen of spades, while "qs" has an unknown rank and sorts
      after every spade. */
  lemma CompareCardCodesCase()
    ensures CompareCardCodes("QS", "Qs") == Num(0)
    ensures CompareCardCodes("qs", "2s") == Num(2)
  {
    assert LastPart("QS") == "S" && Lower("S") == "s";
    assert LastPart("Qs") == "s" && Lower("s") == "s";
    assert LastPart("qs") == "s" && LastPart("2s") == "s";
    assert FrontPart("QS") == "Q" && FrontPart("Qs") == "Q";
    assert FrontPart("qs") == "q" && FrontPart("2s") == "2";
  }

  /** A code whose suit is unknown against one whose suit is known compares as
      `NaN`; two codes with unknown suits are compared by rank alone. */
  lemma CompareCardCodesUnknownSuit()
    ensures CompareCardCodes("Ax", "2c") == NaN
    ensures CompareCardCodes("Ax", "2y") == Num(-12)
  {
    assert LastPart("Ax") == "x" && Lower("x") == "x";
    assert LastPart("2c") == "c" && Lower("c") == "c";
    assert LastPart("2y") == "y" && Lower("y") == "y";
    assert FrontPart("Ax") == "A" && FrontPart("2y") == "2";
  }

  /** The hand "3h", "Ac", "2d", "Ks" is shown as "Ac", "2d", "Ks", "3h". */
  lemma HandLayoutExample()
    ensures CompareCardCodes("Ac", "2d") == Num(-1)
    ensures CompareCardCodes("2d", "Ks") == Num(-1)
    ensures CompareCardCodes("Ks", "3h") == Num(-1)
  {
    assert LastPart("Ac") == "c" && Lower("c") == "c";
    assert LastPart("2d") == "d" && Lower("d") == "d";
    assert LastPart("Ks") == "s" && Lower("s") == "s";
    assert LastPart("3h") == "h" && Lower("h") == "h";
  }
}
