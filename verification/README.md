# Hearts engine, modelled in Dafny

This project models the engine of a four-player web Hearts game. The human
always sits at seat 0 and three computer opponents take seats 1 to 3. The
model covers these parts of the game:

- **Cards** (`card.dfy`, module `Cards`): cards, their two- or three-character
  codes ("10h", "Qs"), the 52-card deck, shuffling and dealing.
- **Rules** (`rules.dfy`, `Rules`): legal plays, the trick winner, trick
  points and pass validity.
- **Game state** (`state.dfy`, `GameStates`): the state of a round, the pass
  direction and the state right after a deal.
- **Transitions** (`transitions.dfy`, `Transitions`): applying the passes, a
  single play, round scoring (including shooting the moon) and a new deal.
- **Invariants** (`invariants.dfy`, `Invariants`): the round invariant and its
  preservation. No card is in play twice, and the 26 points are either still
  in play or already taken.
- **Runner** (`runner.dfy`, `Runner`): drives the game around the human. It
  creates a game, takes the human's pass and play, runs the computer seats
  until it is the human's turn again (or a round or game ends), and builds
  the view the web client receives.
- **Computer players**:
  - the random player and the strategy interface (`strategies.dfy`,
    `Strategies`);
  - the rule-based "medium" player (`medium.dfy`, `MediumAI`);
  - the sampling "hard" player (`hard.dfy`, `HardAI`), which tracks voids,
    deals plausible worlds, plays them out and picks the cheapest card;
  - the difficulty factory (also in `Strategies`).
- **Registration checks** (`auth.dfy`, `Auth`): the user name and e-mail
  patterns, the minimum password length, and the order in which registration
  checks a form.
- **Hand order** (`handsort.dfy`, `HandSort`): the web client's `compareCardCodes`
  comparator, which lays out the player's hand.

Shared pieces:

- `wrappers.dfy` (`Wrappers`): `Option`, `Result` and the error kinds.
- `seqs.dfy` (`Seqs`): sequence facts.
- `text.dfy` (`Text`): Python's `str.strip` and ASCII `str.lower`.
- `ordering.dfy` (`Ordering`): stable top-k selection, first arg-min and
  first arg-max.
- `randomness.dfy` (`Randomness`): the random source.

Every raised `ValueError` becomes an `Err` with its own error kind. Every
mutation becomes a function that returns the new value. Randomness is an
oracle `Rng(draw, pos)`, and `randbelow(n)` is `draw(pos) % n`. Shuffling
follows the Fisher–Yates loop of Python's `random.shuffle`.

The strategy classes become datatypes with dispatch functions. The runner
takes the two choosers as function values, so the properties it relies on
are stated once, as `PassInterface` and `PlayInterface`.

## Model

| member | source | states |
|---|---|---|
| Cards.MakeCard | api/hearts/game/card.py:48-55 | A card exists exactly for ranks 2 to 14. Any other rank is refused with the range error. |
| Cards.ToCode | api/hearts/game/card.py:57-58 | A code is 2 or 3 characters long. Its last character is the card's suit letter and the rest is the card's rank token. |
| Cards.TwoOfClubs | api/hearts/game/card.py:103-105 | The opening card is the two of clubs and its code is "2c". |
| Cards.TokenRankInverse | api/hearts/game/card.py:30-45 | The code-to-rank table is the inverse of the rank-to-code table. |
| Cards.LetterSuitInverse | api/hearts/game/card.py:27-28 | The letter-to-suit table is the inverse of the suit-to-letter table. |
| Cards.FromCode | api/hearts/game/card.py:60-71 | White space is first stripped from both ends. Blank text gives the empty-code error. An unknown suit letter (after lower-casing) gives the suit error, and is checked before the rank. An unknown rank token gives the rank error. Otherwise the result is the card whose code is the stripped text with its suit letter lower-cased. |
| Cards.FromCodeToCode | api/hearts/game/card.py:57-71 | Decoding a card's code gives back the same card. |
| Cards.FromCodeSuitCaseInsensitive | api/hearts/game/card.py:65-69 | A suit letter decodes the same in either case. Rank tokens are case-sensitive: "j" and "q" are not ranks. |
| Cards.FromCodePadded | api/hearts/game/card.py:62-71 | Surrounding blanks are ignored: " Qs " is the queen of spades. |
| Cards.Deck52 | api/hearts/game/card.py:80-86 | The deck has 52 cards and no repeats, and holds every card. Position i holds suit i/13 (clubs, diamonds, spades, hearts) and rank i mod 13 + 2. |
| Cards.Shuffle | api/hearts/game/card.py:89-93 | A shuffle returns a permutation of its input. |
| Cards.Deal | api/hearts/game/card.py:96-100 | Dealing fails exactly when the deck does not have 52 cards. Otherwise seat i's j-th card is deck card i + 4j. |
| Cards.DealPartition | api/hearts/game/card.py:96-100 | The four dealt hands together hold exactly the deck's cards. |
| Cards.DealShuffledDeck | api/hearts/game/card.py:80-100 | Dealing a shuffled fresh deck succeeds, and the hands hold each of the 52 cards once. |
| Text.Strip | api/hearts/game/card.py:62 | Strip returns the unique slice left after removing the white-space runs at both ends. It is empty exactly when the text is all white space, and it leaves a text that is already trimmed unchanged. |
| Text.StripIdempotent | api/hearts/game/card.py:62 | Stripping twice is the same as stripping once. |
| Text.Lower | api/hearts/game/card.py:65 | Lower-casing works one character at a time and keeps the length. |
| Text.LowerIdempotent | api/hearts/game/card.py:65 | Lower-casing twice is the same as once. |
| Text.LowerStrip | api/hearts/auth_routes.py:46 | Lower-casing and stripping commute, so strip-then-lower and lower-then-strip normalise alike. |
| Rules.OfSuit | api/hearts/game/rules.py:43 | The result is the hand's cards of one suit, in hand order. It is non-empty exactly when the hand holds that suit. |
| Rules.LegalPlays | api/hearts/game/rules.py:17-49 | The legal plays are a subsequence of the hand, and are non-empty exactly when the hand is. On the first lead, a hand holding 2♣ may only play 2♣. The leader may play any card. A follower must play the led suit when holding it, and may play anything otherwise. |
| Rules.LeadAnyCard | api/hearts/game/rules.py:38-39 | When leading, the whole hand is legal whether or not hearts are broken. |
| Rules.TrickWinner | api/hearts/game/rules.py:52-60 | An empty trick, and a trick with no card of the lead suit, are each refused with their own error. Otherwise the winner is the seat of the highest lead-suit card, the first one on a tie. |
| Rules.TrickPoints | api/hearts/game/rules.py:63-71 | A trick is worth the points of its cards: one per heart and 13 for Q♠. That is at most 13 per card. |
| Rules.PointsOfAppend | api/hearts/game/rules.py:63-71 | Points add up over concatenated card lists. |
| Rules.PointsOfPermutation | api/hearts/game/rules.py:63-71 | Points depend only on which cards are present, not on their order. |
| Rules.PointsOfRemoveAll | api/hearts/game/transitions.py:112 | Taking a card out of a hand takes exactly that card's points with it. |
| Rules.DeckPoints | api/hearts/game/rules.py:63-71 | The whole deck is worth 26 points. |
| Rules.IsValidPass | api/hearts/game/rules.py:74-81 | A pass is valid exactly when it has three pairwise different cards, all from the hand. |
| GameStates.PassDirectionForRound | api/hearts/game/state.py:52-62 | Rounds 1, 2, 3 and 0 mod 4 pass left, right, across and not at all. |
| GameStates.PassDirectionPeriodic | api/hearts/game/state.py:52-62 | The direction repeats every four rounds. Only rounds divisible by four have no passing. |
| GameStates.FirstHolder | api/hearts/game/state.py:84-87 | The result is the lowest seat holding the card, or nothing exactly when no seat holds it. |
| GameStates.InitialStateAfterDeal | api/hearts/game/state.py:65-115 | Three errors: a bad hand shape, a score list not 4 long, and no 2♣ in a no-pass round. Each is returned exactly under its condition, in that order. The new state has an empty trick, zero round scores, unbroken hearts and no winner, and it carries the old scores or zeros. A no-pass round starts in play, led by the lowest seat holding 2♣. Any other round starts in passing at seat 0, in that round's direction. |
| Transitions.Without | api/hearts/game/transitions.py:31 | Every copy of a passed card is removed. Every other card keeps its count and its order. |
| Transitions.RecvFrom | api/hearts/game/transitions.py:35-42 | The seat that seat i receives from is the seat whose pass target is i. |
| Transitions.PassTargetInverse | api/hearts/game/transitions.py:22-42 | Receiving undoes giving, nobody passes to themselves, and passing across is symmetric. |
| Transitions.ApplyPassDirection | api/hearts/game/transitions.py:17-45 | With no passing the hands are unchanged. Otherwise the pass fails exactly when some hand does not drop to 10 cards. On success each hand is what it kept plus the pass it receives. |
| Transitions.RedistributeMembers | api/hearts/game/transitions.py:30-44 | A card is in a seat's new hand exactly when the seat kept it or received it. |
| Transitions.PassesArrive | api/hearts/game/transitions.py:22-44 | Every passed card reaches the seat it was passed to. |
| Transitions.WithoutPass | api/hearts/game/transitions.py:30-34 | A valid pass from a hand without repeats removes exactly those three cards. |
| Transitions.ApplyPasses | api/hearts/game/transitions.py:48-85 | Errors, in order: the wrong phase, a malformed pass list, a hand that does not drop to 10, and no 2♣ after passing. The hand-size error comes only from a failed redistribution. On success the state is in play with an empty trick and unbroken hearts, and the lowest seat holding 2♣ leads. Scores, round, direction and game-over are unchanged. |
| Transitions.CompletedTrickWinner | api/hearts/game/transitions.py:136-137 | A non-empty trick always has a winner under its own lead suit. |
| Transitions.Continued | api/hearts/game/transitions.py:112-133 | While the trick is open, the card moves from the hand to the trick and the turn passes to the next seat. Hearts become broken once a heart or Q♠ is played. Nothing else changes. |
| Transitions.Credit | api/hearts/game/transitions.py:139-140 | Only the winner's round score changes, by the trick's points. |
| Transitions.Completed | api/hearts/game/transitions.py:135-155 | The fourth card closes the trick. The winner takes its points and leads next, and the trick is emptied. Nothing else changes. |
| Transitions.FirstLeadForcesTwoOfClubs | api/hearts/game/transitions.py:166-178 | On the round's first lead, with the 2♣ holder to act, 2♣ is the only legal play. |
| Transitions.OtherLeadIsFree | api/hearts/game/transitions.py:166-178 | Any other lead may be any card of the hand. |
| Transitions.FirstTrickByCardsPlayed | api/hearts/game/transitions.py:166-169 | With all four hands full the first trick has not ended; once four or more cards have left the hands it has. |
| Transitions.DealtNoPassOpensWithTwoOfClubs | api/hearts/game/transitions.py:166-178 | After a deal with no passing, the seat to act makes the round's first lead and may only play 2♣. |
| Transitions.ApplyPlay | api/hearts/game/transitions.py:88-155 | Errors, checked in this order: the wrong phase, not this player's turn, a card not in hand, an illegal card. Each is returned exactly under its condition. A play is accepted exactly when the card is legal for the seat to act. |
| Transitions.Min4 | api/hearts/game/transitions.py:198 | The result is a score of some seat and no greater than any seat's score. |
| Transitions.SeatsWith | api/hearts/game/transitions.py:199 | The result lists, in ascending order, exactly the seats from k on with the given score. |
| Transitions.GameWinner | api/hearts/game/transitions.py:197-200 | The result is the seat with the strictly lowest total, or -1 exactly when the lowest total is shared. |
| Transitions.ApplyRoundScoring | api/hearts/game/transitions.py:181-213 | Each total grows by the seat's round points. On a moon shot the shooter gets nothing and the others get 26. Round scores reset to zero. The game is over exactly when some total reaches 100, and only then is a winner set. Nothing else changes. |
| Transitions.DealNewRound | api/hearts/game/transitions.py:216-225 | A new deal succeeds exactly when the hands are four of 13, the score list has four entries, and, in a no-pass round, someone holds 2♣. It carries the scores over. |
| Invariants.ContinuedMovesCard | api/hearts/game/transitions.py:112-133 | An open-trick play moves one card from hand to trick, so the cards in play are unchanged. |
| Invariants.CompletedMovesCard | api/hearts/game/transitions.py:135-155 | Closing a trick takes exactly its four cards out of play. |
| Invariants.CompletedKeepsPoints | api/hearts/game/transitions.py:135-155 | Points still in play plus points taken this round stay constant when a trick closes. |
| Invariants.ContinuedKeepsInvariant | api/hearts/game/transitions.py:119-133 | An open-trick play keeps the round invariant. |
| Invariants.CompletedKeepsInvariant | api/hearts/game/transitions.py:135-155 | Closing a trick keeps the round invariant. |
| Invariants.ApplyPlayKeepsInvariant | api/hearts/game/transitions.py:88-155 | Every accepted play keeps the round invariant: no card twice, 26 points in play or taken, non-negative round scores, fewer than four cards in the trick. |
| Invariants.SeatPassBalance | api/hearts/game/transitions.py:30-44 | Each seat's new hand plus what it gave equals its old hand plus what it got. |
| Invariants.RedistributeConserves | api/hearts/game/transitions.py:17-45 | Valid passes only move cards between hands: the four hands hold the same cards before and after. |
| Invariants.PassesPool | api/hearts/game/transitions.py:48-85 | Applying valid passes keeps the cards held. |
| Invariants.FullDeckHandsNoDup | api/hearts/game/card.py:96-100 | Hands that together hold the deck hold no card twice. |
| Invariants.PassDirectionAccepts | api/hearts/game/transitions.py:17-45 | Valid passes from hands of 13 distinct cards leave 10 cards in each hand, so redistribution goes ahead and moves cards only between hands. |
| Invariants.ApplyPassesAccepts | api/hearts/game/transitions.py:48-85 | With 13 distinct cards per hand, 2♣ among them and a valid pass from every seat, applying the passes succeeds. |
| Invariants.ApplyPassesKeepsInvariant | api/hearts/game/transitions.py:48-85 | Applying valid passes keeps the cards in play and the round invariant. |
| Invariants.FullDeckInvariant | api/hearts/game/card.py:80-86 | A fresh state holding exactly the deck satisfies the round invariant. |
| Invariants.DealtRoundInvariant | api/hearts/game/state.py:65-115 | The state built from a deal of the full deck satisfies the round invariant. |
| Invariants.ShuffledDealInvariant | api/hearts/game/runner.py:74-76 | A shuffled and dealt fresh deck yields a state satisfying the round invariant. |
| Invariants.RoundEndScoring | api/hearts/game/transitions.py:181-194 | When all hands are empty, the round scores sum to 26. A moon shot is one seat with 26 and the rest with 0. Scoring then raises the sum of totals by 26, or by 78 on a moon shot. |
| Ordering.TopPositions | api/hearts/ai/medium_ai.py:67-68 | The result is the first k positions of a stable sort by decreasing key: higher key first, earlier position first on ties. No position left out comes before a chosen one. |
| Ordering.FirstArgMin | api/hearts/ai/hard_ai.py:231-239 | The result is the first position of the minimum, as a loop that updates only on a strict improvement finds it. |
| Ordering.FirstArgMax | api/hearts/ai/medium_ai.py:127 | The result is the first position of the maximum, as Python's `max` returns it. |
| MediumAI.PassDangerTiers | api/hearts/ai/medium_ai.py:23-46 | Danger values rank Q♠ above K♠/A♠, those above every heart, and every heart above all other cards, whatever the hands. |
| MediumAI.PassDangerSpades | api/hearts/ai/medium_ai.py:26-31 | Q♠ scores 200, K♠ 163 and A♠ 164. |
| MediumAI.MediumPassPositions | api/hearts/ai/medium_ai.py:67-68 | The three positions are distinct and in decreasing danger, earlier first on ties. No other card is more dangerous than the third. |
| MediumAI.MediumPass | api/hearts/ai/medium_ai.py:60-68 | A hand under three cards is refused. Otherwise the pass is the three cards at those positions. |
| MediumAI.MediumPassValid | api/hearts/ai/medium_ai.py:60-68 | The medium pass is a valid pass. |
| MediumAI.MediumPassesHighSpades | api/hearts/ai/medium_ai.py:23-68 | Any Q♠, K♠ or A♠ in the hand is always passed. |
| MediumAI.Priority | api/hearts/ai/medium_ai.py:113-125 | The suit priority starts with clubs and diamonds and lists each suit once. Hearts come before spades exactly when the queen may be out and hearts are broken. |
| MediumAI.SuitOrder | api/hearts/ai/medium_ai.py:113-125 | The result is exactly the suits present among the legal cards, in priority order. |
| MediumAI.LeadSuit | api/hearts/ai/medium_ai.py:113-127 | The lead suit is a suit of the legal cards with the most cards. Among equally long suits it is the first in the priority order: every suit listed before it is strictly shorter. |
| MediumAI.LeadSuitTieBreak | api/hearts/ai/medium_ai.py:113-127 | Holding only spades and hearts, in equal numbers, the player leads hearts exactly when Q♠ may still be out and hearts are broken, and spades otherwise. |
| MediumAI.Lead | api/hearts/ai/medium_ai.py:106-129 | The lead is the lowest card of the lead suit other than Q♠. Q♠ is led only when it is that suit's only legal card. |
| MediumAI.TrickHigh | api/hearts/ai/medium_ai.py:139-142 | The result is the highest lead-suit rank in the trick, or 0 when there is none. |
| MediumAI.Follow | api/hearts/ai/medium_ai.py:133-148 | When some card can duck, the result is the highest card that still loses. Otherwise it is the highest card. |
| MediumAI.Dump | api/hearts/ai/medium_ai.py:152-168 | A void player discards Q♠ if held, else the highest heart, else the highest of K♠/A♠, else the highest card. In the last case it is the first card of that rank in the legal list: every earlier card is strictly lower. |
| MediumAI.MediumChoose | api/hearts/ai/medium_ai.py:82-102 | An empty legal list is refused. A single legal card is played. With two or more legal cards, the player leads (`Lead`) on an empty trick, follows (`Follow` on its cards of the led suit) when it holds that suit, and dumps (`Dump`) when void. The result is always a legal card. |
| MediumAI.MediumDumpsQueen | api/hearts/ai/medium_ai.py:98-156 | A player void in the led suit who holds Q♠ plays it. |
| MediumAI.MediumDucks | api/hearts/ai/medium_ai.py:98-146 | A follower who can duck does: it plays a lead-suit card below the current high. |
| HardAI.MarkVoids | api/hearts/ai/hard_ai.py:49-53 | A seat gains the lead suit as a void exactly when it played off-suit in the trick. |
| HardAI.Observe | api/hearts/ai/hard_ai.py:43-53 | A new round resets the voids. Within a round, voids only grow. Every seat that did not follow suit in the current trick is recorded as void in the lead suit, and nothing else is added: a seat's voids after a trick of two or more cards are exactly its earlier voids (none in a new round) plus the lead suit when it played off suit. A trick of fewer than two cards adds nothing. |
| HardAI.EvaluateRoundScores | api/hearts/ai/hard_ai.py:163-173 | A seat's cost is its round points. On a moon shot it is 0 for the shooter and 26 for the others. |
| HardAI.EvaluateMatchesScoring | api/hearts/ai/hard_ai.py:163-173 | The cost equals the change round scoring makes to that seat's total. |
| HardAI.QueenDanger | api/hearts/ai/hard_ai.py:184-190 | Holding Q♠ costs between 5 and 15, in tenths. Without it the cost is 0. |
| HardAI.QueenSwapLowersDanger | api/hearts/ai/hard_ai.py:180-214 | Replacing Q♠ with a lower spade lowers the hand danger by at least 5. |
| HardAI.HandDangerWorkedExample | api/hearts/ai/hard_ai.py:180-214 | Two worked hands: Q♠ with the spadeless ten-card hand scores 11.0, and the spadeless hand with 2♠ scores -4.0. |
| HardAI.Avoiding | api/hearts/ai/hard_ai.py:100 | The result is the pool's cards outside the void suits, in pool order. |
| HardAI.DealStep | api/hearts/ai/hard_ai.py:99-105 | An opponent's share is a prefix of the unused cards outside its voids when there are enough, and of all unused cards otherwise. It has the needed size whenever that many remain. |
| HardAI.DealToSizes | api/hearts/ai/hard_ai.py:98-106 | When the pool is big enough, every opponent receives exactly the number of cards it needs. |
| HardAI.SortByVoidsSorted | api/hearts/ai/hard_ai.py:89-93 | The deal order puts more voids first, and the lower seat first on a tie (a stable descending sort). |
| HardAI.DealOrder | api/hearts/ai/hard_ai.py:82-93 | The deal order lists the three opponents. |
| HardAI.DealOrderSorted | api/hearts/ai/hard_ai.py:82-93 | The deal order is sorted by voids and has no repeats. |
| HardAI.Needs | api/hearts/ai/hard_ai.py:80-86 | An opponent needs the player's hand size, less one when it has already played to the trick. |
| HardAI.Unknown | api/hearts/ai/hard_ai.py:75-77 | The unknown cards are exactly those neither in the player's hand nor in the trick. |
| HardAI.Determinize | api/hearts/ai/hard_ai.py:64-125 | A sampled world changes only the hands and keeps the player's own hand. The random source advances by one shuffle. |
| HardAI.DeterminizeShares | api/hearts/ai/hard_ai.py:98-106 | Each opponent, in deal order, gets its share of the shuffled unknown cards not yet dealt. |
| HardAI.DeterminizeDisjoint | api/hearts/ai/hard_ai.py:75-111 | Dealt cards are unknown to the player, no card goes to two opponents, and no hand has repeats. |
| HardAI.DeterminizeFullyDealt | api/hearts/ai/hard_ai.py:80-106 | In a consistent position, every opponent receives exactly the number of cards it needs. |
| HardAI.SimulateRemaining | api/hearts/ai/hard_ai.py:132-160 | A playout succeeds in the playing phase. It stops at once with no cards left, and round scores only grow. |
| HardAI.SimulateWithinBudget | api/hearts/ai/hard_ai.py:132-160 | From a state satisfying the invariant, the played-out round scores are non-negative and total at most 26. |
| HardAI.WorldCost | api/hearts/ai/hard_ai.py:284-287 | One world's cost is the seat's cost after the card and a playout. It fails exactly when the play is refused. |
| HardAI.WorldsTotal | api/hearts/ai/hard_ai.py:283-287 | The sum over no worlds is 0. The playing-phase and turn errors pass through. |
| HardAI.CardTotals | api/hearts/ai/hard_ai.py:280-287 | There is one total per legal card. With no worlds every total is 0, and the first total is the first card's world sum. |
| HardAI.HardChoose | api/hearts/ai/hard_ai.py:263-294 | An empty legal list is refused and a single card is played without observing. Zero worlds is a division error. A negative count leaves the first card. Every answer is legal, and the tracker observes the state. |
| HardAI.HardChooseCheapest | api/hearts/ai/hard_ai.py:277-294 | With worlds to sample, the choice is the first legal card whose total, and so whose average, is lowest. |
| HardAI.Combinations3 | api/hearts/ai/hard_ai.py:234 | The result is every index triple i < j < k, in lexicographic order, as itertools yields them. |
| HardAI.BestTriple | api/hearts/ai/hard_ai.py:231-239 | The result is the lexicographically first triple of least key. |
| HardAI.HardPass | api/hearts/ai/hard_ai.py:223-242 | A hand under three cards is refused. Otherwise the pass is the three cards of the best triple. |
| HardAI.HardPassOptimal | api/hearts/ai/hard_ai.py:231-242 | The kept hand is the least dangerous possible, and every earlier triple keeps a strictly more dangerous hand. |
| HardAI.HardPassValid | api/hearts/ai/hard_ai.py:223-242 | The hard pass is a valid pass. |
| Strategies.SamplePool | api/hearts/ai/random_ai.py:27 | A sample of k cards is drawn without replacement. |
| Strategies.SampleNoDup | api/hearts/ai/random_ai.py:27 | Sampling from a list without repeats gives no repeats. |
| Strategies.RandomPass | api/hearts/ai/random_ai.py:20-27 | A hand under three cards is refused. Otherwise the pass is three cards drawn from the hand. |
| Strategies.RandomPassValid | api/hearts/ai/random_ai.py:20-27 | The random pass is a valid pass. |
| Strategies.RandomPlay | api/hearts/ai/random_ai.py:36-44 | An empty list is refused. Otherwise the result is a legal card, using one draw. |
| Strategies.ChoosePass | api/hearts/ai/base.py:12-22 | A hand under three cards is refused. Otherwise the result is three cards of the hand. |
| Strategies.ChoosePassValid | api/hearts/ai/base.py:16-21 | Every pass strategy returns a valid pass from a hand without repeats. |
| Strategies.ChoosePassInterface | api/hearts/ai/base.py:12-22 | The pass dispatcher keeps the pass interface's promise. |
| Strategies.ChoosePlay | api/hearts/ai/base.py:25-36 | An empty list is refused and a single card is played. Every answer is a legal card. A strategy keeps its kind and its number of worlds. |
| Strategies.ChoosePlayInterface | api/hearts/ai/base.py:25-36 | The play dispatcher keeps the play interface's promise. |
| Strategies.CreateStrategies | api/hearts/ai/factory.py:12-37 | The difficulty is lower-cased and stripped. "easy", "medium", "hard", "harder" and "hardest" give random, medium, and hard play with 50, 100 or 150 worlds. Anything else is refused. |
| Strategies.CreateStrategiesNormalised | api/hearts/ai/factory.py:21 | Case and surrounding blanks in the difficulty do not matter. |
| Runner.RoundCompleteIff | api/hearts/game/runner.py:31-33 | A round is complete exactly when every hand is empty. |
| Runner.ShuffledHands | api/hearts/game/runner.py:183-185 | A shuffled deal gives four hands of 13 holding the whole deck, one of them with 2♣. |
| Runner.FreshRound | api/hearts/game/runner.py:183-190 | A new round carries the scores and round number and deals the whole deck. It passes from seat 0 unless it is a no-pass round, which the 2♣ holder leads. |
| Runner.FreshRoundInvariant | api/hearts/game/runner.py:183-190 | Every new round satisfies the round invariant. |
| Runner.PadNames | api/hearts/game/runner.py:77-79 | Names are padded to four from the defaults, and given names are kept. |
| Runner.GameNames | api/hearts/game/runner.py:77-81 | The human's name replaces seat 0's name when one is given. |
| Runner.NewGame | api/hearts/game/runner.py:64-88 | A game starts in round 1, passing left, with zero scores and 13 cards a seat, and the human to act. |
| Runner.NewGameInvariant | api/hearts/game/runner.py:64-88 | A new game satisfies the round invariant. |
| Runner.NewGamePlugged | api/hearts/game/runner.py:64-88 | A new game's choosers keep the strategy interfaces. |
| Runner.AIPasses | api/hearts/game/runner.py:102-113 | The computer seats give three passes. |
| Runner.AIPassesPromise | api/hearts/game/runner.py:102-113 | For full hands the computer passes succeed, and each is three cards of its seat's hand. |
| Runner.SubmitPass | api/hearts/game/runner.py:90-114 | Outside passing, and for an invalid human pass, the call is refused. On success play starts with 2♣'s holder to lead, and round, scores and record are kept. |
| Runner.SubmitPassAccepted | api/hearts/game/runner.py:90-114 | In a passing round dealt from the full deck, with 13 cards per hand and a pass strategy that keeps its promise, every valid human pass is accepted. The call refuses only the wrong phase and an invalid pass. |
| Runner.SubmitPassAcceptedDistinct | api/hearts/game/runner.py:90-114 | The same acceptance holds for any hands of 13 distinct cards with 2♣ among them. |
| Runner.NewGameAcceptsPass | api/hearts/game/runner.py:64-114 | In a new game, any valid first pass from the human is accepted. |
| Runner.SubmitPassDelivers | api/hearts/game/runner.py:102-114 | The call fails exactly when applying the four passes fails. Otherwise the result is the applied passes, and the human's three cards reach the pass target. |
| Runner.SubmitPassKeepsInvariant | api/hearts/game/runner.py:90-114 | A submitted pass keeps the cards in play and the round invariant. |
| Runner.AIMove | api/hearts/game/runner.py:155-177 | A computer move records one play by the seat to act, and the state is that play applied. |
| Runner.AIMoveProgress | api/hearts/game/runner.py:155-177 | A computer move plays a legal card from the mover's hand, so the cards left strictly decrease. |
| Runner.AIMovePromise | api/hearts/game/runner.py:164-173 | With nothing legal the move fails, and it succeeds whenever the strategy answers. |
| Runner.OpenRound | api/hearts/game/runner.py:182-192 | The next round is dealt with the new totals, and the call reports whether it starts with passing. |
| Runner.EndRound | api/hearts/game/runner.py:178-192 | At round end the round is scored. A finished game stops there. Otherwise the next round is dealt. |
| Runner.Step | api/hearts/game/runner.py:152-192 | One iteration of the loop only appends computer plays, and it stops or makes progress. |
| Runner.RunAI | api/hearts/game/runner.py:150-192 | The loop terminates in a state where the game is over, passing is due, or it is the human's turn. It only appends computer plays, and a round it empties is scored. |
| Runner.RunAIKeepsInvariant | api/hearts/game/runner.py:150-192 | Running the computer seats keeps the round invariant, unless the game ended. |
| Runner.RunAIKeepsRecord | api/hearts/game/runner.py:174-176 | Earlier recorded plays are kept. |
| Runner.AdvanceToHumanTurn | api/hearts/game/runner.py:194-201 | The record is cleared and the computer seats are run. Only their plays are recorded. |
| Runner.CheckHumanPlay | api/hearts/game/runner.py:122-144 | The human's card is refused for the wrong phase, not their turn, a card not in hand, or an illegal card, in that order. It is accepted exactly when applying it would be. |
| Runner.SubmitPlay | api/hearts/game/runner.py:116-148 | A refused card leaves its error. On success the human's play comes first in the record, followed only by computer plays, and the state is settled. |
| Runner.SubmitPlayLastCardUnscored | api/hearts/game/runner.py:145-153 | When the human plays the round's last card and wins the trick, the round is left unscored and further plays fail. |
| Runner.SubmitPlayLastCardFails | api/hearts/game/runner.py:145-173 | When the human plays the round's last card and a computer seat wins it, the computer seat is asked to play from an empty hand and the call fails. |
| Runner.SubmitPlayScored | api/hearts/game/runner.py:116-192 | This is the corrected submission, which scores a round emptied by the human's card. The same errors and record apply, and a completed round always ends scored. |
| Runner.SubmitPlayScoredAgrees | api/hearts/game/runner.py:116-148 | Away from the round's last card, the corrected submission is the original. |
| Runner.Codes | api/hearts/game/runner.py:223 | Each card is shown by its code. |
| Runner.CodesDecode | api/hearts/game/runner.py:223 | Every shown code decodes back to its card. |
| Runner.SeatName | api/hearts/game/runner.py:219 | A seat is shown by its name, or "Player i" past the list's end. |
| Runner.TrickSlots | api/hearts/game/runner.py:246-256 | Slot i is empty exactly when seat i has not played. Otherwise it holds seat i's last play in the trick. |
| Runner.FrontendView | api/hearts/game/runner.py:211-269 | The view shows each seat's name, score and card count, and the human's hand as codes. Legal plays are non-empty exactly when it is the human's turn in play, the game is not over and the human has cards, and they are a subset of the hand. In that case they list the legal plays of `apply_play`, in order, each code decoding to its card; otherwise they are empty. The trick is shown by seat. The pass direction and the hearts-broken flag are the state's own. |
| Auth.MatchUsernameIff | api/hearts/auth_routes.py:17 | The matcher accepts exactly 3 to 64 word characters followed by the end of text or a final newline. |
| Auth.UsernamePatternTrailingNewline | api/hearts/auth_routes.py:17 | "abc\n" matches; "ab" and "abc!" do not. |
| Auth.MatchEmailShapeIff | api/hearts/auth_routes.py:16 | The matcher accepts exactly: a non-empty local part, "@", then a domain holding a "." with text on both sides, with no blanks or extra "@". |
| Auth.MatchEmailExamples | api/hearts/auth_routes.py:16 | "a@b.co" matches; "a.b", "a@.b" and "a@b." do not. |
| Auth.ValidateUsername | api/hearts/auth_routes.py:26-32 | The stripped name is accepted exactly when it is 3 to 64 word characters. A blank name gives the "required" message and any other bad name the format message. |
| Auth.ValidateUsernameIsPattern | api/hearts/auth_routes.py:26-32 | Acceptance agrees with the user name pattern applied to the stripped name. |
| Auth.ValidatePassword | api/hearts/auth_routes.py:35-38 | A password is accepted exactly when present and at least 8 characters long. |
| Auth.ValidateEmail | api/hearts/auth_routes.py:22-23 | An address is accepted exactly when, once stripped, it has the address shape. |
| Auth.ValidateEmailIsPattern | api/hearts/auth_routes.py:22-23 | Acceptance agrees with the address pattern, end-of-line included, applied to the stripped text. |
| Auth.NormalEmail | api/hearts/auth_routes.py:46 | The stored address has no white space to strip at either end and no upper-case ASCII letter. |
| Auth.EmailStripped | api/hearts/auth_routes.py:46 | A normalised address needs no further stripping. |
| Auth.Register | api/hearts/auth_routes.py:43-78 | A created account (201) has the stripped name, the normalised address and the given password, and is marked verified. A refusal is 400, or 409 exactly for a taken name or address. |
| Auth.RegisterFields | api/hearts/auth_routes.py:49-78 | The account is created only with a long enough password and an unused name and address. |
| Auth.RegisterCreatedIff | api/hearts/auth_routes.py:43-78 | An account is created exactly when the name, address and password pass and neither name nor address is taken. |
| Auth.RegisterCheckOrder | api/hearts/auth_routes.py:49-61 | Checks run in order: name, address, password, then the taken checks. |
| Auth.RegisterEmailNormalised | api/hearts/auth_routes.py:46 | Registering an already-normalised address gives the same answer. |
| Auth.CreatedEmailCanonical | api/hearts/auth_routes.py:46-65 | A stored address has no upper-case ASCII letter and passes the address check again. |
| HandSort.CompareCardCodes | web/src/components/game/Hand.tsx:296-321 | Two known suits always compare as numbers. Within one suit, the higher rank comes first. |
| HandSort.CompareCardCodesOrders | web/src/components/game/Hand.tsx:296-321 | On real card codes the result is never NaN. It is negative exactly when the first card is shown first (clubs, diamonds, spades, hearts, then rank down), and zero exactly for the same card. |
| HandSort.CompareCardCodesAntisymmetric | web/src/components/game/Hand.tsx:296-321 | Swapping the arguments negates the answer, for any texts. |
| HandSort.ShownBeforeTotal | web/src/components/game/Hand.tsx:84 | The intended order is a strict total order, so sorting by it is well defined. |
| HandSort.CompareCardCodesCase | web/src/components/game/Hand.tsx:298-320 | The suit letter is read in either case, while rank tokens are case-sensitive. |
| HandSort.CompareCardCodesUnknownSuit | web/src/components/game/Hand.tsx:297-320 | An unknown suit against a known one gives NaN. Two unknown suits compare by rank. |
| HandSort.HandLayoutExample | web/src/components/game/Hand.tsx:296-321 | "3h", "Ac", "2d", "Ks" are laid out as "Ac", "2d", "Ks", "3h". |

## Left out

- HTTP, the database, password hashing, tokens and rate limiting are left out. A registration form is modelled as three optional strings, and the existing accounts as sets of names and addresses. A field that is not a string is not modelled.
- The Python object lifecycle is left out. `GameRunner` is reached only through `new_game`. A runner is a value, and a refused call returns an error instead of leaving part of an update in place.
- Random numbers are one oracle stream shared by every user. This covers the runner, the strategies and the hard player's rollout generator, which is seeded with 42. Any choice of separate streams is one instance of the oracle.
- `random.sample` follows the algorithm's pool branch. Its set-based branch is used for large populations only, and a pass never has one.
- The unknown cards in `_determinize` come from iterating a set, whose order Python does not fix. They are taken in deck order before the shuffle.
- Floating point is left out. Medium danger values are whole numbers. The hard hand danger is kept in integer tenths. The hard player compares total costs, which orders cards as their averages do when there is at least one world.
- Strip: white space is Python's `str.isspace` set. Lower: ASCII only. For card codes and difficulty names this changes nothing, because no code point outside ASCII lower-cases to a suit letter or a difficulty name.
- Auth.NormalEmail: e-mail addresses are lower-cased in ASCII only, while `str.lower` folds every cased letter and may lengthen the text ("İ" becomes two code points). The model does not promise that the stored address is no longer than the submitted one.
- Auth.Register: because of the ASCII-only lower-casing above, an address that differs from a taken one only in the case of a non-ASCII letter is not seen as taken. For "Ü@b.co" against a stored "ü@b.co", the model answers 201 where the server answers 409.
- CreatedEmailCanonical: "no upper-case letter" covers the ASCII letters A to Z only, for the reason given on the line above.
- LegalPlays: the three callers of `get_legal_plays` (the runner at three places, `apply_play` and the rollout) do not match its signature. The runner passes four positional arguments, and `apply_play` and the rollout pass an extra `first_trick` keyword. All three are modelled as the one call with the hand, the trick, the broken flag and the first-lead flag.
- The rollout's stop on an empty list of legal plays is not modelled. The loop reaches it only with a non-empty hand, which always has a legal play, so it never fires.
- SubmitPlay: `submit_play` does not refuse a play after the game is over. The model does the same and states nothing beyond it.
- Game states are not limited to reachable ones. Where the code and its tests disagree, the model follows the code. Three behaviours differ: hearts may be led before they are broken, Q♠ breaks hearts, and the computer loop plays on into a new round that has no passing.
- HandSort.CompareCardCodes: a code whose last character lies outside the Basic Multilingual Plane is not modelled as JavaScript reads it. JavaScript slices UTF-16 code units, so `slice(-1)` takes the low surrogate and the rank text keeps the high one. The model slices code points. For example, `compareCardCodes("Q😀", "2x")` is 2 in JavaScript and −10 in the model. Real card codes are ASCII.
- HandSort.CompareCardCodes: a rank text naming an inherited object property (such as "toString") would look up a function, not `undefined`. Such codes are not modelled.

## Findings

| source | as written | input that shows it | evidently intended | confidence | as-written member | corrected member |
|---|---|---|---|---|---|---|
| api/hearts/game/runner.py:145-192 | `submit_play` applies the human's card and then enters the computer loop. The loop only scores a round after a computer play (lines 178-179). | The human plays the round's last card. If the human wins that trick, the round is never scored and every later play fails with "card not in hand". If a computer seat wins it, that seat is asked to play from an empty hand and the call fails. | A round emptied by the human's card is scored and the next round is dealt, as after a computer play. | not executed | Runner.SubmitPlay (Runner.SubmitPlayLastCardUnscored, Runner.SubmitPlayLastCardFails) | Runner.SubmitPlayScored (Runner.SubmitPlayScoredAgrees) |
