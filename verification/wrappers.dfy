/** Failure-compatible wrappers shared by the whole model, and the error kinds the
    engine raises. Each `Error` constructor stands for one `raise ValueError(...)`
    (or one Python runtime error) of the source. */
module Wrappers {

  datatype Option<+T> = None | Some(value: T)

  datatype Error =
    | EmptyCardCode       // card.py: "Empty card code"
    | InvalidSuit         // card.py: "Invalid suit in card code"
    | InvalidRank         // card.py: "Invalid rank in card code"
    | RankOutOfRange      // card.py: Card.__post_init__
    | DeckSizeMismatch    // card.py: deal_into_4_hands
    | BadHandShape        // state.py: "Need 4 hands of 13 cards each"
    | BadScoresLength     // state.py: "previous_scores must have length 4"
    | NoTwoOfClubs        // state.py / transitions.py: "2♣ not in any hand"
    | WrongPhase          // transitions.py / runner.py: wrong phase
    | BadPassShape        // transitions.py: "Need exactly 4 lists of 3 cards each"
    | PassNotThree        // transitions.py: "Player i did not pass exactly 3 cards"
    | NotYourTurn
    | CardNotInHand
    | IllegalPlay
    | EmptyTrick          // rules.py: "Empty trick has no winner"
    | NoLeadSuitCard      // rules.py: "Trick has no card in lead suit"
    | InvalidPass         // runner.py: submit_pass validation
    | NoLegalPlays        // ai: "No legal plays"
    | HandTooSmall        // ai: "Hand must have at least 3 cards to pass"
    | ZeroWorlds          // hard_ai.py: division by num_worlds == 0
    | UnknownDifficulty   // factory.py

  datatype Result<+T> = Ok(value: T) | Err(error: Error) {

    predicate IsFailure() {
      Err?
    }

    function PropagateFailure<U>(): Result<U>
      requires Err?
    {
      Err(error)
    }

    function Extract(): T
      requires Ok?
    {
      value
    }
  }
}
