/** The game's fixed parameters and the two compiled-in word lists it consults. */
module Words {

  /** Number of letters in the target word and in every accepted guess. */
  const WORD_LENGTH: nat := 5

  /** Number of guesses the player is allowed before the target is revealed. */
  const GUESS_COUNT: nat := 6

  /** The target pool (`WORDS`) and the additional guessable words
      (`VALID_WORDS`). Their contents are compiled into the program and are
      given to this model as values. */
  datatype WordLists = WordLists(words: set<string>, validWords: set<string>)
  {
    /** Every listed word has WORD_LENGTH characters. */
    predicate WellFormed() {
      (forall w :: w in words ==> |w| == WORD_LENGTH) &&
      (forall w :: w in validWords ==> |w| == WORD_LENGTH)
    }

    /** A guess is acceptable when either list holds it verbatim. */
    predicate Contains(guess: string) {
      guess in words || guess in validWords
    }
  }
}
