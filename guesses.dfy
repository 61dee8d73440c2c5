/** Validating a submitted word and scoring it against the target. */
module Guesses {
  import opened Words
  import opened Letters

  /** A scored guess: one letter per position of the submitted word. */
  datatype Guess = Guess(letters: seq<Letter>)

  /** The two ways a submission can be refused. */
  datatype GuessError = NotEnoughLetters | NotInWordList

  /** Outcome of validating and scoring a submission. */
  datatype GuessResult = Ok(guess: Guess) | Err(error: GuessError)

  /** The text shown to the player for each refusal. */
  function ErrorMessage(e: GuessError): (m: string)
    ensures m == "Not enough letters" <==> e == NotEnoughLetters
    ensures m == "Not in word list" <==> e == NotInWordList
  {
    match e
    case NotEnoughLetters => "Not enough letters"
    case NotInWordList => "Not in word list"
  }

  /** The submitted word spelled by a guess's letters. */
  function Word(g: Guess): (w: string)
    ensures |w| == |g.letters|
    ensures forall i :: 0 <= i < |w| ==> w[i] == g.letters[i].character
  {
    seq(|g.letters|, i requires 0 <= i < |g.letters| => g.letters[i].character)
  }

  /** Every letter of the guess sits at its correct index. */
  predicate AllCorrect(g: Guess) {
    forall i :: 0 <= i < |g.letters| ==> g.letters[i].state == LetterState.CorrectIndex
  }

  /** AllCorrect is the test "every letter of the guess is CorrectIndex",
      taken over the letters themselves; no letter is then InWord or
      NotInWord. */
  lemma AllCorrectEveryLetter(g: Guess)
    ensures AllCorrect(g) <==> forall l :: l in g.letters ==> l.state == LetterState.CorrectIndex
    ensures AllCorrect(g) ==> forall l :: l in g.letters ==> !l.state.InWord? && !l.state.NotInWord?
  {
  }

  /** Reference description of a scored guess, position by position: the
      letter keeps the guessed character; it is CorrectIndex exactly when the
      target has that character at the same index, NotInWord exactly when the
      target does not contain the character at all, and InWord otherwise.
      Repeated letters are not budgeted: every occurrence is judged alone. */
  predicate ScoredAgainst(g: Guess, guess: string, word: string) {
    |g.letters| == |guess| == |word| &&
    forall i :: 0 <= i < |guess| ==>
      g.letters[i].character == guess[i] &&
      (g.letters[i].state == LetterState.CorrectIndex <==> guess[i] == word[i]) &&
      (g.letters[i].state == LetterState.NotInWord <==> guess[i] !in word)
  }

  /** Conversion of a letter vector into a guess: keeps the first
      WORD_LENGTH letters; fewer than that is a fault of the caller. */
  function FromLetters(value: seq<Letter>): (g: Guess)
    requires |value| >= WORD_LENGTH
    ensures |g.letters| == WORD_LENGTH
    ensures forall i :: 0 <= i < WORD_LENGTH ==> g.letters[i] == value[i]
  {
    Guess(value[..WORD_LENGTH])
  }

  /** Classification of the character at `index` of the guess. */
  function Classify(guess: string, word: string, index: nat): (l: Letter)
    requires index < |guess| && index < |word|
    ensures l.character == guess[index]
    ensures l.state == LetterState.CorrectIndex <==> guess[index] == word[index]
    ensures l.state == LetterState.InWord <==> guess[index] != word[index] && guess[index] in word
    ensures l.state == LetterState.NotInWord <==> guess[index] !in word
  {
    if word[index] == guess[index] then NewLetter(guess[index], LetterState.CorrectIndex)
    else if guess[index] in word then NewLetter(guess[index], LetterState.InWord)
    else NewLetter(guess[index], LetterState.NotInWord)
  }

  /** Scores every character of the guess, in order. */
  function Score(guess: string, word: string): (letters: seq<Letter>)
    requires |guess| <= |word|
    ensures |letters| == |guess|
    ensures forall i :: 0 <= i < |guess| ==>
      letters[i].character == guess[i] &&
      (letters[i].state == LetterState.CorrectIndex <==> guess[i] == word[i]) &&
      (letters[i].state == LetterState.NotInWord <==> guess[i] !in word)
  {
    seq(|guess|, i requires 0 <= i < |guess| => Classify(guess, word, i))
  }

  /** Validates a submission against the word lists and scores it against
      the target `word`. The length check comes first, then the list check.
      Length is counted in characters; the program counts bytes, and the two
      agree only on ASCII input, which is all the game ever submits. */
  function NewGuess(guess: string, word: string, lists: WordLists): (r: GuessResult)
    requires lists.WellFormed() && |word| == WORD_LENGTH
    ensures |guess| < WORD_LENGTH ==> r == Err(NotEnoughLetters)
    ensures |guess| >= WORD_LENGTH && !lists.Contains(guess) ==> r == Err(NotInWordList)
    ensures r.Ok? <==> |guess| >= WORD_LENGTH && lists.Contains(guess)
    ensures r.Ok? ==> |guess| == WORD_LENGTH && ScoredAgainst(r.guess, guess, word)
    ensures r.Ok? ==> Word(r.guess) == guess
  {
    if |guess| < 5 then Err(NotEnoughLetters)
    else if guess !in lists.words && guess !in lists.validWords then Err(NotInWordList)
    else Ok(FromLetters(Score(guess, word)))
  }

  /** Guessing the target itself scores every letter CorrectIndex. */
  lemma {:induction false} TargetScoresAllCorrect(word: string, lists: WordLists)
    requires lists.WellFormed() && word in lists.words
    ensures NewGuess(word, word, lists).Ok?
    ensures AllCorrect(NewGuess(word, word, lists).guess)
  {
  }

  /** An accepted guess is all CorrectIndex exactly when it equals the target. */
  lemma {:induction false} AllCorrectIffTarget(guess: string, word: string, lists: WordLists)
    requires lists.WellFormed() && |word| == WORD_LENGTH
    requires NewGuess(guess, word, lists).Ok?
    ensures AllCorrect(NewGuess(guess, word, lists).guess) <==> guess == word
  {
    var g := NewGuess(guess, word, lists).guess;
    if AllCorrect(g) {
      assert forall i :: 0 <= i < |guess| ==> guess[i] == word[i] by {
        forall i | 0 <= i < |guess| ensures guess[i] == word[i] {
          assert g.letters[i].state == LetterState.CorrectIndex;
        }
      }
    }
  }

  /** A guess sharing no character with the target scores NotInWord everywhere. */
  lemma {:induction false} DisjointScoresNotInWord(guess: string, word: string, lists: WordLists)
    requires lists.WellFormed() && |word| == WORD_LENGTH
    requires NewGuess(guess, word, lists).Ok?
    requires forall i :: 0 <= i < |guess| ==> guess[i] !in word
    ensures forall i :: 0 <= i < |guess| ==>
      NewGuess(guess, word, lists).guess.letters[i].state == LetterState.NotInWord
  {
  }

  /** Worked example: against CRATE, the guess TRACE scores
      InWord, CorrectIndex, CorrectIndex, InWord, CorrectIndex (the A sits at
      index 2 in both words). */
  lemma TraceAgainstCrate(lists: WordLists)
    requires lists.WellFormed() && lists.Contains("TRACE")
    ensures NewGuess("TRACE", "CRATE", lists).Ok?
    ensures NewGuess("TRACE", "CRATE", lists).guess.letters ==
      [Letter('T', LetterState.InWord), Letter('R', LetterState.CorrectIndex),
       Letter('A', LetterState.CorrectIndex), Letter('C', LetterState.InWord),
       Letter('E', LetterState.CorrectIndex)]
  {
  }

  /** Worked example of the duplicate-unaware rule: against APPLE, both Ls
      of ALLOW score InWord although APPLE holds a single L. */
  lemma AllowAgainstApple(lists: WordLists)
    requires lists.WellFormed() && lists.Contains("ALLOW")
    ensures NewGuess("ALLOW", "APPLE", lists).Ok?
    ensures NewGuess("ALLOW", "APPLE", lists).guess.letters ==
      [Letter('A', LetterState.CorrectIndex), Letter('L', LetterState.InWord),
       Letter('L', LetterState.InWord), Letter('O', LetterState.NotInWord),
       Letter('W', LetterState.NotInWord)]
  {
  }
}
