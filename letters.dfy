/** A scored letter: one character of a guess together with its classification. */
module Letters {

  /** How one letter of a guess relates to the target word. */
  datatype LetterState = NotInWord | InWord | CorrectIndex

  datatype Letter = Letter(character: char, state: LetterState)

  /** Builds a letter from its character and its classification. */
  function NewLetter(character: char, state: LetterState): (l: Letter)
    ensures l.character == character
    ensures l.state == state
  {
    Letter(character, state)
  }

  /** A scored letter is in one of exactly three states; none of them means
      "not yet used". */
  lemma LetterStateExhaustive(s: LetterState)
    ensures s == LetterState.NotInWord || s == LetterState.InWord || s == LetterState.CorrectIndex
  {
  }
}
