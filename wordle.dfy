/** The game itself: the state of one session and how a key press changes it. */
module Wordle {
  import opened Words
  import opened Letters
  import opened Guesses
  import opened Keyboards

  /** The key presses the game reacts to; every other key is `Other`. */
  datatype KeyCode = Char(ch: char) | Enter | Backspace | Esc | Other

  const WIN_MESSAGE: string := "You win!"

  /** An ASCII letter, of either case: exactly the characters whose ASCII
      upper-case form is one of A-Z. */
  predicate IsAsciiAlphabetic(c: char): (b: bool)
    ensures b <==> 'A' <= ToAsciiUppercase(c) <= 'Z'
  {
    'A' <= c <= 'Z' || 'a' <= c <= 'z'
  }

  /** ASCII upper-casing: a-z map to A-Z, every other character is kept. */
  function ToAsciiUppercase(c: char): (u: char)
    ensures ('A' <= c <= 'Z' || 'a' <= c <= 'z') ==> 'A' <= u <= 'Z'
    ensures 'a' <= c <= 'z' ==> u as int == c as int - 32
    ensures !('a' <= c <= 'z') ==> u == c
  {
    if 'a' <= c <= 'z' then (c as int - 32) as char else c
  }

  /** The key state that shows a letter's classification. */
  function ToKeyState(s: LetterState): (k: KeyState)
    ensures k != KeyState.Unused
    ensures s.NotInWord? <==> k.NotInWord?
    ensures s.InWord? <==> k.InWord?
    ensures s.CorrectIndex? <==> k.CorrectIndex?
  {
    match s
    case NotInWord => KeyState.NotInWord
    case InWord => KeyState.InWord
    case CorrectIndex => KeyState.CorrectIndex
  }

  /** Every character of the letters labels a key. */
  predicate OnKeyboard(letters: seq<Letter>) {
    forall i :: 0 <= i < |letters| ==> IsKey(letters[i].character)
  }

  /** The keyboard after recording the letters of a guess one after the
      other, each overwriting its key. */
  function ApplyLetters(l: Layout, letters: seq<Letter>): (r: Layout)
    requires WellFormed(l) && OnKeyboard(letters)
    ensures WellFormed(r)
    decreases |letters|
  {
    if letters == [] then l
    else
      var last := letters[|letters| - 1];
      WithKeyState(ApplyLetters(l, letters[..|letters| - 1]), last.character, ToKeyState(last.state))
  }

  /** A key whose character no letter carries keeps its state. */
  lemma {:induction false} ApplyLettersUntouched(l: Layout, letters: seq<Letter>, c: char)
    requires WellFormed(l) && OnKeyboard(letters) && IsKey(c)
    requires forall i :: 0 <= i < |letters| ==> letters[i].character != c
    ensures StateOf(ApplyLetters(l, letters), c) == StateOf(l, c)
    decreases |letters|
  {
    if letters != [] {
      var last := letters[|letters| - 1];
      ApplyLettersUntouched(l, letters[..|letters| - 1], c);
      SetLeavesOthers(ApplyLetters(l, letters[..|letters| - 1]), last.character, c, ToKeyState(last.state));
    }
  }

  /** The key for a character shows the classification of the LAST letter
      carrying that character: the final write wins. */
  lemma {:induction false} ApplyLettersLastWrite(l: Layout, letters: seq<Letter>, i: nat)
    requires WellFormed(l) && OnKeyboard(letters) && i < |letters|
    requires forall j :: i < j < |letters| ==> letters[j].character != letters[i].character
    ensures StateOf(ApplyLetters(l, letters), letters[i].character) == ToKeyState(letters[i].state)
    decreases |letters|
  {
    var c := letters[i].character;
    var init := letters[..|letters| - 1];
    var last := letters[|letters| - 1];
    if i == |letters| - 1 {
      SetThenRead(ApplyLetters(l, init), c, ToKeyState(last.state));
    } else {
      ApplyLettersLastWrite(l, init, i);
      SetLeavesOthers(ApplyLetters(l, init), last.character, c, ToKeyState(last.state));
    }
  }

  /** Within one guess a key can be downgraded: recording P as InWord,
      CorrectIndex and then InWord again leaves the P key at InWord. */
  lemma KeyDowngradeWithinGuess(l: Layout)
    requires WellFormed(l)
    ensures var letters := [Letter('P', LetterState.InWord), Letter('U', LetterState.NotInWord),
                            Letter('P', LetterState.CorrectIndex), Letter('P', LetterState.InWord),
                            Letter('Y', LetterState.NotInWord)];
      OnKeyboard(letters) && StateOf(ApplyLetters(l, letters), 'P') == KeyState.InWord
  {
    var letters := [Letter('P', LetterState.InWord), Letter('U', LetterState.NotInWord),
                    Letter('P', LetterState.CorrectIndex), Letter('P', LetterState.InWord),
                    Letter('Y', LetterState.NotInWord)];
    ApplyLettersLastWrite(l, letters, 3);
  }

  /** A snapshot of a session: everything the game shows and decides on. */
  datatype Game = Game(
    message: string,
    pastGuesses: seq<Guess>,
    currentGuess: string,
    keys: Layout,
    gameOver: bool,
    exit: bool)

  /** The session at startup: no message, history or input, every key
      Unused, neither over nor exiting. */
  function InitialGame(): (g: Game)
    ensures g.message == "" && g.pastGuesses == [] && g.currentGuess == []
    ensures !g.gameOver && !g.exit
    ensures WellFormed(g.keys) && forall c :: IsKey(c) ==> StateOf(g.keys, c) == KeyState.Unused
  {
    Game("", [], "", DefaultLayout(), false, false)
  }

  /** What every reachable session satisfies for target `word`. */
  predicate Invariant(g: Game, word: string, lists: WordLists) {
    lists.WellFormed() && word in lists.words &&
    WellFormed(g.keys) &&
    |g.currentGuess| <= WORD_LENGTH &&
    (forall i :: 0 <= i < |g.currentGuess| ==> 'A' <= g.currentGuess[i] <= 'Z') &&
    |g.pastGuesses| <= GUESS_COUNT &&
    (|g.pastGuesses| == GUESS_COUNT ==> g.gameOver) &&
    (g.gameOver && !g.exit ==> g.currentGuess == []) &&
    (forall k :: 0 <= k < |g.pastGuesses| ==>
      |g.pastGuesses[k].letters| == WORD_LENGTH && lists.Contains(Word(g.pastGuesses[k])))
  }

  /** The game starts in a state meeting the invariant. */
  lemma InitialGameInvariant(word: string, lists: WordLists)
    requires lists.WellFormed() && word in lists.words
    ensures Invariant(InitialGame(), word, lists)
    ensures !InitialGame().gameOver && InitialGame().pastGuesses == []
  {
  }

  /** The end-of-turn tests after a guess is recorded: if every letter of
      the newest guess is CorrectIndex the game is won; if the history has
      reached GUESS_COUNT guesses the target is revealed. The second test
      runs after the first, so its message wins on the last guess. */
  function Conclude(g: Game, word: string): (h: Game)
    requires |g.pastGuesses| > 0
    ensures h.gameOver <==> (g.gameOver || AllCorrect(g.pastGuesses[|g.pastGuesses| - 1]) ||
                             |g.pastGuesses| == GUESS_COUNT)
    ensures |g.pastGuesses| == GUESS_COUNT ==> h.message == word
    ensures |g.pastGuesses| != GUESS_COUNT && AllCorrect(g.pastGuesses[|g.pastGuesses| - 1]) ==>
      h.message == WIN_MESSAGE
    ensures |g.pastGuesses| != GUESS_COUNT && !AllCorrect(g.pastGuesses[|g.pastGuesses| - 1]) ==>
      h.message == g.message
    ensures h.(message := g.message, gameOver := g.gameOver) == g
  {
    var won := AllCorrect(g.pastGuesses[|g.pastGuesses| - 1]);
    var exhausted := |g.pastGuesses| == GUESS_COUNT;
    g.(message := if exhausted then word else if won then WIN_MESSAGE else g.message,
       gameOver := g.gameOver || won || exhausted)
  }

  /** Submitting the input (the Enter key): a refused submission shows its
      error text; an accepted one is written to the keyboard, appended to
      the history and clears the input, then the turn is concluded. */
  function Submit(g: Game, word: string, lists: WordLists): (h: Game)
    requires Invariant(g, word, lists) && (g.gameOver ==> g.currentGuess == [])
    ensures Invariant(h, word, lists)
    ensures h.exit == g.exit
    ensures NewGuess(g.currentGuess, word, lists).Err? ==> h.pastGuesses == g.pastGuesses
    ensures NewGuess(g.currentGuess, word, lists).Ok? ==>
      h.pastGuesses == g.pastGuesses + [NewGuess(g.currentGuess, word, lists).guess]
    ensures h.gameOver <==> (g.gameOver || |h.pastGuesses| == GUESS_COUNT ||
      (|h.pastGuesses| > |g.pastGuesses| && AllCorrect(h.pastGuesses[|h.pastGuesses| - 1])))
    ensures g.gameOver ==> h.pastGuesses == g.pastGuesses && h.keys == g.keys
  {
    match NewGuess(g.currentGuess, word, lists)
    case Ok(guess) =>
      AlphabetOnKeyboard();
      Conclude(g.(keys := ApplyLetters(g.keys, guess.letters),
                  pastGuesses := g.pastGuesses + [guess],
                  currentGuess := ""), word)
    case Err(e) => g.(message := ErrorMessage(e))
  }

  /** Handling one key press. The message is cleared first; a press that
      arrives once the game is over requests exit but is still handled. */
  function Step(g: Game, word: string, lists: WordLists, key: KeyCode): (h: Game)
    requires Invariant(g, word, lists) && !g.exit
    ensures Invariant(h, word, lists)
    ensures h.exit <==> g.gameOver || key == Esc
    ensures key != Enter ==> h.message == "" && h.pastGuesses == g.pastGuesses && h.keys == g.keys
    ensures key != Enter ==> h.gameOver == g.gameOver
    ensures key == Esc || key == Other ==> h.currentGuess == g.currentGuess
    ensures key == Enter ==>
      h.message in {"", ErrorMessage(NotEnoughLetters), ErrorMessage(NotInWordList), WIN_MESSAGE, word}
    ensures h.gameOver <==> (g.gameOver || |h.pastGuesses| == GUESS_COUNT ||
      (|h.pastGuesses| > |g.pastGuesses| && AllCorrect(h.pastGuesses[|h.pastGuesses| - 1])))
    ensures g.gameOver ==> h.pastGuesses == g.pastGuesses && h.keys == g.keys
    ensures h.pastGuesses == g.pastGuesses ||
      (|h.pastGuesses| == |g.pastGuesses| + 1 && h.pastGuesses[..|g.pastGuesses|] == g.pastGuesses)
  {
    var cleared := g.(exit := if g.gameOver then true else g.exit, message := "");
    match key
    case Char(ch) =>
      if |cleared.currentGuess| < 5 && IsAsciiAlphabetic(ch) then
        cleared.(currentGuess := cleared.currentGuess + [ToAsciiUppercase(ch)])
      else cleared
    case Enter => Submit(cleared, word, lists)
    case Backspace =>
      if cleared.currentGuess == [] then cleared
      else cleared.(currentGuess := cleared.currentGuess[..|cleared.currentGuess| - 1])
    case Esc => cleared.(exit := true)
    case Other => cleared
  }

  /** Upper-case letters label keys. */
  lemma AlphabetOnKeyboard()
    ensures forall c :: 'A' <= c <= 'Z' ==> IsKey(c)
  {
    RowsAreAlphabet();
  }

  /** A character key appends its upper-case form while the input holds
      fewer than five letters and the character is an ASCII letter;
      otherwise the input is unchanged. */
  lemma StepChar(g: Game, word: string, lists: WordLists, ch: char)
    requires Invariant(g, word, lists) && !g.exit
    ensures var h := Step(g, word, lists, Char(ch));
      h.currentGuess == (if |g.currentGuess| < WORD_LENGTH && IsAsciiAlphabetic(ch)
                         then g.currentGuess + [ToAsciiUppercase(ch)] else g.currentGuess)
  {
  }

  /** Backspace drops the last letter of the input, and does nothing to an
      empty input. */
  lemma StepBackspace(g: Game, word: string, lists: WordLists)
    requires Invariant(g, word, lists) && !g.exit
    ensures var h := Step(g, word, lists, Backspace);
      (g.currentGuess == [] ==> h.currentGuess == []) &&
      (g.currentGuess != [] ==> h.currentGuess + [g.currentGuess[|g.currentGuess| - 1]] == g.currentGuess)
  {
  }

  /** A refused submission shows the error text and changes neither the
      history, the input, the keyboard nor whether the game is over. */
  lemma StepEnterRejected(g: Game, word: string, lists: WordLists)
    requires Invariant(g, word, lists) && !g.exit
    requires NewGuess(g.currentGuess, word, lists).Err?
    ensures var h := Step(g, word, lists, Enter);
      h.message == ErrorMessage(NewGuess(g.currentGuess, word, lists).error) &&
      h.pastGuesses == g.pastGuesses && h.currentGuess == g.currentGuess &&
      h.keys == g.keys && h.gameOver == g.gameOver
  {
  }

  /** A too-short submission reports "Not enough letters", whether or not
      it is a word. */
  lemma StepEnterTooShort(g: Game, word: string, lists: WordLists)
    requires Invariant(g, word, lists) && !g.exit
    requires |g.currentGuess| < WORD_LENGTH
    ensures Step(g, word, lists, Enter).message == "Not enough letters"
    ensures Step(g, word, lists, Enter).pastGuesses == g.pastGuesses
  {
  }

  /** An accepted submission is recorded: the scored guess is appended,
      the input is emptied, and the letters are written to the keyboard in
      order (see ApplyLettersLastWrite and ApplyLettersUntouched for what
      each key then shows). */
  lemma StepEnterAccepted(g: Game, word: string, lists: WordLists)
    requires Invariant(g, word, lists) && !g.exit
    requires NewGuess(g.currentGuess, word, lists).Ok?
    ensures var guess := NewGuess(g.currentGuess, word, lists).guess;
      var h := Step(g, word, lists, Enter);
      ScoredAgainst(guess, g.currentGuess, word) && OnKeyboard(guess.letters) &&
      h.pastGuesses == g.pastGuesses + [guess] && h.currentGuess == [] &&
      h.keys == ApplyLetters(g.keys, guess.letters)
  {
    AlphabetOnKeyboard();
  }

  /** Submitting the target ends the game: "You win!" is shown, unless it
      was the last allowed guess, in which case the target is shown. */
  lemma {:induction false} StepSubmitTarget(g: Game, word: string, lists: WordLists)
    requires Invariant(g, word, lists) && !g.exit
    requires g.currentGuess == word
    ensures var h := Step(g, word, lists, Enter);
      h.gameOver && |h.pastGuesses| == |g.pastGuesses| + 1 &&
      h.message == (if |h.pastGuesses| == GUESS_COUNT then word else WIN_MESSAGE)
  {
    TargetScoresAllCorrect(word, lists);
  }

  /** An accepted guess other than the target either reveals the target
      and ends the game, when it is the last allowed guess, or leaves the
      game running with an empty message. */
  lemma {:induction false} StepSubmitOtherWord(g: Game, word: string, lists: WordLists)
    requires Invariant(g, word, lists) && !g.exit && !g.gameOver
    requires NewGuess(g.currentGuess, word, lists).Ok? && g.currentGuess != word
    ensures var h := Step(g, word, lists, Enter);
      |h.pastGuesses| == |g.pastGuesses| + 1 &&
      (|h.pastGuesses| == GUESS_COUNT ==> h.gameOver && h.message == word) &&
      (|h.pastGuesses| < GUESS_COUNT ==> !h.gameOver && h.message == "")
  {
    AllCorrectIffTarget(g.currentGuess, word, lists);
  }

  /** One game session, updated in place by each key press. */
  class App {
    var message: string
    var pastGuesses: seq<Guess>
    var currentGuess: string
    const keyboard: Keyboard
    const word: string
    const lists: WordLists
    var gameOver: bool
    var exit: bool

    /** The session as a value. */
    ghost function State(): Game
      reads this, keyboard.row1, keyboard.row2, keyboard.row3
    {
      Game(message, pastGuesses, currentGuess, keyboard.Value(), gameOver, exit)
    }

    ghost predicate Valid()
      reads this, keyboard.row1, keyboard.row2, keyboard.row3
    {
      Invariant(State(), word, lists)
    }

    /** A new session for the target `word`, drawn by the caller from the
        target list. */
    constructor (word: string, lists: WordLists)
      requires lists.WellFormed() && word in lists.words
      ensures Valid() && State() == InitialGame()
      ensures this.word == word && this.lists == lists
      ensures fresh(keyboard.row1) && fresh(keyboard.row2) && fresh(keyboard.row3)
    {
      message := "";
      pastGuesses := [];
      currentGuess := "";
      keyboard := new Keyboard();
      this.word := word;
      this.lists := lists;
      gameOver := false;
      exit := false;
    }

    /** Writes each letter's classification to its key, in letter order. */
    method RecordLetters(letters: seq<Letter>)
      requires keyboard.Valid() && OnKeyboard(letters)
      modifies keyboard.row1, keyboard.row2, keyboard.row3
      ensures keyboard.Valid()
      ensures keyboard.Value() == ApplyLetters(old(keyboard.Value()), letters)
    {
      var i := 0;
      while i < |letters|
        invariant 0 <= i <= |letters|
        invariant keyboard.Valid()
        invariant keyboard.Value() == ApplyLetters(old(keyboard.Value()), letters[..i])
      {
        var letter := letters[i];
        ghost var before := keyboard.Value();
        assert letters[..i + 1][..i] == letters[..i];
        match letter.state {
        case CorrectIndex =>
          keyboard.SetKeyState(letter.character, KeyState.CorrectIndex);
        case InWord =>
          keyboard.SetKeyState(letter.character, KeyState.InWord);
        case NotInWord =>
          keyboard.SetKeyState(letter.character, KeyState.NotInWord);
        }
        assert keyboard.Value() == WithKeyState(before, letter.character, ToKeyState(letter.state));
        i := i + 1;
      }
      assert letters[..i] == letters;
    }

    /** Decides, after a guess is recorded, whether the game is won or the
        guesses are exhausted. */
    method CheckGameOver()
      requires |pastGuesses| > 0
      modifies this
      ensures State() == Conclude(old(State()), word)
    {
      if AllCorrect(pastGuesses[|pastGuesses| - 1]) {
        message := WIN_MESSAGE;
        gameOver := true;
      }

      if |pastGuesses| == GUESS_COUNT {
        message := word;
        gameOver := true;
      }
    }

    /** The Enter key: validates and scores the input, records an accepted
        guess and decides whether the game is over. */
    method SubmitGuess()
      requires Valid() && (gameOver ==> currentGuess == [])
      modifies this, keyboard.row1, keyboard.row2, keyboard.row3
      ensures Valid()
      ensures State() == Submit(old(State()), word, lists)
    {
      ghost var before := State();
      var result := NewGuess(currentGuess, word, lists);
      match result {
      case Ok(guess) =>
        AlphabetOnKeyboard();
        assert OnKeyboard(guess.letters) by {
          forall i | 0 <= i < |guess.letters| ensures IsKey(guess.letters[i].character) {
            assert guess.letters[i].character == currentGuess[i];
          }
        }
        RecordLetters(guess.letters);
        assert keyboard.Value() == ApplyLetters(before.keys, guess.letters);

        pastGuesses := pastGuesses + [guess];
        currentGuess := "";
        assert State() == before.(keys := ApplyLetters(before.keys, guess.letters),
                                  pastGuesses := before.pastGuesses + [guess],
                                  currentGuess := "");
        CheckGameOver();
      case Err(error) =>
        message := ErrorMessage(error);
      }
      assert State() == Submit(before, word, lists);
    }

    /** Handles one key press. The run loop calls this only while `exit` is
        false. */
    method HandleEvents(key: KeyCode)
      requires Valid() && !exit
      modifies this, keyboard.row1, keyboard.row2, keyboard.row3
      ensures Valid()
      ensures State() == Step(old(State()), word, lists, key)
    {
      if gameOver {
        exit := true;
      }

      message := "";

      match key {
      case Char(ch) =>
        if |currentGuess| < 5 && IsAsciiAlphabetic(ch) {
          currentGuess := currentGuess + [ToAsciiUppercase(ch)];
        }
      case Enter =>
        SubmitGuess();
      case Backspace =>
        if currentGuess != [] {
          currentGuess := currentGuess[..|currentGuess| - 1];
        }
      case Esc =>
        exit := true;
      case Other =>
      }
    }
  }
}
