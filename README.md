# wordle_tui gameplay model

A Dafny model of the gameplay core of `wordle_tui`, a Wordle clone that runs in a
terminal. The player types a five-letter guess. The game checks that the guess is
long enough and is in one of its two word lists. It then scores the guess letter by
letter against a secret target word, colours an on-screen keyboard, and ends the
game on a win or after six guesses.

The model has five modules, one per source component:

- `Words` (`words.dfy`): the constants `WORD_LENGTH` (5) and `GUESS_COUNT` (6), and
  the two word lists `WORDS` and `VALID_WORDS`. The lists are given as values of type
  `WordLists`.
- `Letters` (`letters.dfy`): `LetterState` and `Letter` from `src/app/letter.rs`.
- `Guesses` (`guesses.dfy`): `Guess`, the conversion from a letter vector, and
  `Guess::new` from `src/app/guess.rs`. This is validation followed by per-index
  scoring, modelled as pure functions with an error result.
- `Keyboards` (`keyboards.dfy`): the three fixed key rows, `KeyState`, `Key`, and the
  `Keyboard` class from `src/app/keyboard.rs`. The class holds three arrays that
  `SetKeyState` updates in place. It is proved against the pure function
  `WithKeyState` over a `Layout` value.
- `Wordle` (`wordle.dfy`): the `App` class from `src/app/mod.rs`. `App.HandleEvents`
  takes the key code as a parameter. It is proved to produce exactly the state given
  by the pure function `Step`. The invariants and turn rules are proved about `Step`.

Scoring follows the code. It uses the simple per-index rule with no duplicate-letter
budgeting: every occurrence of a letter that the target contains somewhere scores at
least `InWord`. The keyboard also follows the code: `set_key_state` overwrites the
key's state, so the last letter written wins. It does not keep the best state seen,
so one guess can move a key from `CorrectIndex` back to `InWord`
(`KeyDowngradeWithinGuess`). Two other points where the code differs from a loose
reading of the game's rules:

- Once the game is over, the next key press is still handled in full before `exit`
  takes effect.
- Against CRATE, the guess TRACE scores its `A` as `CorrectIndex`, because both words
  have `A` at index 2.

## Model

| member | source | states |
|---|---|---|
| `Letters.NewLetter` | src/app/letter.rs:43-47 | the letter stores exactly the given character and the given state |
| `Letters.LetterStateExhaustive` | src/app/letter.rs:10-14 | a scored letter is NotInWord, InWord or CorrectIndex; there is no unused state |
| `Guesses.FromLetters` | src/app/guess.rs:29-35 | needs at least five letters; the guess holds exactly five, the first five of the input, in order |
| `Guesses.Score` | src/app/guess.rs:47-59 | one letter per character of the guess, in order; letter i keeps character i, is CorrectIndex iff guess[i] == word[i] and NotInWord iff the target does not contain guess[i] |
| `Guesses.Classify` | src/app/guess.rs:50-57 | letter i keeps character i; it is CorrectIndex iff guess[i] == word[i], InWord iff they differ and the target contains guess[i], NotInWord iff the target does not contain guess[i] |
| `Guesses.ErrorMessage` | src/app/guess.rs:39-45 | the text is "Not enough letters" exactly for the length error and "Not in word list" exactly for the list error |
| `Guesses.NewGuess` | src/app/guess.rs:38-61 | fewer than 5 characters gives "Not enough letters" whatever the lists hold; otherwise a word in neither list gives "Not in word list"; otherwise the result has exactly 5 letters spelling the guess, each classified as in `ScoredAgainst` |
| `Guesses.TargetScoresAllCorrect` | src/app/guess.rs:51-52 | a listed target guessed verbatim is accepted and every letter is CorrectIndex |
| `Guesses.AllCorrectIffTarget` | src/app/guess.rs:47-60 | an accepted guess is all CorrectIndex exactly when it equals the target |
| `Guesses.DisjointScoresNotInWord` | src/app/guess.rs:53-56 | a guess sharing no character with the target scores NotInWord at every position |
| `Guesses.TraceAgainstCrate` | src/app/guess.rs:47-60 | TRACE against CRATE scores InWord, CorrectIndex, CorrectIndex, InWord, CorrectIndex |
| `Guesses.AllowAgainstApple` | src/app/guess.rs:53-54 | ALLOW against APPLE marks both Ls InWord (no duplicate budgeting) |
| `Guesses.AllCorrectEveryLetter` | src/app/mod.rs:125-128 | the win test `AllCorrect` holds iff every letter of the guess is CorrectIndex, so no letter is then InWord or NotInWord |
| `Keyboards.NewKey` | src/app/keyboard.rs:53-60 | a new key shows its character and is Unused |
| `Keyboards.RowsAreAlphabet` | src/app/keyboard.rs:1-3 | the rows hold 10 + 9 + 7 = 26 pairwise distinct characters; a character is a key iff it is one of A-Z |
| `Keyboards.RowsDistinct` | src/app/keyboard.rs:1-3 | no row repeats a character |
| `Keyboards.RowsDisjoint` | src/app/keyboard.rs:1-3 | no character lies in two rows, so the row tests in set_key_state select one row |
| `Keyboards.Position` | src/app/keyboard.rs:128-136 | for a character in the row, the index of its first occurrence |
| `Keyboards.DefaultRow` | src/app/keyboard.rs:101-124 | a default row shows the row's characters in order, every key Unused |
| `Keyboards.DefaultLayout` | src/app/keyboard.rs:101-124 | the default keyboard has each row's characters in row order |
| `Keyboards.DefaultAllUnused` | src/app/keyboard.rs:101-124 | every key of a default keyboard is Unused |
| `Keyboards.WithKeyState` | src/app/keyboard.rs:127-138 | only the key showing `c` becomes `Key(c, s)`; every other key and every character is unchanged |
| `Keyboards.SetThenRead` | src/app/keyboard.rs:127-138 | after setting `c` to `s`, the key for `c` shows `s` |
| `Keyboards.SetLeavesOthers` | src/app/keyboard.rs:127-138 | setting `c` leaves the state of every other key unchanged |
| `Keyboards.SetIdempotent` | src/app/keyboard.rs:127-138 | setting the same state twice equals setting it once |
| `Keyboards.SetLastWriteWins` | src/app/keyboard.rs:128-137 | setting `s2` after `s1` equals setting `s2` alone; the write overwrites and does not take a maximum |
| `Keyboards.Keyboard.constructor` | src/app/keyboard.rs:101-124 | the new keyboard's three arrays hold the default layout |
| `Keyboards.Keyboard.SetKeyState` | src/app/keyboard.rs:127-138 | needs `c` to be one of the 26 keys; the arrays afterwards hold `WithKeyState` of their old contents |
| `Wordle.ToAsciiUppercase` | src/app/mod.rs:99-100 | ASCII letters map to A-Z, lower case shifted by 32; other characters are unchanged |
| `Wordle.IsAsciiAlphabetic` | src/app/mod.rs:99 | a character is an ASCII letter iff its ASCII upper-case form is one of A-Z |
| `Wordle.ToKeyState` | src/app/mod.rs:106-119 | each letter state maps to the same-named key state, never Unused |
| `Wordle.ApplyLetters` | src/app/mod.rs:105-120 | writing the letters to the keyboard in order keeps every row's characters; what each key then shows is stated by `ApplyLettersLastWrite` and `ApplyLettersUntouched` |
| `Wordle.ApplyLettersUntouched` | src/app/mod.rs:105-120 | recording a guess leaves unchanged every key whose character the guess does not contain |
| `Wordle.ApplyLettersLastWrite` | src/app/mod.rs:105-120 | after recording a guess, each key shows the state of the last letter carrying its character |
| `Wordle.KeyDowngradeWithinGuess` | src/app/mod.rs:105-120 | recording P as InWord, CorrectIndex, InWord leaves the P key at InWord |
| `Wordle.InitialGame` | src/app/mod.rs:73-79 | the starting session has no message, history or input, every key Unused, and neither game-over nor exit set |
| `Wordle.InitialGameInvariant` | src/app/mod.rs:73-79 | the initial session (empty history, input and message; default keyboard) meets the invariant |
| `Wordle.Conclude` | src/app/mod.rs:125-137 | game over iff it already was, the newest guess is all CorrectIndex, or the history holds 6 guesses; the message is the target on the 6th guess, otherwise "You win!" on a win, otherwise unchanged |
| `Wordle.Submit` | src/app/mod.rs:103-142 | keeps the invariant; a refused guess leaves the history alone; an accepted one is appended; game over as in `Conclude`; a finished game's history and keyboard are not touched |
| `Wordle.Step` | src/app/mod.rs:89-153 | keeps the invariant (input at most 5 letters A-Z, history at most 6 accepted words, 6 guesses means game over); exit iff the game was over or the key is Esc; keys other than Enter leave the message empty and the history, keyboard and game-over flag unchanged; Esc and other keys leave the input unchanged; after Enter the message is empty, an error text, "You win!" or the target; the history grows by at most one guess |
| `Wordle.StepChar` | src/app/mod.rs:98-102 | a character key appends its upper-case form only when the input has fewer than 5 letters and the character is an ASCII letter |
| `Wordle.StepBackspace` | src/app/mod.rs:143-145 | Backspace removes the last input character and does nothing to an empty input |
| `Wordle.StepEnterRejected` | src/app/mod.rs:139-141 | a refused submission shows the error text and leaves the history, input, keyboard and game-over flag unchanged |
| `Wordle.StepEnterTooShort` | src/app/guess.rs:39-41 | Enter with fewer than 5 letters shows "Not enough letters" and records nothing |
| `Wordle.StepEnterAccepted` | src/app/mod.rs:104-123 | an accepted submission is scored against the target, appended to the history and written to the keyboard in letter order, and the input is emptied |
| `Wordle.StepSubmitTarget` | src/app/mod.rs:125-137 | submitting the target ends the game with "You win!", or with the target itself on the 6th guess |
| `Wordle.StepSubmitOtherWord` | src/app/mod.rs:125-137 | any other accepted word ends the game and reveals the target on the 6th guess, and otherwise leaves the game running with an empty message |
| `Wordle.App.constructor` | src/app/mod.rs:73-79 | a new session for a target from the target list: empty message, history and input, default keyboard, not over, no exit |
| `Wordle.App.RecordLetters` | src/app/mod.rs:105-120 | the keyboard afterwards is its old contents with each letter written in order (`ApplyLetters`) |
| `Wordle.App.CheckGameOver` | src/app/mod.rs:125-137 | the session afterwards is `Conclude` of the session before |
| `Wordle.App.SubmitGuess` | src/app/mod.rs:103-142 | keeps the invariant; the session afterwards is `Submit` of the session before |
| `Wordle.App.HandleEvents` | src/app/mod.rs:89-153 | keeps the invariant; the session afterwards is `Step` of the session before for the given key |

## Left out

- Rendering (every `Widget::render`, `render_frame`) and the terminal setup and
  teardown in `src/tui.rs` and `src/main.rs`: presentation through a foreign UI
  library.
- `App::run` and `event::read`: the blocking input loop. The key code is a parameter
  of `HandleEvents`, and non-key events are not modelled. The loop calls
  `handle_events` only while `exit` is false, so `HandleEvents` requires `!exit`.
  Without that, a key handled after exit could add a seventh guess.
- Random target selection: the target is a constructor parameter and must be in the
  target list.
- The `words` module is not part of this model. The word lists are abstract sets,
  and every listed word is assumed to have five characters (`WordLists.WellFormed`).
  `Guesses.NewGuess` requires this because `Guess::new` panics on a listed word
  longer than the target.
- `anyhow` error values: the two errors are a datatype, and `ErrorMessage` gives
  their texts.
- String length in bytes versus characters: the input holds only ASCII letters, so
  the two agree. Strings are sequences of characters.
- The panic of the letter-vector conversion on fewer than five letters is not
  modelled as a failure. It is the precondition of `Guesses.FromLetters`.
