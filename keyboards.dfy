/** The on-screen keyboard: three fixed rows of keys, each showing what the
    player has learned about its letter. */
module Keyboards {

  const ROW_1_KEYS: seq<char> := ['Q', 'W', 'E', 'R', 'T', 'Y', 'U', 'I', 'O', 'P']
  const ROW_2_KEYS: seq<char> := ['A', 'S', 'D', 'F', 'G', 'H', 'J', 'K', 'L']
  const ROW_3_KEYS: seq<char> := ['Z', 'X', 'C', 'V', 'B', 'N', 'M']

  /** What a key displays; Unused until a guess has used its letter. */
  datatype KeyState = Unused | NotInWord | InWord | CorrectIndex

  datatype Key = Key(character: char, state: KeyState)

  /** A fresh key shows its character and is Unused. */
  function NewKey(character: char): (k: Key)
    ensures k.character == character && k.state == KeyState.Unused
  {
    Key(character, KeyState.Unused)
  }

  /** The characters of the three rows, in row order. */
  function AllKeys(): seq<char> {
    ROW_1_KEYS + ROW_2_KEYS + ROW_3_KEYS
  }

  /** `c` labels some key of the keyboard. */
  predicate IsKey(c: char) {
    c in ROW_1_KEYS || c in ROW_2_KEYS || c in ROW_3_KEYS
  }

  /** The rows hold 26 keys with pairwise distinct characters, and a
      character is a key exactly when it is an upper-case letter A-Z. */
  lemma RowsAreAlphabet()
    ensures |AllKeys()| == |ROW_1_KEYS| + |ROW_2_KEYS| + |ROW_3_KEYS| == 26
    ensures forall i, j :: 0 <= i < j < |AllKeys()| ==> AllKeys()[i] != AllKeys()[j]
    ensures forall c :: IsKey(c) <==> c in AllKeys()
    ensures forall c :: c in AllKeys() <==> 'A' <= c <= 'Z'
  {
  }

  /** A character lies in at most one row. */
  lemma RowsDisjoint(c: char)
    ensures c in ROW_1_KEYS ==> c !in ROW_2_KEYS && c !in ROW_3_KEYS
    ensures c in ROW_2_KEYS ==> c !in ROW_3_KEYS
  {
  }

  /** No character occurs twice in `keys`. */
  predicate Distinct(keys: seq<char>) {
    forall i, j :: 0 <= i < j < |keys| ==> keys[i] != keys[j]
  }

  /** Each row, taken alone, has distinct characters. */
  lemma RowsDistinct()
    ensures Distinct(ROW_1_KEYS) && Distinct(ROW_2_KEYS) && Distinct(ROW_3_KEYS)
  {
  }

  /** Overwriting the key at the position of `c` in a row of distinct
      characters changes exactly the key showing `c`. */
  lemma {:induction false} RowUpdate(row: seq<Key>, keys: seq<char>, c: char, s: KeyState)
    requires Characters(row) == keys && Distinct(keys) && c in keys
    ensures Characters(row[Position(keys, c) := row[Position(keys, c)].(state := s)]) == keys
    ensures forall i :: 0 <= i < |row| ==>
      row[Position(keys, c) := row[Position(keys, c)].(state := s)][i] ==
        if row[i].character == c then Key(c, s) else row[i]
  {
    var p := Position(keys, c);
    var r := row[p := row[p].(state := s)];
    forall i | 0 <= i < |row|
      ensures r[i] == if row[i].character == c then Key(c, s) else row[i]
    {
      if i != p {
        assert row[i].character == keys[i] != keys[p];
      }
    }
    assert Characters(r) == keys;
  }

  /** Index of the first occurrence of `c` in `keys`. */
  function Position(keys: seq<char>, c: char): (i: nat)
    requires c in keys
    ensures i < |keys| && keys[i] == c
    ensures forall j :: 0 <= j < i ==> keys[j] != c
  {
    if keys[0] == c then 0 else 1 + Position(keys[1..], c)
  }

  /** The contents of the three rows of a keyboard. */
  datatype Layout = Layout(row1: seq<Key>, row2: seq<Key>, row3: seq<Key>)

  /** The characters shown along one row. */
  function Characters(row: seq<Key>): (cs: seq<char>)
    ensures |cs| == |row|
    ensures forall i :: 0 <= i < |row| ==> cs[i] == row[i].character
  {
    seq(|row|, i requires 0 <= i < |row| => row[i].character)
  }

  /** Each row shows its fixed characters, in order. */
  predicate WellFormed(l: Layout) {
    Characters(l.row1) == ROW_1_KEYS &&
    Characters(l.row2) == ROW_2_KEYS &&
    Characters(l.row3) == ROW_3_KEYS
  }

  /** A row of fresh keys for the given characters. */
  function DefaultRow(keys: seq<char>): (row: seq<Key>)
    ensures Characters(row) == keys
    ensures forall i :: 0 <= i < |row| ==> row[i].state == KeyState.Unused
  {
    seq(|keys|, i requires 0 <= i < |keys| => NewKey(keys[i]))
  }

  /** The keyboard at the start of a game. */
  function DefaultLayout(): (l: Layout)
    ensures WellFormed(l)
  {
    Layout(DefaultRow(ROW_1_KEYS), DefaultRow(ROW_2_KEYS), DefaultRow(ROW_3_KEYS))
  }

  /** The state shown on the key labelled `c`. */
  function StateOf(l: Layout, c: char): KeyState
    requires WellFormed(l) && IsKey(c)
  {
    if c in ROW_1_KEYS then l.row1[Position(ROW_1_KEYS, c)].state
    else if c in ROW_2_KEYS then l.row2[Position(ROW_2_KEYS, c)].state
    else l.row3[Position(ROW_3_KEYS, c)].state
  }

  /** Replaces the state of the key for `c` by `s`: the row holding `c` is
      searched, and the key at the position of `c` in that row is overwritten
      (not combined with its previous state). */
  function WithKeyState(l: Layout, c: char, s: KeyState): (r: Layout)
    requires WellFormed(l) && IsKey(c)
    ensures WellFormed(r)
    ensures forall i :: 0 <= i < |r.row1| ==>
      r.row1[i] == if l.row1[i].character == c then Key(c, s) else l.row1[i]
    ensures forall i :: 0 <= i < |r.row2| ==>
      r.row2[i] == if l.row2[i].character == c then Key(c, s) else l.row2[i]
    ensures forall i :: 0 <= i < |r.row3| ==>
      r.row3[i] == if l.row3[i].character == c then Key(c, s) else l.row3[i]
  {
    RowsDistinct();
    RowsDisjoint(c);
    if c in ROW_1_KEYS then
      RowUpdate(l.row1, ROW_1_KEYS, c, s);
      var index := Position(ROW_1_KEYS, c);
      l.(row1 := l.row1[index := l.row1[index].(state := s)])
    else if c in ROW_2_KEYS then
      RowUpdate(l.row2, ROW_2_KEYS, c, s);
      var index := Position(ROW_2_KEYS, c);
      l.(row2 := l.row2[index := l.row2[index].(state := s)])
    else
      RowUpdate(l.row3, ROW_3_KEYS, c, s);
      var index := Position(ROW_3_KEYS, c);
      l.(row3 := l.row3[index := l.row3[index].(state := s)])
  }

  /** Every key of a fresh keyboard is Unused. */
  lemma DefaultAllUnused(c: char)
    requires IsKey(c)
    ensures StateOf(DefaultLayout(), c) == KeyState.Unused
  {
  }

  /** After setting the key for `c`, that key shows the new state. */
  lemma {:induction false} SetThenRead(l: Layout, c: char, s: KeyState)
    requires WellFormed(l) && IsKey(c)
    ensures StateOf(WithKeyState(l, c, s), c) == s
  {
  }

  /** Setting the key for `c` leaves every other key as it was. */
  lemma {:induction false} SetLeavesOthers(l: Layout, c: char, d: char, s: KeyState)
    requires WellFormed(l) && IsKey(c) && IsKey(d) && c != d
    ensures StateOf(WithKeyState(l, c, s), d) == StateOf(l, d)
  {
  }

  /** Setting the same state twice is the same as setting it once. */
  lemma {:induction false} SetIdempotent(l: Layout, c: char, s: KeyState)
    requires WellFormed(l) && IsKey(c)
    ensures WithKeyState(WithKeyState(l, c, s), c, s) == WithKeyState(l, c, s)
  {
  }

  /** The last write wins: setting `s2` after `s1` equals setting `s2`
      alone, whatever the two states are, so a key may go from CorrectIndex
      back to InWord. */
  lemma {:induction false} SetLastWriteWins(l: Layout, c: char, s1: KeyState, s2: KeyState)
    requires WellFormed(l) && IsKey(c)
    ensures WithKeyState(WithKeyState(l, c, s1), c, s2) == WithKeyState(l, c, s2)
  {
  }

  /** The keyboard: three arrays of keys that are updated in place. */
  class Keyboard {
    const row1: array<Key>
    const row2: array<Key>
    const row3: array<Key>

    /** The keys currently shown, row by row. */
    ghost function Value(): Layout
      reads row1, row2, row3
    {
      Layout(row1[..], row2[..], row3[..])
    }

    ghost predicate Valid()
      reads row1, row2, row3
    {
      WellFormed(Value())
    }

    /** The default keyboard: one Unused key per row character. */
    constructor ()
      ensures Valid() && Value() == DefaultLayout()
      ensures fresh(row1) && fresh(row2) && fresh(row3)
    {
      row1 := new Key[|ROW_1_KEYS|](i requires 0 <= i < |ROW_1_KEYS| => NewKey(ROW_1_KEYS[i]));
      row2 := new Key[|ROW_2_KEYS|](i requires 0 <= i < |ROW_2_KEYS| => NewKey(ROW_2_KEYS[i]));
      row3 := new Key[|ROW_3_KEYS|](i requires 0 <= i < |ROW_3_KEYS| => NewKey(ROW_3_KEYS[i]));
    }

    /** Overwrites the state of the key for `c`; `c` must label a key. */
    method SetKeyState(c: char, s: KeyState)
      requires Valid() && IsKey(c)
      modifies row1, row2, row3
      ensures Valid()
      ensures Value() == WithKeyState(old(Value()), c, s)
    {
      if c in ROW_1_KEYS {
        var index := Position(ROW_1_KEYS, c);
        row1[index] := row1[index].(state := s);
      } else if c in ROW_2_KEYS {
        var index := Position(ROW_2_KEYS, c);
        row2[index] := row2[index].(state := s);
      } else {
        var index := Position(ROW_3_KEYS, c);
        row3[index] := row3[index].(state := s);
      }
    }
  }
}
