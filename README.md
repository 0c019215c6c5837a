# WordScramble round state, in Dafny

This project models the game logic in an early version of the WordScramble
anagram game (`WordScramble/ContentView.swift`). The screen keeps three pieces
of state: `usedWords` holds the accepted answers, most recent first;
`rootWord` is the word the answers are built from; and `newWord` is the text
the player is typing. Two operations change that state:

- `addNewWord` takes the typed text, lower-cases it and trims whitespace and
  newlines from both ends. If nothing is left, it does nothing. Otherwise it
  puts the answer in front of `usedWords` and clears the text field. This
  version makes no other check: a repeated answer, or the root word itself,
  is accepted.
- `startGame` splits the text of the start-word file on `"\n"` and picks one
  piece at random as the root word. If there were no piece to pick, it would
  use `"silkworm"`.

The model has three modules:

- `Text` (`text.dfy`) has the normalisation as pure functions. `ToLower`
  lower-cases, `Trim` trims with `TrimBounds` giving where it cuts, and
  `Normalize` does both. Lemmas prove that `Trim` returns the only
  whitespace-bordered slice without whitespace at its ends, that the fixed
  points of `Normalize` are exactly the normalised strings, that normalising
  twice is the same as normalising once, and that letter case does not matter.
- `StartWords` (`words.dfy`) has the split and the pick as pure functions.
  Lemmas prove that the split and the newline-join are inverse to each other
  (in both directions), that every word in the list can be picked, and that
  the fallback word is never used once the file text has been split.
- `WordScramble` (`content_view.dfy`) has the screen state as a class,
  `ContentView`, with the three fields. `AddNewWord` and `StartGame` are
  methods that update those fields in place. The class invariant `Valid`
  says that every used word is non-empty and normalised.

This version of the code has no validation and no score: line 42 is only a
placeholder comment. `startGame` does not clear `usedWords`. The root word can
be empty: the split gives an empty last piece when the file text ends in a
newline (`TrailingNewlineGivesEmptyPiece`), and that piece can be picked.

Characters are Unicode scalar values. `IsSpace` follows Apple's documented
definition of `whitespacesAndNewlines`:

- U+0009 to U+000D;
- U+0085;
- the Unicode space separators (category Zs);
- U+2028 and U+2029.

## Model

| member | source | states |
|---|---|---|
| Text.ToLower | WordScramble/ContentView.swift:35 | lower-casing keeps the length, leaves no upper-case letter, changes only upper-case letters (each to the letter 32 code points above it), and keeps every whitespace character as whitespace |
| Text.TrimBounds | WordScramble/ContentView.swift:35 | the trim cuts at indices i <= j where everything before i and from j on is whitespace, and s[i] and s[j-1] are not whitespace when i < j |
| Text.Trim | WordScramble/ContentView.swift:35 | the trimmed text has no whitespace at either end, and it is empty exactly when the input is all whitespace |
| Text.TrimUnique | WordScramble/ContentView.swift:35 | any slice bordered only by whitespace, and with no whitespace at its own ends, is the trimmed text; this is the independent definition of what the trim returns |
| Text.Normalize | WordScramble/ContentView.swift:35 | the normalised answer has no upper-case letter and no whitespace at either end, and it is empty exactly when the typed text held only whitespace and newlines |
| Text.NormalizeFixedPoints | WordScramble/ContentView.swift:35 | the normaliser leaves a string unchanged if and only if the string has no upper-case letter and no edge whitespace |
| Text.NormalizeIdempotent | WordScramble/ContentView.swift:35 | normalising an already normalised answer changes nothing |
| Text.NormalizeIgnoresCase | WordScramble/ContentView.swift:35 | lower-casing the input first gives the same answer, so answers differing only in letter case are the same |
| StartWords.SplitLines | WordScramble/ContentView.swift:51 | splitting on "\n" gives one more piece than the text has newlines (so always at least one), and no piece contains a newline |
| StartWords.SplitThenJoin | WordScramble/ContentView.swift:51 | joining the pieces with "\n" gives back the original text |
| StartWords.JoinThenSplit | WordScramble/ContentView.swift:51 | splitting the "\n"-join of newline-free pieces gives back exactly those pieces, so the split is the inverse of the join |
| StartWords.TrailingNewlineGivesEmptyPiece | WordScramble/ContentView.swift:51-52 | a file text ending in a newline splits into at least two pieces, the last of them empty, so the empty word can be picked as the root word |
| StartWords.PickRoot | WordScramble/ContentView.swift:52 | an empty list gives "silkworm"; otherwise the pick is an element of the list |
| StartWords.PickRootReachesEvery | WordScramble/ContentView.swift:52 | every element of a non-empty list is picked for some random number |
| StartWords.PickFromSplitIsPiece | WordScramble/ContentView.swift:51-52 | picking from the split file text always gives one of its pieces, so the "silkworm" fallback cannot happen |
| WordScramble.PrependAnswer | WordScramble/ContentView.swift:44 | putting a non-empty normalised answer in front of a list of them keeps every element a non-empty normalised answer |
| WordScramble.ContentView.constructor | WordScramble/ContentView.swift:11-13 | a new screen starts with no used words, an empty root word and an empty text field, and satisfies the invariant |
| WordScramble.ContentView.AddNewWord | WordScramble/ContentView.swift:33-46 | if the typed text is all whitespace, nothing changes; otherwise the normalised answer goes in at index 0, with the old used words after it in order, whether or not it is already used or equal to the root word; the text field becomes ""; the root word is unchanged; the invariant is kept |
| WordScramble.ContentView.StartGame | WordScramble/ContentView.swift:48-53 | the root word becomes the picked piece of the newline-split file text, which is always one of the pieces; the used words and the text field are unchanged |
| WordScramble.SubmitTwice | WordScramble/ContentView.swift:42-45 | two submissions on a new screen keep each non-empty answer, later first, and a repeated answer is kept twice |

## Left out

- The SwiftUI view tree (lines 15-31) and the preview provider (lines 62-66) are not modelled. They are presentation only.
- The lookup of `start.txt` in the bundle, the reading of its contents, and the `fatalError` when either fails (lines 49-50 and 57) are not modelled. They are I/O. `StartGame` takes the file text as a parameter.
- StartWords.PickRoot: the random number behind `randomElement()` is a parameter, `choice`. It is reduced modulo the list length to give an index. The model does not say that the pick is uniform.
- Text.ToLower: only the ASCII letters A-Z are lower-cased. Full Unicode case mapping is not modelled. Some of its mappings change the length of a string.
- Characters are Unicode scalar values, not Swift's grapheme clusters. `answer.count > 0` only tests for emptiness, so the two views agree there. Splitting on `"\n"` at the scalar level leaves a `"\r"` at the end of a piece from a CRLF file.
- The re-rendering triggered by changes to `@State` fields is not modelled. The fields are plain mutable fields of a class.
