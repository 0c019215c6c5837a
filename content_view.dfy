/** The round state of the word-scramble screen: the answers accepted so far,
    the root word and the text being typed, with the two operations that
    change them. */
module WordScramble {
  import opened Text
  import opened StartWords

  /** What may appear in the list of used words: a non-empty normalised answer. */
  predicate IsAnswer(w: string) {
    w != [] && IsNormalized(w)
  }

  /** Putting an answer in front of a list of answers gives a list of answers. */
  lemma PrependAnswer(answer: string, words: seq<string>)
    requires IsAnswer(answer)
    requires forall k :: 0 <= k < |words| ==> IsAnswer(words[k])
    ensures forall k :: 0 <= k < |[answer] + words| ==> IsAnswer(([answer] + words)[k])
  {
  }

  class ContentView {
    /** Accepted answers, most recent first. */
    var usedWords: seq<string>
    /** The word whose letters the answers are built from. */
    var rootWord: string
    /** The text field's contents. */
    var newWord: string

    /** Every used word went through the normalisation and was not empty. */
    ghost predicate Valid()
      reads this
    {
      forall k :: 0 <= k < |usedWords| ==> IsAnswer(usedWords[k])
    }

    constructor ()
      ensures Valid()
      ensures usedWords == [] && rootWord == "" && newWord == ""
    {
      usedWords, rootWord, newWord := [], "", "";
    }

    /** Submits the typed text. An answer that is empty once lower-cased and
        trimmed changes nothing; any other answer goes in front of the used
        words, whether or not it is already there or equals the root word,
        and the text field is cleared. */
    method AddNewWord()
      requires Valid()
      modifies this`usedWords, this`newWord
      ensures Valid()
      ensures if AllSpace(old(newWord)) then
          usedWords == old(usedWords) && newWord == old(newWord)
        else
          usedWords == [Normalize(old(newWord))] + old(usedWords) && newWord == ""
      ensures unchanged(this`rootWord)
    {
      var answer := Normalize(newWord);
      if |answer| == 0 {
        return;
      }
      PrependAnswer(answer, usedWords);
      usedWords := [answer] + usedWords;
      newWord := "";
    }

    /** Picks the root word from the text of the start-word file; `choice`
        stands for the random number behind the pick. The used words and the
        text field are left as they were. */
    method StartGame(startWords: string, choice: nat)
      modifies this`rootWord
      ensures rootWord == PickRoot(SplitLines(startWords), choice)
      ensures rootWord in SplitLines(startWords)
      ensures unchanged(this`usedWords, this`newWord)
    {
      var allWords := SplitLines(startWords);
      rootWord := PickRoot(allWords, choice);
    }
  }

  /** Two submissions in a row on a fresh screen: each non-empty answer is
      kept, the later one first, and a repeated answer is kept twice. */
  method SubmitTwice(first: string, second: string) returns (used: seq<string>)
    ensures used == (if AllSpace(second) then [] else [Normalize(second)])
                  + (if AllSpace(first) then [] else [Normalize(first)])
    ensures first == second && !AllSpace(first) ==> |used| == 2 && used[0] == used[1]
  {
    var view := new ContentView();
    view.newWord := first;
    view.AddNewWord();
    ghost var kept := view.usedWords;
    view.newWord := second;
    view.AddNewWord();
    used := view.usedWords;
    if AllSpace(second) {
      assert used == [] + kept;
    }
  }
}
