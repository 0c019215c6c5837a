/** The start-word list: the text of the word file split on newlines, and the
    choice of one root word from it. */
module StartWords {

  const Separator: char := '\n'

  /** The root word used when the split list has no element to pick. */
  const Fallback: string := "silkworm"

  /** The pieces put back together with a newline between each two. */
  function JoinLines(pieces: seq<string>): string
    requires |pieces| >= 1
  {
    if |pieces| == 1 then pieces[0] else pieces[0] + [Separator] + JoinLines(pieces[1..])
  }

  /** `components(separatedBy: "\n")`: one piece more than there are
      newlines in the text, and no piece holds a newline. The empty text
      gives one empty piece. */
  function SplitLines(text: string): (pieces: seq<string>)
    ensures |pieces| == multiset(text)[Separator] + 1
    ensures forall k :: 0 <= k < |pieces| ==> Separator !in pieces[k]
  {
    if text == [] then [""]
    else
      var rest := SplitLines(text[1..]);
      assert text == [text[0]] + text[1..];
      if text[0] == Separator then [""] + rest
      else [[text[0]] + rest[0]] + rest[1..]
  }

  lemma ConcatAssoc<T>(a: seq<T>, b: seq<T>, c: seq<T>)
    ensures (a + b) + c == a + (b + c)
  {
  }

  /** Gluing `x` to the front of the first piece glues it to the front of
      the joined text. */
  lemma JoinGlue(x: string, pieces: seq<string>)
    requires |pieces| >= 1
    ensures JoinLines([x + pieces[0]] + pieces[1..]) == x + JoinLines(pieces)
  {
    var glued := [x + pieces[0]] + pieces[1..];
    if |pieces| > 1 {
      var p0, tail := pieces[0], JoinLines(pieces[1..]);
      assert glued[1..] == pieces[1..];
      ConcatAssoc(x, p0, [Separator] + tail);
      ConcatAssoc(p0, [Separator], tail);
      ConcatAssoc(x + p0, [Separator], tail);
    } else {
      assert |glued| == 1 && glued[0] == x + pieces[0];
    }
  }

  /** Joining the pieces with newlines gives back the text. */
  lemma {:induction false} SplitThenJoin(text: string)
    ensures JoinLines(SplitLines(text)) == text
  {
    if text != [] {
      var rest := SplitLines(text[1..]);
      SplitThenJoin(text[1..]);
      if text[0] == Separator {
        assert SplitLines(text) == [""] + rest;
        assert ([""] + rest)[1..] == rest;
      } else {
        assert SplitLines(text) == [[text[0]] + rest[0]] + rest[1..];
        JoinGlue([text[0]], rest);
      }
      assert [text[0]] + text[1..] == text;
    }
  }

  /** Splitting a text that begins with a newline-free piece `x`: `x` is
      glued to the front of the first piece of the rest. */
  lemma {:induction false} SplitPrefix(x: string, y: string)
    requires Separator !in x
    ensures SplitLines(x + y) == [x + SplitLines(y)[0]] + SplitLines(y)[1..]
  {
    if x != [] {
      assert (x + y)[1..] == x[1..] + y;
      assert (x + y)[0] == x[0];
      SplitPrefix(x[1..], y);
      assert [x[0]] + (x[1..] + SplitLines(y)[0]) == x + SplitLines(y)[0];
    } else {
      var r := SplitLines(y);
      assert x + y == y;
      assert x + r[0] == r[0];
      assert [r[0]] + r[1..] == r;
    }
  }

  /** Splitting the newline-join of newline-free pieces gives the pieces back. */
  lemma {:induction false} JoinThenSplit(pieces: seq<string>)
    requires |pieces| >= 1
    requires forall k :: 0 <= k < |pieces| ==> Separator !in pieces[k]
    ensures SplitLines(JoinLines(pieces)) == pieces
  {
    var x := pieces[0];
    if |pieces| == 1 {
      SplitPrefix(x, "");
      assert x + "" == x;
    } else {
      var z := JoinLines(pieces[1..]);
      JoinThenSplit(pieces[1..]);
      var y := [Separator] + z;
      assert y[1..] == z;
      var r := SplitLines(y);
      assert r == [""] + pieces[1..];
      assert r[0] == "" && r[1..] == pieces[1..];
      SplitPrefix(x, y);
      assert x + "" == x;
      ConcatAssoc(x, [Separator], z);
      assert [x] + pieces[1..] == pieces;
    }
  }

  /** A word list whose text ends in a newline has an empty last piece. */
  lemma {:induction false} TrailingNewlineGivesEmptyPiece(text: string)
    requires text != [] && text[|text| - 1] == Separator
    ensures |SplitLines(text)| >= 2 && SplitLines(text)[|SplitLines(text)| - 1] == ""
  {
    var rest := SplitLines(text[1..]);
    if |text| == 1 {
      assert text[1..] == [];
      assert SplitLines(text) == [""] + [""];
    } else {
      TrailingNewlineGivesEmptyPiece(text[1..]);
      if text[0] == Separator {
        assert SplitLines(text) == [""] + rest;
      } else {
        assert SplitLines(text) == [[text[0]] + rest[0]] + rest[1..];
      }
    }
  }

  /** `randomElement() ?? "silkworm"`: the caller supplies the random number
      `choice`, reduced to an index of the list. An empty list gives the
      fallback; otherwise the root word is an element of the list. */
  function PickRoot(words: seq<string>, choice: nat): (root: string)
    ensures words == [] ==> root == Fallback
    ensures words != [] ==> root in words
  {
    if words == [] then Fallback else words[choice % |words|]
  }

  /** Every word of a non-empty list can be picked. */
  lemma PickRootReachesEvery(words: seq<string>, k: nat)
    requires k < |words|
    ensures PickRoot(words, k) == words[k]
  {
    assert k % |words| == k;
  }

  /** Once the word file has been read, the fallback is never used: the root
      word is always one of the newline-split pieces of its text. */
  lemma PickFromSplitIsPiece(text: string, choice: nat)
    ensures PickRoot(SplitLines(text), choice) in SplitLines(text)
  {
  }
}
