/** Normalising a typed answer: lower-casing followed by trimming leading and
    trailing whitespace and newlines. Characters are Unicode scalar values. */
module Text {

  /** The whitespace-and-newline character set, as Apple documents
      `whitespacesAndNewlines`: horizontal tab through carriage return
      (U+0009..U+000D), NEXT LINE (U+0085), and the Unicode space, line and
      paragraph separators (general category Z). */
  predicate IsSpace(c: char) {
    var n := c as int;
    n == 0x20 || 0x09 <= n <= 0x0D || n == 0x85 || n == 0xA0 || n == 0x1680
    || 0x2000 <= n <= 0x200A || n == 0x2028 || n == 0x2029 || n == 0x202F
    || n == 0x205F || n == 0x3000
  }

  predicate IsUpper(c: char) {
    'A' <= c <= 'Z'
  }

  /** Lower-case mapping of a single character (ASCII letters only). */
  function LowerChar(c: char): char {
    if IsUpper(c) then (c as int + 32) as char else c
  }

  /** Every character of `s` at an index in [lo, hi) is whitespace. */
  predicate SpaceBetween(s: string, lo: nat, hi: nat)
    requires lo <= hi <= |s|
  {
    forall k :: lo <= k < hi ==> IsSpace(s[k])
  }

  predicate AllSpace(s: string) {
    SpaceBetween(s, 0, |s|)
  }

  predicate NoUpper(s: string) {
    forall k :: 0 <= k < |s| ==> !IsUpper(s[k])
  }

  /** Neither the first nor the last character is whitespace. */
  predicate NoEdgeSpace(s: string) {
    s == [] || (!IsSpace(s[0]) && !IsSpace(s[|s| - 1]))
  }

  /** What a normalised answer looks like. */
  predicate IsNormalized(s: string) {
    NoUpper(s) && NoEdgeSpace(s)
  }

  /** `lowercased()`: every upper-case letter becomes its lower-case letter,
      every other character, whitespace included, is kept in place. */
  function ToLower(s: string): (r: string)
    ensures |r| == |s|
    ensures NoUpper(r)
    ensures forall k :: 0 <= k < |s| && !IsUpper(s[k]) ==> r[k] == s[k]
    ensures forall k :: 0 <= k < |s| && IsUpper(s[k]) ==> r[k] as int == s[k] as int + 32
    ensures forall k :: 0 <= k < |s| ==> (IsSpace(r[k]) <==> IsSpace(s[k]))
  {
    if s == [] then [] else [LowerChar(s[0])] + ToLower(s[1..])
  }

  /** `s[i..j]` is what is left of `s` once the whitespace on either side is
      cut off: only whitespace lies outside it and, unless it is empty, it
      neither begins nor ends with whitespace. */
  predicate TrimmedSlice(s: string, i: nat, j: nat) {
    i <= j <= |s| && SpaceBetween(s, 0, i) && SpaceBetween(s, j, |s|)
    && (i < j ==> !IsSpace(s[i]) && !IsSpace(s[j - 1]))
  }

  /** The first index at or after `i` that does not hold whitespace (or the
      end of `s`). */
  function SkipForward(s: string, i: nat): (j: nat)
    requires i <= |s|
    ensures i <= j <= |s| && SpaceBetween(s, i, j)
    ensures j < |s| ==> !IsSpace(s[j])
    decreases |s| - i
  {
    if i < |s| && IsSpace(s[i]) then SkipForward(s, i + 1) else i
  }

  /** The index just after the last character before `j`, and not before
      `lo`, that does not hold whitespace (or `lo`). */
  function SkipBackward(s: string, lo: nat, j: nat): (i: nat)
    requires lo <= j <= |s|
    ensures lo <= i <= j && SpaceBetween(s, i, j)
    ensures lo < i ==> !IsSpace(s[i - 1])
    decreases j
  {
    if lo < j && IsSpace(s[j - 1]) then SkipBackward(s, lo, j - 1) else j
  }

  /** Where the trim cuts: leading whitespace is skipped from the front, then
      trailing whitespace from the back of what is left. */
  function TrimBounds(s: string): (b: (nat, nat))
    ensures TrimmedSlice(s, b.0, b.1)
  {
    var i := SkipForward(s, 0);
    var j := SkipBackward(s, i, |s|);
    assert i < j ==> !IsSpace(s[i]);
    (i, j)
  }

  /** `trimmingCharacters(in: .whitespacesAndNewlines)`: no whitespace at
      either end, and empty exactly when `s` is all whitespace. */
  function Trim(s: string): (r: string)
    ensures NoEdgeSpace(r)
    ensures r == [] <==> AllSpace(s)
  {
    var (i, j) := TrimBounds(s);
    assert i == j ==> AllSpace(s) by {
      if i == j {
        forall k | 0 <= k < |s| ensures IsSpace(s[k]) {
          assert k < i || j <= k;
        }
      }
    }
    assert i < j ==> !AllSpace(s);
    s[i..j]
  }

  /** Trim gives the only slice of `s` that is bordered by whitespace alone and
      does not itself begin or end with whitespace. */
  lemma TrimUnique(s: string, i: nat, j: nat)
    requires TrimmedSlice(s, i, j)
    ensures Trim(s) == s[i..j]
  {
    var (i', j') := TrimBounds(s);
    assert Trim(s) == s[i'..j'];
    if i == j {
      assert AllSpace(s) by {
        forall k | 0 <= k < |s| ensures IsSpace(s[k]) {
          assert k < i || j <= k;
        }
      }
    } else {
      // An edge character of either slice is not whitespace, so it cannot lie
      // in the other slice's whitespace border.
      assert !AllSpace(s);
      assert i' <= i && i <= i';
      assert j' <= j && j <= j';
    }
  }

  /** Trimming keeps only characters of `s`, so it adds no upper-case letter. */
  lemma TrimKeepsNoUpper(s: string)
    requires NoUpper(s)
    ensures NoUpper(Trim(s))
  {
    var (i, j) := TrimBounds(s);
    assert forall k :: 0 <= k < j - i ==> s[i..j][k] == s[i + k];
  }

  /** The answer normalisation `lowercased().trimmingCharacters(in:
      .whitespacesAndNewlines)`: no upper-case letters, no whitespace at
      either end, and empty exactly when the input held only whitespace. */
  function Normalize(s: string): (r: string)
    ensures IsNormalized(r)
    ensures r == [] <==> AllSpace(s)
  {
    var t := ToLower(s);
    assert AllSpace(t) <==> AllSpace(s);
    TrimKeepsNoUpper(t);
    Trim(t)
  }

  lemma {:induction false} ToLowerOfNoUpper(s: string)
    requires NoUpper(s)
    ensures ToLower(s) == s
  {
    var r := ToLower(s);
    assert forall k :: 0 <= k < |s| ==> r[k] == s[k];
  }

  /** The strings Normalize leaves alone are exactly the normalised ones. */
  lemma NormalizeFixedPoints(s: string)
    ensures Normalize(s) == s <==> IsNormalized(s)
  {
    if IsNormalized(s) {
      ToLowerOfNoUpper(s);
      assert TrimmedSlice(s, 0, |s|);
      TrimUnique(s, 0, |s|);
    }
  }

  /** Normalising twice is the same as normalising once. */
  lemma NormalizeIdempotent(s: string)
    ensures Normalize(Normalize(s)) == Normalize(s)
  {
    NormalizeFixedPoints(Normalize(s));
  }

  /** Normalisation ignores letter case: it sees only the lower-cased input. */
  lemma NormalizeIgnoresCase(s: string)
    ensures Normalize(ToLower(s)) == Normalize(s)
  {
    ToLowerOfNoUpper(ToLower(s));
  }
}
