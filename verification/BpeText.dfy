/**
 Splitting a text on whitespace. Which characters count as whitespace is a
 parameter: nothing proved here depends on the choice.
 */
module BpeText {
  import opened BpeGreedy

  type Space = char -> bool

  predicate NoSpace(s: string, isSpace: Space) {
    forall i :: 0 <= i < |s| ==> !isSpace(s[i])
  }

  /** Length of the leading run of characters that are not whitespace. */
  function WordEnd(s: string, isSpace: Space): (k: nat)
    ensures k <= |s|
    ensures forall i :: 0 <= i < k ==> !isSpace(s[i])
    ensures k < |s| ==> isSpace(s[k])
  {
    if s == "" || isSpace(s[0]) then 0 else 1 + WordEnd(s[1..], isSpace)
  }

  /** The words of a text, in order; none is empty. */
  function Words(s: string, isSpace: Space): seq<string>
    decreases |s|
  {
    if s == "" then []
    else if isSpace(s[0]) then Words(s[1..], isSpace)
    else
      var k := WordEnd(s, isSpace);
      [s[..k]] + Words(s[k..], isSpace)
  }

  /** The text with its whitespace removed. */
  function Stripped(s: string, isSpace: Space): string {
    if s == "" then ""
    else (if isSpace(s[0]) then "" else [s[0]]) + Stripped(s[1..], isSpace)
  }

  lemma {:induction false} WordsAreWords(s: string, isSpace: Space)
    ensures forall i :: 0 <= i < |Words(s, isSpace)| ==>
      Words(s, isSpace)[i] != "" && NoSpace(Words(s, isSpace)[i], isSpace)
    decreases |s|
  {
    if s != "" {
      if isSpace(s[0]) {
        WordsAreWords(s[1..], isSpace);
      } else {
        WordsAreWords(s[WordEnd(s, isSpace)..], isSpace);
      }
    }
  }

  lemma {:induction false} StrippedAfter(s: string, k: nat, isSpace: Space)
    requires k <= |s| && NoSpace(s[..k], isSpace)
    ensures Stripped(s, isSpace) == s[..k] + Stripped(s[k..], isSpace)
  {
    if k == 0 {
      assert s[0..] == s;
    } else {
      assert !isSpace(s[..k][0]);
      assert s[1..][..k - 1] == s[..k][1..];
      assert s[1..][k - 1..] == s[k..];
      StrippedAfter(s[1..], k - 1, isSpace);
    }
  }

  /** The words spell the text without its whitespace. */
  lemma {:induction false} WordsSpellText(s: string, isSpace: Space)
    ensures Flatten(Words(s, isSpace)) == Stripped(s, isSpace)
    decreases |s|
  {
    if s != "" {
      if isSpace(s[0]) {
        WordsSpellText(s[1..], isSpace);
      } else {
        var k := WordEnd(s, isSpace);
        WordsSpellText(s[k..], isSpace);
        StrippedAfter(s, k, isSpace);
      }
    }
  }

  /** A non-empty string without whitespace is its own only word. */
  lemma WordsOfWord(w: string, isSpace: Space)
    requires w != "" && NoSpace(w, isSpace)
    ensures Words(w, isSpace) == [w]
  {
    assert WordEnd(w, isSpace) == |w|;
    assert w[..|w|] == w && w[|w|..] == "";
  }

  /** The whitespace between two texts ends a word that reaches it. */
  lemma {:induction false} WordEndJoin(a: string, sp: char, b: string, isSpace: Space)
    requires isSpace(sp)
    ensures WordEnd(a + [sp] + b, isSpace) == WordEnd(a, isSpace)
  {
    if a != "" && !isSpace(a[0]) {
      assert (a + [sp] + b)[1..] == a[1..] + [sp] + b;
      WordEndJoin(a[1..], sp, b, isSpace);
    }
  }

  /** Joining two texts by a whitespace character joins their word lists. */
  lemma {:induction false} WordsJoin(a: string, sp: char, b: string, isSpace: Space)
    requires isSpace(sp)
    ensures Words(a + [sp] + b, isSpace) == Words(a, isSpace) + Words(b, isSpace)
    decreases |a|
  {
    var t := a + [sp] + b;
    if a == "" {
      assert t[1..] == b;
    } else if isSpace(a[0]) {
      assert t[1..] == a[1..] + [sp] + b;
      WordsJoin(a[1..], sp, b, isSpace);
    } else {
      var k := WordEnd(a, isSpace);
      WordEndJoin(a, sp, b, isSpace);
      assert t[..k] == a[..k];
      assert t[k..] == a[k..] + [sp] + b;
      WordsJoin(a[k..], sp, b, isSpace);
    }
  }
}
