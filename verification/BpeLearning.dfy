/**
 What training learns: a list of merge rules, each a most frequent adjacent pair
 of the corpus as the earlier rules have segmented it, and the vocabulary those
 rules give rise to.
 */
module BpeLearning {
  import opened BpeGreedy

  /** The corpus words as segmented by the rules. */
  function RunAll(words: seq<string>, ms: seq<Pair>): seq<seq<string>> {
    seq(|words|, i requires 0 <= i < |words| => Run(Chars(words[i]), ms))
  }

  function Freq(segs: seq<seq<string>>, p: Pair): nat {
    if segs == [] then 0 else Count(segs[0], p) + Freq(segs[1..], p)
  }

  function TotalTokens(segs: seq<seq<string>>): nat {
    if segs == [] then 0 else |segs[0]| + TotalTokens(segs[1..])
  }

  /** Some pair of maximal frequency: ties may be broken in any way. */
  ghost predicate MostFrequent(segs: seq<seq<string>>, p: Pair) {
    Freq(segs, p) > 0 && forall q :: Freq(segs, q) <= Freq(segs, p)
  }

  /** The rule lists that training on these words can produce. */
  ghost predicate Learned(words: seq<string>, ms: seq<Pair>)
    decreases |ms|
  {
    ms == [] ||
    (var init := ms[..|ms| - 1];
     Learned(words, init) && MostFrequent(RunAll(words, init), ms[|ms| - 1]))
  }

  // ---------- Vocabulary and rule table ----------

  /** Characters get the next id unless they already have one. */
  function AddChars(v: map<string, nat>, cs: seq<string>): map<string, nat>
    decreases |cs|
  {
    if cs == [] then v
    else AddChars(if cs[0] in v then v else v[cs[0] := |v|], cs[1..])
  }

  /** A learned token is stored under the current size, whether or not its string is new. */
  function AddMerges(v: map<string, nat>, ms: seq<Pair>): map<string, nat>
    decreases |ms|
  {
    if ms == [] then v
    else
      var before := AddMerges(v, ms[..|ms| - 1]);
      before[Merged(ms[|ms| - 1]) := |before|]
  }

  function AddRules(r: map<Pair, string>, ms: seq<Pair>): map<Pair, string>
    decreases |ms|
  {
    if ms == [] then r
    else AddRules(r, ms[..|ms| - 1])[ms[|ms| - 1] := Merged(ms[|ms| - 1])]
  }

  function CorpusChars(words: seq<string>): seq<string> {
    Chars(Flatten(words))
  }

  /** The vocabulary after training, starting from vocabulary `v`. */
  function VocabAfter(v: map<string, nat>, words: seq<string>, ms: seq<Pair>): map<string, nat> {
    AddMerges(AddChars(v, CorpusChars(words)), ms)
  }

  /** The keys are numbered 0, 1, .., |v|-1, each number used exactly once. */
  ghost predicate Bijection(v: map<string, nat>) {
    && (forall t :: t in v ==> v[t] < |v|)
    && (forall s, t :: s in v && t in v && v[s] == v[t] ==> s == t)
    && (forall i: nat :: i < |v| ==> HasId(v, i))
  }

  ghost predicate HasId(v: map<string, nat>, i: nat) {
    exists t :: t in v && v[t] == i
  }

  // ---------- Reading a learned rule list ----------

  lemma {:induction false} LearnedAt(words: seq<string>, ms: seq<Pair>, k: nat)
    requires Learned(words, ms) && k < |ms|
    ensures Learned(words, ms[..k]) && MostFrequent(RunAll(words, ms[..k]), ms[k])
    decreases |ms|
  {
    var init := ms[..|ms| - 1];
    if k < |init| {
      LearnedAt(words, init, k);
      assert init[..k] == ms[..k];
    }
  }

  lemma {:induction false} FrequentPairOccurs(segs: seq<seq<string>>, p: Pair) returns (i: nat)
    requires Freq(segs, p) > 0
    ensures i < |segs| && Count(segs[i], p) > 0
  {
    if Count(segs[0], p) > 0 {
      i := 0;
    } else {
      var j := FrequentPairOccurs(segs[1..], p);
      i := j + 1;
    }
  }

  lemma FlattenTwo(a: string, b: string)
    ensures Flatten([a, b]) == a + b
  {
    assert [a, b][1..] == [b];
    assert Flatten([b]) == b + Flatten([]);
  }

  /** A learned pair was adjacent, when it was learned, inside some corpus word. */
  lemma LearnedOccurs(words: seq<string>, ms: seq<Pair>, k: nat)
    returns (i: nat, a: seq<string>, b: seq<string>)
    requires Learned(words, ms) && k < |ms|
    ensures i < |words|
    ensures Run(Chars(words[i]), ms[..k]) == a + [ms[k].left, ms[k].right] + b
    ensures words[i] == Flatten(a) + Merged(ms[k]) + Flatten(b)
  {
    LearnedAt(words, ms, k);
    i := FrequentPairOccurs(RunAll(words, ms[..k]), ms[k]);
    a, b := CountedPairOccurs(Run(Chars(words[i]), ms[..k]), ms[k]);
    RunKeepsSpelling(Chars(words[i]), ms[..k]);
    FlattenChars(words[i]);
    FlattenConcat(a + [ms[k].left, ms[k].right], b);
    FlattenConcat(a, [ms[k].left, ms[k].right]);
    FlattenTwo(ms[k].left, ms[k].right);
  }

  lemma {:induction false} LearnedNonEmptyBelow(words: seq<string>, ms: seq<Pair>, n: nat, w: string)
    requires Learned(words, ms) && n <= |ms|
    requires forall k :: 0 <= k < n ==> ms[k].left != "" && ms[k].right != ""
    ensures NonEmptyTokens(Run(Chars(w), ms[..n]))
    decreases n
  {
    if n > 0 {
      LearnedNonEmptyBelow(words, ms, n - 1, w);
      assert ms[..n][..n - 1] == ms[..n - 1];
      NonEmptyAlong(Run(Chars(w), ms[..n - 1]), ms[n - 1]);
    }
  }

  /** Both halves of every learned pair are non-empty. */
  lemma {:induction false} LearnedNonEmpty(words: seq<string>, ms: seq<Pair>, n: nat)
    requires Learned(words, ms) && n <= |ms|
    ensures forall k :: 0 <= k < n ==> ms[k].left != "" && ms[k].right != ""
    decreases n
  {
    if n > 0 {
      LearnedNonEmpty(words, ms, n - 1);
      var i, a, b := LearnedOccurs(words, ms, n - 1);
      LearnedNonEmptyBelow(words, ms, n - 1, words[i]);
      var seg := Run(Chars(words[i]), ms[..n - 1]);
      assert seg[|a|] == ms[n - 1].left && seg[|a| + 1] == ms[n - 1].right;
    }
  }

  // ---------- The fresh-merge theorem ----------

  /**
   The rules known before rule k split its string into exactly its two halves,
   and from rule k on that string is one token.
   */
  lemma LearnedSpelling(words: seq<string>, ms: seq<Pair>, k: nat, j: nat)
    requires Learned(words, ms) && k < j <= |ms|
    ensures Run(Chars(Merged(ms[k])), ms[..k]) == [ms[k].left, ms[k].right]
    ensures Run(Chars(Merged(ms[k])), ms[..j]) == [Merged(ms[k])]
  {
    var i, a, b := LearnedOccurs(words, ms, k);
    var two := [ms[k].left, ms[k].right];
    Locality(words[i], ms[..k], a, two, b);
    FlattenTwo(ms[k].left, ms[k].right);
    assert ms[..k + 1][..k] == ms[..k];
    assert two[2..] == [];
    assert Pass(two, ms[k]) == [Merged(ms[k])];
    SingleTokenStays(Chars(Merged(ms[k])), ms, k + 1, j, Merged(ms[k]));
  }

  /** No two learned rules spell the same string; in particular no pair is learned twice. */
  lemma MergesSpellDistinctStrings(words: seq<string>, ms: seq<Pair>, i: nat, j: nat)
    requires Learned(words, ms) && i < j < |ms|
    ensures Merged(ms[i]) != Merged(ms[j]) && ms[i] != ms[j]
  {
    LearnedSpelling(words, ms, i, j);
    LearnedSpelling(words, ms, j, |ms|);
  }

  /** A learned pair is never adjacent again, in any word, at any later stage. */
  lemma LearnedPairNeverReappears(words: seq<string>, ms: seq<Pair>, k: nat, j: nat, w: string)
    requires Learned(words, ms) && k < j <= |ms|
    ensures Count(Run(Chars(w), ms[..j]), ms[k]) == 0
  {
    if Count(Run(Chars(w), ms[..j]), ms[k]) > 0 {
      var a, b := CountedPairOccurs(Run(Chars(w), ms[..j]), ms[k]);
      Locality(w, ms[..j], a, [ms[k].left, ms[k].right], b);
      FlattenTwo(ms[k].left, ms[k].right);
      LearnedSpelling(words, ms, k, j);
      assert false;
    }
  }

  lemma {:induction false} AddCharsKeys(v: map<string, nat>, cs: seq<string>)
    ensures forall t :: t in AddChars(v, cs) <==> t in v || t in cs
    decreases |cs|
  {
    if cs != [] {
      AddCharsKeys(if cs[0] in v then v else v[cs[0] := |v|], cs[1..]);
    }
  }

  lemma {:induction false} AddMergesKeys(v: map<string, nat>, ms: seq<Pair>)
    ensures forall t :: t in AddMerges(v, ms) <==> t in v || exists k :: 0 <= k < |ms| && t == Merged(ms[k])
    decreases |ms|
  {
    if ms != [] {
      var init := ms[..|ms| - 1];
      AddMergesKeys(v, init);
      forall t | t in AddMerges(v, ms)
        ensures t in v || exists k :: 0 <= k < |ms| && t == Merged(ms[k])
      {
        if t == Merged(ms[|ms| - 1]) {
        } else if t !in v {
          var k :| 0 <= k < |init| && t == Merged(init[k]);
          assert ms[k] == init[k];
        }
      }
      forall k | 0 <= k < |ms|
        ensures Merged(ms[k]) in AddMerges(v, ms)
      {
        if k < |init| {
          assert init[k] == ms[k];
        }
      }
    }
  }

  /** The keys after training: the old ones, the corpus characters, the merged strings. */
  lemma VocabKeys(v: map<string, nat>, words: seq<string>, ms: seq<Pair>)
    ensures forall t :: t in VocabAfter(v, words, ms) <==>
      t in v || t in CorpusChars(words) || exists k :: 0 <= k < |ms| && t == Merged(ms[k])
  {
    AddCharsKeys(v, CorpusChars(words));
    AddMergesKeys(AddChars(v, CorpusChars(words)), ms);
  }

  /** In a fresh tokenizer every merged string is new when it is inserted. */
  lemma FreshMerge(words: seq<string>, ms: seq<Pair>, k: nat)
    requires Learned(words, ms) && k < |ms|
    ensures Merged(ms[k]) !in VocabAfter(map[], words, ms[..k])
  {
    VocabKeys(map[], words, ms[..k]);
    LearnedNonEmpty(words, ms, |ms|);
    forall i | 0 <= i < k
      ensures Merged(ms[..k][i]) != Merged(ms[k])
    {
      MergesSpellDistinctStrings(words, ms, i, k);
    }
  }

  // ---------- Ids ----------

  lemma InsertNew(v: map<string, nat>, t: string)
    requires Bijection(v) && t !in v
    ensures Bijection(v[t := |v|]) && |v[t := |v|]| == |v| + 1
  {
    var w := v[t := |v|];
    assert w.Keys == v.Keys + {t};
    assert |w| == |w.Keys| == |v.Keys| + 1;
    forall i: nat | i < |w|
      ensures HasId(w, i)
    {
      if i < |v| {
        assert HasId(v, i);
        var s :| s in v && v[s] == i;
        assert s in w && w[s] == i;
      } else {
        assert t in w && w[t] == i;
      }
    }
  }

  lemma {:induction false} AddCharsBijection(v: map<string, nat>, cs: seq<string>)
    requires Bijection(v)
    ensures Bijection(AddChars(v, cs))
    ensures |AddChars(v, cs)| == |v.Keys + set c | c in cs|
    decreases |cs|
  {
    if cs == [] {
      assert v.Keys + (set c | c in cs) == v.Keys;
    } else {
      if cs[0] !in v {
        InsertNew(v, cs[0]);
      }
      var w := if cs[0] in v then v else v[cs[0] := |v|];
      AddCharsBijection(w, cs[1..]);
      assert w.Keys + (set c | c in cs[1..]) == v.Keys + set c | c in cs;
    }
  }

  /**
   After training a new tokenizer the ids number the vocabulary one-to-one, and
   there is one id per distinct character and one per learned rule.
   */
  lemma {:induction false} FreshIdsAreBijection(words: seq<string>, ms: seq<Pair>)
    requires Learned(words, ms)
    ensures Bijection(VocabAfter(map[], words, ms))
    ensures |VocabAfter(map[], words, ms)| == |set c | c in CorpusChars(words)| + |ms|
    decreases |ms|
  {
    if ms == [] {
      AddCharsBijection(map[], CorpusChars(words));
      var none: map<string, nat> := map[];
      assert none.Keys + (set c | c in CorpusChars(words)) == set c | c in CorpusChars(words);
    } else {
      FreshIdsAreBijection(words, ms[..|ms| - 1]);
      FreshMerge(words, ms, |ms| - 1);
      InsertNew(VocabAfter(map[], words, ms[..|ms| - 1]), Merged(ms[|ms| - 1]));
    }
  }

  // ---------- Which id is whose ----------

  /** A known character keeps its id. */
  lemma {:induction false} KnownCharKeepsId(v: map<string, nat>, cs: seq<string>, t: string)
    requires t in v
    ensures t in AddChars(v, cs) && AddChars(v, cs)[t] == v[t]
    decreases |cs|
  {
    if cs != [] {
      KnownCharKeepsId(if cs[0] in v then v else v[cs[0] := |v|], cs[1..], t);
    }
  }

  lemma {:induction false} NewCharGetsSize(v: map<string, nat>, cs: seq<string>, i: nat)
    requires i < |cs| && cs[i] !in v && cs[i] !in cs[..i]
    ensures cs[i] in AddChars(v, cs) && AddChars(v, cs)[cs[i]] == |AddChars(v, cs[..i])|
    decreases |cs|
  {
    var w := if cs[0] in v then v else v[cs[0] := |v|];
    if i == 0 {
      KnownCharKeepsId(w, cs[1..], cs[0]);
    } else {
      assert cs[..i][0] == cs[0] && cs[..i][1..] == cs[1..][..i - 1];
      NewCharGetsSize(w, cs[1..], i - 1);
    }
  }

  /** A new character gets the number of keys known before its first occurrence. */
  lemma NewCharId(v: map<string, nat>, cs: seq<string>, i: nat)
    requires i < |cs| && cs[i] !in v && cs[i] !in cs[..i]
    ensures cs[i] in AddChars(v, cs) && AddChars(v, cs)[cs[i]] == |v.Keys + set c | c in cs[..i]|
  {
    NewCharGetsSize(v, cs, i);
    AddCharsKeys(v, cs[..i]);
    assert AddChars(v, cs[..i]).Keys == v.Keys + set c | c in cs[..i];
  }

  /** A key that no rule spells keeps its id. */
  lemma {:induction false} OtherIdsStay(v: map<string, nat>, ms: seq<Pair>, t: string)
    requires t in v && forall k :: 0 <= k < |ms| ==> t != Merged(ms[k])
    ensures t in AddMerges(v, ms) && AddMerges(v, ms)[t] == v[t]
    decreases |ms|
  {
    if ms != [] {
      OtherIdsStay(v, ms[..|ms| - 1], t);
    }
  }

  /** From any vocabulary, a learned string gets the size of the vocabulary as it was when it was learned. */
  lemma {:induction false} MergeIds(v: map<string, nat>, words: seq<string>, ms: seq<Pair>, k: nat)
    requires Learned(words, ms) && k < |ms|
    ensures Merged(ms[k]) in VocabAfter(v, words, ms)
    ensures VocabAfter(v, words, ms)[Merged(ms[k])] == |VocabAfter(v, words, ms[..k])|
    decreases |ms|
  {
    var init, last := ms[..|ms| - 1], |ms| - 1;
    if k < last {
      MergeIds(v, words, init, k);
      assert init[..k] == ms[..k];
      MergesSpellDistinctStrings(words, ms, k, last);
    }
  }

  /** In a new tokenizer the ids of the learned strings follow those of the characters, in the order of learning. */
  lemma FreshMergeIds(words: seq<string>, ms: seq<Pair>, k: nat)
    requires Learned(words, ms) && k < |ms|
    ensures Merged(ms[k]) in VocabAfter(map[], words, ms)
    ensures VocabAfter(map[], words, ms)[Merged(ms[k])] == |set c | c in CorpusChars(words)| + k
  {
    MergeIds(map[], words, ms, k);
    LearnedAt(words, ms, k);
    FreshIdsAreBijection(words, ms[..k]);
  }

  // ---------- Retraining ----------

  ghost predicate HasHole(v: map<string, nat>) {
    exists i: nat :: i < |v| && !HasId(v, i)
  }

  lemma OverwriteLeavesHole(v: map<string, nat>, t: string)
    requires Bijection(v) && t in v
    ensures HasHole(v[t := |v|])
  {
    var w := v[t := |v|];
    assert w.Keys == v.Keys;
    assert |w| == |w.Keys| == |v|;
    assert !HasId(w, v[t]);
  }

  lemma HoleStays(v: map<string, nat>, t: string)
    requires HasHole(v)
    ensures HasHole(v[t := |v|])
  {
    var w := v[t := |v|];
    var i: nat :| i < |v| && !HasId(v, i);
    assert w.Keys == v.Keys + {t};
    assert |w| == |w.Keys| >= |v.Keys|;
    forall s | s in w
      ensures w[s] != i
    {
      assert s == t || (s in v && w[s] == v[s]);
    }
    assert !HasId(w, i);
  }

  lemma {:induction false} RetrainedWithoutClash(v: map<string, nat>, words: seq<string>, ms: seq<Pair>)
    requires Bijection(v) && Learned(words, ms)
    requires forall k :: 0 <= k < |ms| ==> Merged(ms[k]) !in v
    ensures Bijection(VocabAfter(v, words, ms))
    ensures |VocabAfter(v, words, ms)| == |VocabAfter(v, words, [])| + |ms|
    decreases |ms|
  {
    if ms == [] {
      AddCharsBijection(v, CorpusChars(words));
    } else {
      var init, last := ms[..|ms| - 1], |ms| - 1;
      RetrainedWithoutClash(v, words, init);
      MergeIsNew(v, words, ms, last);
      InsertNew(VocabAfter(v, words, init), Merged(ms[last]));
    }
  }

  /** A rule's string is a key before its insertion exactly if the tokenizer brought it along. */
  lemma MergeIsNew(v: map<string, nat>, words: seq<string>, ms: seq<Pair>, k: nat)
    requires Learned(words, ms) && k < |ms|
    ensures Merged(ms[k]) in VocabAfter(v, words, ms[..k]) <==> Merged(ms[k]) in v
  {
    VocabKeys(v, words, ms[..k]);
    VocabKeys(map[], words, ms[..k]);
    FreshMerge(words, ms, k);
  }

  lemma {:induction false} RetrainedWithClash(v: map<string, nat>, words: seq<string>, ms: seq<Pair>, k: nat, n: nat)
    requires Bijection(v) && Learned(words, ms) && k < n <= |ms|
    requires Merged(ms[k]) in v && forall i :: 0 <= i < k ==> Merged(ms[i]) !in v
    ensures HasHole(VocabAfter(v, words, ms[..n]))
    decreases n
  {
    var before := VocabAfter(v, words, ms[..n - 1]);
    assert ms[..n][..n - 1] == ms[..n - 1];
    LearnedAt(words, ms, k);
    if n == k + 1 {
      RetrainedWithoutClash(v, words, ms[..k]);
      MergeIsNew(v, words, ms, k);
      OverwriteLeavesHole(before, Merged(ms[k]));
    } else {
      RetrainedWithClash(v, words, ms, k, n - 1);
      HoleStays(before, Merged(ms[n - 1]));
    }
  }

  lemma {:induction false} FirstClash(v: map<string, nat>, ms: seq<Pair>, k: nat) returns (i: nat)
    requires k < |ms| && Merged(ms[k]) in v
    ensures i < |ms| && Merged(ms[i]) in v && forall j :: 0 <= j < i ==> Merged(ms[j]) !in v
    decreases k
  {
    if j :| 0 <= j < k && Merged(ms[j]) in v {
      i := FirstClash(v, ms, j);
    } else {
      i := k;
    }
  }

  /**
   Training again on top of a one-to-one vocabulary keeps it one-to-one exactly
   when no rule relearned a string that the old vocabulary already held.
   */
  lemma RetrainKeepsBijectionIff(v: map<string, nat>, words: seq<string>, ms: seq<Pair>)
    requires Bijection(v) && Learned(words, ms)
    ensures Bijection(VocabAfter(v, words, ms)) <==> forall k :: 0 <= k < |ms| ==> Merged(ms[k]) !in v
  {
    if k :| 0 <= k < |ms| && Merged(ms[k]) in v {
      var i := FirstClash(v, ms, k);
      RetrainedWithClash(v, words, ms, i, |ms|);
      assert ms[..|ms|] == ms;
    } else {
      RetrainedWithoutClash(v, words, ms);
    }
  }

  // ---------- What can be checked before retraining ----------

  ghost predicate Substring(t: string, w: string) {
    exists a: string, b: string :: w == a + t + b
  }

  /** A key of two or more characters: one only a merge can produce. */
  predicate LongKey(v: map<string, nat>, t: string) {
    t in v && |t| >= 2
  }

  /** No key that a merge could produce occurs inside a corpus word. */
  ghost predicate NoKeyInside(v: map<string, nat>, words: seq<string>) {
    forall t, i :: LongKey(v, t) && 0 <= i < |words| ==> !Substring(t, words[i])
  }

  /** A learned string has two or more characters and occurs in a corpus word. */
  lemma LearnedIsInside(words: seq<string>, ms: seq<Pair>, k: nat) returns (i: nat)
    requires Learned(words, ms) && k < |ms|
    ensures |Merged(ms[k])| >= 2 && i < |words| && Substring(Merged(ms[k]), words[i])
  {
    var a, b;
    i, a, b := LearnedOccurs(words, ms, k);
    LearnedNonEmpty(words, ms, |ms|);
    assert words[i] == Flatten(a) + Merged(ms[k]) + Flatten(b);
  }

  /**
   A check before the call: if no key of two or more characters occurs inside a
   word of the new corpus, retraining on it keeps the numbering, whatever the
   tie-breaking and however long it goes on.
   */
  lemma DisjointCorpusIsSafe(v: map<string, nat>, words: seq<string>, ms: seq<Pair>)
    requires Bijection(v) && NoKeyInside(v, words) && Learned(words, ms)
    ensures Bijection(VocabAfter(v, words, ms))
  {
    forall k | 0 <= k < |ms|
      ensures Merged(ms[k]) !in v
    {
      var i := LearnedIsInside(words, ms, k);
      assert Merged(ms[k]) in v ==> LongKey(v, Merged(ms[k]));
    }
    RetrainKeepsBijectionIff(v, words, ms);
  }

  lemma {:induction false} FreqAtLeast(segs: seq<seq<string>>, i: nat, p: Pair)
    requires i < |segs|
    ensures Freq(segs, p) >= Count(segs[i], p)
  {
    if i > 0 {
      FreqAtLeast(segs[1..], i - 1, p);
    }
  }

  /** Training that runs out of pairs has learned every corpus word of two or more characters. */
  lemma ExhaustedTrainingLearnsWords(words: seq<string>, ms: seq<Pair>, i: nat)
    requires Learned(words, ms) && forall p :: Freq(RunAll(words, ms), p) == 0
    requires i < |words| && |words[i]| >= 2
    ensures exists k :: 0 <= k < |ms| && words[i] == Merged(ms[k])
  {
    var seg := Run(Chars(words[i]), ms);
    RunKeepsSpelling(Chars(words[i]), ms);
    FlattenChars(words[i]);
    if |seg| >= 2 {
      var p := Pair(seg[0], seg[1]);
      FreqAtLeast(RunAll(words, ms), i, p);
      assert false;
    }
    assert |seg| == 1 by {
      assert Flatten([]) == "";
    }
    assert seg[1..] == [] && seg[0] == words[i];
    assert words[i] in seg && words[i] !in Chars(words[i]);
    RunTokens(Chars(words[i]), ms, words[i]);
  }

  /** The other way: a key that is a whole word of the corpus is lost by training that runs out of pairs. */
  lemma KeyAmongWordsIsLost(v: map<string, nat>, words: seq<string>, ms: seq<Pair>, i: nat)
    requires Bijection(v) && Learned(words, ms) && forall p :: Freq(RunAll(words, ms), p) == 0
    requires i < |words| && LongKey(v, words[i])
    ensures !Bijection(VocabAfter(v, words, ms))
  {
    ExhaustedTrainingLearnsWords(words, ms, i);
    RetrainKeepsBijectionIff(v, words, ms);
  }

  /** At no point of training is there a choice between two most frequent pairs. */
  ghost predicate Untied(words: seq<string>, ms: seq<Pair>) {
    forall k, p :: 0 <= k < |ms| && MostFrequent(RunAll(words, ms[..k]), p) ==> p == ms[k]
  }

  /** Then training on that corpus has one possible result, whatever the tokenizer held. */
  lemma {:induction false} UntiedIsUnique(words: seq<string>, dry: seq<Pair>, ms: seq<Pair>)
    requires Learned(words, dry) && Untied(words, dry) && Learned(words, ms) && |ms| <= |dry|
    ensures ms == dry[..|ms|]
    decreases |ms|
  {
    if ms != [] {
      var n := |ms| - 1;
      UntiedIsUnique(words, dry, ms[..n]);
      assert ms[n] == dry[n];
      assert dry[..|ms|] == dry[..n] + [dry[n]];
    }
  }

  lemma UntiedAgree(words: seq<string>, dry: seq<Pair>, ms: seq<Pair>, k: nat)
    requires Learned(words, dry) && Untied(words, dry) && Learned(words, ms) && k < |ms| && k < |dry|
    ensures ms[..k] == dry[..k] && ms[k] == dry[k]
  {
    LearnedAt(words, ms, k);
    UntiedIsUnique(words, dry, ms[..k]);
  }

  /** The keys two vocabularies share, single characters aside. */
  ghost predicate ShareLongKey(v: map<string, nat>, w: map<string, nat>) {
    exists t :: LongKey(v, t) && LongKey(w, t)
  }

  /** A new tokenizer trained with the same rules holds the relearned strings as its long keys. */
  lemma SharedKeysAreRelearned(v: map<string, nat>, words: seq<string>, ms: seq<Pair>)
    requires Learned(words, ms)
    ensures ShareLongKey(v, VocabAfter(map[], words, ms)) <==> exists k :: 0 <= k < |ms| && Merged(ms[k]) in v
  {
    var w := VocabAfter(map[], words, ms);
    VocabKeys(map[], words, ms);
    if t :| LongKey(v, t) && LongKey(w, t) {
      assert t !in CorpusChars(words);
      var k :| 0 <= k < |ms| && t == Merged(ms[k]);
      assert Merged(ms[k]) in v;
    }
    if k :| 0 <= k < |ms| && Merged(ms[k]) in v {
      var i := LearnedIsInside(words, ms, k);
      assert LongKey(v, Merged(ms[k])) && LongKey(w, Merged(ms[k]));
    }
  }

  /**
   Exactly when retraining keeps the numbering whatever the tie-breaking and the
   size limit: when no new tokenizer trained on the same corpus can come to share
   a key of two or more characters with the old one.
   */
  lemma EveryRetrainingIsSafeIff(v: map<string, nat>, words: seq<string>)
    requires Bijection(v)
    ensures (forall ms :: Learned(words, ms) ==> Bijection(VocabAfter(v, words, ms))) <==>
            (forall dry :: Learned(words, dry) ==> !ShareLongKey(v, VocabAfter(map[], words, dry)))
  {
    forall ms | Learned(words, ms)
      ensures Bijection(VocabAfter(v, words, ms)) <==> !ShareLongKey(v, VocabAfter(map[], words, ms))
    {
      RetrainKeepsBijectionIff(v, words, ms);
      SharedKeysAreRelearned(v, words, ms);
    }
  }

  /** A tie-free training that has run out of pairs is the longest there is on that corpus. */
  lemma NothingAfterExhaustion(words: seq<string>, dry: seq<Pair>, ms: seq<Pair>)
    requires Learned(words, dry) && Untied(words, dry) && Learned(words, ms)
    requires forall p :: Freq(RunAll(words, dry), p) == 0
    ensures |ms| <= |dry|
  {
    assert dry[..|dry|] == dry;
    if |ms| > |dry| {
      var p := ms[|dry|];
      assert Freq(RunAll(words, dry), p) == 0;
      LearnedAt(words, ms, |dry|);
      UntiedIsUnique(words, dry, ms[..|dry|]);
    }
  }

  /** Training twice on "ab": the second run relearns "ab", gives it id 3 and leaves id 2 unused. */
  lemma RetrainingBreaksIds()
    ensures var words, ms := ["ab"], [Pair("a", "b")];
      && Learned(words, ms)
      && Bijection(VocabAfter(map[], words, ms))
      && !Bijection(VocabAfter(VocabAfter(map[], words, ms), words, ms))
  {
    var words, p := ["ab"], Pair("a", "b");
    var ms := [p];
    var v := VocabAfter(map[], words, ms);
    assert ms[..0] == [];
    var segs := RunAll(words, []);
    assert segs == [["a", "b"]] by { assert Chars("ab") == ["a", "b"]; }
    forall q
      ensures Freq(segs, q) == if q == p then 1 else 0
    {
      assert Count(["b"], q) == 0 && ["a", "b"][1..] == ["b"];
      assert segs[1..] == [];
    }
    assert MostFrequent(segs, p);
    assert ms[..|ms| - 1] == [] && ms[|ms| - 1] == p;
    assert Learned(words, []) && Learned(words, ms);
    FreshIdsAreBijection(words, ms);
    assert Merged(ms[0]) in v by { VocabKeys(map[], words, ms); }
    RetrainKeepsBijectionIff(v, words, ms);
  }

  // ---------- What one learning step does to the corpus ----------

  lemma {:induction false} FreqSum(segs: seq<seq<string>>, p: Pair, after: seq<seq<string>>)
    requires |after| == |segs| && forall i :: 0 <= i < |segs| ==> after[i] == Pass(segs[i], p)
    ensures p.left != p.right ==> TotalTokens(after) == TotalTokens(segs) - Freq(segs, p)
    ensures TotalTokens(segs) - TotalTokens(after) <= Freq(segs, p) <= 2 * (TotalTokens(segs) - TotalTokens(after))
  {
    if segs != [] {
      PassLength(segs[0], p);
      FreqSum(segs[1..], p, after[1..]);
    }
  }

  /**
   Applying a rule of frequency f to the whole corpus removes exactly f tokens
   when its halves differ; when they are equal it removes r tokens, where
   f is between r and 2r. Either way the corpus shrinks if f > 0.
   */
  lemma CorpusShrinks(words: seq<string>, ms: seq<Pair>, p: Pair)
    ensures var f := Freq(RunAll(words, ms), p);
      var r := TotalTokens(RunAll(words, ms)) - TotalTokens(RunAll(words, ms + [p]));
      (p.left != p.right ==> r == f) && r <= f <= 2 * r
  {
    var segs, after := RunAll(words, ms), RunAll(words, ms + [p]);
    assert (ms + [p])[..|ms|] == ms;
    FreqSum(segs, p, after);
  }
  /**
   The greedy law, in tokens: at the moment a rule is learned no other rule would
   shrink the corpus more, if the halves of the learned one differ. If they are
   equal, its windows may overlap, and no other would shrink it more than twice as
   much.
   */
  lemma LearnedShrinksMost(words: seq<string>, ms: seq<Pair>, k: nat, q: Pair)
    requires Learned(words, ms) && k < |ms|
    ensures var before := TotalTokens(RunAll(words, ms[..k]));
      var saved := before - TotalTokens(RunAll(words, ms[..k + 1]));
      var other := before - TotalTokens(RunAll(words, ms[..k] + [q]));
      && saved > 0 && other <= 2 * saved
      && (ms[k].left != ms[k].right ==> other <= saved)
  {
    LearnedAt(words, ms, k);
    assert ms[..k + 1] == ms[..k] + [ms[k]];
    CorpusShrinks(words, ms[..k], ms[k]);
    CorpusShrinks(words, ms[..k], q);
  }
}
