/**
 The tokenizer object: training and encoding as they are executed, over mutable
 word lists and hash maps, proved against the functions of the other modules.
 */
module BpeTokenizer {
  import opened BpeGreedy
  import opened BpeText
  import opened BpeLearning
  import opened BpeEncoding

  // ---------- The in-place merge loop ----------

  /** Rewrites one word, by index and remove, without moving the cursor after a merge. */
  method MergeInWord(tokens: seq<string>, left: string, right: string, merged: string) returns (word: seq<string>)
    ensures word == LoopPass(tokens, left, right, merged)
  {
    word := tokens;
    var i := 0;
    while i + 1 < |word|
      invariant 0 <= i
      invariant i <= |word|
      invariant word[..i] + LoopPass(word[i..], left, right, merged) == LoopPass(tokens, left, right, merged)
      decreases 2 * |word| - i
    {
      ghost var done, rest := word[..i], word[i..];
      if word[i] == left && word[i + 1] == right {
        word := word[i := merged];
        word := word[..i + 1] + word[i + 2..];
        assert word[..i] == done && word[i..] == [merged] + rest[2..];
      } else {
        i := i + 1;
        assert word[..i] == done + [rest[0]] && word[i..] == rest[1..];
      }
    }
  }

  // ---------- Pair frequencies ----------

  function Lookup(freq: map<Pair, nat>, p: Pair): nat {
    if p in freq then freq[p] else 0
  }

  /** Counts every adjacent pair of every word. */
  method CountPairs(words: seq<seq<string>>) returns (freq: map<Pair, nat>)
    ensures forall p :: Lookup(freq, p) == Freq(words, p)
    ensures forall p :: p in freq ==> freq[p] > 0
  {
    freq := map[];
    var i := 0;
    assert words[0..] == words;
    while i < |words|
      invariant 0 <= i <= |words|
      invariant forall p :: Lookup(freq, p) + Freq(words[i..], p) == Freq(words, p)
      invariant forall p :: p in freq ==> freq[p] > 0
    {
      var word, j := words[i], 0;
      ghost var start := freq;
      assert word[0..] == word;
      while j + 1 < |word|
        invariant 0 <= j
        invariant j <= |word|
        invariant forall p :: Lookup(freq, p) + Count(word[j..], p) == Lookup(start, p) + Count(word, p)
        invariant forall p :: p in freq ==> freq[p] > 0
      {
        var pair := Pair(word[j], word[j + 1]);
        assert word[j..][1..] == word[j + 1..];
        freq := freq[pair := Lookup(freq, pair) + 1];
        j := j + 1;
      }
      assert words[i..][1..] == words[i + 1..];
      i := i + 1;
    }
  }

  /** A non-empty frequency table has an entry of maximal frequency. */
  lemma {:induction false} MaximumExists(freq: map<Pair, nat>, keys: set<Pair>)
    requires keys != {} && keys <= freq.Keys
    ensures exists p :: p in keys && forall q :: q in keys ==> freq[q] <= freq[p]
    decreases |keys|
  {
    var x :| x in keys;
    if keys == {x} {
      assert forall q :: q in keys ==> freq[q] <= freq[x];
    } else {
      assert keys - {x} != {} by { assert keys == (keys - {x}) + {x}; }
      MaximumExists(freq, keys - {x});
      var p :| p in keys - {x} && forall q :: q in keys - {x} ==> freq[q] <= freq[p];
      var best := if freq[x] > freq[p] then x else p;
      assert forall q :: q in keys ==> q == x || q in keys - {x};
      assert forall q :: q in keys ==> freq[q] <= freq[best];
    }
  }

  datatype Best = None | Best(pair: Pair)

  /** Some most frequent pair, if there is any pair at all. */
  method MostFrequentPair(words: seq<seq<string>>) returns (best: Best)
    ensures best.None? ==> forall p :: Freq(words, p) == 0
    ensures best.Best? ==> MostFrequent(words, best.pair)
    ensures best.Best? ==> Freq(words, best.pair) > 0 && forall q :: Freq(words, q) <= Freq(words, best.pair)
  {
    var pairFreq := CountPairs(words);
    assert forall p :: Freq(words, p) == Lookup(pairFreq, p);
    if pairFreq == map[] {
      return None;
    }
    MaximumExists(pairFreq, pairFreq.Keys);
    var top :| top in pairFreq.Keys && forall q :: q in pairFreq.Keys ==> pairFreq[q] <= pairFreq[top];
    assert forall q :: Lookup(pairFreq, q) <= Lookup(pairFreq, top);
    best := Best(top);
  }

  // ---------- One rule more ----------

  /** From contents `m0`, learning `ms` on `words` leads to contents `m`, never starting beyond the size limit. */
  ghost predicate TrainingStep(m0: Model, m: Model, ms: seq<Pair>, words: seq<string>, vocabSize: nat) {
    && Learned(words, ms)
    && m.vocab == VocabAfter(m0.vocab, words, ms)
    && m.merges == AddRules(m0.merges, ms)
    && m.mergeOrder == m0.mergeOrder + ms
    && forall k :: 0 <= k < |ms| ==> |VocabAfter(m0.vocab, words, ms[..k])| < vocabSize
  }

  /** Training stops when the vocabulary is large enough or no pair is adjacent any more. */
  ghost predicate Finished(m: Model, ms: seq<Pair>, words: seq<string>, vocabSize: nat) {
    |m.vocab| >= vocabSize || forall p :: Freq(RunAll(words, ms), p) == 0
  }

  lemma OneMoreLearned(ms: seq<Pair>, words: seq<string>, p: Pair)
    requires Learned(words, ms) && MostFrequent(RunAll(words, ms), p)
    ensures Learned(words, ms + [p]) && p.right != ""
    ensures TotalTokens(RunAll(words, ms + [p])) < TotalTokens(RunAll(words, ms))
    ensures forall i :: 0 <= i < |words| ==> RunAll(words, ms + [p])[i] == Pass(RunAll(words, ms)[i], p)
  {
    var next := ms + [p];
    assert next[..|next| - 1] == ms && next[|next| - 1] == p;
    assert Learned(words, next);
    LearnedNonEmpty(words, next, |next|);
    CorpusShrinks(words, ms, p);
  }

  lemma OneMoreWithinLimit(v: map<string, nat>, ms: seq<Pair>, words: seq<string>, vocabSize: nat, p: Pair)
    requires |VocabAfter(v, words, ms)| < vocabSize
    requires forall k :: 0 <= k < |ms| ==> |VocabAfter(v, words, ms[..k])| < vocabSize
    ensures forall k :: 0 <= k < |ms + [p]| ==> |VocabAfter(v, words, (ms + [p])[..k])| < vocabSize
  {
    forall k | 0 <= k < |ms + [p]|
      ensures |VocabAfter(v, words, (ms + [p])[..k])| < vocabSize
    {
      assert (ms + [p])[..k] == if k < |ms| then ms[..k] else ms;
    }
  }

  lemma OneMoreRule(m0: Model, m: Model, ms: seq<Pair>, words: seq<string>, vocabSize: nat, p: Pair)
    requires TrainingStep(m0, m, ms, words, vocabSize) && |m.vocab| < vocabSize
    requires MostFrequent(RunAll(words, ms), p)
    ensures p.right != ""
    ensures TrainingStep(m0, Model(m.vocab[Merged(p) := |m.vocab|], m.merges[p := Merged(p)], m.mergeOrder + [p]),
                         ms + [p], words, vocabSize)
    ensures TotalTokens(RunAll(words, ms + [p])) < TotalTokens(RunAll(words, ms))
    ensures forall i :: 0 <= i < |words| ==> RunAll(words, ms + [p])[i] == Pass(RunAll(words, ms)[i], p)
  {
    OneMoreLearned(ms, words, p);
    OneMoreWithinLimit(m0.vocab, ms, words, vocabSize, p);
    assert (ms + [p])[..|ms|] == ms;
  }

  // ---------- Character table ----------

  /** The characters not yet in the vocabulary, in order, repetitions included. */
  function NewChars(v: map<string, nat>, cs: seq<string>): seq<string> {
    if cs == [] then []
    else (if cs[0] in v then [] else [cs[0]]) + NewChars(v, cs[1..])
  }

  lemma {:induction false} NewCharsSuffice(v: map<string, nat>, w: map<string, nat>, cs: seq<string>)
    requires v.Keys <= w.Keys
    ensures AddChars(w, NewChars(v, cs)) == AddChars(w, cs)
    decreases |cs|
  {
    if cs != [] {
      var next := if cs[0] in w then w else w[cs[0] := |w|];
      NewCharsSuffice(v, next, cs[1..]);
      if cs[0] in v {
        assert NewChars(v, cs) == NewChars(v, cs[1..]);
      } else {
        assert NewChars(v, cs)[1..] == NewChars(v, cs[1..]);
      }
    }
  }

  lemma {:induction false} NewCharsConcat(v: map<string, nat>, a: seq<string>, b: seq<string>)
    ensures NewChars(v, a + b) == NewChars(v, a) + NewChars(v, b)
  {
    if a == [] {
      assert a + b == b;
    } else {
      assert (a + b)[1..] == a[1..] + b;
      NewCharsConcat(v, a[1..], b);
    }
  }

  lemma CharsConcat(a: string, b: string)
    ensures Chars(a + b) == Chars(a) + Chars(b)
  {
  }

  class Tokenizer {
    const isSpace: Space
    var vocab: map<string, nat>
    var merges: map<Pair, string>
    var mergeOrder: seq<Pair>

    function Contents(): Model
      reads this
    {
      Model(vocab, merges, mergeOrder)
    }

    constructor (isSpace: Space)
      ensures this.isSpace == isSpace
      ensures Contents() == Model(map[], map[], [])
    {
      this.isSpace := isSpace;
      vocab, merges, mergeOrder := map[], map[], [];
    }

    /** The corpus characters that have no id yet. */
    method MissingCharacters(texts: seq<string>) returns (allChars: seq<string>)
      ensures allChars == NewChars(vocab, CorpusChars(texts))
    {
      allChars := [];
      var i := 0;
      assert texts[0..] == texts;
      while i < |texts|
        invariant 0 <= i <= |texts|
        invariant allChars + NewChars(vocab, CorpusChars(texts[i..])) == NewChars(vocab, CorpusChars(texts))
      {
        var word, j := Chars(texts[i]), 0;
        ghost var start := allChars;
        assert word[0..] == word;
        while j < |word|
          invariant 0 <= j <= |word|
          invariant allChars + NewChars(vocab, word[j..]) == start + NewChars(vocab, word)
        {
          assert word[j..][1..] == word[j + 1..];
          if word[j] !in vocab {
            allChars := allChars + [word[j]];
          }
          j := j + 1;
        }
        assert allChars == start + NewChars(vocab, word);
        assert texts[i..][1..] == texts[i + 1..];
        CharsConcat(texts[i], Flatten(texts[i + 1..]));
        NewCharsConcat(vocab, word, CorpusChars(texts[i + 1..]));
        i := i + 1;
      }
    }

    /** Gives an id to every corpus character that has none. */
    method AddCharacters(texts: seq<string>)
      modifies this`vocab
      ensures vocab == AddChars(old(vocab), CorpusChars(texts))
    {
      var allChars := MissingCharacters(texts);
      NewCharsSuffice(vocab, vocab, CorpusChars(texts));
      var i := 0;
      assert allChars[0..] == allChars;
      while i < |allChars|
        invariant 0 <= i <= |allChars|
        invariant AddChars(vocab, allChars[i..]) == AddChars(old(vocab), CorpusChars(texts))
      {
        assert allChars[i..][1..] == allChars[i + 1..];
        if allChars[i] !in vocab {
          vocab := vocab[allChars[i] := |vocab|];
        }
        i := i + 1;
      }
    }

    /**
     Learns rules from a text, on top of whatever the tokenizer holds. The rules
     this call appends are some list that training on the words can produce,
     continued until the vocabulary is large enough or no pair is left, and not
     beyond.
     */
    method Train(text: string, vocabSize: nat)
      modifies this
      ensures old(mergeOrder) <= mergeOrder
      ensures TrainingStep(old(Contents()), Contents(), mergeOrder[|old(mergeOrder)|..],
                           Words(text, isSpace), vocabSize)
      ensures Finished(Contents(), mergeOrder[|old(mergeOrder)|..], Words(text, isSpace), vocabSize)
    {
      var texts := Words(text, isSpace);
      var words: seq<seq<string>> := seq(|texts|, i requires 0 <= i < |texts| => Chars(texts[i]));
      AddCharacters(texts);
      ghost var learned: seq<Pair> := [];
      assert words == RunAll(texts, learned);
      assert mergeOrder == old(mergeOrder) + learned;
      while |vocab| < vocabSize
        invariant mergeOrder == old(mergeOrder) + learned
        invariant words == RunAll(texts, learned)
        invariant TrainingStep(old(Contents()), Contents(), learned, texts, vocabSize)
        decreases TotalTokens(words)
      {
        var best := MostFrequentPair(words);
        if best.None? {
          break;
        }
        var merged := best.pair.left + best.pair.right;
        OneMoreRule(old(Contents()), Contents(), learned, texts, vocabSize, best.pair);
        merges := merges[best.pair := merged];
        mergeOrder := mergeOrder + [best.pair];
        vocab := vocab[merged := |vocab|];
        words := MergeAll(words, best.pair, merged);
        learned := learned + [best.pair];
        assert words == RunAll(texts, learned);
      }
      assert mergeOrder[|old(mergeOrder)|..] == learned;
    }

    /** Applies one rule to every word. */
    static method MergeAll(words: seq<seq<string>>, best: Pair, merged: string) returns (after: seq<seq<string>>)
      requires best.right != "" && merged == Merged(best)
      ensures |after| == |words| && forall i :: 0 <= i < |words| ==> after[i] == Pass(words[i], best)
    {
      after := words;
      var i := 0;
      while i < |after|
        invariant 0 <= i <= |after| == |words|
        invariant forall k :: 0 <= k < i ==> after[k] == Pass(words[k], best)
        invariant forall k :: i <= k < |words| ==> after[k] == words[k]
      {
        var word := MergeInWord(after[i], best.left, best.right, merged);
        LoopPassIsPass(words[i], best);
        after := after[i := word];
        i := i + 1;
      }
    }

    /** Replays the rules over one word. */
    method EncodeOneWord(text: string) returns (tokens: seq<string>)
      ensures tokens == Replay(Chars(text), merges, mergeOrder)
    {
      tokens := Chars(text);
      var k := 0;
      assert mergeOrder[..0] == [];
      while k < |mergeOrder|
        invariant 0 <= k <= |mergeOrder|
        invariant tokens == Replay(Chars(text), merges, mergeOrder[..k])
      {
        assert mergeOrder[..k + 1][..k] == mergeOrder[..k];
        var rule := mergeOrder[k];
        if rule in merges {
          tokens := MergeInWord(tokens, rule.left, rule.right, merges[rule]);
        }
        k := k + 1;
      }
      assert mergeOrder[..|mergeOrder|] == mergeOrder;
    }

    /** Appends the ids of the tokens, 0 standing for an unknown one. */
    method PushIds(before: seq<nat>, tokens: seq<string>) returns (result: seq<nat>)
      ensures result == before + Ids(vocab, tokens)
    {
      result := before;
      var t := 0;
      while t < |tokens|
        invariant 0 <= t <= |tokens|
        invariant result == before + Ids(vocab, tokens[..t])
      {
        result := result + [if tokens[t] in vocab then vocab[tokens[t]] else 0];
        assert Ids(vocab, tokens[..t + 1]) == Ids(vocab, tokens[..t]) + [IdOf(vocab, tokens[t])];
        t := t + 1;
      }
      assert tokens[..|tokens|] == tokens;
    }

    /** Encodes a text with the current contents. */
    method EncodeText(text: string) returns (result: seq<nat>)
      ensures result == Encode(Contents(), text, isSpace)
    {
      result := [];
      var texts, w := Words(text, isSpace), 0;
      assert texts[0..] == texts;
      while w < |texts|
        invariant 0 <= w <= |texts|
        invariant result + EncodeWords(Contents(), texts[w..]) == EncodeWords(Contents(), texts)
      {
        var tokens := EncodeOneWord(texts[w]);
        result := PushIds(result, tokens);
        assert texts[w..][1..] == texts[w + 1..];
        w := w + 1;
      }
    }
  }

  // ---------- Deciding on a retraining beforehand ----------

  /** A dry run went far enough: no pair was left, or its rules fill the room up to the size limit. */
  ghost predicate FarEnough(v: map<string, nat>, words: seq<string>, dry: seq<Pair>, vocabSize: nat) {
    (forall p :: Freq(RunAll(words, dry), p) == 0) || |VocabAfter(v, words, [])| + |dry| >= vocabSize
  }

  /** The k-th rule of a dry run falls within the room that vocabulary v leaves. */
  predicate WithinRoom(v: map<string, nat>, words: seq<string>, vocabSize: nat, k: nat) {
    |VocabAfter(v, words, [])| + k < vocabSize
  }

  /** Up to the first relearned key every rule takes one id, so it lies within the room and in the dry run. */
  lemma RetrainingFollowsDryRun(m0: Model, m: Model, ms: seq<Pair>, dry: seq<Pair>, words: seq<string>, vocabSize: nat,
                                k: nat)
    requires Bijection(m0.vocab) && Learned(words, dry) && Untied(words, dry)
    requires FarEnough(m0.vocab, words, dry, vocabSize)
    requires TrainingStep(m0, m, ms, words, vocabSize) && k < |ms|
    requires forall i :: 0 <= i < k ==> Merged(ms[i]) !in m0.vocab
    ensures WithinRoom(m0.vocab, words, vocabSize, k) && k < |dry| && ms[k] == dry[k]
  {
    LearnedAt(words, ms, k);
    RetrainedWithoutClash(m0.vocab, words, ms[..k]);
    if forall p :: Freq(RunAll(words, dry), p) == 0 {
      NothingAfterExhaustion(words, dry, ms);
    }
    UntiedAgree(words, dry, ms, k);
  }

  /** A retraining that relearns no key goes through every rule of the dry run that lies within the room. */
  lemma DryRunIsFollowed(m0: Model, m: Model, ms: seq<Pair>, dry: seq<Pair>, words: seq<string>, vocabSize: nat, k: nat)
    requires Bijection(m0.vocab) && Learned(words, dry) && Untied(words, dry)
    requires TrainingStep(m0, m, ms, words, vocabSize) && Finished(m, ms, words, vocabSize)
    requires forall i :: 0 <= i < |ms| ==> Merged(ms[i]) !in m0.vocab
    requires k < |dry| && WithinRoom(m0.vocab, words, vocabSize, k)
    ensures k < |ms| && ms[k] == dry[k]
  {
    RetrainedWithoutClash(m0.vocab, words, ms);
    if |ms| <= k {
      UntiedIsUnique(words, dry, ms);
      LearnedAt(words, dry, |ms|);
      assert false;
    } else {
      UntiedAgree(words, dry, ms, k);
    }
  }

  /**
   The exact check before the call: train a new tokenizer on the same corpus, far
   enough. If it never had to break a tie, retraining the old one up to vocabSize
   keeps its numbering exactly when the old one holds none of the strings that the
   new one learned within the room the old one has left.
   */
  lemma DryRunDecides(m0: Model, m: Model, ms: seq<Pair>, dry: seq<Pair>, words: seq<string>, vocabSize: nat)
    requires Bijection(m0.vocab) && Learned(words, dry) && Untied(words, dry)
    requires FarEnough(m0.vocab, words, dry, vocabSize)
    requires TrainingStep(m0, m, ms, words, vocabSize) && Finished(m, ms, words, vocabSize)
    ensures Bijection(m.vocab) <==>
      forall k :: 0 <= k < |dry| && WithinRoom(m0.vocab, words, vocabSize, k) ==> Merged(dry[k]) !in m0.vocab
  {
    RetrainKeepsBijectionIff(m0.vocab, words, ms);
    if j :| 0 <= j < |ms| && Merged(ms[j]) in m0.vocab {
      var c := FirstClash(m0.vocab, ms, j);
      RetrainingFollowsDryRun(m0, m, ms, dry, words, vocabSize, c);
    } else {
      forall k | 0 <= k < |dry| && WithinRoom(m0.vocab, words, vocabSize, k)
        ensures Merged(dry[k]) !in m0.vocab
      {
        DryRunIsFollowed(m0, m, ms, dry, words, vocabSize, k);
      }
    }
  }

  /**
   How large the vocabulary of a new tokenizer becomes: it reaches the requested
   size exactly unless there were too many characters or too few pairs.
   */
  lemma TrainedSize(m: Model, words: seq<string>, vocabSize: nat)
    requires TrainingStep(Model(map[], map[], []), m, m.mergeOrder, words, vocabSize)
    requires Finished(m, m.mergeOrder, words, vocabSize)
    ensures var chars := |set c | c in CorpusChars(words)|;
      && (chars >= vocabSize ==> |m.vocab| == chars && m.mergeOrder == [])
      && (chars < vocabSize ==> |m.vocab| <= vocabSize)
      && (|m.vocab| < vocabSize ==>
            forall i, p :: 0 <= i < |words| ==> Count(Run(Chars(words[i]), m.mergeOrder), p) == 0)
  {
    var ms := m.mergeOrder;
    FreshIdsAreBijection(words, ms);
    if ms != [] {
      assert |VocabAfter(map[], words, ms[..0])| < vocabSize;
      FreshIdsAreBijection(words, []);
      assert ms[..0] == [];
      LearnedAt(words, ms, |ms| - 1);
      FreshIdsAreBijection(words, ms[..|ms| - 1]);
    }
    if |m.vocab| < vocabSize {
      forall i, p | 0 <= i < |words|
        ensures Count(Run(Chars(words[i]), ms), p) == 0
      {
        FreqZero(RunAll(words, ms), p, i);
      }
    }
  }

  lemma {:induction false} FreqZero(segs: seq<seq<string>>, p: Pair, i: nat)
    requires Freq(segs, p) == 0 && i < |segs|
    ensures Count(segs[i], p) == 0
  {
    if i > 0 {
      FreqZero(segs[1..], p, i - 1);
    }
  }

  /**
   Training a new tokenizer and encoding the same text: the ids are a bijection,
   the encoding is the training segmentation, and mapping it back spells the text.
   */
  method TrainThenEncode(text: string, vocabSize: nat, isSpace: Space) returns (tok: Tokenizer, ids: seq<nat>)
    ensures fresh(tok) && tok.isSpace == isSpace
    ensures TrainedOn(tok.Contents(), Words(text, isSpace)) && Bijection(tok.vocab)
    ensures ids == IdsAll(tok.vocab, RunAll(Words(text, isSpace), tok.mergeOrder))
    ensures forall i :: 0 <= i < |ids| ==> HasId(tok.vocab, ids[i])
    ensures Decode(tok.vocab, ids) == Stripped(text, isSpace)
  {
    tok := new Tokenizer(isSpace);
    tok.Train(text, vocabSize);
    assert tok.mergeOrder[0..] == tok.mergeOrder;
    ids := tok.EncodeText(text);
    FreshIdsAreBijection(Words(text, isSpace), tok.mergeOrder);
    TrainingTextEncodesToSegmentation(tok.Contents(), text, isSpace);
    WordsSpellText(text, isSpace);
    VocabKeys(map[], Words(text, isSpace), tok.mergeOrder);
    var flat := Flatten(Words(text, isSpace));
    forall i | 0 <= i < |flat|
      ensures [flat[i]] in tok.vocab
    {
      assert Chars(flat)[i] == [flat[i]];
    }
    EncodeRoundTrip(tok.Contents(), Words(text, isSpace), text, isSpace);
  }
}
