/**
 Encoding: the learned rules are replayed in order over each word of a text, and
 every resulting token is looked up. The first laws hold of any tokenizer
 contents; the later ones of contents produced by training a new tokenizer.
 */
module BpeEncoding {
  import opened BpeGreedy
  import opened BpeText
  import opened BpeLearning

  /** The contents of a tokenizer. */
  datatype Model = Model(vocab: map<string, nat>, merges: map<Pair, string>, mergeOrder: seq<Pair>)

  /** Replay of the rules; one without an entry in the table is skipped. */
  function Replay(ts: seq<string>, merges: map<Pair, string>, order: seq<Pair>): seq<string>
    decreases |order|
  {
    if order == [] then ts
    else
      var before, p := Replay(ts, merges, order[..|order| - 1]), order[|order| - 1];
      if p in merges then LoopPass(before, p.left, p.right, merges[p]) else before
  }

  /** A token outside the vocabulary becomes id 0. */
  function IdOf(v: map<string, nat>, t: string): nat {
    if t in v then v[t] else 0
  }

  function Ids(v: map<string, nat>, ts: seq<string>): seq<nat> {
    seq(|ts|, i requires 0 <= i < |ts| => IdOf(v, ts[i]))
  }

  function EncodeWords(m: Model, words: seq<string>): seq<nat> {
    if words == [] then []
    else Ids(m.vocab, Replay(Chars(words[0]), m.merges, m.mergeOrder)) + EncodeWords(m, words[1..])
  }

  function Encode(m: Model, text: string, isSpace: Space): seq<nat> {
    EncodeWords(m, Words(text, isSpace))
  }

  /** The contents that training a new tokenizer on these words can leave behind. */
  ghost predicate TrainedOn(m: Model, words: seq<string>) {
    && Learned(words, m.mergeOrder)
    && m.vocab == VocabAfter(map[], words, m.mergeOrder)
    && m.merges == AddRules(map[], m.mergeOrder)
  }

  // ---------- Laws of every tokenizer ----------

  lemma {:induction false} LoopPassLength(ts: seq<string>, left: string, right: string, merged: string)
    ensures |LoopPass(ts, left, right, merged)| <= |ts|
    ensures ts != [] ==> LoopPass(ts, left, right, merged) != []
    decreases |ts|
  {
    if |ts| >= 2 {
      if ts[0] == left && ts[1] == right {
        LoopPassLength([merged] + ts[2..], left, right, merged);
      } else {
        LoopPassLength(ts[1..], left, right, merged);
      }
    }
  }

  lemma {:induction false} ReplayLength(ts: seq<string>, merges: map<Pair, string>, order: seq<Pair>, more: seq<Pair>)
    ensures |Replay(ts, merges, order + more)| <= |Replay(ts, merges, order)| <= |ts|
    ensures ts != [] ==> Replay(ts, merges, order + more) != []
    decreases |order| + |more|, |more|
  {
    if more != [] {
      var init, p := more[..|more| - 1], more[|more| - 1];
      assert (order + more)[..|order + more| - 1] == order + init;
      ReplayLength(ts, merges, order, init);
      if p in merges {
        LoopPassLength(Replay(ts, merges, order + init), p.left, p.right, merges[p]);
      }
    } else {
      assert order + more == order;
      if order != [] {
        var init, p := order[..|order| - 1], order[|order| - 1];
        ReplayLength(ts, merges, init, []);
        assert init + [] == init;
        if p in merges {
          LoopPassLength(Replay(ts, merges, init), p.left, p.right, merges[p]);
        }
      }
    }
  }

  /** A rule without an entry in the table is skipped, wherever it stands, and the later ones still apply. */
  lemma {:induction false} UnlistedRuleIsSkipped(ts: seq<string>, merges: map<Pair, string>, a: seq<Pair>, p: Pair,
                                                 b: seq<Pair>)
    requires p !in merges
    ensures Replay(ts, merges, a + [p] + b) == Replay(ts, merges, a + b)
    decreases |b|
  {
    if b == [] {
      assert a + [p] + b == a + [p] && a + b == a;
      assert (a + [p])[..|a|] == a;
    } else {
      var init := b[..|b| - 1];
      UnlistedRuleIsSkipped(ts, merges, a, p, init);
      assert (a + [p] + b)[..|a + [p] + b| - 1] == a + [p] + init;
      assert (a + b)[..|a + b| - 1] == a + init;
    }
  }

  /** A listed rule puts the table's string in the place of its two halves. */
  lemma ListedRuleUsesTable(merges: map<Pair, string>, p: Pair)
    requires p in merges
    ensures Replay([p.left, p.right], merges, [p]) == [merges[p]]
  {
    assert [p][..0] == [];
    assert [p.left, p.right][2..] == [];
    assert LoopPass([merges[p]] + [], p.left, p.right, merges[p]) == [merges[p]];
  }

  lemma {:induction false} EncodeWordsConcat(m: Model, a: seq<string>, b: seq<string>)
    ensures EncodeWords(m, a + b) == EncodeWords(m, a) + EncodeWords(m, b)
  {
    if a == [] {
      assert a + b == b;
    } else {
      assert (a + b)[1..] == a[1..] + b;
      EncodeWordsConcat(m, a[1..], b);
    }
  }

  /** Encoding distributes over a join by whitespace. */
  lemma EncodeJoin(m: Model, a: string, sp: char, b: string, isSpace: Space)
    requires isSpace(sp)
    ensures Encode(m, a + [sp] + b, isSpace) == Encode(m, a, isSpace) + Encode(m, b, isSpace)
  {
    WordsJoin(a, sp, b, isSpace);
    EncodeWordsConcat(m, Words(a, isSpace), Words(b, isSpace));
  }

  lemma {:induction false} EncodeWordsLength(m: Model, words: seq<string>, more: seq<Pair>)
    requires forall i :: 0 <= i < |words| ==> words[i] != ""
    ensures |words|
      <= |EncodeWords(m.(mergeOrder := m.mergeOrder + more), words)|
      <= |EncodeWords(m, words)|
      <= |Flatten(words)|
  {
    if words != [] {
      ReplayLength(Chars(words[0]), m.merges, m.mergeOrder, more);
      EncodeWordsLength(m, words[1..], more);
    }
  }

  /**
   At least one id per word, at most one per character that is not whitespace,
   and learning further rules never makes an encoding longer.
   */
  lemma EncodeLength(m: Model, more: seq<Pair>, text: string, isSpace: Space)
    ensures |Words(text, isSpace)|
      <= |Encode(m.(mergeOrder := m.mergeOrder + more), text, isSpace)|
      <= |Encode(m, text, isSpace)|
      <= |Stripped(text, isSpace)|
  {
    WordsAreWords(text, isSpace);
    WordsSpellText(text, isSpace);
    EncodeWordsLength(m, Words(text, isSpace), more);
  }

  // ---------- Replay after training ----------

  lemma {:induction false} RulesRecorded(ms: seq<Pair>)
    ensures forall p :: p in AddRules(map[], ms) <==> p in ms
    ensures forall p :: p in ms ==> AddRules(map[], ms)[p] == Merged(p)
    decreases |ms|
  {
    if ms != [] {
      RulesRecorded(ms[..|ms| - 1]);
      assert ms == ms[..|ms| - 1] + [ms[|ms| - 1]];
    }
  }

  lemma {:induction false} ReplayPrefix(m: Model, words: seq<string>, ts: seq<string>, n: nat)
    requires TrainedOn(m, words) && n <= |m.mergeOrder|
    ensures Replay(ts, m.merges, m.mergeOrder[..n]) == Run(ts, m.mergeOrder[..n])
    decreases n
  {
    if n > 0 {
      var p := m.mergeOrder[n - 1];
      ReplayPrefix(m, words, ts, n - 1);
      assert m.mergeOrder[..n][..n - 1] == m.mergeOrder[..n - 1];
      RulesRecorded(m.mergeOrder);
      assert p in m.mergeOrder;
      LearnedNonEmpty(words, m.mergeOrder, |m.mergeOrder|);
      LoopPassIsPass(Run(ts, m.mergeOrder[..n - 1]), p);
    }
  }

  /** After training no rule is skipped, and the loops compute the greedy passes. */
  lemma ReplayIsRun(m: Model, words: seq<string>, ts: seq<string>)
    requires TrainedOn(m, words)
    ensures forall k :: 0 <= k < |m.mergeOrder| ==> m.mergeOrder[k] in m.merges
    ensures Replay(ts, m.merges, m.mergeOrder) == Run(ts, m.mergeOrder)
  {
    RulesRecorded(m.mergeOrder);
    ReplayPrefix(m, words, ts, |m.mergeOrder|);
    assert m.mergeOrder[..|m.mergeOrder|] == m.mergeOrder;
  }

  lemma EncodeWord(m: Model, words: seq<string>, w: string, isSpace: Space)
    requires TrainedOn(m, words) && w != "" && NoSpace(w, isSpace)
    ensures Encode(m, w, isSpace) == Ids(m.vocab, Run(Chars(w), m.mergeOrder))
  {
    WordsOfWord(w, isSpace);
    ReplayIsRun(m, words, Chars(w));
    assert [w][1..] == [];
    assert EncodeWords(m, []) == [];
  }

  function IdsAll(v: map<string, nat>, segs: seq<seq<string>>): seq<nat> {
    if segs == [] then [] else Ids(v, segs[0]) + IdsAll(v, segs[1..])
  }

  lemma {:induction false} EncodeWordsIsRunAll(m: Model, words: seq<string>, ws: seq<string>)
    requires TrainedOn(m, words)
    ensures EncodeWords(m, ws) == IdsAll(m.vocab, RunAll(ws, m.mergeOrder))
  {
    if ws != [] {
      ReplayIsRun(m, words, Chars(ws[0]));
      EncodeWordsIsRunAll(m, words, ws[1..]);
      assert RunAll(ws, m.mergeOrder)[1..] == RunAll(ws[1..], m.mergeOrder);
    }
  }

  /** Encoding the training text yields the ids of the final training segmentation. */
  lemma TrainingTextEncodesToSegmentation(m: Model, text: string, isSpace: Space)
    requires TrainedOn(m, Words(text, isSpace))
    ensures Encode(m, text, isSpace) == IdsAll(m.vocab, RunAll(Words(text, isSpace), m.mergeOrder))
  {
    EncodeWordsIsRunAll(m, Words(text, isSpace), Words(text, isSpace));
  }

  // ---------- Stability ----------

  /** Any run of tokens of an encoded word, spelled out and encoded again, gives the same ids. */
  lemma SubstringReencodes(m: Model, words: seq<string>, w: string, a: seq<string>, mid: seq<string>,
                           b: seq<string>, isSpace: Space)
    requires TrainedOn(m, words) && NoSpace(w, isSpace)
    requires Run(Chars(w), m.mergeOrder) == a + mid + b
    requires Flatten(mid) != ""
    ensures Encode(m, Flatten(mid), isSpace) == Ids(m.vocab, mid)
  {
    Locality(w, m.mergeOrder, a, mid, b);
    RunKeepsSpelling(Chars(w), m.mergeOrder);
    FlattenChars(w);
    FlattenConcat(a + mid, b);
    FlattenConcat(a, mid);
    var lo, hi := |Flatten(a)|, |Flatten(a)| + |Flatten(mid)|;
    assert w == Flatten(a) + Flatten(mid) + Flatten(b);
    assert Flatten(mid) == w[lo..hi];
    EncodeWord(m, words, Flatten(mid), isSpace);
  }

  lemma {:induction false} FlattenIndex(words: seq<string>, i: nat) returns (j: nat, k: nat)
    requires i < |Flatten(words)|
    ensures j < |words| && k < |words[j]| && words[j][k] == Flatten(words)[i]
  {
    if i < |words[0]| {
      j, k := 0, i;
    } else {
      var j', k' := FlattenIndex(words[1..], i - |words[0]|);
      j, k := j' + 1, k';
    }
  }

  /** Keys of a trained vocabulary are non-empty pieces of corpus words, and one token each. */
  lemma KeyIsOneToken(m: Model, words: seq<string>, t: string, isSpace: Space)
    requires TrainedOn(m, words) && t in m.vocab
    requires forall i :: 0 <= i < |words| ==> NoSpace(words[i], isSpace)
    ensures t != "" && NoSpace(t, isSpace)
    ensures Run(Chars(t), m.mergeOrder) == [t]
  {
    var ms := m.mergeOrder;
    VocabKeys(map[], words, ms);
    if t in CorpusChars(words) {
      var i :| 0 <= i < |Flatten(words)| && t == [Flatten(words)[i]];
      var j, k := FlattenIndex(words, i);
      assert Chars(t) == [t];
      assert ms[..0] == [] && ms[..|ms|] == ms;
      SingleTokenStays(Chars(t), ms, 0, |ms|, t);
    } else {
      var k :| 0 <= k < |ms| && t == Merged(ms[k]);
      LearnedNonEmpty(words, ms, |ms|);
      LearnedSpelling(words, ms, k, |ms|);
      assert ms[..|ms|] == ms;
      var i, a, b := LearnedOccurs(words, ms, k);
      var lo, hi := |Flatten(a)|, |Flatten(a)| + |t|;
      assert t == words[i][lo..hi];
      assert forall x :: 0 <= x < |t| ==> t[x] == words[i][lo + x];
    }
  }

  /** Every learned token is reachable: its string encodes to its own id alone. */
  lemma KeyEncodesToItself(m: Model, text: string, t: string, isSpace: Space)
    requires TrainedOn(m, Words(text, isSpace)) && t in m.vocab
    ensures Encode(m, t, isSpace) == [m.vocab[t]]
  {
    WordsAreWords(text, isSpace);
    KeyIsOneToken(m, Words(text, isSpace), t, isSpace);
    EncodeWord(m, Words(text, isSpace), t, isSpace);
  }

  // ---------- Round trip ----------

  ghost function TokenOf(v: map<string, nat>, id: nat): string
    requires HasId(v, id)
  {
    var t :| t in v && v[t] == id; t
  }

  /** Maps ids back to strings and concatenates them. */
  ghost function Decode(v: map<string, nat>, ids: seq<nat>): string
    requires forall i :: 0 <= i < |ids| ==> HasId(v, ids[i])
  {
    if ids == [] then "" else TokenOf(v, ids[0]) + Decode(v, ids[1..])
  }

  predicate Known(v: map<string, nat>, s: string) {
    forall i :: 0 <= i < |s| ==> [s[i]] in v
  }

  lemma TokensOfKnownWord(m: Model, words: seq<string>, w: string)
    requires TrainedOn(m, words) && Known(m.vocab, w)
    ensures forall t :: t in Run(Chars(w), m.mergeOrder) ==> t in m.vocab
  {
    forall t | t in Run(Chars(w), m.mergeOrder)
      ensures t in m.vocab
    {
      RunTokens(Chars(w), m.mergeOrder, t);
      VocabKeys(map[], words, m.mergeOrder);
    }
  }

  lemma {:induction false} DecodeIds(v: map<string, nat>, ts: seq<string>)
    requires Bijection(v) && forall t :: t in ts ==> t in v
    ensures forall i :: 0 <= i < |ts| ==> HasId(v, Ids(v, ts)[i])
    ensures Decode(v, Ids(v, ts)) == Flatten(ts)
  {
    forall i | 0 <= i < |ts|
      ensures HasId(v, Ids(v, ts)[i])
    {
      assert ts[i] in v && v[ts[i]] == Ids(v, ts)[i];
    }
    if ts != [] {
      assert Ids(v, ts)[1..] == Ids(v, ts[1..]);
      assert TokenOf(v, IdOf(v, ts[0])) == ts[0];
      DecodeIds(v, ts[1..]);
    }
  }

  lemma {:induction false} DecodeConcat(v: map<string, nat>, a: seq<nat>, b: seq<nat>)
    requires forall i :: 0 <= i < |a| ==> HasId(v, a[i])
    requires forall i :: 0 <= i < |b| ==> HasId(v, b[i])
    ensures Decode(v, a + b) == Decode(v, a) + Decode(v, b)
  {
    if a == [] {
      assert a + b == b;
    } else {
      assert (a + b)[1..] == a[1..] + b;
      DecodeConcat(v, a[1..], b);
    }
  }

  lemma {:induction false} DecodeWords(m: Model, words: seq<string>, ws: seq<string>)
    requires TrainedOn(m, words) && Bijection(m.vocab) && Known(m.vocab, Flatten(ws))
    ensures forall i :: 0 <= i < |EncodeWords(m, ws)| ==> HasId(m.vocab, EncodeWords(m, ws)[i])
    ensures Decode(m.vocab, EncodeWords(m, ws)) == Flatten(ws)
  {
    if ws != [] {
      var whole, k := Flatten(ws), |ws[0]|;
      assert whole[..k] == ws[0] && whole[k..] == Flatten(ws[1..]);
      assert forall i :: 0 <= i < k ==> ws[0][i] == whole[i];
      assert forall i :: 0 <= i < |whole| - k ==> Flatten(ws[1..])[i] == whole[k + i];
      var ts := Run(Chars(ws[0]), m.mergeOrder);
      ReplayIsRun(m, words, Chars(ws[0]));
      TokensOfKnownWord(m, words, ws[0]);
      DecodeIds(m.vocab, ts);
      RunKeepsSpelling(Chars(ws[0]), m.mergeOrder);
      FlattenChars(ws[0]);
      DecodeWords(m, words, ws[1..]);
      DecodeConcat(m.vocab, Ids(m.vocab, ts), EncodeWords(m, ws[1..]));
    }
  }

  /** If every character of a text is known, its ids spell it, whitespace aside. */
  lemma EncodeRoundTrip(m: Model, words: seq<string>, text: string, isSpace: Space)
    requires TrainedOn(m, words) && Known(m.vocab, Stripped(text, isSpace))
    ensures forall i :: 0 <= i < |Encode(m, text, isSpace)| ==> HasId(m.vocab, Encode(m, text, isSpace)[i])
    ensures Decode(m.vocab, Encode(m, text, isSpace)) == Stripped(text, isSpace)
  {
    FreshIdsAreBijection(words, m.mergeOrder);
    WordsSpellText(text, isSpace);
    DecodeWords(m, words, Words(text, isSpace));
  }

  // ---------- Unseen characters ----------

  lemma {:induction false} FlattenMember(words: seq<string>, j: nat, k: nat)
    requires j < |words| && k < |words[j]|
    ensures [words[j][k]] in Chars(Flatten(words))
  {
    var whole := Flatten(words);
    if j == 0 {
      assert Chars(whole)[k] == [words[0][k]];
    } else {
      FlattenMember(words[1..], j - 1, k);
      var i :| 0 <= i < |Flatten(words[1..])| && Chars(Flatten(words[1..]))[i] == [words[j][k]];
      assert Chars(whole)[|words[0]| + i] == [words[j][k]];
    }
  }

  /** No learned rule mentions a character the vocabulary lacks. */
  lemma UnseenIsNoHalf(m: Model, words: seq<string>, u: char, k: nat)
    requires TrainedOn(m, words) && [u] !in m.vocab && k < |m.mergeOrder|
    ensures m.mergeOrder[k].left != [u] && m.mergeOrder[k].right != [u]
  {
    var p := m.mergeOrder[k];
    VocabKeys(map[], words, m.mergeOrder);
    var i, a, b := LearnedOccurs(words, m.mergeOrder, k);
    if p.left == [u] {
      assert words[i][|Flatten(a)|] == u;
      FlattenMember(words, i, |Flatten(a)|);
      assert false;
    }
    if p.right == [u] {
      assert Merged(p)[|p.left|] == u;
      assert words[i][|Flatten(a)| + |p.left|] == u;
      FlattenMember(words, i, |Flatten(a)| + |p.left|);
      assert false;
    }
  }

  lemma EncodeWordOrEmpty(m: Model, words: seq<string>, w: string, isSpace: Space)
    requires TrainedOn(m, words) && NoSpace(w, isSpace)
    ensures Encode(m, w, isSpace) == Ids(m.vocab, Run(Chars(w), m.mergeOrder))
  {
    if w == "" {
      assert Chars(w) == [];
      RunLength([], m.mergeOrder);
      assert Run([], m.mergeOrder) == [];
      assert Words(w, isSpace) == [];
    } else {
      EncodeWord(m, words, w, isSpace);
    }
  }

  lemma UnseenSegmentation(m: Model, words: seq<string>, a: string, u: char, b: string)
    requires TrainedOn(m, words) && [u] !in m.vocab
    ensures Ids(m.vocab, Run(Chars(a + [u] + b), m.mergeOrder))
      == Ids(m.vocab, Run(Chars(a), m.mergeOrder)) + [0] + Ids(m.vocab, Run(Chars(b), m.mergeOrder))
  {
    assert Chars(a + [u] + b) == Chars(a) + [[u]] + Chars(b);
    forall k | 0 <= k < |m.mergeOrder|
      ensures m.mergeOrder[k].left != [u] && m.mergeOrder[k].right != [u]
    {
      UnseenIsNoHalf(m, words, u, k);
    }
    RunBarrier(Chars(a), [u], Chars(b), m.mergeOrder);
  }

  lemma UnseenInWord(m: Model, words: seq<string>, a: string, u: char, b: string, isSpace: Space)
    requires TrainedOn(m, words) && [u] !in m.vocab
    requires NoSpace(a + [u] + b, isSpace)
    ensures Encode(m, a + [u] + b, isSpace) == Encode(m, a, isSpace) + [0] + Encode(m, b, isSpace)
  {
    var w := a + [u] + b;
    assert forall i :: 0 <= i < |a| ==> a[i] == w[i];
    assert forall i :: 0 <= i < |b| ==> b[i] == w[|a| + 1 + i];
    EncodeWord(m, words, w, isSpace);
    EncodeWordOrEmpty(m, words, a, isSpace);
    EncodeWordOrEmpty(m, words, b, isSpace);
    UnseenSegmentation(m, words, a, u, b);
  }

  /** An unseen character is one token with id 0 and separates what is on its two sides. */
  lemma {:induction false} UnseenCharacterIsBarrier(m: Model, words: seq<string>, a: string, u: char, b: string,
                                                    isSpace: Space)
    requires TrainedOn(m, words) && [u] !in m.vocab && !isSpace(u)
    ensures Encode(m, a + [u] + b, isSpace) == Encode(m, a, isSpace) + [0] + Encode(m, b, isSpace)
    decreases |a| + |b|
  {
    if i :| 0 <= i < |a| && isSpace(a[i]) {
      var a1, a2 := a[..i], a[i + 1..];
      assert a == a1 + [a[i]] + a2;
      assert a + [u] + b == a1 + [a[i]] + (a2 + [u] + b);
      EncodeJoin(m, a1, a[i], a2, isSpace);
      EncodeJoin(m, a1, a[i], a2 + [u] + b, isSpace);
      UnseenCharacterIsBarrier(m, words, a2, u, b, isSpace);
    } else if i :| 0 <= i < |b| && isSpace(b[i]) {
      var b1, b2 := b[..i], b[i + 1..];
      assert b == b1 + [b[i]] + b2;
      assert a + [u] + b == (a + [u] + b1) + [b[i]] + b2;
      EncodeJoin(m, b1, b[i], b2, isSpace);
      EncodeJoin(m, a + [u] + b1, b[i], b2, isSpace);
      UnseenCharacterIsBarrier(m, words, a, u, b1, isSpace);
    } else {
      UnseenInWord(m, words, a, u, b, isSpace);
    }
  }

  /** The id-0 fallback is taken for unseen characters only. */
  lemma FallbackOnlyForUnseen(m: Model, words: seq<string>, w: string, t: string)
    requires TrainedOn(m, words) && t in Run(Chars(w), m.mergeOrder) && t !in m.vocab
    ensures exists i :: 0 <= i < |w| && t == [w[i]]
  {
    RunTokens(Chars(w), m.mergeOrder, t);
    VocabKeys(map[], words, m.mergeOrder);
  }

  // ---------- The u32 cast ----------

  const U32 := 0x1_0000_0000

  /** Ids are stored as 32-bit numbers; they stay distinct exactly up to 2^32 tokens. */
  lemma TruncatedIdsDistinctIff(v: map<string, nat>)
    requires Bijection(v)
    ensures (forall s, t :: s in v && t in v && v[s] % U32 == v[t] % U32 ==> s == t) <==> |v| <= U32
  {
    if |v| > U32 {
      assert HasId(v, 0) && HasId(v, U32);
      var s :| s in v && v[s] == 0;
      var t :| t in v && v[t] == U32;
      assert v[s] % U32 == v[t] % U32 && s != t;
    }
  }
}
