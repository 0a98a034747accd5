/**
 The greedy merge pass shared by training and encoding, and what it does to a
 segmentation: it preserves the spelling, removes as many tokens as it finds
 pairs, leaves no such pair behind, and acts locally.
 */
module BpeGreedy {

  /** An ordered pair of adjacent tokens, i.e. one merge rule. */
  datatype Pair = Pair(left: string, right: string)

  function Merged(p: Pair): string {
    p.left + p.right
  }

  /** The one-character tokens every word starts from. */
  function Chars(w: string): seq<string> {
    seq(|w|, i requires 0 <= i < |w| => [w[i]])
  }

  function Flatten(ts: seq<string>): string {
    if ts == [] then "" else ts[0] + Flatten(ts[1..])
  }

  /**
   The in-place loop, read from the cursor on. A replacement leaves the cursor
   on the merged token, which is compared again with its new right neighbour.
   */
  function LoopPass(ts: seq<string>, left: string, right: string, merged: string): seq<string>
    decreases |ts|
  {
    if |ts| < 2 then ts
    else if ts[0] == left && ts[1] == right then LoopPass([merged] + ts[2..], left, right, merged)
    else [ts[0]] + LoopPass(ts[1..], left, right, merged)
  }

  /** One left-to-right, non-overlapping merge pass. */
  function Pass(ts: seq<string>, p: Pair): seq<string>
    decreases |ts|
  {
    if |ts| < 2 then ts
    else if ts[0] == p.left && ts[1] == p.right then [Merged(p)] + Pass(ts[2..], p)
    else [ts[0]] + Pass(ts[1..], p)
  }

  /** Passes for a list of rules, first rule first. */
  function Run(ts: seq<string>, ms: seq<Pair>): seq<string>
    decreases |ms|
  {
    if ms == [] then ts else Pass(Run(ts, ms[..|ms| - 1]), ms[|ms| - 1])
  }

  /** Number of windows of width two that equal the pair. */
  function Count(ts: seq<string>, p: Pair): nat
    decreases |ts|
  {
    if |ts| < 2 then 0
    else (if ts[0] == p.left && ts[1] == p.right then 1 else 0) + Count(ts[1..], p)
  }

  predicate NonEmptyTokens(ts: seq<string>) {
    forall i :: 0 <= i < |ts| ==> ts[i] != ""
  }

  // ---------- The loop computes the non-overlapping pass ----------

  lemma {:induction false} LoopPassIsPass(ts: seq<string>, p: Pair)
    requires p.right != ""
    ensures LoopPass(ts, p.left, p.right, Merged(p)) == Pass(ts, p)
    decreases |ts|
  {
    if |ts| >= 2 {
      if ts[0] == p.left && ts[1] == p.right {
        var again := [Merged(p)] + ts[2..];
        assert again[1..] == ts[2..];
        assert again[0] != p.left;
        LoopPassIsPass(ts[2..], p);
      } else {
        LoopPassIsPass(ts[1..], p);
      }
    }
  }

  /** The merged token is compared again: if it equals the left half it goes on absorbing right halves. */
  lemma {:induction false} MergedTokenIsRevisited(left: string, right: string, n: nat)
    requires left != right
    ensures LoopPass([left] + Repeat(right, n), left, right, left) == [left]
    decreases n
  {
    if n > 0 {
      var ts := [left] + Repeat(right, n);
      assert ts[2..] == Repeat(right, n - 1);
      MergedTokenIsRevisited(left, right, n - 1);
    }
  }

  // ---------- Spelling ----------

  lemma {:induction false} FlattenConcat(a: seq<string>, b: seq<string>)
    ensures Flatten(a + b) == Flatten(a) + Flatten(b)
  {
    if a == [] {
      assert a + b == b;
    } else {
      assert (a + b)[1..] == a[1..] + b;
      FlattenConcat(a[1..], b);
    }
  }

  lemma {:induction false} FlattenChars(w: string)
    ensures Flatten(Chars(w)) == w
  {
    if w != "" {
      assert Chars(w)[1..] == Chars(w[1..]);
      FlattenChars(w[1..]);
    }
  }

  lemma {:induction false} PassKeepsSpelling(ts: seq<string>, p: Pair)
    ensures Flatten(Pass(ts, p)) == Flatten(ts)
    decreases |ts|
  {
    if |ts| >= 2 {
      if ts[0] == p.left && ts[1] == p.right {
        PassKeepsSpelling(ts[2..], p);
        assert ts[1..][1..] == ts[2..];
        var rest := Pass(ts[2..], p);
        assert ([Merged(p)] + rest)[1..] == rest;
      } else {
        PassKeepsSpelling(ts[1..], p);
        var rest := Pass(ts[1..], p);
        assert ([ts[0]] + rest)[1..] == rest;
      }
    }
  }

  /** No list of rules changes what a segmentation spells. */
  lemma {:induction false} RunKeepsSpelling(ts: seq<string>, ms: seq<Pair>)
    ensures Flatten(Run(ts, ms)) == Flatten(ts)
    decreases |ms|
  {
    if ms != [] {
      RunKeepsSpelling(ts, ms[..|ms| - 1]);
      PassKeepsSpelling(Run(ts, ms[..|ms| - 1]), ms[|ms| - 1]);
    }
  }

  // ---------- Locality ----------

  /** How many tokens a pass consumes first, and what it puts there. */
  function FirstStep(ts: seq<string>, p: Pair): (nat, string)
    requires |ts| >= 2
  {
    if ts[0] == p.left && ts[1] == p.right then (2, Merged(p)) else (1, ts[0])
  }

  lemma PassBegins(ts: seq<string>, p: Pair)
    requires |ts| >= 2
    ensures var (n, head) := FirstStep(ts, p); Pass(ts, p) == [head] + Pass(ts[n..], p)
  {
  }

  /** Dropping tokens from the end does not change how a pass begins. */
  lemma PassBeginsAlike(ts: seq<string>, p: Pair, z: seq<string>)
    requires |ts| >= 2 && z <= ts[FirstStep(ts, p).0..]
    ensures var (n, head) := FirstStep(ts, p); Pass(ts[..n] + z, p) == [head] + Pass(z, p)
  {
    var n := FirstStep(ts, p).0;
    var y := ts[..n] + z;
    if |y| >= 2 {
      assert y[1] == ts[1] && y[n..] == z;
    }
  }

  lemma CutAfterHead(h: string, rest: seq<string>, c: seq<string>, d: seq<string>)
    requires [h] + rest == c + d && c != []
    ensures c == [h] + c[1..] && rest == c[1..] + d
  {
    assert ([h] + rest)[0] == h && ([h] + rest)[1..] == rest;
    assert (c + d)[0] == c[0] && (c + d)[1..] == c[1..] + d;
  }

  /** A cut through the output of a pass is a cut through its input. */
  lemma {:induction false} PassSplit(ys: seq<string>, p: Pair, c: seq<string>, d: seq<string>)
    returns (y1: seq<string>, y2: seq<string>)
    requires Pass(ys, p) == c + d
    ensures ys == y1 + y2 && Pass(y1, p) == c && Pass(y2, p) == d
    decreases |ys|
  {
    if c == [] {
      y1, y2 := [], ys;
      assert c + d == d;
    } else if |ys| < 2 {
      y1, y2 := c, d;
    } else {
      var n, head := FirstStep(ys, p).0, FirstStep(ys, p).1;
      PassBegins(ys, p);
      CutAfterHead(head, Pass(ys[n..], p), c, d);
      var z1, z2 := PassSplit(ys[n..], p, c[1..], d);
      y1, y2 := ys[..n] + z1, z2;
      assert ys == ys[..n] + ys[n..];
      PassBeginsAlike(ys, p, z1);
    }
  }

  lemma {:induction false} RunSplit(xs: seq<string>, ms: seq<Pair>, c: seq<string>, d: seq<string>)
    returns (x1: seq<string>, x2: seq<string>)
    requires Run(xs, ms) == c + d
    ensures xs == x1 + x2 && Run(x1, ms) == c && Run(x2, ms) == d
    decreases |ms|
  {
    if ms == [] {
      x1, x2 := c, d;
    } else {
      var y1, y2 := PassSplit(Run(xs, ms[..|ms| - 1]), ms[|ms| - 1], c, d);
      x1, x2 := RunSplit(xs, ms[..|ms| - 1], y1, y2);
    }
  }

  /**
   Locality: any run of consecutive tokens in the segmentation of a word is
   exactly what the same rules make of the substring it spells.
   */
  lemma Locality(w: string, ms: seq<Pair>, a: seq<string>, m: seq<string>, b: seq<string>)
    requires Run(Chars(w), ms) == a + m + b
    ensures Run(Chars(Flatten(m)), ms) == m
  {
    assert a + m + b == a + (m + b);
    var x1, x2 := RunSplit(Chars(w), ms, a, m + b);
    var y1, y2 := RunSplit(x2, ms, m, b);
    var lo, hi := |x1|, |x1| + |y1|;
    assert Chars(w) == x1 + y1 + y2;
    assert y1 == Chars(w)[lo..hi] == Chars(w[lo..hi]);
    RunKeepsSpelling(y1, ms);
    FlattenChars(w[lo..hi]);
  }

  // ---------- Merge arithmetic ----------

  /**
   A pass removes one token per counted window, except that windows of a
   repeated token overlap: then at least half of them are merged.
   */
  lemma {:induction false} PassLength(ts: seq<string>, p: Pair)
    ensures |Pass(ts, p)| <= |ts|
    ensures p.left != p.right ==> |Pass(ts, p)| == |ts| - Count(ts, p)
    ensures |ts| - |Pass(ts, p)| <= Count(ts, p) <= 2 * (|ts| - |Pass(ts, p)|)
    decreases |ts|
  {
    if |ts| >= 2 {
      if ts[0] == p.left && ts[1] == p.right {
        assert ts[1..][1..] == ts[2..];
        PassLength(ts[2..], p);
      } else {
        PassLength(ts[1..], p);
      }
    }
  }

  lemma {:induction false} CountSnoc(ts: seq<string>, t: string, p: Pair)
    requires ts != []
    ensures Count(ts + [t], p) == Count(ts, p) + if ts[|ts| - 1] == p.left && t == p.right then 1 else 0
    decreases |ts|
  {
    assert (ts + [t])[1..] == ts[1..] + [t];
    if |ts| > 1 {
      CountSnoc(ts[1..], t, p);
    }
  }

  predicate StandsAt(ts: seq<string>, p: Pair, i: nat) {
    i + 1 < |ts| && ts[i] == p.left && ts[i + 1] == p.right
  }

  lemma WindowsSnoc(ts: seq<string>, t: string, p: Pair)
    requires ts != []
    ensures (set i: nat | i < |ts| + 1 && StandsAt(ts + [t], p, i))
      == (set i: nat | i < |ts| && StandsAt(ts, p, i)) + if StandsAt(ts + [t], p, |ts| - 1) then {|ts| - 1} else {}
  {
    forall i: nat | i < |ts| - 1
      ensures StandsAt(ts + [t], p, i) <==> StandsAt(ts, p, i)
    {
    }
  }

  /** The count is the number of places at which the pair stands, overlapping ones included. */
  lemma {:induction false} CountIsWindows(ts: seq<string>, p: Pair)
    ensures Count(ts, p) == |set i: nat | i < |ts| && StandsAt(ts, p, i)|
    decreases |ts|
  {
    var places := set i: nat | i < |ts| && StandsAt(ts, p, i);
    if |ts| < 2 {
      assert places == {};
    } else {
      var n := |ts| - 1;
      var init := ts[..n];
      assert init + [ts[n]] == ts;
      CountIsWindows(init, p);
      CountSnoc(init, ts[n], p);
      WindowsSnoc(init, ts[n], p);
    }
  }

  function Repeat(t: string, n: nat): seq<string> {
    seq(n, _ => t)
  }

  /** A run of one token is paired off from the left; an odd one is left over at the right end. */
  lemma {:induction false} PassOnRepetition(t: string, n: nat)
    ensures Pass(Repeat(t, n), Pair(t, t)) == Repeat(t + t, n / 2) + Repeat(t, n % 2)
  {
    if n >= 2 {
      assert Repeat(t, n)[2..] == Repeat(t, n - 2);
      PassOnRepetition(t, n - 2);
      assert [t + t] + Repeat(t + t, (n - 2) / 2) == Repeat(t + t, n / 2);
    }
  }

  lemma {:induction false} RunLength(ts: seq<string>, ms: seq<Pair>)
    ensures |Run(ts, ms)| <= |ts|
    decreases |ms|
  {
    if ms != [] {
      RunLength(ts, ms[..|ms| - 1]);
      PassLength(Run(ts, ms[..|ms| - 1]), ms[|ms| - 1]);
    }
  }

  /** Running more rules afterwards never adds tokens. */
  lemma {:induction false} RunExtend(ts: seq<string>, ms: seq<Pair>, more: seq<Pair>)
    ensures Run(ts, ms + more) == Run(Run(ts, ms), more)
    ensures |Run(ts, ms + more)| <= |Run(ts, ms)|
    decreases |more|
  {
    if more == [] {
      assert ms + more == ms;
    } else {
      var init := more[..|more| - 1];
      assert (ms + more)[..|ms + more| - 1] == ms + init;
      RunExtend(ts, ms, init);
      PassLength(Run(ts, ms + init), more[|more| - 1]);
    }
  }

  lemma {:induction false} NonEmptyAlong(ts: seq<string>, p: Pair)
    requires NonEmptyTokens(ts) && p.right != ""
    ensures NonEmptyTokens(Pass(ts, p))
    decreases |ts|
  {
    if |ts| >= 2 {
      if ts[0] == p.left && ts[1] == p.right {
        NonEmptyAlong(ts[2..], p);
      } else {
        NonEmptyAlong(ts[1..], p);
      }
    }
  }

  /** After its own pass a pair of non-empty tokens is adjacent nowhere. */
  lemma {:induction false} PassClearsPair(ts: seq<string>, p: Pair)
    requires p.left != "" && p.right != ""
    ensures Count(Pass(ts, p), p) == 0
    ensures ts != [] ==> Pass(ts, p) != [] && Pass(ts, p)[0] in {ts[0], Merged(p)}
    decreases |ts|
  {
    if |ts| >= 2 {
      var n := if ts[0] == p.left && ts[1] == p.right then 2 else 1;
      var rest := Pass(ts[n..], p);
      PassClearsPair(ts[n..], p);
      assert Pass(ts, p)[1..] == rest;
      assert Merged(p) != p.left && Merged(p) != p.right;
    }
  }

  /** A counted pair sits somewhere, with a left and a right context. */
  lemma {:induction false} CountedPairOccurs(ts: seq<string>, p: Pair) returns (a: seq<string>, b: seq<string>)
    requires Count(ts, p) > 0
    ensures ts == a + [p.left, p.right] + b
    decreases |ts|
  {
    if ts[0] == p.left && ts[1] == p.right {
      a, b := [], ts[2..];
    } else {
      var a0, b0 := CountedPairOccurs(ts[1..], p);
      a, b := [ts[0]] + a0, b0;
    }
  }

  // ---------- Barriers ----------

  /** A token no rule mentions separates what is on its left from what is on its right. */
  lemma {:induction false} PassBarrier(a: seq<string>, u: string, b: seq<string>, p: Pair)
    requires p.left != u && p.right != u
    ensures Pass(a + [u] + b, p) == Pass(a, p) + [u] + Pass(b, p)
    decreases |a|
  {
    var ts := a + [u] + b;
    if a == [] {
      assert ts[1..] == b;
    } else if |a| == 1 {
      assert ts[1..] == [] + [u] + b;
      PassBarrier([], u, b, p);
    } else {
      var n := if a[0] == p.left && a[1] == p.right then 2 else 1;
      assert ts[n..] == a[n..] + [u] + b;
      PassBarrier(a[n..], u, b, p);
    }
  }

  lemma {:induction false} RunBarrier(a: seq<string>, u: string, b: seq<string>, ms: seq<Pair>)
    requires forall k :: 0 <= k < |ms| ==> ms[k].left != u && ms[k].right != u
    ensures Run(a + [u] + b, ms) == Run(a, ms) + [u] + Run(b, ms)
    decreases |ms|
  {
    if ms != [] {
      var init := ms[..|ms| - 1];
      RunBarrier(a, u, b, init);
      PassBarrier(Run(a, init), u, Run(b, init), ms[|ms| - 1]);
    }
  }

  // ---------- Where tokens come from ----------

  lemma {:induction false} PassTokens(ts: seq<string>, p: Pair, t: string)
    requires t in Pass(ts, p)
    ensures t in ts || t == Merged(p)
    decreases |ts|
  {
    if |ts| >= 2 {
      var n := if ts[0] == p.left && ts[1] == p.right then 2 else 1;
      if t in Pass(ts[n..], p) {
        PassTokens(ts[n..], p, t);
      }
    }
  }

  lemma {:induction false} RunTokens(ts: seq<string>, ms: seq<Pair>, t: string)
    requires t in Run(ts, ms)
    ensures t in ts || exists k :: 0 <= k < |ms| && t == Merged(ms[k])
    decreases |ms|
  {
    if ms != [] {
      var init := ms[..|ms| - 1];
      PassTokens(Run(ts, init), ms[|ms| - 1], t);
      if t in Run(ts, init) {
        RunTokens(ts, init, t);
        if t !in ts {
          var k :| 0 <= k < |init| && t == Merged(init[k]);
          assert ms[k] == init[k];
        }
      } else {
        assert t == Merged(ms[|ms| - 1]);
      }
    }
  }

  /** Once a string is a single token, no further rule changes that. */
  lemma {:induction false} SingleTokenStays(ts: seq<string>, ms: seq<Pair>, i: nat, j: nat, t: string)
    requires i <= j <= |ms|
    requires Run(ts, ms[..i]) == [t]
    ensures Run(ts, ms[..j]) == [t]
    decreases j
  {
    if i < j {
      SingleTokenStays(ts, ms, i, j - 1, t);
      assert ms[..j][..j - 1] == ms[..j - 1];
    }
  }
}
