/** The per-pixel rank tracker of the differentiating phase, as values: a list
    of K (score, colour) entries, the rank at which a new observation is
    inserted, and what the list becomes after an observation or a whole stream
    of them. The arrays `biggestDifferences[i][j]` and `mostDifferentPixels[i][j]`
    of a difference record hold the scores and the colours of one such list. */
module TopK {
  import opened Netpbm

  /** A score paired with the colour of the pixel that earned it. */
  datatype Entry = Entry(score: real, color: Pixel)

  /** The tracker before any image: K scores 0, K white colours. */
  function Initial(k: nat): (s: seq<Entry>)
    ensures |s| == k
    ensures forall n | 0 <= n < k :: s[n] == Entry(0.0, White)
  {
    seq(k, _ => Entry(0.0, White))
  }

  /** Scores never increase along the list. */
  predicate Descending(s: seq<Entry>) {
    forall a, b | 0 <= a < b < |s| :: s[a].score >= s[b].score
  }

  /** The `while (rank >= 0 && diff > ...) --rank; ++rank` scan: the start of
      the longest tail of s whose scores are all below d. */
  function SuffixStart(s: seq<Entry>, d: real): (r: nat)
    ensures r <= |s|
    ensures forall k | r <= k < |s| :: s[k].score < d
    ensures r == 0 || s[r - 1].score >= d
  {
    if |s| == 0 then 0
    else if s[|s| - 1].score < d then SuffixStart(s[..|s| - 1], d)
    else |s|
  }

  /** The three properties of SuffixStart pin it down. */
  lemma SuffixStartUnique(s: seq<Entry>, d: real, r: nat)
    requires r <= |s| && forall k | r <= k < |s| :: s[k].score < d
    requires r == 0 || s[r - 1].score >= d
    ensures SuffixStart(s, d) == r
  {
  }

  /** The O(1) test: only a score above the last slot's gets in. */
  predicate Accepts(s: seq<Entry>, d: real) {
    |s| > 0 && d > s[|s| - 1].score
  }

  /** e written at rank r, the entries from r on moved one slot down and the last one dropped. */
  function InsertAt(s: seq<Entry>, r: nat, e: Entry): seq<Entry>
    requires r < |s|
  {
    s[..r] + [e] + s[r..|s| - 1]
  }

  /** The tracker after observing e. */
  function Observed(s: seq<Entry>, e: Entry): (r: seq<Entry>)
    ensures |r| == |s|
  {
    if Accepts(s, e.score) then InsertAt(s, SuffixStart(s, e.score), e) else s
  }

  /** The tracker after observing es in order. */
  function ObserveAll(s: seq<Entry>, es: seq<Entry>): (r: seq<Entry>)
    ensures |r| == |s|
    decreases |es|
  {
    if |es| == 0 then s else Observed(ObserveAll(s, es[..|es| - 1]), es[|es| - 1])
  }

  /** Observing es and then e is observing es + [e]. */
  lemma ObserveAllSnoc(s: seq<Entry>, es: seq<Entry>, e: Entry)
    ensures ObserveAll(s, es + [e]) == Observed(ObserveAll(s, es), e)
  {
    assert (es + [e])[..|es|] == es;
  }

  lemma InsertAtIndex(s: seq<Entry>, r: nat, e: Entry, n: nat)
    requires r < |s| && n < |s|
    ensures |InsertAt(s, r, e)| == |s|
    ensures InsertAt(s, r, e)[n] == if n < r then s[n] else if n == r then e else s[n - 1]
  {
  }

  /** An accepted observation: its rank r lies inside the list, every entry
      before r scores at least as much (equal scores are not displaced), every
      entry from r on scores less, and the list is old[..r] + [e] + old[r..K-1]. */
  lemma AcceptedShape(s: seq<Entry>, e: Entry)
    requires Descending(s) && Accepts(s, e.score)
    ensures SuffixStart(s, e.score) < |s|
    ensures forall k | 0 <= k < SuffixStart(s, e.score) :: s[k].score >= e.score
    ensures forall k | SuffixStart(s, e.score) <= k < |s| :: s[k].score < e.score
    ensures var r := SuffixStart(s, e.score);
      Observed(s, e) == s[..r] + [e] + s[r..|s| - 1] && |Observed(s, e)| == |s|
  {
    var r := SuffixStart(s, e.score);
    forall k | 0 <= k < r ensures s[k].score >= e.score {
      assert s[k].score >= s[r - 1].score;
    }
  }

  /** A rejected observation leaves the list as it was. */
  lemma RejectedUnchanged(s: seq<Entry>, e: Entry)
    requires |s| > 0 && e.score <= s[|s| - 1].score
    ensures Observed(s, e) == s
  {
  }

  /** Observing keeps the list sorted from highest to lowest score. */
  lemma ObservedDescending(s: seq<Entry>, e: Entry)
    requires Descending(s)
    ensures Descending(Observed(s, e))
  {
    if Accepts(s, e.score) {
      var r := SuffixStart(s, e.score);
      AcceptedShape(s, e);
      var t := Observed(s, e);
      forall a, b | 0 <= a < b < |t| ensures t[a].score >= t[b].score {
        InsertAtIndex(s, r, e, a);
        InsertAtIndex(s, r, e, b);
      }
    }
  }

  /** An accepted observation trades the last entry for the new one. */
  lemma ObservedMultiset(s: seq<Entry>, e: Entry)
    requires Accepts(s, e.score)
    ensures multiset(Observed(s, e)) == multiset(s) - multiset{s[|s| - 1]} + multiset{e}
  {
    var r := SuffixStart(s, e.score);
    var n := |s| - 1;
    assert s == s[..r] + s[r..n] + [s[n]];
    calc {
      multiset(Observed(s, e));
      multiset(s[..r] + [e] + s[r..n]);
      multiset(s[..r]) + multiset{e} + multiset(s[r..n]);
      multiset(s[..r]) + multiset(s[r..n]) + multiset{s[n]} - multiset{s[n]} + multiset{e};
      multiset(s[..r] + s[r..n] + [s[n]]) - multiset{s[n]} + multiset{e};
    }
  }

  /** t holds, from highest to lowest score, K entries of the pool m, and no
      entry of m left out scores more than the lowest of t: the K best of m. */
  predicate IsTopK(t: seq<Entry>, m: multiset<Entry>, k: nat) {
    && k >= 1
    && |t| == k
    && Descending(t)
    && multiset(t) <= m
    && forall x | x in m - multiset(t) :: x.score <= t[k - 1].score
  }

  /** Adding e to the pool of a kept multiset t: what is left out is what was
      left out before, or e. */
  lemma PoolAddLeftOut<T>(t: multiset<T>, m: multiset<T>, e: T)
    requires t <= m
    ensures forall x | x in (m + multiset{e}) - t :: x in m - t || x == e
  {
  }

  /** Trading `last` for e in a kept multiset t while e joins the pool: the
      result stays inside the pool, and what is left out is what was left out
      before, or `last`. */
  lemma PoolTradeLeftOut<T>(t: multiset<T>, m: multiset<T>, last: T, e: T)
    requires t <= m && last in t
    ensures t - multiset{last} + multiset{e} <= m + multiset{e}
    ensures forall x | x in (m + multiset{e}) - (t - multiset{last} + multiset{e}) :: x in m - t || x == last
  {
  }

  /** One observation turns the K best of m into the K best of m with e added. */
  lemma ObservedKeepsTopK(t: seq<Entry>, m: multiset<Entry>, k: nat, e: Entry)
    requires IsTopK(t, m, k)
    ensures IsTopK(Observed(t, e), m + multiset{e}, k)
  {
    var t' := Observed(t, e);
    ObservedDescending(t, e);
    if Accepts(t, e.score) {
      AcceptedKeepsTopK(t, m, k, e);
    } else {
      PoolAddLeftOut(multiset(t), m, e);
    }
  }

  lemma AcceptedKeepsTopK(t: seq<Entry>, m: multiset<Entry>, k: nat, e: Entry)
    requires IsTopK(t, m, k) && Accepts(t, e.score)
    ensures IsTopK(Observed(t, e), m + multiset{e}, k)
  {
    var t' := Observed(t, e);
    var last := t[k - 1];
    var r := SuffixStart(t, e.score);
    ObservedDescending(t, e);
    AcceptedShape(t, e);
    ObservedMultiset(t, e);
    PoolTradeLeftOut(multiset(t), m, last, e);
    assert last.score <= t'[k - 1].score by {
      InsertAtIndex(t, r, e, k - 1);
      if r < k - 1 {
        assert t[k - 2].score >= t[k - 1].score;
      }
    }
  }

  /** Before any observation the tracker is trivially the K best of its own entries. */
  lemma InitialIsTopK(k: nat)
    requires k >= 1
    ensures IsTopK(Initial(k), multiset(Initial(k)), k)
  {
    var t := Initial(k);
    assert multiset(t) - multiset(t) == multiset{};
  }

  /** Observing a stream turns the K best of m into the K best of m with every
      observed entry added. */
  lemma {:induction false} ObserveAllKeepsTopK(t: seq<Entry>, m: multiset<Entry>, k: nat, es: seq<Entry>)
    requires IsTopK(t, m, k)
    ensures IsTopK(ObserveAll(t, es), m + multiset(es), k)
    decreases |es|
  {
    if |es| == 0 {
      assert m + multiset(es) == m;
    } else {
      var front := es[..|es| - 1];
      var e := es[|es| - 1];
      var before := ObserveAll(t, front);
      ObserveAllKeepsTopK(t, m, k, front);
      ObservedKeepsTopK(before, m + multiset(front), k, e);
      PoolSnoc(m, es);
      assert ObserveAll(t, es) == Observed(before, e);
    }
  }

  /** Adding a stream to a pool is adding all but its last entry, then the last. */
  lemma PoolSnoc<T>(m: multiset<T>, es: seq<T>)
    requires |es| > 0
    ensures m + multiset(es) == m + multiset(es[..|es| - 1]) + multiset{es[|es| - 1]}
  {
    assert es == es[..|es| - 1] + [es[|es| - 1]];
  }

  /** After any stream of observations the tracker holds, best first, the K
      best entries among the K initial ones and all those observed. */
  lemma ObserveAllIsTopK(k: nat, es: seq<Entry>)
    requires k >= 1
    ensures IsTopK(ObserveAll(Initial(k), es), multiset(Initial(k)) + multiset(es), k)
  {
    InitialIsTopK(k);
    ObserveAllKeepsTopK(Initial(k), multiset(Initial(k)), k, es);
  }

  /** A stream in which no score is positive leaves the initial tracker as it was. */
  lemma {:induction false} NoPositiveScoreKeepsInitial(k: nat, es: seq<Entry>)
    requires forall n | 0 <= n < |es| :: es[n].score <= 0.0
    ensures ObserveAll(Initial(k), es) == Initial(k)
    decreases |es|
  {
    if |es| > 0 {
      var front := es[..|es| - 1];
      assert forall n | 0 <= n < |front| :: front[n] == es[n];
      NoPositiveScoreKeepsInitial(k, front);
    }
  }
}
