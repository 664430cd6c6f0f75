/** `difflib.get_close_matches`, with the similarity ratio left abstract.

    `sim(candidate, word)` stands for `SequenceMatcher` with `candidate` as its first
    sequence and `word` as its second, the way `get_close_matches` builds it. */
module CloseMatches {
  import opened Strings
  import opened Sorting

  type Similarity = (string, string) -> real

  /** What the model assumes of a similarity ratio: it lies in [0, 1] and is 1 exactly
      for identical strings (the ratio 2*M/T of matched characters). */
  ghost predicate IsRatio(sim: Similarity) {
    forall a, b :: 0.0 <= sim(a, b) <= 1.0 && (sim(a, b) == 1.0 <==> a == b)
  }

  /** The entries of `possibilities` that reach `cutoff`, in their original order. */
  function Candidates(word: string, possibilities: seq<string>, cutoff: real, sim: Similarity): (r: seq<string>)
    ensures |r| <= |possibilities|
    ensures forall x :: x in r <==> x in possibilities && sim(x, word) >= cutoff
  {
    if possibilities == [] then []
    else
      var rest := Candidates(word, possibilities[1..], cutoff, sim);
      assert forall x :: x in possibilities <==> x == possibilities[0] || x in possibilities[1..];
      if sim(possibilities[0], word) >= cutoff then [possibilities[0]] + rest else rest
  }

  /** The order of `heapq.nlargest` on `(score, x)` pairs: higher score first and, on equal
      scores, the larger string first. */
  predicate RankedBefore(sim: Similarity, word: string, a: string, b: string) {
    sim(a, word) > sim(b, word) || (sim(a, word) == sim(b, word) && LexLess(b, a))
  }

  function Ranking(sim: Similarity, word: string): (string, string) -> bool {
    (a: string, b: string) => RankedBefore(sim, word, a, b)
  }

  /** `get_close_matches(word, possibilities, n, cutoff)` for `n >= 1` and `cutoff` in [0, 1]
      (the range check that raises `ValueError` is made by the caller). */
  function GetCloseMatches(word: string, possibilities: seq<string>, n: nat, cutoff: real, sim: Similarity): (r: seq<string>)
    ensures |r| <= n
    ensures forall i :: 0 <= i < |r| ==> r[i] in possibilities && sim(r[i], word) >= cutoff
  {
    var ranked := Sort(Candidates(word, possibilities, cutoff, sim), Ranking(sim, word));
    var r := if |ranked| <= n then ranked else ranked[..n];
    assert forall i :: 0 <= i < |r| ==> r[i] == ranked[i];
    assert forall i :: 0 <= i < |ranked| ==> ranked[i] in Candidates(word, possibilities, cutoff, sim) by {
      forall i | 0 <= i < |ranked| {
        SortMember(Candidates(word, possibilities, cutoff, sim), Ranking(sim, word), i);
      }
    }
    r
  }

  lemma RankingStrictWeak(sim: Similarity, word: string, u: seq<string>)
    ensures StrictWeakOn(Ranking(sim, word), u)
  {
    var less := Ranking(sim, word);
    forall i, j | 0 <= i < |u| && 0 <= j < |u| && less(u[i], u[j])
      ensures !less(u[j], u[i])
    {
      LexAsymmetric(u[j], u[i]);
    }
    forall i, j, k | 0 <= i < |u| && 0 <= j < |u| && 0 <= k < |u| && !less(u[i], u[j]) && !less(u[j], u[k])
      ensures !less(u[i], u[k])
    {
      var a, b, c := u[i], u[j], u[k];
      LexTotal(a, b);
      LexTotal(b, c);
      LexTotal(a, c);
      if LexLess(c, a) && sim(a, word) == sim(c, word) {
        // Equal scores all along: the strings are ordered a <= b <= c, contradicting c < a.
        assert sim(a, word) == sim(b, word) == sim(c, word);
        if a == b {
          LexAsymmetric(c, b);
        } else if b == c {
          LexAsymmetric(c, a);
        } else {
          LexTransitive(a, b, c);
          LexAsymmetric(a, c);
        }
      }
    }
  }

  /** The matches are the first entries of the ranked candidates. */
  lemma MatchesArePrefix(word: string, possibilities: seq<string>, n: nat, cutoff: real, sim: Similarity)
    ensures var ranked := Sort(Candidates(word, possibilities, cutoff, sim), Ranking(sim, word));
      var r := GetCloseMatches(word, possibilities, n, cutoff, sim);
      |r| <= |ranked| && r == ranked[..|r|]
  {
  }

  /** The ranked candidates never put a lower score before a higher one. */
  lemma RankedByScore(word: string, possibilities: seq<string>, cutoff: real, sim: Similarity)
    ensures var ranked := Sort(Candidates(word, possibilities, cutoff, sim), Ranking(sim, word));
      forall i, j :: 0 <= i < j < |ranked| ==> sim(ranked[i], word) >= sim(ranked[j], word)
  {
    var cands := Candidates(word, possibilities, cutoff, sim);
    var less := Ranking(sim, word);
    var ranked := Sort(cands, less);
    RankingStrictWeak(sim, word, cands);
    SortSorted(cands, less);
    forall i, j | 0 <= i < j < |ranked|
      ensures sim(ranked[i], word) >= sim(ranked[j], word)
    {
      assert !less(ranked[j], ranked[i]);
    }
  }

  /** Every candidate scores at most as high as the first ranked one. */
  lemma RankedTop(word: string, possibilities: seq<string>, cutoff: real, sim: Similarity, x: string)
    requires x in possibilities && sim(x, word) >= cutoff
    ensures var ranked := Sort(Candidates(word, possibilities, cutoff, sim), Ranking(sim, word));
      ranked != [] && sim(x, word) <= sim(ranked[0], word)
  {
    var cands := Candidates(word, possibilities, cutoff, sim);
    var ranked := Sort(cands, Ranking(sim, word));
    assert x in multiset(ranked) by {
      assert x in cands;
    }
    var m :| 0 <= m < |ranked| && ranked[m] == x;
    RankedByScore(word, possibilities, cutoff, sim);
  }

  /** The matches come best first, and so the first one scores at least as high as every
      entry of `possibilities` that reaches the cutoff. */
  lemma BestFirst(word: string, possibilities: seq<string>, n: nat, cutoff: real, sim: Similarity)
    ensures var r := GetCloseMatches(word, possibilities, n, cutoff, sim);
      && (forall i, j :: 0 <= i < j < |r| ==> sim(r[i], word) >= sim(r[j], word))
      && (r != [] ==> forall x :: x in possibilities && sim(x, word) >= cutoff ==> sim(x, word) <= sim(r[0], word))
  {
    var ranked := Sort(Candidates(word, possibilities, cutoff, sim), Ranking(sim, word));
    var r := GetCloseMatches(word, possibilities, n, cutoff, sim);
    MatchesArePrefix(word, possibilities, n, cutoff, sim);
    RankedByScore(word, possibilities, cutoff, sim);
    assert forall i :: 0 <= i < |r| ==> r[i] == ranked[i];
    forall x | x in possibilities && sim(x, word) >= cutoff
      ensures ranked != [] && sim(x, word) <= sim(ranked[0], word)
    {
      RankedTop(word, possibilities, cutoff, sim, x);
    }
  }

  /** No match at all exactly when no entry reaches the cutoff (for `n >= 1`). */
  lemma EmptyIff(word: string, possibilities: seq<string>, n: nat, cutoff: real, sim: Similarity)
    requires n >= 1
    ensures GetCloseMatches(word, possibilities, n, cutoff, sim) == []
        <==> forall x :: x in possibilities ==> sim(x, word) < cutoff
  {
    var cands := Candidates(word, possibilities, cutoff, sim);
    var ranked := Sort(cands, Ranking(sim, word));
    assert |ranked| == |cands| by {
      assert |multiset(ranked)| == |multiset(cands)|;
    }
    if cands != [] {
      assert cands[0] in possibilities;
    }
  }

  /** A word that is itself an entry is its own best match, since only it scores 1. */
  lemma ExactWordFirst(word: string, possibilities: seq<string>, n: nat, cutoff: real, sim: Similarity)
    requires IsRatio(sim)
    requires word in possibilities && n >= 1 && cutoff <= 1.0
    ensures var r := GetCloseMatches(word, possibilities, n, cutoff, sim); r != [] && r[0] == word
  {
    var r := GetCloseMatches(word, possibilities, n, cutoff, sim);
    assert sim(word, word) == 1.0;
    EmptyIff(word, possibilities, n, cutoff, sim);
    BestFirst(word, possibilities, n, cutoff, sim);
    assert sim(r[0], word) >= 1.0;
  }
}
