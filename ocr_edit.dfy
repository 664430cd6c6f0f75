/** `My_TS.is_edit_distance_at_most_one` of ocr.py, with its index errors. */
module OcrEdit {
  import opened Results

  /** The positions below `|s|` where `s` and `t` differ: the generator sum of ocr.py:34. */
  function Mismatches(s: string, t: string): nat
    requires |s| <= |t|
  {
    if s == [] then 0
    else Mismatches(s[..|s| - 1], t) + (if s[|s| - 1] != t[|s| - 1] then 1 else 0)
  }

  lemma {:induction false} MismatchesOfPrefix(s: string, t: string)
    requires |s| <= |t| && s == t[..|s|]
    ensures Mismatches(s, t) == 0
  {
    if s != [] {
      assert s[..|s| - 1] == t[..|s| - 1];
      MismatchesOfPrefix(s[..|s| - 1], t);
    }
  }

  /** `u` with its `k`-th character removed. */
  function Without(u: string, k: nat): string
    requires k < |u|
  {
    u[..k] + u[k + 1..]
  }

  /** `s` is `u` with exactly one character removed. */
  ghost predicate OneDeletion(s: string, u: string) {
    exists k :: 0 <= k < |u| && Without(u, k) == s
  }

  lemma DeletionAt(s: string, u: string, p: nat)
    requires |u| == |s| + 1 && p <= |s|
    requires s[..p] == u[..p] && s[p..] == u[p + 1..]
    ensures OneDeletion(s, u)
  {
    assert s == s[..p] + s[p..];
    assert Without(u, p) == s;
  }

  /** Two mismatches met by the greedy walk rule out every single deletion. */
  lemma NoSingleDeletion(s: string, u: string, p: nat, q: nat)
    requires |u| == |s| + 1 && p <= q < |s|
    requires s[..p] == u[..p] && s[p] != u[p]
    requires s[p..q] == u[p + 1..q + 1] && s[q] != u[q + 1]
    ensures !OneDeletion(s, u)
  {
    forall k | 0 <= k < |u|
      ensures Without(u, k) != s
    {
      var w := Without(u, k);
      if k > p {
        assert w[p] == u[p];
      } else {
        if q == p {
          assert w[q] == u[q + 1];
        } else {
          assert s[q - 1] == u[q];
          assert w[q] == u[q + 1];
        }
      }
    }
  }

  const IndexErrorMessage: string := "IndexError: string index out of range"

  /** The first pass of ocr.py:33-34: the mismatch count, or `IndexError` when `str2` is
      shorter than `str1`. */
  method CountMismatches(str1: string, str2: string) returns (r: Result<nat, string>)
    ensures r.Err? <==> |str2| < |str1|
    ensures r.Err? ==> r.error == IndexErrorMessage
    ensures r.Ok? ==> r.value == Mismatches(str1, str2)
  {
    var diffCount := 0;
    for i := 0 to |str1|
      invariant i <= |str2|
      invariant diffCount == Mismatches(str1[..i], str2)
    {
      if i >= |str2| {
        return Err(IndexErrorMessage);
      }
      assert str1[..i + 1][..i] == str1[..i];
      if str1[i] != str2[i] {
        diffCount := diffCount + 1;
      }
    }
    assert str1[..|str1|] == str1;
    return Ok(diffCount);
  }

  /** What the second pass knows after `i` characters of `str1` and `j` of `t`, having met
      `diffCount` mismatches: the first at `p` and, when there were two, the second at `q`. */
  ghost predicate WalkInv(str1: string, t: string, i: nat, j: nat, diffCount: nat, p: nat, q: nat) {
    i <= |str1| && i <= j <= |str1| + 1 && j <= |t| && j == i + diffCount
    && (diffCount == 0 ==> str1[..i] == t[..i])
    && (diffCount >= 1 ==> p <= i && p < |str1| && p < |t| && str1[..p] == t[..p] && str1[p] != t[p])
    && (diffCount == 1 ==> str1[p..i] == t[p + 1..j])
    && (diffCount >= 2 ==> p <= q < |str1| && q + 1 < |t| && str1[p..q] == t[p + 1..q + 1] && str1[q] != t[q + 1])
  }

  lemma WalkMatch(str1: string, t: string, i: nat, j: nat, diffCount: nat, p: nat, q: nat)
    requires WalkInv(str1, t, i, j, diffCount, p, q)
    requires i < |str1| && j < |str1| + 1 && j < |t| && str1[i] == t[j]
    ensures WalkInv(str1, t, i + 1, j + 1, diffCount, p, q)
  {
    if diffCount == 0 {
      assert str1[..i + 1] == str1[..i] + [str1[i]];
      assert t[..i + 1] == t[..i] + [t[i]];
    } else if diffCount == 1 {
      assert str1[p..i + 1] == str1[p..i] + [str1[i]];
      assert t[p + 1..j + 1] == t[p + 1..j] + [t[j]];
    }
  }

  lemma WalkMismatch(str1: string, t: string, i: nat, j: nat, diffCount: nat, p: nat, q: nat)
    requires WalkInv(str1, t, i, j, diffCount, p, q)
    requires i < |str1| && j < |str1| + 1 && j < |t| && str1[i] != t[j]
    ensures WalkInv(str1, t, i, j + 1, diffCount + 1,
      if diffCount == 0 then i else p, if diffCount == 1 then i else q)
  {
  }

  lemma WalkDone(str1: string, t: string, i: nat, j: nat, diffCount: nat, p: nat, q: nat)
    requires |str1| <= |t| && str1 != t[..|str1|]
    requires WalkInv(str1, t, i, j, diffCount, p, q)
    requires !(i < |str1| && j < |str1| + 1)
    ensures |t| > |str1| && (diffCount <= 1 <==> OneDeletion(str1, t[..|str1| + 1]))
  {
    if diffCount == 0 {
      assert false;
    }
    var u := t[..|str1| + 1];
    assert u[..p] == t[..p] && u[p] == t[p];
    if diffCount == 1 {
      assert str1[p..] == str1[p..i];
      assert u[p + 1..] == t[p + 1..j];
      DeletionAt(str1, u, p);
    } else {
      assert u[p + 1..q + 1] == t[p + 1..q + 1] && u[q + 1] == t[q + 1];
      NoSingleDeletion(str1, u, p, q);
    }
  }

  /** The second pass of ocr.py:39-49, over `t = str2 + ch`, once `str1` is known to differ
      from the start of `t`: `IndexError` exactly when `t` has no character beyond `|str1|`,
      and otherwise whether one deletion from `t[..|str1| + 1]` gives `str1`. */
  method WalkWithSkip(str1: string, t: string) returns (r: Result<bool, string>)
    requires |str1| <= |t| && str1 != t[..|str1|]
    ensures r.Err? <==> |t| == |str1|
    ensures r.Err? ==> r.error == IndexErrorMessage
    ensures r.Ok? ==> |t| > |str1| && (r.value <==> OneDeletion(str1, t[..|str1| + 1]))
  {
    var length := |str1|;
    var i, j, diffCount := 0, 0, 0;
    ghost var p, q := 0, 0;
    while i < length && j < length + 1
      invariant WalkInv(str1, t, i, j, diffCount, p, q)
      decreases length + 1 - j
    {
      if j >= |t| {
        return Err(IndexErrorMessage);
      }
      if str1[i] != t[j] {
        WalkMismatch(str1, t, i, j, diffCount, p, q);
        if diffCount == 0 {
          p := i;
        } else if diffCount == 1 {
          q := i;
        }
        diffCount := diffCount + 1;
        j := j + 1;
      } else {
        WalkMatch(str1, t, i, j, diffCount, p, q);
        i := i + 1;
        j := j + 1;
      }
    }
    WalkDone(str1, t, i, j, diffCount, p, q);
    r := Ok(diffCount <= 1);
  }

  /** `is_edit_distance_at_most_one(str1, str2, ch)` (ocr.py:32-49): true when `str1` and
      `str2` differ in at most one of the first `|str1|` positions; otherwise whether `str1`
      is `str2 + ch`, cut to one character more than `str1`, with one character deleted.
      Indexing past the end of `str2` (first pass) or of `str2 + ch` (second pass) raises
      `IndexError`. */
  method IsEditDistanceAtMostOne(str1: string, str2: string, ch: string) returns (r: Result<bool, string>)
    ensures r.Err? <==> |str2| < |str1| || (Mismatches(str1, str2) > 1 && |str2| + |ch| == |str1|)
    ensures r.Err? ==> r.error == IndexErrorMessage
    ensures r.Ok? ==> |str1| <= |str2| && (r.value <==>
      Mismatches(str1, str2) <= 1 || (|str2| + |ch| > |str1| && OneDeletion(str1, (str2 + ch)[..|str1| + 1])))
  {
    var diffCount :- CountMismatches(str1, str2);
    if diffCount <= 1 {
      return Ok(true);
    }
    var t := str2 + ch;
    assert t[..|str1|] == str2[..|str1|];
    if str1 == t[..|str1|] {
      MismatchesOfPrefix(str1, str2);
      assert false;
    }
    r := WalkWithSkip(str1, t);
  }
}
