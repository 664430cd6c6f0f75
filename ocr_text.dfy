/** The text-box geometry of ocr.py: reading-order sort, line merging, containment with a
    tolerance, translation by a crop origin, and the polygon-to-box step. */
module OcrText {
  import opened Geometry
  import opened Sorting

  /** One recognised fragment: its text, its box `[x_min, x_max, y_min, y_max]` and the
      recogniser's confidence. */
  datatype TextBox = TextBox(rawText: string, box: Rect, score: real)

  /** The comparator of `sort_text`: fragments whose top edges are within 7 px are on one
      row and ordered by left edge; otherwise by top edge. */
  function Compare(a: TextBox, b: TextBox): int {
    if Abs(a.box.top - b.box.top) <= 7 then a.box.left - b.box.left else a.box.top - b.box.top
  }

  /** `a` must be placed before `b` (`cmp_to_key` turns a negative comparison into `<`). */
  predicate Before(a: TextBox, b: TextBox) {
    Compare(a, b) < 0
  }

  /** `sort_text`. */
  function SortText(text: seq<TextBox>): (r: seq<TextBox>)
    ensures multiset(r) == multiset(text)
  {
    Sort(text, Before)
  }

  /** On a single row the comparator orders by left edge alone, which is a strict weak order. */
  lemma SameRowStrictWeak(s: seq<TextBox>)
    requires forall i, j :: 0 <= i < |s| && 0 <= j < |s| ==> Abs(s[i].box.top - s[j].box.top) <= 7
    ensures StrictWeakOn(Before, s)
  {
    assert forall i, j :: 0 <= i < |s| && 0 <= j < |s| ==> (Before(s[i], s[j]) <==> s[i].box.left < s[j].box.left);
  }

  /** On rows more than 7 px apart the comparator orders by top edge alone. */
  lemma SeparateRowsStrictWeak(s: seq<TextBox>)
    requires forall i, j :: 0 <= i < |s| && 0 <= j < |s| && i != j ==> Abs(s[i].box.top - s[j].box.top) > 7
    ensures StrictWeakOn(Before, s)
  {
    assert forall i, j :: 0 <= i < |s| && 0 <= j < |s| ==> (Before(s[i], s[j]) <==> s[i].box.top < s[j].box.top) by {
      forall i, j | 0 <= i < |s| && 0 <= j < |s|
        ensures Before(s[i], s[j]) <==> s[i].box.top < s[j].box.top
      {
        if i == j {
          assert Compare(s[i], s[j]) == 0;
        }
      }
    }
  }

  /** Fragments all on one row come out in ascending order of their left edges. */
  lemma SortTextOneRow(text: seq<TextBox>)
    requires forall i, j :: 0 <= i < |text| && 0 <= j < |text| ==> Abs(text[i].box.top - text[j].box.top) <= 7
    ensures var r := SortText(text);
      forall i, j :: 0 <= i < j < |r| ==> r[i].box.left <= r[j].box.left
  {
    var r := SortText(text);
    SameRowStrictWeak(text);
    SortSorted(text, Before);
    forall i, j | 0 <= i < j < |r|
      ensures r[i].box.left <= r[j].box.left
    {
      SortMember(text, Before, i);
      SortMember(text, Before, j);
      assert !Before(r[j], r[i]);
    }
  }

  /** Two fragments of such an input that the sort leaves in order are in order of top edge. */
  lemma SeparateRowsPair(text: seq<TextBox>, x: TextBox, y: TextBox)
    requires forall i, j :: 0 <= i < |text| && 0 <= j < |text| && i != j ==> Abs(text[i].box.top - text[j].box.top) > 7
    requires x in text && y in text && !Before(y, x)
    ensures x.box.top <= y.box.top
  {
    if x != y {
      var a :| 0 <= a < |text| && text[a] == x;
      var b :| 0 <= b < |text| && text[b] == y;
      assert Abs(text[b].box.top - text[a].box.top) > 7;
    }
  }

  /** Fragments on rows pairwise more than 7 px apart come out in ascending order of their
      top edges. */
  lemma SortTextSeparateRows(text: seq<TextBox>)
    requires forall i, j :: 0 <= i < |text| && 0 <= j < |text| && i != j ==> Abs(text[i].box.top - text[j].box.top) > 7
    ensures var r := SortText(text);
      forall i, j :: 0 <= i < j < |r| ==> r[i].box.top <= r[j].box.top
  {
    var r := SortText(text);
    SeparateRowsStrictWeak(text);
    SortSorted(text, Before);
    forall i, j | 0 <= i < j < |r|
      ensures r[i].box.top <= r[j].box.top
    {
      SortMember(text, Before, i);
      SortMember(text, Before, j);
      SeparateRowsPair(text, r[i], r[j]);
    }
  }

  /** The test `merge` makes between the line built so far and the next fragment: tops and
      bottoms within 10 px, and the next left edge within 35 px of the current right edge,
      on either side. */
  predicate MergeTest(acc: TextBox, next: TextBox) {
    && Abs(next.box.top - acc.box.top) <= 10
    && Abs(next.box.bottom - acc.box.bottom) <= 10
    && Abs(next.box.left - acc.box.right) <= 35
  }

  /** Appends the next fragment's text and moves the right edge to the next fragment's. */
  function Absorb(acc: TextBox, next: TextBox): TextBox {
    acc.(rawText := acc.rawText + next.rawText, box := acc.box.(right := next.box.right))
  }

  /** The lines `merge` emits from the line `acc` built so far and the fragments still to scan. */
  function MergeFrom(acc: TextBox, rest: seq<TextBox>): seq<TextBox>
    decreases |rest|
  {
    if rest == [] then [acc]
    else if MergeTest(acc, rest[0]) then MergeFrom(Absorb(acc, rest[0]), rest[1..])
    else [acc] + MergeFrom(rest[0], rest[1..])
  }

  /** The lines of an already sorted fragment list. */
  function MergeLines(s: seq<TextBox>): seq<TextBox> {
    if s == [] then [] else MergeFrom(s[0], s[1..])
  }

  /** `merge`: sort, then merge. */
  function MergeSpec(text: seq<TextBox>): seq<TextBox> {
    MergeLines(SortText(text))
  }

  /** `merge`, as the accumulator loop of ocr.py:61-75. */
  method Merge(text: seq<TextBox>) returns (res: seq<TextBox>)
    ensures res == MergeSpec(text)
  {
    if |text| == 0 {
      return text;
    }
    var sorted := SortText(text);
    assert |sorted| == |text| by {
      assert |multiset(sorted)| == |multiset(text)|;
    }
    res := [];
    var merged := sorted[0];
    var i := 1;
    while i < |sorted|
      invariant 1 <= i <= |sorted|
      invariant MergeLines(sorted) == res + MergeFrom(merged, sorted[i..])
    {
      var next := sorted[i];
      assert sorted[i..][1..] == sorted[i + 1..];
      if Abs(next.box.top - merged.box.top) <= 10 && Abs(next.box.bottom - merged.box.bottom) <= 10
         && Abs(next.box.left - merged.box.right) <= 35 {
        merged := merged.(rawText := merged.rawText + next.rawText, box := merged.box.(right := next.box.right));
      } else {
        res := res + [merged];
        merged := next;
      }
      i := i + 1;
    }
    res := res + [merged];
  }

  /** All the fragments' texts, one after another. */
  function Texts(s: seq<TextBox>): string {
    if s == [] then [] else s[0].rawText + Texts(s[1..])
  }

  lemma {:induction false} TextsAppend(a: seq<TextBox>, b: seq<TextBox>)
    ensures Texts(a + b) == Texts(a) + Texts(b)
  {
    if a == [] {
      assert a + b == b;
    } else {
      assert (a + b)[1..] == a[1..] + b;
      TextsAppend(a[1..], b);
    }
  }

  /** The line a run of fragments merges into: the first fragment's left edge, top, bottom
      and score, the last fragment's right edge, and all the texts. */
  function Fold(g: seq<TextBox>): TextBox
    requires |g| > 0
  {
    TextBox(Texts(g), Rect(g[0].box.left, g[|g| - 1].box.right, g[0].box.top, g[0].box.bottom), g[0].score)
  }

  lemma FoldSnoc(g: seq<TextBox>, x: TextBox)
    requires |g| > 0
    ensures Fold(g + [x]) == Absorb(Fold(g), x)
  {
    TextsAppend(g, [x]);
    assert Texts([x]) == x.rawText;
  }

  lemma FoldSingle(x: TextBox)
    ensures Fold([x]) == x
  {
    assert Texts([x]) == x.rawText + Texts([]);
  }

  /** The runs `merge` groups the fragments into, the current run being `acc`. */
  function GroupsFrom(acc: seq<TextBox>, rest: seq<TextBox>): (r: seq<seq<TextBox>>)
    requires |acc| > 0
    ensures |r| > 0 && forall k :: 0 <= k < |r| ==> |r[k]| > 0
    decreases |rest|
  {
    if rest == [] then [acc]
    else if MergeTest(Fold(acc), rest[0]) then GroupsFrom(acc + [rest[0]], rest[1..])
    else [acc] + GroupsFrom([rest[0]], rest[1..])
  }

  /** The runs of a sorted fragment list. */
  function Groups(s: seq<TextBox>): (r: seq<seq<TextBox>>)
    ensures forall k :: 0 <= k < |r| ==> |r[k]| > 0
  {
    if s == [] then [] else GroupsFrom([s[0]], s[1..])
  }

  function Flatten(gs: seq<seq<TextBox>>): seq<TextBox> {
    if gs == [] then [] else gs[0] + Flatten(gs[1..])
  }

  function FoldAll(gs: seq<seq<TextBox>>): (r: seq<TextBox>)
    requires forall k :: 0 <= k < |gs| ==> |gs[k]| > 0
    ensures |r| == |gs|
  {
    seq(|gs|, k requires 0 <= k < |gs| => Fold(gs[k]))
  }

  /** Every fragment of a run after the first passed the merge test against the run so far. */
  ghost predicate Absorbed(g: seq<TextBox>) {
    forall k :: 0 < k < |g| ==> MergeTest(Fold(g[..k]), g[k])
  }

  /** The first fragment of each run failed the merge test against the previous run. */
  ghost predicate Split(gs: seq<seq<TextBox>>)
    requires forall k :: 0 <= k < |gs| ==> |gs[k]| > 0
  {
    forall k :: 0 <= k < |gs| - 1 ==> !MergeTest(Fold(gs[k]), gs[k + 1][0])
  }

  /** What `GroupsFrom(acc, rest)` is to `merge`: the lines are the folds of the runs, the
      runs concatenate to the input, and the runs are absorbed and split as `merge` tests. */
  ghost predicate GroupedAs(acc: seq<TextBox>, rest: seq<TextBox>)
    requires |acc| > 0
  {
    var gs := GroupsFrom(acc, rest);
    && MergeFrom(Fold(acc), rest) == FoldAll(gs)
    && Flatten(gs) == acc + rest
    && (forall k :: 0 <= k < |gs| ==> Absorbed(gs[k]))
    && Split(gs)
  }

  lemma {:induction false} MergeFromGroups(acc: seq<TextBox>, rest: seq<TextBox>)
    requires |acc| > 0 && Absorbed(acc)
    ensures GroupedAs(acc, rest)
    decreases |rest|, 1
  {
    if rest == [] {
      assert acc + rest == acc;
    } else if MergeTest(Fold(acc), rest[0]) {
      AbsorbCase(acc, rest);
    } else {
      FoldSingle(rest[0]);
      MergeFromGroups([rest[0]], rest[1..]);
      SplitStep(acc, rest);
    }
  }

  lemma {:induction false} AbsorbCase(acc: seq<TextBox>, rest: seq<TextBox>)
    requires |acc| > 0 && Absorbed(acc) && rest != [] && MergeTest(Fold(acc), rest[0])
    ensures GroupedAs(acc, rest)
    decreases |rest|, 0
  {
    AbsorbStep(acc, rest[0]);
    MergeFromGroups(acc + [rest[0]], rest[1..]);
    assert acc + [rest[0]] + rest[1..] == acc + rest;
  }

  lemma AbsorbStep(acc: seq<TextBox>, x: TextBox)
    requires |acc| > 0 && Absorbed(acc) && MergeTest(Fold(acc), x)
    ensures Absorbed(acc + [x]) && Fold(acc + [x]) == Absorb(Fold(acc), x)
  {
    var acc' := acc + [x];
    FoldSnoc(acc, x);
    assert acc'[..|acc|] == acc;
    forall k | 0 < k < |acc'|
      ensures MergeTest(Fold(acc'[..k]), acc'[k])
    {
      if k < |acc| {
        assert acc'[..k] == acc[..k];
      }
    }
  }

  lemma SplitStep(acc: seq<TextBox>, rest: seq<TextBox>)
    requires |acc| > 0 && Absorbed(acc) && rest != [] && !MergeTest(Fold(acc), rest[0])
    requires GroupedAs([rest[0]], rest[1..]) && Fold([rest[0]]) == rest[0]
    ensures GroupedAs(acc, rest)
  {
    var tail := GroupsFrom([rest[0]], rest[1..]);
    assert GroupsFrom(acc, rest) == [acc] + tail;
    assert [rest[0]] + rest[1..] == rest;
    FoldAllCons(acc, tail);
    FlattenCons(acc, tail);
    FlattenHead(tail);
    SplitCons(acc, tail);
    AbsorbedCons(acc, tail);
  }

  lemma FoldAllCons(g: seq<TextBox>, tail: seq<seq<TextBox>>)
    requires |g| > 0 && forall k :: 0 <= k < |tail| ==> |tail[k]| > 0
    ensures FoldAll([g] + tail) == [Fold(g)] + FoldAll(tail)
  {
  }

  lemma FlattenCons(g: seq<TextBox>, tail: seq<seq<TextBox>>)
    ensures Flatten([g] + tail) == g + Flatten(tail)
  {
    assert ([g] + tail)[1..] == tail;
  }

  lemma SplitCons(g: seq<TextBox>, tail: seq<seq<TextBox>>)
    requires |g| > 0 && |tail| > 0 && forall k :: 0 <= k < |tail| ==> |tail[k]| > 0
    requires Split(tail) && !MergeTest(Fold(g), tail[0][0])
    ensures Split([g] + tail)
  {
    var gs := [g] + tail;
    forall k | 0 <= k < |gs| - 1
      ensures !MergeTest(Fold(gs[k]), gs[k + 1][0])
    {
      if k > 0 {
        assert gs[k] == tail[k - 1] && gs[k + 1] == tail[k];
      }
    }
  }

  lemma AbsorbedCons(g: seq<TextBox>, tail: seq<seq<TextBox>>)
    requires Absorbed(g) && forall k :: 0 <= k < |tail| ==> Absorbed(tail[k])
    ensures forall k :: 0 <= k < |[g] + tail| ==> Absorbed(([g] + tail)[k])
  {
    var gs := [g] + tail;
    forall k | 0 <= k < |gs|
      ensures Absorbed(gs[k])
    {
      if k > 0 {
        assert gs[k] == tail[k - 1];
      }
    }
  }

  lemma FlattenHead(gs: seq<seq<TextBox>>)
    requires |gs| > 0 && |gs[0]| > 0
    ensures Flatten(gs)[0] == gs[0][0]
  {
  }

  /** The heart of `merge`: the sorted fragments split into consecutive runs; each output
      line is the fold of one run; every fragment of a run passed the merge test against
      the run so far, and the first fragment of the next run failed it. */
  lemma MergeLinesGroups(s: seq<TextBox>)
    ensures var gs := Groups(s);
      && MergeLines(s) == FoldAll(gs)
      && Flatten(gs) == s
      && (forall k :: 0 <= k < |gs| ==> Absorbed(gs[k]))
      && Split(gs)
  {
    if s != [] {
      FoldSingle(s[0]);
      MergeFromGroups([s[0]], s[1..]);
      assert [s[0]] + s[1..] == s;
    }
  }

  lemma {:induction false} FlattenLength(gs: seq<seq<TextBox>>)
    requires forall k :: 0 <= k < |gs| ==> |gs[k]| > 0
    ensures |gs| <= |Flatten(gs)|
    ensures gs != [] ==> Flatten(gs) != []
  {
    if gs != [] {
      FlattenLength(gs[1..]);
    }
  }

  lemma {:induction false} FoldAllTexts(gs: seq<seq<TextBox>>)
    requires forall k :: 0 <= k < |gs| ==> |gs[k]| > 0
    ensures Texts(FoldAll(gs)) == Texts(Flatten(gs))
  {
    if gs != [] {
      FoldAllTexts(gs[1..]);
      assert FoldAll(gs)[1..] == FoldAll(gs[1..]);
      TextsAppend(gs[0], Flatten(gs[1..]));
    }
  }

  /** `merge` returns nothing for nothing, and otherwise between one line and one line per
      fragment, with no text lost, added or reordered against the sorted input. */
  lemma MergeSizeAndText(text: seq<TextBox>)
    ensures text == [] ==> MergeSpec(text) == []
    ensures text != [] ==> 1 <= |MergeSpec(text)| <= |text|
    ensures Texts(MergeSpec(text)) == Texts(SortText(text))
  {
    var sorted := SortText(text);
    assert |sorted| == |text| by {
      assert |multiset(sorted)| == |multiset(text)|;
    }
    var gs := Groups(sorted);
    MergeLinesGroups(sorted);
    FlattenLength(gs);
    FoldAllTexts(gs);
  }

  /** No two neighbouring output lines of `merge` pass the merge test. */
  lemma MergeNeighboursApart(text: seq<TextBox>)
    ensures var r := MergeSpec(text);
      forall k :: 0 <= k < |r| - 1 ==> !MergeTest(r[k], r[k + 1])
  {
    var sorted := SortText(text);
    var gs := Groups(sorted);
    MergeLinesGroups(sorted);
    var r := MergeSpec(text);
    forall k | 0 <= k < |r| - 1
      ensures !MergeTest(r[k], r[k + 1])
    {
      assert r[k] == Fold(gs[k]) && r[k + 1] == Fold(gs[k + 1]);
      assert !MergeTest(Fold(gs[k]), gs[k + 1][0]);
    }
  }

  /** Each output line keeps the first fragment's left edge, top, bottom and score of its
      run, its right edge is the run's last fragment's, and its text the run's texts. */
  lemma MergeLineEdges(text: seq<TextBox>)
    ensures var gs := Groups(SortText(text));
      var lines := MergeSpec(text);
      && |lines| == |gs|
      && forall k :: 0 <= k < |gs| ==>
           && lines[k].box.left == gs[k][0].box.left && lines[k].box.top == gs[k][0].box.top
           && lines[k].box.bottom == gs[k][0].box.bottom && lines[k].score == gs[k][0].score
           && lines[k].box.right == gs[k][|gs[k]| - 1].box.right
           && lines[k].rawText == Texts(gs[k])
  {
    MergeLinesGroups(SortText(text));
  }

  /** Two fragments already in reading order that pass the merge test give one line. */
  lemma MergePair(a: TextBox, b: TextBox)
    requires !Before(b, a) && MergeTest(a, b)
    ensures MergeSpec([a, b]) == [Absorb(a, b)]
  {
    assert SortText([a, b]) == [a, b] by {
      assert [a, b][1..] == [b];
      assert Sort([b], Before) == [b];
    }
    assert [a, b][1..] == [b];
    assert [b][1..] == [];
    assert MergeFrom(a, [b]) == MergeFrom(Absorb(a, b), []);
  }

  /** Two fragments on one row, 10 px apart, merge into one line. */
  lemma MergeJoinsNeighbours()
    ensures MergeSpec([TextBox("攻", Rect(10, 30, 0, 20), 0.9), TextBox("击力", Rect(40, 60, 2, 20), 0.8)])
         == [TextBox("攻击力", Rect(10, 60, 0, 20), 0.9)]
  {
    var a, b := TextBox("攻", Rect(10, 30, 0, 20), 0.9), TextBox("击力", Rect(40, 60, 2, 20), 0.8);
    MergePair(a, b);
    assert Absorb(a, b) == TextBox("攻击力", Rect(10, 60, 0, 20), 0.9);
  }

  /** The gap is measured with `abs` and the right edge is overwritten: a fragment starting
      inside the line and ending before its right edge is absorbed and shrinks the line. */
  lemma MergeCanShrinkLine()
    ensures MergeSpec([TextBox("a", Rect(0, 200, 0, 20), 0.9), TextBox("b", Rect(170, 180, 0, 20), 0.8)])
         == [TextBox("ab", Rect(0, 180, 0, 20), 0.9)]
  {
    var a, b := TextBox("a", Rect(0, 200, 0, 20), 0.9), TextBox("b", Rect(170, 180, 0, 20), 0.8);
    MergePair(a, b);
    assert Absorb(a, b) == TextBox("ab", Rect(0, 180, 0, 20), 0.9);
  }

  /** The `redundancy` argument of `box_contain`: one number for both axes, or a pair. */
  datatype Redundancy = Uniform(r: int) | PerAxis(rx: int, ry: int)

  /** The tolerance along x and along y. */
  function Tolerance(red: Redundancy): (int, int) {
    match red
    case Uniform(r) => (r, r)
    case PerAxis(rx, ry) => (rx, ry)
  }

  /** `box_contain`: `inner` lies within `outer` grown by the tolerance on every side. */
  predicate BoxContain(outer: Rect, inner: Rect, red: Redundancy) {
    var (rx, ry) := Tolerance(red);
    && outer.left <= inner.left + rx
    && outer.right >= inner.right - rx
    && outer.top <= inner.top + ry
    && outer.bottom >= inner.bottom - ry
  }

  /** A scalar tolerance is the pair with that value twice. */
  lemma UniformIsPair(outer: Rect, inner: Rect, r: int)
    ensures BoxContain(outer, inner, Uniform(r)) <==> BoxContain(outer, inner, PerAxis(r, r))
  {
  }

  /** Containment survives a larger tolerance. */
  lemma ContainMonotone(outer: Rect, inner: Rect, red: Redundancy, larger: Redundancy)
    requires Tolerance(red).0 <= Tolerance(larger).0 && Tolerance(red).1 <= Tolerance(larger).1
    requires BoxContain(outer, inner, red)
    ensures BoxContain(outer, inner, larger)
  {
  }

  /** A box contains itself under any non-negative tolerance. */
  lemma ContainSelf(b: Rect, red: Redundancy)
    requires Tolerance(red).0 >= 0 && Tolerance(red).1 >= 0
    ensures BoxContain(b, b, red)
  {
  }

  /** The fragments whose boxes `box_contain` accepts, in their order. */
  function Contained(s: seq<TextBox>, outer: Rect, red: Redundancy): (r: seq<TextBox>)
    ensures |r| <= |s|
    ensures forall i :: 0 <= i < |r| ==> r[i] in s && BoxContain(outer, r[i].box, red)
    ensures forall x :: x in s && BoxContain(outer, x.box, red) ==> x in r
  {
    if s == [] then []
    else
      var rest := Contained(s[1..], outer, red);
      assert forall x :: x in s[1..] ==> x in s;
      if BoxContain(outer, s[0].box, red) then [s[0]] + rest else rest
  }

  /** A fragment's box shifted by the crop origin `(outer.left, outer.top)`. */
  function Shifted(x: TextBox, outer: Rect): TextBox {
    x.(box := Rect(outer.left + x.box.left, outer.left + x.box.right, outer.top + x.box.top, outer.top + x.box.bottom))
  }

  /** Every fragment shifted by the crop origin. */
  function Translated(s: seq<TextBox>, outer: Rect): (r: seq<TextBox>)
    ensures |r| == |s|
  {
    seq(|s|, k requires 0 <= k < |s| => Shifted(s[k], outer))
  }

  lemma TranslatedStep(base: seq<TextBox>, i: nat, outer: Rect)
    requires i < |base|
    ensures (Translated(base[..i], outer) + base[i..])[i := Shifted(base[i], outer)]
         == Translated(base[..i + 1], outer) + base[i + 1..]
  {
  }

  /** Translation moves each box rigidly and keeps text and score. */
  lemma TranslatedShifts(s: seq<TextBox>, outer: Rect)
    ensures var r := Translated(s, outer);
      forall k :: 0 <= k < |s| ==>
        && r[k].rawText == s[k].rawText && r[k].score == s[k].score
        && r[k].box.right - r[k].box.left == s[k].box.right - s[k].box.left
        && r[k].box.bottom - r[k].box.top == s[k].box.bottom - s[k].box.top
        && r[k].box.left - s[k].box.left == outer.left
        && r[k].box.top - s[k].box.top == outer.top
  {
  }

  /** Translating lines that were already translated adds the two origins: what a second
      `find_with_box` with a non-zero `forward` does to lines kept from the first. */
  lemma TranslatedTwice(s: seq<TextBox>, a: Rect, b: Rect)
    ensures Translated(Translated(s, a), b) == Translated(s, Rect(a.left + b.left, a.left + b.left, a.top + b.top, a.top + b.top))
  {
    var o := Rect(a.left + b.left, a.left + b.left, a.top + b.top, a.top + b.top);
    forall k | 0 <= k < |s|
      ensures Translated(Translated(s, a), b)[k] == Translated(s, o)[k]
    {
      assert Translated(Translated(s, a), b)[k] == Shifted(Shifted(s[k], a), b);
    }
  }

  /** A polygon vertex in whole pixels: the detector's coordinate truncated by `int()`. */
  datatype Point = Point(x: int, y: int)

  function MinX(p: seq<Point>): (m: int)
    requires |p| > 0
    ensures forall i :: 0 <= i < |p| ==> m <= p[i].x
    ensures exists i :: 0 <= i < |p| && m == p[i].x
  {
    if |p| == 1 then p[0].x
    else
      var m := MinX(p[1..]);
      assert forall i :: 1 <= i < |p| ==> p[i] == p[1..][i - 1];
      if p[0].x <= m then p[0].x else m
  }

  function MaxX(p: seq<Point>): (m: int)
    requires |p| > 0
    ensures forall i :: 0 <= i < |p| ==> p[i].x <= m
    ensures exists i :: 0 <= i < |p| && m == p[i].x
  {
    if |p| == 1 then p[0].x
    else
      var m := MaxX(p[1..]);
      assert forall i :: 1 <= i < |p| ==> p[i] == p[1..][i - 1];
      if p[0].x >= m then p[0].x else m
  }

  function MinY(p: seq<Point>): (m: int)
    requires |p| > 0
    ensures forall i :: 0 <= i < |p| ==> m <= p[i].y
    ensures exists i :: 0 <= i < |p| && m == p[i].y
  {
    if |p| == 1 then p[0].y
    else
      var m := MinY(p[1..]);
      assert forall i :: 1 <= i < |p| ==> p[i] == p[1..][i - 1];
      if p[0].y <= m then p[0].y else m
  }

  function MaxY(p: seq<Point>): (m: int)
    requires |p| > 0
    ensures forall i :: 0 <= i < |p| ==> p[i].y <= m
    ensures exists i :: 0 <= i < |p| && m == p[i].y
  {
    if |p| == 1 then p[0].y
    else
      var m := MaxY(p[1..]);
      assert forall i :: 1 <= i < |p| ==> p[i] == p[1..][i - 1];
      if p[0].y >= m then p[0].y else m
  }

  /** The box `forward` computes from a detection polygon (ocr.py:105): the smallest
      ordered rectangle holding every vertex. */
  function BoundingRect(p: seq<Point>): (r: Rect)
    requires |p| > 0
    ensures Ordered(r)
    ensures forall i :: 0 <= i < |p| ==> r.left <= p[i].x <= r.right && r.top <= p[i].y <= r.bottom
    ensures forall b: Rect :: (forall i :: 0 <= i < |p| ==> b.left <= p[i].x <= b.right && b.top <= p[i].y <= b.bottom)
              ==> b.left <= r.left && r.right <= b.right && b.top <= r.top && r.bottom <= b.bottom
  {
    Rect(MinX(p), MaxX(p), MinY(p), MaxY(p))
  }
}
