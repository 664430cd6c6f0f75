/** The `My_TS` text scanner of ocr.py: the cached recognition result `res`, refreshed by
    `forward`, and the two queries over it, `find_with_text` and `find_with_box`. */
module OcrScanner {
  import opened Results
  import opened Geometry
  import opened Sorting
  import opened Strings
  import opened OcrText

  /** A screen image as rows of pixel values; two images are the same exactly when the
      source's shape and absolute-difference test calls them the same. */
  type Image = seq<seq<int>>

  /** One entry of the recogniser's output: a polygon, its text and its confidence. */
  datatype Detection = Detection(polygon: seq<Point>, text: string, score: real)

  predicate HasPolygons(dets: seq<Detection>) {
    forall i :: 0 <= i < |dets| ==> |dets[i].polygon| > 0
  }

  /** The fragment `forward` builds from one detection (ocr.py:104-105). */
  function DetectionBox(d: Detection): TextBox
    requires |d.polygon| > 0
  {
    TextBox(d.text, BoundingRect(d.polygon), d.score)
  }

  function Boxes(dets: seq<Detection>): (r: seq<TextBox>)
    requires HasPolygons(dets)
    ensures |r| == |dets|
  {
    seq(|dets|, k requires 0 <= k < |dets| => DetectionBox(dets[k]))
  }

  /** The loop of ocr.py:100-106 that turns each detection into a fragment. */
  method CollectBoxes(dets: seq<Detection>) returns (boxes: seq<TextBox>)
    requires HasPolygons(dets)
    ensures boxes == Boxes(dets)
  {
    boxes := [];
    for k := 0 to |dets|
      invariant |boxes| == k
      invariant forall i :: 0 <= i < k ==> boxes[i] == DetectionBox(dets[i])
    {
      boxes := boxes + [DetectionBox(dets[k])];
    }
  }

  /** An entry of `find_with_text`'s answer: `{'text': text, **res}`, which stores the whole
      list of targets next to the line's fields. */
  datatype Match = Match(text: seq<string>, line: TextBox)

  /** The two-way substring test of ocr.py:114. */
  predicate Matches(target: string, line: TextBox) {
    IsSubstring(line.rawText, target) || IsSubstring(target, line.rawText)
  }

  /** The inner loop of `find_with_text` for one target. */
  function LineMatches(targets: seq<string>, target: string, lines: seq<TextBox>): seq<Match> {
    if lines == [] then []
    else
      var front := LineMatches(targets, target, lines[..|lines| - 1]);
      var last := lines[|lines| - 1];
      if Matches(target, last) then front + [Match(targets, last)] else front
  }

  /** Both loops of `find_with_text`, over the targets `ts`. */
  function AllMatches(targets: seq<string>, ts: seq<string>, lines: seq<TextBox>): seq<Match> {
    if ts == [] then []
    else AllMatches(targets, ts[..|ts| - 1], lines) + LineMatches(targets, ts[|ts| - 1], lines)
  }

  /** `sorted(ans, key=score, reverse=True)` is a stable sort on "higher score first". */
  predicate ScoreBefore(a: Match, b: Match) {
    a.line.score > b.line.score
  }

  function ByScore(ms: seq<Match>): (r: seq<Match>)
    ensures multiset(r) == multiset(ms)
  {
    Sort(ms, ScoreBefore)
  }

  /** The answer of `find_with_text` comes highest score first. */
  lemma ByScoreDescending(ms: seq<Match>)
    ensures var r := ByScore(ms);
      forall i, j :: 0 <= i < j < |r| ==> r[i].line.score >= r[j].line.score
  {
    var r := ByScore(ms);
    SortSorted(ms, ScoreBefore);
    forall i, j | 0 <= i < j < |r|
      ensures r[i].line.score >= r[j].line.score
    {
      assert !ScoreBefore(r[j], r[i]);
    }
  }

  lemma {:induction false} LineMatchesSound(targets: seq<string>, target: string, lines: seq<TextBox>, m: Match)
    requires m in LineMatches(targets, target, lines)
    ensures m.text == targets && m.line in lines && Matches(target, m.line)
  {
    if lines != [] {
      var front := lines[..|lines| - 1];
      if m in LineMatches(targets, target, front) {
        LineMatchesSound(targets, target, front, m);
      }
    }
  }

  lemma {:induction false} LineMatchesComplete(targets: seq<string>, target: string, lines: seq<TextBox>, line: TextBox)
    requires line in lines && Matches(target, line)
    ensures Match(targets, line) in LineMatches(targets, target, lines)
  {
    var front := lines[..|lines| - 1];
    if line != lines[|lines| - 1] {
      assert line in front by {
        var k :| 0 <= k < |lines| && lines[k] == line;
        assert front[k] == line;
      }
      LineMatchesComplete(targets, target, front, line);
    }
  }

  /** Every answer pairs the target list with a stored line that contains, or is contained
      in, one of the targets; and every such line is answered. */
  lemma {:induction false} AllMatchesExact(targets: seq<string>, ts: seq<string>, lines: seq<TextBox>, line: TextBox)
    ensures Match(targets, line) in AllMatches(targets, ts, lines)
        <==> line in lines && exists t :: t in ts && Matches(t, line)
    ensures forall m :: m in AllMatches(targets, ts, lines) ==> m.text == targets
  {
    if ts != [] {
      var front, last := ts[..|ts| - 1], ts[|ts| - 1];
      AllMatchesExact(targets, front, lines, line);
      forall m | m in LineMatches(targets, last, lines)
        ensures m.text == targets
      {
        LineMatchesSound(targets, last, lines, m);
      }
      if Match(targets, line) in LineMatches(targets, last, lines) {
        LineMatchesSound(targets, last, lines, Match(targets, line));
      }
      if line in lines && Matches(last, line) {
        LineMatchesComplete(targets, last, lines, line);
      }
      if exists t :: t in ts && Matches(t, line) {
        var t :| t in ts && Matches(t, line);
        if t != last {
          var k :| 0 <= k < |ts| && ts[k] == t;
          assert front[k] == t;
        }
      }
      assert forall t :: t in front ==> t in ts;
    }
  }

  /** A stored line always matches its own text, so `find_with_text([line.raw_text])` has a
      match to report, and the source's `print` of it raises. */
  lemma OwnTextMatches(line: TextBox, lines: seq<TextBox>)
    requires line in lines
    ensures AllMatches([line.rawText], [line.rawText], lines) != []
  {
    SubstringOfSelf(line.rawText);
    assert line.rawText in [line.rawText] && Matches(line.rawText, line);
    AllMatchesExact([line.rawText], [line.rawText], lines, line);
  }

  /** Contained keeps, in order, exactly the fragments that pass `box_contain`. */
  lemma ContainedSnoc(s: seq<TextBox>, x: TextBox, outer: Rect, red: Redundancy)
    ensures Contained(s + [x], outer, red)
         == Contained(s, outer, red) + (if BoxContain(outer, x.box, red) then [x] else [])
  {
    if s != [] {
      assert (s + [x])[1..] == s[1..] + [x];
      ContainedSnoc(s[1..], x, outer, red);
    } else {
      assert [x][1..] == [];
    }
  }

  /** The recogniser and its cached result. */
  class TextScanner {
    /** The merged lines of the last recognised image. */
    var res: seq<TextBox>
    /** The last recognised image, if any. */
    var forwardImg: Option<Image>

    constructor()
      ensures res == [] && forwardImg == None
    {
      res := [];
      forwardImg := None;
    }

    /** `forward`: recognise `img` unless it is the cached image. `dets` is what the
        recogniser reports for `img`. */
    method Forward(img: Image, dets: seq<Detection>)
      requires HasPolygons(dets)
      modifies this
      ensures old(forwardImg) == Some(img) ==> res == old(res) && forwardImg == old(forwardImg)
      ensures old(forwardImg) != Some(img) ==> forwardImg == Some(img) && res == MergeSpec(Boxes(dets))
    {
      if forwardImg == Some(img) {
        return;
      }
      forwardImg := Some(img);
      res := [];
      var boxes := CollectBoxes(dets);
      res := Merge(boxes);
    }

    /** `find_with_text` without its failing `print`: every stored line matching a target,
        target by target, highest score first. */
    method FindWithText(targets: seq<string>) returns (ans: seq<Match>)
      ensures ans == ByScore(AllMatches(targets, targets, res))
    {
      ans := [];
      for ti := 0 to |targets|
        invariant ans == AllMatches(targets, targets[..ti], res)
      {
        assert targets[..ti + 1][..ti] == targets[..ti];
        var txt := targets[ti];
        for li := 0 to |res|
          invariant ans == AllMatches(targets, targets[..ti], res) + LineMatches(targets, txt, res[..li])
        {
          assert res[..li + 1][..li] == res[..li];
          var line := res[li];
          if IsSubstring(line.rawText, txt) || IsSubstring(txt, line.rawText) {
            ans := ans + [Match(targets, line)];
          }
        }
        assert res[..|res|] == res;
      }
      assert targets[..|targets|] == targets;
      ans := Sort(ans, ScoreBefore);
    }

    /** `find_with_text` as written: its `print` reads the missing attribute `self.text`,
        so the first match raises `AttributeError`. */
    method FindWithTextAsWritten(targets: seq<string>) returns (r: Result<seq<Match>, string>)
      ensures r.Err? <==> AllMatches(targets, targets, res) != []
      ensures r.Ok? ==> r.value == []
    {
      for ti := 0 to |targets|
        invariant AllMatches(targets, targets[..ti], res) == []
      {
        assert targets[..ti + 1][..ti] == targets[..ti];
        var txt := targets[ti];
        for li := 0 to |res|
          invariant LineMatches(targets, txt, res[..li]) == []
        {
          assert res[..li + 1][..li] == res[..li];
          var line := res[li];
          if IsSubstring(line.rawText, txt) || IsSubstring(txt, line.rawText) {
            MatchesPersist(targets, ti, li);
            return Err("AttributeError: 'My_TS' object has no attribute 'text'");
          }
        }
        assert res[..|res|] == res;
      }
      assert targets[..|targets|] == targets;
      r := Ok([]);
    }

    lemma MatchesPersist(targets: seq<string>, ti: nat, li: nat)
      requires ti < |targets| && li < |res|
      requires Matches(targets[ti], res[li])
      ensures AllMatches(targets, targets, res) != []
    {
      AllMatchesExact(targets, targets, res, res[li]);
    }

    /** `find_with_box` apart from its screen capture and debug images. `crop` stands for
        the filtered crop of the screen at `box` and `cropDets` for what the recogniser
        reports for it. */
    method FindWithBox(box: Option<Rect>, red: Redundancy, forward: int, crop: Image, cropDets: seq<Detection>)
      returns (ans: seq<TextBox>)
      requires HasPolygons(cropDets)
      modifies this
      ensures box.None? ==> ans == [] && res == old(res) && forwardImg == old(forwardImg)
      ensures box.Some? && forward == 0 ==>
        ans == SortText(Contained(old(res), box.value, red)) && res == old(res) && forwardImg == old(forwardImg)
      ensures box.Some? && forward != 0 ==>
        var base := if old(forwardImg) == Some(crop) then old(res) else MergeSpec(Boxes(cropDets));
        res == Translated(base, box.value) && ans == SortText(res) && forwardImg == Some(crop)
    {
      if forward != 0 && box.Some? {
        Forward(crop, cropDets);
      }
      // The loop tests `box` and `forward`, which do not change inside it, so it is split
      // by branch; with no box it only prints each line.
      if box.None? {
        ans := [];
      } else if forward == 0 {
        ans := ContainedLines(box.value, red);
        ans := SortText(ans);
      } else {
        ans := TranslateLines(box.value);
        ans := SortText(ans);
      }
    }

    /** The `forward == 0` branch of the loop of `find_with_box`: keep the lines inside `outer`. */
    method ContainedLines(outer: Rect, red: Redundancy) returns (ans: seq<TextBox>)
      ensures ans == Contained(res, outer, red)
    {
      ans := [];
      for i := 0 to |res|
        invariant ans == Contained(res[..i], outer, red)
      {
        assert res[..i + 1] == res[..i] + [res[i]];
        ContainedSnoc(res[..i], res[i], outer, red);
        if BoxContain(outer, res[i].box, red) {
          ans := ans + [res[i]];
        }
      }
      assert res[..|res|] == res;
    }

    /** The other branch: shift each stored line by the crop origin, in place. */
    method TranslateLines(outer: Rect) returns (ans: seq<TextBox>)
      modifies this
      ensures res == Translated(old(res), outer) && ans == res && forwardImg == old(forwardImg)
    {
      ghost var base := res;
      ans := [];
      for i := 0 to |res|
        invariant |res| == |base| && forwardImg == old(forwardImg)
        invariant ans == Translated(base[..i], outer)
        invariant res == Translated(base[..i], outer) + base[i..]
      {
        var t := res[i].(box := Rect(outer.left + res[i].box.left, outer.left + res[i].box.right,
                                     outer.top + res[i].box.top, outer.top + res[i].box.bottom));
        assert res[i] == base[i] && t == Shifted(base[i], outer);
        TranslatedStep(base, i, outer);
        assert Translated(base[..i + 1], outer) == Translated(base[..i], outer) + [t];
        res := res[i := t];
        ans := ans + [t];
      }
      assert base[..|base|] == base;
    }
  }
}
