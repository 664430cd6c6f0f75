/** Screen regions and the registry that scales them: coordinate_manage.py. */
module Coordinates {
  import opened Results

  /** An integer pair, as Python's `Tuple[int, int]`. */
  type Pair = (int, int)

  /** `Box`: a named region given by two corners, at the resolution it was measured in.
      The source never updates a box after construction, so it is a value here. */
  datatype Box = Box(name: string, resolution: Pair, positionStart: Pair, positionEnd: Pair)

  /** `(x1, x2, y1, y2)`, the order the source's coordinates come in. */
  type Corners = (int, int, int, int)

  function Min(a: int, b: int): int { if a <= b then a else b }
  function Max(a: int, b: int): int { if a <= b then b else a }

  /** `Box.format_output`: the corners put in order, smaller coordinate first on each axis. */
  function FormatOutput(b: Box): (r: Corners)
    ensures r.0 <= r.1 && r.2 <= r.3
    ensures multiset{r.0, r.1} == multiset{b.positionStart.0, b.positionEnd.0}
    ensures multiset{r.2, r.3} == multiset{b.positionStart.1, b.positionEnd.1}
  {
    var (x1, y1) := b.positionStart;
    var (x2, y2) := b.positionEnd;
    (Min(x1, x2), Max(x1, x2), Min(y1, y2), Max(y1, y2))
  }

  /** Which corner is the start and which the end does not matter. */
  lemma FormatOutputSwap(b: Box)
    ensures FormatOutput(b.(positionStart := b.positionEnd, positionEnd := b.positionStart)) == FormatOutput(b)
  {
  }

  /** The JSON/YAML-shaped values `to_dict` produces and `from_dict` reads. */
  datatype Json = JStr(s: string) | JInt(i: int) | JList(items: seq<Json>) | JObject(fields: map<string, Json>)

  function PairToJson(p: Pair): Json {
    JList([JInt(p.0), JInt(p.1)])
  }

  /** A value `tuple(...)` turns into an integer pair. */
  predicate IsPairJson(j: Json) {
    j.JList? && |j.items| == 2 && j.items[0].JInt? && j.items[1].JInt?
  }

  /** `tuple(data[key])` for a two-element list of integers. */
  function PairFromJson(j: Json): (r: Result<Pair, string>)
    ensures r.Ok? <==> IsPairJson(j)
  {
    if IsPairJson(j) then Ok((j.items[0].i, j.items[1].i))
    else Err(PairError)
  }

  const PairError: string := "ValueError: expected a pair of integers"

  /** `data[key]` on a dictionary, with Python's `KeyError` for a missing key. */
  function Field(data: Json, key: string): (r: Result<Json, string>)
    ensures r.Ok? <==> data.JObject? && key in data.fields
    ensures r.Ok? ==> r.value == data.fields[key]
  {
    if data.JObject? && key in data.fields then Ok(data.fields[key])
    else Err("KeyError: '" + key + "'")
  }

  const BoxKeys: set<string> := {"name", "resolution", "position_start", "position_end"}

  /** `Box.to_dict`: every field under its own key, tuples as lists. */
  function BoxToDict(b: Box): (r: Json)
    ensures r.JObject? && r.fields.Keys == BoxKeys
  {
    JObject(map["name" := JStr(b.name),
                "resolution" := PairToJson(b.resolution),
                "position_start" := PairToJson(b.positionStart),
                "position_end" := PairToJson(b.positionEnd)])
  }

  /** Everything `Box.from_dict` reads is present and of the expected shape. */
  predicate WellFormedBox(data: Json) {
    && data.JObject? && BoxKeys <= data.fields.Keys
    && data.fields["name"].JStr?
    && IsPairJson(data.fields["resolution"])
    && IsPairJson(data.fields["position_start"])
    && IsPairJson(data.fields["position_end"])
  }

  /** The first failure `Box.from_dict` meets, reading the keys in the order its constructor
      call names them. */
  function BoxReadError(data: Json): string {
    if !data.JObject? || "name" !in data.fields then "KeyError: 'name'"
    else if !data.fields["name"].JStr? then "TypeError: name is not a string"
    else if "resolution" !in data.fields then "KeyError: 'resolution'"
    else if !IsPairJson(data.fields["resolution"]) then PairError
    else if "position_start" !in data.fields then "KeyError: 'position_start'"
    else if !IsPairJson(data.fields["position_start"]) then PairError
    else if "position_end" !in data.fields then "KeyError: 'position_end'"
    else PairError
  }

  /** `Box.from_dict`. */
  function BoxFromDict(data: Json): (r: Result<Box, string>)
    ensures r.Ok? <==> WellFormedBox(data)
  {
    if WellFormedBox(data) then
      var f := data.fields;
      Ok(Box(f["name"].s, PairFromJson(f["resolution"]).value,
             PairFromJson(f["position_start"]).value, PairFromJson(f["position_end"]).value))
    else Err(BoxReadError(data))
  }

  /** `Box.from_dict(b.to_dict())` gives back `b`. */
  lemma BoxRoundTrip(b: Box)
    ensures BoxFromDict(BoxToDict(b)) == Ok(b)
  {
    var f := BoxToDict(b).fields;
    assert f["name"] == JStr(b.name);
    assert f["resolution"] == PairToJson(b.resolution);
    assert f["position_start"] == PairToJson(b.positionStart);
    assert f["position_end"] == PairToJson(b.positionEnd);
  }

  /** `int(v * (target / source))` in exact arithmetic: the product divided by `source`,
      truncated toward zero as Python's `int()` truncates. */
  function Scale(v: int, target: int, source: int): int
    requires source != 0
  {
    TruncDiv(v * target, source)
  }

  /** Division rounding toward zero (Dafny's own `/` is Euclidean). */
  function TruncDiv(a: int, d: int): int
    requires d != 0
  {
    var q := Abs(a) / Abs(d);
    if (a >= 0) == (d > 0) then q else -q
  }

  function Abs(x: int): nat { if x < 0 then -x else x }

  lemma {:induction false} MulMonotone(d: nat, u: int, v: int)
    requires u <= v
    ensures d * u <= d * v
    decreases v - u
  {
    if u < v {
      MulMonotone(d, u, v - 1);
      assert d * v == d * (v - 1) + d;
    }
  }

  lemma MulCancelLess(d: nat, x: int, y: int)
    requires d > 0 && d * x < d * (y + 1)
    ensures x <= y
  {
    if y + 1 <= x {
      MulMonotone(d, y + 1, x);
    }
  }

  lemma DivMonotone(a: nat, b: nat, d: nat)
    requires a <= b && d > 0
    ensures a / d <= b / d
  {
    assert d * (b / d + 1) == d * (b / d) + d;
    MulCancelLess(d, a / d, b / d);
  }

  lemma DivUnique(n: nat, d: nat, q: int, m: int)
    requires 0 <= m < d && n == d * q + m
    ensures n / d == q
  {
    assert d * (q + 1) == d * q + d;
    assert d * (n / d + 1) == d * (n / d) + d;
    MulCancelLess(d, n / d, q);
    MulCancelLess(d, q, n / d);
  }

  lemma TruncDivNonNegative(a: int, d: int)
    requires a >= 0 && d > 0
    ensures TruncDiv(a, d) == a / d >= 0
  {
  }

  lemma TruncDivNegative(a: int, d: int)
    requires a < 0 && d > 0
    ensures TruncDiv(a, d) == -((-a) / d) <= 0
  {
  }

  /** Truncating division by a positive number keeps order. */
  lemma TruncDivMonotone(a: int, b: int, d: int)
    requires a <= b && d > 0
    ensures TruncDiv(a, d) <= TruncDiv(b, d)
  {
    if a >= 0 {
      TruncDivNonNegative(a, d);
      TruncDivNonNegative(b, d);
      DivMonotone(a, b, d);
    } else if b < 0 {
      TruncDivNegative(a, d);
      TruncDivNegative(b, d);
      DivMonotone(-b, -a, d);
    } else {
      TruncDivNegative(a, d);
      TruncDivNonNegative(b, d);
    }
  }

  lemma AbsMul(v: int, d: int)
    ensures Abs(v * d) == Abs(v) * Abs(d)
  {
    if v < 0 && d < 0 {
      assert v * d == (-v) * (-d);
    } else if v < 0 {
      assert -(v * d) == (-v) * d;
    } else if d < 0 {
      assert -(v * d) == v * (-d);
    }
  }

  lemma MulDivCancel(x: nat, y: nat)
    requires y > 0
    ensures x * y / y == x
  {
    DivUnique(x * y, y, x, 0);
  }

  lemma TruncDivExact(v: int, d: int)
    requires d != 0
    ensures TruncDiv(v * d, d) == v
  {
    AbsMul(v, d);
    MulDivCancel(Abs(v), Abs(d));
  }

  /** `format_box_scaled(name)` on a registry with resolution `resolution` and boxes
      `boxList`: `ValueError` for an unknown name, `ZeroDivisionError` when the box's
      resolution has a zero component, and otherwise the ordered corners scaled by the ratio
      of the two resolutions. */
  function ScaledBox(resolution: Pair, boxList: map<string, Box>, name: string): Result<Corners, string> {
    if name !in boxList then Err("ValueError: Box '" + name + "' not found.")
    else
      var box := boxList[name];
      var (x1, x2, y1, y2) := FormatOutput(box);
      if box.resolution.0 == 0 || box.resolution.1 == 0 then Err("ZeroDivisionError: division by zero")
      else
        Ok((Scale(x1, resolution.0, box.resolution.0), Scale(x2, resolution.0, box.resolution.0),
            Scale(y1, resolution.1, box.resolution.1), Scale(y2, resolution.1, box.resolution.1)))
  }

  /** Scaling fails exactly for an unknown name or a box resolution with a zero component. */
  lemma ScaledBoxFails(resolution: Pair, boxList: map<string, Box>, name: string)
    ensures ScaledBox(resolution, boxList, name).Err? <==>
      name !in boxList || boxList[name].resolution.0 == 0 || boxList[name].resolution.1 == 0
    ensures name !in boxList ==> ScaledBox(resolution, boxList, name) == Err("ValueError: Box '" + name + "' not found.")
  {
  }

  /** A box measured at the registry's own resolution comes back as `format_output()`. */
  lemma ScaledBoxSameResolution(resolution: Pair, boxList: map<string, Box>, name: string)
    requires name in boxList && boxList[name].resolution == resolution
    requires resolution.0 != 0 && resolution.1 != 0
    ensures ScaledBox(resolution, boxList, name) == Ok(FormatOutput(boxList[name]))
  {
    var c := FormatOutput(boxList[name]);
    TruncDivExact(c.0, resolution.0);
    TruncDivExact(c.1, resolution.0);
    TruncDivExact(c.2, resolution.1);
    TruncDivExact(c.3, resolution.1);
  }

  /** With positive resolutions the scaled corners are still in order. */
  lemma ScaledBoxOrdered(resolution: Pair, boxList: map<string, Box>, name: string)
    requires name in boxList
    requires resolution.0 > 0 && resolution.1 > 0
    requires boxList[name].resolution.0 > 0 && boxList[name].resolution.1 > 0
    ensures ScaledBox(resolution, boxList, name).Ok?
    ensures var r := ScaledBox(resolution, boxList, name).value; r.0 <= r.1 && r.2 <= r.3
  {
    var box := boxList[name];
    var c := FormatOutput(box);
    assert c.0 * resolution.0 <= c.1 * resolution.0;
    assert c.2 * resolution.1 <= c.3 * resolution.1;
    TruncDivMonotone(c.0 * resolution.0, c.1 * resolution.0, box.resolution.0);
    TruncDivMonotone(c.2 * resolution.1, c.3 * resolution.1, box.resolution.1);
  }

  /** `BoxManager.to_dict` on a registry's state. */
  function ManagerToDict(resolution: Pair, boxList: map<string, Box>): (r: Json)
    ensures r.JObject? && r.fields.Keys == {"resolution", "boxes"}
    ensures r.fields["boxes"].JObject? && r.fields["boxes"].fields.Keys == boxList.Keys
  {
    JObject(map["resolution" := PairToJson(resolution),
                "boxes" := JObject(map name | name in boxList :: BoxToDict(boxList[name]))])
  }

  /** Every entry under `"boxes"` reads back as a box. */
  ghost predicate AllBoxesParse(boxes: map<string, Json>) {
    forall name :: name in boxes ==> BoxFromDict(boxes[name]).Ok?
  }

  /** The state `BoxManager.from_dict(data)` builds: the resolution and, under each key of
      `data["boxes"]`, the box read from its entry. */
  ghost function ManagerFromDict(data: Json): Result<(Pair, map<string, Box>), string> {
    var resolution :- Field(data, "resolution");
    var res :- PairFromJson(resolution);
    var boxes :- Field(data, "boxes");
    if !boxes.JObject? then Err("AttributeError: 'boxes' has no attribute 'items'")
    else if !AllBoxesParse(boxes.fields) then Err("a box entry does not read back")
    else Ok((res, map name | name in boxes.fields :: BoxFromDict(boxes.fields[name]).value))
  }

  lemma BoxesRoundTrip(boxList: map<string, Box>)
    ensures var boxes := map name | name in boxList :: BoxToDict(boxList[name]);
      AllBoxesParse(boxes) && (map name | name in boxes :: BoxFromDict(boxes[name]).value) == boxList
  {
    var boxes := map name | name in boxList :: BoxToDict(boxList[name]);
    forall name | name in boxes
      ensures BoxFromDict(boxes[name]) == Ok(boxList[name])
    {
      BoxRoundTrip(boxList[name]);
    }
  }

  /** `BoxManager.from_dict(m.to_dict())` reproduces `m`'s resolution and every box. */
  lemma ManagerRoundTrip(resolution: Pair, boxList: map<string, Box>)
    ensures ManagerFromDict(ManagerToDict(resolution, boxList)) == Ok((resolution, boxList))
  {
    var d := ManagerToDict(resolution, boxList);
    BoxesRoundTrip(boxList);
    assert Field(d, "resolution") == Ok(PairToJson(resolution));
    assert Field(d, "boxes") == Ok(JObject(map name | name in boxList :: BoxToDict(boxList[name])));
  }

  /** `BoxManager`: the target resolution and the boxes keyed by name. */
  class BoxManager {
    var resolution: Pair
    var boxList: map<string, Box>

    /** Every box is stored under its own name, which `AddBox` keeps. */
    ghost predicate KeyedByName()
      reads this
    {
      forall k :: k in boxList ==> boxList[k].name == k
    }

    constructor(resolution: Pair)
      ensures this.resolution == resolution && boxList == map[]
      ensures KeyedByName()
    {
      this.resolution := resolution;
      boxList := map[];
    }

    /** `add_box`: the box goes under its name, replacing any box of that name; nothing else
        changes. */
    method AddBox(box: Box)
      modifies this
      ensures boxList == old(boxList)[box.name := box] && resolution == old(resolution)
      ensures box.name in boxList && boxList[box.name] == box
      ensures forall k :: k in old(boxList) && k != box.name ==> k in boxList && boxList[k] == old(boxList)[k]
      ensures old(KeyedByName()) ==> KeyedByName()
    {
      boxList := boxList[box.name := box];
    }

    /** `format_box_scaled`. */
    method FormatBoxScaled(name: string) returns (r: Result<Corners, string>)
      ensures r == ScaledBox(resolution, boxList, name)
    {
      if name !in boxList {
        return Err("ValueError: Box '" + name + "' not found.");
      }
      var box := boxList[name];
      var (x1, x2, y1, y2) := FormatOutput(box);
      if box.resolution.0 == 0 || box.resolution.1 == 0 {
        return Err("ZeroDivisionError: division by zero");
      }
      r := Ok((Scale(x1, resolution.0, box.resolution.0), Scale(x2, resolution.0, box.resolution.0),
               Scale(y1, resolution.1, box.resolution.1), Scale(y2, resolution.1, box.resolution.1)));
    }

    /** `to_dict`. */
    method ToDict() returns (d: Json)
      ensures d == ManagerToDict(resolution, boxList)
    {
      d := JObject(map["resolution" := PairToJson(resolution),
                       "boxes" := JObject(map name | name in boxList :: BoxToDict(boxList[name]))]);
    }
  }

  /** The loop of `BoxManager.from_dict`: one assignment per entry of `boxes`, keyed by the
      entry's key, stopping at the first entry that does not read back as a box. */
  method LoadBoxes(manager: BoxManager, boxes: map<string, Json>) returns (r: Result<(), string>)
    requires manager.boxList == map[]
    modifies manager
    ensures manager.resolution == old(manager.resolution)
    ensures r.Ok? <==> AllBoxesParse(boxes)
    ensures r.Ok? ==> manager.boxList == map name | name in boxes :: BoxFromDict(boxes[name]).value
  {
    var pending := boxes.Keys;
    while pending != {}
      invariant pending <= boxes.Keys
      invariant manager.resolution == old(manager.resolution)
      invariant manager.boxList.Keys == boxes.Keys - pending
      invariant forall name :: name in manager.boxList ==> BoxFromDict(boxes[name]) == Ok(manager.boxList[name])
      decreases pending
    {
      var name :| name in pending;
      var box := BoxFromDict(boxes[name]);
      if box.Err? {
        return Err(box.error);
      }
      manager.boxList := manager.boxList[name := box.value];
      pending := pending - {name};
    }
    return Ok(());
  }

  /** `BoxManager.from_dict`: a new registry at `data["resolution"]`, then its boxes. */
  method FromDict(data: Json) returns (r: Result<BoxManager, string>)
    ensures r.Ok? <==> ManagerFromDict(data).Ok?
    ensures r.Ok? ==> fresh(r.value) && (r.value.resolution, r.value.boxList) == ManagerFromDict(data).value
  {
    var resolution :- Field(data, "resolution");
    var res :- PairFromJson(resolution);
    var boxes :- Field(data, "boxes");
    if !boxes.JObject? {
      return Err("AttributeError: 'boxes' has no attribute 'items'");
    }
    var manager := new BoxManager(res);
    var loaded := LoadBoxes(manager, boxes.fields);
    if loaded.Err? {
      return Err(loaded.error);
    }
    r := Ok(manager);
  }
}
