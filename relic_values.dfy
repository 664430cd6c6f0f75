/** Stat values, the insertion-ordered dictionaries relic.py keeps them in, the
    percent-suffix rule and the numeric-core stripping used on export. */
module RelicValues {
  import Results

  /** A stat value as the source receives it: a recognised string, or any other value
      (modelled as an integer). */
  datatype Value = Str(s: string) | Num(n: int)

  /** One `name: value` entry. */
  datatype Stat = Stat(name: string, value: Value)

  /** A Python dict's entries in insertion order hold each key once. */
  ghost predicate UniqueNames(d: seq<Stat>) {
    forall i, j :: 0 <= i < j < |d| ==> d[i].name != d[j].name
  }

  predicate HasName(d: seq<Stat>, key: string) {
    exists i :: 0 <= i < |d| && d[i].name == key
  }

  /** `d.get(key)`. */
  function Lookup(d: seq<Stat>, key: string): (r: Results.Option<Value>)
    ensures r.Some? <==> HasName(d, key)
  {
    if d == [] then Results.None
    else if d[0].name == key then Results.Some(d[0].value)
    else
      assert forall i :: 1 <= i < |d| ==> d[i] == d[1..][i - 1];
      Lookup(d[1..], key)
  }

  /** `d[key] = value`: an existing key keeps its place and takes the new value, a new
      key goes at the end. */
  function Put(d: seq<Stat>, key: string, value: Value): seq<Stat> {
    if d == [] then [Stat(key, value)]
    else if d[0].name == key then [Stat(key, value)] + d[1..]
    else [d[0]] + Put(d[1..], key, value)
  }

  lemma HasNameCons(e: Stat, d: seq<Stat>, k: string)
    ensures HasName([e] + d, k) <==> e.name == k || HasName(d, k)
  {
    var r := [e] + d;
    if HasName(r, k) && e.name != k {
      var i :| 0 <= i < |r| && r[i].name == k;
      assert d[i - 1].name == k;
    }
    if HasName(d, k) {
      var i :| 0 <= i < |d| && d[i].name == k;
      assert r[i + 1].name == k;
    }
    assert r[0] == e;
  }

  lemma LookupCons(e: Stat, d: seq<Stat>, k: string)
    ensures Lookup([e] + d, k) == if e.name == k then Results.Some(e.value) else Lookup(d, k)
  {
    assert ([e] + d)[1..] == d;
  }

  /** After `d[key] = value`, `key` holds `value` and every other key what it held. */
  lemma {:induction false} PutLookup(d: seq<Stat>, key: string, value: Value, k: string)
    ensures Lookup(Put(d, key, value), k) == if k == key then Results.Some(value) else Lookup(d, k)
  {
    if d != [] {
      assert d == [d[0]] + d[1..];
      LookupCons(d[0], d[1..], k);
      if d[0].name == key {
        LookupCons(Stat(key, value), d[1..], k);
      } else {
        PutLookup(d[1..], key, value, k);
        LookupCons(d[0], Put(d[1..], key, value), k);
      }
    }
  }

  /** The keys after `d[key] = value` are those of `d` and `key`. */
  lemma {:induction false} PutHasName(d: seq<Stat>, key: string, value: Value, k: string)
    ensures HasName(Put(d, key, value), k) <==> HasName(d, k) || k == key
  {
    if d == [] {
      assert Put(d, key, value)[0].name == key;
    } else {
      assert d == [d[0]] + d[1..];
      HasNameCons(d[0], d[1..], k);
      if d[0].name == key {
        HasNameCons(Stat(key, value), d[1..], k);
      } else {
        PutHasName(d[1..], key, value, k);
        HasNameCons(d[0], Put(d[1..], key, value), k);
      }
    }
  }

  /** Assigning a present key keeps the length; a new key is appended at the end. */
  lemma {:induction false} PutShape(d: seq<Stat>, key: string, value: Value)
    ensures HasName(d, key) ==> |Put(d, key, value)| == |d|
    ensures !HasName(d, key) ==> Put(d, key, value) == d + [Stat(key, value)]
  {
    if d != [] {
      assert d == [d[0]] + d[1..];
      HasNameCons(d[0], d[1..], key);
      if d[0].name != key {
        PutShape(d[1..], key, value);
      }
    }
  }

  /** Assignment keeps each key at most once. */
  lemma {:induction false} PutUnique(d: seq<Stat>, key: string, value: Value)
    requires UniqueNames(d)
    ensures UniqueNames(Put(d, key, value))
  {
    if d != [] {
      assert d == [d[0]] + d[1..];
      if d[0].name != key {
        PutUnique(d[1..], key, value);
        var rest := Put(d[1..], key, value);
        assert !HasName(d[1..], d[0].name);
        PutHasName(d[1..], key, value, d[0].name);
        var r := [d[0]] + rest;
        forall i, j | 0 <= i < j < |r|
          ensures r[i].name != r[j].name
        {
          if i == 0 {
            assert r[j] == rest[j - 1];
          }
        }
      } else {
        var r := [Stat(key, value)] + d[1..];
        forall i, j | 0 <= i < j < |r|
          ensures r[i].name != r[j].name
        {
          assert r[j] == d[j];
          if i > 0 {
            assert r[i] == d[i];
          }
        }
      }
    }
  }

  /** The dict that assigning the entries of `es` one after another produces. */
  function BuildDict(es: seq<Stat>): (r: seq<Stat>)
    ensures UniqueNames(r)
    ensures |r| <= |es|
  {
    if es == [] then []
    else
      var last := es[|es| - 1];
      var front := BuildDict(es[..|es| - 1]);
      PutUnique(front, last.name, last.value);
      PutShape(front, last.name, last.value);
      Put(front, last.name, last.value)
  }

  /** The value of the last entry of `es` named `key`. */
  function LastValue(es: seq<Stat>, key: string): Results.Option<Value> {
    if es == [] then Results.None
    else if es[|es| - 1].name == key then Results.Some(es[|es| - 1].value)
    else LastValue(es[..|es| - 1], key)
  }

  /** In the built dict, each key holds the value of its last assignment. */
  lemma {:induction false} BuildDictKeepsLast(es: seq<Stat>, key: string)
    ensures Lookup(BuildDict(es), key) == LastValue(es, key)
  {
    if es != [] {
      var last := es[|es| - 1];
      BuildDictKeepsLast(es[..|es| - 1], key);
      PutLookup(BuildDict(es[..|es| - 1]), last.name, last.value, key);
    }
  }

  /** Entries with pairwise different names are kept as they are, in order. */
  lemma {:induction false} BuildDictOfUnique(es: seq<Stat>)
    requires UniqueNames(es)
    ensures BuildDict(es) == es
  {
    if es != [] {
      var front := es[..|es| - 1];
      var last := es[|es| - 1];
      BuildDictOfUnique(front);
      assert !HasName(front, last.name);
      PutShape(front, last.name, last.value);
      assert front + [last] == es;
    }
  }

  /** The suffix that marks the percentage variant of a stat name. */
  const PercentSuffix: string := "百分比"

  /** `_normalize_stat_name_by_value`: the percentage variant of `name` when the value is a
      string with a `%` and that variant is a valid item; `name` otherwise. */
  function NormalizeStatName(name: string, value: Value, validItems: seq<string>): (r: string)
    ensures r == name + PercentSuffix <==> value.Str? && '%' in value.s && name + PercentSuffix in validItems
    ensures r != name + PercentSuffix ==> r == name
  {
    if value.Str? && '%' in value.s && name + PercentSuffix in validItems then name + PercentSuffix
    else
      assert |name + PercentSuffix| > |name|;
      name
  }

  /** A character of the class `[\d.]`. */
  predicate IsNumChar(c: char) {
    '0' <= c <= '9' || c == '.'
  }

  /** The longest prefix of `s` made of `[\d.]` characters. */
  function LeadingRun(s: string): (r: string)
    ensures r <= s
    ensures forall i :: 0 <= i < |r| ==> IsNumChar(r[i])
    ensures |r| == |s| || !IsNumChar(s[|r|])
  {
    if s != [] && IsNumChar(s[0]) then [s[0]] + LeadingRun(s[1..]) else []
  }

  /** `re.search(r'[\d.]+', s).group(0)`, or `""` when there is no match. */
  function NumericCore(s: string): string {
    if s == [] then []
    else if IsNumChar(s[0]) then LeadingRun(s)
    else NumericCore(s[1..])
  }

  /** `_clean_value`: strings are cut to their numeric core, other values pass through. */
  function CleanValue(v: Value): Value {
    if v.Str? then Str(NumericCore(v.s)) else v
  }

  /** The index of the first `[\d.]` character of `s`, or `|s|` when there is none. */
  function FirstNumIndex(s: string): (i: nat)
    ensures i <= |s|
    ensures forall k :: 0 <= k < i ==> !IsNumChar(s[k])
    ensures i < |s| ==> IsNumChar(s[i])
  {
    if s == [] || IsNumChar(s[0]) then 0
    else
      var j := FirstNumIndex(s[1..]);
      assert forall k :: 0 < k <= j ==> s[k] == s[1..][k - 1];
      1 + j
  }

  lemma {:induction false} NumericCoreFrom(s: string)
    ensures NumericCore(s) == LeadingRun(s[FirstNumIndex(s)..])
  {
    if s != [] && !IsNumChar(s[0]) {
      NumericCoreFrom(s[1..]);
      assert s[1..][FirstNumIndex(s[1..])..] == s[FirstNumIndex(s)..];
    } else if s != [] {
      assert s[0..] == s;
    }
  }

  /** The numeric core is the leftmost maximal run of digits and dots, or empty if there
      is none. */
  lemma NumericCoreIsLeftmostRun(s: string)
    ensures (forall i :: 0 <= i < |s| ==> !IsNumChar(s[i])) ==> NumericCore(s) == []
    ensures (exists i :: 0 <= i < |s| && IsNumChar(s[i])) ==>
      exists i :: 0 <= i < |s| && IsNumChar(s[i]) && (forall k :: 0 <= k < i ==> !IsNumChar(s[k]))
        && NumericCore(s) == LeadingRun(s[i..])
  {
    NumericCoreFrom(s);
    var i := FirstNumIndex(s);
    if i == |s| {
      assert s[i..] == [];
    }
  }

  lemma {:induction false} LeadingRunOfRun(s: string)
    requires forall i :: 0 <= i < |s| ==> IsNumChar(s[i])
    ensures LeadingRun(s) == s
  {
    if s != [] {
      LeadingRunOfRun(s[1..]);
    }
  }

  /** Cleaning an already cleaned value changes nothing. */
  lemma CleanValueIdempotent(v: Value)
    ensures CleanValue(CleanValue(v)) == CleanValue(v)
  {
    if v.Str? {
      var s := v.s;
      NumericCoreIsLeftmostRun(s);
      var core := NumericCore(s);
      if exists i :: 0 <= i < |s| && IsNumChar(s[i]) {
        var i :| 0 <= i < |s| && IsNumChar(s[i]) && (forall k :: 0 <= k < i ==> !IsNumChar(s[k]))
          && core == LeadingRun(s[i..]);
        LeadingRunOfRun(core);
      }
    }
  }
}
