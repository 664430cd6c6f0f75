/** The `Relic` constructor of relic.py: set and name resolution, stat validation,
    duplicate sub-stat keys, and the export of `to_dict`. */
module Relics {
  import Results
  import opened Strings
  import opened CloseMatches
  import opened Validation
  import opened RelicValues

  /** The class-level vocabulary of `Relic`, passed explicitly. `namesBySet` holds the items
      of the `valid_names_by_set` dict in insertion order. */
  datatype Vocabulary = Vocabulary(
    validLocations: seq<string>,
    validItems: seq<string>,
    validSets: seq<string>,
    namesBySet: seq<(string, seq<string>)>)

  /** `item_detail["sub"]`: a list of pairs, a dict, or a value of some other type. */
  datatype SubInput = StatList(pairs: seq<Stat>) | StatDict(entries: seq<Stat>) | OtherShape

  /** `item_detail`, with `None` for a key that is absent. */
  datatype ItemDetail = ItemDetail(main: Results.Option<seq<Stat>>, sub: Results.Option<SubInput>)

  /** A constructed relic. */
  datatype Relic = Relic(
    name: string,
    location: string,
    level: Value,
    mainStat: Stat,
    subStats: seq<Stat>,
    itemNumber: int,
    fromSet: string,
    threshold: real)

  const AmbiguousSetHint: string := "该名字对应多个套装，请指定 from_set 参数"
  const UnknownSetHint: string := "该名字不属于任何已知套装"
  const MainShapeMessage: string := "主词条 item_detail.main 必须包含一个且仅一个属性"
  const SubShapeMessage: string := "item_detail.sub 必须是 dict 或 list 格式"
  const HintTypeErrorMessage: string := "ValidationError.__init__() got an unexpected keyword argument 'hint'"

  /** `valid_names_by_set.get(setName, [])`: the list of the first pair named `setName`,
      or empty when no pair has that name. */
  function SetMembers(namesBySet: seq<(string, seq<string>)>, setName: string): (r: seq<string>)
    ensures (forall i :: 0 <= i < |namesBySet| ==> namesBySet[i].0 != setName) ==> r == []
    ensures forall i ::
      (0 <= i < |namesBySet| && namesBySet[i].0 == setName && forall j :: 0 <= j < i ==> namesBySet[j].0 != setName)
      ==> r == namesBySet[i].1
    ensures r == [] || exists i :: 0 <= i < |namesBySet| && namesBySet[i].0 == setName && namesBySet[i].1 == r
  {
    if namesBySet == [] then []
    else if namesBySet[0].0 == setName then namesBySet[0].1
    else
      var tail := namesBySet[1..];
      var r := SetMembers(tail, setName);
      assert (forall i :: 0 <= i < |namesBySet| ==> namesBySet[i].0 != setName) ==> r == [] by {
        if forall i :: 0 <= i < |namesBySet| ==> namesBySet[i].0 != setName {
          assert forall i :: 0 <= i < |tail| ==> tail[i] == namesBySet[i + 1];
        }
      }
      assert forall i ::
        (0 <= i < |namesBySet| && namesBySet[i].0 == setName && forall j :: 0 <= j < i ==> namesBySet[j].0 != setName)
        ==> r == namesBySet[i].1 by {
        forall i | 0 <= i < |namesBySet| && namesBySet[i].0 == setName
                   && (forall j :: 0 <= j < i ==> namesBySet[j].0 != setName)
          ensures r == namesBySet[i].1
        {
          assert i > 0 && tail[i - 1] == namesBySet[i];
          forall j | 0 <= j < i - 1
            ensures tail[j].0 != setName
          {
            assert tail[j] == namesBySet[j + 1];
          }
        }
      }
      assert r != [] ==> exists i :: 0 <= i < |namesBySet| && namesBySet[i].0 == setName && namesBySet[i].1 == r by {
        if r != [] {
          var i :| 0 <= i < |tail| && tail[i].0 == setName && tail[i].1 == r;
          assert namesBySet[i + 1] == tail[i];
        }
      }
      r
  }

  /** `sum(valid_names_by_set.values(), [])`: every set's names, one list after another. */
  function AllNames(namesBySet: seq<(string, seq<string>)>): seq<string> {
    if namesBySet == [] then [] else namesBySet[0].1 + AllNames(namesBySet[1..])
  }

  /** The sets whose name list holds `name`, in dict order. */
  function MatchedSets(namesBySet: seq<(string, seq<string>)>, name: string): (r: seq<string>)
    ensures |r| <= |namesBySet|
  {
    if namesBySet == [] then []
    else (if name in namesBySet[0].1 then [namesBySet[0].0] else []) + MatchedSets(namesBySet[1..], name)
  }

  /** A name is among all names exactly when some set lists it. */
  lemma {:induction false} InAllNames(namesBySet: seq<(string, seq<string>)>, x: string)
    ensures x in AllNames(namesBySet) <==> exists i :: 0 <= i < |namesBySet| && x in namesBySet[i].1
  {
    if namesBySet != [] {
      InAllNames(namesBySet[1..], x);
      if exists i :: 0 <= i < |namesBySet| && x in namesBySet[i].1 {
        var i :| 0 <= i < |namesBySet| && x in namesBySet[i].1;
        if i > 0 {
          assert namesBySet[1..][i - 1] == namesBySet[i];
        }
      }
      if exists i :: 0 <= i < |namesBySet[1..]| && x in namesBySet[1..][i].1 {
        var i :| 0 <= i < |namesBySet[1..]| && x in namesBySet[1..][i].1;
        assert namesBySet[i + 1] == namesBySet[1..][i];
      }
    }
  }

  /** A set is matched exactly when it is listed with `name` among its names. */
  lemma {:induction false} InMatchedSets(namesBySet: seq<(string, seq<string>)>, name: string, s: string)
    ensures s in MatchedSets(namesBySet, name)
        <==> exists i :: 0 <= i < |namesBySet| && namesBySet[i].0 == s && name in namesBySet[i].1
  {
    if namesBySet != [] {
      InMatchedSets(namesBySet[1..], name, s);
      if exists i :: 0 <= i < |namesBySet| && namesBySet[i].0 == s && name in namesBySet[i].1 {
        var i :| 0 <= i < |namesBySet| && namesBySet[i].0 == s && name in namesBySet[i].1;
        if i > 0 {
          assert namesBySet[1..][i - 1] == namesBySet[i];
        }
      }
      if exists i :: 0 <= i < |namesBySet[1..]| && namesBySet[1..][i].0 == s && name in namesBySet[1..][i].1 {
        var i :| 0 <= i < |namesBySet[1..]| && namesBySet[1..][i].0 == s && name in namesBySet[1..][i].1;
        assert namesBySet[i + 1] == namesBySet[1..][i];
      }
    }
  }

  /** Lines 37-65 of the constructor: the set and the name, as `(from_set, name)`.
      A given set is validated and the name checked against that set's names; otherwise
      the name is checked against all names and its set inferred. The two errors of the
      inference carry their hint (see `ResolveSetAndNameAsWritten` for what the source
      actually raises there). */
  function ResolveSetAndName(voc: Vocabulary, name: string, fromSet: string, threshold: real, sim: Similarity)
    : Outcome<(string, string)>
  {
    if fromSet != "" then
      var setName :- Validate("from_set", fromSet, voc.validSets, threshold, sim);
      var validName :- Validate("name", name, SetMembers(voc.namesBySet, setName), threshold, sim);
      Ok((setName, validName))
    else
      var allNames := AllNames(voc.namesBySet);
      var validName :- Validate("name", name, allNames, threshold, sim);
      var matched := MatchedSets(voc.namesBySet, validName);
      if |matched| == 1 then Ok((matched[0], validName))
      else
        var hint := if |matched| > 1 then AmbiguousSetHint else UnknownSetHint;
        ValidationErr(ValidationError("name", name, allNames, SuggestSimilar(name, allNames, sim), Results.Some(hint)))
  }

  /** The same lines as the source runs them: `ValidationError.__init__` takes no `hint`
      keyword, so both inference errors surface as a `TypeError`. */
  function ResolveSetAndNameAsWritten(voc: Vocabulary, name: string, fromSet: string, threshold: real, sim: Similarity)
    : (r: Outcome<(string, string)>)
    ensures r.TypeErr? <==>
      && fromSet == ""
      && Validate("name", name, AllNames(voc.namesBySet), threshold, sim).Ok?
      && |MatchedSets(voc.namesBySet, Validate("name", name, AllNames(voc.namesBySet), threshold, sim).value)| != 1
  {
    match ResolveSetAndName(voc, name, fromSet, threshold, sim)
    case ValidationErr(e) => if e.hint.Some? then TypeErr(HintTypeErrorMessage) else ValidationErr(e)
    case other => other
  }

  /** With a set given, the stored set is a valid set and the name one of that set's names. */
  lemma GivenSetHoldsName(voc: Vocabulary, name: string, fromSet: string, threshold: real, sim: Similarity)
    requires PlainList(voc.validSets) && PlainList(AllNames(voc.namesBySet))
    requires fromSet != ""
    requires ResolveSetAndName(voc, name, fromSet, threshold, sim).Ok?
    ensures var (setName, validName) := ResolveSetAndName(voc, name, fromSet, threshold, sim).value;
      setName in voc.validSets && validName in SetMembers(voc.namesBySet, setName)
  {
    var setName := Validate("from_set", fromSet, voc.validSets, threshold, sim).value;
    ValidateReturnsEntry("from_set", fromSet, voc.validSets, threshold, sim);
    var members := SetMembers(voc.namesBySet, setName);
    assert PlainList(members) by {
      forall i | 0 <= i < |members|
        ensures PlainEntry(members[i])
      {
        var k :| 0 <= k < |voc.namesBySet| && voc.namesBySet[k].0 == setName && voc.namesBySet[k].1 == members;
        InAllNames(voc.namesBySet, members[i]);
        var all := AllNames(voc.namesBySet);
        var j :| 0 <= j < |all| && all[j] == members[i];
        assert PlainEntry(all[j]);
      }
    }
    ValidateReturnsEntry("name", name, members, threshold, sim);
  }

  /** Without a set, the name is known to exactly one set, and that set is adopted. */
  lemma InferredSetIsUnique(voc: Vocabulary, name: string, threshold: real, sim: Similarity)
    requires PlainList(AllNames(voc.namesBySet))
    requires ResolveSetAndName(voc, name, "", threshold, sim).Ok?
    ensures var (setName, validName) := ResolveSetAndName(voc, name, "", threshold, sim).value;
      && validName in AllNames(voc.namesBySet)
      && MatchedSets(voc.namesBySet, validName) == [setName]
  {
    ValidateReturnsEntry("name", name, AllNames(voc.namesBySet), threshold, sim);
  }

  /** Without a set, a name found in two or more sets aborts construction. */
  lemma AmbiguousNameFails(voc: Vocabulary, name: string, threshold: real, sim: Similarity)
    requires Validate("name", name, AllNames(voc.namesBySet), threshold, sim).Ok?
    requires |MatchedSets(voc.namesBySet, Validate("name", name, AllNames(voc.namesBySet), threshold, sim).value)| >= 2
    ensures var r := ResolveSetAndName(voc, name, "", threshold, sim);
      r.ValidationErr? && r.error.hint == Results.Some(AmbiguousSetHint)
  {
  }

  /** Without a set, a validated name always lies in some set, so the "unknown set" error
      is unreachable when the names are plain. */
  lemma InferredNameHasSet(voc: Vocabulary, name: string, threshold: real, sim: Similarity)
    requires PlainList(AllNames(voc.namesBySet))
    requires Validate("name", name, AllNames(voc.namesBySet), threshold, sim).Ok?
    ensures |MatchedSets(voc.namesBySet, Validate("name", name, AllNames(voc.namesBySet), threshold, sim).value)| >= 1
  {
    var validName := Validate("name", name, AllNames(voc.namesBySet), threshold, sim).value;
    ValidateReturnsEntry("name", name, AllNames(voc.namesBySet), threshold, sim);
    InAllNames(voc.namesBySet, validName);
    var i :| 0 <= i < |voc.namesBySet| && validName in voc.namesBySet[i].1;
    InMatchedSets(voc.namesBySet, validName, voc.namesBySet[i].0);
  }

  /** `_parse_single_kv`: the one entry of the main-stat dict. */
  function ParseSingle(d: seq<Stat>): (r: Outcome<Stat>)
    ensures r.Ok? <==> |d| == 1
    ensures r.Ok? ==> r.value == d[0]
    ensures !r.Ok? ==> r == StructuralErr(MainShapeMessage)
  {
    if |d| != 1 then StructuralErr(MainShapeMessage) else Ok(d[0])
  }

  /** The names `_validate` gives the entries, in order, or the first error. */
  function ValidatedNames(ps: seq<Stat>, validItems: seq<string>, threshold: real, sim: Similarity): (r: Outcome<seq<string>>)
    ensures r.Ok? ==> |r.value| == |ps|
    ensures !r.TypeErr?
  {
    if ps == [] then Ok([])
    else
      var front :- ValidatedNames(ps[..|ps| - 1], validItems, threshold, sim);
      var validName :- ValidateSubName(ps[|ps| - 1], validItems, threshold, sim);
      Ok(front + [validName])
  }

  /** Once an entry fails, the whole list fails with that entry's error. */
  lemma {:induction false} ValidatedNamesFailurePersists(ps: seq<Stat>, j: nat, validItems: seq<string>, threshold: real, sim: Similarity)
    requires j <= |ps|
    requires !ValidatedNames(ps[..j], validItems, threshold, sim).Ok?
    ensures ValidatedNames(ps, validItems, threshold, sim) == ValidatedNames(ps[..j], validItems, threshold, sim)
  {
    if j < |ps| {
      assert ps[..|ps| - 1][..j] == ps[..j];
      ValidatedNamesFailurePersists(ps[..|ps| - 1], j, validItems, threshold, sim);
    } else {
      assert ps[..j] == ps;
    }
  }

  /** Every validated sub-stat name is a valid item, if the items are plain. */
  lemma {:induction false} ValidatedNamesAreItems(ps: seq<Stat>, validItems: seq<string>, threshold: real, sim: Similarity)
    requires PlainList(validItems)
    requires ValidatedNames(ps, validItems, threshold, sim).Ok?
    ensures forall i :: 0 <= i < |ps| ==> ValidatedNames(ps, validItems, threshold, sim).value[i] in validItems
  {
    if ps != [] {
      var last := ps[|ps| - 1];
      ValidatedNamesAreItems(ps[..|ps| - 1], validItems, threshold, sim);
      ValidateReturnsEntry("item_detail.sub.name", NormalizeStatName(last.name, last.value, validItems), validItems, threshold, sim);
    }
  }

  /** The key of a sub stat whose validated name occurred `earlier` times before it: the
      bare name the first time, `name#k` for the k-th occurrence. */
  function OccurrenceKey(name: string, earlier: nat): string {
    if earlier == 0 then name else name + "#" + NatToString(earlier + 1)
  }

  /** Each entry of a list input under its occurrence key, in input order. */
  function KeyedEntries(names: seq<string>, ps: seq<Stat>): (r: seq<Stat>)
    requires |names| == |ps|
    ensures |r| == |ps|
  {
    seq(|ps|, k requires 0 <= k < |ps| => Stat(OccurrenceKey(names[k], multiset(names[..k])[names[k]]), ps[k].value))
  }

  /** Each entry of a dict input under its validated name, in input order. */
  function RenamedEntries(names: seq<string>, ps: seq<Stat>): (r: seq<Stat>)
    requires |names| == |ps|
    ensures |r| == |ps|
  {
    seq(|ps|, k requires 0 <= k < |ps| => Stat(names[k], ps[k].value))
  }

  /** `sub_stats` for a list input (lines 83-94). */
  function ListSubStatsSpec(ps: seq<Stat>, validItems: seq<string>, threshold: real, sim: Similarity): Outcome<seq<Stat>> {
    var names :- ValidatedNames(ps, validItems, threshold, sim);
    Ok(BuildDict(KeyedEntries(names, ps)))
  }

  /** `sub_stats` for a dict input (lines 96-100). */
  function DictSubStatsSpec(es: seq<Stat>, validItems: seq<string>, threshold: real, sim: Similarity): Outcome<seq<Stat>> {
    var names :- ValidatedNames(es, validItems, threshold, sim);
    Ok(BuildDict(RenamedEntries(names, es)))
  }

  /** `sub_stats` for any input shape (lines 80-103). */
  function SubStatsSpec(sub: SubInput, validItems: seq<string>, threshold: real, sim: Similarity): Outcome<seq<Stat>> {
    match sub
    case StatList(ps) => ListSubStatsSpec(ps, validItems, threshold, sim)
    case StatDict(es) => DictSubStatsSpec(es, validItems, threshold, sim)
    case OtherShape => StructuralErr(SubShapeMessage)
  }

  /** `_validate` applied to a sub-stat entry, after the percent renaming. */
  function ValidateSubName(p: Stat, validItems: seq<string>, threshold: real, sim: Similarity): Outcome<string> {
    Validate("item_detail.sub.name", NormalizeStatName(p.name, p.value, validItems), validItems, threshold, sim)
  }

  lemma ValidatedNamesStep(ps: seq<Stat>, i: nat, names: seq<string>, validItems: seq<string>, threshold: real, sim: Similarity)
    requires i < |ps|
    requires ValidatedNames(ps[..i], validItems, threshold, sim) == Ok(names)
    ensures var v := ValidateSubName(ps[i], validItems, threshold, sim);
      && (v.Ok? ==> ValidatedNames(ps[..i + 1], validItems, threshold, sim) == Ok(names + [v.value]))
      && (!v.Ok? ==> ValidatedNames(ps, validItems, threshold, sim) == v.PropagateFailure())
  {
    assert ps[..i + 1][..i] == ps[..i];
    var v := ValidateSubName(ps[i], validItems, threshold, sim);
    if !v.Ok? {
      ValidatedNamesFailurePersists(ps, i + 1, validItems, threshold, sim);
    }
  }

  lemma KeyedEntriesSnoc(names: seq<string>, ps: seq<Stat>, name: string, p: Stat)
    requires |names| == |ps|
    ensures KeyedEntries(names + [name], ps + [p])
         == KeyedEntries(names, ps) + [Stat(OccurrenceKey(name, multiset(names)[name]), p.value)]
  {
    var l, r := KeyedEntries(names + [name], ps + [p]), KeyedEntries(names, ps) + [Stat(OccurrenceKey(name, multiset(names)[name]), p.value)];
    forall k | 0 <= k < |l|
      ensures l[k] == r[k]
    {
      if k < |names| {
        assert (names + [name])[..k] == names[..k];
      } else {
        assert (names + [name])[..k] == names;
      }
    }
  }

  lemma BuildDictSnoc(es: seq<Stat>, e: Stat)
    ensures BuildDict(es + [e]) == Put(BuildDict(es), e.name, e.value)
  {
    assert (es + [e])[..|es|] == es;
  }

  /** What the list loop knows after `i` entries: the names so far, their counts, and the dict. */
  ghost predicate ListLoopInv(ps: seq<Stat>, i: nat, names: seq<string>, counts: map<string, nat>, subStats: seq<Stat>,
                              validItems: seq<string>, threshold: real, sim: Similarity)
  {
    && i <= |ps|
    && ValidatedNames(ps[..i], validItems, threshold, sim) == Ok(names)
    && (forall x :: multiset(names)[x] == if x in counts then counts[x] else 0)
    && subStats == BuildDict(KeyedEntries(names, ps[..i]))
  }

  lemma ListLoopStep(ps: seq<Stat>, i: nat, names: seq<string>, counts: map<string, nat>, subStats: seq<Stat>,
                     validItems: seq<string>, threshold: real, sim: Similarity, validName: string)
    requires i < |ps| && ListLoopInv(ps, i, names, counts, subStats, validItems, threshold, sim)
    requires ValidateSubName(ps[i], validItems, threshold, sim) == Ok(validName)
    ensures var count := if validName in counts then counts[validName] else 0;
      ListLoopInv(ps, i + 1, names + [validName], counts[validName := count + 1],
                  Put(subStats, OccurrenceKey(validName, count), ps[i].value), validItems, threshold, sim)
  {
    var count := if validName in counts then counts[validName] else 0;
    ValidatedNamesStep(ps, i, names, validItems, threshold, sim);
    assert count == multiset(names)[validName];
    KeyedStep(ps, i, names, validName);
    CountsStep(names, counts, validName);
  }

  lemma KeyedStep(ps: seq<Stat>, i: nat, names: seq<string>, name: string)
    requires i < |ps| && |names| == i
    ensures BuildDict(KeyedEntries(names + [name], ps[..i + 1]))
         == Put(BuildDict(KeyedEntries(names, ps[..i])), OccurrenceKey(name, multiset(names)[name]), ps[i].value)
  {
    assert ps[..i + 1] == ps[..i] + [ps[i]];
    KeyedEntriesSnoc(names, ps[..i], name, ps[i]);
    BuildDictSnoc(KeyedEntries(names, ps[..i]), Stat(OccurrenceKey(name, multiset(names)[name]), ps[i].value));
  }

  lemma CountsStep(names: seq<string>, counts: map<string, nat>, name: string)
    requires forall x :: multiset(names)[x] == if x in counts then counts[x] else 0
    ensures var count := if name in counts then counts[name] else 0;
      forall x :: multiset(names + [name])[x] == if x in counts[name := count + 1] then counts[name := count + 1][x] else 0
  {
  }

  lemma ListLoopFail(ps: seq<Stat>, i: nat, names: seq<string>, validItems: seq<string>, threshold: real, sim: Similarity)
    requires i < |ps| && ValidatedNames(ps[..i], validItems, threshold, sim) == Ok(names)
    requires !ValidateSubName(ps[i], validItems, threshold, sim).Ok?
    ensures ListSubStatsSpec(ps, validItems, threshold, sim) == ValidateSubName(ps[i], validItems, threshold, sim).PropagateFailure()
    ensures DictSubStatsSpec(ps, validItems, threshold, sim) == ValidateSubName(ps[i], validItems, threshold, sim).PropagateFailure()
  {
    ValidatedNamesStep(ps, i, names, validItems, threshold, sim);
  }

  /** What the dict loop knows after `i` entries. */
  ghost predicate DictLoopInv(es: seq<Stat>, i: nat, names: seq<string>, subStats: seq<Stat>,
                              validItems: seq<string>, threshold: real, sim: Similarity)
  {
    && i <= |es|
    && ValidatedNames(es[..i], validItems, threshold, sim) == Ok(names)
    && subStats == BuildDict(RenamedEntries(names, es[..i]))
  }

  lemma DictLoopStep(es: seq<Stat>, i: nat, names: seq<string>, subStats: seq<Stat>,
                     validItems: seq<string>, threshold: real, sim: Similarity, validName: string)
    requires i < |es| && DictLoopInv(es, i, names, subStats, validItems, threshold, sim)
    requires ValidateSubName(es[i], validItems, threshold, sim) == Ok(validName)
    ensures DictLoopInv(es, i + 1, names + [validName], Put(subStats, validName, es[i].value), validItems, threshold, sim)
  {
    ValidatedNamesStep(es, i, names, validItems, threshold, sim);
    RenamedStep(es, i, names, validName);
  }

  lemma RenamedStep(es: seq<Stat>, i: nat, names: seq<string>, name: string)
    requires i < |es| && |names| == i
    ensures BuildDict(RenamedEntries(names + [name], es[..i + 1]))
         == Put(BuildDict(RenamedEntries(names, es[..i])), name, es[i].value)
  {
    assert es[..i + 1] == es[..i] + [es[i]];
    assert RenamedEntries(names + [name], es[..i + 1]) == RenamedEntries(names, es[..i]) + [Stat(name, es[i].value)];
    BuildDictSnoc(RenamedEntries(names, es[..i]), Stat(name, es[i].value));
  }

  /** The loop of lines 83-94, with its `defaultdict` of occurrence counts. */
  method ListSubStats(ps: seq<Stat>, validItems: seq<string>, threshold: real, sim: Similarity)
    returns (r: Outcome<seq<Stat>>)
    ensures r == ListSubStatsSpec(ps, validItems, threshold, sim)
  {
    var counts: map<string, nat> := map[];
    var subStats: seq<Stat> := [];
    ghost var names: seq<string> := [];
    var i := 0;
    assert ps[..0] == [];
    while i < |ps|
      invariant ListLoopInv(ps, i, names, counts, subStats, validItems, threshold, sim)
    {
      var subName, subValue := ps[i].name, ps[i].value;
      var normalized := NormalizeStatName(subName, subValue, validItems);
      var validated := Validate("item_detail.sub.name", normalized, validItems, threshold, sim);
      assert validated == ValidateSubName(ps[i], validItems, threshold, sim);
      if !validated.Ok? {
        ListLoopFail(ps, i, names, validItems, threshold, sim);
        return validated.PropagateFailure();
      }
      var validName := validated.value;
      var count := if validName in counts then counts[validName] else 0;
      var key := if count != 0 then validName + "#" + NatToString(count + 1) else validName;
      ListLoopStep(ps, i, names, counts, subStats, validItems, threshold, sim, validName);
      subStats := Put(subStats, key, subValue);
      counts := counts[validName := count + 1];
      names := names + [validName];
      i := i + 1;
    }
    assert ps[..i] == ps;
    r := Ok(subStats);
  }

  /** The loop of lines 96-100. */
  method DictSubStats(es: seq<Stat>, validItems: seq<string>, threshold: real, sim: Similarity)
    returns (r: Outcome<seq<Stat>>)
    ensures r == DictSubStatsSpec(es, validItems, threshold, sim)
  {
    var subStats: seq<Stat> := [];
    ghost var names: seq<string> := [];
    var i := 0;
    assert es[..0] == [];
    while i < |es|
      invariant DictLoopInv(es, i, names, subStats, validItems, threshold, sim)
    {
      var subName, subValue := es[i].name, es[i].value;
      var normalized := NormalizeStatName(subName, subValue, validItems);
      var validated := Validate("item_detail.sub.name", normalized, validItems, threshold, sim);
      assert validated == ValidateSubName(es[i], validItems, threshold, sim);
      if !validated.Ok? {
        ListLoopFail(es, i, names, validItems, threshold, sim);
        return validated.PropagateFailure();
      }
      var validName := validated.value;
      DictLoopStep(es, i, names, subStats, validItems, threshold, sim, validName);
      subStats := Put(subStats, validName, subValue);
      names := names + [validName];
      i := i + 1;
    }
    assert es[..i] == es;
    r := Ok(subStats);
  }

  /** Lines 80-103: dispatch on the shape of `item_detail["sub"]`. */
  method SubStats(sub: SubInput, validItems: seq<string>, threshold: real, sim: Similarity)
    returns (r: Outcome<seq<Stat>>)
    ensures r == SubStatsSpec(sub, validItems, threshold, sim)
  {
    match sub {
      case StatList(ps) =>
        r := ListSubStats(ps, validItems, threshold, sim);
      case StatDict(es) =>
        r := DictSubStats(es, validItems, threshold, sim);
      case OtherShape =>
        r := StructuralErr(SubShapeMessage);
    }
  }

  /** What `Relic(name, location, level, item_detail, from_set, threshold)` constructs, with
      the set and name resolved as the source runs it (`ResolveSetAndNameAsWritten`). */
  function RelicSpec(voc: Vocabulary, sim: Similarity, name: string, location: string, level: Value,
                     detail: ItemDetail, fromSet: string, threshold: real): Outcome<Relic>
  {
    var resolved :- ResolveSetAndNameAsWritten(voc, name, fromSet, threshold, sim);
    RelicFromResolved(voc, sim, resolved, location, level, detail, threshold)
  }

  /** The constructor as intended: the inference errors surface as `ValidationError`s
      carrying their hint. */
  function RelicSpecIntended(voc: Vocabulary, sim: Similarity, name: string, location: string, level: Value,
                             detail: ItemDetail, fromSet: string, threshold: real): Outcome<Relic>
  {
    var resolved :- ResolveSetAndName(voc, name, fromSet, threshold, sim);
    RelicFromResolved(voc, sim, resolved, location, level, detail, threshold)
  }

  /** Lines 67-107, once the set and the name are resolved as `(from_set, name)`. */
  function RelicFromResolved(voc: Vocabulary, sim: Similarity, resolved: (string, string), location: string,
                             level: Value, detail: ItemDetail, threshold: real): (r: Outcome<Relic>)
    ensures !r.TypeErr?
  {
    var validLocation :- Validate("location", location, voc.validLocations, threshold, sim);
    var main :- ParseSingle(detail.main.GetOr([]));
    var mainName :- Validate("item_detail.main.name", NormalizeStatName(main.name, main.value, voc.validItems),
                             voc.validItems, threshold, sim);
    var subStats :- SubStatsSpec(detail.sub.GetOr(StatDict([])), voc.validItems, threshold, sim);
    Ok(Relic(resolved.1, validLocation, level, Stat(mainName, main.value), subStats, 1 + |subStats|,
             resolved.0, threshold))
  }

  /** The constructor as written and as intended differ only where the hinted raise of
      lines 55-65 fails: there the source gives a `TypeError` and the intended constructor
      the hinted `ValidationError`; on every other input they agree. */
  lemma RelicSpecDiffersOnlyByHint(voc: Vocabulary, sim: Similarity, name: string, location: string, level: Value,
                                   detail: ItemDetail, fromSet: string, threshold: real)
    ensures var written := RelicSpec(voc, sim, name, location, level, detail, fromSet, threshold);
      var intended := RelicSpecIntended(voc, sim, name, location, level, detail, fromSet, threshold);
      && (written.TypeErr? <==> ResolveSetAndNameAsWritten(voc, name, fromSet, threshold, sim).TypeErr?)
      && (written.TypeErr? ==>
            written == TypeErr(HintTypeErrorMessage) && intended.ValidationErr? && intended.error.hint.Some?)
      && (!written.TypeErr? ==> written == intended)
  {
    var w := ResolveSetAndNameAsWritten(voc, name, fromSet, threshold, sim);
    var c := ResolveSetAndName(voc, name, fromSet, threshold, sim);
    if w.TypeErr? {
      assert c.ValidationErr? && c.error.hint.Some?;
      assert RelicSpec(voc, sim, name, location, level, detail, fromSet, threshold) == TypeErr(HintTypeErrorMessage);
    } else {
      assert c == w;
    }
  }

  /** `Relic.__init__`, field by field; construction either completes or raises. */
  method Build(voc: Vocabulary, sim: Similarity, name: string, location: string, level: Value,
               detail: ItemDetail, fromSet: string, threshold: real)
    returns (r: Outcome<Relic>)
    ensures r == RelicSpec(voc, sim, name, location, level, detail, fromSet, threshold)
  {
    var resolved :- ResolveSetAndNameAsWritten(voc, name, fromSet, threshold, sim);
    var validLocation :- Validate("location", location, voc.validLocations, threshold, sim);
    var main :- ParseSingle(detail.main.GetOr([]));
    var normalizedMain := NormalizeStatName(main.name, main.value, voc.validItems);
    var mainName :- Validate("item_detail.main.name", normalizedMain, voc.validItems, threshold, sim);
    var subStats :- SubStats(detail.sub.GetOr(StatDict([])), voc.validItems, threshold, sim);
    r := Ok(Relic(resolved.1, validLocation, level, Stat(mainName, main.value), subStats, 1 + |subStats|,
                  resolved.0, threshold));
  }

  /** No valid item spells the occurrence separator. */
  ghost predicate NoHash(validItems: seq<string>) {
    forall i :: 0 <= i < |validItems| ==> '#' !in validItems[i]
  }

  /** The name a key was made from is what precedes its first `#`. */
  lemma OccurrenceKeyName(name: string, earlier: nat)
    requires '#' !in name
    ensures BeforeFirst(OccurrenceKey(name, earlier), '#') == name
  {
    if earlier > 0 {
      BeforeFirstOfPrefix(name, NatToString(earlier + 1), '#');
    }
  }

  /** Two occurrences of the same name get different keys. */
  lemma OccurrenceKeyInjective(name: string, a: nat, b: nat)
    requires '#' !in name
    requires OccurrenceKey(name, a) == OccurrenceKey(name, b)
    ensures a == b
  {
    var ka, kb := OccurrenceKey(name, a), OccurrenceKey(name, b);
    if a > 0 && b > 0 {
      assert ka[|name| + 1..] == NatToString(a + 1);
      assert kb[|name| + 1..] == NatToString(b + 1);
      NatToStringInjective(a + 1, b + 1);
    }
  }

  lemma EarlierOccurrences(names: seq<string>, i: nat, j: nat)
    requires i < j <= |names|
    ensures multiset(names[..j])[names[i]] > multiset(names[..i])[names[i]]
  {
    assert names[..j] == names[..i] + [names[i]] + names[i + 1..j];
  }

  /** When no name has a `#`, the occurrence keys are pairwise distinct. */
  lemma KeyedEntriesUnique(names: seq<string>, ps: seq<Stat>)
    requires |names| == |ps|
    requires forall k :: 0 <= k < |names| ==> '#' !in names[k]
    ensures UniqueNames(KeyedEntries(names, ps))
  {
    var r := KeyedEntries(names, ps);
    forall i, j | 0 <= i < j < |r|
      ensures r[i].name != r[j].name
    {
      var ci, cj := multiset(names[..i])[names[i]], multiset(names[..j])[names[j]];
      if r[i].name == r[j].name {
        OccurrenceKeyName(names[i], ci);
        OccurrenceKeyName(names[j], cj);
        assert names[i] == names[j];
        EarlierOccurrences(names, i, j);
        OccurrenceKeyInjective(names[i], ci, cj);
        assert false;
      }
    }
  }

  /** A list input keeps every entry, in order, each under its occurrence key, provided the
      valid items are plain and none contains `#`. */
  lemma ListSubStatsKeepsEachEntry(ps: seq<Stat>, validItems: seq<string>, threshold: real, sim: Similarity)
    requires PlainList(validItems) && NoHash(validItems)
    requires ListSubStatsSpec(ps, validItems, threshold, sim).Ok?
    ensures var subs := ListSubStatsSpec(ps, validItems, threshold, sim).value;
      var names := ValidatedNames(ps, validItems, threshold, sim).value;
      && subs == KeyedEntries(names, ps)
      && |subs| == |ps|
      && forall k :: 0 <= k < |ps| ==>
           && subs[k].value == ps[k].value
           && BeforeFirst(subs[k].name, '#') == names[k]
           && names[k] in validItems
  {
    var names := ValidatedNames(ps, validItems, threshold, sim).value;
    ValidatedNamesAreItems(ps, validItems, threshold, sim);
    forall k | 0 <= k < |names|
      ensures '#' !in names[k]
    {
      var j :| 0 <= j < |validItems| && validItems[j] == names[k];
    }
    KeyedEntriesUnique(names, ps);
    BuildDictOfUnique(KeyedEntries(names, ps));
    forall k | 0 <= k < |ps|
      ensures BeforeFirst(KeyedEntries(names, ps)[k].name, '#') == names[k]
    {
      OccurrenceKeyName(names[k], multiset(names[..k])[names[k]]);
    }
  }

  /** A dict input keeps, for each validated name, the value of its last entry. */
  lemma DictSubStatsKeepsLast(es: seq<Stat>, validItems: seq<string>, threshold: real, sim: Similarity)
    requires DictSubStatsSpec(es, validItems, threshold, sim).Ok?
    ensures var subs := DictSubStatsSpec(es, validItems, threshold, sim).value;
      var names := ValidatedNames(es, validItems, threshold, sim).value;
      && |subs| <= |es|
      && UniqueNames(subs)
      && forall key :: Lookup(subs, key) == LastValue(RenamedEntries(names, es), key)
  {
    var names := ValidatedNames(es, validItems, threshold, sim).value;
    forall key
      ensures Lookup(BuildDict(RenamedEntries(names, es)), key) == LastValue(RenamedEntries(names, es), key)
    {
      BuildDictKeepsLast(RenamedEntries(names, es), key);
    }
  }

  /** The stages a successful construction went through, and the relic they assemble. */
  lemma RelicSpecStages(voc: Vocabulary, sim: Similarity, name: string, location: string, level: Value,
                        detail: ItemDetail, fromSet: string, threshold: real)
    requires RelicSpec(voc, sim, name, location, level, detail, fromSet, threshold).Ok?
    ensures var resolved := ResolveSetAndName(voc, name, fromSet, threshold, sim);
      var loc := Validate("location", location, voc.validLocations, threshold, sim);
      var main := ParseSingle(detail.main.GetOr([]));
      && resolved.Ok? && loc.Ok? && main.Ok?
      && var mainName := Validate("item_detail.main.name", NormalizeStatName(main.value.name, main.value.value, voc.validItems),
                                  voc.validItems, threshold, sim);
      && mainName.Ok?
      && var subs := SubStatsSpec(detail.sub.GetOr(StatDict([])), voc.validItems, threshold, sim);
      && subs.Ok?
      && UniqueNames(subs.value)
      && RelicSpec(voc, sim, name, location, level, detail, fromSet, threshold).value
         == Relic(resolved.value.1, loc.value, level, Stat(mainName.value, main.value.value), subs.value,
                  1 + |subs.value|, resolved.value.0, threshold)
  {
    SubStatsUnique(detail.sub.GetOr(StatDict([])), voc.validItems, threshold, sim);
  }

  lemma SubStatsUnique(sub: SubInput, validItems: seq<string>, threshold: real, sim: Similarity)
    requires SubStatsSpec(sub, validItems, threshold, sim).Ok?
    ensures UniqueNames(SubStatsSpec(sub, validItems, threshold, sim).value)
  {
  }

  /** The stored name is listed under the stored set, and a given set is a valid set. */
  lemma RelicNameBelongsToSet(voc: Vocabulary, sim: Similarity, name: string, location: string, level: Value,
                              detail: ItemDetail, fromSet: string, threshold: real)
    requires PlainList(voc.validSets) && PlainList(AllNames(voc.namesBySet))
    requires RelicSpec(voc, sim, name, location, level, detail, fromSet, threshold).Ok?
    ensures var rel := RelicSpec(voc, sim, name, location, level, detail, fromSet, threshold).value;
      && (exists i :: 0 <= i < |voc.namesBySet| && voc.namesBySet[i].0 == rel.fromSet && rel.name in voc.namesBySet[i].1)
      && (fromSet != "" ==> rel.fromSet in voc.validSets)
  {
    RelicSpecStages(voc, sim, name, location, level, detail, fromSet, threshold);
    var resolved := ResolveSetAndName(voc, name, fromSet, threshold, sim);
    var (setName, validName) := resolved.value;
    if fromSet != "" {
      GivenSetHoldsName(voc, name, fromSet, threshold, sim);
    } else {
      InferredSetIsUnique(voc, name, threshold, sim);
      InMatchedSets(voc.namesBySet, validName, setName);
    }
  }

  /** A constructed relic holds a valid location and main-stat name, its main stat keeps the
      value it was given, its sub-stat keys are distinct, and its item number counts them. */
  lemma RelicFieldsValid(voc: Vocabulary, sim: Similarity, name: string, location: string, level: Value,
                         detail: ItemDetail, fromSet: string, threshold: real)
    requires PlainList(voc.validLocations) && PlainList(voc.validItems)
    requires RelicSpec(voc, sim, name, location, level, detail, fromSet, threshold).Ok?
    ensures var rel := RelicSpec(voc, sim, name, location, level, detail, fromSet, threshold).value;
      && rel.location in voc.validLocations
      && rel.mainStat.name in voc.validItems
      && |detail.main.GetOr([])| == 1
      && rel.mainStat.value == detail.main.GetOr([])[0].value
      && rel.level == level
      && rel.threshold == threshold
      && UniqueNames(rel.subStats)
      && rel.itemNumber == 1 + |rel.subStats|
  {
    RelicSpecStages(voc, sim, name, location, level, detail, fromSet, threshold);
    var main := detail.main.GetOr([])[0];
    ValidateReturnsEntry("location", location, voc.validLocations, threshold, sim);
    ValidateReturnsEntry("item_detail.main.name", NormalizeStatName(main.name, main.value, voc.validItems),
                         voc.validItems, threshold, sim);
  }

  /** At most one sub stat per entry given; exactly one per entry for a list input whose
      items are plain and free of `#`. */
  lemma SubStatsCount(sub: SubInput, validItems: seq<string>, threshold: real, sim: Similarity)
    requires !sub.OtherShape?
    requires SubStatsSpec(sub, validItems, threshold, sim).Ok?
    ensures var n := |SubStatsSpec(sub, validItems, threshold, sim).value|;
      var given := if sub.StatList? then |sub.pairs| else |sub.entries|;
      && n <= given
      && (sub.StatList? && PlainList(validItems) && NoHash(validItems) ==> n == given)
  {
    if sub.StatList? && PlainList(validItems) && NoHash(validItems) {
      ListSubStatsKeepsEachEntry(sub.pairs, validItems, threshold, sim);
    }
  }

  /** The item number never exceeds one plus the number of sub-stat entries given,
      and equals it for a list input whose items are plain and free of `#`. */
  lemma RelicItemNumber(voc: Vocabulary, sim: Similarity, name: string, location: string, level: Value,
                        detail: ItemDetail, fromSet: string, threshold: real, sub: SubInput)
    requires detail.sub == Results.Some(sub) && !sub.OtherShape?
    requires RelicSpec(voc, sim, name, location, level, detail, fromSet, threshold).Ok?
    ensures var rel := RelicSpec(voc, sim, name, location, level, detail, fromSet, threshold).value;
      var given := if sub.StatList? then |sub.pairs| else |sub.entries|;
      && rel.itemNumber <= 1 + given
      && (sub.StatList? && PlainList(voc.validItems) && NoHash(voc.validItems) ==> rel.itemNumber == 1 + given)
  {
    RelicSpecStages(voc, sim, name, location, level, detail, fromSet, threshold);
    SubStatsCount(sub, voc.validItems, threshold, sim);
  }

  /** A main-stat dict without exactly one entry aborts construction once the set, the
      name and the location are accepted. */
  lemma RelicRequiresSingleMain(voc: Vocabulary, sim: Similarity, name: string, location: string, level: Value,
                                detail: ItemDetail, fromSet: string, threshold: real)
    requires ResolveSetAndName(voc, name, fromSet, threshold, sim).Ok?
    requires Validate("location", location, voc.validLocations, threshold, sim).Ok?
    requires |detail.main.GetOr([])| != 1
    ensures RelicSpec(voc, sim, name, location, level, detail, fromSet, threshold) == StructuralErr(MainShapeMessage)
  {
  }

  /** A sub-stat input that is neither a list nor a dict aborts construction once every
      earlier field is accepted. */
  lemma RelicRejectsOtherSubShape(voc: Vocabulary, sim: Similarity, name: string, location: string, level: Value,
                                  main: Stat, fromSet: string, threshold: real)
    requires ResolveSetAndName(voc, name, fromSet, threshold, sim).Ok?
    requires Validate("location", location, voc.validLocations, threshold, sim).Ok?
    requires Validate("item_detail.main.name", NormalizeStatName(main.name, main.value, voc.validItems),
                      voc.validItems, threshold, sim).Ok?
    ensures RelicSpec(voc, sim, name, location, level, ItemDetail(Results.Some([main]), Results.Some(OtherShape)), fromSet, threshold)
         == StructuralErr(SubShapeMessage)
  {
  }

  /** A name listed by two sets, with no set given: the intended error carries the
      ambiguity hint, while the source's raise fails with a `TypeError` instead. */
  lemma HintedErrorBecomesTypeError(voc: Vocabulary, x: string, threshold: real, sim: Similarity)
    requires IsRatio(sim) && 0.0 <= threshold <= 1.0
    requires |voc.namesBySet| == 2 && voc.namesBySet[0].1 == [x] && voc.namesBySet[1].1 == [x]
    ensures ResolveSetAndName(voc, x, "", threshold, sim).ValidationErr?
    ensures ResolveSetAndName(voc, x, "", threshold, sim).error.hint == Results.Some(AmbiguousSetHint)
    ensures ResolveSetAndNameAsWritten(voc, x, "", threshold, sim) == TypeErr(HintTypeErrorMessage)
  {
    var nbs := voc.namesBySet;
    assert AllNames(nbs[1..][1..]) == [];
    assert AllNames(nbs) == [x, x];
    ValidateKeepsEntry("name", x, [x, x], threshold, sim);
    assert MatchedSets(nbs[1..][1..], x) == [];
    assert |MatchedSets(nbs, x)| == 2;
    AmbiguousNameFails(voc, x, threshold, sim);
  }

  /** Constructing a relic whose name two sets list, with no set given, ends in the
      `TypeError` of the hinted raise; the intended constructor reports the ambiguity. */
  lemma RelicAmbiguousNameRaisesTypeError(voc: Vocabulary, sim: Similarity, x: string, location: string, level: Value,
                                          detail: ItemDetail, threshold: real)
    requires IsRatio(sim) && 0.0 <= threshold <= 1.0
    requires |voc.namesBySet| == 2 && voc.namesBySet[0].1 == [x] && voc.namesBySet[1].1 == [x]
    ensures RelicSpec(voc, sim, x, location, level, detail, "", threshold) == TypeErr(HintTypeErrorMessage)
    ensures var intended := RelicSpecIntended(voc, sim, x, location, level, detail, "", threshold);
      intended.ValidationErr? && intended.error.hint == Results.Some(AmbiguousSetHint)
  {
    HintedErrorBecomesTypeError(voc, x, threshold, sim);
  }

  /** `to_dict`: the relic with level, main-stat value and sub-stat values cleaned. */
  datatype Exported = Exported(
    name: string,
    location: string,
    level: Value,
    itemNumber: int,
    main: seq<Stat>,
    sub: seq<Stat>,
    fromSet: string)

  function ToDict(rel: Relic): (e: Exported)
    ensures |e.sub| == |rel.subStats| && |e.main| == 1
    ensures e.name == rel.name && e.location == rel.location && e.itemNumber == rel.itemNumber
         && e.fromSet == rel.fromSet
  {
    Exported(rel.name, rel.location, CleanValue(rel.level), rel.itemNumber,
             [Stat(rel.mainStat.name, CleanValue(rel.mainStat.value))],
             seq(|rel.subStats|, k requires 0 <= k < |rel.subStats| => Stat(rel.subStats[k].name, CleanValue(rel.subStats[k].value))),
             rel.fromSet)
  }

  /** A cleaned value: a string of digits and dots that cleaning leaves alone, or an
      untouched non-string. */
  predicate IsClean(v: Value) {
    CleanValue(v) == v && (v.Str? ==> forall i :: 0 <= i < |v.s| ==> IsNumChar(v.s[i]))
  }

  lemma CleanValueIsClean(v: Value)
    ensures IsClean(CleanValue(v))
  {
    CleanValueIdempotent(v);
    if v.Str? {
      NumericCoreIsLeftmostRun(v.s);
      if exists i :: 0 <= i < |v.s| && IsNumChar(v.s[i]) {
        var i :| 0 <= i < |v.s| && IsNumChar(v.s[i]) && (forall k :: 0 <= k < i ==> !IsNumChar(v.s[k]))
          && NumericCore(v.s) == LeadingRun(v.s[i..]);
      }
    }
  }

  /** The export keeps every key, stores each stat value and the level as `_clean_value`
      of the relic's own, and exporting is stable: cleaning the exported values again
      changes nothing. */
  lemma ExportIsClean(rel: Relic)
    ensures var e := ToDict(rel);
      && e.main[0].name == rel.mainStat.name
      && e.main[0].value == CleanValue(rel.mainStat.value) && IsClean(e.main[0].value)
      && e.level == CleanValue(rel.level) && IsClean(e.level)
      && forall k :: 0 <= k < |e.sub| ==>
           && e.sub[k].name == rel.subStats[k].name
           && e.sub[k].value == CleanValue(rel.subStats[k].value)
           && IsClean(e.sub[k].value)
  {
    var e := ToDict(rel);
    CleanValueIsClean(rel.level);
    CleanValueIsClean(rel.mainStat.value);
    forall k | 0 <= k < |e.sub|
      ensures IsClean(e.sub[k].value)
    {
      CleanValueIsClean(rel.subStats[k].value);
    }
  }
}
