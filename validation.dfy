/** The field validator of relic.py: `_validate`, `suggest_similar` and `ValidationError`. */
module Validation {
  import Results
  import opened Strings
  import opened CloseMatches

  /** What `ValidationError` carries: the field, the offending value, the allowed values,
      the `suggest_similar` text its message shows, and the hint some raise sites pass. */
  datatype ValidationError = ValidationError(
    field: string, value: string, candidates: seq<string>, suggestions: string, hint: Results.Option<string>)

  /** How building a relic ends: a value, or one of the exceptions the source raises.
      `StructuralErr` is Python's `ValueError`; `TypeErr` is the `TypeError` of a call
      with a keyword argument the callee does not accept. */
  datatype Outcome<+T> =
    | Ok(value: T)
    | ValidationErr(error: ValidationError)
    | StructuralErr(message: string)
    | TypeErr(message: string)
  {
    predicate IsFailure() {
      !Ok?
    }

    function PropagateFailure<U>(): Outcome<U>
      requires !Ok?
    {
      match this
      case ValidationErr(e) => ValidationErr(e)
      case StructuralErr(m) => StructuralErr(m)
      case TypeErr(m) => TypeErr(m)
    }

    function Extract(): T
      requires Ok?
    {
      value
    }
  }

  /** The text `suggest_similar` returns when nothing reaches 0.5. */
  const NoSuggestion: string := "无推荐"

  lemma JoinedIsNotMarker(s: seq<string>)
    requires |s| > 1
    ensures Join(s, ", ") != NoSuggestion
  {
    assert Join(s, ", ")[|s[0]|] == ',';
    assert ',' !in NoSuggestion;
  }

  /** `Relic.suggest_similar`: up to three entries scoring at least 0.5, joined by ", ". */
  function SuggestSimilar(value: string, validList: seq<string>, sim: Similarity): (r: string)
    ensures r == NoSuggestion <==> GetCloseMatches(value, validList, 3, 0.5, sim) == []
                                   || GetCloseMatches(value, validList, 3, 0.5, sim) == [NoSuggestion]
  {
    var s := GetCloseMatches(value, validList, 3, 0.5, sim);
    if s == [] then NoSuggestion
    else
      assert |s| > 1 ==> Join(s, ", ") != NoSuggestion by {
        if |s| > 1 {
          JoinedIsNotMarker(s);
        }
      }
      Join(s, ", ")
  }

  /** `ValidationError(field, value, candidates)` as raised at relic.py:123. */
  function NewValidationError(field: string, value: string, candidates: seq<string>, sim: Similarity): ValidationError {
    ValidationError(field, value, candidates, SuggestSimilar(value, candidates, sim), Results.None)
  }

  /** `Relic._validate`: the best entry reaching `threshold`; failing that, the first
      suggestion at 0.5 read back from the joined suggestion text; failing that, an error. */
  function Validate(field: string, value: string, validList: seq<string>, threshold: real, sim: Similarity): (r: Outcome<string>)
    ensures r.StructuralErr? <==> !(0.0 <= threshold <= 1.0)
    ensures !r.TypeErr?
    ensures r.ValidationErr? ==> r.error.field == field && r.error.value == value && r.error.candidates == validList
    ensures r.ValidationErr? ==> r.error.hint == Results.None
  {
    if !(0.0 <= threshold <= 1.0) then StructuralErr("cutoff must be in [0.0, 1.0]")
    else
      var matches := GetCloseMatches(value, validList, 1, threshold, sim);
      if matches != [] then Ok(matches[0])
      else
        var suggestions := SuggestSimilar(value, validList, sim);
        if suggestions == NoSuggestion then ValidationErr(NewValidationError(field, value, validList, sim))
        else Ok(Strip(BeforeFirst(suggestions, ',')))
  }

  /** An entry that the fallback's `split(",")[0].strip()` gives back unchanged and that
      cannot be mistaken for the no-suggestion text. */
  predicate PlainEntry(x: string) {
    && ',' !in x
    && (x == [] || (!IsSpace(x[0]) && !IsSpace(x[|x| - 1])))
    && x != NoSuggestion
  }

  ghost predicate PlainList(xs: seq<string>) {
    forall i :: 0 <= i < |xs| ==> PlainEntry(xs[i])
  }

  /** With an entry at `threshold`, the result is the best-scoring entry. */
  lemma ValidateUsesBestAtThreshold(field: string, value: string, validList: seq<string>, threshold: real, sim: Similarity)
    requires 0.0 <= threshold <= 1.0
    requires exists x :: x in validList && sim(x, value) >= threshold
    ensures var r := Validate(field, value, validList, threshold, sim);
      && r.Ok? && r.value in validList && sim(r.value, value) >= threshold
      && forall x :: x in validList ==> sim(x, value) <= sim(r.value, value) || sim(x, value) < threshold
  {
    EmptyIff(value, validList, 1, threshold, sim);
    BestFirst(value, validList, 1, threshold, sim);
  }

  /** Below `threshold`, the result is the best entry reaching 0.5, if the entries are plain. */
  lemma ValidateFallsBackToBestSuggestion(field: string, value: string, validList: seq<string>, threshold: real, sim: Similarity)
    requires 0.0 <= threshold <= 1.0
    requires PlainList(validList)
    requires forall x :: x in validList ==> sim(x, value) < threshold
    requires exists x :: x in validList && sim(x, value) >= 0.5
    ensures var r := Validate(field, value, validList, threshold, sim);
      && r.Ok? && r.value in validList && sim(r.value, value) >= 0.5
      && forall x :: x in validList ==> sim(x, value) <= sim(r.value, value) || sim(x, value) < 0.5
  {
    EmptyIff(value, validList, 1, threshold, sim);
    EmptyIff(value, validList, 3, 0.5, sim);
    BestFirst(value, validList, 3, 0.5, sim);
    var s := GetCloseMatches(value, validList, 3, 0.5, sim);
    var best := s[0];
    assert PlainEntry(best);
    BeforeFirstOfJoin(s, ", ", ',');
    StripUnpadded(best);
  }

  /** `_validate` raises `ValidationError` exactly when no entry reaches 0.5 or `threshold`. */
  lemma ValidateFailsIff(field: string, value: string, validList: seq<string>, threshold: real, sim: Similarity)
    requires 0.0 <= threshold <= 1.0
    requires PlainList(validList)
    ensures Validate(field, value, validList, threshold, sim).ValidationErr?
        <==> forall x :: x in validList ==> sim(x, value) < threshold && sim(x, value) < 0.5
  {
    EmptyIff(value, validList, 1, threshold, sim);
    EmptyIff(value, validList, 3, 0.5, sim);
    var s := GetCloseMatches(value, validList, 3, 0.5, sim);
    if s != [] {
      assert PlainEntry(s[0]);
    }
  }

  /** Every value `_validate` returns is an entry of the list, if the entries are plain. */
  lemma ValidateReturnsEntry(field: string, value: string, validList: seq<string>, threshold: real, sim: Similarity)
    requires PlainList(validList)
    ensures var r := Validate(field, value, validList, threshold, sim); r.Ok? ==> r.value in validList
  {
    if 0.0 <= threshold <= 1.0 {
      if exists x :: x in validList && sim(x, value) >= threshold {
        ValidateUsesBestAtThreshold(field, value, validList, threshold, sim);
      } else if exists x :: x in validList && sim(x, value) >= 0.5 {
        ValidateFallsBackToBestSuggestion(field, value, validList, threshold, sim);
      } else {
        ValidateFailsIff(field, value, validList, threshold, sim);
      }
    }
  }

  /** A value that is already an entry scores 1 against itself and comes back unchanged. */
  lemma ValidateKeepsEntry(field: string, value: string, validList: seq<string>, threshold: real, sim: Similarity)
    requires IsRatio(sim)
    requires 0.0 <= threshold <= 1.0
    requires value in validList
    ensures Validate(field, value, validList, threshold, sim) == Ok(value)
  {
    ExactWordFirst(value, validList, 1, threshold, sim);
  }
}
