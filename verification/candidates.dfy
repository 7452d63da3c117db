/**
  The naming heuristic of `GetTypeCandidates`: from the short names of the types
  declared in one file, the ordered list of short names of the types that may be
  its View or ViewModel counterparts.
 */
module Candidates {
  import opened Strings
  import opened Sequences

  /** The view suffixes, in table order. */
  const ViewSuffixes: seq<string> := ["View", "Flyout", "UserControl", "Page"]

  const ViewModelSuffix: string := "ViewModel"

  /** True when `s` ends, ignoring case, in one of the view suffixes. */
  predicate EndsInViewSuffixIgnoreCase(s: string) {
    exists i :: 0 <= i < |ViewSuffixes| && EndsWithIgnoreCase(s, ViewSuffixes[i])
  }

  /** The name with its last nine characters (the `ViewModel` suffix, in any case) removed. */
  function ViewModelBase(name: string): string
    requires EndsWithIgnoreCase(name, ViewModelSuffix)
  {
    name[..|name| - |ViewModelSuffix|]
  }

  /** What a name ending in `ViewModel` (ignoring case) contributes: its base with
      every view suffix, then the base itself when it already ends in a view suffix. */
  function ViewModelCandidates(name: string): seq<string> {
    if EndsWithIgnoreCase(name, ViewModelSuffix) then
      var base := ViewModelBase(name);
      seq(|ViewSuffixes|, i requires 0 <= i < |ViewSuffixes| => base + ViewSuffixes[i])
      + (if EndsInViewSuffixIgnoreCase(base) then [base] else [])
    else
      []
  }

  /** What one view suffix contributes for a name: nothing, or, when the name
      ends (exactly) in it, the name with the suffix replaced by `ViewModel`
      followed by the name with `ViewModel` appended. */
  function ViewSuffixCandidates(name: string, suffix: string): seq<string> {
    if EndsWith(name, suffix) then
      [name[..|name| - |suffix|] + ViewModelSuffix, name + ViewModelSuffix]
    else
      []
  }

  /** The contributions of the suffixes in `suffixes`, in order. */
  function ViewCandidates(name: string, suffixes: seq<string>): seq<string> {
    FlatMap(s => ViewSuffixCandidates(name, s), suffixes)
  }

  /** Everything one type name contributes. */
  function CandidatesFor(name: string): seq<string> {
    ViewModelCandidates(name) + ViewCandidates(name, ViewSuffixes)
  }

  /** The candidates of all names, each name's contribution in input order. */
  function TypeCandidates(names: seq<string>): seq<string> {
    FlatMap(CandidatesFor, names)
  }

  /** One iteration of the loop of `GetTypeCandidates`: the view model test,
      then one view suffix per iteration of the inner loop. */
  method NameCandidates(name: string) returns (candidates: seq<string>)
    ensures candidates == CandidatesFor(name)
  {
    candidates := ViewModelCandidates(name);
    var j := 0;
    while j < |ViewSuffixes|
      invariant 0 <= j <= |ViewSuffixes|
      invariant candidates == ViewModelCandidates(name) + ViewCandidates(name, ViewSuffixes[..j])
    {
      assert ViewSuffixes[..j + 1] == ViewSuffixes[..j] + [ViewSuffixes[j]];
      ViewCandidatesSnoc(name, ViewSuffixes[..j], ViewSuffixes[j]);
      candidates := candidates + ViewSuffixCandidates(name, ViewSuffixes[j]);
      j := j + 1;
    }
    assert ViewSuffixes[..j] == ViewSuffixes;
  }

  /** The accumulating loop of `GetTypeCandidates`, one type name per iteration. */
  method GetTypeCandidates(names: seq<string>) returns (candidates: seq<string>)
    ensures candidates == TypeCandidates(names)
  {
    candidates := [];
    var i := 0;
    while i < |names|
      invariant 0 <= i <= |names|
      invariant candidates == TypeCandidates(names[..i])
    {
      assert names[..i + 1] == names[..i] + [names[i]];
      FlatMapSnoc(CandidatesFor, names[..i], names[i]);
      var more := NameCandidates(names[i]);
      candidates := candidates + more;
      i := i + 1;
    }
    assert names[..i] == names;
  }

  // ---------------------------------------------------------------------------
  // Exclusivity of the suffix tests
  // ---------------------------------------------------------------------------

  /** No two view suffixes can end the same name: their last characters differ. */
  lemma ViewSuffixesExclusive(name: string, i: nat, j: nat)
    requires i < |ViewSuffixes| && j < |ViewSuffixes|
    requires EndsWith(name, ViewSuffixes[i]) && EndsWith(name, ViewSuffixes[j])
    ensures i == j
  {
    var n := |name|;
    assert name[n - 1] == ViewSuffixes[i][|ViewSuffixes[i]| - 1] by {
      assert name[n - |ViewSuffixes[i]|..][|ViewSuffixes[i]| - 1] == name[n - 1];
    }
    assert name[n - 1] == ViewSuffixes[j][|ViewSuffixes[j]| - 1] by {
      assert name[n - |ViewSuffixes[j]|..][|ViewSuffixes[j]| - 1] == name[n - 1];
    }
  }

  /** A name ending in `ViewModel`, in any case, does not end exactly in any view suffix. */
  lemma ViewModelNameIsNoViewName(name: string)
    requires EndsWithIgnoreCase(name, ViewModelSuffix)
    ensures forall i :: 0 <= i < |ViewSuffixes| ==> !EndsWith(name, ViewSuffixes[i])
  {
    var n := |name|;
    var tail := name[n - |ViewModelSuffix|..];
    assert UpperAscii(tail[8]) == 'L' && UpperAscii(tail[7]) == 'E';
    assert tail[8] == name[n - 1] && tail[7] == name[n - 2];
    forall i | 0 <= i < |ViewSuffixes|
      ensures !EndsWith(name, ViewSuffixes[i])
    {
      var s := ViewSuffixes[i];
      if |s| <= n {
        var t := name[n - |s|..];
        assert t[|s| - 1] == name[n - 1] && t[|s| - 2] == name[n - 2];
      }
    }
  }

  // ---------------------------------------------------------------------------
  // The suffix loop
  // ---------------------------------------------------------------------------

  /** One more suffix appends its own contribution. */
  lemma ViewCandidatesSnoc(name: string, suffixes: seq<string>, suffix: string)
    ensures ViewCandidates(name, suffixes + [suffix])
            == ViewCandidates(name, suffixes) + ViewSuffixCandidates(name, suffix)
  {
    FlatMapSnoc(s => ViewSuffixCandidates(name, s), suffixes, suffix);
  }

  /** Suffixes that do not end the name contribute nothing. */
  lemma UnmatchedSuffixesContributeNothing(name: string, suffixes: seq<string>)
    requires forall i :: 0 <= i < |suffixes| ==> !EndsWith(name, suffixes[i])
    ensures ViewCandidates(name, suffixes) == []
  {
    FlatMapOfEmpties(s => ViewSuffixCandidates(name, s), suffixes);
  }

  // ---------------------------------------------------------------------------
  // What one name contributes
  // ---------------------------------------------------------------------------

  /** A name ending in `ViewModel` (ignoring case) yields `base + s` for each view
      suffix `s` in table order, then `base` exactly when `base` itself ends,
      ignoring case, in a view suffix; and nothing else. */
  lemma ViewModelNameCandidates(name: string)
    requires EndsWithIgnoreCase(name, ViewModelSuffix)
    ensures var base := name[..|name| - |ViewModelSuffix|];
            var r := CandidatesFor(name);
            && |r| == (if EndsInViewSuffixIgnoreCase(base) then 5 else 4)
            && (forall i :: 0 <= i < 4 ==> r[i] == base + ViewSuffixes[i])
            && (|r| == 5 ==> r[4] == base)
  {
    ViewModelNameIsNoViewName(name);
    UnmatchedSuffixesContributeNothing(name, ViewSuffixes);
  }

  /** A name ending exactly in view suffix `s` yields the name with `s` replaced
      by `ViewModel`, then the name with `ViewModel` appended; and nothing else. */
  lemma ViewNameCandidates(name: string, k: nat)
    requires k < |ViewSuffixes| && EndsWith(name, ViewSuffixes[k])
    ensures CandidatesFor(name)
            == [name[..|name| - |ViewSuffixes[k]|] + ViewModelSuffix, name + ViewModelSuffix]
  {
    if EndsWithIgnoreCase(name, ViewModelSuffix) {
      ViewModelNameIsNoViewName(name);
      assert false;
    }
    forall i | 0 <= i < |ViewSuffixes| && i != k
      ensures !EndsWith(name, ViewSuffixes[i])
    {
      if EndsWith(name, ViewSuffixes[i]) {
        ViewSuffixesExclusive(name, i, k);
      }
    }
    FlatMapOfSingle(s => ViewSuffixCandidates(name, s), ViewSuffixes, k);
  }

  /** A name contributes no candidates exactly when it ends neither in
      `ViewModel` (ignoring case) nor exactly in a view suffix. */
  lemma NoCandidatesIff(name: string)
    ensures CandidatesFor(name) == [] <==>
            (!EndsWithIgnoreCase(name, ViewModelSuffix)
             && forall i :: 0 <= i < |ViewSuffixes| ==> !EndsWith(name, ViewSuffixes[i]))
  {
    if EndsWithIgnoreCase(name, ViewModelSuffix) {
      ViewModelNameCandidates(name);
    } else if k :| 0 <= k < |ViewSuffixes| && EndsWith(name, ViewSuffixes[k]) {
      ViewNameCandidates(name, k);
    } else {
      UnmatchedSuffixesContributeNothing(name, ViewSuffixes);
    }
  }

  /** Every candidate is on the other side of the naming convention: a name
      ending in `ViewModel`, or a name ending (ignoring case) in a view suffix. */
  lemma CandidatesCrossSides(name: string)
    ensures forall c :: c in CandidatesFor(name) ==>
              EndsWith(c, ViewModelSuffix) || EndsInViewSuffixIgnoreCase(c)
  {
    forall c | c in CandidatesFor(name)
      ensures EndsWith(c, ViewModelSuffix) || EndsInViewSuffixIgnoreCase(c)
    {
      if EndsWithIgnoreCase(name, ViewModelSuffix) {
        ViewModelNameCandidates(name);
        var base := name[..|name| - |ViewModelSuffix|];
        var i :| 0 <= i < |CandidatesFor(name)| && CandidatesFor(name)[i] == c;
        if i < 4 {
          assert c == base + ViewSuffixes[i];
          assert c[|c| - |ViewSuffixes[i]|..] == ViewSuffixes[i];
          EndsWithImpliesIgnoreCase(c, ViewSuffixes[i]);
        }
      } else if k :| 0 <= k < |ViewSuffixes| && EndsWith(name, ViewSuffixes[k]) {
        ViewNameCandidates(name, k);
        var vm := ViewModelSuffix;
        var c0 := name[..|name| - |ViewSuffixes[k]|] + vm;
        var c1 := name + vm;
        assert c0[|c0| - |vm|..] == vm;
        assert c1[|c1| - |vm|..] == vm;
      } else {
        NoCandidatesIff(name);
      }
    }
  }

  /** Round trip between the two sides: the view name `b + s` yields the view
      model `b + "ViewModel"` first, and that view model's candidate for `s` is
      the view name again. */
  lemma ViewRoundTrip(base: string, k: nat)
    requires k < |ViewSuffixes|
    ensures CandidatesFor(base + ViewSuffixes[k])
            == [base + ViewModelSuffix, base + ViewSuffixes[k] + ViewModelSuffix]
    ensures |CandidatesFor(base + ViewModelSuffix)| >= 4
            && CandidatesFor(base + ViewModelSuffix)[k] == base + ViewSuffixes[k]
  {
    var name := base + ViewSuffixes[k];
    assert name[|name| - |ViewSuffixes[k]|..] == ViewSuffixes[k];
    ViewNameCandidates(name, k);
    assert name[..|name| - |ViewSuffixes[k]|] == base;
    var vm := base + ViewModelSuffix;
    assert vm[|vm| - |ViewModelSuffix|..] == ViewModelSuffix;
    ViewModelNameCandidates(vm);
    assert vm[..|vm| - |ViewModelSuffix|] == base;
  }

  // ---------------------------------------------------------------------------
  // Many names
  // ---------------------------------------------------------------------------

  /** The candidates of a concatenation are the concatenation of the candidates. */
  lemma TypeCandidatesAppend(xs: seq<string>, ys: seq<string>)
    ensures TypeCandidates(xs + ys) == TypeCandidates(xs) + TypeCandidates(ys)
  {
    FlatMapAppend(CandidatesFor, xs, ys);
  }

  /** No names, no candidates; one name, exactly its own candidates. */
  lemma TypeCandidatesBase(name: string)
    ensures TypeCandidates([]) == []
    ensures TypeCandidates([name]) == CandidatesFor(name)
  {
    assert [name][..0] == [];
  }

  /** A string is a candidate of a list of names exactly when it is a candidate
      of one of those names. */
  lemma TypeCandidatesMembership(names: seq<string>, c: string)
    ensures c in TypeCandidates(names) <==> exists i :: 0 <= i < |names| && c in CandidatesFor(names[i])
  {
    FlatMapMembership(CandidatesFor, names, c);
  }
}
